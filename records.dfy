/** The record dictionaries dnsctl passes around (Cloudflare's DNS record shape, after
    normalisation), the protected-record ledger entries, and the record-type constants
    of dnsctl/config.py. A key the source reads with `.get(k, default)` is an `Option`
    (`None` = key absent); `type` and `name`, which the source indexes with `[]`, are
    always present. */
module Records {
  import opened Wrappers

  /** The SRV `data` sub-dictionary. An absent `data` key reads as `{}` wherever the
      source looks at it, so both are `EmptyData`. */
  datatype SrvData = SrvData(
    weight: Option<int>,
    port: Option<int>,
    target: Option<string>,
    service: Option<string>,
    proto: Option<string>,
    name: Option<string>,
    priority: Option<int>)

  const EmptyData := SrvData(None, None, None, None, None, None, None)

  datatype Record = Record(
    id: Option<string>,
    rtype: string,
    name: string,
    content: Option<string>,
    ttl: Option<int>,
    proxied: Option<bool>,
    priority: Option<int>,
    data: SrvData)

  /** One entry of the user's protected-record ledger (`metadata.json`). */
  datatype ProtectedEntry = ProtectedEntry(rtype: Option<string>, name: Option<string>, reason: Option<string>)

  /** `SUPPORTED_RECORD_TYPES` (dnsctl/config.py:26). */
  const SupportedTypes: seq<string> := ["A", "AAAA", "CNAME", "MX", "TXT", "SRV"]

  /** `SYSTEM_PROTECTED_TYPES` (dnsctl/config.py:40). */
  const SystemProtectedTypes: set<string> := {"NS"}

  /** `r.get("id")`, with an absent id read as the empty string. */
  function IdKey(r: Record): (key: string) {
    r.id.GetOr("")
  }

  /** `if r.get("id"):` — an empty-string id counts as no id. */
  predicate HasId(r: Record) {
    IdKey(r) != ""
  }

  function ContentOf(r: Record): (content: string) {
    r.content.GetOr("")
  }

  function TtlOf(r: Record): (ttl: int) {
    r.ttl.GetOr(1)
  }

  function ProxiedOf(r: Record): (proxied: bool) {
    r.proxied.GetOr(false)
  }

  function PriorityOf(r: Record): (priority: int) {
    r.priority.GetOr(0)
  }
}
