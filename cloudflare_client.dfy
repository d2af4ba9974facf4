/** The pure parts of dnsctl's Cloudflare client (dnsctl/core/cloudflare_client.py):
    API-token sanitising, the record shape conversions in both directions, and the
    text of `CloudflareAPIError`. */
module CloudflareClient {
  import opened Wrappers
  import opened Text
  import opened Records

  // ------------------------------------------------------------------
  // CloudflareAPIError
  // ------------------------------------------------------------------

  /** One entry of an API error list: its `"message"` if it has one, and its `str()`
      form, which the message falls back to. */
  datatype ErrorEntry = ErrorEntry(message: Option<string>, text: string)

  function EntryMessage(e: ErrorEntry): (m: string) {
    e.message.GetOr(e.text)
  }

  function EntryMessages(errors: seq<ErrorEntry>): (ms: seq<string>)
    ensures |ms| == |errors| && forall i :: 0 <= i < |errors| ==> ms[i] == EntryMessage(errors[i])
  {
    if |errors| == 0 then [] else [EntryMessage(errors[0])] + EntryMessages(errors[1..])
  }

  /** The text of `CloudflareAPIError(status, errors)`. */
  function ApiErrorMessage(status: int, errors: seq<ErrorEntry>): (m: string)
    ensures StartsWith(m, "Cloudflare API error (" + IntToString(status) + "): ")
  {
    "Cloudflare API error (" + IntToString(status) + "): " + Join(EntryMessages(errors), "; ")
  }

  /** The message names the status code and every error's message. */
  lemma ApiErrorMessageMentions(status: int, errors: seq<ErrorEntry>)
    ensures Contains(ApiErrorMessage(status, errors), IntToString(status))
    ensures forall i :: 0 <= i < |errors| ==> Contains(ApiErrorMessage(status, errors), EntryMessage(errors[i]))
  {
    var prefix := "Cloudflare API error (";
    var rest := "): " + Join(EntryMessages(errors), "; ");
    ContainsSelf(IntToString(status));
    ContainsInside(IntToString(status), IntToString(status), prefix, rest);
    assert prefix + IntToString(status) + rest == ApiErrorMessage(status, errors);
    forall i | 0 <= i < |errors| ensures Contains(ApiErrorMessage(status, errors), EntryMessage(errors[i])) {
      var head := prefix + IntToString(status) + "): ";
      JoinContainsPart(EntryMessages(errors), "; ", i);
      ContainsInside(Join(EntryMessages(errors), "; "), EntryMessage(errors[i]), head, "");
      assert head + Join(EntryMessages(errors), "; ") + "" == ApiErrorMessage(status, errors);
    }
  }

  // ------------------------------------------------------------------
  // sanitize_token
  // ------------------------------------------------------------------

  /** The three `ValueError`s `sanitize_token` raises. */
  datatype TokenError = CurlPasted | EmptyToken | BadFormat {
    function Message(): (msg: string) {
      match this
      case CurlPasted =>
        "It looks like you pasted a curl command.\nPlease paste only the API token value (the 40-character string)."
      case EmptyToken => "Token is empty."
      case BadFormat =>
        "Invalid API token format.\nA Cloudflare API token should be an alphanumeric string (typically 40 characters).\nDo not paste the full curl command or Bearer header."
    }
  }

  predicate IsTokenChar(c: char) {
    ('A' <= c <= 'Z') || ('a' <= c <= 'z') || ('0' <= c <= '9') || c == '_' || c == '-'
  }

  predicate AllTokenChars(s: string) {
    forall i :: 0 <= i < |s| ==> IsTokenChar(s[i])
  }

  /** `_TOKEN_PATTERN.match(s)`, i.e. `^[A-Za-z0-9_\-]{20,}$`. The `$` would also accept one
      trailing newline, but every string tested has been stripped of whitespace first. */
  predicate MatchesTokenPattern(s: string) {
    |s| >= 20 && AllTokenChars(s)
  }

  /** `s[1:-1]`, which is empty for a one-character string. */
  function Inner(s: string): (inner: string) {
    if |s| >= 2 then s[1..|s| - 1] else ""
  }

  /** `s[n:]` for `n >= 0`, empty when `n` is past the end. */
  function Drop(s: string, n: nat): (rest: string) {
    if n <= |s| then s[n..] else ""
  }

  /** Step one: trim, then drop one pair of matching surrounding quotes. */
  function Unquote(raw: string): (cleaned: string) {
    var cleaned := Trim(raw);
    if (StartsWith(cleaned, "\"") && EndsWith(cleaned, "\"")) || (StartsWith(cleaned, "'") && EndsWith(cleaned, "'"))
    then Trim(Inner(cleaned))
    else cleaned
  }

  function AsciiLower(c: char): (lower: char) {
    if 'A' <= c <= 'Z' then (c as int + 32) as char else c
  }

  /** `s.lower().startswith("curl ")`. Only ASCII letters lower-case to `c`, `u`, `r` and `l`,
      so the test reads the first five characters. */
  predicate LooksLikeCurl(s: string) {
    |s| >= 5 && AsciiLower(s[0]) == 'c' && AsciiLower(s[1]) == 'u' && AsciiLower(s[2]) == 'r'
    && AsciiLower(s[3]) == 'l' && s[4] == ' '
  }

  predicate IsDoubleQuote(c: char) {
    c == '"'
  }

  predicate IsSingleQuote(c: char) {
    c == '\''
  }

  /** The last step: `strip().strip('"').strip("'").strip()`. */
  function FinalStrip(s: string): (t: string) {
    Trim(Strip(Strip(Trim(s), IsDoubleQuote), IsSingleQuote))
  }

  function Validate(cleaned: string): (r: Result<string, TokenError>)
    ensures r.Ok? <==> MatchesTokenPattern(cleaned)
    ensures r.Ok? ==> r.value == cleaned
    ensures r.Err? ==> r.error == if cleaned == "" then EmptyToken else BadFormat
  {
    if cleaned == "" then Err(EmptyToken)
    else if !MatchesTokenPattern(cleaned) then Err(BadFormat)
    else Ok(cleaned)
  }

  /** `cleaned[cleaned.rfind("Bearer ") + 7:]`. */
  function HeaderTail(cleaned: string): (tail: string) {
    Drop(cleaned, RFind(cleaned, "Bearer ") + 7)
  }

  /** `sanitize_token` as the source writes it: whenever "Bearer" occurs, the text after the
      last "Bearer " is kept, so when "Bearer" occurs only without a following space `rfind`
      yields -1 and the first six characters are dropped. */
  function SanitizeTokenAsWritten(raw: string): (r: Result<string, TokenError>)
    ensures r.Ok? ==> MatchesTokenPattern(r.value)
  {
    CheckCleanedAsWritten(Unquote(raw))
  }

  /** The steps of `sanitize_token` after unquoting, as written. */
  function CheckCleanedAsWritten(cleaned: string): (r: Result<string, TokenError>)
    ensures r.Ok? ==> MatchesTokenPattern(r.value)
  {
    if Contains(cleaned, "Bearer") then Validate(FinalStrip(HeaderTail(cleaned)))
    else if LooksLikeCurl(cleaned) then Err(CurlPasted)
    else Validate(FinalStrip(cleaned))
  }

  /** `sanitize_token` with the header prefix taken only where "Bearer " actually occurs. */
  function SanitizeToken(raw: string): (r: Result<string, TokenError>)
    ensures r.Ok? ==> MatchesTokenPattern(r.value)
  {
    CheckCleaned(Unquote(raw))
  }

  /** The steps of `sanitize_token` after unquoting, corrected. */
  function CheckCleaned(cleaned: string): (r: Result<string, TokenError>)
    ensures r.Ok? ==> MatchesTokenPattern(r.value)
  {
    if Contains(cleaned, "Bearer ") then Validate(FinalStrip(HeaderTail(cleaned)))
    else if LooksLikeCurl(cleaned) then Err(CurlPasted)
    else Validate(FinalStrip(cleaned))
  }

  /** A string of token characters contains neither "Bearer " nor a curl prefix. */
  lemma TokenCharsNoHeader(s: string)
    requires AllTokenChars(s)
    ensures !Contains(s, "Bearer ") && !LooksLikeCurl(s)
  {
    forall i | 0 <= i <= |s| - 7 ensures !OccursAt(s, "Bearer ", i) {
      assert IsTokenChar(s[i + 6]);
      assert s[i..i + 7][6] == s[i + 6];
    }
    if |s| >= 5 {
      assert IsTokenChar(s[4]);
    }
  }

  lemma TokenCharKept(c: char)
    requires IsTokenChar(c)
    ensures !IsSpace(c) && !IsDoubleQuote(c) && !IsSingleQuote(c)
  {
  }

  /** Stripping leaves a string alone whose ends are not stripped. */
  lemma StripNoop(s: string)
    requires s != [] && IsTokenChar(s[0]) && IsTokenChar(s[|s| - 1])
    ensures Trim(s) == s && Strip(s, IsDoubleQuote) == s && Strip(s, IsSingleQuote) == s
  {
    TokenCharKept(s[0]);
    TokenCharKept(s[|s| - 1]);
  }

  /** The final strip leaves a string of token characters as it is. */
  lemma FinalStripOfTokenChars(s: string)
    requires AllTokenChars(s)
    ensures FinalStrip(s) == s
  {
    if s != [] {
      StripNoop(s);
    }
  }

  /** Unquoting and the final strip leave a well-formed token as it is. */
  lemma UnquoteOfToken(t: string)
    requires MatchesTokenPattern(t)
    ensures Unquote(t) == t && FinalStrip(t) == t
  {
    StripNoop(t);
    FinalStripOfTokenChars(t);
    assert t[..1][0] == t[0];
    TokenCharKept(t[0]);
  }

  /** A well-formed token passes the corrected sanitiser unchanged. */
  lemma SanitizeKeepsToken(t: string)
    requires MatchesTokenPattern(t)
    ensures SanitizeToken(t) == Ok(t)
  {
    UnquoteOfToken(t);
    TokenCharsNoHeader(t);
  }

  /** Every token the corrected sanitiser returns is a fixed point of it, so sanitising twice
      is sanitising once. */
  lemma SanitizeTokenIdempotent(raw: string)
    ensures SanitizeToken(raw).Ok? ==> SanitizeToken(SanitizeToken(raw).value) == SanitizeToken(raw)
  {
    if SanitizeToken(raw).Ok? {
      SanitizeKeepsToken(SanitizeToken(raw).value);
    }
  }

  /** The source's sanitiser keeps a well-formed token unchanged when it does not
      contain "Bearer". */
  lemma SanitizeAsWrittenKeepsToken(t: string)
    requires MatchesTokenPattern(t) && !Contains(t, "Bearer")
    ensures SanitizeTokenAsWritten(t) == Ok(t)
  {
    UnquoteOfToken(t);
    TokenCharsNoHeader(t);
  }

  /** The source's sanitiser never returns a well-formed token that contains "Bearer"
      unchanged: it validates the token without its first six characters instead. */
  lemma SanitizeAsWrittenMangles(t: string)
    requires MatchesTokenPattern(t) && Contains(t, "Bearer")
    ensures SanitizeTokenAsWritten(t) == Validate(t[6..])
    ensures SanitizeTokenAsWritten(t) != Ok(t)
  {
    UnquoteOfToken(t);
    CleanedTokenMangled(t);
  }

  lemma CleanedTokenMangled(t: string)
    requires MatchesTokenPattern(t) && Contains(t, "Bearer")
    ensures CheckCleanedAsWritten(t) == Validate(t[6..])
    ensures CheckCleanedAsWritten(t) != Ok(t)
  {
    TokenCharsNoHeader(t);
    assert HeaderTail(t) == Drop(t, 6);
    TokenTailStrips(t);
    assert |t[6..]| != |t|;
  }

  /** A well-formed token without its first six characters is not changed by the final strip. */
  lemma TokenTailStrips(t: string)
    requires MatchesTokenPattern(t)
    ensures FinalStrip(Drop(t, 6)) == t[6..]
  {
    var u := Drop(t, 6);
    assert u == t[6..];
    TokenCharsTail(t, 6);
    FinalStripOfTokenChars(u);
  }

  lemma TokenCharsTail(s: string, n: nat)
    requires AllTokenChars(s) && n <= |s|
    ensures AllTokenChars(s[n..])
  {
    forall i | 0 <= i < |s| - n ensures IsTokenChar(s[n..][i]) {
      assert s[n..][i] == s[n + i];
    }
  }

  /** A concrete token the source's sanitiser changes: "Bearer" followed by twenty zeros
      comes back as the twenty zeros. */
  lemma MangledTokenExample()
    ensures MatchesTokenPattern("Bearer" + "00000000000000000000")
    ensures SanitizeTokenAsWritten("Bearer" + "00000000000000000000") == Ok("00000000000000000000")
  {
    var t := "Bearer" + "00000000000000000000";
    assert t[..6] == "Bearer";
    assert OccursAt(t, "Bearer", 0);
    assert MatchesTokenPattern(t);
    SanitizeAsWrittenMangles(t);
    assert t[6..] == "00000000000000000000";
  }

  lemma HeaderContainsBearer(s: string)
    ensures Contains(s, "Bearer ") ==> Contains(s, "Bearer")
  {
    if Contains(s, "Bearer ") {
      ContainsPrefix(s, "Bearer ", 6);
      assert "Bearer "[..6] == "Bearer";
    }
  }

  /** After unquoting, a curl command without "Bearer" is rejected with the curl message. */
  lemma SanitizeRejectsCurl(raw: string)
    requires LooksLikeCurl(Unquote(raw)) && !Contains(Unquote(raw), "Bearer")
    ensures SanitizeTokenAsWritten(raw) == Err(CurlPasted)
    ensures SanitizeToken(raw) == Err(CurlPasted)
  {
    HeaderContainsBearer(Unquote(raw));
  }

  /** The last "Bearer " of a header that ends in token characters is the one before them. */
  lemma LastHeaderAt(prefix: string, rest: string)
    requires forall i :: 0 <= i < |rest| ==> rest[i] != ' '
    ensures RFind(prefix + "Bearer " + rest, "Bearer ") == |prefix|
    ensures Contains(prefix + "Bearer " + rest, "Bearer")
  {
    var s := prefix + "Bearer " + rest;
    var at := |prefix|;
    assert s[at..at + 7] == "Bearer ";
    assert OccursAt(s, "Bearer ", at);
    assert s[at..at + 6] == "Bearer";
    assert OccursAt(s, "Bearer", at);
    forall j | at < j && j + 7 <= |s| ensures !OccursAt(s, "Bearer ", j) {
      assert s[j + 6] == rest[j - at - 1];
      assert s[j..j + 7][6] == s[j + 6];
    }
  }

  /** A token followed by at most a closing double quote strips to the token. */
  lemma FinalStripOfQuotedTail(t: string, tail: string)
    requires MatchesTokenPattern(t)
    requires tail == "" || tail == "\""
    ensures FinalStrip(t + tail) == t
  {
    if tail == "\"" {
      var s := t + tail;
      TokenCharKept(t[0]);
      assert s[0] == t[0];
      assert Trim(s) == s;
      assert StripLeft(s, IsDoubleQuote) == s;
      assert StripRight(s, IsDoubleQuote) == StripRight(s[..|s| - 1], IsDoubleQuote);
      assert s[..|s| - 1] == t;
      StripNoop(t);
      assert StripRight(t, IsDoubleQuote) == t;
      assert Strip(s, IsDoubleQuote) == t;
      UnquoteOfToken(t);
    } else {
      assert t + tail == t;
      UnquoteOfToken(t);
    }
  }

  /** In a header that ends in a token and at most a closing quote, the header tail is
      what follows the one "Bearer " before the token. */
  lemma HeaderTailOfHeader(prefix: string, t: string, tail: string)
    requires MatchesTokenPattern(t)
    requires tail == "" || tail == "\""
    ensures Contains(prefix + "Bearer " + t + tail, "Bearer ")
    ensures Contains(prefix + "Bearer " + t + tail, "Bearer")
    ensures HeaderTail(prefix + "Bearer " + t + tail) == t + tail
  {
    var rest := t + tail;
    forall i | 0 <= i < |rest| ensures rest[i] != ' ' {
      if i < |t| {
        assert IsTokenChar(t[i]);
      }
    }
    assert prefix + "Bearer " + t + tail == prefix + "Bearer " + rest;
    LastHeaderAt(prefix, rest);
    var s := prefix + "Bearer " + rest;
    assert OccursAt(s, "Bearer ", |prefix|);
    assert Drop(s, |prefix| + 7) == rest;
  }

  /** A pasted header or curl command: when the unquoted input ends in "Bearer ", a token
      and at most a closing quote, both sanitisers extract the token. */
  lemma SanitizeExtractsBearer(raw: string, prefix: string, t: string, tail: string)
    requires MatchesTokenPattern(t)
    requires tail == "" || tail == "\""
    requires Unquote(raw) == prefix + "Bearer " + t + tail
    ensures SanitizeTokenAsWritten(raw) == Ok(t)
    ensures SanitizeToken(raw) == Ok(t)
  {
    CleanedHeaderYieldsToken(prefix, t, tail);
  }

  lemma CleanedHeaderYieldsToken(prefix: string, t: string, tail: string)
    requires MatchesTokenPattern(t)
    requires tail == "" || tail == "\""
    ensures CheckCleanedAsWritten(prefix + "Bearer " + t + tail) == Ok(t)
    ensures CheckCleaned(prefix + "Bearer " + t + tail) == Ok(t)
  {
    var s := prefix + "Bearer " + t + tail;
    HeaderTailOfHeader(prefix, t, tail);
    var h := HeaderTail(s);
    assert h == t + tail;
    FinalStripOfQuotedTail(t, tail);
    assert FinalStrip(h) == t;
    assert Validate(t) == Ok(t);
  }

  // ------------------------------------------------------------------
  // Record shapes
  // ------------------------------------------------------------------

  /** The `KeyError` a missing required key raises; its `str()` is the quoted key. */
  datatype MissingKey = MissingKey(key: string) {
    function Message(): (msg: string) {
      "'" + key + "'"
    }
  }

  /** `_normalize_record`: the internal record for a record the API returned. */
  function NormalizeRecord(raw: Record): (r: Result<Record, MissingKey>)
    ensures raw.id.None? ==> r == Err(MissingKey("id"))
    ensures raw.id.Some? && raw.content.None? ==> r == Err(MissingKey("content"))
    ensures r.Ok? <==> raw.id.Some? && raw.content.Some?
  {
    if raw.id.None? then Err(MissingKey("id"))
    else if raw.content.None? then Err(MissingKey("content"))
    else
      var priority := if raw.rtype == "MX" || raw.rtype == "SRV" then Some(PriorityOf(raw)) else None;
      var data :=
        if raw.rtype == "SRV" then
          SrvData(
            Some(raw.data.weight.GetOr(0)), Some(raw.data.port.GetOr(0)), Some(raw.data.target.GetOr("")),
            Some(raw.data.service.GetOr("")), Some(raw.data.proto.GetOr("")), Some(raw.data.name.GetOr("")),
            Some(raw.data.priority.GetOr(PriorityOf(raw))))
        else EmptyData;
      Ok(Record(raw.id, raw.rtype, raw.name, raw.content, Some(TtlOf(raw)), Some(ProxiedOf(raw)), priority, data))
  }

  /** What a normalised record holds: every base key set, `priority` only for MX and SRV,
      `data` only for SRV, filled with defaults. */
  predicate IsNormalized(r: Record) {
    r.id.Some? && r.content.Some? && r.ttl.Some? && r.proxied.Some?
    && (r.priority.Some? <==> r.rtype == "MX" || r.rtype == "SRV")
    && (r.rtype == "SRV" ==>
          r.data.weight.Some? && r.data.port.Some? && r.data.target.Some? && r.data.service.Some?
          && r.data.proto.Some? && r.data.name.Some? && r.data.priority.Some?)
    && (r.rtype != "SRV" ==> r.data == EmptyData)
  }

  /** Normalising yields a normalised record that agrees with the raw one on everything the
      diff engine compares and on its composite key (SRV `data` aside, whose absent fields
      are filled in), and normalising again changes nothing. */
  lemma NormalizeRecordSpec(raw: Record)
    requires NormalizeRecord(raw).Ok?
    ensures var n := NormalizeRecord(raw).value;
      IsNormalized(n) && n.id == raw.id && n.rtype == raw.rtype && n.name == raw.name && n.content == raw.content
      && TtlOf(n) == TtlOf(raw) && ProxiedOf(n) == ProxiedOf(raw)
      && ((n.rtype == "MX" || n.rtype == "SRV") ==> PriorityOf(n) == PriorityOf(raw))
      && (n.rtype == "SRV" ==> n.data.priority == Some(raw.data.priority.GetOr(PriorityOf(raw))))
      && NormalizeRecord(n) == Ok(n)
  {
  }

  /** The API write payload: no id; `proxied` only for A, AAAA and CNAME, `priority` only for
      MX and `data` only for SRV. */
  datatype ApiPayload = ApiPayload(
    rtype: string,
    name: string,
    content: string,
    ttl: int,
    proxied: Option<bool>,
    priority: Option<int>,
    data: Option<SrvData>)

  /** `_to_api_payload`. */
  function ToApiPayload(r: Record): (p: Result<ApiPayload, MissingKey>)
    ensures p.Err? <==> r.content.None?
    ensures p.Err? ==> p.error == MissingKey("content")
    ensures p.Ok? ==>
      p.value.rtype == r.rtype && p.value.name == r.name && p.value.content == r.content.value && p.value.ttl == TtlOf(r)
    ensures p.Ok? ==>
      && (p.value.proxied.Some? <==> r.rtype in {"A", "AAAA", "CNAME"})
      && (p.value.proxied.Some? ==> p.value.proxied.value == ProxiedOf(r))
    ensures p.Ok? ==>
      && (p.value.priority.Some? <==> r.rtype == "MX")
      && (p.value.priority.Some? ==> p.value.priority.value == r.priority.GetOr(10))
    ensures p.Ok? ==>
      && (p.value.data.Some? <==> r.rtype == "SRV")
      && (p.value.data.Some? ==> p.value.data.value == r.data)
  {
    if r.content.None? then Err(MissingKey("content"))
    else
      Ok(ApiPayload(
        r.rtype, r.name, r.content.value, TtlOf(r),
        if r.rtype in {"A", "AAAA", "CNAME"} then Some(ProxiedOf(r)) else None,
        if r.rtype == "MX" then Some(r.priority.GetOr(10)) else None,
        if r.rtype == "SRV" then Some(r.data) else None))
  }

  /** The payload never depends on the record's id. */
  lemma PayloadIgnoresId(r: Record, id: Option<string>)
    ensures ToApiPayload(r.(id := id)) == ToApiPayload(r)
  {
  }

  /** A normalised record converts to a payload with its type, name, content and ttl, and an
      MX payload carries the normalised priority (0 when the API gave none, not 10). */
  lemma PayloadOfNormalized(raw: Record)
    requires NormalizeRecord(raw).Ok?
    ensures ToApiPayload(NormalizeRecord(raw).value).Ok?
    ensures var p := ToApiPayload(NormalizeRecord(raw).value).value;
      p.rtype == raw.rtype && p.name == raw.name && p.content == raw.content.value && p.ttl == TtlOf(raw)
      && (raw.rtype == "MX" ==> p.priority == Some(PriorityOf(raw)))
  {
  }
}
