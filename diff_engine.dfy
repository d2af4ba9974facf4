/** Record identity and equality, the base-to-target diff and the protection check of
    dnsctl's diff engine (core/diff_engine.py). */
module DiffEngine {
  import opened Wrappers
  import opened Text
  import opened OrderedMap
  import opened Records

  // ------------------------------------------------------------------
  // DiffResult
  // ------------------------------------------------------------------

  /** One `{"before": …, "after": …}` entry of `modified`. */
  datatype Modification = Modification(before: Record, after: Record)

  /** What changed from a base record set to a target record set; `identical` is the
      source's `unchanged` list (a keyword in Dafny). */
  datatype DiffResult = DiffResult(
    added: seq<Record>,
    removed: seq<Record>,
    modified: seq<Modification>,
    identical: seq<Record>)
  {
    predicate HasChanges() {
      added != [] || removed != [] || modified != []
    }

    function SummaryParts(): (parts: seq<string>)
      ensures parts == [] <==> !HasChanges()
      ensures forall i :: 0 <= i < |parts| ==> parts[i] != [] && parts[i][0] in {'+', '-', '~'}
    {
      (if added != [] then ["+" + NatToString(|added|) + " added"] else [])
      + (if removed != [] then ["-" + NatToString(|removed|) + " removed"] else [])
      + (if modified != [] then ["~" + NatToString(|modified|) + " modified"] else [])
    }

    /** The nonzero counts, joined by ", ", or "No changes". */
    function Summary(): (s: string)
      ensures s == "No changes" <==> !HasChanges()
    {
      var parts := SummaryParts();
      if parts == [] then "No changes"
      else
        JoinStartsWithFirst(parts, ", ");
        assert Join(parts, ", ")[0] == parts[0][0];
        Join(parts, ", ")
    }
  }

  /** Each nonzero count appears in the summary, behind its sign and label. */
  lemma SummaryReportsCounts(d: DiffResult)
    ensures d.added != [] ==> Contains(d.Summary(), "+" + NatToString(|d.added|) + " added")
    ensures d.removed != [] ==> Contains(d.Summary(), "-" + NatToString(|d.removed|) + " removed")
    ensures d.modified != [] ==> Contains(d.Summary(), "~" + NatToString(|d.modified|) + " modified")
  {
    var parts := d.SummaryParts();
    var a := if d.added != [] then ["+" + NatToString(|d.added|) + " added"] else [];
    var r := if d.removed != [] then ["-" + NatToString(|d.removed|) + " removed"] else [];
    if d.added != [] {
      JoinContainsPart(parts, ", ", 0);
    }
    if d.removed != [] {
      JoinContainsPart(parts, ", ", |a|);
    }
    if d.modified != [] {
      JoinContainsPart(parts, ", ", |a| + |r|);
    }
  }

  // ------------------------------------------------------------------
  // Record identity and comparison
  // ------------------------------------------------------------------

  /** The composite key `record_key` returns, one shape per record type. */
  datatype Key =
    | MxKey(rtype: string, name: string, content: string, priority: int)
    | SrvKey(rtype: string, name: string, priority: int, port: int, target: string)
    | PlainKey(rtype: string, name: string, content: string)

  /** Identity of a record that has no Cloudflare id. */
  function RecordKey(r: Record): (k: Key)
    ensures k.rtype == r.rtype && k.name == r.name
    ensures r.rtype == "MX" ==> k == MxKey(r.rtype, r.name, ContentOf(r), PriorityOf(r))
    ensures r.rtype == "SRV" ==> k == SrvKey(r.rtype, r.name, PriorityOf(r), r.data.port.GetOr(0), r.data.target.GetOr(""))
    ensures r.rtype != "MX" && r.rtype != "SRV" ==> k == PlainKey(r.rtype, r.name, ContentOf(r))
  {
    if r.rtype == "MX" then MxKey(r.rtype, r.name, ContentOf(r), PriorityOf(r))
    else if r.rtype == "SRV" then SrvKey(r.rtype, r.name, PriorityOf(r), r.data.port.GetOr(0), r.data.target.GetOr(""))
    else PlainKey(r.rtype, r.name, ContentOf(r))
  }

  /** The fields `_comparable` extracts; `priority` is set only for MX and SRV, `data` only for SRV. */
  datatype Comparable = Comparable(
    rtype: string,
    name: string,
    content: string,
    ttl: int,
    proxied: bool,
    priority: Option<int>,
    data: Option<SrvData>)

  function ComparableOf(r: Record): (cmp: Comparable) {
    Comparable(
      r.rtype, r.name, ContentOf(r), TtlOf(r), ProxiedOf(r),
      if r.rtype == "MX" || r.rtype == "SRV" then Some(PriorityOf(r)) else None,
      if r.rtype == "SRV" then Some(r.data) else None)
  }

  /** Semantic equality of records, ignoring `id`. */
  predicate RecordsEqual(a: Record, b: Record) {
    ComparableOf(a) == ComparableOf(b)
  }

  /** Which fields decide equality: type, name, content, ttl (default 1) and proxied
      (default false), plus priority (default 0) for MX and SRV and data for SRV. */
  lemma RecordsEqualFields(a: Record, b: Record)
    ensures RecordsEqual(a, b) <==>
      a.rtype == b.rtype && a.name == b.name && ContentOf(a) == ContentOf(b)
      && TtlOf(a) == TtlOf(b) && ProxiedOf(a) == ProxiedOf(b)
      && ((a.rtype == "MX" || a.rtype == "SRV") ==> PriorityOf(a) == PriorityOf(b))
      && (a.rtype == "SRV" ==> a.data == b.data)
  {
  }

  /** Equality ignores the id and is an equivalence. */
  lemma RecordsEqualIgnoresId(a: Record, b: Record, c: Record, id: Option<string>)
    ensures RecordsEqual(a, a.(id := id))
    ensures RecordsEqual(a, a)
    ensures RecordsEqual(a, b) ==> RecordsEqual(b, a)
    ensures RecordsEqual(a, b) && RecordsEqual(b, c) ==> RecordsEqual(a, c)
  {
  }

  /** Equal records have the same composite key: the key only reads fields equality compares,
      except that an SRV key reads `data`'s port and target, which equality compares as part of `data`. */
  lemma EqualRecordsShareKey(a: Record, b: Record)
    requires RecordsEqual(a, b)
    ensures RecordKey(a) == RecordKey(b)
  {
  }

  // ------------------------------------------------------------------
  // The diff, as functions
  // ------------------------------------------------------------------

  /** The records of `rs` that have an id, in order. */
  function WithId(rs: seq<Record>): (kept: seq<Record>) {
    if |rs| == 0 then []
    else WithId(rs[..|rs| - 1]) + (if HasId(rs[|rs| - 1]) then [rs[|rs| - 1]] else [])
  }

  /** The records of `rs` without an id, in order. */
  function WithoutId(rs: seq<Record>): (kept: seq<Record>) {
    if |rs| == 0 then []
    else WithoutId(rs[..|rs| - 1]) + (if HasId(rs[|rs| - 1]) then [] else [rs[|rs| - 1]])
  }

  /** Every record lands in exactly one of the two partitions. */
  lemma {:induction false} PartitionMembers(rs: seq<Record>)
    ensures forall x :: x in WithId(rs) <==> x in rs && HasId(x)
    ensures forall x :: x in WithoutId(rs) <==> x in rs && !HasId(x)
  {
    if |rs| > 0 {
      PartitionMembers(rs[..|rs| - 1]);
      assert rs == rs[..|rs| - 1] + [rs[|rs| - 1]];
    }
  }

  /** `{key(r): r for r in rs}`. */
  function IndexBy<K(==,!new)>(rs: seq<Record>, key: Record -> K): seq<(K, Record)> {
    if |rs| == 0 then [] else Put(IndexBy(rs[..|rs| - 1], key), key(rs[|rs| - 1]), rs[|rs| - 1])
  }

  /** `base_by_id`: the records with an id, by id. */
  function IndexById(rs: seq<Record>): (index: seq<(string, Record)>) {
    IndexBy(WithId(rs), IdKey)
  }

  /** `base_key_map`: the records without an id, by composite key. */
  function IndexByKey(rs: seq<Record>): (index: seq<(Key, Record)>) {
    IndexBy(WithoutId(rs), RecordKey)
  }

  /** The last record of `rs` whose key is `k`: the independent reading of what a dict
      comprehension keeps for `k`. */
  function LastBy<K(==)>(rs: seq<Record>, key: Record -> K, k: K): (r: Option<Record>)
    ensures r.Some? ==> key(r.value) == k && r.value in rs
    ensures r.None? <==> forall x :: x in rs ==> key(x) != k
  {
    if |rs| == 0 then None
    else if key(rs[|rs| - 1]) == k then Some(rs[|rs| - 1])
    else
      assert rs == rs[..|rs| - 1] + [rs[|rs| - 1]];
      LastBy(rs[..|rs| - 1], key, k)
  }

  /** The last record of `rs` carrying id `k`. */
  function LastWithId(rs: seq<Record>, k: string): (found: Option<Record>) {
    LastBy(WithId(rs), IdKey, k)
  }

  /** The last id-less record of `rs` with composite key `k`. */
  function LastWithKey(rs: seq<Record>, k: Key): (found: Option<Record>) {
    LastBy(WithoutId(rs), RecordKey, k)
  }

  /** The id-matched part of the diff, from the base side. */
  datatype IdSplit = IdSplit(identical: seq<Record>, modified: seq<Modification>, removed: seq<Record>)

  /** The first loop over `base_by_id.items()`. */
  function ClassifyById(bi: seq<(string, Record)>, ti: seq<(string, Record)>): (split: IdSplit) {
    if |bi| == 0 then IdSplit([], [], [])
    else
      var s := ClassifyById(bi[..|bi| - 1], ti);
      var b := bi[|bi| - 1].1;
      match Lookup(ti, bi[|bi| - 1].0)
      case Some(t) =>
        if RecordsEqual(b, t) then s.(identical := s.identical + [b])
        else s.(modified := s.modified + [Modification(b, t)])
      case None => s.(removed := s.removed + [b])
  }

  /** The values of `m` whose key `other` lacks, in `m`'s order. */
  function Missing<K(==)>(m: seq<(K, Record)>, other: seq<(K, Record)>): seq<Record> {
    if |m| == 0 then []
    else Missing(m[..|m| - 1], other) + (if m[|m| - 1].0 in Keys(other) then [] else [m[|m| - 1].1])
  }

  /** `compute_diff(base, target)`: id-matched additions and removals come before the
      composite-key ones. */
  function Diff(base: seq<Record>, target: seq<Record>): (result: DiffResult) {
    var bi := IndexById(base);
    var ti := IndexById(target);
    var bk := IndexByKey(base);
    var tk := IndexByKey(target);
    var s := ClassifyById(bi, ti);
    DiffResult(Missing(ti, bi) + Missing(tk, bk), s.removed + Missing(bk, tk), s.modified, s.identical)
  }

  // ------------------------------------------------------------------
  // The diff, as the source computes it
  // ------------------------------------------------------------------

  lemma IndexBySnoc<K(!new)>(rs: seq<Record>, r: Record, key: Record -> K)
    ensures IndexBy(rs + [r], key) == Put(IndexBy(rs, key), key(r), r)
  {
    assert (rs + [r])[..|rs|] == rs;
  }

  lemma WithIdSnoc(rs: seq<Record>, r: Record)
    ensures WithId(rs + [r]) == WithId(rs) + (if HasId(r) then [r] else [])
    ensures WithoutId(rs + [r]) == WithoutId(rs) + (if HasId(r) then [] else [r])
  {
    assert (rs + [r])[..|rs|] == rs;
  }

  /** Partitions `rs` by id availability, building the id map and the id-less list. */
  method PartitionById(rs: seq<Record>) returns (byId: seq<(string, Record)>, noId: seq<Record>)
    ensures byId == IndexById(rs) && noId == WithoutId(rs)
  {
    byId := [];
    noId := [];
    for i := 0 to |rs|
      invariant byId == IndexBy(WithId(rs[..i]), IdKey)
      invariant noId == WithoutId(rs[..i])
    {
      assert rs[..i + 1] == rs[..i] + [rs[i]];
      WithIdSnoc(rs[..i], rs[i]);
      var r := rs[i];
      var rid := r.id;
      if rid.Some? && rid.value != "" {
        IndexBySnoc(WithId(rs[..i]), r, IdKey);
        assert WithId(rs[..i + 1]) == WithId(rs[..i]) + [r];
        byId := Put(byId, rid.value, r);
        assert byId == IndexBy(WithId(rs[..i + 1]), IdKey);
      } else {
        assert !HasId(r);
        assert WithId(rs[..i + 1]) == WithId(rs[..i]);
        noId := noId + [r];
      }
    }
    assert rs[..|rs|] == rs;
  }

  /** `{record_key(r): r for r in rs}`. */
  method BuildKeyMap(rs: seq<Record>) returns (keyMap: seq<(Key, Record)>)
    ensures keyMap == IndexBy(rs, RecordKey)
  {
    keyMap := [];
    for i := 0 to |rs|
      invariant keyMap == IndexBy(rs[..i], RecordKey)
    {
      assert rs[..i + 1] == rs[..i] + [rs[i]];
      IndexBySnoc(rs[..i], rs[i], RecordKey);
      keyMap := Put(keyMap, RecordKey(rs[i]), rs[i]);
    }
    assert rs[..|rs|] == rs;
  }

  /** Appends to `acc` the values of `m` whose key `other` lacks. */
  method AppendMissing<K(==)>(acc: seq<Record>, m: seq<(K, Record)>, other: seq<(K, Record)>) returns (r: seq<Record>)
    ensures r == acc + Missing(m, other)
  {
    r := acc;
    for j := 0 to |m|
      invariant r == acc + Missing(m[..j], other)
    {
      assert m[..j + 1][..j] == m[..j];
      var (key, rec) := m[j];
      if key !in Keys(other) {
        r := r + [rec];
      }
    }
    assert m[..|m|] == m;
  }

  /** The loop over `base_by_id.items()`: each base record with an id is unchanged,
      modified or removed according to the target record with the same id. */
  method MatchById(baseById: seq<(string, Record)>, targetById: seq<(string, Record)>) returns (split: IdSplit)
    ensures split == ClassifyById(baseById, targetById)
  {
    var removed: seq<Record> := [];
    var modified: seq<Modification> := [];
    var identical: seq<Record> := [];
    for j := 0 to |baseById|
      invariant IdSplit(identical, modified, removed) == ClassifyById(baseById[..j], targetById)
    {
      assert baseById[..j + 1][..j] == baseById[..j];
      var (rid, baseRec) := baseById[j];
      match Lookup(targetById, rid)
      case Some(targetRec) =>
        if RecordsEqual(baseRec, targetRec) {
          identical := identical + [baseRec];
        } else {
          modified := modified + [Modification(baseRec, targetRec)];
        }
      case None =>
        removed := removed + [baseRec];
    }
    assert baseById[..|baseById|] == baseById;
    split := IdSplit(identical, modified, removed);
  }

  /** `compute_diff`, step for step. */
  method ComputeDiff(base: seq<Record>, target: seq<Record>) returns (result: DiffResult)
    ensures result == Diff(base, target)
  {
    var baseById, baseNoId := PartitionById(base);
    var targetById, targetNoId := PartitionById(target);

    // id-matched records
    var split := MatchById(baseById, targetById);
    var added := AppendMissing([], targetById, baseById);

    // records without ids, by composite key
    var baseKeyMap := BuildKeyMap(baseNoId);
    var targetKeyMap := BuildKeyMap(targetNoId);
    added := AppendMissing(added, targetKeyMap, baseKeyMap);
    var removed := AppendMissing(split.removed, baseKeyMap, targetKeyMap);

    result := DiffResult(added, removed, split.modified, split.identical);
  }

  // ------------------------------------------------------------------
  // Protection
  // ------------------------------------------------------------------

  predicate LedgerMatches(p: ProtectedEntry, r: Record) {
    p.rtype == Some(r.rtype) && p.name == Some(r.name)
  }

  /** The index of the first ledger entry matching `r` on type and name, or `|ledger|`. */
  function FirstLedgerMatch(r: Record, ledger: seq<ProtectedEntry>): (i: nat)
    ensures i <= |ledger|
    ensures forall j :: 0 <= j < i ==> !LedgerMatches(ledger[j], r)
    ensures i < |ledger| ==> LedgerMatches(ledger[i], r)
  {
    if |ledger| == 0 then 0
    else if LedgerMatches(ledger[0], r) then 0
    else 1 + FirstLedgerMatch(r, ledger[1..])
  }

  /** `(is_protected, reason)`. */
  datatype Protection = Protection(protected: bool, reason: string)

  /** Whether `r` must not be changed, and why. */
  function IsProtected(r: Record, ledger: seq<ProtectedEntry>): (p: Protection)
    ensures r.rtype in SystemProtectedTypes ==> p == Protection(true, "System-protected type: " + r.rtype)
    ensures r.rtype !in SystemProtectedTypes ==>
      (p.protected <==> exists j :: 0 <= j < |ledger| && LedgerMatches(ledger[j], r))
    ensures r.rtype !in SystemProtectedTypes && p.protected ==>
      exists i :: 0 <= i < |ledger| && LedgerMatches(ledger[i], r)
        && (forall j :: 0 <= j < i ==> !LedgerMatches(ledger[j], r))
        && p.reason == "User-protected: " + ledger[i].reason.GetOr("no reason given")
    ensures !p.protected ==> p.reason == ""
  {
    if r.rtype in SystemProtectedTypes then Protection(true, "System-protected type: " + r.rtype)
    else
      var i := FirstLedgerMatch(r, ledger);
      if i < |ledger| then Protection(true, "User-protected: " + ledger[i].reason.GetOr("no reason given"))
      else Protection(false, "")
  }
}
