/** What `compute_diff` guarantees: the lemmas about `DiffEngine.Diff`. Each diff entry
    is described in terms of `LastWithId` and `LastWithKey` (which record a dict built
    from a list keeps for a key): the id-matched and composite-key parts, their partition
    of the base ids, the swap symmetry and the diff of a list with itself. */
module DiffProperties {
  import opened Wrappers
  import opened OrderedMap
  import opened Records
  import opened DiffEngine

  // ------------------------------------------------------------------
  // Dict comprehensions
  // ------------------------------------------------------------------

  /** A dict built from a list has distinct keys and keeps, for each key, the last record
      carrying it. */
  lemma {:induction false} IndexBySpec<K(!new)>(rs: seq<Record>, key: Record -> K)
    ensures DistinctKeys(IndexBy(rs, key))
    ensures forall k :: Lookup(IndexBy(rs, key), k) == LastBy(rs, key, k)
  {
    if |rs| > 0 {
      var init := rs[..|rs| - 1];
      var x := rs[|rs| - 1];
      IndexBySpec(init, key);
      PutKeys(IndexBy(init, key), key(x), x);
      forall k ensures Lookup(IndexBy(rs, key), k) == LastBy(rs, key, k) {
        LookupPut(IndexBy(init, key), key(x), x, k);
      }
    }
  }

  /** Each entry of such a dict is that last record under its own key. */
  lemma IndexByEntry<K(!new)>(rs: seq<Record>, key: Record -> K, e: (K, Record))
    requires e in IndexBy(rs, key)
    ensures key(e.1) == e.0 && e.1 in rs && LastBy(rs, key, e.0) == Some(e.1)
  {
    var m := IndexBy(rs, key);
    var i :| 0 <= i < |m| && m[i] == e;
    IndexBySpec(rs, key);
    LookupEntry(m, i);
  }

  /** A record kept for a key is an entry of the dict. */
  lemma IndexByHas<K(!new)>(rs: seq<Record>, key: Record -> K, r: Record)
    requires LastBy(rs, key, key(r)) == Some(r)
    ensures (key(r), r) in IndexBy(rs, key)
  {
    var m := IndexBy(rs, key);
    IndexBySpec(rs, key);
    assert key(r) in Keys(m);
    var i :| 0 <= i < |m| && Keys(m)[i] == key(r);
    LookupEntry(m, i);
  }

  /** The values of `m` whose key `other` lacks. */
  lemma {:induction false} MissingMembers<K>(m: seq<(K, Record)>, other: seq<(K, Record)>)
    ensures forall x :: x in Missing(m, other) <==> exists i :: 0 <= i < |m| && m[i].1 == x && m[i].0 !in Keys(other)
  {
    if |m| > 0 {
      MissingMembers(m[..|m| - 1], other);
    }
  }

  /** A record lands in `Missing` of two dicts built by the same key exactly when it is
      the record the first keeps for its key and the second has nothing under that key. */
  lemma MissingIndexed<K(!new)>(xs: seq<Record>, ys: seq<Record>, key: Record -> K)
    ensures forall a :: a in Missing(IndexBy(xs, key), IndexBy(ys, key)) <==>
      LastBy(xs, key, key(a)) == Some(a) && LastBy(ys, key, key(a)).None?
  {
    var m := IndexBy(xs, key);
    var other := IndexBy(ys, key);
    MissingMembers(m, other);
    IndexBySpec(xs, key);
    IndexBySpec(ys, key);
    forall a ensures a in Missing(m, other) <==> LastBy(xs, key, key(a)) == Some(a) && LastBy(ys, key, key(a)).None? {
      if a in Missing(m, other) {
        var i :| 0 <= i < |m| && m[i].1 == a && m[i].0 !in Keys(other);
        IndexByEntry(xs, key, m[i]);
      }
      if LastBy(xs, key, key(a)) == Some(a) && LastBy(ys, key, key(a)).None? {
        IndexByHas(xs, key, a);
        var i :| 0 <= i < |m| && m[i] == (key(a), a);
      }
    }
  }

  /** Entries of the id dict, and of the composite-key dict. */
  lemma IdIndexEntry(rs: seq<Record>, e: (string, Record))
    requires e in IndexById(rs)
    ensures e.0 == IdKey(e.1) && HasId(e.1) && LastWithId(rs, e.0) == Some(e.1)
  {
    IndexByEntry(WithId(rs), IdKey, e);
    PartitionMembers(rs);
  }

  lemma KeyIndexEntry(rs: seq<Record>, e: (Key, Record))
    requires e in IndexByKey(rs)
    ensures e.0 == RecordKey(e.1) && !HasId(e.1) && LastWithKey(rs, e.0) == Some(e.1)
  {
    IndexByEntry(WithoutId(rs), RecordKey, e);
    PartitionMembers(rs);
  }

  // ------------------------------------------------------------------
  // The id-matched loop
  // ------------------------------------------------------------------

  /** Where the loop puts base record `b`, given the target record with its id. */
  predicate SplitPlaces(s: IdSplit, b: Record, t: Option<Record>) {
    match t
    case None => b in s.removed
    case Some(t) => if RecordsEqual(b, t) then b in s.identical else Modification(b, t) in s.modified
  }

  /** Every entry of the base dict is placed according to its target counterpart. */
  lemma {:induction false} ClassifyCover(bi: seq<(string, Record)>, ti: seq<(string, Record)>)
    ensures forall i :: 0 <= i < |bi| ==> SplitPlaces(ClassifyById(bi, ti), bi[i].1, Lookup(ti, bi[i].0))
  {
    if |bi| > 0 {
      var p := bi[..|bi| - 1];
      ClassifyCover(p, ti);
      forall i | 0 <= i < |bi| ensures SplitPlaces(ClassifyById(bi, ti), bi[i].1, Lookup(ti, bi[i].0)) {
        if i < |p| {
          assert bi[i] == p[i];
        }
      }
    }
  }

  /** Every entry the loop produces comes from the base dict, placed by its target counterpart. */
  lemma {:induction false} ClassifySound(bi: seq<(string, Record)>, ti: seq<(string, Record)>)
    requires forall i :: 0 <= i < |bi| ==> bi[i].0 == IdKey(bi[i].1)
    ensures forall u :: u in ClassifyById(bi, ti).identical ==>
      (IdKey(u), u) in bi && Lookup(ti, IdKey(u)).Some? && RecordsEqual(u, Lookup(ti, IdKey(u)).value)
    ensures forall m :: m in ClassifyById(bi, ti).modified ==>
      (IdKey(m.before), m.before) in bi && Lookup(ti, IdKey(m.before)) == Some(m.after)
      && !RecordsEqual(m.before, m.after)
    ensures forall r :: r in ClassifyById(bi, ti).removed ==>
      (IdKey(r), r) in bi && Lookup(ti, IdKey(r)).None?
  {
    if |bi| > 0 {
      var p := bi[..|bi| - 1];
      ClassifySound(p, ti);
      assert bi == p + [bi[|bi| - 1]];
    }
  }

  /** With distinct keys in the base dict, each list of the split holds an id at most once. */
  lemma {:induction false} ClassifyDistinct(bi: seq<(string, Record)>, ti: seq<(string, Record)>)
    requires DistinctKeys(bi)
    requires forall i :: 0 <= i < |bi| ==> bi[i].0 == IdKey(bi[i].1)
    ensures forall i, j :: 0 <= i < j < |ClassifyById(bi, ti).identical| ==>
      IdKey(ClassifyById(bi, ti).identical[i]) != IdKey(ClassifyById(bi, ti).identical[j])
    ensures forall i, j :: 0 <= i < j < |ClassifyById(bi, ti).modified| ==>
      IdKey(ClassifyById(bi, ti).modified[i].before) != IdKey(ClassifyById(bi, ti).modified[j].before)
    ensures forall i, j :: 0 <= i < j < |ClassifyById(bi, ti).removed| ==>
      IdKey(ClassifyById(bi, ti).removed[i]) != IdKey(ClassifyById(bi, ti).removed[j])
  {
    if |bi| > 0 {
      var p := bi[..|bi| - 1];
      var k := bi[|bi| - 1].0;
      ClassifyDistinct(p, ti);
      ClassifySound(p, ti);
      var s := ClassifyById(p, ti);
      assert k !in Keys(p) by {
        forall i | 0 <= i < |p| ensures Keys(p)[i] != k {
          assert p[i] == bi[i];
        }
      }
      forall u | u in s.identical ensures IdKey(u) != k {
        EntryKeyInKeys(p, (IdKey(u), u));
      }
      forall m | m in s.modified ensures IdKey(m.before) != k {
        EntryKeyInKeys(p, (IdKey(m.before), m.before));
      }
      forall r | r in s.removed ensures IdKey(r) != k {
        EntryKeyInKeys(p, (IdKey(r), r));
      }
    }
  }

  /** The removals the loop finds are the base dict's values whose id the target lacks. */
  lemma {:induction false} ClassifyRemovedIsMissing(bi: seq<(string, Record)>, ti: seq<(string, Record)>)
    ensures ClassifyById(bi, ti).removed == Missing(bi, ti)
  {
    if |bi| > 0 {
      ClassifyRemovedIsMissing(bi[..|bi| - 1], ti);
    }
  }

  /** When the target holds every base entry, each one is unchanged. */
  lemma {:induction false} ClassifyWithin(bi: seq<(string, Record)>, ti: seq<(string, Record)>)
    requires forall i :: 0 <= i < |bi| ==> Lookup(ti, bi[i].0) == Some(bi[i].1)
    ensures ClassifyById(bi, ti) == IdSplit(Values(bi), [], [])
  {
    if |bi| > 0 {
      var p := bi[..|bi| - 1];
      var b := bi[|bi| - 1].1;
      forall i | 0 <= i < |p| ensures Lookup(ti, p[i].0) == Some(p[i].1) {
        assert p[i] == bi[i];
      }
      ClassifyWithin(p, ti);
      assert Lookup(ti, bi[|bi| - 1].0) == Some(b);
      assert RecordsEqual(b, b);
      ValuesSnoc(bi);
    }
  }

  // ------------------------------------------------------------------
  // The diff
  // ------------------------------------------------------------------

  lemma MissingById(xs: seq<Record>, ys: seq<Record>)
    ensures forall a :: a in Missing(IndexById(xs), IndexById(ys)) <==>
      HasId(a) && LastWithId(xs, IdKey(a)) == Some(a) && LastWithId(ys, IdKey(a)).None?
  {
    MissingIndexed(WithId(xs), WithId(ys), IdKey);
    PartitionMembers(xs);
  }

  lemma MissingByKey(xs: seq<Record>, ys: seq<Record>)
    ensures forall a :: a in Missing(IndexByKey(xs), IndexByKey(ys)) <==>
      !HasId(a) && LastWithKey(xs, RecordKey(a)) == Some(a) && LastWithKey(ys, RecordKey(a)).None?
  {
    MissingIndexed(WithoutId(xs), WithoutId(ys), RecordKey);
    PartitionMembers(xs);
  }

  /** The id dict is keyed by each record's own id. */
  lemma IdIndexKeyed(rs: seq<Record>)
    ensures DistinctKeys(IndexById(rs))
    ensures forall i :: 0 <= i < |IndexById(rs)| ==> IndexById(rs)[i].0 == IdKey(IndexById(rs)[i].1)
    ensures forall k :: Lookup(IndexById(rs), k) == LastWithId(rs, k)
  {
    IndexBySpec(WithId(rs), IdKey);
    forall i | 0 <= i < |IndexById(rs)| ensures IndexById(rs)[i].0 == IdKey(IndexById(rs)[i].1) {
      IdIndexEntry(rs, IndexById(rs)[i]);
    }
  }

  /** The id-matched split of `Diff(base, target)`, entry by entry. */
  lemma SplitEntries(base: seq<Record>, target: seq<Record>)
    ensures forall u :: u in ClassifyById(IndexById(base), IndexById(target)).identical ==>
      HasId(u) && LastWithId(base, IdKey(u)) == Some(u)
      && LastWithId(target, IdKey(u)).Some? && RecordsEqual(u, LastWithId(target, IdKey(u)).value)
    ensures forall m :: m in ClassifyById(IndexById(base), IndexById(target)).modified ==>
      HasId(m.before) && LastWithId(base, IdKey(m.before)) == Some(m.before)
      && LastWithId(target, IdKey(m.before)) == Some(m.after) && !RecordsEqual(m.before, m.after)
    ensures forall r :: r in ClassifyById(IndexById(base), IndexById(target)).removed ==>
      HasId(r) && LastWithId(base, IdKey(r)) == Some(r) && LastWithId(target, IdKey(r)).None?
  {
    var bi := IndexById(base);
    var ti := IndexById(target);
    IdIndexKeyed(base);
    IdIndexKeyed(target);
    ClassifySound(bi, ti);
    var s := ClassifyById(bi, ti);
    forall u | u in s.identical ensures HasId(u) && LastWithId(base, IdKey(u)) == Some(u) {
      IdIndexEntry(base, (IdKey(u), u));
    }
    forall m | m in s.modified ensures HasId(m.before) && LastWithId(base, IdKey(m.before)) == Some(m.before) {
      IdIndexEntry(base, (IdKey(m.before), m.before));
    }
    forall r | r in s.removed ensures HasId(r) && LastWithId(base, IdKey(r)) == Some(r) {
      IdIndexEntry(base, (IdKey(r), r));
    }
  }

  /** Every entry of the diff, traced back to the records it came from. A modified entry
      pairs the base record (`before`) with the target record (`after`) of one id. */
  lemma DiffEntries(base: seq<Record>, target: seq<Record>)
    ensures forall u :: u in Diff(base, target).identical ==>
      HasId(u) && LastWithId(base, IdKey(u)) == Some(u)
      && LastWithId(target, IdKey(u)).Some? && RecordsEqual(u, LastWithId(target, IdKey(u)).value)
    ensures forall m :: m in Diff(base, target).modified ==>
      HasId(m.before) && HasId(m.after) && IdKey(m.after) == IdKey(m.before)
      && LastWithId(base, IdKey(m.before)) == Some(m.before)
      && LastWithId(target, IdKey(m.before)) == Some(m.after) && !RecordsEqual(m.before, m.after)
    ensures forall r :: r in Diff(base, target).removed && HasId(r) ==>
      LastWithId(base, IdKey(r)) == Some(r) && LastWithId(target, IdKey(r)).None?
    ensures forall a :: a in Diff(base, target).added && HasId(a) ==>
      LastWithId(target, IdKey(a)) == Some(a) && LastWithId(base, IdKey(a)).None?
  {
    SplitEntries(base, target);
    MissingById(target, base);
    MissingByKey(base, target);
    MissingByKey(target, base);
    PartitionMembers(target);
  }

  /** Where `Diff` puts the base record `b` of some id, given the target record of that id. */
  predicate Placed(d: DiffResult, b: Record, t: Option<Record>) {
    match t
    case None => b in d.removed
    case Some(t) => if RecordsEqual(b, t) then b in d.identical else Modification(b, t) in d.modified
  }

  /** Every id of the base is placed by its target counterpart; every id only the target
      has is added. */
  lemma DiffCoversIds(base: seq<Record>, target: seq<Record>)
    ensures forall k, b :: LastWithId(base, k) == Some(b) ==> Placed(Diff(base, target), b, LastWithId(target, k))
    ensures forall k, t :: LastWithId(target, k) == Some(t) && LastWithId(base, k).None? ==> t in Diff(base, target).added
  {
    var bi := IndexById(base);
    var ti := IndexById(target);
    IdIndexKeyed(base);
    IdIndexKeyed(target);
    ClassifyCover(bi, ti);
    MissingById(target, base);
    PartitionMembers(base);
    PartitionMembers(target);
    forall k, b | LastWithId(base, k) == Some(b) ensures Placed(Diff(base, target), b, LastWithId(target, k)) {
      IndexByHas(WithId(base), IdKey, b);
      var i :| 0 <= i < |bi| && bi[i] == (k, b);
      assert SplitPlaces(ClassifyById(bi, ti), bi[i].1, Lookup(ti, bi[i].0));
    }
  }

  /** Every id of the base lands in exactly one of unchanged, modified and removed. */
  lemma DiffPlacesBaseIdOnce(base: seq<Record>, target: seq<Record>, k: string, b: Record)
    requires LastWithId(base, k) == Some(b)
    ensures var d := Diff(base, target);
      var inIdentical := b in d.identical;
      var inModified := exists m :: m in d.modified && m.before == b;
      var inRemoved := b in d.removed;
      (inIdentical && !inModified && !inRemoved)
      || (!inIdentical && inModified && !inRemoved)
      || (!inIdentical && !inModified && inRemoved)
  {
    var d := Diff(base, target);
    DiffCoversIds(base, target);
    DiffEntries(base, target);
    PartitionMembers(base);
    assert HasId(b) && IdKey(b) == k;
    match LastWithId(target, k)
    case None =>
      assert b in d.removed;
    case Some(t) =>
      if RecordsEqual(b, t) {
        assert b in d.identical;
      } else {
        assert Modification(b, t) in d.modified;
      }
  }

  /** Within each part of the diff an id occurs at most once. */
  lemma DiffIdsDistinct(base: seq<Record>, target: seq<Record>)
    ensures forall i, j :: 0 <= i < j < |Diff(base, target).identical| ==>
      IdKey(Diff(base, target).identical[i]) != IdKey(Diff(base, target).identical[j])
    ensures forall i, j :: 0 <= i < j < |Diff(base, target).modified| ==>
      IdKey(Diff(base, target).modified[i].before) != IdKey(Diff(base, target).modified[j].before)
    ensures forall i, j :: 0 <= i < j < |Diff(base, target).removed| && HasId(Diff(base, target).removed[i]) ==>
      IdKey(Diff(base, target).removed[i]) != IdKey(Diff(base, target).removed[j])
  {
    var bi := IndexById(base);
    var ti := IndexById(target);
    IdIndexKeyed(base);
    ClassifyDistinct(bi, ti);
    SplitEntries(base, target);
    MissingByKey(base, target);
    var s := ClassifyById(bi, ti);
    var d := Diff(base, target);
    forall i, j | 0 <= i < j < |d.removed| && HasId(d.removed[i])
      ensures IdKey(d.removed[i]) != IdKey(d.removed[j])
    {
      if j >= |s.removed| {
        assert d.removed[j] in Missing(IndexByKey(base), IndexByKey(target));
      }
    }
  }

  /** Records without an id are never unchanged or modified; each is added or removed
      purely by composite-key presence, the last record with a key standing for it. */
  lemma DiffWithoutIds(base: seq<Record>, target: seq<Record>)
    ensures forall u :: u in Diff(base, target).identical ==> HasId(u)
    ensures forall m :: m in Diff(base, target).modified ==> HasId(m.before) && HasId(m.after)
    ensures forall r :: !HasId(r) ==> (r in Diff(base, target).added <==>
      LastWithKey(target, RecordKey(r)) == Some(r) && LastWithKey(base, RecordKey(r)).None?)
    ensures forall r :: !HasId(r) ==> (r in Diff(base, target).removed <==>
      LastWithKey(base, RecordKey(r)) == Some(r) && LastWithKey(target, RecordKey(r)).None?)
  {
    DiffEntries(base, target);
    SplitEntries(base, target);
    MissingById(target, base);
    MissingByKey(base, target);
    MissingByKey(target, base);
  }

  /** Swapping the arguments swaps added and removed, order included, and reverses each
      modification. */
  lemma DiffSwap(a: seq<Record>, b: seq<Record>)
    ensures Diff(a, b).added == Diff(b, a).removed
    ensures Diff(a, b).removed == Diff(b, a).added
    ensures forall m :: m in Diff(a, b).modified ==> Modification(m.after, m.before) in Diff(b, a).modified
  {
    ClassifyRemovedIsMissing(IndexById(a), IndexById(b));
    ClassifyRemovedIsMissing(IndexById(b), IndexById(a));
    DiffEntries(a, b);
    DiffCoversIds(b, a);
  }

  lemma {:induction false} MissingNone<K>(m: seq<(K, Record)>, other: seq<(K, Record)>)
    requires forall i :: 0 <= i < |m| ==> m[i].0 in Keys(other)
    ensures Missing(m, other) == []
  {
    if |m| > 0 {
      var p := m[..|m| - 1];
      forall i | 0 <= i < |p| ensures p[i].0 in Keys(other) {
        assert p[i] == m[i];
      }
      MissingNone(p, other);
    }
  }

  /** A record set compared with itself: no changes, and one unchanged entry per distinct
      id, namely the last record carrying it; records without an id appear nowhere. */
  lemma DiffOfSelf(a: seq<Record>)
    ensures Diff(a, a) == DiffResult([], [], [], Values(IndexById(a)))
    ensures !Diff(a, a).HasChanges()
    ensures forall u :: u in Diff(a, a).identical <==> HasId(u) && LastWithId(a, IdKey(u)) == Some(u)
  {
    var bi := IndexById(a);
    var bk := IndexByKey(a);
    IdIndexKeyed(a);
    forall i | 0 <= i < |bi| ensures Lookup(bi, bi[i].0) == Some(bi[i].1) {
      LookupEntry(bi, i);
    }
    ClassifyWithin(bi, bi);
    forall i | 0 <= i < |bi| ensures bi[i].0 in Keys(bi) {
      assert Keys(bi)[i] == bi[i].0;
    }
    MissingNone(bi, bi);
    forall i | 0 <= i < |bk| ensures bk[i].0 in Keys(bk) {
      assert Keys(bk)[i] == bk[i].0;
    }
    MissingNone(bk, bk);
    DiffEntries(a, a);
    DiffCoversIds(a, a);
    forall u | HasId(u) && LastWithId(a, IdKey(u)) == Some(u) ensures u in Diff(a, a).identical {
      assert Placed(Diff(a, a), u, LastWithId(a, IdKey(u)));
      assert RecordsEqual(u, u);
    }
  }

  /** Filtering the records with an id a second time keeps them all. */
  lemma {:induction false} WithIdTwice(rs: seq<Record>)
    ensures WithId(WithId(rs)) == WithId(rs) && WithoutId(WithId(rs)) == []
  {
    if |rs| > 0 {
      var p := rs[..|rs| - 1];
      var x := rs[|rs| - 1];
      WithIdTwice(p);
      assert rs == p + [x];
      WithIdSnoc(p, x);
      if HasId(x) {
        WithIdSnoc(WithId(p), x);
      } else {
        assert WithId(rs) == WithId(p);
      }
    }
  }

  /** Filtering the records without an id a second time keeps them all. */
  lemma {:induction false} WithoutIdTwice(rs: seq<Record>)
    ensures WithoutId(WithoutId(rs)) == WithoutId(rs) && WithId(WithoutId(rs)) == []
  {
    if |rs| > 0 {
      var p := rs[..|rs| - 1];
      var x := rs[|rs| - 1];
      WithoutIdTwice(p);
      assert rs == p + [x];
      WithIdSnoc(p, x);
      if HasId(x) {
        assert WithoutId(rs) == WithoutId(p);
      } else {
        WithIdSnoc(WithoutId(p), x);
      }
    }
  }

  lemma FilterTwice(rs: seq<Record>)
    ensures WithId(WithId(rs)) == WithId(rs) && WithoutId(WithId(rs)) == []
    ensures WithoutId(WithoutId(rs)) == WithoutId(rs) && WithId(WithoutId(rs)) == []
  {
    WithIdTwice(rs);
    WithoutIdTwice(rs);
  }

  /** A record with an id is never matched against one without: the diff is the diff of
      the records with ids followed, in `added` and `removed`, by the diff of those without. */
  lemma DiffSplitsById(base: seq<Record>, target: seq<Record>)
    ensures Diff(WithoutId(base), WithoutId(target)).modified == []
    ensures Diff(WithoutId(base), WithoutId(target)).identical == []
    ensures Diff(base, target) == DiffResult(
      Diff(WithId(base), WithId(target)).added + Diff(WithoutId(base), WithoutId(target)).added,
      Diff(WithId(base), WithId(target)).removed + Diff(WithoutId(base), WithoutId(target)).removed,
      Diff(WithId(base), WithId(target)).modified,
      Diff(WithId(base), WithId(target)).identical)
  {
    FilterTwice(base);
    FilterTwice(target);
    var withIds := Diff(WithId(base), WithId(target));
    var withoutIds := Diff(WithoutId(base), WithoutId(target));
    var bi, ti := IndexById(base), IndexById(target);
    var bk, tk := IndexByKey(base), IndexByKey(target);
    var noKeys: seq<(Key, Record)> := [];
    var noIds: seq<(string, Record)> := [];
    assert withIds.added == Missing(ti, bi) + Missing(noKeys, noKeys) == Missing(ti, bi);
    assert withIds.removed == ClassifyById(bi, ti).removed + Missing(noKeys, noKeys) == ClassifyById(bi, ti).removed;
    assert withIds.modified == ClassifyById(bi, ti).modified;
    assert withIds.identical == ClassifyById(bi, ti).identical;
    assert withoutIds.added == Missing(noIds, noIds) + Missing(tk, bk) == Missing(tk, bk);
    assert withoutIds.removed == ClassifyById([], []).removed + Missing(bk, tk) == Missing(bk, tk);
    assert withoutIds.modified == ClassifyById([], []).modified == [];
    assert withoutIds.identical == ClassifyById([], []).identical == [];
  }
}
