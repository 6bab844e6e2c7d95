/** The three-way merge of champ trees (`merge_champ`). */
module ChampMerge {
  import opened Bytes
  import opened Mask
  import opened ChampNode
  import opened CanonicalTree
  import opened ChampStore
  import opened ChampOps
  import opened ChampRemove
  import opened ChampWrappers
  import opened ChampDiff

  /** Both sides changed a common key. */
  ghost predicate Conflict(base: Map, ours: Map, theirs: Map) {
    exists k :: k in DiffKeys(base, ours) && k in DiffKeys(base, theirs)
  }

  /** Theirs on every key they changed since `base`, ours elsewhere. A key they set
      to null is dropped: a diff entry cannot tell null from absent. */
  ghost function Merged(base: Map, ours: Map, theirs: Map): Map {
    map k | k in ours.Keys + theirs.Keys &&
            (if k in DiffKeys(base, theirs) then Lookup(theirs, k) != None else k in ours) ::
      if k in DiffKeys(base, theirs) then theirs[k] else ours[k]
  }

  /** No key was changed to null. */
  ghost predicate NoNullChange(base: Map, theirs: Map) {
    forall k :: k in DiffKeys(base, theirs) && k in theirs ==> theirs[k] != None
  }

  // ---- applying the entries one by one --------------------------------------------

  ghost function Step(m: Map, e: DiffEntry): Map {
    if e.other.Some? then m[e.key := e.other] else m - {e.key}
  }

  ghost function Fold(m: Map, es: seq<DiffEntry>): Map {
    if es == [] then m else Step(Fold(m, es[..|es| - 1]), es[|es| - 1])
  }

  ghost predicate SameAt(a: Map, b: Map, k: Key) {
    (k in a <==> k in b) && (k in a ==> a[k] == b[k])
  }

  lemma {:induction false} FoldUntouched(m: Map, es: seq<DiffEntry>, k: Key)
    requires forall e :: e in es ==> e.key != k
    ensures SameAt(Fold(m, es), m, k)
  {
    if es != [] {
      assert es[|es| - 1] in es;
      FoldUntouched(m, es[..|es| - 1], k);
    }
  }

  lemma {:induction false} FoldAt(m: Map, es: seq<DiffEntry>, i: nat)
    requires forall i, j :: 0 <= i < j < |es| ==> es[i].key != es[j].key
    requires i < |es|
    ensures var f := Fold(m, es); (es[i].key in f <==> es[i].other.Some?) && (es[i].key in f ==> f[es[i].key] == es[i].other)
  {
    var n := |es| - 1;
    if i < n {
      FoldAt(m, es[..n], i);
      assert es[i].key != es[n].key;
    }
  }

  lemma {:induction false} FoldKeys(m: Map, es: seq<DiffEntry>, all: set<Key>)
    requires m.Keys <= all && forall e :: e in es && e.other.Some? ==> e.key in all
    ensures Fold(m, es).Keys <= all
  {
    if es != [] {
      assert es[|es| - 1] in es;
      FoldKeys(m, es[..|es| - 1], all);
    }
  }

  /** Replaying theirs' diff on ours gives the merged mapping. */
  lemma FoldIsMerged(es: seq<DiffEntry>, base: Map, ours: Map, theirs: Map)
    requires IsDiff(es, base, theirs)
    ensures Fold(ours, es) == Merged(base, ours, theirs)
  {
    var f, m := Fold(ours, es), Merged(base, ours, theirs);
    forall k ensures SameAt(f, m, k) {
      FoldedKey(es, base, ours, theirs, k);
    }
    hide *;
    assert forall k :: k in f ==> SameAt(f, m, k);
    MapsEqual(f, m);
  }

  lemma FoldedKey(es: seq<DiffEntry>, base: Map, ours: Map, theirs: Map, k: Key)
    requires IsDiff(es, base, theirs)
    ensures SameAt(Fold(ours, es), Merged(base, ours, theirs), k)
  {
    hide Fold;
    if k in DiffKeys(base, theirs) {
      assert Entry(base, theirs, k) in es;
      var i :| 0 <= i < |es| && es[i] == Entry(base, theirs, k);
      FoldAt(ours, es, i);
    } else {
      assert forall e :: e in es ==> e.key != k;
      FoldUntouched(ours, es, k);
    }
  }

  lemma MapsEqual(a: Map, b: Map)
    requires forall k :: SameAt(a, b, k)
    ensures a == b
  {
    forall k | k in a ensures k in b && a[k] == b[k] { assert SameAt(a, b, k); }
    forall k | k in b ensures k in a { assert SameAt(a, b, k); }
  }

  // ---- the merge ----------------------------------------------------------------------

  ghost predicate IsTree(cid: Cid, m: Map, bat: Bat) {
    Fits(m, 0) && cid == CidOf(Canon(m, 0, bat))
  }

  lemma TreeIsSide(cid: Cid, m: Map, bat: Bat)
    requires IsTree(cid, m, bat)
    ensures Side(Some(cid), [], m, 0, bat)
  {}

  /** A key theirs changed and ours did not: our tree still holds `base` there. */
  lemma EntryApplies(es: seq<DiffEntry>, j: nat, base: Map, ours: Map, theirs: Map)
    requires IsDiff(es, base, theirs) && j < |es| && !Conflict(base, ours, theirs)
    ensures var cur := Fold(ours, es[..j]); var k := es[j].key;
      && (k in cur ==> cur[k] == es[j].base) && (k in cur <==> k in base)
      && Fold(ours, es[..j + 1]) == Step(cur, es[j])
      && (es[j].other.None? && NoNullChange(base, theirs) ==> k in base)
  {
    assert es[..j + 1][..j] == es[..j];
    assert es[j] in es;
    forall e | e in es[..j] ensures e.key != es[j].key {
      var i :| 0 <= i < j && es[i] == e;
    }
    FoldUntouched(ours, es[..j], es[j].key);
    assert es[j].key !in DiffKeys(base, ours);
  }

  lemma EntryKeys(es: seq<DiffEntry>, j: nat, base: Map, ours: Map, theirs: Map)
    requires IsDiff(es, base, theirs) && j <= |es|
    ensures Fold(ours, es[..j]).Keys <= (ours + theirs).Keys
  {
    FoldKeys(ours, es[..j], (ours + theirs).Keys);
  }

  method KeysOf(es: seq<DiffEntry>, ghost a: Map, ghost b: Map) returns (ks: set<Key>)
    requires IsDiff(es, a, b)
    ensures ks == DiffKeys(a, b)
  {
    ks := set e | e in es :: e.key;
    assert forall k :: k in DiffKeys(a, b) ==> Entry(a, b, k) in es && Entry(a, b, k).key == k;
  }

  /** `merge_champ`. A merge that succeeds is the canonical tree of the merged
      mapping. It is refused as a concurrent modification exactly when both sides
      changed a common key; short of that, it can only fail on a node it needs that
      is not there, on a hash collision, or on a key theirs changed to null. */
  method MergeChamp(storage: BlockStore, base: Cid, ours: Cid, theirs: Cid,
                    ghost mb: Map, ghost mo: Map, ghost mt: Map, ghost bb: Bat, ghost bo: Bat, ghost bt: Bat)
    returns (r: Result<Cid, ChampError>)
    requires IsTree(base, mb, bb) && IsTree(ours, mo, bo) && IsTree(theirs, mt, bt)
    requires HasTree(storage.blocks, ours)
    modifies storage
    ensures old(storage.blocks) <= storage.blocks
    ensures r.Ok? ==> !Conflict(mb, mo, mt) && IsTree(r.value, Merged(mb, mo, mt), bo) && HasTree(storage.blocks, r.value)
    ensures var loadable := Loadable(old(storage.blocks), Some(base), Some(ours), 0)
                            && Loadable(old(storage.blocks), Some(base), Some(theirs), 0);
      && (loadable && Conflict(mb, mo, mt) ==> r == Err(Concurrent))
      && (loadable && !Conflict(mb, mo, mt) && NoNullChange(mb, mt) && Fits(mo + mt, 0) ==> r.Ok?)
    ensures r == Err(Concurrent) ==> Conflict(mb, mo, mt)
    ensures r == Err(MissingBlock) ==>
      !Loadable(old(storage.blocks), Some(base), Some(ours), 0) || !Loadable(old(storage.blocks), Some(base), Some(theirs), 0)
    ensures r.Err? ==> r.error != BadBlock
  {
    hide Side, IsDiff, Canon, Fits, HasTree, Loadable, DiffKeys, Merged, NoNullChange, Fold;
    TreeIsSide(base, mb, bb);
    TreeIsSide(ours, mo, bo);
    TreeIsSide(theirs, mt, bt);
    var ourDiff := Diff(storage, Some(base), Some(ours), 0, [], [], [], mb, mo, bb, bo);
    if ourDiff.Err? { return Err(MissingBlock); }
    var remoteDiff := Diff(storage, Some(base), Some(theirs), 0, [], [], [], mb, mt, bb, bt);
    if remoteDiff.Err? { return Err(MissingBlock); }
    assert ourDiff.value[0..] == ourDiff.value && remoteDiff.value[0..] == remoteDiff.value;
    var es := remoteDiff.value;
    var ourKeys := KeysOf(ourDiff.value, mb, mo);
    var theirKeys := KeysOf(es, mb, mt);
    if Conflict(mb, mo, mt) {
      ghost var k :| k in DiffKeys(mb, mo) && k in DiffKeys(mb, mt);
      assert k in ourKeys * theirKeys;
    }
    if ourKeys * theirKeys != {} {
      ghost var k :| k in ourKeys * theirKeys;
      assert k in DiffKeys(mb, mo) && k in DiffKeys(mb, mt);
      return Err(Concurrent);
    }
    r := ApplyAll(storage, ours, es, mb, mo, mt, bo);
  }

  /** The replay loop of `merge_champ`. */
  method ApplyAll(storage: BlockStore, ours: Cid, es: seq<DiffEntry>, ghost mb: Map, ghost mo: Map, ghost mt: Map, ghost bo: Bat)
    returns (r: Result<Cid, ChampError>)
    requires IsTree(ours, mo, bo) && HasTree(storage.blocks, ours) && IsDiff(es, mb, mt) && !Conflict(mb, mo, mt)
    modifies storage
    ensures old(storage.blocks) <= storage.blocks
    ensures r.Ok? ==> IsTree(r.value, Merged(mb, mo, mt), bo) && HasTree(storage.blocks, r.value)
    ensures NoNullChange(mb, mt) && Fits(mo + mt, 0) ==> r.Ok?
    ensures r.Err? ==> r.error in {HashCollision, KeyNotPresent, CasFailed}
  {
    hide IsDiff, Canon, Fits, DiffKeys, Merged, NoNullChange, Fold, Conflict, LandsInBucket;
    RootTree(storage.blocks, ours, mo, bo);
    var merged := new ChampWrapper(storage, ours, mo);
    assert es[..0] == [];
    FoldNone(mo);
    for j := 0 to |es|
      invariant merged.Valid() && merged.storage == storage && merged.root.mirrorBat == bo
      invariant fresh(merged) && old(storage.blocks) <= storage.blocks
      invariant merged.content == Fold(mo, es[..j])
    {
      var e := es[j];
      EntryApplies(es, j, mb, mo, mt);
      EntryKeys(es, j + 1, mb, mo, mt);
      if Fits(mo + mt, 0) { FitsMono(mo + mt, Fold(mo, es[..j + 1]), 0); }
      if e.other.Some? {
        var p := merged.Put(e.key, e.base, e.other);
        if p.Err? { return Err(p.error); }
      } else {
        var p := merged.Remove(e.key, e.base);
        if p.Err? { return Err(p.error); }
      }
    }
    assert es[..|es|] == es;
    FoldIsMerged(es, mb, mo, mt);
    return Ok(merged.rootHash);
  }

  lemma FoldNone(m: Map)
    ensures Fold(m, []) == m
  {}

  lemma RootTree(store: set<Cid>, cid: Cid, m: Map, bat: Bat)
    requires IsTree(cid, m, bat) && HasTree(store, cid)
    ensures cid.block.ChampBlock? && cid in store && Complete(store, cid.block.champ)
    ensures cid.block.champ == Canon(m, 0, bat) && cid.block.champ.mirrorBat == bat
  {}

  // ---- what a merge means ------------------------------------------------------------

  /** A merge reads as theirs on every key they changed and as ours on every other,
      null changes included. */
  lemma MergedReads(base: Map, ours: Map, theirs: Map, k: Key)
    ensures Lookup(Merged(base, ours, theirs), k) == Lookup(if k in DiffKeys(base, theirs) then theirs else ours, k)
  {}

  /** Merging ours into theirs and theirs into ours gives the same mapping, so the
      same root, exactly when neither side changed a key to null. */
  lemma MergeIsSymmetric(base: Map, ours: Map, theirs: Map)
    requires !Conflict(base, ours, theirs)
    ensures Merged(base, ours, theirs) == Merged(base, theirs, ours) <==> NoNullChange(base, ours) && NoNullChange(base, theirs)
  {
    var a, b := Merged(base, ours, theirs), Merged(base, theirs, ours);
    if NoNullChange(base, ours) && NoNullChange(base, theirs) {
      forall k ensures SameAt(a, b, k) { SymmetricAt(base, ours, theirs, k); }
      MapsEqual(a, b);
    } else if !NoNullChange(base, theirs) {
      var k :| k in DiffKeys(base, theirs) && k in theirs && theirs[k] == None;
      assert k !in DiffKeys(base, ours) && k !in a && k in b;
    } else {
      var k :| k in DiffKeys(base, ours) && k in ours && ours[k] == None;
      assert k !in DiffKeys(base, theirs) && k !in b && k in a;
    }
  }

  /** Whichever side merges, and in whatever order its diff came out, two successful
      merges end at the same root, if and only if neither side changed a key to null and
      the two sides carry the same mirror BAT, which a merge takes from its own side. */
  lemma MergedRootsAgree(base: Map, ours: Map, theirs: Map, ourBat: Bat, theirBat: Bat, a: Cid, b: Cid)
    requires !Conflict(base, ours, theirs)
    requires IsTree(a, Merged(base, ours, theirs), ourBat) && IsTree(b, Merged(base, theirs, ours), theirBat)
    ensures a == b <==> ourBat == theirBat && NoNullChange(base, ours) && NoNullChange(base, theirs)
  {
    MergeIsSymmetric(base, ours, theirs);
    hide Merged, Conflict, NoNullChange, DiffKeys;
    var m, n := Merged(base, ours, theirs), Merged(base, theirs, ours);
    if a == b {
      CanonBat(m, 0, ourBat);
      CanonBat(n, 0, theirBat);
      CanonInjective(m, n, 0, ourBat);
    }
  }

  /** A key set to null by one side alone: merged one way it is dropped, the other way kept. */
  lemma NullMergeExample()
    ensures var base, theirs: Map := map[], map[[1] := None];
      !Conflict(base, base, theirs) && Merged(base, base, theirs) == map[] && Merged(base, theirs, base) == theirs && theirs != map[]
  {
    var base, theirs: Map := map[], map[[1] := None];
    assert DiffKeys(base, theirs) == {[1]} && DiffKeys(base, base) == {};
    assert [1] in theirs;
  }

  lemma SymmetricAt(base: Map, ours: Map, theirs: Map, k: Key)
    requires !Conflict(base, ours, theirs) && NoNullChange(base, ours) && NoNullChange(base, theirs)
    ensures SameAt(Merged(base, ours, theirs), Merged(base, theirs, ours), k)
  {
    if k in DiffKeys(base, ours) {
      assert k !in DiffKeys(base, theirs);
    }
  }
}
