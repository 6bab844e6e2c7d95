/** The lock-step diff of two champ trees (`champ_merge.rs`). */
module ChampDiff {
  import opened Bytes
  import opened Bitmap
  import opened Mask
  import opened ChampNode
  import opened CanonicalTree
  import opened ChampStore
  import opened ChampOps

  /** A key that differs, with what each tree reads for it. */
  datatype DiffEntry = DiffEntry(key: Key, base: Option<Value>, other: Option<Value>)

  /** The keys whose bindings differ; a key bound to null differs from an absent one. */
  ghost function DiffKeys(a: Map, b: Map): set<Key> {
    set k | k in a.Keys + b.Keys && !(k in a && k in b && a[k] == b[k])
  }

  ghost function Entry(a: Map, b: Map, k: Key): DiffEntry {
    DiffEntry(k, Lookup(a, k), Lookup(b, k))
  }

  /** `es` has one entry for each key of `ks`, in any order, and no others. */
  ghost predicate EntriesOf(es: seq<DiffEntry>, ks: set<Key>, a: Map, b: Map) {
    && (forall i, j :: 0 <= i < j < |es| ==> es[i].key != es[j].key)
    && (forall e :: e in es ==> e.key in ks && e == Entry(a, b, e.key))
    && (forall k :: k in ks ==> Entry(a, b, k) in es)
  }

  /** `es` is the difference of `a` and `b`. */
  ghost predicate IsDiff(es: seq<DiffEntry>, a: Map, b: Map) {
    EntriesOf(es, DiffKeys(a, b), a, b)
  }

  lemma JoinEntries(es: seq<DiffEntry>, ks: set<Key>, fs: seq<DiffEntry>, ls: set<Key>, a: Map, b: Map)
    requires EntriesOf(es, ks, a, b) && EntriesOf(fs, ls, a, b) && ks !! ls
    ensures EntriesOf(es + fs, ks + ls, a, b)
  {
    hide Entry;
    forall i, j | 0 <= i < j < |es + fs| ensures (es + fs)[i].key != (es + fs)[j].key {
      if i < |es| <= j {
        assert es[i] in es && fs[j - |es|] in fs;
        assert es[i].key in ks && fs[j - |es|].key in ls;
      }
    }
  }

  lemma AddEntry(es: seq<DiffEntry>, ks: set<Key>, k: Key, a: Map, b: Map)
    requires EntriesOf(es, ks, a, b) && k !in ks
    ensures EntriesOf(es + [Entry(a, b, k)], ks + {k}, a, b)
  {
    JoinEntries(es, ks, [Entry(a, b, k)], {k}, a, b);
  }

  ghost function InSlot(ks: set<Key>, d: nat, i: nat): set<Key> { set k | k in ks && Slot(k, d) == i }

  /** Entries of one slot are entries of the whole. */
  lemma LiftEntries(es: seq<DiffEntry>, a: Map, b: Map, d: nat, i: nat)
    requires IsDiff(es, Sub(a, d, i), Sub(b, d, i))
    ensures EntriesOf(es, InSlot(DiffKeys(a, b), d, i), a, b)
  {
    hide Slot;
    var ks := InSlot(DiffKeys(a, b), d, i);
    assert ks == DiffKeys(Sub(a, d, i), Sub(b, d, i));
    forall k | k in ks ensures Entry(a, b, k) == Entry(Sub(a, d, i), Sub(b, d, i), k) {}
  }

  // ---- mapping lists that stand in for a missing subtree --------------------------

  /** One side of the diff: a subtree, or the mappings of a bucket higher up. */
  ghost predicate Side(cid: Option<Cid>, higher: seq<KeyElement>, m: Map, d: nat, bat: Bat) {
    match cid
    case Some(c) => higher == [] && Fits(m, d) && c == CidOf(Canon(m, d, bat))
    case None => Distinct(higher) && Lists(higher, m)
  }

  function AtSlot(ms: seq<KeyElement>, d: nat, i: nat): seq<KeyElement> {
    if ms == [] then []
    else AtSlot(ms[..|ms| - 1], d, i) + if Slot(ms[|ms| - 1].key, d) == i then [ms[|ms| - 1]] else []
  }

  lemma {:induction false} AtSlotLists(ms: seq<KeyElement>, m: Map, d: nat, i: nat)
    requires Distinct(ms) && Lists(ms, m)
    ensures Distinct(AtSlot(ms, d, i)) && Lists(AtSlot(ms, d, i), Sub(m, d, i))
  {
    if ms == [] {
      NothingListed(m);
      assert Sub(m, d, i) == map[];
    } else {
      var e := InitListing(ms, m);
      var r := m - {e.key};
      AtSlotLists(ms[..|ms| - 1], r, d, i);
      SubWithout(m, e, d, i);
      if Slot(e.key, d) == i {
        hide Slot, Distinct, Sub;
        OneListing(e);
        JoinListings(AtSlot(ms[..|ms| - 1], d, i), Sub(r, d, i), [e], map[e.key := e.value]);
      } else {
        assert AtSlot(ms[..|ms| - 1], d, i) + [] == AtSlot(ms[..|ms| - 1], d, i);
      }
    }
  }

  lemma OneListing(e: KeyElement)
    ensures Distinct([e]) && Lists([e], map[e.key := e.value])
  {}

  lemma SubWithout(m: Map, e: KeyElement, d: nat, i: nat)
    requires e.key in m && m[e.key] == e.value
    ensures var r := Sub(m - {e.key}, d, i);
      Sub(m, d, i) == (if Slot(e.key, d) == i then r + map[e.key := e.value] else r) && e.key !in r
  {
    hide Slot;
  }

  /** `hash_and_mask`: mappings grouped by their slot, in list order. */
  method HashAndMask(ms: seq<KeyElement>, depth: nat) returns (out: map<nat, seq<KeyElement>>)
    ensures Masked(out, ms, depth)
  {
    hide Slot;
    out := map[];
    assert ms[..0] == [];
    for j := 0 to |ms|
      invariant forall i :: i in out ==> out[i] == AtSlot(ms[..j], depth, i)
      invariant forall i :: i !in out ==> AtSlot(ms[..j], depth, i) == []
    {
      var bit := Slot(ms[j].key, depth);
      assert ms[..j + 1][..j] == ms[..j];
      var group := if bit in out then out[bit] else [];
      out := out[bit := group + [ms[j]]];
      forall i ensures AtSlot(ms[..j + 1], depth, i) == AtSlot(ms[..j], depth, i) + if bit == i then [ms[j]] else [] {}
    }
    assert ms[..|ms|] == ms;
  }

  /** A `HashMap` collected from mappings: a later one replaces an earlier. */
  function MapOf(ms: seq<KeyElement>): Map {
    if ms == [] then map[] else MapOf(ms[..|ms| - 1])[ms[|ms| - 1].key := ms[|ms| - 1].value]
  }

  lemma {:induction false} MapOfListing(ms: seq<KeyElement>, m: Map)
    requires Distinct(ms) && Lists(ms, m)
    ensures MapOf(ms) == m
  {
    if ms == [] {
      NothingListed(m);
    } else {
      var e := InitListing(ms, m);
      MapOfListing(ms[..|ms| - 1], m - {e.key});
      hide Distinct, Lists;
      assert (m - {e.key})[e.key := e.value] == m;
    }
  }

  // ---- one slot of one side ---------------------------------------------------------

  /** `get_element`: the payload at slot `bit`, from the running slot counts. */
  function GetElement(bit: nat, dataIndex: nat, nodeIndex: nat, champ: Option<Champ>): Option<Payload> {
    match champ
    case None => None
    case Some(c) =>
      if BitGet(c.dataMap, bit) then if dataIndex < |c.contents| then Some(c.contents[dataIndex]) else None
      else if BitGet(c.nodeMap, bit) then
        if nodeIndex < |c.contents| then Some(c.contents[|c.contents| - 1 - nodeIndex]) else None
      else None
  }

  function MappingsOf(p: Option<Payload>, higher: map<nat, seq<KeyElement>>, i: nat): seq<KeyElement> {
    if p.Some? && p.value.Mappings? then p.value.mappings else if i in higher then higher[i] else []
  }

  function ShardOf(p: Option<Payload>): Option<Cid> {
    if p.Some? && p.value.Link? then Some(p.value.cid) else None
  }

  /** The counters after slot `i` point at slot `i + 1`. */
  ghost predicate Counts(champ: Option<Champ>, i: nat, ld: nat, ln: nat) {
    champ.Some? ==> ld == GetIndex(champ.value.dataMap, i) && ln == GetIndex(champ.value.nodeMap, i)
  }

  ghost predicate Loaded(cid: Option<Cid>, champ: Option<Champ>) {
    match cid
    case None => champ == None
    case Some(c) => c.block.ChampBlock? && champ == Some(c.block.champ)
  }

  /** Whatever a side is, the slot the loop reads off it is again a side, for the
      keys of that slot one level down, and the counters move on. */
  lemma SlotOfSide(cid: Option<Cid>, higher: seq<KeyElement>, m: Map, d: nat, bat: Bat, champ: Option<Champ>,
                   masked: map<nat, seq<KeyElement>>, i: nat, ld: nat, ln: nat)
    requires Side(cid, higher, m, d, bat) && Loaded(cid, champ) && Counts(champ, i, ld, ln) && i < SLOTS
    requires Masked(masked, higher, d)
    ensures var p := GetElement(i, ld, ln, champ);
      && Side(ShardOf(p), MappingsOf(p, masked, i), Sub(m, d, i), d + 1, bat)
      && ShardOf(p) == ChildAt(cid, i)
      && Counts(champ, i + 1, ld + (if p.Some? && p.value.Mappings? then 1 else 0), ln + if p.Some? && p.value.Link? then 1 else 0)
  {
    if cid == None {
      hide Sub, Lists, Distinct, AtSlot;
      AtSlotLists(higher, m, d, i);
    } else {
      assert AtSlot(higher, d, i) == [];
      hide Slots, Sub, Fits, Canon, BucketOf, IsBucket, Distinct, Lists, GetElement, GetIndex, AtSlot;
      ElementOfTree(m, d, bat, i);
      BucketSide(Sub(m, d, i));
    }
  }

  lemma BucketSide(sub: Map)
    ensures Distinct(BucketOf(sub)) && Lists(BucketOf(sub), sub)
    ensures |sub| == 0 ==> Distinct([]) && Lists([], sub)
  {
    OrderedDistinct(BucketOf(sub));
  }

  lemma ElementOfTree(m: Map, d: nat, bat: Bat, i: nat)
    requires Fits(m, d) && i < SLOTS
    ensures var c := Canon(m, d, bat); var sub := Sub(m, d, i);
      var p := GetElement(i, GetIndex(c.dataMap, i), GetIndex(c.nodeMap, i), Some(c));
      && (|sub| == 0 ==> p == None)
      && (0 < |sub| <= MAX_COLLISIONS ==> p == Some(Mappings(BucketOf(sub))))
      && (|sub| > MAX_COLLISIONS ==> Fits(sub, d + 1) && p == Some(Link(CidOf(Canon(sub, d + 1, bat)))))
      && GetIndex(c.dataMap, i + 1) == GetIndex(c.dataMap, i) + (if p.Some? && p.value.Mappings? then 1 else 0)
      && GetIndex(c.nodeMap, i + 1) == GetIndex(c.nodeMap, i) + (if p.Some? && p.value.Link? then 1 else 0)
  {
    SlotAccess(Slots(m, d, bat), bat, i);
    SlotKind(m, d, bat, i);
    hide NodeOf, Slots, SlotAt, Sub, Fits, BitGet, BucketOf, IsBucket;
    assert Canon(m, d, bat) == NodeOf(Slots(m, d, bat), bat);
    hide Canon;
  }

  // ---- what the diff has to load ------------------------------------------------------

  /** The link at slot `i` of a stored champ. */
  ghost function ChildAt(cid: Option<Cid>, i: nat): Option<Cid> {
    if cid.Some? && cid.value.block.ChampBlock? then
      var c := cid.value.block.champ;
      ShardOf(GetElement(i, GetIndex(c.dataMap, i), GetIndex(c.nodeMap, i), Some(c)))
    else None
  }

  /** The store holds every node at which the two trees part company. Nodes the
      trees share need not be there. */
  ghost predicate Loadable(store: set<Cid>, l: Option<Cid>, r: Option<Cid>, d: nat)
    decreases HASH_CODE_LENGTH - d
  {
    l == r || (
      && d < HASH_CODE_LENGTH
      && (l.Some? ==> l.value in store) && (r.Some? ==> r.value in store)
      && forall i :: 0 <= i < SLOTS ==> Loadable(store, ChildAt(l, i), ChildAt(r, i), d + 1))
  }

  /** The whole of two complete trees is always enough. */
  lemma {:induction false} CompleteIsLoadable(store: set<Cid>, l: Option<Cid>, r: Option<Cid>, ml: Map, mr: Map,
                                              hl: seq<KeyElement>, hr: seq<KeyElement>, d: nat, bl: Bat, br: Bat)
    requires Side(l, hl, ml, d, bl) && Side(r, hr, mr, d, br) && d <= HASH_CODE_LENGTH
    requires (l.Some? ==> HasTree(store, l.value)) && (r.Some? ==> HasTree(store, r.value))
    ensures Loadable(store, l, r, d)
    decreases HASH_CODE_LENGTH - d
  {
    if l != r {
      hide Slot, Distinct, Lists, Canon, Sub;
      assert d < HASH_CODE_LENGTH;
      forall i | 0 <= i < SLOTS ensures Loadable(store, ChildAt(l, i), ChildAt(r, i), d + 1) {
        ChildSide(store, l, hl, ml, d, bl, i);
        ChildSide(store, r, hr, mr, d, br, i);
        CompleteIsLoadable(store, ChildAt(l, i), ChildAt(r, i), Sub(ml, d, i), Sub(mr, d, i),
                           HigherAt(l, hl, ml, d, i), HigherAt(r, hr, mr, d, i), d + 1, bl, br);
      }
    }
  }

  ghost function HigherAt(cid: Option<Cid>, higher: seq<KeyElement>, m: Map, d: nat, i: nat): seq<KeyElement> {
    if cid == None then AtSlot(higher, d, i)
    else if |Sub(m, d, i)| <= MAX_COLLISIONS then BucketOf(Sub(m, d, i)) else []
  }

  lemma ChildSide(store: set<Cid>, cid: Option<Cid>, higher: seq<KeyElement>, m: Map, d: nat, bat: Bat, i: nat)
    requires Side(cid, higher, m, d, bat) && i < SLOTS && (cid.Some? ==> HasTree(store, cid.value))
    ensures Side(ChildAt(cid, i), HigherAt(cid, higher, m, d, i), Sub(m, d, i), d + 1, bat)
    ensures ChildAt(cid, i).Some? ==> HasTree(store, ChildAt(cid, i).value)
  {
    if cid == None {
      hide Sub, Lists, Distinct, AtSlot;
      AtSlotLists(higher, m, d, i);
    } else {
      hide Slots, Sub, Fits, Canon, BucketOf, IsBucket, Distinct, Lists, GetElement, GetIndex;
      ElementOfTree(m, d, bat, i);
      BucketSide(Sub(m, d, i));
      if |Sub(m, d, i)| > MAX_COLLISIONS {
        TreeChild(store, m, d, bat, i);
      }
    }
  }

  lemma TreeChild(store: set<Cid>, m: Map, d: nat, bat: Bat, i: nat)
    requires Fits(m, d) && i < SLOTS && |Sub(m, d, i)| > MAX_COLLISIONS && Complete(store, Canon(m, d, bat))
    ensures Fits(Sub(m, d, i), d + 1) && HasTree(store, CidOf(Canon(Sub(m, d, i), d + 1, bat)))
  {
    SlotKind(m, d, bat, i);
    CompleteSlots(store, Slots(m, d, bat), bat);
  }

  // ---- the diff -------------------------------------------------------------------------

  /** Two slots without shards: the mappings, compared key by key. A `HashMap` yields
      its keys in any order. */
  method DiffMappings(lm: seq<KeyElement>, rm: seq<KeyElement>, out: seq<DiffEntry>, ghost a: Map, ghost b: Map)
    returns (res: seq<DiffEntry>)
    requires Distinct(lm) && Lists(lm, a) && Distinct(rm) && Lists(rm, b)
    ensures out <= res && IsDiff(res[|out|..], a, b)
  {
    MapOfListing(lm, a);
    MapOfListing(rm, b);
    hide Lists, Distinct, MapOf, EntriesOf;
    res := DiffLeft(MapOf(lm), MapOf(rm), out);
    ghost var es := res[|out|..];
    res := DiffRight(MapOf(lm), MapOf(rm), res, es);
    assert res[|out|..] == es + res[|out| + |es|..];
    assert out <= res;
  }

  /** The keys of the left map: changed or removed. */
  method DiffLeft(lmap: Map, rmap: Map, out: seq<DiffEntry>) returns (res: seq<DiffEntry>)
    ensures out <= res && EntriesOf(res[|out|..], DiffKeys(lmap, rmap) * lmap.Keys, lmap, rmap)
  {
    hide EntriesOf, DiffKeys, Entry;
    res := out;
    ghost var es: seq<DiffEntry> := [];
    NoEntries(lmap, rmap);
    var keys := lmap.Keys;
    while keys != {}
      invariant keys <= lmap.Keys && res == out + es
      invariant EntriesOf(es, DiffKeys(lmap, rmap) * (lmap.Keys - keys), lmap, rmap)
    {
      var k :| k in keys;
      LeftStep(lmap, rmap, keys, k, es);
      assert es + [] == es;
      if k !in rmap {
        res := res + [DiffEntry(k, lmap[k], None)];
        es := es + [DiffEntry(k, lmap[k], None)];
      } else if rmap[k] != lmap[k] {
        res := res + [DiffEntry(k, lmap[k], rmap[k])];
        es := es + [DiffEntry(k, lmap[k], rmap[k])];
      }
      keys := keys - {k};
    }
    assert lmap.Keys - {} == lmap.Keys;
    assert res[|out|..] == es;
  }

  lemma LeftStep(a: Map, b: Map, keys: set<Key>, k: Key, es: seq<DiffEntry>)
    requires k in keys && keys <= a.Keys && EntriesOf(es, DiffKeys(a, b) * (a.Keys - keys), a, b)
    ensures var fs := if k !in b then [DiffEntry(k, a[k], None)] else if b[k] != a[k] then [DiffEntry(k, a[k], b[k])] else [];
      EntriesOf(es + fs, DiffKeys(a, b) * (a.Keys - (keys - {k})), a, b)
  {
    var before, after := DiffKeys(a, b) * (a.Keys - keys), DiffKeys(a, b) * (a.Keys - (keys - {k}));
    hide EntriesOf;
    if k in b && b[k] == a[k] {
      assert after == before && es + [] == es;
    } else {
      assert after == before + {k};
      AddEntry(es, before, k, a, b);
    }
  }

  /** The keys only in the right map: added. */
  method DiffRight(lmap: Map, rmap: Map, out: seq<DiffEntry>, ghost es0: seq<DiffEntry>) returns (res: seq<DiffEntry>)
    requires EntriesOf(es0, DiffKeys(lmap, rmap) * lmap.Keys, lmap, rmap)
    ensures out <= res && IsDiff(es0 + res[|out|..], lmap, rmap)
  {
    assert DiffKeys(lmap, rmap) * (lmap.Keys + (rmap.Keys - rmap.Keys)) == DiffKeys(lmap, rmap) * lmap.Keys;
    assert DiffKeys(lmap, rmap) * (lmap.Keys + (rmap.Keys - {})) == DiffKeys(lmap, rmap);
    hide EntriesOf, DiffKeys, Entry;
    res := out;
    ghost var es: seq<DiffEntry> := [];
    assert es0 + es == es0;
    var keys := rmap.Keys;
    while keys != {}
      invariant keys <= rmap.Keys && res == out + es
      invariant EntriesOf(es0 + es, DiffKeys(lmap, rmap) * (lmap.Keys + (rmap.Keys - keys)), lmap, rmap)
    {
      var k :| k in keys;
      RightStep(lmap, rmap, keys, k, es0 + es);
      assert es0 + es + [] == es0 + es;
      if k !in lmap {
        res := res + [DiffEntry(k, None, rmap[k])];
        assert (es0 + es) + [DiffEntry(k, None, rmap[k])] == es0 + (es + [DiffEntry(k, None, rmap[k])]);
        es := es + [DiffEntry(k, None, rmap[k])];
      }
      keys := keys - {k};
    }
    assert res[|out|..] == es;
  }

  lemma RightStep(a: Map, b: Map, keys: set<Key>, k: Key, es: seq<DiffEntry>)
    requires k in keys && keys <= b.Keys && EntriesOf(es, DiffKeys(a, b) * (a.Keys + (b.Keys - keys)), a, b)
    ensures var fs := if k !in a then [DiffEntry(k, None, b[k])] else [];
      EntriesOf(es + fs, DiffKeys(a, b) * (a.Keys + (b.Keys - (keys - {k}))), a, b)
  {
    var before, after := DiffKeys(a, b) * (a.Keys + (b.Keys - keys)), DiffKeys(a, b) * (a.Keys + (b.Keys - (keys - {k})));
    hide EntriesOf;
    if k in a {
      assert after == before && es + [] == es;
    } else {
      assert after == before + {k};
      AddEntry(es, before, k, a, b);
    }
  }

  lemma NoEntries(a: Map, b: Map)
    ensures EntriesOf([], {}, a, b) && EntriesOf([], DiffKeys(a, b) * (a.Keys - a.Keys), a, b)
  {}

  /** The differing keys that are finished with: below slot `i`, and not put off. */
  ghost function Done(ks: set<Key>, d: nat, i: nat, deferred: seq<nat>): set<Key> {
    set k | k in ks && Slot(k, d) < i && Slot(k, d) !in deferred
  }

  lemma DoneSlot(ks: set<Key>, d: nat, i: nat, deferred: seq<nat>)
    requires i !in deferred
    ensures Done(ks, d, i + 1, deferred) == Done(ks, d, i, deferred) + InSlot(ks, d, i)
    ensures Done(ks, d, i, deferred) !! InSlot(ks, d, i)
    ensures Done(ks, d, i + 1, deferred + [i]) == Done(ks, d, i, deferred)
  {
    hide Slot;
  }

  lemma DoneDeferred(ks: set<Key>, d: nat, i: nat, rest: seq<nat>)
    requires i !in rest && i < SLOTS
    ensures Done(ks, d, SLOTS, rest) == Done(ks, d, SLOTS, [i] + rest) + InSlot(ks, d, i)
    ensures Done(ks, d, SLOTS, [i] + rest) !! InSlot(ks, d, i)
  {
    hide Slot;
  }

  lemma DoneAll(ks: set<Key>, d: nat)
    ensures Done(ks, d, SLOTS, []) == ks && Done(ks, d, 0, []) == {}
  {}

  type Deeper = (Option<Cid>, Option<Cid>, seq<KeyElement>, seq<KeyElement>)

  ghost predicate DeeperAt(t: Deeper, i: nat, ml: Map, mr: Map, d: nat, bl: Bat, br: Bat, l: Option<Cid>, r: Option<Cid>) {
    && Side(t.0, t.2, Sub(ml, d, i), d + 1, bl) && Side(t.1, t.3, Sub(mr, d, i), d + 1, br)
    && t.0 == ChildAt(l, i) && t.1 == ChildAt(r, i) && (t.0.Some? || t.1.Some?)
  }

  method LoadChamp(storage: BlockStore, cid: Option<Cid>) returns (r: Result<Option<Champ>, ChampError>)
    ensures r.Ok? ==> Loaded(cid, r.value)
    ensures r.Err? ==> cid.Some? && (cid.value !in storage.blocks || !cid.value.block.ChampBlock?)
  {
    if cid == None { return Ok(None); }
    if cid.value !in storage.blocks { return Err(MissingBlock); }
    if !cid.value.block.ChampBlock? { return Err(BadBlock); }
    return Ok(Some(cid.value.block.champ));
  }

  /** `diff`: appends to `out` exactly the keys whose bindings differ, each once with
      what both sides read for it. It succeeds whenever the nodes at which the trees
      differ can be loaded. */
  method Diff(storage: BlockStore, original: Option<Cid>, updated: Option<Cid>, depth: nat,
              higherLeft: seq<KeyElement>, higherRight: seq<KeyElement>, out: seq<DiffEntry>,
              ghost ml: Map, ghost mr: Map, ghost bl: Bat, ghost br: Bat)
    returns (r: Result<seq<DiffEntry>, ChampError>)
    requires Side(original, higherLeft, ml, depth, bl) && Side(updated, higherRight, mr, depth, br)
    requires (original.Some? || updated.Some?) && depth < HASH_CODE_LENGTH
    ensures r.Ok? ==> out <= r.value && IsDiff(r.value[|out|..], ml, mr)
    ensures r.Err? ==> !Loadable(storage.blocks, original, updated, depth)
    decreases HASH_CODE_LENGTH - depth, 1
  {
    if original == updated {
      SameTree(original, higherLeft, ml, higherRight, mr, depth, bl, br);
      assert out[|out|..] == [];
      return Ok(out);
    }
    var left := LoadChamp(storage, original);
    if left.Err? { SideIsChamp(original, higherLeft, ml, depth, bl); return Err(left.error); }
    var right := LoadChamp(storage, updated);
    if right.Err? { SideIsChamp(updated, higherRight, mr, depth, br); return Err(right.error); }
    var leftHigher := HashAndMask(higherLeft, depth);
    var rightHigher := HashAndMask(higherRight, depth);
    hide Side, Loaded, AtSlot, Loadable, PutOff, EntriesOf, Done, DiffKeys, Masked;
    var res, deeper, slots := DiffSlots(left.value, right.value, leftHigher, rightHigher, depth, out,
                                        original, updated, higherLeft, higherRight, ml, mr, bl, br);
    ghost var es := res[|out|..];
    var last := DiffDeeper(storage, deeper, depth, res, original, updated, ml, mr, bl, br, slots, es);
    if last.Ok? {
      assert last.value[|out|..] == es + last.value[|res|..];
    }
    return last;
  }

  /** The slot loop: compares the slots without shards and puts off the others. */
  method DiffSlots(left: Option<Champ>, right: Option<Champ>, leftHigher: map<nat, seq<KeyElement>>,
                   rightHigher: map<nat, seq<KeyElement>>, depth: nat, out: seq<DiffEntry>,
                   ghost l: Option<Cid>, ghost r: Option<Cid>, ghost hl: seq<KeyElement>, ghost hr: seq<KeyElement>,
                   ghost ml: Map, ghost mr: Map, ghost bl: Bat, ghost br: Bat)
    returns (res: seq<DiffEntry>, deeper: seq<Deeper>, ghost slots: seq<nat>)
    requires Side(l, hl, ml, depth, bl) && Side(r, hr, mr, depth, br) && Loaded(l, left) && Loaded(r, right)
    requires Masked(leftHigher, hl, depth) && Masked(rightHigher, hr, depth)
    ensures PutOff(deeper, slots, SLOTS, ml, mr, depth, bl, br, l, r)
    ensures out <= res && EntriesOf(res[|out|..], Done(DiffKeys(ml, mr), depth, SLOTS, slots), ml, mr)
  {
    hide Side, Loaded, Counts, ChildAt, GetElement, EntriesOf, DiffKeys, Done, AtSlot, Sub, IsDiff, InSlot, Slot, Distinct, Lists,
      DeeperAt, Masked, PutOff, MappingsOf;
    ghost var ks := DiffKeys(ml, mr);
    var ld, rd, ln, rn := 0, 0, 0, 0;
    CountsStart(left);
    CountsStart(right);
    res, deeper, slots := out, [], [];
    NoEntries(ml, mr);
    DoneAll(ks, depth);
    PutOffStart(ml, mr, depth, bl, br, l, r);
    assert out[|out|..] == [];
    for i := 0 to SLOTS
      invariant Counts(left, i, ld, ln) && Counts(right, i, rd, rn)
      invariant PutOff(deeper, slots, i, ml, mr, depth, bl, br, l, r)
      invariant out <= res && EntriesOf(res[|out|..], Done(ks, depth, i, slots), ml, mr)
    {
      var lp := GetElement(i, ld, ln, left);
      var rp := GetElement(i, rd, rn, right);
      SlotOfSide(l, hl, ml, depth, bl, left, leftHigher, i, ld, ln);
      SlotOfSide(r, hr, mr, depth, br, right, rightHigher, i, rd, rn);
      var leftMappings, rightMappings := MappingsOf(lp, leftHigher, i), MappingsOf(rp, rightHigher, i);
      var leftShard, rightShard := ShardOf(lp), ShardOf(rp);
      PutOffNext(deeper, slots, i, ml, mr, depth, bl, br, l, r);
      DoneSlot(ks, depth, i, slots);
      if leftShard.Some? || rightShard.Some? {
        var t: Deeper := (leftShard, rightShard, leftMappings, rightMappings);
        PutOffMore(deeper, slots, t, i, ml, mr, depth, bl, br, l, r);
        deeper := deeper + [t];
        slots := slots + [i];
      } else {
        SidesAreListings(leftMappings, Sub(ml, depth, i), depth + 1, bl);
        SidesAreListings(rightMappings, Sub(mr, depth, i), depth + 1, br);
        var next := DiffMappings(leftMappings, rightMappings, res, Sub(ml, depth, i), Sub(mr, depth, i));
        AddSlot(out, res, next, Done(ks, depth, i, slots), ml, mr, depth, i);
        res := next;
      }
      if lp.Some? { if lp.value.Link? { ln := ln + 1; } else { ld := ld + 1; } }
      if rp.Some? { if rp.value.Link? { rn := rn + 1; } else { rd := rd + 1; } }
    }
  }

  ghost predicate Masked(masked: map<nat, seq<KeyElement>>, higher: seq<KeyElement>, d: nat) {
    && (forall j :: j in masked ==> masked[j] == AtSlot(higher, d, j))
    && (forall j :: j !in masked ==> AtSlot(higher, d, j) == [])
  }

  /** The slots put off so far, with the pair of sides to recurse on. */
  ghost predicate PutOff(deeper: seq<Deeper>, slots: seq<nat>, i: nat, ml: Map, mr: Map, d: nat, bl: Bat, br: Bat,
                         l: Option<Cid>, r: Option<Cid>) {
    && |slots| == |deeper|
    && (forall j :: 0 <= j < |slots| ==> slots[j] < i)
    && (forall j, k :: 0 <= j < k < |slots| ==> slots[j] != slots[k])
    && forall j :: 0 <= j < |deeper| ==> DeeperAt(deeper[j], slots[j], ml, mr, d, bl, br, l, r)
  }

  lemma PutOffStart(ml: Map, mr: Map, d: nat, bl: Bat, br: Bat, l: Option<Cid>, r: Option<Cid>)
    ensures PutOff([], [], 0, ml, mr, d, bl, br, l, r)
  {}

  lemma PutOffNext(deeper: seq<Deeper>, slots: seq<nat>, i: nat, ml: Map, mr: Map, d: nat, bl: Bat, br: Bat,
                   l: Option<Cid>, r: Option<Cid>)
    requires PutOff(deeper, slots, i, ml, mr, d, bl, br, l, r)
    ensures PutOff(deeper, slots, i + 1, ml, mr, d, bl, br, l, r) && i !in slots
  {
    hide DeeperAt;
  }

  lemma PutOffMore(deeper: seq<Deeper>, slots: seq<nat>, t: Deeper, i: nat, ml: Map, mr: Map, d: nat, bl: Bat, br: Bat,
                   l: Option<Cid>, r: Option<Cid>)
    requires PutOff(deeper, slots, i, ml, mr, d, bl, br, l, r)
    requires Side(t.0, t.2, Sub(ml, d, i), d + 1, bl) && Side(t.1, t.3, Sub(mr, d, i), d + 1, br)
    requires t.0 == ChildAt(l, i) && t.1 == ChildAt(r, i) && (t.0.Some? || t.1.Some?)
    ensures PutOff(deeper + [t], slots + [i], i + 1, ml, mr, d, bl, br, l, r)
  {
    assert DeeperAt(t, i, ml, mr, d, bl, br, l, r);
    hide DeeperAt;
  }

  lemma AddSlot(out: seq<DiffEntry>, res: seq<DiffEntry>, next: seq<DiffEntry>, done: set<Key>, ml: Map, mr: Map, d: nat, i: nat)
    requires out <= res <= next && EntriesOf(res[|out|..], done, ml, mr) && done !! InSlot(DiffKeys(ml, mr), d, i)
    requires IsDiff(next[|res|..], Sub(ml, d, i), Sub(mr, d, i))
    ensures out <= next && EntriesOf(next[|out|..], done + InSlot(DiffKeys(ml, mr), d, i), ml, mr)
  {
    hide EntriesOf, InSlot, Sub, DiffKeys, IsDiff;
    LiftEntries(next[|res|..], ml, mr, d, i);
    JoinEntries(res[|out|..], done, next[|res|..], InSlot(DiffKeys(ml, mr), d, i), ml, mr);
    assert next[|out|..] == res[|out|..] + next[|res|..];
  }

  /** The loop over the pairs put off. */
  method DiffDeeper(storage: BlockStore, deeper: seq<Deeper>, depth: nat, out: seq<DiffEntry>,
                    ghost l: Option<Cid>, ghost r: Option<Cid>, ghost ml: Map, ghost mr: Map, ghost bl: Bat, ghost br: Bat,
                    ghost slots: seq<nat>, ghost es0: seq<DiffEntry>)
    returns (last: Result<seq<DiffEntry>, ChampError>)
    requires PutOff(deeper, slots, SLOTS, ml, mr, depth, bl, br, l, r) && l != r && depth < HASH_CODE_LENGTH
    requires EntriesOf(es0, Done(DiffKeys(ml, mr), depth, SLOTS, slots), ml, mr)
    ensures last.Ok? ==> out <= last.value && IsDiff(es0 + last.value[|out|..], ml, mr)
    ensures last.Err? ==> !Loadable(storage.blocks, l, r, depth)
    decreases HASH_CODE_LENGTH - depth, 0
  {
    hide Side, ChildAt, EntriesOf, DiffKeys, Done, Sub, InSlot, Slot, Loadable, Distinct, Lists, DeeperAt, IsDiff;
    ghost var ks := DiffKeys(ml, mr);
    var res := out;
    assert slots[0..] == slots && es0 + out[|out|..] == es0;
    for j := 0 to |deeper|
      invariant out <= res && EntriesOf(es0 + res[|out|..], Done(ks, depth, SLOTS, slots[j..]), ml, mr)
    {
      var (ls, rs, lm, rm) := deeper[j];
      ghost var i := slots[j];
      DeeperDepth(deeper[j], i, ml, mr, depth, bl, br, l, r);
      var next := Diff(storage, ls, rs, depth + 1, lm, rm, res, Sub(ml, depth, i), Sub(mr, depth, i), bl, br);
      if next.Err? {
        LoadableChild(storage.blocks, l, r, depth, i);
        return Err(next.error);
      }
      assert slots[j..] == [i] + slots[j + 1..];
      DoneDeferred(ks, depth, i, slots[j + 1..]);
      AddDeferred(es0, out, res, next.value, Done(ks, depth, SLOTS, slots[j..]), ml, mr, depth, i);
      res := next.value;
    }
    assert slots[|deeper|..] == [];
    DoneAll(ks, depth);
    WholeDiff(es0 + res[|out|..], ml, mr);
    return Ok(res);
  }

  lemma AddDeferred(es0: seq<DiffEntry>, out: seq<DiffEntry>, res: seq<DiffEntry>, next: seq<DiffEntry>, done: set<Key>,
                    ml: Map, mr: Map, d: nat, i: nat)
    requires out <= res <= next && EntriesOf(es0 + res[|out|..], done, ml, mr) && done !! InSlot(DiffKeys(ml, mr), d, i)
    requires IsDiff(next[|res|..], Sub(ml, d, i), Sub(mr, d, i))
    ensures out <= next && EntriesOf(es0 + next[|out|..], done + InSlot(DiffKeys(ml, mr), d, i), ml, mr)
  {
    hide EntriesOf, InSlot, Sub, DiffKeys, IsDiff;
    LiftEntries(next[|res|..], ml, mr, d, i);
    JoinEntries(es0 + res[|out|..], done, next[|res|..], InSlot(DiffKeys(ml, mr), d, i), ml, mr);
    assert es0 + next[|out|..] == es0 + res[|out|..] + next[|res|..];
  }

  lemma CountsStart(champ: Option<Champ>)
    ensures Counts(champ, 0, 0, 0)
  {}

  lemma WholeDiff(es: seq<DiffEntry>, a: Map, b: Map)
    requires EntriesOf(es, DiffKeys(a, b), a, b)
    ensures IsDiff(es, a, b)
  {}

  lemma SidesAreListings(ms: seq<KeyElement>, m: Map, d: nat, bat: Bat)
    requires Side(None, ms, m, d, bat)
    ensures Distinct(ms) && Lists(ms, m)
  {}

  lemma SideIsChamp(cid: Option<Cid>, higher: seq<KeyElement>, m: Map, d: nat, bat: Bat)
    requires Side(cid, higher, m, d, bat)
    ensures cid.Some? ==> cid.value.block.ChampBlock?
  {}

  lemma DeeperDepth(t: Deeper, i: nat, ml: Map, mr: Map, d: nat, bl: Bat, br: Bat, l: Option<Cid>, r: Option<Cid>)
    requires DeeperAt(t, i, ml, mr, d, bl, br, l, r)
    ensures d + 1 < HASH_CODE_LENGTH
    ensures Side(t.0, t.2, Sub(ml, d, i), d + 1, bl) && Side(t.1, t.3, Sub(mr, d, i), d + 1, br)
    ensures t.0 == ChildAt(l, i) && t.1 == ChildAt(r, i) && (t.0.Some? || t.1.Some?)
  {
    hide Canon, Distinct, Lists, Sub;
  }

  lemma LoadableChild(store: set<Cid>, l: Option<Cid>, r: Option<Cid>, d: nat, i: nat)
    requires l != r && i < SLOTS && !Loadable(store, ChildAt(l, i), ChildAt(r, i), d + 1)
    ensures !Loadable(store, l, r, d)
  {}

  /** Equal CIDs mean equal mappings, so nothing below them differs. */
  lemma SameTree(cid: Option<Cid>, hl: seq<KeyElement>, ml: Map, hr: seq<KeyElement>, mr: Map, d: nat, bl: Bat, br: Bat)
    requires cid.Some? && Side(cid, hl, ml, d, bl) && Side(cid, hr, mr, d, br)
    ensures ml == mr && IsDiff([], ml, mr)
  {
    CanonBat(ml, d, bl);
    CanonBat(mr, d, br);
    CanonInjective(ml, mr, d, bl);
    hide Fits, Canon;
    assert DiffKeys(ml, mr) == {};
  }
}
