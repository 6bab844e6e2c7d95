/** The shape every stored champ keeps, said of the node tree alone, and that this
    shape leaves exactly one tree for each mapping. */
module ChampShape {
  import opened Bytes
  import opened Bitmap
  import opened Mask
  import opened ChampNode
  import opened CanonicalTree
  import opened ChampStore
  import opened ChampOps
  import opened ChampRemove
  import opened ChampDiff

  /** What the bitmaps and the index arithmetic find at slot `i` of any node. */
  ghost function SlotIn(c: Champ, i: nat): (r: SlotView)
    ensures r.Shard? && r.cid.block.ChampBlock? ==> r.cid.block.champ < c
  {
    var p := GetElement(i, GetIndex(c.dataMap, i), GetIndex(c.nodeMap, i), Some(c));
    if p.None? then Empty else match p.value case Mappings(ms) => Bucket(ms) case Link(cid) => Shard(cid)
  }

  ghost function SlotsIn(c: Champ): seq<SlotView> { seq(SLOTS, i requires 0 <= i < SLOTS => SlotIn(c, i)) }

  /** The mapping a node tree holds, by following its links. */
  ghost function Elements(c: Champ): Map
    decreases c, SLOTS + 1
  {
    ElementsBelow(c, SLOTS)
  }

  ghost function ElementsBelow(c: Champ, n: nat): Map
    decreases c, n
  {
    if n == 0 then map[] else
      ElementsBelow(c, n - 1) + match SlotIn(c, n - 1)
                                case Empty => map[]
                                case Bucket(ms) => MapOf(ms)
                                case Shard(cid) => if cid.block.ChampBlock? then Elements(cid.block.champ) else map[]
  }

  ghost function SlotElements(v: SlotView): Map {
    match v
    case Empty => map[]
    case Bucket(ms) => MapOf(ms)
    case Shard(cid) => if cid.block.ChampBlock? then Elements(cid.block.champ) else map[]
  }

  /** The invariant of a stored node at depth `d`: its bytes are the layout of its
      slots; a bucket holds one to four mappings of its own slot, strictly sorted; a
      link leads to such a node one level down that covers more than four keys, all of
      its own slot. */
  ghost predicate Shaped(c: Champ, d: nat)
    decreases c, 1
  {
    && d < 32
    && c == NodeOf(SlotsIn(c), c.mirrorBat)
    && forall i :: 0 <= i < SLOTS ==> ShapedSlot(c, d, i)
  }

  ghost predicate ShapedSlot(c: Champ, d: nat, i: nat)
    decreases c, 0
  {
    match SlotIn(c, i)
    case Empty => true
    case Bucket(ms) => 0 < |ms| <= 4 && Ordered(ms) && forall e :: e in ms ==> Slot(e.key, d) == i
    case Shard(cid) =>
      && cid.block.ChampBlock? && cid.block.champ.mirrorBat == c.mirrorBat
      && Shaped(cid.block.champ, d + 1)
      && |Elements(cid.block.champ)| > 4
      && forall k :: k in Elements(cid.block.champ) ==> Slot(k, d) == i
  }

  // ---- a canonical tree has the shape ---------------------------------------------

  lemma SlotInCanon(m: Map, d: nat, bat: Bat, i: nat)
    requires Fits(m, d) && i < SLOTS
    ensures SlotIn(Canon(m, d, bat), i) == Slots(m, d, bat)[i]
  {
    hide Slots, Canon, Fits, Sub, BucketOf, IsBucket, GetElement;
    ElementOfTree(m, d, bat, i);
    SlotKind(m, d, bat, i);
  }

  lemma {:induction false} CanonElements(m: Map, d: nat, bat: Bat)
    requires Fits(m, d)
    ensures Elements(Canon(m, d, bat)) == m
    decreases HASH_CODE_LENGTH - d, 1, 0
  {
    hide Fits, Canon, ElementsBelow;
    View(m, d, bat, []);
    CanonElementsBelow(m, d, bat, SLOTS);
    hide Slot;
    assert Below(m, d, SLOTS) == m;
  }

  lemma {:induction false} CanonElementsBelow(m: Map, d: nat, bat: Bat, n: nat)
    requires Fits(m, d) && n <= SLOTS
    ensures ElementsBelow(Canon(m, d, bat), n) == Below(m, d, n)
    decreases HASH_CODE_LENGTH - d, 0, n + 1
  {
    hide Fits, Canon, Slot, SlotIn, SlotElements, Sub;
    if n == 0 {
      assert Below(m, d, 0) == map[];
    } else {
      hide ElementsBelow, Below;
      ElementsStep(Canon(m, d, bat), n);
      CanonElementsBelow(m, d, bat, n - 1);
      CanonSlotElements(m, d, bat, n - 1);
      BelowStep(m, d, n);
    }
  }

  lemma {:induction false} CanonSlotElements(m: Map, d: nat, bat: Bat, i: nat)
    requires Fits(m, d) && i < SLOTS
    ensures SlotElements(SlotIn(Canon(m, d, bat), i)) == Sub(m, d, i)
    decreases HASH_CODE_LENGTH - d, 0, 0
  {
    FitsDepth(m, d);
    hide Fits, Canon, Slots, Sub, BucketOf, IsBucket, SlotIn, Elements;
    SlotInCanon(m, d, bat, i);
    SlotKind(m, d, bat, i);
    var v, sub := Slots(m, d, bat)[i], Sub(m, d, i);
    if v.Bucket? {
      BucketSide(sub);
      MapOfListing(BucketOf(sub), sub);
    } else if v.Shard? {
      FitsDepth(sub, d + 1);
      CanonElements(sub, d + 1, bat);
    }
  }

  /** Every node of a canonical tree has the shape. */
  lemma {:induction false} CanonIsShaped(m: Map, d: nat, bat: Bat)
    requires Fits(m, d)
    ensures Shaped(Canon(m, d, bat), d)
    decreases HASH_CODE_LENGTH - d, 1
  {
    hide Fits, Canon, Slots, SlotIn, ShapedSlot, NodeOf;
    var c := Canon(m, d, bat);
    FitsDepth(m, d);
    CanonNode(m, d, bat);
    CanonBat(m, d, bat);
    forall i | 0 <= i < SLOTS ensures SlotIn(c, i) == Slots(m, d, bat)[i] { SlotInCanon(m, d, bat, i); }
    assert SlotsIn(c) == Slots(m, d, bat);
    forall i: nat | i < SLOTS ensures ShapedSlot(c, d, i) {
      CanonSlotIsShaped(m, d, bat, i);
    }
  }

  lemma {:induction false} CanonSlotIsShaped(m: Map, d: nat, bat: Bat, i: nat)
    requires Fits(m, d) && i < SLOTS
    ensures ShapedSlot(Canon(m, d, bat), d, i)
    decreases HASH_CODE_LENGTH - d, 0
  {
    FitsDepth(m, d);
    CanonBat(m, d, bat);
    hide Fits, Canon, Slots, SlotIn, Slot, Elements, Shaped;
    SlotInCanon(m, d, bat, i);
    SlotKind(m, d, bat, i);
    var v, sub := Slots(m, d, bat)[i], Sub(m, d, i);
    if v.Bucket? {
      forall e | e in v.mappings ensures Slot(e.key, d) == i { assert e.key in sub; }
    } else if v.Shard? {
      FitsDepth(sub, d + 1);
      CanonBat(sub, d + 1, bat);
      CanonElements(sub, d + 1, bat);
      CanonIsShaped(sub, d + 1, bat);
    }
  }

  // ---- and only a canonical tree does ----------------------------------------------

  lemma {:induction false} ElementsInSlot(c: Champ, d: nat, n: nat)
    requires Shaped(c, d) && n <= SLOTS
    ensures forall k :: k in ElementsBelow(c, n) ==> Slot(k, d) < n
    ensures forall i :: 0 <= i < n ==> Sub(ElementsBelow(c, n), d, i) == SlotElements(SlotIn(c, i))
  {
    hide SlotElements, Shaped, Slot, SlotIn, Sub;
    if n > 0 {
      hide ElementsBelow;
      ElementsInSlot(c, d, n - 1);
      ElementsOfSlot(c, d, n - 1);
      ElementsStep(c, n);
      var a, b := ElementsBelow(c, n - 1), SlotElements(SlotIn(c, n - 1));
      SubOfUnion(a, b, d, n - 1);
    }
  }

  /** Keys of one more slot, joined to keys of the slots before it. */
  lemma SubOfUnion(a: Map, b: Map, d: nat, n: nat)
    requires (forall k :: k in a ==> Slot(k, d) < n) && (forall k :: k in b ==> Slot(k, d) == n)
    ensures forall k :: k in a + b ==> Slot(k, d) < n + 1
    ensures forall i :: 0 <= i < n ==> Sub(a + b, d, i) == Sub(a, d, i)
    ensures Sub(a + b, d, n) == b
  {
    hide Slot;
  }

  lemma ElementsStep(c: Champ, n: nat)
    requires n > 0
    ensures ElementsBelow(c, n) == ElementsBelow(c, n - 1) + SlotElements(SlotIn(c, n - 1))
  {}

  lemma ElementsOfSlot(c: Champ, d: nat, i: nat)
    requires Shaped(c, d) && i < SLOTS
    ensures forall k :: k in SlotElements(SlotIn(c, i)) ==> Slot(k, d) == i
  {
    hide Elements, NodeOf, Slot, SlotsIn;
    assert ShapedSlot(c, d, i);
    var v := SlotIn(c, i);
    if v.Bucket? {
      BucketElements(v.mappings);
    }
  }

  lemma BucketElements(ms: seq<KeyElement>)
    requires Ordered(ms)
    ensures IsBucket(ms, MapOf(ms)) && |MapOf(ms)| == |ms| && BucketOf(MapOf(ms)) == ms
    ensures forall k :: k in MapOf(ms) ==> KeyElement(k, MapOf(ms)[k]) in ms
  {
    OrderedDistinct(ms);
    MapOfLists(ms);
    hide Ordered, Distinct, MapOf;
    BucketUnique(ms, BucketOf(MapOf(ms)), MapOf(ms));
    BucketSize(ms, MapOf(ms));
  }

  lemma {:induction false} MapOfLists(ms: seq<KeyElement>)
    requires Distinct(ms)
    ensures Lists(ms, MapOf(ms))
  {
    if ms != [] {
      LastIsNew(ms);
      hide Distinct;
      var n := |ms| - 1;
      MapOfLists(ms[..n]);
      assert ms == ms[..n] + [ms[n]];
      hide Lists;
      ListsOneMore(ms[..n], MapOf(ms[..n]), ms[n]);
    }
  }

  lemma ListsOneMore(ms: seq<KeyElement>, m: Map, e: KeyElement)
    requires Lists(ms, m) && forall x :: x in ms ==> x.key != e.key
    ensures Lists(ms + [e], m[e.key := e.value])
  {
    assert forall x :: x in ms + [e] <==> x in ms || x == e;
  }

  lemma LastIsNew(ms: seq<KeyElement>)
    requires Distinct(ms) && ms != []
    ensures var n := |ms| - 1; Distinct(ms[..n]) && forall x :: x in ms[..n] ==> x.key != ms[n].key
  {
    var n := |ms| - 1;
    forall x | x in ms[..n] ensures x.key != ms[n].key {
      var i :| 0 <= i < n && ms[..n][i] == x;
      assert ms[i] == x;
    }
  }

  /** A shaped tree is the canonical tree of what it holds. */
  lemma {:induction false} ShapedIsCanon(c: Champ, d: nat)
    requires Shaped(c, d)
    ensures Fits(Elements(c), d) && c == Canon(Elements(c), d, c.mirrorBat)
    decreases HASH_CODE_LENGTH - d, 1
  {
    var m, bat := Elements(c), c.mirrorBat;
    ElementsInSlot(c, d, SLOTS);
    hide Elements, ElementsBelow, Slot, BucketOf, IsBucket;
    forall i: nat | i < SLOTS ensures |Sub(m, d, i)| > MAX_COLLISIONS ==> Fits(Sub(m, d, i), d + 1) {
      ShapedSlotIsCanon(c, d, i);
    }
    assert Fits(m, d);
    forall i: nat | i < SLOTS ensures Slots(m, d, bat)[i] == SlotIn(c, i) {
      ShapedSlotIsCanon(c, d, i);
      assert Slots(m, d, bat)[i] == SlotAt(m, d, bat, i);
    }
    assert Slots(m, d, bat) == SlotsIn(c);
  }

  lemma {:induction false} ShapedSlotIsCanon(c: Champ, d: nat, i: nat)
    requires Shaped(c, d) && i < SLOTS
    ensures var v, s := SlotIn(c, i), SlotElements(SlotIn(c, i));
      && (|s| == 0 <==> v.Empty?)
      && (v.Bucket? <==> 0 < |s| <= MAX_COLLISIONS) && (v.Bucket? ==> v == Bucket(BucketOf(s)))
      && (|s| > MAX_COLLISIONS ==> Fits(s, d + 1) && v == Shard(CidOf(Canon(s, d + 1, c.mirrorBat))))
    decreases HASH_CODE_LENGTH - d, 0
  {
    hide Elements, NodeOf, Slot, SlotsIn, Canon, Fits;
    assert ShapedSlot(c, d, i);
    var v := SlotIn(c, i);
    if v.Bucket? {
      BucketElements(v.mappings);
    } else if v.Shard? {
      ShapedDepth(v.cid.block.champ, d + 1);
      ShapedIsCanon(v.cid.block.champ, d + 1);
    }
  }

  lemma ShapedDepth(c: Champ, d: nat)
    requires Shaped(c, d)
    ensures d < HASH_CODE_LENGTH
  {}
}
