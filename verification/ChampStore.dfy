/** Reading a champ out of a block store. */
module ChampStore {
  import opened Bytes
  import opened Bitmap
  import opened Mask
  import opened ChampNode
  import opened CanonicalTree

  datatype ChampError =
    | CasFailed | KeyNotPresent | HashCollision | Concurrent
    | MissingBlock | BadBlock | NotAShard | EmptySubNode | Panic

  /** `storage.get` followed by `Champ::from_cbor`. */
  function Load(store: set<Cid>, cid: Cid): Result<Option<Champ>, ChampError> {
    if cid !in store then Ok(None)
    else if cid.block.ChampBlock? then Ok(Some(cid.block.champ))
    else Err(BadBlock)
  }

  /** `get_child_with_hash` without the load: the link at `bitpos`. */
  function ChildLink(c: Champ, bitpos: nat): (r: Result<Cid, ChampError>)
    ensures r.Ok? ==> Link(r.value) in c.contents
  {
    if GetIndex(c.nodeMap, bitpos) >= |c.contents| then Err(Panic)
    else match c.contents[LinkIndex(c, bitpos)]
      case Link(cid) => Ok(cid)
      case Mappings(_) => Err(NotAShard)
  }

  /** `Champ::get`. A missing shard reads as an absent key. */
  function Get(store: set<Cid>, c: Champ, key: Key, depth: nat): Result<Option<Value>, ChampError>
    decreases c
  {
    var bitpos := Slot(key, depth);
    if BitGet(c.dataMap, bitpos) then
      var index := GetIndex(c.dataMap, bitpos);
      if index >= |c.contents| then Err(Panic)
      else match c.contents[index]
        case Mappings(ms) => var j := Find(ms, key); Ok(if j < |ms| then ms[j].value else None)
        case Link(_) => Ok(None)
    else if BitGet(c.nodeMap, bitpos) then
      match ChildLink(c, bitpos)
      case Err(e) => Err(e)
      case Ok(cid) =>
        match Load(store, cid)
        case Err(e) => Err(e)
        case Ok(None) => Ok(None)
        case Ok(Some(child)) => Get(store, child, key, depth + 1)
    else Ok(None)
  }

  /** What a read of `m` gives: null and absent are the same. */
  function Lookup(m: Map, k: Key): Option<Value> { if k in m then m[k] else None }

  // ---- what the code sees at one slot of a canonical node ---------------------

  lemma View(m: Map, d: nat, bat: Bat, key: Key)
    requires Fits(m, d)
    ensures var c := Canon(m, d, bat); var i := Slot(key, d); var sub := Sub(m, d, i);
      && c.mirrorBat == bat && d < HASH_CODE_LENGTH
      && (key in m <==> key in sub) && (key in m ==> m[key] == sub[key])
      && BitGet(c.dataMap, i) == (0 < |sub| <= MAX_COLLISIONS)
      && BitGet(c.nodeMap, i) == (|sub| > MAX_COLLISIONS)
      && GetIndex(c.dataMap, i) <= |c.contents|
      && (|sub| > 0 ==> GetIndex(c.dataMap, i) < |c.contents| && GetIndex(c.nodeMap, i) < |c.contents|)
      && (0 < |sub| <= MAX_COLLISIONS ==> c.contents[GetIndex(c.dataMap, i)] == Mappings(BucketOf(sub)))
      && (|sub| > MAX_COLLISIONS ==> Fits(sub, d + 1) && c.contents[LinkIndex(c, i)] == Link(CidOf(Canon(sub, d + 1, bat))))
  {
    hide BitGet, GetIndex, BucketFlags, ShardFlags, IsBucket;
    var i := Slot(key, d);
    SlotAccess(Slots(m, d, bat), bat, i);
    assert Slots(m, d, bat)[i] == SlotAt(m, d, bat, i);
  }

  // ---- stores that hold a whole tree ------------------------------------------

  /** Every node below `c` is in the store. */
  ghost predicate Complete(store: set<Cid>, c: Champ)
    decreases c
  {
    forall p :: p in c.contents && p.Link? ==> HasTree(store, p.cid)
  }

  /** The champ at `cid` is in the store, with every node below it. */
  ghost predicate HasTree(store: set<Cid>, cid: Cid)
    decreases cid
  {
    cid in store && cid.block.ChampBlock? && Complete(store, cid.block.champ)
  }

  lemma {:induction false} CompleteMono(store: set<Cid>, more: set<Cid>, c: Champ)
    requires Complete(store, c) && store <= more
    ensures Complete(more, c)
    decreases c
  {
    forall p | p in c.contents && p.Link? ensures HasTree(more, p.cid) {
      CompleteMono(store, more, p.cid.block.champ);
    }
  }

  lemma {:induction false} LinkFromSlot(s: seq<SlotView>, hi: nat, p: Payload)
    requires hi <= |s| && p.Link? && (p in Links(s, 0, hi) || p in Datas(s, 0, hi))
    ensures exists i :: 0 <= i < hi && s[i] == Shard(p.cid)
  {
    if p in LinkOf(s[hi - 1]) {
      assert s[hi - 1] == Shard(p.cid);
    } else {
      LinkFromSlot(s, hi - 1, p);
    }
  }

  /** Completeness, slot by slot. */
  lemma CompleteSlots(store: set<Cid>, s: seq<SlotView>, bat: Bat)
    requires |s| == SLOTS
    ensures Complete(store, NodeOf(s, bat)) <==> forall i :: 0 <= i < SLOTS && s[i].Shard? ==> HasTree(store, s[i].cid)
  {
    var c := NodeOf(s, bat);
    if Complete(store, c) {
      forall i | 0 <= i < SLOTS && s[i].Shard? ensures HasTree(store, s[i].cid) {
        SlotAccess(s, bat, i);
      }
    }
    if forall i :: 0 <= i < SLOTS && s[i].Shard? ==> HasTree(store, s[i].cid) {
      forall p | p in c.contents && p.Link? ensures HasTree(store, p.cid) {
        LinkFromSlot(s, SLOTS, p);
      }
    }
  }

  lemma CompleteUpdate(store: set<Cid>, more: set<Cid>, s: seq<SlotView>, bat: Bat, i: nat, v: SlotView)
    requires |s| == SLOTS && i < SLOTS && store <= more
    requires Complete(store, NodeOf(s, bat)) && (v.Shard? ==> HasTree(more, v.cid))
    ensures Complete(more, NodeOf(s[i := v], bat))
  {
    CompleteMono(store, more, NodeOf(s, bat));
    CompleteSlots(more, s, bat);
    CompleteSlots(more, s[i := v], bat);
  }

  lemma CompleteChild(store: set<Cid>, m: Map, d: nat, bat: Bat, key: Key)
    requires Fits(m, d) && |Sub(m, d, Slot(key, d))| > MAX_COLLISIONS && Complete(store, Canon(m, d, bat))
    ensures var sub := Sub(m, d, Slot(key, d)); Fits(sub, d + 1) && HasTree(store, CidOf(Canon(sub, d + 1, bat)))
  {
    hide Canon, Fits, BucketOf, IsBucket, Sub, BitGet, GetIndex, Slot;
    View(m, d, bat, key);
  }

  // ---- reads of the canonical tree --------------------------------------------

  /** The champ refines a finite map. Over a complete store a read is the map
      lookup; over any store at all, a read never fails and anything it returns is
      the true value. */
  lemma {:induction false} GetIsLookup(store: set<Cid>, m: Map, d: nat, bat: Bat, key: Key)
    requires Fits(m, d)
    ensures var r := Get(store, Canon(m, d, bat), key, d);
      r.Ok? && (r.value == Lookup(m, key) || r.value == None)
    ensures Complete(store, Canon(m, d, bat)) ==> Get(store, Canon(m, d, bat), key, d) == Ok(Lookup(m, key))
    decreases HASH_CODE_LENGTH - d
  {
    hide Canon, Get, Complete, BucketOf, IsBucket, Sub, Slot;
    GetUnfolds(store, m, d, bat, key);
    View(m, d, bat, key);
    var sub := Sub(m, d, Slot(key, d));
    if 0 < |sub| <= MAX_COLLISIONS {
      FindInBucket(sub, key);
    } else if |sub| > MAX_COLLISIONS {
      GetIsLookup(store, sub, d + 1, bat, key);
      if Complete(store, Canon(m, d, bat)) {
        CompleteChild(store, m, d, bat, key);
      }
    }
  }

  /** One level of `Get` on a canonical node. */
  lemma GetUnfolds(store: set<Cid>, m: Map, d: nat, bat: Bat, key: Key)
    requires Fits(m, d)
    ensures var r := Get(store, Canon(m, d, bat), key, d); var sub := Sub(m, d, Slot(key, d)); var ms := BucketOf(sub);
      && (|sub| == 0 ==> r == Ok(None))
      && (0 < |sub| <= MAX_COLLISIONS ==> r == Ok(if Find(ms, key) < |ms| then ms[Find(ms, key)].value else None))
      && (|sub| > MAX_COLLISIONS ==> Fits(sub, d + 1))
      && (|sub| > MAX_COLLISIONS && CidOf(Canon(sub, d + 1, bat)) !in store ==> r == Ok(None))
      && (|sub| > MAX_COLLISIONS && CidOf(Canon(sub, d + 1, bat)) in store ==> r == Get(store, Canon(sub, d + 1, bat), key, d + 1))
  {
    hide Canon, Fits, BucketOf, IsBucket, Sub, BitGet, GetIndex, Slot;
    View(m, d, bat, key);
  }

  // ---- counting ---------------------------------------------------------------

  ghost function KeysBelow(s: seq<SlotView>, n: nat): nat
    requires n <= |s|
  {
    if n == 0 then 0 else KeysBelow(s, n - 1) + if s[n - 1].Bucket? then |s[n - 1].mappings| else 0
  }

  ghost function ShardsBelow(s: seq<SlotView>, n: nat): nat
    requires n <= |s|
  {
    if n == 0 then 0 else ShardsBelow(s, n - 1) + if s[n - 1].Shard? then 1 else 0
  }

  lemma {:induction false} DataCounts(s: seq<SlotView>, n: nat)
    requires n <= |s|
    ensures KeyCount(Datas(s, 0, n)) == KeysBelow(s, n) && NodeCount(Datas(s, 0, n)) == 0
    ensures KeyCount(Links(s, 0, n)) == 0 && NodeCount(Links(s, 0, n)) == ShardsBelow(s, n)
    ensures Inline(Links(s, 0, n)) == []
  {
    if n > 0 {
      DataCounts(s, n - 1);
      CountAppend(Datas(s, 0, n - 1), DataOf(s[n - 1]));
      CountAppend(LinkOf(s[n - 1]), Links(s, 0, n - 1));
      OneCount(s[n - 1]);
      hide KeyCount, NodeCount, Inline, DataOf, LinkOf;
    }
  }

  lemma OneCount(v: SlotView)
    ensures KeyCount(DataOf(v)) == (if v.Bucket? then |v.mappings| else 0) && NodeCount(DataOf(v)) == 0
    ensures NodeCount(LinkOf(v)) == (if v.Shard? then 1 else 0) && KeyCount(LinkOf(v)) == 0 && Inline(LinkOf(v)) == []
  {}

  lemma NodeCounts(s: seq<SlotView>, bat: Bat)
    requires |s| == SLOTS
    ensures var c := NodeOf(s, bat);
      KeyCount(c.contents) == KeysBelow(s, SLOTS) && NodeCount(c.contents) == ShardsBelow(s, SLOTS)
      && Inline(c.contents) == Inline(Datas(s, 0, SLOTS))
  {
    DataCounts(s, SLOTS);
    CountAppend(Datas(s, 0, SLOTS), Links(s, 0, SLOTS));
  }

  /** The keys a canonical node holds inline, against all the keys it covers. */
  lemma {:induction false} CanonCounts(m: Map, d: nat, bat: Bat, n: nat)
    requires Fits(m, d) && n <= SLOTS
    ensures var s := Slots(m, d, bat);
      && KeysBelow(s, n) + (MAX_COLLISIONS + 1) * ShardsBelow(s, n) <= SumBelow(m, d, n)
      && (ShardsBelow(s, n) == 0 ==> KeysBelow(s, n) == SumBelow(m, d, n))
  {
    if n > 0 {
      hide Fits, Sub, Slots, SlotAt, SumBelow, IsBucket;
      SumStep(m, d, n);
      CanonCounts(m, d, bat, n - 1);
      SlotSize(m, d, bat, n - 1);
    }
  }

  lemma SumStep(m: Map, d: nat, n: nat)
    requires n > 0
    ensures SumBelow(m, d, n) == SumBelow(m, d, n - 1) + |Sub(m, d, n - 1)|
  {}

  lemma SlotSize(m: Map, d: nat, bat: Bat, i: nat)
    requires Fits(m, d) && i < SLOTS
    ensures var v := Slots(m, d, bat)[i]; var n := |Sub(m, d, i)|;
      && (v.Empty? ==> n == 0) && (v.Bucket? ==> n == |v.mappings|) && (v.Shard? ==> n >= MAX_COLLISIONS + 1)
  {
    assert Slots(m, d, bat)[i] == SlotAt(m, d, bat, i);
  }

  /** A node with no links holds every key it covers inline. */
  lemma InlineCounts(m: Map, d: nat, bat: Bat)
    requires Fits(m, d)
    ensures var c := Canon(m, d, bat);
      && (NodeCount(c.contents) == 0 ==> KeyCount(c.contents) == |m|)
      && (c.contents == [] ==> |m| == 0)
      && KeyCount(c.contents) + (MAX_COLLISIONS + 1) * NodeCount(c.contents) <= |m|
  {
    NodeCounts(Slots(m, d, bat), bat);
    CanonCounts(m, d, bat, SLOTS);
    SlotsPartition(m, d);
  }

  lemma {:induction false} LoneShard(m: Map, d: nat, bat: Bat, at: nat, n: nat)
    requires Fits(m, d) && at < n <= SLOTS && Slots(m, d, bat)[at].Shard?
    ensures var s := Slots(m, d, bat);
      && ShardsBelow(s, n) >= 1
      && (KeysBelow(s, n) == 0 && ShardsBelow(s, n) == 1 ==> SumBelow(m, d, n) == |Sub(m, d, at)|)
  {
    hide Fits, Sub, Slots, SlotAt, SumBelow, IsBucket;
    SumStep(m, d, n);
    SlotSize(m, d, bat, n - 1);
    if at == n - 1 {
      CanonCounts(m, d, bat, n - 1);
    } else {
      LoneShard(m, d, bat, at, n - 1);
    }
  }

  /** A node's only content is the shard at `at` exactly when that shard covers
      every key of the node. */
  lemma SingletonNode(m: Map, d: nat, bat: Bat, at: nat)
    requires Fits(m, d) && at < SLOTS && Slots(m, d, bat)[at].Shard?
    ensures var c := Canon(m, d, bat);
      && (KeyCount(c.contents) == 0 && NodeCount(c.contents) == 1 <==> Sub(m, d, at) == m)
      && NodeCount(c.contents) >= 1
  {
    var s := Slots(m, d, bat);
    NodeCounts(s, bat);
    LoneShard(m, d, bat, at, SLOTS);
    SlotsPartition(m, d);
    SubIsSmaller(m, d, at);
    if Sub(m, d, at) == m {
      OthersEmpty(m, d, bat, at, SLOTS);
    }
  }

  lemma {:induction false} OthersEmpty(m: Map, d: nat, bat: Bat, at: nat, n: nat)
    requires Fits(m, d) && at < SLOTS && n <= SLOTS && Sub(m, d, at) == m && Slots(m, d, bat)[at].Shard?
    ensures var s := Slots(m, d, bat);
      KeysBelow(s, n) == 0 && ShardsBelow(s, n) == if at < n then 1 else 0
  {
    if n > 0 {
      OthersEmpty(m, d, bat, at, n - 1);
      assert Slots(m, d, bat)[n - 1] == SlotAt(m, d, bat, n - 1);
      if n - 1 != at {
        assert forall k :: k in Sub(m, d, n - 1) ==> k in Sub(m, d, at);
        assert Sub(m, d, n - 1) == map[];
      }
    }
  }

  // ---- the inline mappings of a node without links -----------------------------

  ghost function Below(m: Map, d: nat, n: nat): Map {
    map k | k in m && Slot(k, d) < n :: m[k]
  }

  lemma {:induction false} InlineLists(m: Map, d: nat, bat: Bat, n: nat)
    requires Fits(m, d) && n <= SLOTS && ShardsBelow(Slots(m, d, bat), n) == 0
    ensures var ms := Inline(Datas(Slots(m, d, bat), 0, n));
      Distinct(ms) && Lists(ms, Below(m, d, n))
  {
    var s := Slots(m, d, bat);
    if n == 0 {
      assert Below(m, d, n) == map[];
    } else {
      InlineLists(m, d, bat, n - 1);
      InlineStep(s, n);
      BelowStep(m, d, n);
      InlineSlot(m, d, bat, n - 1);
      JoinListings(Inline(Datas(s, 0, n - 1)), Below(m, d, n - 1), Inline(DataOf(s[n - 1])), Sub(m, d, n - 1));
    }
  }

  lemma InlineStep(s: seq<SlotView>, n: nat)
    requires 0 < n <= |s|
    ensures Inline(Datas(s, 0, n)) == Inline(Datas(s, 0, n - 1)) + Inline(DataOf(s[n - 1]))
  {
    CountAppend(Datas(s, 0, n - 1), DataOf(s[n - 1]));
  }

  lemma BelowStep(m: Map, d: nat, n: nat)
    requires n > 0
    ensures Below(m, d, n) == Below(m, d, n - 1) + Sub(m, d, n - 1)
    ensures Below(m, d, n - 1).Keys !! Sub(m, d, n - 1).Keys
  {}

  lemma InlineSlot(m: Map, d: nat, bat: Bat, i: nat)
    requires Fits(m, d) && i < SLOTS && !Slots(m, d, bat)[i].Shard?
    ensures var ms := Inline(DataOf(Slots(m, d, bat)[i])); Distinct(ms) && Lists(ms, Sub(m, d, i))
  {
    var v := Slots(m, d, bat)[i];
    assert v == SlotAt(m, d, bat, i);
    if v.Bucket? {
      assert DataOf(v)[1..] == [] && Inline(DataOf(v)) == v.mappings + [];
      OrderedDistinct(v.mappings);
    } else {
      assert Sub(m, d, i) == map[];
    }
  }

  lemma JoinListings(a: seq<KeyElement>, ma: Map, b: seq<KeyElement>, mb: Map)
    requires Distinct(a) && Lists(a, ma) && Distinct(b) && Lists(b, mb) && ma.Keys !! mb.Keys
    ensures Distinct(a + b) && Lists(a + b, ma + mb)
  {
    forall i, j | 0 <= i < j < |a + b| ensures (a + b)[i].key != (a + b)[j].key {
      if i < |a| <= j {
        assert a[i] in a && b[j - |a|] in b;
        assert a[i].key in ma.Keys && b[j - |a|].key in mb.Keys;
      }
    }
    forall e | e in a + b ensures e.key in ma + mb && (ma + mb)[e.key] == e.value {
      if e in a {
        assert e.key in ma.Keys;
      }
    }
  }

  lemma {:induction false} WithoutLists(ms: seq<KeyElement>, m: Map, key: Key)
    requires Distinct(ms) && Lists(ms, m)
    ensures Distinct(Without(ms, key)) && Lists(Without(ms, key), m - {key})
  {
    if ms == [] {
      assert m == map[];
    } else {
      var e, t, r := ms[0], ms[1..], m - {ms[0].key};
      TailListing(ms, m);
      WithoutLists(t, r, key);
      PutBack(m, e, key);
      if e.key != key {
        JoinListings([e], map[e.key := e.value], Without(t, key), r - {key});
      } else {
        assert [] + Without(t, key) == Without(t, key);
      }
    }
  }

  lemma PutBack(m: Map, e: KeyElement, key: Key)
    requires e.key in m && m[e.key] == e.value
    ensures var r := m - {e.key} - {key};
      m - {key} == if e.key == key then r else map[e.key := e.value] + r
  {}

  lemma TailListing(ms: seq<KeyElement>, m: Map)
    requires Distinct(ms) && Lists(ms, m) && ms != []
    ensures ms[0].key in m && m[ms[0].key] == ms[0].value
    ensures Distinct(ms[1..]) && Lists(ms[1..], m - {ms[0].key})
  {
    var t, r := ms[1..], m - {ms[0].key};
    assert ms[0] in ms;
    forall x | x in t ensures x.key in r && r[x.key] == x.value {
      var i :| 0 <= i < |t| && t[i] == x;
      assert ms[i + 1] == x;
    }
    forall k | k in r ensures KeyElement(k, r[k]) in t {
      var i :| 0 <= i < |ms| && ms[i] == KeyElement(k, m[k]);
      assert t[i - 1] == ms[i];
    }
  }

  /** A collapsing shard gathers exactly its other mappings, in bucket order. */
  lemma CollapseBucket(m: Map, d: nat, bat: Bat, key: Key)
    requires Fits(m, d) && NodeCount(Canon(m, d, bat).contents) == 0
    ensures Collapse(Canon(m, d, bat), key) == Collapsed(m - {key}, key, bat)
  {
    var s := Slots(m, d, bat);
    NodeCounts(s, bat);
    InlineLists(m, d, bat, SLOTS);
    assert Below(m, d, SLOTS) == m;
    var ms := Inline(Canon(m, d, bat).contents);
    WithoutLists(ms, m, key);
    SortBucket(Without(ms, key), m - {key});
  }

  /** The transient single-bucket node handed up to a parent. */
  ghost function Collapsed(m: Map, key: Key, bat: Bat): Champ {
    Champ(BitSet([], Slot(key, 0)), [], [Mappings(BucketOf(m))], bat)
  }

  /** A collapsed node that reaches the root is already the canonical root. */
  lemma CollapsedAtRoot(m: Map, key: Key, bat: Bat)
    requires 0 < |m| <= MAX_COLLISIONS && forall k :: k in m ==> Slot(k, 0) == Slot(key, 0)
    requires Fits(m, 0)
    ensures Canon(m, 0, bat) == Collapsed(m, key, bat)
  {
    var i, s := Slot(key, 0), Slots(m, 0, bat);
    var none: seq<SlotView> := seq(SLOTS, _ => Empty);
    LoneBucket(m, key, bat);
    assert s == none[i := Bucket(BucketOf(m))];
    hide NodeOf, BucketOf, IsBucket, Slots, BitSet, BitGet, GetIndex, Fits, Slot;
    var pre, mid, post := Around(none, bat, i, Bucket(BucketOf(m)));
    EmptyNode(none, bat);
  }

  lemma LoneBucket(m: Map, key: Key, bat: Bat)
    requires 0 < |m| <= MAX_COLLISIONS && Fits(m, 0) && forall k :: k in m ==> Slot(k, 0) == Slot(key, 0)
    ensures var s := Slots(m, 0, bat);
      && s[Slot(key, 0)] == Bucket(BucketOf(m))
      && forall j :: 0 <= j < SLOTS && j != Slot(key, 0) ==> s[j] == Empty
  {
    hide Slot, IsBucket, Canon;
    var s := Slots(m, 0, bat);
    assert Sub(m, 0, Slot(key, 0)) == m;
    forall j | 0 <= j < SLOTS && j != Slot(key, 0) ensures s[j] == Empty {
      assert s[j] == SlotAt(m, 0, bat, j) && Sub(m, 0, j) == map[];
    }
  }

  lemma EmptyNode(none: seq<SlotView>, bat: Bat)
    requires |none| == SLOTS && forall j :: 0 <= j < SLOTS ==> none[j].Empty?
    ensures NodeOf(none, bat) == EmptyChamp(bat)
  {
    EmptyDatas(none, SLOTS);
    var f: seq<bool> := seq(SLOTS, _ => false);
    assert BucketFlags(none) == f && ShardFlags(none) == f;
    PackNone(f);
  }

  lemma {:induction false} EmptyDatas(s: seq<SlotView>, n: nat)
    requires n <= |s| && forall j :: 0 <= j < |s| ==> s[j].Empty?
    ensures Datas(s, 0, n) == [] && Links(s, 0, n) == []
  {
    if n > 0 { EmptyDatas(s, n - 1); }
  }

  lemma PackNone(f: seq<bool>)
    requires |f| == SLOTS && forall i :: 0 <= i < SLOTS ==> !f[i]
    ensures Pack(f) == []
  {
    PackedNone(f);
  }

  lemma {:induction false} PackedNone(f: seq<bool>)
    requires forall i :: 0 <= i < |f| ==> !f[i]
    ensures Packed(f) == 0
  {
    if f != [] { PackedNone(f[1..]); }
  }

  /** The empty champ is the canonical tree of the empty mapping. */
  lemma EmptyIsCanon(d: nat, bat: Bat)
    requires d < HASH_CODE_LENGTH
    ensures Fits(map[], d) && Canon(map[], d, bat) == EmptyChamp(bat)
  {
    SmallFits(map[], d);
    var s := Slots(map[], d, bat);
    forall i | 0 <= i < SLOTS ensures s[i].Empty? {
      assert s[i] == SlotAt(map[], d, bat, i) && Sub(map[], d, i) == map[];
    }
    EmptyNode(s, bat);
  }
}
