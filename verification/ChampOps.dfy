/** The block store, and the champ's `put` with `push_mappings_down_a_level`. */
module ChampOps {
  import opened Bytes
  import opened Bitmap
  import opened Mask
  import opened ChampNode
  import opened CanonicalTree
  import opened ChampStore

  /** A content-addressed store. Blocks are only ever added. */
  class BlockStore {
    var blocks: set<Cid>

    constructor ()
      ensures blocks == {}
    {
      blocks := {};
    }

    /** `put_block_signed` */
    method PutBlock(b: Block) returns (cid: Cid)
      modifies this
      ensures cid == Cid(b) && blocks == old(blocks) + {cid}
    {
      cid := Cid(b);
      blocks := blocks + {cid};
    }

    method PutChamp(c: Champ) returns (cid: Cid)
      modifies this
      ensures cid == CidOf(c) && blocks == old(blocks) + {cid}
    {
      cid := CidOf(c);
      blocks := blocks + {cid};
    }
  }

  // ---- put: one lemma for each branch -----------------------------------------

  /** The canonical node after a change confined to the slot of `k`. */
  lemma PutNode(m: Map, d: nat, bat: Bat, k: Key, v: Option<Value>)
    requires Fits(m, d) && Fits(m[k := v], d)
    ensures var s := Sub(m, d, Slot(k, d))[k := v];
      && (|s| > MAX_COLLISIONS ==> Fits(s, d + 1))
      && Canon(m[k := v], d, bat) == NodeOf(Slots(m, d, bat)[Slot(k, d) :=
          if |s| <= MAX_COLLISIONS then Bucket(BucketOf(s)) else Shard(CidOf(Canon(s, d + 1, bat)))], bat)
  {
    hide NodeOf, IsBucket, Slot;
    PutSlots(m, d, bat, k, v);
    SubPut(m, d, k, v);
    assert k in Sub(m[k := v], d, Slot(k, d)).Keys;
  }

  lemma PutSize(s: Map, k: Key, v: Option<Value>)
    ensures |s[k := v]| == if k in s then |s| else |s| + 1
  {
    if k in s { assert s[k := v].Keys == s.Keys; } else { assert s[k := v].Keys == s.Keys + {k}; }
  }

  lemma SetInBucket(s: Map, k: Key, v: Option<Value>)
    requires k in s
    ensures var ms := BucketOf(s); var j := Find(ms, k);
      j < |ms| && ms[j := ms[j].(value := v)] == BucketOf(s[k := v])
  {
    var ms := BucketOf(s);
    FindInBucket(s, k);
    var us := ms[Find(ms, k) := ms[Find(ms, k)].(value := v)];
    SetKeepsBucket(ms, s, k, v, Find(ms, k));
    hide IsBucket, Find;
    BucketUnique(us, BucketOf(s[k := v]), s[k := v]);
  }

  lemma SetKeepsBucket(ms: seq<KeyElement>, s: Map, k: Key, v: Option<Value>, j: nat)
    requires IsBucket(ms, s) && k in s && j < |ms| && ms[j].key == k
    ensures IsBucket(ms[j := ms[j].(value := v)], s[k := v])
  {
    var us := ms[j := ms[j].(value := v)];
    SetInBucketCovers(ms, s, k, v, j);
    SetInBucketSound(ms, s, k, v, j);
    hide Less, Lists;
    assert Ordered(us);
  }

  lemma SetInBucketSound(ms: seq<KeyElement>, s: Map, k: Key, v: Option<Value>, j: nat)
    requires IsBucket(ms, s) && k in s && j < |ms| && ms[j].key == k
    ensures var us := ms[j := ms[j].(value := v)]; var s' := s[k := v];
      forall e :: e in us ==> e.key in s' && s'[e.key] == e.value
  {
    OrderedDistinct(ms);
    var us, s' := ms[j := ms[j].(value := v)], s[k := v];
    forall e | e in us ensures e.key in s' && s'[e.key] == e.value {
      var i :| 0 <= i < |us| && us[i] == e;
      assert ms[i] in ms;
    }
  }

  lemma SetInBucketCovers(ms: seq<KeyElement>, s: Map, k: Key, v: Option<Value>, j: nat)
    requires Lists(ms, s) && k in s && j < |ms| && ms[j].key == k
    ensures var us := ms[j := ms[j].(value := v)]; var s' := s[k := v];
      forall x :: x in s' ==> KeyElement(x, s'[x]) in us
  {
    var us, s' := ms[j := ms[j].(value := v)], s[k := v];
    forall x | x in s' ensures KeyElement(x, s'[x]) in us {
      if x == k {
        assert us[j] == KeyElement(k, v);
      } else {
        var i :| 0 <= i < |ms| && ms[i] == KeyElement(x, s[x]);
        assert us[i] == ms[i];
      }
    }
  }

  lemma AppendToBucket(s: Map, k: Key, v: Option<Value>)
    requires k !in s
    ensures Sort(BucketOf(s) + [KeyElement(k, v)]) == BucketOf(s[k := v])
  {
    var ms, e := BucketOf(s), KeyElement(k, v);
    OrderedDistinct(ms);
    assert Lists([e], map[k := v]);
    hide Sort, Less, IsBucket, Lists, Distinct;
    AddKey(s, k, v);
    JoinListings(ms, s, [e], map[k := v]);
    SortBucket(ms + [e], s[k := v]);
  }

  lemma AddKey(s: Map, k: Key, v: Option<Value>)
    requires k !in s
    ensures s + map[k := v] == s[k := v] && s.Keys !! map[k := v].Keys
  {}

  lemma SingletonBucket(k: Key, v: Option<Value>)
    ensures [KeyElement(k, v)] == BucketOf(map[k := v])
  {
    BucketUnique([KeyElement(k, v)], BucketOf(map[k := v]), map[k := v]);
  }

  /** The bucket branches of `put`: overwrite in place, or insert below the limit. */
  lemma PutInBucket(m: Map, d: nat, bat: Bat, k: Key, v: Option<Value>)
    requires Fits(m, d)
    requires var sub := Sub(m, d, Slot(k, d)); 0 < |sub| <= MAX_COLLISIONS && (k in sub || |sub| < MAX_COLLISIONS)
    ensures Fits(m[k := v], d)
    ensures var c := Canon(m, d, bat); var sub := Sub(m, d, Slot(k, d)); var at := GetIndex(c.dataMap, Slot(k, d));
      && at < |c.contents| && c.contents[at] == Mappings(BucketOf(sub))
      && (k in sub ==> Find(BucketOf(sub), k) < |BucketOf(sub)|)
      && (k in sub ==> CopyAndSetValue(c, at, Find(BucketOf(sub), k), v) == Canon(m[k := v], d, bat))
      && (k !in sub ==> InsertIntoPrefix(c, at, k, v) == Canon(m[k := v], d, bat))
  {
    hide NodeOf, IsBucket, Slot, Fits, Sub, SlotAt, Sort, Find, BitGet, GetIndex;
    var sub := Sub(m, d, Slot(k, d));
    View(m, d, bat, k);
    FitsPut(m, d, k, v);
    PutSize(sub, k, v);
    PutNode(m, d, bat, k, v);
    SlotKind(m, d, bat, Slot(k, d));
    SetBucketIsSlotUpdate(Slots(m, d, bat), bat, Slot(k, d), BucketOf(sub[k := v]));
    if k in sub { SetInBucket(sub, k, v); } else { AppendToBucket(sub, k, v); }
  }

  lemma SlotKind(m: Map, d: nat, bat: Bat, i: nat)
    requires Fits(m, d) && i < SLOTS
    ensures var v := Slots(m, d, bat)[i]; var sub := Sub(m, d, i);
      && v.Empty? == (|sub| == 0) && v.Bucket? == (0 < |sub| <= MAX_COLLISIONS) && v.Shard? == (|sub| > MAX_COLLISIONS)
      && (v.Empty? ==> sub == map[]) && (v.Bucket? ==> v == Bucket(BucketOf(sub)))
      && (v.Shard? ==> Fits(sub, d + 1) && v == Shard(CidOf(Canon(sub, d + 1, bat))))
  {
    assert Slots(m, d, bat)[i] == SlotAt(m, d, bat, i);
  }

  /** The empty-slot branch. */
  lemma PutNewPrefix(m: Map, d: nat, bat: Bat, k: Key, v: Option<Value>)
    requires Fits(m, d) && |Sub(m, d, Slot(k, d))| == 0
    ensures Fits(m[k := v], d)
    ensures var c := Canon(m, d, bat);
      GetIndex(c.dataMap, Slot(k, d)) <= |c.contents| && AddNewPrefix(c, Slot(k, d), k, v) == Canon(m[k := v], d, bat)
  {
    hide NodeOf, IsBucket, Slot, Fits, Sub, SlotAt, BitGet, GetIndex;
    var sub := Sub(m, d, Slot(k, d));
    assert sub == map[] && sub[k := v] == map[k := v];
    FitsPut(m, d, k, v);
    PutSize(sub, k, v);
    PutNode(m, d, bat, k, v);
    SlotKind(m, d, bat, Slot(k, d));
    SingletonBucket(k, v);
    AddNewPrefixIsSlotUpdate(Slots(m, d, bat), bat, Slot(k, d), k, v);
  }

  /** The two branches that end in a link: a spilled bucket, or a changed child. */
  lemma PutShard(m: Map, d: nat, bat: Bat, k: Key, v: Option<Value>)
    requires Fits(m, d) && Fits(m[k := v], d) && |Sub(m, d, Slot(k, d))[k := v]| > MAX_COLLISIONS
    ensures var c := Canon(m, d, bat); var sub := Sub(m, d, Slot(k, d)); var i := Slot(k, d);
      && Fits(sub[k := v], d + 1) && |sub| > 0
      && GetIndex(c.nodeMap, i) < |c.contents| && GetIndex(c.dataMap, i) < |c.contents|
      && var link := CidOf(Canon(sub[k := v], d + 1, bat));
        && (|sub| <= MAX_COLLISIONS ==> MigrateFromInlineToNode(c, i, link) == Canon(m[k := v], d, bat))
        && (|sub| > MAX_COLLISIONS ==> OverwriteChildLink(c, i, link) == Canon(m[k := v], d, bat))
  {
    hide NodeOf, IsBucket, Slot, Fits, Sub, SlotAt, BitGet, GetIndex, MigrateFromInlineToNode, OverwriteChildLink, BucketOf;
    var i, sub := Slot(k, d), Sub(m, d, Slot(k, d));
    View(m, d, bat, k);
    PutSize(sub, k, v);
    PutNode(m, d, bat, k, v);
    SlotKind(m, d, bat, i);
    var link := CidOf(Canon(sub[k := v], d + 1, bat));
    if |sub| <= MAX_COLLISIONS {
      MigrateToNodeIsSlotUpdate(Slots(m, d, bat), bat, i, link);
    } else {
      OverwriteIsSlotUpdate(Slots(m, d, bat), bat, i, link);
    }
  }

  /** Writing the changed child keeps the whole tree in the store. */
  lemma PutComplete(store: set<Cid>, more: set<Cid>, m: Map, d: nat, bat: Bat, k: Key, v: Option<Value>)
    requires Fits(m, d) && Fits(m[k := v], d) && store <= more && Complete(store, Canon(m, d, bat))
    requires var s := Sub(m, d, Slot(k, d))[k := v];
      |s| > MAX_COLLISIONS ==> Fits(s, d + 1) && HasTree(more, CidOf(Canon(s, d + 1, bat)))
    ensures Complete(more, Canon(m[k := v], d, bat))
  {
    hide NodeOf, IsBucket, Slot, Fits, Sub, SlotAt, BucketOf, Complete, HasTree;
    var s := Sub(m, d, Slot(k, d))[k := v];
    PutNode(m, d, bat, k, v);
    CompleteUpdate(store, more, Slots(m, d, bat), bat, Slot(k, d),
                   if |s| <= MAX_COLLISIONS then Bucket(BucketOf(s)) else Shard(CidOf(Canon(s, d + 1, bat))));
  }

  // ---- put ----------------------------------------------------------------------

  /** Why `put` of `k` into `m` is refused, if it is. An unbound key is never
      compared with the expected value. */
  ghost function PutError(m: Map, d: nat, k: Key, expected: Option<Value>, v: Option<Value>): Option<ChampError> {
    if k in m && m[k] != expected then Some(CasFailed)
    else if !Fits(m[k := v], d) then Some(HashCollision)
    else None
  }

  /** `Champ::put` on the canonical node of `m`. It succeeds exactly when the
      compare-and-swap and the hash allow it, and then gives the canonical node of
      the changed mapping, stored with everything below it. */
  method Put(storage: BlockStore, c: Champ, key: Key, depth: nat, expected: Option<Value>, value: Option<Value>,
             ourHash: Cid, ghost m: Map)
    returns (r: Result<(Champ, Cid), ChampError>)
    requires Fits(m, depth) && c == Canon(m, depth, c.mirrorBat)
    requires ourHash == CidOf(c) && ourHash in storage.blocks
    modifies storage
    ensures old(storage.blocks) <= storage.blocks
    ensures r.Ok? ==> PutError(m, depth, key, expected, value) == None
    ensures r.Ok? ==> Fits(m[key := value], depth) && r.value.0 == Canon(m[key := value], depth, c.mirrorBat)
    ensures r.Ok? ==> r.value.1 == CidOf(r.value.0) && r.value.1 in storage.blocks
    ensures r.Ok? && Complete(old(storage.blocks), c) ==> Complete(storage.blocks, r.value.0)
    ensures r.Err? && r.error != MissingBlock ==> PutError(m, depth, key, expected, value) == Some(r.error)
    ensures r.Err? && r.error == MissingBlock ==> !Complete(old(storage.blocks), c)
    decreases HASH_CODE_LENGTH - depth, 0
  {
    hide Fits, Canon, Slot, Sub, BucketOf, IsBucket, BitGet, GetIndex, Complete, AddNewPrefix,
      MigrateFromInlineToNode, OverwriteChildLink, CopyAndSetValue, InsertIntoPrefix, Find;
    var bitpos := Slot(key, depth);
    ghost var bat := c.mirrorBat;
    ghost var sub := Sub(m, depth, bitpos);
    View(m, depth, bat, key);
    FitsPut(m, depth, key, value);
    PutSize(sub, key, value);
    var champ: Champ;
    if BitGet(c.dataMap, bitpos) {
      var index := GetIndex(c.dataMap, bitpos);
      var mappings := c.contents[index].mappings;
      FindInBucket(sub, key);
      var payloadIndex := Find(mappings, key);
      if payloadIndex < |mappings| {
        if mappings[payloadIndex].value != expected {
          return Err(CasFailed);
        }
        PutInBucket(m, depth, bat, key, value);
        champ := CopyAndSetValue(c, index, payloadIndex, value);
      } else if |mappings| < MAX_COLLISIONS {
        PutInBucket(m, depth, bat, key, value);
        champ := InsertIntoPrefix(c, index, key, value);
      } else {
        var pushed := PushMappingsDown(storage, mappings, key, value, depth + 1, c.mirrorBat, sub);
        if pushed.Err? {
          return Err(pushed.error);
        }
        PutShard(m, depth, bat, key, value);
        champ := MigrateFromInlineToNode(c, bitpos, pushed.value.1);
      }
    } else if BitGet(c.nodeMap, bitpos) {
      var link := c.contents[LinkIndex(c, bitpos)].cid;
      if Complete(storage.blocks, c) { CompleteChild(storage.blocks, m, depth, bat, key); }
      if link !in storage.blocks {
        return Err(MissingBlock);
      }
      ChildOfCid(sub, depth + 1, bat, link);
      var child := link.block.champ;
      var put := Put(storage, child, key, depth + 1, expected, value, link, sub);
      if put.Err? {
        return Err(put.error);
      }
      PutShard(m, depth, bat, key, value);
      if put.value.1 == link {
        OverwriteSame(c, bitpos);
        if Complete(old(storage.blocks), c) { PutComplete(old(storage.blocks), storage.blocks, m, depth, bat, key, value); }
        return Ok((c, ourHash));
      }
      champ := OverwriteChildLink(c, bitpos, put.value.1);
    } else {
      PutNewPrefix(m, depth, bat, key, value);
      champ := AddNewPrefix(c, bitpos, key, value);
    }
    if Complete(old(storage.blocks), c) { PutComplete(old(storage.blocks), storage.blocks, m, depth, bat, key, value); }
    ghost var before := storage.blocks;
    var h := storage.PutChamp(champ);
    if Complete(before, champ) { CompleteMono(before, storage.blocks, champ); }
    return Ok((champ, h));
  }

  lemma ChildOfCid(m: Map, d: nat, bat: Bat, link: Cid)
    requires Fits(m, d) && link == CidOf(Canon(m, d, bat))
    ensures link.block.ChampBlock? && link.block.champ == Canon(m, d, bat) && link.block.champ.mirrorBat == bat
    ensures link == CidOf(link.block.champ)
  {}

  lemma OverwriteSame(c: Champ, i: nat)
    requires GetIndex(c.nodeMap, i) < |c.contents| && c.contents[LinkIndex(c, i)].Link?
    ensures OverwriteChildLink(c, i, c.contents[LinkIndex(c, i)].cid) == c
  {}

  /** `push_mappings_down_a_level`: a full bucket and one more mapping become the
      canonical node of their five keys one level down. */
  method PushMappingsDown(storage: BlockStore, mappings: seq<KeyElement>, key1: Key, val1: Option<Value>,
                          depth: nat, bat: Bat, ghost s: Map)
    returns (r: Result<(Champ, Cid), ChampError>)
    requires IsBucket(mappings, s) && |s| <= MAX_COLLISIONS && key1 !in s && depth <= HASH_CODE_LENGTH
    modifies storage
    ensures old(storage.blocks) <= storage.blocks
    ensures r.Ok? ==> Fits(s[key1 := val1], depth) && r.value.0 == Canon(s[key1 := val1], depth, bat)
    ensures r.Ok? ==> r.value.1 == CidOf(r.value.0) && HasTree(storage.blocks, r.value.1)
    ensures r.Err? ==> r.error == HashCollision && !Fits(s[key1 := val1], depth)
    decreases HASH_CODE_LENGTH - depth, 1
  {
    hide Canon, IsBucket, Pushed;
    if depth >= HASH_CODE_LENGTH {
      return Err(HashCollision);
    }
    hide Fits;
    var empty := EmptyChamp(bat);
    var emptyHash := storage.PutChamp(empty);
    EmptyIsCanon(depth, bat);
    PushedStart(mappings, s, key1, val1, depth);
    var first := Put(storage, empty, key1, depth, None, val1, emptyHash, map[]);
    var cur, curHash := first.value.0, first.value.1;
    CanonBat(map[key1 := val1], depth, bat);
    for j := 0 to |mappings|
      invariant old(storage.blocks) <= storage.blocks
      invariant Fits(Pushed(mappings, s, j, key1, val1), depth)
      invariant cur == Canon(Pushed(mappings, s, j, key1, val1), depth, bat) && cur.mirrorBat == bat
      invariant curHash == CidOf(cur) && HasTree(storage.blocks, curHash)
    {
      var e := mappings[j];
      ghost var p, p' := Pushed(mappings, s, j, key1, val1), Pushed(mappings, s, j + 1, key1, val1);
      PushedStep(mappings, s, j, key1, val1);
      if Fits(s[key1 := val1], depth) {
        FitsMono(s[key1 := val1], p', depth);
      }
      var next := Put(storage, cur, e.key, depth, None, e.value, curHash, p);
      if next.Err? {
        return Err(next.error);
      }
      CanonBat(p', depth, bat);
      cur, curHash := next.value.0, next.value.1;
    }
    PushedEnd(mappings, s, key1, val1);
    return Ok((cur, curHash));
  }

  lemma CanonBat(m: Map, d: nat, bat: Bat)
    requires Fits(m, d)
    ensures Canon(m, d, bat).mirrorBat == bat
  {}

  /** The mappings pushed down so far, after the new one. */
  ghost function Pushed(ms: seq<KeyElement>, s: Map, n: nat, key1: Key, val1: Option<Value>): Map {
    Found(ms, s, n)[key1 := val1]
  }

  ghost function Found(ms: seq<KeyElement>, s: Map, n: nat): Map {
    map k | k in s && Find(ms, k) < n :: s[k]
  }

  lemma FoundStep(ms: seq<KeyElement>, s: Map, n: nat)
    requires n < |ms| && Find(ms, ms[n].key) == n && ms[n].key in s && s[ms[n].key] == ms[n].value
    ensures Found(ms, s, n + 1) == Found(ms, s, n)[ms[n].key := ms[n].value]
    ensures ms[n].key !in Found(ms, s, n) && Found(ms, s, n + 1).Keys <= s.Keys
  {
    var k := ms[n].key;
    forall x | x in s ensures Find(ms, x) < n + 1 <==> Find(ms, x) < n || x == k {}
  }

  lemma PushedStart(ms: seq<KeyElement>, s: Map, key1: Key, val1: Option<Value>, d: nat)
    requires d < HASH_CODE_LENGTH
    ensures map[][key1 := val1] == map[key1 := val1] == Pushed(ms, s, 0, key1, val1)
    ensures Fits(map[key1 := val1], d)
  {
    SmallFits(map[key1 := val1], d);
  }

  lemma FindAt(ms: seq<KeyElement>, s: Map, i: nat)
    requires i < |ms| && IsBucket(ms, s)
    ensures Find(ms, ms[i].key) == i && ms[i].key in s && s[ms[i].key] == ms[i].value
  {
    OrderedDistinct(ms);
    assert ms[i] in ms;
  }

  lemma PushedStep(ms: seq<KeyElement>, s: Map, n: nat, key1: Key, val1: Option<Value>)
    requires n < |ms| && IsBucket(ms, s) && key1 !in s
    ensures var p := Pushed(ms, s, n, key1, val1); var p' := Pushed(ms, s, n + 1, key1, val1);
      && ms[n].key !in p && p' == p[ms[n].key := ms[n].value] && p'.Keys <= s[key1 := val1].Keys
  {
    FindAt(ms, s, n);
    FoundStep(ms, s, n);
    hide IsBucket, Find, Found;
    SwapUpdates(Found(ms, s, n), ms[n].key, ms[n].value, key1, val1);
  }

  lemma SwapUpdates(a: Map, k: Key, v: Option<Value>, k': Key, v': Option<Value>)
    requires k != k'
    ensures a[k := v][k' := v'] == a[k' := v'][k := v]
  {}

  lemma PushedEnd(ms: seq<KeyElement>, s: Map, key1: Key, val1: Option<Value>)
    requires IsBucket(ms, s) && key1 !in s
    ensures Pushed(ms, s, |ms|, key1, val1) == s[key1 := val1]
  {
    forall k | k in s ensures Find(ms, k) < |ms| {
      FindInListing(ms, s, k);
    }
  }
}
