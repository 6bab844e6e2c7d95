/** `Champ::remove`, with collapsing, inlining and escalating of shards. */
module ChampRemove {
  import opened Bytes
  import opened Bitmap
  import opened Mask
  import opened ChampNode
  import opened CanonicalTree
  import opened ChampStore
  import opened ChampOps

  // ---- one lemma for each branch ------------------------------------------------

  lemma RemoveNode(m: Map, d: nat, bat: Bat, k: Key)
    requires Fits(m, d)
    ensures Fits(m - {k}, d)
    ensures var s := Sub(m, d, Slot(k, d)) - {k};
      && (|s| > MAX_COLLISIONS ==> Fits(s, d + 1))
      && Canon(m - {k}, d, bat) == NodeOf(Slots(m, d, bat)[Slot(k, d) :=
          if |s| == 0 then Empty
          else if |s| <= MAX_COLLISIONS then Bucket(BucketOf(s)) else Shard(CidOf(Canon(s, d + 1, bat)))], bat)
  {
    hide NodeOf, IsBucket, Slot;
    FitsMono(m, m - {k}, d);
    RemoveSlots(m, d, bat, k);
    SubRemove(m, d, k);
  }

  lemma RemoveSize(s: Map, k: Key)
    ensures |s - {k}| == if k in s then |s| - 1 else |s|
  {
    if k in s { assert s.Keys == (s - {k}).Keys + {k}; } else { assert s - {k} == s; }
  }

  lemma RemoveFromBucket(s: Map, k: Key)
    requires k in s
    ensures var ms := BucketOf(s); var j := Find(ms, k);
      j < |ms| && RemoveAt(ms, j) == BucketOf(s - {k})
  {
    var ms := BucketOf(s);
    FindInBucket(s, k);
    RemoveKeepsBucket(ms, s, k, Find(ms, k));
    hide IsBucket, Find;
    BucketUnique(RemoveAt(ms, Find(ms, k)), BucketOf(s - {k}), s - {k});
  }

  lemma RemoveKeepsBucket(ms: seq<KeyElement>, s: Map, k: Key, j: nat)
    requires IsBucket(ms, s) && k in s && j < |ms| && ms[j].key == k
    ensures IsBucket(RemoveAt(ms, j), s - {k})
  {
    OrderedDistinct(ms);
    RemoveKeepsListing(ms, s, k, j);
    RemoveKeepsOrder(ms, j);
  }

  lemma RemoveKeepsOrder(ms: seq<KeyElement>, j: nat)
    requires Ordered(ms) && j < |ms|
    ensures Ordered(RemoveAt(ms, j))
  {
    hide Less;
    var us := RemoveAt(ms, j);
    forall a, b | 0 <= a < b < |us| ensures Less(us[a].key, us[b].key) {
      assert us[a] == ms[if a < j then a else a + 1];
      assert us[b] == ms[if b < j then b else b + 1];
    }
  }

  lemma RemoveKeepsListing(ms: seq<KeyElement>, s: Map, k: Key, j: nat)
    requires Distinct(ms) && Lists(ms, s) && j < |ms| && ms[j].key == k
    ensures Lists(RemoveAt(ms, j), s - {k})
  {
    RemoveListsOnly(ms, s, k, j);
    var us, r := RemoveAt(ms, j), s - {k};
    forall x | x in r ensures KeyElement(x, r[x]) in us {
      var i :| 0 <= i < |ms| && ms[i] == KeyElement(x, s[x]);
      assert us[if i < j then i else i - 1] == ms[i];
    }
  }

  lemma RemoveListsOnly(ms: seq<KeyElement>, s: Map, k: Key, j: nat)
    requires Distinct(ms) && j < |ms| && ms[j].key == k && forall e :: e in ms ==> e.key in s && s[e.key] == e.value
    ensures forall e :: e in RemoveAt(ms, j) ==> e.key in s - {k} && s[e.key] == e.value
  {
    var us := RemoveAt(ms, j);
    forall e | e in us ensures e.key in s - {k} && s[e.key] == e.value {
      var i :| 0 <= i < |us| && us[i] == e;
      var i' := if i < j then i else i + 1;
      assert e == ms[i'] && ms[i'].key != ms[j].key;
    }
  }

  /** Dropping a mapping from its bucket, and the bucket with its last mapping. */
  lemma RemoveInBucket(m: Map, d: nat, bat: Bat, k: Key)
    requires Fits(m, d) && k in m && 0 < |Sub(m, d, Slot(k, d))| <= MAX_COLLISIONS
    ensures Fits(m - {k}, d)
    ensures var c := Canon(m, d, bat); var sub := Sub(m, d, Slot(k, d)); var at := GetIndex(c.dataMap, Slot(k, d));
      && at < |c.contents| && c.contents[at] == Mappings(BucketOf(sub)) && Find(BucketOf(sub), k) < |BucketOf(sub)|
      && RemoveMapping(c, Slot(k, d), Find(BucketOf(sub), k)) == Canon(m - {k}, d, bat)
  {
    hide NodeOf, IsBucket, Slot, Fits, Sub, SlotAt, Find, BitGet, GetIndex, RemoveAt, Canon;
    var i, sub := Slot(k, d), Sub(m, d, Slot(k, d));
    View(m, d, bat, k);
    RemoveSize(sub, k);
    RemoveNode(m, d, bat, k);
    SlotKind(m, d, bat, i);
    CanonNode(m, d, bat);
    RemoveFromBucket(sub, k);
    if |sub| == 1 {
      DropBucketIsSlotUpdate(Slots(m, d, bat), bat, i);
    } else {
      SetBucketIsSlotUpdate(Slots(m, d, bat), bat, i, BucketOf(sub - {k}));
    }
  }

  lemma CanonNode(m: Map, d: nat, bat: Bat)
    requires Fits(m, d)
    ensures Canon(m, d, bat) == NodeOf(Slots(m, d, bat), bat)
  {}

  lemma {:induction false} BucketCounts(s: seq<SlotView>, i: nat, n: nat)
    requires i < n <= |s| && s[i].Bucket?
    ensures KeysBelow(s, n) >= |s[i].mappings|
  {
    if i < n - 1 { BucketCounts(s, i, n - 1); }
  }

  /** The collapse test, in terms of the keys the node covers. */
  lemma CollapseTest(m: Map, d: nat, bat: Bat, k: Key)
    requires Fits(m, d) && 0 < |Sub(m, d, Slot(k, d))| <= MAX_COLLISIONS
    ensures var ps := Canon(m, d, bat).contents;
      KeyCount(ps) == MAX_COLLISIONS + 1 && NodeCount(ps) == 0 && d > 0 <==> |m| == MAX_COLLISIONS + 1 && d > 0
  {
    hide Fits, Sub, SlotAt, Slots, KeyCount, NodeCount, NodeOf, KeysBelow;
    InlineCounts(m, d, bat);
    SlotKind(m, d, bat, Slot(k, d));
    BucketCounts(Slots(m, d, bat), Slot(k, d), SLOTS);
    NodeCounts(Slots(m, d, bat), bat);
    CanonNode(m, d, bat);
  }

  /** What a successful removal of a bound key hands to its caller. */
  ghost function Removed(m: Map, d: nat, k: Key, bat: Bat): Champ
    requires Fits(m, d)
  {
    FitsMono(m, m - {k}, d);
    if d > 0 && |m| == MAX_COLLISIONS + 1 then Collapsed(m - {k}, k, bat) else Canon(m - {k}, d, bat)
  }

  /** A shard that lost a key is never empty, never unchanged, and holds just four
      keys inline exactly when it collapsed. */
  lemma RemovedShape(m: Map, d: nat, k: Key, bat: Bat)
    requires Fits(m, d) && d > 0 && |m| > MAX_COLLISIONS && k in m
    ensures var c := Removed(m, d, k, bat);
      && c.contents != [] && c != Canon(m, d, bat) && c.mirrorBat == bat
      && (NodeCount(c.contents) == 0 && KeyCount(c.contents) == MAX_COLLISIONS <==> |m| == MAX_COLLISIONS + 1)
      && (|m| == MAX_COLLISIONS + 1 ==> FirstBucket(c) == BucketOf(m - {k}))
  {
    hide IsBucket, Canon, Fits, BitSet;
    RemoveSize(m, k);
    FitsMono(m, m - {k}, d);
    InlineCounts(m, d, bat);
    InlineCounts(m - {k}, d, bat);
    CanonBat(m - {k}, d, bat);
    var c := Removed(m, d, k, bat);
    if |m| == MAX_COLLISIONS + 1 {
      OneCount(Bucket(BucketOf(m - {k})));
    } else if c == Canon(m, d, bat) {
      CanonInjective(m, m - {k}, d, bat);
    }
  }

  /** A changed child that stays a shard. */
  lemma RemoveInShard(m: Map, d: nat, bat: Bat, k: Key)
    requires Fits(m, d) && k in m && |Sub(m, d, Slot(k, d))| > MAX_COLLISIONS + 1
    ensures Fits(m - {k}, d)
    ensures var c := Canon(m, d, bat); var sub := Sub(m, d, Slot(k, d)); var i := Slot(k, d);
      && |m| > MAX_COLLISIONS + 1 && Fits(sub, d + 1) && Fits(sub - {k}, d + 1) && |sub - {k}| > MAX_COLLISIONS
      && GetIndex(c.nodeMap, i) < |c.contents|
      && OverwriteChildLink(c, i, CidOf(Canon(sub - {k}, d + 1, bat))) == Canon(m - {k}, d, bat)
  {
    hide NodeOf, IsBucket, Slot, Fits, Sub, SlotAt, BitGet, GetIndex, BucketOf, Canon, OverwriteChildLink;
    var i, sub := Slot(k, d), Sub(m, d, Slot(k, d));
    View(m, d, bat, k);
    RemoveSize(sub, k);
    RemoveNode(m, d, bat, k);
    SlotKind(m, d, bat, i);
    CanonNode(m, d, bat);
    SubIsSmaller(m, d, i);
    OverwriteIsSlotUpdate(Slots(m, d, bat), bat, i, CidOf(Canon(sub - {k}, d + 1, bat)));
  }

  /** A collapsed child is inlined, unless it was the node's only content. */
  lemma RemoveInlines(m: Map, d: nat, bat: Bat, k: Key)
    requires Fits(m, d) && k in m && |Sub(m, d, Slot(k, d))| == MAX_COLLISIONS + 1 && Sub(m, d, Slot(k, d)) != m
    ensures Fits(m - {k}, d)
    ensures var c := Canon(m, d, bat); var sub := Sub(m, d, Slot(k, d)); var i := Slot(k, d);
      && |m| > MAX_COLLISIONS + 1 && |sub - {k}| == MAX_COLLISIONS
      && GetIndex(c.nodeMap, i) < |c.contents| && GetIndex(c.dataMap, i) < |c.contents|
      && MigrateFromNodeToInline(c, i, Collapsed(sub - {k}, k, bat)) == Canon(m - {k}, d, bat)
  {
    hide NodeOf, IsBucket, Slot, Fits, Sub, SlotAt, BitGet, GetIndex, BucketOf, Canon, MigrateFromNodeToInline, BitSet;
    var i, sub := Slot(k, d), Sub(m, d, Slot(k, d));
    View(m, d, bat, k);
    RemoveSize(sub, k);
    RemoveNode(m, d, bat, k);
    SlotKind(m, d, bat, i);
    CanonNode(m, d, bat);
    SubIsSmaller(m, d, i);
    MigrateToInlineIsSlotUpdate(Slots(m, d, bat), bat, i, Collapsed(sub - {k}, k, bat));
  }

  /** An escalated child is what removal should return, at the root included. */
  lemma RemoveEscalates(m: Map, d: nat, bat: Bat, k: Key)
    requires Fits(m, d) && k in m && |m| == MAX_COLLISIONS + 1 && Sub(m, d, Slot(k, d)) == m
    ensures Removed(m, d, k, bat) == Collapsed(m - {k}, k, bat)
  {
    hide IsBucket, Slot, Canon, Fits, Collapsed;
    if d == 0 {
      FitsMono(m, m - {k}, d);
      RemoveSize(m, k);
      SameSlot(m, d, k);
      CollapsedAtRoot(m - {k}, k, bat);
    }
  }

  lemma SameSlot(m: Map, d: nat, k: Key)
    requires Sub(m, d, Slot(k, d)) == m
    ensures forall x :: x in m ==> Slot(x, d) == Slot(k, d)
  {
    hide Slot;
    forall x | x in m ensures Slot(x, d) == Slot(k, d) { assert x in Sub(m, d, Slot(k, d)); }
  }

  lemma RemoveComplete(store: set<Cid>, more: set<Cid>, m: Map, d: nat, bat: Bat, k: Key)
    requires Fits(m, d) && store <= more && Complete(store, Canon(m, d, bat))
    requires var s := Sub(m, d, Slot(k, d)) - {k};
      |s| > MAX_COLLISIONS ==> Fits(s, d + 1) && HasTree(more, CidOf(Canon(s, d + 1, bat)))
    ensures Fits(m - {k}, d) && Complete(more, Canon(m - {k}, d, bat))
  {
    hide NodeOf, IsBucket, Slot, Fits, Sub, SlotAt, BucketOf, Complete, HasTree;
    var s := Sub(m, d, Slot(k, d)) - {k};
    RemoveNode(m, d, bat, k);
    CompleteUpdate(store, more, Slots(m, d, bat), bat, Slot(k, d),
                   if |s| == 0 then Empty
                   else if |s| <= MAX_COLLISIONS then Bucket(BucketOf(s)) else Shard(CidOf(Canon(s, d + 1, bat))));
  }

  lemma CollapsedComplete(store: set<Cid>, m: Map, k: Key, bat: Bat)
    ensures Complete(store, Collapsed(m, k, bat))
  {}

  // ---- remove ---------------------------------------------------------------------

  /** An unbound key whose path ends in a bucket. Removing it is an error; on any
      other unbound key removal does nothing. */
  ghost predicate LandsInBucket(m: Map, d: nat, k: Key)
    requires Fits(m, d)
    decreases HASH_CODE_LENGTH - d
  {
    var sub := Sub(m, d, Slot(k, d));
    if |sub| <= MAX_COLLISIONS then |sub| > 0 else LandsInBucket(sub, d + 1, k)
  }

  ghost function RemoveError(m: Map, d: nat, k: Key, expected: Option<Value>): Option<ChampError>
    requires Fits(m, d)
  {
    if k in m then if m[k] != expected then Some(CasFailed) else None
    else if LandsInBucket(m, d, k) then Some(KeyNotPresent) else None
  }

  lemma RemoveErrorInShard(m: Map, d: nat, k: Key, expected: Option<Value>)
    requires Fits(m, d) && |Sub(m, d, Slot(k, d))| > MAX_COLLISIONS
    ensures var sub := Sub(m, d, Slot(k, d)); Fits(sub, d + 1) && RemoveError(sub, d + 1, k, expected) == RemoveError(m, d, k, expected)
  {}

  /** `Champ::remove` on the canonical node of `m`. */
  method Remove(storage: BlockStore, c: Champ, key: Key, depth: nat, expected: Option<Value>, ourHash: Cid, ghost m: Map)
    returns (r: Result<(Champ, Cid), ChampError>)
    requires Fits(m, depth) && c == Canon(m, depth, c.mirrorBat) && (depth == 0 || |m| > MAX_COLLISIONS)
    requires ourHash == CidOf(c) && ourHash in storage.blocks
    modifies storage
    ensures old(storage.blocks) <= storage.blocks
    ensures r.Ok? ==> RemoveError(m, depth, key, expected) == None
    ensures r.Ok? ==> r.value.0 == if key in m then Removed(m, depth, key, c.mirrorBat) else c
    ensures r.Ok? ==> r.value.1 == CidOf(r.value.0) && r.value.1 in storage.blocks
    ensures r.Ok? && Complete(old(storage.blocks), c) ==> Complete(storage.blocks, r.value.0)
    ensures r.Err? && r.error != MissingBlock ==> RemoveError(m, depth, key, expected) == Some(r.error)
    ensures r.Err? && r.error == MissingBlock ==> !Complete(old(storage.blocks), c)
    decreases HASH_CODE_LENGTH - depth
  {
    hide Fits, Canon, Slot, Sub, BucketOf, IsBucket, BitGet, GetIndex, Complete, MigrateFromNodeToInline,
      OverwriteChildLink, RemoveMapping, Find, KeyCount, NodeCount, Collapse, Collapsed, FirstBucket, HasTree;
    var bitpos := Slot(key, depth);
    ghost var bat := c.mirrorBat;
    ghost var sub := Sub(m, depth, bitpos);
    View(m, depth, bat, key);
    var champ: Champ;
    if BitGet(c.dataMap, bitpos) {
      var mappings := c.contents[GetIndex(c.dataMap, bitpos)].mappings;
      FindInBucket(sub, key);
      var payloadIndex := Find(mappings, key);
      if payloadIndex == |mappings| {
        return Err(KeyNotPresent);
      }
      if mappings[payloadIndex].value != expected {
        return Err(CasFailed);
      }
      CollapseTest(m, depth, bat, key);
      RemoveInBucket(m, depth, bat, key);
      RemoveSize(sub, key);
      if KeyCount(c.contents) == MAX_COLLISIONS + 1 && NodeCount(c.contents) == 0 && depth > 0 {
        CollapseBucket(m, depth, bat, key);
        CollapsedComplete(storage.blocks, m - {key}, key, bat);
        champ := Collapse(c, key);
      } else {
        if Complete(storage.blocks, c) { RemoveComplete(storage.blocks, storage.blocks, m, depth, bat, key); }
        champ := RemoveMapping(c, bitpos, payloadIndex);
      }
    } else if BitGet(c.nodeMap, bitpos) {
      var link := c.contents[LinkIndex(c, bitpos)].cid;
      if Complete(storage.blocks, c) { CompleteChild(storage.blocks, m, depth, bat, key); TreeOf(storage.blocks, link); }
      if link !in storage.blocks {
        return Err(MissingBlock);
      }
      ChildOfCid(sub, depth + 1, bat, link);
      RemoveErrorInShard(m, depth, key, expected);
      var removed := Remove(storage, link.block.champ, key, depth + 1, expected, link, sub);
      if removed.Err? {
        return Err(removed.error);
      }
      var newChild, newHash := removed.value.0, removed.value.1;
      if key in m { RemovedShape(sub, depth + 1, key, bat); }
      if newHash == link {
        if Complete(old(storage.blocks), c) { CompleteMono(old(storage.blocks), storage.blocks, c); }
        return Ok((c, ourHash));
      }
      assert newChild.contents != [];
      if NodeCount(newChild.contents) == 0 && KeyCount(newChild.contents) == MAX_COLLISIONS {
        Singleton(m, depth, bat, key);
        CollapsedComplete(storage.blocks, sub - {key}, key, bat);
        if KeyCount(c.contents) == 0 && NodeCount(c.contents) == 1 {
          RemoveEscalates(m, depth, bat, key);
          return Ok((newChild, newHash));
        }
        RemoveInlines(m, depth, bat, key);
        champ := MigrateFromNodeToInline(c, bitpos, newChild);
      } else {
        RemoveInShard(m, depth, bat, key);
        champ := OverwriteChildLink(c, bitpos, newHash);
        TreeOf(storage.blocks, newHash);
      }
      if Complete(old(storage.blocks), c) { RemoveComplete(old(storage.blocks), storage.blocks, m, depth, bat, key); }
    } else {
      return Ok((c, ourHash));
    }
    ghost var before := storage.blocks;
    var h := storage.PutChamp(champ);
    if Complete(before, champ) { CompleteMono(before, storage.blocks, champ); }
    return Ok((champ, h));
  }

  lemma TreeOf(store: set<Cid>, cid: Cid)
    ensures HasTree(store, cid) <==> cid in store && cid.block.ChampBlock? && Complete(store, cid.block.champ)
  {}

  lemma Singleton(m: Map, d: nat, bat: Bat, k: Key)
    requires Fits(m, d) && |Sub(m, d, Slot(k, d))| > MAX_COLLISIONS
    ensures var ps := Canon(m, d, bat).contents; KeyCount(ps) == 0 && NodeCount(ps) == 1 <==> Sub(m, d, Slot(k, d)) == m
  {
    SlotKind(m, d, bat, Slot(k, d));
    SingletonNode(m, d, bat, Slot(k, d));
  }
}
