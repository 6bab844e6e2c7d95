/** The server side of a champ lookup (`champ_lookup_local`), and the client's local
    re-run of it over the returned blocks alone. */
module ChampLookup {
  import opened Bytes
  import opened Bitmap
  import opened Mask
  import opened ChampNode
  import opened CanonicalTree
  import opened ChampStore
  import opened ChampOps

  /** A CID with its codec: dag-cbor and raw CIDs of the same bytes differ. */
  datatype RamKey = RamKey(cid: Cid, raw: bool)

  /** `RamStorage`: blocks by the CID that was computed from their own bytes. */
  class RamStorage {
    var blocks: map<RamKey, Block>

    /** Whoever supplied them, the blocks are what their keys say. */
    ghost predicate Valid()
      reads this
    {
      forall k :: k in blocks ==> blocks[k] == k.cid.block
    }

    /** What a champ read from this store sees: champ links are dag-cbor CIDs. */
    ghost function Stored(): set<Cid>
      reads this
    {
      CborCids(blocks.Keys)
    }

    constructor ()
      ensures Valid() && Stored() == {}
    {
      blocks := map[];
    }

    /** `store` */
    method Store(bs: seq<Block>, isRaw: bool) returns (cids: seq<RamKey>)
      requires Valid()
      modifies this
      ensures Valid() && blocks.Keys == old(blocks).Keys + Keys(bs, isRaw)
      ensures |cids| == |bs| && forall i :: 0 <= i < |bs| ==> cids[i] == RamKey(Cid(bs[i]), isRaw)
    {
      cids := [];
      assert bs[..0] == [];
      for i := 0 to |bs|
        invariant Valid() && blocks.Keys == old(blocks).Keys + Keys(bs[..i], isRaw)
        invariant |cids| == i && forall j :: 0 <= j < i ==> cids[j] == RamKey(Cid(bs[j]), isRaw)
      {
        KeysAppend(bs[..i], bs[i], isRaw);
        assert bs[..i + 1] == bs[..i] + [bs[i]];
        var cid := RamKey(Cid(bs[i]), isRaw);
        blocks := blocks[cid := bs[i]];
        cids := cids + [cid];
      }
      assert bs[..|bs|] == bs;
    }

    /** `load_verified`: each block goes in under both its CIDs, and nothing else does. */
    method LoadVerified(bs: seq<Block>)
      requires Valid()
      modifies this
      ensures Valid() && blocks.Keys == old(blocks).Keys + Keys(bs, false) + Keys(bs, true)
      ensures Stored() == old(Stored()) + Cids(bs)
    {
      assert bs[..0] == [];
      for i := 0 to |bs|
        invariant Valid() && blocks.Keys == old(blocks).Keys + Keys(bs[..i], false) + Keys(bs[..i], true)
      {
        KeysAppend(bs[..i], bs[i], false);
        KeysAppend(bs[..i], bs[i], true);
        KeysAppend([], bs[i], false);
        KeysAppend([], bs[i], true);
        assert bs[..i + 1] == bs[..i] + [bs[i]] && [] + [bs[i]] == [bs[i]];
        var _ := Store([bs[i]], false);
        var _ := Store([bs[i]], true);
      }
      assert bs[..|bs|] == bs;
      BothCids(old(blocks).Keys, bs);
    }

    /** `fetch`: what comes back has the hash it was asked for. */
    method Fetch(key: RamKey) returns (r: Option<Block>)
      requires Valid()
      ensures r == if key in blocks then Some(key.cid.block) else None
    {
      r := if key in blocks then Some(blocks[key]) else None;
    }
  }

  ghost function Keys(bs: seq<Block>, raw: bool): set<RamKey> { set b | b in bs :: RamKey(Cid(b), raw) }

  ghost function CborCids(keys: set<RamKey>): set<Cid> { set k | k in keys && !k.raw :: k.cid }

  lemma BothCids(keys: set<RamKey>, bs: seq<Block>)
    ensures CborCids(keys + Keys(bs, false) + Keys(bs, true)) == CborCids(keys) + Cids(bs)
  {
    var all := keys + Keys(bs, false) + Keys(bs, true);
    forall c ensures c in CborCids(all) <==> c in CborCids(keys) + Cids(bs) {
      if c in Cids(bs) { assert RamKey(c, false) in Keys(bs, false); }
      if c in CborCids(keys) { assert RamKey(c, false) in all; }
      if c in CborCids(all) { assert RamKey(c, false) in keys || RamKey(c, false) in Keys(bs, false); }
    }
  }

  lemma KeysAppend(bs: seq<Block>, b: Block, raw: bool)
    ensures Keys(bs + [b], raw) == Keys(bs, raw) + {RamKey(Cid(b), raw)}
  {}

  ghost function Cids(blocks: seq<Block>): set<Cid> { set b | b in blocks :: Cid(b) }

  lemma CidsAppend(blocks: seq<Block>, b: Block)
    ensures Cids(blocks + [b]) == Cids(blocks) + {Cid(b)}
  {}

  /** The child a lookup of `key` descends to, if its slot holds a link. */
  function NextOnPath(c: Champ, key: Key, depth: nat): (r: Option<Cid>)
    ensures r.Some? ==> Link(r.value) in c.contents
  {
    var bit := Slot(key, depth);
    if BitGet(c.dataMap, bit) || !BitGet(c.nodeMap, bit) then None
    else if ChildLink(c, bit).Ok? then Some(ChildLink(c, bit).value) else None
  }

  /** The stored nodes a lookup of `key` passes through, from `cid` down. */
  ghost function Path(store: set<Cid>, cid: Cid, key: Key, depth: nat): set<Cid>
    decreases cid
  {
    if cid !in store then {}
    else if !cid.block.ChampBlock? then {cid}
    else
      var next := NextOnPath(cid.block.champ, key, depth);
      {cid} + if next.Some? then Path(store, next.value, key, depth + 1) else {}
  }

  /** A lookup needs no more than its path: over any part of the store that includes
      it, the answer is that of the full store, whatever the champ. */
  lemma {:induction false} PathSuffices(store: set<Cid>, part: set<Cid>, c: Champ, key: Key, depth: nat)
    requires part <= store
    requires var next := NextOnPath(c, key, depth); next.Some? ==> Path(store, next.value, key, depth + 1) <= part
    ensures Get(part, c, key, depth) == Get(store, c, key, depth)
    decreases c
  {
    hide BitGet, Slot, GetIndex, Find;
    var next := NextOnPath(c, key, depth);
    if next.Some? && next.value in store && next.value.block.ChampBlock? {
      assert next.value in Path(store, next.value, key, depth + 1);
      PathSuffices(store, part, next.value.block.champ, key, depth + 1);
    }
  }

  /** What has been recorded: the blocks, each once, and their CIDs. */
  ghost predicate Recorded(recorded: seq<Block>, seen: set<Cid>, store: set<Cid>) {
    Cids(recorded) == seen && seen <= store && forall i, j :: 0 <= i < j < |recorded| ==> recorded[i] != recorded[j]
  }

  method Record(cid: Cid, recorded: seq<Block>, seen: set<Cid>, ghost store: set<Cid>)
    returns (recorded': seq<Block>, seen': set<Cid>)
    requires Recorded(recorded, seen, store) && cid in store
    ensures Recorded(recorded', seen', store) && seen' == seen + {cid}
  {
    if cid in seen {
      recorded', seen' := recorded, seen;
    } else {
      assert forall b :: b in recorded ==> Cid(b) in seen;
      recorded', seen' := recorded + [cid.block], seen + {cid};
      CidsAppend(recorded, cid.block);
    }
  }

  ghost predicate AllChamps(cids: set<Cid>) { forall c :: c in cids ==> c.block.ChampBlock? }

  /** The block the lookup of `key` below `cid` ends at a link to, if that is stored. */
  ghost function ValueBlock(store: set<Cid>, cid: Cid, key: Key, depth: nat): set<Cid>
    decreases cid
  {
    if cid !in store || !cid.block.ChampBlock? then {}
    else
      var c := cid.block.champ;
      var next := NextOnPath(c, key, depth);
      if next.Some? then ValueBlock(store, next.value, key, depth + 1)
      else
        var r := Get(store, c, key, depth);
        if r.Ok? && r.value.Some? && r.value.value.LinkTo? && r.value.value.cid in store then {r.value.value.cid} else {}
  }

  ghost function Needed(store: set<Cid>, cid: Cid, key: Key, depth: nat): set<Cid> {
    Path(store, cid, key, depth) + ValueBlock(store, cid, key, depth)
  }

  /** `champ_walk_one`: records the path of one key and the block its value links to, and
      nothing else. It fails exactly on a path block that is not a champ. */
  method WalkOne(store: BlockStore, root: Cid, key: Key, recorded0: seq<Block>, seen0: set<Cid>)
    returns (ok: bool, recorded: seq<Block>, seen: set<Cid>)
    requires Recorded(recorded0, seen0, store.blocks)
    ensures Recorded(recorded, seen, store.blocks)
    ensures ok <==> AllChamps(Path(store.blocks, root, key, 0))
    ensures seen == seen0 + Needed(store.blocks, root, key, 0)
  {
    hide BitGet, Slot, GetIndex;
    recorded, seen := recorded0, seen0;
    var current, depth := root, 0;
    while true
      invariant Recorded(recorded, seen, store.blocks)
      invariant seen + Needed(store.blocks, current, key, depth) == seen0 + Needed(store.blocks, root, key, 0)
      invariant AllChamps(Path(store.blocks, current, key, depth)) <==> AllChamps(Path(store.blocks, root, key, 0))
      decreases current
    {
      if current !in store.blocks {
        return true, recorded, seen;
      }
      recorded, seen := Record(current, recorded, seen, store.blocks);
      if !current.block.ChampBlock? {
        return false, recorded, seen;
      }
      var champ := current.block.champ;
      var bit := Slot(key, depth);
      if BitGet(champ.dataMap, bit) {
        var di := GetIndex(champ.dataMap, bit);
        if di < |champ.contents| && champ.contents[di].Mappings? {
          var ms := champ.contents[di].mappings;
          var j := Find(ms, key);
          if j < |ms| && ms[j].value.Some? && ms[j].value.value.LinkTo? {
            var vcid := ms[j].value.value.cid;
            if vcid in store.blocks {
              recorded, seen := Record(vcid, recorded, seen, store.blocks);
            }
          }
        }
        return true, recorded, seen;
      } else if BitGet(champ.nodeMap, bit) {
        var next := ChildLink(champ, bit);
        if next.Err? {
          return true, recorded, seen;
        }
        current, depth := next.value, depth + 1;
      } else {
        return true, recorded, seen;
      }
    }
  }

  /** Over `part` alone, a lookup of `key` finds the root, gives the full store's answer,
      and has the block its value links to. */
  ghost predicate Answers(store: set<Cid>, part: set<Cid>, root: Cid, key: Key) {
    && root in part && root.block.ChampBlock?
    && Get(part, root.block.champ, key, 0) == Get(store, root.block.champ, key, 0)
    && ValueBlock(store, root, key, 0) <= part
  }

  /** Exactly the blocks that lookups of the keys go through or end at a link to. */
  ghost predicate RecordedFor(store: set<Cid>, part: set<Cid>, root: Cid, keys: seq<Key>) {
    && (forall i :: 0 <= i < |keys| ==> Needed(store, root, keys[i], 0) <= part)
    && (forall c :: c in part ==> exists i :: 0 <= i < |keys| && c in Needed(store, root, keys[i], 0))
  }

  /** `champ_lookup_local`: the blocks for a list of keys, each once. Looking any of them up
      over those blocks alone gives the full store's answer, and the block each value links
      to is among them. It fails exactly if a block on one of the paths is not a champ. */
  method Lookups(store: BlockStore, root: Cid, keys: seq<Key>) returns (ok: bool, recorded: seq<Block>)
    ensures ok <==> forall i :: 0 <= i < |keys| ==> AllChamps(Path(store.blocks, root, keys[i], 0))
    ensures Recorded(recorded, Cids(recorded), store.blocks) && (ok ==> RecordedFor(store.blocks, Cids(recorded), root, keys))
    ensures ok && root in store.blocks ==>
      forall i :: 0 <= i < |keys| ==> Answers(store.blocks, Cids(recorded), root, keys[i])
  {
    hide Get, Path, ValueBlock, NextOnPath, AllChamps, Needed, Answers;
    var seen := {};
    recorded, ok := [], true;
    for i := 0 to |keys|
      invariant Recorded(recorded, seen, store.blocks) && RecordedFor(store.blocks, seen, root, keys[..i])
      invariant forall j :: 0 <= j < i ==> AllChamps(Path(store.blocks, root, keys[j], 0))
    {
      ghost var before := seen;
      ok, recorded, seen := WalkOne(store, root, keys[i], recorded, seen);
      if !ok {
        return;
      }
      OneMoreKey(store.blocks, before, root, keys[..i], keys[i]);
      assert keys[..i + 1] == keys[..i] + [keys[i]];
    }
    assert keys[..|keys|] == keys;
    ok := true;
    assert Cids(recorded) == seen;
    if root in store.blocks {
      forall i | 0 <= i < |keys| ensures Answers(store.blocks, Cids(recorded), root, keys[i]) {
        NeededAnswers(store.blocks, Cids(recorded), root, keys[i]);
      }
    }
  }

  lemma NeededAnswers(store: set<Cid>, part: set<Cid>, root: Cid, key: Key)
    requires root in store && Needed(store, root, key, 0) <= part <= store && AllChamps(Path(store, root, key, 0))
    ensures Answers(store, part, root, key)
  {
    hide Get, Path, ValueBlock, NextOnPath, AllChamps;
    RootPath(store, root, key);
    PathSuffices(store, part, root.block.champ, key, 0);
  }

  lemma OneMoreKey(store: set<Cid>, part: set<Cid>, root: Cid, keys: seq<Key>, key: Key)
    requires RecordedFor(store, part, root, keys)
    ensures RecordedFor(store, part + Needed(store, root, key, 0), root, keys + [key])
  {
    hide Needed;
    var all := keys + [key];
    assert all[|keys|] == key;
    forall c | c in part ensures exists i :: 0 <= i < |all| && c in Needed(store, root, all[i], 0) {
      var i :| 0 <= i < |keys| && c in Needed(store, root, keys[i], 0);
      assert all[i] == keys[i];
    }
  }

  lemma RootPath(store: set<Cid>, root: Cid, key: Key)
    requires root in store && AllChamps(Path(store, root, key, 0))
    ensures root in Path(store, root, key, 0) && root.block.ChampBlock?
    ensures var next := NextOnPath(root.block.champ, key, 0);
      next.Some? ==> Path(store, next.value, key, 1) <= Path(store, root, key, 0)
  {}
}
