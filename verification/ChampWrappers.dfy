/** A handle on a champ root, and what every run of operations on it keeps. */
module ChampWrappers {
  import opened Bytes
  import opened Bitmap
  import opened Mask
  import opened ChampNode
  import opened CanonicalTree
  import opened ChampStore
  import opened ChampOps
  import opened ChampRemove

  // ---- size -----------------------------------------------------------------------

  /** The number of mappings under a run of payloads, following every link. */
  ghost function Total(ps: seq<Payload>): nat
    decreases ps
  {
    if ps == [] then 0 else Total(ps[..|ps| - 1]) + PayloadSize(ps[|ps| - 1])
  }

  ghost function PayloadSize(p: Payload): nat
    decreases p
  {
    match p
    case Mappings(ms) => |ms|
    case Link(cid) => if cid.block.ChampBlock? then Total(cid.block.champ.contents) else 0
  }

  lemma {:induction false} TotalAppend(a: seq<Payload>, b: seq<Payload>)
    ensures Total(a + b) == Total(a) + Total(b)
  {
    if b == [] {
      assert a + b == a;
    } else {
      assert (a + b)[..|a + b| - 1] == a + b[..|b| - 1];
      TotalAppend(a, b[..|b| - 1]);
    }
  }

  /** Counting through the links of a canonical tree counts the keys of its map. */
  lemma {:induction false} TotalIsSize(m: Map, d: nat, bat: Bat)
    requires Fits(m, d)
    ensures Total(Canon(m, d, bat).contents) == |m|
    decreases HASH_CODE_LENGTH - d, 1, 0
  {
    hide Slots, SlotAt, Sub, Pack;
    var s := Slots(m, d, bat);
    CanonNode(m, d, bat);
    TotalBelow(m, d, bat, SLOTS);
    TotalAppend(Datas(s, 0, SLOTS), Links(s, 0, SLOTS));
    SlotsPartition(m, d);
  }

  lemma {:induction false} TotalBelow(m: Map, d: nat, bat: Bat, n: nat)
    requires Fits(m, d) && n <= SLOTS
    ensures var s := Slots(m, d, bat); Total(Datas(s, 0, n)) + Total(Links(s, 0, n)) == SumBelow(m, d, n)
    decreases HASH_CODE_LENGTH - d, 0, n
  {
    hide Fits, Slots, Sub, Canon, BucketOf, IsBucket, SlotAt, DataOf, LinkOf, Total, SumBelow;
    var s := Slots(m, d, bat);
    if n == 0 {
      NothingBelow(m, d, s);
    } else {
      var v, sub := s[n - 1], Sub(m, d, n - 1);
      FitsDepth(m, d);
      TotalBelow(m, d, bat, n - 1);
      TotalAppend(Datas(s, 0, n - 1), DataOf(v));
      TotalAppend(LinkOf(v), Links(s, 0, n - 1));
      SumStep(m, d, n);
      SlotKind(m, d, bat, n - 1);
      OneTotal(v);
      if v.Shard? {
        FitsDepth(sub, d + 1);
        TotalIsSize(sub, d + 1, bat);
      }
    }
  }

  lemma NothingBelow(m: Map, d: nat, s: seq<SlotView>)
    ensures Total(Datas(s, 0, 0)) == Total(Links(s, 0, 0)) == SumBelow(m, d, 0) == 0
  {}

  lemma OneTotal(v: SlotView)
    ensures Total(DataOf(v)) == if v.Bucket? then |v.mappings| else 0
    ensures Total(LinkOf(v)) == if v.Shard? && v.cid.block.ChampBlock? then Total(v.cid.block.champ.contents) else 0
  {
    if v.Bucket? { assert DataOf(v)[..0] == []; }
    if v.Shard? { assert LinkOf(v)[..0] == []; }
  }

  /** `Champ::size` */
  method Size(storage: BlockStore, c: Champ) returns (r: Result<nat, ChampError>)
    ensures r.Ok? ==> r.value == Total(c.contents)
    ensures r.Err? ==> !Complete(storage.blocks, c)
    decreases c
  {
    var count := KeyCount(c.contents);
    ghost var links := 0;
    assert c.contents[..0] == [];
    for i := 0 to |c.contents|
      invariant count == KeyCount(c.contents) + links
      invariant KeyCount(c.contents[..i]) + links == Total(c.contents[..i])
    {
      var p := c.contents[i];
      assert c.contents[..i + 1][..i] == c.contents[..i] && c.contents[..i + 1] == c.contents[..i] + [p];
      CountAppend(c.contents[..i], [p]);
      if p.Link? {
        if p.cid !in storage.blocks {
          return Err(MissingBlock);
        }
        if !p.cid.block.ChampBlock? {
          return Err(BadBlock);
        }
        var n := Size(storage, p.cid.block.champ);
        if n.Err? {
          return Err(n.error);
        }
        count := count + n.value;
        links := links + n.value;
      }
    }
    assert c.contents[..|c.contents|] == c.contents;
    return Ok(count);
  }

  // ---- runs of operations ---------------------------------------------------------

  datatype Op =
    | PutOp(key: Key, expected: Option<Value>, value: Option<Value>)
    | RemoveOp(key: Key, expected: Option<Value>)

  /** What one operation does to the mapping; a refused one does nothing. */
  ghost function Apply(m: Map, op: Op): Map
    requires Fits(m, 0)
  {
    match op
    case PutOp(k, e, v) => if PutError(m, 0, k, e, v) == None then m[k := v] else m
    case RemoveOp(k, e) => if RemoveError(m, 0, k, e) == None then m - {k} else m
  }

  lemma ApplyFits(m: Map, op: Op)
    requires Fits(m, 0)
    ensures Fits(Apply(m, op), 0)
  {
    hide Fits, LandsInBucket;
    if op.RemoveOp? { FitsMono(m, m - {op.key}, 0); }
  }

  /** The mapping after a run. */
  ghost function Run(m: Map, ops: seq<Op>): (r: Map)
    requires Fits(m, 0)
    ensures Fits(r, 0)
  {
    if ops == [] then m
    else
      var before := Run(m, ops[..|ops| - 1]);
      ApplyFits(before, ops[|ops| - 1]);
      Apply(before, ops[|ops| - 1])
  }

  /** `ChampWrapper`: the root and its hash, moved by every successful write. */
  class ChampWrapper {
    var storage: BlockStore
    var root: Champ
    var rootHash: Cid
    ghost var content: Map

    /** The root is the canonical tree of `content`, present in the store. */
    ghost predicate Valid()
      reads this, storage
    {
      && Fits(content, 0)
      && root == Canon(content, 0, root.mirrorBat)
      && rootHash == CidOf(root)
      && HasTree(storage.blocks, rootHash)
    }

    constructor (storage: BlockStore, rootHash: Cid, ghost m: Map)
      requires Fits(m, 0) && rootHash.block.ChampBlock? && rootHash in storage.blocks
      requires rootHash.block.champ == Canon(m, 0, rootHash.block.champ.mirrorBat)
      ensures content == m && this.storage == storage && this.rootHash == rootHash
      ensures Complete(storage.blocks, rootHash.block.champ) ==> Valid()
    {
      hide Fits, Canon;
      this.storage, this.rootHash, this.root := storage, rootHash, rootHash.block.champ;
      this.content := m;
    }

    /** A wrapper reads as the map it holds. */
    method Get(key: Key) returns (r: Result<Option<Value>, ChampError>)
      requires Valid()
      ensures r == Ok(Lookup(content, key))
    {
      GetIsLookup(storage.blocks, content, 0, root.mirrorBat, key);
      r := ChampStore.Get(storage.blocks, root, key, 0);
    }

    method Count() returns (r: Result<nat, ChampError>)
      requires Valid()
      ensures r == Ok(|content|)
    {
      TotalIsSize(content, 0, root.mirrorBat);
      r := Size(storage, root);
    }

    method Put(key: Key, expected: Option<Value>, value: Option<Value>) returns (r: Result<Cid, ChampError>)
      requires Valid()
      modifies this, storage
      ensures Valid() && storage == old(storage) && old(storage.blocks) <= storage.blocks
      ensures root.mirrorBat == old(root.mirrorBat)
      ensures content == Apply(old(content), PutOp(key, expected, value))
      ensures PutError(old(content), 0, key, expected, value) == match r { case Ok(_) => None case Err(e) => Some(e) }
      ensures r.Ok? ==> r.value == rootHash && content == old(content)[key := value]
    {
      hide Fits, Canon;
      var p := ChampOps.Put(storage, root, key, 0, expected, value, rootHash, content);
      if p.Err? {
        CompleteMono(old(storage.blocks), storage.blocks, root);
        return Err(p.error);
      }
      CanonBat(content[key := value], 0, root.mirrorBat);
      root, rootHash, content := p.value.0, p.value.1, content[key := value];
      return Ok(rootHash);
    }

    method Remove(key: Key, expected: Option<Value>) returns (r: Result<Cid, ChampError>)
      requires Valid()
      modifies this, storage
      ensures Valid() && storage == old(storage) && old(storage.blocks) <= storage.blocks
      ensures root.mirrorBat == old(root.mirrorBat)
      ensures content == Apply(old(content), RemoveOp(key, expected))
      ensures RemoveError(old(content), 0, key, expected) == match r { case Ok(_) => None case Err(e) => Some(e) }
      ensures r.Ok? ==> r.value == rootHash && content == old(content) - {key}
    {
      hide Fits, Canon, LandsInBucket, Collapsed;
      var p := ChampRemove.Remove(storage, root, key, 0, expected, rootHash, content);
      if p.Err? {
        CompleteMono(old(storage.blocks), storage.blocks, root);
        return Err(p.error);
      }
      FitsMono(content, content - {key}, 0);
      CanonBat(content - {key}, 0, root.mirrorBat);
      assert key !in content ==> content - {key} == content;
      root, rootHash, content := p.value.0, p.value.1, content - {key};
      return Ok(rootHash);
    }

    /** History independence. After any run of puts and removes, refused ones
        included, the root hash is that of the canonical tree of the resulting
        mapping, whatever the order in which it was built. */
    method Replay(ops: seq<Op>)
      requires Valid()
      modifies this, storage
      ensures Valid() && storage == old(storage)
      ensures content == Run(old(content), ops)
      ensures rootHash == CidOf(Canon(Run(old(content), ops), 0, old(root.mirrorBat)))
    {
      assert ops[..0] == [];
      for i := 0 to |ops|
        invariant Valid() && storage == old(storage) && root.mirrorBat == old(root.mirrorBat)
        invariant content == Run(old(content), ops[..i])
      {
        hide Fits, Canon;
        assert ops[..i + 1][..i] == ops[..i] && ops[..i + 1][i] == ops[i];
        match ops[i] {
          case PutOp(k, e, v) => var _ := Put(k, e, v);
          case RemoveOp(k, e) => var _ := Remove(k, e);
        }
      }
      assert ops[..|ops|] == ops;
    }
  }

  /** A fresh key put and removed again leaves the exact root there was. */
  method PutThenRemove(w: ChampWrapper, key: Key, expected: Option<Value>, value: Option<Value>) returns (put: Result<Cid, ChampError>)
    requires w.Valid() && key !in w.content
    modifies w, w.storage
    ensures w.Valid() && w.content == old(w.content) && w.rootHash == old(w.rootHash)
    ensures PutError(old(w.content), 0, key, expected, value) == match put { case Ok(_) => None case Err(e) => Some(e) }
  {
    hide Fits, Canon;
    ghost var m := w.content;
    put := w.Put(key, expected, value);
    if put.Ok? {
      var removed := w.Remove(key, value);
      assert m[key := value] - {key} == m;
    }
  }

  /** `ChampWrapper::create` */
  method Create(storage: BlockStore, rootHash: Cid, ghost m: Map) returns (r: Result<ChampWrapper, ChampError>)
    requires Fits(m, 0)
    requires rootHash.block.ChampBlock? ==> rootHash.block.champ == Canon(m, 0, rootHash.block.champ.mirrorBat)
    ensures r.Ok? <==> rootHash in storage.blocks && rootHash.block.ChampBlock?
    ensures r.Ok? && Complete(storage.blocks, rootHash.block.champ) ==>
      r.value.Valid() && r.value.content == m && r.value.storage == storage && r.value.rootHash == rootHash
  {
    hide Fits, Canon;
    if rootHash !in storage.blocks { return Err(MissingBlock); }
    if !rootHash.block.ChampBlock? { return Err(BadBlock); }
    var w := new ChampWrapper(storage, rootHash, m);
    return Ok(w);
  }
}
