/** A champ node as it is stored: two bitmaps and one `contents` array, with the
    node-edit helpers, and the slot view that explains the layout.

    A CID is modelled as the free constructor over the block it addresses. Hashing
    is then collision free and links are acyclic by construction; a store is the
    set of CIDs whose blocks it holds. */
module ChampNode {
  import opened Bytes
  import opened Bitmap
  import opened Mask

  datatype Value = LinkTo(cid: Cid) | Plain(cbor: seq<byte>)

  datatype KeyElement = KeyElement(key: Key, value: Option<Value>)

  datatype Payload = Mappings(mappings: seq<KeyElement>) | Link(cid: Cid)

  datatype Champ = Champ(dataMap: seq<byte>, nodeMap: seq<byte>, contents: seq<Payload>, mirrorBat: Option<seq<byte>>)

  datatype Block = ChampBlock(champ: Champ) | WriterBlock(tree: Option<Cid>, rest: seq<byte>) | OtherBlock(data: seq<byte>)

  datatype Cid = Cid(block: Block)

  type Bat = Option<seq<byte>>

  const SLOTS := 8
  const MAX_COLLISIONS := 4
  const HASH_CODE_LENGTH := 32

  function EmptyChamp(bat: Bat): Champ { Champ([], [], [], bat) }

  function CidOf(c: Champ): Cid { Cid(ChampBlock(c)) }

  // ---- node edits (`with_contents` is the datatype update) ------------------

  /** The index of `key` in `ms`, or `|ms|`. */
  function Find(ms: seq<KeyElement>, key: Key): (r: nat)
    ensures r <= |ms|
    ensures r < |ms| ==> ms[r].key == key
    ensures forall j :: 0 <= j < r ==> ms[j].key != key
  {
    if ms == [] then 0 else if ms[0].key == key then 0 else 1 + Find(ms[1..], key)
  }

  function RemoveAt<T>(s: seq<T>, i: nat): seq<T>
    requires i < |s|
  {
    s[..i] + s[i + 1..]
  }

  function InsertAt<T>(s: seq<T>, i: nat, x: T): seq<T>
    requires i <= |s|
  {
    s[..i] + [x] + s[i..]
  }

  /** Insertion of one mapping into a bucket; `sort_by` on a bucket is its fold. */
  function Insert(ms: seq<KeyElement>, e: KeyElement): seq<KeyElement> {
    if ms == [] || Less(e.key, ms[0].key) then [e] + ms else [ms[0]] + Insert(ms[1..], e)
  }

  function Sort(ms: seq<KeyElement>): seq<KeyElement> {
    if ms == [] then [] else Insert(Sort(ms[..|ms| - 1]), ms[|ms| - 1])
  }

  function CopyAndSetValue(c: Champ, setIndex: nat, payloadIndex: nat, val: Option<Value>): Champ
    requires setIndex < |c.contents|
    requires c.contents[setIndex].Mappings? ==> payloadIndex < |c.contents[setIndex].mappings|
  {
    match c.contents[setIndex]
    case Mappings(ms) =>
      var updated := ms[payloadIndex := ms[payloadIndex].(value := val)];
      c.(contents := c.contents[setIndex := Mappings(updated)])
    case Link(_) => c
  }

  function InsertIntoPrefix(c: Champ, index: nat, key: Key, val: Option<Value>): Champ
    requires index < |c.contents|
  {
    match c.contents[index]
    case Mappings(ms) => c.(contents := c.contents[index := Mappings(Sort(ms + [KeyElement(key, val)]))])
    case Link(_) => c
  }

  function AddNewPrefix(c: Champ, bitpos: nat, key: Key, val: Option<Value>): Champ
    requires GetIndex(c.dataMap, bitpos) <= |c.contents|
  {
    var at := GetIndex(c.dataMap, bitpos);
    c.(contents := InsertAt(c.contents, at, Mappings([KeyElement(key, val)])), dataMap := BitSet(c.dataMap, bitpos))
  }

  function LinkIndex(c: Champ, bitpos: nat): nat
    requires GetIndex(c.nodeMap, bitpos) < |c.contents|
  {
    |c.contents| - 1 - GetIndex(c.nodeMap, bitpos)
  }

  function MigrateFromInlineToNode(c: Champ, bitpos: nat, node: Cid): Champ
    requires GetIndex(c.nodeMap, bitpos) < |c.contents| && GetIndex(c.dataMap, bitpos) < |c.contents|
  {
    var dst := RemoveAt(c.contents, GetIndex(c.dataMap, bitpos));
    Champ(BitClear(c.dataMap, bitpos), BitSet(c.nodeMap, bitpos),
          InsertAt(dst, LinkIndex(c, bitpos), Link(node)), c.mirrorBat)
  }

  function OverwriteChildLink(c: Champ, bitpos: nat, node: Cid): Champ
    requires GetIndex(c.nodeMap, bitpos) < |c.contents|
  {
    c.(contents := c.contents[LinkIndex(c, bitpos) := Link(node)])
  }

  function RemoveMapping(c: Champ, bitpos: nat, payloadIndex: nat): Champ
    requires GetIndex(c.dataMap, bitpos) < |c.contents|
    requires var p := c.contents[GetIndex(c.dataMap, bitpos)]; p.Mappings? ==> payloadIndex < |p.mappings|
  {
    var at := GetIndex(c.dataMap, bitpos);
    match c.contents[at]
    case Mappings(m) =>
      if |m| == 1 then c.(contents := RemoveAt(c.contents, at), dataMap := BitClear(c.dataMap, bitpos))
      else c.(contents := c.contents[at := Mappings(RemoveAt(m, payloadIndex))])
    case Link(_) => c
  }

  function FirstBucket(c: Champ): seq<KeyElement> {
    if c.contents != [] && c.contents[0].Mappings? then c.contents[0].mappings else []
  }

  function MigrateFromNodeToInline(c: Champ, bitpos: nat, node: Champ): Champ
    requires GetIndex(c.nodeMap, bitpos) < |c.contents|
    requires GetIndex(c.dataMap, bitpos) < |c.contents|
  {
    var dst := RemoveAt(c.contents, LinkIndex(c, bitpos));
    Champ(BitSet(c.dataMap, bitpos), BitClear(c.nodeMap, bitpos),
          InsertAt(dst, GetIndex(c.dataMap, bitpos), Mappings(FirstBucket(node))), c.mirrorBat)
  }

  function KeyCount(ps: seq<Payload>): nat {
    if ps == [] then 0 else (if ps[0].Mappings? then |ps[0].mappings| else 0) + KeyCount(ps[1..])
  }

  function NodeCount(ps: seq<Payload>): nat {
    if ps == [] then 0 else (if ps[0].Link? then 1 else 0) + NodeCount(ps[1..])
  }

  /** All inline mappings of a node, in contents order. */
  function Inline(ps: seq<Payload>): seq<KeyElement> {
    if ps == [] then [] else (if ps[0].Mappings? then ps[0].mappings else []) + Inline(ps[1..])
  }

  function Without(ms: seq<KeyElement>, key: Key): seq<KeyElement> {
    if ms == [] then [] else (if ms[0].key == key then [] else [ms[0]]) + Without(ms[1..], key)
  }

  /** The single-bucket node a shard of five mappings turns into when it loses one. */
  function Collapse(c: Champ, key: Key): Champ {
    Champ(BitSet([], Slot(key, 0)), [], [Mappings(Sort(Without(Inline(c.contents), key)))], c.mirrorBat)
  }

  // ---- the slot view ---------------------------------------------------------

  /** What a node holds at one of its eight positions. */
  datatype SlotView = Empty | Bucket(mappings: seq<KeyElement>) | Shard(cid: Cid)

  function DataOf(v: SlotView): seq<Payload> { if v.Bucket? then [Mappings(v.mappings)] else [] }
  function LinkOf(v: SlotView): seq<Payload> { if v.Shard? then [Link(v.cid)] else [] }

  /** The data payloads of slots `lo..hi`. */
  function Datas(s: seq<SlotView>, lo: nat, hi: nat): seq<Payload>
    requires lo <= hi <= |s|
  {
    if lo == hi then [] else Datas(s, lo, hi - 1) + DataOf(s[hi - 1])
  }

  /** The links of slots `lo..hi`, last slot first. */
  function Links(s: seq<SlotView>, lo: nat, hi: nat): seq<Payload>
    requires lo <= hi <= |s|
  {
    if lo == hi then [] else LinkOf(s[hi - 1]) + Links(s, lo, hi - 1)
  }

  function BucketFlags(s: seq<SlotView>): seq<bool> { seq(|s|, i requires 0 <= i < |s| => s[i].Bucket?) }
  function ShardFlags(s: seq<SlotView>): seq<bool> { seq(|s|, i requires 0 <= i < |s| => s[i].Shard?) }

  /** The node that stores these eight slots: data payloads in slot order, then the
      links in reverse slot order, with one bitmap for each kind. */
  function NodeOf(s: seq<SlotView>, bat: Bat): Champ
    requires |s| == SLOTS
  {
    Champ(Pack(BucketFlags(s)), Pack(ShardFlags(s)), Datas(s, 0, SLOTS) + Links(s, 0, SLOTS), bat)
  }

  lemma Assoc<T>(a: seq<T>, b: seq<T>, c: seq<T>)
    ensures (a + b) + c == a + (b + c)
    ensures a + [] == a == [] + a
  {}

  lemma {:induction false} Split(s: seq<SlotView>, i: nat, hi: nat, v: SlotView)
    requires i < hi <= |s|
    ensures Datas(s[i := v], 0, hi) == Datas(s, 0, i) + DataOf(v) + Datas(s, i + 1, hi)
    ensures Links(s[i := v], 0, hi) == Links(s, i + 1, hi) + LinkOf(v) + Links(s, 0, i)
  {
    hide DataOf, LinkOf;
    var d, l := Datas(s, 0, i) + DataOf(v), LinkOf(v) + Links(s, 0, i);
    if i + 1 == hi {
      Unchanged(s, i, i, v);
      Assoc(d, [], []);
      Assoc([], LinkOf(v), Links(s, 0, i));
    } else {
      Split(s, i, hi - 1, v);
      Assoc(d, Datas(s, i + 1, hi - 1), DataOf(s[hi - 1]));
      Assoc(LinkOf(s[hi - 1]), Links(s, i + 1, hi - 1), LinkOf(v));
      Assoc(LinkOf(s[hi - 1]), Links(s, i + 1, hi - 1) + LinkOf(v), Links(s, 0, i));
    }
  }

  lemma {:induction false} Unchanged(s: seq<SlotView>, i: nat, hi: nat, v: SlotView)
    requires hi <= i < |s|
    ensures Datas(s[i := v], 0, hi) == Datas(s, 0, hi)
    ensures Links(s[i := v], 0, hi) == Links(s, 0, hi)
  {
    if hi > 0 {
      Unchanged(s, i, hi - 1, v);
    }
  }

  lemma {:induction false} IndexCounts(s: seq<SlotView>, i: nat)
    requires |s| == SLOTS && i <= SLOTS
    ensures GetIndex(Pack(BucketFlags(s)), i) == |Datas(s, 0, i)|
    ensures GetIndex(Pack(ShardFlags(s)), i) == |Links(s, 0, i)|
  {
    if i > 0 {
      IndexCounts(s, i - 1);
      PackGet(BucketFlags(s), i - 1);
      PackGet(ShardFlags(s), i - 1);
    }
  }

  lemma Flags(s: seq<SlotView>, i: nat, v: SlotView)
    requires |s| == SLOTS && i < SLOTS
    ensures BucketFlags(s[i := v]) == BucketFlags(s)[i := v.Bucket?]
    ensures ShardFlags(s[i := v]) == ShardFlags(s)[i := v.Shard?]
    ensures v.Bucket? == s[i].Bucket? ==> BucketFlags(s[i := v]) == BucketFlags(s)
    ensures v.Shard? == s[i].Shard? ==> ShardFlags(s[i := v]) == ShardFlags(s)
  {}

  /** Everything around slot `i`: the two indices the code computes, and the node
      for any other content of that slot. */
  lemma Around(s: seq<SlotView>, bat: Bat, i: nat, v: SlotView) returns (pre: seq<Payload>, mid: seq<Payload>, post: seq<Payload>)
    requires |s| == SLOTS && i < SLOTS
    ensures var c := NodeOf(s, bat);
      && c.mirrorBat == bat
      && BitGet(c.dataMap, i) == s[i].Bucket?
      && BitGet(c.nodeMap, i) == s[i].Shard?
      && GetIndex(c.dataMap, i) == |pre|
      && GetIndex(c.nodeMap, i) == |post|
      && c.contents == pre + DataOf(s[i]) + mid + LinkOf(s[i]) + post
      && NodeOf(s[i := v], bat) == Champ(
        if v.Bucket? == s[i].Bucket? then c.dataMap else if v.Bucket? then BitSet(c.dataMap, i) else BitClear(c.dataMap, i),
        if v.Shard? == s[i].Shard? then c.nodeMap else if v.Shard? then BitSet(c.nodeMap, i) else BitClear(c.nodeMap, i),
        pre + DataOf(v) + mid + LinkOf(v) + post, bat)
  {
    PackGet(BucketFlags(s), i);
    PackGet(ShardFlags(s), i);
    IndexCounts(s, i);
    Flags(s, i, v);
    PackEdit(BucketFlags(s), i);
    PackEdit(ShardFlags(s), i);
    Split(s, i, SLOTS, v);
    Split(s, i, SLOTS, s[i]);
    assert s[i := s[i]] == s;
    var tail, head := Datas(s, i + 1, SLOTS), Links(s, i + 1, SLOTS);
    pre, mid, post := Datas(s, 0, i), tail + head, Links(s, 0, i);
    Regroup(pre, DataOf(v), tail, head, LinkOf(v), post);
    Regroup(pre, DataOf(s[i]), tail, head, LinkOf(s[i]), post);
  }

  lemma Regroup<T>(a: seq<T>, b: seq<T>, c: seq<T>, d: seq<T>, e: seq<T>, f: seq<T>)
    ensures (a + b + c) + (d + e + f) == a + b + (c + d) + e + f
  {}

  /** The bitmaps and the index arithmetic find exactly what slot `i` holds. */
  lemma SlotAccess(s: seq<SlotView>, bat: Bat, i: nat)
    requires |s| == SLOTS && i < SLOTS
    ensures var c := NodeOf(s, bat);
      && BitGet(c.dataMap, i) == s[i].Bucket?
      && BitGet(c.nodeMap, i) == s[i].Shard?
      && GetIndex(c.dataMap, i) <= |c.contents|
      && (!s[i].Empty? ==> GetIndex(c.dataMap, i) < |c.contents| && GetIndex(c.nodeMap, i) < |c.contents|)
      && (s[i].Bucket? ==> c.contents[GetIndex(c.dataMap, i)] == Mappings(s[i].mappings))
      && (s[i].Shard? ==> c.contents[LinkIndex(c, i)] == Link(s[i].cid))
  {
    var pre, mid, post := Around(s, bat, i, Empty);
  }

  // ---- each edit helper changes exactly one slot ----------------------------

  lemma SetBucketIsSlotUpdate(s: seq<SlotView>, bat: Bat, i: nat, ms: seq<KeyElement>)
    requires |s| == SLOTS && i < SLOTS && s[i].Bucket?
    ensures var c := NodeOf(s, bat); var at := GetIndex(c.dataMap, i);
      at < |c.contents| && c.(contents := c.contents[at := Mappings(ms)]) == NodeOf(s[i := Bucket(ms)], bat)
  {
    hide NodeOf, BitGet, GetIndex, BitSet, BitClear;
    var pre, mid, post := Around(s, bat, i, Bucket(ms));
    var c := NodeOf(s, bat);
    assert c.contents[|pre| := Mappings(ms)] == pre + [Mappings(ms)] + mid + [] + post;
  }

  lemma DropBucketIsSlotUpdate(s: seq<SlotView>, bat: Bat, i: nat)
    requires |s| == SLOTS && i < SLOTS && s[i].Bucket?
    ensures var c := NodeOf(s, bat); var at := GetIndex(c.dataMap, i);
      at < |c.contents|
      && c.(contents := RemoveAt(c.contents, at), dataMap := BitClear(c.dataMap, i)) == NodeOf(s[i := Empty], bat)
  {
    hide NodeOf, BitGet, GetIndex, BitSet, BitClear;
    var pre, mid, post := Around(s, bat, i, Empty);
    var c := NodeOf(s, bat);
    assert RemoveAt(c.contents, |pre|) == pre + [] + mid + [] + post;
  }

  lemma AddNewPrefixIsSlotUpdate(s: seq<SlotView>, bat: Bat, i: nat, key: Key, val: Option<Value>)
    requires |s| == SLOTS && i < SLOTS && s[i].Empty?
    ensures var c := NodeOf(s, bat);
      GetIndex(c.dataMap, i) <= |c.contents|
      && AddNewPrefix(c, i, key, val) == NodeOf(s[i := Bucket([KeyElement(key, val)])], bat)
  {
    hide NodeOf, BitGet, GetIndex, BitSet, BitClear;
    var p := Mappings([KeyElement(key, val)]);
    var pre, mid, post := Around(s, bat, i, Bucket(p.mappings));
    var c := NodeOf(s, bat);
    assert InsertAt(c.contents, |pre|, p) == pre + [p] + mid + [] + post;
  }

  lemma OverwriteIsSlotUpdate(s: seq<SlotView>, bat: Bat, i: nat, node: Cid)
    requires |s| == SLOTS && i < SLOTS && s[i].Shard?
    ensures var c := NodeOf(s, bat);
      GetIndex(c.nodeMap, i) < |c.contents| && OverwriteChildLink(c, i, node) == NodeOf(s[i := Shard(node)], bat)
  {
    hide NodeOf, BitGet, GetIndex, BitSet, BitClear;
    var pre, mid, post := Around(s, bat, i, Shard(node));
    var c := NodeOf(s, bat);
    assert c.contents[LinkIndex(c, i) := Link(node)] == pre + [] + mid + [Link(node)] + post;
  }

  lemma MigrateToNodeIsSlotUpdate(s: seq<SlotView>, bat: Bat, i: nat, node: Cid)
    requires |s| == SLOTS && i < SLOTS && s[i].Bucket?
    ensures var c := NodeOf(s, bat);
      GetIndex(c.nodeMap, i) < |c.contents| && GetIndex(c.dataMap, i) < |c.contents|
      && MigrateFromInlineToNode(c, i, node) == NodeOf(s[i := Shard(node)], bat)
  {
    hide NodeOf, BitGet, GetIndex, BitSet, BitClear;
    var pre, mid, post := Around(s, bat, i, Shard(node));
    var c := NodeOf(s, bat);
    var removed := RemoveAt(c.contents, |pre|);
    assert removed == pre + mid + post;
    assert InsertAt(removed, LinkIndex(c, i), Link(node)) == pre + [] + mid + [Link(node)] + post;
  }

  lemma MigrateToInlineIsSlotUpdate(s: seq<SlotView>, bat: Bat, i: nat, node: Champ)
    requires |s| == SLOTS && i < SLOTS && s[i].Shard?
    ensures var c := NodeOf(s, bat);
      GetIndex(c.nodeMap, i) < |c.contents| && GetIndex(c.dataMap, i) < |c.contents|
      && MigrateFromNodeToInline(c, i, node) == NodeOf(s[i := Bucket(FirstBucket(node))], bat)
  {
    hide NodeOf, BitGet, GetIndex, BitSet, BitClear;
    InlineShard(s, bat, i, FirstBucket(node));
    var pre, mid, post := Around(s, bat, i, Empty);
  }

  lemma InlineShard(s: seq<SlotView>, bat: Bat, i: nat, ms: seq<KeyElement>)
    requires |s| == SLOTS && i < SLOTS && s[i].Shard?
    ensures var c := NodeOf(s, bat);
      GetIndex(c.nodeMap, i) < |c.contents| && GetIndex(c.dataMap, i) < |c.contents|
      && Champ(BitSet(c.dataMap, i), BitClear(c.nodeMap, i),
               InsertAt(RemoveAt(c.contents, LinkIndex(c, i)), GetIndex(c.dataMap, i), Mappings(ms)), bat)
         == NodeOf(s[i := Bucket(ms)], bat)
  {
    hide NodeOf, BitGet, GetIndex, BitSet, BitClear;
    var p := Mappings(ms);
    var pre, mid, post := Around(s, bat, i, Bucket(ms));
    var c := NodeOf(s, bat);
    var removed := RemoveAt(c.contents, LinkIndex(c, i));
    assert removed == pre + mid + post;
    assert InsertAt(removed, |pre|, p) == pre + [p] + mid + [] + post;
  }

  /** The stored node determines its slots. */
  lemma NodeOfInjective(s: seq<SlotView>, t: seq<SlotView>, bat: Bat, i: nat)
    requires |s| == |t| == SLOTS && i < SLOTS && NodeOf(s, bat) == NodeOf(t, bat)
    ensures s[i] == t[i]
  {
    SlotAccess(s, bat, i);
    SlotAccess(t, bat, i);
  }

  // ---- counting --------------------------------------------------------------

  lemma {:induction false} CountAppend(a: seq<Payload>, b: seq<Payload>)
    ensures KeyCount(a + b) == KeyCount(a) + KeyCount(b)
    ensures NodeCount(a + b) == NodeCount(a) + NodeCount(b)
    ensures Inline(a + b) == Inline(a) + Inline(b)
  {
    if a == [] {
      assert a + b == b;
    } else {
      assert (a + b)[1..] == a[1..] + b;
      CountAppend(a[1..], b);
    }
  }

  lemma {:induction false} InlineCount(ps: seq<Payload>)
    ensures |Inline(ps)| == KeyCount(ps)
  {
    if ps != [] {
      InlineCount(ps[1..]);
    }
  }
}
