/** The blocks of a merged champ tree are what the flush takes a merge to make: this joins
    the merge on trees to the merge on the block graph. */
module MergeBlocks {
  import opened Bytes
  import opened Mask
  import opened ChampNode
  import opened CanonicalTree
  import opened ChampStore
  import opened ChampOps
  import ChampRemove
  import opened ChampDiff
  import opened ChampMerge
  import opened CommitProtocol
  import G = BlockGraph
  import B = BulkCommits
  import F = FlushProtocol

  // ---- the nodes of a tree ---------------------------------------------------------------

  /** The nodes of the champ tree at this root. */
  ghost function Nodes(c: Champ): set<Cid>
    decreases c
  {
    {CidOf(c)} + set p, x | p in c.contents && p.Link? && p.cid.block.ChampBlock? && x in Nodes(p.cid.block.champ) :: x
  }

  ghost predicate Binds(p: Payload, e: KeyElement) { p.Mappings? && e in p.mappings }

  /** Some payload of the node binds a key so. */
  ghost predicate HoldsBinding(c: Champ, e: KeyElement) { exists p :: p in c.contents && Binds(p, e) }

  lemma {:induction false} DataFromSlot(s: seq<SlotView>, hi: nat, p: Payload)
    requires hi <= |s| && p.Mappings? && (p in Links(s, 0, hi) || p in Datas(s, 0, hi))
    ensures exists i :: 0 <= i < hi && s[i] == Bucket(p.mappings)
  {
    if p in DataOf(s[hi - 1]) {
      assert s[hi - 1] == Bucket(p.mappings);
    } else {
      DataFromSlot(s, hi - 1, p);
    }
  }

  /** What one canonical node holds: bindings of its map, and links to canonical nodes. */
  lemma OneNode(m: Map, d: nat, bat: Bat, p: Payload)
    requires Fits(m, d) && p in Canon(m, d, bat).contents
    ensures p.Mappings? ==> forall e :: e in p.mappings ==> e.key in m && m[e.key] == e.value
    ensures p.Link? ==> exists i: nat :: i < SLOTS && Fits(Sub(m, d, i), d + 1) && p.cid == CidOf(Canon(Sub(m, d, i), d + 1, bat))
  {
    hide Fits, Slots, Sub, Canon, BucketOf;
    ChampRemove.CanonNode(m, d, bat);
    var s := Slots(m, d, bat);
    if p.Mappings? {
      DataFromSlot(s, SLOTS, p);
      var i :| 0 <= i < SLOTS && s[i] == Bucket(p.mappings);
      SlotKind(m, d, bat, i);
      SubBinds(m, d, i);
    } else {
      LinkFromSlot(s, SLOTS, p);
      var i :| 0 <= i < SLOTS && s[i] == Shard(p.cid);
      SlotKind(m, d, bat, i);
    }
  }

  lemma SubBinds(m: Map, d: nat, i: nat)
    ensures forall e :: e in BucketOf(Sub(m, d, i)) ==> e.key in m && m[e.key] == e.value
  {
    assert IsBucket(BucketOf(Sub(m, d, i)), Sub(m, d, i));
  }

  /** Every node of a canonical tree binds keys as the map does, and links to nodes of it. */
  lemma {:induction false} NodesOfCanon(m: Map, d: nat, bat: Bat, x: Cid)
    requires Fits(m, d) && x in Nodes(Canon(m, d, bat))
    ensures x.block.ChampBlock?
    ensures forall e :: HoldsBinding(x.block.champ, e) ==> e.key in m && m[e.key] == e.value
    ensures forall p :: p in x.block.champ.contents && p.Link? ==> p.cid in Nodes(Canon(m, d, bat))
    decreases HASH_CODE_LENGTH - d
  {
    hide Fits, Canon, Sub;
    var c := Canon(m, d, bat);
    if x == CidOf(c) {
      forall p | p in c.contents
        ensures p.Mappings? ==> forall e :: e in p.mappings ==> e.key in m && m[e.key] == e.value
        ensures p.Link? ==> p.cid in Nodes(c)
      {
        OneNode(m, d, bat, p);
        if p.Link? { assert p.cid in Nodes(p.cid.block.champ); }
      }
    } else {
      var p :| p in c.contents && p.Link? && p.cid.block.ChampBlock? && x in Nodes(p.cid.block.champ);
      OneNode(m, d, bat, p);
      var i: nat :| i < SLOTS && Fits(Sub(m, d, i), d + 1) && p.cid == CidOf(Canon(Sub(m, d, i), d + 1, bat));
      FitsDepth(m, d);
      NodesOfCanon(Sub(m, d, i), d + 1, bat, x);
      SubIsPart(m, d, i);
    }
  }

  lemma SubIsPart(m: Map, d: nat, i: nat)
    ensures forall k :: k in Sub(m, d, i) ==> k in m && Sub(m, d, i)[k] == m[k]
  {}

  // ---- symbolic blocks as buffered ones -----------------------------------------------------

  /** What a block links to, as parsing it finds. */
  ghost predicate LinksTo(b: Block, d: Cid) {
    match b
    case ChampBlock(c) => Link(d) in c.contents || exists k :: HoldsBinding(c, KeyElement(k, Some(LinkTo(d))))
    case WriterBlock(tree, _) => tree == Some(d)
    case OtherBlock(_) => false
  }

  /** `id` names blocks and `of` is how they are buffered: equal names mean equal blocks, and
      a buffered block has the links of the block it stands for. */
  ghost predicate Represents(id: Cid -> G.Id, of: Cid -> G.BufferedBlock) {
    && Injective(id)
    && (forall c, l :: l in G.Outgoing(of(c)) <==> exists d :: LinksTo(c.block, d) && l == id(d))
  }

  ghost predicate Injective(id: Cid -> G.Id) { forall a, b :: id(a) == id(b) ==> a == b }

  /** The blocks of a merged root: its writer data and its whole tree. */
  ghost function MergedBlocks(merged: Cid): set<Cid> {
    {merged} + if merged.block.WriterBlock? && merged.block.tree.Some? && merged.block.tree.value.block.ChampBlock? then
      Nodes(merged.block.tree.value.block.champ) else {}
  }

  ghost function Made(id: Cid -> G.Id, of: Cid -> G.BufferedBlock, merged: Cid): G.Buffer
    requires Injective(id)
  {
    map c | c in MergedBlocks(merged) :: id(c) := of(c)
  }

  /** A block bound in one of the trees is reached from ours, is one of the remote's, or is
      not this client's. */
  ghost predicate Sourced(id: Cid -> G.Id, m: Map, g: G.Buffer, ours: set<G.Id>, theirs: set<G.Id>) {
    forall k, d :: k in m && m[k] == Some(LinkTo(d)) ==> id(d) in ours || id(d) in theirs || id(d) !in g
  }

  /** A link out of a merged block stays among them, or goes to a block bound in ours or theirs. */
  lemma MergedLinks(base: Option<Cid>, ours: Option<Cid>, theirs: Option<Cid>, merged: Cid, c: Cid, d: Cid)
    requires WellFormed(base) && WellFormed(ours) && WellFormed(theirs) && MergeResult(base, ours, theirs, merged)
    requires c in MergedBlocks(merged) && LinksTo(c.block, d)
    ensures d in MergedBlocks(merged) || (exists k :: Bound(TreeOf(ours), k, d)) || (exists k :: Bound(TreeOf(theirs), k, d))
  {
    var mb, mo, mt := TreeOf(base), TreeOf(ours), TreeOf(theirs);
    var m := Merged(mb, mo, mt);
    hide TreeOf, WellFormed, Conflict, Merged, HoldsBinding;
    var tree := merged.block.tree.value;
    var bat := tree.block.champ.mirrorBat;
    assert IsTree(tree, m, bat);
    if c == merged {
      assert d == tree && d in Nodes(tree.block.champ);
    } else {
      NodesOfCanon(m, 0, bat, c);
      if Link(d) !in c.block.champ.contents {
        var k :| HoldsBinding(c.block.champ, KeyElement(k, Some(LinkTo(d))));
        MergedBinding(mb, mo, mt, k);
        assert Bound(mo, k, d) || Bound(mt, k, d);
      }
    }
  }

  ghost predicate Bound(m: Map, k: Key, d: Cid) { k in m && m[k] == Some(LinkTo(d)) }

  lemma MergedBinding(base: Map, ours: Map, theirs: Map, k: Key)
    ensures var m := Merged(base, ours, theirs); k in m ==> (k in ours && m[k] == ours[k]) || (k in theirs && m[k] == theirs[k])
  {}

  /** What `merge_writer_data` stores is a merge as the flush takes it: the new blocks link to
      one another, to what ours leads to, to the remote's blocks, or out of sight. The other
      conditions are what the rest of the system has to bring: blocks are content addressed,
      the remote's are on the server with all they link to, and the files bound in either
      tree are on one of the two sides. */
  lemma MergeMeetsFlush(id: Cid -> G.Id, of: Cid -> G.BufferedBlock, start: G.Buffer, owner: G.KeyHash, blocks: set<B.Stored>,
                        ourIds: set<G.Id>, theirIds: set<G.Id>, base: Option<Cid>, ours: Option<Cid>, theirs: Option<Cid>, merged: Cid)
    requires Represents(id, of) && WellFormed(base) && WellFormed(ours) && WellFormed(theirs) && MergeResult(base, ours, theirs, merged)
    requires var made := Made(id, of, merged);
      var g := made + start;
      && (forall c :: id(c) in start ==> start[id(c)] == of(c))
      && (forall l :: l in theirIds ==> (owner, l) in blocks)
      && (forall l :: l in theirIds && l in g ==> forall k :: k in G.Outgoing(g[l]) ==> k in theirIds || k !in g)
      && Sourced(id, TreeOf(ours), g, ourIds, theirIds) && Sourced(id, TreeOf(theirs), g, ourIds, theirIds)
    ensures F.MergeMakes(start, owner, blocks, ourIds, id(merged), Made(id, of, merged), theirIds)
  {
    hide TreeOf, WellFormed, MergeResult, MergedBlocks, LinksTo;
    var made := Made(id, of, merged);
    var g := made + start;
    MergedIsOne(merged);
    assert id(merged) in made;
    forall l | l in made
      ensures l in start ==> made[l] == start[l]
      ensures forall k :: k in G.Outgoing(made[l]) ==> k in made || k in ourIds || k in theirIds || k !in g
    {
      var c :| c in MergedBlocks(merged) && l == id(c);
      forall k | k in G.Outgoing(made[l]) ensures k in made || k in ourIds || k in theirIds || k !in g {
        var d :| LinksTo(c.block, d) && k == id(d);
        MergedLinks(base, ours, theirs, merged, c, d);
        if d in MergedBlocks(merged) { assert id(d) in made; }
      }
    }
  }

  lemma MergedIsOne(merged: Cid)
    ensures merged in MergedBlocks(merged)
  {}
}
