/** Splitting an oversized bulk commit (`from_root_first`, `split`). */
module BulkSplit {
  import opened Bytes
  import opened BlockGraph

  /** An inline block with its CID. */
  type Inline = (Id, BufferedBlock)

  /** The blocks by hash; a later one replaces an earlier. */
  function GraphOf(bs: seq<Inline>): Buffer {
    if bs == [] then map[] else GraphOf(bs[..|bs| - 1])[bs[|bs| - 1].0 := bs[|bs| - 1].1]
  }

  /** Block `i` is the root, or a block before it links to it. */
  ghost predicate LinkedEarlier(o: seq<Inline>, root: Option<Id>, i: nat)
    requires i < |o|
  {
    root == Some(o[i].0) || exists j :: 0 <= j < i && o[i].0 in Outgoing(o[j].1)
  }

  /** Every block hangs off the root through the blocks before it. */
  ghost predicate Hangs(o: seq<Inline>, root: Option<Id>) {
    forall i :: 0 <= i < |o| ==> LinkedEarlier(o, root, i)
  }

  /** Any prefix of such an order is reachable from the root on its own. */
  lemma HangsPrefix(o: seq<Inline>, root: Option<Id>, n: nat)
    requires Hangs(o, root) && n <= |o|
    ensures Hangs(o[..n], root)
  {
    forall i | 0 <= i < n ensures LinkedEarlier(o[..n], root, i) {
      assert LinkedEarlier(o, root, i);
      if root != Some(o[i].0) {
        var j :| 0 <= j < i && o[i].0 in Outgoing(o[j].1);
        assert o[..n][j] == o[j];
      }
    }
  }

  /** A hanging block is joined to the root by a path through the same blocks. */
  lemma {:induction false} HangsReaches(o: seq<Inline>, root: Option<Id>, i: nat)
    requires Hangs(o, root) && DistinctIds(o) && i < |o|
    ensures root.Some? && Reaches(GraphOf(o), root.value, o[i].0)
    decreases i
  {
    GraphHas(o, i);
    assert LinkedEarlier(o, root, i);
    if root == Some(o[i].0) {
      ReachesSelf(GraphOf(o), o[i].0);
    } else {
      var j :| 0 <= j < i && o[i].0 in Outgoing(o[j].1);
      HangsReaches(o, root, j);
      GraphHas(o, j);
      ReachesLink(GraphOf(o), root.value, o[j].0, o[i].0);
    }
  }

  lemma {:induction false} GraphHas(o: seq<Inline>, i: nat)
    requires DistinctIds(o) && i < |o|
    ensures o[i].0 in GraphOf(o) && GraphOf(o)[o[i].0] == o[i].1
  {
    if i < |o| - 1 {
      GraphHas(o[..|o| - 1], i);
    }
  }

  lemma {:induction false} GraphFrom(o: seq<Inline>, c: Id)
    requires c in GraphOf(o)
    ensures (c, GraphOf(o)[c]) in o
  {
    if o[|o| - 1].0 != c {
      GraphFrom(o[..|o| - 1], c);
    }
  }

  // ---- from_root_first ------------------------------------------------------------------

  /** `ordered` and `left` split the blocks of `g` between them. */
  ghost predicate Splits(g: Buffer, ordered: seq<Inline>, left: Buffer) {
    && DistinctIds(ordered)
    && (forall e :: e in ordered ==> e.0 in g && g[e.0] == e.1 && e.0 !in left)
    && (forall c :: c in left ==> c in g && g[c] == left[c])
    && (forall c :: c in g && c !in left ==> (c, g[c]) in ordered)
  }

  /** The queue of the breadth-first walk: what it holds hangs off what is ordered,
      and nothing still to be ordered that it should hold is missing. */
  ghost predicate Walking(ordered: seq<Inline>, left: Buffer, root: Option<Id>, queue: seq<Id>) {
    && (forall q :: q in queue ==> root == Some(q) || exists j :: 0 <= j < |ordered| && q in Outgoing(ordered[j].1))
    && (root.Some? && root.value in left ==> root.value in queue)
    && (forall j, l :: 0 <= j < |ordered| && l in Outgoing(ordered[j].1) && l in left ==> l in queue)
  }

  /** `from_root_first`: the blocks in breadth-first order from the root, then those the
      root does not reach. */
  method FromRootFirst(blocks: seq<Inline>, root: Option<Id>) returns (ordered: seq<Inline>, ghost n: nat)
    ensures Splits(GraphOf(blocks), ordered, map[])
    ensures n <= |ordered| && Hangs(ordered[..n], root)
    ensures forall i :: n <= i < |ordered| ==> root.Some? ==> !Reaches(GraphOf(blocks), root.value, ordered[i].0)
  {
    hide GraphOf, Splits, Hangs, Reaches;
    var left;
    ordered, left := BreadthFirst(GraphOf(blocks), root);
    ghost var top := ordered;
    n := |ordered|;
    ordered := AppendLeft(ordered, left, GraphOf(blocks));
    assert ordered[..n] == top;
  }

  /** The walk itself. Each pass takes a block or shortens the queue. */
  method BreadthFirst(g: Buffer, root: Option<Id>) returns (ordered: seq<Inline>, left: Buffer)
    ensures Splits(g, ordered, left) && Hangs(ordered, root)
    ensures forall c :: c in left ==> root.Some? ==> !Reaches(g, root.value, c)
  {
    left, ordered := g, [];
    var queue := if root.Some? then [root.value] else [];
    while queue != []
      invariant Splits(g, ordered, left) && Walking(ordered, left, root, queue) && Hangs(ordered, root)
      decreases |left.Keys|, |queue|
    {
      hide Splits, Walking, Hangs, Outgoing;
      var next, rest := queue[0], queue[1..];
      assert queue == [next] + rest;
      if next !in left {
        SkipQueued(ordered, left, root, next, rest);
        queue := rest;
      } else {
        var block := left[next];
        VisitQueued(g, ordered, left, root, next, rest);
        assert left.Keys == (left - {next}).Keys + {next};
        left := left - {next};
        queue := rest + Outgoing(block);
        ordered := ordered + [(next, block)];
      }
    }
    hide Splits, Walking, Hangs, Reaches;
    forall c | c in left ensures root.Some? ==> !Reaches(g, root.value, c) {
      LeftUnreached(g, ordered, left, root, c);
    }
  }

  /** `ordered.extend(by_hash.into_values())`, in whatever order the map has. */
  method AppendLeft(top: seq<Inline>, left0: Buffer, ghost g: Buffer) returns (ordered: seq<Inline>)
    requires Splits(g, top, left0)
    ensures Splits(g, ordered, map[]) && top <= ordered
    ensures forall i :: |top| <= i < |ordered| ==> ordered[i].0 in left0
  {
    hide Splits;
    ordered := top;
    var left := left0;
    while left.Keys != {}
      invariant Splits(g, ordered, left) && top <= ordered && left.Keys <= left0.Keys
      invariant forall i :: |top| <= i < |ordered| ==> ordered[i].0 in left0
      decreases |left.Keys|
    {
      var c :| c in left.Keys;
      MoveLeft(g, ordered, left, c);
      assert left.Keys == (left - {c}).Keys + {c};
      ordered := ordered + [(c, left[c])];
      left := left - {c};
    }
    assert left == map[];
  }

  lemma MoveLeft(g: Buffer, ordered: seq<Inline>, left: Buffer, c: Id)
    requires Splits(g, ordered, left) && c in left
    ensures Splits(g, ordered + [(c, left[c])], left - {c})
  {
    var o := ordered + [(c, left[c])];
    forall i, j | 0 <= i < j < |o| ensures o[i].0 != o[j].0 {
      assert o[i] == ordered[i] && ordered[i] in ordered;
    }
  }

  lemma SkipQueued(ordered: seq<Inline>, left: Buffer, root: Option<Id>, next: Id, rest: seq<Id>)
    requires Walking(ordered, left, root, [next] + rest) && next !in left
    ensures Walking(ordered, left, root, rest)
  {
    hide Outgoing;
    assert forall q :: q in [next] + rest <==> q == next || q in rest;
  }

  lemma VisitQueued(g: Buffer, ordered: seq<Inline>, left: Buffer, root: Option<Id>, next: Id, rest: seq<Id>)
    requires Splits(g, ordered, left) && Walking(ordered, left, root, [next] + rest) && Hangs(ordered, root) && next in left
    ensures var o := ordered + [(next, left[next])];
      Splits(g, o, left - {next}) && Walking(o, left - {next}, root, rest + Outgoing(left[next])) && Hangs(o, root)
  {
    MoveLeft(g, ordered, left, next);
    VisitWalk(ordered, left, root, next, rest);
    hide Splits, Walking, Outgoing;
    assert next in [next] + rest;
    VisitHangs(ordered, left, root, next, rest);
  }

  lemma VisitHangs(ordered: seq<Inline>, left: Buffer, root: Option<Id>, next: Id, rest: seq<Id>)
    requires Walking(ordered, left, root, [next] + rest) && Hangs(ordered, root) && next in left
    ensures Hangs(ordered + [(next, left[next])], root)
  {
    hide Outgoing;
    var o := ordered + [(next, left[next])];
    assert next in [next] + rest;
    forall i | 0 <= i < |o| ensures LinkedEarlier(o, root, i) {
      if i < |ordered| {
        assert LinkedEarlier(ordered, root, i);
        if root != Some(o[i].0) {
          var j :| 0 <= j < i && ordered[i].0 in Outgoing(ordered[j].1);
          assert o[j] == ordered[j];
        }
      } else if root != Some(next) {
        var j :| 0 <= j < |ordered| && next in Outgoing(ordered[j].1);
        assert o[j] == ordered[j];
      }
    }
  }

  lemma VisitWalk(ordered: seq<Inline>, left: Buffer, root: Option<Id>, next: Id, rest: seq<Id>)
    requires Walking(ordered, left, root, [next] + rest) && next in left
    ensures Walking(ordered + [(next, left[next])], left - {next}, root, rest + Outgoing(left[next]))
  {
    hide Outgoing;
    var o, links := ordered + [(next, left[next])], Outgoing(left[next]);
    var queue := rest + links;
    assert forall q :: q in [next] + rest <==> q == next || q in rest;
    assert forall q :: q in queue <==> q in rest || q in links;
    forall q | q in queue ensures root == Some(q) || exists j :: 0 <= j < |o| && q in Outgoing(o[j].1) {
      if q in links {
        assert o[|ordered|] == (next, left[next]);
      } else if root != Some(q) {
        var j :| 0 <= j < |ordered| && q in Outgoing(ordered[j].1);
        assert o[j] == ordered[j];
      }
    }
  }

  /** When the queue is empty the ordered blocks are closed under links, so the root
      reaches none of the others. */
  lemma LeftUnreached(g: Buffer, ordered: seq<Inline>, left: Buffer, root: Option<Id>, c: Id)
    requires Splits(g, ordered, left) && Walking(ordered, left, root, []) && c in left
    ensures root.Some? ==> !Reaches(g, root.value, c)
  {
    if root.Some? && Reaches(g, root.value, c) {
      var p :| PathTo(g, p, root.value, c);
      var done := g.Keys - left.Keys;
      forall x, l | x in done && l in Outgoing(g[x]) && l in g ensures l in done {
        assert (x, g[x]) in ordered;
        var j :| 0 <= j < |ordered| && ordered[j] == (x, g[x]);
      }
      ClosedHoldsPath(g, done, p, |p| - 1);
    }
  }

  lemma OrderedReached(g: Buffer, ordered: seq<Inline>, root: Id, i: nat)
    requires Splits(g, ordered, map[]) && i < |ordered| && forall c :: c in g ==> Reaches(g, root, c)
    ensures Reaches(g, root, ordered[i].0)
  {
    assert ordered[i] in ordered;
  }

  /** If the root reaches every block, the whole order hangs off it. */
  lemma AllReachedHangs(g: Buffer, ordered: seq<Inline>, root: Option<Id>, n: nat)
    requires Splits(g, ordered, map[]) && n <= |ordered| && Hangs(ordered[..n], root)
    requires forall i :: n <= i < |ordered| ==> root.Some? ==> !Reaches(g, root.value, ordered[i].0)
    requires root.Some? && forall c :: c in g ==> Reaches(g, root.value, c)
    ensures Hangs(ordered, root)
  {
    if n < |ordered| { OrderedReached(g, ordered, root.value, n); }
    assert ordered[..|ordered|] == ordered;
  }

  // ---- split -----------------------------------------------------------------------------

  const MAX_BULK_INLINE := 2 * 1024 * 1024 - 64 * 1024
  const MAX_BULK_COMMIT_BLOCKS := 1000

  /** The part of a bulk commit for one writer. */
  datatype WriterCommit = WriterCommit(
    writer: KeyHash, cbor: seq<Inline>, raw: seq<Inline>, preWritten: seq<Id>, pointer: Option<Id>, blockListSigned: bool)

  function SizeOf(b: Inline): nat { |b.1.data| }

  function ByteSize(bs: seq<Inline>): nat {
    if bs == [] then 0 else ByteSize(bs[..|bs| - 1]) + SizeOf(bs[|bs| - 1])
  }

  function Cbor(bs: seq<Inline>): seq<Inline> {
    if bs == [] then [] else Cbor(bs[..|bs| - 1]) + if bs[|bs| - 1].1.isRaw then [] else [bs[|bs| - 1]]
  }

  function Raw(bs: seq<Inline>): seq<Inline> {
    if bs == [] then [] else Raw(bs[..|bs| - 1]) + if bs[|bs| - 1].1.isRaw then [bs[|bs| - 1]] else []
  }

  lemma {:induction false} ByteSizeAppend(a: seq<Inline>, b: seq<Inline>)
    ensures ByteSize(a + b) == ByteSize(a) + ByteSize(b)
  {
    if b == [] {
      assert a + b == a;
    } else {
      assert (a + b)[..|a + b| - 1] == a + b[..|b| - 1];
      ByteSizeAppend(a, b[..|b| - 1]);
    }
  }

  lemma Sorted(t: seq<Inline>, b: Inline)
    ensures Cbor(t + [b]) == (if b.1.isRaw then Cbor(t) else Cbor(t) + [b])
    ensures Raw(t + [b]) == (if b.1.isRaw then Raw(t) + [b] else Raw(t))
    ensures ByteSize(t + [b]) == ByteSize(t) + SizeOf(b)
  {
    var bs := t + [b];
    assert bs[..|bs| - 1] == t && bs[|bs| - 1] == b;
    assert Cbor(t) + [] == Cbor(t) && Raw(t) + [] == Raw(t);
  }

  /** Sorting blocks into cbor and raw keeps their number and size. */
  lemma {:induction false} CborAndRaw(bs: seq<Inline>)
    ensures |Cbor(bs)| + |Raw(bs)| == |bs| && ByteSize(Cbor(bs)) + ByteSize(Raw(bs)) == ByteSize(bs)
  {
    if bs != [] {
      var t, b := bs[..|bs| - 1], bs[|bs| - 1];
      assert bs == t + [b];
      CborAndRaw(t);
      Sorted(t, b);
      Sorted(Cbor(t), b);
      Sorted(Raw(t), b);
      hide Cbor, Raw, ByteSize;
    }
  }

  /** Blocks with the writer whose commit they are in. */
  ghost function Tagged(w: KeyHash, bs: seq<Inline>): multiset<(KeyHash, Inline)> {
    if bs == [] then multiset{} else Tagged(w, bs[..|bs| - 1]) + multiset{(w, bs[|bs| - 1])}
  }

  lemma {:induction false} TaggedAppend(w: KeyHash, a: seq<Inline>, b: seq<Inline>)
    ensures Tagged(w, a + b) == Tagged(w, a) + Tagged(w, b)
  {
    if b == [] {
      assert a + b == a;
    } else {
      assert (a + b)[..|a + b| - 1] == a + b[..|b| - 1];
      TaggedAppend(w, a, b[..|b| - 1]);
    }
  }

  lemma TaggedStep(w: KeyHash, t: seq<Inline>, b: Inline)
    ensures Tagged(w, t + [b]) == Tagged(w, t) + multiset{(w, b)}
  {
    var bs := t + [b];
    assert bs[..|bs| - 1] == t && bs[|bs| - 1] == b;
  }

  lemma {:induction false} TaggedCborRaw(w: KeyHash, bs: seq<Inline>)
    ensures Tagged(w, Cbor(bs)) + Tagged(w, Raw(bs)) == Tagged(w, bs)
  {
    if bs != [] {
      var t, b := bs[..|bs| - 1], bs[|bs| - 1];
      assert bs == t + [b];
      TaggedCborRaw(w, t);
      Sorted(t, b);
      TaggedStep(w, t, b);
      TaggedStep(w, Cbor(t), b);
      TaggedStep(w, Raw(t), b);
      hide Cbor, Raw, Tagged;
    }
  }

  /** Every inline block of a run of writer commits, with its writer. */
  ghost function Carried(ws: seq<WriterCommit>): multiset<(KeyHash, Inline)> {
    if ws == [] then multiset{}
    else Carried(ws[..|ws| - 1]) + Tagged(ws[|ws| - 1].writer, ws[|ws| - 1].cbor) + Tagged(ws[|ws| - 1].writer, ws[|ws| - 1].raw)
  }

  /** Every block a call carries is counted. */
  lemma {:induction false} CarriedCount(ws: seq<WriterCommit>)
    ensures |Carried(ws)| == BlockCount(ws)
  {
    if ws != [] {
      var n := |ws| - 1;
      CarriedCount(ws[..n]);
      TaggedCount(ws[n].writer, ws[n].cbor);
      TaggedCount(ws[n].writer, ws[n].raw);
    }
  }

  lemma {:induction false} TaggedCount(w: KeyHash, bs: seq<Inline>)
    ensures |Tagged(w, bs)| == |bs|
  {
    if bs != [] { TaggedCount(w, bs[..|bs| - 1]); }
  }

  ghost function CarriedAll(calls: seq<seq<WriterCommit>>): multiset<(KeyHash, Inline)> {
    if calls == [] then multiset{} else CarriedAll(calls[..|calls| - 1]) + Carried(calls[|calls| - 1])
  }

  /** `inline_size`, `block_count` and `pre_written_count` of a whole commit. */
  ghost function InlineSize(ws: seq<WriterCommit>): nat {
    if ws == [] then 0 else InlineSize(ws[..|ws| - 1]) + ByteSize(ws[|ws| - 1].cbor) + ByteSize(ws[|ws| - 1].raw)
  }

  ghost function BlockCount(ws: seq<WriterCommit>): nat {
    if ws == [] then 0 else BlockCount(ws[..|ws| - 1]) + |ws[|ws| - 1].cbor| + |ws[|ws| - 1].raw|
  }

  function PreWrittenCount(ws: seq<WriterCommit>): nat {
    if ws == [] then 0 else PreWrittenCount(ws[..|ws| - 1]) + |ws[|ws| - 1].preWritten|
  }

  /** The limits a single call must keep: two mebibytes less 64 kibibytes, and 1000 blocks. */
  ghost predicate WithinLimits(ws: seq<WriterCommit>) {
    InlineSize(ws) <= 2_031_616 && BlockCount(ws) + PreWrittenCount(ws) <= 1000
  }

  // ---- the final call: the top of each writer's tree ---------------------------------------

  /** The budget loop over one writer's blocks: a prefix of the order goes in the final
      call, and everything from the first block that does not fit on is put off. */
  method TakeTop(ordered: seq<Inline>, budget: nat, countBudget: nat)
    returns (top: seq<Inline>, rest: seq<Inline>, budget': nat, countBudget': nat)
    ensures top + rest == ordered
    ensures budget' + ByteSize(top) == budget && countBudget' + |top| == countBudget
    ensures rest != [] ==> SizeOf(rest[0]) > budget' || countBudget' == 0
  {
    top, budget', countBudget' := [], budget, countBudget;
    var i := 0;
    while i < |ordered|
      invariant i <= |ordered| && top == ordered[..i]
      invariant budget' + ByteSize(top) == budget && countBudget' + |top| == countBudget
    {
      var b := ordered[i];
      if SizeOf(b) <= budget' && countBudget' > 0 {
        assert ordered[..i + 1][..i] == ordered[..i];
        budget', countBudget' := budget' - SizeOf(b), countBudget' - 1;
        top := top + [b];
        i := i + 1;
      } else {
        break;
      }
    }
    rest := ordered[i..];
  }

  // ---- the calls that go ahead ---------------------------------------------------------------

  ghost predicate SmallBlocks(bs: seq<Inline>) {
    forall b :: b in bs ==> 0 < SizeOf(b) <= MAX_BULK_INLINE
  }

  ghost function Flatten(groups: seq<seq<Inline>>): seq<Inline> {
    if groups == [] then [] else Flatten(groups[..|groups| - 1]) + groups[|groups| - 1]
  }

  ghost predicate GroupFits(g: seq<Inline>) {
    g != [] && |g| <= 1000 && (SmallBlocks(g) ==> 0 < ByteSize(g) <= 2_031_616)
  }

  /** The first block of the next group did not fit the group before it. */
  ghost predicate GroupFull(g: seq<Inline>, next: seq<Inline>) {
    next != [] && (ByteSize(g) + SizeOf(next[0]) > 2_031_616 || |g| >= 1000)
  }

  /** These are the blocks, in groups that fit, no group closed early. */
  ghost predicate Grouped(groups: seq<seq<Inline>>, blocks: seq<Inline>) {
    && Flatten(groups) == blocks && (forall i :: 0 <= i < |groups| ==> GroupFits(groups[i]))
    && (forall i :: 0 < i < |groups| ==> GroupFull(groups[i - 1], groups[i]))
  }

  lemma NewGroup(groups: seq<seq<Inline>>, blocks: seq<Inline>, b: Inline)
    requires Grouped(groups, blocks) && (groups != [] ==> GroupFull(groups[|groups| - 1], [b]))
    ensures Grouped(groups + [[b]], blocks + [b]) && ByteSize([b]) == SizeOf(b)
  {
    OneBlock(b);
    hide GroupFits, GroupFull, ByteSize;
    var more := groups + [[b]];
    assert more[..|more| - 1] == groups;
  }

  lemma LongerGroup(groups: seq<seq<Inline>>, blocks: seq<Inline>, b: Inline)
    requires Grouped(groups, blocks) && groups != []
    requires var g := groups[|groups| - 1]; ByteSize(g) + SizeOf(b) <= MAX_BULK_INLINE && |g| < MAX_BULK_COMMIT_BLOCKS
    ensures var n := |groups| - 1;
      Grouped(groups[n := groups[n] + [b]], blocks + [b]) && ByteSize(groups[n] + [b]) == ByteSize(groups[n]) + SizeOf(b)
  {
    var n := |groups| - 1;
    var g := groups[n];
    MoreBlocks(g, b);
    var more := groups[n := g + [b]];
    if n > 0 { StillFull(groups[n - 1], g, b); }
    hide GroupFits, GroupFull, ByteSize;
    assert more[..n] == groups[..n];
    assert Flatten(more) == Flatten(groups[..n]) + (g + [b]);
    assert Flatten(groups) == Flatten(groups[..n]) + g;
  }

  lemma StillFull(before: seq<Inline>, g: seq<Inline>, b: Inline)
    ensures GroupFull(before, g) ==> GroupFull(before, g + [b])
  {
    hide ByteSize;
  }

  /** One writer's deferred blocks in groups that each fit a call, no group closed early. */
  method GroupBlocks(blocks: seq<Inline>) returns (groups: seq<seq<Inline>>)
    ensures Grouped(groups, blocks)
  {
    hide Grouped, ByteSize;
    groups := [];
    var groupSize := 0;
    NoGroups();
    assert blocks[..0] == [];
    for i := 0 to |blocks|
      invariant Grouped(groups, blocks[..i])
      invariant groups != [] ==> groupSize == ByteSize(groups[|groups| - 1])
    {
      var b := blocks[i];
      assert blocks[..i + 1] == blocks[..i] + [b];
      if groups == [] || groupSize + SizeOf(b) > MAX_BULK_INLINE || |groups[|groups| - 1]| >= MAX_BULK_COMMIT_BLOCKS {
        NewGroup(groups, blocks[..i], b);
        groups := groups + [[b]];
        groupSize := SizeOf(b);
      } else {
        LongerGroup(groups, blocks[..i], b);
        var n := |groups| - 1;
        groups := groups[n := groups[n] + [b]];
        groupSize := groupSize + SizeOf(b);
      }
    }
    assert blocks[..|blocks|] == blocks;
  }

  lemma NoGroups()
    ensures Grouped([], [])
  {}

  lemma OneBlock(b: Inline)
    ensures GroupFits([b]) && ByteSize([b]) == SizeOf(b)
  {
    var one: seq<Inline> := [b];
    assert one[..0] == [] && b in one;
  }

  lemma MoreBlocks(g: seq<Inline>, b: Inline)
    requires GroupFits(g) && ByteSize(g) + SizeOf(b) <= MAX_BULK_INLINE && |g| < MAX_BULK_COMMIT_BLOCKS
    ensures GroupFits(g + [b]) && ByteSize(g + [b]) == ByteSize(g) + SizeOf(b)
  {
    ByteSizeAppend(g, [b]);
    OneBlock(b);
    if SmallBlocks(g + [b]) {
      assert forall x :: x in g ==> x in g + [b];
    }
  }

  // ---- bookkeeping for one more writer commit -------------------------------------------------

  lemma CarriedStep(ws: seq<WriterCommit>, w: WriterCommit)
    ensures Carried(ws + [w]) == Carried(ws) + Tagged(w.writer, w.cbor) + Tagged(w.writer, w.raw)
    ensures InlineSize(ws + [w]) == InlineSize(ws) + ByteSize(w.cbor) + ByteSize(w.raw)
    ensures BlockCount(ws + [w]) == BlockCount(ws) + |w.cbor| + |w.raw|
    ensures PreWrittenCount(ws + [w]) == PreWrittenCount(ws) + |w.preWritten|
  {
    var all := ws + [w];
    assert all[..|all| - 1] == ws && all[|all| - 1] == w;
  }

  lemma CarriedAllStep(calls: seq<seq<WriterCommit>>, call: seq<WriterCommit>)
    ensures CarriedAll(calls + [call]) == CarriedAll(calls) + Carried(call)
  {
    var all := calls + [call];
    assert all[..|all| - 1] == calls && all[|all| - 1] == call;
  }

  /** The writer commit that carries `bs` and nothing else. */
  function CommitOf(writer: KeyHash, bs: seq<Inline>): WriterCommit {
    WriterCommit(writer, Cbor(bs), Raw(bs), [], None, true)
  }

  // ---- the blocks-only calls --------------------------------------------------------------------

  type Deferred = (KeyHash, seq<Inline>)

  ghost function DeferredBlocks(ds: seq<Deferred>): multiset<(KeyHash, Inline)> {
    if ds == [] then multiset{} else DeferredBlocks(ds[..|ds| - 1]) + Tagged(ds[|ds| - 1].0, ds[|ds| - 1].1)
  }

  /** A call that carries blocks only, each list signed, and keeps the limits when its
      blocks are non-empty and none is larger than a whole call. */
  ghost predicate BlocksOnly(call: seq<WriterCommit>, small: bool) {
    && call != []
    && (forall w :: w in call ==> w.pointer == None && w.blockListSigned && w.preWritten == [])
    && (small ==> 0 < InlineSize(call) && WithinLimits(call))
  }

  /** What the next call starts with did not fit the call before it. */
  ghost predicate CallFull(call: seq<WriterCommit>, next: seq<WriterCommit>) {
    && next != []
    && var w := next[0];
    (InlineSize(call) + ByteSize(w.cbor) + ByteSize(w.raw) > 2_031_616 || BlockCount(call) + |w.cbor| + |w.raw| > 1000)
  }

  ghost predicate CallsFull(calls: seq<seq<WriterCommit>>) { forall i :: 0 < i < |calls| ==> CallFull(calls[i - 1], calls[i]) }

  lemma CallsFullNext(calls: seq<seq<WriterCommit>>, next: seq<WriterCommit>)
    requires CallsFull(calls) && (calls != [] ==> CallFull(calls[|calls| - 1], next))
    ensures CallsFull(calls + [next])
  {
    hide CallFull;
  }

  lemma CallsFullLonger(calls: seq<seq<WriterCommit>>, w: WriterCommit)
    requires CallsFull(calls) && calls != [] && calls[|calls| - 1] != []
    ensures CallsFull(calls[..|calls| - 1] + [calls[|calls| - 1] + [w]])
  {
    hide InlineSize, BlockCount, ByteSize;
    var n := |calls| - 1;
    var more := calls[..n] + [calls[n] + [w]];
    forall i | 0 < i < |more| ensures CallFull(more[i - 1], more[i]) {
      assert CallFull(calls[i - 1], calls[i]);
      assert more[i][0] == calls[i][0];
    }
  }

  /** Packs one group into the last call, or into a new one. */
  method PackGroup(calls0: seq<seq<WriterCommit>>, used0: nat, count0: nat, writer: KeyHash, group: seq<Inline>, ghost small: bool)
    returns (calls: seq<seq<WriterCommit>>, used: nat, count: nat)
    requires GroupFits(group) && (small ==> SmallBlocks(group))
    requires forall c :: c in calls0 ==> BlocksOnly(c, small)
    requires calls0 != [] ==> used0 == InlineSize(calls0[|calls0| - 1]) && count0 == BlockCount(calls0[|calls0| - 1])
    ensures calls != [] && used == InlineSize(calls[|calls| - 1]) && count == BlockCount(calls[|calls| - 1])
    ensures forall c :: c in calls ==> BlocksOnly(c, small)
    ensures CarriedAll(calls) == CarriedAll(calls0) + Tagged(writer, group)
    ensures CallsFull(calls0) ==> CallsFull(calls)
  {
    hide Tagged, Carried, CarriedAll, InlineSize, BlockCount, ByteSize, Cbor, Raw, PreWrittenCount, SmallBlocks, CallsFull;
    calls, used, count := calls0, used0, count0;
    var size := ByteSize(group);
    var w := CommitOf(writer, group);
    if calls == [] || (used > 0 && (used + size > MAX_BULK_INLINE || count + |group| > MAX_BULK_COMMIT_BLOCKS)) {
      GroupCall([], w, writer, group, small);
      EmptyCommit();
      CarriedAllStep(calls, [] + [w]);
      CborAndRaw(group);
      if CallsFull(calls) { CallsFullNext(calls, [w]); }
      calls := calls + [[w]];
      assert [] + [w] == [w];
      used, count := size, |group|;
    } else {
      var n := |calls| - 1;
      var last := calls[n];
      assert last in calls;
      GroupCall(last, w, writer, group, small);
      CarriedAllStep(calls[..n], last);
      CarriedAllStep(calls[..n], last + [w]);
      assert calls[..n] + [last] == calls;
      if CallsFull(calls) { CallsFullLonger(calls, w); }
      calls := calls[..n] + [last + [w]];
      used, count := used + size, count + |group|;
    }
  }

  lemma EmptyCommit()
    ensures Carried([]) == multiset{} && InlineSize([]) == 0 && BlockCount([]) == 0 && PreWrittenCount([]) == 0
  {}

  lemma GroupCall(call: seq<WriterCommit>, w: WriterCommit, writer: KeyHash, group: seq<Inline>, small: bool)
    requires w == CommitOf(writer, group) && GroupFits(group) && (small ==> SmallBlocks(group))
    requires call == [] || BlocksOnly(call, small)
    ensures Carried(call + [w]) == Carried(call) + Tagged(writer, group)
    ensures InlineSize(call + [w]) == InlineSize(call) + ByteSize(group) && BlockCount(call + [w]) == BlockCount(call) + |group|
    ensures call == [] || (InlineSize(call) + ByteSize(group) <= MAX_BULK_INLINE && BlockCount(call) + |group| <= MAX_BULK_COMMIT_BLOCKS)
      ==> BlocksOnly(call + [w], small)
    ensures small && call != [] ==> InlineSize(call) > 0
  {
    CarriedStep(call, w);
    CborAndRaw(group);
    TaggedCborRaw(writer, group);
    NoPreWritten(call);
    NoPreWritten(call + [w]);
    EmptyCommit();
    hide Tagged, Carried, InlineSize, BlockCount, ByteSize, Cbor, Raw, SmallBlocks, PreWrittenCount;
    assert forall x :: x in call + [w] <==> x in call || x == w;
  }

  lemma {:induction false} NoPreWritten(call: seq<WriterCommit>)
    ensures (forall w :: w in call ==> w.preWritten == []) ==> PreWrittenCount(call) == 0
  {
    if call != [] && forall w :: w in call ==> w.preWritten == [] {
      assert call[|call| - 1] in call;
      NoPreWritten(call[..|call| - 1]);
    }
  }

  /** The deferred blocks, in calls to be sent ahead of the final one. */
  method BlocksOnlyCalls(deferred: seq<Deferred>, ghost small: bool) returns (calls: seq<seq<WriterCommit>>)
    requires small ==> forall d :: d in deferred ==> SmallBlocks(d.1)
    ensures CarriedAll(calls) == DeferredBlocks(deferred)
    ensures forall c :: c in calls ==> BlocksOnly(c, small)
    ensures CallsFull(calls)
  {
    hide Tagged, Carried, CarriedAll, InlineSize, BlockCount, ByteSize, BlocksOnly, GroupFits, GroupFull, SmallBlocks, Flatten, DeferredBlocks, CallFull;
    calls := [];
    var used, count := 0, 0;
    NothingCarried();
    assert deferred[..0] == [];
    for i := 0 to |deferred|
      invariant CarriedAll(calls) == DeferredBlocks(deferred[..i])
      invariant (forall c :: c in calls ==> BlocksOnly(c, small)) && CallsFull(calls)
      invariant calls != [] ==> used == InlineSize(calls[|calls| - 1]) && count == BlockCount(calls[|calls| - 1])
    {
      var (writer, blocks) := deferred[i];
      assert deferred[i] in deferred;
      var groups := GroupBlocks(blocks);
      assert Flatten(groups) == blocks;
      ghost var before := CarriedAll(calls);
      FlattenNone(writer);
      assert groups[..0] == [];
      for j := 0 to |groups|
        invariant CarriedAll(calls) == before + Tagged(writer, Flatten(groups[..j]))
        invariant (forall c :: c in calls ==> BlocksOnly(c, small)) && CallsFull(calls)
        invariant calls != [] ==> used == InlineSize(calls[|calls| - 1]) && count == BlockCount(calls[|calls| - 1])
      {
        if small { GroupIsSmall(groups, blocks, j); }
        FlattenStep(writer, groups, j);
        calls, used, count := PackGroup(calls, used, count, writer, groups[j], small);
      }
      assert groups[..|groups|] == groups;
      DeferredStep(deferred, i);
    }
    assert deferred[..|deferred|] == deferred;
  }

  lemma NothingCarried()
    ensures CarriedAll([]) == multiset{} && DeferredBlocks([]) == multiset{}
  {}

  lemma FlattenNone(w: KeyHash)
    ensures Tagged(w, Flatten([])) == multiset{}
  {}

  lemma FlattenStep(w: KeyHash, groups: seq<seq<Inline>>, j: nat)
    requires j < |groups|
    ensures Tagged(w, Flatten(groups[..j + 1])) == Tagged(w, Flatten(groups[..j])) + Tagged(w, groups[j])
  {
    assert groups[..j + 1][..j] == groups[..j];
    TaggedAppend(w, Flatten(groups[..j]), groups[j]);
  }

  lemma DeferredStep(ds: seq<Deferred>, i: nat)
    requires i < |ds|
    ensures DeferredBlocks(ds[..i + 1]) == DeferredBlocks(ds[..i]) + Tagged(ds[i].0, ds[i].1)
  {
    assert ds[..i + 1][..i] == ds[..i];
  }

  lemma GroupIsSmall(groups: seq<seq<Inline>>, blocks: seq<Inline>, j: nat)
    requires Flatten(groups) == blocks && j < |groups| && SmallBlocks(blocks)
    ensures SmallBlocks(groups[j])
  {
    forall b | b in groups[j] ensures b in blocks { FlattenHas(groups, j, b); }
  }

  lemma {:induction false} FlattenHas(groups: seq<seq<Inline>>, j: nat, b: Inline)
    requires j < |groups| && b in groups[j]
    ensures b in Flatten(groups)
  {
    var n := |groups| - 1;
    if j < n { FlattenHas(groups[..n], j, b); }
  }

  // ---- the final call ------------------------------------------------------------------------------

  /** A writer's inline blocks, as `split` chains them. */
  function InlineOf(w: WriterCommit): seq<Inline> { w.cbor + w.raw }

  /** As built for a commit: no block twice, and each block in the list of its kind. */
  ghost predicate ValidCommit(w: WriterCommit) {
    DistinctIds(InlineOf(w)) && (forall b :: b in w.cbor ==> !b.1.isRaw) && (forall b :: b in w.raw ==> b.1.isRaw)
  }

  lemma {:induction false} TaggedDistinct(w: KeyHash, bs: seq<Inline>)
    requires DistinctIds(bs)
    ensures Tagged(w, bs) == multiset(set b | b in bs :: (w, b))
  {
    if bs == [] {
      assert (set b | b in bs :: (w, b)) == {};
    } else {
      var n := |bs| - 1;
      var t, b := bs[..n], bs[n];
      TaggedDistinct(w, t);
      assert b !in t;
      assert bs == t + [b];
      assert (set x | x in bs :: (w, x)) == (set x | x in t :: (w, x)) + {(w, b)};
    }
  }

  /** Ordering the blocks from the root first loses none and repeats none. */
  lemma OrderKeepsBlocks(w: KeyHash, bs: seq<Inline>, ordered: seq<Inline>)
    requires DistinctIds(bs) && Splits(GraphOf(bs), ordered, map[])
    ensures Tagged(w, ordered) == Tagged(w, bs)
    ensures forall b :: b in ordered <==> b in bs
  {
    var g := GraphOf(bs);
    forall b ensures b in ordered <==> b in bs {
      if b in bs {
        var i :| 0 <= i < |bs| && bs[i] == b;
        GraphHas(bs, i);
      }
      if b in ordered {
        GraphFrom(bs, b.0);
      }
    }
    TaggedDistinct(w, bs);
    TaggedDistinct(w, ordered);
    assert (set b | b in ordered :: (w, b)) == (set b | b in bs :: (w, b));
  }

  /** Everything the writer sends is reachable from the root it signs, as
      `partition_by_root` arranges. */
  ghost predicate RootReachesAll(w: WriterCommit, root: Option<Id>) {
    var g := GraphOf(InlineOf(w));
    root.Some? && forall c :: c in g ==> Reaches(g, root.value, c)
  }

  /** The final call's share of one writer: `top`, sorted by kind, with the writer's
      pointer and pre-written hashes, hanging off the signed root by itself. */
  ghost predicate FinalShare(w: WriterCommit, last: WriterCommit, top: seq<Inline>, root: Option<Id>) {
    && last == WriterCommit(w.writer, Cbor(top), Raw(top), w.preWritten, w.pointer, false)
    && (forall b :: b in top ==> b in InlineOf(w)) && DistinctIds(top)
    && (RootReachesAll(w, root) ==> Hangs(top, root))
  }

  /** `rest` is what the writer does not send in the final call. */
  ghost predicate PutsOff(w: WriterCommit, top: seq<Inline>, rest: seq<Inline>) {
    DistinctIds(top + rest) && forall b :: b in InlineOf(w) <==> b in top || b in rest
  }

  /** The share ended only where the next block would break a limit of the call so far. */
  ghost predicate ShareFull(taken: seq<WriterCommit>, pre: nat, rest: seq<Inline>) {
    rest != [] ==> InlineSize(taken) + SizeOf(rest[0]) > 2_031_616 || BlockCount(taken) + pre >= 1000
  }

  /** The first writers' shares of the final call, each as large as the limits allow after
      the shares before it. */
  ghost predicate Shares(writers: seq<WriterCommit>, roots: seq<Option<Id>>, last: seq<WriterCommit>, tops: seq<seq<Inline>>, rests: seq<seq<Inline>>)
    requires |roots| == |writers|
  {
    && |last| == |tops| == |rests| <= |writers|
    && (forall i :: 0 <= i < |last| ==> FinalShare(writers[i], last[i], tops[i], roots[i]) && PutsOff(writers[i], tops[i], rests[i]))
    && (forall i :: 0 <= i < |last| ==> ShareFull(last[..i + 1], PreWrittenCount(writers), rests[i]))
  }

  lemma NextShare(writers: seq<WriterCommit>, roots: seq<Option<Id>>, last: seq<WriterCommit>, tops: seq<seq<Inline>>, rests: seq<seq<Inline>>,
                  share: WriterCommit, top: seq<Inline>, rest: seq<Inline>)
    requires |roots| == |writers| && Shares(writers, roots, last, tops, rests) && |last| < |writers|
    requires FinalShare(writers[|last|], share, top, roots[|last|]) && PutsOff(writers[|last|], top, rest)
    requires ShareFull(last + [share], PreWrittenCount(writers), rest)
    ensures Shares(writers, roots, last + [share], tops + [top], rests + [rest])
  {
    hide FinalShare, PutsOff, ShareFull, PreWrittenCount;
    var more := last + [share];
    forall i | 0 <= i < |more| ensures ShareFull(more[..i + 1], PreWrittenCount(writers), (rests + [rest])[i]) {
      if i < |last| {
        assert more[..i + 1] == last[..i + 1];
      } else {
        assert more[..i + 1] == more;
      }
    }
  }

  /** The share of the final call that the budget leaves one writer. */
  method TopOf(w: WriterCommit, root: Option<Id>, budget: nat, countBudget: nat)
    returns (last: WriterCommit, rest: seq<Inline>, budget': nat, countBudget': nat, ghost top: seq<Inline>)
    requires ValidCommit(w)
    ensures FinalShare(w, last, top, root)
    ensures Tagged(w.writer, last.cbor) + Tagged(w.writer, last.raw) + Tagged(w.writer, rest) == Tagged(w.writer, w.cbor) + Tagged(w.writer, w.raw)
    ensures budget' + ByteSize(last.cbor) + ByteSize(last.raw) == budget
    ensures countBudget' + |last.cbor| + |last.raw| == countBudget
    ensures PutsOff(w, top, rest)
    ensures rest != [] ==> SizeOf(rest[0]) > budget' || countBudget' == 0
  {
    hide Tagged, Cbor, Raw, ByteSize, Hangs, Splits, GraphOf, Reaches;
    var ordered;
    ghost var n;
    ordered, n := FromRootFirst(InlineOf(w), root);
    OrderKeepsBlocks(w.writer, InlineOf(w), ordered);
    OrderDistinct(GraphOf(InlineOf(w)), ordered);
    if RootReachesAll(w, root) {
      AllReachedHangs(GraphOf(InlineOf(w)), ordered, root, n);
    }
    var taken;
    taken, rest, budget', countBudget' := TakeTop(ordered, budget, countBudget);
    top := taken;
    TopIsPrefix(w, ordered, top, rest, root);
    last := WriterCommit(w.writer, Cbor(taken), Raw(taken), w.preWritten, w.pointer, false);
    CborAndRaw(top);
    TaggedCborRaw(w.writer, top);
    TaggedAppend(w.writer, top, rest);
    TaggedAppend(w.writer, w.cbor, w.raw);
  }

  lemma OrderDistinct(g: Buffer, ordered: seq<Inline>)
    requires Splits(g, ordered, map[])
    ensures DistinctIds(ordered)
  {}

  lemma TopIsPrefix(w: WriterCommit, ordered: seq<Inline>, top: seq<Inline>, rest: seq<Inline>, root: Option<Id>)
    requires top + rest == ordered && DistinctIds(ordered) && forall b :: b in ordered <==> b in InlineOf(w)
    ensures (forall b :: b in top ==> b in InlineOf(w)) && PutsOff(w, top, rest) && DistinctIds(top)
    ensures Hangs(ordered, root) ==> Hangs(top, root)
  {
    hide Hangs;
    assert ordered[..|top|] == top;
    assert forall b :: b in ordered <==> b in top || b in rest;
    if Hangs(ordered, root) { HangsPrefix(ordered, root, |top|); }
  }

  /** The final call, and what it puts off. */
  method FinalCall(writers: seq<WriterCommit>, roots: seq<Option<Id>>)
    returns (deferred: seq<Deferred>, last: seq<WriterCommit>, ghost tops: seq<seq<Inline>>, ghost rests: seq<seq<Inline>>)
    requires |roots| == |writers| && forall i :: 0 <= i < |writers| ==> ValidCommit(writers[i])
    ensures DeferredBlocks(deferred) + Carried(last) == Carried(writers)
    ensures |last| == |writers| && Shares(writers, roots, last, tops, rests)
    ensures PreWrittenCount(writers) <= MAX_BULK_COMMIT_BLOCKS ==> WithinLimits(last)
    ensures (forall i :: 0 <= i < |writers| ==> SmallBlocks(InlineOf(writers[i]))) ==> forall d :: d in deferred ==> SmallBlocks(d.1)
  {
    hide Tagged, Carried, CarriedAll, InlineSize, BlockCount, ByteSize, PreWrittenCount, SmallBlocks, DeferredBlocks, FinalShare, ValidCommit,
      Shares, PutsOff;
    ghost var small := forall i :: 0 <= i < |writers| ==> SmallBlocks(InlineOf(writers[i]));
    var pre := PreWrittenCount(writers);
    var budget: nat := MAX_BULK_INLINE;
    var countBudget: nat := if pre <= MAX_BULK_COMMIT_BLOCKS then MAX_BULK_COMMIT_BLOCKS - pre else 0;
    ghost var allowed := countBudget;
    deferred, last, tops, rests := [], [], [], [];
    EmptyCommit();
    NothingCarried();
    NoShares(writers, roots);
    assert writers[..0] == [];
    for i := 0 to |writers|
      invariant |last| == i && Shares(writers, roots, last, tops, rests)
      invariant DeferredBlocks(deferred) + Carried(last) == Carried(writers[..i])
      invariant budget + InlineSize(last) == MAX_BULK_INLINE && countBudget + BlockCount(last) == allowed
      invariant PreWrittenCount(last) == PreWrittenCount(writers[..i])
      invariant small ==> forall d :: d in deferred ==> SmallBlocks(d.1)
    {
      var w := writers[i];
      assert writers[..i + 1] == writers[..i] + [w];
      ghost var top;
      var share, rest;
      share, rest, budget, countBudget, top := TopOf(w, roots[i], budget, countBudget);
      ShareFields(w, share, top, roots[i]);
      CarriedStep(writers[..i], w);
      CarriedStep(last, share);
      Conserve(DeferredBlocks(deferred), Carried(last), Carried(writers[..i]), Tagged(w.writer, share.cbor),
               Tagged(w.writer, share.raw), Tagged(w.writer, rest), Tagged(w.writer, w.cbor), Tagged(w.writer, w.raw));
      NextShare(writers, roots, last, tops, rests, share, top, rest);
      if small { RestIsSmall(w, top, rest); }
      last, tops, rests := last + [share], tops + [top], rests + [rest];
      if rest != [] {
        DeferMore(deferred, w.writer, rest);
        deferred := deferred + [(w.writer, rest)];
      } else {
        TaggedNone(w.writer);
      }
    }
    assert writers[..|writers|] == writers;
  }

  lemma NoShares(writers: seq<WriterCommit>, roots: seq<Option<Id>>)
    requires |roots| == |writers|
    ensures Shares(writers, roots, [], [], [])
  {}

  lemma DeferMore(deferred: seq<Deferred>, w: KeyHash, rest: seq<Inline>)
    ensures DeferredBlocks(deferred + [(w, rest)]) == DeferredBlocks(deferred) + Tagged(w, rest)
  {
    var ds := deferred + [(w, rest)];
    assert ds[..|deferred| + 1] == ds && ds[..|deferred|] == deferred;
    DeferredStep(ds, |deferred|);
  }

  /** `split`. Every inline block of the commit is carried exactly once, in a
      blocks-only call or in the final one. The final call keeps the limits, so do the
      others, and what it carries for a writer hangs off the root that writer signs
      through blocks of the same call. No call is closed before it is full. */
  method Split(writers: seq<WriterCommit>, roots: seq<Option<Id>>)
    returns (calls: seq<seq<WriterCommit>>, last: seq<WriterCommit>, ghost tops: seq<seq<Inline>>, ghost rests: seq<seq<Inline>>)
    requires |roots| == |writers| && forall i :: 0 <= i < |writers| ==> ValidCommit(writers[i])
    ensures CarriedAll(calls) + Carried(last) == Carried(writers)
    ensures |last| == |writers| && Shares(writers, roots, last, tops, rests)
    ensures PreWrittenCount(writers) <= MAX_BULK_COMMIT_BLOCKS ==> WithinLimits(last)
    ensures var small := forall i :: 0 <= i < |writers| ==> SmallBlocks(InlineOf(writers[i]));
      forall c :: c in calls ==> BlocksOnly(c, small)
    ensures CallsFull(calls)
  {
    hide Carried, CarriedAll, BlocksOnly, SmallBlocks, DeferredBlocks, ValidCommit, CallsFull, Shares, WithinLimits, PreWrittenCount;
    var deferred;
    deferred, last, tops, rests := FinalCall(writers, roots);
    calls := BlocksOnlyCalls(deferred, forall i :: 0 <= i < |writers| ==> SmallBlocks(InlineOf(writers[i])));
  }

  lemma Conserve<T>(deferred: multiset<T>, last: multiset<T>, all: multiset<T>, a: multiset<T>, b: multiset<T>, rest: multiset<T>,
                    c: multiset<T>, d: multiset<T>)
    requires deferred + last == all && a + b + rest == c + d
    ensures deferred + rest + (last + a + b) == all + c + d
  {
    assert deferred + rest + (last + a + b) == (deferred + last) + (a + b + rest);
    assert all + (c + d) == all + c + d;
  }

  lemma ShareFields(w: WriterCommit, last: WriterCommit, top: seq<Inline>, root: Option<Id>)
    requires FinalShare(w, last, top, root)
    ensures last.writer == w.writer && last.preWritten == w.preWritten && last.pointer == w.pointer
  {}

  lemma TaggedNone(w: KeyHash)
    ensures Tagged(w, []) == multiset{}
  {}

  lemma RestIsSmall(w: WriterCommit, top: seq<Inline>, rest: seq<Inline>)
    requires SmallBlocks(InlineOf(w)) && PutsOff(w, top, rest)
    ensures SmallBlocks(rest)
  {}
}
