/** `flush`: every owner's blocks and pointers, by bulk commit, split bulk commit, or the
    older endpoints with a merge on conflict. The server answers as it likes. */
module FlushProtocol {
  import opened Bytes
  import opened BlockGraph
  import opened BulkSplit
  import opened PointerBuffer
  import opened BulkCommits

  const MAX_CBOR_BATCH_SIZE := 1024 * 1024
  const MAX_CBOR_BLOCKS_PER_BATCH := 1000

  // ---- commit_blocks ------------------------------------------------------------------------------

  datatype Kind = CborKind | SmallRaw | LargeRaw

  function KindOf(b: BufferedBlock): Kind {
    if !b.isRaw then CborKind else if |b.data| < MAX_SMALL_BLOCK_SIZE then SmallRaw else LargeRaw
  }

  ghost predicate OfKind(b: BufferedBlock, kind: Kind) {
    match kind
    case CborKind => !b.isRaw
    case SmallRaw => b.isRaw && |b.data| < 102_400
    case LargeRaw => b.isRaw && |b.data| >= 102_400
  }

  ghost predicate Alike(bs: seq<Inline>, writer: KeyHash, kind: Kind) {
    forall b :: b in bs ==> b.1.writer == writer && OfKind(b.1, kind)
  }

  /** One upload: one writer's blocks of one kind, within that kind's limits. */
  ghost predicate BatchFits(bs: seq<Inline>, kind: Kind) {
    && bs != []
    && if kind == CborKind then |bs| <= 1000 && (|bs| == 1 || ByteSize(bs) <= 1_048_576)
       else |bs| <= 50
  }

  ghost predicate Uniform(bs: seq<Inline>) {
    exists writer, kind :: Alike(bs, writer, kind) && BatchFits(bs, kind)
  }

  ghost predicate AllFit(batches: seq<seq<Inline>>, kind: Kind) {
    forall i :: 0 <= i < |batches| ==> BatchFits(batches[i], kind)
  }

  lemma FlattenAdd(batches: seq<seq<Inline>>, last: seq<Inline>)
    ensures Flatten(batches + [last]) == Flatten(batches) + last
  {
    var all := batches + [last];
    assert all[..|all| - 1] == batches;
  }

  lemma ByteSizeStep(bs: seq<Inline>, b: Inline)
    ensures ByteSize(bs + [b]) == ByteSize(bs) + SizeOf(b)
  {
    assert (bs + [b])[..|bs|] == bs;
  }

  /** The first block of the next batch did not fit the batch before it. */
  ghost predicate BatchFull(bs: seq<Inline>, next: seq<Inline>) {
    next != [] && (ByteSize(bs) + SizeOf(next[0]) > 1_048_576 || |bs| >= 1000)
  }

  ghost predicate Batched(batches: seq<seq<Inline>>, items: seq<Inline>) {
    && Flatten(batches) == items && AllFit(batches, CborKind)
    && (forall i :: 0 < i < |batches| ==> BatchFull(batches[i - 1], batches[i]))
  }

  /** The open batch: what it holds fits, and the batch closed before it was full. */
  ghost predicate Open(batches: seq<seq<Inline>>, batch: seq<Inline>) {
    && (batch != [] ==> BatchFits(batch, CborKind))
    && (batches != [] ==> batch != [] && BatchFull(batches[|batches| - 1], batch))
  }

  lemma CloseBatch(batches: seq<seq<Inline>>, done: seq<Inline>, batch: seq<Inline>)
    requires Batched(batches, done) && Open(batches, batch) && batch != []
    ensures Batched(batches + [batch], done + batch)
  {
    hide Flatten, BatchFits, BatchFull;
    FlattenAdd(batches, batch);
  }

  lemma AddToBatch(batches: seq<seq<Inline>>, batch: seq<Inline>, b: Inline)
    requires Open(batches, batch) && batch != []
    requires ByteSize(batch) + SizeOf(b) <= MAX_CBOR_BATCH_SIZE && |batch| < MAX_CBOR_BLOCKS_PER_BATCH
    ensures Open(batches, batch + [b])
  {
    hide ByteSize;
    ByteSizeStep(batch, b);
    assert (batch + [b])[0] == batch[0];
  }

  lemma StartBatch(batches: seq<seq<Inline>>, b: Inline)
    requires batches != [] ==> BatchFull(batches[|batches| - 1], [b])
    ensures Open(batches, [b]) && ByteSize([b]) == SizeOf(b)
  {
    NoBatches();
    ByteSizeStep([], b);
    assert [] + [b] == [b];
  }

  /** Cbor blocks in order, a batch closed when the next block would not fit. */
  method CborBatches(items: seq<Inline>) returns (batches: seq<seq<Inline>>)
    ensures Batched(batches, items)
  {
    hide Batched, Open, ByteSize, BatchFull;
    batches := [];
    var batch, size := [], 0;
    NothingBatched();
    ghost var done := [];
    for i := 0 to |items|
      invariant done + batch == items[..i] && Batched(batches, done) && Open(batches, batch)
      invariant size == ByteSize(batch) && (batch == [] ==> batches == [])
    {
      var b := items[i];
      if batch != [] && (size + SizeOf(b) > MAX_CBOR_BATCH_SIZE || |batch| >= MAX_CBOR_BLOCKS_PER_BATCH) {
        CloseBatch(batches, done, batch);
        JustClosed(batches, batch, b);
        done := done + batch;
        batches, batch, size := batches + [batch], [], 0;
      }
      if batch == [] {
        StartBatch(batches, b);
        assert batch + [b] == [b];
      } else {
        AddToBatch(batches, batch, b);
        ByteSizeStep(batch, b);
      }
      assert done + batch == items[..i];
      batch, size := batch + [b], size + SizeOf(b);
    }
    if batch != [] {
      CloseBatch(batches, done, batch);
      batches := batches + [batch];
      done := done + batch;
    }
    assert done == items;
  }

  lemma JustClosed(batches: seq<seq<Inline>>, batch: seq<Inline>, b: Inline)
    requires ByteSize(batch) + SizeOf(b) > MAX_CBOR_BATCH_SIZE || |batch| >= MAX_CBOR_BLOCKS_PER_BATCH
    ensures BatchFull((batches + [batch])[|batches|], [b])
  {}

  lemma NothingBatched()
    ensures Batched([], []) && Open([], []) && ByteSize([]) == 0
  {
    NoBatches();
  }

  lemma NoBatches()
    ensures Flatten([]) == [] && ByteSize([]) == 0
  {}

  /** Raw blocks in order, a batch closed when it is full. */
  method RawBatches(items: seq<Inline>, ghost kind: Kind) returns (batches: seq<seq<Inline>>)
    requires kind != CborKind
    ensures Flatten(batches) == items && AllFit(batches, kind)
    ensures forall i :: 0 <= i < |batches| - 1 ==> |batches[i]| == 50
  {
    hide Flatten, ByteSize;
    batches := [];
    var batch := [];
    NoBatches();
    for i := 0 to |items|
      invariant Flatten(batches) + batch == items[..i] && AllFit(batches, kind) && |batch| < MAX_BLOCK_AUTHS
      invariant forall i :: 0 <= i < |batches| ==> |batches[i]| == MAX_BLOCK_AUTHS
    {
      batch := batch + [items[i]];
      if |batch| >= MAX_BLOCK_AUTHS {
        FlattenAdd(batches, batch);
        batches, batch := batches + [batch], [];
      }
    }
    if batch != [] {
      FlattenAdd(batches, batch);
      batches := batches + [batch];
    }
  }

  /** The blocks `ids` of the buffer, each once, in whatever order the map has. */
  method ListBlocks(buf: Buffer, ids: set<Id>) returns (items: seq<Inline>)
    requires ids <= buf.Keys
    ensures DistinctIds(items)
    ensures forall b: Inline :: b in items <==> b.0 in ids && b.1 == buf[b.0]
  {
    items := [];
    var todo := ids;
    while todo != {}
      invariant todo <= ids && DistinctIds(items)
      invariant forall b: Inline :: b in items <==> b.0 in ids && b.0 !in todo && b.1 == buf[b.0]
    {
      var c :| c in todo;
      AddDistinct(items, [], (c, buf[c]));
      items := items + [(c, buf[c])];
      todo := todo - {c};
    }
  }

  /** The uploads of `commit_blocks`: every block kept goes up exactly once, in a batch
      of its own writer and kind that keeps that kind's limits. */
  method Batches(buf: Buffer, keep: set<Id>) returns (batches: seq<seq<Inline>>)
    requires keep <= buf.Keys
    ensures DistinctIds(Flatten(batches))
    ensures forall b: Inline :: b in Flatten(batches) <==> b.0 in keep && b.1 == buf[b.0]
    ensures forall i :: 0 <= i < |batches| ==> Uniform(batches[i])
  {
    hide Flatten, DistinctIds, Alike, BatchFits, Uniform;
    batches := [];
    NoBatches();
    NoneDistinct();
    var todo := keep;
    while todo != {}
      invariant todo <= keep && DistinctIds(Flatten(batches))
      invariant forall b: Inline :: b in Flatten(batches) <==> b.0 in keep && b.0 !in todo && b.1 == buf[b.0]
      invariant forall i :: 0 <= i < |batches| ==> Uniform(batches[i])
      decreases todo
    {
      var c :| c in todo;
      var writer, kind := buf[c].writer, KindOf(buf[c]);
      var same := set x | x in todo && buf[x].writer == writer && KindOf(buf[x]) == kind;
      assert c in same;
      var items := ListBlocks(buf, same);
      var more;
      if kind == CborKind {
        more := CborBatches(items);
      } else {
        more := RawBatches(items, kind);
      }
      ItemsAlike(items, writer, kind);
      MoreBatches(more, writer, kind);
      FlattenAppend(batches, more);
      AppendDistinct(Flatten(batches), items);
      batches := batches + more;
      todo := todo - same;
    }
  }

  lemma NoneDistinct()
    ensures DistinctIds([])
  {}

  lemma ItemsAlike(items: seq<Inline>, writer: KeyHash, kind: Kind)
    requires forall b :: b in items ==> b.1.writer == writer && KindOf(b.1) == kind
    ensures Alike(items, writer, kind)
  {}

  lemma {:induction false} MoreBatches(more: seq<seq<Inline>>, writer: KeyHash, kind: Kind)
    requires Alike(Flatten(more), writer, kind) && AllFit(more, kind)
    ensures forall i :: 0 <= i < |more| ==> Uniform(more[i])
  {
    hide BatchFits;
    if more != [] {
      var n := |more| - 1;
      MoreBatches(more[..n], writer, kind);
      assert Alike(more[n], writer, kind);
      forall i | 0 <= i < |more| ensures Uniform(more[i]) {
        if i < n { assert more[i] == more[..n][i]; }
      }
    }
  }

  lemma {:induction false} FlattenAppend(a: seq<seq<Inline>>, b: seq<seq<Inline>>)
    ensures Flatten(a + b) == Flatten(a) + Flatten(b)
  {
    if b == [] {
      assert a + b == a;
    } else {
      var n := |b| - 1;
      assert a + b == (a + b[..n]) + [b[n]] && b == b[..n] + [b[n]];
      FlattenAppend(a, b[..n]);
      FlattenAdd(a + b[..n], b[n]);
      FlattenAdd(b[..n], b[n]);
    }
  }

  lemma AppendDistinct(a: seq<Inline>, b: seq<Inline>)
    requires DistinctIds(a) && DistinctIds(b) && forall x, y :: x in a && y in b ==> x.0 != y.0
    ensures DistinctIds(a + b)
  {
    var all := a + b;
    forall i, j | 0 <= i < j < |all| ensures all[i].0 != all[j].0 {
      if i < |a| && j >= |a| {
        assert all[i] in a && all[j] in b;
      }
    }
  }

  lemma {:induction false} InSomeBatch(batches: seq<seq<Inline>>, b: Inline) returns (i: nat)
    requires b in Flatten(batches)
    ensures i < |batches| && b in batches[i]
  {
    var n := |batches| - 1;
    if b in batches[n] {
      i := n;
    } else {
      i := InSomeBatch(batches[..n], b);
    }
  }

  /** Exactly the owner's blocks that the roots lead to are out of the buffer, and on the server. */
  ghost predicate Moved(before: Buffer, owner: KeyHash, roots: seq<Id>, after: Buffer, blocks: set<Stored>) {
    && after.Keys <= before.Keys
    && forall c :: c in before ==>
      if ReachedFrom(before, roots, c) && before[c].owner == owner then c !in after && (owner, c) in blocks
      else c in after && after[c] == before[c]
  }

  /** `BufferedStorage`: the blocks not yet on the server, and the owners whose server
      does not know the bulk call. */
  class BlockBuffer {
    var buffer: Buffer
    var bulkUnsupported: set<KeyHash>

    constructor ()
      ensures buffer == map[] && bulkUnsupported == {}
    {
      buffer, bulkUnsupported := map[], {};
    }

    method Clear()
      modifies this`buffer
      ensures buffer == map[]
    {
      buffer := map[];
    }

    /** `commit_blocks` */
    method CommitBlocks(server: Server, owner: KeyHash, roots: seq<Id>) returns (ok: bool)
      modifies server`blocks, server`answers, this`buffer
      ensures old(server.blocks) <= server.blocks && Ended(old(server.answers), server.answers, ok)
      ensures forall i :: |old(server.answers)| <= i < |server.answers| ==> UploadOf(server.answers[i], owner)
      ensures if ok then Moved(old(buffer), owner, roots, buffer, server.blocks) else buffer == old(buffer)
      ensures ok ==> forall c :: c in old(buffer) && ReachedFrom(old(buffer), roots, c) && old(buffer)[c].owner == owner ==>
        UploadedSince(owner, c, old(server.answers), server.answers)
      ensures forall i :: |old(server.answers)| <= i < |server.answers| ==> UploadedBatch(server.answers[i], old(buffer), owner, roots)
    {
      hide ReachedFrom, DistinctIds, Flatten, Uniform, Ended, UploadOf, UploadedSince, UploadHas;
      var reached := Reachable(buffer, roots);
      var keep := set c | c in reached && buffer[c].owner == owner;
      var batches := Batches(buffer, keep);
      ok := UploadBatches(server, owner, batches);
      forall i | |old(server.answers)| <= i < |server.answers| ensures UploadedBatch(server.answers[i], buffer, owner, roots) {
        var k := i - |old(server.answers)|;
        forall b | b in batches[k] ensures b in Flatten(batches) { FlattenHas(batches, k, b); }
        assert BatchOf(server.answers[i], buffer, owner, roots, batches[k]);
      }
      if !ok {
        return;
      }
      forall c | c in keep ensures (owner, c) in server.blocks && UploadedSince(owner, c, old(server.answers), server.answers) {
        assert (c, buffer[c]) in Flatten(batches);
        var i := InSomeBatch(batches, (c, buffer[c]));
      }
      buffer := map c | c in buffer && c !in keep :: buffer[c];
    }
  }

  ghost predicate UploadHas(a: Answer, batch: seq<Inline>) { a.Uploaded? && a.ids == IdsOf(batch) }

  /** One upload of commit_blocks: a uniform batch of the owner's blocks the roots lead to. */
  ghost predicate BatchOf(a: Answer, buf: Buffer, owner: KeyHash, roots: seq<Id>, batch: seq<Inline>) {
    UploadHas(a, batch) && Uniform(batch) && forall b :: b in batch ==> b.0 in buf && b.1 == buf[b.0] && b.1.owner == owner && ReachedFrom(buf, roots, b.0)
  }

  ghost predicate UploadedBatch(a: Answer, buf: Buffer, owner: KeyHash, roots: seq<Id>) {
    exists batch :: BatchOf(a, buf, owner, roots, batch)
  }

  ghost predicate UploadOf(a: Answer, owner: KeyHash) { a.Uploaded? && a.stage == Steps && a.owner == owner }

  /** An upload since then that the server took had this block. */
  ghost predicate UploadedSince(owner: KeyHash, c: Id, before: seq<Answer>, answers: seq<Answer>) {
    exists i :: |before| <= i < |answers| && UploadOf(answers[i], owner) && answers[i].outcome == Done && c in answers[i].ids
  }

  lemma UploadedSooner(owner: KeyHash, c: Id, before: seq<Answer>, mid: seq<Answer>, answers: seq<Answer>)
    requires UploadedSince(owner, c, mid, answers) && |before| <= |mid|
    ensures UploadedSince(owner, c, before, answers)
  {}

  lemma UploadedStill(owner: KeyHash, c: Id, before: seq<Answer>, mid: seq<Answer>, answers: seq<Answer>)
    requires mid <= answers
    ensures UploadedSince(owner, c, before, mid) ==> UploadedSince(owner, c, before, answers)
  {
    if UploadedSince(owner, c, before, mid) {
      var i :| |before| <= i < |mid| && UploadOf(mid[i], owner) && mid[i].outcome == Done && c in mid[i].ids;
      assert answers[i] == mid[i];
    }
  }

  /** The batches, one after another, up to the first that fails. */
  method UploadBatches(server: Server, owner: KeyHash, batches: seq<seq<Inline>>) returns (ok: bool)
    modifies server`blocks, server`answers
    ensures old(server.blocks) <= server.blocks && Ended(old(server.answers), server.answers, ok)
    ensures old(server.answers) <= server.answers && |server.answers| <= |old(server.answers)| + |batches|
    ensures forall i :: |old(server.answers)| <= i < |server.answers| ==> UploadHas(server.answers[i], batches[i - |old(server.answers)|])
    ensures forall i :: |old(server.answers)| <= i < |server.answers| ==> UploadOf(server.answers[i], owner)
    ensures ok ==> forall k, b: Inline :: 0 <= k < |batches| && b in batches[k] ==>
      (owner, b.0) in server.blocks && UploadedSince(owner, b.0, old(server.answers), server.answers)
  {
    hide Ended, UploadedSince;
    EndedNow(server.answers, Transacted(Steps, owner, Done));
    for i := 0 to |batches|
      invariant old(server.blocks) <= server.blocks && Ended(old(server.answers), server.answers, true) && old(server.answers) <= server.answers
      invariant |server.answers| == |old(server.answers)| + i
      invariant forall i :: |old(server.answers)| <= i < |server.answers| ==> UploadHas(server.answers[i], batches[i - |old(server.answers)|])
      invariant forall i :: |old(server.answers)| <= i < |server.answers| ==> UploadOf(server.answers[i], owner)
      invariant forall k, b: Inline :: 0 <= k < i && b in batches[k] ==>
        (owner, b.0) in server.blocks && UploadedSince(owner, b.0, old(server.answers), server.answers)
    {
      ghost var answers := server.answers;
      var r := server.PutBlocks(Steps, owner, IdsOf(batches[i]));
      EndedNow(answers, Uploaded(Steps, owner, IdsOf(batches[i]), r));
      EndedOn(old(server.answers), answers, server.answers, r == Done);
      if r != Done {
        return false;
      }
      forall k, b: Inline | 0 <= k <= i && b in batches[k]
        ensures (owner, b.0) in server.blocks && UploadedSince(owner, b.0, old(server.answers), server.answers)
      {
        if k == i {
          assert (owner, b.0) in InOwner(owner, IdsOf(batches[i]));
          UploadedNow(owner, b.0, old(server.answers), answers, IdsOf(batches[i]));
        } else {
          UploadedStill(owner, b.0, old(server.answers), answers, server.answers);
        }
      }
    }
    ok := true;
  }

  lemma UploadedNow(owner: KeyHash, c: Id, before: seq<Answer>, mid: seq<Answer>, ids: set<Id>)
    requires |before| <= |mid| && c in ids
    ensures UploadedSince(owner, c, before, mid + [Uploaded(Steps, owner, ids, Done)])
  {
    assert (mid + [Uploaded(Steps, owner, ids, Done)])[|mid|] == Uploaded(Steps, owner, ids, Done);
  }

  // ---- commit_pointers ------------------------------------------------------------------------------

  /** Everything buffered at the start that the root leads to is on the server. */
  ghost predicate Whole(start: Buffer, owner: KeyHash, root: Option<Id>, blocks: set<Stored>) {
    root.Some? ==> forall c: Id :: Reaches(start, root.value, c) ==> (owner, c) in blocks
  }

  /** What a merge makes: new blocks that link to one another, to what ours leads to, to
      the remote's blocks, or out of this client's sight. The remote's are all on the
      server, with all they link to. A block is the same wherever it is. */
  predicate MergeMakes(start: Buffer, owner: KeyHash, blocks: set<Stored>, ours: set<Id>, root: Id, made: Buffer, theirs: set<Id>) {
    var g := made + start;
    && root in made && (forall c :: c in made && c in start ==> made[c] == start[c])
    && (forall c :: c in theirs ==> (owner, c) in blocks)
    && (forall c :: c in theirs && c in g ==> forall l :: l in Outgoing(g[c]) ==> l in theirs || l !in g)
    && (forall c :: c in made ==> forall l :: l in Outgoing(made[c]) ==> l in made || l in ours || l in theirs || l !in g)
  }

  lemma OursClosed(start: Buffer, ours: Id, ourIds: set<Id>, c: Id, l: Id)
    requires (forall c :: c in ourIds <==> Reaches(start, ours, c)) && c in ourIds && c in start && l in start && l in Outgoing(start[c])
    ensures l in ourIds
  {
    ReachesLink(start, ours, c, l);
  }

  /** A merged root leads only to what is made, ours or the remote's. */
  lemma MergedReach(start: Buffer, owner: KeyHash, blocks: set<Stored>, ours: Id, ourIds: set<Id>, root: Id, made: Buffer, theirs: set<Id>, c: Id)
    requires MergeMakes(start, owner, blocks, ourIds, root, made, theirs)
    requires ourIds <= start.Keys && forall c :: c in ourIds <==> Reaches(start, ours, c)
    requires Reaches(made + start, root, c)
    ensures c in made || c in ourIds || c in theirs
  {
    var g := made + start;
    var all := (made.Keys + ourIds + theirs) * g.Keys;
    forall x, l | x in all && l in Outgoing(g[x]) && l in g ensures l in all {
      if x in made {
        assert g[x] == made[x];
      } else if x in ourIds && l !in made {
        OursClosed(start, ours, ourIds, x, l);
      }
    }
    var p :| PathTo(g, p, root, c);
    ClosedHoldsPath(g, all, p, |p| - 1);
  }

  /** The merge of `commit_one_with_merge`: reads the three trees from the server, and
      writes its new blocks there. */
  method MergeOnServer(server: Server, start: Buffer, owner: KeyHash, base: Id, ours: Id, theirs: Id, ghost w: WriterUpdate) returns (m: Option<Id>, ghost made: Buffer)
    requires Whole(start, owner, Some(ours), server.blocks)
    modifies server`blocks, server`answers
    ensures old(server.blocks) <= server.blocks && server.answers == old(server.answers) + [Answer.Merged(w, base, ours, theirs, m)]
    ensures m.Some? ==> forall c: Id :: Reaches(made + start, m.value, c) ==> (owner, c) in server.blocks
  {
    hide Reaches, MergeMakes;
    var ourIds := Reachable(start, [ours]);
    SingleRoot(start, ours);
    var root: Id, written: Buffer, others: set<Id> := *, *, *;
    made := written;
    if !MergeMakes(start, owner, server.blocks, ourIds, root, written, others) {
      server.answers := server.answers + [Answer.Merged(w, base, ours, theirs, None)];
      return None, made; // refused: a conflict, or a block that could not be read or written
    }
    forall c: Id | Reaches(made + start, root, c) ensures c in made || (owner, c) in server.blocks {
      MergedReach(start, owner, server.blocks, ours, ourIds, root, made, others, c);
      TheirsStored(start, owner, server.blocks, ourIds, root, made, others);
    }
    server.blocks := server.blocks + InOwner(owner, written.Keys);
    server.answers := server.answers + [Answer.Merged(w, base, ours, theirs, Some(root))];
    m := Some(root);
  }

  lemma TheirsStored(start: Buffer, owner: KeyHash, blocks: set<Stored>, ourIds: set<Id>, root: Id, made: Buffer, theirs: set<Id>)
    requires MergeMakes(start, owner, blocks, ourIds, root, made, theirs)
    ensures forall c :: c in theirs ==> (owner, c) in blocks
  {}

  /** The update has reached the server: set as it is, merged with a remote change, or
      found there already. */
  ghost predicate Delivered(w: WriterUpdate, before: seq<PointerSet>, log: seq<PointerSet>, observed: set<(KeyHash, KeyHash, Option<Id>)>) {
    || (w.owner, w.writer, w.update.updated) in observed
    || exists i :: |before| <= i < |log| && log[i].owner == w.owner && log[i].writer == w.writer && log[i].target == w.update.updated
  }

  lemma DeliveredGrows(w: WriterUpdate, before: seq<PointerSet>, log: seq<PointerSet>, log': seq<PointerSet>,
                       observed: set<(KeyHash, KeyHash, Option<Id>)>, observed': set<(KeyHash, KeyHash, Option<Id>)>)
    requires log <= log' && observed <= observed'
    ensures Delivered(w, before, log, observed) ==> Delivered(w, before, log', observed')
  {
    if Delivered(w, before, log, observed) && (w.owner, w.writer, w.update.updated) !in observed {
      var i :| |before| <= i < |log| && log[i].owner == w.owner && log[i].writer == w.writer && log[i].target == w.update.updated;
      assert log'[i] == log[i];
    }
  }

  lemma GrewMore(buf: Buffer, before: seq<PointerSet>, log: seq<PointerSet>, log': seq<PointerSet>)
    requires GrewAnchored(buf, before, log) && GrewAnchored(buf, log, log')
    ensures GrewAnchored(buf, before, log')
  {
    hide Anchored;
    forall e | e in log'[|before|..] ensures Anchored(buf, e) {
      var i :| |before| <= i < |log'| && log'[i] == e;
      if i < |log| {
        assert log[|before|..][i - |before|] == e;
      } else {
        assert log'[|log|..][i - |log|] == e;
      }
    }
  }

  lemma GrewByOne(buf: Buffer, before: seq<PointerSet>, e: PointerSet)
    requires e.root.Some? ==> forall c: Id :: Reaches(e.made + buf, e.root.value, c) ==> (e.owner, c) in e.present
    ensures GrewAnchored(buf, before, before + [e])
  {
    assert (before + [e])[|before|..] == [e];
  }

  /** Every pointer set since was for this update. */
  ghost predicate AllFor(w: WriterUpdate, before: seq<PointerSet>, log: seq<PointerSet>) {
    before <= log && forall i :: |before| <= i < |log| ==> log[i].owner == w.owner && log[i].writer == w.writer && log[i].target == w.update.updated
  }

  /** The pointers set since were for these updates, `which[i]` the one the i-th was for,
      never going back to an earlier one. */
  ghost predicate InOrder(writes: seq<WriterUpdate>, before: seq<PointerSet>, log: seq<PointerSet>, which: seq<nat>) {
    && before <= log && |which| == |log| - |before|
    && (forall i :: 0 <= i < |which| ==> which[i] < |writes| && log[|before| + i].writer == writes[which[i]].writer
                                         && log[|before| + i].target == writes[which[i]].update.updated)
    && forall i, j :: 0 <= i < j < |which| ==> which[i] <= which[j]
  }

  lemma NextInOrder(writes: seq<WriterUpdate>, n: nat, before: seq<PointerSet>, mid: seq<PointerSet>, log: seq<PointerSet>, which: seq<nat>)
    returns (which': seq<nat>)
    requires n < |writes| && InOrder(writes[..n], before, mid, which) && AllFor(writes[n], mid, log)
    ensures InOrder(writes[..n + 1], before, log, which')
  {
    which' := which + seq(|log| - |mid|, _ => n);
    forall i | 0 <= i < |which'|
      ensures which'[i] <= n && log[|before| + i].writer == writes[which'[i]].writer && log[|before| + i].target == writes[which'[i]].update.updated
    {
      if i < |which| { assert log[|before| + i] == mid[|before| + i]; }
    }
  }

  /** It was asked to set the update's own pointer. */
  ghost predicate AskedSince(w: WriterUpdate, before: seq<Answer>, answers: seq<Answer>) {
    exists i :: |before| <= i < |answers| && answers[i].Asked? && answers[i].update == w && !answers[i].merged
  }

  lemma AskedStill(w: WriterUpdate, before: seq<Answer>, mid: seq<Answer>, answers: seq<Answer>)
    requires AskedSince(w, before, mid) && mid <= answers
    ensures AskedSince(w, before, answers)
  {
    var i :| |before| <= i < |mid| && mid[i].Asked? && mid[i].update == w && !mid[i].merged;
    assert answers[i] == mid[i];
  }

  /** What the server was asked and answered for one update: the swap from its base to its
      target; refused, the pointer; unless that is the target or there is nothing to merge,
      the merge of base, target and pointer; and the swap from the pointer to the merge. */
  ghost predicate Committing(w: WriterUpdate, before: seq<Answer>, answers: seq<Answer>) {
    var n := |before|;
    && before <= answers && |answers| > n
    && answers[n].Asked? && answers[n] == Asked(w, w.update.original, w.update.updated, false, answers[n].ok)
    && if answers[n].ok then |answers| == n + 1 else Resolving(w, answers, n + 1)
  }

  ghost predicate Resolving(w: WriterUpdate, answers: seq<Answer>, n: nat) {
    && |answers| > n && answers[n].Found? && answers[n].update == w
    && var p := answers[n].pointer;
       if p == None || p.value == w.update.updated || Unmergeable(w, p.value) then |answers| == n + 1
       else
         && |answers| > n + 1 && answers[n + 1].Merged? && answers[n + 1].update == w
         && (answers[n + 1].base, answers[n + 1].ours, answers[n + 1].theirs) == (w.update.original.value, w.update.updated.value, p.value.value)
         && if answers[n + 1].root == None then |answers| == n + 2
            else |answers| == n + 3 && answers[n + 2].Asked? && answers[n + 2] == Asked(w, p.value, answers[n + 1].root, true, answers[n + 2].ok)
  }

  /** `commit_one_with_merge`: it asks for the update as it is; refused, it reads the pointer,
      merges and asks again. It fails exactly when reading, merging or asking again does, or
      there is nothing to merge. */
  method CommitOneWithMerge(server: Server, start: Buffer, w: WriterUpdate) returns (ok: bool)
    requires Whole(start, w.owner, w.update.updated, server.blocks)
    modifies server`blocks, server`log, server`observed, server`answers
    ensures old(server.blocks) <= server.blocks && old(server.observed) <= server.observed
    ensures GrewAnchored(start, old(server.log), server.log)
    ensures ok ==> Delivered(w, old(server.log), server.log, server.observed)
    ensures AllFor(w, old(server.log), server.log)
    ensures Ended(old(server.answers), server.answers, ok) && AskedSince(w, old(server.answers), server.answers)
    ensures forall i :: |old(server.answers)| <= i < |server.answers| ==> !OnBulk(server.answers[i])
    ensures Committing(w, old(server.answers), server.answers)
  {
    hide Reaches, GrewAnchored;
    NothingGrew(start, server.log);
    assert map[] + start == start;
    GrewByOne(start, server.log, PointerSet(w.owner, w.writer, w.update.updated, w.update.updated, server.blocks, map[]));
    ghost var before := server.answers;
    ok := server.SetPointer(w, w.update.original, w.update.updated, false, map[]);
    ghost var first := Asked(w, w.update.original, w.update.updated, false, ok);
    assert server.answers[|before|] == first;
    if ok {
      assert server.log[|old(server.log)|].target == w.update.updated;
      return;
    }
    ok := MergeAfterConflict(server, start, w, old(server.log));
    EndedOn(before, before + [first], server.answers, ok);
    AskedStill(w, before, before + [first], server.answers);
  }

  /** The rest of it, once the update was refused. */
  method MergeAfterConflict(server: Server, start: Buffer, w: WriterUpdate, ghost before: seq<PointerSet>) returns (ok: bool)
    requires Whole(start, w.owner, w.update.updated, server.blocks)
    requires GrewAnchored(start, before, server.log) && AllFor(w, before, server.log)
    modifies server`blocks, server`log, server`observed, server`answers
    ensures old(server.blocks) <= server.blocks && old(server.observed) <= server.observed
    ensures GrewAnchored(start, before, server.log) && AllFor(w, before, server.log)
    ensures ok ==> Delivered(w, before, server.log, server.observed)
    ensures Ended(old(server.answers), server.answers, ok)
    ensures forall i :: |old(server.answers)| <= i < |server.answers| ==> !OnBulk(server.answers[i])
    ensures old(server.answers) <= server.answers && Resolving(w, server.answers, |old(server.answers)|)
  {
    hide Reaches, GrewAnchored;
    ghost var log := server.log;
    GrewPrefix(start, before, log);
    var remote := server.GetPointer(w);
    if remote == None {
      return false;
    }
    if remote.value == w.update.updated {
      return true;
    }
    if w.update.original == None || w.update.updated == None || remote.value == None {
      return false; // no mergeable roots
    }
    var m;
    ghost var made;
    m, made := MergeOnServer(server, start, w.owner, w.update.original.value, w.update.updated.value, remote.value.value, w);
    if m == None {
      return false;
    }
    GrewByOne(start, log, PointerSet(w.owner, w.writer, m, w.update.updated, server.blocks, made));
    ok := server.SetPointer(w, remote.value, m, true, made);
    if server.log != log {
      GrewMore(start, before, log, server.log);
      assert server.log[|log|].target == w.update.updated;
    }
  }

  lemma NothingGrew(buf: Buffer, log: seq<PointerSet>)
    ensures GrewAnchored(buf, log, log)
  {}

  lemma WholeGrows(start: Buffer, owner: KeyHash, root: Option<Id>, blocks: set<Stored>, blocks': set<Stored>)
    requires Whole(start, owner, root, blocks) && blocks <= blocks'
    ensures Whole(start, owner, root, blocks')
  {}

  lemma GrewPrefix(buf: Buffer, before: seq<PointerSet>, log: seq<PointerSet>)
    requires GrewAnchored(buf, before, log)
    ensures before <= log
  {}

  /** `commit_pointers`, one owner's updates in the order they were buffered. */
  method CommitPointers(server: Server, start: Buffer, pointers: UpdateBuffer, owner: KeyHash) returns (ok: bool, ghost which: seq<nat>)
    requires forall w :: w in WritesFor(pointers.updates, owner) ==> w.owner == owner && Whole(start, owner, w.update.updated, server.blocks)
    modifies server`blocks, server`log, server`observed, server`answers, pointers`updates
    ensures old(server.blocks) <= server.blocks && old(server.observed) <= server.observed
    ensures Ended(old(server.answers), server.answers, ok)
    ensures forall i :: |old(server.answers)| <= i < |server.answers| ==> !OnBulk(server.answers[i])
    ensures ok ==> forall w :: w in WritesFor(old(pointers.updates), owner) ==> AskedSince(w, old(server.answers), server.answers)
    ensures GrewAnchored(start, old(server.log), server.log)
    ensures !ok ==> pointers.updates == old(pointers.updates)
    ensures ok ==> pointers.updates == Others(old(pointers.updates), owner)
    ensures ok ==> forall w :: w in WritesFor(old(pointers.updates), owner) ==> Delivered(w, old(server.log), server.log, server.observed)
    ensures InOrder(WritesFor(old(pointers.updates), owner), old(server.log), server.log, which)
  {
    hide Whole, GrewAnchored, Delivered, WritesFor, Others, InOrder, AllFor, Ended, AskedSince, OnBulk;
    var writes := WritesFor(pointers.updates, owner);
    EndedNow(server.answers, Transacted(Steps, owner, Done));
    NothingGrew(start, server.log);
    which := [];
    NoneInOrder(writes, server.log);
    for i := 0 to |writes|
      invariant InOrder(writes[..i], old(server.log), server.log, which)
      invariant Ended(old(server.answers), server.answers, true) && old(server.answers) <= server.answers
      invariant forall i :: |old(server.answers)| <= i < |server.answers| ==> !OnBulk(server.answers[i])
      invariant forall k :: 0 <= k < i ==> AskedSince(writes[k], old(server.answers), server.answers)
      invariant old(server.blocks) <= server.blocks && old(server.observed) <= server.observed
      invariant GrewAnchored(start, old(server.log), server.log) && pointers.updates == old(pointers.updates)
      invariant forall k :: 0 <= k < i ==> Delivered(writes[k], old(server.log), server.log, server.observed)
    {
      ghost var log, observed, answers := server.log, server.observed, server.answers;
      WholeGrows(start, owner, writes[i].update.updated, old(server.blocks), server.blocks);
      ok := CommitOneWithMerge(server, start, writes[i]);
      GrewMore(start, old(server.log), log, server.log);
      GrewPrefix(start, log, server.log);
      which := NextInOrder(writes, i, old(server.log), log, server.log, which);
      EndedLonger(answers, server.answers, ok);
      EndedOn(old(server.answers), answers, server.answers, ok);
      if !ok {
        WiderInOrder(writes, i + 1, old(server.log), server.log, which);
        return;
      }
      DeliveredSooner(writes[i], old(server.log), log, server.log, server.observed, start);
      AskedSooner(writes[i], old(server.answers), answers, server.answers);
      forall k | 0 <= k < i
        ensures Delivered(writes[k], old(server.log), server.log, server.observed) && AskedSince(writes[k], old(server.answers), server.answers)
      {
        DeliveredGrows(writes[k], old(server.log), log, server.log, observed, server.observed);
        AskedStill(writes[k], old(server.answers), answers, server.answers);
      }
    }
    assert writes[..|writes|] == writes;
    pointers.updates := Others(pointers.updates, owner);
    ok := true;
  }

  lemma EndedLonger(before: seq<Answer>, answers: seq<Answer>, ok: bool)
    requires Ended(before, answers, ok)
    ensures before <= answers
  {}

  lemma AskedSooner(w: WriterUpdate, before: seq<Answer>, mid: seq<Answer>, answers: seq<Answer>)
    requires AskedSince(w, mid, answers) && |before| <= |mid|
    ensures AskedSince(w, before, answers)
  {}

  lemma NoneInOrder(writes: seq<WriterUpdate>, log: seq<PointerSet>)
    ensures InOrder(writes[..0], log, log, [])
  {}

  lemma WiderInOrder(writes: seq<WriterUpdate>, n: nat, before: seq<PointerSet>, log: seq<PointerSet>, which: seq<nat>)
    requires n <= |writes| && InOrder(writes[..n], before, log, which)
    ensures InOrder(writes, before, log, which)
  {}

  lemma DeliveredSooner(w: WriterUpdate, before: seq<PointerSet>, mid: seq<PointerSet>, log: seq<PointerSet>,
                        observed: set<(KeyHash, KeyHash, Option<Id>)>, buf: Buffer)
    requires GrewAnchored(buf, before, mid) && Delivered(w, mid, log, observed)
    ensures Delivered(w, before, log, observed)
  {}

  // ---- flush --------------------------------------------------------------------------------------

  /** `now` is what is left of `start` once the blocks of the owners in `done` may be gone. */
  ghost predicate Remains(start: Buffer, now: Buffer, done: set<KeyHash>) {
    && (forall c :: c in now ==> c in start && now[c] == start[c])
    && (forall c :: c in start && start[c].owner !in done ==> c in now)
  }

  /** For an owner not yet flushed, its roots reach the same blocks as at the start. */
  lemma SameReach(start: Buffer, now: Buffer, done: set<KeyHash>, owner: KeyHash, root: Id)
    requires Remains(start, now, done) && owner !in done
    requires forall c :: Reaches(start, root, c) ==> c in start && start[c].owner == owner
    ensures forall c :: Reaches(now, root, c) <==> Reaches(start, root, c)
  {
    forall c | Reaches(now, root, c) ensures Reaches(start, root, c) {
      var p :| PathTo(now, p, root, c);
      assert PathTo(start, p, root, c);
    }
    forall c | Reaches(start, root, c) ensures Reaches(now, root, c) {
      var p :| PathTo(start, p, root, c);
      forall i | 0 <= i < |p| ensures p[i] in now {
        assert PathTo(start, p[..i + 1], root, p[i]);
        assert Reaches(start, root, p[i]);
      }
      assert PathTo(now, p, root, c);
    }
  }


  /** What each buffered update leads to belongs to the update's owner. */
  ghost predicate Owned(buf: Buffer, list: seq<WriterUpdate>) {
    forall w, c: Id :: w in list && w.update.updated.Some? && Reaches(buf, w.update.updated.value, c) ==> c in buf && buf[c].owner == w.owner
  }

  /** No update still buffered has lost a block: each block it leads to is still
      buffered or already on the server. */
  ghost predicate NothingLost(start: Buffer, list: seq<WriterUpdate>, buf: Buffer, blocks: set<Stored>) {
    forall w, c: Id :: w in list && w.update.updated.Some? && Reaches(start, w.update.updated.value, c) ==> c in buf || (w.owner, c) in blocks
  }

  lemma {:induction false} WritesForIs(list: seq<WriterUpdate>, owner: KeyHash, w: WriterUpdate)
    ensures w in WritesFor(list, owner) <==> w in list && w.owner == owner
  {
    if list != [] {
      WritesForIs(list[..|list| - 1], owner, w);
      assert list == list[..|list| - 1] + [list[|list| - 1]];
    }
  }

  lemma {:induction false} OthersAre(list: seq<WriterUpdate>, owner: KeyHash, w: WriterUpdate)
    ensures w in Others(list, owner) <==> w in list && w.owner != owner
  {
    if list != [] {
      OthersAre(list[..|list| - 1], owner, w);
      assert list == list[..|list| - 1] + [list[|list| - 1]];
    }
  }

  /** The updates of `owner`, in the order of the list: the i-th of them is at place `at[i]`. */
  ghost predicate WrittenAt(list: seq<WriterUpdate>, writes: seq<WriterUpdate>, owner: KeyHash, at: seq<nat>) {
    && |at| == |writes| && (forall i :: 0 <= i < |at| ==> at[i] < |list| && list[at[i]] == writes[i])
    && (forall i, j :: 0 <= i < j < |at| ==> at[i] < at[j])
    && (forall k :: 0 <= k < |list| ==> (list[k].owner == owner <==> k in at))
  }

  lemma {:induction false} WritesInOrder(list: seq<WriterUpdate>, owner: KeyHash) returns (at: seq<nat>)
    ensures WrittenAt(list, WritesFor(list, owner), owner, at)
  {
    at := [];
    if list != [] {
      var n := |list| - 1;
      var init := list[..n];
      at := WritesInOrder(init, owner);
      WrittenNext(list, init, WritesFor(init, owner), owner, at);
      if list[n].owner == owner { at := at + [n]; }
    }
  }

  lemma WrittenNext(list: seq<WriterUpdate>, init: seq<WriterUpdate>, writes: seq<WriterUpdate>, owner: KeyHash, at: seq<nat>)
    requires list != [] && init == list[..|list| - 1] && WrittenAt(init, writes, owner, at)
    ensures list[|init|].owner == owner ==> WrittenAt(list, writes + [list[|init|]], owner, at + [|init|])
    ensures list[|init|].owner != owner ==> WrittenAt(list, writes + [], owner, at)
  {
    assert forall i :: 0 <= i < |at| ==> at[i] < |init|;
    assert |init| !in at;
    assert writes + [] == writes;
  }

  /** One owner's turn leaves the others' updates as they were. */
  lemma {:induction false} WritesOfOthers(list: seq<WriterUpdate>, gone: KeyHash, owner: KeyHash)
    requires gone != owner
    ensures WritesFor(Others(list, gone), owner) == WritesFor(list, owner)
  {
    if list != [] {
      var n := |list| - 1;
      WritesOfOthers(list[..n], gone, owner);
      if list[n].owner != gone {
        var others := Others(list, gone);
        assert others[..|others| - 1] == Others(list[..n], gone);
      } else {
        assert Others(list, gone) == Others(list[..n], gone);
        assert WritesFor(list, owner) == WritesFor(list[..n], owner);
      }
    }
  }

  /** An update of `a` comes before any of `b`. */
  ghost predicate WroteFirst(list: seq<WriterUpdate>, a: KeyHash, b: KeyHash) {
    exists k :: 0 <= k < |list| && list[k].owner == a && forall l :: 0 <= l <= k ==> list[l].owner != b
  }

  /** `owners`: each once, in the order first written. */
  method Owners(list: seq<WriterUpdate>) returns (owners: seq<KeyHash>)
    ensures forall i, j :: 0 <= i < j < |owners| ==> owners[i] != owners[j] && WroteFirst(list, owners[i], owners[j])
    ensures forall o :: o in owners <==> exists w :: w in list && w.owner == o
  {
    owners := [];
    for i := 0 to |list|
      invariant forall i, j :: 0 <= i < j < |owners| ==> owners[i] != owners[j] && WroteFirst(list, owners[i], owners[j])
      invariant forall o :: o in owners ==> exists k :: 0 <= k < i && list[k].owner == o
      invariant forall k :: 0 <= k < i ==> list[k].owner in owners
    {
      if list[i].owner !in owners {
        forall a | a in owners ensures WroteFirst(list, a, list[i].owner) {
          var k :| 0 <= k < i && list[k].owner == a;
        }
        owners := owners + [list[i].owner];
      }
    }
  }

  /** `roots_for` */
  function RootsFor(writes: seq<WriterUpdate>): seq<Id> {
    if writes == [] then [] else
      RootsFor(writes[..|writes| - 1]) + if writes[|writes| - 1].update.updated.Some? then [writes[|writes| - 1].update.updated.value] else []
  }

  lemma {:induction false} RootsForHas(writes: seq<WriterUpdate>, w: WriterUpdate)
    requires w in writes && w.update.updated.Some?
    ensures w.update.updated.value in RootsFor(writes)
  {
    var n := |writes| - 1;
    if writes[n] != w {
      RootsForHas(writes[..n], w);
    }
  }

  /** The state between two owners of a flush that started with `start` and `list`. */
  ghost predicate Flushing(start: Buffer, list: seq<WriterUpdate>, buf: Buffer, now: seq<WriterUpdate>, done: set<KeyHash>) {
    Remains(start, buf, done) && forall w :: w in now <==> w in list && w.owner !in done
  }

  /** An owner whose turn it is finds all its roots lead to, as at the start. */
  lemma TurnOwned(start: Buffer, list: seq<WriterUpdate>, buf: Buffer, now: seq<WriterUpdate>, done: set<KeyHash>, owner: KeyHash)
    requires Owned(start, list) && Flushing(start, list, buf, now, done) && owner !in done
    ensures OwnedBy(buf, owner, RootsOf(WritesFor(now, owner)))
    ensures forall w, c: Id :: w in WritesFor(now, owner) && w.update.updated.Some? ==>
      (Reaches(buf, w.update.updated.value, c) <==> Reaches(start, w.update.updated.value, c))
  {
    var writes := WritesFor(now, owner);
    var roots := RootsOf(writes);
    forall w, c: Id | w in writes && w.update.updated.Some?
      ensures Reaches(buf, w.update.updated.value, c) <==> Reaches(start, w.update.updated.value, c)
      ensures Reaches(start, w.update.updated.value, c) ==> c in buf && buf[c].owner == owner
    {
      TurnReach(start, list, buf, now, done, owner, w, c);
    }
    hide Reaches, Remains, Owned;
    forall i: nat, c: Id | RootReaches(buf, roots, i, c) ensures c in buf && buf[c].owner == owner {
      assert writes[i] in writes;
    }
  }

  lemma TurnReach(start: Buffer, list: seq<WriterUpdate>, buf: Buffer, now: seq<WriterUpdate>, done: set<KeyHash>, owner: KeyHash, w: WriterUpdate, c: Id)
    requires Owned(start, list) && Flushing(start, list, buf, now, done) && owner !in done
    requires w in WritesFor(now, owner) && w.update.updated.Some?
    ensures Reaches(buf, w.update.updated.value, c) <==> Reaches(start, w.update.updated.value, c)
    ensures Reaches(start, w.update.updated.value, c) ==> c in buf && buf[c].owner == owner
  {
    hide Reaches;
    WritesForIs(now, owner, w);
    SameReach(start, buf, done, owner, w.update.updated.value);
  }

  /** Pointers anchored in what was left are anchored in what there was. */
  lemma AnchoredAtStart(start: Buffer, buf: Buffer, writes: seq<WriterUpdate>, before: seq<PointerSet>, log: seq<PointerSet>)
    requires GrewAnchored(buf, before, log) && forall e :: e in log[|before|..] ==> e.made == map[] && exists w :: w in writes && e.root == w.update.updated
    requires forall w, c: Id :: w in writes && w.update.updated.Some? ==>
      (Reaches(buf, w.update.updated.value, c) <==> Reaches(start, w.update.updated.value, c))
    ensures GrewAnchored(start, before, log)
  {
    hide Reaches;
    assert map[] + buf == buf && map[] + start == start;
    forall e | e in log[|before|..] ensures Anchored(start, e) {
      assert Anchored(buf, e);
    }
  }

  lemma SetsDelivered(owner: KeyHash, writes: seq<WriterUpdate>, blocks: set<Stored>, before: seq<PointerSet>,
                      observed: set<(KeyHash, KeyHash, Option<Id>)>)
    requires forall w :: w in writes ==> w.owner == owner
    ensures var log := before + Sets(owner, PointersOf(writes), blocks);
      && (forall e :: e in log[|before|..] ==> e.made == map[] && exists w :: w in writes && e.root == w.update.updated)
      && (forall w :: w in writes ==> Delivered(w, before, log, observed))
  {
    var sets := Sets(owner, PointersOf(writes), blocks);
    var log := before + sets;
    assert log[|before|..] == sets;
    forall e | e in sets ensures e.made == map[] && exists w :: w in writes && e.root == w.update.updated {
      var i :| 0 <= i < |sets| && sets[i] == e;
      assert writes[i] in writes;
    }
    forall w | w in writes ensures Delivered(w, before, log, observed) {
      var i :| 0 <= i < |writes| && writes[i] == w;
      assert log[|before| + i] == sets[i];
    }
  }

  lemma LeftIsSmall(start: Buffer, list: seq<WriterUpdate>, buf: Buffer, now: seq<WriterUpdate>, done: set<KeyHash>)
    requires Flushing(start, list, buf, now, done)
    ensures SmallBuffer(start) ==> SmallBuffer(buf)
  {}

  /** One owner's turn at the bulk call. */
  method FlushBulk(server: Server, store: BlockBuffer, pointers: UpdateBuffer, owner: KeyHash, ghost start: Buffer, ghost list: seq<WriterUpdate>,
                   ghost done: set<KeyHash>) returns (r: Outcome)
    requires Owned(start, list) && Flushing(start, list, store.buffer, pointers.updates, done) && owner !in done
    modifies server`blocks, server`log, server`sent, server`answers
    ensures old(server.blocks) <= server.blocks && GrewAnchored(start, old(server.log), server.log)
    ensures Told(old(server.answers), server.answers, r) && (|server.answers| > |old(server.answers)| <==> WritesFor(pointers.updates, owner) != [])
    ensures r == Done && WritesFor(pointers.updates, owner) != [] ==>
      CommittedBy(owner, PointersOf(WritesFor(pointers.updates, owner)), old(server.answers), server.answers)
    ensures SentAcceptable(old(server.sent), server.sent, SmallBuffer(start))
    ensures r == Done ==> forall w :: w in WritesFor(pointers.updates, owner) ==> Delivered(w, old(server.log), server.log, server.observed)
  {
    TurnOwned(start, list, store.buffer, pointers.updates, done, owner);
    var writes := WritesFor(pointers.updates, owner);
    forall w ensures w in writes ==> w.owner == owner { WritesForIs(pointers.updates, owner, w); }
    LeftIsSmall(start, list, store.buffer, pointers.updates, done);
    hide Reaches, WritesFor, Owned, Flushing, GrewAnchored, SentAcceptable, SmallBuffer, Told, CommittedBy;
    r := BulkCommitOwner(server, store.buffer, owner, writes);
    SentIf(old(server.sent), server.sent, SmallBuffer(store.buffer), SmallBuffer(start));
    NothingGrew(start, old(server.log));
    if server.log != old(server.log) {
      SetsDelivered(owner, writes, server.blocks, old(server.log), server.observed);
      AnchoredAtStart(start, store.buffer, writes, old(server.log), server.log);
    }
  }

  lemma NothingLostYet(start: Buffer, list: seq<WriterUpdate>, buf: Buffer, now: seq<WriterUpdate>, done: set<KeyHash>, blocks: set<Stored>)
    requires Owned(start, list) && Flushing(start, list, buf, now, done)
    ensures NothingLost(start, now, buf, blocks)
  {}

  lemma MovedRemains(start: Buffer, list: seq<WriterUpdate>, buf: Buffer, now: seq<WriterUpdate>, done: set<KeyHash>, owner: KeyHash,
                     roots: seq<Id>, after: Buffer, blocks: set<Stored>)
    requires Flushing(start, list, buf, now, done) && Moved(buf, owner, roots, after, blocks)
    ensures Remains(start, after, done + {owner})
  {
    hide ReachedFrom;
  }

  lemma MovedWhole(start: Buffer, list: seq<WriterUpdate>, buf: Buffer, now: seq<WriterUpdate>, done: set<KeyHash>, owner: KeyHash,
                   after: Buffer, blocks: set<Stored>, w: WriterUpdate)
    requires Owned(start, list) && Flushing(start, list, buf, now, done) && owner !in done && w in WritesFor(now, owner)
    requires Moved(buf, owner, RootsFor(WritesFor(now, owner)), after, blocks)
    ensures Whole(start, owner, w.update.updated, blocks)
  {
    if w.update.updated.Some? {
      var root, roots := w.update.updated.value, RootsFor(WritesFor(now, owner));
      RootsForHas(WritesFor(now, owner), w);
      hide Reaches, Owned, Flushing, RootsFor, WritesFor;
      forall c: Id | Reaches(start, root, c) ensures (owner, c) in blocks {
        TurnReach(start, list, buf, now, done, owner, w, c);
        assert ReachedFrom(buf, roots, c);
      }
    }
  }

  lemma MovedLosesNothing(start: Buffer, list: seq<WriterUpdate>, buf: Buffer, now: seq<WriterUpdate>, done: set<KeyHash>, owner: KeyHash,
                          roots: seq<Id>, after: Buffer, blocks: set<Stored>)
    requires Owned(start, list) && Flushing(start, list, buf, now, done) && Moved(buf, owner, roots, after, blocks)
    ensures NothingLost(start, now, after, blocks)
  {
    NothingLostYet(start, list, buf, now, done, blocks);
    hide Reaches, Flushing, ReachedFrom;
    forall w, c: Id | w in now && w.update.updated.Some? && Reaches(start, w.update.updated.value, c) ensures c in after || (w.owner, c) in blocks {
      if (w.owner, c) !in blocks {
        assert c in buf;
        OwnerInTurn(start, list, buf, now, done, w, c);
      }
    }
  }

  lemma OwnerInTurn(start: Buffer, list: seq<WriterUpdate>, buf: Buffer, now: seq<WriterUpdate>, done: set<KeyHash>, w: WriterUpdate, c: Id)
    requires Owned(start, list) && Flushing(start, list, buf, now, done) && c in buf
    requires w in now && w.update.updated.Some? && Reaches(start, w.update.updated.value, c)
    ensures buf[c].owner == w.owner
  {}

  lemma LostGrows(start: Buffer, now: seq<WriterUpdate>, later: seq<WriterUpdate>, buf: Buffer, blocks: set<Stored>, blocks': set<Stored>)
    requires NothingLost(start, now, buf, blocks) && blocks <= blocks' && forall w :: w in later ==> w in now
    ensures NothingLost(start, later, buf, blocks')
  {
    hide Reaches;
  }

  lemma NextOwner(start: Buffer, list: seq<WriterUpdate>, now: seq<WriterUpdate>, done: set<KeyHash>, owner: KeyHash, buf: Buffer, after: Buffer)
    requires Flushing(start, list, buf, now, done) && Remains(start, after, done + {owner})
    ensures Flushing(start, list, after, Others(now, owner), done + {owner})
    ensures forall w :: w in Others(now, owner) ==> w in now
    ensures forall w :: w in now ==> w in Others(now, owner) || w in WritesFor(now, owner)
  {
    forall w
      ensures w in Others(now, owner) <==> w in now && w.owner != owner
      ensures w in WritesFor(now, owner) <==> w in now && w.owner == owner
    {
      OthersAre(now, owner, w);
      WritesForIs(now, owner, w);
    }
    hide Remains, Others, WritesFor;
  }

  /** No update is forgotten: it is still buffered, or has reached the server. */
  ghost predicate Accounted(list: seq<WriterUpdate>, now: seq<WriterUpdate>, before: seq<PointerSet>, log: seq<PointerSet>,
                            observed: set<(KeyHash, KeyHash, Option<Id>)>) {
    && (forall w :: w in now ==> w in list)
    && forall w :: w in list ==> w in now || Delivered(w, before, log, observed)
  }

  lemma AccountedGrows(list: seq<WriterUpdate>, now: seq<WriterUpdate>, before: seq<PointerSet>, log: seq<PointerSet>, log': seq<PointerSet>,
                       observed: set<(KeyHash, KeyHash, Option<Id>)>, observed': set<(KeyHash, KeyHash, Option<Id>)>)
    requires Accounted(list, now, before, log, observed) && log <= log' && observed <= observed'
    ensures Accounted(list, now, before, log', observed')
  {
    hide Delivered;
    forall w | w in list ensures w in now || Delivered(w, before, log', observed') {
      DeliveredGrows(w, before, log, log', observed, observed');
    }
  }

  lemma OwnerAccounted(list: seq<WriterUpdate>, now: seq<WriterUpdate>, owner: KeyHash, before: seq<PointerSet>, mid: seq<PointerSet>,
                       log: seq<PointerSet>, observed: set<(KeyHash, KeyHash, Option<Id>)>, buf: Buffer)
    requires Accounted(list, now, before, log, observed) && GrewAnchored(buf, before, mid)
    requires forall w :: w in WritesFor(now, owner) ==> Delivered(w, mid, log, observed)
    ensures Accounted(list, Others(now, owner), before, log, observed)
  {
    hide Delivered, GrewAnchored;
    forall w
      ensures w in Others(now, owner) <==> w in now && w.owner != owner
      ensures w in WritesFor(now, owner) <==> w in now && w.owner == owner
    {
      OthersAre(now, owner, w);
      WritesForIs(now, owner, w);
    }
    hide Others, WritesFor;
    forall w | w in list ensures w in Others(now, owner) || Delivered(w, before, log, observed) {
      if w in WritesFor(now, owner) { DeliveredSooner(w, before, mid, log, observed, buf); }
    }
  }

  /** The older endpoints were sent everything the owner's updates need, and the updates. */
  ghost predicate SentInSteps(start: Buffer, owner: KeyHash, writes: seq<WriterUpdate>, before: seq<Answer>, answers: seq<Answer>) {
    && (forall w :: w in writes ==> AskedSince(w, before, answers))
    && (forall w, c: Id :: w in writes && w.update.updated.Some? && Reaches(start, w.update.updated.value, c) ==> UploadedSince(owner, c, before, answers))
  }

  lemma UploadedForAll(start: Buffer, list: seq<WriterUpdate>, buf: Buffer, now: seq<WriterUpdate>, done: set<KeyHash>, owner: KeyHash,
                       before: seq<Answer>, mid: seq<Answer>, answers: seq<Answer>)
    requires Owned(start, list) && Flushing(start, list, buf, now, done) && owner !in done && mid <= answers
    requires forall c :: c in buf && ReachedFrom(buf, RootsFor(WritesFor(now, owner)), c) && buf[c].owner == owner ==> UploadedSince(owner, c, before, mid)
    requires forall w :: w in WritesFor(now, owner) ==> AskedSince(w, before, answers)
    ensures SentInSteps(start, owner, WritesFor(now, owner), before, answers)
  {
    var writes := WritesFor(now, owner);
    forall w, c: Id | w in writes && w.update.updated.Some? && Reaches(start, w.update.updated.value, c) ensures UploadedSince(owner, c, before, answers) {
      OneUploaded(start, list, buf, now, done, owner, w, c);
      UploadedStill(owner, c, before, mid, answers);
    }
  }

  lemma OneUploaded(start: Buffer, list: seq<WriterUpdate>, buf: Buffer, now: seq<WriterUpdate>, done: set<KeyHash>, owner: KeyHash, w: WriterUpdate, c: Id)
    requires Owned(start, list) && Flushing(start, list, buf, now, done) && owner !in done
    requires w in WritesFor(now, owner) && w.update.updated.Some? && Reaches(start, w.update.updated.value, c)
    ensures c in buf && ReachedFrom(buf, RootsFor(WritesFor(now, owner)), c) && buf[c].owner == owner
  {
    RootsForHas(WritesFor(now, owner), w);
    hide Reaches, Owned, Flushing, RootsFor, WritesFor;
    TurnReach(start, list, buf, now, done, owner, w, c);
  }

  /** One owner's turn at the older endpoints: blocks first, then pointers. */
  method FlushInSteps(server: Server, store: BlockBuffer, pointers: UpdateBuffer, owner: KeyHash, start: Buffer, ghost list: seq<WriterUpdate>,
                      ghost done: set<KeyHash>) returns (ok: bool)
    requires Owned(start, list) && Flushing(start, list, store.buffer, pointers.updates, done) && owner !in done
    modifies server`blocks, server`log, server`observed, server`answers, store`buffer, pointers`updates
    ensures old(server.blocks) <= server.blocks && old(server.observed) <= server.observed && GrewAnchored(start, old(server.log), server.log)
    ensures Ended(old(server.answers), server.answers, ok)
    ensures forall i :: |old(server.answers)| <= i < |server.answers| ==> !OnBulk(server.answers[i])
    ensures ok ==> SentInSteps(start, owner, WritesFor(old(pointers.updates), owner), old(server.answers), server.answers)
    ensures pointers.updates == old(pointers.updates)
         || (pointers.updates == Others(old(pointers.updates), owner)
             && forall w :: w in WritesFor(old(pointers.updates), owner) ==> Delivered(w, old(server.log), server.log, server.observed))
    ensures ok ==> pointers.updates == Others(old(pointers.updates), owner) && Flushing(start, list, store.buffer, pointers.updates, done + {owner})
    ensures NothingLost(start, pointers.updates, store.buffer, server.blocks)
  {
    hide Owned, Flushing, WritesFor, Others, GrewAnchored, Delivered, NothingLost, Ended, SentInSteps, OnBulk;
    ghost var now, before := pointers.updates, server.answers;
    NothingGrew(start, server.log);
    var started := server.Transaction(Steps, owner);
    EndedNow(before, Transacted(Steps, owner, started));
    NotOnBulk(Transacted(Steps, owner, started));
    if started != Done {
      NothingLostYet(start, list, store.buffer, now, done, server.blocks);
      return false;
    }
    ghost var answers := server.answers;
    ok := BlocksThenPointers(server, store, pointers, owner, start, list, done);
    EndedLonger(answers, server.answers, ok);
    EndedOn(before, answers, server.answers, ok);
    if ok {
      SentSooner(start, owner, WritesFor(now, owner), before, answers, server.answers);
      answers := server.answers;
      var closed := server.Transaction(Steps, owner);
      EndedNow(answers, Transacted(Steps, owner, closed));
      NotOnBulk(Transacted(Steps, owner, closed));
      EndedOn(before, answers, server.answers, closed == Done);
      SentStill(start, owner, WritesFor(now, owner), before, answers, server.answers);
      ok := closed == Done;
    }
  }

  lemma NotOnBulk(a: Answer)
    ensures a.Transacted? && a.stage == Steps ==> !OnBulk(a)
    ensures a.Uploaded? && a.stage == Steps ==> !OnBulk(a)
  {}

  lemma SentSooner(start: Buffer, owner: KeyHash, writes: seq<WriterUpdate>, before: seq<Answer>, mid: seq<Answer>, answers: seq<Answer>)
    requires SentInSteps(start, owner, writes, mid, answers) && |before| <= |mid|
    ensures SentInSteps(start, owner, writes, before, answers)
  {
    hide Reaches, AskedSince, UploadedSince;
    forall w | w in writes ensures AskedSince(w, before, answers) { AskedSooner(w, before, mid, answers); }
    forall w, c: Id | w in writes && w.update.updated.Some? && Reaches(start, w.update.updated.value, c) ensures UploadedSince(owner, c, before, answers) {
      UploadedSooner(owner, c, before, mid, answers);
    }
  }

  lemma SentStill(start: Buffer, owner: KeyHash, writes: seq<WriterUpdate>, before: seq<Answer>, mid: seq<Answer>, answers: seq<Answer>)
    requires SentInSteps(start, owner, writes, before, mid) && mid <= answers
    ensures SentInSteps(start, owner, writes, before, answers)
  {
    hide Reaches, AskedSince, UploadedSince;
    forall w | w in writes ensures AskedSince(w, before, answers) { AskedStill(w, before, mid, answers); }
    forall w, c: Id | w in writes && w.update.updated.Some? && Reaches(start, w.update.updated.value, c) ensures UploadedSince(owner, c, before, answers) {
      UploadedStill(owner, c, before, mid, answers);
    }
  }

  /** Between the start and the close of the transaction. */
  method BlocksThenPointers(server: Server, store: BlockBuffer, pointers: UpdateBuffer, owner: KeyHash, start: Buffer, ghost list: seq<WriterUpdate>,
                            ghost done: set<KeyHash>) returns (ok: bool)
    requires Owned(start, list) && Flushing(start, list, store.buffer, pointers.updates, done) && owner !in done
    modifies server`blocks, server`log, server`observed, server`answers, store`buffer, pointers`updates
    ensures old(server.blocks) <= server.blocks && old(server.observed) <= server.observed && GrewAnchored(start, old(server.log), server.log)
    ensures Ended(old(server.answers), server.answers, ok)
    ensures forall i :: |old(server.answers)| <= i < |server.answers| ==> !OnBulk(server.answers[i])
    ensures ok ==> SentInSteps(start, owner, WritesFor(old(pointers.updates), owner), old(server.answers), server.answers)
    ensures if ok then pointers.updates == Others(old(pointers.updates), owner) else pointers.updates == old(pointers.updates)
    ensures ok ==> forall w :: w in WritesFor(old(pointers.updates), owner) ==> Delivered(w, old(server.log), server.log, server.observed)
    ensures ok ==> Flushing(start, list, store.buffer, pointers.updates, done + {owner})
    ensures NothingLost(start, pointers.updates, store.buffer, server.blocks)
  {
    hide Owned, Flushing, WritesFor, Others, RootsFor, GrewAnchored, Delivered, Remains, Moved, Whole, NothingLost, Ended, OnBulk, AskedSince,
      UploadedSince, SentInSteps, ReachedFrom, InOrder;
    ghost var buf, now, before := store.buffer, pointers.updates, server.answers;
    NothingGrew(start, server.log);
    var roots := RootsFor(WritesFor(pointers.updates, owner));
    ok := store.CommitBlocks(server, owner, roots);
    ghost var answers := server.answers;
    UploadsNotBulk(before, answers, owner);
    if !ok {
      NothingLostYet(start, list, buf, now, done, server.blocks);
      return;
    }
    MovedLosesNothing(start, list, buf, now, done, owner, roots, store.buffer, server.blocks);
    MovedRemains(start, list, buf, now, done, owner, roots, store.buffer, server.blocks);
    NextOwner(start, list, now, done, owner, buf, store.buffer);
    forall w | w in WritesFor(now, owner) ensures w.owner == owner && Whole(start, owner, w.update.updated, server.blocks) {
      WritesForIs(now, owner, w);
      MovedWhole(start, list, buf, now, done, owner, store.buffer, server.blocks, w);
    }
    ghost var blocks := server.blocks;
    ghost var which;
    ok, which := CommitPointers(server, start, pointers, owner);
    LostGrows(start, now, pointers.updates, store.buffer, blocks, server.blocks);
    EndedLonger(before, answers, true);
    EndedLonger(answers, server.answers, ok);
    EndedOn(before, answers, server.answers, ok);
    if ok {
      forall w | w in WritesFor(now, owner) ensures AskedSince(w, before, server.answers) { AskedSooner(w, before, answers, server.answers); }
      UploadedForAll(start, list, buf, now, done, owner, before, answers, server.answers);
    }
  }

  lemma UploadsNotBulk(before: seq<Answer>, answers: seq<Answer>, owner: KeyHash)
    requires forall i :: |before| <= i < |answers| ==> UploadOf(answers[i], owner)
    ensures forall i :: |before| <= i < |answers| ==> !OnBulk(answers[i])
  {}

  lemma StartOfFlush(start: Buffer, list: seq<WriterUpdate>, log: seq<PointerSet>, observed: set<(KeyHash, KeyHash, Option<Id>)>)
    ensures Flushing(start, list, start, list, {}) && GrewAnchored(start, log, log) && Accounted(list, list, log, log, observed)
  {}

  /** Updates and pointers after one more commit. */
  lemma Progress(start: Buffer, list: seq<WriterUpdate>, now: seq<WriterUpdate>, before: seq<PointerSet>, mid: seq<PointerSet>, log: seq<PointerSet>,
                 observed: set<(KeyHash, KeyHash, Option<Id>)>, observed': set<(KeyHash, KeyHash, Option<Id>)>)
    requires GrewAnchored(start, before, mid) && GrewAnchored(start, mid, log) && observed <= observed'
    requires Accounted(list, now, before, mid, observed)
    ensures GrewAnchored(start, before, log) && Accounted(list, now, before, log, observed')
  {
    GrewPrefix(start, mid, log);
    GrewMore(start, before, mid, log);
    AccountedGrows(list, now, before, mid, log, observed, observed');
  }

  lemma DoneRemains(start: Buffer, list: seq<WriterUpdate>, buf: Buffer, now: seq<WriterUpdate>, done: set<KeyHash>, owner: KeyHash)
    requires Flushing(start, list, buf, now, done)
    ensures Flushing(start, list, buf, Others(now, owner), done + {owner})
  {
    assert Remains(start, buf, done + {owner});
    NextOwner(start, list, now, done, owner, buf, buf);
  }

  lemma NothingToLose(start: Buffer, buf: Buffer, blocks: set<Stored>)
    ensures NothingLost(start, [], buf, blocks)
  {}

  lemma FirstIsIn(list: seq<WriterUpdate>)
    ensures list != [] ==> list[0] in list
  {}

  lemma NoneLeft(start: Buffer, list: seq<WriterUpdate>, buf: Buffer, now: seq<WriterUpdate>, done: set<KeyHash>)
    requires Flushing(start, list, buf, now, done) && forall w :: w in list ==> w.owner in done
    ensures now == []
  {
    FirstIsIn(now);
  }

  /** The bulk path answered that the older endpoints should be used. */
  ghost predicate FellBack(before: seq<Answer>, answers: seq<Answer>, r: Outcome) {
    exists i :: |before| <= i < |answers| && OnBulk(answers[i]) && answers[i].outcome == r
  }

  lemma ToldFellBack(before: seq<Answer>, answers: seq<Answer>, r: Outcome)
    requires Told(before, answers, r)
    ensures FellBack(before, answers, Unimplemented) <==> r == Unimplemented
    ensures FellBack(before, answers, CasFailure) <==> r == CasFailure
    ensures |answers| > |before| ==> OnBulk(answers[|before|])
  {
    if |answers| > |before| {
      assert OnBulk(answers[|answers| - 1]) && answers[|answers| - 1].outcome == r;
    }
  }

  lemma SameFellBack(before: seq<Answer>, mid: seq<Answer>, answers: seq<Answer>)
    requires before <= mid <= answers && forall i :: |mid| <= i < |answers| ==> !OnBulk(answers[i])
    ensures forall r :: FellBack(before, answers, r) <==> FellBack(before, mid, r)
  {
    forall r ensures FellBack(before, answers, r) <==> FellBack(before, mid, r) {
      if FellBack(before, answers, r) {
        var i :| |before| <= i < |answers| && OnBulk(answers[i]) && answers[i].outcome == r;
        assert mid[i] == answers[i];
      }
      if FellBack(before, mid, r) {
        var i :| |before| <= i < |mid| && OnBulk(mid[i]) && mid[i].outcome == r;
        assert mid[i] == answers[i];
      }
    }
  }

  /** The owner's updates were sent: by a bulk commit the server took, or by the older
      endpoints, which is what happens when the bulk path says so. */
  ghost predicate Served(start: Buffer, owner: KeyHash, writes: seq<WriterUpdate>, before: seq<Answer>, answers: seq<Answer>) {
    && (writes == [] || CommittedBy(owner, PointersOf(writes), before, answers) || SentInSteps(start, owner, writes, before, answers))
    && (FellBack(before, answers, CasFailure) || FellBack(before, answers, Unimplemented) ==> SentInSteps(start, owner, writes, before, answers))
  }

  ghost predicate TriedBulk(known: bool, writes: seq<WriterUpdate>, before: seq<Answer>, answers: seq<Answer>) {
    && (known ==> forall i :: |before| <= i < |answers| ==> !OnBulk(answers[i]))
    && (!known && writes != [] ==> |answers| > |before| && OnBulk(answers[|before|]))
  }

  /** The bulk path is tried first, unless it is known not to be there; it becomes known when
      it is answered so. */
  ghost predicate FirstByBulk(owner: KeyHash, writes: seq<WriterUpdate>, unsupported: set<KeyHash>, unsupported': set<KeyHash>,
                              before: seq<Answer>, answers: seq<Answer>) {
    && before <= answers
    && unsupported' == unsupported + (if FellBack(before, answers, Unimplemented) then {owner} else {})
    && TriedBulk(owner in unsupported, writes, before, answers)
  }

  /** One owner's turn: the bulk call if its server knows it, the older endpoints if not
      or if the pointer has moved. */
  method FlushOwner(server: Server, store: BlockBuffer, pointers: UpdateBuffer, owner: KeyHash, start: Buffer, ghost list: seq<WriterUpdate>,
                    ghost done: set<KeyHash>, ghost before: seq<PointerSet>) returns (ok: bool)
    requires Owned(start, list) && Flushing(start, list, store.buffer, pointers.updates, done) && owner !in done
    requires GrewAnchored(start, before, server.log) && Accounted(list, pointers.updates, before, server.log, server.observed)
    modifies server, store, pointers
    ensures old(server.blocks) <= server.blocks && pointers.generation >= old(pointers.generation)
    ensures GrewAnchored(start, before, server.log) && Accounted(list, pointers.updates, before, server.log, server.observed)
    ensures NothingLost(start, pointers.updates, store.buffer, server.blocks)
    ensures SentAcceptable(old(server.sent), server.sent, SmallBuffer(start))
    ensures ok ==> Flushing(start, list, store.buffer, pointers.updates, done + {owner})
    ensures Ended(old(server.answers), server.answers, ok)
    ensures ok ==> Served(start, owner, WritesFor(old(pointers.updates), owner), old(server.answers), server.answers)
    ensures FirstByBulk(owner, WritesFor(old(pointers.updates), owner), old(store.bulkUnsupported), store.bulkUnsupported, old(server.answers), server.answers)
    ensures ok ==> pointers.updates == Others(old(pointers.updates), owner)
  {
    hide Owned, WritesFor, Others, GrewAnchored, NothingLost, Accounted, Delivered, Flushing, SentAcceptable, SmallBuffer, Ended, Told, OnBulk,
      CommittedBy, SentInSteps, FellBack;
    ghost var answers := server.answers;
    EndedNow(server.answers, Transacted(Steps, owner, Done));
    NothingSent(server.sent, SmallBuffer(start));
    ghost var mid, observed, now := server.log, server.observed, pointers.updates;
    if owner !in store.bulkUnsupported {
      var r := FlushBulk(server, store, pointers, owner, start, list, done);
      Progress(start, list, now, before, mid, server.log, observed, server.observed);
      ToldEnds(old(server.answers), server.answers, r);
      ToldFellBack(old(server.answers), server.answers, r);
      answers := server.answers;
      match r
      case Done =>
        OwnerAccounted(list, now, owner, before, mid, server.log, server.observed, start);
        DoneRemains(start, list, store.buffer, now, done, owner);
        ghost var at := pointers.DropOwner(owner);
        KeptIsOthers(now, pointers.updates, owner, at);
        NothingLostYet(start, list, store.buffer, pointers.updates, done + {owner}, server.blocks);
        return true;
      case Unimplemented =>
        store.bulkUnsupported := store.bulkUnsupported + {owner};
      case CasFailure =>
      case Failed =>
        NothingLostYet(start, list, store.buffer, now, done, server.blocks);
        return false;
    }
    mid, observed := server.log, server.observed;
    ok := FlushInSteps(server, store, pointers, owner, start, list, done);
    EndedLonger(answers, server.answers, ok);
    EndedLonger(old(server.answers), answers, true);
    EndedOn(old(server.answers), answers, server.answers, ok);
    SameFellBack(old(server.answers), answers, server.answers);
    if ok { SentSooner(start, owner, WritesFor(now, owner), old(server.answers), answers, server.answers); }
    Progress(start, list, now, before, mid, server.log, observed, server.observed);
    if pointers.updates != now {
      OwnerAccounted(list, now, owner, before, mid, server.log, server.observed, start);
    }
  }

  // ---- the whole flush ------------------------------------------------------------------------

  /** One owner's turn in a flush: the answers before it and after it. */
  datatype Turn = Turn(owner: KeyHash, before: seq<Answer>, after: seq<Answer>)

  /** The turns follow each other over the answers of the flush. In each the bulk path came
      first unless it was known not to be there, and each ended with the owner's updates
      sent, but for the last one of a flush that failed. */
  ghost predicate InTurns(start: Buffer, list: seq<WriterUpdate>, unsupported: set<KeyHash>, before: seq<Answer>, answers: seq<Answer>, turns: seq<Turn>, ok: bool) {
    && (if turns == [] then answers == before else turns[0].before == before && turns[|turns| - 1].after == answers)
    && (forall i :: 0 < i < |turns| ==> turns[i].before == turns[i - 1].after)
    && (forall i :: 0 <= i < |turns| ==> Taken(list, unsupported, turns[i]))
    && (forall i :: 0 <= i < |turns| && (ok || i < |turns| - 1) ==> ServedIn(start, list, turns[i]))
  }

  ghost predicate Taken(list: seq<WriterUpdate>, unsupported: set<KeyHash>, t: Turn) {
    t.before <= t.after && TriedBulk(t.owner in unsupported, WritesFor(list, t.owner), t.before, t.after)
  }

  ghost predicate ServedIn(start: Buffer, list: seq<WriterUpdate>, t: Turn) {
    Served(start, t.owner, WritesFor(list, t.owner), t.before, t.after)
  }

  /** Exactly the owners whose servers turned out not to know the bulk call are added. */
  ghost predicate Learnt(turns: seq<Turn>, unsupported: set<KeyHash>, unsupported': set<KeyHash>) {
    forall o :: o in unsupported' <==> o in unsupported || exists i :: 0 <= i < |turns| && turns[i].owner == o && FellBack(turns[i].before, turns[i].after, Unimplemented)
  }

  lemma NextTurn(start: Buffer, list: seq<WriterUpdate>, unsupported: set<KeyHash>, before: seq<Answer>, turns: seq<Turn>, t: Turn, ok: bool)
    requires InTurns(start, list, unsupported, before, t.before, turns, true)
    requires Taken(list, unsupported, t) && (ok ==> ServedIn(start, list, t))
    ensures InTurns(start, list, unsupported, before, t.after, turns + [t], ok)
  {
    hide Taken, ServedIn;
    var all := turns + [t];
    if turns != [] { assert all[0] == turns[0] && all[|turns| - 1] == turns[|turns| - 1]; }
    forall i | 0 < i < |all| ensures all[i].before == all[i - 1].after {
      if i < |turns| { assert all[i] == turns[i] && all[i - 1] == turns[i - 1]; }
    }
  }

  lemma NextLearnt(turns: seq<Turn>, t: Turn, unsupported: set<KeyHash>, known: set<KeyHash>, known': set<KeyHash>)
    requires Learnt(turns, unsupported, known)
    requires known' == known + (if FellBack(t.before, t.after, Unimplemented) then {t.owner} else {})
    ensures Learnt(turns + [t], unsupported, known')
  {
    hide FellBack;
    var all := turns + [t];
    forall o ensures o in known' <==> o in unsupported || exists i :: 0 <= i < |all| && all[i].owner == o && FellBack(all[i].before, all[i].after, Unimplemented) {
      if o in known && o !in unsupported {
        var i :| 0 <= i < |turns| && turns[i].owner == o && FellBack(turns[i].before, turns[i].after, Unimplemented);
        assert all[i] == turns[i];
      }
      if o in known' && o !in known { assert all[|turns|] == t; }
    }
  }

  /** An owner that had no turn yet is known not to have the bulk call iff it was before. */
  lemma NotYetLearnt(turns: seq<Turn>, owner: KeyHash, unsupported: set<KeyHash>, known: set<KeyHash>)
    requires Learnt(turns, unsupported, known) && forall t :: t in turns ==> t.owner != owner
    ensures owner in known <==> owner in unsupported
  {
    hide FellBack;
  }

  /** What an owner's turn adds to the record of the turns. */
  lemma TurnTaken(start: Buffer, list: seq<WriterUpdate>, now: seq<WriterUpdate>, unsupported: set<KeyHash>, known: set<KeyHash>, known': set<KeyHash>,
                  before: seq<Answer>, turns: seq<Turn>, t: Turn, ok: bool)
    requires InTurns(start, list, unsupported, before, t.before, turns, true) && Learnt(turns, unsupported, known)
    requires WritesFor(now, t.owner) == WritesFor(list, t.owner) && forall u :: u in turns ==> u.owner != t.owner
    requires FirstByBulk(t.owner, WritesFor(now, t.owner), known, known', t.before, t.after)
    requires ok ==> Served(start, t.owner, WritesFor(now, t.owner), t.before, t.after)
    ensures InTurns(start, list, unsupported, before, t.after, turns + [t], ok) && Learnt(turns + [t], unsupported, known')
  {
    hide InTurns, Learnt, TriedBulk, Served, WritesFor, FellBack;
    NotYetLearnt(turns, t.owner, unsupported, known);
    NextTurn(start, list, unsupported, before, turns, t, ok);
    NextLearnt(turns, t, unsupported, known, known');
  }

  ghost predicate Due(list: seq<WriterUpdate>, defaultOwner: KeyHash, owner: KeyHash) {
    if list == [] then owner == defaultOwner else exists w :: w in list && w.owner == owner
  }

  /** The owners' turns: in the order of their first updates, or the default owner's alone. */
  ghost predicate TurnsOf(list: seq<WriterUpdate>, defaultOwner: KeyHash, turns: seq<Turn>) {
    && (forall i :: 0 <= i < |turns| ==> Due(list, defaultOwner, turns[i].owner))
    && (forall i, j :: 0 <= i < j < |turns| ==> turns[i].owner != turns[j].owner && WroteFirst(list, turns[i].owner, turns[j].owner))
  }

  lemma FlushStarts(start: Buffer, list: seq<WriterUpdate>, owners: seq<KeyHash>, unsupported: set<KeyHash>, answers: seq<Answer>)
    ensures InTurns(start, list, unsupported, answers, answers, [], true) && Learnt([], unsupported, unsupported) 
    ensures Untouched(list, list, {}) && InQueue(owners, []) && OwnersIn([]) == {}
  {}

  /** Whose turns a flush takes, in order. */
  ghost predicate Queue(list: seq<WriterUpdate>, defaultOwner: KeyHash, owners: seq<KeyHash>) {
    && (forall i, j :: 0 <= i < j < |owners| ==> owners[i] != owners[j] && WroteFirst(list, owners[i], owners[j]))
    && owners != [] && forall o :: o in owners <==> Due(list, defaultOwner, o)
  }

  method QueueOf(list: seq<WriterUpdate>, defaultOwner: KeyHash) returns (owners: seq<KeyHash>)
    ensures Queue(list, defaultOwner, owners)
  {
    hide WroteFirst;
    owners := Owners(list);
    assert owners != [] ==> owners[0] in owners;
    assert list != [] ==> list[0] in list && list[0].owner in owners;
    if owners == [] {
      owners := [defaultOwner];
    }
  }

  ghost predicate InQueue(owners: seq<KeyHash>, turns: seq<Turn>) {
    |turns| <= |owners| && forall i :: 0 <= i < |turns| ==> turns[i].owner == owners[i]
  }

  lemma NextInQueue(list: seq<WriterUpdate>, defaultOwner: KeyHash, owners: seq<KeyHash>, turns: seq<Turn>)
    requires Queue(list, defaultOwner, owners) && InQueue(owners, turns) && |turns| < |owners|
    ensures owners[|turns|] !in OwnersIn(turns)
    ensures forall t: Turn :: t.owner == owners[|turns|] ==> InQueue(owners, turns + [t])
  {
    hide WroteFirst;
  }

  /** The first owners in order are owners in order, and all of them are every owner. */
  lemma QueueTurns(list: seq<WriterUpdate>, defaultOwner: KeyHash, owners: seq<KeyHash>, turns: seq<Turn>)
    requires Queue(list, defaultOwner, owners) && InQueue(owners, turns)
    ensures TurnsOf(list, defaultOwner, turns)
    ensures |turns| == |owners| ==> turns != [] && forall w :: w in list ==> w.owner in OwnersIn(turns)
  {
    hide WroteFirst;
    forall i | 0 <= i < |turns|
      ensures Due(list, defaultOwner, turns[i].owner)
    {
      assert turns[i].owner == owners[i] && owners[i] in owners;
    }
    forall i, j | 0 <= i < j < |turns| ensures turns[i].owner != turns[j].owner && WroteFirst(list, turns[i].owner, turns[j].owner) {
      assert turns[i].owner == owners[i] && turns[j].owner == owners[j];
    }
    if |turns| == |owners| {
      forall w | w in list ensures w.owner in OwnersIn(turns) {
        assert w.owner in owners;
        var i :| 0 <= i < |owners| && owners[i] == w.owner;
        assert turns[i] in turns;
      }
    }
  }

  ghost function OwnersIn(turns: seq<Turn>): set<KeyHash> { set t | t in turns :: t.owner }

  /** The updates of the owners still to come are those of the start, in their order. */
  ghost predicate Untouched(list: seq<WriterUpdate>, now: seq<WriterUpdate>, done: set<KeyHash>) {
    forall o :: o !in done ==> WritesFor(now, o) == WritesFor(list, o)
  }

  lemma NextUntouched(list: seq<WriterUpdate>, now: seq<WriterUpdate>, done: set<KeyHash>, owner: KeyHash)
    requires Untouched(list, now, done)
    ensures Untouched(list, Others(now, owner), done + {owner})
  {
    hide WritesFor, Others;
    forall o | o !in done + {owner} ensures WritesFor(Others(now, owner), o) == WritesFor(list, o) { WritesOfOthers(now, owner, o); }
  }

  /** One more turn, with what all turns so far keep. */
  method TakeTurn(server: Server, store: BlockBuffer, pointers: UpdateBuffer, owner: KeyHash, start: Buffer, ghost list: seq<WriterUpdate>,
                  ghost unsupported: set<KeyHash>, ghost before: seq<Answer>, ghost was: seq<Turn>, ghost log: seq<PointerSet>, ghost sent: seq<Call>)
    returns (ok: bool, ghost turns: seq<Turn>)
    requires Owned(start, list) && Flushing(start, list, store.buffer, pointers.updates, OwnersIn(was)) && owner !in OwnersIn(was)
    requires GrewAnchored(start, log, server.log) && Accounted(list, pointers.updates, log, server.log, server.observed)
    requires SentAcceptable(sent, server.sent, SmallBuffer(start)) && Ended(before, server.answers, true)
    requires InTurns(start, list, unsupported, before, server.answers, was, true) && Learnt(was, unsupported, store.bulkUnsupported)
    requires Untouched(list, pointers.updates, OwnersIn(was))
    modifies server, store, pointers
    ensures old(server.blocks) <= server.blocks && pointers.generation >= old(pointers.generation)
    ensures GrewAnchored(start, log, server.log) && Accounted(list, pointers.updates, log, server.log, server.observed)
    ensures NothingLost(start, pointers.updates, store.buffer, server.blocks)
    ensures SentAcceptable(sent, server.sent, SmallBuffer(start)) && Ended(before, server.answers, ok)
    ensures turns == was + [Turn(owner, old(server.answers), server.answers)]
    ensures InTurns(start, list, unsupported, before, server.answers, turns, ok) && Learnt(turns, unsupported, store.bulkUnsupported)
    ensures ok ==> Flushing(start, list, store.buffer, pointers.updates, OwnersIn(turns)) && Untouched(list, pointers.updates, OwnersIn(turns))
  {
    hide Owned, Flushing, GrewAnchored, NothingLost, Accounted, SentAcceptable, SmallBuffer, Ended, InTurns, Learnt, Served, FirstByBulk, WritesFor, Others;
    ghost var now, known := pointers.updates, store.bulkUnsupported;
    ok := FlushOwner(server, store, pointers, owner, start, list, OwnersIn(was), log);
    SentOn(sent, old(server.sent), server.sent, SmallBuffer(start));
    EndedOn(before, old(server.answers), server.answers, ok);
    ghost var turn := Turn(owner, old(server.answers), server.answers);
    TurnTaken(start, list, now, unsupported, known, store.bulkUnsupported, before, was, turn, ok);
    NextUntouched(list, now, OwnersIn(was), owner);
    turns := was + [turn];
    assert OwnersIn(turns) == OwnersIn(was) + {owner};
  }

  /** `flush`, whatever the server answers. Every pointer this client sets names a root
      all of whose blocks are on the server by then, on every path. Every bulk call is one
      the server can accept, as far as limits and reachability go. It fails exactly if an
      answer ends it (`Stops`), and then makes no further call. The owners take turns, each
      with the bulk path first and the older endpoints where that says so. Every update ends
      delivered or still buffered, and one still buffered has lost none of its blocks. A
      flush that succeeds leaves nothing behind. */
  method Flush(server: Server, store: BlockBuffer, pointers: UpdateBuffer, defaultOwner: KeyHash) returns (ok: bool, ghost turns: seq<Turn>)
    requires Owned(store.buffer, pointers.updates)
    modifies server, store, pointers
    ensures old(server.blocks) <= server.blocks
    ensures GrewAnchored(old(store.buffer), old(server.log), server.log)
    ensures Accounted(old(pointers.updates), pointers.updates, old(server.log), server.log, server.observed)
    ensures NothingLost(old(store.buffer), pointers.updates, store.buffer, server.blocks)
    ensures SentAcceptable(old(server.sent), server.sent, SmallBuffer(old(store.buffer)))
    ensures Ended(old(server.answers), server.answers, ok)
    ensures TurnsOf(old(pointers.updates), defaultOwner, turns)
    ensures InTurns(old(store.buffer), old(pointers.updates), old(store.bulkUnsupported), old(server.answers), server.answers, turns, ok)
    ensures Learnt(turns, old(store.bulkUnsupported), store.bulkUnsupported)
    ensures ok ==> turns != [] && forall w :: w in old(pointers.updates) ==> w.owner in OwnersIn(turns)
    ensures ok ==> store.buffer == map[] && pointers.updates == [] && pointers.generation > old(pointers.generation)
  {
    var owners := QueueOf(pointers.updates, defaultOwner);
    var start := store.buffer;
    ghost var list, unsupported := pointers.updates, store.bulkUnsupported;
    hide Owned, WritesFor, Others, GrewAnchored, NothingLost, Accounted, Delivered, SentAcceptable, SmallBuffer, Ended, Served, FirstByBulk,
      InTurns, Learnt, TurnsOf, Queue, InQueue, OwnersIn;
    NothingSent(server.sent, SmallBuffer(start));
    EndedNow(server.answers, Transacted(Steps, defaultOwner, Done));
    StartOfFlush(start, list, server.log, server.observed);
    hide Flushing;
    FlushStarts(start, list, owners, unsupported, server.answers);
    turns := [];
    hide Untouched;
    for i := 0 to |owners|
      invariant |turns| == i && InQueue(owners, turns)
      invariant old(server.blocks) <= server.blocks && pointers.generation >= old(pointers.generation)
      invariant Flushing(start, list, store.buffer, pointers.updates, OwnersIn(turns)) && Untouched(list, pointers.updates, OwnersIn(turns))
      invariant GrewAnchored(start, old(server.log), server.log)
      invariant Accounted(list, pointers.updates, old(server.log), server.log, server.observed)
      invariant SentAcceptable(old(server.sent), server.sent, SmallBuffer(start)) && Ended(old(server.answers), server.answers, true)
      invariant InTurns(start, list, unsupported, old(server.answers), server.answers, turns, true)
      invariant Learnt(turns, unsupported, store.bulkUnsupported)
    {
      NextInQueue(list, defaultOwner, owners, turns);
      ok, turns := TakeTurn(server, store, pointers, owners[i], start, list, unsupported, old(server.answers), turns, old(server.log), old(server.sent));
      if !ok {
        QueueTurns(list, defaultOwner, owners, turns);
        return;
      }
    }
    QueueTurns(list, defaultOwner, owners, turns);
    NoneLeft(start, list, store.buffer, pointers.updates, OwnersIn(turns));
    store.Clear();
    pointers.Clear();
    NothingToLose(start, store.buffer, server.blocks);
    ok := true;
  }
}
