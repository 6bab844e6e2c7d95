/** The server as a client's commits see it, and the bulk commit of one owner: large
    blocks ahead, then one call or a split one (`bulk_commit_owner`, `send_bulk_commit`). */
module BulkCommits {
  import opened Bytes
  import opened BlockGraph
  import opened BulkSplit
  import opened PointerBuffer

  const MAX_SMALL_BLOCK_SIZE := 100 * 1024
  const MAX_BLOCK_AUTHS := 50

  /** A block in an owner's space. */
  type Stored = (KeyHash, Id)

  /** A pointer this client has set, with the target of the update it stands for (another
      one only when `root` merges it with a remote change), the blocks the server held at
      that moment, and the blocks this client made in the merge. */
  datatype PointerSet = PointerSet(owner: KeyHash, writer: KeyHash, root: Option<Id>, target: Option<Id>, present: set<Stored>, made: Buffer)

  /** Every block of this client that the root leads to, buffered or made, is on the server. */
  ghost predicate Anchored(buf: Buffer, e: PointerSet) {
    e.root.Some? ==> forall c: Id :: Reaches(e.made + buf, e.root.value, c) ==> (e.owner, c) in e.present
  }

  ghost predicate AllAnchored(buf: Buffer, log: seq<PointerSet>) {
    forall e :: e in log ==> Anchored(buf, e)
  }

  datatype Outcome = Done | Unimplemented | CasFailure | Failed

  /** The bulk path or the older endpoints. */
  datatype Stage = Bulk | Steps

  /** What the server answered, in order, with the update a call was made for. */
  datatype Answer =
    | Uploaded(stage: Stage, owner: KeyHash, ids: set<Id>, outcome: Outcome)
    | BulkAnswered(owner: KeyHash, call: Call, outcome: Outcome)
    | Transacted(stage: Stage, owner: KeyHash, outcome: Outcome)
    | Asked(update: WriterUpdate, from: Option<Id>, root: Option<Id>, merged: bool, ok: bool)
    | Found(update: WriterUpdate, pointer: Option<Option<Id>>)
    | Merged(update: WriterUpdate, base: Id, ours: Id, theirs: Id, root: Option<Id>)

  datatype Call = Call(writers: seq<WriterCommit>, setsPointers: bool)

  function PointersOfCall(c: Call): seq<(KeyHash, Option<Id>)> { if c.setsPointers then PointersIn(c.writers) else [] }

  function InOwner(owner: KeyHash, ids: set<Id>): set<Stored> { set c | c in ids :: (owner, c) }

  /** The owners' servers. Blocks are never lost; a call that fails may have taken effect
      in part or in full, except that a bulk commit is atomic and says so truthfully when
      it was refused. */
  class Server {
    var blocks: set<Stored>
    ghost var log: seq<PointerSet>
    /** Pointers this client has read back. */
    ghost var observed: set<(KeyHash, KeyHash, Option<Id>)>
    /** The bulk commits it was sent. */
    ghost var sent: seq<Call>
    ghost var answers: seq<Answer>

    constructor ()
      ensures blocks == {} && log == [] && observed == {} && sent == [] && answers == []
    {
      blocks, log, observed, sent, answers := {}, [], {}, [], [];
    }

    method PutBlocks(ghost stage: Stage, owner: KeyHash, ids: set<Id>) returns (r: Outcome)
      modifies this`blocks, this`answers
      ensures old(blocks) <= blocks && answers == old(answers) + [Uploaded(stage, owner, ids, r)]
      ensures r == Done ==> InOwner(owner, ids) <= blocks
    {
      r := *;
      if r == Done {
        blocks := blocks + InOwner(owner, ids);
      } else {
        var part :| part <= ids;
        blocks := blocks + InOwner(owner, part);
      }
      answers := answers + [Uploaded(stage, owner, ids, r)];
    }

    /** Starting a transaction, or closing one. */
    method Transaction(ghost stage: Stage, owner: KeyHash) returns (r: Outcome)
      modifies this`answers
      ensures answers == old(answers) + [Transacted(stage, owner, r)]
    {
      r := *;
      answers := answers + [Transacted(stage, owner, r)];
    }

    /** A bulk commit: its inline blocks and, unless it carries blocks only, the pointers
        it sets, in order. */
    method BulkCommit(owner: KeyHash, call: Call) returns (r: Outcome)
      modifies this`blocks, this`log, this`sent, this`answers
      ensures old(blocks) <= blocks && sent == old(sent) + [call] && answers == old(answers) + [BulkAnswered(owner, call, r)]
      ensures r == Done ==> InOwner(owner, IdsIn(call.writers)) <= blocks && log == old(log) + Sets(owner, PointersOfCall(call), blocks)
      ensures log == old(log) || (InOwner(owner, IdsIn(call.writers)) <= blocks && log == old(log) + Sets(owner, PointersOfCall(call), blocks))
    {
      r := *;
      var applied: bool := *;
      sent, answers := sent + [call], answers + [BulkAnswered(owner, call, r)];
      if r == Done || (r == Failed && applied) {
        blocks := blocks + InOwner(owner, IdsIn(call.writers));
        log := log + Sets(owner, PointersOfCall(call), blocks);
      }
    }

    /** Swaps the pointer of update `w`, to its own target or to a merge with it. */
    method SetPointer(w: WriterUpdate, from: Option<Id>, root: Option<Id>, ghost merged: bool, ghost made: Buffer) returns (ok: bool)
      modifies this`log, this`answers
      ensures answers == old(answers) + [Asked(w, from, root, merged, ok)]
      ensures log == old(log) || log == old(log) + [PointerSet(w.owner, w.writer, root, w.update.updated, blocks, made)]
      ensures ok ==> log == old(log) + [PointerSet(w.owner, w.writer, root, w.update.updated, blocks, made)]
    {
      ok := *;
      var applied: bool := *;
      answers := answers + [Asked(w, from, root, merged, ok)];
      if ok || applied {
        log := log + [PointerSet(w.owner, w.writer, root, w.update.updated, blocks, made)];
      }
    }

    /** The pointer as it is now, which other clients may have moved. */
    method GetPointer(w: WriterUpdate) returns (r: Option<Option<Id>>)
      modifies this`observed, this`answers
      ensures answers == old(answers) + [Found(w, r)]
      ensures observed == old(observed) + if r.Some? then {(w.owner, w.writer, r.value)} else {}
    {
      r := *;
      answers := answers + [Found(w, r)];
      if r.Some? {
        observed := observed + {(w.owner, w.writer, r.value)};
      }
    }
  }

  // ---- what the answers make the client do --------------------------------------------------

  /** There is nothing to merge with. */
  ghost predicate Unmergeable(w: WriterUpdate, pointer: Option<Id>) {
    pointer != w.update.updated && (w.update.original == None || w.update.updated == None || pointer == None)
  }

  /** The answer ends a flush. On the bulk path an unknown call and a moved pointer do not:
      the older endpoints take over. Nor does a refused pointer, which is merged. */
  ghost predicate Stops(a: Answer) {
    match a
    case Uploaded(stage, _, _, r) => if stage == Bulk then r == Failed else r != Done
    case BulkAnswered(_, _, r) => r == Failed
    case Transacted(stage, _, r) => if stage == Bulk then r == Failed else r != Done
    case Asked(_, _, _, merged, ok) => merged && !ok
    case Found(w, pointer) => pointer == None || Unmergeable(w, pointer.value)
    case Merged(_, _, _, _, root) => root == None
  }

  /** The client failed exactly if an answer ended it, and made no call after that. */
  ghost predicate Ended(before: seq<Answer>, answers: seq<Answer>, ok: bool) {
    && before <= answers && (forall i :: |before| <= i < |answers| - 1 ==> !Stops(answers[i]))
    && (ok <==> |answers| == |before| || !Stops(answers[|answers| - 1]))
  }

  lemma EndedOn(before: seq<Answer>, mid: seq<Answer>, answers: seq<Answer>, ok: bool)
    requires Ended(before, mid, true) && Ended(mid, answers, ok)
    ensures Ended(before, answers, ok)
  {
    hide Stops;
    forall i | |before| <= i < |answers| - 1 ensures !Stops(answers[i]) {
      if i < |mid| { assert answers[i] == mid[i]; }
    }
    if |answers| > |before| && |answers| == |mid| { assert answers == mid; }
  }

  lemma EndedNow(before: seq<Answer>, a: Answer)
    ensures Ended(before, before, true) && Ended(before, before + [a], !Stops(a))
  {
    hide Stops;
  }

  ghost predicate OnBulk(a: Answer) { a.BulkAnswered? || ((a.Uploaded? || a.Transacted?) && a.stage == Bulk) }

  /** On the bulk path, all went well up to the last answer, which is the result. */
  ghost predicate Told(before: seq<Answer>, answers: seq<Answer>, r: Outcome) {
    && before <= answers && (forall i :: |before| <= i < |answers| ==> OnBulk(answers[i]))
    && (forall i :: |before| <= i < |answers| - 1 ==> answers[i].outcome == Done)
    && r == if |answers| == |before| then Done else answers[|answers| - 1].outcome
  }

  lemma ToldOn(before: seq<Answer>, mid: seq<Answer>, answers: seq<Answer>, r: Outcome)
    requires Told(before, mid, Done) && Told(mid, answers, r)
    ensures Told(before, answers, r)
  {
    forall i | |before| <= i < |answers| ensures OnBulk(answers[i]) && (i < |answers| - 1 ==> answers[i].outcome == Done) {
      if i < |mid| { assert answers[i] == mid[i]; }
    }
    if |answers| == |mid| { assert answers == mid; }
  }

  lemma ToldNow(before: seq<Answer>, a: Answer)
    ensures Told(before, before, Done) && (OnBulk(a) ==> Told(before, before + [a], a.outcome))
  {}

  lemma ToldEnds(before: seq<Answer>, answers: seq<Answer>, r: Outcome)
    requires Told(before, answers, r)
    ensures Ended(before, answers, r != Failed)
  {}

  ghost function Sets(owner: KeyHash, sets: seq<(KeyHash, Option<Id>)>, present: set<Stored>): seq<PointerSet> {
    seq(|sets|, i requires 0 <= i < |sets| => PointerSet(owner, sets[i].0, sets[i].1, sets[i].1, present, map[]))
  }

  // ---- the bulk path ------------------------------------------------------------------------

  function IdsOf(bs: seq<Inline>): set<Id> { set b | b in bs :: b.0 }

  function IdsIn(ws: seq<WriterCommit>): set<Id> {
    if ws == [] then {} else IdsIn(ws[..|ws| - 1]) + IdsOf(ws[|ws| - 1].cbor) + IdsOf(ws[|ws| - 1].raw)
  }

  lemma {:induction false} TaggedIds(w: KeyHash, bs: seq<Inline>, e: (KeyHash, Inline))
    ensures e in Tagged(w, bs) <==> e.0 == w && e.1 in bs
  {
    if bs != [] {
      TaggedIds(w, bs[..|bs| - 1], e);
      assert bs == bs[..|bs| - 1] + [bs[|bs| - 1]];
    }
  }

  lemma {:induction false} CarriedIds(ws: seq<WriterCommit>, e: (KeyHash, Inline))
    ensures e in Carried(ws) ==> e.1.0 in IdsIn(ws)
  {
    if ws != [] {
      CarriedIds(ws[..|ws| - 1], e);
      TaggedIds(ws[|ws| - 1].writer, ws[|ws| - 1].cbor, e);
      TaggedIds(ws[|ws| - 1].writer, ws[|ws| - 1].raw, e);
    }
  }

  lemma {:induction false} CarriedHas(ws: seq<WriterCommit>, i: nat, b: Inline)
    requires i < |ws| && b in InlineOf(ws[i])
    ensures (ws[i].writer, b) in Carried(ws)
  {
    hide Tagged, Carried;
    var n := |ws| - 1;
    var w := ws[n];
    assert ws == ws[..n] + [w];
    CarriedStep(ws[..n], w);
    if i < n {
      CarriedHas(ws[..n], i, b);
    } else {
      TaggedIds(w.writer, w.cbor, (w.writer, b));
      TaggedIds(w.writer, w.raw, (w.writer, b));
    }
  }

  lemma {:induction false} CarriedAllIds(calls: seq<seq<WriterCommit>>, e: (KeyHash, Inline))
    requires e in CarriedAll(calls)
    ensures exists i :: 0 <= i < |calls| && e.1.0 in IdsIn(calls[i])
  {
    var n := |calls| - 1;
    if e in Carried(calls[n]) {
      CarriedIds(calls[n], e);
    } else {
      CarriedAllIds(calls[..n], e);
      var i :| 0 <= i < n && e.1.0 in IdsIn(calls[..n][i]);
    }
  }

  /** The pointers a final call sets. */
  function PointersIn(ws: seq<WriterCommit>): seq<(KeyHash, Option<Id>)> {
    seq(|ws|, i requires 0 <= i < |ws| => (ws[i].writer, ws[i].pointer))
  }

  // ---- what the server is sent ------------------------------------------------------------------

  /** A writer's inline blocks are joined to the root it signs by paths among themselves. */
  ghost predicate Joined(w: WriterCommit) {
    forall c: Id :: c in GraphOf(InlineOf(w)) ==> w.pointer.Some? && Reaches(GraphOf(InlineOf(w)), w.pointer.value, c)
  }

  /** A call the server can accept: a blocks-only one keeps the limits when no block is
      empty or too large for a call, and one that sets pointers keeps them when not too many
      blocks were written ahead, and has each writer's blocks joined to its root. */
  ghost predicate Acceptable(c: Call, small: bool) {
    if c.setsPointers then
      (PreWrittenCount(c.writers) <= MAX_BULK_COMMIT_BLOCKS ==> WithinLimits(c.writers)) && forall i :: 0 <= i < |c.writers| ==> Joined(c.writers[i])
    else BlocksOnly(c.writers, small)
  }

  ghost predicate SentAcceptable(before: seq<Call>, sent: seq<Call>, small: bool) {
    before <= sent && forall i :: |before| <= i < |sent| ==> Acceptable(sent[i], small)
  }

  lemma {:induction false} CborRawMembers(bs: seq<Inline>, b: Inline)
    ensures b in Cbor(bs) || b in Raw(bs) <==> b in bs
  {
    if bs != [] {
      CborRawMembers(bs[..|bs| - 1], b);
      assert bs == bs[..|bs| - 1] + [bs[|bs| - 1]];
    }
  }

  lemma {:induction false} GraphMembers(bs: seq<Inline>, b: Inline)
    requires b in bs
    ensures b.0 in GraphOf(bs)
  {
    var n := |bs| - 1;
    if bs[n] != b { GraphMembers(bs[..n], b); }
  }

  /** The same blocks in another order are the same graph. */
  lemma SameGraph(a: seq<Inline>, b: seq<Inline>)
    requires DistinctIds(a) && forall x :: x in a <==> x in b
    ensures GraphOf(a) == GraphOf(b)
  {
    hide GraphOf;
    var g, h := GraphOf(a), GraphOf(b);
    forall c: Id ensures c in g <==> c in h
                 ensures c in h ==> c in g && g[c] == h[c] {
      if c in g {
        GraphFrom(a, c);
        GraphMembers(b, (c, g[c]));
      }
      if c in h {
        GraphFrom(b, c);
        var i :| 0 <= i < |a| && a[i] == (c, h[c]);
        GraphHas(a, i);
      }
    }
  }

  /** The share of the final call is joined to its root by itself, if the whole was. */
  lemma ShareJoined(w: WriterCommit, last: WriterCommit, top: seq<Inline>)
    requires FinalShare(w, last, top, w.pointer) && Joined(w)
    ensures Joined(last)
  {
    hide GraphOf, Reaches, Hangs, Cbor, Raw;
    forall b ensures b in InlineOf(last) <==> b in top {
      CborRawMembers(top, b);
      assert b in InlineOf(last) <==> b in last.cbor || b in last.raw;
    }
    SameGraph(top, InlineOf(last));
    forall c: Id | c in GraphOf(top) ensures last.pointer.Some? && Reaches(GraphOf(top), last.pointer.value, c) {
      GraphFrom(top, c);
      var i :| 0 <= i < |top| && top[i] == (c, GraphOf(top)[c]);
      JoinedReaches(w, top[i]);
      HangsReaches(top, w.pointer, i);
    }
  }

  lemma JoinedReaches(w: WriterCommit, b: Inline)
    requires Joined(w) && b in InlineOf(w)
    ensures RootReachesAll(w, w.pointer)
  {
    hide GraphOf, Reaches;
    GraphMembers(InlineOf(w), b);
  }

  lemma SentMore(before: seq<Call>, sent: seq<Call>, call: Call, small: bool)
    requires SentAcceptable(before, sent, small) && Acceptable(call, small)
    ensures SentAcceptable(before, sent + [call], small)
  {
    hide Acceptable;
  }

  lemma BlocksOnlyIf(call: seq<WriterCommit>, all: bool, small: bool)
    requires BlocksOnly(call, all) && (small ==> all)
    ensures BlocksOnly(call, small)
  {}

  /** `send_bulk_commit`: in one call, or split with the pointers in the last. By the
      time any pointer is set, every inline block of the commit is on the server, and every
      call is one it can accept. */
  method SendBulkCommit(server: Server, owner: KeyHash, writers: seq<WriterCommit>, roots: seq<Option<Id>>, hasTid: bool, ghost small: bool) returns (r: Outcome)
    requires |roots| == |writers| && forall i :: 0 <= i < |writers| ==> ValidCommit(writers[i])
    requires forall i :: 0 <= i < |writers| ==> roots[i] == writers[i].pointer && Joined(writers[i]) && (small ==> SmallBlocks(InlineOf(writers[i])))
    modifies server`blocks, server`log, server`sent, server`answers
    ensures old(server.blocks) <= server.blocks && SentAcceptable(old(server.sent), server.sent, small)
    ensures Told(old(server.answers), server.answers, r) && |server.answers| > |old(server.answers)|
    ensures r == Done ==> CommittedBy(owner, PointersIn(writers), old(server.answers), server.answers)
    ensures server.log == old(server.log)
         || (server.log == old(server.log) + Sets(owner, PointersIn(writers), server.blocks)
             && forall i, b :: 0 <= i < |writers| && b in InlineOf(writers[i]) ==> (owner, b.0) in server.blocks)
    ensures r == Done ==> server.log == old(server.log) + Sets(owner, PointersIn(writers), server.blocks)
    ensures WithinLimits(writers) ==> server.sent == old(server.sent) + [Call(writers, true)]
  {
    hide ValidCommit, Carried, CarriedAll, IdsIn, FinalShare, BlocksOnly, Tagged, InlineSize, BlockCount, PreWrittenCount, Joined, SmallBlocks,
      SentAcceptable, InlineOf, Told, OnBulk;
    var size, count := Measure(writers);
    forall i, b | 0 <= i < |writers| && b in InlineOf(writers[i]) ensures b.0 in IdsIn(writers) {
      CarriedHas(writers, i, b);
      CarriedIds(writers, (writers[i].writer, b));
    }
    NothingSent(server.sent, small);
    if size <= MAX_BULK_INLINE && count + PreWrittenCount(writers) <= MAX_BULK_COMMIT_BLOCKS {
      SentMore(old(server.sent), server.sent, Call(writers, true), small);
      r := server.BulkCommit(owner, Call(writers, true));
      ToldBulk(old(server.answers), owner, Call(writers, true), r);
      return;
    }
    r := SendSplit(server, owner, writers, roots, hasTid, small);
  }

  /** The commit in several calls, held by a transaction until the last sets the pointers. */
  method SendSplit(server: Server, owner: KeyHash, writers: seq<WriterCommit>, roots: seq<Option<Id>>, hasTid: bool, ghost small: bool) returns (r: Outcome)
    requires |roots| == |writers| && forall i :: 0 <= i < |writers| ==> ValidCommit(writers[i])
    requires forall i :: 0 <= i < |writers| ==> roots[i] == writers[i].pointer && Joined(writers[i]) && (small ==> SmallBlocks(InlineOf(writers[i])))
    modifies server`blocks, server`log, server`sent, server`answers
    ensures old(server.blocks) <= server.blocks && SentAcceptable(old(server.sent), server.sent, small)
    ensures Told(old(server.answers), server.answers, r) && |server.answers| > |old(server.answers)|
    ensures r == Done ==> CommittedBy(owner, PointersIn(writers), old(server.answers), server.answers)
    ensures server.log == old(server.log)
         || (server.log == old(server.log) + Sets(owner, PointersIn(writers), server.blocks)
             && forall i, b :: 0 <= i < |writers| && b in InlineOf(writers[i]) ==> (owner, b.0) in server.blocks)
    ensures r == Done ==> server.log == old(server.log) + Sets(owner, PointersIn(writers), server.blocks)
  {
    hide ValidCommit, Carried, CarriedAll, IdsIn, FinalShare, BlocksOnly, Tagged, InlineSize, BlockCount, PreWrittenCount, Joined, SmallBlocks,
      SentAcceptable, InlineOf, Told, OnBulk, CommittedBy, CallsFull, Acceptable;
    NothingSent(server.sent, small);
    ghost var answers := server.answers;
    if !hasTid {
      r := server.Transaction(Bulk, owner);
      ToldTransaction(answers, owner, r);
      if r != Done {
        return;
      }
    } else {
      ToldNow(answers, Transacted(Bulk, owner, Done));
    }
    answers := server.answers;
    ghost var tops, rests;
    var calls, last;
    calls, last, tops, rests := Split(writers, roots);
    SplitAcceptable(writers, roots, calls, last, tops, small);
    var sent := SendBlocksOnly(server, owner, calls, small);
    ToldOn(old(server.answers), answers, server.answers, sent);
    if sent != Done {
      SomeAnswer(old(server.answers), server.answers, sent);
      return sent;
    }
    answers := server.answers;
    SentMore(old(server.sent), server.sent, Call(last, true), small);
    r := server.BulkCommit(owner, Call(last, true));
    ToldBulk(answers, owner, Call(last, true), r);
    ToldOn(old(server.answers), answers, server.answers, r);
    ToldLonger(old(server.answers), answers, Done);
    if r == Done {
      CommittedNow(owner, PointersIn(writers), old(server.answers), answers, Call(last, true));
      if !hasTid {
        answers := server.answers;
        r := server.Transaction(Bulk, owner);
        ToldTransaction(answers, owner, r);
        ToldOn(old(server.answers), answers, server.answers, r);
        CommittedStill(owner, PointersIn(writers), old(server.answers), answers, server.answers);
      }
    }
    if server.log != old(server.log) {
      SplitStored(owner, writers, calls, last, server.blocks);
    }
  }

  /** Every inline block is in one of the calls. */
  lemma SplitStored(owner: KeyHash, writers: seq<WriterCommit>, calls: seq<seq<WriterCommit>>, last: seq<WriterCommit>, blocks: set<Stored>)
    requires CarriedAll(calls) + Carried(last) == Carried(writers) && InOwner(owner, IdsIn(last)) <= blocks
    requires forall k :: 0 <= k < |calls| ==> InOwner(owner, IdsIn(calls[k])) <= blocks
    ensures forall i, b :: 0 <= i < |writers| && b in InlineOf(writers[i]) ==> (owner, b.0) in blocks
  {
    hide IdsIn, Carried, CarriedAll, InlineOf;
    forall i, b | 0 <= i < |writers| && b in InlineOf(writers[i]) ensures (owner, b.0) in blocks {
      SplitCarries(writers, calls, last, i, b);
      if b.0 !in IdsIn(last) {
        var k :| 0 <= k < |calls| && b.0 in IdsIn(calls[k]);
        assert (owner, b.0) in InOwner(owner, IdsIn(calls[k]));
      } else {
        assert (owner, b.0) in InOwner(owner, IdsIn(last));
      }
    }
  }

  /** The server took a commit that set these pointers. */
  ghost predicate CommittedBy(owner: KeyHash, pointers: seq<(KeyHash, Option<Id>)>, before: seq<Answer>, answers: seq<Answer>) {
    exists i :: |before| <= i < |answers| && answers[i].BulkAnswered? && answers[i].owner == owner && answers[i].outcome == Done
                && PointersOfCall(answers[i].call) == pointers
  }

  lemma CommittedNow(owner: KeyHash, pointers: seq<(KeyHash, Option<Id>)>, before: seq<Answer>, mid: seq<Answer>, call: Call)
    requires |before| <= |mid| && PointersOfCall(call) == pointers
    ensures CommittedBy(owner, pointers, before, mid + [BulkAnswered(owner, call, Done)])
  {
    assert (mid + [BulkAnswered(owner, call, Done)])[|mid|] == BulkAnswered(owner, call, Done);
  }

  lemma CommittedStill(owner: KeyHash, pointers: seq<(KeyHash, Option<Id>)>, before: seq<Answer>, mid: seq<Answer>, answers: seq<Answer>)
    requires CommittedBy(owner, pointers, before, mid) && mid <= answers
    ensures CommittedBy(owner, pointers, before, answers)
  {
    var i :| |before| <= i < |mid| && mid[i].BulkAnswered? && mid[i].owner == owner && mid[i].outcome == Done && PointersOfCall(mid[i].call) == pointers;
    assert answers[i] == mid[i];
  }

  lemma ToldBulk(before: seq<Answer>, owner: KeyHash, call: Call, r: Outcome)
    ensures Told(before, before + [BulkAnswered(owner, call, r)], r)
    ensures r == Done ==> CommittedBy(owner, PointersOfCall(call), before, before + [BulkAnswered(owner, call, r)])
  {
    ToldNow(before, BulkAnswered(owner, call, r));
    if r == Done { CommittedNow(owner, PointersOfCall(call), before, before, call); }
  }

  lemma ToldTransaction(before: seq<Answer>, owner: KeyHash, r: Outcome)
    ensures Told(before, before + [Transacted(Bulk, owner, r)], r)
  {
    ToldNow(before, Transacted(Bulk, owner, r));
  }

  lemma ToldLonger(before: seq<Answer>, answers: seq<Answer>, r: Outcome)
    requires Told(before, answers, r)
    ensures |before| <= |answers|
  {}

  lemma SomeAnswer(before: seq<Answer>, answers: seq<Answer>, r: Outcome)
    requires Told(before, answers, r) && r != Done
    ensures |answers| > |before|
  {}

  lemma NothingSent(sent: seq<Call>, small: bool)
    ensures SentAcceptable(sent, sent, small)
  {}

  /** All the calls of a split commit can be accepted. */
  lemma SplitAcceptable(writers: seq<WriterCommit>, roots: seq<Option<Id>>, calls: seq<seq<WriterCommit>>, last: seq<WriterCommit>,
                        tops: seq<seq<Inline>>, small: bool)
    requires |last| == |tops| == |writers| == |roots|
    requires forall i :: 0 <= i < |writers| ==> FinalShare(writers[i], last[i], tops[i], roots[i])
    requires PreWrittenCount(writers) <= MAX_BULK_COMMIT_BLOCKS ==> WithinLimits(last)
    requires var all := forall i :: 0 <= i < |writers| ==> SmallBlocks(InlineOf(writers[i])); forall c :: c in calls ==> BlocksOnly(c, all)
    requires forall i :: 0 <= i < |writers| ==> roots[i] == writers[i].pointer && Joined(writers[i]) && (small ==> SmallBlocks(InlineOf(writers[i])))
    ensures PointersIn(last) == PointersIn(writers) && Acceptable(Call(last, true), small)
    ensures forall k :: 0 <= k < |calls| ==> Acceptable(Call(calls[k], false), small)
  {
    hide FinalShare, BlocksOnly, Joined, SmallBlocks, InlineOf, WithinLimits, PreWrittenCount;
    SamePointers(writers, last, tops, roots);
    SamePreWritten(writers, last, tops, roots);
    forall i | 0 <= i < |last| ensures Joined(last[i]) {
      ShareJoined(writers[i], last[i], tops[i]);
    }
    ghost var all := forall i :: 0 <= i < |writers| ==> SmallBlocks(InlineOf(writers[i]));
    forall k | 0 <= k < |calls| ensures BlocksOnly(calls[k], small) {
      assert calls[k] in calls;
      BlocksOnlyIf(calls[k], all, small);
    }
  }

  lemma {:induction false} SamePreWritten(writers: seq<WriterCommit>, last: seq<WriterCommit>, tops: seq<seq<Inline>>, roots: seq<Option<Id>>)
    requires |last| == |tops| == |writers| == |roots|
    requires forall i :: 0 <= i < |writers| ==> FinalShare(writers[i], last[i], tops[i], roots[i])
    ensures PreWrittenCount(last) == PreWrittenCount(writers)
  {
    hide FinalShare;
    if writers != [] {
      var n := |writers| - 1;
      ShareFields(writers[n], last[n], tops[n], roots[n]);
      SamePreWritten(writers[..n], last[..n], tops[..n], roots[..n]);
    }
  }

  /** The blocks-only calls of a split commit, which set no pointer. */
  method SendBlocksOnly(server: Server, owner: KeyHash, calls: seq<seq<WriterCommit>>, ghost small: bool) returns (r: Outcome)
    requires forall k :: 0 <= k < |calls| ==> Acceptable(Call(calls[k], false), small)
    modifies server`blocks, server`log, server`sent, server`answers
    ensures old(server.blocks) <= server.blocks && server.log == old(server.log) && SentAcceptable(old(server.sent), server.sent, small)
    ensures Told(old(server.answers), server.answers, r)
    ensures r == Done ==> forall k :: 0 <= k < |calls| ==> InOwner(owner, IdsIn(calls[k])) <= server.blocks
  {
    hide IdsIn, Acceptable, SentAcceptable, Told;
    NothingSent(server.sent, small);
    ToldNow(server.answers, Transacted(Bulk, owner, Done));
    for j := 0 to |calls|
      invariant Told(old(server.answers), server.answers, Done)
      invariant old(server.blocks) <= server.blocks && server.log == old(server.log) && SentAcceptable(old(server.sent), server.sent, small)
      invariant forall k :: 0 <= k < j ==> InOwner(owner, IdsIn(calls[k])) <= server.blocks
    {
      SentMore(old(server.sent), server.sent, Call(calls[j], false), small);
      ghost var answers := server.answers;
      r := server.BulkCommit(owner, Call(calls[j], false));
      ToldBulk(answers, owner, Call(calls[j], false), r);
      ToldOn(old(server.answers), answers, server.answers, r);
      assert Sets(owner, [], server.blocks) == [];
      if r != Done {
        return;
      }
    }
    r := Done;
  }

  method Measure(ws: seq<WriterCommit>) returns (size: nat, count: nat)
    ensures size == InlineSize(ws) && count == BlockCount(ws)
  {
    size, count := 0, 0;
    assert ws[..0] == [];
    for i := 0 to |ws|
      invariant size == InlineSize(ws[..i]) && count == BlockCount(ws[..i])
    {
      assert ws[..i + 1][..i] == ws[..i];
      size := size + ByteSize(ws[i].cbor) + ByteSize(ws[i].raw);
      count := count + |ws[i].cbor| + |ws[i].raw|;
    }
    assert ws[..|ws|] == ws;
  }

  lemma SamePointers(writers: seq<WriterCommit>, last: seq<WriterCommit>, tops: seq<seq<Inline>>, roots: seq<Option<Id>>)
    requires |last| == |tops| == |writers| == |roots|
    requires forall i :: 0 <= i < |writers| ==> FinalShare(writers[i], last[i], tops[i], roots[i])
    ensures PointersIn(last) == PointersIn(writers)
  {
    forall i | 0 <= i < |writers| ensures PointersIn(last)[i] == PointersIn(writers)[i] {
      ShareFields(writers[i], last[i], tops[i], roots[i]);
    }
  }

  lemma SplitCarries(writers: seq<WriterCommit>, calls: seq<seq<WriterCommit>>, last: seq<WriterCommit>, i: nat, b: Inline)
    requires CarriedAll(calls) + Carried(last) == Carried(writers) && i < |writers| && b in InlineOf(writers[i])
    ensures b.0 in IdsIn(last) || exists k :: 0 <= k < |calls| && b.0 in IdsIn(calls[k])
  {
    hide IdsIn, Carried, CarriedAll;
    var e := (writers[i].writer, b);
    CarriedHas(writers, i, b);
    assert e in CarriedAll(calls) + Carried(last);
    if e in CarriedAll(calls) {
      CarriedAllIds(calls, e);
    } else {
      CarriedIds(last, e);
    }
  }

  // ---- one owner's commit ----------------------------------------------------------------------

  /** What the roots lead to belongs to the owner. */
  ghost predicate OwnedBy(buf: Buffer, owner: KeyHash, roots: seq<Option<Id>>) {
    forall i: nat, c: Id :: RootReaches(buf, roots, i, c) ==> c in buf && buf[c].owner == owner
  }

  ghost predicate IsSmall(b: Inline) { |b.1.data| < 102_400 }

  /** A part sorted by how its blocks travel: cbor and small raw inline, large raw ahead. */
  ghost predicate SortedPart(part: seq<Inline>, cbor: seq<Inline>, raw: seq<Inline>, large: seq<Inline>) {
    && (forall b :: b in cbor <==> b in part && !b.1.isRaw)
    && (forall b :: b in raw <==> b in part && b.1.isRaw && IsSmall(b))
    && (forall b :: b in large <==> b in part && b.1.isRaw && !IsSmall(b))
    && DistinctIds(cbor + raw)
  }

  method SortPart(part: seq<Inline>) returns (cbor: seq<Inline>, raw: seq<Inline>, large: seq<Inline>)
    requires DistinctIds(part)
    ensures SortedPart(part, cbor, raw, large)
  {
    cbor, raw, large := [], [], [];
    for i := 0 to |part|
      invariant SortedPart(part[..i], cbor, raw, large)
    {
      var b := part[i];
      FreshId(part, i);
      SortStep(part[..i], cbor, raw, large, b);
      hide SortedPart;
      assert part[..i + 1] == part[..i] + [b];
      if !b.1.isRaw {
        cbor := cbor + [b];
      } else if |b.1.data| < MAX_SMALL_BLOCK_SIZE {
        raw := raw + [b];
      } else {
        large := large + [b];
      }
    }
    assert part[..|part|] == part;
  }

  lemma FreshId(part: seq<Inline>, i: nat)
    requires DistinctIds(part) && i < |part|
    ensures forall e :: e in part[..i] ==> e.0 != part[i].0
  {}

  lemma SortStep(done: seq<Inline>, cbor: seq<Inline>, raw: seq<Inline>, large: seq<Inline>, b: Inline)
    requires SortedPart(done, cbor, raw, large) && forall e :: e in done ==> e.0 != b.0
    ensures !b.1.isRaw ==> SortedPart(done + [b], cbor + [b], raw, large)
    ensures b.1.isRaw && IsSmall(b) ==> SortedPart(done + [b], cbor, raw + [b], large)
    ensures b.1.isRaw && !IsSmall(b) ==> SortedPart(done + [b], cbor, raw, large + [b])
  {
    hide IsSmall;
    forall e | e in cbor + raw ensures e.0 != b.0 { assert e in cbor || e in raw; }
    AddDistinct(cbor, raw, b);
    AddDistinct(cbor + raw, [], b);
    assert cbor + raw + [b] + [] == cbor + (raw + [b]);
    hide DistinctIds;
    assert forall e :: e in done + [b] <==> e in done || e == b;
  }

  lemma AddDistinct(p: seq<Inline>, q: seq<Inline>, b: Inline)
    requires DistinctIds(p + q) && forall e :: e in p + q ==> e.0 != b.0
    ensures DistinctIds(p + [b] + q)
  {
    var all := p + [b] + q;
    forall i, j | 0 <= i < j < |all| ensures all[i].0 != all[j].0 {
      var i', j' := if i < |p| then i else i - 1, if j < |p| then j else j - 1;
      assert i < |p| ==> all[i] == (p + q)[i];
      assert i > |p| ==> all[i] == (p + q)[i - 1];
      assert j < |p| ==> all[j] == (p + q)[j];
      assert j > |p| ==> all[j] == (p + q)[j - 1];
      assert i != |p| ==> all[i] in p + q;
      assert j != |p| ==> all[j] in p + q;
    }
  }

  /** `pre_write`: in batches of at most `MAX_BLOCK_AUTHS`. */
  method PreWrite(server: Server, owner: KeyHash, large: seq<Inline>) returns (r: Outcome, ids: seq<Id>)
    modifies server`blocks, server`answers
    ensures old(server.blocks) <= server.blocks && Told(old(server.answers), server.answers, r)
    ensures forall i :: |old(server.answers)| <= i < |server.answers| ==> server.answers[i].Uploaded? && |server.answers[i].ids| <= 50
    ensures r == Done ==> |ids| == |large| && forall i :: 0 <= i < |large| ==> ids[i] == large[i].0 && (owner, ids[i]) in server.blocks
  {
    hide Told;
    ids := [];
    ToldNow(server.answers, Transacted(Bulk, owner, Done));
    while |ids| < |large|
      invariant |ids| <= |large| && old(server.blocks) <= server.blocks
      invariant Told(old(server.answers), server.answers, Done) && |old(server.answers)| <= |server.answers|
      invariant forall i :: |old(server.answers)| <= i < |server.answers| ==> server.answers[i].Uploaded? && |server.answers[i].ids| <= MAX_BLOCK_AUTHS
      invariant forall i :: 0 <= i < |ids| ==> ids[i] == large[i].0 && (owner, ids[i]) in server.blocks
      decreases |large| - |ids|
    {
      var n := if |ids| + MAX_BLOCK_AUTHS <= |large| then |ids| + MAX_BLOCK_AUTHS else |large|;
      var batch := large[|ids|..n];
      IdsCount(batch);
      ghost var answers := server.answers;
      r := server.PutBlocks(Bulk, owner, IdsOf(batch));
      ToldNow(answers, Uploaded(Bulk, owner, IdsOf(batch), r));
      ToldOn(old(server.answers), answers, server.answers, r);
      if r != Done {
        return;
      }
      forall b | b in batch ensures (owner, b.0) in server.blocks {
        assert (owner, b.0) in InOwner(owner, IdsOf(batch));
      }
      ids := ids + seq(|batch|, i requires 0 <= i < |batch| => batch[i].0);
    }
    r := Done;
  }

  lemma {:induction false} IdsCount(bs: seq<Inline>)
    ensures |IdsOf(bs)| <= |bs|
  {
    if bs != [] {
      var n := |bs| - 1;
      IdsCount(bs[..n]);
      assert bs == bs[..n] + [bs[n]];
      assert IdsOf(bs) == IdsOf(bs[..n]) + {bs[n].0};
    }
  }

  /** A writer's commit made ready: its own part, inline or already on the server. */
  ghost predicate Prepared(part: seq<Inline>, w: WriterCommit, owner: KeyHash, blocks: set<Stored>) {
    && ValidCommit(w)
    && (forall b :: b in InlineOf(w) ==> b in part)
    && (forall b :: b in part ==> b in InlineOf(w) || (b.1.isRaw && (owner, b.0) in blocks))
  }

  lemma SortedIsPrepared(part: seq<Inline>, w: WriterCommit, large: seq<Inline>, owner: KeyHash, blocks: set<Stored>)
    requires SortedPart(part, w.cbor, w.raw, large) && forall b :: b in large ==> (owner, b.0) in blocks
    ensures Prepared(part, w, owner, blocks)
  {
    hide IsSmall, DistinctIds;
    assert forall b :: b in InlineOf(w) <==> b in w.cbor || b in w.raw;
  }

  /** A writer's inline blocks all hang off the root it signs, within its own commit:
      the path from the root runs through the part, and only its end can be raw. */
  lemma PreparedHangs(buf: Buffer, owner: KeyHash, roots: seq<Option<Id>>, i: nat, part: seq<Inline>, w: WriterCommit, blocks: set<Stored>)
    requires i < |roots| && OwnedBy(buf, owner, roots) && PartLists(buf, part, iset c | FirstReaches(buf, owner, roots, i, c))
    requires Prepared(part, w, owner, blocks) && InlineOf(w) != []
    ensures RootReachesAll(w, roots[i])
  {
    hide OwnedBy, Prepared, GraphOf, Reaches;
    var g := GraphOf(InlineOf(w));
    forall c | c in g ensures roots[i].Some? && Reaches(g, roots[i].value, c) {
      InlineReached(buf, owner, roots, i, part, w, blocks, c);
    }
    PreparedGraph(part, w, owner, blocks, InlineOf(w)[0]);
  }

  lemma PreparedGraph(part: seq<Inline>, w: WriterCommit, owner: KeyHash, blocks: set<Stored>, b: Inline)
    requires Prepared(part, w, owner, blocks) && b in InlineOf(w)
    ensures b.0 in GraphOf(InlineOf(w)) && GraphOf(InlineOf(w))[b.0] == b.1
  {
    var i :| 0 <= i < |InlineOf(w)| && InlineOf(w)[i] == b;
    GraphHas(InlineOf(w), i);
  }

  lemma InlineReached(buf: Buffer, owner: KeyHash, roots: seq<Option<Id>>, i: nat, part: seq<Inline>, w: WriterCommit,
                      blocks: set<Stored>, c: Id)
    requires i < |roots| && OwnedBy(buf, owner, roots) && PartLists(buf, part, iset c | FirstReaches(buf, owner, roots, i, c))
    requires Prepared(part, w, owner, blocks) && c in GraphOf(InlineOf(w))
    ensures roots[i].Some? && Reaches(GraphOf(InlineOf(w)), roots[i].value, c)
  {
    hide GraphOf, DistinctIds, ValidCommit, Reaches;
    var g := GraphOf(InlineOf(w));
    GraphFrom(InlineOf(w), c);
    assert (c, g[c]) in part;
    var p := PartIsSelfContained(buf, owner, roots, i, c);
    forall k | 0 <= k < |p| ensures p[k] in g && g[p[k]] == buf[p[k]] {
      var b := (p[k], buf[p[k]]);
      assert FirstReaches(buf, owner, roots, i, p[k]);
      assert b in part;
      if k < |p| - 1 {
        assert p[k + 1] in Outgoing(buf[p[k]]);
      } else {
        assert b == (c, g[c]);
      }
      PreparedGraph(part, w, owner, blocks, b);
    }
    assert PathTo(g, p, roots[i].value, c);
    PathReaches(g, p, roots[i].value, c);
  }

  lemma PathReaches(g: Buffer, p: seq<Id>, root: Id, c: Id)
    requires PathTo(g, p, root, c)
    ensures Reaches(g, root, c)
  {}

  /** Of the roots that reach a block, one is first. */
  lemma {:induction false} SomeFirst(buf: Buffer, owner: KeyHash, roots: seq<Option<Id>>, i: nat, c: Id) returns (j: nat)
    requires RootReaches(buf, roots, i, c) && c in buf && buf[c].owner == owner
    ensures j <= i && FirstReaches(buf, owner, roots, j, c)
  {
    if k: nat :| k < i && RootReaches(buf, roots, k, c) {
      j := SomeFirst(buf, owner, roots, k, c);
    } else {
      j := i;
    }
  }

  ghost predicate AllPrepared(parts: seq<seq<Inline>>, writers: seq<WriterCommit>, owner: KeyHash, blocks: set<Stored>) {
    |writers| <= |parts| && forall i :: 0 <= i < |writers| ==> Prepared(parts[i], writers[i], owner, blocks)
  }

  lemma PreparedGrows(parts: seq<seq<Inline>>, writers: seq<WriterCommit>, owner: KeyHash, blocks: set<Stored>, blocks': set<Stored>)
    requires AllPrepared(parts, writers, owner, blocks) && blocks <= blocks'
    ensures AllPrepared(parts, writers, owner, blocks')
  {
    hide ValidCommit;
    forall i | 0 <= i < |writers| ensures Prepared(parts[i], writers[i], owner, blocks') {
      assert Prepared(parts[i], writers[i], owner, blocks);
    }
  }

  /** With every part sent, whatever any of the roots leads to is on the server. */
  lemma PartsCover(buf: Buffer, owner: KeyHash, roots: seq<Option<Id>>, parts: seq<seq<Inline>>, writers: seq<WriterCommit>,
                   blocks: set<Stored>, i: nat, c: Id)
    requires OwnedBy(buf, owner, roots) && |parts| == |roots| == |writers| && RootReaches(buf, roots, i, c)
    requires forall i :: 0 <= i < |roots| ==> PartLists(buf, parts[i], iset c | FirstReaches(buf, owner, roots, i, c))
    requires AllPrepared(parts, writers, owner, blocks)
    requires forall i, b :: 0 <= i < |writers| && b in InlineOf(writers[i]) ==> (owner, b.0) in blocks
    ensures (owner, c) in blocks
  {
    hide RootReaches, ValidCommit, DistinctIds, InlineOf;
    var j := SomeFirst(buf, owner, roots, i, c);
    FirstBelow(buf, owner, roots, j, c);
    assert PartLists(buf, parts[j], iset c | FirstReaches(buf, owner, roots, j, c));
    var b := (c, buf[c]);
    assert b in parts[j];
    assert Prepared(parts[j], writers[j], owner, blocks);
  }

  lemma FirstBelow(buf: Buffer, owner: KeyHash, roots: seq<Option<Id>>, j: nat, c: Id)
    requires FirstReaches(buf, owner, roots, j, c)
    ensures j < |roots| && c in buf
  {}

  /** The log grew by pointers whose blocks were all there. */
  ghost predicate GrewAnchored(buf: Buffer, before: seq<PointerSet>, log: seq<PointerSet>) {
    before <= log && AllAnchored(buf, log[|before|..])
  }

  function RootsOf(writes: seq<WriterUpdate>): seq<Option<Id>> {
    seq(|writes|, i requires 0 <= i < |writes| => writes[i].update.updated)
  }

  function PointersOf(writes: seq<WriterUpdate>): seq<(KeyHash, Option<Id>)> {
    seq(|writes|, i requires 0 <= i < |writes| => (writes[i].writer, writes[i].update.updated))
  }

  /** What the loop over the writes has ready. */
  ghost predicate Ready(writes: seq<WriterUpdate>, parts: seq<seq<Inline>>, writers: seq<WriterCommit>, owner: KeyHash, blocks: set<Stored>) {
    && |writers| <= |writes| && AllPrepared(parts, writers, owner, blocks)
    && forall k :: 0 <= k < |writers| ==> writers[k].writer == writes[k].writer && writers[k].pointer == writes[k].update.updated
  }

  /** The loop of `bulk_commit_owner` that turns each write and its part into a writer's
      commit, sending large blocks ahead. */
  method PrepareWriters(server: Server, owner: KeyHash, writes: seq<WriterUpdate>, parts: seq<seq<Inline>>, hasTid: bool)
    returns (r: Outcome, writers: seq<WriterCommit>)
    requires |parts| == |writes| && forall i :: 0 <= i < |parts| ==> DistinctIds(parts[i])
    requires !hasTid ==> forall i, b :: 0 <= i < |parts| && b in parts[i] && b.1.isRaw ==> IsSmall(b)
    modifies server`blocks, server`answers
    ensures old(server.blocks) <= server.blocks && Told(old(server.answers), server.answers, r)
    ensures r == Done ==> |writers| == |writes| && Ready(writes, parts, writers, owner, server.blocks)
  {
    hide Prepared, SortedPart, IsSmall, DistinctIds, Told;
    writers := [];
    ToldNow(server.answers, Transacted(Bulk, owner, Done));
    for i := 0 to |writes|
      invariant |writers| == i && Ready(writes, parts, writers, owner, server.blocks)
      invariant old(server.blocks) <= server.blocks && Told(old(server.answers), server.answers, Done)
    {
      var cbor, raw, large := SortPart(parts[i]);
      ghost var before := server.blocks;
      var preWritten := [];
      if hasTid {
        ghost var answers := server.answers;
        r, preWritten := PreWrite(server, owner, large);
        ToldOn(old(server.answers), answers, server.answers, r);
        if r != Done {
          return;
        }
      }
      var w := WriterCommit(writes[i].writer, cbor, raw, preWritten, writes[i].update.updated, false);
      LargeWritten(parts, i, cbor, raw, large, hasTid, owner, server.blocks);
      SortedIsPrepared(parts[i], w, large, owner, server.blocks);
      PreparedGrows(parts, writers, owner, before, server.blocks);
      writers := writers + [w];
    }
    r := Done;
  }

  lemma ReadyToSend(writes: seq<WriterUpdate>, parts: seq<seq<Inline>>, writers: seq<WriterCommit>, owner: KeyHash, blocks: set<Stored>)
    requires Ready(writes, parts, writers, owner, blocks) && |writers| == |writes|
    ensures forall i :: 0 <= i < |writers| ==> ValidCommit(writers[i])
    ensures PointersIn(writers) == PointersOf(writes)
  {
    hide ValidCommit, Prepared;
    forall i | 0 <= i < |writers| ensures ValidCommit(writers[i]) { PreparedValid(parts[i], writers[i], owner, blocks); }
  }

  /** No buffered block is empty, or too large for a call. */
  ghost predicate SmallBuffer(buf: Buffer) { forall c :: c in buf ==> 0 < |buf[c].data| <= MAX_BULK_INLINE }

  /** What is ready to send is joined to the roots it is sent with. */
  lemma ReadyJoined(buf: Buffer, owner: KeyHash, writes: seq<WriterUpdate>, parts: seq<seq<Inline>>, writers: seq<WriterCommit>, blocks: set<Stored>)
    requires OwnedBy(buf, owner, RootsOf(writes)) && |parts| == |writers| == |writes| && Ready(writes, parts, writers, owner, blocks)
    requires forall i :: 0 <= i < |writes| ==> PartLists(buf, parts[i], iset c | FirstReaches(buf, owner, RootsOf(writes), i, c))
    ensures forall i :: 0 <= i < |writers| ==>
      RootsOf(writes)[i] == writers[i].pointer && Joined(writers[i]) && (SmallBuffer(buf) ==> SmallBlocks(InlineOf(writers[i])))
  {
    hide OwnedBy, PartLists, Prepared, SmallBlocks, Joined, InlineOf, SmallBuffer;
    var roots := RootsOf(writes);
    forall i | 0 <= i < |writers|
      ensures roots[i] == writers[i].pointer && Joined(writers[i]) && (SmallBuffer(buf) ==> SmallBlocks(InlineOf(writers[i])))
    {
      assert Prepared(parts[i], writers[i], owner, blocks);
      OneJoined(buf, owner, roots, i, parts[i], writers[i], blocks);
    }
  }

  lemma OneJoined(buf: Buffer, owner: KeyHash, roots: seq<Option<Id>>, i: nat, part: seq<Inline>, w: WriterCommit, blocks: set<Stored>)
    requires i < |roots| && OwnedBy(buf, owner, roots) && PartLists(buf, part, iset c | FirstReaches(buf, owner, roots, i, c))
    requires Prepared(part, w, owner, blocks) && w.pointer == roots[i]
    ensures Joined(w) && (SmallBuffer(buf) ==> SmallBlocks(InlineOf(w)))
  {
    if InlineOf(w) == [] {
      assert GraphOf(InlineOf(w)) == map[];
    } else {
      hide GraphOf, Reaches, OwnedBy, ValidCommit, DistinctIds;
      PreparedHangs(buf, owner, roots, i, part, w, blocks);
    }
    hide GraphOf, Reaches, OwnedBy, ValidCommit, DistinctIds, Joined;
    if SmallBuffer(buf) {
      forall b | b in InlineOf(w) ensures 0 < SizeOf(b) <= MAX_BULK_INLINE { assert b in part; }
    }
  }

  /** The pointers of a commit all of whose blocks arrived. */
  lemma CommitAnchored(buf: Buffer, owner: KeyHash, writes: seq<WriterUpdate>, parts: seq<seq<Inline>>, writers: seq<WriterCommit>,
                       before: set<Stored>, blocks: set<Stored>)
    requires OwnedBy(buf, owner, RootsOf(writes)) && |parts| == |writers| == |writes| && before <= blocks
    requires forall i :: 0 <= i < |writes| ==> PartLists(buf, parts[i], iset c | FirstReaches(buf, owner, RootsOf(writes), i, c))
    requires Ready(writes, parts, writers, owner, before)
    requires forall i, b :: 0 <= i < |writers| && b in InlineOf(writers[i]) ==> (owner, b.0) in blocks
    ensures AllAnchored(buf, Sets(owner, PointersOf(writes), blocks))
  {
    hide OwnedBy, Prepared, PartLists, InlineOf, Anchored;
    PreparedGrows(parts, writers, owner, before, blocks);
    hide AllPrepared;
    var roots := RootsOf(writes);
    var sets := Sets(owner, PointersOf(writes), blocks);
    forall e | e in sets ensures Anchored(buf, e) {
      var i :| 0 <= i < |sets| && sets[i] == e;
      forall c: Id | RootReaches(buf, roots, i, c) ensures (owner, c) in blocks {
        PartsCover(buf, owner, roots, parts, writers, blocks, i, c);
      }
      RootAnchored(buf, e, roots, i);
    }
  }

  /** `bulk_commit_owner`: in every outcome, a pointer that was set found all the
      buffered blocks its root leads to on the server. */
  method BulkCommitOwner(server: Server, buf: Buffer, owner: KeyHash, writes: seq<WriterUpdate>) returns (r: Outcome)
    requires OwnedBy(buf, owner, RootsOf(writes))
    modifies server`blocks, server`log, server`sent, server`answers
    ensures old(server.blocks) <= server.blocks
    ensures Told(old(server.answers), server.answers, r) && (|server.answers| > |old(server.answers)| <==> writes != [])
    ensures r == Done && writes != [] ==> CommittedBy(owner, PointersOf(writes), old(server.answers), server.answers)
    ensures SentAcceptable(old(server.sent), server.sent, SmallBuffer(buf))
    ensures GrewAnchored(buf, old(server.log), server.log)
    ensures server.log == old(server.log) || server.log == old(server.log) + Sets(owner, PointersOf(writes), server.blocks)
    ensures r == Done ==> server.log == old(server.log) + Sets(owner, PointersOf(writes), server.blocks)
  {
    hide OwnedBy, Ready, PartLists, ValidCommit, InlineOf, Anchored, IsSmall, FirstReaches, SentAcceptable, SmallBuffer, Joined, SmallBlocks, Told, CommittedBy,
      GrewAnchored, AllAnchored, Sets, DistinctIds;
    NothingSent(server.sent, SmallBuffer(buf));
    ToldNow(server.answers, Transacted(Bulk, owner, Done));
    GrewBySets(buf, server.log, []);
    if writes == [] {
      NoSets(owner, writes, server.blocks);
      return Done;
    }
    var roots := RootsOf(writes);
    var parts := PartitionByRoot(buf, owner, roots);
    forall i | 0 <= i < |parts| ensures DistinctIds(parts[i]) {
      PartDistinct(buf, parts[i], iset c | FirstReaches(buf, owner, roots, i, c));
    }
    var hasTid := AnyLarge(parts);
    if hasTid {
      r := server.Transaction(Bulk, owner);
      ToldTransaction(old(server.answers), owner, r);
      if r != Done {
        return;
      }
    }
    ghost var answers := server.answers;
    var prepared, writers := PrepareWriters(server, owner, writes, parts, hasTid);
    ToldOn(old(server.answers), answers, server.answers, prepared);
    if prepared != Done {
      SomeAnswer(old(server.answers), server.answers, prepared);
      return prepared;
    }
    answers := server.answers;
    ghost var before := server.blocks;
    ReadyToSend(writes, parts, writers, owner, before);
    ReadyJoined(buf, owner, writes, parts, writers, before);
    r := SendBulkCommit(server, owner, writers, roots, hasTid, SmallBuffer(buf));
    ToldOn(old(server.answers), answers, server.answers, r);
    ToldLonger(old(server.answers), answers, Done);
    if r == Done { CommittedSince(owner, PointersOf(writes), old(server.answers), answers, server.answers); }
    if server.log != old(server.log) {
      CommitAnchored(buf, owner, writes, parts, writers, before, server.blocks);
      GrewBySets(buf, old(server.log), Sets(owner, PointersOf(writes), server.blocks));
    }
  }

  lemma NoSets(owner: KeyHash, writes: seq<WriterUpdate>, blocks: set<Stored>)
    requires writes == []
    ensures Sets(owner, PointersOf(writes), blocks) == []
  {}

  lemma GrewBySets(buf: Buffer, log: seq<PointerSet>, sets: seq<PointerSet>)
    ensures GrewAnchored(buf, log, log)
    ensures AllAnchored(buf, sets) ==> GrewAnchored(buf, log, log + sets)
  {
    hide Anchored;
    assert (log + sets)[|log|..] == sets;
  }

  lemma CommittedSince(owner: KeyHash, pointers: seq<(KeyHash, Option<Id>)>, before: seq<Answer>, mid: seq<Answer>, answers: seq<Answer>)
    requires CommittedBy(owner, pointers, mid, answers) && |before| <= |mid|
    ensures CommittedBy(owner, pointers, before, answers)
  {}

  lemma RootAnchored(buf: Buffer, e: PointerSet, roots: seq<Option<Id>>, i: nat)
    requires i < |roots| && e.root == roots[i] && e.made == map[] && forall c: Id :: RootReaches(buf, roots, i, c) ==> (e.owner, c) in e.present
    ensures Anchored(buf, e)
  {
    hide Reaches;
    assert e.made + buf == buf;
    if e.root.Some? {
      forall c: Id | Reaches(e.made + buf, e.root.value, c) ensures (e.owner, c) in e.present {
        assert RootReaches(buf, roots, i, c);
      }
    }
  }

  lemma PartDistinct(buf: Buffer, part: seq<Inline>, ids: iset<Id>)
    requires PartLists(buf, part, ids)
    ensures DistinctIds(part)
  {}

  lemma PreparedValid(part: seq<Inline>, w: WriterCommit, owner: KeyHash, blocks: set<Stored>)
    requires Prepared(part, w, owner, blocks)
    ensures ValidCommit(w)
  {}

  /** `needs_tid` */
  method AnyLarge(parts: seq<seq<Inline>>) returns (any: bool)
    ensures any <==> exists i, b :: 0 <= i < |parts| && b in parts[i] && b.1.isRaw && !IsSmall(b)
  {
    any := exists i, j :: 0 <= i < |parts| && 0 <= j < |parts[i]| && parts[i][j].1.isRaw && |parts[i][j].1.data| >= MAX_SMALL_BLOCK_SIZE;
    if any {
      var i, j :| 0 <= i < |parts| && 0 <= j < |parts[i]| && parts[i][j].1.isRaw && |parts[i][j].1.data| >= MAX_SMALL_BLOCK_SIZE;
      assert parts[i][j] in parts[i] && !IsSmall(parts[i][j]);
    } else {
      forall i, b | 0 <= i < |parts| && b in parts[i] && b.1.isRaw ensures IsSmall(b) {
        var j :| 0 <= j < |parts[i]| && parts[i][j] == b;
        assert parts[i][j].1.isRaw;
      }
    }
  }

  lemma LargeWritten(parts: seq<seq<Inline>>, i: nat, cbor: seq<Inline>, raw: seq<Inline>, large: seq<Inline>, hasTid: bool,
                     owner: KeyHash, blocks: set<Stored>)
    requires i < |parts| && SortedPart(parts[i], cbor, raw, large)
    requires !hasTid ==> forall i, b :: 0 <= i < |parts| && b in parts[i] && b.1.isRaw ==> IsSmall(b)
    requires hasTid ==> forall j :: 0 <= j < |large| ==> (owner, large[j].0) in blocks
    ensures forall b :: b in large ==> (owner, b.0) in blocks
  {
    hide IsSmall, DistinctIds;
  }

  lemma SentOn(before: seq<Call>, mid: seq<Call>, sent: seq<Call>, small: bool)
    requires SentAcceptable(before, mid, small) && SentAcceptable(mid, sent, small)
    ensures SentAcceptable(before, sent, small)
  {
    hide Acceptable;
    forall i | |before| <= i < |sent| ensures Acceptable(sent[i], small) {
      if i < |mid| { assert sent[i] == mid[i]; }
    }
  }

  lemma SentIf(before: seq<Call>, sent: seq<Call>, all: bool, small: bool)
    requires SentAcceptable(before, sent, all) && (small ==> all)
    ensures SentAcceptable(before, sent, small)
  {
    hide BlocksOnly, Joined, WithinLimits, PreWrittenCount;
    forall i | |before| <= i < |sent| ensures Acceptable(sent[i], small) {
      assert Acceptable(sent[i], all);
      if !sent[i].setsPointers { BlocksOnlyIf(sent[i].writers, all, small); }
    }
  }
}
