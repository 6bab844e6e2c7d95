/** The ordered list of buffered pointer updates (`BufferedPointers`). */
module PointerBuffer {
  import opened Bytes
  import opened BlockGraph

  datatype PointerUpdate = PointerUpdate(original: Option<Id>, updated: Option<Id>, sequence: Option<int>)

  datatype WriterUpdate = WriterUpdate(owner: KeyHash, writer: KeyHash, update: PointerUpdate)

  datatype Checkpoint = Checkpoint(generation: nat, len: nat, lastTarget: Option<Option<Id>>)

  function Empty(): PointerUpdate { PointerUpdate(None, None, None) }

  /** `PointerUpdate::increment` */
  function Increment(sequence: Option<int>): Option<int> {
    Some(if sequence.Some? then sequence.value + 1 else 1)
  }

  // ---- the list ---------------------------------------------------------------------------

  /** A buffered write: a consecutive write to the same writer only advances the target
      of the last entry, any other is appended. */
  function Buffered(list: seq<WriterUpdate>, owner: KeyHash, writer: KeyHash, update: PointerUpdate): seq<WriterUpdate> {
    var n := |list| - 1;
    if n >= 0 && list[n].writer == writer && list[n].owner == owner then
      list[n := list[n].(update := list[n].update.(updated := update.updated))]
    else list + [WriterUpdate(owner, writer, update)]
  }

  function CheckpointOf(list: seq<WriterUpdate>, generation: nat): Checkpoint {
    Checkpoint(generation, |list|, if list == [] then None else Some(list[|list| - 1].update.updated))
  }

  function RolledBack(list: seq<WriterUpdate>, generation: nat, cp: Checkpoint): seq<WriterUpdate> {
    if generation != cp.generation then []
    else
      var cut := if cp.len <= |list| then list[..cp.len] else list;
      var n := |cut| - 1;
      if n >= 0 && cp.lastTarget.Some? then
        cut[n := cut[n].(update := cut[n].update.(updated := cp.lastTarget.value))]
      else cut
  }

  /** `later` grew out of `list`: the same entries first, save that the last of them may
      have had its target advanced in place. */
  ghost predicate GrownFrom(list: seq<WriterUpdate>, later: seq<WriterUpdate>) {
    && |list| <= |later|
    && (forall i :: 0 <= i < |list| - 1 ==> later[i] == list[i])
    && (list != [] ==>
          var n := |list| - 1;
          later[n] == list[n].(update := list[n].update.(updated := later[n].update.updated)))
  }

  lemma WriteGrows(list: seq<WriterUpdate>, later: seq<WriterUpdate>, owner: KeyHash, writer: KeyHash, update: PointerUpdate)
    requires GrownFrom(list, later)
    ensures GrownFrom(list, Buffered(later, owner, writer, update))
  {}

  /** Rolling back to a checkpoint restores the list it was taken of, exactly. */
  lemma RollbackUndoesGrowth(list: seq<WriterUpdate>, later: seq<WriterUpdate>, generation: nat)
    requires GrownFrom(list, later)
    ensures RolledBack(later, generation, CheckpointOf(list, generation)) == list
  {
    if list != [] {
      var n := |list| - 1;
      var cut := later[..|list|];
      assert cut[n].(update := cut[n].update.(updated := list[n].update.updated)) == list[n];
    }
  }

  /** What can happen between a checkpoint and its rollback: writes, and inner updates
      that took a checkpoint of their own and rolled back to it. */
  datatype Event =
    | Write(owner: KeyHash, writer: KeyHash, update: PointerUpdate)
    | Undone(inner: seq<Event>)

  ghost function After(list: seq<WriterUpdate>, events: seq<Event>, generation: nat): seq<WriterUpdate>
    decreases events
  {
    if events == [] then list
    else
      var before := After(list, events[..|events| - 1], generation);
      match events[|events| - 1]
      case Write(o, w, u) => Buffered(before, o, w, u)
      case Undone(inner) => RolledBack(After(before, inner, generation), generation, CheckpointOf(before, generation))
  }

  lemma {:induction false} EventsGrow(list: seq<WriterUpdate>, events: seq<Event>, generation: nat)
    ensures GrownFrom(list, After(list, events, generation))
    decreases events
  {
    if events != [] {
      var before := After(list, events[..|events| - 1], generation);
      EventsGrow(list, events[..|events| - 1], generation);
      match events[|events| - 1] {
        case Write(o, w, u) => WriteGrows(list, before, o, w, u);
        case Undone(inner) =>
          EventsGrow(before, inner, generation);
          RollbackUndoesGrowth(before, After(before, inner, generation), generation);
      }
    }
  }

  /** Rolling back to a checkpoint, after any number of later writes and nested
      rollbacks with no flush between, restores the update list exactly. */
  lemma RollbackRestores(list: seq<WriterUpdate>, events: seq<Event>, generation: nat)
    ensures RolledBack(After(list, events, generation), generation, CheckpointOf(list, generation)) == list
  {
    EventsGrow(list, events, generation);
    RollbackUndoesGrowth(list, After(list, events, generation), generation);
  }

  /** What can happen at all: also that a flush empties the list, of everything or of one
      owner's updates, which starts a new generation. */
  datatype Change = Buffers(event: Event) | Clears | Drops(owner: KeyHash)

  datatype Held = Held(list: seq<WriterUpdate>, generation: nat)

  ghost function AfterSteps(h: Held, steps: seq<Change>): Held {
    if steps == [] then h
    else
      var before := AfterSteps(h, steps[..|steps| - 1]);
      match steps[|steps| - 1]
      case Buffers(e) => before.(list := After(before.list, [e], before.generation))
      case Clears => Held([], before.generation + 1)
      case Drops(owner) => Held(Others(before.list, owner), before.generation + 1)
  }

  ghost predicate Flushed(steps: seq<Change>) { exists i :: 0 <= i < |steps| && !steps[i].Buffers? }

  lemma {:induction false} StepsGrow(h: Held, steps: seq<Change>)
    ensures Flushed(steps) ==> AfterSteps(h, steps).generation > h.generation
    ensures !Flushed(steps) ==> AfterSteps(h, steps).generation == h.generation && GrownFrom(h.list, AfterSteps(h, steps).list)
  {
    if steps != [] {
      var n := |steps| - 1;
      var before := AfterSteps(h, steps[..n]);
      StepsGrow(h, steps[..n]);
      FlushedStep(steps, n);
      if !Flushed(steps) {
        EventsGrow(before.list, [steps[n].event], before.generation);
        GrownOn(h.list, before.list, AfterSteps(h, steps).list);
      }
    }
  }

  lemma FlushedStep(steps: seq<Change>, n: nat)
    requires n + 1 == |steps|
    ensures Flushed(steps) <==> Flushed(steps[..n]) || !steps[n].Buffers?
  {
    if Flushed(steps[..n]) {
      var i :| 0 <= i < n && !steps[..n][i].Buffers?;
      assert !steps[i].Buffers?;
    }
    if i :| 0 <= i < |steps| && !steps[i].Buffers? && i < n { assert !steps[..n][i].Buffers?; }
  }

  lemma GrownOn(a: seq<WriterUpdate>, b: seq<WriterUpdate>, c: seq<WriterUpdate>)
    requires GrownFrom(a, b) && GrownFrom(b, c)
    ensures GrownFrom(a, c)
  {}

  /** Rolling back restores the list exactly if nothing was flushed since the checkpoint, and
      otherwise leaves nothing buffered. */
  lemma RollbackInGeneral(h: Held, steps: seq<Change>)
    ensures var now := AfterSteps(h, steps);
      RolledBack(now.list, now.generation, CheckpointOf(h.list, h.generation)) == if Flushed(steps) then [] else h.list
  {
    var now := AfterSteps(h, steps);
    StepsGrow(h, steps);
    if !Flushed(steps) { RollbackUndoesGrowth(h.list, now.list, h.generation); }
  }

  /** No two neighbours are for the same writer of the same owner. */
  ghost predicate NoneAdjacent(list: seq<WriterUpdate>) {
    forall i :: 0 < i < |list| ==> list[i - 1].writer != list[i].writer || list[i - 1].owner != list[i].owner
  }

  /** Consecutive writes are condensed: a buffer that only grows by writes has no two
      neighbours for the same writer. */
  lemma WritesCondense(list: seq<WriterUpdate>, owner: KeyHash, writer: KeyHash, update: PointerUpdate)
    requires NoneAdjacent(list)
    ensures NoneAdjacent(Buffered(list, owner, writer, update))
    ensures var later := Buffered(list, owner, writer, update);
      && later != [] && later[|later| - 1].writer == writer && later[|later| - 1].owner == owner
      && later[|later| - 1].update.updated == update.updated
  {
    var later := Buffered(list, owner, writer, update);
    forall i | 0 < i < |later| ensures later[i - 1].writer != later[i].writer || later[i - 1].owner != later[i].owner {
      if i < |list| { assert list[i - 1].writer != list[i].writer || list[i - 1].owner != list[i].owner; }
    }
  }

  // ---- one owner's pointers, on the server and through the buffer ---------------------------

  /** The current record of each writer; a writer without one reads as empty. */
  type Pointers = map<KeyHash, PointerUpdate>

  function ReadServer(server: Pointers, writer: KeyHash): PointerUpdate {
    if writer in server then server[writer] else Empty()
  }

  /** The server takes an update from the current target with the next sequence. */
  predicate Accepts(server: Pointers, writer: KeyHash, u: PointerUpdate) {
    var cur := ReadServer(server, writer);
    u.original == cur.updated && u.sequence == Some(match cur.sequence case Some(n) => n + 1 case None => 1)
  }

  /** `get_pointer_target` through the buffer: the latest buffered update, else the server's. */
  function ReadBuffered(list: seq<WriterUpdate>, server: Pointers, writer: KeyHash): PointerUpdate {
    if list == [] then ReadServer(server, writer)
    else if list[|list| - 1].writer == writer then list[|list| - 1].update
    else ReadBuffered(list[..|list| - 1], server, writer)
  }

  /** The update a caller builds from what it reads. */
  function Next(read: PointerUpdate, target: Option<Id>): PointerUpdate {
    PointerUpdate(read.updated, target, Increment(read.sequence))
  }

  type Step = (KeyHash, Option<Id>)

  /** The same writes, each sent to the server at once. */
  ghost function Direct(server: Pointers, steps: seq<Step>): Pointers {
    if steps == [] then server
    else
      var s, (w, t) := Direct(server, steps[..|steps| - 1]), steps[|steps| - 1];
      s[w := Next(ReadServer(s, w), t)]
  }

  /** The buffer after the same writes. */
  ghost function Buffering(owner: KeyHash, server: Pointers, steps: seq<Step>): seq<WriterUpdate> {
    if steps == [] then []
    else
      var list, (w, t) := Buffering(owner, server, steps[..|steps| - 1]), steps[|steps| - 1];
      Buffered(list, owner, w, Next(ReadBuffered(list, server, w), t))
  }

  /** The server after the buffered updates are committed in order. */
  ghost function Committed(server: Pointers, list: seq<WriterUpdate>): Pointers {
    if list == [] then server
    else Committed(server, list[..|list| - 1])[list[|list| - 1].writer := list[|list| - 1].update]
  }

  /** Every one of them is accepted in its turn. */
  ghost predicate AllAccepted(server: Pointers, list: seq<WriterUpdate>) {
    forall j :: 0 <= j < |list| ==> Accepts(Committed(server, list[..j]), list[j].writer, list[j].update)
  }

  ghost predicate SameTargets(a: Pointers, b: Pointers) {
    forall w :: ReadServer(a, w).updated == ReadServer(b, w).updated
  }

  lemma {:induction false} ReadIsCommitted(list: seq<WriterUpdate>, server: Pointers, writer: KeyHash)
    ensures ReadBuffered(list, server, writer) == ReadServer(Committed(server, list), writer)
  {
    if list != [] {
      ReadIsCommitted(list[..|list| - 1], server, writer);
    }
  }

  /** How the buffer after a run stands to the run: it commits without a conflict, to
      the same targets, passing only through states of the run. */
  ghost predicate Faithful(server: Pointers, list: seq<WriterUpdate>, steps: seq<Step>) {
    && AllAccepted(server, list)
    && SameTargets(Committed(server, list), Direct(server, steps))
    && forall j :: 0 <= j < |list| ==> PassesThrough(server, list[..j], steps)
  }

  ghost predicate PassesThrough(server: Pointers, list: seq<WriterUpdate>, steps: seq<Step>) {
    exists n :: 0 <= n <= |steps| && SameTargets(Committed(server, list), Direct(server, steps[..n]))
  }

  lemma PassesThroughMore(server: Pointers, list: seq<WriterUpdate>, steps: seq<Step>, step: Step)
    requires PassesThrough(server, list, steps)
    ensures PassesThrough(server, list, steps + [step])
  {
    var n :| 0 <= n <= |steps| && SameTargets(Committed(server, list), Direct(server, steps[..n]));
    assert (steps + [step])[..n] == steps[..n];
  }

  lemma PassesThroughEnd(server: Pointers, list: seq<WriterUpdate>, steps: seq<Step>, step: Step)
    requires SameTargets(Committed(server, list), Direct(server, steps))
    ensures PassesThrough(server, list, steps + [step])
  {
    assert (steps + [step])[..|steps|] == steps;
  }

  lemma DirectStep(server: Pointers, steps: seq<Step>, step: Step)
    ensures Direct(server, steps + [step]) ==
      var s := Direct(server, steps); s[step.0 := Next(ReadServer(s, step.0), step.1)]
  {
    var all := steps + [step];
    assert all[..|all| - 1] == steps && all[|all| - 1] == step;
  }

  /** One more write keeps the buffer faithful. */
  lemma WriteIsFaithful(owner: KeyHash, server: Pointers, list: seq<WriterUpdate>, steps: seq<Step>, step: Step)
    requires Faithful(server, list, steps) && forall e :: e in list ==> e.owner == owner
    ensures Faithful(server, Buffered(list, owner, step.0, Next(ReadBuffered(list, server, step.0), step.1)), steps + [step])
  {
    var (w, t) := step;
    var u := Next(ReadBuffered(list, server, w), t);
    var later := Buffered(list, owner, w, u);
    ReadIsCommitted(list, server, w);
    DirectStep(server, steps, step);
    hide Faithful, ReadBuffered, Direct, Committed, Accepts;
    var n := |list| - 1;
    if n >= 0 && list[n].writer == w {
      assert list[n] in list;
      CondensedFaithful(server, list, later, steps, step);
    } else {
      AppendedFaithful(server, list, WriterUpdate(owner, w, u), steps, step);
    }
  }

  lemma Appended(server: Pointers, list: seq<WriterUpdate>, e: WriterUpdate)
    ensures Committed(server, list + [e]) == Committed(server, list)[e.writer := e.update]
    ensures forall j :: 0 <= j <= |list| ==> (list + [e])[..j] == list[..j]
  {
    var all := list + [e];
    assert all[..|all| - 1] == list && all[|all| - 1] == e;
  }

  /** The state of the server after a condensed list: only the last target moved. */
  lemma Condensed(server: Pointers, list: seq<WriterUpdate>, later: seq<WriterUpdate>, w: KeyHash, t: Option<Id>)
    requires list != [] && list[|list| - 1].writer == w
    requires later == list[|list| - 1 := list[|list| - 1].(update := list[|list| - 1].update.(updated := t))]
    ensures var c := Committed(server, list); w in c && Committed(server, later) == c[w := c[w].(updated := t)]
    ensures forall j :: 0 <= j < |list| ==> later[..j] == list[..j]
  {
    var n := |list| - 1;
    assert later[..n] == list[..n];
    var c := Committed(server, list[..n]);
    assert Committed(server, list) == c[w := list[n].update];
    assert Committed(server, later) == c[w := later[n].update];
  }

  lemma SameTargetsSet(a: Pointers, b: Pointers, w: KeyHash, x: PointerUpdate, y: PointerUpdate)
    requires SameTargets(a, b) && x.updated == y.updated
    ensures SameTargets(a[w := x], b[w := y])
  {
    var a', b' := a[w := x], b[w := y];
    forall v ensures ReadServer(a', v).updated == ReadServer(b', v).updated {
      assert ReadServer(a, v).updated == ReadServer(b, v).updated;
    }
  }

  lemma CondensedFaithful(server: Pointers, list: seq<WriterUpdate>, later: seq<WriterUpdate>, steps: seq<Step>, step: Step)
    requires Faithful(server, list, steps) && list != [] && list[|list| - 1].writer == step.0
    requires later == list[|list| - 1 := list[|list| - 1].(update := list[|list| - 1].update.(updated := step.1))]
    ensures Faithful(server, later, steps + [step])
  {
    hide Committed, Direct, PassesThrough, SameTargets;
    Condensed(server, list, later, step.0, step.1);
    DirectStep(server, steps, step);
    var c, s := Committed(server, list), Direct(server, steps);
    SameTargetsSet(c, s, step.0, c[step.0].(updated := step.1), Next(ReadServer(s, step.0), step.1));
    forall j | 0 <= j < |later|
      ensures Accepts(Committed(server, later[..j]), later[j].writer, later[j].update)
      ensures PassesThrough(server, later[..j], steps + [step])
    {
      assert later[..j] == list[..j];
      assert Accepts(Committed(server, list[..j]), list[j].writer, list[j].update);
      PassesThroughMore(server, list[..j], steps, step);
    }
  }

  lemma AppendedFaithful(server: Pointers, list: seq<WriterUpdate>, e: WriterUpdate, steps: seq<Step>, step: Step)
    requires Faithful(server, list, steps) && e.writer == step.0
    requires e.update == Next(ReadServer(Committed(server, list), step.0), step.1)
    ensures Faithful(server, list + [e], steps + [step])
  {
    hide Committed, Direct, PassesThrough, SameTargets;
    Appended(server, list, e);
    DirectStep(server, steps, step);
    var c, s, later := Committed(server, list), Direct(server, steps), list + [e];
    SameTargetsSet(c, s, step.0, e.update, Next(ReadServer(s, step.0), step.1));
    forall j | 0 <= j < |later|
      ensures Accepts(Committed(server, later[..j]), later[j].writer, later[j].update)
      ensures PassesThrough(server, later[..j], steps + [step])
    {
      assert later[..j] == list[..j];
      if j < |list| {
        assert Accepts(Committed(server, list[..j]), list[j].writer, list[j].update);
        PassesThroughMore(server, list[..j], steps, step);
      } else {
        assert list[..j] == list;
        PassesThroughEnd(server, list, steps, step);
      }
    }
  }

  /** For any run of one owner's writes, each built from what the buffer reads: the
      buffer shows the targets an unbuffered run would show, and committing it, with
      no other writer about, is accepted entry by entry, passes only through target
      states of the unbuffered run, and ends in the same targets. */
  lemma {:induction false} BufferingIsFaithful(owner: KeyHash, server: Pointers, steps: seq<Step>)
    ensures var list := Buffering(owner, server, steps);
      && Faithful(server, list, steps)
      && (forall w :: ReadBuffered(list, server, w).updated == ReadServer(Direct(server, steps), w).updated)
      && (forall e :: e in list ==> e.owner == owner)
  {
    hide Faithful, ReadBuffered, Direct;
    var list := Buffering(owner, server, steps);
    if steps == [] {
      NothingBuffered(server);
    } else {
      var n := |steps| - 1;
      var before := Buffering(owner, server, steps[..n]);
      BufferingIsFaithful(owner, server, steps[..n]);
      assert steps == steps[..n] + [steps[n]];
      WriteIsFaithful(owner, server, before, steps[..n], steps[n]);
      OwnersKept(before, owner, steps[n].0, Next(ReadBuffered(before, server, steps[n].0), steps[n].1));
    }
    ReadsMatch(server, list, steps);
  }

  lemma NothingBuffered(server: Pointers)
    ensures Faithful(server, [], [])
  {}

  lemma OwnersKept(list: seq<WriterUpdate>, owner: KeyHash, w: KeyHash, u: PointerUpdate)
    requires forall e :: e in list ==> e.owner == owner
    ensures forall e :: e in Buffered(list, owner, w, u) ==> e.owner == owner
  {}

  lemma ReadsMatch(server: Pointers, list: seq<WriterUpdate>, steps: seq<Step>)
    requires Faithful(server, list, steps)
    ensures forall w :: ReadBuffered(list, server, w).updated == ReadServer(Direct(server, steps), w).updated
  {
    forall w ensures ReadBuffered(list, server, w).updated == ReadServer(Direct(server, steps), w).updated {
      ReadIsCommitted(list, server, w);
    }
  }

  // ---- the mutable buffer -------------------------------------------------------------------

  /** `BufferedPointers`: the list, and the generation that tells a checkpoint whether the
      list it describes is still there. */
  class UpdateBuffer {
    var updates: seq<WriterUpdate>
    var generation: nat

    constructor ()
      ensures updates == [] && generation == 0
    {
      updates, generation := [], 0;
    }

    /** `set_pointer_update`, short of the automatic flush. */
    method SetPointerUpdate(owner: KeyHash, writer: KeyHash, update: PointerUpdate)
      modifies this
      ensures updates == Buffered(old(updates), owner, writer, update) && generation == old(generation)
    {
      var n := |updates| - 1;
      if n >= 0 && updates[n].writer == writer && updates[n].owner == owner {
        updates := updates[n := updates[n].(update := updates[n].update.(updated := update.updated))];
      } else {
        updates := updates + [WriterUpdate(owner, writer, update)];
      }
    }

    method TakeCheckpoint() returns (cp: Checkpoint)
      ensures cp == CheckpointOf(updates, generation)
    {
      cp := Checkpoint(generation, |updates|, if updates == [] then None else Some(updates[|updates| - 1].update.updated));
    }

    method Rollback(cp: Checkpoint)
      modifies this
      ensures updates == RolledBack(old(updates), old(generation), cp) && generation == old(generation)
    {
      if generation != cp.generation {
        updates := [];
        return;
      }
      if cp.len < |updates| {
        updates := updates[..cp.len];
      }
      var n := |updates| - 1;
      if n >= 0 && cp.lastTarget.Some? {
        updates := updates[n := updates[n].(update := updates[n].update.(updated := cp.lastTarget.value))];
      }
    }

    /** `get_pointer_target`, given what the server answers. */
    method GetPointerTarget(server: Pointers, writer: KeyHash) returns (r: PointerUpdate)
      ensures r == ReadBuffered(updates, server, writer)
    {
      var i := |updates|;
      assert updates[..i] == updates;
      while i > 0
        invariant 0 <= i <= |updates|
        invariant ReadBuffered(updates[..i], server, writer) == ReadBuffered(updates, server, writer)
      {
        if updates[i - 1].writer == writer {
          return updates[i - 1].update;
        }
        assert updates[..i][..i - 1] == updates[..i - 1];
        i := i - 1;
      }
      r := ReadServer(server, writer);
    }

    method Clear()
      modifies this
      ensures updates == [] && generation == old(generation) + 1
    {
      updates, generation := [], generation + 1;
    }

    /** `drop_owner`: the other owners' updates stay, in order, and nothing else does. */
    method DropOwner(owner: KeyHash) returns (ghost at: seq<nat>)
      modifies this
      ensures KeptAt(old(updates), updates, owner, at) && generation == old(generation) + 1
    {
      var kept: seq<WriterUpdate> := [];
      at := [];
      for i := 0 to |updates|
        invariant updates == old(updates) && generation == old(generation)
        invariant KeptAt(updates[..i], kept, owner, at)
      {
        KeptNext(updates, i, kept, owner, at);
        if updates[i].owner != owner {
          kept, at := kept + [updates[i]], at + [i];
        }
      }
      assert updates[..|updates|] == updates;
      updates, generation := kept, generation + 1;
    }
  }

  /** `kept` is the updates of `list` that are not the owner's, the i-th of them at place
      `at[i]` of the list, in the order of the list. */
  ghost predicate KeptAt(list: seq<WriterUpdate>, kept: seq<WriterUpdate>, owner: KeyHash, at: seq<nat>) {
    && |at| == |kept| && (forall i :: 0 <= i < |at| ==> at[i] < |list| && list[at[i]] == kept[i])
    && (forall i, j :: 0 <= i < j < |at| ==> at[i] < at[j])
    && (forall k :: 0 <= k < |list| ==> (list[k].owner != owner <==> k in at))
  }

  lemma KeptNext(list: seq<WriterUpdate>, n: nat, kept: seq<WriterUpdate>, owner: KeyHash, at: seq<nat>)
    requires n < |list| && KeptAt(list[..n], kept, owner, at)
    ensures list[n].owner != owner ==> KeptAt(list[..n + 1], kept + [list[n]], owner, at + [n])
    ensures list[n].owner == owner ==> KeptAt(list[..n + 1], kept, owner, at)
  {
    assert forall i :: 0 <= i < |at| ==> at[i] < n;
    assert n !in at;
  }

  /** Those updates are determined: they are what filtering the list leaves. */
  lemma {:induction false} KeptIsOthers(list: seq<WriterUpdate>, kept: seq<WriterUpdate>, owner: KeyHash, at: seq<nat>)
    requires KeptAt(list, kept, owner, at)
    ensures kept == Others(list, owner)
    decreases |list|
  {
    if list != [] {
      var n := |list| - 1;
      if list[n].owner == owner {
        assert KeptAt(list[..n], kept, owner, at);
        KeptIsOthers(list[..n], kept, owner, at);
        assert Others(list[..n], owner) + [] == Others(list[..n], owner);
      } else {
        var m := |at| - 1;
        LastKept(list, kept, owner, at);
        KeptIsOthers(list[..n], kept[..m], owner, at[..m]);
        assert kept == kept[..m] + [kept[m]];
      }
    } else {
      FirstKept(list, kept, owner, at);
    }
  }

  lemma FirstKept(list: seq<WriterUpdate>, kept: seq<WriterUpdate>, owner: KeyHash, at: seq<nat>)
    requires KeptAt(list, kept, owner, at)
    ensures |kept| > 0 ==> |at| > 0 && at[0] < |list|
  {}

  /** The last kept update is the last of the list. */
  lemma LastKept(list: seq<WriterUpdate>, kept: seq<WriterUpdate>, owner: KeyHash, at: seq<nat>)
    requires KeptAt(list, kept, owner, at) && list != [] && list[|list| - 1].owner != owner
    ensures var n, m := |list| - 1, |at| - 1; m >= 0 && at[m] == n && kept[m] == list[n] && KeptAt(list[..n], kept[..m], owner, at[..m])
  {
    var n, m := |list| - 1, |at| - 1;
    var i :| 0 <= i < |at| && at[i] == n;
    assert i == m;
    forall k | 0 <= k < n ensures list[k].owner != owner <==> k in at[..m] {
      if k in at {
        var j :| 0 <= j < |at| && at[j] == k;
        assert at[..m][j] == k;
      }
    }
  }

  function Others(list: seq<WriterUpdate>, owner: KeyHash): seq<WriterUpdate> {
    if list == [] then [] else
      Others(list[..|list| - 1], owner) + if list[|list| - 1].owner == owner then [] else [list[|list| - 1]]
  }

  /** `writes_for` */
  function WritesFor(list: seq<WriterUpdate>, owner: KeyHash): seq<WriterUpdate> {
    if list == [] then [] else
      WritesFor(list[..|list| - 1], owner) + if list[|list| - 1].owner == owner then [list[|list| - 1]] else []
  }
}
