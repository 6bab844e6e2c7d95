/** Any number of clients committing one writer's pointer (`commit_one_with_merge`):
    a first compare-and-swap, then a read, a three-way merge and a second one. */
module CommitProtocol {
  import opened Bytes
  import opened Mask
  import opened ChampNode
  import opened CanonicalTree
  import opened ChampStore
  import opened ChampOps
  import opened ChampDiff
  import opened ChampMerge

  /** A pointer target, as the mapping of the champ tree its WriterData names. */
  ghost predicate IsRoot(target: Option<Cid>, m: Map) {
    if target.Some? && target.value.block.WriterBlock? && target.value.block.tree.Some? then
      var tree := target.value.block.tree.value;
      tree.block.ChampBlock? && IsTree(tree, m, tree.block.champ.mirrorBat)
    else m == map[]
  }

  ghost predicate WellFormed(target: Option<Cid>) { exists m :: IsRoot(target, m) }

  ghost function TreeOf(target: Option<Cid>): Map
    requires WellFormed(target)
  {
    var m :| IsRoot(target, m); m
  }

  lemma RootUnique(target: Option<Cid>, m: Map)
    requires IsRoot(target, m)
    ensures WellFormed(target) && TreeOf(target) == m
  {
    var n := TreeOf(target);
    if target.Some? && target.value.block.WriterBlock? && target.value.block.tree.Some? {
      CanonInjective(m, n, 0, target.value.block.tree.value.block.champ.mirrorBat);
    }
  }

  ghost predicate HasTreeRoot(target: Option<Cid>) {
    target.Some? && target.value.block.WriterBlock? && target.value.block.tree.Some?
  }

  /** What `merge_writer_data` can produce: theirs' WriterData over the merged tree. */
  ghost predicate MergeResult(base: Option<Cid>, ours: Option<Cid>, theirs: Option<Cid>, merged: Cid)
    requires WellFormed(base) && WellFormed(ours) && WellFormed(theirs)
  {
    && HasTreeRoot(base) && HasTreeRoot(ours) && HasTreeRoot(theirs)
    && !Conflict(TreeOf(base), TreeOf(ours), TreeOf(theirs))
    && merged.block.WriterBlock? && merged.block.rest == theirs.value.block.rest
    && IsRoot(Some(merged), Merged(TreeOf(base), TreeOf(ours), TreeOf(theirs)))
    && HasTreeRoot(Some(merged))
  }

  /** The three blocks are there, and are writer data with a champ tree. */
  ghost predicate HasInputs(store: set<Cid>, base: Cid, ours: Cid, theirs: Cid) {
    && base in store && ours in store && theirs in store
    && HasTreeRoot(Some(base)) && HasTreeRoot(Some(ours)) && HasTreeRoot(Some(theirs))
  }

  /** The nodes at which the trees differ are there. */
  ghost predicate InputsLoadable(store: set<Cid>, base: Cid, ours: Cid, theirs: Cid)
    requires HasTreeRoot(Some(base)) && HasTreeRoot(Some(ours)) && HasTreeRoot(Some(theirs))
  {
    && Loadable(store, base.block.tree, ours.block.tree, 0)
    && Loadable(store, base.block.tree, theirs.block.tree, 0)
  }

  /** `merge_writer_data` and the write of its result: what it returns is a
      `MergeResult`, stored with its whole tree. With its inputs at hand it is refused as
      a concurrent modification exactly when both sides changed a common key, and short of
      that it can only fail on a hash collision or on a key theirs changed to null. */
  method MergeWriterData(storage: BlockStore, base: Cid, ours: Cid, theirs: Cid) returns (r: Result<Cid, ChampError>)
    requires WellFormed(Some(base)) && WellFormed(Some(ours)) && WellFormed(Some(theirs))
    requires HasTreeRoot(Some(ours)) ==> HasTree(storage.blocks, ours.block.tree.value)
    modifies storage
    ensures old(storage.blocks) <= storage.blocks
    ensures r.Ok? ==> MergeResult(Some(base), Some(ours), Some(theirs), r.value)
    ensures r.Ok? ==> r.value in storage.blocks && HasTree(storage.blocks, r.value.block.tree.value)
    ensures r == Err(Concurrent) ==> Conflict(TreeOf(Some(base)), TreeOf(Some(ours)), TreeOf(Some(theirs)))
    ensures r == Err(MissingBlock) ==>
      || base !in old(storage.blocks) || ours !in old(storage.blocks) || theirs !in old(storage.blocks)
      || (HasInputs(old(storage.blocks), base, ours, theirs) && !InputsLoadable(old(storage.blocks), base, ours, theirs))
    ensures r == Err(BadBlock) ==> !HasTreeRoot(Some(base)) || !HasTreeRoot(Some(ours)) || !HasTreeRoot(Some(theirs))
    ensures HasInputs(old(storage.blocks), base, ours, theirs) && InputsLoadable(old(storage.blocks), base, ours, theirs) ==>
      var mb, mo, mt := TreeOf(Some(base)), TreeOf(Some(ours)), TreeOf(Some(theirs));
      && (Conflict(mb, mo, mt) ==> r == Err(Concurrent))
      && (!Conflict(mb, mo, mt) && NoNullChange(mb, mt) && Fits(mo + mt, 0) ==> r.Ok?)
  {
    hide Conflict, Merged, HasTree, Loadable, TreeOf, NoNullChange, Fits, WellFormed;
    if base !in storage.blocks || ours !in storage.blocks || theirs !in storage.blocks {
      return Err(MissingBlock);
    }
    if !base.block.WriterBlock? || !ours.block.WriterBlock? || !theirs.block.WriterBlock? {
      return Err(BadBlock);
    }
    if base.block.tree.None? || ours.block.tree.None? || theirs.block.tree.None? {
      return Err(BadBlock);
    }
    r := MergeInputs(storage, base, ours, theirs);
  }

  /** The merge with its three inputs at hand. */
  method MergeInputs(storage: BlockStore, base: Cid, ours: Cid, theirs: Cid) returns (r: Result<Cid, ChampError>)
    requires WellFormed(Some(base)) && WellFormed(Some(ours)) && WellFormed(Some(theirs))
    requires HasInputs(storage.blocks, base, ours, theirs) && HasTree(storage.blocks, ours.block.tree.value)
    modifies storage
    ensures old(storage.blocks) <= storage.blocks
    ensures r.Ok? ==> MergeResult(Some(base), Some(ours), Some(theirs), r.value)
    ensures r.Ok? ==> r.value in storage.blocks && HasTree(storage.blocks, r.value.block.tree.value)
    ensures r == Err(Concurrent) ==> Conflict(TreeOf(Some(base)), TreeOf(Some(ours)), TreeOf(Some(theirs)))
    ensures r == Err(MissingBlock) ==> !InputsLoadable(old(storage.blocks), base, ours, theirs)
    ensures r.Err? ==> r.error != BadBlock
    ensures InputsLoadable(old(storage.blocks), base, ours, theirs) ==>
      var mb, mo, mt := TreeOf(Some(base)), TreeOf(Some(ours)), TreeOf(Some(theirs));
      && (Conflict(mb, mo, mt) ==> r == Err(Concurrent))
      && (!Conflict(mb, mo, mt) && NoNullChange(mb, mt) && Fits(mo + mt, 0) ==> r.Ok?)
  {
    hide Conflict, Merged, HasTree, Loadable, TreeOf, NoNullChange, Fits;
    var b, o, t := base.block.tree.value, ours.block.tree.value, theirs.block.tree.value;
    TreeOfIsRoot(Some(base));
    TreeOfIsRoot(Some(ours));
    TreeOfIsRoot(Some(theirs));
    ghost var mb, mo, mt := TreeOf(Some(base)), TreeOf(Some(ours)), TreeOf(Some(theirs));
    hide WellFormed;
    var root := MergeChamp(storage, b, o, t, mb, mo, mt, b.block.champ.mirrorBat, o.block.champ.mirrorBat, t.block.champ.mirrorBat);
    if root.Err? {
      return Err(root.error);
    }
    ghost var before := storage.blocks;
    var merged := storage.PutBlock(WriterBlock(Some(root.value), theirs.block.rest));
    TreeMono(before, storage.blocks, root.value);
    TreeBat(root.value, Merged(mb, mo, mt), o.block.champ.mirrorBat);
    return Ok(merged);
  }

  lemma TreeOfIsRoot(target: Option<Cid>)
    requires WellFormed(target)
    ensures IsRoot(target, TreeOf(target))
  {}

  lemma TreeMono(store: set<Cid>, more: set<Cid>, cid: Cid)
    requires HasTree(store, cid) && store <= more
    ensures HasTree(more, cid)
  {
    CompleteMono(store, more, cid.block.champ);
  }

  lemma TreeBat(cid: Cid, m: Map, bat: Bat)
    requires IsTree(cid, m, bat)
    ensures cid.block.ChampBlock? && cid.block.champ.mirrorBat == bat
  {}

  // ---- the state machine -----------------------------------------------------------

  datatype Phase =
    | Idle
    | Trying                          // about to send the first compare-and-swap
    | Reading                         // it was not acknowledged: about to read the pointer
    | Merging(theirs: Option<Cid>)    // about to merge with what was read and swap again
    | Finished(ok: bool)

  datatype Client = Client(phase: Phase, original: Option<Cid>, updated: Option<Cid>)

  datatype State = State(server: Option<Cid>, clients: seq<Client>)

  /** A compare-and-swap may be lost on the way in, or applied with its reply lost. */
  datatype Delivery = Lost | Applied | Answered

  datatype Action =
    | Begin(original: Option<Cid>, updated: Option<Cid>)
    | FirstCas(delivery: Delivery)
    | Read
    | SecondCas(merged: Cid, delivery: Delivery)
    | GiveUp

  ghost predicate ValidState(s: State) {
    && WellFormed(s.server)
    && forall i :: 0 <= i < |s.clients| ==> ValidClient(s.clients[i])
  }

  ghost predicate ValidClient(c: Client) {
    WellFormed(c.original) && WellFormed(c.updated) && (c.phase.Merging? ==> WellFormed(c.phase.theirs))
  }

  /** One step of client `i`. */
  ghost predicate Next(s: State, s': State, i: nat, a: Action) {
    && i < |s.clients| && ValidState(s)
    && var c := s.clients[i];
       match a
       case Begin(original, updated) =>
         && (c.phase.Idle? || c.phase.Finished?) && WellFormed(original) && WellFormed(updated)
         && s' == State(s.server, s.clients[i := Client(Trying, original, updated)])
       case FirstCas(delivery) =>
         && c.phase.Trying?
         && var hit := s.server == c.original && delivery != Lost;
            s' == State(if hit then c.updated else s.server,
                        s.clients[i := c.(phase := if hit && delivery == Answered then Finished(true) else Reading)])
       case Read =>
         && c.phase.Reading?
         && s' == State(s.server, s.clients[i := c.(phase :=
              if s.server == c.updated then Finished(true)
              else if c.original.Some? && c.updated.Some? && s.server.Some? then Merging(s.server)
              else Finished(false))])
       case SecondCas(merged, delivery) =>
         && c.phase.Merging? && MergeResult(c.original, c.updated, c.phase.theirs, merged)
         && var hit := s.server == c.phase.theirs && delivery != Lost;
            s' == State(if hit then Some(merged) else s.server,
                        s.clients[i := c.(phase := Finished(hit && delivery == Answered))])
       case GiveUp =>
         // the pointer could not be read, the merge was refused, or one of its calls failed
         (c.phase.Reading? || c.phase.Merging?) && s' == State(s.server, s.clients[i := c.(phase := Finished(false))])
  }

  lemma NextKeepsValid(s: State, s': State, i: nat, a: Action)
    requires Next(s, s', i, a)
    ensures ValidState(s')
  {
    hide WellFormed, IsRoot, TreeOf, Merged, Conflict;
    if a.SecondCas? {
      var c := s.clients[i];
      RootUnique(Some(a.merged), Merged(TreeOf(c.original), TreeOf(c.updated), TreeOf(c.phase.theirs)));
    }
  }

  // ---- one step -------------------------------------------------------------------

  /** The keys a client's own update changes. */
  ghost function Changes(c: Client): set<Key>
    requires ValidClient(c)
  {
    DiffKeys(TreeOf(c.original), TreeOf(c.updated))
  }

  /** `after` is `before` with exactly the keys changed from `base` to `ours` set as in
      `ours`, and `base` held the current binding of each of them. */
  ghost predicate SetsOnly(before: Map, after: Map, base: Map, ours: Map) {
    && (forall k :: k in DiffKeys(base, ours) ==> Lookup(after, k) == Lookup(ours, k) && SameAt(base, before, k))
    && (forall k :: k !in DiffKeys(base, ours) ==> Lookup(after, k) == Lookup(before, k))
  }

  ghost predicate SetsOnlyItsChanges(before: Map, after: Map, c: Client)
    requires ValidClient(c)
  {
    SetsOnly(before, after, TreeOf(c.original), TreeOf(c.updated))
  }

  /** A swap from the base to the update. */
  lemma DirectSets(base: Map, ours: Map)
    ensures SetsOnly(base, ours, base, ours)
  {}

  /** A swap from theirs to the merge. */
  lemma MergeSets(base: Map, ours: Map, theirs: Map)
    requires !Conflict(base, ours, theirs)
    ensures SetsOnly(theirs, Merged(base, ours, theirs), base, ours)
  {
    var out := Merged(base, ours, theirs);
    hide Merged;
    forall k ensures k in DiffKeys(base, ours) ==> Lookup(out, k) == Lookup(ours, k) && SameAt(base, theirs, k)
             ensures k !in DiffKeys(base, ours) ==> Lookup(out, k) == Lookup(theirs, k) {
      MergedReads(base, ours, theirs, k);
      NotBoth(base, ours, theirs, k);
    }
  }

  lemma NotBoth(base: Map, ours: Map, theirs: Map, k: Key)
    requires !Conflict(base, ours, theirs)
    ensures k in DiffKeys(base, ours) ==> k !in DiffKeys(base, theirs)
    ensures k !in DiffKeys(base, theirs) ==> SameAt(base, theirs, k)
    ensures k !in DiffKeys(base, ours) ==> SameAt(base, ours, k)
  {}

  lemma MergeSwap(c: Client, theirs: Option<Cid>, merged: Cid)
    requires ValidClient(c) && WellFormed(theirs) && MergeResult(c.original, c.updated, theirs, merged)
    ensures WellFormed(Some(merged)) && SetsOnlyItsChanges(TreeOf(theirs), TreeOf(Some(merged)), c)
  {
    var base, ours, m := TreeOf(c.original), TreeOf(c.updated), TreeOf(theirs);
    RootUnique(Some(merged), Merged(base, ours, m));
    hide WellFormed, TreeOf, IsRoot, Merged, SetsOnly, Conflict;
    MergeSets(base, ours, m);
  }

  /** Every step of every client either leaves the server's pointer alone, or sets
      exactly that client's own changes on the map the server holds now, overwriting
      a key only if the client's base held the binding the server holds. */
  lemma StepSetsOnlyItsChanges(s: State, s': State, i: nat, a: Action)
    requires Next(s, s', i, a)
    ensures ValidState(s')
    ensures s'.server == s.server || SetsOnlyItsChanges(TreeOf(s.server), TreeOf(s'.server), s.clients[i])
  {
    NextKeepsValid(s, s', i, a);
    hide WellFormed, TreeOf, MergeResult, SetsOnly;
    var c := s.clients[i];
    assert ValidClient(c);
    if s'.server != s.server {
      if a.FirstCas? {
        DirectSets(TreeOf(c.original), TreeOf(c.updated));
      } else {
        MergeSwap(c, c.phase.theirs, a.merged);
      }
    }
  }

  /** When a client is told its commit succeeded, the server reads as that client's
      update on every key it changed. */
  lemma AcknowledgedIsVisible(s: State, s': State, i: nat, a: Action)
    requires Next(s, s', i, a) && !s.clients[i].phase.Finished? && s'.clients[i].phase == Finished(true)
    ensures ValidState(s') && ValidClient(s.clients[i])
    ensures forall k :: k in Changes(s.clients[i]) ==>
      Lookup(TreeOf(s'.server), k) == Lookup(TreeOf(s.clients[i].updated), k)
  {
    StepSetsOnlyItsChanges(s, s', i, a);
    hide WellFormed, TreeOf, MergeResult;
    var c := s.clients[i];
    if a.SecondCas? {
      MergeSwap(c, c.phase.theirs, a.merged);
    }
  }

  // ---- whole runs --------------------------------------------------------------------

  /** A run: `states[t + 1]` follows `states[t]` by the action of one client. */
  datatype Run = Run(states: seq<State>, who: seq<nat>, what: seq<Action>)

  ghost predicate IsRun(r: Run) {
    && |r.states| == |r.who| + 1 == |r.what| + 1
    && ValidState(r.states[0])
    && forall t :: 0 <= t < |r.who| ==> Next(r.states[t], r.states[t + 1], r.who[t], r.what[t])
  }

  lemma RunStaysValid(r: Run, t: nat)
    requires IsRun(r) && t < |r.states|
    ensures ValidState(r.states[t])
  {
    if t > 0 {
      NextKeepsValid(r.states[t - 1], r.states[t], r.who[t - 1], r.what[t - 1]);
    }
  }

  /** Step `t` of the run moves the pointer, by a client that changed `k` and knew the
      binding it replaced, and leaves the server reading `v`. */
  ghost predicate Wrote(r: Run, t: nat, k: Key, v: Option<Value>)
    requires IsRun(r) && t < |r.who|
  {
    var s, s' := r.states[t], r.states[t + 1];
    && r.who[t] < |s.clients| && ValidState(s) && ValidClient(s.clients[r.who[t]])
    && s'.server != s.server && WellFormed(s'.server) && Lookup(TreeOf(s'.server), k) == v
    && var c := s.clients[r.who[t]];
       k in Changes(c) && Lookup(TreeOf(c.updated), k) == v && SameAt(TreeOf(c.original), TreeOf(s.server), k)
  }

  /** One step changes what the server reads for `k` only by writing it. */
  lemma StepWrites(r: Run, t: nat, k: Key)
    requires IsRun(r) && t < |r.who|
    ensures ValidState(r.states[t]) && ValidState(r.states[t + 1])
    ensures var v := Lookup(TreeOf(r.states[t + 1].server), k);
      Lookup(TreeOf(r.states[t].server), k) == v || Wrote(r, t, k, v)
  {
    RunStaysValid(r, t);
    StepSetsOnlyItsChanges(r.states[t], r.states[t + 1], r.who[t], r.what[t]);
    hide WellFormed, TreeOf, IsRoot, DiffKeys, Lookup, SameAt;
  }

  /** No lost updates. Between any two states of any run, the server either reads a
      key the same, or the later value was put there by a step that moved the pointer, of
      a client that changed that key and whose base held the very binding it replaced. */
  lemma {:induction false} NoLostUpdate(r: Run, i: nat, j: nat, k: Key)
    requires IsRun(r) && i <= j < |r.states|
    ensures ValidState(r.states[i]) && ValidState(r.states[j])
    ensures var v := Lookup(TreeOf(r.states[j].server), k);
      Lookup(TreeOf(r.states[i].server), k) == v || exists t :: i <= t < j && Wrote(r, t, k, v)
    decreases j - i
  {
    hide WellFormed, TreeOf, Next, IsRoot, Wrote, Lookup;
    RunStaysValid(r, i);
    if i < j {
      NoLostUpdate(r, i, j - 1, k);
      StepWrites(r, j - 1, k);
    }
  }

  // ---- what a client alone on the line can do ------------------------------------------

  /** The pointer and the phase of one client moved; nothing else did. */
  ghost predicate Moved(s: State, s': State, i: nat, server: Option<Cid>, phase: Phase)
    requires i < |s.clients|
  {
    s' == State(server, s.clients[i := s.clients[i].(phase := phase)])
  }

  /** With its calls answered and nobody in between, a commit goes through: at once if the
      pointer is where the client's update began, and with nothing done if it is where the
      update ends; otherwise merged with what is there, if that can be merged. */
  lemma CommitFinishes(s: State, i: nat, merged: Cid) returns (r: Run)
    requires ValidState(s) && i < |s.clients| && s.clients[i].phase.Trying?
    requires var c := s.clients[i];
      s.server == c.original || s.server == c.updated || (s.server.Some? && MergeResult(c.original, c.updated, s.server, merged))
    ensures IsRun(r) && r.states[0] == s && forall t :: 0 <= t < |r.who| ==> r.who[t] == i
    ensures var c, end := s.clients[i], r.states[|r.states| - 1];
      Moved(s, end, i, if s.server == c.original || s.server == c.updated then c.updated else Some(merged), Finished(true))
    ensures |r.who| == if s.server == s.clients[i].original then 1 else if s.server == s.clients[i].updated then 2 else 3
  {
    hide WellFormed, IsRoot, TreeOf, Merged, Conflict;
    var c := s.clients[i];
    if s.server == c.original {
      var end := State(c.updated, s.clients[i := c.(phase := Finished(true))]);
      r := Run([s, end], [i], [FirstCas(Answered)]);
    } else {
      var missed := State(s.server, s.clients[i := c.(phase := Reading)]);
      assert Next(s, missed, i, FirstCas(Answered));
      NextKeepsValid(s, missed, i, FirstCas(Answered));
      if s.server == c.updated {
        var end := State(s.server, s.clients[i := c.(phase := Finished(true))]);
        assert missed.clients[i := c.(phase := Finished(true))] == end.clients;
        r := Run([s, missed, end], [i, i], [FirstCas(Answered), Read]);
      } else {
        var read := State(s.server, s.clients[i := c.(phase := Merging(s.server))]);
        assert missed.clients[i := c.(phase := Merging(s.server))] == read.clients;
        assert Next(missed, read, i, Read);
        NextKeepsValid(missed, read, i, Read);
        var end := State(Some(merged), s.clients[i := c.(phase := Finished(true))]);
        assert read.clients[i := c.(phase := Finished(true))] == end.clients;
        assert Next(read, end, i, SecondCas(merged, Answered));
        r := Run([s, missed, read, end], [i, i, i], [FirstCas(Answered), Read, SecondCas(merged, Answered)]);
      }
    }
  }
}
