/**
 * The maintenance orchestrator: one batch at a time, its jobs in registry order, and a shutdown that
 * leaves nothing looking unfinished.
 */
module Maintenance {
  import opened Basics

  datatype Job = Job(key: string, nightly: bool)

  datatype Scope = All | Nightly

  datatype Status = Pending | Running | Done(outcome: string) | Interrupted

  datatype Progress = Progress(key: string, status: Status)

  predicate Unfinished(p: Progress) {
    p.status.Pending? || p.status.Running?
  }

  /**
   * Where a batch's driver stands between two awaits: created and not yet stepped, waiting for the job at
   * next, waiting for the history write, done; or cancelled, inside the job loop or elsewhere, and then gone.
   */
  datatype Phase = Created | InJob(next: nat) | Recording | Finished | Cancelling(inLoop: bool) | Gone

  datatype Batch = Batch(scope: Scope, jobs: seq<Progress>, phase: Phase)

  /** Every batch ever started, and the one the orchestrator points at as current. */
  datatype State = State(registry: seq<Job>, batches: seq<Batch>, current: Option<nat>)

  datatype Move = Start(scope: Scope)
                | FirstStep(b: nat)
                | JobEnds(b: nat, outcome: string)
                | Record(b: nat)
                | Shutdown
                | Land(b: nat)

  function Selected(registry: seq<Job>, scope: Scope): seq<Job> {
    if registry == [] then []
    else
      var front := Selected(registry[..|registry| - 1], scope);
      var last := registry[|registry| - 1];
      if scope.All? || last.nightly then front + [last] else front
  }

  /** The selection is the registry's jobs in scope, each as often as it is registered. */
  lemma {:induction false} SelectedExactly(registry: seq<Job>, scope: Scope, job: Job)
    ensures Count(Selected(registry, scope), job) == if scope.All? || job.nightly then Count(registry, job) else 0
  {
    if registry != [] {
      var front, last := registry[..|registry| - 1], registry[|registry| - 1];
      SelectedExactly(front, scope, job);
      assert registry == front + [last];
      CountConcat(front, [last], job);
      CountConcat(Selected(front, scope), [last], job);
    }
  }

  /** And in the registry's order: the places the selected jobs come from increase, and none in scope is passed over. */
  lemma {:induction false} SelectedInOrder(registry: seq<Job>, scope: Scope) returns (places: seq<nat>)
    ensures |places| == |Selected(registry, scope)|
    ensures forall i, j :: 0 <= i < j < |places| ==> places[i] < places[j]
    ensures forall i :: 0 <= i < |places| ==>
      places[i] < |registry| && Selected(registry, scope)[i] == registry[places[i]]
    ensures forall p :: 0 <= p < |registry| ==> (p in places <==> scope == All || registry[p].nightly)
  {
    places := [];
    if registry != [] {
      var n := |registry| - 1;
      places := SelectedInOrder(registry[..n], scope);
      if scope == All || registry[n].nightly {
        places := places + [n];
      }
    }
  }

  function Fresh(registry: seq<Job>, scope: Scope): seq<Progress> {
    var jobs := Selected(registry, scope);
    seq(|jobs|, i requires 0 <= i < |jobs| => Progress(jobs[i].key, Pending))
  }

  function MarkInterrupted(jobs: seq<Progress>): (r: seq<Progress>)
    ensures |r| == |jobs|
  {
    seq(|jobs|, i requires 0 <= i < |jobs| => if Unfinished(jobs[i]) then jobs[i].(status := Interrupted) else jobs[i])
  }

  predicate Alive(b: Batch) {
    b.phase.Created? || b.phase.InJob? || b.phase.Recording?
  }

  /** A shutdown still waits for a driver it cancelled inside the job loop. */
  predicate LoopCancelled(s: State) {
    exists b :: 0 <= b < |s.batches| && s.batches[b].phase == Cancelling(true)
  }

  /** quiet forbids a start while a driver cancelled inside its loop has yet to end. */
  predicate Enabled(s: State, move: Move, quiet: bool) {
    match move
    case Start(_) => quiet ==> !LoopCancelled(s)
    case FirstStep(b) => b < |s.batches| && s.batches[b].phase.Created?
    case JobEnds(b, _) => b < |s.batches| && s.batches[b].phase.InJob? && s.batches[b].phase.next < |s.batches[b].jobs|
    case Record(b) => b < |s.batches| && s.batches[b].phase.Recording?
    case Shutdown => true
    case Land(b) => b < |s.batches| && s.batches[b].phase.Cancelling?
  }

  /** The loop goes on to the job at i, which starts running, or leaves for the history write. */
  function Onward(b: Batch, i: nat): Batch {
    if i < |b.jobs| then b.(jobs := b.jobs[i := b.jobs[i].(status := Running)], phase := InJob(i))
    else b.(phase := Recording)
  }

  function SetBatch(s: State, b: nat, batch: Batch): State
    requires b < |s.batches|
  {
    s.(batches := s.batches[b := batch])
  }

  function Next(s: State, move: Move, quiet: bool): State
    requires Enabled(s, move, quiet)
  {
    match move
    case Start(scope) =>
      if s.current.Some? then s
      else s.(batches := s.batches + [Batch(scope, Fresh(s.registry, scope), Created)], current := Some(|s.batches|))
    case FirstStep(b) => SetBatch(s, b, Onward(s.batches[b], 0))
    case JobEnds(b, outcome) =>
      var batch, i := s.batches[b], s.batches[b].phase.next;
      SetBatch(s, b, Onward(batch.(jobs := batch.jobs[i := batch.jobs[i].(status := Done(outcome))]), i + 1))
    case Record(b) => SetBatch(s, b, s.batches[b].(phase := Finished)).(current := None)
    case Shutdown => AfterShutdown(s)
    case Land(b) =>
      // Only the handler inside the job loop clears the current pointer, whichever batch it points at by then.
      var batch := s.batches[b];
      if batch.phase.inLoop
      then SetBatch(s, b, batch.(jobs := MarkInterrupted(batch.jobs), phase := Gone)).(current := None)
      else SetBatch(s, b, batch.(phase := Gone))
  }

  /** Cancel the latest driver if it still runs, settle the current batch's jobs, point at nothing. */
  function AfterShutdown(s: State): State {
    var last := |s.batches| - 1;
    var cancelled := if last >= 0 && Alive(s.batches[last])
                     then SetBatch(s, last, s.batches[last].(phase := Cancelling(s.batches[last].phase.InJob?))) else s;
    var marked := if s.current.Some? && s.current.value < |s.batches|
                  then SetBatch(cancelled, s.current.value,
                                cancelled.batches[s.current.value].(
                                  jobs := MarkInterrupted(s.batches[s.current.value].jobs)))
                  else cancelled;
    marked.(current := None)
  }

  ghost predicate Runs(s: State, moves: seq<Move>, quiet: bool)
    decreases |moves|
  {
    moves == [] || (Enabled(s, moves[0], quiet) && Runs(Next(s, moves[0], quiet), moves[1..], quiet))
  }

  ghost function End(s: State, moves: seq<Move>, quiet: bool): State
    requires Runs(s, moves, quiet)
    decreases |moves|
  {
    if moves == [] then s else End(Next(s, moves[0], quiet), moves[1..], quiet)
  }

  ghost predicate Init(s: State) {
    s.batches == [] && s.current.None?
  }

  // ---------------------------------------------------------------- one batch

  /** The selected jobs in registry order; those before next done, the one at next running, the rest pending. */
  ghost predicate BatchOk(registry: seq<Job>, b: Batch) {
    var jobs := Selected(registry, b.scope);
    && |b.jobs| == |jobs| && (forall i :: 0 <= i < |jobs| ==> b.jobs[i].key == jobs[i].key)
    && match b.phase
       case Created => forall i :: 0 <= i < |jobs| ==> b.jobs[i].status.Pending?
       case InJob(next) =>
         next < |jobs| && b.jobs[next].status.Running?
         && (forall i :: 0 <= i < next ==> b.jobs[i].status.Done?)
         && (forall i :: next < i < |jobs| ==> b.jobs[i].status.Pending?)
       case Recording => forall i :: 0 <= i < |jobs| ==> b.jobs[i].status.Done?
       case Finished => forall i :: 0 <= i < |jobs| ==> b.jobs[i].status.Done?
       case Cancelling(_) => forall i :: 0 <= i < |jobs| ==> !Unfinished(b.jobs[i])
       case Gone => forall i :: 0 <= i < |jobs| ==> !Unfinished(b.jobs[i])
  }

  ghost predicate AllOk(s: State) {
    forall b :: 0 <= b < |s.batches| ==> BatchOk(s.registry, s.batches[b])
  }

  /** Only the latest batch can be alive or cancelled inside its loop; it is current exactly when it is alive. */
  ghost predicate Pointing(s: State) {
    && (forall b :: 0 <= b < |s.batches| - 1 ==> !Alive(s.batches[b]) && s.batches[b].phase != Cancelling(true))
    && s.current == if s.batches != [] && Alive(s.batches[|s.batches| - 1]) then Some(|s.batches| - 1) else None
  }

  ghost predicate Inv(s: State) {
    AllOk(s) && Pointing(s)
  }

  lemma {:induction false} FreshMatches(registry: seq<Job>, scope: Scope)
    ensures BatchOk(registry, Batch(scope, Fresh(registry, scope), Created))
  {}

  lemma MarkingSettles(jobs: seq<Progress>)
    ensures forall i :: 0 <= i < |jobs| ==>
      MarkInterrupted(jobs)[i].key == jobs[i].key && !Unfinished(MarkInterrupted(jobs)[i])
    ensures (forall i :: 0 <= i < |jobs| ==> !Unfinished(jobs[i])) ==> MarkInterrupted(jobs) == jobs
  {}

  /**
   * A shutdown interrupts the current batch's unfinished jobs, keeps the results it has, and touches no other
   * batch.
   */
  lemma ShutdownOnJobs(s: State, b: nat, k: nat)
    requires b < |s.batches| && k < |s.batches[b].jobs|
    ensures var was, s' := s.batches[b].jobs[k], AfterShutdown(s);
      && s'.current.None? && s'.registry == s.registry && |s'.batches| == |s.batches|
      && |s'.batches[b].jobs| == |s.batches[b].jobs| && s'.batches[b].jobs[k].key == was.key
      && s'.batches[b].jobs[k].status ==
           (if s.current == Some(b) && (was.status == Pending || was.status == Running) then Interrupted
            else was.status)
  {}

  lemma ShutdownKeepsInv(s: State)
    requires Inv(s)
    ensures Inv(AfterShutdown(s))
  {
    var s' := AfterShutdown(s);
    if s.current.Some? {
      var c, batch := s.current.value, s.batches[s.current.value];
      MarkingSettles(batch.jobs);
      assert s'.batches == s.batches[c :=
                                     batch.(jobs := MarkInterrupted(batch.jobs),
                                            phase := Cancelling(batch.phase.InJob?))];
      assert BatchOk(s.registry, s'.batches[c]);
    } else {
      assert s'.batches == s.batches;
    }
  }

  predicate DriverMove(move: Move, b: nat) {
    move == FirstStep(b) || (move.JobEnds? && move.b == b) || move == Record(b)
  }

  /** Each driver step keeps its own batch in order. */
  lemma DriverKeepsBatch(s: State, move: Move, b: nat)
    requires AllOk(s) && Enabled(s, move, true) && b < |s.batches| && DriverMove(move, b)
    ensures BatchOk(s.registry, Next(s, move, true).batches[b])
  {
    assert BatchOk(s.registry, s.batches[b]);
  }

  lemma DriverKeepsInv(s: State, move: Move, b: nat)
    requires Inv(s) && Enabled(s, move, true) && b < |s.batches| && DriverMove(move, b)
    ensures Inv(Next(s, move, true))
  {
    DriverKeepsBatch(s, move, b);
    assert b == |s.batches| - 1;
    var s' := Next(s, move, true);
    assert forall k :: 0 <= k < |s'.batches| && k != b ==> s'.batches[k] == s.batches[k];
  }

  lemma LandKeepsInv(s: State, b: nat)
    requires Inv(s) && Enabled(s, Land(b), true)
    ensures Inv(Next(s, Land(b), true))
  {
    assert BatchOk(s.registry, s.batches[b]);
    MarkingSettles(s.batches[b].jobs);
    var s' := Next(s, Land(b), true);
    assert s'.batches == s.batches[b := s.batches[b].(phase := Gone)];
  }

  lemma StartKeepsInv(s: State, scope: Scope)
    requires Inv(s) && Enabled(s, Start(scope), true)
    ensures Inv(Next(s, Start(scope), true))
  {
    FreshMatches(s.registry, scope);
  }

  lemma NextKeepsInv(s: State, move: Move)
    requires Inv(s) && Enabled(s, move, true)
    ensures Inv(Next(s, move, true))
  {
    match move {
      case Start(scope) => StartKeepsInv(s, scope);
      case Shutdown => ShutdownKeepsInv(s);
      case Land(b) => LandKeepsInv(s, b);
      case _ => DriverKeepsInv(s, move, move.b);
    }
  }

  lemma {:induction false} RunKeepsInv(s: State, moves: seq<Move>)
    requires Inv(s) && Runs(s, moves, true)
    ensures Inv(End(s, moves, true)) && End(s, moves, true).registry == s.registry
    decreases |moves|
  {
    if moves != [] {
      NextKeepsInv(s, moves[0]);
      RunKeepsInv(Next(s, moves[0], true), moves[1..]);
    }
  }

  /** A batch in flight has a job that is pending or running. */
  predicate InFlight(b: Batch) {
    exists i :: 0 <= i < |b.jobs| && Unfinished(b.jobs[i])
  }

  /**
   * Over every interleaving of starts, job steps, completions and shutdowns, with no start while a
   * shutdown waits for a driver it cancelled inside the job loop: at most one batch is in flight; a
   * finished one has a result for each selected job, in registry order; a cancelled one has no job left
   * pending or running.
   */
  lemma SingleFlight(s: State, moves: seq<Move>, a: nat, b: nat)
    requires Init(s) && Runs(s, moves, true)
    requires a < |End(s, moves, true).batches| && b < |End(s, moves, true).batches|
    ensures var e := End(s, moves, true); var x := e.batches[a];
      && (InFlight(x) && InFlight(e.batches[b]) ==> a == b && e.current == Some(a))
      && (x.phase.Finished? ==>
            var jobs := Selected(s.registry, x.scope);
            |x.jobs| == |jobs| && forall i :: 0 <= i < |jobs| ==>
              x.jobs[i].key == jobs[i].key && x.jobs[i].status.Done?)
      && (x.phase.Cancelling? || x.phase.Gone? ==> !InFlight(x))
  {
    RunKeepsInv(s, moves);
    var e := End(s, moves, true);
    assert BatchOk(e.registry, e.batches[a]) && BatchOk(e.registry, e.batches[b]);
    if InFlight(e.batches[a]) { assert Alive(e.batches[a]); }
    if InFlight(e.batches[b]) { assert Alive(e.batches[b]); }
  }

  /** Right after a shutdown nothing is in flight. */
  lemma ShutdownSettles(s: State, moves: seq<Move>, b: nat)
    requires Init(s) && Runs(s, moves, true) && b < |AfterShutdown(End(s, moves, true)).batches|
    ensures !InFlight(AfterShutdown(End(s, moves, true)).batches[b])
  {
    RunKeepsInv(s, moves);
    var e := End(s, moves, true);
    ShutdownKeepsInv(e);
    var x := AfterShutdown(e);
    assert BatchOk(x.registry, x.batches[b]);
    assert !Alive(x.batches[b]);
  }

  ghost predicate TwoInFlight(s: State) {
    exists a, b :: 0 <= a < b < |s.batches| && InFlight(s.batches[a]) && InFlight(s.batches[b])
  }

  /** A run after which two batches are in flight together. */
  ghost predicate Overlaps(s: State, moves: seq<Move>) {
    Runs(s, moves, true) && TwoInFlight(End(s, moves, true))
  }

  /**
   * The condition on starts is exact. From an idle orchestrator, one start of a nonempty selection can be
   * followed by two batches in flight at once if and only if a shutdown still waits for a driver that it
   * cancelled inside the job loop: that driver's handler clears the pointer to the new batch, and a further
   * start runs beside it. A driver cancelled before its first step, or while recording, does no such harm.
   */
  lemma OverlapIffStartedDuringShutdown(s: State, scope: Scope)
    requires Inv(s) && s.current.None? && Selected(s.registry, scope) != []
    ensures (exists moves :: Overlaps(Next(s, Start(scope), false), moves)) <==> LoopCancelled(s)
  {
    var s1 := Next(s, Start(scope), false);
    if LoopCancelled(s) {
      OverlapAfterCancel(s, scope);
    } else {
      assert s1 == Next(s, Start(scope), true);
      NextKeepsInv(s, Start(scope));
      forall moves | Runs(s1, moves, true) ensures !TwoInFlight(End(s1, moves, true)) {
        RunKeepsInv(s1, moves);
        OneInFlight(End(s1, moves, true));
      }
    }
  }

  lemma OneInFlight(s: State)
    requires Inv(s)
    ensures !TwoInFlight(s)
  {
    forall b: nat | b < |s.batches| && InFlight(s.batches[b]) ensures b == |s.batches| - 1 {
      assert BatchOk(s.registry, s.batches[b]);
      assert Alive(s.batches[b]);
    }
  }

  /** The driver of batch c, cancelled in its loop, clears the pointer to the batch started since. */
  lemma LandingClears(s: State, c: nat, started: Batch)
    requires Inv(s) && s.current.None? && c < |s.batches| && s.batches[c].phase == Cancelling(true)
      && started.phase.Created?
    ensures var s1 := s.(batches := s.batches + [started], current := Some(|s.batches|));
      var s2 := Next(s1, Land(c), true);
      s2.registry == s.registry && |s2.batches| == |s1.batches| && s2.batches[|s.batches|] == started
      && s2.current.None? && !LoopCancelled(s2)
  {
    var s1 := s.(batches := s.batches + [started], current := Some(|s.batches|));
    var s2 := Next(s1, Land(c), true);
    assert c == |s.batches| - 1;
    forall k: nat | k < |s2.batches| ensures s2.batches[k].phase != Cancelling(true) {
      if k < c { assert s2.batches[k] == s.batches[k]; }
    }
  }

  lemma OverlapAfterCancel(s: State, scope: Scope)
    requires Inv(s) && s.current.None? && Selected(s.registry, scope) != [] && LoopCancelled(s)
    ensures exists moves :: Overlaps(Next(s, Start(scope), false), moves)
  {
    var n := |s.batches|;
    var c: nat :| c < n && s.batches[c].phase == Cancelling(true);
    var started := Batch(scope, Fresh(s.registry, scope), Created);
    var s1 := Next(s, Start(scope), false);
    LandingClears(s, c, started);
    var s2 := Next(s1, Land(c), true);
    var s3 := Next(s2, Start(scope), true);
    assert Unfinished(started.jobs[0]) && InFlight(started);
    assert s3.batches[n] == started && s3.batches[n + 1] == started;
    TwoMore(s1, Land(c), Start(scope), []);
    assert [Land(c), Start(scope)] + [] == [Land(c), Start(scope)];
    assert Overlaps(s1, [Land(c), Start(scope)]);
  }

  /**
   * The state in question is reached: a batch is started, its driver enters the first job, and a shutdown
   * cancels it.
   */
  lemma ShutdownInsideTheLoop(job: Job)
    ensures var s := State([job], [], None); var moves := [Start(All), FirstStep(0), Shutdown];
      && Init(s) && Runs(s, moves, true)
      && End(s, moves, true).current.None? && LoopCancelled(End(s, moves, true)) && Inv(End(s, moves, true))
  {
    var s := State([job], [], None);
    assert Selected([job], All) == [job] by { assert [job][..0] == []; }
    var s1 := Next(s, Start(All), true);
    assert s1.batches[0].jobs == [Progress(job.key, Pending)];
    var s2 := Next(s1, FirstStep(0), true);
    assert s2.batches[0].phase == InJob(0);
    var s3 := Next(s2, Shutdown, true);
    assert s3.batches[0].phase == Cancelling(true);
    assert [Shutdown][1..] == [];
    assert Runs(s2, [Shutdown], true) && End(s2, [Shutdown], true) == s3;
    TwoMore(s, Start(All), FirstStep(0), [Shutdown]);
    assert [Start(All), FirstStep(0)] + [Shutdown] == [Start(All), FirstStep(0), Shutdown];
    RunKeepsInv(s, [Start(All), FirstStep(0), Shutdown]);
  }

  lemma TwoMore(s: State, a: Move, b: Move, rest: seq<Move>)
    requires Enabled(s, a, true) && Enabled(Next(s, a, true), b, true)
      && Runs(Next(Next(s, a, true), b, true), rest, true)
    ensures Runs(s, [a, b] + rest, true)
    ensures End(s, [a, b] + rest, true) == End(Next(Next(s, a, true), b, true), rest, true)
  {
    OneMore(Next(s, a, true), b, rest);
    OneMore(s, a, [b] + rest);
    assert [a] + ([b] + rest) == [a, b] + rest;
  }

  lemma OneMore(s: State, a: Move, rest: seq<Move>)
    requires Enabled(s, a, true) && Runs(Next(s, a, true), rest, true)
    ensures Runs(s, [a] + rest, true) && End(s, [a] + rest, true) == End(Next(s, a, true), rest, true)
  {
    assert ([a] + rest)[1..] == rest;
  }

  // ---------------------------------------------------------------- a driver's whole course

  /**
   * A driver about to take its first step, with an outcome for each job, or for those before the one it is
   * cancelled in.
   */
  ghost predicate Drivable(s: State, b: nat, outcomes: seq<string>) {
    && b < |s.batches| && s.batches[b].phase.Created? && |outcomes| <= |s.batches[b].jobs|
    && forall k :: 0 <= k < |s.batches[b].jobs| ==> s.batches[b].jobs[k].status.Pending?
  }

  /** Jobs done up to the outcomes at hand, the rest as given. */
  function DoneThen(jobs: seq<Progress>, outcomes: seq<string>, rest: Status): (r: seq<Progress>)
    ensures |r| == |jobs|
  {
    seq(|jobs|, k requires 0 <= k < |jobs| => jobs[k].(status := if k < |outcomes| then Done(outcomes[k]) else rest))
  }

  /** What driving leaves: a finished batch, or one whose unfinished jobs the handler marked; nothing current. */
  function Driven(s: State, b: nat, outcomes: seq<string>): State
    requires b < |s.batches|
  {
    var batch := s.batches[b];
    var phase := if |outcomes| >= |batch.jobs| then Finished else Gone;
    SetBatch(s, b, batch.(jobs := DoneThen(batch.jobs, outcomes, Interrupted), phase := phase)).(current := None)
  }

  /** Driven to its end every job has its own outcome; cancelled inside one, it and those after it are interrupted. */
  lemma DrivenJobs(s: State, b: nat, outcomes: seq<string>, k: nat)
    requires Drivable(s, b, outcomes) && k < |s.batches[b].jobs|
    ensures var was, now := s.batches[b].jobs[k], Driven(s, b, outcomes).batches[b];
      && |now.jobs| == |s.batches[b].jobs| && now.jobs[k].key == was.key
      && now.jobs[k].status == (if k < |outcomes| then Done(outcomes[k]) else Interrupted)
      && (now.phase == Finished <==> |outcomes| == |now.jobs|)
    ensures Driven(s, b, outcomes).current.None?
    ensures forall b' :: 0 <= b' < |s.batches| && b' != b ==> Driven(s, b, outcomes).batches[b'] == s.batches[b']
  {}

  /** A new batch has the selected jobs' keys in their order, all pending, and becomes the current one. */
  lemma StartedJobs(s: State, scope: Scope, k: nat)
    requires s.current.None? && k < |Selected(s.registry, scope)|
    ensures var s' := Next(s, Start(scope), false);
      && |s'.batches| == |s.batches| + 1 && s.batches <= s'.batches && s'.current == Some(|s.batches|)
      && var batch := s'.batches[|s.batches|];
         batch.scope == scope && |batch.jobs| == |Selected(s.registry, scope)|
         && batch.jobs[k] == Progress(Selected(s.registry, scope)[k].key, Pending)
  {}

  function JobMoves(b: nat, outcomes: seq<string>): seq<Move> {
    if outcomes == [] then [] else JobMoves(b, outcomes[..|outcomes| - 1]) + [JobEnds(b, outcomes[|outcomes| - 1])]
  }

  /** The moves of a whole drive: to the history write, or to a shutdown and the landing it leads to. */
  function DriveMoves(b: nat, outcomes: seq<string>, jobs: nat): seq<Move> {
    [FirstStep(b)] + JobMoves(b, outcomes) + if |outcomes| >= jobs then [Record(b)] else [Shutdown, Land(b)]
  }

  /** After the first step and some outcomes, the driver is in the next job, or about to record. */
  function Partway(s: State, b: nat, outcomes: seq<string>): State
    requires b < |s.batches|
  {
    var batch, n := s.batches[b], |outcomes|;
    SetBatch(s, b, Onward(batch.(jobs := DoneThen(batch.jobs, outcomes, Pending)), n))
  }

  lemma {:induction false} RunsConcat(s: State, a: seq<Move>, b: seq<Move>)
    requires Runs(s, a, true) && Runs(End(s, a, true), b, true)
    ensures Runs(s, a + b, true) && End(s, a + b, true) == End(End(s, a, true), b, true)
    decreases |a|
  {
    if a == [] {
      assert a + b == b;
    } else {
      RunsConcat(Next(s, a[0], true), a[1..], b);
      OneMore(s, a[0], a[1..] + b);
      assert [a[0]] + (a[1..] + b) == a + b;
    }
  }

  lemma OneJobEnds(s: State, b: nat, outcomes: seq<string>)
    requires Drivable(s, b, outcomes) && outcomes != []
    ensures var front, last := outcomes[..|outcomes| - 1], outcomes[|outcomes| - 1];
      && Enabled(Partway(s, b, front), JobEnds(b, last), true)
      && Next(Partway(s, b, front), JobEnds(b, last), true) == Partway(s, b, outcomes)
  {
    var n := |outcomes| - 1;
    var front, jobs := outcomes[..n], s.batches[b].jobs;
    var before := Partway(s, b, front).batches[b].jobs;
    assert before[n := before[n].(status := Done(outcomes[n]))] == DoneThen(jobs, outcomes, Pending);
    assert s.batches[b := Onward(s.batches[b].(jobs := DoneThen(jobs, front, Pending)), n)][b :=
        Partway(s, b, outcomes).batches[b]]
           == Partway(s, b, outcomes).batches;
  }

  lemma {:induction false} JobsRun(s: State, b: nat, outcomes: seq<string>)
    requires Drivable(s, b, outcomes)
    ensures Runs(s, [FirstStep(b)] + JobMoves(b, outcomes), true)
    ensures End(s, [FirstStep(b)] + JobMoves(b, outcomes), true) == Partway(s, b, outcomes)
  {
    if outcomes == [] {
      assert DoneThen(s.batches[b].jobs, outcomes, Pending) == s.batches[b].jobs;
      OneMore(s, FirstStep(b), []);
    } else {
      var n := |outcomes| - 1;
      var front, last := outcomes[..n], JobEnds(b, outcomes[n]);
      JobsRun(s, b, front);
      OneJobEnds(s, b, outcomes);
      OneMore(Partway(s, b, front), last, []);
      assert [last] + [] == [last];
      RunsConcat(s, [FirstStep(b)] + JobMoves(b, front), [last]);
      assert [FirstStep(b)] + JobMoves(b, front) + [last] == [FirstStep(b)] + JobMoves(b, outcomes);
    }
  }

  /**
   * A drive from its first step to its end is a run of the machine: each job begun and ended in turn and
   * the batch recorded, or, inside some job, a shutdown and the handler's landing.
   */
  lemma DriveIsARun(s: State, b: nat, outcomes: seq<string>)
    requires Drivable(s, b, outcomes) && b == |s.batches| - 1 && s.current == Some(b)
    ensures Runs(s, DriveMoves(b, outcomes, |s.batches[b].jobs|), true)
    ensures End(s, DriveMoves(b, outcomes, |s.batches[b].jobs|), true) == Driven(s, b, outcomes)
  {
    var part, jobs := Partway(s, b, outcomes), s.batches[b].jobs;
    JobsRun(s, b, outcomes);
    if |outcomes| == |jobs| {
      assert DoneThen(jobs, outcomes, Pending) == DoneThen(jobs, outcomes, Interrupted);
      OneMore(part, Record(b), []);
      assert [Record(b)] + [] == [Record(b)];
      RunsConcat(s, [FirstStep(b)] + JobMoves(b, outcomes), [Record(b)]);
    } else {
      CancelledInAJob(s, b, outcomes);
      RunsConcat(s, [FirstStep(b)] + JobMoves(b, outcomes), [Shutdown, Land(b)]);
    }
  }

  lemma CancelledInAJob(s: State, b: nat, outcomes: seq<string>)
    requires Drivable(s, b, outcomes) && b == |s.batches| - 1 && s.current == Some(b)
      && |outcomes| < |s.batches[b].jobs|
    ensures Runs(Partway(s, b, outcomes), [Shutdown, Land(b)], true)
    ensures End(Partway(s, b, outcomes), [Shutdown, Land(b)], true) == Driven(s, b, outcomes)
  {
    var part, jobs := Partway(s, b, outcomes), s.batches[b].jobs;
    var settled := DoneThen(jobs, outcomes, Interrupted);
    assert MarkInterrupted(part.batches[b].jobs) == settled;
    var s1 := Next(part, Shutdown, true);
    assert s1.batches[b] == s.batches[b].(jobs := settled, phase := Cancelling(true));
    MarkingSettles(settled);
    var s2 := Next(s1, Land(b), true);
    assert s2.batches == Driven(s, b, outcomes).batches;
    TwoMore(part, Shutdown, Land(b), []);
    assert [Shutdown, Land(b)] + [] == [Shutdown, Land(b)];
  }

  // ---------------------------------------------------------------- the orchestrator

  class MaintenanceOrchestrator {
    var state: State

    constructor (registry: seq<Job>)
      ensures state == State(registry, [], None)
    {
      state := State(registry, [], None);
    }

    /** The new batch, or the one already in flight. */
    method StartRun(scope: Scope) returns (r: Result<nat, nat>)
      modifies this
      ensures state == Next(old(state), Start(scope), false)
      ensures r == if old(state).current.Some? then Err(old(state).current.value) else Ok(|old(state).batches|)
    {
      if state.current.Some? {
        return Err(state.current.value);
      }
      var selected: seq<Job> := [];
      for i := 0 to |state.registry|
        invariant state == old(state) && selected == Selected(state.registry[..i], scope)
      {
        assert state.registry[..i + 1][..i] == state.registry[..i];
        if scope.All? || state.registry[i].nightly {
          selected := selected + [state.registry[i]];
        }
      }
      assert state.registry[..|state.registry|] == state.registry;
      var jobs := seq(|selected|, i requires 0 <= i < |selected| => Progress(selected[i].key, Pending));
      assert jobs == Fresh(state.registry, scope);
      r := Ok(|state.batches|);
      state := state.(batches := state.batches + [Batch(scope, jobs, Created)], current := Some(|state.batches|));
    }

    /**
     * _drive: each job's outcome in turn, then recorded and cleared; short of outcomes, it is cancelled in
     * the job they run out at, and its handler settles what is unfinished.
     */
    method Drive(b: nat, outcomes: seq<string>)
      requires Drivable(state, b, outcomes)
      modifies this
      ensures state == Driven(old(state), b, outcomes)
    {
      ghost var start := state.batches[b];
      var i := 0;
      while i < |state.batches[b].jobs|
        invariant |state.batches| == |old(state).batches| && i <= |outcomes| && |state.batches[b].jobs| == |start.jobs|
        invariant state == old(state).(batches := old(state).batches[b := state.batches[b]])
        invariant state.batches[b] == start.(jobs := state.batches[b].jobs)
        invariant state.batches[b].jobs == DoneThen(start.jobs, outcomes[..i], Pending)
        decreases |start.jobs| - i
      {
        var jobs := state.batches[b].jobs;
        jobs := jobs[i := jobs[i].(status := Running)];
        if i == |outcomes| {
          jobs := MarkInterrupted(jobs);
          assert outcomes[..i] == outcomes && jobs == DoneThen(start.jobs, outcomes, Interrupted);
          state := state.(batches := state.batches[b := state.batches[b].(jobs := jobs, phase := Gone)],
                          current := None);
          return;
        }
        jobs := jobs[i := jobs[i].(status := Done(outcomes[i]))];
        assert jobs == DoneThen(start.jobs, outcomes[..i + 1], Pending);
        state := state.(batches := state.batches[b := state.batches[b].(jobs := jobs)]);
        i := i + 1;
      }
      assert outcomes[..i] == outcomes && state.batches[b].jobs == DoneThen(start.jobs, outcomes, Interrupted);
      state := state.(batches := state.batches[b := state.batches[b].(phase := Finished)], current := None);
    }

    method ShutDown()
      modifies this
      ensures state == AfterShutdown(old(state))
    {
      var last, current := |state.batches| - 1, state.current;
      if last >= 0 && Alive(state.batches[last]) {
        var batch := state.batches[last];
        state := state.(batches := state.batches[last := batch.(phase := Cancelling(batch.phase.InJob?))]);
      }
      if current.Some? && current.value < |state.batches| {
        var batch := state.batches[current.value];
        state := state.(batches := state.batches[current.value := batch.(jobs := MarkInterrupted(batch.jobs))]);
      }
      state := state.(current := None);
    }
  }
}
