/** What closing a Windows handle guarantees: nothing is orphaned, and Close returns. */
module IocpShutdown {
  import opened Core
  import opened IocpProtocol
  import opened IocpTrace
  import opened IocpInvariant

  // ---------------------------------------------------------------- no orphan

  /** A transfer a waiter would wait on: Submit returned success and nothing completed it yet. */
  ghost predicate AwaitsCompletion(s: System, t: Tid) {
    t < |s.transfers| && s.transfers[t].pc == Idle && s.transfers[t].InFlight()
  }

  /**
   When the pump returned other than by the drain deadline, its last check found the pending
   map empty, and every registration made before that check was dispatched or unregistered,
   exactly once.
   */
  lemma NoOrphan(run: seq<System>, t: Tid, i: nat) returns (j: nat)
    requires IsRun(run) && run[|run| - 1].pump == Exited(false)
    requires i < run[|run| - 1].lastCheck <= |run[|run| - 1].trace|
    requires run[|run| - 1].trace[i] == Reg(t)
    ensures var s := run[|run| - 1];
      && s.trace[s.lastCheck - 1] == Check(0)
      && (forall k :: s.lastCheck <= k < |s.trace| ==> !s.trace[k].Check?)
      && ClosedBy(s.trace, t, i, j)
      && forall k :: ClosedBy(s.trace, t, i, k) ==> k == j
  {
    ReachableInv(run, |run| - 1);
    var s := run[|run| - 1];
    assert TransferOk(s, t);
    j := RegistrationIsClosed(s.trace, t, i);
  }

  /** No dispatch and no unregistration happens without the one registration it ends. */
  lemma EndingHasRegistration(run: seq<System>, t: Tid, j: nat) returns (i: nat)
    requires IsRun(run)
    requires j < |run[|run| - 1].trace|
    requires run[|run| - 1].trace[j] in {Disp(t), Unreg(t)}
    ensures ClosedBy(run[|run| - 1].trace, t, i, j)
  {
    ReachableInv(run, |run| - 1);
    var trace := run[|run| - 1].trace;
    BracketedPrefix(trace, j + 1);
    var front := trace[..j + 1];
    assert front[..j] == trace[..j];
    i := OpenAt(front[..j], t).value;
    NothingAfterOpen(trace[..j], t);
    forall k | i < k < j ensures !trace[k].About(t) { assert trace[..j][k] == trace[k]; }
  }

  lemma {:induction false} BracketedPrefix(trace: seq<Event>, n: nat)
    requires Bracketed(trace) && n <= |trace|
    ensures Bracketed(trace[..n])
    decreases |trace|
  {
    if n == |trace| {
      assert trace[..n] == trace;
    } else {
      BracketedPrefix(trace[..|trace| - 1], n);
      assert trace[..|trace| - 1][..n] == trace[..n];
    }
  }

  /** After such an exit, the transfers still awaited are exactly those registered too late. */
  lemma OrphansAreTheLateOnes(run: seq<System>, t: Tid)
    requires IsRun(run) && run[|run| - 1].pump == Exited(false)
    requires t < |run[|run| - 1].transfers| && run[|run| - 1].transfers[t].pc == Idle
    ensures var s := run[|run| - 1];
      AwaitsCompletion(s, t) <==>
      OpenAt(s.trace, t).Some? && s.lastCheck <= OpenAt(s.trace, t).value
  {
    ReachableInv(run, |run| - 1);
    assert TransferOk(run[|run| - 1], t);
  }

  /** Once the pump is gone nothing completes a transfer that is still awaited. */
  lemma OrphanStaysOrphan(s: System, l: Label, s': System, t: Tid)
    requires Inv(s) && Step(s, l, s')
    requires s.pump.Exited? && AwaitsCompletion(s, t)
    ensures s'.pump == s.pump && AwaitsCompletion(s', t)
  {
    ExitedStays(s, l, s');
  }

  lemma ExitedStays(s: System, l: Label, s': System)
    requires Inv(s) && Step(s, l, s') && s.pump.Exited?
    ensures s'.pump == s.pump
  {
  }

  lemma Extend(run: seq<System>, l: Label) returns (longer: seq<System>)
    requires IsRun(run) && Enabled(run[|run| - 1], l)
    ensures IsRun(longer) && longer[0] == run[0]
    ensures longer[|longer| - 1] == Apply(run[|run| - 1], l)
  {
    var s := run[|run| - 1];
    longer := run + [Apply(s, l)];
    assert Step(s, l, Apply(s, l));
    forall i | 0 <= i < |longer| - 1 ensures NextAt(longer, i) {
      if i < |run| - 1 { assert NextAt(run, i); }
    }
  }

  /** Transfer 1 is past Submit's closed check; transfer 0 started the pump and failed. */
  ghost predicate OneMarked(s: System) {
    && |s.transfers| == 2 && s.transfers[1].pc == Marked && s.transfers[1].InFlight()
    && s.handle.running && s.handle.pending == map[]
    && s.pump == Top && !s.draining && s.port == []
  }

  lemma MarkOne(s: System) returns (run: seq<System>)
    requires Init(s) && |s.transfers| == 2
    ensures IsRun(run) && run[0] == s
    ensures OneMarked(run[|run| - 1]) && run[|run| - 1].closer == NotCalled
  {
    run := [s];
    run := Extend(run, Accept(0));
    run := Extend(run, RegisterOk(0));
    run := Extend(run, StartFail(0));
    run := Extend(run, Unregister(0));
    run := Extend(run, Accept(1));
  }

  lemma CloseMeanwhile(run0: seq<System>) returns (run: seq<System>)
    requires IsRun(run0) && OneMarked(run0[|run0| - 1]) && run0[|run0| - 1].closer == NotCalled
    ensures IsRun(run) && run[0] == run0[0]
    ensures OneMarked(run[|run| - 1].(port := [])) && run[|run| - 1].port == [Wake]
    ensures run[|run| - 1].handle.closed
  {
    run := Extend(run0, CloseBegin);
    run := Extend(run, CloseCancel);
    run := Extend(run, ClosePost);
  }

  /** The pump finds nothing pending and exits while transfer 1 is still about to register. */
  lemma PumpLeaves(s: System) returns (run: seq<System>)
    requires Init(s) && |s.transfers| == 2
    ensures IsRun(run) && run[0] == s
    ensures var last := run[|run| - 1];
      && |last.transfers| == 2 && last.transfers[1].pc == Marked && last.transfers[1].InFlight()
      && last.handle.running && last.pump == Exited(false)
  {
    run := MarkOne(s);
    run := CloseMeanwhile(run);
    run := Extend(run, PumpTop);
    run := Extend(run, PumpDequeue);
    run := Extend(run, PumpReadClosed);
    run := Extend(run, PumpCheck);
    run := Extend(run, PumpDecideNil);
  }

  /**
   Submit reads closed before it registers, so a registration can land after the pump's last
   check. In this run transfer 1 passes the closed check, Close wakes the pump, the pump finds
   nothing pending and exits, and only then does transfer 1 register and start its I/O.
   */
  lemma LateRegistrationIsOrphaned(s: System) returns (run: seq<System>)
    requires Init(s) && |s.transfers| == 2
    ensures IsRun(run) && run[0] == s
    ensures run[|run| - 1].pump == Exited(false) && AwaitsCompletion(run[|run| - 1], 1)
  {
    run := PumpLeaves(s);
    run := Extend(run, RegisterOk(1));
    run := Extend(run, Start(1));
  }

  // ---------------------------------------------------------------- Close returns

  function SubmitRank(pc: SubmitPc): nat {
    match pc
    case Idle => 0
    case Aborting => 1
    case StartFailed => 2
    case Registered => 9
    case Marked => 10
  }

  function PumpRank(pc: PumpPc): nat {
    match pc
    case Exited(_) => 0
    case Waiting(_) => 1
    case NotStarted => 2
    case Top => 2
    case CheckedNil(_) => 3
    case SawClosed => 4
    case GotNil => 5
    case Dispatched(_) => 3
    case Looked(_, _, _, _) => 4
    case Got(_, _, _) => 5
  }

  function CloserRank(c: Closer): nat {
    match c
    case Finished => 0
    case Freeing => 1
    case Joining => 2
    case Posting => 9
    case Cancelling => 10
    case NotCalled => 11
  }

  function SubmitWork(transfers: seq<Transfer>): nat {
    if transfers == [] then 0 else SubmitRank(transfers[0].pc) + SubmitWork(transfers[1..])
  }

  lemma {:induction false} SubmitWorkUpdate(transfers: seq<Transfer>, t: nat, x: Transfer)
    requires t < |transfers|
    ensures SubmitWork(transfers[t := x]) + SubmitRank(transfers[t].pc)
         == SubmitWork(transfers) + SubmitRank(x.pc)
  {
    if t == 0 {
      assert transfers[t := x][1..] == transfers[1..];
    } else {
      assert transfers[t := x][1..] == transfers[1..][t - 1 := x];
      SubmitWorkUpdate(transfers[1..], t - 1, x);
    }
  }

  /** What is left of the time the pump may still wait, in nanoseconds. */
  function Window(s: System): nat {
    if !s.draining then DRAIN_TIMEOUT + MILLISECOND
    else if s.now < s.deadline + MILLISECOND then s.deadline + MILLISECOND - s.now
    else 0
  }

  /** Everything that can still happen once Close has set closed. */
  function Remaining(s: System): nat {
    SubmitWork(s.transfers) + 7 * |s.outstanding| + 6 * |s.port| + 6 * s.glitches
    + PumpRank(s.pump) + CloserRank(s.closer) + Window(s)
  }

  lemma SubmitStepDecreases(s: System, l: Label, s': System)
    requires Inv(s) && Step(s, l, s')
    requires l.RegisterOk? || l.RegisterFail? || l.Start? || l.StartFail? || l.Unregister? || l.Abort?
    ensures Remaining(s') < Remaining(s)
  {
    SubmitWorkUpdate(s.transfers, l.t, s'.transfers[l.t]);
    if l.Start? {
      assert TransferOk(s, l.t);
      assert |s'.outstanding| == |s.outstanding| + 1;
    }
  }

  lemma DispatchDecreases(s: System, s': System)
    requires Inv(s) && Step(s, PumpDispatch, s')
    ensures Remaining(s') < Remaining(s)
  {
    SubmitWorkUpdate(s.transfers, s.pump.found.value, s'.transfers[s.pump.found.value]);
  }

  /** The pump's steps that change nothing but its own position, the queue, and the trace. */
  lemma PumpStepDecreases(s: System, l: Label, s': System)
    requires Inv(s) && Step(s, l, s') && s.handle.closed && !s.portClosed
    requires l.PumpTop? || l.PumpDequeue? || l.PumpTimeout? || l.PumpGlitch?
    ensures Remaining(s') < Remaining(s)
  {
    assert s'.transfers == s.transfers && s'.outstanding == s.outstanding;
  }

  lemma PumpCheckDecreases(s: System, l: Label, s': System)
    requires Step(s, l, s')
    requires l.PumpCheck? || l.PumpLookup?
    ensures Remaining(s') < Remaining(s)
  {
    assert s'.transfers == s.transfers && s'.outstanding == s.outstanding;
  }

  lemma PumpDecisionDecreases(s: System, l: Label, s': System)
    requires Step(s, l, s') && s.handle.closed
    requires l.PumpReadClosed? || l.PumpDecideNil? || l.PumpDecide?
    ensures Remaining(s') < Remaining(s)
  {
    assert s'.transfers == s.transfers && s'.outstanding == s.outstanding;
  }

  lemma CloserStepDecreases(s: System, l: Label, s': System)
    requires Step(s, l, s')
    requires l.CloseCancel? || l.ClosePost? || l.CloseJoin? || l.CloseFree?
    ensures Remaining(s') < Remaining(s)
  {
    assert s'.transfers == s.transfers && s'.outstanding == s.outstanding && s'.pump == s.pump;
  }

  lemma FinishDecreases(s: System, l: Label, s': System)
    requires Step(s, l, s') && l.Finish?
    ensures Remaining(s') < Remaining(s)
  {
    assert |s'.outstanding| == |s.outstanding| - 1;
  }

  lemma TickKeeps(s: System, l: Label, s': System)
    requires Step(s, l, s') && l.Tick?
    ensures Remaining(s') <= Remaining(s)
  {
    assert s'.transfers == s.transfers && s'.outstanding == s.outstanding && s'.pump == s.pump;
  }

  /** Neither Submit accepts nor a second Close begins once closed is set. */
  lemma NoneBegins(s: System, l: Label)
    requires Inv(s) && Enabled(s, l) && s.handle.closed
    ensures !l.Accept? && !l.CloseBegin?
  {
  }

  /** Until the port is closed, every step after closed is set, other than the clock's, uses up work. */
  lemma StepAfterCloseDecreases(s: System, l: Label, s': System)
    requires Inv(s) && Step(s, l, s') && s.handle.closed && !s.portClosed
    ensures l.Tick? ==> Remaining(s') <= Remaining(s)
    ensures !l.Tick? ==> Remaining(s') < Remaining(s)
  {
    NoneBegins(s, l);
    if l.RegisterOk? || l.RegisterFail? || l.Start? || l.StartFail? || l.Unregister? || l.Abort? {
      SubmitStepDecreases(s, l, s');
    } else if l.PumpDispatch? {
      DispatchDecreases(s, s');
    } else if l.Tick? {
      TickKeeps(s, l, s');
    } else if l.Finish? {
      FinishDecreases(s, l, s');
    } else if l.CloseCancel? || l.ClosePost? || l.CloseJoin? || l.CloseFree? {
      CloserStepDecreases(s, l, s');
    } else if l.PumpTop? || l.PumpDequeue? || l.PumpTimeout? || l.PumpGlitch? {
      PumpStepDecreases(s, l, s');
    } else if l.PumpCheck? || l.PumpLookup? {
      PumpCheckDecreases(s, l, s');
    } else {
      PumpDecisionDecreases(s, l, s');
    }
  }

  /** labels[i] leads from states[i] to states[i + 1], with the port open throughout. */
  ghost predicate StepAt(states: seq<System>, labels: seq<Label>, i: nat)
    requires i + 1 < |states| && |states| == |labels| + 1
  {
    !states[i].portClosed && Step(states[i], labels[i], states[i + 1])
  }

  ghost predicate IsPath(states: seq<System>, labels: seq<Label>) {
    |states| == |labels| + 1 && forall i :: 0 <= i < |labels| ==> StepAt(states, labels, i)
  }

  function Works(labels: seq<Label>): nat {
    if labels == [] then 0 else (if labels[0].Tick? then 0 else 1) + Works(labels[1..])
  }

  lemma PathTail(states: seq<System>, labels: seq<Label>)
    requires IsPath(states, labels) && labels != []
    ensures IsPath(states[1..], labels[1..])
  {
    forall i | 0 <= i < |labels| - 1 ensures StepAt(states[1..], labels[1..], i) {
      assert StepAt(states, labels, i + 1);
    }
  }

  /** After closed is set, submits in flight, kernel, pump and closer together take boundedly many steps. */
  lemma {:induction false} WorkAfterCloseIsBounded(states: seq<System>, labels: seq<Label>)
    requires IsPath(states, labels) && Inv(states[0]) && states[0].handle.closed
    ensures Works(labels) <= Remaining(states[0])
    decreases |labels|
  {
    if labels != [] {
      assert StepAt(states, labels, 0);
      StepAfterCloseDecreases(states[0], labels[0], states[1]);
      StepKeepsInv(states[0], labels[0], states[1]);
      ClosedStays(states[0], labels[0], states[1]);
      PathTail(states, labels);
      WorkAfterCloseIsBounded(states[1..], labels[1..]);
    }
  }

  lemma ClosedStays(s: System, l: Label, s': System)
    requires Step(s, l, s') && s.handle.closed
    ensures s'.handle.closed
  {
  }

  /** Over a running pump a submission is registered: Submit gives up before that only if no pump runs. */
  lemma RegistersOverPump(s: System, l: Label, s': System, t: Tid)
    requires Step(s, l, s') && At(s, t, Marked) && s.handle.running
    ensures |s'.transfers| == |s.transfers| && (s'.transfers[t].pc == Marked || s'.transfers[t].pc == Registered)
    ensures s'.transfers[t].pc == Registered ==> s'.handle.pending == s.handle.pending[s.transfers[t].overlapped := t]
  {
  }

  ghost predicate CloseWaits(s: System) {
    s.closer == Cancelling || s.closer == Posting || s.closer == Joining
  }

  /** While Close has not joined the pump, some step that uses up work is possible. */
  lemma CloseIsNeverStuck(s: System) returns (l: Label, s': System)
    requires Inv(s) && CloseWaits(s)
    ensures Step(s, l, s') && Remaining(s') < Remaining(s)
    ensures CloseWaits(s') || (s'.closer == Freeing && s'.pump.Exited?)
  {
    if s.closer == Cancelling {
      l, s' := CloseCancel, s.(closer := Posting);
    } else if s.closer == Posting {
      l, s' := ClosePost, s.(closer := Joining, port := s.port + [Wake]);
    } else if s.pump.Waiting? && s.port == [] && s.now < s.pump.limit.value {
      // Only a draining pump can be parked with nothing queued, and its wait is bounded.
      var d := s.pump.limit.value - s.now;
      l, s' := Tick(d), s.(now := s.now + d);
    } else {
      l, s' := PumpOrJoin(s);
    }
    if !l.Tick? { StepAfterCloseDecreases(s, l, s'); }
  }

  lemma PumpOrJoin(s: System) returns (l: Label, s': System)
    requires Inv(s) && s.closer == Joining
    requires !(s.pump.Waiting? && s.port == [] && s.pump.limit.Some? && s.now < s.pump.limit.value)
    ensures Step(s, l, s') && !l.Tick? && (s'.closer == Joining || (s'.closer == Freeing && s'.pump.Exited?))
  {
    l := match s.pump
         case Exited(_) => CloseJoin
         case Top => PumpTop
         case Waiting(_) => if s.port != [] then PumpDequeue else PumpTimeout
         case GotNil => PumpReadClosed
         case SawClosed => PumpCheck
         case CheckedNil(_) => PumpDecideNil
         case Got(_, _, _) => PumpLookup
         case Looked(_, _, _, _) => PumpDispatch
         case _ => PumpDecide;
    s' := Apply(s, l);
  }

  ghost predicate IsWalk(path: seq<System>) {
    path != [] && forall i :: 0 <= i < |path| - 1 ==> NextAt(path, i)
  }

  lemma WalkCons(s: System, rest: seq<System>)
    requires IsWalk(rest) && Next(s, rest[0])
    ensures IsWalk([s] + rest)
  {
    var path := [s] + rest;
    forall i | 0 <= i < |path| - 1 ensures NextAt(path, i) {
      if i > 0 { assert NextAt(rest, i - 1); }
    }
  }

  /** Close waits for the pump, or is past its wait with the pump gone. */
  ghost predicate CloseInOrder(s: System) {
    CloseWaits(s) || (s.pump.Exited? && (s.closer == Freeing || s.closer == Finished))
  }

  lemma FreeAdvances(s: System) returns (s': System)
    requires Inv(s) && s.closer == Freeing && s.pump.Exited?
    ensures Next(s, s') && Inv(s') && CloseInOrder(s') && Remaining(s') < Remaining(s)
  {
    s' := Apply(s, CloseFree);
    assert Step(s, CloseFree, s');
    StepKeepsInv(s, CloseFree, s');
    CloserStepDecreases(s, CloseFree, s');
  }

  lemma CloseAdvances(s: System) returns (s': System)
    requires Inv(s) && CloseInOrder(s) && s.closer != Finished
    ensures Next(s, s') && Inv(s') && CloseInOrder(s') && Remaining(s') < Remaining(s)
  {
    if s.closer == Freeing {
      s' := FreeAdvances(s);
    } else {
      var l;
      l, s' := CloseIsNeverStuck(s);
      StepKeepsInv(s, l, s');
    }
  }

  /**
   From every reachable state in which Close waits for the pump, or is past that, Close can be brought
   to its return in boundedly many steps, and the pump has exited by then.
   */
  lemma {:induction false} CloseReturns(s: System) returns (path: seq<System>)
    requires Inv(s) && CloseInOrder(s)
    ensures IsWalk(path) && path[0] == s
    ensures path[|path| - 1].closer == Finished && path[|path| - 1].pump.Exited?
    ensures |path| <= Remaining(s) + 1
    decreases Remaining(s)
  {
    if s.closer == Finished {
      path := [s];
    } else {
      var s' := CloseAdvances(s);
      var rest := CloseReturns(s');
      path := [s] + rest;
      WalkCons(s, rest);
    }
  }
}
