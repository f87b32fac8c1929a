/** What the return of Close means on Windows: the pump is gone, and nothing it could have told is untold. */
module IocpClose {
  import opened Core
  import opened IocpProtocol
  import opened IocpTrace
  import opened IocpInvariant
  import opened IocpShutdown
  import opened IocpDrain
  import opened IocpOutcome

  // ---------------------------------------------------------------- the join

  /** Close began over a running pump: it waits for the pump, and frees the handles only once the pump has exited. */
  ghost predicate JoinsPump(s: System) {
    && s.handle.running && s.handle.closed
    && CloseInOrder(s)
    && (s.portClosed <==> s.closer == Finished)
  }

  lemma CloseBeginJoins(s: System, s': System)
    requires Inv(s) && s.handle.running && Step(s, CloseBegin, s')
    ensures JoinsPump(s') && !s.handle.closed
  {
  }

  lemma StepKeepsJoin(s: System, l: Label, s': System)
    requires Inv(s) && Step(s, l, s') && JoinsPump(s)
    ensures JoinsPump(s')
  {
  }

  lemma NextKeepsJoin(s: System, s': System)
    requires Inv(s) && Next(s, s') && JoinsPump(s)
    ensures JoinsPump(s')
  {
    var l :| Step(s, l, s');
    StepKeepsJoin(s, l, s');
  }

  /** The state at i is the one in which a Close of a handle with a running pump begins. */
  ghost predicate ClosesAt(run: seq<System>, i: int) {
    0 <= i < |run| - 1 && run[i].handle.running && Step(run[i], CloseBegin, run[i + 1])
  }

  lemma ClosesAtJoins(run: seq<System>, i: nat)
    requires IsRun(run) && ClosesAt(run, i)
    ensures JoinsPump(run[i + 1])
  {
    ReachableInv(run, i);
    CloseBeginJoins(run[i], run[i + 1]);
  }

  /** From its first step on, Close waits until the pump has exited, and closes the port last. */
  lemma {:induction false} CloseJoinsPump(run: seq<System>, i: nat, j: nat)
    requires IsRun(run) && ClosesAt(run, i) && i < j < |run|
    ensures CloseWaits(run[j]) || run[j].pump.Exited?
    ensures JoinsPump(run[j])
  {
    ClosesAtJoins(run, i);
    if j > i + 1 {
      CloseJoinsPump(run, i, j - 1);
      assert NextAt(run, j - 1);
      ReachableInv(run, j - 1);
      NextKeepsJoin(run[j - 1], run[j]);
    }
  }

  // ---------------------------------------------------------------- what was registered when Close began

  /** Once the handle is closed, t was notified, or is still awaited under the registration at k. */
  ghost predicate Follows(s: System, t: Tid, k: nat) {
    && s.handle.closed && t < |s.transfers| && s.transfers[t].pc == Idle
    && (s.transfers[t].done || (s.transfers[t].InFlight() && OpenAt(s.trace, t) == Some(k)))
  }

  /** The pump acts on a count only if it made it after the first n events. */
  ghost predicate CountsAfter(s: System, n: nat) {
    s.handle.closed && (s.draining || s.pump.CheckedNil? || s.pump == Exited(false) ==> n < s.lastCheck)
  }

  lemma StepKeepsCountsAfter(s: System, l: Label, s': System, n: nat)
    requires Inv(s) && Step(s, l, s') && CountsAfter(s, n) && n <= |s.trace|
    ensures CountsAfter(s', n)
  {
  }

  lemma TraceGrows(s: System, l: Label, s': System)
    requires Step(s, l, s')
    ensures s.trace <= s'.trace
  {
    if s'.trace != s.trace { var e := Logged(s, l, s'); }
  }

  lemma OnlyDispatchTouches(s: System, l: Label, s': System, t: Tid)
    requires Inv(s) && Step(s, l, s') && t < |s.transfers| && s.transfers[t].pc == Idle && s.handle.closed
    requires Touches(s, l, t)
    ensures |s'.transfers| == |s.transfers| && s'.transfers[t].done && s'.transfers[t].pc == Idle && s'.handle.closed
  {
  }

  lemma {:induction false} OthersLog(s: System, l: Label, s': System, t: Tid)
    requires Step(s, l, s') && !Touches(s, l, t)
    ensures OpenAt(s'.trace, t) == OpenAt(s.trace, t)
  {
    if s'.trace != s.trace {
      var e := Logged(s, l, s');
      assert !e.About(t);
      OpenAtAppend(s.trace, e, t);
    }
  }

  /** What a step adds to the trace. */
  lemma Logged(s: System, l: Label, s': System) returns (e: Event)
    requires Step(s, l, s') && s'.trace != s.trace
    ensures s'.trace == s.trace + [e]
    ensures e.Check? || (e.Reg? && l == RegisterOk(e.t)) || (e.Unreg? && l == Unregister(e.t))
         || (e.Disp? && l == PumpDispatch && s.pump.Looked? && s.pump.found == Some(e.t))
  {
    e := s'.trace[|s.trace|];
  }

  lemma StepKeepsFollows(s: System, l: Label, s': System, t: Tid, k: nat)
    requires Inv(s) && Step(s, l, s') && Follows(s, t, k)
    ensures Follows(s', t, k)
  {
    NoneBegins(s, l);
    if Touches(s, l, t) {
      OnlyDispatchTouches(s, l, s', t);
    } else {
      OthersLeave(s, l, s', t);
      ClosedStays(s, l, s');
      OthersLog(s, l, s', t);
    }
  }

  /** t was awaited when the events so far were those before: it was notified since, or is still awaited. */
  ghost predicate FollowsFrom(s: System, before: seq<Event>, t: Tid) {
    OpenAt(before, t).Some? && Follows(s, t, OpenAt(before, t).value)
  }

  /** s comes after Close began with the events so far being those before. */
  ghost predicate AfterClose(s: System, before: seq<Event>) {
    CountsAfter(s, |before|) && before <= s.trace
  }

  lemma NextKeepsAfterClose(s: System, s': System, before: seq<Event>)
    requires Inv(s) && Next(s, s') && AfterClose(s, before)
    ensures AfterClose(s', before)
    ensures forall t :: FollowsFrom(s, before, t) ==> FollowsFrom(s', before, t)
  {
    var l :| Step(s, l, s');
    StepKeepsCountsAfter(s, l, s', |before|);
    TraceGrows(s, l, s');
    forall t | FollowsFrom(s, before, t) ensures FollowsFrom(s', before, t) {
      StepKeepsFollows(s, l, s', t, OpenAt(before, t).value);
    }
  }

  lemma CloseBeginIsBefore(s: System, s': System)
    requires Inv(s) && Step(s, CloseBegin, s')
    ensures AfterClose(s', s.trace)
    ensures forall t :: AwaitsCompletion(s, t) ==> FollowsFrom(s', s.trace, t)
  {
    forall t | AwaitsCompletion(s, t) ensures FollowsFrom(s', s.trace, t) { assert TransferOk(s, t); }
  }

  lemma ClosesAtIsBefore(run: seq<System>, c: nat)
    requires IsRun(run) && ClosesAt(run, c)
    ensures AfterClose(run[c + 1], run[c].trace)
    ensures forall t :: AwaitsCompletion(run[c], t) ==> FollowsFrom(run[c + 1], run[c].trace, t)
  {
    ReachableInv(run, c);
    CloseBeginIsBefore(run[c], run[c + 1]);
  }

  /** In the state at j the pump acts only on counts made after Close began at c. */
  lemma {:induction false} SinceClose(run: seq<System>, c: nat, j: nat)
    requires IsRun(run) && ClosesAt(run, c) && c < j < |run|
    ensures AfterClose(run[j], run[c].trace)
    ensures forall t :: AwaitsCompletion(run[c], t) ==> FollowsFrom(run[j], run[c].trace, t)
  {
    ClosesAtIsBefore(run, c);
    if j > c + 1 {
      SinceClose(run, c, j - 1);
      assert NextAt(run, j - 1);
      ReachableInv(run, j - 1);
      NextKeepsAfterClose(run[j - 1], run[j], run[c].trace);
    }
  }

  /** The window that opened after Close began, at i, ran out with something still pending. */
  ghost predicate RanOut(run: seq<System>, c: nat, i: int) {
    && DrainsSince(run, i) && c < i && SomethingLeft(run[|run| - 1])
    && run[i].now + 2_000_000_000 < run[|run| - 1].now + 1_000_000
  }

  lemma WindowRanOut(run: seq<System>, c: nat)
    requires IsRun(run) && ClosesAt(run, c) && run[|run| - 1].pump == Exited(true)
    ensures exists i :: RanOut(run, c, i)
  {
    var i := DeadlineExit(run);
    ReachableInv(run, c);
    assert !run[c].draining && !run[c].handle.closed;
    assert RanOut(run, c, i);
  }

  /**
   Once a Close that began over a running pump is past its wait, the pump has exited. Each registration
   made before Close began was then dispatched or unregistered, exactly once, unless the drain window
   ran out with something still pending.
   */
  lemma ClosedLeavesNoOrphan(run: seq<System>, c: nat, t: Tid, i: nat)
    requires IsRun(run) && ClosesAt(run, c) && !CloseWaits(run[|run| - 1])
    requires i < |run[c].trace| && run[c].trace[i] == Reg(t)
    ensures var s := run[|run| - 1];
      && s.pump.Exited? && i < |s.trace| && s.trace[i] == Reg(t)
      && ((exists j :: ClosedBy(s.trace, t, i, j) && forall k :: ClosedBy(s.trace, t, i, k) ==> k == j)
          || exists w :: RanOut(run, c, w))
  {
    var s := run[|run| - 1];
    CloseJoinsPump(run, c, |run| - 1);
    SinceClose(run, c, |run| - 1);
    if s.pump == Exited(true) {
      WindowRanOut(run, c);
    } else {
      ReachableInv(run, |run| - 1);
      var j := NoOrphan(run, t, i);
    }
  }

  /**
   A transfer somebody awaits when such a Close begins is done once Close is past its wait, unless the
   drain window ran out with something still pending.
   */
  lemma AwaitedAtCloseIsDone(run: seq<System>, c: nat, t: Tid)
    requires IsRun(run) && ClosesAt(run, c) && !CloseWaits(run[|run| - 1]) && AwaitsCompletion(run[c], t)
    ensures run[|run| - 1].pump.Exited? && t < |run[|run| - 1].transfers|
    ensures run[|run| - 1].transfers[t].done || exists w :: RanOut(run, c, w)
  {
    CloseJoinsPump(run, c, |run| - 1);
    SinceClose(run, c, |run| - 1);
    assert FollowsFrom(run[|run| - 1], run[c].trace, t);
    if run[|run| - 1].pump == Exited(true) {
      WindowRanOut(run, c);
    } else {
      ReachableInv(run, |run| - 1);
      OrphansAreTheLateOnes(run, t);
    }
  }

  // ---------------------------------------------------------------- one such Close

  /** Transfer 0 is in flight, and Close has woken the pump. */
  ghost predicate WokenInFlight(s: System) {
    && |s.transfers| == 1 && s.transfers[0].pc == Idle && s.transfers[0].InFlight() && s.handle.closed
    && s.handle.pending == map[s.transfers[0].overlapped := 0] && s.outstanding == {s.transfers[0].overlapped}
    && s.closer == Joining && s.handle.running && !s.portClosed
  }

  lemma WakeFirst(s: System) returns (run: seq<System>)
    requires Init(s) && |s.transfers| == 1
    ensures IsRun(run) && run[0] == s && WokenInFlight(run[|run| - 1])
    ensures run[|run| - 1].transfers[0].overlapped == s.transfers[0].overlapped
    ensures run[|run| - 1].port == [Wake] && run[|run| - 1].pump == Top && !run[|run| - 1].draining
  {
    run := [s];
    run := Extend(run, Accept(0));
    run := Extend(run, RegisterOk(0));
    run := Extend(run, Start(0));
    run := Extend(run, CloseBegin);
    run := Extend(run, CloseCancel);
    run := Extend(run, ClosePost);
  }

  lemma DrainAfterWake(s: System) returns (run: seq<System>)
    requires Init(s) && |s.transfers| == 1
    ensures IsRun(run) && run[0] == s && WokenInFlight(run[|run| - 1])
    ensures run[|run| - 1].transfers[0].overlapped == s.transfers[0].overlapped
    ensures run[|run| - 1].port == [] && run[|run| - 1].pump.Waiting? && run[|run| - 1].draining
  {
    run := WakeFirst(s);
    run := Extend(run, PumpTop);
    run := Extend(run, PumpDequeue);
    run := Extend(run, PumpReadClosed);
    run := Extend(run, PumpCheck);
    run := Extend(run, PumpDecideNil);
    run := Extend(run, PumpTop);
  }

  /**
   The wake of Close can overtake the completion of a cancelled operation. The pump then drains, tells
   the transfer its outcome, and only after that lets Close return.
   */
  lemma WakeOvertakesCompletion(s: System, err: int) returns (run: seq<System>)
    requires Init(s) && |s.transfers| == 1
    ensures IsRun(run) && run[0] == s
    ensures var last := run[|run| - 1];
      && last.closer == Finished && last.portClosed && last.pump == Exited(false)
      && last.transfers == [Transfer(s.transfers[0].overlapped, false, true, 0, Some(err), Idle)]
  {
    run := DrainAfterWake(s);
    var a := run[|run| - 1].transfers[0].overlapped;
    run := Extend(run, Finish(a, 0, Some(err)));
    run := Extend(run, PumpDequeue);
    run := Extend(run, PumpLookup);
    run := Extend(run, PumpDispatch);
    run := Extend(run, PumpDecide);
    run := Extend(run, CloseJoin);
    run := Extend(run, CloseFree);
  }
}
