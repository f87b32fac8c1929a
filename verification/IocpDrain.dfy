/** The drain window of the Windows pump: when it opens, how long it lasts, and when the pump may give up. */
module IocpDrain {
  import opened Core
  import opened IocpProtocol
  import opened IocpTrace
  import opened IocpInvariant

  // ---------------------------------------------------------------- every reachable state

  /** The last count of the pending map was n. */
  ghost predicate LastCount(s: System, n: nat) {
    0 < s.lastCheck <= |s.trace| && s.trace[s.lastCheck - 1] == Check(n)
  }

  /** The last count of the pending map found something. */
  ghost predicate SomethingLeft(s: System) {
    exists n: nat :: n > 0 && LastCount(s, n)
  }

  /** The pump waits, or works on something other than a count. */
  ghost predicate BetweenCounts(s: System) {
    s.pump == Top || s.pump.Waiting? || s.pump == GotNil || s.pump == SawClosed || s.pump.Got? || s.pump == Exited(true)
  }

  /**
   A draining pump does not wait past its window or, by more than a millisecond, short of it, and it
   gives up only when the window is over to within that millisecond.
   */
  ghost predicate WindowOk(s: System) {
    && (s.pump == Exited(true) ==> s.draining && s.deadline < s.now + MILLISECOND)
    && (s.pump.Waiting? && s.draining ==>
          && s.pump.limit.Some?
          && s.deadline < s.pump.limit.value + MILLISECOND && s.pump.limit.value <= s.deadline + MILLISECOND)
  }

  /** The pump acts on what it counted last, and drains on only while that was not nothing. */
  ghost predicate CountOk(s: System) {
    && s.lastCheck <= |s.trace| && (s.pump == NotStarted ==> !s.draining)
    && (s.pump.CheckedNil? || s.pump.Looked? || s.pump.Dispatched? ==> LastCount(s, s.pump.left))
    && (s.draining && BetweenCounts(s) ==> SomethingLeft(s))
    && (s.pump == Exited(false) ==> LastCount(s, 0))
  }

  lemma StepKeepsWindow(s: System, l: Label, s': System)
    requires Inv(s) && Step(s, l, s') && WindowOk(s)
    ensures WindowOk(s')
  {
  }

  /** A step that is not the pump's adds at most an event after the last count. */
  lemma OtherStepKeepsCount(s: System, l: Label, s': System)
    requires Step(s, l, s') && CountOk(s)
    requires s'.lastCheck == s.lastCheck && s.trace <= s'.trace && s'.draining == s.draining
    requires s'.pump == s.pump || (s.pump == NotStarted && !s.draining)
    requires s.pump == NotStarted ==> s'.pump == NotStarted || s'.pump == Top
    ensures CountOk(s')
  {
    if s.draining && BetweenCounts(s) {
      var n :| n > 0 && LastCount(s, n);
      assert LastCount(s', n);
    }
  }

  lemma PumpStepKeepsCount(s: System, l: Label, s': System)
    requires Inv(s) && Step(s, l, s') && CountOk(s)
    requires l.PumpTop? || l.PumpDequeue? || l.PumpTimeout? || l.PumpGlitch? || l.PumpReadClosed?
    ensures CountOk(s')
  {
    if s.draining && BetweenCounts(s) {
      var n :| n > 0 && LastCount(s, n);
      assert LastCount(s', n);
    }
  }

  lemma PumpDispatchKeepsCount(s: System, s': System)
    requires Step(s, PumpDispatch, s') && CountOk(s)
    ensures CountOk(s')
  {
    assert LastCount(s', s.pump.left);
  }

  lemma PumpCountKeepsCount(s: System, l: Label, s': System)
    requires Step(s, l, s')
    requires l.PumpCheck? || l.PumpLookup?
    ensures CountOk(s')
  {
  }

  lemma PumpDecisionKeepsCount(s: System, l: Label, s': System)
    requires Step(s, l, s') && CountOk(s)
    requires l.PumpDecideNil? || l.PumpDecide?
    ensures CountOk(s')
  {
    if s.pump.left > 0 {
      assert LastCount(s', s.pump.left);
    }
  }

  predicate OfSubmit(l: Label) {
    l.Accept? || l.RegisterOk? || l.RegisterFail? || l.Start? || l.StartFail? || l.Unregister? || l.Abort?
  }

  predicate OfCloseOrKernel(l: Label) {
    l.Finish? || l.Tick? || l.CloseBegin? || l.CloseCancel? || l.ClosePost? || l.CloseJoin? || l.CloseFree?
  }

  lemma SubmitKeepsCount(s: System, l: Label, s': System)
    requires Inv(s) && Step(s, l, s') && CountOk(s) && OfSubmit(l)
    ensures CountOk(s')
  {
    assert s'.lastCheck == s.lastCheck && s.trace <= s'.trace && s'.draining == s.draining;
    OtherStepKeepsCount(s, l, s');
  }

  lemma CloseKeepsCount(s: System, l: Label, s': System)
    requires Step(s, l, s') && CountOk(s) && OfCloseOrKernel(l)
    ensures CountOk(s')
  {
    assert s'.lastCheck == s.lastCheck && s'.trace == s.trace && s'.draining == s.draining && s'.pump == s.pump;
    OtherStepKeepsCount(s, l, s');
  }

  lemma StepKeepsCount(s: System, l: Label, s': System)
    requires Inv(s) && Step(s, l, s') && CountOk(s)
    ensures CountOk(s')
  {
    if l.PumpTop? || l.PumpDequeue? || l.PumpTimeout? || l.PumpGlitch? || l.PumpReadClosed? {
      PumpStepKeepsCount(s, l, s');
    } else if l.PumpDispatch? {
      PumpDispatchKeepsCount(s, s');
    } else if l.PumpCheck? || l.PumpLookup? {
      PumpCountKeepsCount(s, l, s');
    } else if l.PumpDecideNil? || l.PumpDecide? {
      PumpDecisionKeepsCount(s, l, s');
    } else if OfSubmit(l) {
      SubmitKeepsCount(s, l, s');
    } else {
      CloseKeepsCount(s, l, s');
    }
  }

  lemma {:induction false} WindowAndCount(run: seq<System>, i: nat)
    requires IsRun(run) && i < |run|
    ensures WindowOk(run[i]) && CountOk(run[i])
  {
    if i > 0 {
      assert NextAt(run, i - 1);
      var l :| Step(run[i - 1], l, run[i]);
      ReachableInv(run, i - 1);
      WindowAndCount(run, i - 1);
      StepKeepsWindow(run[i - 1], l, run[i]);
      StepKeepsCount(run[i - 1], l, run[i]);
    }
  }

  // ---------------------------------------------------------------- over a run

  /**
   At step i the pump, woken on a closed handle, found something pending and opened its window of two
   seconds; it has drained ever since, and the end of the window has not moved.
   */
  ghost predicate DrainsSince(run: seq<System>, i: int) {
    && 0 <= i < |run| - 1
    && run[i].pump.CheckedNil? && run[i].pump.left > 0 && run[i].handle.closed && !run[i].draining
    && Step(run[i], PumpDecideNil, run[i + 1])
    && forall j :: i < j < |run| ==> run[j].draining && run[j].deadline == run[i].now + 2_000_000_000
  }

  lemma DrainNext(s: System, l: Label, s': System)
    requires Inv(s) && Step(s, l, s')
    ensures s.draining ==> s'.draining && s'.deadline == s.deadline
    ensures !s.draining && s'.draining ==>
      && l == PumpDecideNil && s.pump.CheckedNil? && s.pump.left > 0 && s.handle.closed
      && s'.deadline == s.now + 2_000_000_000
  {
  }

  /** A pump that drains opened its window once. */
  lemma {:induction false} DrainHasBegun(run: seq<System>) returns (i: nat)
    requires IsRun(run) && run[|run| - 1].draining
    ensures DrainsSince(run, i)
    decreases |run|
  {
    var front, l := LastStep(run);
    DrainNext(run[|run| - 2], l, run[|run| - 1]);
    if run[|run| - 2].draining {
      i := DrainHasBegun(front);
      assert forall j :: 0 <= j < |front| ==> front[j] == run[j];
      assert run[|run| - 1].deadline == front[|front| - 1].deadline;
    } else {
      i := |run| - 2;
    }
  }

  /**
   The pump gives up on pending operations only after it has drained for two seconds, less at most the
   millisecond to which it rounds, and with something still pending when it last counted.
   */
  lemma DeadlineExit(run: seq<System>) returns (i: nat)
    requires IsRun(run) && run[|run| - 1].pump == Exited(true)
    ensures DrainsSince(run, i) && SomethingLeft(run[|run| - 1])
    ensures run[i].now + 2_000_000_000 < run[|run| - 1].now + 1_000_000
  {
    WindowAndCount(run, |run| - 1);
    i := DrainHasBegun(run);
  }
}
