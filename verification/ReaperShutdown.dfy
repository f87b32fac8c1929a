/** What closing a Linux handle guarantees: every callback runs exactly once, and Close returns. */
module ReaperShutdown {
  import opened Core
  import opened ReaperProtocol
  import opened ReaperInvariant

  // ---------------------------------------------------------------- exactly once

  /** The callbacks waiting in the map. */
  ghost function Waiting(s: System): set<Callback> {
    if s.reapMap.Some? then s.reapMap.value.Values else {}
  }

  /** The callback the loop has taken out of the map and not yet called. */
  ghost function Held(s: System): set<Callback> {
    if s.loop.Hand? then {s.loop.cb} else {}
  }

  ghost function Fired(s: System): set<Callback> {
    set i | 0 <= i < |s.fired| :: s.fired[i]
  }

  /**
   Conservation: the registered callbacks are exactly those called, those waiting and the one in
   hand, with no overlap, and none was called twice.
   */
  lemma CallbacksConserved(run: seq<System>)
    requires IsRun(run)
    ensures var s := run[|run| - 1];
      && (forall cb: Callback :: cb < |s.registered| <==> cb in Fired(s) || cb in Waiting(s) || cb in Held(s))
      && Fired(s) !! Waiting(s) !! Held(s)
      && Distinct(s.fired)
  {
    ReachableInv(run, |run| - 1);
    var s := run[|run| - 1];
    forall cb: Callback ensures cb in Waiting(s) <==> Waits(s, cb) {
      if cb in Waiting(s) {
        var a :| a in s.reapMap.value && s.reapMap.value[a] == cb;
        assert Known(s, cb);
      }
    }
    forall cb: Callback
      ensures cb < |s.registered| <==> cb in Fired(s) || cb in Waiting(s) || cb in Held(s)
      ensures !(cb in Fired(s) && cb in Waiting(s)) && !(cb in Fired(s) + Waiting(s) && cb in Held(s))
    {
      if cb < |s.registered| { assert Placed(s, cb); }
    }
  }

  /** When the loop is not running, and in particular when Close has returned, every callback has run. */
  lemma AllCalledWhenLoopIsGone(run: seq<System>, cb: Callback)
    requires IsRun(run) && cb < |run[|run| - 1].registered|
    requires run[|run| - 1].loop == NotRunning || run[|run| - 1].closer == Returned
    ensures cb in run[|run| - 1].fired && Distinct(run[|run| - 1].fired)
  {
    ReachableInv(run, |run| - 1);
    assert Placed(run[|run| - 1], cb);
  }

  /** No transfer is left waiting once the loop is gone: all are either notified or were never accepted. */
  lemma NoneSubmittedWhenLoopIsGone(run: seq<System>, t: Tid)
    requires IsRun(run) && t < |run[|run| - 1].transfers|
    requires run[|run| - 1].loop == NotRunning && run[|run| - 1].transfers[t].pc == Idle
    ensures !run[|run| - 1].transfers[t].submitted
  {
    ReachableInv(run, |run| - 1);
    assert TransferOk(run[|run| - 1], t);
  }

  // ---------------------------------------------------------------- a URB reaped before its registration

  /** The URB is neither with the kernel, nor ready, nor the one just reaped: nothing will complete it. */
  ghost predicate Gone(s: System, a: Address) {
    a !in s.kernel && a !in s.ready && s.loop != Reaped(a)
  }

  /** t's callback waits in the map, but its URB is gone: the completion was skipped. */
  ghost predicate Skipped(s: System, t: Tid) {
    t < |s.transfers| && InMap(s, t) && Gone(s, s.transfers[t].urb)
  }

  ghost predicate FiresAll(l: Label) {
    l.LoopStartFail? || l.LoopWaitFail? || l.LoopReapFail? || l.LoopShutdown?
  }

  /** A skipped callback keeps waiting until a step that calls every callback: failure or shutdown. */
  lemma SkippedUntilShutdown(s: System, l: Label, s': System, t: Tid)
    requires Inv(s) && Step(s, l, s') && Skipped(s, t)
    ensures FiresAll(l) || Skipped(s', t)
    ensures FiresAll(l) ==> s.reapMap.value[s.transfers[t].urb] in s'.fired && s'.transfers[t].reaped
  {
    assert TransferOk(s, t);
    var cb := s.reapMap.value[s.transfers[t].urb];
    if FiresAll(l) {
      assert Known(s, cb);
      ListsWaiting(s, l.order, cb);
      assert s'.fired == s.fired + l.order;
    } else {
      SkippedStays(s, l, s', t);
    }
  }

  lemma SkippedStays(s: System, l: Label, s': System, t: Tid)
    requires Inv(s) && Step(s, l, s') && Skipped(s, t) && !FiresAll(l)
    ensures Skipped(s', t)
  {
    if l.Enter? || l.SubmitUrb? || l.SubmitUrbFail? || l.RegisterOk? || l.RegisterFail? {
      SubmitLeavesSkipped(s, l, s', t);
    } else {
      if l.LoopReap? { assert s.ready[0] in s.ready; }
      assert s'.transfers[t].urb == s.transfers[t].urb;
    }
  }

  lemma SubmitLeavesSkipped(s: System, l: Label, s': System, t: Tid)
    requires Inv(s) && Step(s, l, s') && Skipped(s, t)
    requires l.Enter? || l.SubmitUrb? || l.SubmitUrbFail? || l.RegisterOk? || l.RegisterFail?
    ensures Skipped(s', t)
  {
    assert TransferOk(s, t);
    OthersDiffer(s, t);
  }

  lemma RegisterSkips(s: System, s': System, t: Tid)
    requires Inv(s) && Step(s, RegisterOk(t), s')
    ensures t < |s.transfers| && (Skipped(s', t) <==> Gone(s, s.transfers[t].urb))
  {
  }

  lemma OtherRegisterSkipsNot(s: System, s': System, t: Tid, u: Tid)
    requires Inv(s) && Step(s, RegisterOk(u), s') && u != t && t < |s.transfers| && !Skipped(s, t)
    ensures !Skipped(s', t)
  {
    OthersDiffer(s, t);
  }

  lemma SubmitSkipsNot(s: System, l: Label, s': System, t: Tid)
    requires Inv(s) && Step(s, l, s') && t < |s.transfers| && !Skipped(s, t)
    requires l.Enter? || l.SubmitUrb? || l.SubmitUrbFail? || l.RegisterFail?
    ensures !Skipped(s', t)
  {
    assert s'.transfers[t].urb == s.transfers[t].urb;
  }

  lemma ReapSkipsNot(s: System, l: Label, s': System, t: Tid)
    requires Inv(s) && Step(s, l, s') && t < |s.transfers| && !Skipped(s, t)
    requires l.Finish? || l.LoopReap?
    ensures !Skipped(s', t)
  {
    var a := s.transfers[t].urb;
    if l.Finish? {
      assert s'.ready[|s.ready|] == l.urb;
      assert forall x :: x in s.ready ==> x in s'.ready;
    } else {
      assert forall x :: x in s.ready ==> x == s.ready[0] || x in s.ready[1..];
    }
  }

  lemma LoopSkipsNot(s: System, l: Label, s': System, t: Tid)
    requires Inv(s) && Step(s, l, s') && t < |s.transfers| && !Skipped(s, t)
    requires !(l.Enter? || l.SubmitUrb? || l.SubmitUrbFail? || l.RegisterOk? || l.RegisterFail?)
    requires !(l.Finish? || l.LoopReap?)
    ensures !Skipped(s', t)
  {
    assert s'.transfers[t].urb == s.transfers[t].urb;
  }

  /**
   Exactly when a completion is skipped: at the step that registers the callback, if the URB is gone
   by then. No other step makes a waiting callback lose its completion.
   */
  lemma SkippedExactlyAtRegistration(s: System, l: Label, s': System, t: Tid)
    requires Inv(s) && Step(s, l, s') && t < |s.transfers| && !Skipped(s, t)
    ensures Skipped(s', t) <==> l == RegisterOk(t) && Gone(s, s.transfers[t].urb)
  {
    if l.RegisterOk? {
      if l.t == t { RegisterSkips(s, s', t); } else { OtherRegisterSkipsNot(s, s', t, l.t); }
    } else if l.Enter? || l.SubmitUrb? || l.SubmitUrbFail? || l.RegisterFail? {
      SubmitSkipsNot(s, l, s', t);
    } else if l.Finish? || l.LoopReap? {
      ReapSkipsNot(s, l, s', t);
    } else {
      LoopSkipsNot(s, l, s', t);
    }
  }

  /** At step i of the run t's callback was registered with its URB gone, and it has waited in vain ever since. */
  ghost predicate SkippedSince(run: seq<System>, t: Tid, i: int) {
    && 0 <= i < |run| - 1 && t < |run[i].transfers|
    && Step(run[i], RegisterOk(t), run[i + 1]) && Gone(run[i], run[i].transfers[t].urb)
    && forall j :: i < j < |run| ==> SkippedAs(run[j], t, |run[i].registered|)
  }

  ghost predicate SkippedAs(s: System, t: Tid, cb: Callback) {
    Skipped(s, t) && s.reapMap.value[s.transfers[t].urb] == cb
  }

  lemma StepKeepsSkippedAs(s: System, l: Label, s': System, t: Tid, cb: Callback)
    requires Inv(s) && Step(s, l, s') && SkippedAs(s, t, cb) && Skipped(s', t)
    ensures SkippedAs(s', t, cb)
  {
    assert TransferOk(s, t);
    if l.RegisterOk? { OthersDiffer(s, t); }
  }

  /** The last step of a run of more than one state. */
  lemma LastStep(run: seq<System>) returns (l: Label)
    requires IsRun(run) && |run| > 1
    ensures IsRun(run[..|run| - 1]) && Inv(run[|run| - 2]) && Step(run[|run| - 2], l, run[|run| - 1])
    ensures |run[|run| - 1].transfers| == |run[|run| - 2].transfers|
  {
    var front := run[..|run| - 1];
    forall i | 0 <= i < |front| - 1 ensures NextAt(front, i) { assert NextAt(run, i); }
    ReachableInv(run, |run| - 2);
    assert NextAt(run, |run| - 2);
    l :| Step(run[|run| - 2], l, run[|run| - 1]);
  }

  lemma SkippedSinceNext(run: seq<System>, t: Tid, i: int, l: Label)
    requires |run| > 1 && SkippedSince(run[..|run| - 1], t, i)
    requires Inv(run[|run| - 2]) && Step(run[|run| - 2], l, run[|run| - 1]) && Skipped(run[|run| - 1], t)
    ensures SkippedSince(run, t, i)
  {
    var front, cb := run[..|run| - 1], |run[i].registered|;
    assert SkippedAs(front[|front| - 1], t, cb);
    StepKeepsSkippedAs(run[|run| - 2], l, run[|run| - 1], t, cb);
    forall j | i < j < |run| ensures SkippedAs(run[j], t, cb) {
      if j < |front| { assert SkippedAs(front[j], t, cb); }
    }
  }

  lemma InitSkipsNone(s: System, t: Tid)
    requires Init(s)
    ensures !Skipped(s, t)
  {
  }

  lemma {:induction false} SkippedSinceRegistration(run: seq<System>, t: Tid) returns (i: int)
    requires IsRun(run) && Skipped(run[|run| - 1], t)
    ensures SkippedSince(run, t, i)
    decreases |run|
  {
    InitSkipsNone(run[0], t);
    var l := LastStep(run);
    if Skipped(run[|run| - 2], t) {
      i := SkippedSinceRegistration(run[..|run| - 1], t);
      SkippedSinceNext(run, t, i, l);
    } else {
      SkippedExactlyAtRegistration(run[|run| - 2], l, run[|run| - 1], t);
      i := |run| - 2;
    }
  }

  /**
   In every run a callback that waits in the map was either registered with its URB gone, and has
   been skipped since, or still has its URB with the kernel, ready, or just reaped.
   */
  lemma WaitingIsLiveOrSkippedSinceRegistration(run: seq<System>, t: Tid)
    requires IsRun(run) && t < |run[|run| - 1].transfers| && InMap(run[|run| - 1], t)
    ensures Gone(run[|run| - 1], run[|run| - 1].transfers[t].urb) <==> exists i :: SkippedSince(run, t, i)
  {
    var s := run[|run| - 1];
    if Skipped(s, t) {
      var i := SkippedSinceRegistration(run, t);
    }
    forall i | SkippedSince(run, t, i) ensures Skipped(s, t) {
      assert SkippedAs(s, t, |run[i].registered|);
    }
  }

  lemma Extend(run: seq<System>, l: Label) returns (longer: seq<System>)
    requires IsRun(run) && Enabled(run[|run| - 1], l)
    ensures IsRun(longer) && longer[0] == run[0]
    ensures longer[|longer| - 1] == Apply(run[|run| - 1], l)
  {
    var s := run[|run| - 1];
    longer := run + [Apply(s, l)];
    assert Step(s, l, Apply(s, l));
    forall i | 0 <= i < |longer| - 1 ensures NextAt(longer, i) {
      if i < |run| - 1 { assert NextAt(run, i); }
    }
  }

  /** The loop is reaping while transfer 1's URB, not yet registered, has completed. */
  ghost predicate UnregisteredReady(s: System) {
    && |s.transfers| == 2 && s.transfers[0].urb != s.transfers[1].urb
    && s.transfers[1].pc == InKernel && s.reapMap.Some? && s.transfers[1].urb !in s.reapMap.value
    && s.kernel == multiset{s.transfers[0].urb} && s.ready == [s.transfers[1].urb]
    && s.reaping
  }

  lemma CompleteFirst(s: System) returns (run: seq<System>)
    requires Init(s) && |s.transfers| == 2
    ensures IsRun(run) && run[0] == s
    ensures UnregisteredReady(run[|run| - 1]) && run[|run| - 1].loop == Top && !run[|run| - 1].closed
  {
    run := [s];
    run := Extend(run, Enter(0));
    run := Extend(run, SubmitUrb(0));
    run := Extend(run, RegisterOk(0));
    run := Extend(run, LoopStart);
    run := Extend(run, Enter(1));
    run := Extend(run, SubmitUrb(1));
    run := Extend(run, Finish(s.transfers[1].urb));
  }

  /** The kernel can complete a URB before Submit registers it; the callback is then skipped. */
  lemma CompletionCanBeSkipped(s: System) returns (run: seq<System>)
    requires Init(s) && |s.transfers| == 2
    ensures IsRun(run) && run[0] == s && Skipped(run[|run| - 1], 1)
  {
    run := CompleteFirst(s);
    run := Extend(run, LoopReadClosed);
    run := Extend(run, LoopPark);
    run := Extend(run, LoopWake);
    run := Extend(run, LoopReap);
    run := Extend(run, LoopLookup);
    run := Extend(run, RegisterOk(1));
  }

  // ---------------------------------------------------------------- no registration after close

  /** Submit never registers under a key already present, in the nil map, or after Close began. */
  lemma RegistrationIsFresh(run: seq<System>, t: Tid)
    requires IsRun(run) && At(run[|run| - 1], t, InKernel)
    ensures var s := run[|run| - 1];
      && !s.closed && s.reapMap.Some? && s.transfers[t].urb !in s.reapMap.value
      && (s.reaping <==> s.loop != NotRunning)
  {
    ReachableInv(run, |run| - 1);
    assert TransferOk(run[|run| - 1], t);
  }

  /** After Close has set closed nothing is registered and no loop is started. */
  lemma NothingStartsAfterClose(s: System, l: Label, s': System)
    requires Inv(s) && Step(s, l, s') && s.closed
    ensures s'.closed && s'.registered == s.registered
    ensures s.loop == NotRunning ==> s'.loop == NotRunning
  {
  }

  // ---------------------------------------------------------------- no lost wake-up

  /** While the closer waits for the loop, a parked loop has a byte to wake it. */
  lemma NoLostWakeUp(run: seq<System>)
    requires IsRun(run) && run[|run| - 1].closer == Joining && run[|run| - 1].loop == Parked
    ensures run[|run| - 1].pipe > 0 && Enabled(run[|run| - 1], LoopWake)
  {
    ReachableInv(run, |run| - 1);
  }

  /** Past its last read of closed: from here the loop can only drain and shut down. */
  ghost predicate WillNotPark(s: System) {
    s.closed && s.loop != AboutToPark && s.loop != Parked
  }

  /** Once the loop has left its wait after closed was set, it never parks again. */
  lemma NeverParksAgain(s: System, l: Label, s': System)
    requires Inv(s) && Step(s, l, s')
    ensures WillNotPark(s) ==> WillNotPark(s')
    ensures s.closed && l == LoopWake ==> WillNotPark(s')
  {
  }

  // ---------------------------------------------------------------- Close returns

  function LoopRank(pc: LoopPc): nat {
    match pc
    case NotRunning => 0
    case ShuttingDown => 1
    case Top => 2
    case Draining => 3
    case Hand(_) => 4
    case Reaped(_) => 5
    case Parked => 6
    case AboutToPark => 7
    case Starting => 8
  }

  function CloserRank(c: Closer): nat {
    match c
    case Returned => 0
    case Releasing => 1
    case Joining => 2
    case Waking => 3
    case Discarding(_) => 4
    case NotCalled => 5
  }

  /** Everything that can still happen once Close has set closed. */
  function Remaining(s: System): nat {
    4 * |s.kernel| + 3 * |s.ready| + 5 * s.interrupts + LoopRank(s.loop) + CloserRank(s.closer)
  }

  lemma EnvironmentStepDecreases(s: System, l: Label, s': System)
    requires Step(s, l, s')
    requires l.Finish? || l.CloseDiscard? || l.CloseWake? || l.CloseJoin? || l.CloseRelease?
    ensures Remaining(s') < Remaining(s)
  {
    if l.Finish? { assert |s'.kernel| == |s.kernel| - 1; }
  }

  lemma EndOfLoopDecreases(s: System, l: Label, s': System)
    requires Step(s, l, s') && FiresAll(l)
    ensures Remaining(s') < Remaining(s)
  {
    assert s'.kernel == s.kernel && s'.ready == s.ready && s'.loop == NotRunning && s.loop != NotRunning;
  }

  lemma LoopStepDecreases(s: System, l: Label, s': System)
    requires Step(s, l, s') && s.closed && !FiresAll(l)
    requires l.LoopStart? || l.LoopReadClosed? || l.LoopPark? || l.LoopWake? || l.LoopWakeOther? || l.LoopInterrupted?
          || l.LoopReap? || l.LoopReapNothing? || l.LoopReapInterrupted? || l.LoopLookup? || l.LoopFire?
    ensures Remaining(s') < Remaining(s)
  {
    assert s'.kernel == s.kernel;
  }

  /** Every step after closed is set uses up work, so only boundedly many follow. */
  lemma StepAfterCloseDecreases(s: System, l: Label, s': System)
    requires Inv(s) && Step(s, l, s') && s.closed
    ensures Remaining(s') < Remaining(s)
  {
    if l.Finish? || l.CloseDiscard? || l.CloseWake? || l.CloseJoin? || l.CloseRelease? {
      EnvironmentStepDecreases(s, l, s');
    } else if FiresAll(l) {
      EndOfLoopDecreases(s, l, s');
    } else {
      NothingStartsAfterClose(s, l, s');
      LoopStepDecreases(s, l, s');
    }
  }

  ghost predicate IsWalk(path: seq<System>) {
    path != [] && forall i :: 0 <= i < |path| - 1 ==> NextAt(path, i)
  }

  lemma {:induction false} WorkAfterCloseIsBounded(path: seq<System>)
    requires IsWalk(path) && Inv(path[0]) && path[0].closed
    ensures |path| <= Remaining(path[0]) + 1
    decreases |path|
  {
    if |path| > 1 {
      assert NextAt(path, 0);
      var l :| Step(path[0], l, path[1]);
      StepKeepsInv(path[0], l, path[1]);
      StepAfterCloseDecreases(path[0], l, path[1]);
      NothingStartsAfterClose(path[0], l, path[1]);
      forall i | 0 <= i < |path[1..]| - 1 ensures NextAt(path[1..], i) { assert NextAt(path, i + 1); }
      WorkAfterCloseIsBounded(path[1..]);
    }
  }

  lemma {:induction false} Listing(cbs: set<Callback>) returns (order: seq<Callback>)
    ensures Distinct(order) && forall cb :: cb in order <==> cb in cbs
  {
    if cbs == {} {
      order := [];
    } else {
      var cb :| cb in cbs;
      order := Listing(cbs - {cb});
      order := [cb] + order;
    }
  }

  /** A Close that has begun and not returned can always be brought a step further, by itself or the loop. */
  lemma CloseIsNeverStuck(s: System) returns (l: Label)
    requires Inv(s) && s.closed && s.closer != Returned
    ensures Enabled(s, l)
  {
    if s.closer.Discarding? {
      l := CloseDiscard;
    } else if s.closer == Waking {
      l := CloseWake;
    } else if s.closer == Releasing {
      l := CloseRelease;
    } else if s.loop == NotRunning {
      l := CloseJoin;
    } else {
      l := LoopStep(s);
    }
  }

  lemma LoopStep(s: System) returns (l: Label)
    requires Inv(s) && s.closer == Joining && s.loop != NotRunning
    ensures Enabled(s, l)
  {
    if s.loop == ShuttingDown {
      var order := Listing(s.reapMap.value.Values);
      assert Lists(order, s.reapMap.value);
      l := LoopShutdown(order);
    } else if s.loop == Starting { l := LoopStart; }
    else if s.loop == Top { l := LoopReadClosed; }
    else if s.loop == AboutToPark { l := LoopPark; }
    else if s.loop == Parked { l := LoopWake; }
    else if s.loop == Draining { l := if s.ready == [] then LoopReapNothing else LoopReap; }
    else if s.loop.Reaped? { l := LoopLookup; }
    else { l := LoopFire; }
  }

  /** From every reachable state with closed set, Close returns, within the steps Remaining counts. */
  lemma {:induction false} CloseReturns(s: System) returns (path: seq<System>)
    requires Inv(s) && s.closed
    ensures IsWalk(path) && path[0] == s && path[|path| - 1].closer == Returned
    ensures |path| <= Remaining(s) + 1
    decreases Remaining(s)
  {
    if s.closer == Returned {
      path := [s];
    } else {
      var l := CloseIsNeverStuck(s);
      var s' := Apply(s, l);
      assert Step(s, l, s') && Next(s, s');
      StepKeepsInv(s, l, s');
      StepAfterCloseDecreases(s, l, s');
      NothingStartsAfterClose(s, l, s');
      var rest := CloseReturns(s');
      path := [s] + rest;
      forall i | 0 <= i < |path| - 1 ensures NextAt(path, i) {
        if i > 0 { assert NextAt(rest, i - 1); }
      }
    }
  }
}
