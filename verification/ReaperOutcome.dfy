/** When a Linux transfer counts as reaped, and what the reap loop leaves in the wake pipe and the map. */
module ReaperOutcome {
  import opened Core
  import opened ReaperProtocol
  import opened ReaperInvariant
  import opened ReaperShutdown

  // ---------------------------------------------------------------- reaped

  /** In every reachable state a transfer with the kernel, or waiting for its callback, is not reaped. */
  lemma SubmittedIsNotReaped(run: seq<System>, t: Tid)
    requires IsRun(run) && t < |run[|run| - 1].transfers| && run[|run| - 1].transfers[t].submitted
    ensures !run[|run| - 1].transfers[t].reaped
  {
    ReachableInv(run, |run| - 1);
    assert TransferOk(run[|run| - 1], t);
  }

  /** The step calls t's callback: its own reaping, or a failure or shutdown that finds it in the map. */
  ghost predicate Notifies(s: System, l: Label, t: Tid) {
    t < |s.transfers| && ((l == LoopFire && InHand(s, t)) || (FiresAll(l) && InMap(s, t)))
  }

  lemma SubmitNext(s: System, l: Label, s': System, t: Tid)
    requires Step(s, l, s') && t < |s.transfers|
    requires l.Enter? || l.SubmitUrb? || l.SubmitUrbFail? || l.RegisterOk? || l.RegisterFail?
    ensures t < |s'.transfers| && (s'.transfers[t].reaped <==> s.transfers[t].reaped && l != SubmitUrb(t))
  {
  }

  lemma FireNext(s: System, s': System, t: Tid)
    requires Step(s, LoopFire, s') && t < |s.transfers|
    ensures t < |s'.transfers| && (s'.transfers[t].reaped <==> s.transfers[t].reaped || InHand(s, t))
  {
  }

  lemma FireAllNext(s: System, l: Label, s': System, t: Tid)
    requires Step(s, l, s') && FiresAll(l) && t < |s.transfers|
    ensures t < |s'.transfers| && (s'.transfers[t].reaped <==> s.transfers[t].reaped || InMap(s, t))
  {
  }

  lemma OthersLeave(s: System, l: Label, s': System)
    requires Step(s, l, s') && l != LoopFire && !FiresAll(l)
    requires !(l.Enter? || l.SubmitUrb? || l.SubmitUrbFail? || l.RegisterOk? || l.RegisterFail?)
    ensures s'.transfers == s.transfers
  {
  }

  /** One step makes a transfer reaped or takes that back only in these ways. */
  lemma ReapedNext(s: System, l: Label, s': System, t: Tid)
    requires Inv(s) && Step(s, l, s') && t < |s.transfers|
    ensures t < |s'.transfers|
    ensures s'.transfers[t].reaped <==> Notifies(s, l, t) || (s.transfers[t].reaped && l != SubmitUrb(t))
  {
    if l.Enter? || l.SubmitUrb? || l.SubmitUrbFail? || l.RegisterOk? || l.RegisterFail? { SubmitNext(s, l, s', t); }
    else if l == LoopFire { FireNext(s, s', t); }
    else if FiresAll(l) { FireAllNext(s, l, s', t); }
    else { OthersLeave(s, l, s'); }
  }

  /** The step from s to s' calls t's callback. */
  ghost predicate Notified(s: System, s': System, t: Tid) {
    exists l :: Step(s, l, s') && Notifies(s, l, t)
  }

  /** At step i t's callback is called, and its URB has not been handed to the kernel since. */
  ghost predicate NotifiedSince(run: seq<System>, t: Tid, i: int) {
    && 0 <= i < |run| - 1 && Notified(run[i], run[i + 1], t)
    && forall j :: i < j < |run| - 1 ==> !Step(run[j], SubmitUrb(t), run[j + 1])
  }

  lemma NotifiedLater(run: seq<System>, t: Tid, i: int)
    requires |run| > 1 && NotifiedSince(run[..|run| - 1], t, i)
    requires !Step(run[|run| - 2], SubmitUrb(t), run[|run| - 1])
    ensures NotifiedSince(run, t, i)
  {
    var front := run[..|run| - 1];
    assert front[i] == run[i] && front[i + 1] == run[i + 1];
    forall j | i < j < |run| - 1 ensures !Step(run[j], SubmitUrb(t), run[j + 1]) {
      if j < |run| - 2 { assert front[j] == run[j] && front[j + 1] == run[j + 1]; }
    }
  }

  lemma NotifiedEarlier(run: seq<System>, t: Tid, i: int)
    requires |run| > 1 && NotifiedSince(run, t, i) && i < |run| - 2
    ensures NotifiedSince(run[..|run| - 1], t, i) && !Step(run[|run| - 2], SubmitUrb(t), run[|run| - 1])
  {
    var front := run[..|run| - 1];
    assert front[i] == run[i] && front[i + 1] == run[i + 1];
    forall j | i < j < |front| - 1 ensures !Step(front[j], SubmitUrb(t), front[j + 1]) {
      assert front[j] == run[j] && front[j + 1] == run[j + 1];
    }
  }

  lemma NotSubmittedNow(s: System, l: Label, s': System, t: Tid)
    requires Inv(s) && Step(s, l, s') && t < |s.transfers|
    requires t < |s'.transfers| && s'.transfers[t].reaped
    ensures !Step(s, SubmitUrb(t), s')
  {
    if Step(s, SubmitUrb(t), s') { SubmitNext(s, SubmitUrb(t), s', t); }
  }

  lemma NotifiedNow(s: System, s': System, t: Tid)
    requires Inv(s) && Notified(s, s', t)
    ensures t < |s'.transfers| && s'.transfers[t].reaped
  {
    var l :| Step(s, l, s') && Notifies(s, l, t);
    ReapedNext(s, l, s', t);
  }

  /** A transfer is reaped exactly if its callback has been called since its URB last went to the kernel. */
  lemma {:induction false} ReapedIffNotified(run: seq<System>, t: Tid)
    requires IsRun(run) && t < |run[|run| - 1].transfers|
    ensures run[|run| - 1].transfers[t].reaped <==> exists i :: NotifiedSince(run, t, i)
    decreases |run|
  {
    if |run| > 1 {
      var l := LastStep(run);
      var s, s' := run[|run| - 2], run[|run| - 1];
      ReapedIffNotified(run[..|run| - 1], t);
      ReapedNext(s, l, s', t);
      if Notifies(s, l, t) {
        assert Notified(s, s', t) && NotifiedSince(run, t, |run| - 2);
      } else if s'.transfers[t].reaped {
        var i :| NotifiedSince(run[..|run| - 1], t, i);
        NotSubmittedNow(s, l, s', t);
        NotifiedLater(run, t, i);
      }
      forall i | NotifiedSince(run, t, i) ensures s'.transfers[t].reaped {
        if i < |run| - 2 { NotifiedEarlier(run, t, i); } else { NotifiedNow(s, s', t); }
      }
    }
  }

  // ---------------------------------------------------------------- the wake pipe

  /** The pipe holds at most the one byte of Close, and none before Close has written it. */
  ghost predicate PipeOk(s: System) {
    s.pipe <= if s.closer == Joining || s.closer == Releasing || s.closer == Returned then 1 else 0
  }

  lemma StepKeepsPipe(s: System, l: Label, s': System)
    requires Inv(s) && Step(s, l, s') && PipeOk(s)
    ensures PipeOk(s')
  {
  }

  /** In every reachable state the wake pipe holds at most one byte, and none before Close has written it. */
  lemma {:induction false} PipeHoldsOneWake(run: seq<System>, i: nat)
    requires IsRun(run) && i < |run|
    ensures PipeOk(run[i])
  {
    if i > 0 {
      PipeHoldsOneWake(run, i - 1);
      ReachableInv(run, i - 1);
      assert NextAt(run, i - 1);
      var l :| Step(run[i - 1], l, run[i]);
      StepKeepsPipe(run[i - 1], l, run[i]);
    }
  }

  /** A loop that wakes leaves the pipe empty. */
  lemma WakeEmptiesPipe(run: seq<System>)
    requires IsRun(run) && Enabled(run[|run| - 1], LoopWake)
    ensures Apply(run[|run| - 1], LoopWake).pipe == 0
  {
    PipeHoldsOneWake(run, |run| - 1);
  }

  // ---------------------------------------------------------------- the nil map

  /** The step from s to s' shuts the loop down. */
  ghost predicate ShutsDown(s: System, s': System) {
    exists order :: Step(s, LoopShutdown(order), s')
  }

  lemma NilNext(s: System, l: Label, s': System)
    requires Inv(s) && Step(s, l, s')
    ensures s'.reapMap.None? <==> s.reapMap.None? || l.LoopShutdown?
    ensures s'.reapMap.None? && s.reapMap.Some? ==> s.closed && s.loop == ShuttingDown
  {
  }

  lemma ShutsDownNil(s: System, s': System)
    requires ShutsDown(s, s')
    ensures s'.reapMap.None?
  {
  }

  /** The map of callbacks becomes nil when the loop shuts down on a closed handle, and at no other time. */
  lemma {:induction false} NilIffShutDown(run: seq<System>)
    requires IsRun(run)
    ensures run[|run| - 1].reapMap.None? <==>
            exists i :: 0 <= i < |run| - 1 && ShutsDown(run[i], run[i + 1])
    decreases |run|
  {
    if |run| > 1 {
      var l := LastStep(run);
      var front, s, s' := run[..|run| - 1], run[|run| - 2], run[|run| - 1];
      NilIffShutDown(front);
      NilNext(s, l, s');
      if l.LoopShutdown? { assert ShutsDown(run[|run| - 2], run[|run| - 1]); }
      if i :| 0 <= i < |front| - 1 && ShutsDown(front[i], front[i + 1]) { assert ShutsDown(run[i], run[i + 1]); }
      forall i | 0 <= i < |run| - 1 && ShutsDown(run[i], run[i + 1]) ensures s'.reapMap.None? {
        if i < |run| - 2 { assert ShutsDown(front[i], front[i + 1]); } else { ShutsDownNil(s, s'); }
      }
    }
  }

  // ---------------------------------------------------------------- no completion is left behind

  /** The loop is at work on what it woke for. */
  ghost predicate Reaping(s: System) {
    s.loop == Draining || s.loop.Reaped? || s.loop.Hand?
  }

  lemma ReapingNext(s: System, l: Label, s': System)
    requires Inv(s) && Step(s, l, s')
    ensures l == LoopWake || l == LoopWakeOther ==> Reaping(s')
    ensures Reaping(s) ==> Reaping(s') || s'.loop == NotRunning || (s.loop == Draining && s.ready == [])
  {
  }

  lemma NextReaping(run: seq<System>, i: nat)
    requires IsRun(run) && i + 1 < |run| && Reaping(run[i])
    ensures Reaping(run[i + 1]) || run[i + 1].loop == NotRunning || (run[i].loop == Draining && run[i].ready == [])
  {
    ReachableInv(run, i);
    assert NextAt(run, i);
    var l :| Step(run[i], l, run[i + 1]);
    ReapingNext(run[i], l, run[i + 1]);
  }

  /** At work at i, the loop looks at closed again, at j, only after it found nothing ready. */
  lemma {:induction false} RoundEmptiesReady(run: seq<System>, i: nat, j: nat)
    requires IsRun(run) && i <= j < |run| && Reaping(run[i]) && run[j].loop == Top
    requires forall m :: i < m < j ==> run[m].loop != NotRunning
    ensures exists k :: i <= k < j && run[k].loop == Draining && run[k].ready == []
    decreases j - i
  {
    NextReaping(run, i);
    if Reaping(run[i + 1]) { RoundEmptiesReady(run, i + 1, j); }
  }

  /** Over a running loop a URB is registered, never refused. */
  lemma RegistersOverLoop(s: System, l: Label, s': System, t: Tid)
    requires Step(s, l, s') && At(s, t, InKernel) && s.reaping
    ensures |s'.transfers| == |s.transfers| && s'.transfers[t].urb == s.transfers[t].urb
    ensures s'.transfers[t].pc == InKernel || (s'.transfers[t].pc == Idle && InMap(s', t) && l == RegisterOk(t))
  {
  }
}
