/** Where the outcome of a Windows transfer comes from: the completion of its own operation, and no other. */
module IocpOutcome {
  import opened Core
  import opened IocpProtocol
  import opened IocpTrace
  import opened IocpInvariant
  import opened IocpShutdown

  // ---------------------------------------------------------------- the fields of an unfinished transfer

  /** A transfer that is not done shows no outcome, and one that is done is not in flight. */
  ghost predicate FieldsOk(x: Transfer) {
    if x.done then !x.submitted && x.pc == Idle && x.xferred >= 0 else x.xferred == 0 && x.lastErr == None
  }

  /** The steps that write to t. */
  predicate Touches(s: System, l: Label, t: Tid) {
    match l
    case Accept(u) => u == t
    case RegisterOk(u) => u == t
    case RegisterFail(u) => u == t
    case Start(u) => u == t
    case StartFail(u) => u == t
    case Unregister(u) => u == t
    case Abort(u) => u == t
    case PumpDispatch => s.pump.Looked? && s.pump.found == Some(t)
    case _ => false
  }

  lemma OthersLeave(s: System, l: Label, s': System, t: Tid)
    requires Step(s, l, s') && t < |s.transfers| && !Touches(s, l, t)
    ensures t < |s'.transfers| && s'.transfers[t] == s.transfers[t]
  {
  }

  lemma SubmitKeepsFields(s: System, l: Label, s': System, t: Tid)
    requires TransfersOk(s) && Step(s, l, s') && t < |s.transfers| && FieldsOk(s.transfers[t])
    requires Touches(s, l, t) && l != PumpDispatch
    ensures t < |s'.transfers| && FieldsOk(s'.transfers[t]) && (s'.transfers[t].done ==> s.transfers[t].done)
    ensures l == Accept(t) ==> !s'.transfers[t].done
    ensures l != Accept(t) ==> s'.transfers[t].done == s.transfers[t].done
  {
    assert TransferOk(s, t);
  }

  lemma SubmitKeepsOutcome(s: System, l: Label, s': System, t: Tid)
    requires Step(s, l, s') && t < |s.transfers| && Touches(s, l, t) && l != PumpDispatch
    requires s'.transfers[t].done
    ensures s.transfers[t].done && s'.transfers[t].xferred == s.transfers[t].xferred
    ensures s'.transfers[t].lastErr == s.transfers[t].lastErr
  {
  }

  lemma DispatchKeepsFields(s: System, s': System, t: Tid)
    requires TransfersOk(s) && Step(s, PumpDispatch, s') && t < |s.transfers| && Touches(s, PumpDispatch, t)
    ensures t < |s'.transfers| && FieldsOk(s'.transfers[t]) && s'.transfers[t].done
    ensures s'.transfers[t].xferred == s.pump.qty && s'.transfers[t].lastErr == s.pump.err
  {
    assert TransferOk(s, t);
  }

  lemma StepKeepsFields(s: System, l: Label, s': System, t: Tid)
    requires Inv(s) && Step(s, l, s') && t < |s.transfers| && FieldsOk(s.transfers[t])
    ensures t < |s'.transfers| && FieldsOk(s'.transfers[t])
  {
    if !Touches(s, l, t) { OthersLeave(s, l, s', t); }
    else if l == PumpDispatch { DispatchKeepsFields(s, s', t); }
    else { SubmitKeepsFields(s, l, s', t); }
  }

  lemma SameCount(s: System, l: Label, s': System)
    requires Step(s, l, s')
    ensures |s'.transfers| == |s.transfers|
  {
  }

  /** In every reachable state a transfer that is not done has no bytes and no error to show. */
  lemma {:induction false} NoOutcomeBeforeDone(run: seq<System>, t: Tid, i: nat)
    requires IsRun(run) && i < |run| && t < |run[i].transfers|
    ensures FieldsOk(run[i].transfers[t])
    ensures !run[i].transfers[t].done ==> run[i].transfers[t].xferred == 0 && run[i].transfers[t].lastErr == None
  {
    if i > 0 {
      assert NextAt(run, i - 1);
      var l :| Step(run[i - 1], l, run[i]);
      ReachableInv(run, i - 1);
      NoOutcomeBeforeDone(run, t, i - 1);
      SameCount(run[i - 1], l, run[i]);
      StepKeepsFields(run[i - 1], l, run[i], t);
    }
  }

  // ---------------------------------------------------------------- one completion on its way

  /** t's OVERLAPPED is at a. */
  ghost predicate Owns(s: System, t: Tid, a: Address) {
    t < |s.transfers| && s.transfers[t].overlapped == a
  }

  /** The kernel is working on t's operation at a. */
  ghost predicate AtKernel(s: System, t: Tid, a: Address) {
    Owns(s, t, a) && a in s.outstanding
  }

  /** The pump has looked up the completion (qty, err) and found t. */
  ghost predicate HoldsFor(s: System, t: Tid, qty: nat, err: Option<int>) {
    s.pump.Looked? && s.pump.found == Some(t) && s.pump.qty == qty && s.pump.err == err
  }

  /** The completion (qty, err) of t's operation at a is queued, fetched, in the pump's hand, or stored in t. */
  ghost predicate Carries(s: System, t: Tid, a: Address, qty: nat, err: Option<int>) {
    && Owns(s, t, a)
    && var x := s.transfers[t];
    || Done(a, qty, err) in s.port
    || s.pump == Got(a, qty, err)
    || HoldsFor(s, t, qty, err)
    || (x.done && x.xferred == qty && x.lastErr == err)
  }

  lemma AddressIsFixed(s: System, l: Label, s': System, t: Tid, a: Address)
    requires Step(s, l, s')
    ensures Owns(s, t, a) <==> Owns(s', t, a)
  {
    SameCount(s, l, s');
    if t < |s.transfers| && !Touches(s, l, t) { OthersLeave(s, l, s', t); }
  }

  /** An operation whose completion is on its way or stored is not with the kernel, and one not idle is not started. */
  lemma CarriedIsApart(s: System, t: Tid, a: Address, qty: nat, err: Option<int>)
    requires Inv(s) && Carries(s, t, a, qty, err) && FieldsOk(s.transfers[t])
    ensures a !in s.outstanding && !Enabled(s, Start(t))
  {
    assert TransferOk(s, t);
    if Done(a, qty, err) in s.port { assert Queued(s.port, a); }
    assert !s.transfers[t].done ==> Queued(s.port, a) || (s.pump.Got? && s.pump.overlapped == a) || InHand(s, t);
  }

  lemma QueueComesFromFinish(s: System, l: Label, s': System, a: Address, qty: nat, err: Option<int>)
    requires Inv(s) && Step(s, l, s') && Done(a, qty, err) in s'.port
    ensures Done(a, qty, err) in s.port || (l == Finish(a, qty, err) && a in s.outstanding)
  {
    if l.PumpDequeue? { assert s.port == [s.port[0]] + s'.port; }
  }

  lemma GotComesFromQueue(s: System, l: Label, s': System, a: Address, qty: nat, err: Option<int>)
    requires Step(s, l, s') && s'.pump == Got(a, qty, err)
    ensures Done(a, qty, err) in s.port || s.pump == Got(a, qty, err)
  {
  }

  lemma LookedComesFromGot(s: System, l: Label, s': System, t: Tid, qty: nat, err: Option<int>)
    requires Inv(s) && Step(s, l, s') && HoldsFor(s', t, qty, err)
    ensures HoldsFor(s, t, qty, err) || (t < |s.transfers| && s.pump == Got(s.transfers[t].overlapped, qty, err))
  {
    if l.PumpLookup? { var u := LookupHits(s); }
  }

  lemma StoredComesFromLooked(s: System, l: Label, s': System, t: Tid)
    requires Inv(s) && Step(s, l, s') && t < |s'.transfers| && s'.transfers[t].done
    ensures t < |s.transfers|
    ensures var x, x' := s.transfers[t], s'.transfers[t];
      || (x.done && x.xferred == x'.xferred && x.lastErr == x'.lastErr)
      || (x'.xferred >= 0 && HoldsFor(s, t, x'.xferred, x'.lastErr))
  {
    SameCount(s, l, s');
    if !Touches(s, l, t) { OthersLeave(s, l, s', t); }
    else if l == PumpDispatch { DispatchKeepsFields(s, s', t); }
    else { SubmitKeepsOutcome(s, l, s', t); }
  }

  /** A completion comes on its way only by the kernel finishing the transfer's own operation. */
  lemma CarriesComesFromFinish(s: System, l: Label, s': System, t: Tid, a: Address, qty: nat, err: Option<int>)
    requires Inv(s) && Step(s, l, s') && Carries(s', t, a, qty, err)
    ensures Carries(s, t, a, qty, err) || (l == Finish(a, qty, err) && AtKernel(s, t, a))
  {
    AddressIsFixed(s, l, s', t, a);
    if Done(a, qty, err) in s'.port { QueueComesFromFinish(s, l, s', a, qty, err); }
    else if s'.pump == Got(a, qty, err) { GotComesFromQueue(s, l, s', a, qty, err); }
    else if HoldsFor(s', t, qty, err) { LookedComesFromGot(s, l, s', t, qty, err); }
    else if s'.transfers[t].done { StoredComesFromLooked(s, l, s', t); }
  }

  // ---------------------------------------------------------------- over a run

  /** At step k of the run Submit hands t's operation to the kernel. */
  ghost predicate StartsAt(run: seq<System>, t: Tid, k: int) {
    0 <= k < |run| - 1 && Step(run[k], Start(t), run[k + 1])
  }

  /** At step i of the run the kernel finishes the operation at a. */
  ghost predicate FinishesAt(run: seq<System>, a: Address, qty: nat, err: Option<int>, i: int) {
    0 <= i < |run| - 1 && Step(run[i], Finish(a, qty, err), run[i + 1])
  }

  lemma OnlyStartStarts(s: System, l: Label, s': System, t: Tid, a: Address)
    requires Inv(s) && Step(s, l, s') && AtKernel(s', t, a) && !AtKernel(s, t, a)
    ensures l == Start(t)
  {
    AddressIsFixed(s, l, s', t, a);
    if l.Start? { OthersDiffer(s, t); }
  }

  /** The kernel has had t's operation since its start at k. */
  lemma {:induction false} StartedAt(run: seq<System>, t: Tid, a: Address) returns (k: nat)
    requires IsRun(run) && AtKernel(run[|run| - 1], t, a)
    ensures StartsAt(run, t, k)
    ensures forall j :: k < j < |run| ==> AtKernel(run[j], t, a)
    decreases |run|
  {
    var front, l := LastStep(run);
    if AtKernel(run[|run| - 2], t, a) {
      k := StartedAt(front, t, a);
      assert run[k] == front[k] && run[k + 1] == front[k + 1];
      assert forall j :: k < j < |run| ==> j == |run| - 1 || AtKernel(front[j], t, a);
    } else {
      OnlyStartStarts(run[|run| - 2], l, run[|run| - 1], t, a);
      k := |run| - 2;
    }
  }

  /** t's operation was with the kernel from its start at k until it was finished at i, and carried ever since. */
  ghost predicate CarriedFrom(run: seq<System>, t: Tid, a: Address, qty: nat, err: Option<int>, k: int, i: int) {
    && k < i && StartsAt(run, t, k) && FinishesAt(run, a, qty, err, i)
    && (forall j :: k < j <= i && j < |run| ==> AtKernel(run[j], t, a))
    && (forall j :: i < j < |run| ==> Carries(run[j], t, a, qty, err))
  }

  lemma CarriedNext(run: seq<System>, t: Tid, a: Address, qty: nat, err: Option<int>, k: nat, i: nat)
    requires |run| > 1 && CarriedFrom(run[..|run| - 1], t, a, qty, err, k, i)
    requires Carries(run[|run| - 1], t, a, qty, err)
    ensures CarriedFrom(run, t, a, qty, err, k, i)
  {
    var front := run[..|run| - 1];
    assert forall j :: 0 <= j < |front| ==> front[j] == run[j];
    assert FinishesAt(front, a, qty, err, i) && StartsAt(front, t, k);
    forall j | i < j < |run| ensures Carries(run[j], t, a, qty, err) {
      if j < |front| { assert Carries(front[j], t, a, qty, err); }
    }
    forall j | k < j <= i ensures AtKernel(run[j], t, a) { assert AtKernel(front[j], t, a); }
  }

  lemma FinishedNow(run: seq<System>, t: Tid, a: Address, qty: nat, err: Option<int>) returns (k: nat)
    requires IsRun(run) && |run| > 1 && AtKernel(run[|run| - 2], t, a)
    requires FinishesAt(run, a, qty, err, |run| - 2) && Carries(run[|run| - 1], t, a, qty, err)
    ensures CarriedFrom(run, t, a, qty, err, k, |run| - 2)
  {
    var front, l := LastStep(run);
    k := StartedAt(front, t, a);
    assert front[k] == run[k] && front[k + 1] == run[k + 1];
    forall j | k < j <= |run| - 2 ensures AtKernel(run[j], t, a) { assert AtKernel(front[j], t, a); }
  }

  lemma {:induction false} CarriedSince(run: seq<System>, t: Tid, a: Address, qty: nat, err: Option<int>)
    returns (k: nat, i: nat)
    requires IsRun(run) && Carries(run[|run| - 1], t, a, qty, err)
    ensures CarriedFrom(run, t, a, qty, err, k, i)
    decreases |run|
  {
    var front, l := LastStep(run);
    CarriesComesFromFinish(run[|run| - 2], l, run[|run| - 1], t, a, qty, err);
    if Carries(run[|run| - 2], t, a, qty, err) {
      k, i := CarriedSince(front, t, a, qty, err);
      CarriedNext(run, t, a, qty, err, k, i);
    } else {
      i := |run| - 2;
      k := FinishedNow(run, t, a, qty, err);
    }
  }

  /** Past its start at k the operation is not started again, and it is finished at i alone. */
  lemma SinceStartIsApart(run: seq<System>, t: Tid, a: Address, qty: nat, err: Option<int>, k: nat, i: nat, m: nat)
    requires IsRun(run) && CarriedFrom(run, t, a, qty, err, k, i) && k < m < |run| - 1
    ensures !Enabled(run[m], Start(t))
    ensures m != i ==> forall q, e :: !FinishesAt(run, a, q, e, m)
  {
    ReachableInv(run, m);
    if m > i {
      assert Carries(run[m], t, a, qty, err);
      NoOutcomeBeforeDone(run, t, m);
      CarriedIsApart(run[m], t, a, qty, err);
    } else {
      assert AtKernel(run[m], t, a) && TransferOk(run[m], t);
      if m < i { assert AtKernel(run[m + 1], t, a); }
    }
  }

  /**
   A transfer that is done carries the byte count and the error of one completion of its own
   OVERLAPPED: the one the kernel made, at step i, of the operation last started, at step k. The
   kernel completed that operation once, and the transfer has not been started again.
   */
  lemma OutcomeIsOwnCompletion(run: seq<System>, t: Tid) returns (k: nat, i: nat)
    requires IsRun(run) && t < |run[|run| - 1].transfers| && run[|run| - 1].transfers[t].done
    ensures var x := run[|run| - 1].transfers[t];
      && x.pc == Idle && !x.submitted && x.xferred >= 0
      && k < i && StartsAt(run, t, k) && FinishesAt(run, x.overlapped, x.xferred, x.lastErr, i)
      && (forall m :: StartsAt(run, t, m) ==> m <= k)
      && (forall m, q, e :: k < m && FinishesAt(run, x.overlapped, q, e, m) ==> m == i)
  {
    NoOutcomeBeforeDone(run, t, |run| - 1);
    var x := run[|run| - 1].transfers[t];
    k, i := CarriedSince(run, t, x.overlapped, x.xferred, x.lastErr);
    forall m | StartsAt(run, t, m) ensures m <= k {
      if m > k { SinceStartIsApart(run, t, x.overlapped, x.xferred, x.lastErr, k, i, m); }
    }
    forall m, q, e | k < m && FinishesAt(run, x.overlapped, q, e, m) ensures m == i {
      SinceStartIsApart(run, t, x.overlapped, x.xferred, x.lastErr, k, i, m);
    }
  }

  // ---------------------------------------------------------------- when a transfer is done

  /** At step i the pump notifies t, and Submit has not accepted it since. */
  ghost predicate NotifiedSince(run: seq<System>, t: Tid, i: int) {
    && 0 <= i < |run| - 1 && InHand(run[i], t) && Step(run[i], PumpDispatch, run[i + 1])
    && forall j :: i < j < |run| - 1 ==> !Step(run[j], Accept(t), run[j + 1])
  }

  /** One step makes a transfer done or takes that back only in these ways. */
  lemma DoneNext(s: System, l: Label, s': System, t: Tid)
    requires Inv(s) && Step(s, l, s') && t < |s.transfers| && FieldsOk(s.transfers[t])
    ensures t < |s'.transfers|
    ensures s'.transfers[t].done <==> (l == PumpDispatch && InHand(s, t)) || (s.transfers[t].done && l != Accept(t))
  {
    if !Touches(s, l, t) { OthersLeave(s, l, s', t); }
    else if l == PumpDispatch { DispatchKeepsFields(s, s', t); }
    else { SubmitKeepsFields(s, l, s', t); }
  }

  lemma NotifiedLater(run: seq<System>, front: seq<System>, t: Tid, i: int)
    requires |run| > 1 && front == run[..|run| - 1] && NotifiedSince(front, t, i)
    requires !Step(run[|run| - 2], Accept(t), run[|run| - 1])
    ensures NotifiedSince(run, t, i)
  {
    forall j | i < j < |run| - 1 ensures !Step(run[j], Accept(t), run[j + 1]) {
      if j < |run| - 2 { assert front[j] == run[j] && front[j + 1] == run[j + 1]; }
    }
  }

  lemma NotifiedEarlier(run: seq<System>, front: seq<System>, t: Tid, i: int)
    requires |run| > 1 && front == run[..|run| - 1] && NotifiedSince(run, t, i) && i < |run| - 2
    ensures NotifiedSince(front, t, i) && !Step(run[|run| - 2], Accept(t), run[|run| - 1])
  {
    assert front[i] == run[i] && front[i + 1] == run[i + 1];
    forall j | i < j < |front| - 1 ensures !Step(front[j], Accept(t), front[j + 1]) {
      assert front[j] == run[j] && front[j + 1] == run[j + 1];
    }
  }

  /** A transfer is done exactly if the pump has notified it since Submit last accepted it. */
  lemma {:induction false} DoneIffNotified(run: seq<System>, t: Tid)
    requires IsRun(run) && t < |run[|run| - 1].transfers|
    ensures run[|run| - 1].transfers[t].done <==> exists i :: NotifiedSince(run, t, i)
    decreases |run|
  {
    if |run| > 1 {
      var front, l := LastStep(run);
      var s, s' := run[|run| - 2], run[|run| - 1];
      AddressIsFixed(s, l, s', t, s'.transfers[t].overlapped);
      NoOutcomeBeforeDone(run, t, |run| - 2);
      DoneIffNotified(front, t);
      DoneNext(s, l, s', t);
      if s'.transfers[t].done && !(l == PumpDispatch && InHand(s, t)) {
        var i :| NotifiedSince(front, t, i);
        assert !Step(s, Accept(t), s') by { if Step(s, Accept(t), s') { DoneNext(s, Accept(t), s', t); } }
        NotifiedLater(run, front, t, i);
      } else if s'.transfers[t].done {
        assert NotifiedSince(run, t, |run| - 2);
      }
      forall i | NotifiedSince(run, t, i) ensures s'.transfers[t].done {
        if i < |run| - 2 { NotifiedEarlier(run, front, t, i); } else { DoneNext(s, PumpDispatch, s', t); }
      }
    }
  }
}
