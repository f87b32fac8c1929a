/** What every reachable state of the Linux completion protocol satisfies. */
module ReaperInvariant {
  import opened Core
  import opened ReaperProtocol

  ghost predicate UrbsDistinct(s: System) {
    forall t, u :: 0 <= t < u < |s.transfers| ==> s.transfers[t].urb != s.transfers[u].urb
  }

  /** The callback cb belongs to an existing transfer. */
  ghost predicate Known(s: System, cb: Callback) {
    cb < |s.registered| && s.registered[cb] < |s.transfers|
  }

  /** A map entry's key is the URB of the transfer whose callback it holds. */
  ghost predicate MapOk(s: System) {
    && (forall cb :: 0 <= cb < |s.registered| ==> s.registered[cb] < |s.transfers|)
    && (s.reapMap.Some? ==>
          forall a :: a in s.reapMap.value ==>
            && Known(s, s.reapMap.value[a])
            && s.transfers[s.registered[s.reapMap.value[a]]].urb == a)
    && (s.loop.Hand? ==> Known(s, s.loop.cb))
  }

  ghost predicate InMap(s: System, t: Tid)
    requires t < |s.transfers|
  {
    s.reapMap.Some? && s.transfers[t].urb in s.reapMap.value
  }

  ghost predicate InHand(s: System, t: Tid) {
    s.loop.Hand? && Known(s, s.loop.cb) && s.registered[s.loop.cb] == t
  }

  ghost predicate TransferOk(s: System, t: Tid)
    requires t < |s.transfers|
  {
    var x := s.transfers[t];
    !(x.submitted && x.reaped) && match x.pc
    case Entered => !x.submitted && !InMap(s, t) && !InHand(s, t)
    case InKernel => x.submitted && !InMap(s, t) && !InHand(s, t)
    case Idle => x.submitted == (InMap(s, t) || InHand(s, t)) && !(InMap(s, t) && InHand(s, t))
  }

  ghost predicate TransfersOk(s: System) {
    forall t :: 0 <= t < |s.transfers| ==> TransferOk(s, t)
  }

  /** The callback cb is still in the reap map. */
  ghost predicate Waits(s: System, cb: Callback) {
    && Known(s, cb) && s.reapMap.Some?
    && var a := s.transfers[s.registered[cb]].urb;
       a in s.reapMap.value && s.reapMap.value[a] == cb
  }

  /** Each registered callback is in exactly one place: called, in the map, or in the loop's hand. */
  ghost predicate Placed(s: System, cb: Callback) {
    if cb in s.fired then !Waits(s, cb) && s.loop != Hand(cb)
    else if s.loop == Hand(cb) then !Waits(s, cb)
    else Waits(s, cb)
  }

  ghost predicate Distinct(cbs: seq<Callback>) {
    forall i, j :: 0 <= i < j < |cbs| ==> cbs[i] != cbs[j]
  }

  ghost predicate CallbacksOk(s: System) {
    && Distinct(s.fired)
    && (forall i :: 0 <= i < |s.fired| ==> s.fired[i] < |s.registered|)
    && (forall cb :: 0 <= cb < |s.registered| ==> Placed(s, cb))
  }

  ghost predicate LoopOk(s: System) {
    && (s.reaping <==> s.loop != NotRunning)
    && (s.reapDone == Open <==> s.loop != NotRunning)
    && (!s.reaping && s.reapMap.Some? ==> s.reapMap.value == map[])
    && (s.reapDone == NoLoop ==> s.registered == [])
    && (s.reapMap.None? ==> s.closed && s.loop == NotRunning)
    && (s.loop == ShuttingDown ==> s.closed)
  }

  ghost predicate CloserOk(s: System) {
    && (s.closed <==> s.closer != NotCalled)
    && (s.closed ==> NoReaders(s))
    && (s.closer.Discarding? ==> (s.closer.join <==> s.reapDone != NoLoop))
    && (s.closer == Releasing || s.closer == Returned ==> s.loop == NotRunning)
    && (s.closer == Waking ==> s.reapDone != NoLoop)
    && (s.closer == Joining ==> s.reapDone != NoLoop && WakeHeld(s))
  }

  /** A loop that is parked, or about to be, finds a byte in the wake pipe. */
  ghost predicate WakeHeld(s: System) {
    s.loop == AboutToPark || s.loop == Parked ==> s.pipe > 0
  }

  ghost predicate Inv(s: System) {
    && UrbsDistinct(s) && MapOk(s) && TransfersOk(s) && CallbacksOk(s)
    && LoopOk(s) && CloserOk(s)
  }

  lemma InitInv(s: System)
    requires Init(s)
    ensures Inv(s)
  {
  }

  lemma OthersDiffer(s: System, t: Tid)
    requires UrbsDistinct(s) && t < |s.transfers|
    ensures forall u :: 0 <= u < |s.transfers| && u != t ==> s.transfers[u].urb != s.transfers[t].urb
  {
    forall u | 0 <= u < |s.transfers| && u != t ensures s.transfers[u].urb != s.transfers[t].urb {
      if u < t { assert s.transfers[u].urb != s.transfers[t].urb; }
    }
  }

  // ---------------------------------------------------------------- Submit

  lemma QuietSubmitKeepsInv(s: System, l: Label, s': System)
    requires Inv(s) && Step(s, l, s')
    requires l.Enter? || l.SubmitUrb? || l.SubmitUrbFail? || l.RegisterFail?
    ensures Inv(s')
  {
    assert TransferOk(s, l.t);
    forall u | 0 <= u < |s'.transfers| ensures TransferOk(s', u) {
      assert TransferOk(s, u);
    }
    forall cb | 0 <= cb < |s'.registered| ensures Placed(s', cb) {
      assert Placed(s, cb);
    }
  }

  lemma RegisterKeepsTransfers(s: System, t: Tid, s': System)
    requires Inv(s) && Step(s, RegisterOk(t), s')
    ensures UrbsDistinct(s') && MapOk(s') && TransfersOk(s')
  {
    assert TransferOk(s, t);
    OthersDiffer(s, t);
    forall u | 0 <= u < |s'.transfers| ensures TransferOk(s', u) {
      assert TransferOk(s, u);
    }
  }

  lemma RegisterKeepsCallbacks(s: System, t: Tid, s': System)
    requires Inv(s) && Step(s, RegisterOk(t), s')
    ensures CallbacksOk(s')
  {
    assert TransferOk(s, t);
    assert !InMap(s, t);
    forall cb | 0 <= cb < |s'.registered| ensures Placed(s', cb) {
      if cb < |s.registered| {
        assert Placed(s, cb);
        assert s'.registered[cb] == s.registered[cb];
        OthersDiffer(s, t);
      }
    }
  }

  lemma RegisterKeepsInv(s: System, t: Tid, s': System)
    requires Inv(s) && Step(s, RegisterOk(t), s')
    ensures Inv(s')
  {
    RegisterKeepsTransfers(s, t, s');
    RegisterKeepsCallbacks(s, t, s');
  }

  // ---------------------------------------------------------------- quiet steps

  /** Steps that leave the map, the callbacks and the transfers alone. */
  lemma CallbacksFrame(s: System, s': System)
    requires UrbsDistinct(s) && MapOk(s) && TransfersOk(s) && CallbacksOk(s)
    requires s'.transfers == s.transfers && s'.reapMap == s.reapMap && !s.loop.Hand? && !s'.loop.Hand?
    requires s'.registered == s.registered && s'.fired == s.fired
    ensures UrbsDistinct(s') && MapOk(s') && TransfersOk(s') && CallbacksOk(s')
  {
    forall u | 0 <= u < |s'.transfers| ensures TransferOk(s', u) {
      assert TransferOk(s, u);
    }
    forall cb | 0 <= cb < |s'.registered| ensures Placed(s', cb) {
      assert Placed(s, cb);
    }
  }

  lemma QuietLoopKeepsInv(s: System, l: Label, s': System)
    requires Inv(s) && Step(s, l, s')
    requires l.LoopStart? || l.LoopReadClosed? || l.LoopPark? || l.LoopWake? || l.LoopWakeOther?
          || l.LoopInterrupted? || l.LoopReap? || l.LoopReapNothing? || l.LoopReapInterrupted?
    ensures Inv(s')
  {
    CallbacksFrame(s, s');
  }

  lemma QuietKeepsInv(s: System, l: Label, s': System)
    requires Inv(s) && Step(s, l, s')
    requires l.Finish? || l.CloseBegin? || l.CloseDiscard? || l.CloseWake? || l.CloseJoin? || l.CloseRelease?
    ensures Inv(s')
  {
    assert s'.transfers == s.transfers && s'.loop == s.loop;
    forall u | 0 <= u < |s'.transfers| ensures TransferOk(s', u) {
      assert TransferOk(s, u);
    }
    forall cb | 0 <= cb < |s'.registered| ensures Placed(s', cb) {
      assert Placed(s, cb);
    }
  }

  // ---------------------------------------------------------------- the loop's own callbacks

  lemma LookupKeepsTransfers(s: System, s': System)
    requires Inv(s) && Step(s, LoopLookup, s')
    ensures MapOk(s') && TransfersOk(s')
  {
    forall u | 0 <= u < |s'.transfers| ensures TransferOk(s', u) {
      assert TransferOk(s, u);
      if InHand(s', u) { OthersDiffer(s, u); }
      assert InMap(s, u) <==> InMap(s', u) || InHand(s', u);
    }
  }

  lemma LookupKeepsInv(s: System, s': System)
    requires Inv(s) && Step(s, LoopLookup, s')
    ensures Inv(s')
  {
    LookupKeepsTransfers(s, s');
    forall cb | 0 <= cb < |s'.registered| ensures Placed(s', cb) {
      assert Placed(s, cb);
    }
  }

  lemma FireKeepsTransfers(s: System, s': System)
    requires Inv(s) && Step(s, LoopFire, s')
    ensures MapOk(s') && TransfersOk(s')
  {
    assert TransferOk(s, s.registered[s.loop.cb]);
    forall u | 0 <= u < |s'.transfers| ensures TransferOk(s', u) {
      assert TransferOk(s, u);
    }
  }

  lemma FireKeepsInv(s: System, s': System)
    requires Inv(s) && Step(s, LoopFire, s')
    ensures Inv(s')
  {
    FireKeepsTransfers(s, s');
    assert Placed(s, s.loop.cb);
    assert s'.fired[|s.fired|] == s.loop.cb;
    forall cb | 0 <= cb < |s'.registered| ensures Placed(s', cb) {
      assert Placed(s, cb);
      assert cb in s'.fired <==> cb in s.fired || cb == s.loop.cb;
    }
  }

  // ---------------------------------------------------------------- firing everything

  /** The callbacks listed are those waiting in the map. */
  lemma ListsWaiting(s: System, order: seq<Callback>, cb: Callback)
    requires Inv(s) && s.reapMap.Some? && Lists(order, s.reapMap.value)
    ensures cb in order <==> Waits(s, cb)
  {
    if cb in order {
      var a :| a in s.reapMap.value && s.reapMap.value[a] == cb;
      assert Known(s, cb);
    }
  }

  /** Calling every callback leaves none waiting, whether the map is emptied or dropped. */
  lemma FireAllKeepsCallbacks(s: System, order: seq<Callback>, left: Option<map<Address, Callback>>)
    requires Inv(s) && s.reapMap.Some? && Lists(order, s.reapMap.value) && !s.loop.Hand?
    requires left == None || left == Some(map[])
    ensures CallbacksOk(FireAll(s, order, left))
  {
    var s' := FireAll(s, order, left);
    forall cb | 0 <= cb < |s'.registered| ensures Placed(s', cb) {
      assert Placed(s, cb);
      ListsWaiting(s, order, cb);
      assert cb in s'.fired <==> cb in s.fired || cb in order;
    }
    forall i, j | 0 <= i < j < |s'.fired| ensures s'.fired[i] != s'.fired[j] {
      if i < |s.fired| <= j {
        assert s'.fired[j] == order[j - |s.fired|] && order[j - |s.fired|] in order;
        ListsWaiting(s, order, s'.fired[j]);
        assert Placed(s, s'.fired[j]);
        assert s'.fired[i] == s.fired[i];
      }
    }
    forall i | 0 <= i < |s'.fired| ensures s'.fired[i] < |s'.registered| {
      if i >= |s.fired| {
        assert order[i - |s.fired|] in order;
        ListsWaiting(s, order, order[i - |s.fired|]);
      }
    }
  }

  lemma FireAllKeepsTransfers(s: System, order: seq<Callback>, left: Option<map<Address, Callback>>)
    requires Inv(s) && s.reapMap.Some? && !s.loop.Hand?
    requires left == None || left == Some(map[])
    ensures var s' := FireAll(s, order, left);
      UrbsDistinct(s') && MapOk(s') && TransfersOk(s') && (NoReaders(s) ==> NoReaders(s'))
  {
    var s' := FireAll(s, order, left);
    forall u | 0 <= u < |s'.transfers| ensures TransferOk(s', u) {
      assert TransferOk(s, u);
    }
  }

  lemma FireAllKeepsInv(s: System, l: Label, s': System)
    requires Inv(s) && Step(s, l, s')
    requires l.LoopStartFail? || l.LoopWaitFail? || l.LoopReapFail? || l.LoopShutdown?
    ensures Inv(s')
  {
    var left := if l.LoopShutdown? then None else Some(map[]);
    FireAllKeepsCallbacks(s, l.order, left);
    FireAllKeepsTransfers(s, l.order, left);
  }

  // ---------------------------------------------------------------- all steps, all runs

  lemma StepKeepsInv(s: System, l: Label, s': System)
    requires Inv(s) && Step(s, l, s')
    ensures Inv(s')
  {
    if l.Enter? || l.SubmitUrb? || l.SubmitUrbFail? || l.RegisterFail? { QuietSubmitKeepsInv(s, l, s'); }
    else if l.RegisterOk? { RegisterKeepsInv(s, l.t, s'); }
    else if l.LoopLookup? { LookupKeepsInv(s, s'); }
    else if l.LoopFire? { FireKeepsInv(s, s'); }
    else if l.LoopStartFail? || l.LoopWaitFail? || l.LoopReapFail? || l.LoopShutdown? { FireAllKeepsInv(s, l, s'); }
    else if l.Finish? || l.CloseBegin? || l.CloseDiscard? || l.CloseWake? || l.CloseJoin? || l.CloseRelease? {
      QuietKeepsInv(s, l, s');
    } else { QuietLoopKeepsInv(s, l, s'); }
  }

  lemma NextKeepsInv(s: System, s': System)
    requires Inv(s) && Next(s, s')
    ensures Inv(s')
  {
    var l :| Step(s, l, s');
    StepKeepsInv(s, l, s');
  }

  lemma {:induction false} ReachableInv(run: seq<System>, i: nat)
    requires IsRun(run) && i < |run|
    ensures Inv(run[i])
  {
    if i == 0 {
      InitInv(run[0]);
    } else {
      ReachableInv(run, i - 1);
      assert NextAt(run, i - 1);
      NextKeepsInv(run[i - 1], run[i]);
    }
  }
}
