/** What every reachable state of the Windows completion protocol satisfies. */
module IocpInvariant {
  import opened Core
  import opened IocpProtocol
  import opened IocpTrace

  ghost predicate Queued(port: seq<Packet>, a: Address) {
    exists i :: 0 <= i < |port| && port[i].Done? && port[i].overlapped == a
  }

  /** Some completion for a is still to reach the pending map. */
  ghost predicate Live(s: System, a: Address) {
    a in s.outstanding || Queued(s.port, a) || (s.pump.Got? && s.pump.overlapped == a)
  }

  /** The pump has taken t out of the pending map and not yet notified it. */
  ghost predicate InHand(s: System, t: Tid) {
    s.pump.Looked? && s.pump.found == Some(t)
  }

  ghost predicate IsPending(s: System, t: Tid)
    requires t < |s.transfers|
  {
    s.transfers[t].overlapped in s.handle.pending
  }

  ghost predicate OverlappedDistinct(s: System) {
    forall t, u :: 0 <= t < u < |s.transfers| ==>
      s.transfers[t].overlapped != s.transfers[u].overlapped
  }

  /** A map entry's key is its transfer's own OVERLAPPED. */
  ghost predicate KeysOwned(s: System) {
    && (forall a :: a in s.handle.pending ==>
          && s.handle.pending[a] < |s.transfers|
          && s.transfers[s.handle.pending[a]].overlapped == a)
    && (!s.handle.running ==> s.handle.pending == map[])
  }

  /** The flags of one transfer against the map, the kernel and the pump. */
  ghost predicate TransferOk(s: System, t: Tid)
    requires t < |s.transfers|
  {
    var x := s.transfers[t];
    match x.pc
    case Marked => x.InFlight() && !IsPending(s, t) && !Live(s, x.overlapped) && !InHand(s, t)
    case Aborting => x.InFlight() && !IsPending(s, t) && !Live(s, x.overlapped) && !InHand(s, t)
    case Registered => x.InFlight() && IsPending(s, t) && !Live(s, x.overlapped) && !InHand(s, t)
    case StartFailed => x.InFlight() && IsPending(s, t) && !Live(s, x.overlapped) && !InHand(s, t)
    case Idle =>
      if x.submitted then
        !x.done && IsPending(s, t) == Live(s, x.overlapped) == !InHand(s, t)
      else
        !IsPending(s, t) && !Live(s, x.overlapped) && !InHand(s, t)
  }

  ghost predicate TransfersOk(s: System) {
    forall t :: 0 <= t < |s.transfers| ==> TransferOk(s, t)
  }

  /** Each started operation is in one place: with the kernel, in the queue, or fetched. */
  ghost predicate CompletionsDistinct(s: System) {
    && (forall i, j :: 0 <= i < j < |s.port| && s.port[i].Done? && s.port[j].Done? ==>
          s.port[i].overlapped != s.port[j].overlapped)
    && (forall i :: 0 <= i < |s.port| && s.port[i].Done? ==> s.port[i].overlapped !in s.outstanding)
    && (s.pump.Got? ==> s.pump.overlapped !in s.outstanding && !Queued(s.port, s.pump.overlapped))
    && (forall a :: Live(s, a) ==> a in s.handle.pending)
    && (s.pump.Looked? ==> s.pump.found.Some? && s.pump.found.value < |s.transfers|)
  }

  ghost predicate PumpOk(s: System) {
    && (s.pump == NotStarted <==> !s.handle.running)
    && (s.draining ==> s.handle.closed)
    && (s.pump == SawClosed || s.pump.CheckedNil? || s.pump == Exited(false) ==> s.handle.closed)
    && (s.pump.Waiting? ==> (s.pump.limit.Some? <==> s.draining))
    && (s.pump.Waiting? && s.draining ==> s.pump.limit.value <= s.deadline + MILLISECOND)
    && (s.pump == Exited(true) ==> s.draining)
  }

  ghost predicate CloserOk(s: System) {
    && (s.handle.closed <==> s.closer != NotCalled)
    && (s.closer in {Cancelling, Posting, Joining} ==> s.handle.running)
    && (s.portClosed ==> s.closer == Finished)
    && (s.closer == Joining ==> WakeSeen(s))
  }

  /** The nil packet is still queued, or the pump is past it and will drain or exit. */
  ghost predicate WakeSeen(s: System) {
    || Wake in s.port
    || s.pump == GotNil || s.pump == SawClosed || s.pump.CheckedNil?
    || s.draining || s.pump.Exited?
  }

  /** The trace brackets registrations, and the open ones are those pending or in the pump's hand. */
  ghost predicate TraceOk(s: System) {
    && Bracketed(s.trace)
    && (forall i :: 0 <= i < |s.trace| && !s.trace[i].Check? ==> s.trace[i].t < |s.transfers|)
    && forall t :: 0 <= t < |s.transfers| ==>
         (OpenAt(s.trace, t).Some? <==> IsPending(s, t) || InHand(s, t))
  }

  /** The pump found the pending map empty at its last check and acts on that. */
  ghost predicate LastCheckEmpty(s: System) {
    s.pump == CheckedNil(0) || (s.pump.Looked? && s.pump.left == 0) || s.pump == Dispatched(0)
    || s.pump == Exited(false)
  }

  ghost predicate CheckOk(s: System) {
    && s.lastCheck <= |s.trace|
    && (forall i :: s.lastCheck <= i < |s.trace| ==> !s.trace[i].Check?)
    && (LastCheckEmpty(s) ==>
          && 0 < s.lastCheck && s.trace[s.lastCheck - 1] == Check(0)
          && forall t :: 0 <= t < |s.transfers| && IsPending(s, t) ==>
               OpenAt(s.trace, t).Some? && s.lastCheck <= OpenAt(s.trace, t).value)
  }

  /** The map, the transfers and the operations in flight agree. */
  ghost predicate MapOk(s: System) {
    OverlappedDistinct(s) && KeysOwned(s) && TransfersOk(s) && CompletionsDistinct(s)
  }

  ghost predicate Inv(s: System) {
    MapOk(s) && PumpOk(s) && CloserOk(s) && TraceOk(s) && CheckOk(s)
  }

  lemma InitInv(s: System)
    requires Init(s)
    ensures Inv(s)
  {
  }

  // ---------------------------------------------------------------- queue facts

  lemma QueuedAppend(port: seq<Packet>, p: Packet, a: Address)
    ensures Queued(port + [p], a) <==> Queued(port, a) || (p.Done? && p.overlapped == a)
  {
    if Queued(port, a) {
      var i :| 0 <= i < |port| && port[i].Done? && port[i].overlapped == a;
      assert (port + [p])[i] == port[i];
    }
    assert (port + [p])[|port|] == p;
  }

  lemma QueuedHead(port: seq<Packet>, a: Address)
    requires port != []
    ensures Queued(port, a) <==> Queued(port[1..], a) || (port[0].Done? && port[0].overlapped == a)
  {
    if Queued(port[1..], a) {
      var i :| 0 <= i < |port| - 1 && port[1..][i].Done? && port[1..][i].overlapped == a;
      assert port[i + 1] == port[1..][i];
    }
    if Queued(port, a) && !(port[0].Done? && port[0].overlapped == a) {
      var i :| 0 <= i < |port| && port[i].Done? && port[i].overlapped == a;
      assert port[1..][i - 1] == port[i];
    }
  }

  lemma OpenAtAppendAll(s: System, e: Event)
    ensures forall t :: 0 <= t < |s.transfers| ==>
      OpenAt(s.trace + [e], t) ==
      (if e == Reg(t) then Some(|s.trace|) else if e.About(t) then None else OpenAt(s.trace, t))
  {
    forall t | 0 <= t < |s.transfers| {
      OpenAtAppend(s.trace, e, t);
    }
  }

  // ---------------------------------------------------------------- frames

  /** Steps that leave the map, the flags and the position of every operation alone. */
  lemma MapFrame(s: System, s': System)
    requires MapOk(s)
    requires s'.transfers == s.transfers && s'.outstanding == s.outstanding && s'.port == s.port
    requires s'.handle.pending == s.handle.pending && (s.handle.running ==> s'.handle.running)
    requires !s.pump.Got? && !s'.pump.Got? && !s.pump.Looked? && !s'.pump.Looked?
    ensures MapOk(s')
  {
    assert forall b :: Live(s', b) <==> Live(s, b);
    forall u | 0 <= u < |s'.transfers| ensures TransferOk(s', u) {
      assert TransferOk(s, u);
    }
  }

  /** Steps that write nothing to the trace and leave the map as it is. */
  lemma TraceFrame(s: System, s': System)
    requires TraceOk(s) && CheckOk(s)
    requires s'.trace == s.trace && s'.lastCheck == s.lastCheck && |s'.transfers| == |s.transfers|
    requires s'.handle.pending == s.handle.pending
    requires forall u :: 0 <= u < |s.transfers| ==>
               && s'.transfers[u].overlapped == s.transfers[u].overlapped
               && (InHand(s', u) <==> InHand(s, u))
    requires LastCheckEmpty(s') ==> LastCheckEmpty(s)
    ensures TraceOk(s') && CheckOk(s')
  {
    assert forall u :: 0 <= u < |s.transfers| ==> IsPending(s', u) == IsPending(s, u);
  }

  /** Steps that log one event about transfer t. */
  lemma TraceEvent(s: System, s': System, e: Event, t: Tid)
    requires TraceOk(s) && CheckOk(s) && t < |s.transfers|
    requires s'.trace == s.trace + [e] && s'.lastCheck == s.lastCheck && |s'.transfers| == |s.transfers|
    requires e == Reg(t) || e == Disp(t) || e == Unreg(t)
    requires MayFollow(s.trace, e)
    requires e == Reg(t) ==> IsPending(s', t)
    requires e != Reg(t) ==> !IsPending(s', t) && !InHand(s', t)
    requires forall u :: 0 <= u < |s.transfers| && u != t ==>
               IsPending(s', u) == IsPending(s, u) && (InHand(s', u) <==> InHand(s, u))
    requires LastCheckEmpty(s') ==> LastCheckEmpty(s)
    ensures TraceOk(s') && CheckOk(s')
  {
    OpenAtAppendAll(s, e);
    BracketedAppend(s.trace, e);
  }

  /** Steps in which the pump counts the pending map. */
  lemma TraceCheck(s: System, s': System, n: nat)
    requires TraceOk(s)
    requires s'.trace == s.trace + [Check(n)] && s'.lastCheck == |s'.trace| && s'.transfers == s.transfers
    requires forall u :: 0 <= u < |s.transfers| ==>
               (IsPending(s', u) || InHand(s', u) <==> IsPending(s, u) || InHand(s, u))
    requires n == |s'.handle.pending|
    requires LastCheckEmpty(s') ==> n == 0
    ensures TraceOk(s') && CheckOk(s')
  {
    OpenAtAppendAll(s, Check(n));
    BracketedAppend(s.trace, Check(n));
    NewCheckOk(s, s', n);
  }

  lemma NewCheckOk(s: System, s': System, n: nat)
    requires s'.trace == s.trace + [Check(n)] && s'.lastCheck == |s'.trace| && s'.transfers == s.transfers
    requires n == |s'.handle.pending|
    requires LastCheckEmpty(s') ==> n == 0
    ensures CheckOk(s')
  {
    if n == 0 { assert s'.handle.pending == map[]; }
  }

  lemma OthersDiffer(s: System, t: Tid)
    requires OverlappedDistinct(s) && t < |s.transfers|
    ensures forall u :: 0 <= u < |s.transfers| && u != t ==>
              s.transfers[u].overlapped != s.transfers[t].overlapped
  {
    forall u | 0 <= u < |s.transfers| && u != t
      ensures s.transfers[u].overlapped != s.transfers[t].overlapped
    {
      if u < t { assert s.transfers[u].overlapped != s.transfers[t].overlapped; }
    }
  }

  // ---------------------------------------------------------------- Submit

  lemma QuietSubmitKeepsMap(s: System, l: Label, s': System)
    requires MapOk(s) && Step(s, l, s')
    requires l.Accept? || l.RegisterFail? || l.StartFail? || l.Abort?
    ensures MapOk(s')
  {
    assert TransferOk(s, l.t);
    assert forall a :: Live(s', a) <==> Live(s, a);
    forall u | 0 <= u < |s'.transfers| ensures TransferOk(s', u) {
      assert TransferOk(s, u);
    }
  }

  lemma QuietSubmitKeepsInv(s: System, l: Label, s': System)
    requires Inv(s) && Step(s, l, s')
    requires l.Accept? || l.RegisterFail? || l.StartFail? || l.Abort?
    ensures Inv(s')
  {
    QuietSubmitKeepsMap(s, l, s');
    TraceFrame(s, s');
  }

  lemma RegisterKeepsMap(s: System, t: Tid, s': System)
    requires Inv(s) && Step(s, RegisterOk(t), s')
    ensures MapOk(s')
  {
    assert TransferOk(s, t);
    assert s'.handle.pending == s.handle.pending[s.transfers[t].overlapped := t];
    OthersDiffer(s, t);
    assert forall b :: Live(s', b) <==> Live(s, b);
    forall u | 0 <= u < |s'.transfers| ensures TransferOk(s', u) {
      assert TransferOk(s, u);
    }
  }

  lemma RegisterKeepsTrace(s: System, t: Tid, s': System)
    requires Inv(s) && Step(s, RegisterOk(t), s')
    ensures TraceOk(s') && CheckOk(s')
  {
    assert TransferOk(s, t);
    assert s'.handle.pending == s.handle.pending[s.transfers[t].overlapped := t];
    OthersDiffer(s, t);
    TraceEvent(s, s', Reg(t), t);
  }

  lemma RegisterKeepsInv(s: System, t: Tid, s': System)
    requires Inv(s) && Step(s, RegisterOk(t), s')
    ensures Inv(s')
  {
    RegisterKeepsMap(s, t, s');
    RegisterKeepsTrace(s, t, s');
  }

  lemma StartMakesLive(s: System, t: Tid, s': System)
    requires Step(s, Start(t), s')
    ensures forall b :: Live(s', b) <==> Live(s, b) || b == s.transfers[t].overlapped
  {
  }

  lemma StartKeepsTransfers(s: System, t: Tid, s': System)
    requires MapOk(s) && Step(s, Start(t), s')
    ensures TransfersOk(s')
  {
    assert TransferOk(s, t);
    OthersDiffer(s, t);
    StartMakesLive(s, t, s');
    forall u | 0 <= u < |s'.transfers| ensures TransferOk(s', u) {
      assert TransferOk(s, u);
    }
  }

  lemma StartKeepsCompletions(s: System, t: Tid, s': System)
    requires MapOk(s) && Step(s, Start(t), s')
    ensures OverlappedDistinct(s') && KeysOwned(s') && CompletionsDistinct(s')
  {
    assert TransferOk(s, t);
    StartMakesLive(s, t, s');
  }

  lemma StartKeepsInv(s: System, t: Tid, s': System)
    requires Inv(s) && Step(s, Start(t), s')
    ensures Inv(s')
  {
    StartKeepsTransfers(s, t, s');
    StartKeepsCompletions(s, t, s');
    TraceFrame(s, s');
  }

  lemma UnregisterKeepsMap(s: System, t: Tid, s': System)
    requires Inv(s) && Step(s, Unregister(t), s')
    ensures MapOk(s')
  {
    assert TransferOk(s, t);
    OthersDiffer(s, t);
    assert forall b :: Live(s', b) <==> Live(s, b);
    forall u | 0 <= u < |s'.transfers| ensures TransferOk(s', u) {
      assert TransferOk(s, u);
    }
  }

  lemma UnregisterKeepsInv(s: System, t: Tid, s': System)
    requires Inv(s) && Step(s, Unregister(t), s')
    ensures Inv(s')
  {
    UnregisterKeepsMap(s, t, s');
    assert TransferOk(s, t);
    OthersDiffer(s, t);
    TraceEvent(s, s', Unreg(t), t);
  }

  // ---------------------------------------------------------------- kernel, clock, closer

  lemma FinishKeepsInv(s: System, a: Address, qty: nat, err: Option<int>, s': System)
    requires Inv(s) && Step(s, Finish(a, qty, err), s')
    ensures Inv(s')
  {
    forall b ensures Queued(s'.port, b) <==> Queued(s.port, b) || b == a {
      QueuedAppend(s.port, Done(a, qty, err), b);
    }
    assert forall b :: Live(s', b) <==> Live(s, b);
    forall u | 0 <= u < |s'.transfers| ensures TransferOk(s', u) {
      assert TransferOk(s, u);
    }
    forall i, j | 0 <= i < j < |s'.port| && s'.port[i].Done? && s'.port[j].Done?
      ensures s'.port[i].overlapped != s'.port[j].overlapped
    {
      assert s'.port[i] == s.port[i];
      if j < |s.port| { assert s'.port[j] == s.port[j]; }
    }
    assert Wake in s.port ==> Wake in s'.port;
    TraceFrame(s, s');
  }

  lemma ClosePostKeepsInv(s: System, s': System)
    requires Inv(s) && Step(s, ClosePost, s')
    ensures Inv(s')
  {
    forall b ensures Queued(s'.port, b) <==> Queued(s.port, b) {
      QueuedAppend(s.port, Wake, b);
    }
    assert s'.port[|s.port|] == Wake;
    assert forall b :: Live(s', b) <==> Live(s, b);
    forall u | 0 <= u < |s'.transfers| ensures TransferOk(s', u) {
      assert TransferOk(s, u);
    }
    TraceFrame(s, s');
  }

  /** Steps of the clock and of Close that touch neither the map nor the port. */
  lemma QuietKeepsMap(s: System, l: Label, s': System)
    requires MapOk(s) && Step(s, l, s')
    requires l.Tick? || l.CloseBegin? || l.CloseCancel? || l.CloseJoin? || l.CloseFree?
    ensures MapOk(s')
  {
    assert forall b :: Live(s', b) <==> Live(s, b);
    forall u | 0 <= u < |s'.transfers| ensures TransferOk(s', u) {
      assert TransferOk(s, u);
    }
  }

  lemma QuietKeepsInv(s: System, l: Label, s': System)
    requires Inv(s) && Step(s, l, s')
    requires l.Tick? || l.CloseBegin? || l.CloseCancel? || l.CloseJoin? || l.CloseFree?
    ensures Inv(s')
  {
    QuietKeepsMap(s, l, s');
    TraceFrame(s, s');
  }

  // ---------------------------------------------------------------- the pump

  lemma QuietPumpKeepsInv(s: System, l: Label, s': System)
    requires Inv(s) && Step(s, l, s')
    requires l.PumpTop? || l.PumpTimeout? || l.PumpGlitch? || l.PumpReadClosed? || l.PumpDecideNil? || l.PumpDecide?
    ensures Inv(s')
  {
    MapFrame(s, s');
    TraceFrame(s, s');
  }

  lemma DequeuedIsNotQueued(s: System)
    requires CompletionsDistinct(s) && s.port != [] && s.port[0].Done?
    ensures !Queued(s.port[1..], s.port[0].overlapped)
  {
    var rest := s.port[1..];
    forall i | 0 <= i < |rest| && rest[i].Done? ensures rest[i].overlapped != s.port[0].overlapped {
      assert s.port[i + 1] == rest[i];
    }
  }

  lemma PumpDequeueKeepsInv(s: System, s': System)
    requires Inv(s) && Step(s, PumpDequeue, s')
    ensures Inv(s')
  {
    forall b ensures Queued(s.port, b) <==> Queued(s'.port, b) || (s.port[0].Done? && s.port[0].overlapped == b) {
      QueuedHead(s.port, b);
    }
    assert forall b :: Live(s', b) <==> Live(s, b);
    forall u | 0 <= u < |s'.transfers| ensures TransferOk(s', u) {
      assert TransferOk(s, u);
    }
    assert forall i :: 0 <= i < |s'.port| ==> s'.port[i] == s.port[i + 1];
    if s.port[0].Done? { DequeuedIsNotQueued(s); }
    if Wake in s.port && s.port[0] != Wake {
      var i :| 0 <= i < |s.port| && s.port[i] == Wake;
      assert s'.port[i - 1] == Wake;
    }
    TraceFrame(s, s');
  }

  lemma PumpCheckKeepsInv(s: System, s': System)
    requires Inv(s) && Step(s, PumpCheck, s')
    ensures Inv(s')
  {
    MapFrame(s, s');
    assert forall u :: 0 <= u < |s.transfers| ==> IsPending(s', u) == IsPending(s, u);
    TraceCheck(s, s', |s.handle.pending|);
  }

  /** The pump never fetches a completion nobody registered. */
  lemma LookupHits(s: System) returns (t: Tid)
    requires Inv(s) && s.pump.Got?
    ensures s.handle.Lookup(s.pump.overlapped) == Some(t)
    ensures t < |s.transfers| && s.transfers[t].overlapped == s.pump.overlapped
    ensures s.transfers[t].pc == Idle && s.transfers[t].InFlight() && OpenAt(s.trace, t).Some?
  {
    assert Live(s, s.pump.overlapped);
    t := s.handle.pending[s.pump.overlapped];
    assert TransferOk(s, t);
    assert IsPending(s, t);
  }

  lemma LookupUnlives(s: System, s': System)
    requires MapOk(s) && Step(s, PumpLookup, s')
    ensures forall b :: Live(s', b) <==> Live(s, b) && b != s.pump.overlapped
  {
  }

  lemma PumpLookupKeepsTransfers(s: System, t: Tid, s': System)
    requires MapOk(s) && Step(s, PumpLookup, s') && s.handle.Lookup(s.pump.overlapped) == Some(t)
    requires t < |s.transfers| && s.transfers[t].overlapped == s.pump.overlapped && s.transfers[t].pc == Idle
    ensures TransfersOk(s')
  {
    OthersDiffer(s, t);
    LookupUnlives(s, s');
    forall u | 0 <= u < |s'.transfers| ensures TransferOk(s', u) {
      assert TransferOk(s, u);
    }
  }

  lemma PumpLookupKeepsCompletions(s: System, t: Tid, s': System)
    requires MapOk(s) && Step(s, PumpLookup, s') && s.handle.Lookup(s.pump.overlapped) == Some(t)
    ensures OverlappedDistinct(s') && KeysOwned(s') && CompletionsDistinct(s')
  {
    LookupUnlives(s, s');
  }

  /** The transfer found moves from the map to the pump's hand, no other moves. */
  lemma LookupMoves(s: System, t: Tid, s': System)
    requires MapOk(s) && Step(s, PumpLookup, s') && s.handle.Lookup(s.pump.overlapped) == Some(t)
    requires t < |s.transfers| && s.transfers[t].overlapped == s.pump.overlapped
    ensures forall u :: 0 <= u < |s.transfers| ==>
              (IsPending(s', u) || InHand(s', u) <==> IsPending(s, u) || InHand(s, u))
  {
    OthersDiffer(s, t);
  }

  lemma PumpLookupKeepsTrace(s: System, t: Tid, s': System)
    requires Inv(s) && Step(s, PumpLookup, s') && s.handle.Lookup(s.pump.overlapped) == Some(t)
    requires t < |s.transfers| && s.transfers[t].overlapped == s.pump.overlapped
    ensures TraceOk(s') && CheckOk(s')
  {
    LookupMoves(s, t, s');
    TraceCheck(s, s', |s'.handle.pending|);
  }

  lemma PumpLookupKeepsRest(s: System, s': System)
    requires PumpOk(s) && CloserOk(s) && Step(s, PumpLookup, s')
    ensures PumpOk(s') && CloserOk(s')
  {
  }

  lemma PumpLookupKeepsInv(s: System, s': System)
    requires Inv(s) && Step(s, PumpLookup, s')
    ensures Inv(s')
  {
    var t := LookupHits(s);
    PumpLookupKeepsTransfers(s, t, s');
    PumpLookupKeepsCompletions(s, t, s');
    PumpLookupKeepsTrace(s, t, s');
    PumpLookupKeepsRest(s, s');
  }

  lemma PumpDispatchKeepsMap(s: System, s': System)
    requires Inv(s) && Step(s, PumpDispatch, s')
    ensures MapOk(s')
  {
    assert TransferOk(s, s.pump.found.value);
    assert forall b :: Live(s', b) <==> Live(s, b);
    forall u | 0 <= u < |s'.transfers| ensures TransferOk(s', u) {
      assert TransferOk(s, u);
    }
  }

  lemma PumpDispatchKeepsInv(s: System, s': System)
    requires Inv(s) && Step(s, PumpDispatch, s')
    ensures Inv(s')
  {
    PumpDispatchKeepsMap(s, s');
    var t := s.pump.found.value;
    assert TransferOk(s, t);
    TraceEvent(s, s', Disp(t), t);
  }

  // ---------------------------------------------------------------- all steps, all runs

  lemma StepKeepsInv(s: System, l: Label, s': System)
    requires Inv(s) && Step(s, l, s')
    ensures Inv(s')
  {
    if l.RegisterOk? { RegisterKeepsInv(s, l.t, s'); }
    else if l.Start? { StartKeepsInv(s, l.t, s'); }
    else if l.Unregister? { UnregisterKeepsInv(s, l.t, s'); }
    else if l.Accept? || l.RegisterFail? || l.StartFail? || l.Abort? { QuietSubmitKeepsInv(s, l, s'); }
    else if l.Finish? { FinishKeepsInv(s, l.overlapped, l.qty, l.err, s'); }
    else if l.ClosePost? { ClosePostKeepsInv(s, s'); }
    else if l.PumpDequeue? { PumpDequeueKeepsInv(s, s'); }
    else if l.PumpCheck? { PumpCheckKeepsInv(s, s'); }
    else if l.PumpLookup? { PumpLookupKeepsInv(s, s'); }
    else if l.PumpDispatch? { PumpDispatchKeepsInv(s, s'); }
    else if l.Tick? || l.CloseBegin? || l.CloseCancel? || l.CloseJoin? || l.CloseFree? { QuietKeepsInv(s, l, s'); }
    else { QuietPumpKeepsInv(s, l, s'); }
  }

  lemma NextKeepsInv(s: System, s': System)
    requires Inv(s) && Next(s, s')
    ensures Inv(s')
  {
    var l :| Step(s, l, s');
    StepKeepsInv(s, l, s');
  }

  lemma {:induction false} ReachableInv(run: seq<System>, i: nat)
    requires IsRun(run) && i < |run|
    ensures Inv(run[i])
  {
    if i == 0 {
      InitInv(run[0]);
    } else {
      ReachableInv(run, i - 1);
      assert NextAt(run, i - 1);
      NextKeepsInv(run[i - 1], run[i]);
    }
  }

  /** The last step of a run of more than one state, and the run before it. */
  lemma LastStep(run: seq<System>) returns (front: seq<System>, l: Label)
    requires IsRun(run) && |run| > 1
    ensures front == run[..|run| - 1] && IsRun(front)
    ensures Inv(run[|run| - 2]) && Step(run[|run| - 2], l, run[|run| - 1])
  {
    front := run[..|run| - 1];
    forall i | 0 <= i < |front| - 1 ensures NextAt(front, i) { assert NextAt(run, i); }
    ReachableInv(run, |run| - 2);
    assert NextAt(run, |run| - 2);
    l :| Step(run[|run| - 2], l, run[|run| - 1]);
  }

  /**
   In every reachable state each entry of the pending map sits under its transfer's own
   OVERLAPPED, belongs to a submission still in flight, and no transfer has two entries.
   */
  lemma PendingMapInvariant(run: seq<System>, a: Address)
    requires IsRun(run) && a in run[|run| - 1].handle.pending
    ensures var s := run[|run| - 1];
      var t := s.handle.pending[a];
      && t < |s.transfers| && s.transfers[t].overlapped == a && s.transfers[t].InFlight()
      && forall b :: b in s.handle.pending && s.handle.pending[b] == t ==> b == a
  {
    ReachableInv(run, |run| - 1);
    var s := run[|run| - 1];
    var t := s.handle.pending[a];
    assert TransferOk(s, t);
    assert IsPending(s, t);
  }

  /** Submit accepts a transfer only when its last registration has been dispatched or unregistered. */
  lemma {:induction false} AcceptedOnlyAfterEnding(run: seq<System>, t: Tid)
    requires IsRun(run) && Enabled(run[|run| - 1], Accept(t))
    ensures OpenAt(run[|run| - 1].trace, t).None? && Bracketed(run[|run| - 1].trace)
    ensures run[|run| - 1].transfers[t].pc == Idle
  {
    ReachableInv(run, |run| - 1);
    assert TransferOk(run[|run| - 1], t);
  }
}
