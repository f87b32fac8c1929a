/**
 The completion protocol of one open Windows device handle: transfers submitted from any
 goroutine, the kernel completing them in any order, one pump goroutine draining the
 completion port, and one goroutine closing the handle.

 Every step of the relation is one critical section of the code (or one system call), so a
 run interleaves the goroutines at every lock release.
 */
module IocpProtocol {
  import opened Core

  /** A transfer is named by its index in System.transfers. */
  type Tid = nat

  /** The address of an OVERLAPPED structure. */
  type Address = nat

  /** Where the goroutine inside AsyncTransfer.Submit is between two critical sections. */
  datatype SubmitPc =
    | Idle         // no call of Submit is past its first critical section
    | Marked       // marked as submitted, not yet registered
    | Registered   // in the pending map, I/O not yet issued
    | StartFailed  // the I/O call failed synchronously, still in the pending map
    | Aborting     // not in the pending map, about to clear its submitted flag

  datatype Transfer = Transfer(
    overlapped: Address,
    submitted: bool,
    done: bool,
    xferred: int,
    lastErr: Option<int>,
    pc: SubmitPc)
  {
    /** The guard with which Submit refuses a second call. */
    predicate InFlight() { submitted && !done }

    function MarkSubmitted(): Transfer {
      this.(submitted := true, done := false, xferred := 0, lastErr := None)
    }

    function ClearSubmitted(): Transfer {
      this.(submitted := false)
    }

    function Complete(qty: nat, err: Option<int>): Transfer {
      this.(xferred := qty, lastErr := err, done := true, submitted := false)
    }
  }

  /** The fields of DeviceHandle that the protocol reads and writes. */
  datatype Handle = Handle(closed: bool, running: bool, pending: map<Address, Tid>) {

    /** registerAsyncCompletion, once the port exists. */
    function Register(a: Address, t: Tid): Handle {
      this.(running := true, pending := (if running then pending else map[])[a := t])
    }

    /** unregisterAsyncCompletion; also the removal the pump makes. */
    function Remove(a: Address): Handle {
      this.(pending := pending - {a})
    }

    /** The transfer the pump finds registered under an OVERLAPPED address. */
    function Lookup(a: Address): Option<Tid> {
      if a in pending then Some(pending[a]) else None
    }
  }

  /** What GetQueuedCompletionStatus can dequeue. */
  datatype Packet =
    | Wake                                              // the nil packet Close posts
    | Done(overlapped: Address, qty: nat, err: Option<int>)

  /** Where iocpPump is between two critical sections. */
  datatype PumpPc =
    | NotStarted
    | Top                                   // at the head of the loop
    | Waiting(limit: Option<nat>)           // inside GetQueuedCompletionStatus
    | GotNil                                // it returned no OVERLAPPED and did not time out
    | SawClosed                             // h.closed was set
    | CheckedNil(left: nat)                 // pending was counted
    | Got(overlapped: Address, qty: nat, err: Option<int>)
    | Looked(found: Option<Tid>, qty: nat, err: Option<int>, left: nat)
    | Dispatched(left: nat)                 // the transfer, if any, has been notified
    | Exited(byDeadline: bool)

  /** Where Close is between two critical sections. */
  datatype Closer =
    | NotCalled
    | Cancelling   // closed is set and a pump was running
    | Posting      // every pending transfer has been cancelled
    | Joining      // the nil packet is posted, waiting on iocpDone
    | Freeing      // releasing the handles
    | Finished

  /** The moments at which the pending map is written or counted. */
  datatype Event =
    | Reg(t: Tid)
    | Disp(t: Tid)
    | Unreg(t: Tid)
    | Check(left: nat)
  {
    predicate About(u: Tid) {
      match this
      case Reg(t) => t == u
      case Disp(t) => t == u
      case Unreg(t) => t == u
      case Check(_) => false
    }
  }

  datatype System = System(
    transfers: seq<Transfer>,
    handle: Handle,
    outstanding: set<Address>,   // operations the kernel has started and not completed
    port: seq<Packet>,           // the completion port's queue
    portClosed: bool,
    pump: PumpPc,
    draining: bool,
    deadline: nat,               // drainDeadline, in nanoseconds
    now: nat,                    // the clock, in nanoseconds
    closer: Closer,
    glitches: nat,               // failures of the wait call still to come while the port is open
    trace: seq<Event>,
    lastCheck: nat)              // length of trace just after the pump last counted pending

  const MILLISECOND := 1_000_000
  const DRAIN_TIMEOUT := 2_000 * MILLISECOND

  /** A handle just opened, before any transfer was submitted on it. */
  ghost predicate Init(s: System) {
    && s.handle == Handle(false, false, map[])
    && s.outstanding == {} && s.port == [] && !s.portClosed
    && s.pump == NotStarted && !s.draining && s.closer == NotCalled
    && s.trace == [] && s.lastCheck == 0
    && (forall t :: 0 <= t < |s.transfers| ==>
          var x := s.transfers[t];
          x == Transfer(x.overlapped, false, false, 0, None, Idle))
    // each transfer owns its OVERLAPPED structure
    && (forall t, u :: 0 <= t < u < |s.transfers| ==>
          s.transfers[t].overlapped != s.transfers[u].overlapped)
  }

  datatype Label =
    | Accept(t: Tid)
    | RegisterOk(t: Tid)
    | RegisterFail(t: Tid)
    | Start(t: Tid)
    | StartFail(t: Tid)
    | Unregister(t: Tid)
    | Abort(t: Tid)
    | Finish(overlapped: Address, qty: nat, err: Option<int>)  // the kernel completes an operation
    | Tick(elapsed: nat)
    | PumpTop
    | PumpDequeue
    | PumpTimeout
    | PumpGlitch
    | PumpReadClosed
    | PumpCheck
    | PumpDecideNil
    | PumpLookup
    | PumpDispatch
    | PumpDecide
    | CloseBegin
    | CloseCancel
    | ClosePost
    | CloseJoin
    | CloseFree

  /** How long the pump asks to wait: forever, or what is left of the drain window. */
  function WaitLimit(draining: bool, deadline: nat, now: nat): (limit: Option<nat>)
    requires draining ==> now < deadline
    ensures limit.Some? <==> draining
    ensures limit.Some? ==> now + MILLISECOND <= limit.value <= deadline + MILLISECOND
    ensures limit.Some? ==> deadline < limit.value + MILLISECOND
  {
    if !draining then None
    else
      var ms := (deadline - now) / MILLISECOND;
      Some(now + (if ms == 0 then 1 else ms) * MILLISECOND)
  }

  predicate At(s: System, t: Tid, pc: SubmitPc) {
    t < |s.transfers| && s.transfers[t].pc == pc
  }

  /** s with transfer t replaced. */
  function With(s: System, t: Tid, x: Transfer): System
    requires t < |s.transfers|
  {
    s.(transfers := s.transfers[t := x])
  }

  /** Whether the step l can be taken in s. */
  predicate Enabled(s: System, l: Label) {
    match l
    // ---- AsyncTransfer.Submit
    case Accept(t) =>
      // Submit reads closed in the same critical section in which it marks the transfer.
      t < |s.transfers| && !s.transfers[t].InFlight() && !s.handle.closed
    case RegisterOk(t) => At(s, t, Marked)
    case RegisterFail(t) => At(s, t, Marked) && !s.handle.running  // CreateIoCompletionPort failed
    case Start(t) => At(s, t, Registered)
    case StartFail(t) => At(s, t, Registered)
    case Unregister(t) => At(s, t, StartFailed)
    case Abort(t) => At(s, t, Aborting)
    // ---- the kernel and the clock
    case Finish(a, _, _) => a in s.outstanding
    case Tick(elapsed) => elapsed > 0
    // ---- iocpPump
    case PumpTop => s.pump == Top
    case PumpDequeue => s.pump.Waiting? && s.port != []
    case PumpTimeout =>
      // WAIT_TIMEOUT is possible only for a bounded wait, and the wait is bounded only while draining.
      s.pump.Waiting? && s.pump.limit.Some? && s.pump.limit.value <= s.now
    case PumpGlitch => s.pump.Waiting? && (s.portClosed || s.glitches > 0)
    case PumpReadClosed => s.pump == GotNil
    case PumpCheck => s.pump == SawClosed
    case PumpDecideNil => s.pump.CheckedNil?
    case PumpLookup => s.pump.Got?
    case PumpDispatch => s.pump.Looked? && (s.pump.found.Some? ==> s.pump.found.value < |s.transfers|)
    case PumpDecide => s.pump.Dispatched?
    // ---- DeviceHandle.Close; a second call returns at once and changes nothing
    case CloseBegin => s.closer == NotCalled
    case CloseCancel => s.closer == Cancelling
    case ClosePost => s.closer == Posting
    case CloseJoin => s.closer == Joining && s.pump.Exited?
    case CloseFree => s.closer == Freeing
  }

  /** The state the step l leads to. */
  function Apply(s: System, l: Label): System
    requires Enabled(s, l)
  {
    match l
    case Accept(t) => With(s, t, s.transfers[t].MarkSubmitted().(pc := Marked))
    case RegisterOk(t) =>
      With(s, t, s.transfers[t].(pc := Registered)).(
        handle := s.handle.Register(s.transfers[t].overlapped, t),
        pump := if s.handle.running then s.pump else Top,
        trace := s.trace + [Reg(t)])
    case RegisterFail(t) => With(s, t, s.transfers[t].(pc := Aborting))
    case Start(t) =>
      With(s, t, s.transfers[t].(pc := Idle)).(outstanding := s.outstanding + {s.transfers[t].overlapped})
    case StartFail(t) =>
      // A call that fails synchronously posts no completion.
      With(s, t, s.transfers[t].(pc := StartFailed))
    case Unregister(t) =>
      With(s, t, s.transfers[t].(pc := Aborting)).(
        handle := s.handle.Remove(s.transfers[t].overlapped),
        trace := s.trace + [Unreg(t)])
    case Abort(t) => With(s, t, s.transfers[t].ClearSubmitted().(pc := Idle))
    case Finish(a, qty, err) =>
      s.(outstanding := s.outstanding - {a}, port := s.port + [Done(a, qty, err)])
    case Tick(elapsed) => s.(now := s.now + elapsed)
    case PumpTop =>
      s.(pump := if s.draining && s.deadline <= s.now then Exited(true)
                 else Waiting(WaitLimit(s.draining, s.deadline, s.now)))
    case PumpDequeue =>
      s.(port := s.port[1..],
         pump := match s.port[0]
                 case Wake => GotNil
                 case Done(a, qty, err) => Got(a, qty, err))
    case PumpTimeout => s.(pump := Exited(true))
    case PumpGlitch => s.(pump := GotNil, glitches := if s.portClosed then s.glitches else s.glitches - 1)
    case PumpReadClosed => s.(pump := if s.handle.closed then SawClosed else Top)
    case PumpCheck =>
      s.(pump := CheckedNil(|s.handle.pending|),
         trace := s.trace + [Check(|s.handle.pending|)],
         lastCheck := |s.trace| + 1)
    case PumpDecideNil =>
      if s.pump.left == 0 then s.(pump := Exited(false))
      else if s.draining then s.(pump := Top)
      else s.(pump := Top, draining := true, deadline := s.now + DRAIN_TIMEOUT)
    case PumpLookup =>
      var h := s.handle.Remove(s.pump.overlapped);
      s.(handle := h,
         pump := Looked(s.handle.Lookup(s.pump.overlapped), s.pump.qty, s.pump.err, |h.pending|),
         trace := s.trace + [Check(|h.pending|)],
         lastCheck := |s.trace| + 1)
    case PumpDispatch =>
      if s.pump.found.None? then s.(pump := Dispatched(s.pump.left))
      else
        var t := s.pump.found.value;
        With(s, t, s.transfers[t].Complete(s.pump.qty, s.pump.err)).(
          pump := Dispatched(s.pump.left),
          trace := s.trace + [Disp(t)])
    case PumpDecide => s.(pump := if s.draining && s.pump.left == 0 then Exited(false) else Top)
    case CloseBegin =>
      s.(handle := s.handle.(closed := true), closer := if s.handle.running then Cancelling else Freeing)
    case CloseCancel =>
      // CancelIoEx only asks for a completion, which Finish delivers at some later time.
      s.(closer := Posting)
    case ClosePost => s.(closer := Joining, port := s.port + [Wake])
    case CloseJoin => s.(closer := Freeing)
    case CloseFree => s.(closer := Finished, portClosed := s.portClosed || s.handle.running)
  }

  ghost predicate Step(s: System, l: Label, s': System) {
    Enabled(s, l) && s' == Apply(s, l)
  }

  ghost predicate Next(s: System, s': System) {
    exists l :: Step(s, l, s')
  }

  ghost predicate NextAt(run: seq<System>, i: nat)
    requires i + 1 < |run|
  {
    Next(run[i], run[i + 1])
  }

  /** A run of the system from a freshly opened handle. */
  ghost predicate IsRun(run: seq<System>) {
    && run != [] && Init(run[0])
    && forall i :: 0 <= i < |run| - 1 ==> NextAt(run, i)
  }
}
