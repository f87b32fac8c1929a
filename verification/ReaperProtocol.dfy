/**
 The completion protocol of one open Linux device handle: each transfer submitted by its own
 goroutine, the kernel completing URBs in any order, one reap loop started on first use, and
 one goroutine closing the handle. Every step is one critical section or one system call.
 */
module ReaperProtocol {
  import opened Core

  /** A transfer is named by its index in System.transfers. */
  type Tid = nat

  /** The address of a URB. */
  type Address = nat

  /** The completion callback of one registration; callbacks are numbered as they are registered. */
  type Callback = nat

  /** Where the goroutine inside Submit is; past Idle it holds the handle's read lock. */
  datatype SubmitPc =
    | Idle
    | Entered    // not submitted, closed was not set
    | InKernel   // the kernel took the URB, no callback registered yet

  datatype Transfer = Transfer(urb: Address, submitted: bool, reaped: bool, pc: SubmitPc)
  {
    function MarkSubmitted(): Transfer { this.(submitted := true, reaped := false) }

    /** What the callback does to its transfer's flags. */
    function Notify(): Transfer { this.(submitted := false, reaped := true) }
  }

  datatype ReapDone = NoLoop | Open | Signalled

  /** Where the reap loop is between two critical sections. */
  datatype LoopPc =
    | NotRunning
    | Starting
    | Top                    // about to read closed
    | AboutToPark            // read closed as not set
    | Parked                 // in epoll_wait
    | Draining               // in drainReapedURBs
    | Reaped(urb: Address)   // the kernel handed back a URB
    | Hand(cb: Callback)     // its callback was taken out of the map
    | ShuttingDown           // read closed as set

  datatype Closer =
    | NotCalled
    | Discarding(join: bool)
    | Waking                 // about to write to the wake pipe
    | Joining                // waiting on reapDone
    | Releasing
    | Returned

  datatype System = System(
    transfers: seq<Transfer>,
    closed: bool,
    reapMap: Option<map<Address, Callback>>,   // None is the nil map
    reaping: bool,
    reapDone: ReapDone,
    pipe: nat,                    // bytes in the wake pipe
    loop: LoopPc,
    kernel: multiset<Address>,    // URBs the kernel holds
    ready: seq<Address>,          // URBs ready to be reaped
    registered: seq<Tid>,         // registered[cb] is the transfer whose callback cb is
    fired: seq<Callback>,         // callbacks called, in order
    closer: Closer,
    interrupts: nat)              // system calls still to return EINTR

  ghost predicate Init(s: System) {
    && !s.closed && s.reapMap == Some(map[]) && !s.reaping && s.reapDone == NoLoop && s.pipe == 0
    && s.loop == NotRunning && s.kernel == multiset{} && s.ready == []
    && s.registered == [] && s.fired == [] && s.closer == NotCalled
    && (forall t :: 0 <= t < |s.transfers| ==>
          s.transfers[t] == Transfer(s.transfers[t].urb, false, false, Idle))
    && (forall t, u :: 0 <= t < u < |s.transfers| ==> s.transfers[t].urb != s.transfers[u].urb)
  }

  datatype Label =
    | Enter(t: Tid)
    | SubmitUrb(t: Tid)
    | SubmitUrbFail(t: Tid)
    | RegisterOk(t: Tid)
    | RegisterFail(t: Tid)
    | Finish(urb: Address)        // the kernel completes a URB, discarded or not
    | LoopStart
    | LoopStartFail(order: seq<Callback>)
    | LoopReadClosed
    | LoopPark
    | LoopWake
    | LoopWakeOther               // epoll_wait reports the device for another reason, such as a hang-up
    | LoopInterrupted
    | LoopWaitFail(order: seq<Callback>)
    | LoopReap
    | LoopReapNothing
    | LoopReapInterrupted
    | LoopReapFail(order: seq<Callback>)
    | LoopLookup
    | LoopFire
    | LoopShutdown(order: seq<Callback>)
    | CloseBegin
    | CloseDiscard
    | CloseWake
    | CloseJoin
    | CloseRelease

  predicate At(s: System, t: Tid, pc: SubmitPc) {
    t < |s.transfers| && s.transfers[t].pc == pc
  }

  function With(s: System, t: Tid, x: Transfer): System
    requires t < |s.transfers|
  {
    s.(transfers := s.transfers[t := x])
  }

  /** No goroutine is inside Submit, so none holds the handle's read lock. */
  ghost predicate NoReaders(s: System) {
    forall t :: 0 <= t < |s.transfers| ==> s.transfers[t].pc == Idle
  }

  /** order lists the callbacks in m, each once: a walk over the map in the runtime's order. */
  ghost predicate Lists(order: seq<Callback>, m: map<Address, Callback>) {
    && (forall i, j :: 0 <= i < j < |order| ==> order[i] != order[j])
    && (forall cb :: cb in order <==> exists a :: a in m && m[a] == cb)
  }

  /** Every transfer whose URB is in the map is notified. */
  function NotifyAll(transfers: seq<Transfer>, m: map<Address, Callback>): (r: seq<Transfer>)
    ensures |r| == |transfers|
    ensures forall t :: 0 <= t < |r| ==>
      r[t] == if transfers[t].urb in m then transfers[t].Notify() else transfers[t]
  {
    seq(|transfers|, t requires 0 <= t < |transfers| =>
      if transfers[t].urb in m then transfers[t].Notify() else transfers[t])
  }

  /** Calling every registered callback, and the loop's deferred clean-up. */
  function FireAll(s: System, order: seq<Callback>, left: Option<map<Address, Callback>>): System
    requires s.reapMap.Some?
  {
    s.(transfers := NotifyAll(s.transfers, s.reapMap.value),
       fired := s.fired + order,
       reapMap := left,
       reaping := false,
       reapDone := Signalled,
       loop := NotRunning)
  }

  const WAKE_READ_SIZE := 8

  ghost predicate Enabled(s: System, l: Label) {
    match l
    // ---- AsyncTransfer.Submit and IsochronousTransfer.Submit
    case Enter(t) => At(s, t, Idle) && !s.transfers[t].submitted && !s.closed
    case SubmitUrb(t) => At(s, t, Entered)
    case SubmitUrbFail(t) => At(s, t, Entered)
    case RegisterOk(t) => At(s, t, InKernel) && s.reapMap.Some?  // a write to the nil map panics
    case RegisterFail(t) => At(s, t, InKernel) && !s.reaping     // Pipe2 failed
    // ---- the kernel
    case Finish(a) => a in s.kernel
    // ---- reapLoop
    case LoopStart => s.loop == Starting
    case LoopStartFail(order) => s.loop == Starting && s.reapMap.Some? && Lists(order, s.reapMap.value)
    case LoopReadClosed => s.loop == Top
    case LoopPark => s.loop == AboutToPark
    case LoopWake => s.loop == Parked && (s.ready != [] || s.pipe > 0)
    case LoopWakeOther => s.loop == Parked
    case LoopInterrupted => s.loop == Parked && s.interrupts > 0
    case LoopWaitFail(order) => s.loop == Parked && s.reapMap.Some? && Lists(order, s.reapMap.value)
    case LoopReap => s.loop == Draining && s.ready != []
    case LoopReapNothing => s.loop == Draining && s.ready == []
    case LoopReapInterrupted => s.loop == Draining && s.interrupts > 0
    case LoopReapFail(order) => s.loop == Draining && s.reapMap.Some? && Lists(order, s.reapMap.value)
    case LoopLookup => s.loop.Reaped?
    case LoopFire => s.loop.Hand? && s.loop.cb < |s.registered| && s.registered[s.loop.cb] < |s.transfers|
    case LoopShutdown(order) => s.loop == ShuttingDown && s.reapMap.Some? && Lists(order, s.reapMap.value)
    // ---- DeviceHandle.Close; a second call returns at once and changes nothing
    case CloseBegin => s.closer == NotCalled && NoReaders(s)
    case CloseDiscard => s.closer.Discarding?
    case CloseWake => s.closer == Waking
    case CloseJoin => s.closer == Joining && s.reapDone == Signalled
    case CloseRelease => s.closer == Releasing
  }

  ghost function Apply(s: System, l: Label): System
    requires Enabled(s, l)
  {
    match l
    case Enter(t) => With(s, t, s.transfers[t].(pc := Entered))
    case SubmitUrb(t) =>
      With(s, t, s.transfers[t].MarkSubmitted().(pc := InKernel)).(
        kernel := s.kernel + multiset{s.transfers[t].urb})
    case SubmitUrbFail(t) => With(s, t, s.transfers[t].(pc := Idle))
    case RegisterOk(t) =>
      With(s, t, s.transfers[t].(pc := Idle)).(
        reapMap := Some(s.reapMap.value[s.transfers[t].urb := |s.registered|]),
        registered := s.registered + [t],
        reaping := true,
        reapDone := if s.reaping then s.reapDone else Open,
        loop := if s.reaping then s.loop else Starting,
        pipe := if s.reaping then s.pipe else 0)
    case RegisterFail(t) => With(s, t, s.transfers[t].(submitted := false, pc := Idle))
    case Finish(a) => s.(kernel := s.kernel - multiset{a}, ready := s.ready + [a])
    case LoopStart => s.(loop := Top)
    case LoopStartFail(order) => FireAll(s, order, Some(map[]))
    case LoopReadClosed => s.(loop := if s.closed then ShuttingDown else AboutToPark)
    case LoopPark => s.(loop := Parked)
    case LoopWake =>
      // The wake pipe is read only if epoll_wait reported it.
      s.(loop := Draining, pipe := if s.pipe <= WAKE_READ_SIZE then 0 else s.pipe - WAKE_READ_SIZE)
    case LoopWakeOther => s.(loop := Draining)
    case LoopInterrupted => s.(loop := Top, interrupts := s.interrupts - 1)
    case LoopWaitFail(order) => FireAll(s, order, Some(map[]))
    case LoopReap => s.(loop := Reaped(s.ready[0]), ready := s.ready[1..])
    case LoopReapNothing => s.(loop := Top)
    case LoopReapInterrupted => s.(interrupts := s.interrupts - 1)
    case LoopReapFail(order) => FireAll(s, order, Some(map[]))
    case LoopLookup =>
      if s.reapMap.Some? && s.loop.urb in s.reapMap.value then
        s.(loop := Hand(s.reapMap.value[s.loop.urb]), reapMap := Some(s.reapMap.value - {s.loop.urb}))
      else
        s.(loop := Draining)  // reaped before it was registered: skipped
    case LoopFire =>
      var t := s.registered[s.loop.cb];
      With(s, t, s.transfers[t].Notify()).(fired := s.fired + [s.loop.cb], loop := Draining)
    case LoopShutdown(order) => FireAll(s, order, None)
    case CloseBegin => s.(closed := true, closer := Discarding(s.reapDone != NoLoop))
    case CloseDiscard =>
      // Discarding only hurries completions, which Finish delivers.
      s.(closer := if s.closer.join then Waking else Releasing)
    case CloseWake =>
      // The write is lost when the loop has already closed its end of the pipe.
      s.(closer := Joining, pipe := if s.loop == NotRunning then s.pipe else s.pipe + 1)
    case CloseJoin => s.(closer := Releasing)
    case CloseRelease => s.(closer := Returned)
  }

  ghost predicate Step(s: System, l: Label, s': System) {
    Enabled(s, l) && s' == Apply(s, l)
  }

  ghost predicate Next(s: System, s': System) {
    exists l :: Step(s, l, s')
  }

  ghost predicate NextAt(run: seq<System>, i: nat)
    requires i + 1 < |run|
  {
    Next(run[i], run[i + 1])
  }

  /** A run of the system from a freshly opened handle. */
  ghost predicate IsRun(run: seq<System>) {
    && run != [] && Init(run[0])
    && forall i :: 0 <= i < |run| - 1 ==> NextAt(run, i)
  }
}
