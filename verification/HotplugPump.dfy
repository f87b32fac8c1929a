/**
 The Linux watcher's pump and the call that stops it: the pump blocks on the uevent socket and on a
 pipe that exists only to wake it, Deregister sets a flag, writes to the pipe and waits.
 */
module HotplugPump {

  datatype Pump =
    | Checking                        // about to read the stopped flag
    | AboutToPark                     // read the flag as not set
    | Parked                          // in epoll_wait
    | Handling(wake: bool, sock: bool) // events returned and not yet handled
    | Draining(wake: bool)            // receiving until the socket is empty; wake is still to handle
    | Exited

  datatype Caller = Running | FlagSet | Waiting | Returned

  /** wakeBytes are in the pipe, uevents on the socket. */
  datatype State = State(stopped: bool, wakeBytes: nat, uevents: nat, pump: Pump, caller: Caller)

  datatype Label =
    | Check
    | Park
    | Wake          // epoll_wait returns what is ready
    | Interrupted   // epoll_wait returns EINTR
    | WaitFails
    | ReadPipe
    | StartDrain
    | Receive
    | DrainEnds     // the socket is empty
    | ReceiveFails
    | NextRound     // all events handled
    | Uevent        // the kernel sends one
    | SetFlag
    | WritePipe
    | SeeDone

  const BEGIN := State(false, 0, 0, Checking, Running)

  /** How many bytes one read takes from the pipe. */
  const READ_SIZE := 8

  predicate Enabled(s: State, l: Label) {
    match l
    case Check => s.pump.Checking?
    case Park => s.pump.AboutToPark?
    case Wake => s.pump.Parked? && (s.wakeBytes > 0 || s.uevents > 0)
    case Interrupted => s.pump.Parked?
    case WaitFails => s.pump.Parked?
    case ReadPipe => s.pump.Handling? && s.pump.wake
    case StartDrain => s.pump.Handling? && s.pump.sock
    case Receive => s.pump.Draining? && s.uevents > 0
    case DrainEnds => s.pump.Draining? && s.uevents == 0
    case ReceiveFails => s.pump.Draining?
    case NextRound => s.pump.Handling? && !s.pump.wake && !s.pump.sock
    case Uevent => true
    case SetFlag => s.caller.Running?
    case WritePipe => s.caller.FlagSet?
    case SeeDone => s.caller.Waiting? && s.pump.Exited?
  }

  function Apply(s: State, l: Label): State
    requires Enabled(s, l)
  {
    match l
    case Check => s.(pump := if s.stopped then Exited else AboutToPark)
    case Park => s.(pump := Parked)
    case Wake => s.(pump := Handling(s.wakeBytes > 0, s.uevents > 0))
    case Interrupted => s.(pump := Checking)
    case WaitFails => s.(pump := Exited)
    case ReadPipe =>
      s.(pump := Handling(false, s.pump.sock),
         wakeBytes := if s.wakeBytes > READ_SIZE then s.wakeBytes - READ_SIZE else 0)
    case StartDrain => s.(pump := Draining(s.pump.wake))
    case Receive => s.(uevents := s.uevents - 1)
    case DrainEnds => s.(pump := Handling(s.pump.wake, false))
    case ReceiveFails => s.(pump := Exited)
    case NextRound => s.(pump := Checking)
    case Uevent => s.(uevents := s.uevents + 1)
    case SetFlag => s.(stopped := true, caller := FlagSet)
    case WritePipe => s.(wakeBytes := s.wakeBytes + 1, caller := Waiting)
    case SeeDone => s.(caller := Returned)
  }

  function After(labels: seq<Label>): State {
    if labels == [] then BEGIN
    else
      var s := After(labels[..|labels| - 1]);
      if Enabled(s, labels[|labels| - 1]) then Apply(s, labels[|labels| - 1]) else s
  }

  /** The flag is set before the byte is written, and only a byte already read leaves the pipe empty for good. */
  ghost predicate Inv(s: State) {
    && (s.stopped <==> !s.caller.Running?)
    && (s.caller.Waiting? && (s.pump.Parked? || s.pump.AboutToPark?) ==> s.wakeBytes > 0)
    && (s.caller.Returned? ==> s.pump.Exited?)
    && (s.pump.Handling? && s.pump.wake ==> s.wakeBytes > 0)
    && (s.pump.Draining? && s.pump.wake ==> s.wakeBytes > 0)
    && s.wakeBytes <= if s.caller.Waiting? || s.caller.Returned? then 1 else 0
  }

  lemma StepKeepsInv(s: State, l: Label)
    requires Inv(s) && Enabled(s, l)
    ensures Inv(Apply(s, l))
  {
  }

  lemma {:induction false} RunKeepsInv(labels: seq<Label>)
    ensures Inv(After(labels))
  {
    if labels != [] {
      var s := After(labels[..|labels| - 1]);
      RunKeepsInv(labels[..|labels| - 1]);
      if Enabled(s, labels[|labels| - 1]) { StepKeepsInv(s, labels[|labels| - 1]); }
    }
  }

  /**
   When the caller waits and the pump is parked, or read the flag before it was set and is about to
   park, the pipe holds a byte, so the pump wakes at once.
   */
  lemma {:induction false} NoLostWakeUp(labels: seq<Label>)
    ensures var s := After(labels); s.caller.Waiting? && s.pump.Parked? ==> s.wakeBytes > 0 && Enabled(s, Wake)
    ensures var s := After(labels); s.caller.Waiting? && s.pump.AboutToPark? ==> Enabled(Apply(s, Park), Wake)
  {
    RunKeepsInv(labels);
  }

  /** The pipe never holds more than the one byte of Deregister, and the pump's read takes it. */
  lemma {:induction false} ReadEmptiesPipe(labels: seq<Label>)
    ensures After(labels).wakeBytes <= 1
    ensures Enabled(After(labels), ReadPipe) ==> Apply(After(labels), ReadPipe).wakeBytes == 0
  {
    RunKeepsInv(labels);
  }

  /** Past its last read of the flag as not set. */
  ghost predicate WillNotPark(s: State) {
    s.stopped && !s.pump.AboutToPark? && !s.pump.Parked?
  }

  /** Once the pump left its wait after the flag was set it never parks again. */
  lemma NeverParksAgain(s: State, l: Label)
    requires Inv(s) && Enabled(s, l)
    ensures WillNotPark(s) ==> WillNotPark(Apply(s, l))
    ensures s.stopped && l.Wake? ==> WillNotPark(Apply(s, l))
  {
  }

  /** What is left to do for the pump, apart from uevents still to come. */
  function Remaining(s: State): nat {
    s.uevents +
    match s.pump
    case AboutToPark => 9
    case Parked => 8
    case Handling(wake, sock) => 2 + (if wake then 1 else 0) + (if sock then 3 else 0)
    case Draining(wake) => 4 + (if wake then 1 else 0)
    case Checking => 1
    case Exited => 0
  }

  function CallerRemaining(s: State): nat {
    match s.caller case Running => 3 case FlagSet => 2 case Waiting => 1 case Returned => 0
  }

  /** Once the flag is set every step but a new uevent brings the end nearer. */
  lemma StepDecreases(s: State, l: Label)
    requires Inv(s) && Enabled(s, l) && s.stopped && !l.Uevent?
    ensures Remaining(Apply(s, l)) + CallerRemaining(Apply(s, l)) < Remaining(s) + CallerRemaining(s)
  {
  }

  /** The steps of labels are all enabled, one after the other. */
  predicate CanRun(s: State, labels: seq<Label>)
    decreases |labels|
  {
    labels == [] || (Enabled(s, labels[0]) && CanRun(Apply(s, labels[0]), labels[1..]))
  }

  predicate IsUevent(l: Label) { l.Uevent? }

  function Uevents(labels: seq<Label>): nat {
    if labels == [] then 0 else (if IsUevent(labels[0]) then 1 else 0) + Uevents(labels[1..])
  }

  /** So the number of steps after the flag is set is bounded by what was left and the uevents that come. */
  lemma {:induction false} WorkIsBounded(s: State, labels: seq<Label>)
    requires Inv(s) && s.stopped && CanRun(s, labels)
    ensures |labels| <= Remaining(s) + CallerRemaining(s) + 2 * Uevents(labels)
    decreases |labels|
  {
    if labels != [] {
      var next := Apply(s, labels[0]);
      StepKeepsInv(s, labels[0]);
      if !IsUevent(labels[0]) { StepDecreases(s, labels[0]); }
      WorkIsBounded(next, labels[1..]);
    }
  }

  /** Until Deregister returns some step other than a new uevent, an interrupt or a failure can be taken. */
  lemma NeverStuck(s: State)
    requires Inv(s) && s.stopped && !s.caller.Returned?
    ensures exists l :: Enabled(s, l) && !l.Uevent? && !l.Interrupted? && !l.WaitFails? && !l.ReceiveFails?
  {
    if s.caller.FlagSet? {
      assert Enabled(s, WritePipe);
    } else {
      assert Enabled(s, match s.pump
                        case Checking => Check
                        case AboutToPark => Park
                        case Parked => Wake
                        case Handling(wake, sock) => if wake then ReadPipe else if sock then StartDrain else NextRound
                        case Draining(_) => if s.uevents > 0 then Receive else DrainEnds
                        case Exited => SeeDone);
    }
  }

  /** Deregister returns: from any reachable state after the flag is set, in at most as many steps as remain. */
  lemma {:induction false} DeregisterReturns(s: State) returns (labels: seq<Label>)
    requires Inv(s) && s.stopped
    ensures CanRun(s, labels) && Finish(s, labels).caller.Returned?
    ensures |labels| <= Remaining(s) + CallerRemaining(s)
    decreases Remaining(s) + CallerRemaining(s)
  {
    if s.caller.Returned? {
      labels := [];
    } else {
      NeverStuck(s);
      var l :| Enabled(s, l) && !l.Uevent? && !l.Interrupted? && !l.WaitFails? && !l.ReceiveFails?;
      StepKeepsInv(s, l);
      StepDecreases(s, l);
      var rest := DeregisterReturns(Apply(s, l));
      labels := [l] + rest;
    }
  }

  function Finish(s: State, labels: seq<Label>): State
    requires CanRun(s, labels)
    decreases |labels|
  {
    if labels == [] then s else Finish(Apply(s, labels[0]), labels[1..])
  }

  // ---------------------------------------------------------------- no uevent is left behind

  /** In this round uevents are still to be received. */
  predicate Owes(p: Pump) { p.Draining? || (p.Handling? && p.sock) }

  /** At some point of the way the socket is empty. */
  predicate EmptyOnTheWay(s: State, labels: seq<Label>)
    requires CanRun(s, labels)
    decreases |labels|
  {
    s.uevents == 0 || (labels != [] && EmptyOnTheWay(Apply(s, labels[0]), labels[1..]))
  }

  lemma {:induction false} ExitedStays(s: State, labels: seq<Label>)
    requires CanRun(s, labels) && s.pump.Exited?
    ensures Finish(s, labels).pump.Exited?
    decreases |labels|
  {
    if labels != [] { ExitedStays(Apply(s, labels[0]), labels[1..]); }
  }

  lemma {:induction false} OwingRoundEmpties(s: State, labels: seq<Label>)
    requires CanRun(s, labels) && Owes(s.pump) && Finish(s, labels).pump.Checking?
    ensures EmptyOnTheWay(s, labels)
    decreases |labels|
  {
    var next := Apply(s, labels[0]);
    if next.pump.Exited? {
      ExitedStays(next, labels[1..]);
    } else if Owes(next.pump) {
      OwingRoundEmpties(next, labels[1..]);
    }
  }

  /** A pump that wakes with uevents on the socket looks at the flag again only after the socket was empty. */
  lemma {:induction false} RoundEmptiesSocket(s: State, labels: seq<Label>)
    requires Enabled(s, Wake) && s.uevents > 0
    requires CanRun(Apply(s, Wake), labels) && Finish(Apply(s, Wake), labels).pump.Checking?
    ensures EmptyOnTheWay(Apply(s, Wake), labels)
  {
    OwingRoundEmpties(Apply(s, Wake), labels);
  }
}
