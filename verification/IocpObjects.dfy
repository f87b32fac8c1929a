/**
 The two objects the Windows protocol runs on. Each method is one critical section, and its
 contract is the change that the same section makes in the step relation of IocpProtocol.
 */
module IocpObjects {
  import opened Core
  import opened IocpProtocol

  const ERR_TIMEOUT := 1

  datatype TransferStatus = TransferCompleted | TransferTimedOut | TransferError

  datatype SubmitError = AlreadyInFlight | DeviceNotFound

  class AsyncTransfer {
    const id: Tid
    const overlapped: Address  // the address of the OVERLAPPED field, fixed for the object's life
    var submitted: bool
    var done: bool
    var xferred: int
    var lastErr: Option<int>

    constructor (id: Tid, overlapped: Address)
      ensures this.id == id && this.overlapped == overlapped
      ensures View(Idle) == Transfer(overlapped, false, false, 0, None, Idle)
    {
      this.id := id;
      this.overlapped := overlapped;
      submitted, done, xferred, lastErr := false, false, 0, None;
    }

    /** The transfer as the step relation sees it, while its Submit is at pc. */
    ghost function View(pc: SubmitPc): Transfer
      reads this
    {
      Transfer(overlapped, submitted, done, xferred, lastErr, pc)
    }

    /** The first critical section of Submit. */
    method BeginSubmit(handle: DeviceHandle) returns (r: Option<SubmitError>)
      modifies this
      ensures old(View(Idle)).InFlight() ==> r == Some(AlreadyInFlight)
      ensures !old(View(Idle)).InFlight() && handle.closed ==> r == Some(DeviceNotFound)
      ensures r.Some? ==> View(Idle) == old(View(Idle))
      ensures r.None? ==> !old(View(Idle)).InFlight() && !handle.closed
      ensures r.None? ==> View(Marked) == old(View(Idle)).MarkSubmitted().(pc := Marked)
      ensures r.None? ==> submitted && !done && xferred == 0 && lastErr == None
    {
      if submitted && !done {
        return Some(AlreadyInFlight);
      }
      if handle.closed {
        return Some(DeviceNotFound);
      }
      submitted, done, xferred, lastErr := true, false, 0, None;
      return None;
    }

    /** The last critical section of a Submit that failed. */
    method AbortSubmit()
      modifies this
      ensures View(Idle) == old(View(Idle)).ClearSubmitted()
      ensures !submitted && done == old(done) && xferred == old(xferred) && lastErr == old(lastErr)
    {
      submitted := false;
    }

    /** What the pump does with a completion, under the transfer's lock. */
    method Complete(qty: nat, err: Option<int>)
      modifies this
      ensures View(Idle) == old(View(Idle)).Complete(qty, err)
      ensures xferred == qty && lastErr == err && done && !submitted
    {
      xferred := qty;
      lastErr := err;
      done := true;
      submitted := false;
    }

    /** The outcome Status returns once its wait on done is over. */
    method Status() returns (r: TransferStatus)
      requires done
      ensures r == TransferCompleted <==> lastErr.None?
      ensures r == TransferTimedOut <==> lastErr == Some(ERR_TIMEOUT)
    {
      if lastErr == Some(ERR_TIMEOUT) {
        return TransferTimedOut;
      }
      if lastErr.Some? {
        return TransferError;
      }
      return TransferCompleted;
    }
  }

  /** What one wait of the pump returns. */
  datatype Dequeued =
    | TimedOut
    | NoOverlapped  // a nil packet, or a failure of the wait itself
    | Completion(overlapped: Address, qty: nat, err: Option<int>)

  /** One round of the pump's loop: the clock at its head, what the wait returns, the clock after the wait. */
  datatype Round = Round(before: nat, result: Dequeued, after: nat)

  datatype PumpEnd = StillRunning | NothingPending | DrainDeadline

  predicate Completes(round: Round, a: Address) {
    round.result.Completion? && round.result.overlapped == a
  }

  /** Round i gives d, a completion of the operation at a, and no earlier one completes it. */
  ghost predicate CompletesFirst(rounds: seq<Round>, a: Address, d: Dequeued, i: int) {
    && 0 <= i < |rounds| && Completes(rounds[i], a) && rounds[i].result == d
    && forall j :: 0 <= j < i ==> !Completes(rounds[j], a)
  }

  /** The first completion of the operation at address a. */
  function FirstCompletion(rounds: seq<Round>, a: Address): (r: Option<Dequeued>)
    ensures r.Some? ==> r.value.Completion? && r.value.overlapped == a
  {
    if rounds == [] then None
    else
      var earlier, last := FirstCompletion(rounds[..|rounds| - 1], a), rounds[|rounds| - 1].result;
      if earlier.Some? then earlier
      else if Completes(rounds[|rounds| - 1], a) then Some(last)
      else None
  }

  /** The first completion is the one in the earliest round that completes the operation. */
  lemma {:induction false} FirstCompletionIff(rounds: seq<Round>, a: Address, d: Dequeued)
    ensures FirstCompletion(rounds, a) == Some(d) <==> exists i :: CompletesFirst(rounds, a, d, i)
    ensures FirstCompletion(rounds, a).None? <==> forall i :: 0 <= i < |rounds| ==> !Completes(rounds[i], a)
  {
    if rounds != [] {
      var front, last := rounds[..|rounds| - 1], |rounds| - 1;
      FirstCompletionIff(front, a, d);
      assert forall i :: 0 <= i < last ==> front[i] == rounds[i];
      if i :| CompletesFirst(front, a, d, i) { assert CompletesFirst(rounds, a, d, i); }
      if i :| CompletesFirst(rounds, a, d, i) { assert i < last ==> CompletesFirst(front, a, d, i); }
      if FirstCompletion(front, a).None? && Completes(rounds[last], a) {
        assert CompletesFirst(rounds, a, rounds[last].result, last);
      }
    }
  }

  /** told after a round: a completion counts for an operation registered and not told of one. */
  function TellNext(registered: set<Address>, told: map<Address, Dequeued>, d: Dequeued): map<Address, Dequeued> {
    if d.Completion? && d.overlapped in registered && d.overlapped !in told then told[d.overlapped := d] else told
  }

  /** What the operation at a was told, if anything. */
  function Outcome(told: map<Address, Dequeued>, a: Address): Option<Dequeued> {
    if a in told then Some(told[a]) else None
  }

  /** A transfer that was like view, after it was told of d. */
  function After(view: Transfer, d: Option<Dequeued>): Transfer {
    if d.Some? && d.value.Completion? then view.Complete(d.value.qty, d.value.err) else view
  }

  lemma OutcomeNext(registered: set<Address>, told: map<Address, Dequeued>, d: Dequeued, a: Address)
    requires a in registered && d.Completion?
    ensures Outcome(TellNext(registered, told, d), a) ==
            if a == d.overlapped && a !in told then Some(d) else Outcome(told, a)
  {
  }

  function Tell(registered: set<Address>, rounds: seq<Round>): map<Address, Dequeued> {
    if rounds == [] then map[]
    else TellNext(registered, Tell(registered, rounds[..|rounds| - 1]), rounds[|rounds| - 1].result)
  }

  /** Each registered operation is told its first completion, if it has one, and no other. */
  lemma {:induction false} TellIsFirst(registered: set<Address>, rounds: seq<Round>)
    ensures var told := Tell(registered, rounds);
      && (forall a :: a in told <==> a in registered && FirstCompletion(rounds, a).Some?)
      && (forall a :: a in told ==> Some(told[a]) == FirstCompletion(rounds, a))
  {
    if rounds != [] { TellIsFirst(registered, rounds[..|rounds| - 1]); }
  }

  lemma {:induction false} TellMore(registered: set<Address>, rounds: seq<Round>, k: nat)
    requires k < |rounds|
    ensures Tell(registered, rounds[..k + 1]) ==
            TellNext(registered, Tell(registered, rounds[..k]), rounds[k].result)
  {
    assert rounds[..k + 1][..k] == rounds[..k];
  }

  /** If the pump drains, the window began at the given round, at a nil packet. */
  ghost predicate DrainsSince(draining: bool, deadline: nat, rounds: seq<Round>, used: nat, began: nat) {
    draining ==>
      && began < used <= |rounds| && !rounds[began].result.Completion?
      && deadline == rounds[began].after + DRAIN_TIMEOUT
  }

  /** Draining began at round k and its window is over after used rounds. */
  ghost predicate WindowOver(rounds: seq<Round>, k: nat, used: nat) {
    && k < used <= |rounds| && !rounds[k].result.Completion?
    && ((k < used - 1 && rounds[used - 1].result.TimedOut?)
        || (used < |rounds| && rounds[k].after + DRAIN_TIMEOUT <= rounds[used].before))
  }

  /** Maps with the same keys have the same size. */
  lemma SameSize<S, T>(m: map<Address, S>, n: map<Address, T>)
    requires m.Keys == n.Keys
    ensures |m| == |n|
  {
    assert |m| == |m.Keys| && |n| == |n.Keys|;
  }

  class DeviceHandle {
    var closed: bool
    var iocpRunning: bool
    var iocpPending: map<Address, AsyncTransfer>

    constructor ()
      ensures Valid() && View() == Handle(false, false, map[])
    {
      closed, iocpRunning, iocpPending := false, false, map[];
    }

    /** Every entry's key is its transfer's own OVERLAPPED. */
    ghost predicate Valid()
      reads this
    {
      forall a :: a in iocpPending ==> iocpPending[a].overlapped == a
    }

    ghost function View(): Handle
      reads this
    {
      Handle(closed, iocpRunning, map a | a in iocpPending :: iocpPending[a].id)
    }

    /** portCreated tells whether CreateIoCompletionPort succeeds, if this call needs it. */
    method RegisterAsyncCompletion(t: AsyncTransfer, portCreated: bool) returns (ok: bool, startsPump: bool)
      requires Valid()
      modifies this
      ensures Valid()
      ensures ok == (old(iocpRunning) || portCreated)
      ensures startsPump == (ok && !old(iocpRunning))
      ensures View() == if ok then old(View()).Register(t.overlapped, t.id) else old(View())
    {
      startsPump := false;
      if !iocpRunning {
        if !portCreated {
          return false, false;
        }
        iocpPending := map[];
        iocpRunning := true;
        startsPump := true;
      }
      iocpPending := iocpPending[t.overlapped := t];
      ok := true;
    }

    method UnregisterAsyncCompletion(overlapped: Address)
      requires Valid()
      modifies this
      ensures Valid() && View() == old(View()).Remove(overlapped)
      ensures iocpPending == old(iocpPending) - {overlapped}
    {
      iocpPending := iocpPending - {overlapped};
    }

    /** The pump's lookup: the transfer registered under overlapped, removed, and how many are left. */
    method TakePending(overlapped: Address) returns (t: AsyncTransfer?, left: nat)
      requires Valid()
      modifies this
      ensures Valid() && View() == old(View()).Remove(overlapped)
      ensures left == |View().pending| == |iocpPending| && iocpPending == old(iocpPending) - {overlapped}
      ensures t == null <==> old(View()).Lookup(overlapped).None?
      ensures t != null ==> old(View()).Lookup(overlapped) == Some(t.id) && t.overlapped == overlapped
      ensures t != null ==> t == old(iocpPending)[overlapped]
    {
      t := null;
      if overlapped in iocpPending {
        t := iocpPending[overlapped];
        UnregisterAsyncCompletion(overlapped);
      } else {
        assert iocpPending - {overlapped} == iocpPending;
      }
      left := |iocpPending|;
      SameSize(iocpPending, View().pending);
    }

    /** The transfers registered. */
    ghost function Waiting(): set<AsyncTransfer>
      reads this
    {
      iocpPending.Values
    }

    /** One completion off the port: its transfer, if registered, is removed and notified. */
    method Dispatch(overlapped: Address, qty: nat, err: Option<int>) returns (left: nat)
      requires Valid()
      modifies this, if overlapped in iocpPending then {iocpPending[overlapped]} else {}
      ensures Valid() && closed == old(closed) && iocpRunning == old(iocpRunning)
      ensures iocpPending == old(iocpPending) - {overlapped} && left == |iocpPending|
      ensures overlapped in old(iocpPending) ==>
        var t := old(iocpPending)[overlapped];
        && t.View(Idle) == old(t.View(Idle)).Complete(qty, err)
        && t.xferred == qty && t.lastErr == err && t.done && !t.submitted
    {
      var t;
      t, left := TakePending(overlapped);
      if t != null {
        t.Complete(qty, err);
      }
    }

    /** What the pump does when its wait returned no OVERLAPPED. */
    method HandleNil(pump: Pump, round: Round) returns (end: PumpEnd)
      modifies pump
      ensures end == if old(pump.draining) && round.result.TimedOut? then DrainDeadline
                     else if closed && iocpPending == map[] then NothingPending
                     else StillRunning
      ensures pump.draining == (old(pump.draining) || (closed && iocpPending != map[]))
      ensures pump.draining ==>
        pump.drainDeadline == if old(pump.draining) then old(pump.drainDeadline) else round.after + DRAIN_TIMEOUT
    {
      if pump.draining && round.result.TimedOut? {
        return DrainDeadline;
      }
      if closed {
        var exit := pump.OnClosed(|iocpPending|, round.after);
        if exit {
          return NothingPending;
        }
      }
      end := StillRunning;
    }

    /** The transfers registered, and what each was like. */
    ghost function Views(): map<Address, Transfer>
      reads this, Waiting()
    {
      map a | a in iocpPending :: iocpPending[a].View(Idle)
    }

    /**
     Of the transfers first registered and then like views, those in told were told that completion,
     and the others are still registered and as they were.
     */
    ghost predicate Served(first: map<Address, AsyncTransfer>, views: map<Address, Transfer>,
                           told: map<Address, Dequeued>)
      reads this, first.Values
    {
      && views.Keys == first.Keys && told.Keys <= first.Keys && iocpPending.Keys <= first.Keys
      && forall a :: a in first ==> ServedAt(first[a], a, views[a], Outcome(told, a))
    }

    /** t, first registered at a, was told of d, or is still registered. */
    ghost predicate ServedAt(t: AsyncTransfer, a: Address, view: Transfer, d: Option<Dequeued>)
      reads this, t
    {
      && t.overlapped == a && t.View(Idle) == After(view, d)
      && (a in iocpPending <==> d.None?) && (d.None? ==> iocpPending[a] == t)
    }

    /** Dispatches a completion that the pump dequeued. */
    method Serve(c: Dequeued, ghost first: map<Address, AsyncTransfer>, ghost views: map<Address, Transfer>,
                 ghost told: map<Address, Dequeued>)
      returns (left: nat)
      requires Valid() && c.Completion? && Served(first, views, told)
      modifies this, first.Values
      ensures Valid() && closed == old(closed) && iocpRunning == old(iocpRunning) && left == |iocpPending|
      ensures Served(first, views, TellNext(first.Keys, told, c))
    {
      ghost var o := c.overlapped;
      assert o in first ==> ServedAt(first[o], o, views[o], Outcome(told, o));
      assert o in iocpPending ==> o in first && o !in told && iocpPending[o] == first[o];
      left := Dispatch(c.overlapped, c.qty, c.err);
      forall a | a in first ensures ServedAt(first[a], a, views[a], Outcome(TellNext(first.Keys, told, c), a)) {
        assert old(ServedAt(first[a], a, views[a], Outcome(told, a)));
        OutcomeNext(first.Keys, told, c, a);
      }
    }

    /** The part of a round after a completion was dequeued. */
    method CompletionRound(pump: Pump, c: Dequeued, ghost first: map<Address, AsyncTransfer>,
                           ghost views: map<Address, Transfer>, ghost told: map<Address, Dequeued>)
      returns (end: PumpEnd)
      requires Valid() && c.Completion? && Served(first, views, told) && (pump.draining ==> closed)
      modifies this, first.Values
      ensures Valid() && closed == old(closed) && iocpRunning == old(iocpRunning)
      ensures end == NothingPending ==> closed && iocpPending == map[]
      ensures end != DrainDeadline && Served(first, views, TellNext(first.Keys, told, c))
    {
      var left := Serve(c, first, views, told);
      var exit := pump.AfterDispatch(this, left);
      end := if exit then NothingPending else StillRunning;
    }

    /** One round after the wait. */
    method OneRound(pump: Pump, round: Round, ghost first: map<Address, AsyncTransfer>,
                    ghost views: map<Address, Transfer>, ghost told: map<Address, Dequeued>)
      returns (end: PumpEnd)
      requires Valid() && Served(first, views, told) && (pump.draining ==> closed)
      modifies this, pump, first.Values
      ensures Valid() && closed == old(closed) && iocpRunning == old(iocpRunning) && (pump.draining ==> closed)
      ensures end == NothingPending ==> closed && iocpPending == map[]
      ensures end == DrainDeadline ==> old(pump.draining) && round.result.TimedOut?
      ensures old(pump.draining) ==> pump.draining && pump.drainDeadline == old(pump.drainDeadline)
      ensures pump.draining && !old(pump.draining) ==>
        !round.result.Completion? && pump.drainDeadline == round.after + DRAIN_TIMEOUT
      ensures Served(first, views, TellNext(first.Keys, told, round.result))
    {
      if round.result.Completion? {
        end := CompletionRound(pump, round.result, first, views, told);
      } else {
        end := HandleNil(pump, round);
      }
    }

    /**
     iocpPump's loop on its own, through the given rounds and with nobody registering in between.
     Each registered transfer is told the first completion of its own operation, once; the others
     stay registered and untouched. It ends with nothing pending on a closed handle, or when the
     drain window that began at some nil packet is over.
     */
    method IocpPump(rounds: seq<Round>) returns (end: PumpEnd, used: nat)
      requires Valid()
      modifies this, Waiting()
      ensures Valid() && used <= |rounds| && closed == old(closed) && iocpRunning == old(iocpRunning)
      ensures end == StillRunning ==> used == |rounds|
      ensures end == NothingPending ==> closed && iocpPending == map[]
      ensures end == DrainDeadline ==> closed && exists k :: 0 <= k < used && WindowOver(rounds, k, used)
      ensures Served(old(iocpPending), old(Views()), Tell(old(iocpPending).Keys, rounds[..used]))
    {
      var pump := new Pump();
      ghost var first, views := iocpPending, Views();
      ghost var began: nat := 0;
      used := 0;
      while used < |rounds|
        invariant used <= |rounds| && fresh(pump) && (pump.draining ==> closed)
        invariant DrainsSince(pump.draining, pump.drainDeadline, rounds, used, began)
        invariant Valid() && closed == old(closed) && iocpRunning == old(iocpRunning)
        invariant Served(first, views, Tell(first.Keys, rounds[..used]))
      {
        var expired, limit := pump.NextWait(rounds[used].before);
        if expired {
          assert WindowOver(rounds, began, used);
          return DrainDeadline, used;
        }
        began := if pump.draining then began else used;
        TellMore(first.Keys, rounds, used);
        end := OneRound(pump, rounds[used], first, views, Tell(first.Keys, rounds[..used]));
        used := used + 1;
        if end != StillRunning {
          assert end == DrainDeadline ==> WindowOver(rounds, began, used);
          return;
        }
      }
      end := StillRunning;
    }

    /** The first critical section of Close: whether it is the first call, and whether it must join a pump. */
    method BeginClose() returns (first: bool, join: bool)
      modifies this`closed
      ensures first == !old(closed) && join == (first && iocpRunning)
      ensures View() == old(View()).(closed := true)
    {
      if closed {
        return false, false;
      }
      closed := true;
      return true, iocpRunning;
    }
  }

  /** The locals of iocpPump and the decisions it takes between its critical sections. */
  class Pump {
    var draining: bool
    var drainDeadline: nat

    constructor ()
      ensures !draining
    {
      draining, drainDeadline := false, 0;
    }

    /** The head of the loop: give up, or the limit of the wait to come. */
    method NextWait(now: nat) returns (expired: bool, limit: Option<nat>)
      ensures expired <==> draining && drainDeadline <= now
      ensures !expired ==> limit == WaitLimit(draining, drainDeadline, now)
    {
      limit := None;
      if draining {
        if drainDeadline <= now {
          return true, None;
        }
        var timeoutMs := (drainDeadline - now) / MILLISECOND;
        if timeoutMs == 0 {
          timeoutMs := 1;
        }
        limit := Some(now + timeoutMs * MILLISECOND);
      }
      expired := false;
    }

    /** A nil packet on a closed handle: exit when nothing is pending, else drain until a deadline fixed once. */
    method OnClosed(left: nat, now: nat) returns (exit: bool)
      modifies this
      ensures exit <==> left == 0
      ensures exit ==> draining == old(draining) && drainDeadline == old(drainDeadline)
      ensures !exit ==> draining
      ensures !exit ==> drainDeadline == if old(draining) then old(drainDeadline) else now + DRAIN_TIMEOUT
    {
      if left == 0 {
        return true;
      }
      if !draining {
        draining := true;
        drainDeadline := now + DRAIN_TIMEOUT;
      }
      return false;
    }

    /** After a completion was handled: on a handle that only drains once closed, an exit leaves nothing behind. */
    method AfterDispatch(handle: DeviceHandle, left: nat) returns (exit: bool)
      requires left == |handle.iocpPending| && (draining ==> handle.closed)
      ensures exit ==> handle.closed && handle.iocpPending == map[]
      ensures !exit ==> !draining || handle.Waiting() != {}
    {
      exit := draining && left == 0;
      if left > 0 {
        ghost var a :| a in handle.iocpPending;
        assert handle.iocpPending[a] in handle.Waiting();
      }
    }
  }
}
