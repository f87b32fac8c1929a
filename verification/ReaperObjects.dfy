/**
 The objects behind ReaperProtocol: the transfer with its completion callback, and the handle
 with its reap map. Each method is one critical section, or one of the loops over them taken
 on its own with the kernel's answers given.
 */
module ReaperObjects {
  import opened Core
  import opened ReaperProtocol

  const ERR_REAPER_FAILED := 2
  const ERR_URB_STATUS := 3

  class AsyncTransfer {
    const id: Tid
    const urb: Address
    var submitted: bool
    var reaped: bool
    var reapErr: Option<int>
    var actualLength: int

    constructor (id: Tid, urb: Address)
      ensures this.id == id && this.urb == urb && View(Idle) == Transfer(urb, false, false, Idle)
    {
      this.id, this.urb := id, urb;
      submitted, reaped, reapErr, actualLength := false, false, None, 0;
    }

    /** The transfer as the step relation sees it, while its Submit is at pc. */
    ghost function View(pc: SubmitPc): Transfer
      reads this
    {
      Transfer(urb, submitted, reaped, pc)
    }

    ghost function Seen(): Look
      reads this
    {
      Look(View(Idle), reapErr, actualLength)
    }

    method MarkSubmitted()
      modifies this
      ensures View(InKernel) == old(View(Entered)).MarkSubmitted().(pc := InKernel)
      ensures submitted && !reaped && reapErr == old(reapErr) && actualLength == old(actualLength)
    {
      submitted, reaped := true, false;
    }

    /** The callback Submit registers; length is what the kernel left in the URB. */
    method Callback(err: Option<int>, length: int)
      modifies this
      ensures View(Idle) == old(View(Idle)).Notify() && reapErr == err && !submitted && reaped
      ensures actualLength == if err.None? then length else old(actualLength)
    {
      reapErr := err;
      if err.None? {
        actualLength := length;
      }
      submitted := false;
      reaped := true;
    }
  }

  /** What one USBDEVFS_REAPURBNDELAY call returns. */
  datatype ReapResult =
    | Again
    | Interrupted
    | Fatal
    | Urb(urb: Address, status: int, length: int)

  /** The error a reaped URB's callback is given. */
  function StatusError(status: int): Option<int> {
    if status == 0 then None else Some(ERR_URB_STATUS)
  }

  predicate Stops(r: ReapResult) { r.Again? || r.Fatal? }

  /** How many calls return before the one that stops the reaping, if any does. */
  function StopAt(results: seq<ReapResult>): (n: nat)
    ensures n <= |results| && forall i :: 0 <= i < n ==> !Stops(results[i])
    ensures n < |results| ==> Stops(results[n])
  {
    if results == [] || Stops(results[0]) then 0 else 1 + StopAt(results[1..])
  }

  /** The first answer for URB a. */
  function FirstUrb(results: seq<ReapResult>, a: Address): (r: Option<ReapResult>)
    ensures r.Some? ==> r.value.Urb? && r.value.urb == a
  {
    if results == [] then None
    else
      var earlier, last := FirstUrb(results[..|results| - 1], a), results[|results| - 1];
      if earlier.Some? then earlier else if Answers(last, a) then Some(last) else None
  }

  predicate Answers(r: ReapResult, a: Address) { r.Urb? && r.urb == a }

  /** Answer i is r, about URB a, and no earlier one is. */
  ghost predicate AnswersFirst(results: seq<ReapResult>, a: Address, r: ReapResult, i: int) {
    && 0 <= i < |results| && Answers(results[i], a) && results[i] == r
    && forall j :: 0 <= j < i ==> !Answers(results[j], a)
  }

  /** The first answer for a URB is the earliest one about it. */
  lemma {:induction false} FirstUrbIff(results: seq<ReapResult>, a: Address, r: ReapResult)
    ensures FirstUrb(results, a) == Some(r) <==> exists i :: AnswersFirst(results, a, r, i)
    ensures FirstUrb(results, a).None? <==> forall i :: 0 <= i < |results| ==> !Answers(results[i], a)
  {
    if results != [] {
      var front, last := results[..|results| - 1], |results| - 1;
      FirstUrbIff(front, a, r);
      assert forall i :: 0 <= i < last ==> front[i] == results[i];
      if i :| AnswersFirst(front, a, r, i) { assert AnswersFirst(results, a, r, i); }
      if i :| AnswersFirst(results, a, r, i) { assert i < last ==> AnswersFirst(front, a, r, i); }
      if FirstUrb(front, a).None? && Answers(results[last], a) {
        assert AnswersFirst(results, a, results[last], last);
      }
    }
  }

  lemma {:induction false} FirstUrbNext(results: seq<ReapResult>, k: nat, a: Address)
    requires k < |results|
    ensures FirstUrb(results[..k + 1], a) == FirstOf(FirstUrb(results[..k], a), results[k], a)
  {
    assert results[..k + 1][..k] == results[..k];
  }

  function FirstOf(earlier: Option<ReapResult>, r: ReapResult, a: Address): Option<ReapResult> {
    if earlier.Some? then earlier else if Answers(r, a) then Some(r) else None
  }

  /** The first answer for URB a before the calls stop, if there is one. */
  function FirstFor(results: seq<ReapResult>, a: Address): Option<ReapResult> {
    FirstUrb(results[..StopAt(results)], a)
  }

  /** Whether the calls stop with an error no retry helps. */
  predicate EndsFatally(results: seq<ReapResult>) {
    StopAt(results) < |results| && results[StopAt(results)].Fatal?
  }

  /** What a transfer looks like from outside. */
  datatype Look = Look(view: Transfer, err: Option<int>, length: int)

  /** A transfer's look after its URB was reaped. */
  function Told(was: Look, status: int, length: int): Look {
    Look(was.view.Notify(), StatusError(status), if status == 0 then length else was.length)
  }

  class DeviceHandle {
    var closed: bool
    var reapMap: Option<map<Address, AsyncTransfer>>
    var reaping: bool
    var reapDone: ReapDone

    constructor ()
      ensures !closed && reapMap == Some(map[]) && !reaping && reapDone == NoLoop
    {
      closed, reapMap, reaping, reapDone := false, Some(map[]), false, NoLoop;
    }

    /** Every entry's key is its transfer's own URB. */
    ghost predicate Valid()
      reads this
    {
      reapMap.Some? ==> forall a :: a in reapMap.value ==> reapMap.value[a].urb == a
    }

    /** The transfers whose callbacks are registered. */
    ghost function Waiting(): set<AsyncTransfer>
      reads this
    {
      if reapMap.Some? then reapMap.value.Values else {}
    }

    method RegisterURBCompletion(t: AsyncTransfer, pipeCreated: bool) returns (ok: bool, startsLoop: bool)
      requires Valid() && reapMap.Some?
      modifies this
      ensures Valid() && closed == old(closed)
      ensures ok == (old(reaping) || pipeCreated) && startsLoop == (ok && !old(reaping))
      ensures ok ==> reapMap == Some(old(reapMap.value)[t.urb := t]) && reaping
      ensures !ok ==> reapMap == old(reapMap) && !reaping
      ensures reapDone == if startsLoop then Open else old(reapDone)
    {
      startsLoop := false;
      if !reaping {
        if !pipeCreated {
          return false, false;
        }
        reaping, reapDone, startsLoop := true, Open, true;
      }
      reapMap := Some(reapMap.value[t.urb := t]);
      ok := true;
    }

    /** The loop's lookup of a reaped URB: its transfer, taken out of the map. */
    method TakeReaped(urb: Address) returns (t: AsyncTransfer?)
      requires Valid() && reapMap.Some?
      modifies this`reapMap
      ensures Valid() && reapMap == Some(old(reapMap.value) - {urb})
      ensures t == null <==> urb !in old(reapMap.value)
      ensures t != null ==> t == old(reapMap.value)[urb] && t.urb == urb
    {
      t := null;
      if urb in reapMap.value {
        t := reapMap.value[urb];
        reapMap := Some(reapMap.value - {urb});
      } else {
        assert reapMap.value - {urb} == reapMap.value;
      }
    }

    /**
     Calls every registered callback with err and stops reaping: on shutdown the map becomes nil,
     on a failure it is replaced by an empty one.
     */
    method FireAll(err: int, shutdown: bool)
      requires Valid() && reapMap.Some?
      modifies this, Waiting()
      ensures Valid() && !reaping && reapDone == Signalled && closed == old(closed)
      ensures reapMap == if shutdown then None else Some(map[])
      ensures forall a :: a in old(reapMap.value) ==>
        var t := old(reapMap.value)[a];
        && t.View(Idle) == old(t.View(Idle)).Notify() && !t.submitted && t.reaped
        && t.reapErr == Some(err) && t.actualLength == old(t.actualLength)
    {
      var callbacks := reapMap.value;
      var left := callbacks.Keys;
      while left != {}
        invariant left <= callbacks.Keys
        invariant reapMap == Some(callbacks) && closed == old(closed) && callbacks == old(reapMap.value)
        invariant forall a :: a in callbacks ==> callbacks[a].urb == a
        invariant forall a :: a in left ==>
          && callbacks[a].View(Idle) == old(callbacks[a].View(Idle))
          && callbacks[a].actualLength == old(callbacks[a].actualLength)
        invariant forall a :: a in callbacks && a !in left ==>
          && callbacks[a].View(Idle) == old(callbacks[a].View(Idle)).Notify()
          && callbacks[a].reapErr == Some(err)
          && callbacks[a].actualLength == old(callbacks[a].actualLength)
        decreases left
      {
        var a :| a in left;
        callbacks[a].Callback(Some(err), 0);
        left := left - {a};
      }
      reapMap := if shutdown then None else Some(map[]);
      reaping, reapDone := false, Signalled;
    }

    /** What the loop does with one reaped URB. A URB without an entry is skipped. */
    method NotifyReaped(urb: Address, status: int, length: int)
      requires Valid() && reapMap.Some?
      modifies this`reapMap, if urb in reapMap.value then {reapMap.value[urb]} else {}
      ensures Valid() && reapMap == Some(old(reapMap.value) - {urb})
      ensures urb in old(reapMap.value) ==>
        var t := old(reapMap.value)[urb];
        && t.Seen() == Told(old(t.Seen()), status, length)
        && !t.submitted && t.reaped && (t.reapErr == None <==> status == 0)
        && t.actualLength == if status == 0 then length else old(t.actualLength)
    {
      var t := TakeReaped(urb);
      if t != null {
        t.Callback(StatusError(status), length);
      }
    }

    /** What each registered transfer looks like. */
    ghost function Looks(): map<Address, Look>
      requires reapMap.Some?
      reads this, Waiting()
    {
      map a | a in reapMap.value :: reapMap.value[a].Seen()
    }

    /** t, first registered at a, was told r, or is still registered and as it was. */
    ghost predicate ReapedAt(t: AsyncTransfer, a: Address, was: Look, r: Option<ReapResult>)
      reads this, t
    {
      && t.urb == a && reapMap.Some?
      && match r
         case Some(c) => a !in reapMap.value && c.Urb? && t.Seen() == Told(was, c.status, c.length)
         case None => a in reapMap.value && reapMap.value[a] == t && t.Seen() == was
    }

    /** Each transfer first registered was told its first answer among the results, or was left alone. */
    ghost predicate Reaped(first: map<Address, AsyncTransfer>, looks: map<Address, Look>, results: seq<ReapResult>)
      reads this, first.Values
    {
      && reapMap.Some? && reapMap.value.Keys <= first.Keys == looks.Keys
      && forall a :: a in first ==> ReapedAt(first[a], a, looks[a], FirstUrb(results, a))
    }

    /** One reaped URB more. */
    method ReapOne(results: seq<ReapResult>, k: nat, ghost first: map<Address, AsyncTransfer>,
                   ghost looks: map<Address, Look>)
      requires Valid() && k < |results| && results[k].Urb? && Reaped(first, looks, results[..k])
      modifies this`reapMap, first.Values
      ensures Valid() && Reaped(first, looks, results[..k + 1])
    {
      var r := results[k];
      assert r.urb in first ==> ReapedAt(first[r.urb], r.urb, looks[r.urb], FirstUrb(results[..k], r.urb));
      NotifyReaped(r.urb, r.status, r.length);
      forall a | a in first ensures ReapedAt(first[a], a, looks[a], FirstUrb(results[..k + 1], a)) {
        FirstUrbNext(results, k, a);
        assert old(ReapedAt(first[a], a, looks[a], FirstUrb(results[..k], a)));
      }
    }

    /** One answer that does not end the loop: a URB, or an interrupted call. */
    method TakeAnswer(results: seq<ReapResult>, k: nat, ghost first: map<Address, AsyncTransfer>,
                      ghost looks: map<Address, Look>)
      requires Valid() && k < |results| && !Stops(results[k]) && Reaped(first, looks, results[..k])
      modifies this`reapMap, first.Values
      ensures Valid() && Reaped(first, looks, results[..k + 1])
    {
      if results[k].Urb? {
        ReapOne(results, k, first, looks);
      } else {
        SkipOne(results, k, first, looks);
      }
    }

    /** The loop of drainReapedURBs up to the answer that ends it. */
    method ReapUntilStop(results: seq<ReapResult>) returns (fatal: bool)
      requires Valid() && reapMap.Some?
      modifies this`reapMap, Waiting()
      ensures Valid() && fatal == EndsFatally(results)
      ensures Reaped(old(reapMap.value), old(Looks()), results[..StopAt(results)])
    {
      NoneReaped();
      fatal := ReapLoop(results, reapMap.value, Looks());
    }

    /** The loop itself, for transfers first registered that looked like looks. */
    method ReapLoop(results: seq<ReapResult>, ghost first: map<Address, AsyncTransfer>, ghost looks: map<Address, Look>)
      returns (fatal: bool)
      requires Valid() && Reaped(first, looks, [])
      modifies this`reapMap, first.Values
      ensures Valid() && fatal == EndsFatally(results)
      ensures Reaped(first, looks, results[..StopAt(results)])
    {
      assert results[..0] == [];
      fatal := false;
      var k := 0;
      while k < |results|
        invariant k <= StopAt(results) && !fatal
        invariant Valid() && Reaped(first, looks, results[..k])
      {
        if results[k].Again? {
          break;
        }
        if results[k].Fatal? {
          fatal := true;
          break;
        }
        TakeAnswer(results, k, first, looks);
        k := k + 1;
      }
      assert k == StopAt(results);
    }

    /** Before the first answer nothing is reaped. */
    lemma NoneReaped()
      requires Valid() && reapMap.Some?
      ensures Reaped(reapMap.value, Looks(), [])
    {
    }

    /** An interrupted call reaps nothing. */
    lemma SkipOne(results: seq<ReapResult>, k: nat, first: map<Address, AsyncTransfer>, looks: map<Address, Look>)
      requires k < |results| && !results[k].Urb? && Reaped(first, looks, results[..k])
      ensures Reaped(first, looks, results[..k + 1])
    {
      forall a | a in first ensures ReapedAt(first[a], a, looks[a], FirstUrb(results[..k + 1], a)) {
        FirstUrbNext(results, k, a);
      }
    }

    /**
     drainReapedURBs against the kernel answering with results, in order; running out of answers
     stands for EAGAIN. It returns false exactly when an error stopped reaping. A transfer whose
     URB was reaped is told the URB's own outcome, once; the others are left alone unless reaping
     failed.
     */
    method DrainReapedURBs(results: seq<ReapResult>) returns (alive: bool)
      requires Valid() && reapMap.Some?
      modifies this, Waiting()
      ensures Valid() && reapMap.Some? && alive == !EndsFatally(results)
      ensures alive ==>
        && reapMap.value ==
           (map a | a in old(reapMap.value) && FirstFor(results, a).None? :: old(reapMap.value)[a])
        && reaping == old(reaping) && reapDone == old(reapDone)
      ensures !alive ==> reapMap.value == map[] && !reaping && reapDone == Signalled
      ensures forall a :: a in old(reapMap.value) && FirstFor(results, a).Some? ==>
        var t, r := old(reapMap.value)[a], FirstFor(results, a).value;
        t.Seen() == Told(old(t.Seen()), r.status, r.length)
      ensures forall a :: a in old(reapMap.value) && FirstFor(results, a).None? ==>
        var t := old(reapMap.value)[a];
        if alive then t.Seen() == old(t.Seen())
        else t.View(Idle) == old(t.View(Idle)).Notify() && t.reapErr == Some(ERR_REAPER_FAILED)
             && t.actualLength == old(t.actualLength)
    {
      var fatal := ReapUntilStop(results);
      ghost var left := reapMap.value;
      if fatal {
        FireAll(ERR_REAPER_FAILED, false);
        assert forall a :: a in old(reapMap.value) && FirstFor(results, a).None? ==>
          a in left && left[a] == old(reapMap.value)[a];
      }
      alive := !fatal;
    }

    /** The first critical section of Close: whether it is the first call, and whether it must join a loop. */
    method BeginClose() returns (first: bool, join: bool)
      modifies this`closed
      ensures closed && first == !old(closed) && join == (first && reapDone != NoLoop)
    {
      if closed {
        return false, false;
      }
      closed := true;
      return true, reapDone != NoLoop;
    }
  }
}
