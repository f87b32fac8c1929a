/** Bracketing of registrations in a trace: each one is closed at most once before the next. */
module IocpTrace {
  import opened Core
  import opened IocpProtocol

  /** The index of t's registration that nothing has closed yet, if there is one. */
  ghost function OpenAt(trace: seq<Event>, t: Tid): (k: Option<nat>)
    ensures k.Some? ==> k.value < |trace| && trace[k.value] == Reg(t)
  {
    if trace == [] then None
    else
      var last := |trace| - 1;
      if trace[last] == Reg(t) then Some(last)
      else if trace[last].About(t) then None
      else OpenAt(trace[..last], t)
  }

  /** Every registration of a transfer is closed before the next, and only registrations are closed. */
  ghost predicate Bracketed(trace: seq<Event>) {
    trace != [] ==>
      var last := |trace| - 1;
      && Bracketed(trace[..last])
      && MayFollow(trace[..last], trace[last])
  }

  ghost predicate MayFollow(trace: seq<Event>, e: Event) {
    && (e.Reg? ==> OpenAt(trace, e.t).None?)
    && (e.Disp? || e.Unreg? ==> OpenAt(trace, e.t).Some?)
  }

  lemma {:induction false} OpenAtAppend(trace: seq<Event>, e: Event, t: Tid)
    ensures OpenAt(trace + [e], t) ==
            if e == Reg(t) then Some(|trace|) else if e.About(t) then None else OpenAt(trace, t)
  {
    assert (trace + [e])[..|trace|] == trace;
  }

  lemma {:induction false} BracketedAppend(trace: seq<Event>, e: Event)
    requires Bracketed(trace)
    requires MayFollow(trace, e)
    ensures Bracketed(trace + [e])
  {
    assert (trace + [e])[..|trace|] == trace;
  }

  /** Event j is the first one about t after its registration at i, and it ends that registration. */
  ghost predicate ClosedBy(trace: seq<Event>, t: Tid, i: nat, j: nat) {
    && i < j < |trace|
    && trace[i] == Reg(t)
    && (trace[j] == Disp(t) || trace[j] == Unreg(t))
    && forall k :: i < k < j ==> !trace[k].About(t)
  }

  lemma {:induction false} NothingAfterOpen(trace: seq<Event>, t: Tid)
    requires OpenAt(trace, t).Some?
    ensures forall k :: OpenAt(trace, t).value < k < |trace| ==> !trace[k].About(t)
  {
    var last := |trace| - 1;
    if trace[last] != Reg(t) {
      NothingAfterOpen(trace[..last], t);
      forall k | OpenAt(trace, t).value < k < |trace| ensures !trace[k].About(t) {
        if k < last { assert trace[k] == trace[..last][k]; }
      }
    }
  }

  /** In a bracketed trace a registration that is not the open one has exactly one ending. */
  lemma {:induction false} RegistrationIsClosed(trace: seq<Event>, t: Tid, i: nat) returns (j: nat)
    requires Bracketed(trace)
    requires i < |trace| && trace[i] == Reg(t)
    requires OpenAt(trace, t) != Some(i)
    ensures ClosedBy(trace, t, i, j)
  {
    var last := |trace| - 1;
    var front := trace[..last];
    assert i != last;
    assert front[i] == trace[i];
    if OpenAt(front, t) == Some(i) {
      NothingAfterOpen(front, t);
      assert forall k :: i < k < last ==> !front[k].About(t);
      assert forall k :: i < k < last ==> trace[k] == front[k];
      j := last;
    } else {
      j := RegistrationIsClosed(front, t, i);
      assert trace[j] == front[j];
      assert forall k :: i < k < j ==> trace[k] == front[k];
    }
  }
}
