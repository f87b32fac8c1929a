/**
 The bounded queue of HID input reports: the operating system's callback puts reports in and drops
 the oldest when the queue is full, readers and flushes take them out at any time.
 */
module ReportQueue {
  import opened Core

  type Report = seq<byte>

  const CAPACITY := 32

  // ---------------------------------------------------------------- one operation at a time

  /** Where the callback is: the queue operations are separate steps, and others run in between. */
  datatype Phase =
    | Idle
    | SawFull(report: Report)  // the first attempt found the queue full
    | Retrying(report: Report) // the oldest was dropped, or there was none to drop

  /** How a report left the queue. */
  datatype Departure = Read(report: Report) | Dropped(report: Report) | Flushed(report: Report)

  /** delivered and departed are histories. */
  datatype State = State(queue: seq<Report>, phase: Phase, delivered: seq<Report>, departed: seq<Departure>)

  const BEGIN := State([], Idle, [], [])

  datatype Label =
    | Deliver(report: Report) // the callback starts, and its first attempt succeeds or not
    | DropOldest
    | NothingToDrop
    | Retry
    | GiveUp // the retry finds the queue full again, and the new report is lost
    | ReaderTakes
    | FlushTakes

  predicate Enabled(s: State, l: Label) {
    match l
    case Deliver(_) => s.phase.Idle?
    case DropOldest => s.phase.SawFull? && s.queue != []
    case NothingToDrop => s.phase.SawFull? && s.queue == []
    case Retry => s.phase.Retrying? && |s.queue| < CAPACITY
    case GiveUp => s.phase.Retrying? && |s.queue| >= CAPACITY
    case ReaderTakes => s.queue != []
    case FlushTakes => s.queue != []
  }

  function Apply(s: State, l: Label): State
    requires Enabled(s, l)
  {
    match l
    case Deliver(r) =>
      if |s.queue| < CAPACITY then s.(queue := s.queue + [r], delivered := s.delivered + [r])
      else s.(phase := SawFull(r), delivered := s.delivered + [r])
    case DropOldest =>
      s.(queue := s.queue[1..], phase := Retrying(s.phase.report), departed := s.departed + [Dropped(s.queue[0])])
    case NothingToDrop => s.(phase := Retrying(s.phase.report))
    case Retry => s.(queue := s.queue + [s.phase.report], phase := Idle)
    case GiveUp => s.(phase := Idle)
    case ReaderTakes => s.(queue := s.queue[1..], departed := s.departed + [Read(s.queue[0])])
    case FlushTakes => s.(queue := s.queue[1..], departed := s.departed + [Flushed(s.queue[0])])
  }

  /** labels can be taken from the beginning, one after the other. */
  predicate CanRun(labels: seq<Label>) {
    labels == [] || (CanRun(labels[..|labels| - 1]) && Enabled(After(labels[..|labels| - 1]), labels[|labels| - 1]))
  }

  function After(labels: seq<Label>): State {
    if labels == [] then BEGIN
    else
      var s := After(labels[..|labels| - 1]);
      if Enabled(s, labels[|labels| - 1]) then Apply(s, labels[|labels| - 1]) else s
  }

  // ---------------------------------------------------------------- what every run keeps

  function Reports(ds: seq<Departure>): seq<Report> {
    if ds == [] then [] else Reports(ds[..|ds| - 1]) + [ds[|ds| - 1].report]
  }

  function InHand(p: Phase): seq<Report> {
    if p.Idle? then [] else [p.report]
  }

  /**
   The queue is within its capacity, has room whenever the callback tries again, and every report
   delivered so far has left the queue, is in it or is in the callback's hand, in this order.
   */
  ghost predicate Inv(s: State) {
    && |s.queue| <= CAPACITY
    && (s.phase.Retrying? ==> |s.queue| < CAPACITY)
    && s.delivered == Reports(s.departed) + s.queue + InHand(s.phase)
  }

  lemma Takes(s: State, d: Departure)
    requires s.queue != [] && d.report == s.queue[0]
    ensures Reports(s.departed + [d]) + s.queue[1..] == Reports(s.departed) + s.queue
  {
    assert (s.departed + [d])[..|s.departed|] == s.departed;
  }

  lemma StepKeepsInv(s: State, l: Label)
    requires Inv(s) && Enabled(s, l)
    ensures Inv(Apply(s, l))
  {
    match l
    case Deliver(r) => assert s.delivered + [r] == Reports(s.departed) + (s.queue + [r]);
    case DropOldest => Takes(s, Dropped(s.queue[0]));
    case NothingToDrop =>
    case Retry =>
      assert Reports(s.departed) + s.queue + InHand(s.phase) == Reports(s.departed) + (s.queue + [s.phase.report]) + [];
    case GiveUp => assert false;
    case ReaderTakes => Takes(s, Read(s.queue[0]));
    case FlushTakes => Takes(s, Flushed(s.queue[0]));
  }

  lemma {:induction false} RunKeepsInv(labels: seq<Label>)
    ensures Inv(After(labels))
  {
    if labels != [] {
      var s := After(labels[..|labels| - 1]);
      RunKeepsInv(labels[..|labels| - 1]);
      if Enabled(s, labels[|labels| - 1]) { StepKeepsInv(s, labels[|labels| - 1]); }
    }
  }

  /** However readers and flushes interleave, the report in hand is never given up, and every retry puts it in last. */
  lemma {:induction false} NewestIsNeverLost(labels: seq<Label>)
    ensures !Enabled(After(labels), GiveUp)
    ensures Enabled(After(labels), Retry) ==>
      var q, delivered := Apply(After(labels), Retry).queue, After(labels).delivered;
      |q| <= CAPACITY && delivered != [] && q[|q| - 1] == delivered[|delivered| - 1]
  {
    RunKeepsInv(labels);
  }

  /** A subsequence of b, in order. */
  ghost predicate Subsequence<T>(a: seq<T>, b: seq<T>) {
    a == [] || (b != [] && (Subsequence(a, b[..|b| - 1])
                            || (a[|a| - 1] == b[|b| - 1] && Subsequence(a[..|a| - 1], b[..|b| - 1]))))
  }

  function Reads(ds: seq<Departure>): seq<Report> {
    if ds == [] then []
    else
      var d := ds[|ds| - 1];
      if d.Read? then Reads(ds[..|ds| - 1]) + [d.report] else Reads(ds[..|ds| - 1])
  }

  lemma {:induction false} ReadsAreReports(ds: seq<Departure>)
    ensures Subsequence(Reads(ds), Reports(ds))
  {
    if ds != [] {
      ReadsAreReports(ds[..|ds| - 1]);
      assert Reports(ds)[..|Reports(ds)| - 1] == Reports(ds[..|ds| - 1]);
      if ds[|ds| - 1].Read? {
        assert Reads(ds)[..|Reads(ds)| - 1] == Reads(ds[..|ds| - 1]);
      }
    }
  }

  lemma {:induction false} SubsequenceOfMore(a: seq<Report>, b: seq<Report>, c: seq<Report>)
    requires Subsequence(a, b)
    ensures Subsequence(a, b + c)
  {
    if c == [] {
      assert b + c == b;
    } else {
      SubsequenceOfMore(a, b, c[..|c| - 1]);
      assert (b + c)[..|b + c| - 1] == b + c[..|c| - 1];
    }
  }

  /** Reports are read in the order of their delivery, each at most once. */
  lemma {:induction false} ReadsAreInOrder(labels: seq<Label>)
    ensures Subsequence(Reads(After(labels).departed), After(labels).delivered)
  {
    var s := After(labels);
    RunKeepsInv(labels);
    ReadsAreReports(s.departed);
    SubsequenceOfMore(Reads(s.departed), Reports(s.departed), s.queue + InHand(s.phase));
    assert Reports(s.departed) + (s.queue + InHand(s.phase)) == s.delivered;
  }

  /** Between callbacks the queue holds exactly the latest deliveries that have not left it. */
  lemma {:induction false} QueueIsLatest(labels: seq<Label>)
    requires After(labels).phase.Idle?
    ensures var s := After(labels);
      && |s.delivered| == |s.departed| + |s.queue|
      && s.queue == s.delivered[|s.departed|..]
  {
    var s := After(labels);
    RunKeepsInv(labels);
    ReportsLength(s.departed);
  }

  lemma {:induction false} ReportsLength(ds: seq<Departure>)
    ensures |Reports(ds)| == |ds|
  {
    if ds != [] { ReportsLength(ds[..|ds| - 1]); }
  }

  function Drops(ds: seq<Departure>): nat {
    if ds == [] then 0 else Drops(ds[..|ds| - 1]) + (if ds[|ds| - 1].Dropped? then 1 else 0)
  }

  /** Deliveries that the callback has finished with, or for which it has still to drop. */
  function Undropped(s: State): int {
    |s.delivered| - (if s.phase.SawFull? then 1 else 0)
  }

  /**
   A drop needs a full queue: the first 32 deliveries cost none, and each later one at most one.
   */
  lemma {:induction false} DropsAreBounded(labels: seq<Label>)
    ensures var s := After(labels);
      Drops(s.departed) == 0 || Drops(s.departed) + CAPACITY <= Undropped(s)
  {
    if labels != [] {
      var front, l := labels[..|labels| - 1], labels[|labels| - 1];
      var s := After(front);
      DropsAreBounded(front);
      RunKeepsInv(front);
      ReportsLength(s.departed);
      SawFullMeansEnough(front);
      if Enabled(s, l) && After(labels).departed != s.departed {
        assert After(labels).departed[..|s.departed|] == s.departed;
      }
    }
  }

  lemma {:induction false} SawFullMeansEnough(labels: seq<Label>)
    ensures var s := After(labels); s.phase.SawFull? ==> |s.delivered| > CAPACITY
  {
    if labels != [] {
      var s := After(labels[..|labels| - 1]);
      SawFullMeansEnough(labels[..|labels| - 1]);
      RunKeepsInv(labels[..|labels| - 1]);
    }
  }

  // ---------------------------------------------------------------- a drop that was not needed

  /** How many reports readers and flushes took since the latest delivery. */
  function TakesSinceDelivery(labels: seq<Label>): nat {
    if labels == [] then 0
    else
      var front, l := labels[..|labels| - 1], labels[|labels| - 1];
      if !Enabled(After(front), l) then TakesSinceDelivery(front)
      else if l.Deliver? then 0
      else if l.ReaderTakes? || l.FlushTakes? then TakesSinceDelivery(front) + 1
      else TakesSinceDelivery(front)
  }

  /** Until the callback drops, the queue lacks exactly what was taken since it was seen full. */
  lemma {:induction false} SeenFullLacksTakes(labels: seq<Label>)
    ensures var s := After(labels); s.phase.SawFull? ==> |s.queue| + TakesSinceDelivery(labels) == CAPACITY
  {
    if labels != [] {
      SeenFullLacksTakes(labels[..|labels| - 1]);
      RunKeepsInv(labels[..|labels| - 1]);
    }
  }

  /**
   The callback does not look again before it drops. The drop it is about to make is needless exactly
   when something was taken since it saw the queue full, and it drops nothing at all exactly when all
   32 were taken.
   */
  lemma {:induction false} DropIsNeedlessIff(labels: seq<Label>)
    requires After(labels).phase.SawFull?
    ensures |After(labels).queue| < CAPACITY <==> TakesSinceDelivery(labels) > 0
    ensures Enabled(After(labels), DropOldest) <==> TakesSinceDelivery(labels) < CAPACITY
    ensures Enabled(After(labels), NothingToDrop) <==> TakesSinceDelivery(labels) == CAPACITY
  {
    SeenFullLacksTakes(labels);
  }

  lemma {:induction false} RunMore(labels: seq<Label>, l: Label)
    requires CanRun(labels) && Enabled(After(labels), l)
    ensures CanRun(labels + [l]) && After(labels + [l]) == Apply(After(labels), l)
  {
    assert (labels + [l])[..|labels|] == labels;
  }

  lemma {:induction false} Fill(n: nat) returns (labels: seq<Label>)
    requires n <= CAPACITY
    ensures CanRun(labels) && |After(labels).queue| == n && After(labels).phase.Idle?
  {
    if n == 0 {
      labels := [];
    } else {
      var fewer := Fill(n - 1);
      RunMore(fewer, Deliver([]));
      labels := fewer + [Deliver([])];
    }
  }

  /** A run in which a reader makes room and the next report is dropped all the same. */
  lemma DropWithRoom() returns (labels: seq<Label>)
    ensures CanRun(labels) && |After(labels).queue| < CAPACITY && Enabled(After(labels), DropOldest)
  {
    var full := Fill(CAPACITY);
    RunMore(full, Deliver([]));
    var saw := full + [Deliver([])];
    RunMore(saw, ReaderTakes);
    labels := saw + [ReaderTakes];
  }

  // ---------------------------------------------------------------- the collection

  /** A callback that nothing interrupts: the new report goes last, and the oldest makes room for it. */
  function Delivered(queue: seq<Report>, r: Report): seq<Report> {
    if |queue| < CAPACITY then queue + [r] else queue[1..] + [r]
  }

  function DeliveredAll(queue: seq<Report>, rs: seq<Report>): seq<Report> {
    if rs == [] then queue else Delivered(DeliveredAll(queue, rs[..|rs| - 1]), rs[|rs| - 1])
  }

  /** With nobody reading, the queue ends up as the latest 32 of all reports, or all of them if there are fewer. */
  lemma {:induction false} KeepsTheLatest(queue: seq<Report>, rs: seq<Report>)
    requires |queue| <= 32
    ensures var all, kept := queue + rs, DeliveredAll(queue, rs);
      && |kept| == (if |all| < 32 then |all| else 32)
      && kept == all[|all| - |kept|..]
  {
    if rs == [] {
      assert queue + rs == queue;
    } else {
      var front := rs[..|rs| - 1];
      KeepsTheLatest(queue, front);
      assert queue + rs == (queue + front) + [rs[|rs| - 1]];
    }
  }

  class HidCollection {
    const inputLen: nat
    var reports: seq<Report>

    constructor (inputLen: nat)
      ensures this.inputLen == inputLen && reports == []
    {
      this.inputLen := inputLen;
      reports := [];
    }

    ghost predicate Valid()
      reads this
    {
      |reports| <= CAPACITY
    }

    /** A send that does not wait. */
    method TrySend(r: Report) returns (sent: bool)
      requires Valid()
      modifies this`reports
      ensures Valid() && sent == (|old(reports)| < CAPACITY)
      ensures reports == if sent then old(reports) + [r] else old(reports)
    {
      sent := |reports| < CAPACITY;
      if sent {
        reports := reports + [r];
      }
    }

    /** A receive that does not wait. */
    method TryReceive() returns (r: Option<Report>)
      requires Valid()
      modifies this`reports
      ensures Valid()
      ensures if old(reports) == [] then r.None? && reports == []
              else r == Some(old(reports)[0]) && reports == old(reports)[1..]
    {
      if |reports| == 0 {
        return None;
      }
      r := Some(reports[0]);
      reports := reports[1..];
    }

    /** The input-report callback: the report's number, then its bytes; a negative length is ignored. */
    method OnReport(reportID: int, report: seq<byte>, reportLength: int)
      requires Valid() && reportLength <= |report|
      modifies this`reports
      ensures Valid()
      ensures reportLength < 0 ==> reports == old(reports)
      ensures reportLength >= 0 ==>
        var r := [reportID % 256] + report[..reportLength];
        && reports == (if |old(reports)| < 32 then old(reports) + [r] else old(reports)[1..] + [r])
        && reports == Delivered(old(reports), r)
    {
      if reportLength < 0 {
        return;
      }
      var id: byte := reportID % BYTE_LIMIT;
      var buf := [id] + report[..reportLength];
      var sent := TrySend(buf);
      if !sent {
        var dropped := TryReceive();
        sent := TrySend(buf);
      }
    }

    /** Discards everything queued. */
    method Flush()
      requires Valid()
      modifies this`reports
      ensures reports == []
    {
      var r := TryReceive();
      while r.Some?
        invariant Valid() && (r.None? ==> reports == [])
        decreases |reports| + if r.Some? then 1 else 0
      {
        r := TryReceive();
      }
    }

    /** One read that finds a report or times out; room is the caller's space. */
    method ReadReport(room: nat) returns (r: Result<Report, ReadError>)
      requires Valid()
      modifies this`reports
      ensures inputLen == 0 ==> r == Failure(NotSupported) && reports == old(reports)
      ensures inputLen > 0 && old(reports) == [] ==> r == Failure(Timeout) && reports == []
      ensures inputLen > 0 && old(reports) != [] ==>
        var oldest := old(reports)[0];
        r == Success(oldest[..if room < |oldest| then room else |oldest|]) && reports == old(reports)[1..]
    {
      if inputLen == 0 {
        return Failure(NotSupported);
      }
      var report := TryReceive();
      if report.None? {
        return Failure(Timeout);
      }
      var n := if room < |report.value| then room else |report.value|;
      r := Success(report.value[..n]);
    }
  }

  datatype ReadError = NotSupported | Timeout
}
