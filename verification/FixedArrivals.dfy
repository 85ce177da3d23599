/** The fixed-arrival driver: requests are offered on schedule whatever the load, a bounded set of
    tasks serves them, and every offered request ends as exactly one row. The event loop may
    interleave arrivals, task steps and done-callbacks in any order the clock allows. */
module FixedArrivals {
  import opened Common
  import opened Sorting

  datatype Workload = Workload(rate: real, requests: nat, maxPending: nat, deadline: real, start: real) {
    /** What the driver demands before it starts any work. */
    predicate Valid() {
      rate > 0.0 && requests >= 1 && maxPending >= 1 && deadline > 0.0
    }

    function Scheduled(index: nat): real
      requires Valid()
    {
      start + index as real / rate
    }
  }

  datatype Status = Ok | Timeout | Error | Overload

  datatype Latency = Unmeasured | Measured(seconds: real)

  datatype Row = Row(index: nat, status: Status, latency: Latency)

  /** How an awaited operation ends. */
  datatype Outcome = Returned | TimedOut | Raised

  /** `waiting` tasks have not run yet, `operating` ones have called the operation; `pending` is the
      set the bound is checked on, which a task leaves only when its done-callback runs. */
  datatype State = State(
    clock: real, next: nat, rows: seq<Row>, waiting: set<nat>, operating: set<nat>, pending: set<nat>)

  datatype Event =
    | Arrive(now: real)
    | Begin(index: nat, now: real)
    | Finish(index: nat, outcome: Outcome, now: real)
    | Callback(index: nat)

  function Initial(w: Workload): State {
    State(w.start, 0, [], {}, {}, {})
  }

  predicate Enabled(w: Workload, s: State, e: Event)
    requires w.Valid()
  {
    match e
    case Arrive(now) => s.next < w.requests && now >= s.clock && now >= w.Scheduled(s.next)
    case Begin(index, now) => index in s.waiting && now >= s.clock
    case Finish(index, _, now) => index in s.operating && now >= s.clock
    case Callback(index) => index in s.pending && index !in s.waiting && index !in s.operating
  }

  /** The row a task appends: a completion past its deadline is not a success. */
  function FinishedRow(w: Workload, index: nat, outcome: Outcome, now: real): Row
    requires w.Valid()
  {
    var elapsed := now - w.Scheduled(index);
    var status := match outcome
      case Returned => if elapsed > w.deadline then Timeout else Ok
      case TimedOut => Timeout
      case Raised => Error;
    Row(index, status, Measured(elapsed))
  }

  function Step(w: Workload, s: State, e: Event): State
    requires w.Valid()
  {
    match e
    case Arrive(now) =>
      if |s.pending| >= w.maxPending then
        s.(clock := now, next := s.next + 1, rows := s.rows + [Row(s.next, Overload, Unmeasured)])
      else
        s.(clock := now, next := s.next + 1, waiting := s.waiting + {s.next}, pending := s.pending + {s.next})
    case Begin(index, now) =>
      if w.deadline - (now - w.Scheduled(index)) <= 0.0 then
        s.(clock := now, waiting := s.waiting - {index}, rows := s.rows + [FinishedRow(w, index, TimedOut, now)])
      else
        s.(clock := now, waiting := s.waiting - {index}, operating := s.operating + {index})
    case Finish(index, outcome, now) =>
      s.(clock := now, operating := s.operating - {index}, rows := s.rows + [FinishedRow(w, index, outcome, now)])
    case Callback(index) =>
      s.(pending := s.pending - {index})
  }

  /** The states an interleaving goes through; `events[i]` is enabled where it happens. */
  ghost predicate IsRun(w: Workload, events: seq<Event>)
    requires w.Valid()
  {
    events == [] ||
      var before := events[..|events| - 1];
      IsRun(w, before) && Enabled(w, After(w, before), events[|events| - 1])
  }

  function After(w: Workload, events: seq<Event>): State
    requires w.Valid()
  {
    if events == [] then Initial(w)
    else Step(w, After(w, events[..|events| - 1]), events[|events| - 1])
  }

  // ---------------------------------------------------------------- what every interleaving keeps

  predicate Below(i: nat, n: nat) { i < n }

  /** The first `n` indices. */
  function Upto(n: nat): set<nat> {
    set i: nat | i < n && Below(i, n)
  }

  function Indices(rows: seq<Row>): seq<nat> {
    seq(|rows|, i requires 0 <= i < |rows| => rows[i].index)
  }

  /** `whole` is split among three sets, nothing in two of them. */
  ghost predicate SplitsInto(whole: set<nat>, a: set<nat>, b: set<nat>, c: set<nat>) {
    && (forall i :: i in whole <==> i in a || i in b || i in c)
    && a !! b && a !! c && b !! c
  }

  /** Every offered index is one waiting task, one operating task or one row, and only one of them. */
  ghost predicate Accounted(s: State) {
    && SplitsInto(Upto(s.next), s.waiting, s.operating, Elements(Indices(s.rows)))
    && NoDuplicates(Indices(s.rows))
  }

  ghost predicate Bounded(w: Workload, s: State) {
    && (forall i :: i in s.waiting || i in s.operating ==> i in s.pending)
    && (forall i :: i in s.pending ==> i < s.next)
    && |s.pending| <= w.maxPending
    && s.next <= w.requests
  }

  /** Latency counts from the scheduled arrival; an ok row is within the deadline. */
  ghost predicate RowHolds(w: Workload, s: State, row: Row)
    requires w.Valid()
  {
    && (row.status == Overload <==> row.latency.Unmeasured?)
    && (row.latency.Measured? ==> 0.0 <= row.latency.seconds <= s.clock - w.Scheduled(row.index))
    && (row.status == Ok ==> row.latency.seconds <= w.deadline)
  }

  ghost predicate Timed(w: Workload, s: State)
    requires w.Valid()
  {
    && (forall i :: i in s.waiting + s.operating ==> w.Scheduled(i) <= s.clock)
    && (forall row :: row in s.rows ==> RowHolds(w, s, row))
  }

  ghost predicate Holds(w: Workload, s: State)
    requires w.Valid()
  {
    Accounted(s) && Bounded(w, s) && Timed(w, s)
  }

  lemma OneMoreIndex(rows: seq<Row>, row: Row)
    ensures Indices(rows + [row]) == Indices(rows) + [row.index]
    ensures Elements(Indices(rows + [row])) == Elements(Indices(rows)) + {row.index}
    ensures NoDuplicates(Indices(rows)) && row.index !in Elements(Indices(rows)) ==>
              NoDuplicates(Indices(rows + [row]))
  {
    var before, after := Indices(rows), Indices(rows + [row]);
    assert after == before + [row.index];
    assert forall i :: 0 <= i < |before| ==> before[i] in Elements(before);
  }

  lemma NextIndexJoins(n: nat, a: set<nat>, b: set<nat>, c: set<nat>)
    requires SplitsInto(Upto(n), a, b, c)
    ensures n !in a && n !in b && n !in c
    ensures SplitsInto(Upto(n + 1), a + {n}, b, c) && SplitsInto(Upto(n + 1), a, b, c + {n})
  {
    assert n !in Upto(n);
    forall i
      ensures i in Upto(n + 1) <==> i in Upto(n) || i == n
    {
    }
  }

  lemma IndexMoves(whole: set<nat>, a: set<nat>, b: set<nat>, c: set<nat>, i: nat)
    requires SplitsInto(whole, a, b, c)
    ensures i in a ==> i !in c && SplitsInto(whole, a - {i}, b + {i}, c) && SplitsInto(whole, a - {i}, b, c + {i})
    ensures i in b ==> i !in c && SplitsInto(whole, a, b - {i}, c + {i})
  {
  }

  lemma StepStaysAccounted(w: Workload, s: State, e: Event)
    requires w.Valid() && Accounted(s) && Enabled(w, s, e)
    ensures Accounted(Step(w, s, e))
  {
    var t, done := Step(w, s, e), Elements(Indices(s.rows));
    if t.rows != s.rows {
      OneMoreIndex(s.rows, t.rows[|s.rows|]);
    }
    match e {
      case Arrive(_) => NextIndexJoins(s.next, s.waiting, s.operating, done);
      case Begin(index, _) => IndexMoves(Upto(s.next), s.waiting, s.operating, done, index);
      case Finish(index, _, _) => IndexMoves(Upto(s.next), s.waiting, s.operating, done, index);
      case Callback(_) =>
    }
  }

  lemma CountOneMore<T>(s: set<T>, x: T)
    ensures x !in s ==> |s + {x}| == |s| + 1
    ensures x in s ==> |s - {x}| == |s| - 1
  {
  }

  lemma StepStaysBounded(w: Workload, s: State, e: Event)
    requires w.Valid() && Bounded(w, s) && Enabled(w, s, e)
    ensures Bounded(w, Step(w, s, e))
  {
    match e {
      case Arrive(_) => CountOneMore(s.pending, s.next);
      case Begin(_, _) =>
      case Finish(_, _, _) =>
      case Callback(index) => CountOneMore(s.pending, index);
    }
  }

  lemma StepStaysTimed(w: Workload, s: State, e: Event)
    requires w.Valid() && Timed(w, s) && Enabled(w, s, e)
    ensures Timed(w, Step(w, s, e))
  {
    var t := Step(w, s, e);
    forall row | row in t.rows
      ensures RowHolds(w, t, row)
    {
      if row in s.rows {
        assert RowHolds(w, s, row);
      }
    }
  }

  lemma {:induction false} EveryInterleavingHolds(w: Workload, events: seq<Event>)
    requires w.Valid() && IsRun(w, events)
    ensures Holds(w, After(w, events))
    decreases |events|
  {
    if events == [] {
      assert Upto(0) == {};
    } else {
      var before, e := events[..|events| - 1], events[|events| - 1];
      EveryInterleavingHolds(w, before);
      StepStaysAccounted(w, After(w, before), e);
      StepStaysBounded(w, After(w, before), e);
      StepStaysTimed(w, After(w, before), e);
    }
  }

  /** At most `maxPending` request tasks are ever live, and a request is turned away exactly when that
      many tasks are still pending. */
  lemma WorkStaysBounded(w: Workload, events: seq<Event>, now: real)
    requires w.Valid() && IsRun(w, events)
    ensures var s := After(w, events); |s.waiting + s.operating| <= w.maxPending
    ensures var s := After(w, events);
            Step(w, s, Arrive(now)).rows != s.rows <==> |s.pending| == w.maxPending
  {
    EveryInterleavingHolds(w, events);
    var s := After(w, events);
    SubsetIsNoLarger(s.waiting + s.operating, s.pending);
    assert |s.rows + [Row(s.next, Overload, Unmeasured)]| > |s.rows|;
  }

  // ---------------------------------------------------------------- every run ends

  function Remaining(w: Workload, s: State): int {
    4 * (w.requests - s.next) + 2 * |s.waiting| + |s.operating| + |s.pending|
  }

  lemma StepsRunOut(w: Workload, s: State, e: Event)
    requires w.Valid() && Accounted(s) && Bounded(w, s) && Enabled(w, s, e)
    ensures Remaining(w, Step(w, s, e)) < Remaining(w, s)
  {
    match e {
      case Arrive(_) =>
        CountOneMore(s.waiting, s.next);
        CountOneMore(s.pending, s.next);
      case Begin(index, _) =>
        CountOneMore(s.waiting, index);
        CountOneMore(s.operating, index);
      case Finish(index, _, _) => CountOneMore(s.operating, index);
      case Callback(index) => CountOneMore(s.pending, index);
    }
  }

  /** No interleaving has more than four events for each request. */
  lemma {:induction false} EveryInterleavingEnds(w: Workload, events: seq<Event>)
    requires w.Valid() && IsRun(w, events)
    ensures |events| + Remaining(w, After(w, events)) <= 4 * w.requests
    ensures |events| <= 4 * w.requests
    decreases |events|
  {
    if events != [] {
      var before := events[..|events| - 1];
      EveryInterleavingEnds(w, before);
      EveryInterleavingHolds(w, before);
      StepsRunOut(w, After(w, before), events[|events| - 1]);
    }
    EveryInterleavingHolds(w, events);
  }

  /** All arrivals are offered and no task is live: the gather has returned. */
  predicate Finished(w: Workload, s: State) {
    s.next == w.requests && s.waiting == {} && s.operating == {}
  }

  /** ... and until then, something can always happen. */
  lemma NothingGetsStuck(w: Workload, s: State)
    requires w.Valid() && s.next <= w.requests && !Finished(w, s)
    ensures exists e :: Enabled(w, s, e)
  {
    if s.next < w.requests {
      var due := w.Scheduled(s.next);
      assert Enabled(w, s, Arrive(if due < s.clock then s.clock else due));
    } else if s.waiting != {} {
      var index :| index in s.waiting;
      assert Enabled(w, s, Begin(index, s.clock));
    } else {
      var index :| index in s.operating;
      assert Enabled(w, s, Finish(index, Returned, s.clock));
    }
  }

  // ---------------------------------------------------------------- the report

  predicate IndexLeq(a: Row, b: Row) { a.index <= b.index }

  function Successes(rows: seq<Row>): nat {
    if rows == [] then 0
    else Successes(rows[..|rows| - 1]) + if rows[|rows| - 1].status == Ok then 1 else 0
  }

  function Larger(x: real, y: real): real {
    if x < y then y else x
  }

  datatype Report = Report(successful: nat, throughput: real, failureRatio: real, rows: seq<Row>)

  /** What is reported at the time the gather returned: the denominator keeps every offered request, and
      the window is at least the offered one. */
  function ReportOf(w: Workload, s: State, end: real): Report
    requires w.Valid()
  {
    var window := Larger(w.requests as real / w.rate, end - w.start);
    var successful := Successes(s.rows);
    Report(successful, successful as real / window, 1.0 - successful as real / w.requests as real,
           SortBy(IndexLeq, s.rows))
  }

  lemma {:induction false} SuccessesAreRows(rows: seq<Row>)
    ensures Successes(rows) <= |rows|
    decreases |rows|
  {
    if rows != [] {
      SuccessesAreRows(rows[..|rows| - 1]);
    }
  }

  lemma {:induction false} IncreasingFromZero(s: seq<nat>, i: nat)
    requires forall a, b :: 0 <= a < b < |s| ==> s[a] < s[b]
    requires i < |s|
    ensures i <= s[i]
  {
    if i > 0 {
      IncreasingFromZero(s, i - 1);
    }
  }

  lemma {:induction false} IncreasingToTheEnd(s: seq<nat>, i: nat)
    requires forall a, b :: 0 <= a < b < |s| ==> s[a] < s[b]
    requires i < |s| && forall a :: 0 <= a < |s| ==> s[a] < |s|
    ensures s[i] <= i
    decreases |s| - i
  {
    if i + 1 < |s| {
      IncreasingToTheEnd(s, i + 1);
    }
  }

  lemma UptoSize(n: nat)
    ensures |Upto(n)| == n
  {
    if n > 0 {
      UptoSize(n - 1);
      assert Upto(n) == Upto(n - 1) + {n - 1};
    } else {
      assert Upto(0) == {};
    }
  }

  lemma IndexOrderIsAPreorder()
    ensures TotalPreorder(IndexLeq)
  {
  }

  lemma SortedRowsAreInPlace(rows: seq<Row>, n: nat)
    requires NoDuplicates(Indices(rows)) && Elements(Indices(rows)) == Upto(n)
    ensures var sorted := SortBy(IndexLeq, rows);
            |sorted| == n && forall i :: 0 <= i < n ==> sorted[i].index == i
  {
    var sorted := SortBy(IndexLeq, rows);
    IndexOrderIsAPreorder();
    SortBySorts(IndexLeq, rows);
    DistinctCount(Indices(rows));
    UptoSize(n);
    DistinctIndicesStayDistinct(rows, sorted);
    var indices := Indices(sorted);
    forall i | 0 <= i < n
      ensures indices[i] < n
    {
      assert sorted[i] in Elements(sorted);
      var j :| 0 <= j < |rows| && rows[j] == sorted[i];
      assert Indices(rows)[j] in Elements(Indices(rows));
    }
    forall i | 0 <= i < n
      ensures sorted[i].index == i
    {
      IncreasingFromZero(indices, i);
      IncreasingToTheEnd(indices, i);
    }
  }

  lemma DistinctIndicesStayDistinct(rows: seq<Row>, sorted: seq<Row>)
    requires NoDuplicates(Indices(rows)) && multiset(sorted) == multiset(rows) && Sorted(IndexLeq, sorted)
    ensures forall a, b :: 0 <= a < b < |sorted| ==> Indices(sorted)[a] < Indices(sorted)[b]
  {
    assert NoDuplicates(rows) by {
      forall i, j | 0 <= i < j < |rows|
        ensures rows[i] != rows[j]
      {
        assert Indices(rows)[i] != Indices(rows)[j];
      }
    }
    DistinctStaysDistinct(rows, sorted);
    SameMultisetSameElements(rows, sorted);
    forall a, b | 0 <= a < b < |sorted|
      ensures sorted[a].index < sorted[b].index
    {
      assert IndexLeq(sorted[a], sorted[b]);
      assert sorted[a] in Elements(rows) && sorted[b] in Elements(rows);
      var i :| 0 <= i < |rows| && rows[i] == sorted[a];
      var j :| 0 <= j < |rows| && rows[j] == sorted[b];
      assert Indices(rows)[i] == sorted[a].index && Indices(rows)[j] == sorted[b].index;
    }
  }

  /** When a run returns there is exactly one row per request, in order, and an ok row is within the
      deadline of its scheduled arrival. */
  lemma {:induction false} TheReportAccountsForEveryRequest(w: Workload, events: seq<Event>, end: real)
    requires w.Valid() && IsRun(w, events) && Finished(w, After(w, events))
    ensures var rows := ReportOf(w, After(w, events), end).rows;
            && |rows| == w.requests
            && (forall i :: 0 <= i < w.requests ==> rows[i].index == i)
            && (forall row :: row in rows && row.status == Ok ==>
                  row.latency.Measured? && 0.0 <= row.latency.seconds <= w.deadline)
  {
    var s := After(w, events);
    EveryInterleavingHolds(w, events);
    RowsAreRequests(w, s);
    SortedRowsAreInPlace(s.rows, w.requests);
    IndexOrderIsAPreorder();
    SortBySorts(IndexLeq, s.rows);
    var rows := SortBy(IndexLeq, s.rows);
    forall row | row in rows
      ensures RowHolds(w, s, row)
    {
      assert row in Elements(rows);
    }
  }

  lemma RowsAreRequests(w: Workload, s: State)
    requires Accounted(s) && Finished(w, s)
    ensures Elements(Indices(s.rows)) == Upto(w.requests)
    ensures |s.rows| == w.requests
  {
    assert Elements(Indices(s.rows)) == Upto(w.requests);
    DistinctCount(Indices(s.rows));
    UptoSize(w.requests);
  }

  /** The successful throughput never exceeds the offered rate, whatever was turned away or late. */
  lemma ThroughputNeverExceedsTheOfferedRate(w: Workload, events: seq<Event>, end: real)
    requires w.Valid() && IsRun(w, events) && Finished(w, After(w, events))
    ensures ReportOf(w, After(w, events), end).throughput <= w.rate
    ensures 0.0 <= ReportOf(w, After(w, events), end).failureRatio <= 1.0
  {
    EveryInterleavingHolds(w, events);
    RowsAreRequests(w, After(w, events));
    OneRowEachBoundsThroughput(w, After(w, events), end);
  }

  lemma OneRowEachBoundsThroughput(w: Workload, s: State, end: real)
    requires w.Valid() && |s.rows| == w.requests
    ensures ReportOf(w, s, end).throughput <= w.rate
    ensures 0.0 <= ReportOf(w, s, end).failureRatio <= 1.0
  {
    SuccessesAreRows(s.rows);
    var successful := Successes(s.rows);
    ThroughputIsBelowRate(successful, w.requests, w.rate, Larger(w.requests as real / w.rate, end - w.start));
    ShareIsAFraction(successful, w.requests);
  }

  lemma ShareIsAFraction(part: nat, whole: nat)
    requires part <= whole && whole > 0
    ensures 0.0 <= part as real / whole as real <= 1.0
  {
  }

  lemma ThroughputIsBelowRate(successful: nat, requests: nat, rate: real, window: real)
    requires successful <= requests && requests > 0 && rate > 0.0
    requires window >= requests as real / rate
    ensures window > 0.0 && successful as real / window <= rate
  {
    var offered := requests as real / rate;
    assert offered * rate == requests as real;
    assert offered > 0.0;
    assert window * rate >= offered * rate;
    var throughput := successful as real / window;
    assert throughput * window == successful as real;
    assert throughput * window <= rate * window;
  }

  // ---------------------------------------------------------------- what a row says of its request

  /** The request's operation ended as `outcome`, and within the deadline of its arrival or not. */
  ghost predicate Ended(w: Workload, events: seq<Event>, index: nat, outcome: Outcome, inTime: bool)
    requires w.rate > 0.0
  {
    exists now :: Finish(index, outcome, now) in events
                  && (now - (w.start + index as real / w.rate) <= w.deadline <==> inTime)
  }

  ghost predicate Began(events: seq<Event>, index: nat) {
    exists now :: Begin(index, now) in events
  }

  /** The row's latency runs from the arrival to when the operation ended, or, if it was never called, to when
      the task found its deadline past. */
  ghost predicate TakesItsTime(w: Workload, events: seq<Event>, row: Row, now: real)
    requires w.rate > 0.0
  {
    && row.latency == Measured(now - (w.start + row.index as real / w.rate))
    && (|| (exists outcome :: Finish(row.index, outcome, now) in events)
        || (&& Begin(row.index, now) in events
            && now - (w.start + row.index as real / w.rate) >= w.deadline
            && forall outcome, t :: Finish(row.index, outcome, t) !in events))
  }

  ghost predicate SaysHowItEnded(w: Workload, events: seq<Event>, row: Row)
    requires w.rate > 0.0
  {
    && (row.status == Ok ==> Ended(w, events, row.index, Returned, true))
    && (row.status == Error ==> Ended(w, events, row.index, Raised, true) || Ended(w, events, row.index, Raised, false))
    && (row.status == Overload <==> !Began(events, row.index))
    && (row.status != Overload ==> exists now :: TakesItsTime(w, events, row, now))
    && (Ended(w, events, row.index, Returned, true) ==> row.status == Ok)
    && (Ended(w, events, row.index, Raised, true) || Ended(w, events, row.index, Raised, false) ==> row.status == Error)
  }

  /** A request that has no row has not ended, and has begun exactly when it is operating. */
  ghost predicate Untold(events: seq<Event>, s: State, index: nat) {
    && (forall outcome, now :: Finish(index, outcome, now) !in events)
    && (Began(events, index) <==> index in s.operating)
  }

  ghost predicate Told(w: Workload, events: seq<Event>, s: State)
    requires w.rate > 0.0
  {
    && (forall row :: row in s.rows ==> SaysHowItEnded(w, events, row))
    && (forall index: nat :: index !in Elements(Indices(s.rows)) ==> Untold(events, s, index))
  }

  lemma IndexOfRow(rows: seq<Row>, row: Row)
    requires row in rows
    ensures row.index in Elements(Indices(rows))
  {
    var i :| 0 <= i < |rows| && rows[i] == row;
    assert Indices(rows)[i] == row.index;
  }

  /** An event of another request leaves a row as true as it was. */
  lemma OtherEventsDoNotMatter(w: Workload, events: seq<Event>, e: Event, index: nat)
    requires w.rate > 0.0
    requires (e.Begin? || e.Finish?) ==> e.index != index
    ensures Began(events + [e], index) <==> Began(events, index)
    ensures forall now :: Begin(index, now) in events + [e] <==> Begin(index, now) in events
    ensures forall outcome, now ::
              Finish(index, outcome, now) in events + [e] <==> Finish(index, outcome, now) in events
    ensures forall outcome, inTime :: Ended(w, events + [e], index, outcome, inTime) <==>
                                        Ended(w, events, index, outcome, inTime)
  {
    forall now
      ensures Begin(index, now) in events + [e] <==> Begin(index, now) in events
    {
    }
    forall outcome, now
      ensures Finish(index, outcome, now) in events + [e] <==> Finish(index, outcome, now) in events
    {
    }
    forall outcome, inTime
      ensures Ended(w, events + [e], index, outcome, inTime) <==> Ended(w, events, index, outcome, inTime)
    {
      if now :| Finish(index, outcome, now) in events
                && (now - (w.start + index as real / w.rate) <= w.deadline <==> inTime) {
        assert Finish(index, outcome, now) in events + [e];
      }
    }
  }

  lemma TellsOnlyItsOwn(w: Workload, events: seq<Event>, index: nat, outcome: Outcome, now: real)
    requires w.rate > 0.0 && forall o, t :: Finish(index, o, t) !in events
    ensures var all, inTime := events + [Finish(index, outcome, now)],
                               now - (w.start + index as real / w.rate) <= w.deadline;
            forall o, t :: Ended(w, all, index, o, t) <==> o == outcome && t == inTime
  {
    var all := events + [Finish(index, outcome, now)];
    assert Finish(index, outcome, now) in all;
    forall o, t | Finish(index, o, t) in all
      ensures o == outcome && t == now
    {
    }
  }

  lemma OtherRowsStayTold(w: Workload, events: seq<Event>, s: State, e: Event)
    requires w.rate > 0.0 && Told(w, events, s)
    requires e.Begin? || e.Finish? ==> e.index !in Elements(Indices(s.rows))
    ensures forall row :: row in s.rows ==> SaysHowItEnded(w, events + [e], row)
  {
    forall row | row in s.rows
      ensures SaysHowItEnded(w, events + [e], row)
    {
      IndexOfRow(s.rows, row);
      OtherEventsDoNotMatter(w, events, e, row.index);
      forall now
        ensures TakesItsTime(w, events + [e], row, now) <==> TakesItsTime(w, events, row, now)
      {
      }
    }
  }

  lemma OthersStayUntold(w: Workload, events: seq<Event>, s: State, e: Event, after: State)
    requires w.rate > 0.0 && Told(w, events, s)
    requires Elements(Indices(s.rows)) <= Elements(Indices(after.rows))
    requires forall index: nat :: (e.Begin? || e.Finish? ==> index != e.index) ==>
               (index in after.operating <==> index in s.operating)
    ensures forall index: nat ::
              index !in Elements(Indices(after.rows)) && (e.Begin? || e.Finish? ==> index != e.index) ==>
                Untold(events + [e], after, index)
  {
    forall index: nat | index !in Elements(Indices(after.rows)) && (e.Begin? || e.Finish? ==> index != e.index)
      ensures Untold(events + [e], after, index)
    {
      OtherEventsDoNotMatter(w, events, e, index);
      assert Untold(events, s, index);
    }
  }

  lemma BeginStaysTold(w: Workload, events: seq<Event>, s: State, index: nat, now: real)
    requires w.Valid() && Accounted(s) && Told(w, events, s) && Enabled(w, s, Begin(index, now))
    ensures Told(w, events + [Begin(index, now)], Step(w, s, Begin(index, now)))
  {
    var e, after := Begin(index, now), Step(w, s, Begin(index, now));
    var all := events + [e];
    assert index !in Elements(Indices(s.rows)) && Untold(events, s, index);
    OneMoreIndex(s.rows, FinishedRow(w, index, TimedOut, now));
    OtherRowsStayTold(w, events, s, e);
    OthersStayUntold(w, events, s, e, after);
    assert e in all;
    assert forall o, t :: Finish(index, o, t) !in all;
    if after.rows != s.rows {
      assert TakesItsTime(w, all, after.rows[|s.rows|], now);
    }
  }

  lemma FinishStaysTold(w: Workload, events: seq<Event>, s: State, index: nat, outcome: Outcome, now: real)
    requires w.Valid() && Accounted(s) && Told(w, events, s) && Enabled(w, s, Finish(index, outcome, now))
    ensures Told(w, events + [Finish(index, outcome, now)], Step(w, s, Finish(index, outcome, now)))
  {
    var e, after := Finish(index, outcome, now), Step(w, s, Finish(index, outcome, now));
    var all := events + [e];
    assert index !in Elements(Indices(s.rows)) && Untold(events, s, index);
    OneMoreIndex(s.rows, FinishedRow(w, index, outcome, now));
    OtherRowsStayTold(w, events, s, e);
    OthersStayUntold(w, events, s, e, after);
    TellsOnlyItsOwn(w, events, index, outcome, now);
    var begun :| Begin(index, begun) in events;
    assert Begin(index, begun) in all && e in all;
    assert TakesItsTime(w, all, after.rows[|s.rows|], now);
  }

  lemma ArriveStaysTold(w: Workload, events: seq<Event>, s: State, now: real)
    requires w.Valid() && Accounted(s) && Told(w, events, s) && Enabled(w, s, Arrive(now))
    ensures Told(w, events + [Arrive(now)], Step(w, s, Arrive(now)))
  {
    var e, after := Arrive(now), Step(w, s, Arrive(now));
    NextIndexJoins(s.next, s.waiting, s.operating, Elements(Indices(s.rows)));
    assert Untold(events, s, s.next);
    OneMoreIndex(s.rows, Row(s.next, Overload, Unmeasured));
    OtherRowsStayTold(w, events, s, e);
    OthersStayUntold(w, events, s, e, after);
    OtherEventsDoNotMatter(w, events, e, s.next);
  }

  lemma CallbackStaysTold(w: Workload, events: seq<Event>, s: State, index: nat)
    requires w.Valid() && Told(w, events, s)
    ensures Told(w, events + [Callback(index)], Step(w, s, Callback(index)))
  {
    OtherRowsStayTold(w, events, s, Callback(index));
    OthersStayUntold(w, events, s, Callback(index), Step(w, s, Callback(index)));
  }

  lemma StepStaysTold(w: Workload, events: seq<Event>, s: State, e: Event)
    requires w.Valid() && Accounted(s) && Told(w, events, s) && Enabled(w, s, e)
    ensures Told(w, events + [e], Step(w, s, e))
  {
    match e
    case Arrive(now) => ArriveStaysTold(w, events, s, now);
    case Begin(index, now) => BeginStaysTold(w, events, s, index, now);
    case Finish(index, outcome, now) => FinishStaysTold(w, events, s, index, outcome, now);
    case Callback(index) => CallbackStaysTold(w, events, s, index);
  }

  lemma NothingIsTold(w: Workload)
    requires w.Valid()
    ensures Told(w, [], Initial(w))
  {
    assert Indices([]) == [];
  }

  lemma {:induction false} EveryRowIsTold(w: Workload, events: seq<Event>)
    requires w.Valid() && IsRun(w, events)
    ensures Told(w, events, After(w, events))
    decreases |events|
  {
    if events == [] {
      NothingIsTold(w);
    } else {
      var before, e := events[..|events| - 1], events[|events| - 1];
      EveryRowIsTold(w, before);
      EveryInterleavingHolds(w, before);
      StepStaysTold(w, before, After(w, before), e);
      assert events == before + [e];
    }
  }

  /** How a request's row is to be read, over every run: ok if and only if its operation returned in time,
      error if and only if it raised, overload if and only if it was never begun, and timeout otherwise. */
  lemma StatusExactlyWhen(w: Workload, events: seq<Event>, row: Row)
    requires w.Valid() && IsRun(w, events) && row in After(w, events).rows
    ensures row.status == Ok <==>
              exists now :: Finish(row.index, Returned, now) in events
                            && now - (w.start + row.index as real / w.rate) <= w.deadline
    ensures row.status == Error <==> exists now :: Finish(row.index, Raised, now) in events
    ensures row.status == Overload <==> forall now :: Begin(row.index, now) !in events
    ensures row.status == Overload <==> row.latency == Unmeasured
    ensures row.status != Overload ==> exists now :: TakesItsTime(w, events, row, now)
  {
    EveryRowIsTold(w, events);
    assert SaysHowItEnded(w, events, row);
    if now :| Finish(row.index, Returned, now) in events
              && now - (w.start + row.index as real / w.rate) <= w.deadline {
      assert Ended(w, events, row.index, Returned, true);
    }
    if now :| Finish(row.index, Raised, now) in events {
      assert Ended(w, events, row.index, Raised, now - (w.start + row.index as real / w.rate) <= w.deadline);
    }
  }

  lemma {:induction false} SuccessesCount(rows: seq<Row>, winners: set<nat>)
    requires NoDuplicates(Indices(rows))
    requires forall index: nat :: index in winners <==>
               exists i :: 0 <= i < |rows| && rows[i].index == index && rows[i].status == Ok
    ensures Successes(rows) == |winners|
    decreases |rows|
  {
    if rows == [] {
      assert winners == {};
    } else {
      var before, last := rows[..|rows| - 1], rows[|rows| - 1];
      assert Indices(before) == Indices(rows)[..|rows| - 1];
      assert forall i :: 0 <= i < |before| ==> before[i] == rows[i] && Indices(rows)[i] == rows[i].index;
      assert Indices(rows)[|rows| - 1] == last.index;
      WinnersBefore(rows, winners);
      SuccessesCount(before, winners - {last.index});
      CountOneMore(winners, last.index);
    }
  }

  lemma WinnersBefore(rows: seq<Row>, winners: set<nat>)
    requires rows != [] && NoDuplicates(Indices(rows))
    requires forall index: nat :: index in winners <==>
               exists i :: 0 <= i < |rows| && rows[i].index == index && rows[i].status == Ok
    ensures var before, last := rows[..|rows| - 1], rows[|rows| - 1];
            && (last.index in winners <==> last.status == Ok)
            && forall index: nat :: index in winners - {last.index} <==>
                 exists i :: 0 <= i < |before| && before[i].index == index && before[i].status == Ok
  {
    var before, last := rows[..|rows| - 1], rows[|rows| - 1];
    assert forall i :: 0 <= i < |before| ==>
        before[i] == rows[i] && Indices(rows)[i] == rows[i].index && Indices(rows)[i] != Indices(rows)[|rows| - 1];
    assert Indices(rows)[|rows| - 1] == last.index;
    assert rows[|rows| - 1] == last;
  }

  lemma WinnersAreSuccesses(w: Workload, events: seq<Event>, winners: set<nat>)
    requires w.Valid() && IsRun(w, events) && Finished(w, After(w, events))
    requires forall index: nat :: index in winners <==>
               index < w.requests
               && exists now :: Finish(index, Returned, now) in events
                                && now - (w.start + index as real / w.rate) <= w.deadline
    ensures Successes(After(w, events).rows) == |winners|
  {
    var rows := After(w, events).rows;
    EveryInterleavingHolds(w, events);
    RowsAreRequests(w, After(w, events));
    forall index: nat
      ensures index in winners <==> exists i :: 0 <= i < |rows| && rows[i].index == index && rows[i].status == Ok
    {
      WinnerExactlyWhen(w, events, index);
    }
    SuccessesCount(rows, winners);
  }

  /** The report in numbers: `n` successes a second over the longer of the offered and the actual time. */
  ghost predicate Reports(report: Report, w: Workload, end: real, n: nat)
    requires w.Valid()
  {
    var offered := w.requests as real / w.rate;
    && report.successful == n
    && report.failureRatio == 1.0 - n as real / w.requests as real
    && offered > 0.0
    && report.throughput == n as real / if end - w.start <= offered then offered else end - w.start
  }

  lemma ReportInNumbers(w: Workload, s: State, end: real)
    requires w.Valid()
    ensures Reports(ReportOf(w, s, end), w, end, Successes(s.rows))
  {
    OfferedTimeIsPositive(w.requests, w.rate);
  }

  lemma OfferedTimeIsPositive(requests: nat, rate: real)
    requires requests > 0 && rate > 0.0
    ensures requests as real / rate > 0.0
  {
  }

  /** What a finished run reports: as many successes as requests whose operation returned in time, and the
      rest as its failure ratio. */
  lemma TheReportCountsTimelyReturns(w: Workload, events: seq<Event>, end: real, winners: set<nat>)
    requires w.Valid() && IsRun(w, events) && Finished(w, After(w, events))
    requires forall index: nat :: index in winners <==>
               index < w.requests
               && exists now :: Finish(index, Returned, now) in events
                                && now - (w.start + index as real / w.rate) <= w.deadline
    ensures Reports(ReportOf(w, After(w, events), end), w, end, |winners|)
  {
    WinnersAreSuccesses(w, events, winners);
    ReportInNumbers(w, After(w, events), end);
  }

  lemma WinnerExactlyWhen(w: Workload, events: seq<Event>, index: nat)
    requires w.Valid() && IsRun(w, events) && Elements(Indices(After(w, events).rows)) == Upto(w.requests)
    ensures (exists i :: 0 <= i < |After(w, events).rows| && After(w, events).rows[i].index == index
                         && After(w, events).rows[i].status == Ok) <==>
              && index < w.requests
              && exists now :: Finish(index, Returned, now) in events
                               && now - (w.start + index as real / w.rate) <= w.deadline
  {
    var rows := After(w, events).rows;
    if index < w.requests {
      assert Below(index, w.requests) && index in Elements(Indices(rows));
      var i :| 0 <= i < |Indices(rows)| && Indices(rows)[i] == index;
      StatusExactlyWhen(w, events, rows[i]);
    }
    if i :| 0 <= i < |rows| && rows[i].index == index && rows[i].status == Ok {
      StatusExactlyWhen(w, events, rows[i]);
      IndexOfRow(rows, rows[i]);
      assert index in Upto(w.requests);
    }
  }

  /** A task calls its operation exactly when it begins before its deadline is past, as one that begins on
      schedule does. */
  lemma ATaskIsCalledExactlyWhen(w: Workload, events: seq<Event>, index: nat, now: real)
    requires w.Valid() && IsRun(w, events) && Enabled(w, After(w, events), Begin(index, now))
    ensures var scheduled, s := w.start + index as real / w.rate, Step(w, After(w, events), Begin(index, now));
            && scheduled <= now
            && (index in s.operating <==> now < scheduled + w.deadline)
            && (now == scheduled ==> index in s.operating)
  {
    EveryInterleavingHolds(w, events);
  }

  /** No task found its deadline past when it began, and every operation returned within it. */
  ghost predicate IsTimely(w: Workload, e: Event)
    requires w.rate > 0.0
  {
    && (e.Begin? ==> e.now - (w.start + e.index as real / w.rate) < w.deadline)
    && (e.Finish? ==> e.outcome == Returned && e.now - (w.start + e.index as real / w.rate) <= w.deadline)
  }

  lemma TimelyRow(w: Workload, events: seq<Event>, row: Row)
    requires w.Valid() && IsRun(w, events) && row in After(w, events).rows && row.status != Overload
    requires forall e :: e in events ==> IsTimely(w, e)
    ensures row.status == Ok
  {
    StatusExactlyWhen(w, events, row);
    var now :| TakesItsTime(w, events, row, now);
    if outcome :| Finish(row.index, outcome, now) in events {
      assert IsTimely(w, Finish(row.index, outcome, now));
    }
  }

  lemma AllRowsAreOk(w: Workload, events: seq<Event>)
    requires w.Valid() && IsRun(w, events) && Finished(w, After(w, events))
    requires forall row :: row in After(w, events).rows ==> row.status != Overload
    requires forall e :: e in events ==> IsTimely(w, e)
    ensures Successes(After(w, events).rows) == w.requests
  {
    var rows := After(w, events).rows;
    forall row | row in rows
      ensures row.status == Ok
    {
      TimelyRow(w, events, row);
    }
    EveryInterleavingHolds(w, events);
    RowsAreRequests(w, After(w, events));
    AllSucceed(rows);
  }

  lemma NothingFailed(n: nat)
    requires n > 0
    ensures 1.0 - n as real / n as real == 0.0
  {
  }

  /** A run that turned nothing away and in which everything was timely succeeds in everything. */
  lemma TimelyRunsSucceed(w: Workload, events: seq<Event>, end: real)
    requires w.Valid() && IsRun(w, events) && Finished(w, After(w, events))
    requires forall row :: row in After(w, events).rows ==> row.status != Overload
    requires forall e :: e in events ==> IsTimely(w, e)
    ensures ReportOf(w, After(w, events), end).successful == w.requests
    ensures ReportOf(w, After(w, events), end).failureRatio == 0.0
  {
    AllRowsAreOk(w, events);
    ReportInNumbers(w, After(w, events), end);
    NothingFailed(w.requests);
  }

  lemma {:induction false} AllSucceed(rows: seq<Row>)
    requires forall row :: row in rows ==> row.status == Ok
    ensures Successes(rows) == |rows|
    decreases |rows|
  {
    if rows != [] {
      AllSucceed(rows[..|rows| - 1]);
    }
  }

  // ---------------------------------------------------------------- the driver itself

  lemma RunExtends(w: Workload, events: seq<Event>, e: Event)
    requires w.Valid() && IsRun(w, events) && Enabled(w, After(w, events), e)
    ensures IsRun(w, events + [e]) && After(w, events + [e]) == Step(w, After(w, events), e)
  {
    assert (events + [e])[..|events|] == events;
  }

  /** One row per request, in order, and no more successes a second than were offered. */
  ghost predicate Accounts(w: Workload, report: Report) {
    && |report.rows| == w.requests && report.throughput <= w.rate
    && forall i :: 0 <= i < w.requests ==> report.rows[i].index == i
  }

  lemma FinishedRunsAccount(w: Workload, events: seq<Event>, end: real)
    requires w.Valid() && IsRun(w, events) && Finished(w, After(w, events))
    ensures Accounts(w, ReportOf(w, After(w, events), end))
  {
    TheReportAccountsForEveryRequest(w, events, end);
    ThroughputNeverExceedsTheOfferedRate(w, events, end);
  }

  /** The driver's own variables; each method is one turn of the event loop, and `events` the turns so
      far. */
  class Driver {
    const workload: Workload
    ghost var events: seq<Event>
    var clock: real
    var next: nat
    var rows: seq<Row>
    var waiting: set<nat>
    var operating: set<nat>
    var pending: set<nat>

    function Snapshot(): State
      reads this
    {
      State(clock, next, rows, waiting, operating, pending)
    }

    /** The driver is where its turns have brought it. */
    ghost predicate Valid()
      reads this
    {
      workload.Valid() && IsRun(workload, events) && Snapshot() == After(workload, events)
    }

    constructor (w: Workload)
      requires w.Valid()
      ensures Valid() && workload == w && events == []
    {
      workload, events := w, [];
      clock, next, rows, waiting, operating, pending := w.start, 0, [], {}, {}, {};
    }

    method Offer(now: real)
      requires Valid() && Enabled(workload, Snapshot(), Arrive(now))
      modifies this
      ensures Valid() && events == old(events) + [Arrive(now)]
      ensures Snapshot() == Step(workload, old(Snapshot()), Arrive(now))
    {
      RunExtends(workload, events, Arrive(now));
      events := events + [Arrive(now)];
      Admit(now);
    }

    /** The body of the arrival loop. */
    method Admit(now: real)
      requires workload.Valid()
      modifies this`clock, this`next, this`rows, this`waiting, this`pending
      ensures Snapshot() == Step(workload, old(Snapshot()), Arrive(now))
    {
      clock := now;
      if |pending| >= workload.maxPending {
        rows := rows + [Row(next, Overload, Unmeasured)];
      } else {
        waiting := waiting + {next};
        pending := pending + {next};
      }
      next := next + 1;
    }

    method RunTask(index: nat, now: real)
      requires Valid() && Enabled(workload, Snapshot(), Begin(index, now))
      modifies this
      ensures Valid() && events == old(events) + [Begin(index, now)]
      ensures Snapshot() == Step(workload, old(Snapshot()), Begin(index, now))
    {
      RunExtends(workload, events, Begin(index, now));
      events := events + [Begin(index, now)];
      clock := now;
      waiting := waiting - {index};
      var remaining := workload.deadline - (now - workload.Scheduled(index));
      if remaining <= 0.0 {
        Append(index, TimedOut, now);
      } else {
        operating := operating + {index};
      }
    }

    method CompleteTask(index: nat, outcome: Outcome, now: real)
      requires Valid() && Enabled(workload, Snapshot(), Finish(index, outcome, now))
      modifies this
      ensures Valid() && events == old(events) + [Finish(index, outcome, now)]
      ensures Snapshot() == Step(workload, old(Snapshot()), Finish(index, outcome, now))
    {
      RunExtends(workload, events, Finish(index, outcome, now));
      events := events + [Finish(index, outcome, now)];
      clock := now;
      operating := operating - {index};
      Append(index, outcome, now);
    }

    method Append(index: nat, outcome: Outcome, now: real)
      requires workload.Valid()
      modifies this`rows
      ensures rows == old(rows) + [FinishedRow(workload, index, outcome, now)]
    {
      var status := match outcome
        case Returned => Ok
        case TimedOut => Timeout
        case Raised => Error;
      var elapsed := now - workload.Scheduled(index);
      if status == Ok && elapsed > workload.deadline {
        status := Timeout;
      }
      rows := rows + [Row(index, status, Measured(elapsed))];
    }

    method Discard(index: nat)
      requires Valid() && Enabled(workload, Snapshot(), Callback(index))
      modifies this
      ensures Valid() && events == old(events) + [Callback(index)]
      ensures Snapshot() == Step(workload, old(Snapshot()), Callback(index))
    {
      RunExtends(workload, events, Callback(index));
      events := events + [Callback(index)];
      pending := pending - {index};
    }

    /** The report, once every arrival is offered and every task is done. */
    method MakeReport(end: real) returns (report: Report)
      requires Valid() && Finished(workload, Snapshot())
      ensures report == ReportOf(workload, Snapshot(), end) && Accounts(workload, report)
    {
      FinishedRunsAccount(workload, events, end);
      report := Summarize(end);
    }

    method Summarize(end: real) returns (report: Report)
      requires workload.Valid()
      ensures report == ReportOf(workload, Snapshot(), end)
    {
      var successful := Successes(rows);
      var window := Larger(workload.requests as real / workload.rate, end - workload.start);
      report := Report(successful, successful as real / window,
                       1.0 - successful as real / workload.requests as real, SortBy(IndexLeq, rows));
    }
  }
}
