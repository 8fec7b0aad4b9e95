/**
 The periodic timer (libs/Common/include/Common/Timer.hpp) with the period type of the `Timer` alias:
 whole milliseconds, on a clock that counts nanoseconds.

 Everything the timer thread does not control is an input: in each pass of its loop, the run flag
 when the loop tests it, the clock, the time at which the wait returns, and the run flag after it.
 */
module Timers {
  import opened Arithmetic
  import opened Sequences

  const NANOS_PER_MILLI: int := 1_000_000

  datatype Reading = Reading(runBefore: bool, now: int, wake: int, runAfter: bool)

  /** One pass: the time waited for, the time the wait returned, and whether the handler was called. */
  datatype Pass = Pass(deadline: int, wake: int, called: bool)

  function PeriodNanos(period: nat): int {
    period * NANOS_PER_MILLI
  }

  /** How many periods the resynchronisation adds: the difference is first cut to milliseconds, then divided. */
  function MissedPeriods(next: int, now: int, period: nat): int
    requires period > 0
  {
    if next < now then TruncDiv(TruncDiv(now - next, NANOS_PER_MILLI), period) + 1 else 0
  }

  function Resync(next: int, now: int, period: nat): int
    requires period > 0
  {
    next + MissedPeriods(next, now, period) * PeriodNanos(period)
  }

  /** The passes of the thread's loop, up to the first test that finds the run flag cleared. */
  function Passes(next: int, period: nat, readings: seq<Reading>): seq<Pass>
    requires period > 0
    decreases |readings|
  {
    if readings == [] || !readings[0].runBefore then []
    else
      var deadline := Resync(next, readings[0].now, period);
      [Pass(deadline, readings[0].wake, readings[0].runAfter)]
      + Passes(deadline + PeriodNanos(period), period, readings[1..])
  }

  // ---------------------------------------------------------------------------------------------
  // Resynchronisation

  lemma NestedDivision(d: int, p: int)
    requires d >= 0 && p > 0
    ensures var q := (d / NANOS_PER_MILLI) / p;
            q >= 0 && q * (p * NANOS_PER_MILLI) <= d < (q + 1) * (p * NANOS_PER_MILLI)
  {
    var m := d / NANOS_PER_MILLI;
    var q := m / p;
    DivisionBounds(m, p);
    assert q * p <= m < (q + 1) * p;
    assert (q * p) * NANOS_PER_MILLI <= m * NANOS_PER_MILLI;
    assert (m + 1) * NANOS_PER_MILLI <= ((q + 1) * p) * NANOS_PER_MILLI;
  }

  lemma DivisionBounds(m: int, p: int)
    requires m >= 0 && p > 0
    ensures 0 <= m / p && (m / p) * p <= m < (m / p + 1) * p
  {
    assert m == p * (m / p) + m % p;
  }

  lemma Later(k: int, j: int, n: int)
    requires k <= j && n > 0
    ensures k * n <= j * n
  {
  }

  /**
   A late timer is moved to the earliest point of its grid strictly after now, although the
   difference passes through two truncating divisions; one that is not late is left alone.
   */
  lemma ResyncFindsTheNextGridPoint(next: int, now: int, period: nat)
    requires period > 0
    ensures next >= now ==> Resync(next, now, period) == next
    ensures next < now ==>
              && Resync(next, now, period) > now
              && forall k: int {:trigger k * PeriodNanos(period)} ::
                   next + k * PeriodNanos(period) > now ==> Resync(next, now, period) <= next + k * PeriodNanos(period)
    ensures Resync(next, now, period) >= now // the assertion in the loop
    ensures MissedPeriods(next, now, period) >= 0
  {
    if next < now {
      var n := PeriodNanos(period);
      NestedDivision(now - next, period);
      var q := MissedPeriods(next, now, period) - 1;
      assert q * n <= now - next < (q + 1) * n;
      forall k: int {:trigger k * PeriodNanos(period)} | next + k * n > now
        ensures Resync(next, now, period) <= next + k * n
      {
        if k <= q {
          Later(k, q, n);
          assert false;
        }
        Later(q + 1, k, n);
      }
    }
  }

  // ---------------------------------------------------------------------------------------------
  // The passes said about the readings alone

  /** Passes go on until a test finds the run flag cleared, and the handler is called where it is set after the wait. */
  ghost predicate FollowsReadings(passes: seq<Pass>, readings: seq<Reading>) {
    && |passes| <= |readings|
    && (|passes| < |readings| ==> !readings[|passes|].runBefore)
    && forall i :: 0 <= i < |passes| ==>
         readings[i].runBefore && passes[i].called == readings[i].runAfter && passes[i].wake == readings[i].wake
  }

  lemma OnePassMore(pass: Pass, passes: seq<Pass>, readings: seq<Reading>)
    requires readings != [] && readings[0].runBefore
    requires pass.called == readings[0].runAfter && pass.wake == readings[0].wake
    requires FollowsReadings(passes, readings[1..])
    ensures FollowsReadings([pass] + passes, readings)
  {
    var all := [pass] + passes;
    forall i | 0 <= i < |all|
      ensures readings[i].runBefore && all[i].called == readings[i].runAfter && all[i].wake == readings[i].wake
    {
      if i > 0 { assert all[i] == passes[i - 1] && readings[i] == readings[1..][i - 1]; }
    }
  }

  lemma {:induction false} PassesFollowReadings(next: int, period: nat, readings: seq<Reading>)
    requires period > 0
    ensures FollowsReadings(Passes(next, period, readings), readings)
    decreases |readings|
  {
    if readings != [] && readings[0].runBefore {
      var deadline := Resync(next, readings[0].now, period);
      PassesFollowReadings(deadline + PeriodNanos(period), period, readings[1..]);
      OnePassMore(Pass(deadline, readings[0].wake, readings[0].runAfter),
                  Passes(deadline + PeriodNanos(period), period, readings[1..]), readings);
    }
  }

  /** Main result on the handler: in which passes it is called, read off the run flag alone. */
  lemma HandlerIsCalledIff(next: int, period: nat, readings: seq<Reading>)
    requires period > 0
    ensures var passes := Passes(next, period, readings);
            (set i | 0 <= i < |passes| && passes[i].called) ==
            (set i | 0 <= i < |readings| && readings[i].runAfter && forall j :: 0 <= j <= i ==> readings[j].runBefore)
  {
    var passes := Passes(next, period, readings);
    PassesFollowReadings(next, period, readings);
    if |passes| < |readings| {
      assert !readings[|passes|].runBefore;
    }
  }

  /** A pass waits for the time planned, one period after the pass before, unless that has passed when it starts. */
  lemma {:induction false} DeadlinesArePlanned(next: int, period: nat, readings: seq<Reading>, i: nat)
    requires period > 0 && i < |Passes(next, period, readings)| <= |readings|
    ensures var passes := Passes(next, period, readings);
            var planned := if i == 0 then next else passes[i - 1].deadline + period * 1_000_000;
            if readings[i].now <= planned then passes[i].deadline == planned
            else readings[i].now < passes[i].deadline <= readings[i].now + period * 1_000_000
    decreases |readings|
  {
    var n := PeriodNanos(period);
    var deadline := Resync(next, readings[0].now, period);
    ResyncFindsTheNextGridPoint(next, readings[0].now, period);
    if i == 0 {
      if next < readings[0].now { ResyncIsNear(next, readings[0].now, period); }
    } else {
      var rest := Passes(deadline + n, period, readings[1..]);
      assert Passes(next, period, readings) == [Pass(deadline, readings[0].wake, readings[0].runAfter)] + rest;
      DeadlinesArePlanned(deadline + n, period, readings[1..], i - 1);
      assert readings[1..][i - 1] == readings[i];
    }
  }

  lemma ResyncIsNear(next: int, now: int, period: nat)
    requires period > 0 && next < now
    ensures Resync(next, now, period) <= now + PeriodNanos(period)
  {
    NestedDivision(now - next, period);
    OneMorePeriod(MissedPeriods(next, now, period) - 1, PeriodNanos(period));
  }

  lemma OneMorePeriod(q: int, n: int)
    ensures (q + 1) * n == q * n + n
  {
  }

  // ---------------------------------------------------------------------------------------------
  // No drift

  /** Deadline i is the grid point number ks[i]; the numbers start at `first` or later and strictly grow. */
  ghost predicate OnGrid(passes: seq<Pass>, start: int, n: int, first: int, ks: seq<int>) {
    && |ks| == |passes|
    && (forall i :: 0 <= i < |ks| ==> passes[i].deadline == start + ks[i] * n && ks[i] >= first + i)
    && (forall i, j :: 0 <= i < j < |ks| ==> ks[i] < ks[j])
  }

  ghost predicate NeverDrifts(passes: seq<Pass>, start: int, n: int) {
    exists ks :: OnGrid(passes, start, n, 1, ks)
  }

  lemma {:induction false} PassesStayOnGrid(start: int, k: int, period: nat, readings: seq<Reading>)
    returns (ks: seq<int>)
    requires period > 0
    ensures OnGrid(Passes(start + k * PeriodNanos(period), period, readings), start, PeriodNanos(period), k, ks)
    decreases |readings|
  {
    var n := PeriodNanos(period);
    var next := start + k * n;
    if readings == [] || !readings[0].runBefore {
      ks := [];
    } else {
      var missed := MissedPeriods(next, readings[0].now, period);
      ResyncFindsTheNextGridPoint(next, readings[0].now, period);
      var k' := k + missed;
      NextGridPoint(start, k, missed, n);
      var rest := PassesStayOnGrid(start, k' + 1, period, readings[1..]);
      ks := [k'] + rest;
      OnGridFrom(Passes(next, period, readings), start, n, k, ks);
    }
  }

  lemma NextGridPoint(start: int, k: int, missed: int, n: int)
    ensures start + k * n + missed * n == start + (k + missed) * n
    ensures start + (k + missed) * n + n == start + (k + missed + 1) * n
  {
  }

  /** Putting one pass before others that start at a later grid point. */
  lemma OnGridFrom(passes: seq<Pass>, start: int, n: int, first: int, ks: seq<int>)
    requires passes != [] && |ks| == |passes|
    requires ks[0] >= first && passes[0].deadline == start + ks[0] * n
    requires OnGrid(passes[1..], start, n, ks[0] + 1, ks[1..])
    ensures OnGrid(passes, start, n, first, ks)
  {
    forall i | 0 <= i < |ks| ensures passes[i].deadline == start + ks[i] * n && ks[i] >= first + i {
      if i > 0 { assert passes[i] == passes[1..][i - 1] && ks[i] == ks[1..][i - 1]; }
    }
    forall i, j | 0 <= i < j < |ks| ensures ks[i] < ks[j] {
      assert ks[j] == ks[1..][j - 1];
      if i > 0 { assert ks[i] == ks[1..][i - 1]; }
    }
  }

  /**
   Main result: started at `start`, the timer waits only for times start + k * period with k >= 1,
   each later than the one before, whatever the clock, the handler or the waits do.
   */
  lemma DeadlinesNeverDrift(start: int, period: nat, readings: seq<Reading>)
    requires period > 0
    ensures NeverDrifts(Passes(start + PeriodNanos(period), period, readings), start, PeriodNanos(period))
  {
    var ks := PassesStayOnGrid(start, 1, period, readings);
  }

  /** No spurious wake-up: a wait that does not end in a stop ends at its deadline or later. */
  ghost predicate NoSpuriousWakeUps(passes: seq<Pass>) {
    forall i :: 0 <= i < |passes| && passes[i].called ==> passes[i].wake >= passes[i].deadline
  }

  /** The handler calls made by time t. */
  function CallsBy(passes: seq<Pass>, t: int): nat
    decreases |passes|
  {
    if passes == [] then 0
    else
      var last := passes[|passes| - 1];
      CallsBy(passes[..|passes| - 1], t) + if last.called && last.wake <= t then 1 else 0
  }

  /** It is the number of passes that called it by then. */
  lemma {:induction false} CallsByCounts(passes: seq<Pass>, t: int)
    ensures CallsBy(passes, t) == |set i | 0 <= i < |passes| && passes[i].called && passes[i].wake <= t|
    decreases |passes|
  {
    var all := set i | 0 <= i < |passes| && passes[i].called && passes[i].wake <= t;
    if passes == [] {
      assert all == {};
    } else {
      var n := |passes| - 1;
      var before := set i | 0 <= i < n && passes[..n][i].called && passes[..n][i].wake <= t;
      CallsByCounts(passes[..n], t);
      assert all == before + if passes[n].called && passes[n].wake <= t then {n} else {};
    }
  }

  lemma {:induction false} CallsAtMostPasses(passes: seq<Pass>, t: int)
    ensures CallsBy(passes, t) <= |passes|
    decreases |passes|
  {
    if passes != [] { CallsAtMostPasses(passes[..|passes| - 1], t); }
  }

  lemma {:induction false} CallsBoundedByGrid(passes: seq<Pass>, start: int, n: int, ks: seq<int>, t: int)
    requires n > 0 && t >= start
    requires OnGrid(passes, start, n, 1, ks) && NoSpuriousWakeUps(passes)
    ensures CallsBy(passes, t) <= (t - start) / n
    decreases |passes|
  {
    if passes == [] {
      DivisionBounds(t - start, n);
    } else {
      var m := |passes| - 1;
      var last := passes[m];
      assert OnGrid(passes[..m], start, n, 1, ks[..m]);
      if last.called && last.wake <= t {
        CallsAtMostPasses(passes, t);
        assert ks[m] >= |passes|;
        Later(|passes|, ks[m], n);
        assert |passes| * n <= t - start;
        QuotientAtLeast(|passes|, t - start, n);
      } else {
        CallsBoundedByGrid(passes[..m], start, n, ks[..m], t);
      }
    }
  }

  lemma QuotientAtLeast(q: int, a: int, n: int)
    requires n > 0 && a >= 0 && q * n <= a
    ensures q <= a / n
  {
    DivisionBounds(a, n);
    if a / n < q {
      Later(a / n + 1, q, n);
      assert false;
    }
  }

  /** Main result: the handler never runs more often than the period allows, even after delays are caught up. */
  lemma CallRateIsBounded(start: int, period: nat, readings: seq<Reading>, t: int)
    requires period > 0 && t >= start
    requires NoSpuriousWakeUps(Passes(start + PeriodNanos(period), period, readings))
    ensures CallsBy(Passes(start + PeriodNanos(period), period, readings), t) <= (t - start) / PeriodNanos(period)
  {
    var ks := PassesStayOnGrid(start, 1, period, readings);
    CallsBoundedByGrid(Passes(start + PeriodNanos(period), period, readings), start, PeriodNanos(period), ks, t);
  }

  /**
   Once `doStop` has cleared the run flag, between the test of pass i and its call or earlier, the
   handler is not called any more, and there is at most the one pass that was already waiting.
   */
  lemma {:induction false} StoppedPassesCallNothing(next: int, period: nat, readings: seq<Reading>, i: nat)
    requires period > 0 && i <= |readings|
    requires forall j :: i <= j < |readings| ==> !readings[j].runAfter && (j > i ==> !readings[j].runBefore)
    ensures |Passes(next, period, readings)| <= i + 1
    ensures forall j :: i <= j < |Passes(next, period, readings)| ==> !Passes(next, period, readings)[j].called
    decreases |readings|
  {
    if readings != [] && readings[0].runBefore && i > 0 {
      StoppedPassesCallNothing(
        Resync(next, readings[0].now, period) + PeriodNanos(period), period, readings[1..], i - 1);
    }
  }

  // ---------------------------------------------------------------------------------------------
  // The timer thread

  lemma PassesFrom(next: int, period: nat, readings: seq<Reading>, i: nat)
    requires period > 0 && i < |readings| && readings[i].runBefore
    ensures var deadline := Resync(next, readings[i].now, period);
            Passes(next, period, readings[i..])
            == [Pass(deadline, readings[i].wake, readings[i].runAfter)]
               + Passes(deadline + PeriodNanos(period), period, readings[i + 1..])
  {
    assert readings[i..][1..] == readings[i + 1..];
  }

  class Timer {
    const period: nat
    var nextWakeUpTime: int
    ghost var passes: seq<Pass>

    constructor (period: nat)
      ensures this.period == period && passes == []
    {
      this.period := period;
      nextWakeUpTime := 0;
      passes := [];
    }

    /** `start` at clock time `startTime`, followed by the passes of the timer thread. */
    method Start(startTime: int, readings: seq<Reading>)
      requires period > 0
      modifies this
      ensures passes == Passes(startTime + PeriodNanos(period), period, readings)
      ensures NeverDrifts(passes, startTime, PeriodNanos(period))
      ensures FollowsReadings(passes, readings)
    {
      nextWakeUpTime := startTime + PeriodNanos(period);
      passes := [];
      var i := 0;
      assert readings[0..] == readings;
      ghost var all := Passes(nextWakeUpTime, period, readings);
      while i < |readings| && readings[i].runBefore
        invariant 0 <= i <= |readings|
        invariant passes + Passes(nextWakeUpTime, period, readings[i..]) == all
      {
        PassesFrom(nextWakeUpTime, period, readings, i);
        Synchronise(readings[i].now);
        ghost var before, pass := passes, Pass(nextWakeUpTime, readings[i].wake, readings[i].runAfter);
        passes := passes + [pass];
        nextWakeUpTime := nextWakeUpTime + PeriodNanos(period);
        i := i + 1;
        ghost var rest := Passes(nextWakeUpTime, period, readings[i..]);
        AppendIsAssociative(before, [pass], rest);
      }
      assert Passes(nextWakeUpTime, period, readings[i..]) == [];
      DeadlinesNeverDrift(startTime, period, readings);
      PassesFollowReadings(startTime + PeriodNanos(period), period, readings);
    }

    /** Brings a late wake-up time past the present; the source asserts that it is then not in the past. */
    method Synchronise(now: int)
      requires period > 0
      modifies this`nextWakeUpTime
      ensures nextWakeUpTime == Resync(old(nextWakeUpTime), now, period)
      ensures nextWakeUpTime >= now
    {
      ResyncFindsTheNextGridPoint(nextWakeUpTime, now, period);
      if nextWakeUpTime < now {
        var diff := TruncDiv(now - nextWakeUpTime, NANOS_PER_MILLI);
        var periods := TruncDiv(diff, period) + 1;
        nextWakeUpTime := nextWakeUpTime + periods * PeriodNanos(period);
      }
    }
  }
}
