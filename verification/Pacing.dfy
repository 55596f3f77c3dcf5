/** The two pacing rules of the timed replay (scripts/evaluate_smolvla_rtc_open_loop.py:133-137 and
    177-182).  Times are relative to "start"; a sleep never returns early. */
module Pacing {
  /** What the clock does in one tick: the work up to the deadline's own clock reading, the time
      until the reading that the sleep is computed from, and how much the sleep overshoots, with
      whatever passes until the next tick reads the clock. */
  datatype Tick = Tick(work: real, gap: real, oversleep: real)
  {
    predicate Valid() {
      work >= 0.0 && gap >= 0.0 && oversleep >= 0.0
    }

    function Busy(): real {
      work + gap
    }

    predicate Exact() {
      gap == 0.0 && oversleep == 0.0
    }
  }

  function Max(x: real, y: real): real {
    if x >= y then x else y
  }

  /** When a tick starts, and the deadline that the tick before it slept for. */
  datatype Moment = Moment(start: real, deadline: real)

  /** One tick: advance the deadline, in sync mode not to the past, and sleep for what is left. */
  function Advance(sync: bool, period: real, m: Moment, t: Tick): Moment {
    var due := m.deadline + period;
    var deadline := if sync then Max(due, m.start + t.work) else due;
    var ready := m.start + t.Busy();
    Moment(ready + Max(0.0, deadline - ready) + t.oversleep, deadline)
  }

  /** The moment at which tick n starts; the first tick starts "lead" behind the start reading. */
  function Pace(sync: bool, period: real, lead: real, ticks: seq<Tick>, n: nat): Moment
    requires n <= |ticks|
  {
    if n == 0 then Moment(lead, 0.0)
    else Advance(sync, period, Pace(sync, period, lead, ticks, n - 1), ticks[n - 1])
  }

  ghost predicate ValidTicks(ticks: seq<Tick>) {
    forall i :: 0 <= i < |ticks| ==> ticks[i].Valid()
  }

  ghost predicate ExactFrom(ticks: seq<Tick>, k: nat) {
    forall i :: k <= i < |ticks| ==> ticks[i].Exact()
  }

  lemma OneMorePeriod(n: nat, period: real)
    requires n > 0
    ensures n as real * period == (n - 1) as real * period + period
  {
    assert n as real == (n - 1) as real + 1.0;
  }

  // ---------------------------------------------------------------- asynchronous pacing

  /** Without the sync rule the deadlines are the multiples of the period. */
  lemma {:induction false} RtcDeadlines(period: real, lead: real, ticks: seq<Tick>, n: nat)
    requires n <= |ticks|
    ensures Pace(false, period, lead, ticks, n).deadline == n as real * period
    decreases n
  {
    if n == 0 {
    } else {
      RtcDeadlines(period, lead, ticks, n - 1);
      OneMorePeriod(n, period);
    }
  }

  /** The time that ticks j to n-1 take when none of them has to wait for its deadline. */
  function Backlog(ticks: seq<Tick>, j: nat, n: nat): real
    requires j <= n <= |ticks|
    decreases n
  {
    if j == n then 0.0 else Backlog(ticks, j, n - 1) + ticks[n - 1].Busy() + ticks[n - 1].oversleep
  }

  /** Tick j started at its deadline (or at the lead), and nothing waited between it and tick n. */
  function Candidate(period: real, lead: real, ticks: seq<Tick>, j: nat, n: nat): real
    requires j <= n <= |ticks|
  {
    (if j == 0 then lead else j as real * period + ticks[j - 1].oversleep) + Backlog(ticks, j, n)
  }

  /** Closed form: tick n starts at the largest of the candidates.  With exact sleeps and no lead
      they are j*T plus the work of ticks j to n-1. */
  lemma {:induction false} RtcStartIsLargestCandidate(period: real, lead: real, ticks: seq<Tick>, n: nat)
      returns (witnessed: nat)
    requires n <= |ticks|
    ensures forall j :: 0 <= j <= n ==>
              Candidate(period, lead, ticks, j, n) <= Pace(false, period, lead, ticks, n).start
    ensures witnessed <= n
    ensures Candidate(period, lead, ticks, witnessed, n) == Pace(false, period, lead, ticks, n).start
    decreases n
  {
    if n == 0 {
      return 0;
    }
    witnessed := RtcStartIsLargestCandidate(period, lead, ticks, n - 1);
    RtcDeadlines(period, lead, ticks, n);
    var t, before := ticks[n - 1], Pace(false, period, lead, ticks, n - 1).start;
    assert Pace(false, period, lead, ticks, n).start == Max(before + t.Busy(), n as real * period) + t.oversleep;
    forall j | 0 <= j < n
      ensures Candidate(period, lead, ticks, j, n)
              == Candidate(period, lead, ticks, j, n - 1) + t.Busy() + t.oversleep
    {
    }
    assert Candidate(period, lead, ticks, n, n) == n as real * period + t.oversleep;
    if before + t.Busy() < n as real * period {
      witnessed := n;
    }
  }

  function Lateness(period: real, lead: real, ticks: seq<Tick>, n: nat): real
    requires n <= |ticks|
  {
    Pace(false, period, lead, ticks, n).start - n as real * period
  }

  lemma LatenessStep(period: real, lead: real, ticks: seq<Tick>, n: nat)
    requires n < |ticks|
    ensures Lateness(period, lead, ticks, n + 1)
            == Max(0.0, Lateness(period, lead, ticks, n) + ticks[n].Busy() - period) + ticks[n].oversleep
  {
    RtcDeadlines(period, lead, ticks, n + 1);
    RtcDeadlines(period, lead, ticks, n);
    OneMorePeriod(n + 1, period);
  }

  /** Lateness drains: while each tick is busy for at most the period less some slack, each takes
      the slack off it, down to zero. */
  lemma {:induction false} LatenessDrains(period: real, lead: real, ticks: seq<Tick>, slack: real, k: nat, n: nat)
    requires k <= n <= |ticks| && slack >= 0.0
    requires forall i :: k <= i < n ==> ticks[i].Busy() <= period - slack && ticks[i].oversleep == 0.0
    ensures Lateness(period, lead, ticks, n)
            <= Max(if n == k then Lateness(period, lead, ticks, k) else 0.0,
                   Lateness(period, lead, ticks, k) - (n - k) as real * slack)
    decreases n
  {
    if n == k {
    } else {
      LatenessDrains(period, lead, ticks, slack, k, n - 1);
      LatenessStep(period, lead, ticks, n - 1);
      assert (n - k) as real == (n - 1 - k) as real + 1.0;
      assert (n - k) as real * slack == (n - 1 - k) as real * slack + slack;
    }
  }

  // ---------------------------------------------------------------- both rules

  /** Deadlines are at least a period apart. */
  lemma DeadlineSpacing(sync: bool, period: real, lead: real, ticks: seq<Tick>, n: nat)
    requires n < |ticks|
    ensures Pace(sync, period, lead, ticks, n + 1).deadline >= Pace(sync, period, lead, ticks, n).deadline + period
  {
  }

  lemma AdvanceKeepsDeadline(sync: bool, period: real, m: Moment, t: Tick)
    requires t.Valid()
    ensures Advance(sync, period, m, t).start >= Advance(sync, period, m, t).deadline >= m.deadline + period
  {
  }

  /** A tick never starts before the deadline the tick before it slept for; n ticks take at least n
      periods. */
  lemma {:induction false} TicksTakeTheirTime(sync: bool, period: real, lead: real, ticks: seq<Tick>, n: nat)
    requires n <= |ticks| && ValidTicks(ticks) && lead >= 0.0
    ensures Pace(sync, period, lead, ticks, n).start >= Pace(sync, period, lead, ticks, n).deadline
    ensures Pace(sync, period, lead, ticks, n).deadline >= n as real * period
    decreases n
  {
    hide Advance, Tick.Valid;
    if n == 0 {
    } else {
      TicksTakeTheirTime(sync, period, lead, ticks, n - 1);
      AdvanceKeepsDeadline(sync, period, Pace(sync, period, lead, ticks, n - 1), ticks[n - 1]);
      OneMorePeriod(n, period);
    }
  }

  /** The reported replay rate never exceeds the recording rate. */
  lemma ReplayRateIsBounded(sync: bool, fps: real, lead: real, ticks: seq<Tick>, elapsed: real)
    requires fps > 0.0 && ValidTicks(ticks) && lead >= 0.0 && ticks != []
    requires elapsed >= Pace(sync, 1.0 / fps, lead, ticks, |ticks|).start
    ensures elapsed > 0.0 && |ticks| as real / elapsed <= fps
  {
    TicksTakeTheirTime(sync, 1.0 / fps, lead, ticks, |ticks|);
    RateOf(|ticks| as real, fps, elapsed);
  }

  lemma RateOf(n: real, fps: real, elapsed: real)
    requires n > 0.0 && fps > 0.0 && elapsed >= n * (1.0 / fps)
    ensures elapsed > 0.0 && n / elapsed <= fps
  {
    assert n * (1.0 / fps) == n / fps;
    assert n / fps > 0.0;
    assert elapsed * fps >= n / fps * fps == n;
  }

  /** For the same ticks, the sync rule is never ahead of the asynchronous one. */
  lemma {:induction false} SyncIsNeverAhead(period: real, lead: real, ticks: seq<Tick>, n: nat)
    requires n <= |ticks|
    ensures Pace(true, period, lead, ticks, n).start >= Pace(false, period, lead, ticks, n).start
    ensures Pace(true, period, lead, ticks, n).deadline >= Pace(false, period, lead, ticks, n).deadline
    decreases n
  {
    if n == 0 {
    } else {
      SyncIsNeverAhead(period, lead, ticks, n - 1);
    }
  }

  // ---------------------------------------------------------------- synchronous pacing

  /** With exact sleeps every tick of the sync rule starts at its deadline, and the distance between
      two ticks is the period or the work, whichever is longer. */
  lemma {:induction false} SyncExactGaps(period: real, ticks: seq<Tick>, n: nat)
    requires n < |ticks| && ValidTicks(ticks) && ExactFrom(ticks, 0)
    ensures Pace(true, period, 0.0, ticks, n).start == Pace(true, period, 0.0, ticks, n).deadline
    ensures Pace(true, period, 0.0, ticks, n + 1).start - Pace(true, period, 0.0, ticks, n).start
            == Max(period, ticks[n].work)
    decreases n
  {
    if n == 0 {
    } else {
      SyncExactGaps(period, ticks, n - 1);
      assert ticks[n - 1].Exact();
    }
    assert ticks[n].Exact();
  }

  /** No catch-up burst: however slow the ticks before were, two starts under the sync rule are at
      least a period apart, but for the slack of the one clock reading and sleep between them. */
  lemma SyncNeverBursts(period: real, lead: real, ticks: seq<Tick>, n: nat)
    requires 0 < n < |ticks| && ValidTicks(ticks)
    ensures Pace(true, period, lead, ticks, n + 1).start - Pace(true, period, lead, ticks, n).start
            >= period - ticks[n - 1].gap - ticks[n - 1].oversleep
  {
    assert ticks[n - 1].Valid() && ticks[n].Valid();
    var m := Pace(true, period, lead, ticks, n);
    var before := Pace(true, period, lead, ticks, n - 1);
    assert m == Advance(true, period, before, ticks[n - 1]);
    assert m.start <= m.deadline + ticks[n - 1].gap + ticks[n - 1].oversleep;
    assert Pace(true, period, lead, ticks, n + 1) == Advance(true, period, m, ticks[n]);
  }

  /** The asynchronous rule does burst: as long as it is late, a tick follows the one before it after
      no more than the time that one was busy. */
  lemma RtcCatchesUp(period: real, lead: real, ticks: seq<Tick>, n: nat)
    requires n < |ticks|
    requires Lateness(period, lead, ticks, n) + ticks[n].Busy() >= period
    ensures Pace(false, period, lead, ticks, n + 1).start - Pace(false, period, lead, ticks, n).start
            == ticks[n].Busy() + ticks[n].oversleep
  {
    RtcDeadlines(period, lead, ticks, n + 1);
    OneMorePeriod(n + 1, period);
  }
}
