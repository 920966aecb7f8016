/**
 * The import's budget arithmetic (src/import-budget.ts): how fast it may churn storage, which codec the
 * caches publish in, and how many cache shards the storage pool holds. Byte counts are integers and
 * shares of a budget are reals.
 */
module ImportBudget {
  import opened Wrappers

  // ---- storage churn pacing -----------------------------------------------------------------------------

  const PACE_START_BPS: int := 1024 * 1024
  const PACE_MIN_BPS: int := 256 * 1024
  const PACE_MAX_BPS: int := 2 * 1024 * 1024
  const PACE_STEP_BPS: int := 32 * 1024
  const PACE_STEP_MIN_CHURN: int := 4 * 1024 * 1024
  const LATE_ALARM_MS: int := 2 * 60_000
  const PACE_MAX_DELAY_MS: int := 10 * 60_000

  function Min(a: int, b: int): int { if a < b then a else b }

  function Max(a: int, b: int): int { if a > b then a else b }

  /** `Math.round`: halves up. */
  function Round(x: real): int {
    (x + 0.5).Floor
  }

  /** A pace of 0 is one not yet set. */
  function Current(paceBps: int): int {
    if paceBps == 0 then PACE_START_BPS else paceBps
  }

  function PaceDelayMs(churnBytes: int, elapsedMs: int, paceBps: int): int {
    if churnBytes <= 0 then 0
    else
      var bps := Max(PACE_MIN_BPS, Current(paceBps));
      var wanted := (churnBytes as real / bps as real) * 1000.0 - Max(0, elapsedMs) as real;
      Round(if wanted <= 0.0 then 0.0 else if wanted >= PACE_MAX_DELAY_MS as real then PACE_MAX_DELAY_MS as real else wanted)
  }

  function AdjustPace(paceBps: int, lagMs: int, churnBytes: int): int {
    var current := Current(paceBps);
    if lagMs > LATE_ALARM_MS then Max(PACE_MIN_BPS, current / 2)
    else if churnBytes >= PACE_STEP_MIN_CHURN then Min(PACE_MAX_BPS, current + PACE_STEP_BPS)
    else Min(PACE_MAX_BPS, Max(PACE_MIN_BPS, current))
  }

  /** Unset, or between the floor and the ceiling. */
  predicate PaceOk(paceBps: int) {
    paceBps == 0 || PACE_MIN_BPS <= paceBps <= PACE_MAX_BPS
  }

  /** The run's pacing state between two alarms: when the next one is due (0: not known), and the pace. */
  datatype Chain = Chain(due: int, pace: int)

  /** One alarm: when it ran and for how long (ms), what it churned, and the least pause its step asks for. */
  datatype Alarm = Alarm(start: int, elapsed: nat, churn: nat, stepDelay: nat)

  function Lag(c: Chain, a: Alarm): int {
    if c.due > 0 then Max(0, a.start - c.due) else 0
  }

  /** A late alarm halves the pace before it works; an on-time one adjusts it after, by what it churned. */
  function PaceAfter(c: Chain, a: Alarm): int {
    var lag := Lag(c, a);
    if lag > LATE_ALARM_MS then AdjustPace(c.pace, lag, 0) else AdjustPace(c.pace, 0, a.churn)
  }

  function Next(c: Chain, a: Alarm): Chain {
    var pace := PaceAfter(c, a);
    Chain(a.start + a.elapsed + Max(PaceDelayMs(a.churn, a.elapsed, pace), a.stepDelay), pace)
  }

  function Run(c: Chain, alarms: seq<Alarm>): Chain
    decreases |alarms|
  {
    if alarms == [] then c else Run(Next(c, alarms[0]), alarms[1..])
  }

  /** No alarm runs before it is due. */
  predicate OnSchedule(c: Chain, alarms: seq<Alarm>)
    decreases |alarms|
  {
    alarms == [] || (alarms[0].start >= c.due && OnSchedule(Next(c, alarms[0]), alarms[1..]))
  }

  function Churned(alarms: seq<Alarm>): nat {
    if alarms == [] then 0 else alarms[0].churn + Churned(alarms[1..])
  }

  /** From the initial 0, the pace never leaves its band, and every alarm sets it. */
  lemma {:induction false} PaceStaysInBand(c: Chain, alarms: seq<Alarm>)
    requires PaceOk(c.pace)
    ensures PaceOk(Run(c, alarms).pace)
    ensures alarms != [] ==> Run(c, alarms).pace != 0
    decreases |alarms|
  {
    if alarms != [] {
      PaceStaysInBand(Next(c, alarms[0]), alarms[1..]);
      if alarms[1..] == [] {
        assert Run(c, alarms) == Next(c, alarms[0]);
      }
    }
  }

  /** `wanted` is at most half a millisecond more than the delay given. */
  lemma RoundIsNear(x: real)
    ensures x - 0.5 < Round(x) as real <= x + 0.5
  {
  }

  lemma TimesQuotient(churn: real, bps: real, ms: real)
    requires bps > 0.0 && (churn / bps) * 1000.0 <= ms
    ensures churn * 1000.0 <= bps * ms
  {
    assert bps * ((churn / bps) * 1000.0) == churn * 1000.0;
    var gap := ms - (churn / bps) * 1000.0;
    assert bps * gap >= 0.0;
    assert bps * ms == bps * gap + bps * ((churn / bps) * 1000.0);
  }

  /** The pause that the pace asks for, short of the longest one, covers the churn. */
  lemma PauseCovers(churn: nat, elapsed: nat, pace: int)
    requires PACE_MIN_BPS <= pace && PaceDelayMs(churn, elapsed, pace) < PACE_MAX_DELAY_MS
    ensures 2000 * churn <= pace * (2 * (elapsed + PaceDelayMs(churn, elapsed, pace)) + 1)
  {
    if churn > 0 {
      var delay := PaceDelayMs(churn, elapsed, pace);
      var wanted := (churn as real / pace as real) * 1000.0 - elapsed as real;
      assert Round(PACE_MAX_DELAY_MS as real) == PACE_MAX_DELAY_MS;
      RoundIsNear(if wanted > 0.0 then wanted else 0.0);
      assert wanted <= delay as real + 0.5;
      TimesQuotient(churn as real, pace as real, elapsed as real + delay as real + 0.5);
      InMilliseconds(churn, pace, elapsed + delay);
    }
  }

  lemma InMilliseconds(churn: int, pace: int, ms: int)
    requires churn as real * 1000.0 <= pace as real * (ms as real + 0.5)
    ensures 2000 * churn <= pace * (2 * ms + 1)
  {
    assert pace as real * (ms as real + 0.5) * 2.0 == pace as real * ((2 * ms + 1) as real);
    assert (2000 * churn) as real <= (pace * (2 * ms + 1)) as real;
  }

  /** `wanted` between the half milliseconds around a time, times the pace. */
  lemma QuotientTimes(churn: real, bps: real, ms: real)
    requires bps > 0.0
    ensures (churn / bps) * 1000.0 >= ms <==> churn * 1000.0 >= bps * ms
  {
    var q := (churn / bps) * 1000.0;
    assert bps * q == churn * 1000.0;
    if q >= ms {
      assert bps * (q - ms) >= 0.0;
    } else {
      assert bps * (ms - q) > 0.0;
    }
  }

  /** In half milliseconds: the churn needs at least the time `half / 2` at the pace. */
  lemma AtLeastHalves(churn: int, pace: int, half: int)
    requires pace > 0
    ensures (churn as real / pace as real) * 1000.0 >= half as real / 2.0 <==> 2000 * churn >= pace * half
  {
    QuotientTimes(churn as real, pace as real, half as real / 2.0);
    assert pace as real * (half as real / 2.0) * 2.0 == (pace * half) as real;
  }

  /** A delay between the bounds is the rounding of what is wanted exactly where it is within half a millisecond of it. */
  lemma RoundExactly(wanted: real, most: int, d: int)
    requires 0 <= d <= most
    ensures Round(if wanted <= 0.0 then 0.0 else if wanted >= most as real then most as real else wanted) == d
       <==> (d > 0 ==> d as real - 0.5 <= wanted) && (d < most ==> wanted < d as real + 0.5)
  {
  }

  /**
   * The pause in full: the one number of milliseconds, none to the longest, that is needed for the churn at the
   * pace, to the nearest, unless it is the longest one.
   */
  lemma PauseExactly(churn: int, elapsed: int, pace: int, d: int)
    requires PACE_MIN_BPS <= pace && 0 <= d <= PACE_MAX_DELAY_MS
    ensures PaceDelayMs(churn, elapsed, pace) == d
       <==> && (d > 0 ==> pace * (2 * (Max(0, elapsed) + d) - 1) <= 2000 * churn)
            && (d < PACE_MAX_DELAY_MS ==> 2000 * churn < pace * (2 * (Max(0, elapsed) + d) + 1))
  {
    var e := Max(0, elapsed);
    if churn > 0 {
      var wanted := (churn as real / pace as real) * 1000.0 - e as real;
      RoundExactly(wanted, PACE_MAX_DELAY_MS, d);
      AtLeastHalves(churn, pace, 2 * (e + d) - 1);
      AtLeastHalves(churn, pace, 2 * (e + d) + 1);
    } else {
      LongerIsMore(pace, 1, 2 * (e + d) + 1);
      if d > 0 {
        LongerIsMore(pace, 1, 2 * (e + d) - 1);
      }
    }
  }

  /** A pace not yet set is the starting one, and none is slower than the floor. */
  lemma PaceIsAtLeast(churn: int, elapsed: int, pace: int)
    ensures PaceDelayMs(churn, elapsed, 0) == PaceDelayMs(churn, elapsed, PACE_START_BPS)
    ensures pace < PACE_MIN_BPS && pace != 0 ==> PaceDelayMs(churn, elapsed, pace) == PaceDelayMs(churn, elapsed, PACE_MIN_BPS)
  {
  }

  lemma DelayInBounds(churn: int, elapsed: int, pace: int)
    ensures 0 <= PaceDelayMs(churn, elapsed, pace) <= PACE_MAX_DELAY_MS
  {
    assert Round(PACE_MAX_DELAY_MS as real) == PACE_MAX_DELAY_MS;
  }

  lemma LongerIsMore(pace: int, x: int, y: int)
    requires 0 <= pace && x <= y
    ensures pace * x <= pace * y
  {
  }

  /**
   * An alarm and its pause last as long as the pace asks for its churn, but for half a millisecond, exactly
   * when the alarm and the longest pause would.
   */
  lemma DelayCovers(churn: nat, elapsed: nat, pace: int)
    requires PACE_MIN_BPS <= pace
    ensures 2000 * churn <= pace * (2 * (elapsed + PaceDelayMs(churn, elapsed, pace)) + 1)
       <==> 2000 * churn <= pace * (2 * (elapsed + PACE_MAX_DELAY_MS) + 1)
  {
    var delay := PaceDelayMs(churn, elapsed, pace);
    DelayInBounds(churn, elapsed, pace);
    if delay < PACE_MAX_DELAY_MS {
      PauseCovers(churn, elapsed, pace);
      LongerIsMore(pace, 2 * (elapsed + delay) + 1, 2 * (elapsed + PACE_MAX_DELAY_MS) + 1);
    }
  }

  lemma SlowerIsLess(pace: int, x: int)
    requires pace <= PACE_MAX_BPS && x >= 0
    ensures pace * x <= PACE_MAX_BPS * x
  {
  }

  lemma PaceAfterOk(c: Chain, a: Alarm)
    requires PaceOk(c.pace)
    ensures PACE_MIN_BPS <= PaceAfter(c, a) <= PACE_MAX_BPS
  {
  }

  /** The ceiling, with half a millisecond's worth of it, moves the alarm's churn in its time and the longest pause it can get. */
  predicate Absorbed(a: Alarm) {
    2000 * a.churn <= PACE_MAX_BPS * (2 * (a.elapsed + Max(PACE_MAX_DELAY_MS, a.stepDelay)) + 1)
  }

  /** One alarm's churn fits the time to when the next one is due, at the ceiling, exactly when it can be absorbed. */
  lemma OneAlarmBounded(c: Chain, a: Alarm)
    requires PaceOk(c.pace)
    ensures 2000 * a.churn <= PACE_MAX_BPS * (2 * (Next(c, a).due - a.start) + 1) <==> Absorbed(a)
  {
    PaceAfterOk(c, a);
    var pace := PaceAfter(c, a);
    var delay := PaceDelayMs(a.churn, a.elapsed, pace);
    DelayInBounds(a.churn, a.elapsed, pace);
    var lasts, most := a.elapsed + Max(delay, a.stepDelay), a.elapsed + Max(PACE_MAX_DELAY_MS, a.stepDelay);
    assert Next(c, a).due - a.start == lasts <= most;
    LongerIsMore(PACE_MAX_BPS, 2 * lasts + 1, 2 * most + 1);
    if delay < PACE_MAX_DELAY_MS {
      PauseCovers(a.churn, a.elapsed, pace);
      SlowerIsLess(pace, 2 * (a.elapsed + delay) + 1);
      LongerIsMore(PACE_MAX_BPS, 2 * (a.elapsed + delay) + 1, 2 * lasts + 1);
    }
  }

  /**
   * When the next alarm is due: no sooner than the step's own delay, and later only as long as the churn needs,
   * up to the longest pause.
   */
  lemma DueExactly(c: Chain, a: Alarm)
    requires PaceOk(c.pace)
    ensures var next := Next(c, a);
            var lasts := next.due - a.start;
            && a.elapsed + a.stepDelay <= lasts <= a.elapsed + Max(PACE_MAX_DELAY_MS, a.stepDelay)
            && (lasts > a.elapsed + a.stepDelay ==> next.pace * (2 * lasts - 1) <= 2000 * a.churn)
            && (2000 * a.churn < next.pace * (2 * lasts + 1) || lasts >= a.elapsed + PACE_MAX_DELAY_MS)
  {
    PaceAfterOk(c, a);
    var pace := PaceAfter(c, a);
    var delay := PaceDelayMs(a.churn, a.elapsed, pace);
    DelayInBounds(a.churn, a.elapsed, pace);
    PauseExactly(a.churn, a.elapsed, pace, delay);
    LongerIsMore(pace, 2 * (a.elapsed + delay) + 1, 2 * (Next(c, a).due - a.start) + 1);
  }

  lemma RunUnfolds(c: Chain, alarms: seq<Alarm>)
    requires alarms != []
    ensures Run(c, alarms) == Run(Next(c, alarms[0]), alarms[1..])
    ensures Churned(alarms) == alarms[0].churn + Churned(alarms[1..])
  {
  }

  /** An alarm's window, to when the next is due, and the rest's, from when that one starts. */
  lemma Windows(churn: nat, later: nat, due: int, start: int, rest: int, n: nat)
    requires 2000 * churn <= PACE_MAX_BPS * (2 * due + 1) && due <= start
    requires 2000 * later <= PACE_MAX_BPS * (2 * rest + n)
    ensures 2000 * (churn + later) <= PACE_MAX_BPS * (2 * (start + rest) + n + 1)
  {
  }

  /** The window's churn is at most the ceiling times the time to its end, plus half a millisecond of it an alarm. */
  predicate Bounded(c: Chain, alarms: seq<Alarm>)
    requires alarms != []
  {
    2000 * Churned(alarms) <= PACE_MAX_BPS * (2 * (Run(c, alarms).due - alarms[0].start) + |alarms|)
  }

  lemma OneAlarmWindow(c: Chain, a: Alarm)
    requires PaceOk(c.pace)
    ensures Bounded(c, [a]) <==> Absorbed(a)
  {
    RunUnfolds(c, [a]);
    assert [a][1..] == [];
    OneAlarmBounded(c, a);
  }

  /** Over any window of alarms that can each be absorbed. */
  lemma {:induction false} ThroughputBounded(c: Chain, alarms: seq<Alarm>)
    requires PaceOk(c.pace) && alarms != [] && OnSchedule(c, alarms)
    requires forall i | 0 <= i < |alarms| :: Absorbed(alarms[i])
    ensures Bounded(c, alarms)
    decreases |alarms|
  {
    var a, rest := alarms[0], alarms[1..];
    if rest == [] {
      assert alarms == [a];
      OneAlarmWindow(c, a);
    } else {
      var n := Next(c, a);
      PaceAfterOk(c, a);
      OneAlarmBounded(c, a);
      ThroughputBounded(n, rest);
      RunUnfolds(c, alarms);
      Windows(a.churn, Churned(rest), n.due - a.start, rest[0].start - a.start, Run(n, rest).due - rest[0].start, |rest|);
    }
  }

  /** Every window that opens with the run's first alarm, or with a later one. */
  predicate EveryWindowBounded(c: Chain, alarms: seq<Alarm>)
    decreases |alarms|
  {
    alarms == [] ||
    (&& (forall n | 0 < n <= |alarms| :: Bounded(c, alarms[..n]))
     && EveryWindowBounded(Next(c, alarms[0]), alarms[1..]))
  }

  lemma {:induction false} ScheduleOfFront(c: Chain, alarms: seq<Alarm>, n: nat)
    requires OnSchedule(c, alarms) && n <= |alarms|
    ensures OnSchedule(c, alarms[..n])
    decreases n
  {
    if n > 0 {
      ScheduleOfFront(Next(c, alarms[0]), alarms[1..], n - 1);
      assert alarms[..n][1..] == alarms[1..][..n - 1];
    }
  }

  lemma WindowsFromFirst(c: Chain, alarms: seq<Alarm>)
    requires PaceOk(c.pace) && OnSchedule(c, alarms)
    requires forall i | 0 <= i < |alarms| :: Absorbed(alarms[i])
    ensures forall n | 0 < n <= |alarms| :: Bounded(c, alarms[..n])
  {
    forall n | 0 < n <= |alarms| ensures Bounded(c, alarms[..n]) {
      ScheduleOfFront(c, alarms, n);
      ThroughputBounded(c, alarms[..n]);
    }
  }

  /** Pacing bounds every window of a run exactly when each of its alarms can be absorbed. */
  lemma {:induction false} ThroughputExactly(c: Chain, alarms: seq<Alarm>)
    requires PaceOk(c.pace) && OnSchedule(c, alarms)
    ensures EveryWindowBounded(c, alarms) <==> forall i | 0 <= i < |alarms| :: Absorbed(alarms[i])
    decreases |alarms|
  {
    if alarms != [] {
      var a, rest := alarms[0], alarms[1..];
      PaceAfterOk(c, a);
      ThroughputExactly(Next(c, a), rest);
      if EveryWindowBounded(c, alarms) {
        assert alarms[..1] == [a];
        OneAlarmWindow(c, a);
        forall i | 0 <= i < |alarms| ensures Absorbed(alarms[i]) {
          if i > 0 {
            assert Absorbed(rest[i - 1]);
          }
        }
      } else if forall i | 0 <= i < |alarms| :: Absorbed(alarms[i]) {
        WindowsFromFirst(c, alarms);
      }
    }
  }

  /** A burst that no pause of the pacing's length absorbs: 2000 MiB at once. */
  lemma CappedPauseOutrunsTheCeiling()
    ensures var a := Alarm(1, 0, PACE_MAX_BPS * 1000, 0); !Absorbed(a) && !Bounded(Chain(0, 0), [a])
  {
    var a := Alarm(1, 0, PACE_MAX_BPS * 1000, 0);
    OneAlarmWindow(Chain(0, 0), a);
  }

  /** Every alarm of the run comes more than two minutes after it was due. */
  predicate AllLate(c: Chain, alarms: seq<Alarm>)
    decreases |alarms|
  {
    alarms == [] || (c.due > 0 && alarms[0].start > c.due + LATE_ALARM_MS && AllLate(Next(c, alarms[0]), alarms[1..]))
  }

  /** None does, and every one churns enough to raise the pace, or none does. */
  predicate AllOnTime(c: Chain, alarms: seq<Alarm>, busy: bool)
    decreases |alarms|
  {
    alarms == [] ||
    (&& (c.due > 0 ==> alarms[0].start <= c.due + LATE_ALARM_MS)
     && (busy <==> alarms[0].churn >= PACE_STEP_MIN_CHURN)
     && AllOnTime(Next(c, alarms[0]), alarms[1..], busy))
  }

  /** Over on-time alarms the pace rises by a step each, up to the ceiling, or stays. */
  lemma {:induction false} OnTimeClimbs(c: Chain, alarms: seq<Alarm>, busy: bool)
    requires PACE_MIN_BPS <= c.pace <= PACE_MAX_BPS && AllOnTime(c, alarms, busy)
    ensures Run(c, alarms).pace == if busy then Min(PACE_MAX_BPS, c.pace + |alarms| * PACE_STEP_BPS) else c.pace
    decreases |alarms|
  {
    if alarms != [] {
      OnTimeClimbs(Next(c, alarms[0]), alarms[1..], busy);
    }
  }

  /** Over late alarms the pace halves, down to the floor, which three are enough for. */
  lemma {:induction false} LateHalves(c: Chain, alarms: seq<Alarm>)
    requires PACE_MIN_BPS <= c.pace <= PACE_MAX_BPS && AllLate(c, alarms)
    ensures |alarms| >= 3 ==> Run(c, alarms).pace == PACE_MIN_BPS
    ensures |alarms| == 2 ==> Run(c, alarms).pace == Max(PACE_MIN_BPS, c.pace / 4)
    ensures |alarms| == 1 ==> Run(c, alarms).pace == Max(PACE_MIN_BPS, c.pace / 2)
    decreases |alarms|
  {
    if alarms != [] {
      var next := Next(c, alarms[0]);
      assert next.pace == Max(PACE_MIN_BPS, c.pace / 2);
      LateHalves(next, alarms[1..]);
    }
  }

  /** From anywhere in the band 3 late alarms reach the floor and 56 busy on-time ones the ceiling; fewer need not. */
  lemma ReachesFloorAndCeiling(c: Chain, alarms: seq<Alarm>)
    requires PACE_MIN_BPS <= c.pace <= PACE_MAX_BPS
    ensures AllLate(c, alarms) && |alarms| >= 3 ==> Run(c, alarms).pace == PACE_MIN_BPS
    ensures AllLate(c, alarms) && |alarms| <= 2 && c.pace == PACE_MAX_BPS ==> Run(c, alarms).pace != PACE_MIN_BPS
    ensures AllOnTime(c, alarms, true) && |alarms| >= 56 ==> Run(c, alarms).pace == PACE_MAX_BPS
    ensures AllOnTime(c, alarms, true) && |alarms| <= 55 && c.pace == PACE_MIN_BPS ==> Run(c, alarms).pace != PACE_MAX_BPS
    ensures AllOnTime(c, alarms, false) ==> Run(c, alarms).pace == c.pace
  {
    if AllLate(c, alarms) {
      LateHalves(c, alarms);
    }
    if AllOnTime(c, alarms, true) {
      OnTimeClimbs(c, alarms, true);
    }
    if AllOnTime(c, alarms, false) {
      OnTimeClimbs(c, alarms, false);
    }
  }

  // ---- the cache codec ------------------------------------------------------------------------------------

  datatype CacheCodec = Gzip | Lz4

  const LZ4_CACHE_RATIO: real := 1.5
  const LZ4_ON_FRACTION: real := 0.8
  const LZ4_OFF_FRACTION: real := 0.88

  function DecideCacheCodec(previous: Option<CacheCodec>, projectedLz4Bytes: real, budget: real): CacheCodec {
    if projectedLz4Bytes <= 0.0 then Gzip
    else if previous == Some(Lz4) then if projectedLz4Bytes > LZ4_OFF_FRACTION * budget then Gzip else Lz4
    else if projectedLz4Bytes <= LZ4_ON_FRACTION * budget then Lz4 else Gzip
  }

  /** The codec after the builds projected so far. */
  function CodecAfter(previous: Option<CacheCodec>, projections: seq<real>, budget: real): Option<CacheCodec> {
    if projections == [] then previous
    else
      var n := |projections| - 1;
      Some(DecideCacheCodec(CodecAfter(previous, projections[..n], budget), projections[n], budget))
  }

  /** One build turned lz4 on, and none since turned it off. */
  predicate OnSince(projections: seq<real>, budget: real, n: nat) {
    && n < |projections| && 0.0 < projections[n] <= LZ4_ON_FRACTION * budget
    && forall m | n < m < |projections| :: 0.0 < projections[m] <= LZ4_OFF_FRACTION * budget
  }

  /** The gate's memory: starting without lz4 it is on exactly since some build within the ON line, all later ones within the OFF line. */
  lemma {:induction false} GateRemembers(projections: seq<real>, budget: real)
    requires budget > 0.0
    ensures CodecAfter(None, projections, budget) == Some(Lz4) <==> exists n: nat :: OnSince(projections, budget, n)
    decreases |projections|
  {
    if projections != [] {
      var last := |projections| - 1;
      var front := projections[..last];
      GateRemembers(front, budget);
      if n: nat :| OnSince(front, budget, n) {
        assert OnSince(projections, budget, n) <==> 0.0 < projections[last] <= LZ4_OFF_FRACTION * budget;
      }
      if n: nat :| OnSince(projections, budget, n) {
        if n < last {
          assert OnSince(front, budget, n);
        } else {
          assert OnSince(projections, budget, last);
        }
      }
      if 0.0 < projections[last] <= LZ4_ON_FRACTION * budget {
        assert OnSince(projections, budget, last);
      }
    }
  }

  /** How often a build's codec differs from the one before it. */
  function Changes(previous: Option<CacheCodec>, projections: seq<real>, budget: real): nat {
    if projections == [] then 0
    else
      var n := |projections| - 1;
      var before := CodecAfter(previous, projections[..n], budget);
      Changes(previous, projections[..n], budget)
        + if before.Some? && before != CodecAfter(previous, projections, budget) then 1 else 0
  }

  /** How often a projection of zero or less turns lz4 off, wherever in the dead band or below it was. */
  function SwitchOffs(previous: Option<CacheCodec>, projections: seq<real>, budget: real): nat {
    if projections == [] then 0
    else
      var n := |projections| - 1;
      var before := CodecAfter(previous, projections[..n], budget);
      SwitchOffs(previous, projections[..n], budget) + if before == Some(Lz4) && projections[n] <= 0.0 then 1 else 0
  }

  function Distance(x: real, y: real): real {
    if x < y then y - x else x - y
  }

  function Variation(projections: seq<real>): real {
    if |projections| < 2 then 0.0
    else
      var n := |projections| - 1;
      Variation(projections[..n]) + Distance(projections[n - 1], projections[n])
  }

  function DeadBand(budget: real): real {
    (LZ4_OFF_FRACTION - LZ4_ON_FRACTION) * budget
  }

  /** How far the projection has come back from where the last change put it, at most the dead band. */
  function Strayed(codec: CacheCodec, projection: real, budget: real): real {
    var d := match codec
             case Lz4 => projection - LZ4_ON_FRACTION * budget
             case Gzip => LZ4_OFF_FRACTION * budget - projection;
    if d < 0.0 then 0.0 else if d > DeadBand(budget) then DeadBand(budget) else d
  }

  /** Moving to `p` pays for what it does: a change costs the dead band less what was strayed, and starts anew. */
  predicate PaysItsWay(codec: CacheCodec, q: real, p: real, budget: real) {
    var next := DecideCacheCodec(Some(codec), p, budget);
    if next == codec then Strayed(codec, p, budget) <= Strayed(codec, q, budget) + Distance(q, p)
    else Strayed(next, p, budget) == 0.0 && DeadBand(budget) <= Strayed(codec, q, budget) + Distance(q, p)
  }

  /** A projection pays its way exactly when it is positive or finds lz4 off already. */
  lemma OneProjectionExactly(codec: CacheCodec, q: real, p: real, budget: real)
    requires budget > 0.0
    ensures PaysItsWay(codec, q, p, budget) <==> p > 0.0 || codec == Gzip
  {
    if p <= 0.0 && codec == Lz4 {
      assert Strayed(Gzip, p, budget) == DeadBand(budget);
    }
  }

  /** `made` changes, all but one and two for each switch-off paid for by `variation`, with `strayed` to spare. */
  predicate Paid(made: nat, offs: nat, band: real, strayed: real, variation: real) {
    Owed(made, offs) as real * band + strayed <= variation
  }

  function Owed(made: nat, offs: nat): int {
    made - 1 - 2 * offs
  }

  lemma PaidOnce(offs: nat, band: real, variation: real, strayed: real)
    requires band >= 0.0 && variation >= 0.0
    requires strayed == 0.0 || (offs > 0 && strayed <= band)
    ensures Paid(1, offs, band, strayed, variation)
  {
    Scaled(Owed(1, offs), if strayed == 0.0 then 0 else -1, band);
  }

  lemma Scaled(m: int, n: int, band: real)
    requires m <= n && band >= 0.0
    ensures m as real * band <= n as real * band
  {
  }

  lemma PaidAgain(made: nat, offs: nat, band: real, strayed: real, variation: real, moved: real, changed: bool, strayed': real)
    requires Paid(made, offs, band, strayed, variation)
    requires if changed then strayed' == 0.0 && band <= strayed + moved else strayed' <= strayed + moved
    ensures Paid(if changed then made + 1 else made, offs, band, strayed', variation + moved)
  {
    var owed := Owed(made, offs);
    assert Owed(made + 1, offs) == owed + 1;
    assert (owed + 1) as real * band == owed as real * band + band;
  }

  /** A switch-off takes two bands off the bill: its own change, and the next, which it pays nothing for. */
  lemma PaidBySwitchOff(made: nat, offs: nat, band: real, strayed: real, variation: real, moved: real, strayed': real)
    requires Paid(made, offs, band, strayed, variation) && 0.0 <= strayed && strayed' <= band && moved >= 0.0
    ensures Paid(made + 1, offs + 1, band, strayed', variation + moved)
  {
    var owed := Owed(made, offs);
    assert Owed(made + 1, offs + 1) == owed - 1;
    assert (owed - 1) as real * band == owed as real * band - band;
  }

  lemma {:induction false} VariationNotNegative(projections: seq<real>)
    ensures Variation(projections) >= 0.0
    decreases |projections|
  {
    if |projections| >= 2 {
      VariationNotNegative(projections[..|projections| - 1]);
    }
  }

  /** One more build. */
  lemma OneMoreBuild(previous: Option<CacheCodec>, rest: seq<real>, p: real, budget: real)
    ensures var all := rest + [p];
            var before := CodecAfter(previous, rest, budget);
            var after := DecideCacheCodec(before, p, budget);
            && CodecAfter(previous, all, budget) == Some(after)
            && Changes(previous, all, budget)
               == Changes(previous, rest, budget) + (if before.Some? && before.value != after then 1 else 0)
            && SwitchOffs(previous, all, budget)
               == SwitchOffs(previous, rest, budget) + (if before == Some(Lz4) && p <= 0.0 then 1 else 0)
            && (rest != [] ==> Variation(all) == Variation(rest) + Distance(rest[|rest| - 1], p))
            && (rest == [] ==> Variation(all) == 0.0)
  {
    assert (rest + [p])[..|rest|] == rest;
  }

  lemma {:induction false} VariationPaysForChanges(previous: Option<CacheCodec>, projections: seq<real>, budget: real)
    requires budget > 0.0
    requires projections != [] && Changes(previous, projections, budget) > 0
    ensures Paid(Changes(previous, projections, budget), SwitchOffs(previous, projections, budget), DeadBand(budget),
                 Strayed(CodecAfter(previous, projections, budget).value, projections[|projections| - 1], budget),
                 Variation(projections))
    decreases |projections|
  {
    var n := |projections| - 1;
    var rest, p := projections[..n], projections[n];
    assert projections == rest + [p];
    OneMoreBuild(previous, rest, p, budget);
    var made, offs := Changes(previous, rest, budget), SwitchOffs(previous, rest, budget);
    var before := CodecAfter(previous, rest, budget);
    var after := DecideCacheCodec(before, p, budget);
    VariationNotNegative(projections);
    if made == 0 {
      OneProjectionExactly(before.value, p, p, budget);
      PaidOnce(SwitchOffs(previous, projections, budget), DeadBand(budget), Variation(projections), Strayed(after, p, budget));
    } else {
      VariationPaysForChanges(previous, rest, budget);
      NextIsPaid(made, offs, before.value, rest[n - 1], p, budget, Variation(rest));
    }
  }

  lemma NextIsPaid(made: nat, offs: nat, codec: CacheCodec, q: real, p: real, budget: real, variation: real)
    requires budget > 0.0 && Paid(made, offs, DeadBand(budget), Strayed(codec, q, budget), variation)
    ensures var next := DecideCacheCodec(Some(codec), p, budget);
            Paid(if next != codec then made + 1 else made, if codec == Lz4 && p <= 0.0 then offs + 1 else offs,
                 DeadBand(budget), Strayed(next, p, budget), variation + Distance(q, p))
  {
    var next := DecideCacheCodec(Some(codec), p, budget);
    OneProjectionExactly(codec, q, p, budget);
    if codec == Lz4 && p <= 0.0 {
      PaidBySwitchOff(made, offs, DeadBand(budget), Strayed(codec, q, budget), variation, Distance(q, p), Strayed(next, p, budget));
    } else {
      PaidAgain(made, offs, DeadBand(budget), Strayed(codec, q, budget), variation, Distance(q, p), next != codec,
                Strayed(next, p, budget));
    }
  }

  /**
   * Over any projections, every change but one, and but two for each projection that was not positive and
   * turned lz4 off, costs a dead band's worth of movement.
   */
  lemma FlappingIsPaid(previous: Option<CacheCodec>, projections: seq<real>, budget: real)
    requires budget > 0.0
    ensures Paid(Changes(previous, projections, budget), SwitchOffs(previous, projections, budget), DeadBand(budget), 0.0,
                 Variation(projections))
  {
    VariationNotNegative(projections);
    var made, offs, band := Changes(previous, projections, budget), SwitchOffs(previous, projections, budget), DeadBand(budget);
    if made > 0 {
      assert projections != [];
      var strayed := Strayed(CodecAfter(previous, projections, budget).value, projections[|projections| - 1], budget);
      VariationPaysForChanges(previous, projections, budget);
      SparedIsPaid(made, offs, band, strayed, Variation(projections));
    } else {
      Scaled(Owed(0, offs), 0, band);
    }
  }

  lemma SparedIsPaid(made: nat, offs: nat, band: real, strayed: real, variation: real)
    requires Paid(made, offs, band, strayed, variation) && strayed >= 0.0
    ensures Paid(made, offs, band, 0.0, variation)
  {
  }

  predicate AllPositive(projections: seq<real>) {
    forall i | 0 <= i < |projections| :: projections[i] > 0.0
  }

  lemma {:induction false} PositiveNeverSwitchesOff(previous: Option<CacheCodec>, projections: seq<real>, budget: real)
    requires AllPositive(projections)
    ensures SwitchOffs(previous, projections, budget) == 0
  {
    if projections != [] {
      PositiveNeverSwitchesOff(previous, projections[..|projections| - 1], budget);
    }
  }

  /** The gate cannot flap: over positive projections all but one of the changes cost a dead band each. */
  lemma GateCannotFlap(previous: Option<CacheCodec>, projections: seq<real>, budget: real)
    requires budget > 0.0 && AllPositive(projections)
    ensures Paid(Changes(previous, projections, budget), 0, DeadBand(budget), 0.0, Variation(projections))
  {
    FlappingIsPaid(previous, projections, budget);
    PositiveNeverSwitchesOff(previous, projections, budget);
  }

  lemma TwoChanges()
    ensures var ps := [0.01, 0.0, 0.01];
            && CodecAfter(None, ps, 1.0) == Some(Lz4) && Variation(ps) == 0.02
            && Changes(None, ps, 1.0) == 2 && SwitchOffs(None, ps, 1.0) == 1
  {
    OneMoreBuild(None, [], 0.01, 1.0);
    assert [] + [0.01] == [0.01];
    OneMoreBuild(None, [0.01], 0.0, 1.0);
    assert [0.01] + [0.0] == [0.01, 0.0];
    OneMoreBuild(None, [0.01, 0.0], 0.01, 1.0);
    assert [0.01, 0.0] + [0.01] == [0.01, 0.0, 0.01];
  }

  /** Projections of zero between tiny ones make it flap for less: even one change given free for each is not enough. */
  lemma ZeroProjectionsFlap()
    ensures var ps := [0.01, 0.0, 0.01, 0.0, 0.01];
            && Changes(None, ps, 1.0) == 4 && SwitchOffs(None, ps, 1.0) == 2
            && (4 - 1 - 2) as real * DeadBand(1.0) > Variation(ps)
  {
    TwoChanges();
    OneMoreBuild(None, [0.01, 0.0, 0.01], 0.0, 1.0);
    assert [0.01, 0.0, 0.01] + [0.0] == [0.01, 0.0, 0.01, 0.0];
    OneMoreBuild(None, [0.01, 0.0, 0.01, 0.0], 0.01, 1.0);
    assert [0.01, 0.0, 0.01, 0.0] + [0.01] == [0.01, 0.0, 0.01, 0.0, 0.01];
  }

  // ---- the storage pool ---------------------------------------------------------------------------------

  function Sum(bytes: seq<nat>): nat {
    if bytes == [] then 0 else bytes[0] + Sum(bytes[1..])
  }

  /** One build at its larger form: the gzip it arrives as, or the cache's own. */
  function CacheHighWaterFactor(cacheFactor: real): real {
    if cacheFactor > 1.0 then cacheFactor else 1.0
  }

  function ProjectCachePool(replicas: int, partitionGzipBytes: seq<nat>, cacheFactor: real, stagingPeakBytes: real,
                            strandedBytes: real): real
  {
    replicas as real * Sum(partitionGzipBytes) as real * CacheHighWaterFactor(cacheFactor) + stagingPeakBytes + strandedBytes
  }

  /** A cache never holds less than a build's gzip, nor than its own form, and holds one of them. */
  lemma HighWaterIsOneBuild(replicas: int, partitionGzipBytes: seq<nat>, cacheFactor: real)
    requires replicas >= 0
    ensures var held := (f: real) => replicas as real * Sum(partitionGzipBytes) as real * f;
            var projected := ProjectCachePool(replicas, partitionGzipBytes, cacheFactor, 0.0, 0.0);
            && projected >= held(1.0) && projected >= held(cacheFactor)
            && (projected == held(1.0) || projected == held(cacheFactor))
  {
    var held := replicas as real * Sum(partitionGzipBytes) as real;
    var f := CacheHighWaterFactor(cacheFactor);
    assert held * (f - 1.0) >= 0.0 && held * (f - cacheFactor) >= 0.0;
  }

  /** What replaced coordinators still hold counts byte for byte: lz4 stays while it fits under the OFF line beside the rest. */
  lemma StrandedCounts(replicas: int, partitionGzipBytes: seq<nat>, cacheFactor: real, staging: real, stranded: real, budget: real)
    ensures var rest := ProjectCachePool(replicas, partitionGzipBytes, cacheFactor, staging, 0.0);
            var all := ProjectCachePool(replicas, partitionGzipBytes, cacheFactor, staging, stranded);
            DecideCacheCodec(Some(Lz4), all, budget) == Lz4 <==> 0.0 - rest < stranded <= LZ4_OFF_FRACTION * budget - rest
  {
  }

  /** What one more shard in every region costs. */
  function ShardBytes(regions: int, partitionGzipBytes: seq<nat>, cacheFactor: real): real {
    regions as real * (Sum(partitionGzipBytes) as real * CacheHighWaterFactor(cacheFactor))
  }

  /** What the gate's OFF line leaves beside the coordinator's staging. */
  function Room(stagingPeakBytes: real, budget: real): real {
    LZ4_OFF_FRACTION * budget - if stagingPeakBytes > 0.0 then stagingPeakBytes else 0.0
  }

  lemma ShardBytesPositive(regions: int, partitionGzipBytes: seq<nat>, cacheFactor: real)
    requires regions >= 1 && Sum(partitionGzipBytes) > 0
    ensures ShardBytes(regions, partitionGzipBytes, cacheFactor) > 0.0
  {
    assert Sum(partitionGzipBytes) as real * CacheHighWaterFactor(cacheFactor) > 0.0;
  }

  /** The shards a region may open before the cap is clamped. */
  function ShardsThatFit(regions: int, partitionGzipBytes: seq<nat>, cacheFactor: real, stagingPeakBytes: real, budget: real): int
    requires regions >= 1 && Sum(partitionGzipBytes) > 0
  {
    ShardBytesPositive(regions, partitionGzipBytes, cacheFactor);
    (Room(stagingPeakBytes, budget) / ShardBytes(regions, partitionGzipBytes, cacheFactor)).Floor
  }

  /** None where the inputs cannot decide: no partition sizes, or no regions. */
  function PoolShardCap(regions: int, partitionGzipBytes: seq<nat>, cacheFactor: real, stagingPeakBytes: real, budget: real): Option<int> {
    if Sum(partitionGzipBytes) == 0 || regions < 1 then None
    else Some(Max(1, ShardsThatFit(regions, partitionGzipBytes, cacheFactor, stagingPeakBytes, budget)))
  }

  lemma FloorOfQuotient(k: int, room: real, unit: real)
    requires unit > 0.0
    ensures k <= (room / unit).Floor <==> k as real * unit <= room
  {
    var q := room / unit;
    assert q * unit == room;
    if k as real <= q {
      assert (q - k as real) * unit >= 0.0;
    } else {
      assert (k as real - q) * unit > 0.0;
    }
  }

  lemma ProjectionOfShards(regions: int, k: int, partitionGzipBytes: seq<nat>, cacheFactor: real, staging: real)
    ensures ProjectCachePool(regions * k, partitionGzipBytes, cacheFactor, staging, 0.0)
         == k as real * ShardBytes(regions, partitionGzipBytes, cacheFactor) + staging
  {
    var r, s, b, f := regions as real, k as real, Sum(partitionGzipBytes) as real, CacheHighWaterFactor(cacheFactor);
    assert (regions * k) as real == r * s;
    assert r * s * b * f == s * (r * (b * f));
  }

  lemma AtLeastOne(k: int, unit: real)
    requires k >= 1 && unit > 0.0
    ensures k as real * unit > 0.0
  {
  }

  /**
   * The cap and the gate agree exactly: with `k` shards in every region, a published lz4 stays lz4 if
   * and only if `k` is no more than what fits before clamping.
   */
  lemma ShardsFitExactly(regions: int, partitionGzipBytes: seq<nat>, cacheFactor: real, staging: real, budget: real, k: int)
    requires regions >= 1 && Sum(partitionGzipBytes) > 0 && staging >= 0.0 && k >= 1
    ensures DecideCacheCodec(Some(Lz4), ProjectCachePool(regions * k, partitionGzipBytes, cacheFactor, staging, 0.0), budget) == Lz4
       <==> k <= ShardsThatFit(regions, partitionGzipBytes, cacheFactor, staging, budget)
  {
    var unit := ShardBytes(regions, partitionGzipBytes, cacheFactor);
    ShardBytesPositive(regions, partitionGzipBytes, cacheFactor);
    ProjectionOfShards(regions, k, partitionGzipBytes, cacheFactor, staging);
    FloorOfQuotient(k, Room(staging, budget), unit);
    AtLeastOne(k, unit);
  }

  /** A cap that was not raised to 1 fits, one shard more in each region does not; a raised one does not fit. */
  lemma CapAgreesWithGate(regions: int, partitionGzipBytes: seq<nat>, cacheFactor: real, staging: real, budget: real)
    requires regions >= 1 && Sum(partitionGzipBytes) > 0 && staging >= 0.0
    ensures var cap := PoolShardCap(regions, partitionGzipBytes, cacheFactor, staging, budget).value;
            var at := (k: int) => DecideCacheCodec(Some(Lz4), ProjectCachePool(regions * k, partitionGzipBytes, cacheFactor, staging, 0.0), budget);
            && (at(cap) == Lz4 <==> ShardsThatFit(regions, partitionGzipBytes, cacheFactor, staging, budget) >= 1)
            && at(cap + 1) == Gzip
  {
    var cap := PoolShardCap(regions, partitionGzipBytes, cacheFactor, staging, budget).value;
    ShardsFitExactly(regions, partitionGzipBytes, cacheFactor, staging, budget, cap);
    ShardsFitExactly(regions, partitionGzipBytes, cacheFactor, staging, budget, cap + 1);
  }

  lemma BiggerUnitFitsFewer(small: real, big: real, room: real)
    requires 0.0 < small <= big
    ensures var fits := (room / big).Floor; fits >= 1 ==> fits <= (room / small).Floor
  {
    var fits := (room / big).Floor;
    if fits >= 1 {
      FloorOfQuotient(fits, room, big);
      assert fits as real * (big - small) >= 0.0;
      FloorOfQuotient(fits, room, small);
    }
  }

  /** The bigger form never earns more shards. */
  lemma Lz4CapIsSmaller(regions: int, partitionGzipBytes: seq<nat>, staging: real, budget: real)
    requires regions >= 1 && Sum(partitionGzipBytes) > 0
    ensures PoolShardCap(regions, partitionGzipBytes, LZ4_CACHE_RATIO, staging, budget).value
         <= PoolShardCap(regions, partitionGzipBytes, 1.0, staging, budget).value
  {
    var small := ShardBytes(regions, partitionGzipBytes, 1.0);
    var big := ShardBytes(regions, partitionGzipBytes, LZ4_CACHE_RATIO);
    ShardBytesPositive(regions, partitionGzipBytes, 1.0);
    assert big == small * LZ4_CACHE_RATIO;
    BiggerUnitFitsFewer(small, big, Room(staging, budget));
  }
}
