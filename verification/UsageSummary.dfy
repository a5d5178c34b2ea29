/** What a usage summary may claim: bucket coverage, status, and the coverage a Healthy status needs. */
module UsageSummary {
  import opened Wrappers
  import opened UsageWorker

  datatype Period = Daily | Weekly

  datatype Query = Query(period: Period, bucketKey: string)

  /** `UsageCoverageState`: gaps and the facts about when tracking started. */
  datatype CoverageState = CoverageState(
    gaps: nat, startedAt: Option<int>, startDaily: Option<string>, startWeekly: Option<string>)

  datatype BucketCoverage = Complete | Partial | NotStarted | Unknown

  /** Byte-wise string order, as `str::cmp`. */
  predicate Before(a: string, b: string)
  {
    if b == [] then false
    else if a == [] then true
    else a[0] < b[0] || (a[0] == b[0] && Before(a[1..], b[1..]))
  }

  function Covers(query: Query, coverage: CoverageState): BucketCoverage
  {
    var start := if query.period.Daily? then coverage.startDaily else coverage.startWeekly;
    if start.None? then Unknown
    else if Before(query.bucketKey, start.value) then NotStarted
    else if query.bucketKey == start.value then Partial
    else Complete
  }

  function Status(runtime: Runtime, coverage: CoverageState, truncated: bool, bucket: BucketCoverage): Availability
  {
    if truncated || coverage.gaps > 0 || !bucket.Complete? then Degraded else runtime.status
  }

  /** The fields `UsageSummary::validate` compares when the status is Healthy. */
  datatype Summary = Summary(
    status: Availability, capturedAt: Option<int>, coverageStatus: Availability, niri: bool, session: bool,
    checkpoint: Option<int>, trackingStarted: Option<int>, bucketStartCovered: bool)

  function BuildSummary(runtime: Runtime, query: Query, coverage: CoverageState, truncated: bool,
                        capturedAt: int): Summary
  {
    var bucket := Covers(query, coverage);
    var status := Status(runtime, coverage, truncated, bucket);
    Summary(status, Some(capturedAt), status, runtime.niri, runtime.session, runtime.checkpoint,
            coverage.startedAt, bucket.Complete?)
  }

  predicate HealthyCoverageHolds(s: Summary)
  {
    s.status.Healthy? ==>
      && s.niri && s.session && s.coverageStatus.Healthy? && s.capturedAt.Some?
      && s.checkpoint.Some? && s.trackingStarted.Some? && s.bucketStartCovered
  }

  /**
   A summary built from a backed state passes the healthy-coverage check exactly unless that state is
   Healthy, nothing is truncated, no gap is recorded and the bucket is complete while the start time of
   tracking is missing.
   */
  lemma HealthySummaryIsBacked(published: Runtime, query: Query, coverage: CoverageState, truncated: bool,
                               capturedAt: int)
    requires RuntimeInv(published)
    ensures HealthyCoverageHolds(BuildSummary(published, query, coverage, truncated, capturedAt)) <==>
              !(published.status.Healthy? && !truncated && coverage.gaps == 0 && Covers(query, coverage).Complete?
                && coverage.startedAt.None?)
  {
  }

  /** A complete, gapless, untruncated summary has the published status; any other is Degraded. */
  lemma SummaryStatusExactly(published: Runtime, query: Query, coverage: CoverageState, truncated: bool,
                             capturedAt: int)
    ensures var s := BuildSummary(published, query, coverage, truncated, capturedAt);
      && s.status == s.coverageStatus
      && (!truncated && coverage.gaps == 0 && Covers(query, coverage) == Complete ==> s.status == published.status)
      && (truncated || coverage.gaps > 0 || Covers(query, coverage) != Complete ==> s.status == Degraded)
      && s.niri == published.niri && s.session == published.session && s.checkpoint == published.checkpoint
      && s.trackingStarted == coverage.startedAt && (s.bucketStartCovered <==> Covers(query, coverage) == Complete)
  {
  }

  /** Without a start key the coverage of a bucket is unknown. */
  lemma CoverageNeedsStart(query: Query, coverage: CoverageState)
    ensures Covers(query, coverage) == Unknown <==>
      (if query.period.Daily? then coverage.startDaily.None? else coverage.startWeekly.None?)
  {
  }

  const FIRST_WORKER := Worker(false, false, false, false, false, false, None)

  /** So after any sequence of turns, with the start time known, every summary passes the check. */
  lemma RunSummariesAreBacked(turns: seq<Turn>, query: Query, coverage: CoverageState, truncated: bool, capturedAt: int)
    requires coverage.startedAt.Some?
    ensures var published := Publication(After(FIRST_WORKER, turns));
      && RuntimeInv(published)
      && HealthyCoverageHolds(BuildSummary(published, query, coverage, truncated, capturedAt))
      && HealthyCoverageHolds(
           BuildSummary(Withdrawn(published, Unreachable), query, coverage, truncated, capturedAt))
  {
    RunKeepsWorkerInv(FIRST_WORKER, turns);
    var published := Publication(After(FIRST_WORKER, turns));
    HealthySummaryIsBacked(published, query, coverage, truncated, capturedAt);
  }

  // ----- bucket keys compare as dates

  predicate Digit(c: char)
  {
    '0' <= c <= '9'
  }

  function DigitValue(c: char): nat
    requires Digit(c)
  {
    c as int - '0' as int
  }

  predicate Digits(s: string)
  {
    forall i :: 0 <= i < |s| ==> Digit(s[i])
  }

  predicate TwoDigitsIn(s: string, low: nat, high: nat)
    requires |s| == 2
  {
    Digits(s) && low <= DigitValue(s[0]) * 10 + DigitValue(s[1]) <= high
  }

  /** `valid_daily_key` and `valid_weekly_key`. */
  predicate ValidKey(period: Period, key: string)
  {
    match period
    case Daily =>
      && |key| == 10 && key[4] == '-' && key[7] == '-'
      && Digits(key[..4]) && TwoDigitsIn(key[5..7], 1, 12) && TwoDigitsIn(key[8..10], 1, 31)
    case Weekly =>
      && |key| == 8 && key[4] == '-' && key[5] == 'W'
      && Digits(key[..4]) && TwoDigitsIn(key[6..8], 1, 53)
  }

  /** Ten to the number of digits in `s`. */
  function Scale(s: string): (n: nat)
    ensures n >= 1
  {
    if s == [] then 1 else if Digit(s[0]) then 10 * Scale(s[1..]) else Scale(s[1..])
  }

  /** The number the digits of `s` write, separators left out: a date as yyyymmdd, a week as yyyyww. */
  function Rank(s: string): nat
  {
    if s == [] then 0
    else if Digit(s[0]) then DigitValue(s[0]) * Scale(s[1..]) + Rank(s[1..])
    else Rank(s[1..])
  }

  /** Digits in the same places and the same characters in between. */
  predicate SameShape(a: string, b: string)
  {
    |a| == |b| && forall i :: 0 <= i < |a| ==> a[i] == b[i] || (Digit(a[i]) && Digit(b[i]))
  }

  lemma {:induction false} RankBelowScale(s: string)
    ensures Rank(s) < Scale(s)
  {
    if s == [] {
    } else {
      RankBelowScale(s[1..]);
      if Digit(s[0]) { TopDigit(DigitValue(s[0]), Scale(s[1..]), Rank(s[1..])); }
    }
  }

  lemma TopDigit(d: nat, scale: nat, rest: nat)
    requires d <= 9 && rest < scale
    ensures d * scale + rest < 10 * scale
  {
    assert d * scale <= 9 * scale;
  }

  /** A larger top digit outweighs whatever follows. */
  lemma TopDigitDecides(d: nat, e: nat, scale: nat, x: nat, y: nat)
    requires x < scale && y < scale
    ensures d < e ==> d * scale + x < e * scale + y
    ensures d == e ==> (d * scale + x < e * scale + y <==> x < y)
    ensures d > e ==> d * scale + x > e * scale + y
  {
    if d < e {
      assert (d + 1) * scale <= e * scale;
    } else if d > e {
      assert (e + 1) * scale <= d * scale;
    }
  }

  /** On keys of one shape, comparing bytes is comparing the numbers. */
  lemma {:induction false} BytesCompareAsNumbers(a: string, b: string)
    requires SameShape(a, b)
    ensures Scale(a) == Scale(b)
    ensures Before(a, b) <==> Rank(a) < Rank(b)
    ensures Rank(a) == Rank(b) ==> a == b
  {
    if a == [] {
    } else {
      var x, y := a[1..], b[1..];
      assert forall i :: 0 <= i < |x| ==> x[i] == a[i + 1] && y[i] == b[i + 1];
      BytesCompareAsNumbers(x, y);
      assert a == [a[0]] + x && b == [b[0]] + y;
      if Digit(a[0]) {
        RankBelowScale(x);
        RankBelowScale(y);
        TopDigitDecides(DigitValue(a[0]), DigitValue(b[0]), Scale(x), Rank(x), Rank(y));
      }
    }
  }

  lemma ValidKeysShareShape(period: Period, a: string, b: string)
    requires ValidKey(period, a) && ValidKey(period, b)
    ensures SameShape(a, b)
  {
    match period
    case Daily =>
      DailyDigits(a);
      DailyDigits(b);
    case Weekly =>
      WeeklyDigits(a);
      WeeklyDigits(b);
  }

  lemma DailyDigits(key: string)
    requires ValidKey(Daily, key)
    ensures forall i :: 0 <= i < 10 && i != 4 && i != 7 ==> Digit(key[i])
  {
    assert key[0] == key[..4][0] && key[1] == key[..4][1] && key[2] == key[..4][2] && key[3] == key[..4][3];
    assert key[5] == key[5..7][0] && key[6] == key[5..7][1] && key[8] == key[8..10][0] && key[9] == key[8..10][1];
  }

  lemma WeeklyDigits(key: string)
    requires ValidKey(Weekly, key)
    ensures forall i :: 0 <= i < 8 && i != 4 && i != 5 ==> Digit(key[i])
  {
    assert key[0] == key[..4][0] && key[1] == key[..4][1] && key[2] == key[..4][2] && key[3] == key[..4][3];
    assert key[6] == key[6..8][0] && key[7] == key[6..8][1];
  }

  /**
   With valid keys, a bucket counts as complete exactly when its date (or week) is later than the one
   tracking started in, as partial exactly for that one, and as not started exactly when it is earlier.
   */
  lemma CoverageIsChronological(query: Query, coverage: CoverageState)
    requires ValidKey(query.period, query.bucketKey)
    requires var start := if query.period.Daily? then coverage.startDaily else coverage.startWeekly;
             start.Some? && ValidKey(query.period, start.value)
    ensures var start := if query.period.Daily? then coverage.startDaily else coverage.startWeekly;
      && (Covers(query, coverage) == NotStarted <==> Rank(query.bucketKey) < Rank(start.value))
      && (Covers(query, coverage) == Partial <==> Rank(query.bucketKey) == Rank(start.value))
      && (Covers(query, coverage) == Complete <==> Rank(query.bucketKey) > Rank(start.value))
  {
    var start := if query.period.Daily? then coverage.startDaily else coverage.startWeekly;
    ValidKeysShareShape(query.period, query.bucketKey, start.value);
    BytesCompareAsNumbers(query.bucketKey, start.value);
  }
}
