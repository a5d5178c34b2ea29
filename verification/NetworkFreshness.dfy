/**
 The daemon's network sampling state (`bins/appd/src/network.rs`): what a sample projects to, what
 is stored on success and failure, and what a query at any time may still show.
 */
module NetworkFreshness {
  import opened Wrappers
  import opened Common
  import opened NetworkDomain

  /** Nanoseconds. */
  const FRESH_FOR: nat := 3_000_000_000
  const RETAIN_STALE_FOR: nat := 10_000_000_000

  datatype ApplicationCount = ApplicationCount(key: string, rx: nat, tx: nat)

  /** What the collector crate returns. */
  datatype Sample = Sample(
    boottime: nat,
    system: Capability,
    perApplication: Capability,
    coverage: Coverage,
    totals: Totals,
    aggregate: Rate,
    interfaces: seq<InterfaceSample>,
    applications: seq<ApplicationCount>)

  // ----- traffic shares

  function SumRx(apps: seq<ApplicationCount>): nat
  {
    if apps == [] then 0 else SumRx(apps[..|apps| - 1]) + apps[|apps| - 1].rx
  }

  function SumTx(apps: seq<ApplicationCount>): nat
  {
    if apps == [] then 0 else SumTx(apps[..|apps| - 1]) + apps[|apps| - 1].tx
  }

  function SharePercent(value: nat, total: nat): Option<real>
  {
    if total > 0 then Some(value as real * 100.0 / total as real) else None
  }

  function Shared(a: ApplicationCount, rxTotal: nat, txTotal: nat): ApplicationTraffic
  {
    ApplicationTraffic(a.key, a.rx, a.tx, SharePercent(a.rx, rxTotal), SharePercent(a.tx, txTotal))
  }

  /** Both totals fit 64 bits. */
  predicate CountsFit(apps: seq<ApplicationCount>)
  {
    SumRx(apps) <= U64_MAX && SumTx(apps) <= U64_MAX
  }

  /** What `ProjectApplications` must return: nothing when a total does not fit 64 bits. */
  function Projected(apps: seq<ApplicationCount>): Option<seq<ApplicationTraffic>>
  {
    if SumRx(apps) > U64_MAX || SumTx(apps) > U64_MAX then None
    else Some(seq(|apps|, i requires 0 <= i < |apps| => Shared(apps[i], SumRx(apps), SumTx(apps))))
  }

  lemma {:induction false} PrefixSums(apps: seq<ApplicationCount>, k: nat)
    requires k <= |apps|
    ensures SumRx(apps[..k]) <= SumRx(apps) && SumTx(apps[..k]) <= SumTx(apps)
    decreases |apps|
  {
    if k < |apps| {
      PrefixSums(apps[..|apps| - 1], k);
      assert apps[..|apps| - 1][..k] == apps[..k];
    } else {
      assert apps[..k] == apps;
    }
  }

  /** One count never exceeds the total. */
  lemma {:induction false} PartOfSum(apps: seq<ApplicationCount>, i: nat)
    requires i < |apps|
    ensures apps[i].rx <= SumRx(apps) && apps[i].tx <= SumTx(apps)
  {
    PrefixSums(apps, i + 1);
    assert apps[..i + 1][..i] == apps[..i];
  }

  /** The two checked folds; None when a total does not fit 64 bits. */
  method CheckedTotals(apps: seq<ApplicationCount>) returns (r: Option<(nat, nat)>)
    ensures r == if SumRx(apps) > U64_MAX || SumTx(apps) > U64_MAX then None else Some((SumRx(apps), SumTx(apps)))
  {
    var rxTotal, txTotal := 0, 0;
    for i := 0 to |apps|
      invariant rxTotal == SumRx(apps[..i]) <= U64_MAX
    {
      assert apps[..i + 1][..i] == apps[..i];
      rxTotal := rxTotal + apps[i].rx;
      if rxTotal > U64_MAX {
        PrefixSums(apps, i + 1);
        return None;
      }
    }
    for i := 0 to |apps|
      invariant txTotal == SumTx(apps[..i]) <= U64_MAX
    {
      assert apps[..i + 1][..i] == apps[..i];
      txTotal := txTotal + apps[i].tx;
      if txTotal > U64_MAX {
        PrefixSums(apps, i + 1);
        return None;
      }
    }
    assert apps[..|apps|] == apps;
    r := Some((rxTotal, txTotal));
  }

  method ProjectApplications(apps: seq<ApplicationCount>) returns (r: Option<seq<ApplicationTraffic>>)
    ensures r == Projected(apps)
  {
    var totals := CheckedTotals(apps);
    if totals.None? { return None; }
    var out: seq<ApplicationTraffic> := [];
    for i := 0 to |apps|
      invariant |out| == i
      invariant forall j :: 0 <= j < i ==> out[j] == Shared(apps[j], totals.value.0, totals.value.1)
    {
      out := out + [Shared(apps[i], totals.value.0, totals.value.1)];
    }
    r := Some(out);
    assert out == Projected(apps).value;
  }

  lemma ShareBounds(value: nat, total: nat)
    requires value <= total
    ensures ValidPercent(SharePercent(value, total))
  {
    if total > 0 {
      var t := total as real;
      assert value as real * 100.0 <= t * 100.0;
      DivBound(value as real * 100.0, t, 100.0);
    }
  }

  lemma DivBound(x: real, t: real, b: real)
    requires t > 0.0 && 0.0 <= x <= t * b
    ensures 0.0 <= x / t <= b
  {
    var q := x / t;
    assert x == q * t;
    assert q > b ==> q * t > b * t;
    assert q < 0.0 ==> q * t < 0.0;
  }

  /** Every share of every projected record is a percentage. */
  lemma SharesArePercentages(apps: seq<ApplicationCount>)
    requires Projected(apps).Some?
    ensures forall a | a in Projected(apps).value :: ValidPercent(a.rxShare) && ValidPercent(a.txShare)
  {
    var out := Projected(apps).value;
    forall a | a in out
      ensures ValidPercent(a.rxShare) && ValidPercent(a.txShare)
    {
      var i :| 0 <= i < |out| && out[i] == a;
      PartOfSum(apps, i);
      ShareBounds(apps[i].rx, SumRx(apps));
      ShareBounds(apps[i].tx, SumTx(apps));
    }
  }

  /** `share` is `value` in percent of `total`, unknown when there is no total. */
  predicate IsShare(share: Option<real>, value: nat, total: nat)
  {
    if total == 0 then share.None? else share.Some? && share.value * total as real == value as real * 100.0
  }

  lemma ShareIsShare(value: nat, total: nat)
    ensures IsShare(SharePercent(value, total), value, total)
  {
    if total > 0 { DivTimes(value as real * 100.0, total as real); }
  }

  /** Each record keeps its application and counts, and carries its shares of the two totals. */
  lemma RecordsKeepTheirCounts(apps: seq<ApplicationCount>, i: nat)
    requires Projected(apps).Some? && i < |apps|
    ensures var r := Projected(apps).value[i];
      && r.key == apps[i].key && r.rx == apps[i].rx && r.tx == apps[i].tx
      && IsShare(r.rxShare, apps[i].rx, SumRx(apps)) && IsShare(r.txShare, apps[i].tx, SumTx(apps))
  {
    var rxTotal, txTotal := SumRx(apps), SumTx(apps);
    assert Projected(apps).value[i] == Shared(apps[i], rxTotal, txTotal);
    SharedIsShared(apps[i], rxTotal, txTotal);
  }

  lemma SharedIsShared(a: ApplicationCount, rxTotal: nat, txTotal: nat)
    ensures var r := Shared(a, rxTotal, txTotal);
      && r.key == a.key && r.rx == a.rx && r.tx == a.tx
      && IsShare(r.rxShare, a.rx, rxTotal) && IsShare(r.txShare, a.tx, txTotal)
  {
    ShareIsShare(a.rx, rxTotal);
    ShareIsShare(a.tx, txTotal);
  }

  lemma DivTimes(x: real, t: real)
    requires t > 0.0
    ensures x / t * t == x
  {
  }

  function RxShares(out: seq<ApplicationTraffic>): real
    requires forall a | a in out :: a.rxShare.Some?
  {
    if out == [] then 0.0 else RxShares(out[..|out| - 1]) + out[|out| - 1].rxShare.value
  }

  function TxShares(out: seq<ApplicationTraffic>): real
    requires forall a | a in out :: a.txShare.Some?
  {
    if out == [] then 0.0 else TxShares(out[..|out| - 1]) + out[|out| - 1].txShare.value
  }

  lemma SplitShare(x: nat, y: nat, total: nat)
    requires total > 0
    ensures (x + y) as real * 100.0 / total as real
         == x as real * 100.0 / total as real + y as real * 100.0 / total as real
  {
  }

  lemma {:induction false} RxSharesOf(apps: seq<ApplicationCount>, rxTotal: nat, txTotal: nat)
    requires rxTotal > 0
    ensures RxShares(seq(|apps|, i requires 0 <= i < |apps| => Shared(apps[i], rxTotal, txTotal)))
         == SumRx(apps) as real * 100.0 / rxTotal as real
  {
    var out := seq(|apps|, i requires 0 <= i < |apps| => Shared(apps[i], rxTotal, txTotal));
    if apps == [] {
    } else {
      var init := apps[..|apps| - 1];
      RxSharesOf(init, rxTotal, txTotal);
      assert out[..|out| - 1] == seq(|init|, i requires 0 <= i < |init| => Shared(init[i], rxTotal, txTotal));
      SplitShare(SumRx(init), apps[|apps| - 1].rx, rxTotal);
    }
  }

  lemma {:induction false} TxSharesOf(apps: seq<ApplicationCount>, rxTotal: nat, txTotal: nat)
    requires txTotal > 0
    ensures TxShares(seq(|apps|, i requires 0 <= i < |apps| => Shared(apps[i], rxTotal, txTotal)))
         == SumTx(apps) as real * 100.0 / txTotal as real
  {
    var out := seq(|apps|, i requires 0 <= i < |apps| => Shared(apps[i], rxTotal, txTotal));
    if apps == [] {
    } else {
      var init := apps[..|apps| - 1];
      TxSharesOf(init, rxTotal, txTotal);
      assert out[..|out| - 1] == seq(|init|, i requires 0 <= i < |init| => Shared(init[i], rxTotal, txTotal));
      SplitShare(SumTx(init), apps[|apps| - 1].tx, txTotal);
    }
  }

  /** In each direction that saw traffic, the shares add up to exactly one hundred. */
  lemma SharesAddUp(apps: seq<ApplicationCount>)
    requires Projected(apps).Some?
    ensures SumRx(apps) > 0 ==>
              && (forall a | a in Projected(apps).value :: a.rxShare.Some?)
              && RxShares(Projected(apps).value) == 100.0
    ensures SumTx(apps) > 0 ==>
              && (forall a | a in Projected(apps).value :: a.txShare.Some?)
              && TxShares(Projected(apps).value) == 100.0
  {
    if SumRx(apps) > 0 {
      RxSharesOf(apps, SumRx(apps), SumTx(apps));
      DivSelf(SumRx(apps) as real);
    }
    if SumTx(apps) > 0 {
      TxSharesOf(apps, SumRx(apps), SumTx(apps));
      DivSelf(SumTx(apps) as real);
    }
  }

  lemma DivSelf(t: real)
    requires t > 0.0
    ensures t * 100.0 / t == 100.0
  {
  }

  // ----- projection of a whole sample

  function Capped(n: nat): nat
  {
    if n <= U32_MAX then n else U32_MAX
  }

  /** `project_snapshot`, given what `ProjectApplications` returned. */
  function Project(s: Sample, apps: Option<seq<ApplicationTraffic>>, capturedAt: int, boottime: nat,
                   interval: Option<nat>, id: Uuid): Snapshot
  {
    Snapshot(
      SCHEMA_VERSION, id, Some(capturedAt), Some(boottime), interval, Some(capturedAt),
      if s.aggregate.state.RateWarmingUp? then WarmingUp else Fresh,
      true,
      if s.aggregate.state.Known? then s.system else Capability(Degraded, s.aggregate.reason),
      if apps.None? then Capability(Degraded, "per_app_total_overflow") else s.perApplication,
      Coverage(Capped(s.coverage.reported), Capped(s.coverage.withCounters), s.coverage.facts, s.coverage.reason),
      Some(s.totals.(scope := TOTAL_SCOPE)),
      s.aggregate,
      s.interfaces,
      if apps.None? then [] else apps.value)
  }

  /** What a sample must satisfy for its projection to be publishable. */
  predicate Publishable(s: Sample)
  {
    && s.coverage.reported == |s.interfaces| <= MAX_INTERFACES
    && s.coverage.withCounters <= s.coverage.reported
    && (forall i | i in s.interfaces :: ValidInterface(i))
    && ValidRate(s.aggregate)
    && (CountsFit(s.applications) ==>
          && |s.applications| <= MAX_APPLICATIONS
          && (forall a | a in s.applications :: ValidText(a.key, MAX_APPLICATION_KEY_BYTES))
          && (s.perApplication.status.Unsupported? ==> s.applications == []))
  }

  /** The projection passes validation exactly for publishable samples; shares and Healthy never break it. */
  lemma ProjectionValidExactly(s: Sample, capturedAt: int, boottime: nat, interval: Option<nat>, id: Uuid)
    ensures Validate(Project(s, Projected(s.applications), capturedAt, boottime, interval, id)) <==> Publishable(s)
  {
    var p := Project(s, Projected(s.applications), capturedAt, boottime, interval, id);
    assert p.coverage.reported == |p.interfaces| <= MAX_INTERFACES ==> s.coverage.reported == |s.interfaces|;
    if Projected(s.applications).Some? {
      SharesArePercentages(s.applications);
      KeysCarryOver(s.applications);
    }
  }

  lemma KeysCarryOver(apps: seq<ApplicationCount>)
    requires Projected(apps).Some?
    ensures (forall a | a in Projected(apps).value :: ValidText(a.key, MAX_APPLICATION_KEY_BYTES))
       <==> (forall a | a in apps :: ValidText(a.key, MAX_APPLICATION_KEY_BYTES))
  {
    var out := Projected(apps).value;
    assert forall i :: 0 <= i < |apps| ==> out[i].key == apps[i].key;
    if forall a | a in out :: ValidText(a.key, MAX_APPLICATION_KEY_BYTES) {
      forall a | a in apps
        ensures ValidText(a.key, MAX_APPLICATION_KEY_BYTES)
      {
        var i :| 0 <= i < |apps| && apps[i] == a;
        assert out[i] in out;
      }
    }
    if forall a | a in apps :: ValidText(a.key, MAX_APPLICATION_KEY_BYTES) {
      forall a | a in out
        ensures ValidText(a.key, MAX_APPLICATION_KEY_BYTES)
      {
        var i :| 0 <= i < |out| && out[i] == a;
        assert apps[i] in apps;
      }
    }
  }

  // ----- stored state

  datatype Stored = Stored(snapshot: Snapshot, sampledAt: Option<nat>, lastFailure: Option<string>)

  function DegradeSupported(c: Capability, reason: string): Capability
  {
    if c.status.Unsupported? then c else Capability(Degraded, reason)
  }

  /** `publish_failure`. */
  function Failed(s: Stored, reason: string, id: Uuid): Stored
  {
    if s.sampledAt.None? then
      Stored(Unavailable(reason, id), None, Some(reason))
    else
      Stored(
        s.snapshot.(freshness := Stale,
                    system := Capability(Degraded, reason),
                    perApplication := DegradeSupported(s.snapshot.perApplication, reason),
                    retryable := true),
        s.sampledAt,
        Some(reason))
  }

  /** `snapshot_with_current_freshness`; `id` is the identifier an expired answer draws. */
  function Answer(s: Stored, now: nat, id: Uuid): Snapshot
  {
    if s.sampledAt.None? then s.snapshot
    else
      var age := if now >= s.sampledAt.value then now - s.sampledAt.value else 0;
      if age <= FRESH_FOR then s.snapshot
      else if age <= RETAIN_STALE_FOR then
        s.snapshot.(freshness := Stale,
                    system := Capability(Degraded,
                      if s.lastFailure.Some? then s.lastFailure.value else "network_snapshot_stale"),
                    perApplication := DegradeSupported(s.snapshot.perApplication, "network_snapshot_stale"))
      else
        Unavailable("network_snapshot_expired", id).(
          lastSuccessAt := s.snapshot.lastSuccessAt,
          perApplication :=
            if s.snapshot.perApplication.status.Unsupported? then s.snapshot.perApplication
            else Capability(Degraded, "network_snapshot_expired"))
  }

  // ----- runs

  /** One completed sampling round: `at` is the monotonic clock at the store, `wall` the unix clock. */
  datatype Event =
    | Sampled(sample: Sample, at: nat, wall: int, id: Uuid)
    | FailedRound(reason: string, failureId: Uuid)

  /** The sampler: stored state and the boot time of the last sample. */
  datatype Sampler = Sampler(stored: Stored, previousBoottime: Option<nat>)

  function Initial(id: Uuid): Sampler
  {
    Sampler(Stored(Unavailable("network_warming_up", id), None, None), None)
  }

  function Interval(previous: Option<nat>, boottime: nat): Option<nat>
  {
    if previous.Some? && previous.value <= boottime then Some(boottime - previous.value) else None
  }

  /** The snapshot a sampling round would publish. */
  function Published(s: Sampler, e: Event): Snapshot
    requires e.Sampled?
  {
    var boottime := if e.sample.boottime <= U64_MAX then e.sample.boottime else U64_MAX;
    Project(e.sample, Projected(e.sample.applications), e.wall, boottime, Interval(s.previousBoottime, boottime), e.id)
  }

  function Next(s: Sampler, e: Event): Sampler
  {
    if e.FailedRound? then s.(stored := Failed(s.stored, e.reason, e.failureId))
    else
      var public := Published(s, e);
      Sampler(
        if Validate(public) then Stored(public, Some(e.at), None)
        else Failed(s.stored, "network_snapshot_invalid", e.id),
        public.boottime)
  }

  function Run(id: Uuid, events: seq<Event>): Sampler
  {
    if events == [] then Initial(id) else Next(Run(id, events[..|events| - 1]), events[|events| - 1])
  }

  // ----- what a run says about the answers

  /**
   The past of a run, read off its events. Either no round ever had a publishable sample, with the reason of
   the newest failure; or `event` was the last that had one, `previous` the boot time of the sample before
   it, and `failure` the reason of the newest failure since.
   */
  datatype Past = Never(reason: string) | Since(event: Event, previous: Option<nat>, failure: Option<string>)

  function PastOf(events: seq<Event>): Past
  {
    if events == [] then Never("network_warming_up")
    else
      var init, e := events[..|events| - 1], events[|events| - 1];
      if e.Sampled? && Publishable(e.sample) then Since(e, PreviousBoot(init), None)
      else
        match PastOf(init)
        case Never(_) => Never(FailureReason(e))
        case Since(event, previous, _) => Since(event, previous, Some(FailureReason(e)))
  }

  /** Why a round without a publishable sample failed. */
  function FailureReason(e: Event): string
  {
    if e.Sampled? then "network_snapshot_invalid" else e.reason
  }

  function BootOf(s: Sample): nat
  {
    if s.boottime <= U64_MAX then s.boottime else U64_MAX
  }

  /** The boot time of the last sample, publishable or not. */
  function PreviousBoot(events: seq<Event>): Option<nat>
  {
    if events == [] then None
    else if events[|events| - 1].Sampled? then Some(BootOf(events[|events| - 1].sample))
    else PreviousBoot(events[..|events| - 1])
  }

  predicate TotalsShow(t: Totals, s: Totals)
  {
    && t.scope == TOTAL_SCOPE
    && t.all.rx == s.all.rx && t.all.tx == s.all.tx
    && t.physical.rx == s.physical.rx && t.physical.tx == s.physical.tx
    && t.loopback.rx == s.loopback.rx && t.loopback.tx == s.loopback.tx
    && t.tunnel.rx == s.tunnel.rx && t.tunnel.tx == s.tunnel.tx
    && t.other.rx == s.other.rx && t.other.tx == s.other.tx
  }

  /** A record with its application's key and counts and its shares of the two totals. */
  predicate RecordShows(r: ApplicationTraffic, a: ApplicationCount, rxTotal: nat, txTotal: nat)
  {
    && r.key == a.key && r.rx == a.rx && r.tx == a.tx
    && IsShare(r.rxShare, a.rx, rxTotal) && IsShare(r.txShare, a.tx, txTotal)
  }

  predicate RecordsShow(out: seq<ApplicationTraffic>, apps: seq<ApplicationCount>)
  {
    if CountsFit(apps) then
      |out| == |apps| && forall i :: 0 <= i < |apps| ==> RecordShows(out[i], apps[i], SumRx(apps), SumTx(apps))
    else out == []
  }

  /** The snapshot carries the facts of this sample, taken at this time. */
  predicate ShowsFacts(a: Snapshot, e: Event, previous: Option<nat>)
    requires e.Sampled?
  {
    var s := e.sample;
    && a.id == e.id
    && a.capturedAt == Some(e.wall) && a.lastSuccessAt == Some(e.wall)
    && a.boottime == Some(BootOf(s))
    && (if previous.Some? && previous.value <= BootOf(s)
        then a.interval.Some? && previous.value + a.interval.value == BootOf(s) else a.interval.None?)
    && a.totals.Some? && TotalsShow(a.totals.value, s.totals)
    && a.aggregate == s.aggregate && a.interfaces == s.interfaces && a.coverage == s.coverage
    && RecordsShow(a.applications, s.applications)
  }

  /** The system label of a sample: its own while the aggregate rate is known. */
  predicate SystemShows(c: Capability, s: Sample)
  {
    if s.aggregate.state.Known? then c == s.system else c.status.Degraded? && c.reason == s.aggregate.reason
  }

  /** The per-application label of a sample: its own unless a total overflowed. */
  predicate PerApplicationShows(c: Capability, s: Sample)
  {
    if CountsFit(s.applications) then c == s.perApplication
    else c.status.Degraded? && c.reason == "per_app_total_overflow"
  }

  /** The labels a fresh answer carries. */
  predicate ShowsLabels(a: Snapshot, s: Sample)
  {
    && a.freshness == (if s.aggregate.state.RateWarmingUp? then WarmingUp else Fresh)
    && SystemShows(a.system, s) && PerApplicationShows(a.perApplication, s)
  }

  /** A per-application label after degrading: a sample without support keeps its own. */
  predicate PerApplicationDegraded(c: Capability, s: Sample, reason: string)
  {
    if CountsFit(s.applications) && s.perApplication.status.Unsupported? then c == s.perApplication
    else c == Capability(Degraded, reason)
  }

  predicate LabelledFresh(a: Snapshot)
  {
    a.freshness.Fresh? || a.freshness.WarmingUp? || a.system.status.Healthy? || a.perApplication.status.Healthy?
  }

  predicate CarriesFacts(a: Snapshot)
  {
    a.totals.Some? || a.interfaces != [] || a.applications != []
  }

  /** The stored state is that of the last success, relabelled if a failure followed. */
  predicate Follows(stored: Stored, past: Past)
  {
    match past
    case Never(reason) =>
      stored.sampledAt.None? && stored.snapshot == Unavailable(reason, stored.snapshot.id)
    case Since(e, previous, failure) =>
      && e.Sampled? && Publishable(e.sample)
      && stored.sampledAt == Some(e.at)
      && ShowsFacts(stored.snapshot, e, previous)
      && Validate(stored.snapshot) && stored.snapshot.retryable
      && stored.lastFailure == failure
      && (if failure.None? then ShowsLabels(stored.snapshot, e.sample)
          else
            && stored.snapshot.freshness.Stale?
            && stored.snapshot.system == Capability(Degraded, failure.value)
            && PerApplicationDegraded(stored.snapshot.perApplication, e.sample, failure.value))
  }

  lemma FailureKeepsFollowing(s: Stored, past: Past, reason: string, id: Uuid)
    requires Follows(s, past)
    ensures Follows(Failed(s, reason, id), if past.Never? then Never(reason) else past.(failure := Some(reason)))
  {
  }

  lemma ProjectedShows(apps: seq<ApplicationCount>)
    ensures Projected(apps).Some? <==> CountsFit(apps)
    ensures RecordsShow(if Projected(apps).Some? then Projected(apps).value else [], apps)
  {
    if CountsFit(apps) {
      forall i | 0 <= i < |apps|
        ensures RecordShows(Projected(apps).value[i], apps[i], SumRx(apps), SumTx(apps))
      {
        RecordsKeepTheirCounts(apps, i);
      }
    }
  }

  /** A publishable sample is published with its own facts and labels. */
  lemma PublishedShows(s: Sampler, e: Event)
    requires e.Sampled? && Publishable(e.sample)
    ensures ShowsFacts(Published(s, e), e, s.previousBoottime) && ShowsLabels(Published(s, e), e.sample)
    ensures Published(s, e).retryable
  {
    ProjectedShows(e.sample.applications);
  }

  lemma SuccessFollows(s: Sampler, e: Event)
    requires e.Sampled? && Publishable(e.sample)
    ensures Follows(Next(s, e).stored, Since(e, s.previousBoottime, None))
  {
    PublishedShows(s, e);
    var public := Published(s, e);
    ProjectionValidExactly(e.sample, e.wall, public.boottime.value, public.interval, e.id);
  }

  lemma UnpublishableFollows(s: Sampler, e: Event, past: Past)
    requires e.Sampled? && !Publishable(e.sample) && Follows(s.stored, past)
    ensures Follows(Next(s, e).stored,
                    if past.Never? then Never("network_snapshot_invalid")
                    else past.(failure := Some("network_snapshot_invalid")))
  {
    var public := Published(s, e);
    ProjectionValidExactly(e.sample, e.wall, public.boottime.value, public.interval, e.id);
    FailureKeepsFollowing(s.stored, past, "network_snapshot_invalid", e.id);
  }

  lemma {:induction false} StoreFollowsRun(id: Uuid, events: seq<Event>)
    ensures Follows(Run(id, events).stored, PastOf(events))
    ensures Run(id, events).previousBoottime == PreviousBoot(events)
  {
    if events == [] {
    } else {
      var init, e := events[..|events| - 1], events[|events| - 1];
      StoreFollowsRun(id, init);
      var before := Run(id, init);
      if e.FailedRound? {
        FailureKeepsFollowing(before.stored, PastOf(init), e.reason, e.failureId);
      } else if Publishable(e.sample) {
        SuccessFollows(before, e);
      } else {
        UnpublishableFollows(before, e, PastOf(init));
      }
    }
  }

  /** What an answer may show of the last success. */
  predicate Honest(a: Snapshot, past: Past, now: nat)
  {
    && Validate(a) && a.retryable
    && match past
       case Never(_) => !LabelledFresh(a) && !CarriesFacts(a) && a.lastSuccessAt.None?
       case Since(e, previous, failure) =>
         && e.Sampled? && a.lastSuccessAt == Some(e.wall)
         && (LabelledFresh(a) <==> failure.None? && now <= e.at + FRESH_FOR)
         && (LabelledFresh(a) ==> ShowsLabels(a, e.sample))
         && (CarriesFacts(a) <==> now <= e.at + RETAIN_STALE_FOR)
         && (CarriesFacts(a) ==> ShowsFacts(a, e, previous))
  }

  /** The system and per-application labels an answer carries, by its age and the newest failure. */
  predicate Explained(a: Snapshot, past: Past, now: nat)
  {
    match past
    case Never(reason) =>
      && a.freshness.Unknown? && a.system == Capability(Unreachable, reason)
      && a.perApplication == Capability(Unsupported, "per_app_collector_unavailable")
    case Since(e, _, failure) =>
      && e.Sampled?
      && if now <= e.at + FRESH_FOR then
           if failure.None? then ShowsLabels(a, e.sample)
           else
             && a.freshness.Stale? && a.system == Capability(Degraded, failure.value)
             && PerApplicationDegraded(a.perApplication, e.sample, failure.value)
         else if now <= e.at + RETAIN_STALE_FOR then
           && a.freshness.Stale?
           && a.system == Capability(Degraded, if failure.Some? then failure.value else "network_snapshot_stale")
           && PerApplicationDegraded(a.perApplication, e.sample, "network_snapshot_stale")
         else
           && a.freshness.Unknown?
           && a.system == Capability(Unreachable, "network_snapshot_expired")
           && PerApplicationDegraded(a.perApplication, e.sample, "network_snapshot_expired")
  }

  lemma AnswerIsExplained(s: Stored, past: Past, now: nat, drawn: Uuid)
    requires Follows(s, past)
    ensures Explained(Answer(s, now, drawn), past, now)
  {
  }

  /** Every answer says why: the newest failure while facts are retained, then staleness, then expiry. */
  lemma AnswersAreExplained(id: Uuid, events: seq<Event>, now: nat, drawn: Uuid)
    ensures Explained(Answer(Run(id, events).stored, now, drawn), PastOf(events), now)
  {
    StoreFollowsRun(id, events);
    AnswerIsExplained(Run(id, events).stored, PastOf(events), now, drawn);
  }

  lemma AnswerIsValid(s: Stored, past: Past, now: nat, drawn: Uuid)
    requires Follows(s, past)
    ensures Validate(Answer(s, now, drawn))
  {
  }

  lemma AnswerFollows(s: Stored, past: Past, now: nat, drawn: Uuid)
    requires Follows(s, past)
    ensures Honest(Answer(s, now, drawn), past, now)
  {
    AnswerIsValid(s, past, now, drawn);
  }

  /**
   Every answer, at every time after every run, is valid. It is labelled fresh or healthy exactly within
   three seconds of the last success and with no failure since, with the labels of that round's sample. It
   carries totals, interfaces or applications exactly within ten seconds of the last success, and then they
   are that sample's, count by count; the time of the last success stays for good.
   */
  lemma AnswersAreHonest(id: Uuid, events: seq<Event>, now: nat, drawn: Uuid)
    ensures Honest(Answer(Run(id, events).stored, now, drawn), PastOf(events), now)
  {
    StoreFollowsRun(id, events);
    AnswerFollows(Run(id, events).stored, PastOf(events), now, drawn);
  }

  // ----- the supervisor that updates the stored state

  class NetworkSupervisor {
    var stored: Stored
    var previousBoottime: Option<nat>

    ghost function State(): Sampler
      reads this
    {
      Sampler(stored, previousBoottime)
    }

    constructor (id: Uuid)
      ensures State() == Initial(id)
    {
      stored := Stored(Unavailable("network_warming_up", id), None, None);
      previousBoottime := None;
    }

    method PublishFailure(reason: string, id: Uuid)
      modifies this
      ensures State() == Next(old(State()), FailedRound(reason, id))
    {
      if stored.sampledAt.None? {
        stored := stored.(snapshot := Unavailable(reason, id), lastFailure := Some(reason));
        return;
      }
      stored := stored.(snapshot := stored.snapshot.(freshness := Stale));
      stored := stored.(snapshot := stored.snapshot.(system := Capability(Degraded, reason)));
      if !stored.snapshot.perApplication.status.Unsupported? {
        stored := stored.(snapshot := stored.snapshot.(perApplication := Capability(Degraded, reason)));
      }
      stored := stored.(snapshot := stored.snapshot.(retryable := true), lastFailure := Some(reason));
    }

    method PublishSuccess(sample: Sample, at: nat, wall: int, id: Uuid)
      modifies this
      ensures State() == Next(old(State()), Sampled(sample, at, wall, id))
    {
      var boottime := if sample.boottime <= U64_MAX then sample.boottime else U64_MAX;
      var interval := None;
      if previousBoottime.Some? && previousBoottime.value <= boottime {
        interval := Some(boottime - previousBoottime.value);
      }
      previousBoottime := Some(boottime);
      var apps := ProjectApplications(sample.applications);
      var public := Project(sample, apps, wall, boottime, interval, id);
      if !Validate(public) {
        PublishFailure("network_snapshot_invalid", id);
        return;
      }
      stored := Stored(public, Some(at), None);
    }
  }
}
