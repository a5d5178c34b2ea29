/** The public network snapshot and its validation (`crates/domain/src/network.rs`). */
module NetworkDomain {
  import opened Wrappers
  import opened Common

  const SCHEMA_VERSION: nat := 1
  const MAX_INTERFACES: nat := 256
  const MAX_APPLICATIONS: nat := 1024
  const MAX_INTERFACE_NAME_BYTES: nat := 256
  const MAX_APPLICATION_KEY_BYTES: nat := 512
  const TOTAL_SCOPE := "inclusive_interfaces"

  datatype Freshness = Fresh | WarmingUp | Stale | Unknown

  datatype Availability = Healthy | Degraded | Unsupported | Unreachable

  datatype RateState = Known | RateWarmingUp | SamplingGap | CounterResetOrWrap | CountersUnavailable

  datatype Capability = Capability(status: Availability, reason: string)

  datatype ByteTotals = ByteTotals(rx: nat, tx: nat)

  datatype Totals = Totals(
    scope: string, all: ByteTotals, physical: ByteTotals, loopback: ByteTotals, tunnel: ByteTotals, other: ByteTotals)

  datatype Rate = Rate(rx: Option<real>, tx: Option<real>, state: RateState, reason: string)

  /** `facts` stands for the fields no rule looks at (index, kind, link flags, transition). */
  datatype InterfaceSample = InterfaceSample(name: string, counters: Option<ByteTotals>, rate: Rate, facts: nat)

  datatype ApplicationTraffic = ApplicationTraffic(
    key: string, rx: nat, tx: nat, rxShare: Option<real>, txShare: Option<real>)

  /** `facts` stands for the loopback, tunnel and layering flags. */
  datatype Coverage = Coverage(reported: nat, withCounters: nat, facts: nat, reason: string)

  datatype Snapshot = Snapshot(
    schema: nat,
    id: Uuid,
    capturedAt: Option<int>,
    boottime: Option<nat>,
    interval: Option<nat>,
    lastSuccessAt: Option<int>,
    freshness: Freshness,
    retryable: bool,
    system: Capability,
    perApplication: Capability,
    coverage: Coverage,
    totals: Option<Totals>,
    aggregate: Rate,
    interfaces: seq<InterfaceSample>,
    applications: seq<ApplicationTraffic>)

  predicate ValidPercent(p: Option<real>)
  {
    p.Some? ==> 0.0 <= p.value <= 100.0
  }

  predicate ValidRate(r: Rate)
  {
    && (r.rx.Some? ==> r.rx.value >= 0.0)
    && (r.tx.Some? ==> r.tx.value >= 0.0)
    && (if r.state.Known? then r.rx.Some? && r.tx.Some? else r.rx.None? && r.tx.None?)
  }

  predicate ValidInterface(i: InterfaceSample)
  {
    ValidText(i.name, MAX_INTERFACE_NAME_BYTES) && ValidRate(i.rate)
  }

  predicate ValidApplication(a: ApplicationTraffic)
  {
    ValidText(a.key, MAX_APPLICATION_KEY_BYTES) && ValidPercent(a.rxShare) && ValidPercent(a.txShare)
  }

  /** `NetworkSnapshot::validate`, true when it returns `Ok`. */
  predicate Validate(s: Snapshot)
  {
    && s.schema == SCHEMA_VERSION
    && |s.interfaces| <= MAX_INTERFACES
    && |s.applications| <= MAX_APPLICATIONS
    && s.coverage.reported == |s.interfaces|
    && s.coverage.withCounters <= s.coverage.reported
    && (forall i | i in s.interfaces :: ValidInterface(i))
    && (forall a | a in s.applications :: ValidApplication(a))
    && ValidRate(s.aggregate)
    && (s.totals.Some? ==> s.totals.value.scope == TOTAL_SCOPE)
    && (s.system.status.Healthy? ==>
          && s.capturedAt.Some? && s.boottime.Some? && s.lastSuccessAt.Some?
          && s.totals.Some? && s.freshness.Fresh?)
    && (s.perApplication.status.Unsupported? ==> s.applications == [])
  }

  predicate KnownRate(r: Rate)
  {
    r.rx.Some? && r.tx.Some? && r.rx.value >= 0.0 && r.tx.value >= 0.0
  }

  /**
   What a valid snapshot says, rule by rule: bounded lists with proper names and keys, shares that are
   percentages, rates that are there exactly when known and never negative, Healthy only with all its facts,
   and no records where per-application accounting is unsupported.
   */
  lemma ValidateExactly(s: Snapshot)
    ensures Validate(s) <==>
      && s.schema == 1 && |s.interfaces| <= 256 && |s.applications| <= 1024
      && s.coverage.withCounters <= s.coverage.reported == |s.interfaces|
      && (forall i | i in s.interfaces :: 1 <= |i.name| <= 256 && '\0' !in i.name
            && (if i.rate.state == Known then KnownRate(i.rate) else i.rate.rx == None && i.rate.tx == None))
      && (forall a | a in s.applications :: 1 <= |a.key| <= 512 && '\0' !in a.key
            && (a.rxShare == None || 0.0 <= a.rxShare.value <= 100.0)
            && (a.txShare == None || 0.0 <= a.txShare.value <= 100.0))
      && (if s.aggregate.state == Known then KnownRate(s.aggregate)
          else s.aggregate.rx == None && s.aggregate.tx == None)
      && (s.totals == None || s.totals.value.scope == "inclusive_interfaces")
      && (s.system.status == Healthy ==>
            && s.capturedAt != None && s.boottime != None && s.lastSuccessAt != None
            && s.totals != None && s.freshness == Fresh)
      && (s.perApplication.status == Unsupported && |s.applications| > 0 ==> false)
  {
  }

  /** `NetworkSnapshot::unavailable` with the identifier it draws. */
  function Unavailable(reason: string, id: Uuid): (s: Snapshot)
    ensures Validate(s) && s.totals.None? && s.interfaces == [] && s.applications == []
  {
    Snapshot(SCHEMA_VERSION, id, None, None, None, None, Unknown, true,
             Capability(Unreachable, reason), Capability(Unsupported, "per_app_collector_unavailable"),
             Coverage(0, 0, 0, reason), None,
             Rate(None, None, CountersUnavailable, "network_snapshot_unavailable"), [], [])
  }
}
