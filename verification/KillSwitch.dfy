/**
 The one-way broadcast kill switch and the per-cohort tables it reads. One rule is consulted at three
 moments of a cohort's life: when its beacon transaction is built, when its funding watch would start,
 and when its signed transaction would be published. Its evidence, the advertise stamp, lives in a
 bounded table that evicts, is stamped once per cohort, and is released when the cohort settles.
 */
module KillSwitch {
  import opened Cohorts
  import opened OrderedMap

  const MAX_PER_COHORT_ENTRIES: nat := 24

  datatype Mode = Hermetic | LiveNoBroadcast | Broadcasting

  datatype Build = LiveTx | FixtureTx

  /** The whole switch: fail closed for a cohort that cannot be shown to predate it. */
  predicate CohortKeepsLiveWiring(broadcastDisabled: bool, engagedAt: Option<int>, advertisedAt: Option<int>) {
    if !broadcastDisabled then true
    else if engagedAt == None || advertisedAt == None then false
    else advertisedAt.value < engagedAt.value
  }

  // ---- The tables as a step system --------------------------------------------------------------

  datatype Tables = Tables(
    mode: Mode,
    disabled: bool,
    engagedAt: Option<int>,
    advertisedAt: OMap<CohortId, int>,
    watches: OMap<CohortId, string>)

  datatype What =
    | Advertised(cohort: CohortId)
    | KeygenComplete(cohort: CohortId, beaconAddress: string)
    | ProvideTxData(cohort: CohortId)
    | SigningComplete(cohort: CohortId)
    | CohortFailed(cohort: CohortId)
    | Canceled(cohort: CohortId)
    | SwitchEngaged

  /** Something that happened to the service, and the wall clock when it did. */
  datatype Event = Event(at: int, what: What)

  /** A decision taken on a cohort's money path. */
  datatype Leg =
    | TxDataLeg(cohort: CohortId, build: Build)
    | WatchLeg(cohort: CohortId, watched: bool)
    | PublishLeg(cohort: CohortId, published: bool)

  predicate UsesLivePath(t: Tables, c: CohortId) {
    CohortKeepsLiveWiring(t.disabled, t.engagedAt, t.advertisedAt.Get(c))
  }

  function Release(t: Tables, c: CohortId): Tables {
    t.(watches := t.watches.Delete(c), advertisedAt := t.advertisedAt.Delete(c))
  }

  function Step(t: Tables, e: Event): Tables {
    match e.what
    case Advertised(c) =>
      if c in t.advertisedAt.table then t
      else t.(advertisedAt := t.advertisedAt.Remember(c, e.at, MAX_PER_COHORT_ENTRIES))
    case KeygenComplete(c, address) =>
      if t.mode.Broadcasting? && UsesLivePath(t, c) && c !in t.watches.table
      then t.(watches := t.watches.Remember(c, address, MAX_PER_COHORT_ENTRIES)) else t
    case ProvideTxData(_) => t
    case SigningComplete(c) => Release(t, c)
    case CohortFailed(c) => if t.mode.Broadcasting? && c in t.watches.table then Release(t, c) else t
    case Canceled(c) => Release(t, c)
    case SwitchEngaged => if t.disabled then t else t.(disabled := true, engagedAt := Some(e.at))
  }

  /** The decision an event takes. At `signing-complete` the publish gate runs before the release. */
  function Decision(t: Tables, e: Event): Option<Leg> {
    match e.what
    case ProvideTxData(c) =>
      Some(TxDataLeg(c, if !t.mode.Hermetic? && UsesLivePath(t, c) then LiveTx else FixtureTx))
    case KeygenComplete(c, _) => Some(WatchLeg(c, t.mode.Broadcasting? && UsesLivePath(t, c)))
    case SigningComplete(c) => Some(PublishLeg(c, t.mode.Broadcasting? && UsesLivePath(t, c)))
    case _ => None
  }

  function Boot(mode: Mode): Tables {
    Tables(mode, false, None, OMap([], map[]), OMap([], map[]))
  }

  function RunFrom(mode: Mode, h: seq<Event>): Tables {
    if h == [] then Boot(mode) else Step(RunFrom(mode, h[..|h| - 1]), h[|h| - 1])
  }

  ghost predicate ClockOrdered(h: seq<Event>) {
    forall i, j :: 0 <= i < j < |h| ==> h[i].at <= h[j].at
  }

  // ---- What every step keeps --------------------------------------------------------------------

  ghost predicate Inv(t: Tables, now: int) {
    && t.advertisedAt.Valid() && |t.advertisedAt.order| <= MAX_PER_COHORT_ENTRIES
    && t.watches.Valid() && |t.watches.order| <= MAX_PER_COHORT_ENTRIES
    && (t.disabled <==> t.engagedAt.Some?)
    && (t.disabled ==> t.engagedAt.value <= now)
    && forall c :: c in t.advertisedAt.table ==> t.advertisedAt.table[c] <= now
  }

  lemma {:induction false} StepKeepsInv(t: Tables, e: Event, before: int)
    requires Inv(t, before) && before <= e.at
    ensures Inv(Step(t, e), e.at)
  {
    match e.what
    case Advertised(c) => RememberValid(t.advertisedAt, c, e.at, MAX_PER_COHORT_ENTRIES);
    case KeygenComplete(c, address) => RememberValid(t.watches, c, address, MAX_PER_COHORT_ENTRIES);
    case SigningComplete(c) => ReleaseKeepsInv(t, c, e.at);
    case CohortFailed(c) => ReleaseKeepsInv(t, c, e.at);
    case Canceled(c) => ReleaseKeepsInv(t, c, e.at);
    case _ =>
  }

  lemma {:induction false} ReleaseKeepsInv(t: Tables, c: CohortId, now: int)
    requires Inv(t, now)
    ensures Inv(Release(t, c), now)
  {
    DeleteValid(t.advertisedAt, c);
    DeleteValid(t.watches, c);
    WithoutNoDup(t.advertisedAt.order, c);
    WithoutNoDup(t.watches.order, c);
  }

  lemma {:induction false} RunKeepsInv(mode: Mode, h: seq<Event>, now: int)
    requires ClockOrdered(h)
    requires h != [] ==> h[|h| - 1].at <= now
    ensures Inv(RunFrom(mode, h), now) && RunFrom(mode, h).mode == mode
  {
    if h != [] {
      var n := |h| - 1;
      var before := if n == 0 then h[n].at else h[n - 1].at;
      RunKeepsInv(mode, h[..n], before);
      StepKeepsInv(RunFrom(mode, h[..n]), h[n], before);
    }
  }

  // ---- Safety -----------------------------------------------------------------------------------

  /** Whatever happens, a cohort's verdict only ever goes from true to false. */
  lemma {:induction false} VerdictOnlyFalls(t: Tables, e: Event, before: int, c: CohortId)
    requires Inv(t, before) && before <= e.at
    requires UsesLivePath(Step(t, e), c)
    ensures UsesLivePath(t, c)
  {
    if t.disabled {
      match e.what
      case Advertised(x) => RememberValid(t.advertisedAt, x, e.at, MAX_PER_COHORT_ENTRIES);
      case _ =>
    }
  }

  lemma {:induction false} VerdictOnlyFallsOverRuns(mode: Mode, h: seq<Event>, i: nat, j: nat, c: CohortId)
    requires ClockOrdered(h) && i <= j <= |h|
    requires UsesLivePath(RunFrom(mode, h[..j]), c)
    ensures UsesLivePath(RunFrom(mode, h[..i]), c)
    decreases j
  {
    if i < j {
      var before := if j == 1 then h[0].at else h[j - 2].at;
      assert h[..j][..j - 1] == h[..j - 1];
      RunKeepsInv(mode, h[..j - 1], before);
      VerdictOnlyFalls(RunFrom(mode, h[..j - 1]), h[j - 1], before, c);
      VerdictOnlyFallsOverRuns(mode, h, i, j - 1, c);
    }
  }

  /** A held stamp is the clock of some advertise of that very cohort, which found it unstamped. */
  lemma {:induction false} StampIsAnAdvertise(mode: Mode, h: seq<Event>, c: CohortId) returns (q: nat)
    requires ClockOrdered(h)
    requires c in RunFrom(mode, h).advertisedAt.table
    ensures q < |h| && h[q] == Event(RunFrom(mode, h).advertisedAt.table[c], Advertised(c))
  {
    var n := |h| - 1;
    var p := h[..n];
    var t := RunFrom(mode, p);
    RunKeepsInv(mode, p, h[n].at);
    match h[n].what {
      case Advertised(x) => RememberValid(t.advertisedAt, x, h[n].at, MAX_PER_COHORT_ENTRIES);
      case _ =>
    }
    if h[n].what == Advertised(c) && c !in t.advertisedAt.table {
      q := n;
    } else {
      q := StampIsAnAdvertise(mode, p, c);
    }
  }

  /** Once engaged, the engage time never moves. */
  lemma {:induction false} EngageTimeIsFixed(mode: Mode, h: seq<Event>, i: nat)
    requires i <= |h| && RunFrom(mode, h[..i]).disabled
    ensures RunFrom(mode, h).disabled && RunFrom(mode, h).engagedAt == RunFrom(mode, h[..i]).engagedAt
  {
    if i < |h| {
      assert h[..|h| - 1][..i] == h[..i];
      EngageTimeIsFixed(mode, h[..|h| - 1], i);
    } else {
      assert h[..i] == h;
    }
  }

  /** The switch is engaged by the end of the run, and the cohort was not advertised before the time it took. */
  ghost predicate AdvertisedLate(mode: Mode, h: seq<Event>, c: CohortId) {
    && ClockOrdered(h) && RunFrom(mode, h).engagedAt.Some?
    && forall q :: 0 <= q < |h| && h[q].what == Advertised(c) ==> h[q].at >= RunFrom(mode, h).engagedAt.value
  }

  /**
   Kill-switch safety: a cohort never advertised before the engage time is refused live wiring from then
   on, one advertised in the same millisecond included, through every eviction, re-advertise and release.
   At each of the three legs the refusal is the answer: the fixture, no watch, no publish.
   */
  lemma {:induction false} AdvertisedAfterSwitchNeverLive(mode: Mode, h: seq<Event>, c: CohortId)
    requires AdvertisedLate(mode, h, c)
    ensures !UsesLivePath(RunFrom(mode, h), c)
    ensures forall at :: Decision(RunFrom(mode, h), Event(at, ProvideTxData(c))) == Some(TxDataLeg(c, FixtureTx))
    ensures forall at, address ::
              Decision(RunFrom(mode, h), Event(at, KeygenComplete(c, address))) == Some(WatchLeg(c, false))
    ensures forall at :: Decision(RunFrom(mode, h), Event(at, SigningComplete(c))) == Some(PublishLeg(c, false))
  {
    RunKeepsInv(mode, h, if h == [] then 0 else h[|h| - 1].at);
    if c in RunFrom(mode, h).advertisedAt.table {
      var _ := StampIsAnAdvertise(mode, h, c);
    }
  }

  /** The evidence that is asked for, where the switch is on: a stamp strictly before the time it engaged. */
  predicate StampedBefore(t: Tables, c: CohortId) {
    && t.engagedAt.Some? && c in t.advertisedAt.table
    && t.advertisedAt.table[c] < t.engagedAt.value
  }

  /** Each leg is live exactly where the mode can afford it and the switch is off or the evidence is there. */
  lemma LegsExactly(t: Tables, at: int, c: CohortId, address: string)
    ensures Decision(t, Event(at, ProvideTxData(c))) ==
            Some(TxDataLeg(c, if t.mode != Hermetic && (!t.disabled || StampedBefore(t, c)) then LiveTx else FixtureTx))
    ensures Decision(t, Event(at, KeygenComplete(c, address))) ==
            Some(WatchLeg(c, t.mode == Broadcasting && (!t.disabled || StampedBefore(t, c))))
    ensures Decision(t, Event(at, SigningComplete(c))) ==
            Some(PublishLeg(c, t.mode == Broadcasting && (!t.disabled || StampedBefore(t, c))))
  {
  }

  /** A hermetic service only ever builds the fixture, and only a broadcasting one ever watches or publishes. */
  lemma ModesKeepTheirHandsOff(mode: Mode, h: seq<Event>, at: int, c: CohortId, address: string)
    ensures mode == Hermetic ==>
              Decision(RunFrom(mode, h), Event(at, ProvideTxData(c))) == Some(TxDataLeg(c, FixtureTx))
    ensures mode != Broadcasting ==>
              && Decision(RunFrom(mode, h), Event(at, KeygenComplete(c, address))) == Some(WatchLeg(c, false))
              && Decision(RunFrom(mode, h), Event(at, SigningComplete(c))) == Some(PublishLeg(c, false))
              && RunFrom(mode, h).watches == OMap([], map[])
  {
    ModeIsFixed(mode, h);
    if mode != Broadcasting {
      NothingIsWatched(mode, h);
    }
  }

  lemma {:induction false} NothingIsWatched(mode: Mode, h: seq<Event>)
    requires mode != Broadcasting
    ensures RunFrom(mode, h).watches == OMap([], map[])
  {
    if h != [] {
      NothingIsWatched(mode, h[..|h| - 1]);
      ModeIsFixed(mode, h[..|h| - 1]);
    }
  }

  /** No transaction reaches the network unless every build of it was the live build. */
  lemma {:induction false} PublishedWasBuiltLive(mode: Mode, h: seq<Event>, built: nat, published: nat, c: CohortId)
    requires ClockOrdered(h) && built < published < |h|
    requires h[built].what == ProvideTxData(c)
    requires Decision(RunFrom(mode, h[..published]), h[published]) == Some(PublishLeg(c, true))
    ensures Decision(RunFrom(mode, h[..built]), h[built]) == Some(TxDataLeg(c, LiveTx))
  {
    VerdictOnlyFallsOverRuns(mode, h, built, published, c);
    ModeIsFixed(mode, h[..built]);
    ModeIsFixed(mode, h[..published]);
  }

  lemma {:induction false} ModeIsFixed(mode: Mode, h: seq<Event>)
    ensures RunFrom(mode, h).mode == mode
  {
    if h != [] { ModeIsFixed(mode, h[..|h| - 1]); }
  }

  /** The operation one event performs on the stamp table, if any. */
  function StampOp(t: Tables, e: Event): seq<Op<CohortId, int>> {
    match e.what
    case Advertised(c) => if c in t.advertisedAt.table then [] else [Touch(c, e.at)]
    case SigningComplete(c) => [Forget(c)]
    case CohortFailed(c) => if t.mode.Broadcasting? && c in t.watches.table then [Forget(c)] else []
    case Canceled(c) => [Forget(c)]
    case _ => []
  }

  lemma StampStep(t: Tables, e: Event)
    ensures |StampOp(t, e)| <= 1
    ensures Step(t, e).advertisedAt ==
            if StampOp(t, e) == [] then t.advertisedAt
            else Apply(t.advertisedAt, StampOp(t, e)[0], MAX_PER_COHORT_ENTRIES)
  {
  }

  // ---- Agreement of the legs --------------------------------------------------------------------

  predicate MayRelease(w: What, c: CohortId) {
    w == SigningComplete(c) || w == CohortFailed(c) || w == Canceled(c)
  }

  /** The other cohorts advertised after position `q`. */
  ghost function OthersAdvertised(h: seq<Event>, q: int, c: CohortId): set<CohortId>
    requires q >= -1
  {
    set i | q < i < |h| && h[i].what.Advertised? && h[i].what.cohort != c :: h[i].what.cohort
  }

  /** A stamp survives, unmoved, until 24 other cohorts are advertised after it or its own cohort settles. */
  lemma {:induction false} StampSurvives(mode: Mode, h: seq<Event>, q: nat, c: CohortId)
    requires ClockOrdered(h) && q < |h| && h[q].what == Advertised(c)
    requires c !in RunFrom(mode, h[..q]).advertisedAt.table
    requires forall i :: q < i < |h| ==> !MayRelease(h[i].what, c)
    requires |OthersAdvertised(h, q, c)| < MAX_PER_COHORT_ENTRIES
    ensures RunFrom(mode, h).advertisedAt.Get(c) == Some(h[q].at)
    ensures After(RunFrom(mode, h).advertisedAt.order, c) <= OthersAdvertised(h, q, c)
  {
    var n := |h| - 1;
    var p := h[..n];
    StampsStayValid(mode, p);
    if q == n {
      FreshStamp(RunFrom(mode, p), h[n], c);
    } else {
      assert p[..q] == h[..q] && p[q] == h[q];
      OthersGrow(h, q, c);
      StampSurvives(mode, p, q, c);
      StampSurvivesStep(RunFrom(mode, p), h[n], c, OthersAdvertised(h, q, c));
    }
  }

  lemma StampsStayValid(mode: Mode, h: seq<Event>)
    requires ClockOrdered(h)
    ensures RunFrom(mode, h).advertisedAt.Valid()
    ensures |RunFrom(mode, h).advertisedAt.order| <= MAX_PER_COHORT_ENTRIES
  {
    RunKeepsInv(mode, h, if h == [] then 0 else h[|h| - 1].at);
  }

  lemma FreshStamp(t: Tables, e: Event, c: CohortId)
    requires t.advertisedAt.Valid() && c !in t.advertisedAt.table && e.what == Advertised(c)
    ensures Step(t, e).advertisedAt.Get(c) == Some(e.at)
    ensures After(Step(t, e).advertisedAt.order, c) == {}
  {
    RememberValid(t.advertisedAt, c, e.at, MAX_PER_COHORT_ENTRIES);
    TouchSame(t.advertisedAt, c, e.at, MAX_PER_COHORT_ENTRIES);
  }

  /** One event, seen from a stamped cohort whose newer stamps all lie in a set too small to evict it. */
  lemma StampSurvivesStep(t: Tables, e: Event, c: CohortId, others: set<CohortId>)
    requires t.advertisedAt.Valid() && |t.advertisedAt.order| <= MAX_PER_COHORT_ENTRIES
    requires c in t.advertisedAt.table && After(t.advertisedAt.order, c) <= others
    requires |others| < MAX_PER_COHORT_ENTRIES
    requires e.what.Advertised? && e.what.cohort != c ==> e.what.cohort in others
    requires !MayRelease(e.what, c)
    ensures Step(t, e).advertisedAt.Get(c) == t.advertisedAt.Get(c)
    ensures After(Step(t, e).advertisedAt.order, c) <= others
  {
    StampStep(t, e);
    if StampOp(t, e) != [] {
      SurvivesOneOp(t.advertisedAt, StampOp(t, e)[0], c, others, MAX_PER_COHORT_ENTRIES);
    }
  }

  lemma OthersGrow(h: seq<Event>, q: nat, c: CohortId)
    requires q < |h| - 1
    ensures OthersAdvertised(h[..|h| - 1], q, c) <= OthersAdvertised(h, q, c)
    ensures |OthersAdvertised(h[..|h| - 1], q, c)| <= |OthersAdvertised(h, q, c)|
    ensures var e := h[|h| - 1].what;
            e.Advertised? && e.cohort != c ==> e.cohort in OthersAdvertised(h, q, c)
  {
    var p := h[..|h| - 1];
    forall x | x in OthersAdvertised(p, q, c) ensures x in OthersAdvertised(h, q, c) {
      var i :| q < i < |p| && p[i].what.Advertised? && p[i].what.cohort != c && p[i].what.cohort == x;
      assert h[i] == p[i];
    }
    SubsetSize(OthersAdvertised(p, q, c), OthersAdvertised(h, q, c));
  }

  /**
   Leg agreement: a cohort stamped strictly before the switch engaged, if it ever does, gets the live
   answer at all three legs wherever the switch falls in its life, while fewer than 24 other cohorts
   have been advertised since.
   */
  lemma {:induction false} StampedBeforeSwitchStaysLive(h: seq<Event>, q: nat, p: nat, c: CohortId)
    requires ClockOrdered(h) && q < p < |h| && h[q].what == Advertised(c)
    requires c !in RunFrom(Broadcasting, h[..q]).advertisedAt.table
    requires forall i :: q < i < p ==> !MayRelease(h[i].what, c)
    requires |OthersAdvertised(h[..p], q, c)| < MAX_PER_COHORT_ENTRIES
    requires RunFrom(Broadcasting, h[..p]).engagedAt.Some? ==> h[q].at < RunFrom(Broadcasting, h[..p]).engagedAt.value
    ensures h[p].what == ProvideTxData(c) ==>
              Decision(RunFrom(Broadcasting, h[..p]), h[p]) == Some(TxDataLeg(c, LiveTx))
    ensures h[p].what.KeygenComplete? && h[p].what.cohort == c ==>
              Decision(RunFrom(Broadcasting, h[..p]), h[p]) == Some(WatchLeg(c, true))
    ensures h[p].what == SigningComplete(c) ==>
              Decision(RunFrom(Broadcasting, h[..p]), h[p]) == Some(PublishLeg(c, true))
  {
    assert h[..p][..q] == h[..q];
    StampSurvives(Broadcasting, h[..p], q, c);
    RunKeepsInv(Broadcasting, h[..p], h[p].at);
  }

  /** Had the release listener been registered first, an engaged switch would refuse every cohort its publish. */
  lemma ReleaseFirstRefusesEveryPublish(t: Tables, c: CohortId)
    requires t.disabled
    ensures !UsesLivePath(Release(t, c), c)
  {
    assert c !in Release(t, c).advertisedAt.table;
  }

  // ---- The exact verdict ------------------------------------------------------------------------

  /** The operations a run performs on the stamp table. */
  function StampOps(mode: Mode, h: seq<Event>): seq<Op<CohortId, int>> {
    if h == [] then []
    else StampOps(mode, h[..|h| - 1]) + StampOp(RunFrom(mode, h[..|h| - 1]), h[|h| - 1])
  }

  lemma RunAppend<K(!new), V>(ops: seq<Op<K, V>>, op: Op<K, V>, cap: nat)
    ensures Run(ops + [op], cap) == Apply(Run(ops, cap), op, cap)
  {
    assert (ops + [op])[..|ops|] == ops;
  }

  lemma {:induction false} StampTableIsItsOps(mode: Mode, h: seq<Event>)
    ensures RunFrom(mode, h).advertisedAt == Run(StampOps(mode, h), MAX_PER_COHORT_ENTRIES)
  {
    if h != [] {
      StampTableIsItsOps(mode, h[..|h| - 1]);
      var t, e := RunFrom(mode, h[..|h| - 1]), h[|h| - 1];
      var before := StampOps(mode, h[..|h| - 1]);
      StampStep(t, e);
      if StampOp(t, e) == [] {
        assert StampOps(mode, h) == before;
      } else {
        assert StampOps(mode, h) == before + [StampOp(t, e)[0]];
        RunAppend(before, StampOp(t, e)[0], MAX_PER_COHORT_ENTRIES);
      }
    }
  }

  /**
   After the switch engages, a cohort is live if and only if its stamp predates the engage time and has
   never had 24 newer stamps beside it since it was taken. The second half is the eviction the
   per-cohort verdict can be lost to.
   */
  lemma VerdictExactly(mode: Mode, h: seq<Event>, c: CohortId)
    requires ClockOrdered(h) && RunFrom(mode, h).engagedAt.Some?
    ensures UsesLivePath(RunFrom(mode, h), c)
            <==> && Retained(StampOps(mode, h), c, MAX_PER_COHORT_ENTRIES)
                 && StampOps(mode, h)[LastOp(StampOps(mode, h), c)].value < RunFrom(mode, h).engagedAt.value
  {
    StampTableIsItsOps(mode, h);
    RunLookup(StampOps(mode, h), c, MAX_PER_COHORT_ENTRIES);
    RunKeepsInv(mode, h, if h == [] then 0 else h[|h| - 1].at);
  }

  // ---- The service closure ----------------------------------------------------------------------

  /** The tables as the service holds them, changed in place by its listeners. */
  class LiveWiring {
    const mode: Mode
    var broadcastDisabled: bool
    var broadcastDisabledAt: Option<int>
    const advertisedAt: BoundedMap<CohortId, int>
    const fundingWatches: BoundedMap<CohortId, string>

    ghost predicate Valid()
      reads this, advertisedAt, fundingWatches
    {
      && advertisedAt.Valid() && advertisedAt.cap == MAX_PER_COHORT_ENTRIES
      && fundingWatches.Valid() && fundingWatches.cap == MAX_PER_COHORT_ENTRIES
    }

    function State(): Tables
      reads this, advertisedAt, fundingWatches
    {
      Tables(mode, broadcastDisabled, broadcastDisabledAt, advertisedAt.Model(), fundingWatches.Model())
    }

    constructor (mode: Mode)
      ensures Valid() && State() == Boot(mode)
      ensures fresh(advertisedAt) && fresh(fundingWatches)
    {
      this.mode, broadcastDisabled, broadcastDisabledAt := mode, false, None;
      advertisedAt := new BoundedMap(MAX_PER_COHORT_ENTRIES);
      fundingWatches := new BoundedMap(MAX_PER_COHORT_ENTRIES);
    }

    predicate CohortUsesLivePath(c: CohortId)
      reads this, advertisedAt
    {
      CohortKeepsLiveWiring(broadcastDisabled, broadcastDisabledAt, advertisedAt.Model().Get(c))
    }

    method OnAdvertised(c: CohortId, now: int)
      requires Valid()
      modifies advertisedAt
      ensures Valid() && State() == Step(old(State()), Event(now, Advertised(c)))
    {
      if c !in advertisedAt.table {
        var _ := advertisedAt.Remember(c, now);
      }
    }

    /** Choose the builder of a cohort's beacon transaction. */
    method OnProvideTxData(c: CohortId) returns (build: Build)
      requires Valid()
      ensures Decision(State(), Event(0, ProvideTxData(c))) == Some(TxDataLeg(c, build))
      ensures build == LiveTx <==> mode != Hermetic && (!broadcastDisabled || StampedBefore(State(), c))
      ensures forall h :: State() == RunFrom(mode, h) && AdvertisedLate(mode, h, c) ==> build == FixtureTx
    {
      forall h | State() == RunFrom(mode, h) && AdvertisedLate(mode, h, c)
        ensures Decision(State(), Event(0, ProvideTxData(c))) == Some(TxDataLeg(c, FixtureTx))
      {
        AdvertisedAfterSwitchNeverLive(mode, h, c);
      }
      if mode.Hermetic? { return FixtureTx; }
      build := if CohortUsesLivePath(c) then LiveTx else FixtureTx;
    }

    method OnKeygenComplete(c: CohortId, beaconAddress: string, now: int) returns (watched: bool)
      requires Valid()
      modifies fundingWatches
      ensures Valid() && State() == Step(old(State()), Event(now, KeygenComplete(c, beaconAddress)))
      ensures Decision(old(State()), Event(now, KeygenComplete(c, beaconAddress))) == Some(WatchLeg(c, watched))
      ensures watched <==> mode == Broadcasting && (!broadcastDisabled || StampedBefore(old(State()), c))
    {
      watched := mode.Broadcasting? && CohortUsesLivePath(c);
      if !watched { return; }
      if c in fundingWatches.table { return; }
      var _ := fundingWatches.Remember(c, beaconAddress);
    }

    method ReleaseCohortTables(c: CohortId)
      requires Valid()
      modifies advertisedAt, fundingWatches
      ensures Valid() && State() == Release(old(State()), c)
    {
      fundingWatches.Delete(c);
      advertisedAt.Delete(c);
    }

    /** The two `signing-complete` listeners in registration order: the publish gate, then the release. */
    method OnSigningComplete(c: CohortId, now: int) returns (publish: bool)
      requires Valid()
      modifies advertisedAt, fundingWatches
      ensures Valid() && State() == Step(old(State()), Event(now, SigningComplete(c)))
      ensures Decision(old(State()), Event(now, SigningComplete(c))) == Some(PublishLeg(c, publish))
      ensures publish <==> mode == Broadcasting && (!broadcastDisabled || StampedBefore(old(State()), c))
    {
      publish := mode.Broadcasting? && CohortUsesLivePath(c);
      ReleaseCohortTables(c);
    }

    method OnCohortFailed(c: CohortId, now: int)
      requires Valid()
      modifies advertisedAt, fundingWatches
      ensures Valid() && State() == Step(old(State()), Event(now, CohortFailed(c)))
    {
      if !mode.Broadcasting? || c !in fundingWatches.table { return; }
      ReleaseCohortTables(c);
    }

    method DisableBroadcast(now: int)
      requires Valid()
      modifies this
      ensures Valid() && State() == Step(old(State()), Event(now, SwitchEngaged))
    {
      if broadcastDisabled { return; }
      broadcastDisabled, broadcastDisabledAt := true, Some(now);
    }
  }
}
