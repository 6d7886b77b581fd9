/**
 The one funding bit an anonymous caller can read, over whole runs of the service: the same happenings drive the
 kill-switch tables, the funding watches and the monitor's record of fates, and the bit is read from all three.
 */
module PublicBit {
  import opened AnchorState
  import opened Broadcast
  import opened Cohorts
  import opened FateFold
  import opened LiveEntries
  import opened FateRetention
  import opened FundingWatch
  import opened KillSwitch
  import opened OrderedMap
  import Eviction
  import F = FundingSurface
  import M = CohortMonitor

  /** A runner event, switch or cancel; a watch's report; a frame, fallback or activity; an accepted dismissal. */
  datatype Happening =
    | Wiring(event: Event, viaScriptPath: bool)
    | Reports(cohort: CohortId, state: FundingStateName, lastObservationOk: bool)
    | Seen(obs: Obs)
    | Dismisses(cohort: CohortId)

  datatype Service = Service(tables: Tables, surface: F.Surface, fold: Fold)

  // ---- One happening, as each part sees it -------------------------------------------------------

  /** What the kill-switch tables see. */
  function AsEvent(x: Happening): seq<Event> {
    if x.Wiring? then [x.event] else []
  }

  /** What the monitor's fold sees. */
  function AsObs(x: Happening): seq<Obs> {
    match x
    case Wiring(e, via) =>
      (match e.what
       case SigningComplete(c) => [Signed(c, via)]
       case CohortFailed(c) => [Failed(c)]
       case Canceled(c) => [CanceledByOperator(c)]
       case KeygenComplete(c, _) => [Activity(c)]
       case _ => [])
    case Reports(_, _, _) => []
    case Seen(o) => if o.Emitted? || o.FellBack? || o.Activity? then [o] else []
    case Dismisses(c) => [Dismissed(c)]
  }

  /** The happening is a `keygen-complete` of the cohort at which the rule answers live. */
  predicate StartsWatch(s: Service, x: Happening, c: CohortId) {
    IsKeygen(x, c) && Decision(s.tables, x.event) == Some(WatchLeg(c, true))
  }

  predicate IsKeygen(x: Happening, c: CohortId) {
    x.Wiring? && x.event.what.KeygenComplete? && x.event.what.cohort == c
  }

  /** What the funding tables see: a watch starts, a failure is heard, a view is dismissed, only where it may be. */
  function AsFunding(s: Service, x: Happening): seq<F.FundingEvent> {
    match x
    case Wiring(e, _) =>
      (match e.what
       case KeygenComplete(c, address) => if StartsWatch(s, x, c) then [F.WatchStarts(c, address)] else []
       case SigningComplete(c) => [F.CohortSettles(c)]
       case Canceled(c) => [F.CohortSettles(c)]
       case CohortFailed(c) => if s.tables.mode.Broadcasting? then [F.CohortFails(c)] else []
       case _ => [])
    case Reports(c, state, ok) => [F.WatchReports(c, state, ok)]
    case Seen(_) => []
    case Dismisses(c) => if c in s.fold.ended.table then [F.RecordDismissed(c)] else []
  }

  function Next(s: Service, x: Happening): Service {
    Service(
      if x.Wiring? then KillSwitch.Step(s.tables, x.event) else s.tables,
      if AsFunding(s, x) == [] then s.surface else F.Step(s.surface, AsFunding(s, x)[0]),
      if AsObs(x) == [] then s.fold else FateFold.Step(s.fold, AsObs(x)[0]))
  }

  function Start(mode: Mode): Service {
    Service(Boot(mode), F.RunSurface([]), RunFold([]))
  }

  function RunService(mode: Mode, h: seq<Happening>): Service {
    if h == [] then Start(mode) else Next(RunService(mode, h[..|h| - 1]), h[|h| - 1])
  }

  lemma OneMore(mode: Mode, h: seq<Happening>, x: Happening)
    ensures RunService(mode, h + [x]) == Next(RunService(mode, h), x)
  {
    assert (h + [x])[..|h|] == h;
  }

  /** The bit as the monitor answers it. */
  predicate Bit(s: Service, c: CohortId) {
    s.tables.mode.Broadcasting? && !IsCanceled(s.fold, c) && M.AwaitingFunding(s.surface.views, c)
  }

  // ---- The parts run on their own events ---------------------------------------------------------

  function Events(h: seq<Happening>): seq<Event> {
    if h == [] then [] else Events(h[..|h| - 1]) + AsEvent(h[|h| - 1])
  }

  function Observations(h: seq<Happening>): seq<Obs> {
    if h == [] then [] else Observations(h[..|h| - 1]) + AsObs(h[|h| - 1])
  }

  function Fundings(mode: Mode, h: seq<Happening>): seq<F.FundingEvent> {
    if h == [] then []
    else Fundings(mode, h[..|h| - 1]) + AsFunding(RunService(mode, h[..|h| - 1]), h[|h| - 1])
  }

  lemma {:induction false} TablesRunOnEvents(mode: Mode, h: seq<Happening>)
    ensures RunService(mode, h).tables == RunFrom(mode, Events(h))
  {
    if h != [] {
      var p, x := h[..|h| - 1], h[|h| - 1];
      TablesRunOnEvents(mode, p);
      if x.Wiring? {
        assert (Events(p) + [x.event])[..|Events(p)|] == Events(p);
      } else {
        assert Events(h) == Events(p);
      }
    }
  }

  lemma FoldAppend(log: seq<Obs>, os: seq<Obs>)
    requires |os| <= 1
    ensures RunFold(log + os) == if os == [] then RunFold(log) else FateFold.Step(RunFold(log), os[0])
  {
    if os == [] {
      assert log + os == log;
    } else {
      assert (log + os)[..|log|] == log && (log + os)[|log|] == os[0];
    }
  }

  lemma AtMostOneObs(x: Happening)
    ensures |AsObs(x)| <= 1
  {
  }

  lemma {:induction false} FoldRunsOnObservations(mode: Mode, h: seq<Happening>)
    ensures RunService(mode, h).fold == RunFold(Observations(h))
  {
    if h != [] {
      FoldRunsOnObservations(mode, h[..|h| - 1]);
      AtMostOneObs(h[|h| - 1]);
      FoldAppend(Observations(h[..|h| - 1]), AsObs(h[|h| - 1]));
    }
  }

  lemma SurfaceAppend(es: seq<F.FundingEvent>, more: seq<F.FundingEvent>)
    requires |more| <= 1
    ensures F.RunSurface(es + more) == if more == [] then F.RunSurface(es) else F.Step(F.RunSurface(es), more[0])
  {
    if more == [] {
      assert es + more == es;
    } else {
      assert (es + more)[..|es|] == es && (es + more)[|es|] == more[0];
    }
  }

  lemma AtMostOneFunding(s: Service, x: Happening)
    ensures |AsFunding(s, x)| <= 1
  {
  }

  lemma {:induction false} SurfaceRunsOnFundings(mode: Mode, h: seq<Happening>)
    ensures RunService(mode, h).surface == F.RunSurface(Fundings(mode, h))
  {
    if h != [] {
      var s := RunService(mode, h[..|h| - 1]);
      SurfaceRunsOnFundings(mode, h[..|h| - 1]);
      AtMostOneFunding(s, h[|h| - 1]);
      SurfaceAppend(Fundings(mode, h[..|h| - 1]), AsFunding(s, h[|h| - 1]));
    }
  }

  // ---- What one happening leaves ----------------------------------------------------------------

  /** The fold takes what the happening tells it as its next observation. */
  lemma FoldNext(mode: Mode, h: seq<Happening>, x: Happening, o: Obs)
    requires AsObs(x) == [o]
    ensures RunService(mode, h + [x]).fold == FateFold.Step(RunService(mode, h).fold, o)
    ensures RunService(mode, h).fold == RunFold(Observations(h)) && FoldInv(RunService(mode, h).fold)
    ensures Observations(h + [x]) == Observations(h) + [o]
  {
    OneMore(mode, h, x);
    assert (h + [x])[..|h|] == h;
    FoldRunsOnObservations(mode, h);
    ColumnsFollowTheTag(Observations(h));
  }

  lemma FiledNext(mode: Mode, h: seq<Happening>, x: Happening, o: Obs)
    requires AsObs(x) == [o] && Filed(RunService(mode, h).fold, o).Some?
    ensures RunService(mode, h + [x]).fold.ended.Get(o.cohort) == Filed(RunService(mode, h).fold, o)
  {
    FoldNext(mode, h, x, o);
    OnlyOwnRecordChanges(RunService(mode, h).fold, o);
  }

  /** A co-sign is filed in the fallback column exactly for the script path or a fallback the monitor still recalls. */
  lemma CoSignIsFiled(mode: Mode, h: seq<Happening>, at: int, c: CohortId, via: bool)
    ensures RunService(mode, h + [Wiring(Event(at, SigningComplete(c)), via)]).fold.ended.Get(c) ==
            if via || FellBackSince(Observations(h), c) then Some(Ended(CoSignedFallback, true))
            else Some(Ended(CoSigned, false))
  {
    FiledNext(mode, h, Wiring(Event(at, SigningComplete(c)), via), Signed(c, via));
    FoldRunsOnObservations(mode, h);
    TagIsSeen(Observations(h), c);
  }

  /** And such a fallback is recalled from the moment it is seen. */
  lemma FallbackIsRecalled(mode: Mode, h: seq<Happening>, c: CohortId)
    ensures FellBackSince(Observations(h + [Seen(FellBack(c))]), c)
    ensures c in RunService(mode, h + [Seen(FellBack(c))]).fold.entries.table
  {
    FoldNext(mode, h, Seen(FellBack(c)), FellBack(c));
    TagStep(RunService(mode, h).fold, FellBack(c), c);
  }

  /** A cohort that fails, on the runner or on the network, is recorded as failed. */
  lemma FailureIsFiled(mode: Mode, h: seq<Happening>, at: int, c: CohortId, via: bool)
    ensures RunService(mode, h + [Wiring(Event(at, CohortFailed(c)), via)]).fold.ended.Get(c) ==
            Some(Ended(FailedChip, false))
    ensures RunService(mode, h + [Seen(Emitted(c, FailedFrame))]).fold.ended.Get(c) == Some(Ended(FailedChip, false))
  {
    FiledNext(mode, h, Wiring(Event(at, CohortFailed(c)), via), Failed(c));
    FiledNext(mode, h, Seen(Emitted(c, FailedFrame)), Emitted(c, FailedFrame));
  }

  /** One confirmed on the chain is recorded as anchored, in one of the two columns. */
  lemma AnchorIsFiled(mode: Mode, h: seq<Happening>, c: CohortId, txid: Txid)
    ensures var after := RunService(mode, h + [Seen(Emitted(c, Anchored(txid, true)))]).fold.ended;
            c in after.table && (after.table[c].chip == AnchoredChip || after.table[c].chip == FallbackChip)
  {
    FiledNext(mode, h, Seen(Emitted(c, Anchored(txid, true))), Emitted(c, Anchored(txid, true)));
  }

  /** A cohort that keys, or shows any other sign of life, has the newest live entry. */
  lemma SignOfLife(mode: Mode, h: seq<Happening>, at: int, c: CohortId, address: string, via: bool)
    ensures Holds(RunService(mode, h + [Wiring(Event(at, KeygenComplete(c, address)), via)]).fold, c, Some({}))
    ensures Holds(RunService(mode, h + [Seen(Activity(c))]).fold, c, Some({}))
  {
    FoldNext(mode, h, Wiring(Event(at, KeygenComplete(c, address)), via), Activity(c));
    FoldNext(mode, h, Seen(Activity(c)), Activity(c));
    MadeIsNewest(Observations(h), Activity(c));
  }

  /** Dismissing an ended cohort clears its record, its entry and its view; dismissing any other changes nothing. */
  lemma DismissalClears(mode: Mode, h: seq<Happening>, c: CohortId)
    ensures var s, t := RunService(mode, h), RunService(mode, h + [Dismisses(c)]);
            if c in s.fold.ended.table
            then c !in t.fold.ended.table && c !in t.fold.entries.table && c !in t.surface.views.table
            else t == s
  {
    OneMore(mode, h, Dismisses(c));
    DismissStep(RunService(mode, h), c);
  }

  lemma DismissStep(s: Service, c: CohortId)
    ensures var t := Next(s, Dismisses(c));
            if c in s.fold.ended.table
            then c !in t.fold.ended.table && c !in t.fold.entries.table && c !in t.surface.views.table
            else t == s
  {
  }

  // ---- What every run keeps ---------------------------------------------------------------------

  /** Kill switch and funding surface hold the same watch handles, in the same order; off broadcasting, none. */
  ghost predicate Joined(mode: Mode, s: Service) {
    && s.tables.mode == mode && s.surface.watching == s.tables.watches
    && (!mode.Broadcasting? ==> s.surface.watching == OMap([], map[]))
    && s.surface.watching.Valid() && s.surface.last.Valid() && s.surface.views.Valid()
  }

  lemma SameOnKeygen(s: Service, x: Happening, c: CohortId)
    requires IsKeygen(x, c) && s.surface.watching == s.tables.watches
    ensures Next(s, x).surface.watching == Next(s, x).tables.watches
    ensures !s.tables.mode.Broadcasting? ==> Next(s, x).surface.watching == s.surface.watching
  {
  }

  lemma NothingToRelease(w: OMap<CohortId, string>, c: CohortId)
    requires w == OMap([], map[])
    ensures w.Delete(c) == w
  {
  }

  lemma SameOnRelease(s: Service, x: Happening)
    requires x.Wiring? && (x.event.what.SigningComplete? || x.event.what.Canceled? || x.event.what.CohortFailed?)
    requires s.surface.watching == s.tables.watches
    ensures Next(s, x).surface.watching == Next(s, x).tables.watches
    ensures s.surface.watching == OMap([], map[]) ==> Next(s, x).surface.watching == OMap([], map[])
  {
    if s.surface.watching == OMap([], map[]) {
      NothingToRelease(s.surface.watching, x.event.what.cohort);
    }
  }

  lemma SameWatches(s: Service, x: Happening)
    requires Joined(s.tables.mode, s)
    ensures Next(s, x).tables.mode == s.tables.mode && Next(s, x).surface.watching == Next(s, x).tables.watches
    ensures !s.tables.mode.Broadcasting? ==> Next(s, x).surface.watching == OMap([], map[])
  {
    if x.Wiring? {
      match x.event.what
      case KeygenComplete(c, _) => SameOnKeygen(s, x, c);
      case SigningComplete(_) => SameOnRelease(s, x);
      case Canceled(_) => SameOnRelease(s, x);
      case CohortFailed(_) => SameOnRelease(s, x);
      case _ =>
    }
  }

  lemma SurfaceStaysValid(s: F.Surface, e: F.FundingEvent)
    requires s.watching.Valid() && s.last.Valid() && s.views.Valid()
    ensures F.Step(s, e).watching.Valid() && F.Step(s, e).last.Valid() && F.Step(s, e).views.Valid()
  {
    F.StepKeepsViewsValid(s, e);
    match e
    case WatchStarts(x, address) => RememberValid(s.watching, x, address, MAX_PER_COHORT_ENTRIES);
    case CohortFails(x) => DeleteValid(s.watching, x);
    case CohortSettles(x) => DeleteValid(s.watching, x);
    case _ =>
  }

  lemma {:induction false} RunStaysJoined(mode: Mode, h: seq<Happening>)
    ensures Joined(mode, RunService(mode, h))
  {
    if h != [] {
      var s, x := RunService(mode, h[..|h| - 1]), h[|h| - 1];
      RunStaysJoined(mode, h[..|h| - 1]);
      SameWatches(s, x);
      if AsFunding(s, x) != [] {
        SurfaceStaysValid(s.surface, AsFunding(s, x)[0]);
      }
    }
  }

  // ---- A cohort no watch was started for --------------------------------------------------------

  /** No handle, no running watch, no last view and no public view. */
  ghost predicate Unwatched(s: F.Surface, c: CohortId) {
    c !in s.watching.table && c !in s.running && c !in s.last.table && c !in s.views.table
  }

  lemma UnwatchedStep(s: F.Surface, e: F.FundingEvent, c: CohortId)
    requires s.watching.Valid() && s.last.Valid() && s.views.Valid() && Unwatched(s, c)
    requires !(e.WatchStarts? && e.cohort == c)
    ensures Unwatched(F.Step(s, e), c)
  {
    match e
    case WatchStarts(x, address) => RememberValid(s.watching, x, address, MAX_PER_COHORT_ENTRIES);
    case WatchReports(x, state, ok) =>
      RememberValid(s.last, x, M.FundingView(state, !ok, None), MAX_PER_COHORT_ENTRIES);
      RememberValid(s.views, x, M.FundingView(state, !ok, None), MAX_TERMINAL);
    case CohortFails(x) =>
      if x in s.last.table { RememberValid(s.views, x, F.WithLapse(s.last.table[x]), MAX_TERMINAL); }
    case _ =>
  }

  lemma OnlyKeygenStarts(s: Service, x: Happening, c: CohortId)
    requires !StartsWatch(s, x, c) && AsFunding(s, x) != []
    ensures !(AsFunding(s, x)[0].WatchStarts? && AsFunding(s, x)[0].cohort == c)
  {
  }

  lemma UnwatchedNext(mode: Mode, s: Service, x: Happening, c: CohortId)
    requires Joined(mode, s) && Unwatched(s.surface, c) && !StartsWatch(s, x, c)
    ensures Unwatched(Next(s, x).surface, c)
  {
    if AsFunding(s, x) != [] {
      OnlyKeygenStarts(s, x, c);
      UnwatchedStep(s.surface, AsFunding(s, x)[0], c);
    }
  }

  /** Where no `keygen-complete` of a cohort found the rule live, nothing about its funding is ever noted. */
  lemma {:induction false} NeverWatchedNeverAwaits(mode: Mode, h: seq<Happening>, n: nat, c: CohortId)
    requires n <= |h| && forall j :: 0 <= j < n ==> !StartsWatch(RunService(mode, h[..j]), h[j], c)
    ensures Unwatched(RunService(mode, h[..n]).surface, c) && !Bit(RunService(mode, h[..n]), c)
  {
    if n > 0 {
      NeverWatchedNeverAwaits(mode, h, n - 1, c);
      RunStaysJoined(mode, h[..n - 1]);
      UnwatchedNext(mode, RunService(mode, h[..n - 1]), h[n - 1], c);
      Taken(mode, h, n - 1);
    }
  }

  lemma Taken(mode: Mode, h: seq<Happening>, n: nat)
    requires n < |h|
    ensures RunService(mode, h[..n + 1]) == Next(RunService(mode, h[..n]), h[n])
  {
    assert h[..n + 1] == h[..n] + [h[n]];
    OneMore(mode, h[..n], h[n]);
  }

  // ---- A cohort advertised too late -------------------------------------------------------------

  lemma {:induction false} EventsPrefix(h: seq<Happening>, j: nat)
    requires j <= |h|
    ensures |Events(h[..j])| <= |Events(h)| && Events(h)[..|Events(h[..j])|] == Events(h[..j])
    decreases |h|
  {
    if j < |h| {
      EventsPrefix(h[..|h| - 1], j);
      assert h[..|h| - 1][..j] == h[..j];
    } else {
      assert h[..j] == h;
    }
  }

  lemma LateEventsAreRefused(mode: Mode, es: seq<Event>, k: nat, c: CohortId)
    requires AdvertisedLate(mode, es, c) && k <= |es| && RunFrom(mode, es[..k]).disabled
    ensures !UsesLivePath(RunFrom(mode, es[..k]), c)
  {
    EngageTimeIsFixed(mode, es, k);
    AdvertisedAfterSwitchNeverLive(mode, es[..k], c);
  }

  /** Once the switch is engaged, a late cohort is refused there and then. */
  lemma LateIsRefused(mode: Mode, h: seq<Happening>, j: nat, c: CohortId)
    requires AdvertisedLate(mode, Events(h), c) && j <= |h| && RunService(mode, h[..j]).tables.disabled
    ensures !UsesLivePath(RunService(mode, h[..j]).tables, c)
  {
    EventsPrefix(h, j);
    TablesRunOnEvents(mode, h[..j]);
    LateEventsAreRefused(mode, Events(h), |Events(h[..j])|, c);
  }

  /** A late cohort's watch starts exactly at a `keygen-complete` that comes before the switch. */
  lemma LateWatchExactly(mode: Mode, h: seq<Happening>, j: nat, c: CohortId)
    requires mode.Broadcasting? && AdvertisedLate(mode, Events(h), c) && j < |h|
    ensures StartsWatch(RunService(mode, h[..j]), h[j], c) <==>
            IsKeygen(h[j], c) && !RunService(mode, h[..j]).tables.disabled
  {
    RunStaysJoined(mode, h[..j]);
    if RunService(mode, h[..j]).tables.disabled {
      LateIsRefused(mode, h, j, c);
    }
  }

  /**
   A cohort not advertised before the engage time, and whose keys are agreed only after the switch, starts no
   watch: at no moment of the run is a view of it noted or its public bit set.
   */
  lemma LateCohortNeverAwaits(mode: Mode, h: seq<Happening>, c: CohortId, n: nat)
    requires AdvertisedLate(mode, Events(h), c) && n <= |h|
    requires forall j :: 0 <= j < |h| && IsKeygen(h[j], c) ==> RunService(mode, h[..j]).tables.disabled
    ensures Unwatched(RunService(mode, h[..n]).surface, c) && !Bit(RunService(mode, h[..n]), c)
  {
    forall j | 0 <= j < n ensures !StartsWatch(RunService(mode, h[..j]), h[j], c) {
      if IsKeygen(h[j], c) { LateIsRefused(mode, h, j, c); }
    }
    NeverWatchedNeverAwaits(mode, h, n, c);
  }

  // ---- A canceled cohort ------------------------------------------------------------------------

  /** After every run: the bit is set exactly while a view that awaits is retained and no cancel stands as the fate. */
  lemma BitExactly(mode: Mode, h: seq<Happening>, c: CohortId)
    ensures Bit(RunService(mode, h), c) <==>
            && mode.Broadcasting? && M.AwaitingFunding(RunService(mode, h).surface.views, c)
            && !StandsCanceled(Observations(h), c)
  {
    RunStaysJoined(mode, h);
    FoldRunsOnObservations(mode, h);
    CanceledExactly(Observations(h), c);
  }

  /** Nothing watches the cohort. */
  ghost predicate Retired(s: F.Surface, c: CohortId) {
    c !in s.running && c !in s.watching.table
  }

  /** A view held afterwards was held before, and is the same. */
  ghost predicate Frozen(before: F.Surface, after: F.Surface, c: CohortId) {
    c in after.views.table ==> c in before.views.table && after.views.table[c] == before.views.table[c]
  }

  lemma RetiredStep(s: F.Surface, e: F.FundingEvent, c: CohortId)
    requires s.watching.Valid() && s.views.Valid() && Retired(s, c) && !(e.WatchStarts? && e.cohort == c)
    ensures Retired(F.Step(s, e), c) && Frozen(s, F.Step(s, e), c)
  {
    if e != F.CohortFails(c) {
      F.ViewStep(s, e, c);
    }
    match e
    case WatchStarts(x, address) => RememberValid(s.watching, x, address, MAX_PER_COHORT_ENTRIES);
    case _ =>
  }

  /** Nothing watches the cohort, and if it has a view, it is the one it had. */
  ghost predicate Still(past: F.Surface, s: F.Surface, c: CohortId) {
    Retired(s, c) && Frozen(past, s, c)
  }

  lemma StillNext(mode: Mode, past: F.Surface, s: Service, x: Happening, c: CohortId)
    requires Joined(mode, s) && Still(past, s.surface, c) && !StartsWatch(s, x, c)
    ensures Still(past, Next(s, x).surface, c)
  {
    if AsFunding(s, x) != [] {
      OnlyKeygenStarts(s, x, c);
      RetiredStep(s.surface, AsFunding(s, x)[0], c);
    }
  }

  /** The states of a run, one before each happening and one after the last. */
  ghost function States(mode: Mode, h: seq<Happening>): (ss: seq<Service>)
    ensures |ss| == |h| + 1
    ensures forall i :: 0 <= i <= |h| ==> ss[i] == RunService(mode, h[..i])
  {
    seq(|h| + 1, i requires 0 <= i <= |h| => RunService(mode, h[..i]))
  }

  ghost predicate Follows(mode: Mode, ss: seq<Service>, h: seq<Happening>) {
    && |ss| == |h| + 1
    && (forall i :: 0 <= i < |ss| ==> Joined(mode, ss[i]))
    && forall i :: 0 <= i < |h| ==> ss[i + 1] == Next(ss[i], h[i])
  }

  lemma StatesFollow(mode: Mode, h: seq<Happening>)
    ensures Follows(mode, States(mode, h), h)
  {
    var ss := States(mode, h);
    forall i | 0 <= i < |ss| ensures Joined(mode, ss[i]) { RunStaysJoined(mode, h[..i]); }
    forall i | 0 <= i < |h| ensures ss[i + 1] == Next(ss[i], h[i]) { Taken(mode, h, i); }
  }

  /** The view of a cohort that nothing watches any more is the one it had, for as long as it is retained. */
  lemma {:induction false} ViewIsFrozen(mode: Mode, ss: seq<Service>, h: seq<Happening>, q: nat, n: nat, c: CohortId)
    requires Follows(mode, ss, h) && q <= n <= |h| && Retired(ss[q].surface, c)
    requires forall j :: q <= j < n ==> !StartsWatch(ss[j], h[j], c)
    ensures Still(ss[q].surface, ss[n].surface, c)
    decreases n
  {
    if q < n {
      ViewIsFrozen(mode, ss, h, q, n - 1, c);
      StillNext(mode, ss[q].surface, ss[n - 1], h[n - 1], c);
      assert ss[n - 1 + 1] == Next(ss[n - 1], h[n - 1]);
    }
  }

  predicate IsCancel(x: Happening, c: CohortId) {
    x.Wiring? && x.event.what == Canceled(c)
  }

  lemma CancelRetires(s: Service, x: Happening, c: CohortId)
    requires IsCancel(x, c) && (c in s.surface.running ==> c in s.surface.watching.table)
    ensures Retired(Next(s, x).surface, c) && Next(s, x).surface.views == s.surface.views
  {
  }

  /**
   A canceled cohort whose watch the cancel could stop, and which is not watched again, reads as awaiting at the
   end of any run exactly if its view awaited at the cancel and is retained still, while the cancel, told by the
   fates that came after it, no longer stands.
   */
  lemma CanceledBitExactly(mode: Mode, h: seq<Happening>, q: nat, c: CohortId)
    requires q < |h| && IsCancel(h[q], c)
    requires var s := RunService(mode, h[..q]).surface; c in s.running ==> c in s.watching.table
    requires forall j :: q < j < |h| ==> !StartsWatch(RunService(mode, h[..j]), h[j], c)
    ensures Bit(RunService(mode, h), c) <==>
            && mode.Broadcasting? && M.AwaitingFunding(RunService(mode, h[..q]).surface.views, c)
            && c in RunService(mode, h).surface.views.table
            && !StandsCanceled(Observations(h), c)
  {
    BitExactly(mode, h, c);
    StatesFollow(mode, h);
    assert h[..|h|] == h;
    FrozenFromCancel(mode, States(mode, h), h, q, c);
  }

  lemma FrozenFromCancel(mode: Mode, ss: seq<Service>, h: seq<Happening>, q: nat, c: CohortId)
    requires Follows(mode, ss, h) && q < |h| && IsCancel(h[q], c)
    requires c in ss[q].surface.running ==> c in ss[q].surface.watching.table
    requires forall j :: q < j < |h| ==> !StartsWatch(ss[j], h[j], c)
    ensures Frozen(ss[q].surface, ss[|h|].surface, c)
  {
    CancelRetires(ss[q], h[q], c);
    ViewIsFrozen(mode, ss, h, q + 1, |h|, c);
  }

  // ---- The runs ---------------------------------------------------------------------------------

  const WAITS := M.FundingView(Waiting, false, None)

  lemma OneKey<V>(c: CohortId, v: V)
    ensures OMap([], map[]).Remember(c, v, MAX_PER_COHORT_ENTRIES) == OMap([c], map[c := v])
  {
    var none: OMap<CohortId, V> := OMap([], map[]);
    assert none.Put(c, v) == OMap([c], map[c := v]);
  }

  /** The cohort is advertised, its keys are agreed, and its watch reports that it waits. */
  ghost function Opened(c: CohortId, at: int): seq<Happening> {
    [Wiring(Event(at, Advertised(c)), false)] + [Wiring(Event(at, KeygenComplete(c, "")), false)]
    + [Reports(c, Waiting, true)]
  }

  ghost function Stamped(c: CohortId, at: int): Service {
    Service(Tables(Broadcasting, false, None, OMap([c], map[c := at]), OMap([], map[])), F.RunSurface([]), RunFold([]))
  }

  ghost function Watched(c: CohortId, at: int, f: Fold): Service {
    Service(Tables(Broadcasting, false, None, OMap([c], map[c := at]), OMap([c], map[c := ""])),
            F.Surface(OMap([c], map[c := ""]), {c}, OMap([], map[]), OMap([], map[])), f)
  }

  ghost function Waits(c: CohortId, at: int, f: Fold): Service {
    Watched(c, at, f).(surface := F.Surface(OMap([c], map[c := ""]), {c}, OMap([c], map[c := WAITS]),
                                            OMap([c], map[c := WAITS])))
  }

  lemma FirstStamp(c: CohortId, at: int)
    ensures Next(Start(Broadcasting), Wiring(Event(at, Advertised(c)), false)) == Stamped(c, at)
  {
    OneKey(c, at);
  }

  lemma FirstWatch(c: CohortId, at: int)
    ensures var s := Next(Stamped(c, at), Wiring(Event(at, KeygenComplete(c, "")), false));
            s == Watched(c, at, s.fold) && s.fold.ended == OMap([], map[])
  {
    OneKey(c, "");
  }

  lemma FirstReport(c: CohortId, at: int, f: Fold)
    ensures Next(Watched(c, at, f), Reports(c, Waiting, true)) == Waits(c, at, f)
  {
    OneKey(c, WAITS);
  }

  lemma OpenedWaits(c: CohortId, at: int)
    ensures var s := RunService(Broadcasting, Opened(c, at));
            s == Waits(c, at, s.fold) && s.fold.ended == OMap([], map[])
  {
    var a, b := Wiring(Event(at, Advertised(c)), false), Wiring(Event(at, KeygenComplete(c, "")), false);
    OneMore(Broadcasting, [], a);
    OneMore(Broadcasting, [a], b);
    OneMore(Broadcasting, [a] + [b], Reports(c, Waiting, true));
    assert [] + [a] == [a];
    FirstStamp(c, at);
    FirstWatch(c, at);
    FirstReport(c, at, RunService(Broadcasting, [a] + [b]).fold);
  }

  /** Advertised, agreed and watched in the millisecond in which the switch engages after it. */
  ghost function SameMillisecond(c: CohortId): seq<Happening> {
    Opened(c, 1) + [Wiring(Event(1, SwitchEngaged), false)]
  }

  lemma EventsAppend(h: seq<Happening>, x: Happening)
    ensures Events(h + [x]) == Events(h) + AsEvent(x)
  {
    assert (h + [x])[..|h|] == h;
  }

  lemma SameMillisecondEvents(c: CohortId)
    ensures Events(SameMillisecond(c)) ==
            [Event(1, Advertised(c)), Event(1, KeygenComplete(c, "")), Event(1, SwitchEngaged)]
  {
    var a, b := Wiring(Event(1, Advertised(c)), false), Wiring(Event(1, KeygenComplete(c, "")), false);
    EventsAppend([], a);
    EventsAppend([a], b);
    EventsAppend([a] + [b], Reports(c, Waiting, true));
    EventsAppend(Opened(c, 1), Wiring(Event(1, SwitchEngaged), false));
    assert [] + [a] == [a];
  }

  /**
   The proviso on the keys is needed: within one millisecond a late cohort can be watched before the switch, and
   then its bit is set though its verdict has fallen.
   */
  lemma LateCohortCanAwait(c: CohortId)
    ensures AdvertisedLate(Broadcasting, Events(SameMillisecond(c)), c)
    ensures var s := RunService(Broadcasting, SameMillisecond(c)); !UsesLivePath(s.tables, c) && Bit(s, c)
  {
    OpenedWaits(c, 1);
    OneMore(Broadcasting, Opened(c, 1), Wiring(Event(1, SwitchEngaged), false));
    TablesRunOnEvents(Broadcasting, SameMillisecond(c));
    SameMillisecondEvents(c);
  }

  ghost function OpenedAndCanceled(c: CohortId): seq<Happening> {
    Opened(c, 0) + [Wiring(Event(1, Canceled(c)), false)]
  }

  /** The cohort is canceled while it waits, and then `n` others fail before they were ever watched. */
  ghost function Forgotten(c: CohortId, n: nat): seq<Happening> {
    OpenedAndCanceled(c) +
    seq(n, i requires 0 <= i < n => Wiring(Event(1, CohortFailed(Eviction.Newcomer(c, i))), false))
  }

  lemma ForgottenStep(c: CohortId, n: nat)
    ensures Forgotten(c, 0) == OpenedAndCanceled(c)
    ensures n > 0 ==> Forgotten(c, n) == Forgotten(c, n - 1) +
                                         [Wiring(Event(1, CohortFailed(Eviction.Newcomer(c, n - 1))), false)]
  {
  }

  /** The view waits on with nobody watching, and the cancel has `n` newer records beside it, or is gone. */
  ghost predicate CancelBehind(s: Service, c: CohortId, n: nat) {
    && s.tables.mode.Broadcasting?
    && s.surface.watching == OMap([], map[]) && s.surface.views == OMap([c], map[c := WAITS])
    && s.fold.ended.Valid() && |s.fold.ended.order| <= MAX_TERMINAL
    && if n < MAX_TERMINAL
       then && s.fold.ended.Get(c) == Some(Ended(CanceledChip, false))
            && |After(s.fold.ended.order, c)| == n
            && (forall x :: x in After(s.fold.ended.order, c) ==> |x| <= |c| + n)
       else c !in s.fold.ended.table
  }

  lemma CancelAtFirst(c: CohortId, f: Fold)
    requires f.ended == OMap([], map[])
    ensures CancelBehind(Next(Waits(c, 0, f), Wiring(Event(1, Canceled(c)), false)), c, 0)
  {
    OneKey(c, Ended(CanceledChip, false));
    assert Without([c], c) == Without([c][1..], c) == [];
  }

  lemma OneFateMore(s: Service, c: CohortId, n: nat, x: CohortId)
    requires n > 0 && |x| == |c| + n && CancelBehind(s, c, n - 1)
    ensures CancelBehind(Next(s, Wiring(Event(1, CohortFailed(x)), false)), c, n)
  {
    var m, failed := s.fold.ended, Ended(FailedChip, false);
    RememberValid(m, x, failed, MAX_TERMINAL);
    TouchOther(m, x, failed, c, MAX_TERMINAL);
    assert c in m.Remember(x, failed, MAX_TERMINAL).table <==> m.Remember(x, failed, MAX_TERMINAL).Get(c).Some?;
  }

  lemma CancelStandsFirst(c: CohortId)
    ensures CancelBehind(RunService(Broadcasting, OpenedAndCanceled(c)), c, 0)
  {
    OpenedWaits(c, 0);
    OneMore(Broadcasting, Opened(c, 0), Wiring(Event(1, Canceled(c)), false));
    CancelAtFirst(c, RunService(Broadcasting, Opened(c, 0)).fold);
  }

  lemma OneFailureMore(h: seq<Happening>, c: CohortId, n: nat, x: CohortId)
    requires n > 0 && |x| == |c| + n && CancelBehind(RunService(Broadcasting, h), c, n - 1)
    ensures CancelBehind(RunService(Broadcasting, h + [Wiring(Event(1, CohortFailed(x)), false)]), c, n)
  {
    OneMore(Broadcasting, h, Wiring(Event(1, CohortFailed(x)), false));
    OneFateMore(RunService(Broadcasting, h), c, n, x);
  }

  lemma {:induction false} CancelFallsBehind(c: CohortId, n: nat)
    ensures CancelBehind(RunService(Broadcasting, Forgotten(c, n)), c, n)
  {
    ForgottenStep(c, n);
    if n == 0 {
      CancelStandsFirst(c);
    } else {
      CancelFallsBehind(c, n - 1);
      OneFailureMore(Forgotten(c, n - 1), c, n, Eviction.Newcomer(c, n - 1));
    }
  }

  /** A canceled cohort awaits nothing while fewer than 24 others have ended since, and then it awaits again. */
  lemma TheTwentyFourthFateDecides(c: CohortId, n: nat)
    ensures Bit(RunService(Broadcasting, Forgotten(c, n)), c) <==> n >= 24
  {
    CancelFallsBehind(c, n);
  }
}
