/**
 How a cohort's funding watch reaches the anonymous funding bit: three bounded tables written in step,
 the running watches beside them, and the terminal verdict folded in when a cohort fails.
 */
module FundingSurface {
  import opened Cohorts
  import opened OrderedMap
  import opened KillSwitch
  import opened FundingWatch
  import opened CohortMonitor
  import opened AnchorState
  import Eviction

  /** `watching` holds the retained handles; `running` is the set of watches whose loop has not ended. */
  datatype Surface = Surface(
    watching: OMap<CohortId, string>,
    running: set<CohortId>,
    last: Views,
    views: Views)

  datatype FundingEvent =
    | WatchStarts(cohort: CohortId, beaconAddress: string)
    | WatchReports(cohort: CohortId, state: FundingStateName, lastObservationOk: bool)
    | CohortFails(cohort: CohortId)
    | CohortSettles(cohort: CohortId)
    | RecordDismissed(cohort: CohortId)

  function ReleaseWatch(s: Surface, c: CohortId): Surface {
    Surface(
      s.watching.Delete(c),
      if c in s.watching.table then s.running - {c} else s.running,
      s.last.Delete(c),
      s.views)
  }

  /** The lapse verdict of a cohort that failed before it was funded. */
  function WithLapse(v: FundingView): FundingView {
    v.(terminal := Some(if v.esploraStale then BlindLapse else WindowClosed))
  }

  function Step(s: Surface, e: FundingEvent): Surface {
    match e
    case WatchStarts(c, address) =>
      if c in s.watching.table then s
      else s.(watching := s.watching.Remember(c, address, MAX_PER_COHORT_ENTRIES), running := s.running + {c})
    case WatchReports(c, state, ok) =>
      if c !in s.running then s
      else
        var v := FundingView(state, !ok, None);
        s.(last := s.last.Remember(c, v, MAX_PER_COHORT_ENTRIES),
           views := NoteView(s.views, c, v),
           running := if state.Funded? then s.running - {c} else s.running)
    case CohortFails(c) =>
      if c !in s.watching.table then s
      else if c in s.last.table && !s.last.table[c].state.Funded?
      then ReleaseWatch(s.(views := NoteView(s.views, c, WithLapse(s.last.table[c]))), c)
      else ReleaseWatch(s, c)
    case CohortSettles(c) => ReleaseWatch(s, c)
    case RecordDismissed(c) => s.(views := s.views.Delete(c))
  }

  function RunSurface(es: seq<FundingEvent>): Surface {
    if es == [] then Surface(OMap([], map[]), {}, OMap([], map[]), OMap([], map[]))
    else Step(RunSurface(es[..|es| - 1]), es[|es| - 1])
  }

  /** At most 24 watches are ever retained at once: every start finds room. */
  ghost predicate RoomForEveryWatch(es: seq<FundingEvent>) {
    forall i :: 0 <= i < |es| && es[i].WatchStarts? && es[i].cohort !in RunSurface(es[..i]).watching.table ==>
      |RunSurface(es[..i]).watching.order| < MAX_PER_COHORT_ENTRIES
  }

  ghost predicate Inv(s: Surface) {
    && s.watching.Valid() && |s.watching.order| <= MAX_PER_COHORT_ENTRIES
    && s.last.Valid() && s.views.Valid()
    && s.running <= s.watching.table.Keys
    && s.last.table.Keys <= s.watching.table.Keys
    && (forall c :: c in s.watching.table && AwaitingFunding(s.views, c) ==>
          c in s.last.table && s.last.table[c] == s.views.table[c])
  }

  ghost predicate HasRoom(s: Surface, e: FundingEvent) {
    e.WatchStarts? && e.cohort !in s.watching.table ==> |s.watching.order| < MAX_PER_COHORT_ENTRIES
  }

  /** A table that lists only watched cohorts never has to evict. */
  lemma RememberWithinWatched(m: Views, c: CohortId, v: FundingView, watched: OMap<CohortId, string>)
    requires m.Valid() && watched.Valid() && |watched.order| <= MAX_PER_COHORT_ENTRIES
    requires c in watched.table && m.table.Keys <= watched.table.Keys
    ensures m.Remember(c, v, MAX_PER_COHORT_ENTRIES).table == m.table[c := v]
    ensures m.Remember(c, v, MAX_PER_COHORT_ENTRIES).Valid()
  {
    PutShape(m, c, v);
    RememberValid(m, c, v, MAX_PER_COHORT_ENTRIES);
    var p := m.Put(c, v);
    ElemsSize(p.order);
    ElemsSize(watched.order);
    SubsetSize(Elems(p.order), Elems(watched.order));
  }

  lemma ReportKeepsInv(s: Surface, c: CohortId, v: FundingView)
    requires Inv(s) && c in s.running
    ensures Inv(s.(last := s.last.Remember(c, v, MAX_PER_COHORT_ENTRIES), views := NoteView(s.views, c, v)))
  {
    RememberWithinWatched(s.last, c, v, s.watching);
    RememberValid(s.views, c, v, MAX_TERMINAL);
  }

  lemma ReleaseKeepsInv(s: Surface, c: CohortId)
    requires Inv(s)
    ensures Inv(ReleaseWatch(s, c))
  {
    DeleteValid(s.watching, c);
    DeleteValid(s.last, c);
    WithoutNoDup(s.watching.order, c);
  }

  lemma FailKeepsInv(s: Surface, c: CohortId)
    requires Inv(s) && c in s.last.table
    ensures Inv(ReleaseWatch(s.(views := NoteView(s.views, c, WithLapse(s.last.table[c]))), c))
  {
    RememberValid(s.views, c, WithLapse(s.last.table[c]), MAX_TERMINAL);
    DeleteValid(s.watching, c);
    DeleteValid(s.last, c);
    WithoutNoDup(s.watching.order, c);
  }

  lemma StartKeepsInv(s: Surface, c: CohortId, address: string)
    requires Inv(s) && c !in s.watching.table && |s.watching.order| < MAX_PER_COHORT_ENTRIES
    requires !AwaitingFunding(s.views, c)
    ensures Inv(Step(s, WatchStarts(c, address)))
  {
    PutShape(s.watching, c, address);
    RememberValid(s.watching, c, address, MAX_PER_COHORT_ENTRIES);
  }

  lemma StepKeepsInv(s: Surface, e: FundingEvent)
    requires Inv(s) && HasRoom(s, e)
    requires e.WatchStarts? && e.cohort !in s.watching.table ==> !AwaitingFunding(s.views, e.cohort)
    ensures Inv(Step(s, e))
  {
    match e
    case WatchStarts(c, address) => if c !in s.watching.table { StartKeepsInv(s, c, address); }
    case WatchReports(c, state, ok) => if c in s.running { ReportKeepsInv(s, c, FundingView(state, !ok, None)); }
    case CohortFails(c) => if c in s.last.table { FailKeepsInv(s, c); } ReleaseKeepsInv(s, c);
    case CohortSettles(c) => ReleaseKeepsInv(s, c);
    case RecordDismissed(c) => DeleteValid(s.views, c);
  }

  /** A cohort is watched once: no start repeats a cohort. */
  ghost predicate WatchedOnce(es: seq<FundingEvent>) {
    forall i, j :: 0 <= i < j < |es| && es[i].WatchStarts? && es[j].WatchStarts? ==> es[i].cohort != es[j].cohort
  }

  ghost predicate Started(es: seq<FundingEvent>, c: CohortId) {
    exists i :: 0 <= i < |es| && es[i].WatchStarts? && es[i].cohort == c
  }

  lemma {:induction false} RunKeepsInv(es: seq<FundingEvent>)
    requires RoomForEveryWatch(es) && WatchedOnce(es)
    ensures Inv(RunSurface(es))
    ensures forall c :: c in RunSurface(es).watching.table || c in RunSurface(es).views.table ==> Started(es, c)
  {
    if es != [] {
      var n := |es| - 1;
      var p, e := es[..n], es[n];
      forall i | 0 <= i < n && p[i].WatchStarts? && p[i].cohort !in RunSurface(p[..i]).watching.table
        ensures |RunSurface(p[..i]).watching.order| < MAX_PER_COHORT_ENTRIES
      {
        assert p[..i] == es[..i];
      }
      RunKeepsInv(p);
      var s := RunSurface(p);
      StepKeepsInv(s, e);
      forall c | c in RunSurface(es).watching.table || c in RunSurface(es).views.table ensures Started(es, c) {
        ComesFrom(s, e, c);
        if !e.WatchStarts? || e.cohort != c {
          var i :| 0 <= i < n && p[i].WatchStarts? && p[i].cohort == c;
          assert es[i] == p[i];
        } else {
          assert es[n] == e;
        }
      }
    }
  }

  lemma ComesFrom(s: Surface, e: FundingEvent, c: CohortId)
    requires Inv(s)
    requires c in Step(s, e).watching.table || c in Step(s, e).views.table
    ensures c in s.watching.table || c in s.views.table || (e.WatchStarts? && e.cohort == c)
  {
    match e
    case WatchStarts(x, address) => RememberValid(s.watching, x, address, MAX_PER_COHORT_ENTRIES);
    case WatchReports(x, state, ok) => RememberValid(s.views, x, FundingView(state, !ok, None), MAX_TERMINAL);
    case CohortFails(x) =>
      if x in s.last.table { RememberValid(s.views, x, WithLapse(s.last.table[x]), MAX_TERMINAL); }
    case _ =>
  }

  /** After the failure of a watched cohort nothing can make its view await funding again. */
  lemma StaysQuiet(s: Surface, e: FundingEvent, c: CohortId)
    requires Inv(s) && c !in s.running && c !in s.watching.table && !AwaitingFunding(s.views, c)
    requires !(e.WatchStarts? && e.cohort == c)
    ensures c !in Step(s, e).running && c !in Step(s, e).watching.table && !AwaitingFunding(Step(s, e).views, c)
  {
    match e
    case WatchStarts(x, address) => RememberValid(s.watching, x, address, MAX_PER_COHORT_ENTRIES);
    case WatchReports(x, state, ok) => RememberValid(s.views, x, FundingView(state, !ok, None), MAX_TERMINAL);
    case CohortFails(x) =>
      if x in s.last.table { RememberValid(s.views, x, WithLapse(s.last.table[x]), MAX_TERMINAL); }
    case _ =>
  }

  lemma FailureClears(s: Surface, c: CohortId)
    requires Inv(s) && c in s.watching.table
    ensures var t := Step(s, CohortFails(c));
            !AwaitingFunding(t.views, c) && c !in t.running && c !in t.watching.table
  {
    if c in s.last.table {
      RememberValid(s.views, c, WithLapse(s.last.table[c]), MAX_TERMINAL);
    }
  }

  /** Every state on the way is in order and every start finds room. */
  ghost predicate InOrder(es: seq<FundingEvent>) {
    && Inv(RunSurface(es))
    && (es != [] ==> InOrder(es[..|es| - 1]) && HasRoom(RunSurface(es[..|es| - 1]), es[|es| - 1]))
  }

  lemma {:induction false} RunIsInOrder(es: seq<FundingEvent>)
    requires RoomForEveryWatch(es) && WatchedOnce(es)
    ensures InOrder(es)
  {
    RunKeepsInv(es);
    if es != [] {
      PrefixOk(es, |es| - 1);
      RoomAtTheEnd(es);
      RunIsInOrder(es[..|es| - 1]);
    }
  }

  lemma RoomAtTheEnd(es: seq<FundingEvent>)
    requires RoomForEveryWatch(es) && es != []
    ensures HasRoom(RunSurface(es[..|es| - 1]), es[|es| - 1])
  {
  }

  lemma NotStartedAgain(es: seq<FundingEvent>, i: nat, c: CohortId)
    requires WatchedOnce(es) && i <= |es| && Started(es[..i], c)
    ensures forall j :: i <= j < |es| ==> !(es[j].WatchStarts? && es[j].cohort == c)
  {
    var q :| 0 <= q < i && es[..i][q].WatchStarts? && es[..i][q].cohort == c;
    assert es[q] == es[..i][q];
  }

  ghost predicate Quiet(s: Surface, c: CohortId) {
    !AwaitingFunding(s.views, c) && c !in s.running && c !in s.watching.table
  }

  lemma {:induction false} QuietStaysQuiet(es: seq<FundingEvent>, m: nat, c: CohortId)
    requires InOrder(es) && m <= |es| && Quiet(RunSurface(es[..m]), c)
    requires forall j :: m <= j < |es| ==> !(es[j].WatchStarts? && es[j].cohort == c)
    ensures Quiet(RunSurface(es), c)
  {
    if m == |es| {
      assert es[..m] == es;
    } else {
      var n := |es| - 1;
      assert es[..n][..m] == es[..m];
      QuietStaysQuiet(es[..n], m, c);
      StaysQuiet(RunSurface(es[..n]), es[n], c);
    }
  }

  /**
   While no start overflows the 24 retained watches, the public bit of a watched cohort is false from
   the moment its failure is handled, for the rest of the run.
   */
  lemma FailedCohortAwaitsNothing(es: seq<FundingEvent>, i: nat, c: CohortId)
    requires RoomForEveryWatch(es) && WatchedOnce(es)
    requires i < |es| && es[i] == CohortFails(c) && c in RunSurface(es[..i]).watching.table
    ensures !AwaitingFunding(RunSurface(es).views, c)
    ensures c !in RunSurface(es).running && c !in RunSurface(es).watching.table
  {
    RunIsInOrder(es);
    WatchedMeansStarted(es, i, c);
    FailureStaysQuiet(es, i, c);
  }

  lemma WatchedMeansStarted(es: seq<FundingEvent>, i: nat, c: CohortId)
    requires RoomForEveryWatch(es) && WatchedOnce(es) && i <= |es|
    requires c in RunSurface(es[..i]).watching.table
    ensures forall j :: i <= j < |es| ==> !(es[j].WatchStarts? && es[j].cohort == c)
  {
    PrefixOk(es, i);
    RunKeepsInv(es[..i]);
    NotStartedAgain(es, i, c);
  }

  lemma {:induction false} PrefixInOrder(es: seq<FundingEvent>, i: nat)
    requires InOrder(es) && i <= |es|
    ensures InOrder(es[..i])
  {
    if i == |es| {
      assert es[..i] == es;
    } else {
      PrefixInOrder(es[..|es| - 1], i);
      assert es[..|es| - 1][..i] == es[..i];
    }
  }

  lemma RunStep(es: seq<FundingEvent>, i: nat)
    requires i < |es|
    ensures RunSurface(es[..i + 1]) == Step(RunSurface(es[..i]), es[i])
  {
    assert es[..i + 1][..i] == es[..i];
  }

  lemma FailureStaysQuiet(es: seq<FundingEvent>, i: nat, c: CohortId)
    requires InOrder(es) && i < |es|
    requires es[i] == CohortFails(c) && c in RunSurface(es[..i]).watching.table
    requires forall j :: i < j < |es| ==> !(es[j].WatchStarts? && es[j].cohort == c)
    ensures Quiet(RunSurface(es), c)
  {
    PrefixInOrder(es, i);
    FailureClears(RunSurface(es[..i]), c);
    RunStep(es, i);
    QuietStaysQuiet(es, i + 1, c);
  }

  lemma PrefixOk(es: seq<FundingEvent>, n: nat)
    requires RoomForEveryWatch(es) && WatchedOnce(es) && n <= |es|
    ensures RoomForEveryWatch(es[..n]) && WatchedOnce(es[..n])
  {
    var p := es[..n];
    forall i | 0 <= i < n && p[i].WatchStarts? && p[i].cohort !in RunSurface(p[..i]).watching.table
      ensures |RunSurface(p[..i]).watching.order| < MAX_PER_COHORT_ENTRIES
    {
      assert p[..i] == es[..i];
    }
  }

  // ---- The verdict of a lapse -------------------------------------------------------------------

  lemma {:induction false} ViewsStayValid(es: seq<FundingEvent>)
    ensures RunSurface(es).views.Valid() && RunSurface(es).last.Valid()
  {
    if es != [] {
      ViewsStayValid(es[..|es| - 1]);
      StepKeepsViewsValid(RunSurface(es[..|es| - 1]), es[|es| - 1]);
    }
  }

  lemma StepKeepsViewsValid(s: Surface, e: FundingEvent)
    requires s.views.Valid() && s.last.Valid()
    ensures Step(s, e).views.Valid() && Step(s, e).last.Valid()
  {
    match e
    case WatchReports(x, state, ok) =>
      RememberValid(s.views, x, FundingView(state, !ok, None), MAX_TERMINAL);
      RememberValid(s.last, x, FundingView(state, !ok, None), MAX_PER_COHORT_ENTRIES);
    case CohortFails(x) =>
      if x in s.last.table { RememberValid(s.views, x, WithLapse(s.last.table[x]), MAX_TERMINAL); }
      DeleteValid(s.last, x);
    case CohortSettles(x) => DeleteValid(s.last, x);
    case RecordDismissed(x) => DeleteValid(s.views, x);
    case _ =>
  }

  ghost predicate NotFundedYet(s: Surface, c: CohortId) {
    c in s.views.table ==> !s.views.table[c].state.Funded?
  }

  ghost predicate Concerns(e: FundingEvent, c: CohortId) {
    e.cohort == c
  }

  /** Until a cohort reports funded its view does not say so, whatever is evicted. */
  lemma {:induction false} UnfundedStaysUnfunded(es: seq<FundingEvent>, c: CohortId)
    requires forall i :: 0 <= i < |es| && es[i].WatchReports? && es[i].cohort == c ==> !es[i].state.Funded?
    ensures NotFundedYet(RunSurface(es), c)
  {
    if es != [] {
      var n := |es| - 1;
      UnfundedStaysUnfunded(es[..n], c);
      ViewsStayValid(es[..n]);
      UnfundedStep(RunSurface(es[..n]), es[n], c);
    }
  }

  lemma UnfundedStep(s: Surface, e: FundingEvent, c: CohortId)
    requires s.views.Valid() && NotFundedYet(s, c)
    requires e.WatchReports? && e.cohort == c ==> !e.state.Funded?
    ensures NotFundedYet(Step(s, e), c)
  {
    match e
    case WatchReports(x, state, ok) => RememberValid(s.views, x, FundingView(state, !ok, None), MAX_TERMINAL);
    case CohortFails(x) =>
      if x in s.last.table { RememberValid(s.views, x, WithLapse(s.last.table[x]), MAX_TERMINAL); }
    case RecordDismissed(x) => DeleteValid(s.views, x);
    case _ =>
  }

  ghost predicate LastReportIs(s: Surface, c: CohortId, v: FundingView) {
    c in s.watching.table && s.last.Get(c) == Some(v)
  }

  lemma ReportIsKept(s: Surface, c: CohortId, state: FundingStateName, ok: bool)
    requires Inv(s) && c in s.running
    ensures LastReportIs(Step(s, WatchReports(c, state, ok)), c, FundingView(state, !ok, None))
  {
    RememberWithinWatched(s.last, c, FundingView(state, !ok, None), s.watching);
  }

  /** The events of other cohorts leave a cohort's last report where the failure handler will look. */
  lemma OthersKeepTheReport(s: Surface, e: FundingEvent, c: CohortId, v: FundingView)
    requires Inv(s) && HasRoom(s, e) && LastReportIs(s, c, v) && !Concerns(e, c)
    ensures LastReportIs(Step(s, e), c, v)
  {
    match e
    case WatchStarts(x, address) =>
      PutShape(s.watching, x, address);
      RememberValid(s.watching, x, address, MAX_PER_COHORT_ENTRIES);
    case WatchReports(x, state, ok) =>
      if x in s.running { RememberWithinWatched(s.last, x, FundingView(state, !ok, None), s.watching); }
    case _ =>
  }

  lemma {:induction false} ReportWaits(es: seq<FundingEvent>, m: nat, c: CohortId, v: FundingView)
    requires InOrder(es) && m <= |es| && LastReportIs(RunSurface(es[..m]), c, v)
    requires forall j :: m <= j < |es| ==> !Concerns(es[j], c)
    ensures LastReportIs(RunSurface(es), c, v)
  {
    if m == |es| {
      assert es[..m] == es;
    } else {
      var n := |es| - 1;
      assert es[..n][..m] == es[..m];
      ReportWaits(es[..n], m, c, v);
      OthersKeepTheReport(RunSurface(es[..n]), es[n], c, v);
    }
  }

  /** With room for every watch the handler finds both the handle and the last report. */
  lemma ReportIsFound(es: seq<FundingEvent>, i: nat, c: CohortId)
    requires InOrder(es)
    requires i < |es| && es[i].WatchReports? && es[i].cohort == c && c in RunSurface(es[..i]).running
    requires forall j :: i < j < |es| ==> !Concerns(es[j], c)
    ensures c in RunSurface(es).watching.table && c in RunSurface(es).last.table
  {
    var v := FundingView(es[i].state, !es[i].lastObservationOk, None);
    PrefixInOrder(es, i);
    ReportIsKept(RunSurface(es[..i]), c, es[i].state, es[i].lastObservationOk);
    RunStep(es, i);
    ReportWaits(es, i + 1, c, v);
  }

  /** The last view held for a cohort can be evicted, but only its own report replaces it. */
  lemma OthersLeaveTheLastView(s: Surface, e: FundingEvent, c: CohortId)
    requires s.last.Valid() && !Concerns(e, c) && c in Step(s, e).last.table
    ensures c in s.last.table && Step(s, e).last.table[c] == s.last.table[c]
  {
    match e
    case WatchReports(x, state, ok) =>
      RememberValid(s.last, x, FundingView(state, !ok, None), MAX_PER_COHORT_ENTRIES);
    case _ =>
  }

  lemma {:induction false} LastViewIsTheReport(es: seq<FundingEvent>, i: nat, c: CohortId)
    requires i < |es| && es[i].WatchReports? && es[i].cohort == c && c in RunSurface(es[..i]).running
    requires forall j :: i < j < |es| ==> !Concerns(es[j], c)
    requires c in RunSurface(es).last.table
    ensures RunSurface(es).last.table[c] == FundingView(es[i].state, !es[i].lastObservationOk, None)
  {
    var n := |es| - 1;
    ViewsStayValid(es[..n]);
    if i == n {
      RememberValid(RunSurface(es[..n]).last, c, FundingView(es[i].state, !es[i].lastObservationOk, None),
                    MAX_PER_COHORT_ENTRIES);
    } else {
      assert es[..n][..i] == es[..i];
      OthersLeaveTheLastView(RunSurface(es[..n]), es[n], c);
      LastViewIsTheReport(es[..n], i, c);
    }
  }

  lemma LapseIsFiled(s: Surface, c: CohortId)
    requires s.views.Valid() && NotFundedYet(s, c)
    requires c in s.last.table ==> !s.last.table[c].state.Funded?
    ensures Step(s, CohortFails(c)).views.Get(c) ==
            if c in s.watching.table && c in s.last.table then Some(WithLapse(s.last.table[c])) else s.views.Get(c)
  {
    if c in s.last.table {
      RememberValid(s.views, c, WithLapse(s.last.table[c]), MAX_TERMINAL);
    }
  }

  /**
   What is filed for a cohort that fails before it was ever funded, after any run: where the handler still
   finds its handle and its last report, a blind lapse exactly if that observation had failed and a closed
   window exactly if it had succeeded; otherwise nothing. With room for every watch it finds both.
   */
  lemma LapseTellsTheLastReport(es: seq<FundingEvent>, i: nat, c: CohortId)
    requires i < |es| && es[i].WatchReports? && es[i].cohort == c && c in RunSurface(es[..i]).running
    requires forall j :: i < j < |es| ==> !Concerns(es[j], c)
    requires forall j :: 0 <= j < |es| && es[j].WatchReports? && es[j].cohort == c ==> !es[j].state.Funded?
    ensures RunSurface(es + [CohortFails(c)]).views.Get(c) ==
            if c in RunSurface(es).watching.table && c in RunSurface(es).last.table
            then Some(FundingView(es[i].state, !es[i].lastObservationOk,
                                  Some(if es[i].lastObservationOk then WindowClosed else BlindLapse)))
            else RunSurface(es).views.Get(c)
    ensures RoomForEveryWatch(es) && WatchedOnce(es) ==>
              c in RunSurface(es).watching.table && c in RunSurface(es).last.table
  {
    assert (es + [CohortFails(c)])[..|es|] == es;
    ViewsStayValid(es);
    UnfundedStaysUnfunded(es, c);
    if c in RunSurface(es).last.table {
      LastViewIsTheReport(es, i, c);
    }
    LapseIsFiled(RunSurface(es), c);
    if RoomForEveryWatch(es) && WatchedOnce(es) {
      RunIsInOrder(es);
      ReportIsFound(es, i, c);
    }
  }

  // ---- The view over whole runs -----------------------------------------------------------------

  ghost predicate Funded(s: Surface, c: CohortId) {
    c in s.views.table && s.views.table[c].state.Funded?
  }

  lemma FundedStep(s: Surface, e: FundingEvent, c: CohortId)
    requires s.views.Valid() && Funded(s, c) && c in Step(s, e).views.table
    ensures Funded(Step(s, e), c)
  {
    match e
    case WatchReports(x, state, ok) =>
      if x in s.running { FundedIsSticky(s.views, x, FundingView(state, !ok, None), c); }
    case CohortFails(x) =>
      if x in s.watching.table && x in s.last.table && !s.last.table[x].state.Funded? {
        FundedIsSticky(s.views, x, WithLapse(s.last.table[x]), c);
      }
    case _ =>
  }

  /**
   Between any two moments of any run, with any number of watches, evictions and failures: a view that
   is retained throughout and funded at the first is funded at the second.
   */
  lemma {:induction false} FundedStaysFunded(es: seq<FundingEvent>, i: nat, j: nat, c: CohortId)
    requires i <= j <= |es| && Funded(RunSurface(es[..i]), c)
    requires forall k :: i <= k <= j ==> c in RunSurface(es[..k]).views.table
    ensures Funded(RunSurface(es[..j]), c)
    decreases j
  {
    if i < j {
      FundedStaysFunded(es, i, j - 1, c);
      ViewsStayValid(es[..j - 1]);
      RunStep(es, j - 1);
      FundedStep(RunSurface(es[..j - 1]), es[j - 1], c);
    }
  }

  // ---- The public bit and the chain reads -------------------------------------------------------

  /** What a cohort's watch has reported, as the listener was told it. */
  ghost function Reported(es: seq<FundingEvent>, c: CohortId): seq<(FundingStateName, bool)> {
    if es == [] then []
    else
      var p, e := es[..|es| - 1], es[|es| - 1];
      if e.WatchReports? && e.cohort == c && c in RunSurface(p).running
      then Reported(p, c) + [(e.state, e.lastObservationOk)]
      else Reported(p, c)
  }

  ghost function Told(reports: seq<Report>): seq<(FundingStateName, bool)> {
    seq(|reports|, i requires 0 <= i < |reports| => (reports[i].state.name, reports[i].lastObservationOk))
  }

  ghost predicate FundedOnlyLast(reports: seq<(FundingStateName, bool)>) {
    forall i :: 0 <= i < |reports| - 1 ==> !reports[i].0.Funded?
  }

  lemma ViewStep(s: Surface, e: FundingEvent, c: CohortId)
    requires s.views.Valid() && e != CohortFails(c)
    ensures e.WatchReports? && e.cohort == c && c in s.running && NotFundedYet(s, c) ==>
              Step(s, e).views.Get(c) == Some(FundingView(e.state, !e.lastObservationOk, None))
    ensures !(e.WatchReports? && e.cohort == c && c in s.running) && c in Step(s, e).views.table ==>
              c in s.views.table && Step(s, e).views.table[c] == s.views.table[c]
  {
    match e
    case WatchReports(x, state, ok) => RememberValid(s.views, x, FundingView(state, !ok, None), MAX_TERMINAL);
    case CohortFails(x) =>
      if x in s.last.table { RememberValid(s.views, x, WithLapse(s.last.table[x]), MAX_TERMINAL); }
    case _ =>
  }

  ghost predicate ShowsLast(s: Surface, c: CohortId, r: seq<(FundingStateName, bool)>) {
    c in s.views.table ==>
      r != [] && s.views.table[c] == FundingView(r[|r| - 1].0, !r[|r| - 1].1, None)
  }

  lemma NewReportShows(s: Surface, e: FundingEvent, c: CohortId, r: seq<(FundingStateName, bool)>)
    requires s.views.Valid() && ShowsLast(s, c, r) && (r != [] ==> !r[|r| - 1].0.Funded?)
    requires e.WatchReports? && e.cohort == c && c in s.running
    ensures ShowsLast(Step(s, e), c, r + [(e.state, e.lastObservationOk)])
  {
    ViewStep(s, e, c);
  }

  lemma FundedOnlyLastBefore(r: seq<(FundingStateName, bool)>, x: (FundingStateName, bool))
    requires FundedOnlyLast(r + [x])
    ensures FundedOnlyLast(r) && (r != [] ==> !r[|r| - 1].0.Funded?)
  {
    forall i | 0 <= i < |r| ensures !r[i].0.Funded? {
      assert (r + [x])[i] == r[i];
    }
  }

  /** A view that is held is the last one reported, whatever was evicted or dismissed in between. */
  lemma {:induction false} ViewIsTheLastReport(es: seq<FundingEvent>, c: CohortId)
    requires FundedOnlyLast(Reported(es, c))
    requires forall i :: 0 <= i < |es| ==> es[i] != CohortFails(c)
    ensures ShowsLast(RunSurface(es), c, Reported(es, c))
  {
    if es != [] {
      var p, e := es[..|es| - 1], es[|es| - 1];
      ViewsStayValid(p);
      if e.WatchReports? && e.cohort == c && c in RunSurface(p).running {
        FundedOnlyLastBefore(Reported(p, c), (e.state, e.lastObservationOk));
        ViewIsTheLastReport(p, c);
        NewReportShows(RunSurface(p), e, c, Reported(p, c));
      } else {
        ViewIsTheLastReport(p, c);
        ViewStep(RunSurface(p), e, c);
      }
    }
  }

  lemma WatchTellsFundedOnlyLast(p: Policy, polls: seq<WatchEvent>)
    ensures FundedOnlyLast(Told(RunWatch(p, polls).reports))
  {
    ReportsAreHonest(p, polls);
    var reports := RunWatch(p, polls).reports;
    forall i | 0 <= i < |reports| - 1 ensures !Told(reports)[i].0.Funded? {
      assert !reports[i].state.name.Funded?;
    }
  }

  lemma LastTold(p: Policy, polls: seq<WatchEvent>)
    requires Told(RunWatch(p, polls).reports) != []
    ensures var told := Told(RunWatch(p, polls).reports);
            && |told| == |RunWatch(p, polls).reports| <= |polls|
            && told[|told| - 1].0 == LastGood(p, polls[..|told|]).name
  {
    ReportsAreHonest(p, polls);
    var n := |RunWatch(p, polls).reports|;
    assert RunWatch(p, polls).reports[n - 1].state == LastGood(p, polls[..n]);
  }

  /**
   From chain to public bit: where a cohort's reports are those of its watch over some reads and it has
   not failed, the bit of a held view says awaiting exactly if the last good read classified the address
   as waiting or awaiting confirmation.
   */
  lemma BitIsTheLastGoodRead(es: seq<FundingEvent>, c: CohortId, p: Policy, polls: seq<WatchEvent>)
    requires Reported(es, c) == Told(RunWatch(p, polls).reports)
    requires forall i :: 0 <= i < |es| ==> es[i] != CohortFails(c)
    requires c in RunSurface(es).views.table
    ensures var n := |RunWatch(p, polls).reports|;
            && 0 < n <= |polls|
            && (AwaitingFunding(RunSurface(es).views, c) <==>
                LastGood(p, polls[..n]).name in {Waiting, AwaitingConfirmation})
  {
    var told := Told(RunWatch(p, polls).reports);
    WatchTellsFundedOnlyLast(p, polls);
    ViewIsTheLastReport(es, c);
    LastTold(p, polls);
    assert RunSurface(es).views.table[c] == FundingView(told[|told| - 1].0, !told[|told| - 1].1, None);
  }

  /** Each report of a cohort whose watch is started at most once, but the last, finds it unfunded: funded ends it. */
  lemma {:induction false} FundedEndsTheReports(es: seq<FundingEvent>, c: CohortId)
    requires forall i, j :: 0 <= i < j < |es| && es[i].WatchStarts? && es[i].cohort == c ==>
               !(es[j].WatchStarts? && es[j].cohort == c)
    ensures FundedOnlyLast(Reported(es, c))
    ensures Reported(es, c) != [] || c in RunSurface(es).running ==> Started(es, c)
    ensures var r := Reported(es, c); r != [] && r[|r| - 1].0.Funded? ==> c !in RunSurface(es).running
  {
    if es != [] {
      var n := |es| - 1;
      var p, e := es[..n], es[n];
      FundedEndsTheReports(p, c);
      if i :| 0 <= i < |p| && p[i].WatchStarts? && p[i].cohort == c {
        assert es[i] == p[i];
      }
    }
  }

  /** Once its record is dismissed, a cohort has no view until its watch reports or it fails again. */
  lemma {:induction false} DismissedIsForgotten(es: seq<FundingEvent>, i: nat, c: CohortId)
    requires i < |es| && es[i] == RecordDismissed(c)
    requires forall j :: i < j < |es| && es[j].cohort == c ==> !es[j].WatchReports? && !es[j].CohortFails?
    ensures c !in RunSurface(es).views.table
  {
    var n := |es| - 1;
    if i < n {
      assert es[..n][i] == es[i];
      ViewsStayValid(es[..n]);
      DismissedIsForgotten(es[..n], i, c);
      ViewStep(RunSurface(es[..n]), es[n], c);
    }
  }

  // ---- Without room -----------------------------------------------------------------------------

  /**
   In any state whatever, a failure leaves the bit as it was exactly when the handler finds no retained
   handle, or no last view under it to file as lapsed.
   */
  lemma FailureLeavesTheBitExactly(s: Surface, c: CohortId)
    requires s.views.Valid()
    ensures AwaitingFunding(Step(s, CohortFails(c)).views, c) <==>
            && AwaitingFunding(s.views, c)
            && !(c in s.watching.table && c in s.last.table && !s.last.table[c].state.Funded?)
  {
    if c in s.last.table {
      RememberValid(s.views, c, WithLapse(s.last.table[c]), MAX_TERMINAL);
    }
  }

  /**
   And a cohort that settles is watched on exactly if its handle had been evicted: nothing is left to stop its
   watch by, and what that still reports is still noted.
   */
  lemma UnheldWatchRunsOn(s: Surface, c: CohortId, state: FundingStateName, ok: bool)
    requires s.views.Valid()
    ensures var t := Step(s, CohortSettles(c));
            && (c in t.running <==> c in s.running && c !in s.watching.table)
            && (c in t.running && NotFundedYet(s, c) ==>
                  Step(t, WatchReports(c, state, ok)).views.Get(c) == Some(FundingView(state, !ok, None)))
  {
    ViewStep(Step(s, CohortSettles(c)), WatchReports(c, state, ok), c);
  }

  /** A cohort's watch starts, and `n` others after it. */
  ghost function Starts(c: CohortId, n: nat): seq<FundingEvent> {
    if n == 0 then [WatchStarts(c, "")] else Starts(c, n - 1) + [WatchStarts(Eviction.Newcomer(c, n - 1), "")]
  }

  lemma StartsStep(c: CohortId, n: nat)
    requires n > 0
    ensures RunSurface(Starts(c, n)) ==
            Step(RunSurface(Starts(c, n - 1)), WatchStarts(Eviction.Newcomer(c, n - 1), ""))
  {
    assert Starts(c, n)[..|Starts(c, n)| - 1] == Starts(c, n - 1);
  }

  /** The cohort's handle is the oldest of `n + 1`, and its watch runs. */
  ghost predicate OldestWatch(s: Surface, c: CohortId, n: nat) {
    && s.watching.Valid() && |s.watching.order| == n + 1 && s.watching.order[0] == c
    && (forall k :: k in s.watching.order ==> |k| <= |c| + n)
    && c in s.running && s.last == OMap([], map[]) && s.views == OMap([], map[])
  }

  lemma {:induction false} HandlesFill(c: CohortId, n: nat)
    requires n < MAX_PER_COHORT_ENTRIES
    ensures OldestWatch(RunSurface(Starts(c, n)), c, n)
  {
    if n == 0 {
      FirstHandle(c);
    } else {
      HandlesFill(c, n - 1);
      StartsStep(c, n);
      HandleAdded(RunSurface(Starts(c, n - 1)), c, n, Eviction.Newcomer(c, n - 1));
    }
  }

  lemma FirstHandle(c: CohortId)
    ensures OldestWatch(RunSurface(Starts(c, 0)), c, 0)
  {
    var none: OMap<CohortId, string> := OMap([], map[]);
    assert Starts(c, 0)[..0] == [];
    PutShape(none, c, "");
    assert none.Put(c, "").order == [c];
  }

  lemma HandleAdded(s: Surface, c: CohortId, n: nat, x: CohortId)
    requires 0 < n < MAX_PER_COHORT_ENTRIES && OldestWatch(s, c, n - 1) && |x| == |c| + n
    ensures OldestWatch(Step(s, WatchStarts(x, "")), c, n)
  {
    PutShape(s.watching, x, "");
    assert s.watching.Put(x, "").order == s.watching.order + [x];
  }

  /** Where a key is new to a full table, the oldest one goes. */
  lemma FullTableLosesTheOldest(m: OMap<CohortId, string>, x: CohortId, n: nat)
    requires m.Valid() && |m.order| == n && n > 0 && x !in m.table
    ensures m.Remember(x, "", n).order == m.order[1..] + [x] && m.Remember(x, "", n).Valid()
  {
    PutShape(m, x, "");
    var p := m.Put(x, "");
    TrimShape(p, n);
    assert p.order == m.order + [x] && Excess(p, n) == 1;
    assert p.Trim(n).order == p.order[1..] == m.order[1..] + [x];
  }

  lemma OldestHandleGoes(c: CohortId)
    ensures var s := RunSurface(Starts(c, MAX_PER_COHORT_ENTRIES));
            c !in s.watching.table && c in s.running && s.views == OMap([], map[])
  {
    var n := MAX_PER_COHORT_ENTRIES;
    HandlesFill(c, n - 1);
    StartsStep(c, n);
    var m, x := RunSurface(Starts(c, n - 1)).watching, Eviction.Newcomer(c, n - 1);
    assert x !in m.table;
    FullTableLosesTheOldest(m, x, n);
    assert c !in m.order[1..] && c != x;
    assert c !in m.Remember(x, "", n).order;
  }

  /** The first of 25 watches, its handle evicted but its loop still running, reports and then fails. */
  ghost function Overfull(c: CohortId): seq<FundingEvent> {
    Starts(c, MAX_PER_COHORT_ENTRIES) + [WatchReports(c, Waiting, true)] + [CohortFails(c)]
  }

  /** So without room the public bit of a failed cohort can stay set. */
  lemma FailedCohortStillAwaits(c: CohortId)
    ensures AwaitingFunding(RunSurface(Overfull(c)).views, c)
  {
    var a := Starts(c, MAX_PER_COHORT_ENTRIES);
    var b := a + [WatchReports(c, Waiting, true)];
    assert b[..|a|] == a && Overfull(c)[..|b|] == b;
    OldestHandleGoes(c);
    ViewStep(RunSurface(a), WatchReports(c, Waiting, true), c);
    ViewsStayValid(b);
    FailureLeavesTheBitExactly(RunSurface(b), c);
  }
}
