/** The monitor as the service holds it: three bounded tables changed in place, and the console's reads over them. */
module CohortMonitor {
  import opened Cohorts
  import opened OrderedMap
  import opened KillSwitch
  import opened Broadcast
  import opened AnchorState
  import opened FundingWatch
  import Fold = FateFold

  datatype Lapse = WindowClosed | BlindLapse

  datatype FundingView = FundingView(state: FundingStateName, esploraStale: bool, terminal: Option<Lapse>)

  type Views = OMap<CohortId, FundingView>

  /** Last write wins, except that a funded view never falls back. */
  function NoteView(views: Views, c: CohortId, v: FundingView): Views {
    if c in views.table && views.table[c].state.Funded? && !v.state.Funded? then views
    else views.Remember(c, v, MAX_TERMINAL)
  }

  /** While its view is retained, a funded cohort reads funded, whatever is noted for any cohort. */
  lemma FundedIsSticky(views: Views, c: CohortId, v: FundingView, x: CohortId)
    requires views.Valid() && x in views.table && views.table[x].state.Funded?
    requires x in NoteView(views, c, v).table
    ensures NoteView(views, c, v).table[x].state.Funded?
  {
    RememberValid(views, c, v, MAX_TERMINAL);
  }

  /** What is noted is what is then held, and newest, unless it would take a held funded view out of funded. */
  lemma NotedExactly(views: Views, c: CohortId, v: FundingView)
    requires views.Valid()
    ensures var after := NoteView(views, c, v);
            if c in views.table && views.table[c].state == Funded && v.state != Funded then after == views
            else after.Get(c) == Some(v) && After(after.order, c) == {}
  {
    RememberValid(views, c, v, MAX_TERMINAL);
    TouchSame(views, c, v, MAX_TERMINAL);
  }

  predicate AwaitingFunding(views: Views, c: CohortId) {
    && c in views.table
    && views.table[c].terminal.None?
    && (views.table[c].state.Waiting? || views.table[c].state.AwaitingConfirmation?)
  }

  // ---- The live session, as the runner reports it -----------------------------------------------

  datatype Phase = OpenPhase | InFlightPhase | OtherPhase

  datatype LiveCohort = LiveCohort(id: CohortId, phase: Phase)

  ghost predicate UniqueIds(session: seq<LiveCohort>) {
    forall i, j :: 0 <= i < j < |session| ==> session[i].id != session[j].id
  }

  function InPhase(session: seq<LiveCohort>, phase: Phase): set<CohortId> {
    set l | l in session && l.phase == phase :: l.id
  }

  datatype RowChip = Filling | CoSigning | NeedsFunding | EndedRow(chip: Fold.Chip)

  datatype Row = Row(id: CohortId, chip: RowChip)

  ghost function RowIds(rows: seq<Row>): seq<CohortId> {
    seq(|rows|, i requires 0 <= i < |rows| => rows[i].id)
  }

  /** The listed cohorts whose record carries a chip of the given kind. */
  function WithChip(records: map<CohortId, Fold.Ended>, listed: seq<CohortId>, p: Fold.Chip -> bool): set<CohortId> {
    set c | c in listed && c in records && p(records[c].chip)
  }

  lemma WithChipStep(records: map<CohortId, Fold.Ended>, order: seq<CohortId>, i: nat, p: Fold.Chip -> bool)
    requires NoDup(order) && i < |order| && order[i] in records
    ensures WithChip(records, order[..i + 1], p)
            == WithChip(records, order[..i], p) + if p(records[order[i]].chip) then {order[i]} else {}
    ensures order[i] !in WithChip(records, order[..i], p)
  {
    assert order[..i + 1] == order[..i] + [order[i]];
  }

  class Monitor {
    const mode: Mode
    const entries: BoundedMap<CohortId, Fold.MonitorEntry>
    const ended: BoundedMap<CohortId, Fold.Ended>
    const fundingViews: BoundedMap<CohortId, FundingView>

    ghost predicate Valid()
      reads this, entries, ended, fundingViews
    {
      && entries.Valid() && entries.cap == Fold.MAX_MONITORED
      && ended.Valid() && ended.cap == MAX_TERMINAL
      && fundingViews.Valid() && fundingViews.cap == MAX_TERMINAL
      && Fold.FoldInv(State())
    }

    function State(): Fold.Fold
      reads this, entries, ended
    {
      Fold.Fold(entries.Model(), ended.Model())
    }

    constructor (mode: Mode)
      ensures Valid() && this.mode == mode && State() == Fold.RunFold([]) && fundingViews.Model() == OMap([], map[])
      ensures fresh(entries) && fresh(ended) && fresh(fundingViews)
    {
      this.mode := mode;
      entries := new BoundedMap(Fold.MAX_MONITORED);
      ended := new BoundedMap(MAX_TERMINAL);
      fundingViews := new BoundedMap(MAX_TERMINAL);
    }

    function EntryFor(c: CohortId): Fold.MonitorEntry
      reads this, entries
    {
      if c in entries.table then entries.table[c] else Fold.FRESH_ENTRY
    }

    /** Any membership or round event: the entry is refreshed and nothing else about fates changes. */
    method OnActivity(c: CohortId)
      requires Valid()
      modifies entries
      ensures Valid() && State() == Fold.Step(old(State()), Activity(c))
    {
      Fold.StepKeepsInv(State(), Activity(c));
      var _ := entries.Remember(c, EntryFor(c));
    }

    method OnFallbackStarted(c: CohortId)
      requires Valid()
      modifies entries
      ensures Valid() && State() == Fold.Step(old(State()), FellBack(c))
    {
      Fold.StepKeepsInv(State(), FellBack(c));
      var _ := entries.Remember(c, EntryFor(c).(fellBack := true));
    }

    method OnSigningComplete(c: CohortId, viaScriptPath: bool)
      requires Valid()
      modifies entries, ended
      ensures Valid() && State() == Fold.Step(old(State()), Signed(c, viaScriptPath))
    {
      Fold.StepKeepsInv(State(), Signed(c, viaScriptPath));
      var viaFallback := viaScriptPath || EntryFor(c).fellBack;
      if c in entries.table {
        entries.Mutate(c, entries.table[c].(signingComplete := true));
      }
      var _ := ended.Remember(c, Fold.Ended(if viaFallback then Fold.CoSignedFallback else Fold.CoSigned, viaFallback));
    }

    method OnCohortFailed(c: CohortId)
      requires Valid()
      modifies ended
      ensures Valid() && State() == Fold.Step(old(State()), Failed(c))
    {
      Fold.StepKeepsInv(State(), Failed(c));
      var _ := ended.Remember(c, Fold.Ended(Fold.FailedChip, false));
    }

    method OnBeaconBroadcastFailed(c: CohortId)
      requires Valid()
      modifies ended
      ensures Valid() && State() == Fold.Step(old(State()), Emitted(c, FailedFrame))
    {
      Fold.StepKeepsInv(State(), Emitted(c, FailedFrame));
      var _ := ended.Remember(c, Fold.Ended(Fold.FailedChip, false));
    }

    method OnBeaconAnchored(c: CohortId, txid: Txid, confirmed: bool)
      requires Valid()
      modifies ended
      ensures Valid() && State() == Fold.Step(old(State()), Emitted(c, Anchored(txid, confirmed)))
    {
      if !confirmed { return; }
      Fold.StepKeepsInv(State(), Emitted(c, Anchored(txid, confirmed)));
      var viaFallback := c in ended.table && ended.table[c].viaFallback;
      var _ := ended.Remember(c, Fold.Ended(if viaFallback then Fold.FallbackChip else Fold.AnchoredChip, viaFallback));
    }

    method NoteCanceled(c: CohortId)
      requires Valid()
      modifies entries, ended
      ensures Valid() && State() == Fold.Step(old(State()), CanceledByOperator(c))
    {
      Fold.StepKeepsInv(State(), CanceledByOperator(c));
      if c in ended.table && ended.table[c].chip.CanceledChip? { return; }
      var _ := entries.Remember(c, EntryFor(c));
      var _ := ended.Remember(c, Fold.Ended(Fold.CanceledChip, false));
    }

    /** Forget an ended record; refused when there is none or the cohort is still filling or co-signing. */
    method DismissEnded(c: CohortId, phase: Phase) returns (dismissed: bool)
      requires Valid()
      modifies entries, ended, fundingViews
      ensures Valid()
      ensures dismissed <==> c in old(ended.table) && phase.OtherPhase?
      ensures dismissed ==> State() == Fold.Step(old(State()), Dismissed(c))
      ensures dismissed ==> fundingViews.Model() == old(fundingViews.Model()).Delete(c)
      ensures !dismissed ==> State() == old(State()) && fundingViews.Model() == old(fundingViews.Model())
    {
      if c !in ended.table { return false; }
      if phase.OpenPhase? || phase.InFlightPhase? { return false; }
      Fold.StepKeepsInv(State(), Dismissed(c));
      ended.Delete(c);
      entries.Delete(c);
      fundingViews.Delete(c);
      return true;
    }

    method NoteFunding(c: CohortId, view: FundingView)
      requires Valid()
      modifies fundingViews
      ensures Valid()
      ensures fundingViews.Model() ==
              if mode.Broadcasting? then NoteView(old(fundingViews.Model()), c, view) else old(fundingViews.Model())
      ensures mode == Broadcasting && !(c in old(fundingViews.table) && old(fundingViews.table)[c].state == Funded) ==>
                fundingViews.Model().Get(c) == Some(view)
      ensures mode != Broadcasting ==> fundingViews.Model() == old(fundingViews.Model())
    {
      NotedExactly(fundingViews.Model(), c, view);
      if !mode.Broadcasting? { return; }
      if c in fundingViews.table && fundingViews.table[c].state.Funded? && !view.state.Funded? { return; }
      var _ := fundingViews.Remember(c, view);
    }

    /** The one anonymous funding bit: never for a canceled cohort, never off the broadcasting path. */
    method PublicFunding(c: CohortId) returns (awaiting: bool)
      requires Valid()
      ensures awaiting <==>
                && mode == Broadcasting && !(c in ended.table && ended.table[c].chip == Fold.CanceledChip)
                && c in fundingViews.table && fundingViews.table[c].terminal == None
                && (fundingViews.table[c].state == Waiting || fundingViews.table[c].state == AwaitingConfirmation)
    {
      if !mode.Broadcasting? { return false; }
      if c in ended.table && ended.table[c].chip.CanceledChip? { return false; }
      if c !in fundingViews.table { return false; }
      var view := fundingViews.table[c];
      awaiting := view.terminal.None? && (view.state.Waiting? || view.state.AwaitingConfirmation?);
    }

    method Summary(session: seq<LiveCohort>) returns (rows: seq<Row>)
      requires Valid() && UniqueIds(session)
      ensures SummaryOf(rows, session, fundingViews.table, ended.table)
    {
      rows := SummaryRows(session, fundingViews.table, ended.order, ended.table);
    }

    method ServiceMetrics(session: seq<LiveCohort>) returns (open: nat, inFlight: nat, anchored: nat, failed: nat)
      requires Valid() && UniqueIds(session)
      ensures open == |InPhase(session, OpenPhase)| && inFlight == |InPhase(session, InFlightPhase)|
      ensures anchored == |WithChip(ended.table, ended.order, Fold.IsAnchoredChip)|
      ensures failed == |WithChip(ended.table, ended.order, Fold.IsFailedChip)|
    {
      open, inFlight := CountLive(session);
      anchored, failed := CountEnded(ended.order, ended.table);
    }
  }

  // ---- The two projections ----------------------------------------------------------------------

  /** One row per live filling or co-signing cohort, then one per ended record that is not live. */
  ghost predicate SummaryOf(rows: seq<Row>, session: seq<LiveCohort>, views: map<CohortId, FundingView>,
                            ended: map<CohortId, Fold.Ended>)
  {
    var open, inFlight := InPhase(session, OpenPhase), InPhase(session, InFlightPhase);
    && NoDup(RowIds(rows))
    && Elems(RowIds(rows)) == open + inFlight + ended.Keys
    && |rows| == |open| + |inFlight| + |ended.Keys - open - inFlight|
    && forall r :: r in rows ==>
         if r.id in open + inFlight then LiveRowTells(r, session, views) else EndedRowTells(r, ended)
  }

  predicate AwaitsMoney(views: map<CohortId, FundingView>, c: CohortId) {
    c in views && !views[c].state.Funded?
  }

  /** The phase of the cohort, unless it has a funding view that is not funded. */
  ghost predicate LiveRowTells(r: Row, session: seq<LiveCohort>, views: map<CohortId, FundingView>) {
    && (r.chip == NeedsFunding <==> AwaitsMoney(views, r.id))
    && (r.chip == Filling ==> LiveCohort(r.id, OpenPhase) in session)
    && (r.chip == CoSigning ==> LiveCohort(r.id, InFlightPhase) in session)
    && !r.chip.EndedRow?
  }

  ghost predicate EndedRowTells(r: Row, ended: map<CohortId, Fold.Ended>) {
    r.id in ended && r.chip == EndedRow(ended[r.id].chip)
  }

  method SummaryRows(session: seq<LiveCohort>, views: map<CohortId, FundingView>, order: seq<CohortId>,
                     ended: map<CohortId, Fold.Ended>)
    returns (rows: seq<Row>)
    requires UniqueIds(session) && NoDup(order) && forall c :: c in order <==> c in ended
    ensures SummaryOf(rows, session, views, ended)
  {
    var live;
    rows, live := LiveRows(session, views);
    rows := AppendEndedRows(rows, live, order, ended);
    RowsSize(rows, InPhase(session, OpenPhase), InPhase(session, InFlightPhase), ended.Keys);
  }

  method LiveRows(session: seq<LiveCohort>, views: map<CohortId, FundingView>)
    returns (rows: seq<Row>, live: set<CohortId>)
    requires UniqueIds(session)
    ensures live == InPhase(session, OpenPhase) + InPhase(session, InFlightPhase)
    ensures InPhase(session, OpenPhase) !! InPhase(session, InFlightPhase)
    ensures NoDup(RowIds(rows)) && Elems(RowIds(rows)) == live
    ensures forall r :: r in rows ==> r.id in live && LiveRowTells(r, session, views)
  {
    rows, live := [], {};
    for i := 0 to |session|
      invariant live == InPhase(session[..i], OpenPhase) + InPhase(session[..i], InFlightPhase)
      invariant NoDup(RowIds(rows)) && Elems(RowIds(rows)) == live
      invariant forall r :: r in rows ==> r.id in live && LiveRowTells(r, session, views)
    {
      var cohort := session[i];
      PhaseStep(session, i);
      if !cohort.phase.OtherPhase? {
        var chip := if cohort.phase.OpenPhase? then Filling else CoSigning;
        if cohort.id in views && !views[cohort.id].state.Funded? {
          chip := NeedsFunding;
        }
        assert cohort == LiveCohort(cohort.id, cohort.phase) && cohort in session;
        AddRow(rows, Row(cohort.id, chip));
        live := live + {cohort.id};
        rows := rows + [Row(cohort.id, chip)];
      }
    }
    assert session[..|session|] == session;
    PhasesApart(session);
  }

  /** The rows given stay as they are; every record that is not live gets its own after them. */
  method AppendEndedRows(before: seq<Row>, live: set<CohortId>, order: seq<CohortId>, ended: map<CohortId, Fold.Ended>)
    returns (rows: seq<Row>)
    requires NoDup(order) && forall c :: c in order <==> c in ended
    requires NoDup(RowIds(before)) && Elems(RowIds(before)) == live
    requires forall r :: r in before ==> r.id in live
    ensures NoDup(RowIds(rows)) && Elems(RowIds(rows)) == live + ended.Keys
    ensures forall r :: r in rows ==> if r.id in live then r in before else EndedRowTells(r, ended)
  {
    rows := before;
    for i := 0 to |order|
      invariant NoDup(RowIds(rows)) && Elems(RowIds(rows)) == live + Elems(order[..i])
      invariant forall r :: r in rows ==> if r.id in live then r in before else EndedRowTells(r, ended)
    {
      var c := order[i];
      assert order[..i + 1] == order[..i] + [c];
      if c !in live {
        AddRow(rows, Row(c, EndedRow(ended[c].chip)));
        rows := rows + [Row(c, EndedRow(ended[c].chip))];
      }
    }
    assert order[..|order|] == order;
    assert Elems(order) == ended.Keys;
  }

  method CountLive(session: seq<LiveCohort>) returns (open: nat, inFlight: nat)
    requires UniqueIds(session)
    ensures open == |InPhase(session, OpenPhase)| && inFlight == |InPhase(session, InFlightPhase)|
  {
    open, inFlight := 0, 0;
    for i := 0 to |session|
      invariant open == |InPhase(session[..i], OpenPhase)| && inFlight == |InPhase(session[..i], InFlightPhase)|
    {
      PhaseStep(session, i);
      match session[i].phase {
        case OpenPhase => open := open + 1;
        case InFlightPhase => inFlight := inFlight + 1;
        case OtherPhase =>
      }
    }
    assert session[..|session|] == session;
  }

  method CountEnded(order: seq<CohortId>, ended: map<CohortId, Fold.Ended>) returns (anchored: nat, failed: nat)
    requires NoDup(order) && forall c :: c in order <==> c in ended
    ensures anchored == |WithChip(ended, order, Fold.IsAnchoredChip)|
    ensures failed == |WithChip(ended, order, Fold.IsFailedChip)|
  {
    anchored, failed := 0, 0;
    for i := 0 to |order|
      invariant anchored == |WithChip(ended, order[..i], Fold.IsAnchoredChip)|
      invariant failed == |WithChip(ended, order[..i], Fold.IsFailedChip)|
    {
      CountStep(ended, order, i, Fold.IsAnchoredChip);
      CountStep(ended, order, i, Fold.IsFailedChip);
      match ended[order[i]].chip {
        case FailedChip => failed := failed + 1;
        case AnchoredChip => anchored := anchored + 1;
        case FallbackChip => anchored := anchored + 1;
        case _ =>
      }
    }
    assert order[..|order|] == order;
  }

  lemma CountStep(ended: map<CohortId, Fold.Ended>, order: seq<CohortId>, i: nat, has: Fold.Chip -> bool)
    requires NoDup(order) && i < |order| && forall c :: c in order <==> c in ended
    ensures |WithChip(ended, order[..i + 1], has)| ==
            |WithChip(ended, order[..i], has)| + if has(ended[order[i]].chip) then 1 else 0
  {
    WithChipStep(ended, order, i, has);
  }

  lemma PhaseStep(session: seq<LiveCohort>, i: nat)
    requires UniqueIds(session) && i < |session|
    ensures forall p :: InPhase(session[..i + 1], p)
                        == InPhase(session[..i], p) + if session[i].phase == p then {session[i].id} else {}
    ensures forall p :: session[i].id !in InPhase(session[..i], p)
  {
    assert session[..i + 1] == session[..i] + [session[i]];
  }

  lemma PhasesApart(session: seq<LiveCohort>)
    requires UniqueIds(session)
    ensures InPhase(session, OpenPhase) !! InPhase(session, InFlightPhase)
  {
  }

  lemma RowsSize(rows: seq<Row>, open: set<CohortId>, inFlight: set<CohortId>, ended: set<CohortId>)
    requires NoDup(RowIds(rows)) && Elems(RowIds(rows)) == open + inFlight + ended
    requires open !! inFlight
    ensures |rows| == |open| + |inFlight| + |ended - open - inFlight|
  {
    ElemsSize(RowIds(rows));
    var rest := ended - open - inFlight;
    assert open + inFlight + ended == open + inFlight + rest;
    assert |open + inFlight + rest| == |open + inFlight| + |rest|;
  }

  lemma AddRow(rows: seq<Row>, r: Row)
    requires NoDup(RowIds(rows)) && r.id !in Elems(RowIds(rows))
    ensures NoDup(RowIds(rows + [r])) && Elems(RowIds(rows + [r])) == Elems(RowIds(rows)) + {r.id}
  {
    assert RowIds(rows + [r]) == RowIds(rows) + [r.id];
  }

  /** With no broadcaster the anchored column stays at zero. */
  lemma NoBroadcasterCountsNoAnchors(log: seq<Obs>)
    requires forall i :: 0 <= i < |log| ==> !log[i].Emitted?
    ensures var ended := Fold.RunFold(log).ended; |WithChip(ended.table, ended.order, Fold.IsAnchoredChip)| == 0
  {
    var ended := Fold.RunFold(log).ended;
    forall c | c in ended.table ensures !Fold.IsAnchoredChip(ended.table[c].chip) {
      Fold.NoBroadcasterNoAnchors(log, c);
    }
    assert WithChip(ended.table, ended.order, Fold.IsAnchoredChip) == {};
  }
}
