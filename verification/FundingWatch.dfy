/**
 Watching a cohort's beacon address: one classification of the polled outputs, applied to the output
 the builder would spend, and a poll loop that freezes on outages and retires once funded.
 */
module FundingWatch {
  import opened OrderedMap

  datatype Utxo = Utxo(outpoint: string, value: nat, confirmed: bool, height: nat)

  datatype FundingStateName = Waiting | AwaitingConfirmation | Funded | DeadEnd

  datatype FundingState = FundingState(name: FundingStateName, selected: Option<Utxo>)

  /** What the builder needs to know: which values clear the dust limit, and the one suggested minimum. */
  datatype Policy = Policy(aboveDust: nat -> bool, suggestedMinSats: nat)

  predicate Spendable(p: Policy, u: Utxo) {
    u.confirmed && p.aboveDust(u.value)
  }

  function Better(p: Policy, best: Option<Utxo>, u: Utxo): Option<Utxo> {
    if Spendable(p, u) && (best.None? || u.height < best.value.height) then Some(u) else best
  }

  /** The deepest confirmed output above dust, the earliest listed of equally deep ones. */
  function SelectSpendable(p: Policy, utxos: seq<Utxo>): Option<Utxo> {
    if utxos == [] then None
    else Better(p, SelectSpendable(p, utxos[..|utxos| - 1]), utxos[|utxos| - 1])
  }

  function ClassifyFunding(p: Policy, utxos: seq<Utxo>): FundingState {
    if utxos == [] then FundingState(Waiting, None)
    else
      match SelectSpendable(p, utxos)
      case None =>
        FundingState(if exists u :: u in utxos && !u.confirmed then AwaitingConfirmation else Waiting, None)
      case Some(u) => FundingState(if u.value < p.suggestedMinSats then DeadEnd else Funded, Some(u))
  }

  lemma {:induction false} SelectionIsDeepest(p: Policy, utxos: seq<Utxo>)
    ensures match SelectSpendable(p, utxos)
            case None => forall u :: u in utxos ==> !Spendable(p, u)
            case Some(s) =>
              s in utxos && Spendable(p, s) && forall u :: u in utxos && Spendable(p, u) ==> s.height <= u.height
  {
    if utxos != [] {
      SelectionIsDeepest(p, utxos[..|utxos| - 1]);
      assert utxos == utxos[..|utxos| - 1] + [utxos[|utxos| - 1]];
    }
  }

  /** The output the builder spends: confirmed and above dust, none such deeper, none such as deep listed before it. */
  ghost predicate IsPick(p: Policy, utxos: seq<Utxo>, i: int) {
    && 0 <= i < |utxos| && utxos[i].confirmed && p.aboveDust(utxos[i].value)
    && forall j :: 0 <= j < |utxos| && utxos[j].confirmed && p.aboveDust(utxos[j].value) ==>
         utxos[i].height <= utxos[j].height && (utxos[i].height == utxos[j].height ==> i <= j)
  }

  /** Nothing can be spent: each output is unconfirmed or dust. */
  ghost predicate NothingSpendable(p: Policy, utxos: seq<Utxo>) {
    forall i :: 0 <= i < |utxos| ==> !utxos[i].confirmed || !p.aboveDust(utxos[i].value)
  }

  /** One more output listed: it is the pick if it is strictly deeper, and else the pick is as before. */
  lemma PickAppend(p: Policy, utxos: seq<Utxo>, u: Utxo, i: int)
    requires IsPick(p, utxos, i)
    ensures IsPick(p, utxos + [u], if Spendable(p, u) && u.height < utxos[i].height then |utxos| else i)
  {
  }

  lemma FirstPick(p: Policy, utxos: seq<Utxo>, u: Utxo)
    requires NothingSpendable(p, utxos)
    ensures if Spendable(p, u) then IsPick(p, utxos + [u], |utxos|) else NothingSpendable(p, utxos + [u])
  {
  }

  lemma {:induction false} SelectionIsThePick(p: Policy, utxos: seq<Utxo>)
    ensures match SelectSpendable(p, utxos)
            case None => NothingSpendable(p, utxos)
            case Some(s) => exists i :: IsPick(p, utxos, i) && utxos[i] == s
  {
    if utxos != [] {
      var n := |utxos| - 1;
      var before := utxos[..n];
      SelectionIsThePick(p, before);
      assert utxos == before + [utxos[n]];
      if SelectSpendable(p, before).Some? {
        var i :| IsPick(p, before, i) && before[i] == SelectSpendable(p, before).value;
        PickAppend(p, before, utxos[n], i);
      } else {
        FirstPick(p, before, utxos[n]);
      }
    }
  }

  lemma OnePick(p: Policy, utxos: seq<Utxo>, i: int, j: int)
    requires IsPick(p, utxos, i) && IsPick(p, utxos, j)
    ensures i == j
  {
  }

  /**
   What a set of outputs is classified as: by the one the builder would spend, funded at the suggested minimum
   and a dead end below it; where there is none, awaiting while something is unconfirmed, and waiting otherwise.
   */
  lemma ClassifiedExactly(p: Policy, utxos: seq<Utxo>)
    ensures var s := ClassifyFunding(p, utxos);
            && (s.name == Funded <==> exists i :: IsPick(p, utxos, i) && utxos[i].value >= p.suggestedMinSats)
            && (s.name == DeadEnd <==> exists i :: IsPick(p, utxos, i) && utxos[i].value < p.suggestedMinSats)
            && (s.name == AwaitingConfirmation <==>
                NothingSpendable(p, utxos) && exists i :: 0 <= i < |utxos| && !utxos[i].confirmed)
            && (s.name == Waiting <==>
                NothingSpendable(p, utxos) && forall i :: 0 <= i < |utxos| ==> utxos[i].confirmed)
            && (forall i :: IsPick(p, utxos, i) ==> s.selected == Some(utxos[i]))
            && (NothingSpendable(p, utxos) ==> s.selected == None)
  {
    SelectionIsThePick(p, utxos);
    forall i, j | IsPick(p, utxos, i) && IsPick(p, utxos, j) ensures i == j { OnePick(p, utxos, i, j); }
  }

  // ---- Topping up -------------------------------------------------------------------------------

  /** The outputs that were there before the ones marked as added. */
  function BeforeTopUp(utxos: seq<Utxo>, added: seq<bool>): seq<Utxo>
    requires |utxos| == |added|
  {
    if utxos == [] then []
    else
      var n := |utxos| - 1;
      BeforeTopUp(utxos[..n], added[..n]) + if added[n] then [] else [utxos[n]]
  }

  ghost predicate CannotOutrank(p: Policy, utxos: seq<Utxo>, added: seq<bool>, height: int)
    requires |utxos| == |added|
  {
    forall i :: 0 <= i < |utxos| && added[i] ==> !Spendable(p, utxos[i]) || utxos[i].height > height
  }

  predicate ShallowerThan(s: Option<Utxo>, height: int) {
    s.Some? ==> s.value.height > height
  }

  /** Selections before and after a top-up that nothing at `height` or deeper took part in. */
  ghost predicate SameUpTo(before: Option<Utxo>, now: Option<Utxo>, height: int) {
    if ShallowerThan(before, height) then ShallowerThan(now, height) else now == before
  }

  lemma {:induction false} TopUpKeepsSelection(p: Policy, utxos: seq<Utxo>, added: seq<bool>, height: int)
    requires |utxos| == |added| && CannotOutrank(p, utxos, added, height)
    ensures SameUpTo(SelectSpendable(p, BeforeTopUp(utxos, added)), SelectSpendable(p, utxos), height)
  {
    if utxos != [] {
      var n := |utxos| - 1;
      TopUpKeepsSelection(p, utxos[..n], added[..n], height);
      var b := BeforeTopUp(utxos[..n], added[..n]);
      SelectAppend(p, b, utxos[n]);
      if added[n] { assert b + [] == b; }
    }
  }

  lemma SelectAppend(p: Policy, utxos: seq<Utxo>, u: Utxo)
    ensures SelectSpendable(p, utxos + [u]) == Better(p, SelectSpendable(p, utxos), u)
  {
    assert (utxos + [u])[..|utxos|] == utxos;
  }

  /**
   Topping up cannot change a verdict on a selected output: mixing in, anywhere, any number of
   unconfirmed, dust or shallower outputs leaves `dead-end` a dead end and `funded` funded, on the
   same output.
   */
  lemma VerdictIsFinalUnderTopUps(p: Policy, utxos: seq<Utxo>, added: seq<bool>)
    requires |utxos| == |added|
    requires ClassifyFunding(p, BeforeTopUp(utxos, added)).selected.Some?
    requires CannotOutrank(p, utxos, added, ClassifyFunding(p, BeforeTopUp(utxos, added)).selected.value.height)
    ensures ClassifyFunding(p, utxos) == ClassifyFunding(p, BeforeTopUp(utxos, added))
    ensures ClassifyFunding(p, utxos).name in {Funded, DeadEnd}
  {
    var before := BeforeTopUp(utxos, added);
    TopUpKeepsSelection(p, utxos, added, SelectSpendable(p, before).value.height);
  }

  // ---- How long the builder waits ---------------------------------------------------------------

  /** A time bound in milliseconds; an absent or non-finite number does not bound. */
  datatype Bound = Ms(ms: int) | Unbounded

  datatype FundingDeadline = FundingDeadline(deadline: Bound, truncatedWindowMin: Option<int>)

  predicate Less(a: Bound, b: Bound) {
    a.Ms? && (b.Ms? ==> a.ms < b.ms)
  }

  function TtlLeg(remainingTtl: Bound, slackMs: int): Bound {
    match remainingTtl
    case Unbounded => Unbounded
    case Ms(ttl) => Ms(if ttl - slackMs < 0 then 0 else ttl - slackMs)
  }

  /** `Math.round(ms / 60000)`: halves go up. */
  function WholeMinutes(ms: int): int {
    (ms + 30_000) / 60_000
  }

  /**
   The wait ends by every bound given and not before the earliest: within the operator's window, and the
   slack ahead of the cohort's own timer. It is unbounded only when nothing bounds it, and the
   truncation disclosed is the deadline itself to the half minute, disclosed just when the timer binds.
   */
  function ComputeFundingDeadline(window: Bound, remainingTtl: Bound, slackMs: int): (d: FundingDeadline)
    ensures window.Ms? ==> d.deadline.Ms? && d.deadline.ms <= window.ms
    ensures remainingTtl.Ms? ==>
              d.deadline.Ms? && (0 < d.deadline.ms ==> d.deadline.ms <= remainingTtl.ms - slackMs)
    ensures d.deadline.Unbounded? <==> window.Unbounded? && remainingTtl.Unbounded?
    ensures d.deadline != window ==> remainingTtl.Ms? && d.deadline.ms + slackMs >= remainingTtl.ms
    ensures d.truncatedWindowMin.Some? <==> d.deadline != window
    ensures d.truncatedWindowMin.Some? ==>
              d.deadline.ms - 30_000 < 60_000 * d.truncatedWindowMin.value <= d.deadline.ms + 30_000
  {
    var ttlLeg := TtlLeg(remainingTtl, slackMs);
    if Less(ttlLeg, window)
    then FundingDeadline(ttlLeg, Some(if WholeMinutes(ttlLeg.ms) < 0 then 0 else WholeMinutes(ttlLeg.ms)))
    else FundingDeadline(window, None)
  }

  // ---- The poll loop ----------------------------------------------------------------------------

  /** A read of the address settles, with its outputs or with a failure; or the watch is stopped. */
  datatype WatchEvent = ReadSettles(utxos: Option<seq<Utxo>>) | StopWatch

  datatype Report = Report(state: FundingState, lastObservationOk: bool)

  datatype Watch = Watch(lastState: FundingState, aborted: bool, reports: seq<Report>)

  function WatchStep(p: Policy, w: Watch, e: WatchEvent): Watch {
    match e
    case StopWatch => w.(aborted := true)
    case ReadSettles(utxos) =>
      var state := if utxos.Some? then ClassifyFunding(p, utxos.value) else w.lastState;
      if w.aborted then w.(lastState := state)
      else Watch(state, state.name.Funded?, w.reports + [Report(state, utxos.Some?)])
  }

  function NewWatch(): Watch {
    Watch(FundingState(Waiting, None), false, [])
  }

  function RunWatch(p: Policy, es: seq<WatchEvent>): Watch {
    if es == [] then NewWatch() else WatchStep(p, RunWatch(p, es[..|es| - 1]), es[|es| - 1])
  }

  /** The classification of the last read that succeeded, `waiting` before any has. */
  function LastGood(p: Policy, es: seq<WatchEvent>): FundingState {
    if es == [] then FundingState(Waiting, None)
    else if es[|es| - 1].ReadSettles? && es[|es| - 1].utxos.Some? then ClassifyFunding(p, es[|es| - 1].utxos.value)
    else LastGood(p, es[..|es| - 1])
  }

  /** The report of the read at `i`: what the last good read found, and whether this one was good. */
  ghost predicate IsReportOf(p: Policy, es: seq<WatchEvent>, i: int, r: Report) {
    && 0 <= i < |es| && es[i].ReadSettles?
    && r.lastObservationOk == es[i].utxos.Some? && r.state == LastGood(p, es[..i + 1])
  }

  lemma {:induction false} WatchKeepsUp(p: Policy, es: seq<WatchEvent>)
    ensures var w := RunWatch(p, es);
            w.lastState == LastGood(p, es) && |w.reports| <= |es| && (!w.aborted ==> |w.reports| == |es|)
  {
    if es != [] { WatchKeepsUp(p, es[..|es| - 1]); }
  }

  lemma ReportStays(p: Policy, es: seq<WatchEvent>, i: int, r: Report)
    requires es != [] && IsReportOf(p, es[..|es| - 1], i, r)
    ensures IsReportOf(p, es, i, r)
  {
    assert es[..|es| - 1][..i + 1] == es[..i + 1];
  }

  lemma {:induction false} ReportsMatchReads(p: Policy, es: seq<WatchEvent>)
    ensures var reports := RunWatch(p, es).reports;
            |reports| <= |es| && forall i :: 0 <= i < |reports| ==> IsReportOf(p, es, i, reports[i])
  {
    if es != [] {
      var n := |es| - 1;
      var before, reports := RunWatch(p, es[..n]).reports, RunWatch(p, es).reports;
      WatchKeepsUp(p, es[..n]);
      WatchKeepsUp(p, es);
      ReportsMatchReads(p, es[..n]);
      forall i | 0 <= i < |reports| ensures IsReportOf(p, es, i, reports[i]) {
        if i < |before| {
          ReportStays(p, es, i, reports[i]);
        } else {
          assert es[..n + 1] == es;
        }
      }
    }
  }

  lemma {:induction false} FundedIsLast(p: Policy, es: seq<WatchEvent>)
    ensures var w := RunWatch(p, es);
            && (forall i :: 0 <= i < |w.reports| - 1 ==> !w.reports[i].state.name.Funded?)
            && (w.aborted <==> HasEnded(w.reports, es))
  {
    WatchKeepsUp(p, es);
    if es != [] {
      WatchKeepsUp(p, es[..|es| - 1]);
      FundedIsLast(p, es[..|es| - 1]);
    }
  }

  /**
   Every report carries the classification of the last good read; `funded` is reported at most once and
   last; and reporting ends exactly at the first stop or the first `funded`.
   */
  lemma ReportsAreHonest(p: Policy, es: seq<WatchEvent>)
    ensures var w := RunWatch(p, es);
            && w.lastState == LastGood(p, es)
            && |w.reports| <= |es|
            && (forall i :: 0 <= i < |w.reports| ==>
                  && es[i].ReadSettles? && w.reports[i].lastObservationOk == es[i].utxos.Some?
                  && w.reports[i].state == LastGood(p, es[..i + 1]))
            && (forall i :: 0 <= i < |w.reports| - 1 ==> !w.reports[i].state.name.Funded?)
            && (w.aborted <==> HasEnded(w.reports, es))
            && (!w.aborted ==> |w.reports| == |es|)
  {
    WatchKeepsUp(p, es);
    ReportsMatchReads(p, es);
    FundedIsLast(p, es);
  }

  ghost predicate HasEnded(reports: seq<Report>, es: seq<WatchEvent>) {
    || (|reports| < |es| && es[|reports|].StopWatch?)
    || (reports != [] && reports[|reports| - 1].state.name.Funded?)
  }

  /** The watch as its loop runs it: one read at a time, until aborted or funded. */
  class FundingWatchHandle {
    const policy: Policy
    var lastState: FundingState
    var aborted: bool
    var reports: seq<Report>

    function Model(): Watch
      reads this
    {
      Watch(lastState, aborted, reports)
    }

    constructor (policy: Policy)
      ensures this.policy == policy && Model() == NewWatch()
    {
      this.policy, lastState, aborted, reports := policy, FundingState(Waiting, None), false, [];
    }

    method OnRead(utxos: Option<seq<Utxo>>)
      modifies this
      ensures Model() == WatchStep(policy, old(Model()), ReadSettles(utxos))
    {
      var observationOk := utxos.Some?;
      if observationOk {
        lastState := ClassifyFunding(policy, utxos.value);
      }
      if aborted { return; }
      reports := reports + [Report(lastState, observationOk)];
      if lastState.name.Funded? {
        aborted := true;
      }
    }

    method Stop()
      modifies this
      ensures Model() == WatchStep(policy, old(Model()), StopWatch)
    {
      aborted := true;
    }
  }
}
