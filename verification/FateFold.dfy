/**
 The operator's cohort monitor: runner events, broadcaster frames and operator calls folded into three
 bounded tables, and what the console derives from them. The second half relates its record of a
 cohort's fate to the public anchor read over the same frames.
 */
module FateFold {
  import opened Cohorts
  import opened OrderedMap
  import opened KillSwitch
  import opened Broadcast
  import opened AnchorState

  const MAX_MONITORED: nat := 24

  datatype Chip = CoSigned | CoSignedFallback | AnchoredChip | FallbackChip | FailedChip | CanceledChip

  datatype Ended = Ended(chip: Chip, viaFallback: bool)

  datatype MonitorEntry = MonitorEntry(fellBack: bool, signingComplete: bool)

  datatype Fold = Fold(entries: OMap<CohortId, MonitorEntry>, ended: OMap<CohortId, Ended>)

  const FRESH_ENTRY := MonitorEntry(false, false)

  function EntryFor(f: Fold, c: CohortId): MonitorEntry {
    if c in f.entries.table then f.entries.table[c] else FRESH_ENTRY
  }

  /** What an observation does to the table of live cohorts. */
  function EntriesAfter(f: Fold, o: Obs): OMap<CohortId, MonitorEntry> {
    var c, e := o.cohort, EntryFor(f, o.cohort);
    match o
    case Signed(_, _) => if c in f.entries.table then f.entries.Mutate(c, e.(signingComplete := true)) else f.entries
    case CanceledByOperator(_) => if IsCanceled(f, c) then f.entries else f.entries.Remember(c, e, MAX_MONITORED)
    case Dismissed(_) => if c in f.ended.table then f.entries.Delete(c) else f.entries
    case FellBack(_) => f.entries.Remember(c, e.(fellBack := true), MAX_MONITORED)
    case Activity(_) => f.entries.Remember(c, e, MAX_MONITORED)
    case _ => f.entries
  }

  predicate IsCanceled(f: Fold, c: CohortId) {
    c in f.ended.table && f.ended.table[c].chip.CanceledChip?
  }

  /** The record an observation files for its cohort, if any. */
  function Filed(f: Fold, o: Obs): Option<Ended> {
    var c := o.cohort;
    match o
    case Signed(_, viaScriptPath) =>
      var viaFallback := viaScriptPath || EntryFor(f, c).fellBack;
      Some(Ended(if viaFallback then CoSignedFallback else CoSigned, viaFallback))
    case Emitted(_, FailedFrame) => Some(Ended(FailedChip, false))
    case Emitted(_, Anchored(_, confirmed)) =>
      var viaFallback := c in f.ended.table && f.ended.table[c].viaFallback;
      if confirmed then Some(Ended(if viaFallback then FallbackChip else AnchoredChip, viaFallback)) else None
    case Failed(_) => Some(Ended(FailedChip, false))
    case CanceledByOperator(_) => if IsCanceled(f, c) then None else Some(Ended(CanceledChip, false))
    case _ => None
  }

  function EndedAfterObs(f: Fold, o: Obs): OMap<CohortId, Ended> {
    if Filed(f, o).Some? then f.ended.Remember(o.cohort, Filed(f, o).value, MAX_TERMINAL)
    else if o.Dismissed? && o.cohort in f.ended.table then f.ended.Delete(o.cohort)
    else f.ended
  }

  function Step(f: Fold, o: Obs): Fold {
    Fold(EntriesAfter(f, o), EndedAfterObs(f, o))
  }

  function RunFold(log: seq<Obs>): Fold {
    if log == [] then Fold(OMap([], map[]), OMap([], map[])) else Step(RunFold(log[..|log| - 1]), log[|log| - 1])
  }

  // ---- What every step keeps --------------------------------------------------------------------

  predicate InFallbackColumn(chip: Chip) {
    chip.CoSignedFallback? || chip.FallbackChip?
  }

  predicate IsAnchoredChip(chip: Chip) {
    chip.AnchoredChip? || chip.FallbackChip?
  }

  predicate IsFailedChip(chip: Chip) {
    chip.FailedChip?
  }

  ghost predicate FoldInv(f: Fold) {
    && f.entries.Valid() && |f.entries.order| <= MAX_MONITORED
    && f.ended.Valid() && |f.ended.order| <= MAX_TERMINAL
    && forall c :: c in f.ended.table ==> (f.ended.table[c].viaFallback <==> InFallbackColumn(f.ended.table[c].chip))
  }

  lemma EntriesStayValid(f: Fold, o: Obs)
    requires f.entries.Valid() && |f.entries.order| <= MAX_MONITORED
    ensures EntriesAfter(f, o).Valid() && |EntriesAfter(f, o).order| <= MAX_MONITORED
  {
    var c, e := o.cohort, EntryFor(f, o.cohort);
    match o
    case FellBack(_) => RememberValid(f.entries, c, e.(fellBack := true), MAX_MONITORED);
    case Activity(_) => RememberValid(f.entries, c, e, MAX_MONITORED);
    case CanceledByOperator(_) => RememberValid(f.entries, c, e, MAX_MONITORED);
    case Dismissed(_) => DeleteValid(f.entries, c); WithoutNoDup(f.entries.order, c);
    case _ =>
  }

  lemma FiledFollowsTheTag(f: Fold, o: Obs)
    ensures Filed(f, o).Some? ==> (Filed(f, o).value.viaFallback <==> InFallbackColumn(Filed(f, o).value.chip))
  {
  }

  lemma StepKeepsInv(f: Fold, o: Obs)
    requires FoldInv(f)
    ensures FoldInv(Step(f, o))
  {
    EntriesStayValid(f, o);
    FiledFollowsTheTag(f, o);
    OnlyOwnRecordChanges(f, o);
    var after := Step(f, o).ended;
    forall c | c in after.table
      ensures after.table[c].viaFallback <==> InFallbackColumn(after.table[c].chip)
    {
      assert after.Get(c) == if c == o.cohort && Filed(f, o).Some? then Filed(f, o) else f.ended.Get(c);
    }
  }

  /** A step replaces at most the record of its own cohort; others stay or go. */
  lemma OnlyOwnRecordChanges(f: Fold, o: Obs)
    requires FoldInv(f)
    ensures Step(f, o).ended.Valid() && |Step(f, o).ended.order| <= MAX_TERMINAL
    ensures forall x :: x != o.cohort && x in Step(f, o).ended.table ==> Step(f, o).ended.Get(x) == f.ended.Get(x)
    ensures Filed(f, o).Some? ==> Step(f, o).ended.Get(o.cohort) == Filed(f, o)
    ensures Filed(f, o).None? && o.cohort in Step(f, o).ended.table ==>
              !o.Dismissed? && Step(f, o).ended.Get(o.cohort) == f.ended.Get(o.cohort)
  {
    if Filed(f, o).Some? {
      RememberValid(f.ended, o.cohort, Filed(f, o).value, MAX_TERMINAL);
    }
    DeleteValid(f.ended, o.cohort);
    WithoutNoDup(f.ended.order, o.cohort);
  }

  /** In every reachable state a record sits in the fallback column if and only if it carries the tag. */
  lemma {:induction false} ColumnsFollowTheTag(log: seq<Obs>)
    ensures FoldInv(RunFold(log))
  {
    if log != [] {
      ColumnsFollowTheTag(log[..|log| - 1]);
      StepKeepsInv(RunFold(log[..|log| - 1]), log[|log| - 1]);
    }
  }

  /** With no broadcaster there are no frames, and nothing is ever counted as anchored. */
  lemma {:induction false} NoBroadcasterNoAnchors(log: seq<Obs>, c: CohortId)
    requires forall i :: 0 <= i < |log| ==> !log[i].Emitted?
    requires c in RunFold(log).ended.table
    ensures !IsAnchoredChip(RunFold(log).ended.table[c].chip)
  {
    var f, o := RunFold(log[..|log| - 1]), log[|log| - 1];
    ColumnsFollowTheTag(log[..|log| - 1]);
    if c in f.ended.table {
      NoBroadcasterNoAnchors(log[..|log| - 1], c);
    }
    OnlyOwnRecordChanges(f, o);
  }

  // ---- The bounded record against the whole history ---------------------------------------------

  datatype Fate = CoSignedFate | AnchoredFate | FailedFate | CanceledFate

  function FateOf(chip: Chip): Fate {
    match chip
    case CoSigned => CoSignedFate
    case CoSignedFallback => CoSignedFate
    case AnchoredChip => AnchoredFate
    case FallbackChip => AnchoredFate
    case FailedChip => FailedFate
    case CanceledChip => CanceledFate
  }

  /** The fate an observation gives its cohort, if it gives one. */
  function FateGiven(o: Obs): Option<Fate> {
    match o
    case Signed(_, _) => Some(CoSignedFate)
    case Emitted(_, FailedFrame) => Some(FailedFate)
    case Emitted(_, Anchored(_, confirmed)) => if confirmed then Some(AnchoredFate) else None
    case Failed(_) => Some(FailedFate)
    case CanceledByOperator(_) => Some(CanceledFate)
    case _ => None
  }

  /** The last fate the whole, unbounded history gave a cohort. */
  function LastFate(log: seq<Obs>, c: CohortId): Option<Fate> {
    if log == [] then None
    else
      var o := log[|log| - 1];
      if o.cohort == c && FateGiven(o).Some? then FateGiven(o) else LastFate(log[..|log| - 1], c)
  }

  /** One observation: the record of its cohort shows the fate it gives; any other record is as it was. */
  lemma FateStep(f: Fold, o: Obs, c: CohortId)
    requires FoldInv(f) && c in Step(f, o).ended.table
    ensures if o.cohort == c && FateGiven(o).Some?
            then FateGiven(o) == Some(FateOf(Step(f, o).ended.table[c].chip))
            else c in f.ended.table && Step(f, o).ended.table[c] == f.ended.table[c]
  {
    OnlyOwnRecordChanges(f, o);
  }

  /** Whatever the table still holds for a cohort is the last fate of its whole history. */
  lemma {:induction false} RecordIsLastFate(log: seq<Obs>, c: CohortId)
    requires c in RunFold(log).ended.table
    ensures LastFate(log, c) == Some(FateOf(RunFold(log).ended.table[c].chip))
  {
    var n := |log| - 1;
    ColumnsFollowTheTag(log[..n]);
    FateStep(RunFold(log[..n]), log[n], c);
    if log[n].cohort != c || FateGiven(log[n]).None? {
      RecordIsLastFate(log[..n], c);
    }
  }

  /** The chip is one that what was observed accounts for. */
  ghost predicate Accounts(o: Obs, chip: Chip) {
    match o
    case Signed(_, _) => chip == CoSigned || chip == CoSignedFallback
    case Emitted(_, Anchored(_, true)) => chip == AnchoredChip || chip == FallbackChip
    case Emitted(_, FailedFrame) => chip == FailedChip
    case Failed(_) => chip == FailedChip
    case CanceledByOperator(_) => chip == CanceledChip
    case _ => false
  }

  /** The observation at `i` is of the cohort, accounts for the chip, and no later one accounts for any. */
  ghost predicate LastAccount(log: seq<Obs>, i: int, c: CohortId, chip: Chip) {
    && 0 <= i < |log| && log[i].cohort == c && Accounts(log[i], chip)
    && forall j, other :: i < j < |log| && log[j].cohort == c ==> !Accounts(log[j], other)
  }

  /** Whatever the table holds for a cohort, the last observation that ended it accounts for its chip. */
  lemma {:induction false} ChipHasItsObservation(log: seq<Obs>, c: CohortId)
    requires c in RunFold(log).ended.table
    ensures exists i :: LastAccount(log, i, c, RunFold(log).ended.table[c].chip)
  {
    var n := |log| - 1;
    var f, o, chip := RunFold(log[..n]), log[n], RunFold(log).ended.table[c].chip;
    ColumnsFollowTheTag(log[..n]);
    FateStep(f, o, c);
    if o.cohort == c && FateGiven(o).Some? {
      OwnChip(f, o);
      assert LastAccount(log, n, c, chip);
    } else {
      ChipHasItsObservation(log[..n], c);
      var i :| LastAccount(log[..n], i, c, chip);
      AccountStays(log, i, c, chip);
    }
  }

  lemma AccountStays(log: seq<Obs>, i: int, c: CohortId, chip: Chip)
    requires log != [] && LastAccount(log[..|log| - 1], i, c, chip)
    requires log[|log| - 1].cohort != c || FateGiven(log[|log| - 1]).None?
    ensures LastAccount(log, i, c, chip)
  {
    var p := log[..|log| - 1];
    forall j, other | i < j < |log| && log[j].cohort == c ensures !Accounts(log[j], other) {
      if j < |p| { assert p[j] == log[j]; }
    }
    assert p[i] == log[i];
  }

  lemma OwnChip(f: Fold, o: Obs)
    requires FoldInv(f) && FateGiven(o).Some? && o.cohort in Step(f, o).ended.table
    ensures Accounts(o, Step(f, o).ended.table[o.cohort].chip)
  {
    OnlyOwnRecordChanges(f, o);
  }

  // ---- The fallback tag -------------------------------------------------------------------------

  /** The fold saw the cohort fall back, and has kept its live entry ever since. */
  ghost predicate FellBackSince(log: seq<Obs>, c: CohortId) {
    log != [] &&
    (log[|log| - 1] == FellBack(c) || (FellBackSince(log[..|log| - 1], c) && c in RunFold(log).entries.table))
  }

  lemma TagStep(f: Fold, o: Obs, c: CohortId)
    requires FoldInv(f)
    ensures o == FellBack(c) ==> c in Step(f, o).entries.table && EntryFor(Step(f, o), c).fellBack
    ensures o != FellBack(c) ==>
              (EntryFor(Step(f, o), c).fellBack <==> EntryFor(f, c).fellBack && c in Step(f, o).entries.table)
  {
    var x, e := o.cohort, EntryFor(f, o.cohort);
    match o
    case FellBack(_) => RememberValid(f.entries, x, e.(fellBack := true), MAX_MONITORED);
    case Activity(_) => RememberValid(f.entries, x, e, MAX_MONITORED);
    case CanceledByOperator(_) => RememberValid(f.entries, x, e, MAX_MONITORED);
    case _ =>
  }

  /** A live entry carries the tag exactly if the cohort was seen to fall back since the entry was last made. */
  lemma {:induction false} TagIsSeen(log: seq<Obs>, c: CohortId)
    ensures EntryFor(RunFold(log), c).fellBack <==> FellBackSince(log, c)
  {
    if log != [] {
      TagIsSeen(log[..|log| - 1], c);
      ColumnsFollowTheTag(log[..|log| - 1]);
      TagStep(RunFold(log[..|log| - 1]), log[|log| - 1], c);
    }
  }

  /** A co-sign is filed in the fallback column exactly if it went over the script path or that was seen. */
  lemma CoSignedColumn(log: seq<Obs>, c: CohortId, viaScriptPath: bool)
    ensures RunFold(log + [Signed(c, viaScriptPath)]).ended.Get(c) ==
            if viaScriptPath || FellBackSince(log, c) then Some(Ended(CoSignedFallback, true))
            else Some(Ended(CoSigned, false))
  {
    assert (log + [Signed(c, viaScriptPath)])[..|log|] == log;
    ColumnsFollowTheTag(log);
    TagIsSeen(log, c);
    OnlyOwnRecordChanges(RunFold(log), Signed(c, viaScriptPath));
  }

  // ---- The fallback column across a promotion ---------------------------------------------------

  /** The other cohorts given a fate after position `i`. */
  ghost function EndedAfter(log: seq<Obs>, i: int, c: CohortId): set<CohortId>
    requires i >= -1
  {
    set j | i < j < |log| && FateGiven(log[j]).Some? && log[j].cohort != c :: log[j].cohort
  }

  predicate Disturbs(o: Obs, c: CohortId) {
    o.cohort == c && (FateGiven(o).Some? || o.Dismissed?)
  }

  /** A filed record stays as filed until 24 other cohorts have been given a fate or its own cohort gets another. */
  lemma {:induction false} RecordSurvives(log: seq<Obs>, s: nat, c: CohortId)
    requires s < |log| && log[s].cohort == c && Filed(RunFold(log[..s]), log[s]).Some?
    requires forall i :: s < i < |log| ==> !Disturbs(log[i], c)
    requires |EndedAfter(log, s, c)| < MAX_TERMINAL
    ensures RunFold(log).ended.Get(c) == Filed(RunFold(log[..s]), log[s])
    ensures After(RunFold(log).ended.order, c) <= EndedAfter(log, s, c)
  {
    var n := |log| - 1;
    ColumnsFollowTheTag(log[..n]);
    if s == n {
      FilingTakesTheNewestPlace(RunFold(log[..n]), log[n]);
    } else {
      assert log[..n][..s] == log[..s] && log[..n][s] == log[s];
      EndedAfterStep(log, s, c);
      RecordSurvives(log[..n], s, c);
      StepKeepsRecord(RunFold(log[..n]), log[n], c, EndedAfter(log, s, c));
    }
  }

  lemma FilingTakesTheNewestPlace(f: Fold, o: Obs)
    requires FoldInv(f) && Filed(f, o).Some?
    ensures Step(f, o).ended.Get(o.cohort) == Filed(f, o)
    ensures After(Step(f, o).ended.order, o.cohort) == {}
  {
    OnlyOwnRecordChanges(f, o);
    TouchSame(f.ended, o.cohort, Filed(f, o).value, MAX_TERMINAL);
  }

  lemma StepKeepsRecord(f: Fold, o: Obs, c: CohortId, others: set<CohortId>)
    requires FoldInv(f) && !Disturbs(o, c) && c in f.ended.table
    requires After(f.ended.order, c) <= others && |others| < MAX_TERMINAL
    requires FateGiven(o).Some? && o.cohort != c ==> o.cohort in others
    ensures Step(f, o).ended.Get(c) == f.ended.Get(c) && After(Step(f, o).ended.order, c) <= others
  {
    OnlyOwnRecordChanges(f, o);
    if o.cohort != c {
      OtherKeepsRecord(f, o, c, others);
    }
  }

  lemma OtherKeepsRecord(f: Fold, o: Obs, c: CohortId, others: set<CohortId>)
    requires FoldInv(f) && o.cohort != c && c in f.ended.table
    requires After(f.ended.order, c) <= others && |others| < MAX_TERMINAL
    requires FateGiven(o).Some? ==> o.cohort in others
    ensures Step(f, o).ended.Get(c) == f.ended.Get(c) && After(Step(f, o).ended.order, c) <= others
  {
    if Filed(f, o).Some? {
      SurvivesOneOp(f.ended, Touch(o.cohort, Filed(f, o).value), c, others, MAX_TERMINAL);
    } else {
      SurvivesOneOp(f.ended, Forget(o.cohort), c, others, MAX_TERMINAL);
    }
  }

  lemma EndedAfterStep(log: seq<Obs>, i: nat, c: CohortId)
    requires i < |log| - 1
    ensures EndedAfter(log[..|log| - 1], i, c) <= EndedAfter(log, i, c)
    ensures |EndedAfter(log[..|log| - 1], i, c)| <= |EndedAfter(log, i, c)|
    ensures FateGiven(log[|log| - 1]).Some? && log[|log| - 1].cohort != c ==>
              log[|log| - 1].cohort in EndedAfter(log, i, c)
  {
    var p := log[..|log| - 1];
    forall x | x in EndedAfter(p, i, c) ensures x in EndedAfter(log, i, c) {
      var j :| i < j < |p| && FateGiven(p[j]).Some? && p[j].cohort != c && p[j].cohort == x;
      assert log[j] == p[j];
    }
    SubsetSize(EndedAfter(p, i, c), EndedAfter(log, i, c));
  }

  /**
   A confirmed anchor keeps the row its co-sign was filed in: with fewer than 24 other cohorts ended in
   between, and nothing else said about this one, it is promoted to `fallback` if and only if the
   co-sign went over the script path or the fold had seen the cohort fall back.
   */
  lemma PromotionKeepsTheColumn(log: seq<Obs>, s: nat, c: CohortId, viaScriptPath: bool, txid: Txid)
    requires s < |log| && log[s] == Signed(c, viaScriptPath)
    requires forall i :: s < i < |log| ==> !Disturbs(log[i], c)
    requires |EndedAfter(log, s, c)| < MAX_TERMINAL
    ensures RunFold(log + [Emitted(c, Anchored(txid, true))]).ended.Get(c)
            == if viaScriptPath || FellBackSince(log[..s], c)
               then Some(Ended(FallbackChip, true)) else Some(Ended(AnchoredChip, false))
  {
    TagIsSeen(log[..s], c);
    var frame := Emitted(c, Anchored(txid, true));
    assert (log + [frame])[..|log|] == log;
    ColumnsFollowTheTag(log);
    RecordSurvives(log, s, c);
    OnlyOwnRecordChanges(RunFold(log), frame);
  }

  // ---- The two folds agree ----------------------------------------------------------------------

  /** The last frame in a cohort's own trace. */
  function LastFrame(t: seq<Obs>): Option<Frame> {
    if t == [] then None
    else if t[|t| - 1].Emitted? then Some(t[|t| - 1].frame)
    else LastFrame(t[..|t| - 1])
  }

  lemma {:induction false} AnchorHoldsLastFrame(log: seq<Obs>, c: CohortId)
    requires c in AnchorTable(log).table
    ensures LastFrame(Trace(log, c)).Some? && AnchorTable(log).table[c] == EntryOf(LastFrame(Trace(log, c)).value)
  {
    var n := |log| - 1;
    var p, o := log[..n], log[n];
    assert log == p + [o];
    TraceAppend(p, o, c);
    TableIsItsOps(p);
    RunValid(FrameOps(p), MAX_TERMINAL);
    var t := Trace(p, c);
    if o.Emitted? {
      RememberValid(AnchorTable(p), o.cohort, EntryOf(o.frame), MAX_TERMINAL);
    }
    if o.Emitted? && o.cohort == c {
      assert Trace(log, c)[|t|] == o;
    } else {
      AnchorHoldsLastFrame(p, c);
      if o.Signed? && o.cohort == c {
        assert (t + [o])[..|t|] == t;
      } else {
        assert Trace(log, c) == t;
      }
    }
  }

  /** The runner's failure, the operator's cancel and the operator's dismissal of a cohort. */
  predicate EndsOtherwise(o: Obs, c: CohortId) {
    o.cohort == c && (o.Failed? || o.CanceledByOperator? || o.Dismissed?)
  }

  /** From its co-sign on, nothing but frames has been said about the cohort. */
  ghost predicate Undisturbed(log: seq<Obs>, c: CohortId) {
    forall i :: 0 <= i < |log| && EndsOtherwise(log[i], c) ==> Trace(log[..i], c) == []
  }

  lemma UndisturbedBefore(log: seq<Obs>, c: CohortId)
    requires log != [] && Undisturbed(log, c)
    ensures Undisturbed(log[..|log| - 1], c)
    ensures EndsOtherwise(log[|log| - 1], c) ==> Trace(log[..|log| - 1], c) == []
  {
    var p := log[..|log| - 1];
    forall i | 0 <= i < |p| && EndsOtherwise(p[i], c) ensures Trace(p[..i], c) == [] {
      assert p[..i] == log[..i] && p[i] == log[i];
    }
  }

  lemma {:induction false} FateFollowsTrace(log: seq<Obs>, c: CohortId)
    requires Undisturbed(log, c) && Trace(log, c) != [] && FateGiven(Trace(log, c)[0]).Some?
    ensures LastFate(log, c) == LastFate(Trace(log, c), c)
  {
    var p, o := log[..|log| - 1], log[|log| - 1];
    var t := Trace(p, c);
    UndisturbedBefore(log, c);
    if o.cohort == c && (o.Signed? || o.Emitted?) {
      assert Trace(log, c) == t + [o] && (t + [o])[..|t|] == t;
      if FateGiven(o).None? {
        assert t != [] && t[0] == Trace(log, c)[0];
        FateFollowsTrace(p, c);
      }
    } else {
      assert Trace(log, c) == t;
      FateFollowsTrace(p, c);
    }
  }

  /**
   In every reachable state of the broadcast protocol, for a cohort both folds still hold and which has
   not failed, been canceled or been dismissed since its co-sign, the public read says confirmed if and
   only if the operator's chip is one of the anchored two.
   */
  lemma FoldsAgreeOnConfirmed(cfg: Config, acts: seq<Act>, c: CohortId)
    requires var log := RunNet(cfg, acts).log;
             Undisturbed(log, c) && c in AnchorTable(log).table && c in RunFold(log).ended.table
    ensures var log := RunNet(cfg, acts).log;
            AnchorTable(log).table[c].fact == IsConfirmed <==> IsAnchoredChip(RunFold(log).ended.table[c].chip)
  {
    var log := RunNet(cfg, acts).log;
    var t := Trace(log, c);
    FrameGrammar(cfg, acts, c);
    AnchorHoldsLastFrame(log, c);
    RecordIsLastFate(log, c);
    FateFollowsTrace(log, c);
    TraceIsOwn(log, c);
    GrammarAgrees(t, c);
  }

  /** On every trace the protocol can leave, the last frame confirms exactly when the last fate is anchored. */
  lemma GrammarAgrees(t: seq<Obs>, c: CohortId)
    requires Grammar(t, c) && LastFrame(t).Some?
    requires forall i :: 0 <= i < |t| ==> t[i].cohort == c
    ensures EntryOf(LastFrame(t).value).fact == IsConfirmed <==> LastFate(t, c) == Some(AnchoredFate)
  {
    if |t| >= 2 {
      assert t[..|t| - 1][..|t| - 2] == t[..|t| - 2];
    }
  }

  // ---- A failure the co-sign overwrites ---------------------------------------------------------

  /**
   The input on which a failed broadcast does not override the co-signed record: a transaction that does
   not extract. Its failure frame is emitted before the co-sign is folded, so the public read says failed
   while the operator's record is the co-sign.
   */
  lemma ExtractFailureLeavesTheCoSign(net: Net, c: CohortId, tx: SignedTx, via: bool)
    requires !net.stopped && c !in net.signed && tx.raw.None?
    ensures var log := Broadcast.Step(net, SigningCompletes(c, true, tx, via)).log;
            && AnchorTable(log).Get(c) == Some(AnchorEntry(IsFailed, None, Some("broadcast failed")))
            && RunFold(log).ended.Get(c) ==
               if via || FellBackSince(net.log, c)
               then Some(Ended(CoSignedFallback, true)) else Some(Ended(CoSigned, false))
  {
    var failure := Emitted(c, FailedFrame);
    ExtractFailureShape(net, c, tx, via);
    FailureIsRead(net.log, c, via);
    FailureKeepsTheTag(net.log, c);
    CoSignedColumn(net.log + [failure], c, via);
  }

  lemma FailureIsRead(log: seq<Obs>, c: CohortId, via: bool)
    ensures AnchorTable(log + [Emitted(c, FailedFrame)] + [Signed(c, via)]).Get(c)
            == Some(AnchorEntry(IsFailed, None, Some("broadcast failed")))
  {
    var failed := log + [Emitted(c, FailedFrame)];
    assert failed[..|log|] == log && (failed + [Signed(c, via)])[..|failed|] == failed;
    TableIsItsOps(log);
    RunValid(FrameOps(log), MAX_TERMINAL);
    RememberValid(AnchorTable(log), c, EntryOf(FailedFrame), MAX_TERMINAL);
  }

  lemma FailureKeepsTheTag(log: seq<Obs>, c: CohortId)
    ensures FellBackSince(log + [Emitted(c, FailedFrame)], c) <==> FellBackSince(log, c)
  {
    assert (log + [Emitted(c, FailedFrame)])[..|log|] == log;
    TagIsSeen(log, c);
  }

  /** On every trace of the protocol the last frame fails without the last fate exactly if it came first. */
  lemma GrammarPartsOnFailure(t: seq<Obs>, c: CohortId)
    requires Grammar(t, c) && LastFrame(t).Some?
    requires forall i :: 0 <= i < |t| ==> t[i].cohort == c
    ensures EntryOf(LastFrame(t).value).fact == IsFailed && LastFate(t, c) != Some(FailedFate) <==> t[0].Emitted?
    ensures !t[0].Emitted? ==>
              (EntryOf(LastFrame(t).value).fact == IsFailed <==> LastFate(t, c) == Some(FailedFate))
  {
    if |t| >= 2 {
      assert t[..|t| - 1][..|t| - 2] == t[..|t| - 2];
    }
  }

  /**
   Exactly when the override holds. In every reachable state, for a cohort both folds retain and nothing
   else has ended since its co-sign, the public read says failed while the operator's chip does not if
   and only if the transaction the cohort was taken up with does not extract; for every other cohort the
   two say failed together.
   */
  lemma FoldsPartOnlyOnExtractFailure(cfg: Config, acts: seq<Act>, c: CohortId)
    requires var log := RunNet(cfg, acts).log;
             Undisturbed(log, c) && c in AnchorTable(log).table && c in RunFold(log).ended.table
    ensures var net := RunNet(cfg, acts);
            var readFailed := AnchorTable(net.log).table[c].fact == IsFailed;
            var chipFailed := IsFailedChip(RunFold(net.log).ended.table[c].chip);
            && c in net.jobs
            && (readFailed && !chipFailed <==> net.jobs[c].tx.raw.None?)
            && (net.jobs[c].tx.raw.Some? ==> (readFailed <==> chipFailed))
  {
    var log := RunNet(cfg, acts).log;
    var t := Trace(log, c);
    RunKeepsCohortInv(cfg, acts, c);
    FrameGrammar(cfg, acts, c);
    AnchorHoldsLastFrame(log, c);
    RecordIsLastFate(log, c);
    FateFollowsTrace(log, c);
    TraceIsOwn(log, c);
    GrammarPartsOnFailure(t, c);
    FramedIsTakenUp(RunNet(cfg, acts), c);
  }

  /** Only a cohort that was taken up has frames, and its first entry tells whether it extracted. */
  lemma FramedIsTakenUp(net: Net, c: CohortId)
    requires CohortInv(net, c) && LastFrame(Trace(net.log, c)).Some?
    ensures c in net.jobs
    ensures Trace(net.log, c)[0].Emitted? <==> net.jobs[c].tx.raw.None?
  {
  }

  /** Without the proviso they part: once a confirmed cohort is failed or canceled, only the read says confirmed. */
  lemma LaterEndPartsTheFolds(log: seq<Obs>, c: CohortId, o: Obs)
    requires o == Failed(c) || o == CanceledByOperator(c)
    requires c in AnchorTable(log).table && AnchorTable(log).table[c].fact == IsConfirmed
    requires c in RunFold(log).ended.table && IsAnchoredChip(RunFold(log).ended.table[c].chip)
    ensures AnchorTable(log + [o]).Get(c) == AnchorTable(log).Get(c)
    ensures c in RunFold(log + [o]).ended.table && !IsAnchoredChip(RunFold(log + [o]).ended.table[c].chip)
  {
    assert (log + [o])[..|log|] == log;
    ColumnsFollowTheTag(log);
    OnlyOwnRecordChanges(RunFold(log), o);
  }
}
