/**
 The monitor's live entries against the whole history: which cohorts have one, and what it remembers of them.
 */
module LiveEntries {
  import opened Broadcast
  import opened Cohorts
  import opened FateFold
  import opened OrderedMap

  /** The observation makes its cohort's entry, or refreshes it as the newest. */
  ghost predicate Touches(log: seq<Obs>, o: Obs) {
    o.Activity? || o.FellBack? || (o.CanceledByOperator? && !IsCanceled(RunFold(log), o.cohort))
  }

  /** The operator dismisses a cohort that has ended. */
  ghost predicate Drops(log: seq<Obs>, o: Obs) {
    o.Dismissed? && o.cohort in RunFold(log).ended.table
  }

  /** The other cohorts with an entry newer than the one made at `i`; none once there were 24, and it went. */
  ghost function NewerSince(log: seq<Obs>, i: nat): Option<set<CohortId>>
    requires i < |log|
  {
    var n := |log| - 1;
    if n == i then Some({}) else NewerAfter(log[..n], log[n], NewerSince(log[..n], i))
  }

  ghost function NewerAfter(log: seq<Obs>, o: Obs, newer: Option<set<CohortId>>): Option<set<CohortId>> {
    match newer
    case None => None
    case Some(others) =>
      if Touches(log, o) then (if |others + {o.cohort}| < 24 then Some(others + {o.cohort}) else None)
      else if Drops(log, o) then Some(others - {o.cohort})
      else Some(others)
  }

  /** The entry is held, with exactly these newer, or is not held. */
  ghost predicate Holds(f: Fold, c: CohortId, newer: Option<set<CohortId>>) {
    match newer
    case Some(others) => c in f.entries.table && After(f.entries.order, c) == others
    case None => c !in f.entries.table
  }

  lemma MadeIsNewest(log: seq<Obs>, o: Obs)
    requires Touches(log, o)
    ensures Holds(FateFold.Step(RunFold(log), o), o.cohort, Some({}))
  {
    var f, c, e := RunFold(log), o.cohort, EntryFor(RunFold(log), o.cohort);
    ColumnsFollowTheTag(log);
    var made := if o.FellBack? then e.(fellBack := true) else e;
    RememberValid(f.entries, c, made, MAX_MONITORED);
    TouchSame(f.entries, c, made, MAX_MONITORED);
  }

  lemma OtherTouched(log: seq<Obs>, o: Obs, c: CohortId, newer: set<CohortId>)
    requires Touches(log, o) && o.cohort != c && Holds(RunFold(log), c, Some(newer))
    ensures Holds(FateFold.Step(RunFold(log), o), c,
                  if |newer + {o.cohort}| < 24 then Some(newer + {o.cohort}) else None)
  {
    var f, x, e := RunFold(log), o.cohort, EntryFor(RunFold(log), o.cohort);
    ColumnsFollowTheTag(log);
    TouchOther(f.entries, x, if o.FellBack? then e.(fellBack := true) else e, c, MAX_MONITORED);
  }

  lemma GoneStaysGone(log: seq<Obs>, o: Obs, c: CohortId)
    requires c !in RunFold(log).entries.table && !(Touches(log, o) && o.cohort == c)
    ensures c !in FateFold.Step(RunFold(log), o).entries.table
  {
    var f, x, e := RunFold(log), o.cohort, EntryFor(RunFold(log), o.cohort);
    ColumnsFollowTheTag(log);
    if Touches(log, o) {
      RememberValid(f.entries, x, if o.FellBack? then e.(fellBack := true) else e, MAX_MONITORED);
    }
  }

  lemma OtherDropped(log: seq<Obs>, o: Obs, c: CohortId, newer: set<CohortId>)
    requires Drops(log, o) && o.cohort != c && Holds(RunFold(log), c, Some(newer))
    ensures Holds(FateFold.Step(RunFold(log), o), c, Some(newer - {o.cohort}))
  {
    ColumnsFollowTheTag(log);
    AfterWithout(RunFold(log).entries.order, o.cohort, c);
  }

  lemma OtherwiseLeft(log: seq<Obs>, o: Obs, c: CohortId, newer: set<CohortId>)
    requires !Touches(log, o) && !Drops(log, o) && Holds(RunFold(log), c, Some(newer))
    ensures Holds(FateFold.Step(RunFold(log), o), c, Some(newer))
  {
  }

  lemma HeldStep(log: seq<Obs>, o: Obs, c: CohortId, newer: Option<set<CohortId>>)
    requires Holds(RunFold(log), c, newer) && (o.cohort == c ==> !Touches(log, o) && !Drops(log, o))
    ensures Holds(FateFold.Step(RunFold(log), o), c, NewerAfter(log, o, newer))
  {
    if newer.None? {
      GoneStaysGone(log, o, c);
    } else if Touches(log, o) {
      OtherTouched(log, o, c, newer.value);
    } else if Drops(log, o) {
      OtherDropped(log, o, c, newer.value);
    } else {
      OtherwiseLeft(log, o, c, newer.value);
    }
  }

  /** The cohort's entry is neither refreshed nor dropped after position `i`. */
  ghost predicate LeftAlone(log: seq<Obs>, i: nat, c: CohortId) {
    forall j :: i < j < |log| && log[j].cohort == c ==> !Touches(log[..j], log[j]) && !Drops(log[..j], log[j])
  }

  lemma LeftAloneBefore(log: seq<Obs>, i: nat, c: CohortId)
    requires i < |log| - 1 && LeftAlone(log, i, c)
    ensures LeftAlone(log[..|log| - 1], i, c)
    ensures log[|log| - 1].cohort == c ==>
              !Touches(log[..|log| - 1], log[|log| - 1]) && !Drops(log[..|log| - 1], log[|log| - 1])
  {
    var p := log[..|log| - 1];
    forall j | i < j < |p| ensures p[..j] == log[..j] && p[j] == log[j] {}
  }

  /**
   A cohort last seen live at `i`, and not dismissed since, has a live entry exactly until 24 others have one
   newer than its own.
   */
  lemma {:induction false} EntryIsHeldExactly(log: seq<Obs>, i: nat)
    requires i < |log| && Touches(log[..i], log[i]) && LeftAlone(log, i, log[i].cohort)
    ensures log[i].cohort in RunFold(log).entries.table <==> NewerSince(log, i).Some?
    ensures Holds(RunFold(log), log[i].cohort, NewerSince(log, i))
  {
    var n, c := |log| - 1, log[i].cohort;
    if n == i {
      MadeIsNewest(log[..n], log[n]);
    } else {
      LeftAloneBefore(log, i, c);
      assert log[..n][..i] == log[..i] && log[..n][i] == log[i];
      EntryIsHeldExactly(log[..n], i);
      HeldStep(log[..n], log[n], c, NewerSince(log[..n], i));
    }
  }

  /** A cohort the operator dismissed has neither a record nor an entry. */
  lemma DismissedLeavesNothing(log: seq<Obs>, c: CohortId)
    requires c in RunFold(log).ended.table
    ensures var f := RunFold(log + [Dismissed(c)]);
            c !in f.ended.table && c !in f.entries.table
  {
    assert (log + [Dismissed(c)])[..|log|] == log;
  }

  // ---- What an entry remembers ------------------------------------------------------------------

  /** The fold saw the cohort's co-sign while it had a live entry, and has kept that entry ever since. */
  ghost predicate SignedSince(log: seq<Obs>, c: CohortId) {
    && log != [] && c in RunFold(log).entries.table
    && ((log[|log| - 1].Signed? && log[|log| - 1].cohort == c) || SignedSince(log[..|log| - 1], c))
  }

  lemma MarkStep(f: Fold, o: Obs, c: CohortId)
    requires FoldInv(f)
    ensures EntryFor(FateFold.Step(f, o), c).signingComplete <==>
            && c in FateFold.Step(f, o).entries.table
            && ((o.Signed? && o.cohort == c) || EntryFor(f, c).signingComplete)
  {
    var x, e := o.cohort, EntryFor(f, o.cohort);
    match o
    case FellBack(_) => RememberValid(f.entries, x, e.(fellBack := true), MAX_MONITORED);
    case Activity(_) => RememberValid(f.entries, x, e, MAX_MONITORED);
    case CanceledByOperator(_) => RememberValid(f.entries, x, e, MAX_MONITORED);
    case _ =>
  }

  /** A live entry says its cohort is past signing exactly if its co-sign was seen since the entry was last made. */
  lemma {:induction false} MarkIsSeen(log: seq<Obs>, c: CohortId)
    ensures EntryFor(RunFold(log), c).signingComplete <==> SignedSince(log, c)
  {
    if log != [] {
      MarkIsSeen(log[..|log| - 1], c);
      ColumnsFollowTheTag(log[..|log| - 1]);
      MarkStep(RunFold(log[..|log| - 1]), log[|log| - 1], c);
    }
  }
}
