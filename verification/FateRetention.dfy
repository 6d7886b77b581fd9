/**
 Which fates the monitor still remembers, told by the observations alone: the exact counterpart of the
 bounded table of ended cohorts, dismissals and repeated cancels included.
 */
module FateRetention {
  import opened AnchorState
  import opened Broadcast
  import opened Cohorts
  import opened FateFold
  import opened OrderedMap

  // ---- What stands ------------------------------------------------------------------------------

  /**
   The observation whose record of `c` stands: the last that filed one, if `c` was not dismissed since and no
   later filing was the 24th to stand beside it.
   */
  ghost function Standing(log: seq<Obs>, c: CohortId): (q: Option<nat>)
    ensures q.Some? ==> q.value < |log| && log[q.value].cohort == c && FateGiven(log[q.value]).Some?
    decreases |log|, 0
  {
    if log == [] then None
    else
      var n := |log| - 1;
      var p, o := log[..n], log[n];
      var before := Standing(p, c);
      if o.cohort == c then
        if Files(p, o) then Some(n) else if o.Dismissed? then None else before
      else if before.Some? && Files(p, o) && |NewerStanding(p, before.value) + {o.cohort}| >= MAX_TERMINAL then None
      else before
  }

  /** Every fate is filed, except the cancel of a cohort that stands canceled. */
  ghost predicate Files(p: seq<Obs>, o: Obs)
    decreases |p|, 2
  {
    FateGiven(o).Some? && !(o.CanceledByOperator? && StandsCanceled(p, o.cohort))
  }

  ghost predicate StandsCanceled(log: seq<Obs>, c: CohortId)
    decreases |log|, 1
  {
    Standing(log, c).Some? && log[Standing(log, c).value].CanceledByOperator?
  }

  /** The cohorts whose record stands and was filed after position `q`. */
  ghost function NewerStanding(log: seq<Obs>, q: nat): set<CohortId>
    decreases |log|, 1
  {
    set i | q < i < |log| && Standing(log, log[i].cohort) == Some(i) :: log[i].cohort
  }

  lemma InNewer(log: seq<Obs>, q: nat, x: CohortId)
    ensures x in NewerStanding(log, q) <==> Standing(log, x).Some? && Standing(log, x).value > q
  {
    if Standing(log, x).Some? && Standing(log, x).value > q {
      var i := Standing(log, x).value;
      assert log[i].cohort == x;
    }
  }

  lemma NewerAreFewer(log: seq<Obs>, q: nat, i: nat, x: CohortId)
    requires q <= i
    ensures |NewerStanding(log, i) + {x}| <= |NewerStanding(log, q) + {x}|
  {
    SubsetSize(NewerStanding(log, i) + {x}, NewerStanding(log, q) + {x});
  }

  /** A filing with room beside it leaves another cohort's record standing. */
  lemma KeepsStanding(log: seq<Obs>, y: CohortId, i: nat)
    requires log != [] && log[|log| - 1].cohort != y && Standing(log[..|log| - 1], y) == Some(i)
    requires |NewerStanding(log[..|log| - 1], i) + {log[|log| - 1].cohort}| < MAX_TERMINAL
    ensures Standing(log, y) == Some(i)
  {
  }

  lemma OnlyTheFiledIsNew(log: seq<Obs>, y: CohortId)
    requires log != [] && Files(log[..|log| - 1], log[|log| - 1])
    ensures y == log[|log| - 1].cohort ==> Standing(log, y) == Some(|log| - 1)
    ensures y != log[|log| - 1].cohort && Standing(log, y).Some? ==> Standing(log[..|log| - 1], y) == Standing(log, y)
  {
  }

  lemma NewerAfterFiling(log: seq<Obs>, q: nat, y: CohortId)
    requires q < |log| - 1 && Files(log[..|log| - 1], log[|log| - 1])
    requires |NewerStanding(log[..|log| - 1], q) + {log[|log| - 1].cohort}| < MAX_TERMINAL
    ensures y in NewerStanding(log, q) <==> y in NewerStanding(log[..|log| - 1], q) || y == log[|log| - 1].cohort
  {
    var p, x := log[..|log| - 1], log[|log| - 1].cohort;
    InNewer(log, q, y);
    InNewer(p, q, y);
    OnlyTheFiledIsNew(log, y);
    if y != x && y in NewerStanding(p, q) {
      var i := Standing(p, y).value;
      NewerAreFewer(p, q, i, x);
      KeepsStanding(log, y, i);
    }
  }

  lemma NewerFilingStep(log: seq<Obs>, q: nat)
    requires q < |log| - 1 && Files(log[..|log| - 1], log[|log| - 1])
    requires |NewerStanding(log[..|log| - 1], q) + {log[|log| - 1].cohort}| < MAX_TERMINAL
    ensures NewerStanding(log, q) == NewerStanding(log[..|log| - 1], q) + {log[|log| - 1].cohort}
  {
    forall y ensures y in NewerStanding(log, q) <==> y in NewerStanding(log[..|log| - 1], q) + {log[|log| - 1].cohort} {
      NewerAfterFiling(log, q, y);
    }
  }

  /** Away from a filing, records only go, and only by dismissal. */
  lemma StandingStep(log: seq<Obs>, y: CohortId)
    requires log != [] && !Files(log[..|log| - 1], log[|log| - 1])
    ensures Standing(log, y) == if log[|log| - 1] == Dismissed(y) then None else Standing(log[..|log| - 1], y)
  {
  }

  lemma NewerStep(log: seq<Obs>, q: nat)
    requires q < |log| - 1 && !Files(log[..|log| - 1], log[|log| - 1])
    ensures NewerStanding(log, q) == NewerStanding(log[..|log| - 1], q) -
                             if log[|log| - 1].Dismissed? then {log[|log| - 1].cohort} else {}
  {
    var p, o := log[..|log| - 1], log[|log| - 1];
    forall y ensures y in NewerStanding(log, q) <==> y in NewerStanding(p, q) && o != Dismissed(y) {
      StandingStep(log, y);
      InNewer(log, q, y);
      InNewer(p, q, y);
    }
  }

  // ---- The table holds what stands --------------------------------------------------------------

  ghost predicate HoldsStanding(log: seq<Obs>, c: CohortId) {
    var m, q := RunFold(log).ended, Standing(log, c);
    && (c in m.table <==> q.Some?)
    && (q.Some? ==> && FateGiven(log[q.value]) == Some(FateOf(m.table[c].chip))
                    && After(m.order, c) == NewerStanding(log, q.value))
  }

  lemma CanceledAsStanding(log: seq<Obs>, c: CohortId)
    requires HoldsStanding(log, c)
    ensures IsCanceled(RunFold(log), c) <==> StandsCanceled(log, c)
  {
  }

  lemma OwnFilingStep(log: seq<Obs>)
    requires log != [] && Files(log[..|log| - 1], log[|log| - 1])
    requires Filed(RunFold(log[..|log| - 1]), log[|log| - 1]).Some?
    ensures HoldsStanding(log, log[|log| - 1].cohort)
  {
    var n := |log| - 1;
    ColumnsFollowTheTag(log[..n]);
    FilingTakesTheNewestPlace(RunFold(log[..n]), log[n]);
    FateStep(RunFold(log[..n]), log[n], log[n].cohort);
    OnlyTheFiledIsNew(log, log[n].cohort);
    assert NewerStanding(log, n) == {};
  }

  lemma OtherFilingStep(log: seq<Obs>, c: CohortId)
    requires log != [] && log[|log| - 1].cohort != c && Files(log[..|log| - 1], log[|log| - 1])
    requires HoldsStanding(log[..|log| - 1], c)
    requires var m, m', x := RunFold(log[..|log| - 1]).ended, RunFold(log).ended, log[|log| - 1].cohort;
             && m'.Get(c) == (if c in m.table && |After(m.order, c) + {x}| < MAX_TERMINAL then m.Get(c) else None)
             && (c in m'.table ==> After(m'.order, c) == After(m.order, c) + {x})
    ensures HoldsStanding(log, c)
  {
    var p, q := log[..|log| - 1], Standing(log[..|log| - 1], c);
    OnlyTheFiledIsNew(log, c);
    if q.Some? && |NewerStanding(p, q.value) + {log[|log| - 1].cohort}| < MAX_TERMINAL {
      NewerFilingStep(log, q.value);
      KeepsStanding(log, c, q.value);
    }
  }

  lemma FilingStep(log: seq<Obs>, c: CohortId)
    requires log != [] && Files(log[..|log| - 1], log[|log| - 1])
    requires Filed(RunFold(log[..|log| - 1]), log[|log| - 1]).Some? && HoldsStanding(log[..|log| - 1], c)
    ensures HoldsStanding(log, c)
  {
    var n := |log| - 1;
    var f := RunFold(log[..n]);
    if log[n].cohort == c {
      OwnFilingStep(log);
    } else {
      ColumnsFollowTheTag(log[..n]);
      TouchOther(f.ended, log[n].cohort, Filed(f, log[n]).value, c, MAX_TERMINAL);
      OtherFilingStep(log, c);
    }
  }

  lemma NoFilingStep(log: seq<Obs>, c: CohortId)
    requires log != [] && !Files(log[..|log| - 1], log[|log| - 1])
    requires Filed(RunFold(log[..|log| - 1]), log[|log| - 1]).None? && HoldsStanding(log[..|log| - 1], c)
    ensures HoldsStanding(log, c)
  {
    var p, o := log[..|log| - 1], log[|log| - 1];
    var m := RunFold(p).ended;
    StandingStep(log, c);
    if Standing(log, c).Some? {
      NewerStep(log, Standing(log, c).value);
      ColumnsFollowTheTag(p);
      if o.Dismissed? {
        AfterWithout(m.order, o.cohort, c);
        assert o.cohort !in m.table ==> o.cohort !in After(m.order, c) by { AfterInOrder(m.order, c); }
      }
    }
  }

  lemma {:induction false} AfterInOrder(s: seq<CohortId>, c: CohortId)
    ensures forall x :: x in After(s, c) ==> x in s
  {
    if s != [] {
      AfterInOrder(s[1..], c);
    }
  }

  /** After every log whatever, the table of ended cohorts holds exactly the records that stand, oldest first. */
  lemma {:induction false} RecordsAreWhatStands(log: seq<Obs>, c: CohortId)
    ensures HoldsStanding(log, c)
  {
    if log != [] {
      var p, o := log[..|log| - 1], log[|log| - 1];
      RecordsAreWhatStands(p, c);
      RecordsAreWhatStands(p, o.cohort);
      CanceledAsStanding(p, o.cohort);
      if Files(p, o) {
        FilingStep(log, c);
      } else {
        NoFilingStep(log, c);
      }
    }
  }

  /** So the operator reads a cohort as canceled exactly while a cancel is the record of it that stands. */
  lemma CanceledExactly(log: seq<Obs>, c: CohortId)
    ensures IsCanceled(RunFold(log), c) <==> StandsCanceled(log, c)
  {
    RecordsAreWhatStands(log, c);
    CanceledAsStanding(log, c);
  }
}
