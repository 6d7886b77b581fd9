/**
 When the advertise stamp is lost: eviction from the bounded stamp table, told by the events alone, and
 the runs in which a cohort that could publish no longer can.
 */
module Eviction {
  import opened Cohorts
  import opened KillSwitch
  import opened OrderedMap

  // ---- What stands ------------------------------------------------------------------------------

  /** Whose stamp the event takes away after `p`; a failure does so only where it finds a retained watch. */
  ghost function Released(mode: Mode, p: seq<Event>, w: What): set<CohortId> {
    match w
    case SigningComplete(c) => {c}
    case Canceled(c) => {c}
    case CohortFailed(c) => if mode.Broadcasting? && c in RunFrom(mode, p).watches.table then {c} else {}
    case _ => {}
  }

  /**
   The advertise whose stamp of `c` stands after a run: it found none standing, and since then `c` was not
   released and no advertise was the 24th to stand beside it.
   */
  ghost function Standing(mode: Mode, h: seq<Event>, c: CohortId): (q: Option<nat>)
    ensures q.Some? ==> q.value < |h| && h[q.value].what == Advertised(c)
    decreases |h|, 0
  {
    if h == [] then None
    else
      var n := |h| - 1;
      var p, w := h[..n], h[n].what;
      match Standing(mode, p, c)
      case None => if w == Advertised(c) then Some(n) else None
      case Some(q) =>
        if c in Released(mode, p, w) then None
        else if w.Advertised? && Standing(mode, p, w.cohort).None?
                && |NewerStanding(mode, p, q) + {w.cohort}| >= MAX_PER_COHORT_ENTRIES then None
        else Some(q)
  }

  /** The cohorts whose stamp stands and was taken after position `q`. */
  ghost function NewerStanding(mode: Mode, h: seq<Event>, q: nat): set<CohortId>
    decreases |h|, 1
  {
    set i | q < i < |h| && h[i].what.Advertised? && Standing(mode, h, h[i].what.cohort) == Some(i) ::
      h[i].what.cohort
  }

  /** Away from a new stamp, stamps only go, and only by release. */
  lemma StandingStep(mode: Mode, h: seq<Event>, x: CohortId)
    requires h != []
    requires var w := h[|h| - 1].what; w.Advertised? ==> Standing(mode, h[..|h| - 1], w.cohort).Some?
    ensures Standing(mode, h, x) ==
            if x in Released(mode, h[..|h| - 1], h[|h| - 1].what) then None else Standing(mode, h[..|h| - 1], x)
  {
  }

  lemma NewerStep(mode: Mode, h: seq<Event>, q: nat)
    requires q < |h| - 1
    requires var w := h[|h| - 1].what; w.Advertised? ==> Standing(mode, h[..|h| - 1], w.cohort).Some?
    ensures NewerStanding(mode, h, q) ==
            NewerStanding(mode, h[..|h| - 1], q) - Released(mode, h[..|h| - 1], h[|h| - 1].what)
  {
    var p := h[..|h| - 1];
    forall x ensures x in NewerStanding(mode, h, q) <==>
                       x in NewerStanding(mode, p, q) - Released(mode, p, h[|h| - 1].what)
    {
      StandingStep(mode, h, x);
      InNewer(mode, h, q, x);
      InNewer(mode, p, q, x);
    }
  }

  lemma InNewer(mode: Mode, h: seq<Event>, q: nat, x: CohortId)
    ensures x in NewerStanding(mode, h, q) <==> Standing(mode, h, x).Some? && Standing(mode, h, x).value > q
  {
    if Standing(mode, h, x).Some? && Standing(mode, h, x).value > q {
      var i := Standing(mode, h, x).value;
      assert h[i].what.Advertised? && h[i].what.cohort == x;
    }
  }

  lemma NewerAreFewer(mode: Mode, h: seq<Event>, q: nat, i: nat, x: CohortId)
    requires q <= i
    ensures |NewerStanding(mode, h, i) + {x}| <= |NewerStanding(mode, h, q) + {x}|
  {
    SubsetSize(NewerStanding(mode, h, i) + {x}, NewerStanding(mode, h, q) + {x});
  }

  /** A stamp newer than one that keeps standing keeps standing too. */
  lemma NewerKeepsStanding(mode: Mode, h: seq<Event>, x: CohortId, y: CohortId, i: nat)
    requires h != [] && h[|h| - 1].what == Advertised(x)
    requires Standing(mode, h[..|h| - 1], y) == Some(i)
    requires |NewerStanding(mode, h[..|h| - 1], i) + {x}| < MAX_PER_COHORT_ENTRIES
    ensures Standing(mode, h, y) == Some(i)
  {
  }

  lemma OnlyTheAdvertisedIsNew(mode: Mode, h: seq<Event>, x: CohortId, y: CohortId)
    requires h != [] && h[|h| - 1].what == Advertised(x) && Standing(mode, h[..|h| - 1], x).None?
    ensures y == x ==> Standing(mode, h, y) == Some(|h| - 1)
    ensures y != x && Standing(mode, h, y).Some? ==> Standing(mode, h[..|h| - 1], y) == Standing(mode, h, y)
  {
  }

  lemma NewerAdvertiseStep(mode: Mode, h: seq<Event>, q: nat, x: CohortId)
    requires q < |h| - 1 && h[|h| - 1].what == Advertised(x) && Standing(mode, h[..|h| - 1], x).None?
    requires |NewerStanding(mode, h[..|h| - 1], q) + {x}| < MAX_PER_COHORT_ENTRIES
    ensures NewerStanding(mode, h, q) == NewerStanding(mode, h[..|h| - 1], q) + {x}
  {
    forall y ensures y in NewerStanding(mode, h, q) <==> y in NewerStanding(mode, h[..|h| - 1], q) + {x} {
      NewerAfterAdvertise(mode, h, q, x, y);
    }
  }

  lemma NewerAfterAdvertise(mode: Mode, h: seq<Event>, q: nat, x: CohortId, y: CohortId)
    requires q < |h| - 1 && h[|h| - 1].what == Advertised(x) && Standing(mode, h[..|h| - 1], x).None?
    requires |NewerStanding(mode, h[..|h| - 1], q) + {x}| < MAX_PER_COHORT_ENTRIES
    ensures y in NewerStanding(mode, h, q) <==> y in NewerStanding(mode, h[..|h| - 1], q) || y == x
  {
    InNewer(mode, h, q, y);
    InNewer(mode, h[..|h| - 1], q, y);
    OnlyTheAdvertisedIsNew(mode, h, x, y);
    if y != x && y in NewerStanding(mode, h[..|h| - 1], q) {
      var i := Standing(mode, h[..|h| - 1], y).value;
      NewerAreFewer(mode, h[..|h| - 1], q, i, x);
      NewerKeepsStanding(mode, h, x, y, i);
    }
  }

  // ---- The table holds what stands --------------------------------------------------------------

  lemma StampTableIsValid(mode: Mode, h: seq<Event>)
    ensures RunFrom(mode, h).advertisedAt.Valid()
    ensures |RunFrom(mode, h).advertisedAt.order| <= MAX_PER_COHORT_ENTRIES
  {
    StampTableIsItsOps(mode, h);
    RunValid(StampOps(mode, h), MAX_PER_COHORT_ENTRIES);
  }

  ghost predicate HoldsStanding(mode: Mode, h: seq<Event>, c: CohortId) {
    var m, q := RunFrom(mode, h).advertisedAt, Standing(mode, h, c);
    && (c in m.table <==> q.Some?)
    && (q.Some? ==> m.table[c] == h[q.value].at && After(m.order, c) == NewerStanding(mode, h, q.value))
  }

  lemma NewStampStep(mode: Mode, h: seq<Event>, x: CohortId, c: CohortId)
    requires h != [] && h[|h| - 1].what == Advertised(x) && x !in RunFrom(mode, h[..|h| - 1]).advertisedAt.table
    requires HoldsStanding(mode, h[..|h| - 1], x) && HoldsStanding(mode, h[..|h| - 1], c)
    ensures HoldsStanding(mode, h, c)
  {
    var p, e := h[..|h| - 1], h[|h| - 1];
    var m := RunFrom(mode, p).advertisedAt;
    StampTableIsValid(mode, p);
    OnlyTheAdvertisedIsNew(mode, h, x, c);
    if x == c {
      FreshStamp(RunFrom(mode, p), e, c);
      assert NewerStanding(mode, h, |p|) == {};
    } else {
      TouchOther(m, x, e.at, c, MAX_PER_COHORT_ENTRIES);
      TableBesideNew(mode, h, x, c);
    }
  }

  lemma TableBesideNew(mode: Mode, h: seq<Event>, x: CohortId, c: CohortId)
    requires h != [] && h[|h| - 1].what == Advertised(x) && x != c
    requires HoldsStanding(mode, h[..|h| - 1], c) && Standing(mode, h[..|h| - 1], x).None?
    requires var m, m' := RunFrom(mode, h[..|h| - 1]).advertisedAt, RunFrom(mode, h).advertisedAt;
             && m'.Get(c) == (if c in m.table && |After(m.order, c) + {x}| < MAX_PER_COHORT_ENTRIES
                              then m.Get(c) else None)
             && (c in m'.table ==> After(m'.order, c) == After(m.order, c) + {x})
    ensures HoldsStanding(mode, h, c)
  {
    var p, q := h[..|h| - 1], Standing(mode, h[..|h| - 1], c);
    if q.Some? && |NewerStanding(mode, p, q.value) + {x}| < MAX_PER_COHORT_ENTRIES {
      NewerAdvertiseStep(mode, h, q.value, x);
      NewerKeepsStanding(mode, h, x, c, q.value);
    }
  }

  /** Away from a new stamp the table only loses the stamps released. */
  lemma TableOnlyLoses(mode: Mode, h: seq<Event>)
    requires h != []
    requires var w := h[|h| - 1].what;
             w.Advertised? ==> w.cohort in RunFrom(mode, h[..|h| - 1]).advertisedAt.table
    ensures var m, w := RunFrom(mode, h[..|h| - 1]).advertisedAt, h[|h| - 1].what;
            && Released(mode, h[..|h| - 1], w) <= (if w.SwitchEngaged? then {} else {w.cohort})
            && RunFrom(mode, h).advertisedAt ==
               if Released(mode, h[..|h| - 1], w) == {} then m else m.Delete(w.cohort)
  {
    ModeIsFixed(mode, h[..|h| - 1]);
  }

  lemma DeleteFromOrder(m: OMap<CohortId, int>, gone: set<CohortId>, x: CohortId, c: CohortId)
    requires m.Valid() && gone <= {x} && c !in gone
    ensures var m' := if gone == {} then m else m.Delete(x);
            m'.Get(c) == m.Get(c) && After(m'.order, c) == After(m.order, c) - gone
  {
    if gone != {} {
      assert gone == {x};
      AfterWithout(m.order, x, c);
    }
  }

  lemma ReleaseOrNothingStep(mode: Mode, h: seq<Event>, c: CohortId)
    requires h != [] && HoldsStanding(mode, h[..|h| - 1], c)
    requires var w := h[|h| - 1].what; w.Advertised? ==>
               && w.cohort in RunFrom(mode, h[..|h| - 1]).advertisedAt.table
               && Standing(mode, h[..|h| - 1], w.cohort).Some?
    ensures HoldsStanding(mode, h, c)
  {
    var p, w := h[..|h| - 1], h[|h| - 1].what;
    StampTableIsValid(mode, p);
    StandingStep(mode, h, c);
    TableOnlyLoses(mode, h);
    if c !in Released(mode, p, w) {
      DeleteFromOrder(RunFrom(mode, p).advertisedAt, Released(mode, p, w), if w.SwitchEngaged? then c else w.cohort, c);
      if Standing(mode, h, c).Some? {
        NewerStep(mode, h, Standing(mode, h, c).value);
      }
    }
  }

  /** After every run whatever, the stamp table holds exactly the stamps that stand, in the order they were taken. */
  lemma {:induction false} TableIsWhatStands(mode: Mode, h: seq<Event>, c: CohortId)
    ensures HoldsStanding(mode, h, c)
  {
    if h != [] {
      var p, w := h[..|h| - 1], h[|h| - 1].what;
      TableIsWhatStands(mode, p, c);
      if w.Advertised? {
        TableIsWhatStands(mode, p, w.cohort);
      }
      if w.Advertised? && w.cohort !in RunFrom(mode, p).advertisedAt.table {
        NewStampStep(mode, h, w.cohort, c);
      } else {
        ReleaseOrNothingStep(mode, h, c);
      }
    }
  }

  /**
   So the verdict of a cohort does change after both its times are fixed. With the switch engaged it is
   live, after any run, exactly if its stamp stands and was taken before the engage time.
   */
  lemma VerdictByEvents(mode: Mode, h: seq<Event>, c: CohortId)
    requires ClockOrdered(h) && RunFrom(mode, h).engagedAt.Some?
    ensures UsesLivePath(RunFrom(mode, h), c) <==>
            && Standing(mode, h, c).Some?
            && h[Standing(mode, h, c).value].at < RunFrom(mode, h).engagedAt.value
  {
    TableIsWhatStands(mode, h, c);
    RunKeepsInv(mode, h, if h == [] then 0 else h[|h| - 1].at);
  }

  // ---- One advertise, newcomers after it --------------------------------------------------------

  /** Whoever is advertised after `q` was not advertised before it, and `c` at `q` only. */
  ghost predicate OnlyNewcomersAfter(h: seq<Event>, q: nat, c: CohortId) {
    && q < |h| && h[q].what == Advertised(c)
    && (forall i :: 0 <= i < |h| && i != q ==> h[i].what != Advertised(c))
    && forall i, j :: 0 <= i < q < j < |h| && h[i].what.Advertised? && h[j].what.Advertised? ==>
         h[i].what.cohort != h[j].what.cohort
  }

  ghost predicate NeverReleasedAfter(mode: Mode, h: seq<Event>, q: nat, c: CohortId) {
    forall i :: q < i < |h| ==> c !in Released(mode, h[..i], h[i].what)
  }

  /** The other cohorts advertised after position `q` and not released since. */
  ghost function Unsettled(mode: Mode, h: seq<Event>, q: nat, c: CohortId): set<CohortId> {
    if |h| <= q + 1 then {}
    else
      var p, w := h[..|h| - 1], h[|h| - 1].what;
      var before := Unsettled(mode, p, q, c);
      if w.Advertised? then (if w.cohort == c then before else before + {w.cohort})
      else before - Released(mode, p, w)
  }

  /** Fewer than 24 of them at every moment since. */
  ghost predicate NeverCrowded(mode: Mode, h: seq<Event>, q: nat, c: CohortId) {
    forall t :: q < t <= |h| ==> |Unsettled(mode, h[..t], q, c)| < MAX_PER_COHORT_ENTRIES
  }

  lemma PrefixOnlyNewcomers(mode: Mode, h: seq<Event>, q: nat, c: CohortId)
    requires OnlyNewcomersAfter(h, q, c) && NeverReleasedAfter(mode, h, q, c) && q < |h| - 1
    ensures OnlyNewcomersAfter(h[..|h| - 1], q, c) && NeverReleasedAfter(mode, h[..|h| - 1], q, c)
  {
    var n := |h| - 1;
    forall i | q < i < n ensures c !in Released(mode, h[..n][..i], h[..n][i].what) {
      assert h[..n][..i] == h[..i];
    }
  }

  ghost predicate AtEveryPrefix<T>(h: seq<T>, q: nat, ok: seq<T> -> bool) {
    forall t :: q < t <= |h| ==> ok(h[..t])
  }

  lemma AtEveryPrefixStep<T>(h: seq<T>, q: nat, ok: seq<T> -> bool)
    requires q < |h|
    ensures AtEveryPrefix(h, q, ok) <==> AtEveryPrefix(h[..|h| - 1], q, ok) && ok(h)
  {
    var n := |h| - 1;
    assert h[..|h|] == h;
    if AtEveryPrefix(h, q, ok) {
      forall t | q < t <= n ensures ok(h[..n][..t]) {
        assert h[..n][..t] == h[..t];
      }
    }
    if AtEveryPrefix(h[..n], q, ok) && ok(h) {
      forall t | q < t <= |h| ensures ok(h[..t]) {
        if t <= n { assert h[..n][..t] == h[..t]; }
      }
    }
  }

  lemma CrowdedStep(mode: Mode, h: seq<Event>, q: nat, c: CohortId)
    requires q < |h|
    ensures NeverCrowded(mode, h, q, c) <==>
            NeverCrowded(mode, h[..|h| - 1], q, c) && |Unsettled(mode, h, q, c)| < MAX_PER_COHORT_ENTRIES
  {
    var few := (s: seq<Event>) => |Unsettled(mode, s, q, c)| < MAX_PER_COHORT_ENTRIES;
    AtEveryPrefixStep(h, q, few);
    assert NeverCrowded(mode, h, q, c) == AtEveryPrefix(h, q, few);
    assert NeverCrowded(mode, h[..|h| - 1], q, c) == AtEveryPrefix(h[..|h| - 1], q, few);
  }

  ghost predicate UnsettledStand(mode: Mode, h: seq<Event>, q: nat, c: CohortId) {
    if NeverCrowded(mode, h, q, c)
    then Standing(mode, h, c) == Some(q) && NewerStanding(mode, h, q) == Unsettled(mode, h, q, c)
    else Standing(mode, h, c) == None
  }

  lemma FirstStands(mode: Mode, h: seq<Event>, q: nat, c: CohortId)
    requires OnlyNewcomersAfter(h, q, c) && q == |h| - 1
    ensures UnsettledStand(mode, h, q, c)
  {
    assert Standing(mode, h[..q], c) == None;
    assert NewerStanding(mode, h, q) == {};
    assert h[..|h|] == h;
  }

  /** A newcomer whose stamp stands took it after `q`, so it is counted already. */
  lemma StandingNewcomer(mode: Mode, h: seq<Event>, q: nat, c: CohortId, x: CohortId)
    requires OnlyNewcomersAfter(h, q, c) && q < |h| - 1 && h[|h| - 1].what == Advertised(x)
    requires Standing(mode, h[..|h| - 1], x).Some?
    ensures x in NewerStanding(mode, h[..|h| - 1], q)
  {
    var i := Standing(mode, h[..|h| - 1], x).value;
    assert h[..|h| - 1][i] == h[i];
    InNewer(mode, h[..|h| - 1], q, x);
  }

  lemma UnsettledStep(mode: Mode, h: seq<Event>, q: nat, c: CohortId)
    requires OnlyNewcomersAfter(h, q, c) && NeverReleasedAfter(mode, h, q, c) && q < |h| - 1
    requires UnsettledStand(mode, h[..|h| - 1], q, c)
    ensures UnsettledStand(mode, h, q, c)
  {
    var n := |h| - 1;
    CrowdedStep(mode, h, q, c);
    if NeverCrowded(mode, h[..n], q, c) {
      assert c !in Released(mode, h[..n], h[n].what);
      if h[n].what.Advertised? && Standing(mode, h[..n], h[n].what.cohort).None? {
        UnsettledNewStep(mode, h, q, c, h[n].what.cohort);
      } else {
        UnsettledOldStep(mode, h, q, c);
        StandingStep(mode, h, c);
        CrowdedNow(mode, h[..n], q, c);
        SubsetSize(Unsettled(mode, h, q, c), Unsettled(mode, h[..n], q, c));
      }
    }
  }

  lemma CrowdedNow(mode: Mode, h: seq<Event>, q: nat, c: CohortId)
    requires NeverCrowded(mode, h, q, c) && q < |h|
    ensures |Unsettled(mode, h, q, c)| < MAX_PER_COHORT_ENTRIES
  {
    assert h[..|h|] == h;
  }

  lemma UnsettledNewStep(mode: Mode, h: seq<Event>, q: nat, c: CohortId, x: CohortId)
    requires OnlyNewcomersAfter(h, q, c) && q < |h| - 1 && h[|h| - 1].what == Advertised(x)
    requires Standing(mode, h[..|h| - 1], x).None? && Standing(mode, h[..|h| - 1], c) == Some(q)
    requires NewerStanding(mode, h[..|h| - 1], q) == Unsettled(mode, h[..|h| - 1], q, c)
    ensures if |Unsettled(mode, h, q, c)| < MAX_PER_COHORT_ENTRIES
            then Standing(mode, h, c) == Some(q) && NewerStanding(mode, h, q) == Unsettled(mode, h, q, c)
            else Standing(mode, h, c) == None
  {
    assert Unsettled(mode, h, q, c) == NewerStanding(mode, h[..|h| - 1], q) + {x};
    if |Unsettled(mode, h, q, c)| < MAX_PER_COHORT_ENTRIES {
      NewerAdvertiseStep(mode, h, q, x);
    }
  }

  lemma UnsettledOldStep(mode: Mode, h: seq<Event>, q: nat, c: CohortId)
    requires OnlyNewcomersAfter(h, q, c) && q < |h| - 1
    requires var w := h[|h| - 1].what; w.Advertised? ==> Standing(mode, h[..|h| - 1], w.cohort).Some?
    requires NewerStanding(mode, h[..|h| - 1], q) == Unsettled(mode, h[..|h| - 1], q, c)
    ensures NewerStanding(mode, h, q) == Unsettled(mode, h, q, c)
    ensures Unsettled(mode, h, q, c) <= Unsettled(mode, h[..|h| - 1], q, c)
  {
    NewerStep(mode, h, q);
    if h[|h| - 1].what.Advertised? {
      StandingNewcomer(mode, h, q, c, h[|h| - 1].what.cohort);
    }
  }

  lemma {:induction false} UnsettledAreWhoStands(mode: Mode, h: seq<Event>, q: nat, c: CohortId)
    requires OnlyNewcomersAfter(h, q, c) && NeverReleasedAfter(mode, h, q, c)
    ensures UnsettledStand(mode, h, q, c)
  {
    if q == |h| - 1 {
      FirstStands(mode, h, q, c);
    } else {
      PrefixOnlyNewcomers(mode, h, q, c);
      UnsettledAreWhoStands(mode, h[..|h| - 1], q, c);
      UnsettledStep(mode, h, q, c);
    }
  }

  /**
   Whoever else completes, fails or is canceled meanwhile: the stamp of a cohort advertised once is held
   exactly if at no moment since were 24 cohorts advertised after it and not yet released.
   */
  lemma EvictionExactly(mode: Mode, h: seq<Event>, q: nat, c: CohortId)
    requires OnlyNewcomersAfter(h, q, c) && NeverReleasedAfter(mode, h, q, c)
    ensures c in RunFrom(mode, h).advertisedAt.table <==> NeverCrowded(mode, h, q, c)
    ensures c in RunFrom(mode, h).advertisedAt.table ==>
              && RunFrom(mode, h).advertisedAt.table[c] == h[q].at
              && After(RunFrom(mode, h).advertisedAt.order, c) == Unsettled(mode, h, q, c)
  {
    UnsettledAreWhoStands(mode, h, q, c);
    TableIsWhatStands(mode, h, c);
  }

  // ---- While nothing settles --------------------------------------------------------------------

  predicate Settles(w: What) {
    w.SigningComplete? || w.CohortFailed? || w.Canceled?
  }

  ghost predicate NothingSettlesAfter(h: seq<Event>, q: nat) {
    forall i :: q < i < |h| ==> !Settles(h[i].what)
  }

  lemma OthersStep(h: seq<Event>, q: nat, c: CohortId)
    requires q < |h| - 1
    ensures var w := h[|h| - 1].what;
            OthersAdvertised(h, q, c) == OthersAdvertised(h[..|h| - 1], q, c) +
                                         if w.Advertised? && w.cohort != c then {w.cohort} else {}
  {
    OthersGrow(h, q, c);
    var p := h[..|h| - 1];
    forall x | x in OthersAdvertised(h, q, c) && !(h[|h| - 1].what == Advertised(x))
      ensures x in OthersAdvertised(p, q, c)
    {
      var i :| q < i < |h| && h[i].what.Advertised? && h[i].what.cohort != c && h[i].what.cohort == x;
      assert p[i] == h[i];
    }
  }

  lemma {:induction false} NobodySettled(mode: Mode, h: seq<Event>, q: nat, c: CohortId)
    requires q < |h| && NothingSettlesAfter(h, q)
    ensures Unsettled(mode, h, q, c) == OthersAdvertised(h, q, c)
  {
    if q < |h| - 1 {
      NobodySettled(mode, h[..|h| - 1], q, c);
      OthersStep(h, q, c);
    } else {
      assert OthersAdvertised(h, q, c) == {};
    }
  }

  /** The count of newcomers only grows, so its last value decides. */
  lemma {:induction false} CrowdedByTheEnd(mode: Mode, h: seq<Event>, q: nat, c: CohortId)
    requires q < |h| && NothingSettlesAfter(h, q)
    ensures NeverCrowded(mode, h, q, c) <==> |OthersAdvertised(h, q, c)| < MAX_PER_COHORT_ENTRIES
  {
    CrowdedStep(mode, h, q, c);
    NobodySettled(mode, h, q, c);
    if q < |h| - 1 {
      CrowdedByTheEnd(mode, h[..|h| - 1], q, c);
      OthersGrow(h, q, c);
    }
  }

  /** Then the count of newcomers decides, whether they came before or after the switch. */
  lemma NewcomersDecide(mode: Mode, h: seq<Event>, q: nat, c: CohortId)
    requires OnlyNewcomersAfter(h, q, c) && NothingSettlesAfter(h, q)
    ensures c in RunFrom(mode, h).advertisedAt.table <==> |OthersAdvertised(h, q, c)| < MAX_PER_COHORT_ENTRIES
    ensures ClockOrdered(h) && RunFrom(mode, h).engagedAt.Some? ==>
              (UsesLivePath(RunFrom(mode, h), c) <==>
               && h[q].at < RunFrom(mode, h).engagedAt.value
               && |OthersAdvertised(h, q, c)| < MAX_PER_COHORT_ENTRIES)
  {
    CrowdedByTheEnd(mode, h, q, c);
    EvictionExactly(mode, h, q, c);
    if ClockOrdered(h) {
      RunKeepsInv(mode, h, h[|h| - 1].at);
    }
  }

  // ---- The runs ---------------------------------------------------------------------------------

  /** A name of its own length for each newcomer, none of them the cohort's. */
  ghost function Newcomer(c: CohortId, i: nat): (x: CohortId)
    ensures |x| == |c| + i + 1
  {
    c + seq(i + 1, _ => 'x')
  }

  /** The cohort is advertised, `n` newcomers after it, and then the switch engages. */
  ghost function Crowded(c: CohortId, n: nat): seq<Event> {
    Advertises(c, n) + [Event(1, SwitchEngaged)]
  }

  ghost function Advertises(c: CohortId, n: nat): (h: seq<Event>)
    ensures |h| == n + 1 && h[0] == Event(0, Advertised(c))
    ensures forall i :: 0 < i <= n ==> h[i] == Event(0, Advertised(Newcomer(c, i - 1)))
  {
    if n == 0 then [Event(0, Advertised(c))]
    else Advertises(c, n - 1) + [Event(0, Advertised(Newcomer(c, n - 1)))]
  }

  lemma OneNewcomerMore(c: CohortId, n: nat)
    requires n > 0
    ensures OthersAdvertised(Advertises(c, n), 0, c) ==
            OthersAdvertised(Advertises(c, n - 1), 0, c) + {Newcomer(c, n - 1)}
  {
    OthersStep(Advertises(c, n), 0, c);
    assert Advertises(c, n)[..n] == Advertises(c, n - 1);
  }

  lemma NewcomerIsNew(c: CohortId, n: nat)
    requires n > 0
    ensures Newcomer(c, n - 1) !in OthersAdvertised(Advertises(c, n - 1), 0, c)
  {
  }

  lemma {:induction false} NewcomersCounted(c: CohortId, n: nat)
    ensures |OthersAdvertised(Advertises(c, n), 0, c)| == n
  {
    if n == 0 {
      assert OthersAdvertised(Advertises(c, 0), 0, c) == {};
    } else {
      NewcomersCounted(c, n - 1);
      OneNewcomerMore(c, n);
      NewcomerIsNew(c, n);
    }
  }

  lemma CrowdedIsInOrder(c: CohortId, n: nat)
    ensures ClockOrdered(Crowded(c, n)) && NothingSettlesAfter(Crowded(c, n), 0)
  {
  }

  lemma CrowdedByNewcomers(c: CohortId, n: nat)
    ensures OnlyNewcomersAfter(Crowded(c, n), 0, c)
  {
    var h := Crowded(c, n);
    forall i | 0 < i < |h| ensures h[i].what != Advertised(c) {
      if i <= n { assert h[i].what == Advertised(Newcomer(c, i - 1)); }
    }
  }

  lemma CrowdedCounted(c: CohortId, n: nat)
    ensures |OthersAdvertised(Crowded(c, n), 0, c)| == n
  {
    var h := Crowded(c, n);
    NewcomersCounted(c, n);
    OthersStep(h, 0, c);
    assert h[..|h| - 1] == Advertises(c, n);
    assert OthersAdvertised(h, 0, c) == OthersAdvertised(Advertises(c, n), 0, c);
  }

  lemma {:induction false} SwitchStaysOff(mode: Mode, h: seq<Event>)
    requires forall i :: 0 <= i < |h| ==> !h[i].what.SwitchEngaged?
    ensures !RunFrom(mode, h).disabled
  {
    if h != [] {
      SwitchStaysOff(mode, h[..|h| - 1]);
    }
  }

  /** Advertised before the switch, the cohort is live after 23 newcomers and refused after 24. */
  lemma TheTwentyFourthNewcomerDecides(mode: Mode, c: CohortId, n: nat)
    ensures RunFrom(mode, Crowded(c, n)).engagedAt == Some(1)
    ensures UsesLivePath(RunFrom(mode, Crowded(c, n)), c) <==> n < 24
  {
    var h := Crowded(c, n);
    CrowdedIsInOrder(c, n);
    CrowdedByNewcomers(c, n);
    CrowdedCounted(c, n);
    assert h[..|h| - 1] == Advertises(c, n);
    SwitchStaysOff(mode, Advertises(c, n));
    RunKeepsInv(mode, h, 1);
    NewcomersDecide(mode, h, 0, c);
  }

  /** In one step a failure takes the stamp, and its place in the table, only from a cohort with a retained watch. */
  lemma FailureReleasesOnlyTheWatched(t: Tables, at: int, c: CohortId)
    requires t.advertisedAt.Valid() && c in t.advertisedAt.table
    ensures c in Step(t, Event(at, CohortFailed(c))).advertisedAt.table <==>
            !(t.mode.Broadcasting? && c in t.watches.table)
    ensures c in Step(t, Event(at, CohortFailed(c))).advertisedAt.table ==>
              Step(t, Event(at, CohortFailed(c))) == t
  {
  }

  /** So a cohort that fails before its keys are agreed is stamped still, on every kind of service. */
  lemma FailedCohortKeepsItsStamp(mode: Mode, c: CohortId)
    ensures RunFrom(mode, [Event(0, Advertised(c)), Event(1, CohortFailed(c))]).advertisedAt.Get(c) == Some(0)
  {
    var h := [Event(0, Advertised(c)), Event(1, CohortFailed(c))];
    var first := h[..1];
    assert first[..0] == [] && RunFrom(mode, first) == Step(Boot(mode), h[0]);
    StampTableIsValid(mode, first);
    FreshStamp(Boot(mode), h[0], c);
    FailureReleasesOnlyTheWatched(RunFrom(mode, first), 1, c);
  }
}
