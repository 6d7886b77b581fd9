/**
 Which schedules of acceptance requests lose a hash the service still answers for: a condition on the
 order of the puts, remembers and deletes alone, with no condition on what is submitted.
 */
module AcceptanceSchedules {
  import opened OrderedMap
  import opened Acceptance
  import opened AcceptanceRaces

  // ---- Requests, by the order of their acts -----------------------------------------------------

  /** What a request has put and no remember of it has followed. */
  ghost function PutBehind(acts: seq<Act>, id: RequestId): Option<(DedupKey, Hash)> {
    if acts == [] then None
    else
      var p, a := acts[..|acts| - 1], acts[|acts| - 1];
      if a.id != id then PutBehind(p, id)
      else
        match a
        case Put(_, key, hash) => if Enabled(RunRequests(p), a) then Some((key, hash)) else PutBehind(p, id)
        case Remember(_) => None
        case _ => PutBehind(p, id)
  }

  /** The put the act at `r` remembers, if it remembers one. */
  ghost function Recalls(acts: seq<Act>, r: nat): Option<(DedupKey, Hash)>
    requires r < |acts|
  {
    if acts[r].Remember? then PutBehind(acts[..r], acts[r].id) else None
  }

  /** The last remember of a key, what it remembered, and the other keys remembered since. */
  datatype Standing = Standing(at: nat, hash: Hash, newer: set<DedupKey>)

  /** A remembered put stands until its key is remembered again or 200 other keys have come after it. */
  ghost function Stands(acts: seq<Act>, key: DedupKey): Option<Standing> {
    if acts == [] then None
    else
      var n := |acts| - 1;
      var before := Stands(acts[..n], key);
      match Recalls(acts, n)
      case None => before
      case Some((k, hash)) =>
        if k == key then Some(Standing(n, hash, {}))
        else if before.Some? && |before.value.newer + {k}| < 200
        then Some(before.value.(newer := before.value.newer + {k}))
        else None
  }

  ghost predicate StandsWith(acts: seq<Act>, key: DedupKey, h: Hash) {
    Stands(acts, key).Some? && Stands(acts, key).value.hash == h
  }

  /** The hash is one that some request has put and that nothing has displaced since. */
  ghost predicate StillClaimed(acts: seq<Act>, h: Hash) {
    || (exists id :: WaitsWith(acts, id, h))
    || (exists key :: StandsWith(acts, key, h))
  }

  ghost predicate WaitsWith(acts: seq<Act>, id: RequestId, h: Hash) {
    PutBehind(acts, id).Some? && PutBehind(acts, id).value.1 == h
  }

  /** The remember at `r` displaces a hash other than its own: a put of it stood before and no more after. */
  ghost predicate Displaces(acts: seq<Act>, r: nat, h: Hash)
    requires r < |acts|
  {
    && Recalls(acts, r).Some? && Recalls(acts, r).value.1 != h
    && exists key :: StandsWith(acts[..r], key, h) && !StandsWith(acts[..r + 1], key, h)
  }

  /** The last remember of a request that none of its deletions has followed. */
  ghost function Undeleted(acts: seq<Act>, id: RequestId): (r: Option<nat>)
    ensures r.Some? ==> r.value < |acts|
  {
    if acts == [] then None
    else
      var p, a := acts[..|acts| - 1], acts[|acts| - 1];
      if a.id != id then Undeleted(p, id)
      else if a.Delete? || a.DeleteFails? then None
      else if Recalls(acts, |acts| - 1).Some? then Some(|acts| - 1)
      else Undeleted(p, id)
  }

  /** The act at `d` deletes from the store the hash that its request's remember displaced. */
  ghost predicate Removes(acts: seq<Act>, d: nat, h: Hash)
    requires d < |acts|
  {
    && acts[d].Delete? && Undeleted(acts[..d], acts[d].id).Some?
    && Displaces(acts[..d], Undeleted(acts[..d], acts[d].id).value, h)
  }

  // ---- The state tells the same -----------------------------------------------------------------

  lemma {:induction false} LedgerStaysValid(acts: seq<Act>)
    ensures RunRequests(acts).ledger.Valid() && |RunRequests(acts).ledger.order| <= 200
  {
    if acts != [] {
      var s, a := RunRequests(acts[..|acts| - 1]), acts[|acts| - 1];
      LedgerStaysValid(acts[..|acts| - 1]);
      if a.Remember? && Enabled(s, a) {
        RememberOnLedger(s.ledger, s.flight[a.id].key, s.flight[a.id].hash);
      }
    }
  }

  ghost predicate Waiting(s: Service, id: RequestId, put: Option<(DedupKey, Hash)>) {
    if id in s.flight && s.flight[id].Stored? then put == Some((s.flight[id].key, s.flight[id].hash))
    else put == None
  }

  lemma {:induction false} WaitingIsPut(acts: seq<Act>, id: RequestId)
    ensures Waiting(RunRequests(acts), id, PutBehind(acts, id))
  {
    if acts != [] {
      WaitingIsPut(acts[..|acts| - 1], id);
    }
  }

  ghost predicate Retaining(m: Ledger, key: DedupKey, standing: Option<Standing>) {
    && (key in m.table <==> standing.Some?)
    && (standing.Some? ==> m.table[key] == standing.value.hash && After(m.order, key) == standing.value.newer)
  }

  lemma RememberedStands(m: Ledger, k: DedupKey, hash: Hash, key: DedupKey, n: nat, before: Option<Standing>)
    requires m.Valid() && |m.order| <= MAX_ACCEPTANCES && Retaining(m, key, before)
    ensures Retaining(m.Remember(k, hash, MAX_ACCEPTANCES), key,
                      if k == key then Some(Standing(n, hash, {}))
                      else if before.Some? && |before.value.newer + {k}| < MAX_ACCEPTANCES
                      then Some(before.value.(newer := before.value.newer + {k})) else None)
  {
    var m' := m.Remember(k, hash, MAX_ACCEPTANCES);
    if k == key {
      TouchSame(m, key, hash, MAX_ACCEPTANCES);
      RememberValid(m, k, hash, MAX_ACCEPTANCES);
    } else {
      TouchOther(m, k, hash, key, MAX_ACCEPTANCES);
      assert key in m'.table <==> m'.Get(key).Some?;
    }
  }

  lemma {:induction false} LedgerIsWhatStands(acts: seq<Act>, key: DedupKey)
    ensures Retaining(RunRequests(acts).ledger, key, Stands(acts, key))
  {
    if acts != [] {
      var n := |acts| - 1;
      var s, a := RunRequests(acts[..n]), acts[n];
      LedgerIsWhatStands(acts[..n], key);
      WaitingIsPut(acts[..n], a.id);
      LedgerStaysValid(acts[..n]);
      if Recalls(acts, n).Some? {
        var put := Recalls(acts, n).value;
        RememberedStands(s.ledger, put.0, put.1, key, n, Stands(acts[..n], key));
      }
    }
  }

  lemma RetainsIsStands(acts: seq<Act>, h: Hash)
    ensures Retains(RunRequests(acts), h) <==> exists key :: StandsWith(acts, key, h)
  {
    var table := RunRequests(acts).ledger.table;
    if key :| key in table && table[key] == h {
      LedgerIsWhatStands(acts, key);
      assert StandsWith(acts, key, h);
    }
    if key :| StandsWith(acts, key, h) {
      LedgerIsWhatStands(acts, key);
      assert key in table && table[key] == h;
    }
  }

  lemma ClaimedIsStillClaimed(acts: seq<Act>, h: Hash)
    ensures Claimed(RunRequests(acts), h) <==> StillClaimed(acts, h)
  {
    var s := RunRequests(acts);
    RetainsIsStands(acts, h);
    if id: RequestId :| Pending(s, id, h) {
      WaitingIsPut(acts, id);
      assert WaitsWith(acts, id, h);
    }
    if id: RequestId :| WaitsWith(acts, id, h) {
      WaitingIsPut(acts, id);
      assert Pending(s, id, h);
    }
  }

  // ---- What a delete removes --------------------------------------------------------------------

  /** A table entry that a remember takes away or overwrites, in terms of the tables before and after. */
  ghost predicate Loses(m: Ledger, m': Ledger, h: Hash) {
    exists key :: m.Get(key) == Some(h) && m'.Get(key) != Some(h)
  }

  lemma DropIsLoss(m: Ledger, key: DedupKey, hash: Hash, h: Hash)
    requires m.Valid() && |m.order| <= MAX_ACCEPTANCES
    ensures |NotOwn(Dropped(m, key, hash), hash)| <= 1
    ensures h in NotOwn(Dropped(m, key, hash), hash) <==>
            h != hash && Loses(m, m.Remember(key, hash, MAX_ACCEPTANCES), h)
  {
    var m' := m.Remember(key, hash, MAX_ACCEPTANCES);
    RememberOnLedger(m, key, hash);
    NotOwnShape(Dropped(m, key, hash), hash);
    if h in NotOwn(Dropped(m, key, hash), hash) {
      var k := if key in m.table then key else m.order[0];
      assert m.Get(k) == Some(h) && m'.Get(k) != Some(h);
    }
    if h != hash && Loses(m, m', h) {
      var k :| m.Get(k) == Some(h) && m'.Get(k) != Some(h);
      assert k == key || (key !in m.table && |m.order| == MAX_ACCEPTANCES && k == m.order[0]);
    }
  }

  lemma GetIsStandsWith(acts: seq<Act>, key: DedupKey, h: Hash)
    ensures RunRequests(acts).ledger.Get(key) == Some(h) <==> StandsWith(acts, key, h)
  {
    LedgerIsWhatStands(acts, key);
  }

  lemma LossIsDisplacement(acts: seq<Act>, r: nat, h: Hash)
    requires r < |acts| && Recalls(acts, r).Some?
    ensures Displaces(acts, r, h) <==>
            && Recalls(acts, r).value.1 != h
            && Loses(RunRequests(acts[..r]).ledger, RunRequests(acts[..r + 1]).ledger, h)
  {
    var m, m' := RunRequests(acts[..r]).ledger, RunRequests(acts[..r + 1]).ledger;
    if key :| StandsWith(acts[..r], key, h) && !StandsWith(acts[..r + 1], key, h) {
      GetIsStandsWith(acts[..r], key, h);
      GetIsStandsWith(acts[..r + 1], key, h);
      assert m.Get(key) == Some(h) && m'.Get(key) != Some(h);
    }
    if key :| m.Get(key) == Some(h) && m'.Get(key) != Some(h) {
      GetIsStandsWith(acts[..r], key, h);
      GetIsStandsWith(acts[..r + 1], key, h);
      assert StandsWith(acts[..r], key, h) && !StandsWith(acts[..r + 1], key, h);
    }
  }

  lemma DisplacesInPrefix(acts: seq<Act>, n: nat, r: nat, h: Hash)
    requires r < n <= |acts|
    ensures Displaces(acts[..n], r, h) <==> Displaces(acts, r, h)
  {
    assert acts[..n][..r] == acts[..r] && acts[..n][..r + 1] == acts[..r + 1] && acts[..n][r] == acts[r];
  }

  /** What a request still has to delete is what its remember displaced. */
  ghost predicate Dooms(acts: seq<Act>, id: RequestId, h: Hash) {
    Undeleted(acts, id).Some? && Displaces(acts, Undeleted(acts, id).value, h)
  }

  lemma FreshDoom(acts: seq<Act>, h: Hash)
    requires acts != [] && Recalls(acts, |acts| - 1).Some?
    ensures var t, id := RunRequests(acts), acts[|acts| - 1].id;
            && id in t.flight && t.flight[id].Dropping? && |t.flight[id].drop| <= 1
            && (Doomed(t, id, h) <==> Displaces(acts, |acts| - 1, h))
  {
    var n := |acts| - 1;
    var s, id := RunRequests(acts[..n]), acts[n].id;
    WaitingIsPut(acts[..n], id);
    LedgerStaysValid(acts[..n]);
    DropIsLoss(s.ledger, s.flight[id].key, s.flight[id].hash, h);
    LossIsDisplacement(acts, n, h);
    assert acts[..n + 1] == acts;
  }

  lemma {:induction false} DropsAtMostOne(acts: seq<Act>, id: RequestId)
    ensures var s := RunRequests(acts);
            id in s.flight && s.flight[id].Dropping? ==> |s.flight[id].drop| <= 1
  {
    if acts != [] {
      var n := |acts| - 1;
      DropsAtMostOne(acts[..n], id);
      WaitingIsPut(acts[..n], acts[n].id);
      if Recalls(acts, n).Some? && acts[n].id == id {
        FreshDoom(acts, "");
      }
    }
  }

  lemma {:induction false} DoomedIsDisplaced(acts: seq<Act>, id: RequestId, h: Hash)
    ensures Doomed(RunRequests(acts), id, h) <==> Dooms(acts, id, h)
  {
    if acts != [] {
      var n := |acts| - 1;
      var p, a := acts[..n], acts[n];
      DoomedIsDisplaced(p, id, h);
      if a.id == id && Recalls(acts, n).Some? {
        FreshDoom(acts, h);
      } else {
        WaitingIsPut(p, id);
        DropsAtMostOne(p, id);
        if Undeleted(p, id).Some? {
          DisplacesInPrefix(acts, n, Undeleted(p, id).value, h);
        }
        DoomStep(RunRequests(p), a, id, h);
      }
    }
  }

  /** Away from its own remembers, only its own deletions change what a request has to delete. */
  lemma DoomStep(s: Service, a: Act, id: RequestId, h: Hash)
    requires id in s.flight && s.flight[id].Dropping? ==> |s.flight[id].drop| <= 1
    requires a == Remember(id) ==> !Enabled(s, a)
    ensures Doomed(Step(s, a), id, h) <==> Doomed(s, id, h) && a != Delete(id) && a != DeleteFails(id)
  {
  }

  /** An enabled deletion takes out of the store exactly what the schedule says it removes. */
  lemma DeleteRemoves(acts: seq<Act>, d: nat, h: Hash)
    requires d < |acts| && acts[d].Delete?
    ensures var s := RunRequests(acts[..d]);
            Enabled(s, acts[d]) && s.flight[acts[d].id].drop[0] == h <==> Removes(acts, d, h)
  {
    DoomedIsDisplaced(acts[..d], acts[d].id, h);
    DropsAtMostOne(acts[..d], acts[d].id);
  }

  // ---- The exact schedules ----------------------------------------------------------------------

  /** A deletion that removes a hash some request has put, or put again, and not had displaced since. */
  ghost predicate BadDelete(acts: seq<Act>, d: nat)
    requires d < |acts|
  {
    exists h :: Removes(acts, d, h) && StillClaimed(acts[..d], h)
  }

  lemma StepOfSchedule(acts: seq<Act>, d: nat)
    requires d < |acts| && ClaimsStored(RunRequests(acts[..d]))
    ensures ClaimsStored(RunRequests(acts[..d + 1])) <==> !BadDelete(acts, d)
  {
    var s, a := RunRequests(acts[..d]), acts[d];
    RunStep(acts, d + 1);
    LedgerStaysValid(acts[..d]);
    if a.Delete? {
      if h :| Removes(acts, d, h) && StillClaimed(acts[..d], h) {
        DeleteRemoves(acts, d, h);
        ClaimedIsStillClaimed(acts[..d], h);
      }
      if Enabled(s, a) {
        DeleteRemoves(acts, d, s.flight[a.id].drop[0]);
        ClaimedIsStillClaimed(acts[..d], s.flight[a.id].drop[0]);
      }
    }
    if Enabled(s, a) {
      StepKeepsClaimsExactly(s, a);
    }
  }

  lemma {:induction false} GoodSchedulesKeepClaims(acts: seq<Act>, n: nat)
    requires n <= |acts| && forall d :: 0 <= d < |acts| ==> !BadDelete(acts, d)
    ensures ClaimsStored(RunRequests(acts[..n]))
  {
    if n > 0 {
      GoodSchedulesKeepClaims(acts, n - 1);
      StepOfSchedule(acts, n - 1);
    }
  }

  /**
   For every schedule, whatever is submitted: every hash the service answers for is stored at every
   moment if and only if no deletion removes a hash that has been put and not displaced since.
   */
  lemma ClaimsHoldExactly(acts: seq<Act>)
    ensures (forall n :: 0 <= n <= |acts| ==> ClaimsStored(RunRequests(acts[..n]))) <==>
            (forall d :: 0 <= d < |acts| ==> !BadDelete(acts, d))
  {
    if forall n :: 0 <= n <= |acts| ==> ClaimsStored(RunRequests(acts[..n])) {
      forall d | 0 <= d < |acts| ensures !BadDelete(acts, d) {
        StepOfSchedule(acts, d);
      }
    }
    if forall d :: 0 <= d < |acts| ==> !BadDelete(acts, d) {
      forall n | 0 <= n <= |acts| ensures ClaimsStored(RunRequests(acts[..n])) {
        GoodSchedulesKeepClaims(acts, n);
      }
    }
  }

  /** A schedule that submits every hash once has no such deletion. */
  lemma SubmittedOnceDeletesWell(acts: seq<Act>)
    requires SubmittedOnce(acts)
    ensures forall d :: 0 <= d < |acts| ==> !BadDelete(acts, d)
  {
    forall n | 0 <= n <= |acts| ensures ClaimsStored(RunRequests(acts[..n])) {
      forall i | 0 <= i < n ensures FreshHash(RunRequests(acts[..n][..i]), acts[..n][i]) {
        assert acts[..n][..i] == acts[..i];
      }
      RunIsAccounted(acts[..n]);
      AccountedClaimsAreStored(RunRequests(acts[..n]));
    }
    ClaimsHoldExactly(acts);
  }

  lemma AccountedClaimsAreStored(s: Service)
    requires Accounted(s)
    ensures ClaimsStored(s)
  {
    forall id | id in s.flight && s.flight[id].Stored? ensures s.flight[id].hash in s.store {
      assert FlightOk(s, id) && HeldInFlight(s, id, s.flight[id].hash);
    }
  }

  /** The repost race is such a schedule. */
  lemma RaceHasABadDelete(k: DedupKey, h: Hash, h': Hash)
    requires h != h'
    ensures exists d :: 0 <= d < |Race(k, h, h')| && BadDelete(Race(k, h, h'), d)
  {
    var acts := Race(k, h, h');
    RepostRace(k, h, h');
    ClaimsHoldExactly(acts);
    assert acts[..|acts|] == acts && !ClaimsStored(RunRequests(acts[..|acts|]));
  }

  // ---- The bound, whatever is submitted ---------------------------------------------------------

  /** Somebody still has the hash to answer for or to delete. */
  ghost predicate Covered(s: Service, h: Hash) {
    h in s.kept || Retains(s, h) || InFlight(s, h)
  }

  ghost predicate InFlight(s: Service, h: Hash) {
    exists id: RequestId :: HeldInFlight(s, id, h)
  }

  lemma RememberCoversStill(s: Service, id: RequestId, h: Hash)
    requires s.ledger.Valid() && |s.ledger.order| <= MAX_ACCEPTANCES
    requires Enabled(s, Remember(id)) && Covered(s, h)
    ensures Covered(Step(s, Remember(id)), h)
  {
    var t, key, hash := Step(s, Remember(id)), s.flight[id].key, s.flight[id].hash;
    RememberOnLedger(s.ledger, key, hash);
    assert t.ledger.table[key] == hash && Retains(t, hash);
    if h != hash && h !in s.kept {
      if Retains(s, h) {
        var k :| k in s.ledger.table && s.ledger.table[k] == h;
        DropIsLoss(s.ledger, key, hash, h);
        if t.ledger.Get(k) == Some(h) {
          assert Retains(t, h);
        } else {
          assert s.ledger.Get(k) == Some(h);
          assert HeldInFlight(t, id, h);
        }
      } else {
        var i :| HeldInFlight(s, i, h);
        assert HeldInFlight(t, i, h);
      }
    }
  }

  lemma StepCovers(s: Service, a: Act, h: Hash)
    requires s.ledger.Valid() && |s.ledger.order| <= MAX_ACCEPTANCES
    requires h in s.store ==> Covered(s, h)
    requires h in Step(s, a).store
    ensures Covered(Step(s, a), h)
  {
    var t := Step(s, a);
    if a.Remember? && Enabled(s, a) {
      RememberCoversStill(s, a.id, h);
    } else if a.Put? && Enabled(s, a) && h == a.hash {
      assert HeldInFlight(t, a.id, h);
    } else if h !in t.kept && !Retains(s, h) {
      var i :| HeldInFlight(s, i, h);
      assert HeldInFlight(t, i, h);
    } else if Retains(s, h) {
      assert Retains(t, h);
    }
  }

  /** After every schedule each stored hash is retained, held by a request in flight, or one whose deletion failed. */
  lemma {:induction false} StoredIsCovered(acts: seq<Act>, h: Hash)
    requires h in RunRequests(acts).store
    ensures Covered(RunRequests(acts), h)
  {
    if acts != [] {
      var p := acts[..|acts| - 1];
      if h in RunRequests(p).store {
        StoredIsCovered(p, h);
      }
      LedgerStaysValid(p);
      StepCovers(RunRequests(p), acts[|acts| - 1], h);
    }
  }

  /** The one hash a request in flight answers for, if it answers for any. */
  function Holding(s: Service, id: RequestId): Option<Hash>
    requires id in s.flight
  {
    match s.flight[id]
    case Stored(_, hash) => Some(hash)
    case Dropping(drop) => if drop == [] then None else Some(drop[0])
  }

  lemma HoldsOne(s: Service, id: RequestId, h: Hash)
    requires HeldInFlight(s, id, h) && (s.flight[id].Dropping? ==> |s.flight[id].drop| <= 1)
    ensures Holding(s, id) == Some(h)
  {
  }

  lemma {:induction false} ValuesFewerThanKeys<K(!new), V(!new)>(m: map<K, V>, values: set<V>)
    requires forall v :: v in values ==> exists k :: k in m && m[k] == v
    ensures |values| <= |m|
    decreases |m|
  {
    if values != {} {
      var v :| v in values;
      var k :| k in m && m[k] == v;
      var m' := m - {k};
      assert m'.Keys == m.Keys - {k};
      forall x | x in values - {v} ensures exists j :: j in m' && m'[j] == x {
        var j :| j in m && m[j] == x;
        assert j in m' && m'[j] == x;
      }
      ValuesFewerThanKeys(m', values - {v});
    }
  }

  lemma FlightHoldsAtMostOneEach(acts: seq<Act>, held: set<Hash>)
    requires forall h :: h in held ==> InFlight(RunRequests(acts), h)
    ensures |held| <= |RunRequests(acts).flight|
  {
    var s := RunRequests(acts);
    var m := map id | id in s.flight && Holding(s, id).Some? :: Holding(s, id).value;
    forall h | h in held ensures exists id :: id in m && m[id] == h {
      var id: RequestId :| HeldInFlight(s, id, h);
      DropsAtMostOne(acts, id);
      HoldsOne(s, id, h);
      assert id in m && m[id] == h;
    }
    ValuesFewerThanKeys(m, held);
    SubsetSize(m.Keys, s.flight.Keys);
  }

  lemma UnionSize<T(!new)>(a: set<T>, b: set<T>, c: set<T>, all: set<T>)
    requires all <= a + b + c
    ensures |all| <= |a| + |b| + |c|
  {
    SubsetSize(all, a + b + c);
    assert |a + b| <= |a| + |b|;
    assert |a + b + c| <= |a + b| + |c|;
  }

  /** For every schedule: never more than 200 records, one per request in flight, and those whose deletion failed. */
  lemma StoreIsBounded(acts: seq<Act>)
    ensures |RunRequests(acts).store| <= 200 + |RunRequests(acts).flight| + |RunRequests(acts).kept|
  {
    var s := RunRequests(acts);
    var retained := set h | h in s.store && Retains(s, h);
    var inFlight := set h | h in s.store && !Retains(s, h) && h !in s.kept;
    forall h | h in inFlight ensures InFlight(s, h) {
      StoredIsCovered(acts, h);
    }
    FlightHoldsAtMostOneEach(acts, inFlight);
    ValuesFewerThanKeys(s.ledger.table, retained);
    LedgerStaysValid(acts);
    ElemsSize(s.ledger.order);
    assert Elems(s.ledger.order) == s.ledger.table.Keys;
    assert s.store <= retained + inFlight + s.kept;
    UnionSize(retained, inFlight, s.kept, s.store);
  }

  // ---- At rest ----------------------------------------------------------------------------------

  /** A put of the hash took place that no deletion has followed. */
  ghost predicate PutStands(acts: seq<Act>, h: Hash) {
    acts != [] &&
    var n := |acts| - 1;
    || (acts[n].Put? && acts[n].hash == h && Enabled(RunRequests(acts[..n]), acts[n]))
    || (PutStands(acts[..n], h) && !Removes(acts, n, h))
  }

  lemma {:induction false} StoreIsWhatWasPut(acts: seq<Act>, h: Hash)
    ensures h in RunRequests(acts).store <==> PutStands(acts, h)
  {
    if acts != [] {
      var n := |acts| - 1;
      StoreIsWhatWasPut(acts[..n], h);
      if acts[n].Delete? {
        DeleteRemoves(acts, n, h);
      }
    }
  }

  /**
   For every schedule, with nothing in flight and no failed deletion: the store holds nothing the ledger does
   not retain, and they hold the same hashes if and only if no retained hash was deleted after its last put.
   So they do where no deletion takes a hash still claimed, and where every hash is submitted once.
   */
  lemma QuiescentStoreIsTheLedger(acts: seq<Act>)
    requires RunRequests(acts).flight == map[] && RunRequests(acts).kept == {}
    ensures forall h :: h in RunRequests(acts).store ==> Retains(RunRequests(acts), h)
    ensures (forall h :: h in RunRequests(acts).store <==> Retains(RunRequests(acts), h)) <==>
            (forall key, h :: StandsWith(acts, key, h) ==> PutStands(acts, h))
    ensures (forall d :: 0 <= d < |acts| ==> !BadDelete(acts, d)) || SubmittedOnce(acts) ==>
              forall h :: h in RunRequests(acts).store <==> Retains(RunRequests(acts), h)
  {
    var s := RunRequests(acts);
    forall h | h in s.store ensures Retains(s, h) {
      StoredIsCovered(acts, h);
      assert !InFlight(s, h);
    }
    forall h ensures h in s.store <==> PutStands(acts, h) { StoreIsWhatWasPut(acts, h); }
    forall h ensures Retains(s, h) <==> exists key :: StandsWith(acts, key, h) { RetainsIsStands(acts, h); }
    if SubmittedOnce(acts) {
      SubmittedOnceDeletesWell(acts);
    }
    if forall d :: 0 <= d < |acts| ==> !BadDelete(acts, d) {
      ClaimsHoldExactly(acts);
      assert acts[..|acts|] == acts && ClaimsStored(RunRequests(acts[..|acts|]));
    }
  }
}
