/**
 Acceptance requests interleaved at their awaits. Each request puts its record, then tells the ledger,
 then deletes what the ledger dropped; between any two of these another request may take a step.
 */
module AcceptanceRaces {
  import opened OrderedMap
  import opened Acceptance

  type RequestId = nat

  datatype Request = Stored(key: DedupKey, hash: Hash) | Dropping(drop: seq<Hash>)

  /** `submitted` and `kept` are bookkeeping of the model: hashes ever put, and hashes whose deletion failed. */
  datatype Service = Service(
    ledger: Ledger,
    store: set<Hash>,
    flight: map<RequestId, Request>,
    submitted: set<Hash>,
    kept: set<Hash>)

  datatype Act =
    | Put(id: RequestId, key: DedupKey, hash: Hash)
    | Remember(id: RequestId)
    | Delete(id: RequestId)
    | DeleteFails(id: RequestId)
    | Finish(id: RequestId)

  predicate Enabled(s: Service, a: Act) {
    match a
    case Put(id, _, _) => id !in s.flight
    case Remember(id) => id in s.flight && s.flight[id].Stored?
    case Delete(id) => id in s.flight && s.flight[id].Dropping? && s.flight[id].drop != []
    case DeleteFails(id) => id in s.flight && s.flight[id].Dropping? && s.flight[id].drop != []
    case Finish(id) => id in s.flight && s.flight[id].Dropping? && s.flight[id].drop == []
  }

  /** The caller's own filter over the ledger's answer. */
  function NotOwn(drop: seq<Hash>, hash: Hash): seq<Hash> {
    if drop == [] then [] else (if drop[0] != hash then [drop[0]] else []) + NotOwn(drop[1..], hash)
  }

  function Step(s: Service, a: Act): Service {
    if !Enabled(s, a) then s else
    match a
    case Put(id, key, hash) =>
      s.(store := s.store + {hash}, flight := s.flight[id := Stored(key, hash)], submitted := s.submitted + {hash})
    case Remember(id) =>
      var key, hash := s.flight[id].key, s.flight[id].hash;
      s.(ledger := s.ledger.Remember(key, hash, MAX_ACCEPTANCES),
         flight := s.flight[id := Dropping(NotOwn(Dropped(s.ledger, key, hash), hash))])
    case Delete(id) =>
      s.(store := s.store - {s.flight[id].drop[0]}, flight := s.flight[id := Dropping(s.flight[id].drop[1..])])
    case DeleteFails(id) =>
      s.(kept := s.kept + {s.flight[id].drop[0]}, flight := s.flight[id := Dropping(s.flight[id].drop[1..])])
    case Finish(id) => s.(flight := s.flight - {id})
  }

  function RunRequests(acts: seq<Act>): Service {
    if acts == [] then Service(OMap([], map[]), {}, map[], {}, {})
    else Step(RunRequests(acts[..|acts| - 1]), acts[|acts| - 1])
  }

  // ---- Who holds a hash -------------------------------------------------------------------------

  predicate Retains(s: Service, h: Hash) {
    IsValueOf(s.ledger.table, h)
  }

  predicate IsValueOf(table: map<DedupKey, Hash>, h: Hash) {
    exists k :: k in table && table[k] == h
  }

  ghost predicate Injective(table: map<DedupKey, Hash>) {
    forall k, k' :: k in table && k' in table && k != k' ==> table[k] != table[k']
  }

  /** Put, but not yet known to the ledger. */
  predicate Pending(s: Service, id: RequestId, h: Hash) {
    id in s.flight && s.flight[id].Stored? && s.flight[id].hash == h
  }

  /** Dropped by the ledger, but not yet deleted. */
  predicate Doomed(s: Service, id: RequestId, h: Hash) {
    id in s.flight && s.flight[id].Dropping? && h in s.flight[id].drop
  }

  predicate HeldInFlight(s: Service, id: RequestId, h: Hash) {
    Pending(s, id, h) || Doomed(s, id, h)
  }

  /** Every stored hash has exactly one holder, and every holder's hash is stored. */
  ghost predicate Accounted(s: Service) {
    && s.ledger.Valid() && |s.ledger.order| <= MAX_ACCEPTANCES
    && s.store <= s.submitted && s.kept <= s.store
    && (forall h :: h in s.store ==> h in s.kept || Retains(s, h) || exists id :: HeldInFlight(s, id, h))
    && (forall k :: k in s.ledger.table ==> s.ledger.table[k] in s.store && s.ledger.table[k] !in s.kept)
    && Injective(s.ledger.table)
    && (forall id :: id in s.flight ==> FlightOk(s, id))
    && (forall id, id', h :: HeldInFlight(s, id, h) && HeldInFlight(s, id', h) ==> id == id')
  }

  ghost predicate FlightOk(s: Service, id: RequestId)
    requires id in s.flight
  {
    && (s.flight[id].Dropping? ==> |s.flight[id].drop| <= 1)
    && forall h :: HeldInFlight(s, id, h) ==> h in s.store && h !in s.kept && !Retains(s, h)
  }

  ghost predicate FreshHash(s: Service, a: Act) {
    a.Put? && Enabled(s, a) ==> a.hash !in s.submitted
  }

  lemma PutKeepsAccount(s: Service, a: Act)
    requires Accounted(s) && a.Put? && Enabled(s, a) && FreshHash(s, a)
    ensures Accounted(Step(s, a))
  {
    var t := Step(s, a);
    forall id, h ensures HeldInFlight(t, id, h) <==> if id == a.id then h == a.hash else HeldInFlight(s, id, h) {}
    forall h ensures Retains(t, h) <==> Retains(s, h) {}
    forall h | h in t.store ensures h in t.kept || Retains(t, h) || exists id :: HeldInFlight(t, id, h) {
      if h == a.hash {
        assert HeldInFlight(t, a.id, h);
      } else if h !in s.kept && !Retains(s, h) {
        var id :| HeldInFlight(s, id, h);
        assert HeldInFlight(t, id, h);
      }
    }
  }

  lemma {:induction false} NotOwnShape(drop: seq<Hash>, hash: Hash)
    requires |drop| <= 1
    ensures NotOwn(drop, hash) == if drop == [] || drop[0] == hash then [] else drop
  {
    if drop != [] { assert drop[1..] == [] && [drop[0]] == drop; }
  }

  /** A hash comes into a table, at most one goes out. */
  lemma ValuesSwap(table: map<DedupKey, Hash>, key: DedupKey, hash: Hash, gone: Option<DedupKey>)
    requires Injective(table) && !IsValueOf(table, hash)
    requires gone.Some? ==> gone.value in table
    requires key in table ==> gone == Some(key)
    ensures var next := (if gone.Some? then table - {gone.value} else table)[key := hash];
            && Injective(next) && IsValueOf(next, hash)
            && (gone.Some? ==> !IsValueOf(next, table[gone.value]))
            && forall h :: h != hash ==>
                 (IsValueOf(table, h) <==> IsValueOf(next, h) || (gone.Some? && table[gone.value] == h))
  {
    var next := (if gone.Some? then table - {gone.value} else table)[key := hash];
    assert next[key] == hash;
    if gone.Some? {
      assert IsValueOf(table, table[gone.value]);
    }
    forall h | h != hash && IsValueOf(table, h) ensures IsValueOf(next, h) || (gone.Some? && table[gone.value] == h) {
      var k :| k in table && table[k] == h;
      if gone != Some(k) {
        assert k in next && next[k] == h;
      }
    }
    forall h | h != hash && IsValueOf(next, h) ensures IsValueOf(table, h) {
      var k :| k in next && next[k] == h;
      assert k in table && table[k] == h;
    }
  }

  /** What a remember drops, and the table it leaves. */
  lemma RememberShape(s: Service, id: RequestId)
    requires Accounted(s) && Enabled(s, Remember(id))
    ensures var t := Step(s, Remember(id)); var r := s.flight[id]; var gone := Retired(s.ledger, r.key);
            && t.ledger.Valid() && |t.ledger.order| <= MAX_ACCEPTANCES
            && t.flight[id].Dropping?
            && (gone.Some? ==> gone.value in s.ledger.table)
            && t.flight[id].drop == (if gone.Some? then [s.ledger.table[gone.value]] else [])
            && t.ledger.table ==
               (if gone.Some? then s.ledger.table - {gone.value} else s.ledger.table)[r.key := r.hash]
            && !Retains(s, r.hash)
  {
    var key, hash := s.flight[id].key, s.flight[id].hash;
    RememberOnLedger(s.ledger, key, hash);
    NotOwnShape(Dropped(s.ledger, key, hash), hash);
    assert FlightOk(s, id) && HeldInFlight(s, id, hash);
    var gone := Retired(s.ledger, key);
    if gone.Some? {
      assert gone.value in s.ledger.table && IsValueOf(s.ledger.table, s.ledger.table[gone.value]);
    }
  }

  /** The ledger's side of a remember: the new hash comes in, and exactly the dropped one goes out. */
  lemma RememberRetains(s: Service, id: RequestId)
    requires Accounted(s) && Enabled(s, Remember(id))
    ensures var t := Step(s, Remember(id)); var hash := s.flight[id].hash;
            && t.ledger.Valid() && |t.ledger.order| <= MAX_ACCEPTANCES
            && t.flight[id].Dropping? && |t.flight[id].drop| <= 1
            && Injective(t.ledger.table)
            && Retains(t, hash)
            && (forall h :: h != hash ==> (Retains(s, h) <==> Retains(t, h) || h in t.flight[id].drop))
            && (forall h :: h in t.flight[id].drop ==> !Retains(t, h))
  {
    RememberShape(s, id);
    var r := s.flight[id];
    ValuesSwap(s.ledger.table, r.key, r.hash, Retired(s.ledger, r.key));
  }

  lemma RememberHolders(s: Service, id: RequestId)
    requires Accounted(s) && Enabled(s, Remember(id))
    ensures var t := Step(s, Remember(id));
            && (forall i, h :: HeldInFlight(t, i, h) <==>
                  if i == id then h in t.flight[id].drop else HeldInFlight(s, i, h))
            && (forall h :: h in t.flight[id].drop ==> Retains(s, h))
  {
    var key, hash := s.flight[id].key, s.flight[id].hash;
    RememberOnLedger(s.ledger, key, hash);
    NotOwnShape(Dropped(s.ledger, key, hash), hash);
  }

  lemma RememberFlightOk(s: Service, id: RequestId, i: RequestId)
    requires Accounted(s) && Enabled(s, Remember(id)) && i in s.flight
    ensures FlightOk(Step(s, Remember(id)), i)
  {
    var t := Step(s, Remember(id));
    RememberRetains(s, id);
    RememberHolders(s, id);
    assert FlightOk(s, i) && FlightOk(s, id) && HeldInFlight(s, id, s.flight[id].hash);
    forall h | HeldInFlight(t, i, h) ensures h in t.store && h !in t.kept && !Retains(t, h) {}
  }

  lemma RememberCovers(s: Service, id: RequestId, h: Hash)
    requires Accounted(s) && Enabled(s, Remember(id)) && h in s.store && h !in s.kept
    ensures var t := Step(s, Remember(id)); Retains(t, h) || exists i :: HeldInFlight(t, i, h)
  {
    var t := Step(s, Remember(id));
    RememberRetains(s, id);
    RememberHolders(s, id);
    if !Retains(t, h) {
      if Retains(s, h) {
        assert HeldInFlight(t, id, h);
      } else {
        var i :| HeldInFlight(s, i, h);
        assert HeldInFlight(t, i, h);
      }
    }
  }

  lemma RememberKeepsAccount(s: Service, id: RequestId)
    requires Accounted(s) && Enabled(s, Remember(id))
    ensures Accounted(Step(s, Remember(id)))
  {
    var t := Step(s, Remember(id));
    RememberRetains(s, id);
    RememberHolders(s, id);
    assert FlightOk(s, id) && HeldInFlight(s, id, s.flight[id].hash);
    forall k | k in t.ledger.table ensures t.ledger.table[k] in t.store && t.ledger.table[k] !in t.kept {
      RememberedHash(s, id, k);
    }
    forall i | i in t.flight ensures FlightOk(t, i) { RememberFlightOk(s, id, i); }
    forall i, i', h | HeldInFlight(t, i, h) && HeldInFlight(t, i', h) ensures i == i' {
      assert i in s.flight && i' in s.flight && FlightOk(s, i) && FlightOk(s, i');
    }
    forall h | h in t.store ensures h in t.kept || Retains(t, h) || exists i :: HeldInFlight(t, i, h) {
      if h !in s.kept { RememberCovers(s, id, h); }
    }
  }

  lemma RememberedHash(s: Service, id: RequestId, k: DedupKey)
    requires Accounted(s) && Enabled(s, Remember(id)) && k in Step(s, Remember(id)).ledger.table
    ensures var h := Step(s, Remember(id)).ledger.table[k]; h in s.store && h !in s.kept
  {
    RememberOnLedger(s.ledger, s.flight[id].key, s.flight[id].hash);
    assert FlightOk(s, id) && HeldInFlight(s, id, s.flight[id].hash);
  }

  lemma DeleteKeepsAccount(s: Service, id: RequestId, fails: bool)
    requires Accounted(s) && Enabled(s, Delete(id))
    ensures Accounted(Step(s, if fails then DeleteFails(id) else Delete(id)))
  {
    var t := Step(s, if fails then DeleteFails(id) else Delete(id));
    var gone := s.flight[id].drop[0];
    assert FlightOk(s, id) && HeldInFlight(s, id, gone);
    forall i, h ensures HeldInFlight(t, i, h) <==> HeldInFlight(s, i, h) && i != id {}
    forall h ensures Retains(t, h) <==> Retains(s, h) {}
    forall i | i in t.flight ensures FlightOk(t, i) {
      if i != id { assert FlightOk(s, i); }
    }
    forall k | k in t.ledger.table ensures t.ledger.table[k] != gone {
      assert Retains(s, s.ledger.table[k]);
    }
    forall h | h in t.store ensures h in t.kept || Retains(t, h) || exists i :: HeldInFlight(t, i, h) {
      if h !in t.kept && !Retains(s, h) {
        var i :| HeldInFlight(s, i, h);
        assert i != id;
        assert HeldInFlight(t, i, h);
      }
    }
  }

  lemma FinishKeepsAccount(s: Service, id: RequestId)
    requires Accounted(s) && Enabled(s, Finish(id))
    ensures Accounted(Step(s, Finish(id)))
  {
    var t := Step(s, Finish(id));
    forall i, h ensures HeldInFlight(t, i, h) <==> HeldInFlight(s, i, h) {}
    forall h ensures Retains(t, h) <==> Retains(s, h) {}
    forall i | i in t.flight ensures FlightOk(t, i) { assert FlightOk(s, i); }
    forall h | h in t.store ensures h in t.kept || Retains(t, h) || exists i :: HeldInFlight(t, i, h) {
      if h !in s.kept && !Retains(s, h) {
        var i :| HeldInFlight(s, i, h);
        assert HeldInFlight(t, i, h);
      }
    }
  }

  /** Every record hash is submitted once. */
  ghost predicate SubmittedOnce(acts: seq<Act>) {
    forall i :: 0 <= i < |acts| ==> FreshHash(RunRequests(acts[..i]), acts[i])
  }

  lemma {:induction false} RunIsAccounted(acts: seq<Act>)
    requires SubmittedOnce(acts)
    ensures Accounted(RunRequests(acts))
  {
    if acts != [] {
      var n := |acts| - 1;
      forall i | 0 <= i < n ensures FreshHash(RunRequests(acts[..n][..i]), acts[..n][i]) {
        assert acts[..n][..i] == acts[..i];
      }
      RunIsAccounted(acts[..n]);
      var s, a := RunRequests(acts[..n]), acts[n];
      if Enabled(s, a) {
        match a
        case Put(_, _, _) => PutKeepsAccount(s, a);
        case Remember(id) => RememberKeepsAccount(s, id);
        case Delete(id) => DeleteKeepsAccount(s, id, false);
        case DeleteFails(id) => DeleteKeepsAccount(s, id, true);
        case Finish(id) => FinishKeepsAccount(s, id);
      }
    }
  }

  // ---- Reposts ----------------------------------------------------------------------------------

  /** Every hash the service owes an answer for: retained, or put and about to be. */
  ghost predicate ClaimsStored(s: Service) {
    && (forall k :: k in s.ledger.table ==> s.ledger.table[k] in s.store)
    && (forall id :: id in s.flight && s.flight[id].Stored? ==> s.flight[id].hash in s.store)
  }

  ghost predicate Claimed(s: Service, h: Hash) {
    Retains(s, h) || exists id :: Pending(s, id, h)
  }

  /**
   With no condition on what is submitted, a step keeps every claimed hash resolvable if and only if it
   is not the deletion of a hash that has been claimed again since the ledger dropped it.
   */
  lemma StepKeepsClaimsExactly(s: Service, a: Act)
    requires ClaimsStored(s) && Enabled(s, a) && s.ledger.Valid() && |s.ledger.order| <= MAX_ACCEPTANCES
    ensures ClaimsStored(Step(s, a)) <==> !(a.Delete? && Claimed(s, s.flight[a.id].drop[0]))
  {
    var t := Step(s, a);
    match a
    case Put(id, key, hash) =>
      forall i | i in t.flight && t.flight[i].Stored? ensures t.flight[i].hash in t.store {
        if i != id { assert s.flight[i].Stored?; }
      }
    case Remember(id) =>
      RememberOnLedger(s.ledger, s.flight[id].key, s.flight[id].hash);
    case Delete(id) =>
      var gone := s.flight[id].drop[0];
      if Retains(s, gone) {
        var k :| k in s.ledger.table && s.ledger.table[k] == gone;
        assert k in t.ledger.table && t.ledger.table[k] !in t.store;
      } else if exists i :: Pending(s, i, gone) {
        var i :| Pending(s, i, gone);
        assert i in t.flight && t.flight[i].hash !in t.store;
      } else {
        forall i | i in t.flight && t.flight[i].Stored? ensures t.flight[i].hash in t.store {
          assert Pending(s, i, s.flight[i].hash);
        }
      }
    case DeleteFails(id) =>
    case Finish(id) =>
  }

  function Race(k: DedupKey, h: Hash, h': Hash): seq<Act> {
    [Put(0, k, h), Remember(0), Finish(0),
     Put(1, k, h'), Put(2, k, h),
     Remember(1), Delete(1), Finish(1), Remember(2), Delete(2), Finish(2)]
  }

  lemma RunStep(acts: seq<Act>, i: nat)
    requires 0 < i <= |acts|
    ensures RunRequests(acts[..i]) == Step(RunRequests(acts[..i - 1]), acts[i - 1])
  {
    assert acts[..i][..i - 1] == acts[..i - 1];
  }

  lemma OneKeyLedger(k: DedupKey, h: Hash, h': Hash)
    ensures var one := OMap([k], map[k := h]);
            one.Remember(k, h', MAX_ACCEPTANCES) == OMap([k], map[k := h'])
    ensures var none: Ledger := OMap([], map[]); none.Remember(k, h', MAX_ACCEPTANCES) == OMap([k], map[k := h'])
  {
    assert [k][1..] == [];
    assert Without([k], k) == Without([], k) == [];
  }

  lemma RaceFirst(k: DedupKey, h: Hash, h': Hash)
    requires h != h'
    ensures RunRequests(Race(k, h, h')[..3]) == Service(OMap([k], map[k := h]), {h}, map[], {h}, {})
  {
    var acts := Race(k, h, h');
    OneKeyLedger(k, h, h);
    RunStep(acts, 1);
    RunStep(acts, 2);
    RunStep(acts, 3);
    assert RunRequests(acts[..0]) == Service(OMap([], map[]), {}, map[], {}, {});
    assert RunRequests(acts[..1]) == Service(OMap([], map[]), {h}, map[0 := Stored(k, h)], {h}, {});
    assert RunRequests(acts[..2]) == Service(OMap([k], map[k := h]), {h}, map[0 := Dropping([])], {h}, {});
  }

  lemma RaceSecond(k: DedupKey, h: Hash, h': Hash)
    requires h != h'
    ensures RunRequests(Race(k, h, h')[..6])
            == Service(OMap([k], map[k := h']), {h, h'}, map[1 := Dropping([h]), 2 := Stored(k, h)], {h, h'}, {})
  {
    var acts := Race(k, h, h');
    RaceFirst(k, h, h');
    OneKeyLedger(k, h, h');
    NotOwnShape([h], h');
    RunStep(acts, 4);
    RunStep(acts, 5);
    RunStep(acts, 6);
    assert RunRequests(acts[..4]) == Service(OMap([k], map[k := h]), {h, h'}, map[1 := Stored(k, h')], {h, h'}, {});
    assert RunRequests(acts[..5])
        == Service(OMap([k], map[k := h]), {h, h'}, map[1 := Stored(k, h'), 2 := Stored(k, h)], {h, h'}, {});
  }

  lemma RaceDeletes(k: DedupKey, h: Hash, h': Hash)
    requires h != h'
    ensures RunRequests(Race(k, h, h')[..8])
            == Service(OMap([k], map[k := h']), {h'}, map[2 := Stored(k, h)], {h, h'}, {})
  {
    var acts := Race(k, h, h');
    RaceSecond(k, h, h');
    RunStep(acts, 7);
    RunStep(acts, 8);
    assert [h][1..] == [];
    assert RunRequests(acts[..7])
        == Service(OMap([k], map[k := h']), {h'}, map[1 := Dropping([]), 2 := Stored(k, h)], {h, h'}, {});
  }

  lemma RaceThird(k: DedupKey, h: Hash, h': Hash)
    requires h != h'
    ensures RunRequests(Race(k, h, h')[..9])
            == Service(OMap([k], map[k := h]), {h'}, map[2 := Dropping([h'])], {h, h'}, {})
  {
    RaceDeletes(k, h, h');
    OneKeyLedger(k, h', h);
    NotOwnShape([h'], h);
    RunStep(Race(k, h, h'), 9);
  }

  /**
   An identical repost put before a replacement is remembered, and remembered after the replacement's
   deletion, ends with the ledger retaining a hash the store has lost. Every request waits only at its put.
   */
  lemma RepostRace(k: DedupKey, h: Hash, h': Hash)
    requires h != h'
    ensures var s := RunRequests(Race(k, h, h'));
            s.flight == map[] && s.kept == {} && s.ledger.Get(k) == Some(h) && h !in s.store
  {
    var acts := Race(k, h, h');
    RaceThird(k, h, h');
    RunStep(acts, 10);
    RunStep(acts, 11);
    assert [h'][1..] == [] && acts[..11] == acts;
    assert RunRequests(acts[..10]) == Service(OMap([k], map[k := h]), {}, map[2 := Dropping([])], {h, h'}, {});
  }
}
