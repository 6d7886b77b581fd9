/**
 The fixed-roster gate and the address it protects. A cohort's beacon address is derived before the
 cohort exists from a list of member keys; the gate must seat exactly those keys, in any order.
 */
module Roster {
  import opened Cohorts
  import opened Encoding
  import opened OrderedMap
  import opened Sorting

  // ---- Byte comparison --------------------------------------------------------------------------

  /** `a | b` on non-negative numbers, bit by bit. */
  function BitOr(a: nat, b: nat): nat {
    if a == 0 && b == 0 then 0
    else 2 * BitOr(a / 2, b / 2) + if a % 2 == 1 || b % 2 == 1 then 1 else 0
  }

  /** `a ^ b` on non-negative numbers, bit by bit. */
  function BitXor(a: nat, b: nat): nat {
    if a == 0 && b == 0 then 0
    else 2 * BitXor(a / 2, b / 2) + if a % 2 != b % 2 then 1 else 0
  }

  lemma {:induction false} OrIsZero(a: nat, b: nat)
    ensures BitOr(a, b) == 0 <==> a == 0 && b == 0
  {
    if a != 0 || b != 0 {
      OrIsZero(a / 2, b / 2);
    }
  }

  lemma {:induction false} XorIsZero(a: nat, b: nat)
    ensures BitXor(a, b) == 0 <==> a == b
  {
    if a != 0 || b != 0 {
      XorIsZero(a / 2, b / 2);
    }
  }

  /** Compares without an early exit: every differing bit stays in the accumulator. */
  method BytesEqual(a: Bytes, b: Bytes) returns (same: bool)
    ensures same <==> a == b
  {
    if |a| != |b| {
      return false;
    }
    var diff := 0;
    var i := 0;
    while i < |a|
      invariant 0 <= i <= |a|
      invariant 0 <= diff && (diff == 0 <==> a[..i] == b[..i])
    {
      XorIsZero(a[i], b[i]);
      OrIsZero(diff, BitXor(a[i], b[i]));
      assert a[..i + 1] == a[..i] + [a[i]] && b[..i + 1] == b[..i] + [b[i]];
      diff := BitOr(diff, BitXor(a[i], b[i]));
      i := i + 1;
    }
    assert a[..i] == a && b[..i] == b;
    same := diff == 0;
  }

  // ---- The gate ---------------------------------------------------------------------------------

  datatype OptIn = OptIn(cohort: CohortId, participantPk: Bytes, communicationPk: Bytes)

  datatype Decision = Accepted | NotBound | NotInRoster | AlreadySeated

  /** Binding first, then membership, then uniqueness. */
  method DecideRosterOptIn(roster: seq<Bytes>, optIn: OptIn, seen: set<string>) returns (d: Decision)
    ensures d == NotBound <==> optIn.participantPk != optIn.communicationPk
    ensures d == NotInRoster <==>
              optIn.participantPk == optIn.communicationPk && optIn.participantPk !in roster
    ensures d == AlreadySeated <==>
              && optIn.participantPk == optIn.communicationPk && optIn.participantPk in roster
              && ToHex(optIn.participantPk) in seen
  {
    var bound := BytesEqual(optIn.participantPk, optIn.communicationPk);
    if !bound {
      return NotBound;
    }
    var member := false;
    var i := 0;
    while i < |roster| && !member
      invariant 0 <= i <= |roster|
      invariant member <==> optIn.participantPk in roster[..i]
    {
      member := BytesEqual(roster[i], optIn.participantPk);
      assert roster[..i + 1] == roster[..i] + [roster[i]];
      i := i + 1;
    }
    if !member {
      assert roster[..i] == roster;
      return NotInRoster;
    }
    d := if ToHex(optIn.participantPk) in seen then AlreadySeated else Accepted;
  }

  /**
   The keys a cohort has seated after a history of opt-ins, defined without the gate's own table: an
   opt-in seats its key when sender and key agree, the roster has the key and no earlier opt-in of the
   same cohort seated it.
   */
  ghost function Seated(roster: seq<Bytes>, h: seq<OptIn>, c: CohortId): seq<Bytes> {
    if h == [] then []
    else
      var before := Seated(roster, h[..|h| - 1], c);
      var o := h[|h| - 1];
      if o.cohort == c && Seats(roster, o, before) then before + [o.participantPk] else before
  }

  ghost predicate Seats(roster: seq<Bytes>, o: OptIn, before: seq<Bytes>) {
    o.participantPk == o.communicationPk && o.participantPk in roster && o.participantPk !in before
  }

  lemma SeatedStep(roster: seq<Bytes>, h: seq<OptIn>, o: OptIn, c: CohortId)
    ensures Seated(roster, h + [o], c) ==
            if o.cohort == c && Seats(roster, o, Seated(roster, h, c))
            then Seated(roster, h, c) + [o.participantPk]
            else Seated(roster, h, c)
  {
    assert (h + [o])[..|h|] == h;
  }

  ghost function HexOf(keys: seq<Bytes>): set<string> {
    set k | k in keys :: ToHex(k)
  }

  lemma HexMembership(keys: seq<Bytes>, k: Bytes)
    ensures ToHex(k) in HexOf(keys) <==> k in keys
  {
    if ToHex(k) in HexOf(keys) {
      var j :| j in keys && ToHex(j) == ToHex(k);
      HexIsInjective(j, k);
    }
  }

  /** `seatedRosterKeys.get(cohortId) ?? new Set()`. */
  function SeenOf(table: map<CohortId, set<string>>, c: CohortId): set<string> {
    if c in table then table[c] else {}
  }

  /** The table holds, cohort by cohort, the hex of exactly the keys seated so far. */
  ghost predicate Mirrors(table: map<CohortId, set<string>>, roster: seq<Bytes>, h: seq<OptIn>) {
    forall c :: SeenOf(table, c) == HexOf(Seated(roster, h, c))
  }

  function TableAfter(table: map<CohortId, set<string>>, o: OptIn): map<CohortId, set<string>> {
    table[o.cohort := SeenOf(table, o.cohort) + {ToHex(o.participantPk)}]
  }

  lemma TableStep(table: map<CohortId, set<string>>, roster: seq<Bytes>, h: seq<OptIn>, o: OptIn)
    requires Mirrors(table, roster, h)
    ensures Mirrors(if Seats(roster, o, Seated(roster, h, o.cohort)) then TableAfter(table, o) else table,
                    roster, h + [o])
  {
    var seats := Seats(roster, o, Seated(roster, h, o.cohort));
    var next := if seats then TableAfter(table, o) else table;
    HexGrows(Seated(roster, h, o.cohort), o.participantPk);
    forall c ensures SeenOf(next, c) == HexOf(Seated(roster, h + [o], c)) {
      SeatedStep(roster, h, o, c);
      assert SeenOf(table, c) == HexOf(Seated(roster, h, c));
    }
  }

  lemma HexGrows(keys: seq<Bytes>, k: Bytes)
    ensures HexOf(keys + [k]) == HexOf(keys) + {ToHex(k)}
  {
    forall x | x in HexOf(keys) + {ToHex(k)} ensures x in HexOf(keys + [k]) {
      if x == ToHex(k) {
        assert k in keys + [k];
      } else {
        var j :| j in keys && ToHex(j) == x;
        assert j in keys + [k];
      }
    }
  }

  lemma OthersUntouched(roster: seq<Bytes>, h: seq<OptIn>, o: OptIn)
    ensures forall c :: c != o.cohort ==> Seated(roster, h + [o], c) == Seated(roster, h, c)
  {
    forall c | c != o.cohort ensures Seated(roster, h + [o], c) == Seated(roster, h, c) {
      SeatedStep(roster, h, o, c);
    }
  }

  /** `seatedRosterKeys` and the listener that consults and extends it. */
  class RosterGate {
    const roster: seq<Bytes>
    var seatedRosterKeys: map<CohortId, set<string>>
    /** Every opt-in handled so far. */
    ghost var history: seq<OptIn>

    ghost predicate Valid()
      reads this
    {
      Mirrors(seatedRosterKeys, roster, history)
    }

    constructor (roster: seq<Bytes>)
      ensures Valid() && this.roster == roster && history == []
    {
      this.roster := roster;
      seatedRosterKeys := map[];
      history := [];
    }

    method OnOptInReceived(optIn: OptIn) returns (accepted: bool)
      requires Valid()
      modifies this
      ensures Valid() && history == old(history) + [optIn]
      ensures accepted <==> Seated(roster, history, optIn.cohort) ==
                              Seated(roster, old(history), optIn.cohort) + [optIn.participantPk]
      ensures !accepted ==> seatedRosterKeys == old(seatedRosterKeys)
      ensures forall c :: c != optIn.cohort ==>
                Seated(roster, history, c) == Seated(roster, old(history), c)
    {
      var seen := SeenOf(seatedRosterKeys, optIn.cohort);
      var decision := DecideRosterOptIn(roster, optIn, seen);
      HexMembership(Seated(roster, history, optIn.cohort), optIn.participantPk);
      accepted := decision == Accepted;
      TableStep(seatedRosterKeys, roster, history, optIn);
      SeatedStep(roster, history, optIn, optIn.cohort);
      OthersUntouched(roster, history, optIn);
      if accepted {
        seatedRosterKeys := TableAfter(seatedRosterKeys, optIn);
      }
      history := history + [optIn];
    }
  }

  // ---- What any run seats -----------------------------------------------------------------------

  /** Whatever is sent, a cohort's seated keys are distinct members of the roster. */
  lemma {:induction false} SeatedAreDistinctMembers(roster: seq<Bytes>, h: seq<OptIn>, c: CohortId)
    ensures NoDup(Seated(roster, h, c))
    ensures forall k :: k in Seated(roster, h, c) ==> k in roster
    ensures |Seated(roster, h, c)| <= |Elems(roster)| <= |roster|
  {
    if h != [] {
      SeatedAreDistinctMembers(roster, h[..|h| - 1], c);
    }
    var s := Seated(roster, h, c);
    ElemsSize(s);
    SubsetSize(Elems(s), Elems(roster));
    ElemsAtMost(roster);
  }

  lemma {:induction false} ElemsAtMost<K(!new)>(s: seq<K>)
    ensures |Elems(s)| <= |s|
    ensures |Elems(s)| == |s| ==> NoDup(s)
  {
    if s == [] {
      assert Elems(s) == {};
    } else {
      ElemsAtMost(s[1..]);
      assert Elems(s) == Elems(s[1..]) + {s[0]};
      if |Elems(s)| == |s| {
        assert s[0] !in s[1..];
        assert forall i, j :: 0 <= i < j < |s| ==> s[i] != s[j] by {
          forall i, j | 0 <= i < j < |s| ensures s[i] != s[j] {
            assert s[j] == s[1..][j - 1];
            if i > 0 { assert s[i] == s[1..][i - 1]; }
          }
        }
      }
    }
  }

  /** A full cohort has seated exactly the roster, whatever the order of arrival. */
  lemma FullMeansThePermutation(roster: seq<Bytes>, h: seq<OptIn>, c: CohortId)
    requires |Seated(roster, h, c)| == |roster|
    ensures multiset(Seated(roster, h, c)) == multiset(roster)
  {
    var s := Seated(roster, h, c);
    SeatedAreDistinctMembers(roster, h, c);
    ElemsSize(s);
    ElemsAtMost(roster);
    assert Elems(s) <= Elems(roster);
    EqualBySize(Elems(s), Elems(roster));
    SameElementsSameMultiset(s, roster);
  }

  lemma EqualBySize<K(!new)>(a: set<K>, b: set<K>)
    requires a <= b && |a| == |b|
    ensures a == b
  {
    if a != b {
      var x :| x in b && x !in a;
      SubsetSize(a, b - {x});
    }
  }

  /** A roster that repeats a key can never fill a cohort of its own size. */
  lemma RepeatedKeyNeverFills(roster: seq<Bytes>, h: seq<OptIn>, c: CohortId)
    ensures |Seated(roster, h, c)| == |roster| ==> NoDup(roster)
  {
    SeatedAreDistinctMembers(roster, h, c);
    ElemsAtMost(roster);
  }

  // ---- The address ------------------------------------------------------------------------------

  datatype CohortConfig = CohortConfig(minParticipants: int, network: string, beaconType: string,
                                       recoveryKey: string, recoverySequence: int,
                                       fundingModel: string, fallbackThreshold: int)

  /** What the address commits to besides the keys. */
  datatype Terms = Terms(network: string, beaconType: string, recoveryKey: Bytes,
                         recoverySequence: int, fundingModel: string, fallbackThreshold: int)

  datatype Outcome = Address(value: string) | WrongSize | BadKeyLength(length: nat) | BadRecoveryKey
                   | ComputeFailed

  function TermsOf(config: CohortConfig, recoveryKey: Bytes): Terms {
    Terms(config.network, config.beaconType, recoveryKey, config.recoverySequence,
          config.fundingModel, config.fallbackThreshold)
  }

  /** The library's cohort object. Its key setter keeps the array it is given and sorts it in place. */
  class AggregationCohort {
    const terms: Terms
    var cohortKeys: array<Key>

    constructor (terms: Terms)
      ensures this.terms == terms && fresh(cohortKeys)
    {
      this.terms := terms;
      cohortKeys := new Key[0];
    }

    method SetCohortKeys(keys: array<Key>)
      modifies this, keys
      ensures cohortKeys == keys && keys[..] == Sort(old(keys[..]))
      ensures InOrder(keys[..]) && multiset(keys[..]) == multiset(old(keys[..]))
    {
      var sorted := Sort(keys[..]);
      SortSorts(keys[..]);
      SortedIsInOrder(sorted);
      forall i | 0 <= i < keys.Length {
        keys[i] := sorted[i];
      }
      assert keys[..] == sorted;
      cohortKeys := keys;
    }

    method ComputeBeaconAddress(compute: (Terms, seq<Key>) -> Outcome) returns (r: Outcome)
      ensures r == compute(terms, cohortKeys[..])
    {
      r := compute(terms, cohortKeys[..]);
    }
  }

  const COMPRESSED_KEY_LENGTH := 33

  ghost predicate AllCompressed(keys: seq<Key>) {
    forall k :: k in keys ==> |k| == 33
  }

  /**
   Derives the address a future cohort will have. Nothing of the caller's is modified: the key setter
   sorts a copy, so the caller's array keeps its order.
   */
  method DeriveCohortBeaconAddress(config: CohortConfig, memberPks: array<Key>,
                                   decodeHex: string -> Option<Bytes>,
                                   compute: (Terms, seq<Key>) -> Outcome)
    returns (r: Outcome)
    ensures memberPks.Length != config.minParticipants ==> r == WrongSize
    ensures memberPks.Length == config.minParticipants && !AllCompressed(memberPks[..]) ==>
              exists i :: 0 <= i < memberPks.Length && AllCompressed(memberPks[..i]) &&
                          |memberPks[i]| != 33 && r == BadKeyLength(|memberPks[i]|)
    ensures memberPks.Length == config.minParticipants && AllCompressed(memberPks[..]) ==>
              match decodeHex(config.recoveryKey)
              case None => r == BadRecoveryKey
              case Some(key) =>
                exists terms: Terms, sorted: seq<Key> ::
                  && terms.network == config.network && terms.beaconType == config.beaconType
                  && terms.recoveryKey == key && terms.recoverySequence == config.recoverySequence
                  && terms.fundingModel == config.fundingModel
                  && terms.fallbackThreshold == config.fallbackThreshold
                  && InOrder(sorted) && multiset(sorted) == multiset(memberPks[..])
                  && r == compute(terms, sorted)
    ensures memberPks[..] == old(memberPks[..])
  {
    if memberPks.Length != config.minParticipants {
      return WrongSize;
    }
    var i := 0;
    while i < memberPks.Length
      invariant 0 <= i <= memberPks.Length
      invariant AllCompressed(memberPks[..i])
    {
      if |memberPks[i]| != COMPRESSED_KEY_LENGTH {
        assert memberPks[i] in memberPks[..];
        return BadKeyLength(|memberPks[i]|);
      }
      assert memberPks[..i + 1] == memberPks[..i] + [memberPks[i]];
      i := i + 1;
    }
    assert memberPks[..i] == memberPks[..];
    var recoveryKey := decodeHex(config.recoveryKey);
    if recoveryKey.None? {
      return BadRecoveryKey;
    }
    var cohort := new AggregationCohort(TermsOf(config, recoveryKey.value));
    var copy := new Key[memberPks.Length](j requires 0 <= j < memberPks.Length reads memberPks =>
      memberPks[j]);
    assert copy[..] == memberPks[..];
    cohort.SetCohortKeys(copy);
    r := cohort.ComputeBeaconAddress(compute);
  }

  /** The address of a cohort that finalized with these keys, in the order they were seated. */
  ghost function SeatedAddress(config: CohortConfig, keys: seq<Key>, recoveryKey: Bytes,
                               compute: (Terms, seq<Key>) -> Outcome): Outcome {
    compute(TermsOf(config, recoveryKey), Sort(keys))
  }

  /** Bytes as plain numbers, for the sort. */
  ghost function AsKeys(keys: seq<Bytes>): seq<Key> {
    keys
  }

  /**
   Parity: over any run of opt-ins, however ordered, repeated, forged or addressed to other cohorts,
   once the gate has seated as many keys as the cohort needs the address is the pre-derived one.
   */
  lemma SeatedAddressIsThePreDerived(config: CohortConfig, roster: seq<Bytes>, h: seq<OptIn>,
                                     c: CohortId, recoveryKey: Bytes, terms: Terms, sorted: seq<Key>,
                                     compute: (Terms, seq<Key>) -> Outcome)
    requires |Seated(roster, h, c)| == |roster| == config.minParticipants
    requires InOrder(sorted) && multiset(sorted) == multiset(AsKeys(roster))
    requires terms.network == config.network && terms.beaconType == config.beaconType
    requires terms.recoveryKey == recoveryKey && terms.recoverySequence == config.recoverySequence
    requires terms.fundingModel == config.fundingModel && terms.fallbackThreshold == config.fallbackThreshold
    ensures SeatedAddress(config, AsKeys(Seated(roster, h, c)), recoveryKey, compute) == compute(terms, sorted)
  {
    FullMeansThePermutation(roster, h, c);
    SortForgetsOrderOnly(AsKeys(Seated(roster, h, c)), AsKeys(roster));
    SortSorts(AsKeys(roster));
    SortedIsInOrder(sorted);
    SortedIsUnique(Sort(AsKeys(roster)), sorted);
  }
}
