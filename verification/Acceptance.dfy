/**
 Participation-terms acceptances: a content-addressed store keyed by record hash, kept in step with a
 bounded ledger keyed by participant and cohort, one request at a time and with requests interleaved.
 */
module Acceptance {
  import opened OrderedMap
  import Sorting

  const MAX_ACCEPTANCES: nat := 200
  const MAX_ACCEPTANCE_FIELD_LEN: nat := 512

  type Hash = string
  type DedupKey = string

  /** The frozen record. Its fields are exactly the named fields of the submitted object. */
  datatype Record = Record(
    context: string,
    kind: string,
    serviceDid: string,
    cohortId: string,
    termsHash: string,
    participantDid: string,
    acceptedAt: string)

  // ---- The deduplication key --------------------------------------------------------------------

  function AcceptanceDedupKey(participantDid: string, cohortId: string): DedupKey {
    participantDid + "\0" + cohortId
  }

  predicate InCohortIdAlphabet(c: char) {
    '0' <= c <= '9' || 'a' <= c <= 'z' || 'A' <= c <= 'Z' || c == '-'
  }

  predicate CohortIdShape(s: string) {
    1 <= |s| <= 64 && forall c :: c in s ==> InCohortIdAlphabet(c)
  }

  lemma NoNulAfterTheDid(did: string, cohort: string, i: nat)
    requires CohortIdShape(cohort) && |did| < i < |AcceptanceDedupKey(did, cohort)|
    ensures AcceptanceDedupKey(did, cohort)[i] != '\0'
  {
    assert AcceptanceDedupKey(did, cohort)[i] == cohort[i - |did| - 1];
    assert cohort[i - |did| - 1] in cohort;
  }

  /** Cohort ids hold no NUL, so no other pair of fields spells the same key, whatever the DIDs are. */
  lemma DedupKeyIsInjective(did: string, cohort: string, did': string, cohort': string)
    requires CohortIdShape(cohort) && CohortIdShape(cohort')
    ensures AcceptanceDedupKey(did, cohort) == AcceptanceDedupKey(did', cohort') <==> did == did' && cohort == cohort'
  {
    var k, k' := AcceptanceDedupKey(did, cohort), AcceptanceDedupKey(did', cohort');
    assert k[|did|] == '\0' && k'[|did'|] == '\0';
    assert k[..|did|] == did && k'[..|did'|] == did';
    assert k[|did| + 1..] == cohort && k'[|did'| + 1..] == cohort';
    if |did| < |did'| < |k| { NoNulAfterTheDid(did, cohort, |did'|); }
    if |did'| < |did| < |k'| { NoNulAfterTheDid(did', cohort', |did|); }
  }

  // ---- The ledger -------------------------------------------------------------------------------

  type Ledger = OMap<DedupKey, Hash>

  /** What a caller must drop from the store: the different hash this one replaces, or the oldest one displaced. */
  function Dropped(m: Ledger, key: DedupKey, hash: Hash): seq<Hash> {
    if key in m.table then (if m.table[key] != hash then [m.table[key]] else [])
    else if |m.order| == MAX_ACCEPTANCES && m.order[0] in m.table then [m.table[m.order[0]]]
    else []
  }

  class AcceptanceLedger {
    const byKey: BoundedMap<DedupKey, Hash>

    ghost predicate Valid()
      reads this, byKey
    {
      byKey.Valid() && byKey.cap == MAX_ACCEPTANCES
    }

    constructor ()
      ensures Valid() && byKey.Model() == OMap([], map[]) && fresh(byKey)
    {
      byKey := new BoundedMap(MAX_ACCEPTANCES);
    }

    method Remember(key: DedupKey, hash: Hash) returns (drop: seq<Hash>)
      requires Valid()
      modifies byKey
      ensures Valid() && byKey.Model() == old(byKey.Model()).Remember(key, hash, MAX_ACCEPTANCES)
      ensures drop == Dropped(old(byKey.Model()), key, hash) && |drop| <= 1
      ensures key in old(byKey.table) ==>
                drop == if old(byKey.table)[key] != hash then [old(byKey.table)[key]] else []
      ensures key !in old(byKey.table) ==>
                drop == if |old(byKey.order)| < 200 then [] else [old(byKey.table)[old(byKey.order)[0]]]
    {
      drop := [];
      if key in byKey.table && byKey.table[key] != hash {
        drop := drop + [byKey.table[key]];
      }
      var evicted := byKey.Remember(key, hash);
      if evicted != [] {
        drop := drop + [evicted[0].1];
      }
    }

    method Retained() returns (hashes: seq<Hash>)
      requires Valid()
      ensures |hashes| == |byKey.order| && forall i :: 0 <= i < |hashes| ==> hashes[i] == byKey.table[byKey.order[i]]
    {
      hashes := seq(|byKey.order|,
        i requires 0 <= i < |byKey.order| && byKey.order[i] in byKey.table reads byKey =>
          byKey.table[byKey.order[i]]);
    }
  }

  // ---- What a request must pass -----------------------------------------------------------------

  datatype Json = Str(s: string) | NotAString

  /** The service's own facts, and the library calls a request is judged with. */
  datatype Env<!Pk> = Env(
    serviceDid: string,
    termsText: string,
    context: string,
    acceptanceType: string,
    termsHashHex: string -> string,
    parsesAsDate: string -> bool,
    resolveSenderPk: (string, Option<string>) -> Option<Pk>,
    verify: (Pk, string, Record) -> bool,
    hashHex: Record -> Hash)

  /** A request body: the acceptance object in key order, a signature of the right shape if there is one, a genesis. */
  datatype Body = Body(acceptance: Option<OMap<string, Json>>, signature: Option<string>, genesis: Option<string>)

  datatype Verdict = Accepted(record: Record) | Refused(reason: string)

  const CONTEXT := "@context"
  const TYPE := "type"
  const SERVICE_DID := "serviceDid"
  const COHORT_ID := "cohortId"
  const TERMS_HASH := "termsHash"
  const PARTICIPANT_DID := "participantDid"
  const ACCEPTED_AT := "acceptedAt"
  const TERMS_ACCEPTANCE_FIELDS: seq<string> :=
    [CONTEXT, TYPE, SERVICE_DID, COHORT_ID, TERMS_HASH, PARTICIPANT_DID, ACCEPTED_AT]

  /** JavaScript's `keys.join(',')`. */
  function JoinWithCommas(keys: seq<string>): string {
    if keys == [] then ""
    else if |keys| == 1 then keys[0]
    else JoinWithCommas(keys[..|keys| - 1]) + "," + keys[|keys| - 1]
  }

  function Codes(s: string): seq<int> {
    seq(|s|, i requires 0 <= i < |s| => s[i] as int)
  }

  function InsertKey(k: string, keys: seq<string>): seq<string> {
    if keys == [] then [k]
    else if Sorting.LexLe(Codes(k), Codes(keys[0])) then [k] + keys
    else [keys[0]] + InsertKey(k, keys[1..])
  }

  function SortKeys(keys: seq<string>): seq<string> {
    if keys == [] then [] else InsertKey(keys[0], SortKeys(keys[1..]))
  }

  predicate StringFieldOk(v: Json) {
    v.Str? && 1 <= |v.s| <= MAX_ACCEPTANCE_FIELD_LEN
  }

  /** A field read as a string; absent or of another type reads as the empty string, which no field may be. */
  function Field(o: OMap<string, Json>, k: string): string {
    if k in o.table && o.table[k].Str? then o.table[k].s else ""
  }

  function AsRecord(o: OMap<string, Json>): Record {
    Record(
      Field(o, CONTEXT), Field(o, TYPE), Field(o, SERVICE_DID), Field(o, COHORT_ID),
      Field(o, TERMS_HASH), Field(o, PARTICIPANT_DID), Field(o, ACCEPTED_AT))
  }

  /** The field set compared as joined sorted names, then each value. */
  function CheckFields(o: OMap<string, Json>): Option<string> {
    if JoinWithCommas(SortKeys(o.order)) != JoinWithCommas(SortKeys(TERMS_ACCEPTANCE_FIELDS))
    then Some("wrong field set")
    else if exists k :: k in o.table && !StringFieldOk(o.table[k]) then Some("bad field")
    else None
  }

  /** The checks on the record's own fields; an absent field passes none of the checks that read it. */
  function CheckRecord<Pk>(env: Env<Pk>, r: Record, genesis: Option<string>, signature: string): Verdict {
    if r.context == "" || r.context != env.context then Refused("wrong type")
    else if r.kind == "" || r.kind != env.acceptanceType then Refused("wrong type")
    else if r.serviceDid != env.serviceDid then Refused("different service")
    else if !CohortIdShape(r.cohortId) then Refused("malformed cohort id")
    else if r.acceptedAt == "" || !env.parsesAsDate(r.acceptedAt) then Refused("unparseable acceptedAt")
    else if r.termsHash == "" || r.termsHash != env.termsHashHex(env.termsText) then Refused("other terms")
    else
      var pk := if r.participantDid == "" then None else env.resolveSenderPk(r.participantDid, genesis);
      if pk.None? then Refused("no key resolves")
      else if !env.verify(pk.value, signature, r) then Refused("signature does not verify")
      else Accepted(r)
  }

  /** The checks in the order they are made. */
  function Check<Pk>(env: Env<Pk>, body: Body): Verdict {
    if env.serviceDid == "" || env.termsText == "" then Refused("not configured")
    else if body.acceptance.None? then Refused("expected an acceptance object")
    else if body.signature.None? then Refused("expected a 64-byte hex schnorr signature")
    else
      var o := body.acceptance.value;
      match CheckFields(o)
      case Some(reason) => Refused(reason)
      case None => CheckRecord(env, AsRecord(o), body.genesis, body.signature.value)
  }

  // ---- The field set ----------------------------------------------------------------------------

  function TotalLength(keys: seq<string>): nat {
    if keys == [] then 0 else |keys[0]| + TotalLength(keys[1..])
  }

  lemma {:induction false} TotalLengthLast(keys: seq<string>, k: string)
    ensures TotalLength(keys + [k]) == TotalLength(keys) + |k|
  {
    if keys == [] {
      assert [k][1..] == [];
    } else {
      assert (keys + [k])[1..] == keys[1..] + [k];
      TotalLengthLast(keys[1..], k);
    }
  }

  lemma {:induction false} JoinLength(keys: seq<string>)
    requires keys != []
    ensures |JoinWithCommas(keys)| == TotalLength(keys) + |keys| - 1
  {
    var n := |keys| - 1;
    assert keys == keys[..n] + [keys[n]];
    TotalLengthLast(keys[..n], keys[n]);
    if n > 0 { JoinLength(keys[..n]); }
  }

  lemma {:induction false} InsertKeyShape(k: string, keys: seq<string>)
    ensures TotalLength(InsertKey(k, keys)) == |k| + TotalLength(keys) && |InsertKey(k, keys)| == |keys| + 1
  {
    if keys != [] && !Sorting.LexLe(Codes(k), Codes(keys[0])) {
      InsertKeyShape(k, keys[1..]);
      assert InsertKey(k, keys)[1..] == InsertKey(k, keys[1..]);
    } else {
      assert InsertKey(k, keys)[1..] == keys;
    }
  }

  lemma {:induction false} SortKeysShape(keys: seq<string>)
    ensures TotalLength(SortKeys(keys)) == TotalLength(keys) && |SortKeys(keys)| == |keys|
  {
    if keys != [] {
      SortKeysShape(keys[1..]);
      InsertKeyShape(keys[0], SortKeys(keys[1..]));
    }
  }

  lemma {:induction false} RemoveKeyLength(keys: seq<string>, k: string)
    requires NoDup(keys) && k in keys
    ensures TotalLength(keys) == TotalLength(Without(keys, k)) + |k| && |keys| == |Without(keys, k)| + 1
  {
    if keys[0] == k {
      WithoutAbsent(keys[1..], k);
    } else {
      RemoveKeyLength(keys[1..], k);
      assert Without(keys, k)[1..] == Without(keys[1..], k);
    }
  }

  /** Distinct keys that include all the named ones join to a longer text than these alone, unless they are the same. */
  lemma {:induction false} SupersetIsLonger(keys: seq<string>, named: seq<string>)
    requires NoDup(keys) && NoDup(named) && forall k :: k in named ==> k in keys
    ensures TotalLength(keys) + |keys| >= TotalLength(named) + |named|
    ensures TotalLength(keys) + |keys| == TotalLength(named) + |named| ==> forall k :: k in keys ==> k in named
    decreases |named|
  {
    if named != [] {
      WithoutNoDup(keys, named[0]);
      RemoveKeyLength(keys, named[0]);
      assert named[0] !in named[1..];
      SupersetIsLonger(Without(keys, named[0]), named[1..]);
    }
  }

  /** Comparing joined sorted keys, where the named ones are all present, amounts to exact equality of the key sets. */
  lemma JoinedKeysMeanSameKeys(keys: seq<string>, named: seq<string>)
    requires NoDup(keys) && NoDup(named) && named != []
    requires JoinWithCommas(SortKeys(keys)) == JoinWithCommas(SortKeys(named))
    requires forall k :: k in named ==> k in keys
    ensures forall k :: k in keys <==> k in named
  {
    SortKeysShape(keys);
    SortKeysShape(named);
    assert named[0] in keys;
    JoinLength(SortKeys(keys));
    JoinLength(SortKeys(named));
    SupersetIsLonger(keys, named);
  }

  // ---- Order of the keys ------------------------------------------------------------------------

  ghost function CodesOf(keys: seq<string>): seq<seq<int>> {
    if keys == [] then [] else [Codes(keys[0])] + CodesOf(keys[1..])
  }

  lemma CodesTellStringsApart(a: string, b: string)
    requires Codes(a) == Codes(b)
    ensures a == b
  {
    assert |a| == |Codes(a)| == |b|;
    forall i | 0 <= i < |a| ensures a[i] == b[i] {
      assert Codes(a)[i] == Codes(b)[i];
    }
  }

  lemma {:induction false} CodesOfTellListsApart(a: seq<string>, b: seq<string>)
    requires CodesOf(a) == CodesOf(b)
    ensures a == b
  {
    if a != [] && b != [] {
      assert CodesOf(a)[0] == CodesOf(b)[0] && CodesOf(a)[1..] == CodesOf(b)[1..];
      CodesTellStringsApart(a[0], b[0]);
      CodesOfTellListsApart(a[1..], b[1..]);
      assert a == [a[0]] + a[1..] && b == [b[0]] + b[1..];
    }
  }

  lemma {:induction false} InsertCodes(k: string, keys: seq<string>)
    ensures CodesOf(InsertKey(k, keys)) == Sorting.Insert(Codes(k), CodesOf(keys))
  {
    if keys == [] {
      assert CodesOf([k]) == [Codes(k)];
    } else if Sorting.LexLe(Codes(k), Codes(keys[0])) {
      assert ([k] + keys)[1..] == keys;
    } else {
      InsertCodes(k, keys[1..]);
      assert InsertKey(k, keys)[1..] == InsertKey(k, keys[1..]);
      assert CodesOf(keys)[1..] == CodesOf(keys[1..]);
    }
  }

  lemma {:induction false} SortCodes(keys: seq<string>)
    ensures CodesOf(SortKeys(keys)) == Sorting.Sort(CodesOf(keys))
  {
    if keys != [] {
      SortCodes(keys[1..]);
      InsertCodes(keys[0], SortKeys(keys[1..]));
      assert CodesOf(keys)[1..] == CodesOf(keys[1..]);
    }
  }

  lemma {:induction false} CodesOfDistinct(keys: seq<string>)
    requires NoDup(keys)
    ensures NoDup(CodesOf(keys)) && Elems(CodesOf(keys)) == set k | k in keys :: Codes(k)
  {
    if keys != [] {
      var rest := CodesOf(keys[1..]);
      CodesOfDistinct(keys[1..]);
      assert keys == [keys[0]] + keys[1..] && keys[0] !in keys[1..];
      if Codes(keys[0]) in rest {
        assert Codes(keys[0]) in Elems(rest);
        var k :| k in keys[1..] && Codes(k) == Codes(keys[0]);
        CodesTellStringsApart(k, keys[0]);
      }
      assert Elems(CodesOf(keys)) == {Codes(keys[0])} + Elems(rest);
    }
  }

  /** `Object.keys(...).sort()` does not depend on the order the keys were submitted in. */
  lemma SameKeysSortAlike(a: seq<string>, b: seq<string>)
    requires NoDup(a) && NoDup(b) && forall k :: k in a <==> k in b
    ensures SortKeys(a) == SortKeys(b)
  {
    CodesOfDistinct(a);
    CodesOfDistinct(b);
    SameElementsSameMultiset(CodesOf(a), CodesOf(b));
    Sorting.SortForgetsOrderOnly(CodesOf(a), CodesOf(b));
    SortCodes(a);
    SortCodes(b);
    CodesOfTellListsApart(SortKeys(a), SortKeys(b));
  }

  lemma FieldNamesDiffer()
    ensures NoDup(TERMS_ACCEPTANCE_FIELDS)
  {
    assert |CONTEXT| == 8 && |TYPE| == 4 && |SERVICE_DID| == 10 && |COHORT_ID| == 8;
    assert |TERMS_HASH| == 9 && |PARTICIPANT_DID| == 14 && |ACCEPTED_AT| == 10;
    assert CONTEXT[0] != COHORT_ID[0] && SERVICE_DID[0] != ACCEPTED_AT[0];
  }

  predicate SignedBy<Pk(==)>(env: Env<Pk>, r: Record, genesis: Option<string>, signature: string, pk: Pk) {
    env.resolveSenderPk(r.participantDid, genesis) == Some(pk) && env.verify(pk, signature, r)
  }

  /** Every field is present, none of them empty. */
  predicate Filled(r: Record) {
    && r.context != "" && r.kind != "" && r.serviceDid != "" && r.cohortId != ""
    && r.termsHash != "" && r.participantDid != "" && r.acceptedAt != ""
  }

  /** What a record must be, whoever reads it: this service's, its current terms, and signed. */
  ghost predicate RecordPasses<Pk(!new)>(env: Env<Pk>, r: Record, genesis: Option<string>, signature: string) {
    && r.context == env.context && r.kind == env.acceptanceType && r.serviceDid == env.serviceDid
    && CohortIdShape(r.cohortId) && env.parsesAsDate(r.acceptedAt)
    && r.termsHash == env.termsHashHex(env.termsText)
    && exists pk :: SignedBy(env, r, genesis, signature, pk)
  }

  lemma RecordAcceptedExactly<Pk(!new)>(env: Env<Pk>, r: Record, genesis: Option<string>, signature: string)
    requires env.serviceDid != ""
    ensures CheckRecord(env, r, genesis, signature).Accepted? <==>
            Filled(r) && RecordPasses(env, r, genesis, signature)
    ensures CheckRecord(env, r, genesis, signature).Accepted? ==>
            CheckRecord(env, r, genesis, signature).record == r
  {
    var pk := env.resolveSenderPk(r.participantDid, genesis);
    if pk.Some? && env.verify(pk.value, signature, r) {
      assert SignedBy(env, r, genesis, signature, pk.value);
    }
  }

  /** The object has exactly the frozen fields, each a string within bounds. */
  ghost predicate FieldsPass(o: OMap<string, Json>) {
    && (forall k :: k in o.table <==> k in TERMS_ACCEPTANCE_FIELDS)
    && (forall k :: k in o.table ==> StringFieldOk(o.table[k]))
  }

  lemma PresentFields(o: OMap<string, Json>, k: string)
    requires o.Valid() && Field(o, k) != ""
    ensures k in o.order
  {
  }

  lemma NamedFieldsPresent(o: OMap<string, Json>)
    requires o.Valid() && Filled(AsRecord(o))
    ensures forall k :: k in TERMS_ACCEPTANCE_FIELDS ==> k in o.order
  {
    PresentFields(o, CONTEXT);
    PresentFields(o, TYPE);
    PresentFields(o, SERVICE_DID);
    PresentFields(o, COHORT_ID);
    PresentFields(o, TERMS_HASH);
    PresentFields(o, PARTICIPANT_DID);
    PresentFields(o, ACCEPTED_AT);
  }

  lemma FilledFrom(o: OMap<string, Json>)
    requires FieldsPass(o)
    ensures Filled(AsRecord(o))
  {
    assert forall k :: k in TERMS_ACCEPTANCE_FIELDS ==> k in o.table && StringFieldOk(o.table[k]);
    assert CONTEXT in o.table && TYPE in o.table && SERVICE_DID in o.table && COHORT_ID in o.table;
    assert TERMS_HASH in o.table && PARTICIPANT_DID in o.table && ACCEPTED_AT in o.table;
  }

  lemma CheckedFieldsPass(o: OMap<string, Json>)
    requires o.Valid() && CheckFields(o).None? && Filled(AsRecord(o))
    ensures FieldsPass(o)
  {
    FieldNamesDiffer();
    NamedFieldsPresent(o);
    JoinedKeysMeanSameKeys(o.order, TERMS_ACCEPTANCE_FIELDS);
  }

  lemma PassingFieldsAreChecked(o: OMap<string, Json>)
    requires o.Valid() && FieldsPass(o)
    ensures CheckFields(o).None?
  {
    FieldNamesDiffer();
    SameKeysSortAlike(o.order, TERMS_ACCEPTANCE_FIELDS);
  }

  /** With no field empty, comparing joined names and looking at each value is what it is meant to be. */
  lemma FieldsCheckedExactly(o: OMap<string, Json>)
    requires o.Valid()
    ensures CheckFields(o).None? && Filled(AsRecord(o)) <==> FieldsPass(o)
  {
    if CheckFields(o).None? && Filled(AsRecord(o)) {
      CheckedFieldsPass(o);
    }
    if FieldsPass(o) {
      PassingFieldsAreChecked(o);
      FilledFrom(o);
    }
  }

  /** A cohort id by its character codes: digits, capitals, small letters and the hyphen. */
  ghost predicate IsCohortId(s: string) {
    && 1 <= |s| <= 64
    && forall i :: 0 <= i < |s| ==>
         var code := s[i] as int; 48 <= code <= 57 || 65 <= code <= 90 || 97 <= code <= 122 || code == 45
  }

  lemma ShapeIsCharacters(s: string)
    ensures CohortIdShape(s) <==> IsCohortId(s)
  {
    if IsCohortId(s) {
      forall c | c in s ensures InCohortIdAlphabet(c) {
        var i :| 0 <= i < |s| && s[i] == c;
        assert 48 <= s[i] as int <= 57 || 65 <= s[i] as int <= 90 || 97 <= s[i] as int <= 122 || s[i] as int == 45;
      }
    }
    if CohortIdShape(s) {
      forall i | 0 <= i < |s|
        ensures var code := s[i] as int; 48 <= code <= 57 || 65 <= code <= 90 || 97 <= code <= 122 || code == 45
      {
        assert InCohortIdAlphabet(s[i]);
      }
    }
  }

  /** The record holds, under each field's own name, the text the object holds there, and the object nothing else. */
  ghost predicate Reads(o: OMap<string, Json>, r: Record) {
    && o.table.Keys == {"@context", "type", "serviceDid", "cohortId", "termsHash", "participantDid", "acceptedAt"}
    && o.table["@context"] == Str(r.context) && o.table["type"] == Str(r.kind)
    && o.table["serviceDid"] == Str(r.serviceDid) && o.table["cohortId"] == Str(r.cohortId)
    && o.table["termsHash"] == Str(r.termsHash) && o.table["participantDid"] == Str(r.participantDid)
    && o.table["acceptedAt"] == Str(r.acceptedAt)
  }

  /**
   Everything an acceptance must be, said of the submitted object, with no order of checks and no joined strings:
   exactly the seven fields, each a text of 1 to 512 characters; this service's, of its current terms, for a
   cohort id, dated, and signed by the key its participant resolves to.
   */
  ghost predicate Acceptable<Pk(!new)>(env: Env<Pk>, body: Body, r: Record) {
    && env.serviceDid != "" && env.termsText != "" && body.acceptance.Some? && body.signature.Some?
    && Reads(body.acceptance.value, r)
    && (forall k :: k in body.acceptance.value.table ==> 1 <= |body.acceptance.value.table[k].s| <= 512)
    && r.context == env.context && r.kind == env.acceptanceType && r.serviceDid == env.serviceDid
    && IsCohortId(r.cohortId) && env.parsesAsDate(r.acceptedAt) && r.termsHash == env.termsHashHex(env.termsText)
    && exists pk :: env.resolveSenderPk(r.participantDid, body.genesis) == Some(pk)
                    && env.verify(pk, body.signature.value, r)
  }

  lemma TheSevenFields(k: string)
    ensures k in TERMS_ACCEPTANCE_FIELDS <==>
            k in {"@context", "type", "serviceDid", "cohortId", "termsHash", "participantDid", "acceptedAt"}
  {
  }

  lemma OnlyItsRecord(o: OMap<string, Json>, r: Record)
    requires Reads(o, r)
    ensures r == AsRecord(o)
  {
  }

  lemma FieldsPassReads(o: OMap<string, Json>)
    ensures FieldsPass(o) <==>
            Reads(o, AsRecord(o)) && forall k :: k in o.table ==> 1 <= |o.table[k].s| <= 512
  {
    forall k ensures k in TERMS_ACCEPTANCE_FIELDS <==>
                       k in {"@context", "type", "serviceDid", "cohortId", "termsHash", "participantDid", "acceptedAt"}
    {
      TheSevenFields(k);
    }
    if FieldsPass(o) {
      assert CONTEXT in o.table && TYPE in o.table && SERVICE_DID in o.table && COHORT_ID in o.table;
      assert TERMS_HASH in o.table && PARTICIPANT_DID in o.table && ACCEPTED_AT in o.table;
    }
  }

  /** The chain of checks accepts exactly the acceptances that are acceptable, and hands on the record as submitted. */
  lemma AcceptedExactly<Pk(!new)>(env: Env<Pk>, body: Body)
    requires body.acceptance.Some? ==> body.acceptance.value.Valid()
    ensures Check(env, body).Accepted? <==> exists r :: Acceptable(env, body, r)
    ensures forall r :: Acceptable(env, body, r) ==> Check(env, body) == Accepted(r)
  {
    if env.serviceDid != "" && body.acceptance.Some? && body.signature.Some? {
      var o := body.acceptance.value;
      FieldsCheckedExactly(o);
      FieldsPassReads(o);
      RecordAcceptedExactly(env, AsRecord(o), body.genesis, body.signature.value);
      ShapeIsCharacters(AsRecord(o).cohortId);
      forall r | Acceptable(env, body, r) ensures r == AsRecord(o) { OnlyItsRecord(o, r); }
      PassingIsAcceptable(env, body);
    }
  }

  lemma PassingIsAcceptable<Pk(!new)>(env: Env<Pk>, body: Body)
    requires env.serviceDid != "" && body.acceptance.Some? && body.signature.Some?
    ensures env.termsText != "" && FieldsPass(body.acceptance.value)
            && RecordPasses(env, AsRecord(body.acceptance.value), body.genesis, body.signature.value)
            <==> Acceptable(env, body, AsRecord(body.acceptance.value))
  {
    var r := AsRecord(body.acceptance.value);
    FieldsPassReads(body.acceptance.value);
    ShapeIsCharacters(r.cohortId);
    if pk :| SignedBy(env, r, body.genesis, body.signature.value, pk) {
      assert env.resolveSenderPk(r.participantDid, body.genesis) == Some(pk);
    }
    if pk :| env.resolveSenderPk(r.participantDid, body.genesis) == Some(pk)
             && env.verify(pk, body.signature.value, r) {
      assert SignedBy(env, r, body.genesis, body.signature.value, pk);
    }
  }

  // ---- One request at a time --------------------------------------------------------------------

  datatype Book = Book(ledger: Ledger, store: map<Hash, Record>)

  function KeyOf(r: Record): DedupKey {
    AcceptanceDedupKey(r.participantDid, r.cohortId)
  }

  /** Put, remember, then delete what the ledger dropped. */
  function Admit(b: Book, r: Record, hash: Hash): Book {
    Book(
      b.ledger.Remember(KeyOf(r), hash, MAX_ACCEPTANCES),
      b.store[hash := r] - (set h | h in Dropped(b.ledger, KeyOf(r), hash) && h != hash))
  }

  /** Ledger and store hold exactly the same hashes: each key its record, each record under its own hash and key. */
  ghost predicate Agrees(b: Book, hashHex: Record -> Hash) {
    b.ledger.Valid() && |b.ledger.order| <= MAX_ACCEPTANCES && TablesAgree(b.ledger.table, b.store, hashHex)
  }

  ghost predicate TablesAgree(table: map<DedupKey, Hash>, store: map<Hash, Record>, hashHex: Record -> Hash) {
    && (forall k :: k in table ==> table[k] in store && KeyOf(store[table[k]]) == k)
    && (forall h :: h in store ==> HeldByItsKey(table, store, h, hashHex))
  }

  ghost predicate HeldByItsKey(table: map<DedupKey, Hash>, store: map<Hash, Record>, h: Hash, hashHex: Record -> Hash)
    requires h in store
  {
    hashHex(store[h]) == h && KeyOf(store[h]) in table && table[KeyOf(store[h])] == h
  }

  ghost predicate CollisionFree(hashHex: Record -> Hash) {
    forall r, r' :: hashHex(r) == hashHex(r') ==> r == r'
  }

  lemma RememberOnLedger(m: Ledger, key: DedupKey, hash: Hash)
    requires m.Valid() && |m.order| <= MAX_ACCEPTANCES
    ensures var m' := m.Remember(key, hash, MAX_ACCEPTANCES);
            && m'.Valid() && |m'.order| <= MAX_ACCEPTANCES
            && m'.table == (if key in m.table || |m.order| < MAX_ACCEPTANCES then m.table
                            else m.table - {m.order[0]})[key := hash]
            && (key !in m.table && m.order != [] ==> m.order[0] in m.table)
  {
    PutShape(m, key, hash);
    RememberValid(m, key, hash, MAX_ACCEPTANCES);
    var p := m.Put(key, hash);
    if |p.order| > MAX_ACCEPTANCES {
      var oldest := m.order[0];
      assert p.order == m.order + [key] && p.order[0] == oldest && oldest in m.order;
      var d := OMap(p.order[1..], p.table - {oldest});
      assert p.Trim(MAX_ACCEPTANCES) == d.Trim(MAX_ACCEPTANCES) == d;
      assert d.table == (m.table - {oldest})[key := hash];
    } else {
      assert p.Trim(MAX_ACCEPTANCES) == p;
    }
  }

  /** Filing a record under its key, with at most one key's hash retired for it. */
  lemma FileAgrees(table: map<DedupKey, Hash>, store: map<Hash, Record>, r: Record, gone: Option<DedupKey>,
                   hashHex: Record -> Hash)
    requires TablesAgree(table, store, hashHex) && CollisionFree(hashHex)
    requires if gone.Some? then gone.value in table && (gone.value == KeyOf(r) || KeyOf(r) !in table)
             else KeyOf(r) !in table
    ensures var h := hashHex(r);
            if gone.Some?
            then TablesAgree((table - {gone.value})[KeyOf(r) := h],
                             store[h := r] - ({table[gone.value]} - {h}), hashHex)
            else TablesAgree(table[KeyOf(r) := h], store[h := r], hashHex)
  {
    var h, key := hashHex(r), KeyOf(r);
    assert h in store ==> HeldByItsKey(table, store, h, hashHex);
    var table' := if gone.Some? then (table - {gone.value})[key := h] else table[key := h];
    var store' := if gone.Some? then store[h := r] - ({table[gone.value]} - {h}) else store[h := r];
    forall x | x in store' ensures HeldByItsKey(table', store', x, hashHex) {
      if x != h { assert HeldByItsKey(table, store, x, hashHex); }
    }
  }

  /** The key whose hash an admission retires: the record's own, or the oldest one of a full ledger. */
  function Retired(m: Ledger, key: DedupKey): Option<DedupKey> {
    if key in m.table then Some(key)
    else if |m.order| == MAX_ACCEPTANCES then Some(m.order[0])
    else None
  }

  lemma AdmitShape(b: Book, r: Record, h: Hash)
    requires b.ledger.Valid() && |b.ledger.order| <= MAX_ACCEPTANCES
    ensures var b' := Admit(b, r, h); var gone := Retired(b.ledger, KeyOf(r));
            && b'.ledger.Valid() && |b'.ledger.order| <= MAX_ACCEPTANCES
            && (gone.Some? ==> gone.value in b.ledger.table)
            && b'.ledger.table == (if gone.Some? then b.ledger.table - {gone.value} else b.ledger.table)[KeyOf(r) := h]
            && b'.store == if gone.Some? then b.store[h := r] - ({b.ledger.table[gone.value]} - {h})
                           else b.store[h := r]
  {
    RememberOnLedger(b.ledger, KeyOf(r), h);
    var gone, drop := Retired(b.ledger, KeyOf(r)), Dropped(b.ledger, KeyOf(r), h);
    if gone.Some? {
      assert (set x | x in drop && x != h) == {b.ledger.table[gone.value]} - {h};
    } else {
      assert (set x | x in drop && x != h) == {};
    }
    if KeyOf(r) in b.ledger.table {
      assert b.ledger.table[KeyOf(r) := h] == (b.ledger.table - {KeyOf(r)})[KeyOf(r) := h];
    }
  }

  lemma AdmitAgrees(b: Book, r: Record, hashHex: Record -> Hash)
    requires Agrees(b, hashHex) && CollisionFree(hashHex)
    ensures Agrees(Admit(b, r, hashHex(r)), hashHex)
    ensures hashHex(r) in Admit(b, r, hashHex(r)).store && KeyOf(r) in Admit(b, r, hashHex(r)).ledger.table
    ensures Admit(b, r, hashHex(r)).ledger.table[KeyOf(r)] == hashHex(r)
  {
    AdmitShape(b, r, hashHex(r));
    FileAgrees(b.ledger.table, b.store, r, Retired(b.ledger, KeyOf(r)), hashHex);
  }

  function RunBook(rs: seq<Record>, hashHex: Record -> Hash): Book {
    if rs == [] then Book(OMap([], map[]), map[])
    else Admit(RunBook(rs[..|rs| - 1], hashHex), rs[|rs| - 1], hashHex(rs[|rs| - 1]))
  }

  lemma {:induction false} RunAgrees(rs: seq<Record>, hashHex: Record -> Hash)
    requires CollisionFree(hashHex)
    ensures Agrees(RunBook(rs, hashHex), hashHex)
  {
    if rs != [] {
      RunAgrees(rs[..|rs| - 1], hashHex);
      AdmitAgrees(RunBook(rs[..|rs| - 1], hashHex), rs[|rs| - 1], hashHex);
    }
  }

  function AdmitOps(rs: seq<Record>, hashHex: Record -> Hash): seq<Op<DedupKey, Hash>> {
    seq(|rs|, i requires 0 <= i < |rs| => Touch(KeyOf(rs[i]), hashHex(rs[i])))
  }

  lemma {:induction false} LedgerIsItsOps(rs: seq<Record>, hashHex: Record -> Hash)
    ensures RunBook(rs, hashHex).ledger == Run(AdmitOps(rs, hashHex), MAX_ACCEPTANCES)
  {
    if rs != [] {
      var n := |rs| - 1;
      LedgerIsItsOps(rs[..n], hashHex);
      assert AdmitOps(rs, hashHex)[..n] == AdmitOps(rs[..n], hashHex);
    }
  }

  /** The keys accepted after position `i`, the one accepted at `i` excluded. */
  ghost function KeysAcceptedAfter(rs: seq<Record>, i: nat): set<DedupKey>
    requires i < |rs|
  {
    set j | i < j < |rs| && KeyOf(rs[j]) != KeyOf(rs[i]) :: KeyOf(rs[j])
  }

  lemma TouchesAreAcceptances(rs: seq<Record>, hashHex: Record -> Hash, i: nat)
    requires i < |rs|
    ensures TouchedAfter(AdmitOps(rs, hashHex), i, KeyOf(rs[i])) == KeysAcceptedAfter(rs, i)
  {
    var ops, key := AdmitOps(rs, hashHex), KeyOf(rs[i]);
    forall x | x in KeysAcceptedAfter(rs, i) ensures x in TouchedAfter(ops, i, key) {
      var j :| i < j < |rs| && KeyOf(rs[j]) != key && KeyOf(rs[j]) == x;
      assert ops[j].key == x;
    }
  }

  /**
   After any sequence of accepted requests, reposts and replacements included, the store resolves the
   last record accepted for a participant and cohort if and only if fewer than 200 other pairs were
   accepted after it.
   */
  lemma SurvivorsAreMostRecent(rs: seq<Record>, hashHex: Record -> Hash, i: nat)
    requires CollisionFree(hashHex) && i < |rs|
    requires forall j :: i < j < |rs| ==> KeyOf(rs[j]) != KeyOf(rs[i])
    ensures hashHex(rs[i]) in RunBook(rs, hashHex).store <==> |KeysAcceptedAfter(rs, i)| < MAX_ACCEPTANCES
  {
    var b, ops, key := RunBook(rs, hashHex), AdmitOps(rs, hashHex), KeyOf(rs[i]);
    RunAgrees(rs, hashHex);
    LedgerIsItsOps(rs, hashHex);
    assert ops[i].key == key && LastOp(ops, key) == i;
    TouchesAreAcceptances(rs, hashHex, i);
    RunHoldsMostRecent(ops, key, MAX_ACCEPTANCES);
    var h := hashHex(rs[i]);
    if h in b.store {
      assert HeldByItsKey(b.ledger.table, b.store, h, hashHex);
    }
  }

  // ---- By participant and cohort ----------------------------------------------------------------

  /** The participant and cohort pairs accepted after position `i`, the pair accepted at `i` excluded. */
  ghost function PairsAcceptedAfter(rs: seq<Record>, i: nat): set<(string, string)>
    requires i < |rs|
  {
    set j | i < j < |rs| && (rs[j].participantDid != rs[i].participantDid || rs[j].cohortId != rs[i].cohortId) ::
      (rs[j].participantDid, rs[j].cohortId)
  }

  lemma {:induction false} SameSizeImage(pairs: set<(string, string)>, keys: set<DedupKey>)
    requires forall p :: p in pairs ==> CohortIdShape(p.1)
    requires keys == set p | p in pairs :: AcceptanceDedupKey(p.0, p.1)
    ensures |keys| == |pairs|
  {
    if pairs != {} {
      var p :| p in pairs;
      var k := AcceptanceDedupKey(p.0, p.1);
      forall q | q in pairs && q != p ensures AcceptanceDedupKey(q.0, q.1) != k {
        DedupKeyIsInjective(p.0, p.1, q.0, q.1);
      }
      SameSizeImage(pairs - {p}, keys - {k});
    }
  }

  lemma KeysAreThePairs(rs: seq<Record>, i: nat)
    requires i < |rs| && forall j :: 0 <= j < |rs| ==> CohortIdShape(rs[j].cohortId)
    ensures |KeysAcceptedAfter(rs, i)| == |PairsAcceptedAfter(rs, i)|
  {
    forall j, k | 0 <= j < |rs| && 0 <= k < |rs|
      ensures KeyOf(rs[j]) == KeyOf(rs[k]) <==>
              rs[j].participantDid == rs[k].participantDid && rs[j].cohortId == rs[k].cohortId
    {
      DedupKeyIsInjective(rs[j].participantDid, rs[j].cohortId, rs[k].participantDid, rs[k].cohortId);
    }
    var pairs := PairsAcceptedAfter(rs, i);
    var image := set p | p in pairs :: AcceptanceDedupKey(p.0, p.1);
    forall x | x in KeysAcceptedAfter(rs, i) ensures x in image {
      var j :| i < j < |rs| && KeyOf(rs[j]) != KeyOf(rs[i]) && KeyOf(rs[j]) == x;
      assert (rs[j].participantDid, rs[j].cohortId) in pairs;
    }
    SameSizeImage(pairs, image);
    assert image == KeysAcceptedAfter(rs, i);
  }

  /**
   After any sequence of accepted requests, reposts and replacements included: the last record accepted of a
   participant for a cohort is stored if and only if fewer than 200 other such pairs were accepted after it, and
   no earlier record of theirs with another hash is.
   */
  lemma SurvivorsByPair(rs: seq<Record>, hashHex: Record -> Hash, i: nat)
    requires CollisionFree(hashHex) && i < |rs| && forall j :: 0 <= j < |rs| ==> CohortIdShape(rs[j].cohortId)
    requires forall j :: i < j < |rs| ==>
               rs[j].participantDid != rs[i].participantDid || rs[j].cohortId != rs[i].cohortId
    ensures hashHex(rs[i]) in RunBook(rs, hashHex).store <==> |PairsAcceptedAfter(rs, i)| < 200
    ensures forall r: Record ::
              r.participantDid == rs[i].participantDid && r.cohortId == rs[i].cohortId && r != rs[i] ==>
              hashHex(r) !in RunBook(rs, hashHex).store
  {
    forall j | i < j < |rs| ensures KeyOf(rs[j]) != KeyOf(rs[i]) {
      DedupKeyIsInjective(rs[j].participantDid, rs[j].cohortId, rs[i].participantDid, rs[i].cohortId);
    }
    SurvivorsAreMostRecent(rs, hashHex, i);
    KeysAreThePairs(rs, i);
    OnlyTheLastOfItsKey(rs, hashHex, i);
  }

  lemma OnlyTheLastOfItsKey(rs: seq<Record>, hashHex: Record -> Hash, i: nat)
    requires CollisionFree(hashHex) && i < |rs|
    requires forall j :: i < j < |rs| ==> KeyOf(rs[j]) != KeyOf(rs[i])
    ensures forall r :: KeyOf(r) == KeyOf(rs[i]) && r != rs[i] ==> hashHex(r) !in RunBook(rs, hashHex).store
  {
    var b, ops, key := RunBook(rs, hashHex), AdmitOps(rs, hashHex), KeyOf(rs[i]);
    RunAgrees(rs, hashHex);
    LedgerIsItsOps(rs, hashHex);
    assert ops[i].key == key && LastOp(ops, key) == i;
    RunLookup(ops, key, MAX_ACCEPTANCES);
    forall r | KeyOf(r) == key && r != rs[i] ensures hashHex(r) !in b.store {
      assert hashHex(r) in b.store ==> HeldByItsKey(b.ledger.table, b.store, hashHex(r), hashHex);
    }
  }

  /** The record passed every check, in some request. */
  ghost predicate Judged<Pk(!new)>(env: Env<Pk>, r: Record) {
    exists body :: Acceptable(env, body, r)
  }

  /** The route with its ledger and its namespace of the store, changed in place. */
  class AcceptanceRoute<!Pk(!new)> {
    const env: Env<Pk>
    const ledger: AcceptanceLedger
    var store: map<Hash, Record>

    ghost predicate Valid()
      reads this, ledger, ledger.byKey
    {
      ledger.Valid() && Agrees(Model(), env.hashHex) && forall h :: h in store ==> Judged(env, store[h])
    }

    function Model(): Book
      reads this, ledger, ledger.byKey
    {
      Book(ledger.byKey.Model(), store)
    }

    constructor (env: Env<Pk>)
      ensures Valid() && Model() == Book(OMap([], map[]), map[]) && this.env == env
      ensures fresh(ledger) && fresh(ledger.byKey)
    {
      this.env, store := env, map[];
      ledger := new AcceptanceLedger();
    }

    /** Check, put, remember, delete. A refused request changes nothing; an accepted one leaves its hash resolvable. */
    method RecordTermsAcceptance(body: Body) returns (hash: Option<Hash>)
      requires Valid() && CollisionFree(env.hashHex)
      requires body.acceptance.Some? ==> body.acceptance.value.Valid()
      modifies this`store, ledger.byKey
      ensures Valid()
      ensures hash.Some? <==> exists r :: Acceptable(env, body, r)
      ensures hash.None? ==> Model() == old(Model())
      ensures forall r :: Acceptable(env, body, r) ==>
                && hash == Some(env.hashHex(r)) && hash.value in store && store[hash.value] == r
                && Model() == Admit(old(Model()), r, hash.value)
    {
      AcceptedExactly(env, body);
      var verdict := Check(env, body);
      if verdict.Refused? { return None; }
      AdmitAgrees(Model(), verdict.record, env.hashHex);
      assert Acceptable(env, body, verdict.record);
      var h := StoreThenReconcile(verdict.record);
      return Some(h);
    }

    method StoreThenReconcile(record: Record) returns (h: Hash)
      requires ledger.Valid()
      modifies this`store, ledger.byKey
      ensures ledger.Valid() && h == env.hashHex(record) && Model() == Admit(old(Model()), record, h)
    {
      h := env.hashHex(record);
      store := store[h := record];
      var drop := ledger.Remember(KeyOf(record), h);
      var i := 0;
      while i < |drop|
        invariant 0 <= i <= |drop| <= 1
        invariant store == old(store)[h := record] - (set x | x in drop[..i] && x != h)
        modifies this`store
      {
        if drop[i] != h {
          store := store - {drop[i]};
        }
        i := i + 1;
      }
      assert drop[..|drop|] == drop;
    }
  }
}
