/** Persisting a completed cohort's off-chain artifacts under the keys a resolver will ask for. */
module Persist {
  import opened Encoding
  import opened OrderedMap
  import opened Store

  type Did = string

  /** Canonical hashing (JCS, SHA-256), known only as digests of 32 bytes. */
  datatype Hashing = Hashing(ofDocument: Document -> Bytes, ofAnnouncement: CasAnnouncement -> Bytes) {
    ghost predicate Valid() {
      && (forall d :: |ofDocument(d)| == 32)
      && (forall a :: |ofAnnouncement(a)| == 32)
    }
  }

  datatype Cohort = Cohort(pendingUpdates: seq<(Did, Document)>, casAnnouncement: Option<CasAnnouncement>,
                           smtProofs: Option<seq<(Did, SmtProof)>>)

  datatype PersistSummary = PersistSummary(updates: nat, announcements: nat, proofs: nat,
                                           skippedProofs: nat)

  // ---- The writes a cohort calls for ------------------------------------------------------------

  function UpdateSlot(digest: Bytes): Slot {
    Slot(UpdateKind, ToHex(digest))
  }

  function ProofSlot(digest: Bytes): Slot {
    Slot(ProofKind, ToHex(digest))
  }

  function AnnouncementSlot(digest: Bytes): Slot {
    Slot(AnnouncementKind, ToHex(digest))
  }

  ghost function UpdateWrites(h: Hashing, us: seq<(Did, Document)>): seq<Write> {
    if us == [] then []
    else
      var u := us[|us| - 1].1;
      UpdateWrites(h, us[..|us| - 1]) + [Write(UpdateSlot(h.ofDocument(u)), Update(u))]
  }

  ghost function AnnouncementWrites(h: Hashing, a: Option<CasAnnouncement>): seq<Write> {
    match a
    case Some(m) => [Write(AnnouncementSlot(h.ofAnnouncement(m)), Announcement(m))]
    case None => []
  }

  predicate Decodes(p: SmtProof) {
    p.updateId == "" || FromBase64(p.updateId).Some?
  }

  ghost predicate AllDecode(ps: seq<(Did, SmtProof)>) {
    forall i :: 0 <= i < |ps| ==> Decodes(ps[i].1)
  }

  /** A proof without an update id is skipped; the first undecodable id ends the writing. */
  ghost function ProofWrites(ps: seq<(Did, SmtProof)>): seq<Write> {
    if ps == [] then []
    else
      var p := ps[|ps| - 1].1;
      var before := ProofWrites(ps[..|ps| - 1]);
      if p.updateId != "" && AllDecode(ps)
      then before + [Write(ProofSlot(FromBase64(p.updateId).value), Proof(p))]
      else before
  }

  ghost function ProofsOf(c: Cohort): seq<(Did, SmtProof)> {
    if c.smtProofs.Some? then c.smtProofs.value else []
  }

  ghost function Writes(h: Hashing, c: Cohort): seq<Write> {
    UpdateWrites(h, c.pendingUpdates) + AnnouncementWrites(h, c.casAnnouncement) + ProofWrites(ProofsOf(c))
  }

  /** The members that declined: no update, so nothing to file their proof under. */
  ghost function Decliners(ps: seq<(Did, SmtProof)>): nat {
    if ps == [] then 0
    else Decliners(ps[..|ps| - 1]) + if ps[|ps| - 1].1.updateId == "" then 1 else 0
  }

  /** `None` is the throw on an undecodable update id; what was written before it stays written. */
  method PersistCohortArtifacts(store: ArtifactStore, h: Hashing, cohort: Cohort)
    returns (r: Option<PersistSummary>)
    requires h.Valid()
    modifies store
    ensures store.contents == Applied(old(store.contents), Writes(h, cohort))
    ensures r.Some? <==> AllDecode(ProofsOf(cohort))
    ensures r.Some? ==>
              && r.value.updates == |cohort.pendingUpdates|
              && r.value.announcements == (if cohort.casAnnouncement.Some? then 1 else 0)
              && r.value.proofs + r.value.skippedProofs == |ProofsOf(cohort)|
              && r.value.skippedProofs == Decliners(ProofsOf(cohort))
  {
    ghost var before := store.contents;
    PersistUpdates(store, h, cohort.pendingUpdates);
    ghost var afterUpdates := store.contents;
    var announcements := 0;
    if cohort.casAnnouncement.Some? {
      var m := cohort.casAnnouncement.value;
      HexIsAKey(h.ofAnnouncement(m));
      var ok := store.Put(AnnouncementKind, ToHex(h.ofAnnouncement(m)), Announcement(m));
      AppliedStep(afterUpdates, [], Write(AnnouncementSlot(h.ofAnnouncement(m)), Announcement(m)));
      announcements := 1;
    }
    ghost var afterAnnouncement := store.contents;
    var us, anns := UpdateWrites(h, cohort.pendingUpdates), AnnouncementWrites(h, cohort.casAnnouncement);
    assert afterAnnouncement == Applied(afterUpdates, anns);
    AppliedAppend(before, us, anns);
    AppliedAppend(before, us + anns, ProofWrites(ProofsOf(cohort)));
    r := Some(PersistSummary(|cohort.pendingUpdates|, announcements, 0, 0));
    if cohort.smtProofs.Some? {
      var counts := PersistProofs(store, cohort.smtProofs.value);
      match counts {
        case Some((written, skipped)) =>
          r := Some(PersistSummary(|cohort.pendingUpdates|, announcements, written, skipped));
        case None =>
          r := None;
      }
    }
  }

  method PersistUpdates(store: ArtifactStore, h: Hashing, us: seq<(Did, Document)>)
    requires h.Valid()
    modifies store
    ensures store.contents == Applied(old(store.contents), UpdateWrites(h, us))
  {
    var i := 0;
    while i < |us|
      invariant 0 <= i <= |us|
      invariant store.contents == Applied(old(store.contents), UpdateWrites(h, us[..i]))
    {
      var u := us[i].1;
      var digest := h.ofDocument(u);
      HexIsAKey(digest);
      var ok := store.Put(UpdateKind, ToHex(digest), Update(u));
      assert us[..i + 1][..i] == us[..i];
      AppliedStep(old(store.contents), UpdateWrites(h, us[..i]), Write(UpdateSlot(digest), Update(u)));
      i := i + 1;
    }
    assert us[..i] == us;
  }

  /** Returns how many proofs were written and how many skipped. */
  method PersistProofs(store: ArtifactStore, ps: seq<(Did, SmtProof)>)
    returns (counts: Option<(nat, nat)>)
    modifies store
    ensures store.contents == Applied(old(store.contents), ProofWrites(ps))
    ensures counts.Some? <==> AllDecode(ps)
    ensures counts.Some? ==> counts.value.0 + counts.value.1 == |ps| && counts.value.1 == Decliners(ps)
  {
    var written, skipped := 0, 0;
    var i := 0;
    while i < |ps|
      invariant 0 <= i <= |ps| && AllDecode(ps[..i])
      invariant written + skipped == i && skipped == Decliners(ps[..i])
      invariant store.contents == Applied(old(store.contents), ProofWrites(ps[..i]))
    {
      var p := ps[i].1;
      ProofStep(ps, i);
      if p.updateId == "" {
        skipped := skipped + 1;
        i := i + 1;
        continue;
      }
      var key := FromBase64(p.updateId);
      if key.None? {
        StopsAtUndecodable(ps, i);
        return None;
      }
      PutProof(store, p, key.value);
      AppliedStep(old(store.contents), ProofWrites(ps[..i]), Write(ProofSlot(key.value), Proof(p)));
      written := written + 1;
      i := i + 1;
    }
    assert ps[..i] == ps;
    counts := Some((written, skipped));
  }

  method PutProof(store: ArtifactStore, p: SmtProof, key: Bytes)
    requires p.updateId != "" && FromBase64(p.updateId) == Some(key)
    modifies store
    ensures store.contents == old(store.contents)[ProofSlot(key) := Proof(p)]
  {
    IdIsNotEmpty(p.updateId);
    HexIsAKey(key);
    var _ := store.Put(ProofKind, ToHex(key), Proof(p));
  }

  /** One proof more. */
  lemma ProofStep(ps: seq<(Did, SmtProof)>, i: nat)
    requires i < |ps| && AllDecode(ps[..i])
    ensures AllDecode(ps[..i + 1]) <==> Decodes(ps[i].1)
    ensures Decliners(ps[..i + 1]) == Decliners(ps[..i]) + if ps[i].1.updateId == "" then 1 else 0
    ensures ProofWrites(ps[..i + 1]) ==
            if ps[i].1.updateId != "" && Decodes(ps[i].1)
            then ProofWrites(ps[..i]) + [Write(ProofSlot(FromBase64(ps[i].1.updateId).value), Proof(ps[i].1))]
            else ProofWrites(ps[..i])
  {
    var next := ps[..i + 1];
    assert next[..|next| - 1] == ps[..i] && next[i] == ps[i];
    assert AllDecode(next) <==> Decodes(ps[i].1) by {
      forall j | 0 <= j < i ensures Decodes(next[j].1) {
        assert ps[..i][j] == next[j];
      }
    }
  }

  lemma IdIsNotEmpty(id: string)
    requires id != "" && FromBase64(id).Some?
    ensures FromBase64(id).value != []
  {
    Base64IsCanonical(id);
  }

  lemma {:induction false} StopsAtUndecodable(ps: seq<(Did, SmtProof)>, i: nat)
    requires i < |ps| && !Decodes(ps[i].1)
    ensures ProofWrites(ps) == ProofWrites(ps[..i]) && !AllDecode(ps)
    decreases |ps|
  {
    if i < |ps| - 1 {
      StopsAtUndecodable(ps[..|ps| - 1], i);
      assert ps[..|ps| - 1][..i] == ps[..i];
    } else {
      assert ps[..i] == ps[..|ps| - 1];
    }
  }

  // ---- What is found afterwards -----------------------------------------------------------------

  ghost function Persisted(contents: map<Slot, Artifact>, h: Hashing, c: Cohort): map<Slot, Artifact> {
    Applied(contents, Writes(h, c))
  }

  /** Persisting a cohort twice is persisting it once. */
  lemma PersistIsIdempotent(contents: map<Slot, Artifact>, h: Hashing, c: Cohort)
    ensures Persisted(Persisted(contents, h, c), h, c) == Persisted(contents, h, c)
  {
    ReplayChangesNothing(contents, Writes(h, c));
  }

  lemma {:induction false} UpdateWritesAre(h: Hashing, us: seq<(Did, Document)>)
    ensures forall w :: w in UpdateWrites(h, us) ==>
              w.value.Update? && w.slot == UpdateSlot(h.ofDocument(w.value.update)) &&
              exists i :: 0 <= i < |us| && us[i].1 == w.value.update
    ensures forall i :: 0 <= i < |us| ==>
              Write(UpdateSlot(h.ofDocument(us[i].1)), Update(us[i].1)) in UpdateWrites(h, us)
  {
    if us != [] {
      UpdateWritesAre(h, us[..|us| - 1]);
    }
  }

  /** A proof filed under the hex of its own update id. */
  ghost predicate IsProofWrite(w: Write) {
    && w.value.Proof? && FromBase64(w.value.proof.updateId).Some?
    && w.slot == ProofSlot(FromBase64(w.value.proof.updateId).value)
  }

  lemma {:induction false} ProofWritesAre(ps: seq<(Did, SmtProof)>)
    ensures forall w :: w in ProofWrites(ps) ==>
              IsProofWrite(w) && exists i :: 0 <= i < |ps| && ps[i].1 == w.value.proof
  {
    if ps != [] {
      ProofWritesAre(ps[..|ps| - 1]);
    }
  }

  /** Each of the three groups of writes is alone in its namespace. */
  lemma WritesByKind(h: Hashing, c: Cohort, s: Slot)
    ensures LastWrite(Writes(h, c), s) ==
            match s.kind
            case UpdateKind => LastWrite(UpdateWrites(h, c.pendingUpdates), s)
            case AnnouncementKind => LastWrite(AnnouncementWrites(h, c.casAnnouncement), s)
            case ProofKind => LastWrite(ProofWrites(ProofsOf(c)), s)
            case GenesisKind => None
  {
    var us, anns := UpdateWrites(h, c.pendingUpdates), AnnouncementWrites(h, c.casAnnouncement);
    var ps := ProofWrites(ProofsOf(c));
    LastWriteAppend(us + anns, ps, s);
    LastWriteAppend(us, anns, s);
    UpdateWritesAre(h, c.pendingUpdates);
    ProofWritesAre(ProofsOf(c));
    LastWriteIsAWrite(us, s);
    LastWriteIsAWrite(anns, s);
    LastWriteIsAWrite(ps, s);
  }

  /**
   The update the announcement or a proof names in base64url is found under its hex: the store answers
   with a body of exactly that digest, which is what the resolver checks.
   */
  lemma UpdateIsFound(contents: map<Slot, Artifact>, h: Hashing, c: Cohort, i: nat, id: string)
    requires h.Valid() && i < |c.pendingUpdates|
    requires id == ToBase64(h.ofDocument(c.pendingUpdates[i].1))
    ensures Reencode(id).Some?
    ensures NormalizeHexKey(Reencode(id).value) == Some(Reencode(id).value)
    ensures match Lookup(Persisted(contents, h, c), Slot(UpdateKind, Reencode(id).value))
            case Some(Update(found)) => ToBase64(h.ofDocument(found)) == id
            case _ => false
  {
    var u := c.pendingUpdates[i].1;
    ReencodeIsFaithful(h.ofDocument(u), id);
    HexIsAKey(h.ofDocument(u));
    var s := UpdateSlot(h.ofDocument(u));
    var us := UpdateWrites(h, c.pendingUpdates);
    UpdateWritesAre(h, c.pendingUpdates);
    LastWriteIsAWrite(us, s);
    assert Write(s, Update(u)) in us;
    WritesByKind(h, c, s);
    AppliedIsLastWrite(contents, Writes(h, c), s);
    var found := LastWrite(us, s).value;
    assert Write(s, found) in us;
    HexIsInjective(h.ofDocument(found.update), h.ofDocument(u));
  }

  /**
   A member of a CAS cohort resolves: the announcement answers to the on-chain hash, and the update
   hash it gives the member answers, after re-encoding, with the member's update.
   */
  lemma CasMemberIsServed(contents: map<Slot, Artifact>, h: Hashing, c: Cohort, i: nat)
    requires h.Valid() && i < |c.pendingUpdates| && c.casAnnouncement.Some?
    requires var (did, u) := c.pendingUpdates[i];
             did in c.casAnnouncement.value && c.casAnnouncement.value[did] == ToBase64(h.ofDocument(u))
    ensures var m := c.casAnnouncement.value;
            && Lookup(Persisted(contents, h, c), AnnouncementSlot(h.ofAnnouncement(m))) ==
               Some(Announcement(m))
            && var (did, u) := c.pendingUpdates[i];
               && Reencode(m[did]).Some?
               && match Lookup(Persisted(contents, h, c), Slot(UpdateKind, Reencode(m[did]).value))
                  case Some(Update(found)) => h.ofDocument(found) == h.ofDocument(u)
                  case _ => false
  {
    var m := c.casAnnouncement.value;
    var (did, u) := c.pendingUpdates[i];
    var s := AnnouncementSlot(h.ofAnnouncement(m));
    WritesByKind(h, c, s);
    AppliedIsLastWrite(contents, Writes(h, c), s);
    UpdateIsFound(contents, h, c, i, m[did]);
    var found := Persisted(contents, h, c)[Slot(UpdateKind, Reencode(m[did]).value)].update;
    Base64RoundTrip(h.ofDocument(found));
    Base64RoundTrip(h.ofDocument(u));
  }

  // ---- Any number of cohorts --------------------------------------------------------------------

  /** The store after persisting cohorts one after another, failed ones included. */
  ghost function PersistAll(contents: map<Slot, Artifact>, h: Hashing, cs: seq<Cohort>): map<Slot, Artifact> {
    if cs == [] then contents else Persisted(PersistAll(contents, h, cs[..|cs| - 1]), h, cs[|cs| - 1])
  }

  /** The key of these 32 bytes holds an update with exactly that digest. */
  ghost predicate Serves(contents: map<Slot, Artifact>, h: Hashing, digest: Bytes) {
    match Lookup(contents, UpdateSlot(digest))
    case Some(Update(found)) => h.ofDocument(found) == digest
    case _ => false
  }

  lemma UpdateSurvives(contents: map<Slot, Artifact>, h: Hashing, c: Cohort, digest: Bytes)
    requires Serves(contents, h, digest)
    ensures Serves(Persisted(contents, h, c), h, digest)
  {
    var s := UpdateSlot(digest);
    var us := UpdateWrites(h, c.pendingUpdates);
    WritesByKind(h, c, s);
    AppliedIsLastWrite(contents, Writes(h, c), s);
    UpdateWritesAre(h, c.pendingUpdates);
    LastWriteIsAWrite(us, s);
    if LastWrite(us, s).Some? {
      HexIsInjective(h.ofDocument(LastWrite(us, s).value.update), digest);
    }
  }

  /** Whatever cohorts are persisted before and after it, a member's update stays available for good. */
  lemma {:induction false} UpdateIsFoundForGood(contents: map<Slot, Artifact>, h: Hashing, cs: seq<Cohort>,
                                                k: nat, i: nat)
    requires h.Valid() && k < |cs| && i < |cs[k].pendingUpdates|
    ensures Serves(PersistAll(contents, h, cs), h, h.ofDocument(cs[k].pendingUpdates[i].1))
    decreases |cs|
  {
    var digest := h.ofDocument(cs[k].pendingUpdates[i].1);
    var before := PersistAll(contents, h, cs[..|cs| - 1]);
    if k == |cs| - 1 {
      UpdateIsFound(before, h, cs[k], i, ToBase64(digest));
      ReencodeIsFaithful(digest, ToBase64(digest));
      var found := Persisted(before, h, cs[k])[UpdateSlot(digest)].update;
      Base64RoundTrip(h.ofDocument(found));
      Base64RoundTrip(digest);
    } else {
      UpdateIsFoundForGood(contents, h, cs[..|cs| - 1], k, i);
      UpdateSurvives(before, h, cs[|cs| - 1], digest);
    }
  }

  // ---- Proofs -----------------------------------------------------------------------------------

  /** No later member of the cohort carries the same update id. */
  ghost predicate LastOfItsId(ps: seq<(Did, SmtProof)>, i: nat) {
    i < |ps| && forall j :: i < j < |ps| && ps[j].1.updateId == ps[i].1.updateId ==> ps[j].1 == ps[i].1
  }

  lemma {:induction false} ProofSlotHolds(ps: seq<(Did, SmtProof)>, i: nat)
    requires i < |ps| && AllDecode(ps) && ps[i].1.updateId != ""
    ensures var s := ProofSlot(FromBase64(ps[i].1.updateId).value);
            LastWrite(ProofWrites(ps), s) == Some(Proof(LastWithId(ps, ps[i].1.updateId)))
    decreases |ps|
  {
    var id := ps[i].1.updateId;
    var s := ProofSlot(FromBase64(id).value);
    var q := ps[|ps| - 1].1;
    var before := ps[..|ps| - 1];
    if q.updateId == id {
      assert LastWrite(ProofWrites(ps), s) == Some(Proof(q));
    } else {
      ProofSlotHolds(before, i);
      if q.updateId != "" {
        DifferentIdsDifferentKeys(q.updateId, id);
        assert ProofWrites(ps)[..|ProofWrites(ps)| - 1] == ProofWrites(before);
      }
    }
  }

  lemma DifferentIdsDifferentKeys(a: string, b: string)
    requires FromBase64(a).Some? && FromBase64(b).Some? && a != b
    ensures ProofSlot(FromBase64(a).value) != ProofSlot(FromBase64(b).value)
  {
    Base64IsCanonical(a);
    Base64IsCanonical(b);
    HexIsInjective(FromBase64(a).value, FromBase64(b).value);
  }

  ghost function LastWithId(ps: seq<(Did, SmtProof)>, id: string): SmtProof
    requires exists i :: 0 <= i < |ps| && ps[i].1.updateId == id
  {
    if ps[|ps| - 1].1.updateId == id then ps[|ps| - 1].1
    else LastWithId(ps[..|ps| - 1], id)
  }

  /** A member's proof is in the store afterwards exactly when no later member claims its update id. */
  lemma ProofIsKeptExactly(contents: map<Slot, Artifact>, h: Hashing, c: Cohort, i: nat)
    requires var ps := ProofsOf(c); i < |ps| && AllDecode(ps) && ps[i].1.updateId != ""
    ensures var p := ProofsOf(c)[i].1;
            Lookup(Persisted(contents, h, c), ProofSlot(FromBase64(p.updateId).value)) == Some(Proof(p)) <==>
            LastWithId(ProofsOf(c), p.updateId) == p
    ensures LastOfItsId(ProofsOf(c), i) ==> LastWithId(ProofsOf(c), ProofsOf(c)[i].1.updateId) == ProofsOf(c)[i].1
  {
    var ps := ProofsOf(c);
    var s := ProofSlot(FromBase64(ps[i].1.updateId).value);
    ProofSlotHolds(ps, i);
    WritesByKind(h, c, s);
    AppliedIsLastWrite(contents, Writes(h, c), s);
    if LastOfItsId(ps, i) {
      LastIsLast(ps, i);
    }
  }

  lemma {:induction false} LastIsLast(ps: seq<(Did, SmtProof)>, i: nat)
    requires LastOfItsId(ps, i)
    ensures LastWithId(ps, ps[i].1.updateId) == ps[i].1
    decreases |ps|
  {
    if i < |ps| - 1 && ps[|ps| - 1].1.updateId != ps[i].1.updateId {
      LastIsLast(ps[..|ps| - 1], i);
    }
  }

  // ---- Announcements over many cohorts ----------------------------------------------------------

  /** The key of this digest holds an announcement with exactly that digest. */
  ghost predicate ServesAnnouncement(contents: map<Slot, Artifact>, h: Hashing, digest: Bytes) {
    match Lookup(contents, AnnouncementSlot(digest))
    case Some(Announcement(found)) => h.ofAnnouncement(found) == digest
    case _ => false
  }

  lemma AnnouncementStep(contents: map<Slot, Artifact>, h: Hashing, c: Cohort, digest: Bytes)
    requires || ServesAnnouncement(contents, h, digest)
             || (c.casAnnouncement.Some? && h.ofAnnouncement(c.casAnnouncement.value) == digest)
    ensures ServesAnnouncement(Persisted(contents, h, c), h, digest)
  {
    var s := AnnouncementSlot(digest);
    WritesByKind(h, c, s);
    AppliedIsLastWrite(contents, Writes(h, c), s);
    if c.casAnnouncement.Some? {
      HexIsInjective(h.ofAnnouncement(c.casAnnouncement.value), digest);
    }
  }

  lemma PersistAllStep(contents: map<Slot, Artifact>, h: Hashing, cs: seq<Cohort>)
    requires cs != []
    ensures PersistAll(contents, h, cs) == Persisted(PersistAll(contents, h, cs[..|cs| - 1]), h, cs[|cs| - 1])
  {
  }

  /** Whatever cohorts are persisted before and after it, a cohort's announcement hash stays answered for good. */
  lemma {:induction false} AnnouncementIsFoundForGood(contents: map<Slot, Artifact>, h: Hashing, cs: seq<Cohort>,
                                                      k: nat, m: CasAnnouncement)
    requires k < |cs| && cs[k].casAnnouncement == Some(m)
    ensures ServesAnnouncement(PersistAll(contents, h, cs), h, h.ofAnnouncement(m))
    decreases |cs|
  {
    var p, last := cs[..|cs| - 1], cs[|cs| - 1];
    if k < |p| {
      AnnouncementIsFoundForGood(contents, h, p, k, m);
    }
    AnnouncementStep(PersistAll(contents, h, p), h, last, h.ofAnnouncement(m));
    PersistAllStep(contents, h, cs);
  }

  // ---- Without collisions -----------------------------------------------------------------------

  /** No pending update of the cohort collides with this one. */
  ghost predicate NoOtherUpdate(h: Hashing, c: Cohort, u: Document) {
    forall j :: 0 <= j < |c.pendingUpdates| && h.ofDocument(c.pendingUpdates[j].1) == h.ofDocument(u) ==>
      c.pendingUpdates[j].1 == u
  }

  ghost predicate HoldsUpdate(contents: map<Slot, Artifact>, h: Hashing, u: Document) {
    Lookup(contents, UpdateSlot(h.ofDocument(u))) == Some(Update(u))
  }

  lemma UpdateItselfStep(contents: map<Slot, Artifact>, h: Hashing, c: Cohort, u: Document)
    requires NoOtherUpdate(h, c, u)
    requires HoldsUpdate(contents, h, u) || exists j :: 0 <= j < |c.pendingUpdates| && c.pendingUpdates[j].1 == u
    ensures HoldsUpdate(Persisted(contents, h, c), h, u)
  {
    var s, us := UpdateSlot(h.ofDocument(u)), UpdateWrites(h, c.pendingUpdates);
    WritesByKind(h, c, s);
    AppliedIsLastWrite(contents, Writes(h, c), s);
    UpdateWritesAre(h, c.pendingUpdates);
    LastWriteIsAWrite(us, s);
    if j :| 0 <= j < |c.pendingUpdates| && c.pendingUpdates[j].1 == u {
      assert Write(s, Update(u)) in us;
    }
    if LastWrite(us, s).Some? {
      HexIsInjective(h.ofDocument(LastWrite(us, s).value.update), h.ofDocument(u));
    }
  }

  lemma {:induction false} UpdateItselfInAll(contents: map<Slot, Artifact>, h: Hashing, cs: seq<Cohort>,
                                             k: nat, i: nat, u: Document)
    requires k < |cs| && i < |cs[k].pendingUpdates| && cs[k].pendingUpdates[i].1 == u
    requires forall l :: k <= l < |cs| ==> NoOtherUpdate(h, cs[l], u)
    ensures HoldsUpdate(PersistAll(contents, h, cs), h, u)
    decreases |cs|
  {
    var p, last := cs[..|cs| - 1], cs[|cs| - 1];
    if k < |p| {
      UpdateItselfInAll(contents, h, p, k, i, u);
    }
    UpdateItselfStep(PersistAll(contents, h, p), h, last, u);
    PersistAllStep(contents, h, cs);
  }

  /** Where no update persisted with it or after it collides with it, what is found is that very update. */
  lemma UpdateIsFoundItself(contents: map<Slot, Artifact>, h: Hashing, cs: seq<Cohort>, k: nat, i: nat)
    requires k < |cs| && i < |cs[k].pendingUpdates|
    requires forall l :: k <= l < |cs| ==> NoOtherUpdate(h, cs[l], cs[k].pendingUpdates[i].1)
    ensures Lookup(PersistAll(contents, h, cs), UpdateSlot(h.ofDocument(cs[k].pendingUpdates[i].1))) ==
            Some(Update(cs[k].pendingUpdates[i].1))
  {
    UpdateItselfInAll(contents, h, cs, k, i, cs[k].pendingUpdates[i].1);
  }

  ghost predicate NoOtherAnnouncement(h: Hashing, c: Cohort, m: CasAnnouncement) {
    c.casAnnouncement.Some? && h.ofAnnouncement(c.casAnnouncement.value) == h.ofAnnouncement(m) ==>
      c.casAnnouncement.value == m
  }

  ghost predicate HoldsAnnouncement(contents: map<Slot, Artifact>, h: Hashing, m: CasAnnouncement) {
    Lookup(contents, AnnouncementSlot(h.ofAnnouncement(m))) == Some(Announcement(m))
  }

  lemma AnnouncementItselfStep(contents: map<Slot, Artifact>, h: Hashing, c: Cohort, m: CasAnnouncement)
    requires NoOtherAnnouncement(h, c, m) && (HoldsAnnouncement(contents, h, m) || c.casAnnouncement == Some(m))
    ensures HoldsAnnouncement(Persisted(contents, h, c), h, m)
  {
    var s := AnnouncementSlot(h.ofAnnouncement(m));
    WritesByKind(h, c, s);
    AppliedIsLastWrite(contents, Writes(h, c), s);
    if c.casAnnouncement.Some? {
      HexIsInjective(h.ofAnnouncement(c.casAnnouncement.value), h.ofAnnouncement(m));
    }
  }

  /** Likewise for an announcement. */
  lemma {:induction false} AnnouncementIsFoundItself(contents: map<Slot, Artifact>, h: Hashing, cs: seq<Cohort>,
                                                     k: nat, m: CasAnnouncement)
    requires k < |cs| && cs[k].casAnnouncement == Some(m)
    requires forall l :: k <= l < |cs| ==> NoOtherAnnouncement(h, cs[l], m)
    ensures HoldsAnnouncement(PersistAll(contents, h, cs), h, m)
    decreases |cs|
  {
    var p, last := cs[..|cs| - 1], cs[|cs| - 1];
    if k < |p| {
      AnnouncementIsFoundItself(contents, h, p, k, m);
    }
    AnnouncementItselfStep(PersistAll(contents, h, p), h, last, m);
    PersistAllStep(contents, h, cs);
  }

  // ---- Proofs over many cohorts -----------------------------------------------------------------

  /** The cohort carries no other proof under the update id of this one. */
  ghost predicate LeavesId(c: Cohort, p: SmtProof) {
    forall j :: 0 <= j < |ProofsOf(c)| && ProofsOf(c)[j].1.updateId == p.updateId ==> ProofsOf(c)[j].1 == p
  }

  ghost predicate HoldsProof(contents: map<Slot, Artifact>, p: SmtProof) {
    && FromBase64(p.updateId).Some?
    && Lookup(contents, ProofSlot(FromBase64(p.updateId).value)) == Some(Proof(p))
  }

  lemma ProofSurvives(contents: map<Slot, Artifact>, h: Hashing, c: Cohort, p: SmtProof)
    requires LeavesId(c, p) && HoldsProof(contents, p)
    ensures HoldsProof(Persisted(contents, h, c), p)
  {
    var s, ps := ProofSlot(FromBase64(p.updateId).value), ProofWrites(ProofsOf(c));
    WritesByKind(h, c, s);
    AppliedIsLastWrite(contents, Writes(h, c), s);
    ProofWritesAre(ProofsOf(c));
    LastWriteIsAWrite(ps, s);
    if LastWrite(ps, s).Some? {
      var q := LastWrite(ps, s).value.proof;
      if q.updateId != p.updateId {
        DifferentIdsDifferentKeys(q.updateId, p.updateId);
      }
    }
  }

  lemma ProofIsFiled(contents: map<Slot, Artifact>, h: Hashing, c: Cohort, i: nat, p: SmtProof)
    requires LastOfItsId(ProofsOf(c), i) && ProofsOf(c)[i].1 == p
    requires AllDecode(ProofsOf(c)) && p.updateId != ""
    ensures HoldsProof(Persisted(contents, h, c), p)
  {
    assert Decodes(ProofsOf(c)[i].1);
    ProofIsKeptExactly(contents, h, c, i);
  }

  /** No later member of any cohort carries another proof under the update id of this one. */
  ghost predicate FreshId(cs: seq<Cohort>, k: nat, i: nat) {
    && k < |cs| && LastOfItsId(ProofsOf(cs[k]), i)
    && forall l :: k < l < |cs| ==> LeavesId(cs[l], ProofsOf(cs[k])[i].1)
  }

  lemma FreshBefore(cs: seq<Cohort>, k: nat, i: nat)
    requires FreshId(cs, k, i) && k < |cs| - 1
    ensures FreshId(cs[..|cs| - 1], k, i) && LeavesId(cs[|cs| - 1], ProofsOf(cs[k])[i].1)
  {
    var p := cs[..|cs| - 1];
    forall l | 0 <= l < |p| ensures p[l] == cs[l] {}
  }

  /** One more cohort persisted: a proof it leaves alone stays, and one it carries last under its id is filed. */
  lemma ProofInNext(contents: map<Slot, Artifact>, h: Hashing, cs: seq<Cohort>, p: SmtProof)
    requires cs != [] && LeavesId(cs[|cs| - 1], p)
    requires HoldsProof(PersistAll(contents, h, cs[..|cs| - 1]), p)
    ensures HoldsProof(PersistAll(contents, h, cs), p)
  {
    ProofSurvives(PersistAll(contents, h, cs[..|cs| - 1]), h, cs[|cs| - 1], p);
  }

  lemma ProofInLast(contents: map<Slot, Artifact>, h: Hashing, cs: seq<Cohort>, i: nat)
    requires cs != [] && LastOfItsId(ProofsOf(cs[|cs| - 1]), i) && AllDecode(ProofsOf(cs[|cs| - 1]))
    requires ProofsOf(cs[|cs| - 1])[i].1.updateId != ""
    ensures HoldsProof(PersistAll(contents, h, cs), ProofsOf(cs[|cs| - 1])[i].1)
  {
    var c := cs[|cs| - 1];
    ProofIsFiled(PersistAll(contents, h, cs[..|cs| - 1]), h, c, i, ProofsOf(c)[i].1);
  }

  /** While its update id stays fresh, a member's proof is in the store for good. */
  lemma {:induction false} ProofIsFoundForGood(contents: map<Slot, Artifact>, h: Hashing, cs: seq<Cohort>,
                                               k: nat, i: nat)
    requires FreshId(cs, k, i) && AllDecode(ProofsOf(cs[k])) && ProofsOf(cs[k])[i].1.updateId != ""
    ensures HoldsProof(PersistAll(contents, h, cs), ProofsOf(cs[k])[i].1)
    decreases |cs|
  {
    if k == |cs| - 1 {
      ProofInLast(contents, h, cs, i);
    } else {
      FreshBefore(cs, k, i);
      ProofIsFoundForGood(contents, h, cs[..|cs| - 1], k, i);
      ProofInNext(contents, h, cs, ProofsOf(cs[k])[i].1);
    }
  }
}
