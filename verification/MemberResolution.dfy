/**
 Persistence and resolution together: a resolver that asks only for what persisted cohorts and accepted
 members left in the store, and that converges, gets its result, and every artifact it is given on the
 way is the one its key names.
 */
module MemberResolution {
  import opened Encoding
  import opened Genesis
  import opened OrderedMap
  import opened Persist
  import opened Resolve
  import opened Store

  /** What was persisted: a store that held `prior`, and then these cohorts in order. */
  datatype Archive = Archive(prior: map<Slot, Artifact>, h: Hashing, cohorts: seq<Cohort>) {
    ghost predicate Valid() {
      h.Valid() && GenesesMatchTheirKeys(prior, h)
    }

    ghost function Contents(): map<Slot, Artifact> {
      PersistAll(prior, h, cohorts)
    }
  }

  // ---- The needs an archive covers --------------------------------------------------------------

  ghost predicate IsAnnouncement(ar: Archive, hash: string, k: nat) {
    && k < |ar.cohorts| && ar.cohorts[k].casAnnouncement.Some?
    && hash == ToHex(ar.h.ofAnnouncement(ar.cohorts[k].casAnnouncement.value))
  }

  /** The hash is the hex of an update's digest, which is what its base64url id re-encodes to. */
  ghost predicate IsUpdate(ar: Archive, hash: string, k: nat, i: nat) {
    && k < |ar.cohorts| && i < |ar.cohorts[k].pendingUpdates|
    && Reencode(ToBase64(ar.h.ofDocument(ar.cohorts[k].pendingUpdates[i].1))) == Some(hash)
  }

  ghost predicate IsProofOf(ar: Archive, env: Env, root: string, k: nat, i: nat) {
    && FreshId(ar.cohorts, k, i) && AllDecode(ProofsOf(ar.cohorts[k]))
    && ProofsOf(ar.cohorts[k])[i].0 == env.did
    && Verifies(env.smt, ProofsOf(ar.cohorts[k])[i].1, root, env.did)
  }

  ghost predicate IsGenesis(ar: Archive, hash: string, digest: Bytes) {
    digest != [] && hash == ToHex(digest) && Slot(GenesisKind, hash) in ar.prior
  }

  /** The need is one that the archive, or for signals the chain whenever it is read, can meet. */
  ghost predicate Covers(ar: Archive, env: Env, need: Need) {
    match need
    case NeedBeaconSignals(services) =>
      forall calls :: env.chain(calls, services).Some? && AllFinite(env.chain(calls, services).value)
    case NeedCasAnnouncement(hash) => exists k :: IsAnnouncement(ar, hash, k)
    case NeedSignedUpdate(hash) => exists k, i :: IsUpdate(ar, hash, k, i)
    case NeedSmtProof(root) => exists k, i :: IsProofOf(ar, env, root, k, i)
    case NeedGenesisDocument(hash) => exists digest :: IsGenesis(ar, hash, digest)
  }

  /** The data is the artifact that the need names. */
  ghost predicate IsWhatWasNamed(h: Hashing, env: Env, need: Need, data: Data) {
    match (need, data)
    case (NeedBeaconSignals(_), Signals(found)) => AllFinite(found)
    case (NeedCasAnnouncement(hash), Stored(a)) => a.Announcement? && ToHex(h.ofAnnouncement(a.map_)) == hash
    case (NeedSignedUpdate(hash), Stored(a)) => a.Update? && ToHex(h.ofDocument(a.update)) == hash
    case (NeedGenesisDocument(hash), Stored(a)) => a.Genesis? && ToHex(h.ofDocument(a.genesis)) == hash
    case (NeedSmtProof(root), Stored(a)) => a.Proof? && Verifies(env.smt, a.proof, root, env.did)
    case _ => false
  }

  // ---- Kind by kind -----------------------------------------------------------------------------

  ghost predicate Served(store: ArtifactStore, h: Hashing, env: Env, calls: seq<Call>, need: Need)
    reads store
  {
    && Answerable(store, env, calls, need)
    && forall data :: Answers(store, env, calls, need, data) ==> IsWhatWasNamed(h, env, need, data)
  }

  lemma AnnouncementIsServed(store: ArtifactStore, ar: Archive, env: Env, calls: seq<Call>, hash: string, k: nat)
    requires ar.Valid() && store.contents == ar.Contents() && IsAnnouncement(ar, hash, k)
    ensures Served(store, ar.h, env, calls, NeedCasAnnouncement(hash))
  {
    var m := ar.cohorts[k].casAnnouncement.value;
    var digest := ar.h.ofAnnouncement(m);
    AnnouncementIsFoundForGood(ar.prior, ar.h, ar.cohorts, k, m);
    HexIsAKey(digest);
    var a := store.contents[AnnouncementSlot(digest)];
    assert Answers(store, env, calls, NeedCasAnnouncement(hash), Stored(a));
  }

  lemma UpdateIsServed(store: ArtifactStore, ar: Archive, env: Env, calls: seq<Call>, hash: string, k: nat, i: nat)
    requires ar.Valid() && store.contents == ar.Contents() && IsUpdate(ar, hash, k, i)
    ensures Served(store, ar.h, env, calls, NeedSignedUpdate(hash))
  {
    var digest := ar.h.ofDocument(ar.cohorts[k].pendingUpdates[i].1);
    ReencodeIsFaithful(digest, ToBase64(digest));
    UpdateIsFoundForGood(ar.prior, ar.h, ar.cohorts, k, i);
    HexIsAKey(digest);
    var a := store.contents[UpdateSlot(digest)];
    assert Answers(store, env, calls, NeedSignedUpdate(hash), Stored(a));
  }

  lemma ProofIsServed(store: ArtifactStore, ar: Archive, env: Env, calls: seq<Call>, root: string, k: nat, i: nat)
    requires store.contents == ar.Contents() && IsProofOf(ar, env, root, k, i)
    ensures Served(store, ar.h, env, calls, NeedSmtProof(root))
  {
    var p := ProofsOf(ar.cohorts[k])[i].1;
    ProofIsFoundForGood(ar.prior, ar.h, ar.cohorts, k, i);
    assert Lookup(store.contents, Slot(ProofKind, ToHex(FromBase64(p.updateId).value))) == Some(Proof(p));
    assert Answers(store, env, calls, NeedSmtProof(root), Stored(Proof(p)));
  }

  lemma {:induction false} GenesesStay(prior: map<Slot, Artifact>, h: Hashing, cs: seq<Cohort>, s: Slot)
    requires GenesesMatchTheirKeys(prior, h) && s.kind == GenesisKind
    ensures GenesesMatchTheirKeys(PersistAll(prior, h, cs), h)
    ensures Lookup(PersistAll(prior, h, cs), s) == Lookup(prior, s)
  {
    if cs != [] {
      GenesesStay(prior, h, cs[..|cs| - 1], s);
      CohortsLeaveGeneses(PersistAll(prior, h, cs[..|cs| - 1]), h, cs[|cs| - 1]);
    }
  }

  lemma GenesisIsServed(store: ArtifactStore, ar: Archive, env: Env, calls: seq<Call>, hash: string, digest: Bytes)
    requires ar.Valid() && store.contents == ar.Contents() && IsGenesis(ar, hash, digest)
    ensures Served(store, ar.h, env, calls, NeedGenesisDocument(hash))
  {
    var s := Slot(GenesisKind, hash);
    GenesesStay(ar.prior, ar.h, ar.cohorts, s);
    HexIsAKey(digest);
    assert Lookup(store.contents, s) == Lookup(ar.prior, s) && s in store.contents;
    assert Answers(store, env, calls, NeedGenesisDocument(hash), Stored(store.contents[s]));
  }

  lemma SignalsAreServed(store: ArtifactStore, ar: Archive, env: Env, calls: seq<Call>, services: seq<string>)
    requires Covers(ar, env, NeedBeaconSignals(services))
    ensures Served(store, ar.h, env, calls, NeedBeaconSignals(services))
  {
    var found := env.chain(calls, services);
    assert found.Some? && AllFinite(found.value);
    assert Answers(store, env, calls, NeedBeaconSignals(services), Signals(found.value));
  }

  /** However many cohorts came before and after: a covered need has an answer, and only the artifact it names. */
  lemma CoveredIsServed(store: ArtifactStore, ar: Archive, env: Env, calls: seq<Call>, need: Need)
    requires ar.Valid() && store.contents == ar.Contents() && Covers(ar, env, need)
    ensures Served(store, ar.h, env, calls, need)
  {
    match need
    case NeedBeaconSignals(services) => SignalsAreServed(store, ar, env, calls, services);
    case NeedCasAnnouncement(hash) =>
      var k :| IsAnnouncement(ar, hash, k);
      AnnouncementIsServed(store, ar, env, calls, hash, k);
    case NeedSignedUpdate(hash) =>
      var k, i :| IsUpdate(ar, hash, k, i);
      UpdateIsServed(store, ar, env, calls, hash, k, i);
    case NeedSmtProof(root) =>
      var k, i :| IsProofOf(ar, env, root, k, i);
      ProofIsServed(store, ar, env, calls, root, k, i);
    case NeedGenesisDocument(hash) =>
      var digest :| IsGenesis(ar, hash, digest);
      GenesisIsServed(store, ar, env, calls, hash, digest);
  }

  // ---- The drive --------------------------------------------------------------------------------

  /** In every conversation a drive can have, whatever was provided was asked for. */
  lemma ProvidedWasAsked(store: ArtifactStore?, env: Env, b: Behaviour, calls: seq<Call>, i: nat)
    requires Sound(store, env, b, calls) && i < |calls| && calls[i].ProvideCall?
    ensures exists past :: Sound(store, env, b, past) && Asks(b, past, calls[i].need)
  {
    SoundPrefix(store, env, b, calls, i + 1);
    SoundPrefix(store, env, b, calls, i);
    assert calls[..i + 1][..i] == calls[..i];
    assert Owes(b, calls[..i], calls[i].need);
    OwedWasAsked(store, env, b, calls[..i], calls[i].need);
  }

  /** Whatever the resolver asks in a conversation a drive can have, the archive covers. */
  ghost predicate AsksWithin(store: ArtifactStore?, ar: Archive, env: Env, b: Behaviour)
    reads store
  {
    forall past, need :: Sound(store, env, b, past) && Asks(b, past, need) ==> Covers(ar, env, need)
  }

  /**
   Drives a resolver that converges and asks only for what the archive covers, however it chooses by what it
   was given and whatever it would refuse: it cannot fail.
   */
  method ResolveMember(resolver: Resolver, store: ArtifactStore, env: Env, maxIterations: int, ghost ar: Archive)
    returns (r: Outcome)
    requires resolver.calls == [] && 0 <= maxIterations
    requires Converges(store, env, resolver.behaviour, maxIterations)
    requires ar.Valid() && store.contents == ar.Contents() && AsksWithin(store, ar, env, resolver.behaviour)
    modifies resolver
    ensures Sound(store, env, resolver.behaviour, resolver.calls)
    ensures r.Ok? && StageOf(resolver.behaviour, resolver.calls) == Finished(r.result)
    ensures forall c :: c in resolver.calls && c.ProvideCall? ==> IsWhatWasNamed(ar.h, env, c.need, c.data)
  {
    r := DriveResolution(resolver, store, env, maxIterations);
    ghost var b, calls := resolver.behaviour, resolver.calls;
    forall past, need | Sound(store, env, b, past) && Owes(b, past, need) ensures Answerable(store, env, past, need) {
      OwedWasAsked(store, env, b, past, need);
      CoveredIsServed(store, ar, env, past, need);
    }
    forall e { ConvergingIsNeverStopped(store, env, b, calls, maxIterations, e); }
    forall c | c in calls && c.ProvideCall? ensures IsWhatWasNamed(ar.h, env, c.need, c.data) {
      var i :| 0 <= i < |calls| && calls[i] == c;
      ProvidedWasAsked(store, env, b, calls, i);
      CoveredIsServed(store, ar, env, calls[..i], c.need);
      assert Answers(store, env, calls[..i], c.need, c.data);
    }
  }
}
