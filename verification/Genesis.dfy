/**
 Genesis documents on their way from bootstrap to the store: staged under a cap while the sender is not
 yet trusted, persisted only on acceptance and only if the document hashes to what the DID commits to.
 */
module Genesis {
  import opened Encoding
  import opened OrderedMap
  import opened Persist
  import Resolve
  import opened Store

  // ---- Staging ----------------------------------------------------------------------------------

  class GenesisStagingCache {
    const entries: BoundedMap<Did, Document>
    /** What was staged and taken so far. */
    ghost var history: seq<Op<Did, Document>>

    ghost predicate Valid()
      reads this, entries
    {
      entries.Valid() && entries.Model() == Run(history, entries.cap)
    }

    constructor (cap: nat)
      requires cap >= 1
      ensures Valid() && fresh(entries) && entries.cap == cap && history == []
    {
      entries := new BoundedMap(cap);
      history := [];
    }

    /** A cap below one is refused, as the source's constructor refuses it. */
    static method Open(cap: int) returns (c: GenesisStagingCache?)
      ensures c == null <==> cap < 1
      ensures c != null ==> c.Valid() && c.entries.cap == cap && c.history == []
    {
      if cap < 1 {
        return null;
      }
      c := new GenesisStagingCache(cap);
    }

    method Remember(did: Did, genesis: Document)
      requires Valid()
      modifies this`history, entries
      ensures Valid() && history == old(history) + [Touch(did, genesis)]
    {
      var evicted := entries.Remember(did, genesis);
      history := history + [Touch(did, genesis)];
      assert history[..|history| - 1] == old(history);
    }

    /** Gives the document that was staged last, unless it was taken since or too many others came after. */
    method Take(did: Did) returns (genesis: Option<Document>)
      requires Valid()
      modifies this`history, entries
      ensures Valid()
      ensures genesis == if Retained(old(history), did, entries.cap)
                         then Some(old(history)[LastOp(old(history), did)].value) else None
      ensures history == if genesis.Some? then old(history) + [Forget(did)] else old(history)
    {
      RunLookup(history, did, entries.cap);
      genesis := entries.Model().Get(did);
      if genesis.Some? {
        entries.Delete(did);
        history := history + [Forget(did)];
        assert history[..|history| - 1] == old(history);
      }
    }
  }

  /** A flood must bring `cap` distinct senders between staging and acceptance to lose a document. */
  lemma StagedUntilCapOthers(h: seq<Op<Did, Document>>, did: Did, cap: nat)
    requires cap >= 1 && LastOp(h, did) >= 0 && h[LastOp(h, did)].Touch?
    requires |TouchedAfter(h, LastOp(h, did), did)| < cap
    ensures Retained(h, did, cap)
  {
    SurvivesUntilCapOthers(h, did, cap);
    RunLookup(h, did, cap);
  }

  // ---- Acceptance -------------------------------------------------------------------------------

  /** A DID, as far as the persist step reads it. */
  datatype Identifier = External(genesisBytes: Bytes) | KeyBased | Undecodable

  datatype Persistence = PersistedNow | NotExternal | HashMismatch

  /** Writes only a document whose digest is the one the DID commits to. */
  method PersistMemberGenesis(store: ArtifactStore, h: Hashing, id: Identifier, genesis: Document)
    returns (r: Persistence)
    requires h.Valid()
    modifies store
    ensures r == if !id.External? then NotExternal
                 else if h.ofDocument(genesis) == id.genesisBytes then PersistedNow else HashMismatch
    ensures store.contents ==
            if r == PersistedNow
            then old(store.contents)[Slot(GenesisKind, ToHex(id.genesisBytes)) := Artifact.Genesis(genesis)]
            else old(store.contents)
  {
    if !id.External? {
      return NotExternal;
    }
    var genesisHash := ToHex(id.genesisBytes);
    HexIsInjective(h.ofDocument(genesis), id.genesisBytes);
    if ToHex(h.ofDocument(genesis)) != genesisHash {
      return HashMismatch;
    }
    HexIsAKey(id.genesisBytes);
    var _ := store.Put(GenesisKind, genesisHash, Artifact.Genesis(genesis));
    return PersistedNow;
  }

  /** Every genesis in the store hashes to its key. */
  ghost predicate GenesesMatchTheirKeys(contents: map<Slot, Artifact>, h: Hashing) {
    forall s :: s in contents && s.kind == GenesisKind ==>
      contents[s].Genesis? && s.key == ToHex(h.ofDocument(contents[s].genesis))
  }

  /** An accepted external member resolves with no sidecar: its genesis need is met, and rightly. */
  lemma AcceptedGenesisIsServed(store: ArtifactStore, prior: map<Slot, Artifact>, h: Hashing, digest: Bytes,
                                genesis: Document, env: Resolve.Env, calls: seq<Resolve.Call>)
    requires h.Valid() && GenesesMatchTheirKeys(prior, h) && h.ofDocument(genesis) == digest
    requires store.contents == prior[Slot(GenesisKind, ToHex(digest)) := Artifact.Genesis(genesis)]
    ensures GenesesMatchTheirKeys(store.contents, h)
    ensures Resolve.Answerable(store, env, calls, Resolve.NeedGenesisDocument(ToHex(digest)))
    ensures forall a ::
              Resolve.Answers(store, env, calls, Resolve.NeedGenesisDocument(ToHex(digest)), Resolve.Stored(a))
              <==> a == Artifact.Genesis(genesis)
  {
    HexIsAKey(digest);
    assert Resolve.Answers(store, env, calls, Resolve.NeedGenesisDocument(ToHex(digest)),
                           Resolve.Stored(Artifact.Genesis(genesis)));
  }

  /** Persisting cohorts, however many, leaves every genesis as it was. */
  lemma CohortsLeaveGeneses(contents: map<Slot, Artifact>, h: Hashing, c: Cohort)
    requires GenesesMatchTheirKeys(contents, h)
    ensures GenesesMatchTheirKeys(Persisted(contents, h, c), h)
    ensures forall s: Slot :: s.kind == GenesisKind ==>
              Lookup(Persisted(contents, h, c), s) == Lookup(contents, s)
  {
    forall s: Slot | s.kind == GenesisKind
      ensures Lookup(Persisted(contents, h, c), s) == Lookup(contents, s)
    {
      WritesByKind(h, c, s);
      AppliedIsLastWrite(contents, Writes(h, c), s);
    }
    forall s | s in Persisted(contents, h, c) && s.kind == GenesisKind
      ensures Persisted(contents, h, c)[s].Genesis? &&
              s.key == ToHex(h.ofDocument(Persisted(contents, h, c)[s].genesis))
    {
      assert Lookup(Persisted(contents, h, c), s) == Lookup(contents, s);
    }
  }
}
