/** Driving a sans-I/O resolver: answering each need it states, in order, within a bound. */
module Resolve {
  import opened Encoding
  import opened OrderedMap
  import opened Persist
  import opened Store

  // ---- Selecting an SMT proof -------------------------------------------------------------------

  /** The tree library: `verify` is `None` where `verifySerializedProof` throws. */
  datatype Smt = Smt(indexOf: Did -> int, blockHash: seq<Bytes> -> Bytes,
                     verify: (SmtProof, int, Bytes) -> Option<bool>)

  /** `base64UrlToHash`: a decoded value of any other length than 32 is a throw. */
  function HashOf(text: string): Option<Bytes> {
    match FromBase64(text)
    case Some(b) => if |b| == 32 then Some(b) else None
    case None => None
  }

  /** The texts read as hashes are exactly the base64url texts of 32 bytes, each as those bytes. */
  lemma HashesAreThirtyTwoBytes(text: string, b: Bytes)
    ensures HashOf(text) == Some(b) <==> text == ToBase64(b) && |b| == 32
  {
    Base64RoundTrip(b);
    if FromBase64(text) == Some(b) {
      Base64IsCanonical(text);
    }
  }

  /** The proof is an inclusion proof at this root and verifies for the leaf of this DID. */
  ghost predicate Verifies(smt: Smt, p: SmtProof, rootHex: string, did: Did) {
    && p.id != "" && p.nonce != "" && p.updateId != ""
    && Reencode(p.id) == Some(rootHex)
    && HashOf(p.nonce).Some? && HashOf(p.updateId).Some?
    && smt.verify(p, smt.indexOf(did),
                  smt.blockHash([smt.blockHash([HashOf(p.nonce).value]), HashOf(p.updateId).value]))
       == Some(true)
  }

  ghost predicate Holds(store: ArtifactStore?, kind: Kind, a: Artifact)
    reads store
  {
    store != null && exists key :: Lookup(store.contents, Slot(kind, key)) == Some(a)
  }

  /** Finds a proof just when the store has one that verifies, whatever else the store holds. */
  method SelectSmtProof(store: ArtifactStore?, smt: Smt, rootHex: string, did: Did)
    returns (r: Option<SmtProof>)
    ensures r.Some? ==> Holds(store, ProofKind, Proof(r.value)) && Verifies(smt, r.value, rootHex, did)
    ensures r.None? ==>
              forall p :: Holds(store, ProofKind, Proof(p)) ==> !Verifies(smt, p, rootHex, did)
  {
    if store == null {
      return None;
    }
    var index := smt.indexOf(did);
    var values := store.Entries(ProofKind);
    var i := 0;
    while i < |values|
      invariant 0 <= i <= |values|
      invariant forall j :: 0 <= j < i && values[j].Proof? ==> !Verifies(smt, values[j].proof, rootHex, did)
    {
      var value := values[i];
      i := i + 1;
      if !value.Proof? || value.proof.id == "" || value.proof.nonce == "" || value.proof.updateId == "" {
        continue;
      }
      var proof := value.proof;
      if Reencode(proof.id) != Some(rootHex) {
        continue;
      }
      match (HashOf(proof.nonce), HashOf(proof.updateId)) {
        case (Some(nonce), Some(update)) =>
          var candidate := smt.blockHash([smt.blockHash([nonce]), update]);
          if smt.verify(proof, index, candidate) == Some(true) {
            assert Proof(proof) in values;
            return Some(proof);
          }
        case _ =>
      }
    }
    r := None;
    forall p | Holds(store, ProofKind, Proof(p)) ensures !Verifies(smt, p, rootHex, did) {
      assert Proof(p) in values;
      var j :| 0 <= j < |values| && values[j] == Proof(p);
    }
  }

  // ---- Needs and calls --------------------------------------------------------------------------

  /** A beacon signal's block time: absent or not a number while the transaction is unconfirmed. */
  datatype Time = At(seconds: int) | NotFinite

  datatype Need = NeedBeaconSignals(services: seq<string>) | NeedCasAnnouncement(hash: string)
                | NeedSignedUpdate(hash: string) | NeedSmtProof(root: string)
                | NeedGenesisDocument(hash: string)

  datatype Data = Signals(byService: seq<seq<Time>>) | Stored(artifact: Artifact)

  datatype Error = Unconfirmed | Missing(need: Need) | BadKey | ChainFault | TooManyIterations
                 | Thrown(message: string)

  datatype Call = ResolveCall | ProvideCall(need: Need, data: Data)

  datatype Answer = ActionRequired(needs: seq<Need>) | Resolved(result: string) | Throws(error: Error)

  /** Any resolver whatever: its answer and its refusals are functions of all calls made to it so far. */
  datatype Behaviour = Behaviour(answer: seq<Call> -> Answer, refuses: seq<Call> -> Option<Error>)

  class Resolver {
    const behaviour: Behaviour
    var calls: seq<Call>

    constructor (behaviour: Behaviour)
      ensures this.behaviour == behaviour && calls == []
    {
      this.behaviour := behaviour;
      calls := [];
    }

    method Resolve() returns (a: Answer)
      modifies this
      ensures calls == old(calls) + [ResolveCall] && a == behaviour.answer(calls)
    {
      calls := calls + [ResolveCall];
      a := behaviour.answer(calls);
    }

    method Provide(need: Need, data: Data) returns (e: Option<Error>)
      modifies this
      ensures calls == old(calls) + [ProvideCall(need, data)] && e == behaviour.refuses(calls)
    {
      calls := calls + [ProvideCall(need, data)];
      e := behaviour.refuses(calls);
    }
  }

  /** What the driver works with besides the resolver. A chain read may change from one call to the next. */
  datatype Env = Env(did: Did, smt: Smt, chain: (seq<Call>, seq<string>) -> Option<seq<seq<Time>>>,
                     saysInvalidDate: Error -> bool)

  // ---- Answering one need -----------------------------------------------------------------------

  ghost predicate AllFinite(byService: seq<seq<Time>>) {
    forall i, j :: 0 <= i < |byService| && 0 <= j < |byService[i]| ==> byService[i][j].At?
  }

  method HasUnconfirmedSignal(byService: seq<seq<Time>>) returns (r: bool)
    ensures r <==> !AllFinite(byService)
  {
    var i := 0;
    while i < |byService|
      invariant 0 <= i <= |byService| && AllFinite(byService[..i])
    {
      var j := 0;
      while j < |byService[i]|
        invariant 0 <= j <= |byService[i]|
        invariant forall k :: 0 <= k < j ==> byService[i][k].At?
      {
        if byService[i][j].NotFinite? {
          return true;
        }
        j := j + 1;
      }
      i := i + 1;
    }
    assert byService[..i] == byService;
    return false;
  }

  ghost predicate Fetched(store: ArtifactStore?, kind: Kind, hash: string, a: Artifact)
    reads store
  {
    store != null && store.Get(kind, hash) == Some(Some(a))
  }

  /** The data is a right answer to the need at this point of the conversation. */
  ghost predicate Answers(store: ArtifactStore?, env: Env, calls: seq<Call>, need: Need, data: Data)
    reads store
  {
    match (need, data)
    case (NeedBeaconSignals(services), Signals(found)) =>
      env.chain(calls, services) == Some(found) && AllFinite(found)
    case (NeedCasAnnouncement(hash), Stored(a)) => Fetched(store, AnnouncementKind, hash, a)
    case (NeedSignedUpdate(hash), Stored(a)) => Fetched(store, UpdateKind, hash, a)
    case (NeedGenesisDocument(hash), Stored(a)) => Fetched(store, GenesisKind, hash, a)
    case (NeedSmtProof(root), Stored(a)) =>
      a.Proof? && Holds(store, ProofKind, a) && Verifies(env.smt, a.proof, root, env.did)
    case _ => false
  }

  ghost predicate Answerable(store: ArtifactStore?, env: Env, calls: seq<Call>, need: Need)
    reads store
  {
    exists data :: Answers(store, env, calls, need, data)
  }

  /** Why a need has no answer. */
  ghost predicate Explains(store: ArtifactStore?, env: Env, calls: seq<Call>, need: Need, e: Error)
    reads store
  {
    match need
    case NeedBeaconSignals(services) =>
      (match env.chain(calls, services)
       case None => e == ChainFault
       case Some(found) => e == Unconfirmed)
    case NeedCasAnnouncement(hash) => e == LookupError(store, hash, need)
    case NeedSignedUpdate(hash) => e == LookupError(store, hash, need)
    case NeedGenesisDocument(hash) => e == LookupError(store, hash, need)
    case NeedSmtProof(_) => e == Missing(need)
  }

  ghost function LookupError(store: ArtifactStore?, hash: string, need: Need): Error {
    if store != null && NormalizeHexKey(hash).None? then BadKey else Missing(need)
  }

  method FetchStored(store: ArtifactStore?, kind: Kind, hash: string, need: Need)
    returns (data: Option<Data>, e: Error)
    ensures data.Some? ==> data.value.Stored? && Fetched(store, kind, hash, data.value.artifact)
    ensures data.None? ==> e == LookupError(store, hash, need) &&
                           forall a :: !Fetched(store, kind, hash, a)
  {
    data, e := None, Missing(need);
    if store != null {
      match store.Get(kind, hash) {
        case None => e := BadKey;
        case Some(None) =>
        case Some(Some(a)) => data := Some(Stored(a));
      }
    }
  }

  method SatisfyNeed(resolver: Resolver, need: Need, store: ArtifactStore?, env: Env)
    returns (e: Option<Error>)
    modifies resolver
    ensures e.None? ==>
              exists data ::
                && Answers(store, env, old(resolver.calls), need, data)
                && resolver.calls == old(resolver.calls) + [ProvideCall(need, data)]
                && resolver.behaviour.refuses(resolver.calls) == None
    ensures e.Some? ==>
              || (&& resolver.calls == old(resolver.calls)
                  && !Answerable(store, env, resolver.calls, need)
                  && Explains(store, env, resolver.calls, need, e.value))
              || (exists data ::
                    && Answers(store, env, old(resolver.calls), need, data)
                    && resolver.calls == old(resolver.calls) + [ProvideCall(need, data)]
                    && resolver.behaviour.refuses(resolver.calls) == e)
  {
    var data: Option<Data> := None;
    var why := Missing(need);
    match need {
      case NeedBeaconSignals(services) =>
        var found := env.chain(resolver.calls, services);
        if found.None? {
          why := ChainFault;
        } else {
          var unconfirmed := HasUnconfirmedSignal(found.value);
          if unconfirmed {
            why := Unconfirmed;
          } else {
            data := Some(Signals(found.value));
          }
        }
      case NeedCasAnnouncement(hash) => data, why := FetchStored(store, AnnouncementKind, hash, need);
      case NeedSignedUpdate(hash) => data, why := FetchStored(store, UpdateKind, hash, need);
      case NeedGenesisDocument(hash) => data, why := FetchStored(store, GenesisKind, hash, need);
      case NeedSmtProof(root) =>
        var proof := SelectSmtProof(store, env.smt, root, env.did);
        if proof.Some? {
          data := Some(Stored(Proof(proof.value)));
        }
    }
    if data.None? {
      assert forall d :: !Answers(store, env, resolver.calls, need, d);
      return Some(why);
    }
    e := resolver.Provide(need, data.value);
  }

  // ---- The conversation -------------------------------------------------------------------------

  datatype Stage = Idle | Owed(needs: seq<Need>) | Finished(result: string) | Failed | OutOfTurn

  /**
   The conversation a log of calls amounts to: a `resolve()` may be made only when nothing is owed,
   and only the first need owed may be provided.
   */
  ghost function StageOf(b: Behaviour, calls: seq<Call>): Stage {
    if calls == [] then Idle
    else
      var before := StageOf(b, calls[..|calls| - 1]);
      match calls[|calls| - 1]
      case ResolveCall =>
        if before == Idle || before == Owed([]) then
          match b.answer(calls)
          case ActionRequired(needs) => Owed(needs)
          case Resolved(result) => Finished(result)
          case Throws(_) => Failed
        else OutOfTurn
      case ProvideCall(need, _) =>
        if before.Owed? && before.needs != [] && before.needs[0] == need then
          (if b.refuses(calls).Some? then Failed else Owed(before.needs[1..]))
        else OutOfTurn
  }

  lemma StageStep(b: Behaviour, calls: seq<Call>, c: Call)
    ensures StageOf(b, calls + [c]) ==
            match c
            case ResolveCall =>
              if StageOf(b, calls) == Idle || StageOf(b, calls) == Owed([]) then
                match b.answer(calls + [c])
                case ActionRequired(needs) => Owed(needs)
                case Resolved(result) => Finished(result)
                case Throws(_) => Failed
              else OutOfTurn
            case ProvideCall(need, _) =>
              var before := StageOf(b, calls);
              if before.Owed? && before.needs != [] && before.needs[0] == need then
                (if b.refuses(calls + [c]).Some? then Failed else Owed(before.needs[1..]))
              else OutOfTurn
  {
    assert (calls + [c])[..|calls|] == calls;
  }

  ghost function ResolveCalls(calls: seq<Call>): nat {
    if calls == [] then 0
    else ResolveCalls(calls[..|calls| - 1]) + if calls[|calls| - 1].ResolveCall? then 1 else 0
  }

  lemma ResolveCallsStep(calls: seq<Call>, c: Call)
    ensures ResolveCalls(calls + [c]) == ResolveCalls(calls) + if c.ResolveCall? then 1 else 0
  {
    assert (calls + [c])[..|calls|] == calls;
  }

  /** Everything ever provided was a right answer when it was provided. */
  ghost predicate AllAnswersRight(store: ArtifactStore?, env: Env, calls: seq<Call>)
    reads store
  {
    forall i :: 0 <= i < |calls| && calls[i].ProvideCall? ==>
      Answers(store, env, calls[..i], calls[i].need, calls[i].data)
  }

  lemma RightStep(store: ArtifactStore?, env: Env, calls: seq<Call>, c: Call)
    requires AllAnswersRight(store, env, calls)
    requires c.ProvideCall? ==> Answers(store, env, calls, c.need, c.data)
    ensures AllAnswersRight(store, env, calls + [c])
  {
    forall i | 0 <= i < |calls + [c]| && (calls + [c])[i].ProvideCall?
      ensures Answers(store, env, (calls + [c])[..i], (calls + [c])[i].need, (calls + [c])[i].data)
    {
      assert (calls + [c])[..i] == calls[..i];
      assert calls[..|calls|] == calls;
    }
  }

  ghost predicate Sound(store: ArtifactStore?, env: Env, b: Behaviour, calls: seq<Call>)
    reads store
  {
    AllAnswersRight(store, env, calls) && StageOf(b, calls) != OutOfTurn
  }

  datatype Outcome = Ok(result: string) | Err(error: Error)

  /** Exactly what stopped a drive that produced no result, before the error is normalised. */
  ghost predicate StoppedBy(store: ArtifactStore?, env: Env, b: Behaviour, calls: seq<Call>,
                            maxIterations: int, e: Error)
    reads store
  {
    var stage := StageOf(b, calls);
    || (stage == Failed && LastFault(b, calls) == Some(e))
    || (&& stage.Owed? && stage.needs != [] && ResolveCalls(calls) <= maxIterations
        && !Answerable(store, env, calls, stage.needs[0])
        && Explains(store, env, calls, stage.needs[0], e))
    || (&& stage.Owed? && calls != [] && calls[|calls| - 1].ResolveCall?
        && ResolveCalls(calls) == Rounds(maxIterations) + 1 && e == TooManyIterations)
  }

  ghost function LastFault(b: Behaviour, calls: seq<Call>): Option<Error> {
    if calls == [] then None
    else if calls[|calls| - 1].ProvideCall? then b.refuses(calls)
    else if b.answer(calls).Throws? then Some(b.answer(calls).error)
    else None
  }

  ghost function Rounds(maxIterations: int): nat {
    if maxIterations < 0 then 0 else maxIterations
  }

  /** One round: the needs in order, stopping at the first that cannot be met. */
  method SatisfyRound(resolver: Resolver, needs: seq<Need>, store: ArtifactStore?, env: Env,
                      maxIterations: int)
    returns (e: Option<Error>)
    requires Sound(store, env, resolver.behaviour, resolver.calls)
    requires StageOf(resolver.behaviour, resolver.calls) == Owed(needs)
    requires ResolveCalls(resolver.calls) <= maxIterations
    modifies resolver
    ensures Sound(store, env, resolver.behaviour, resolver.calls)
    ensures ResolveCalls(resolver.calls) == ResolveCalls(old(resolver.calls))
    ensures e.None? ==> StageOf(resolver.behaviour, resolver.calls) == Owed([])
    ensures e.Some? ==> StoppedBy(store, env, resolver.behaviour, resolver.calls, maxIterations, e.value)
  {
    var i := 0;
    while i < |needs|
      invariant 0 <= i <= |needs|
      invariant Sound(store, env, resolver.behaviour, resolver.calls)
      invariant StageOf(resolver.behaviour, resolver.calls) == Owed(needs[i..])
      invariant ResolveCalls(resolver.calls) == ResolveCalls(old(resolver.calls))
    {
      ghost var before := resolver.calls;
      e := SatisfyNeed(resolver, needs[i], store, env);
      assert needs[i..][0] == needs[i] && needs[i..][1..] == needs[i + 1..];
      if resolver.calls != before {
        ghost var c := resolver.calls[|before|];
        assert resolver.calls == before + [c];
        RightStep(store, env, before, c);
        StageStep(resolver.behaviour, before, c);
        ResolveCallsStep(before, c);
      }
      if e.Some? {
        return;
      }
      i := i + 1;
    }
    assert needs[i..] == [];
    e := None;
  }

  /** Where a call of `resolve()` leaves the conversation. */
  ghost function StageAfter(state: Answer): Stage {
    match state
    case ActionRequired(needs) => Owed(needs)
    case Resolved(result) => Finished(result)
    case Throws(_) => Failed
  }

  lemma ResolveStep(store: ArtifactStore?, env: Env, b: Behaviour, calls: seq<Call>)
    requires Sound(store, env, b, calls)
    requires StageOf(b, calls) == Idle || StageOf(b, calls) == Owed([])
    ensures Sound(store, env, b, calls + [ResolveCall])
    ensures StageOf(b, calls + [ResolveCall]) == StageAfter(b.answer(calls + [ResolveCall]))
    ensures ResolveCalls(calls + [ResolveCall]) == ResolveCalls(calls) + 1
  {
    StageStep(b, calls, ResolveCall);
    ResolveCallsStep(calls, ResolveCall);
    RightStep(store, env, calls, ResolveCall);
  }

  lemma StoppedByTheCap(store: ArtifactStore?, env: Env, b: Behaviour, calls: seq<Call>, maxIterations: int)
    requires calls != [] && calls[|calls| - 1].ResolveCall? && b.answer(calls).ActionRequired?
    requires StageOf(b, calls) == StageAfter(b.answer(calls))
    requires ResolveCalls(calls) == Rounds(maxIterations) + 1
    ensures StoppedBy(store, env, b, calls, maxIterations, TooManyIterations)
  {
  }

  lemma StoppedByAThrow(store: ArtifactStore?, env: Env, b: Behaviour, calls: seq<Call>, maxIterations: int)
    requires calls != [] && calls[|calls| - 1].ResolveCall? && b.answer(calls).Throws?
    requires StageOf(b, calls) == StageAfter(b.answer(calls))
    ensures StoppedBy(store, env, b, calls, maxIterations, b.answer(calls).error)
  {
  }

  lemma RightSignalsAreFinite(store: ArtifactStore?, env: Env, calls: seq<Call>)
    requires AllAnswersRight(store, env, calls)
    ensures forall c :: c in calls && c.ProvideCall? && c.data.Signals? ==> AllFinite(c.data.byService)
  {
    forall c | c in calls && c.ProvideCall? && c.data.Signals? ensures AllFinite(c.data.byService) {
      var i :| 0 <= i < |calls| && calls[i] == c;
      assert Answers(store, env, calls[..i], calls[i].need, calls[i].data);
    }
  }

  function Normalised(env: Env, e: Error): Error {
    if env.saysInvalidDate(e) then Unconfirmed else e
  }

  /**
   Drives any resolver. It never speaks out of turn, provides only right answers, makes at most
   `maxIterations + 1` calls to `resolve()`, and returns a result just when the resolver gave one.
   */
  method DriveResolution(resolver: Resolver, store: ArtifactStore?, env: Env, maxIterations: int)
    returns (r: Outcome)
    requires resolver.calls == []
    modifies resolver
    ensures Sound(store, env, resolver.behaviour, resolver.calls)
    ensures 1 <= ResolveCalls(resolver.calls) <= Rounds(maxIterations) + 1
    ensures forall c :: c in resolver.calls && c.ProvideCall? && c.data.Signals? ==>
              AllFinite(c.data.byService)
    ensures r.Ok? <==> StageOf(resolver.behaviour, resolver.calls).Finished?
    ensures r.Ok? ==> StageOf(resolver.behaviour, resolver.calls) == Finished(r.result)
    ensures r.Err? ==>
              exists e ::
                && StoppedBy(store, env, resolver.behaviour, resolver.calls, maxIterations, e)
                && r.error == if env.saysInvalidDate(e) then Unconfirmed else e
  {
    var stopped: Option<Error>;
    r, stopped := DriveRounds(resolver, store, env, maxIterations);
    RightSignalsAreFinite(store, env, resolver.calls);
    if stopped.Some? {
      r := Err(Normalised(env, stopped.value));
    }
  }

  /** The loop under the driver's one `catch`; `stopped` is the error it would throw. */
  method DriveRounds(resolver: Resolver, store: ArtifactStore?, env: Env, maxIterations: int)
    returns (r: Outcome, stopped: Option<Error>)
    requires resolver.calls == []
    modifies resolver
    ensures Sound(store, env, resolver.behaviour, resolver.calls)
    ensures 1 <= ResolveCalls(resolver.calls) <= Rounds(maxIterations) + 1
    ensures stopped.None? ==> r.Ok? && StageOf(resolver.behaviour, resolver.calls) == Finished(r.result)
    ensures stopped.Some? ==>
              && !StageOf(resolver.behaviour, resolver.calls).Finished?
              && StoppedBy(store, env, resolver.behaviour, resolver.calls, maxIterations, stopped.value)
  {
    ghost var b := resolver.behaviour;
    r := Err(TooManyIterations);
    ResolveStep(store, env, b, []);
    var state := resolver.Resolve();
    assert [] + [ResolveCall] == resolver.calls;
    var iterations := 0;
    while state.ActionRequired?
      invariant Sound(store, env, b, resolver.calls)
      invariant ResolveCalls(resolver.calls) == iterations + 1 && 0 <= iterations <= Rounds(maxIterations)
      invariant resolver.calls != [] && resolver.calls[|resolver.calls| - 1].ResolveCall?
      invariant state == b.answer(resolver.calls)
      invariant StageOf(b, resolver.calls) == StageAfter(state)
      decreases Rounds(maxIterations) - iterations
    {
      iterations := iterations + 1;
      if iterations > maxIterations {
        StoppedByTheCap(store, env, b, resolver.calls, maxIterations);
        return r, Some(TooManyIterations);
      }
      stopped := SatisfyRound(resolver, state.needs, store, env, maxIterations);
      if stopped.Some? {
        return;
      }
      ResolveStep(store, env, b, resolver.calls);
      state := resolver.Resolve();
    }
    match state {
      case Resolved(result) =>
        r, stopped := Ok(result), None;
      case Throws(error) =>
        StoppedByAThrow(store, env, b, resolver.calls, maxIterations);
        stopped := Some(error);
    }
  }

  // ---- When nothing can stop it -----------------------------------------------------------------

  lemma {:induction false} SoundPrefix(store: ArtifactStore?, env: Env, b: Behaviour, calls: seq<Call>, n: nat)
    requires Sound(store, env, b, calls) && n <= |calls|
    ensures Sound(store, env, b, calls[..n])
    decreases |calls|
  {
    if n == |calls| {
      assert calls[..n] == calls;
    } else {
      var p := calls[..|calls| - 1];
      forall i | 0 <= i < |p| && p[i].ProvideCall? ensures Answers(store, env, p[..i], p[i].need, p[i].data) {
        assert p[..i] == calls[..i] && calls[i].ProvideCall?;
      }
      SoundPrefix(store, env, b, p, n);
      assert p[..n] == calls[..n];
    }
  }

  /**
   In every conversation a drive can have: the resolver refuses no right answer, never throws, and is content
   after at most this many rounds. What it does with wrong data, or out of turn, is its own affair.
   */
  ghost predicate Converges(store: ArtifactStore?, env: Env, b: Behaviour, rounds: int)
    reads store
  {
    forall calls :: calls != [] && Sound(store, env, b, calls) ==> GoesOn(b, calls, rounds)
  }

  ghost predicate GoesOn(b: Behaviour, calls: seq<Call>, rounds: int)
    requires calls != []
  {
    if calls[|calls| - 1].ProvideCall? then b.refuses(calls) == None
    else !b.answer(calls).Throws? && (ResolveCalls(calls) > rounds ==> b.answer(calls).Resolved?)
  }

  ghost predicate Asks(b: Behaviour, calls: seq<Call>, need: Need) {
    b.answer(calls).ActionRequired? && need in b.answer(calls).needs
  }

  ghost predicate Owes(b: Behaviour, calls: seq<Call>, need: Need) {
    StageOf(b, calls).Owed? && need in StageOf(b, calls).needs
  }

  lemma {:induction false} OwedWasAsked(store: ArtifactStore?, env: Env, b: Behaviour, calls: seq<Call>, need: Need)
    requires Sound(store, env, b, calls) && Owes(b, calls, need)
    ensures exists past :: Sound(store, env, b, past) && Asks(b, past, need)
  {
    if calls[|calls| - 1].ResolveCall? {
      assert Asks(b, calls, need);
    } else {
      SoundPrefix(store, env, b, calls, |calls| - 1);
      OwedWasAsked(store, env, b, calls[..|calls| - 1], need);
    }
  }

  /**
   When the resolver converges in time and whatever it is owed in a conversation a drive can have is answerable
   then, nothing stops a drive.
   */
  lemma ConvergingIsNeverStopped(store: ArtifactStore?, env: Env, b: Behaviour, calls: seq<Call>,
                                 maxIterations: int, e: Error)
    requires 0 <= maxIterations && Converges(store, env, b, maxIterations) && Sound(store, env, b, calls)
    requires forall past, need :: Sound(store, env, b, past) && Owes(b, past, need) ==>
               Answerable(store, env, past, need)
    ensures !StoppedBy(store, env, b, calls, maxIterations, e)
  {
    var stage := StageOf(b, calls);
    if stage.Owed? && stage.needs != [] {
      assert Owes(b, calls, stage.needs[0]);
    }
    if calls != [] {
      assert GoesOn(b, calls, maxIterations);
    }
  }

  /**
   After a cohort is persisted, every need a member's resolution can state about it is answerable: the
   announcement, the update under the hex of any base64url form of its hash, and the member's proof.
   */
  lemma PersistedUpdateIsServed(store: ArtifactStore, prior: map<Slot, Artifact>, h: Hashing, c: Cohort,
                                i: nat, env: Env, calls: seq<Call>, id: string)
    requires h.Valid() && i < |c.pendingUpdates| && store.contents == Persisted(prior, h, c)
    requires id == ToBase64(h.ofDocument(c.pendingUpdates[i].1))
    ensures Reencode(id).Some?
    ensures Answerable(store, env, calls, NeedSignedUpdate(Reencode(id).value))
    ensures forall a :: Answers(store, env, calls, NeedSignedUpdate(Reencode(id).value), Stored(a)) ==>
              a.Update? && ToBase64(h.ofDocument(a.update)) == id
  {
    UpdateIsFound(prior, h, c, i, id);
    var a := store.contents[Slot(UpdateKind, Reencode(id).value)];
    assert Answers(store, env, calls, NeedSignedUpdate(Reencode(id).value), Stored(a));
  }

  lemma PersistedAnnouncementIsServed(store: ArtifactStore, prior: map<Slot, Artifact>, h: Hashing,
                                      c: Cohort, env: Env, calls: seq<Call>)
    requires h.Valid() && c.casAnnouncement.Some? && store.contents == Persisted(prior, h, c)
    ensures var m := c.casAnnouncement.value;
            forall data ::
              Answers(store, env, calls, NeedCasAnnouncement(ToHex(h.ofAnnouncement(m))), data) <==>
              data == Stored(Announcement(m))
  {
    var m := c.casAnnouncement.value;
    var s := AnnouncementSlot(h.ofAnnouncement(m));
    HexIsAKey(h.ofAnnouncement(m));
    WritesByKind(h, c, s);
    AppliedIsLastWrite(prior, Writes(h, c), s);
  }

  /** The member's proof is found among whatever malformed or foreign proofs the store also holds. */
  lemma PersistedProofIsServed(store: ArtifactStore, prior: map<Slot, Artifact>, h: Hashing, c: Cohort,
                               i: nat, env: Env, calls: seq<Call>, root: string)
    requires store.contents == Persisted(prior, h, c) && AllDecode(ProofsOf(c))
    requires i < |ProofsOf(c)| && ProofsOf(c)[i].0 == env.did && LastOfItsId(ProofsOf(c), i)
    requires Verifies(env.smt, ProofsOf(c)[i].1, root, env.did)
    ensures Answerable(store, env, calls, NeedSmtProof(root))
    ensures forall data :: Answers(store, env, calls, NeedSmtProof(root), data) ==>
              data.Stored? && data.artifact.Proof? && Verifies(env.smt, data.artifact.proof, root, env.did)
  {
    var p := ProofsOf(c)[i].1;
    ProofIsKeptExactly(prior, h, c, i);
    assert Lookup(store.contents, Slot(ProofKind, ToHex(FromBase64(p.updateId).value))) == Some(Proof(p));
    assert Answers(store, env, calls, NeedSmtProof(root), Stored(Proof(p)));
  }
}
