/**
 A member of a CAS cohort, resolved by a resolver that checks every artifact against the hash it asked by and
 asks for the update that the announcement names. Over the store its cohort was persisted in, the member gets
 its own update; over any store whatever, it gets the one its announcement names or an error.
 */
module CasResolution {
  import opened Encoding
  import opened MemberResolution
  import opened OrderedMap
  import opened Persist
  import opened Resolve
  import opened Store

  // ---- The resolver -----------------------------------------------------------------------------

  /** What was provided last. */
  function Given(calls: seq<Call>): Option<Data> {
    if calls == [] then None
    else
      match calls[|calls| - 1]
      case ProvideCall(_, data) => Some(data)
      case ResolveCall => Given(calls[..|calls| - 1])
  }

  predicate HashMatches(h: Hashing, need: Need, data: Data) {
    match (need, data)
    case (NeedCasAnnouncement(hash), Stored(Announcement(m))) => ToHex(h.ofAnnouncement(m)) == hash
    case (NeedSignedUpdate(hash), Stored(Update(u))) => ToHex(h.ofDocument(u)) == hash
    case _ => false
  }

  /** The update hash an announcement gives a member, as the hex the store is keyed by. */
  function Named(m: CasAnnouncement, did: Did): Option<string> {
    if did in m then Reencode(m[did]) else None
  }

  /** First the announcement, then the update it names for this member; and that update is the result. */
  function Answer(announced: string, did: Did, calls: seq<Call>): Resolve.Answer {
    match Given(calls)
    case None => ActionRequired([NeedCasAnnouncement(announced)])
    case Some(Stored(Announcement(m))) =>
      if Named(m, did).Some? then ActionRequired([NeedSignedUpdate(Named(m, did).value)])
      else Throws(Thrown("not announced"))
    case Some(Stored(Update(u))) => Resolved(u)
    case _ => Throws(Thrown("unexpected data"))
  }

  function Refusal(h: Hashing, calls: seq<Call>): Option<Error> {
    if calls == [] || calls[|calls| - 1].ResolveCall? then None
    else if HashMatches(h, calls[|calls| - 1].need, calls[|calls| - 1].data) then None
    else Some(Thrown("hash mismatch"))
  }

  function CasMember(h: Hashing, announced: string, did: Did): Behaviour {
    Behaviour((calls: seq<Call>) => Answer(announced, did, calls), (calls: seq<Call>) => Refusal(h, calls))
  }

  // ---- Over any store ---------------------------------------------------------------------------

  ghost predicate Genuine(h: Hashing, announced: string, m: CasAnnouncement) {
    ToHex(h.ofAnnouncement(m)) == announced
  }

  /** The update is one that an announcement with the hash asked for names for this member. */
  ghost predicate IsAnnounced(h: Hashing, announced: string, did: Did, u: Document) {
    exists m :: Genuine(h, announced, m) && Named(m, did) == Some(ToHex(h.ofDocument(u)))
  }

  /** Where a conversation that has not failed stands, by what was given last. */
  ghost predicate OnTrack(h: Hashing, announced: string, did: Did, stage: Stage, given: Option<Data>) {
    match given
    case None => stage == Idle || stage == Owed([NeedCasAnnouncement(announced)])
    case Some(Stored(Announcement(m))) =>
      && Genuine(h, announced, m)
      && (stage == Owed([]) || (Named(m, did).Some? && stage == Owed([NeedSignedUpdate(Named(m, did).value)])))
    case Some(Stored(Update(u))) => IsAnnounced(h, announced, did, u) && (stage == Owed([]) || stage == Finished(u))
    case _ => false
  }

  lemma GivenStep(calls: seq<Call>, c: Call)
    ensures Given(calls + [c]) == if c.ProvideCall? then Some(c.data) else Given(calls)
  {
    assert (calls + [c])[..|calls|] == calls;
  }

  ghost predicate Ended(stage: Stage) {
    stage == Failed || stage == OutOfTurn
  }

  lemma ResolveOnTrack(h: Hashing, announced: string, did: Did, calls: seq<Call>)
    requires var b := CasMember(h, announced, did); OnTrack(h, announced, did, StageOf(b, calls), Given(calls))
    ensures var b, next := CasMember(h, announced, did), calls + [ResolveCall];
            Ended(StageOf(b, next)) || OnTrack(h, announced, did, StageOf(b, next), Given(next))
  {
    StageStep(CasMember(h, announced, did), calls, ResolveCall);
    GivenStep(calls, ResolveCall);
  }

  /** What a stage on track is owed, given data that matches it, keeps the conversation on track. */
  lemma MatchOnTrack(h: Hashing, announced: string, did: Did, stage: Stage, given: Option<Data>, need: Need, data: Data)
    requires OnTrack(h, announced, did, stage, given) && stage.Owed? && stage.needs != [] && stage.needs[0] == need
    requires HashMatches(h, need, data)
    ensures stage.needs[1..] == [] && OnTrack(h, announced, did, Owed([]), Some(data))
  {
  }

  lemma ProvideOnTrack(h: Hashing, announced: string, did: Did, calls: seq<Call>, c: Call)
    requires var b := CasMember(h, announced, did); OnTrack(h, announced, did, StageOf(b, calls), Given(calls))
    requires c.ProvideCall?
    ensures var b, next := CasMember(h, announced, did), calls + [c];
            Ended(StageOf(b, next)) || OnTrack(h, announced, did, StageOf(b, next), Given(next))
  {
    var b := CasMember(h, announced, did);
    var stage := StageOf(b, calls);
    StageStep(b, calls, c);
    GivenStep(calls, c);
    if stage.Owed? && stage.needs != [] && stage.needs[0] == c.need && HashMatches(h, c.need, c.data) {
      MatchOnTrack(h, announced, did, stage, Given(calls), c.need, c.data);
    }
  }

  lemma {:induction false} StaysOnTrack(h: Hashing, announced: string, did: Did, calls: seq<Call>)
    ensures var b := CasMember(h, announced, did);
            Ended(StageOf(b, calls)) || OnTrack(h, announced, did, StageOf(b, calls), Given(calls))
  {
    if calls != [] {
      var p, c := calls[..|calls| - 1], calls[|calls| - 1];
      assert calls == p + [c];
      StaysOnTrack(h, announced, did, p);
      StageStep(CasMember(h, announced, did), p, c);
      if !Ended(StageOf(CasMember(h, announced, did), p)) {
        if c.ResolveCall? {
          ResolveOnTrack(h, announced, did, p);
        } else {
          ProvideOnTrack(h, announced, did, p, c);
        }
      }
    }
  }

  /** An untrusted store is safe: whatever it holds, a result is an update the announcement asked for names. */
  method ResolveUntrusted(resolver: Resolver, store: ArtifactStore?, env: Env, maxIterations: int,
                          ghost h: Hashing, ghost announced: string)
    returns (r: Outcome)
    requires resolver.calls == [] && resolver.behaviour == CasMember(h, announced, env.did)
    modifies resolver
    ensures r.Ok? ==> IsAnnounced(h, announced, env.did, r.result)
  {
    r := DriveResolution(resolver, store, env, maxIterations);
    StaysOnTrack(h, announced, env.did, resolver.calls);
  }

  // ---- Over the store its cohort was persisted in -----------------------------------------------

  /** The member's update `u` and the announcement `m` naming it, in a cohort no later one collides with. */
  datatype Membership = Membership(cohort: nat, index: nat, m: CasAnnouncement, u: Document)

  ghost predicate IsMember(ar: Archive, x: Membership, did: Did) {
    && x.cohort < |ar.cohorts| && x.index < |ar.cohorts[x.cohort].pendingUpdates|
    && ar.cohorts[x.cohort].pendingUpdates[x.index] == (did, x.u)
    && ar.cohorts[x.cohort].casAnnouncement == Some(x.m)
    && did in x.m && x.m[did] == ToBase64(ar.h.ofDocument(x.u))
    && (forall l :: x.cohort <= l < |ar.cohorts| ==> NoOtherUpdate(ar.h, ar.cohorts[l], x.u))
    && (forall l :: x.cohort <= l < |ar.cohorts| ==> NoOtherAnnouncement(ar.h, ar.cohorts[l], x.m))
  }

  ghost function Announced(ar: Archive, x: Membership): string {
    ToHex(ar.h.ofAnnouncement(x.m))
  }

  lemma NamesItsUpdate(ar: Archive, x: Membership, did: Did)
    requires ar.Valid() && IsMember(ar, x, did)
    ensures Named(x.m, did) == Some(ToHex(ar.h.ofDocument(x.u)))
  {
    ReencodeIsFaithful(ar.h.ofDocument(x.u), x.m[did]);
  }

  lemma OnlyItsOwnAnswers(store: ArtifactStore, ar: Archive, env: Env, x: Membership, calls: seq<Call>, data: Data)
    requires ar.Valid() && store.contents == ar.Contents() && IsMember(ar, x, env.did)
    ensures Answers(store, env, calls, NeedCasAnnouncement(Announced(ar, x)), data) ==>
              data == Stored(Announcement(x.m))
    ensures Answers(store, env, calls, NeedSignedUpdate(ToHex(ar.h.ofDocument(x.u))), data) ==>
              data == Stored(Update(x.u))
  {
    AnnouncementIsFoundItself(ar.prior, ar.h, ar.cohorts, x.cohort, x.m);
    UpdateIsFoundItself(ar.prior, ar.h, ar.cohorts, x.cohort, x.index);
    HexIsAKey(ar.h.ofAnnouncement(x.m));
    HexIsAKey(ar.h.ofDocument(x.u));
  }

  /** Where a conversation with right answers stands, and after how many calls of `resolve()`. */
  ghost predicate Progress(ar: Archive, x: Membership, stage: Stage, given: Option<Data>, resolves: nat) {
    match given
    case None =>
      (stage == Idle && resolves == 0) || (stage == Owed([NeedCasAnnouncement(Announced(ar, x))]) && resolves == 1)
    case Some(Stored(Announcement(m))) =>
      && m == x.m
      && ((stage == Owed([]) && resolves == 1) ||
          (stage == Owed([NeedSignedUpdate(ToHex(ar.h.ofDocument(x.u)))]) && resolves == 2))
    case Some(Stored(Update(u))) =>
      && u == x.u
      && ((stage == Owed([]) && resolves == 2) || (stage == Finished(x.u) && resolves == 3))
    case _ => false
  }

  ghost predicate Progresses(ar: Archive, x: Membership, did: Did, calls: seq<Call>) {
    Progress(ar, x, StageOf(CasMember(ar.h, Announced(ar, x), did), calls), Given(calls), ResolveCalls(calls))
  }

  lemma ResolveProgresses(ar: Archive, x: Membership, did: Did, calls: seq<Call>)
    requires ar.Valid() && IsMember(ar, x, did) && Progresses(ar, x, did, calls)
    requires StageOf(CasMember(ar.h, Announced(ar, x), did), calls + [ResolveCall]) != OutOfTurn
    ensures Progresses(ar, x, did, calls + [ResolveCall])
  {
    NamesItsUpdate(ar, x, did);
    StageStep(CasMember(ar.h, Announced(ar, x), did), calls, ResolveCall);
    GivenStep(calls, ResolveCall);
    ResolveCallsStep(calls, ResolveCall);
  }

  lemma RightDataProgresses(ar: Archive, x: Membership, stage: Stage, given: Option<Data>, resolves: nat,
                            need: Need, data: Data)
    requires Progress(ar, x, stage, given, resolves) && stage.Owed? && stage.needs != [] && stage.needs[0] == need
    requires need == NeedCasAnnouncement(Announced(ar, x)) ==> data == Stored(Announcement(x.m))
    requires need == NeedSignedUpdate(ToHex(ar.h.ofDocument(x.u))) ==> data == Stored(Update(x.u))
    ensures HashMatches(ar.h, need, data)
    ensures stage.needs[1..] == [] && Progress(ar, x, Owed([]), Some(data), resolves)
  {
  }

  lemma ProvideProgresses(ar: Archive, x: Membership, did: Did, calls: seq<Call>, c: Call)
    requires Progresses(ar, x, did, calls) && c.ProvideCall?
    requires c.need == NeedCasAnnouncement(Announced(ar, x)) ==> c.data == Stored(Announcement(x.m))
    requires c.need == NeedSignedUpdate(ToHex(ar.h.ofDocument(x.u))) ==> c.data == Stored(Update(x.u))
    requires StageOf(CasMember(ar.h, Announced(ar, x), did), calls + [c]) != OutOfTurn
    ensures Progresses(ar, x, did, calls + [c])
  {
    var b := CasMember(ar.h, Announced(ar, x), did);
    StageStep(b, calls, c);
    GivenStep(calls, c);
    ResolveCallsStep(calls, c);
    RightDataProgresses(ar, x, StageOf(b, calls), Given(calls), ResolveCalls(calls), c.need, c.data);
  }

  lemma LastAnswerIsRight(store: ArtifactStore, ar: Archive, env: Env, x: Membership, b: Behaviour,
                          calls: seq<Call>, c: Call)
    requires ar.Valid() && store.contents == ar.Contents() && IsMember(ar, x, env.did)
    requires Sound(store, env, b, calls + [c]) && c.ProvideCall?
    ensures c.need == NeedCasAnnouncement(Announced(ar, x)) ==> c.data == Stored(Announcement(x.m))
    ensures c.need == NeedSignedUpdate(ToHex(ar.h.ofDocument(x.u))) ==> c.data == Stored(Update(x.u))
  {
    assert (calls + [c])[..|calls|] == calls && (calls + [c])[|calls|] == c;
    assert Answers(store, env, calls, c.need, c.data);
    OnlyItsOwnAnswers(store, ar, env, x, calls, c.data);
  }

  lemma SoundStepProgresses(store: ArtifactStore, ar: Archive, env: Env, x: Membership, calls: seq<Call>, c: Call)
    requires ar.Valid() && store.contents == ar.Contents() && IsMember(ar, x, env.did)
    requires Sound(store, env, CasMember(ar.h, Announced(ar, x), env.did), calls + [c])
    requires Progresses(ar, x, env.did, calls)
    ensures Progresses(ar, x, env.did, calls + [c])
  {
    if c.ResolveCall? {
      ResolveProgresses(ar, x, env.did, calls);
    } else {
      LastAnswerIsRight(store, ar, env, x, CasMember(ar.h, Announced(ar, x), env.did), calls, c);
      ProvideProgresses(ar, x, env.did, calls, c);
    }
  }

  lemma SoundAtProgresses(store: ArtifactStore, ar: Archive, env: Env, x: Membership, calls: seq<Call>, n: nat)
    requires ar.Valid() && store.contents == ar.Contents() && IsMember(ar, x, env.did) && n < |calls|
    requires Sound(store, env, CasMember(ar.h, Announced(ar, x), env.did), calls)
    requires Progresses(ar, x, env.did, calls[..n])
    ensures Progresses(ar, x, env.did, calls[..n + 1])
  {
    SoundPrefix(store, env, CasMember(ar.h, Announced(ar, x), env.did), calls, n + 1);
    assert calls[..n + 1] == calls[..n] + [calls[n]];
    SoundStepProgresses(store, ar, env, x, calls[..n], calls[n]);
  }

  lemma {:induction false} AlongPrefixes<T>(s: seq<T>, n: nat, ok: seq<T> -> bool)
    requires n <= |s| && ok(s[..0])
    requires forall i :: 0 <= i < n && ok(s[..i]) ==> ok(s[..i + 1])
    ensures ok(s[..n])
  {
    if n > 0 {
      AlongPrefixes(s, n - 1, ok);
      assert ok(s[..n - 1]) ==> ok(s[..n - 1 + 1]);
    }
  }

  lemma SoundProgresses(store: ArtifactStore, ar: Archive, env: Env, x: Membership, calls: seq<Call>)
    requires ar.Valid() && store.contents == ar.Contents() && IsMember(ar, x, env.did)
    requires Sound(store, env, CasMember(ar.h, Announced(ar, x), env.did), calls)
    ensures Progresses(ar, x, env.did, calls)
  {
    var ok := (s: seq<Call>) => Progresses(ar, x, env.did, s);
    forall i | 0 <= i < |calls| && ok(calls[..i]) ensures ok(calls[..i + 1]) {
      SoundAtProgresses(store, ar, env, x, calls, i);
    }
    assert ok(calls[..0]);
    AlongPrefixes(calls, |calls|, ok);
    assert calls[..|calls|] == calls;
  }

  lemma ProgressGoesOn(ar: Archive, x: Membership, did: Did, calls: seq<Call>, c: Call, rounds: int)
    requires Progresses(ar, x, did, calls + [c]) && 2 <= rounds
    ensures GoesOn(CasMember(ar.h, Announced(ar, x), did), calls + [c], rounds)
  {
    StageStep(CasMember(ar.h, Announced(ar, x), did), calls, c);
  }

  lemma SoundGoesOn(store: ArtifactStore, ar: Archive, env: Env, x: Membership, calls: seq<Call>, c: Call, rounds: int)
    requires ar.Valid() && store.contents == ar.Contents() && IsMember(ar, x, env.did) && 2 <= rounds
    requires Sound(store, env, CasMember(ar.h, Announced(ar, x), env.did), calls + [c])
    ensures GoesOn(CasMember(ar.h, Announced(ar, x), env.did), calls + [c], rounds)
  {
    SoundProgresses(store, ar, env, x, calls + [c]);
    ProgressGoesOn(ar, x, env.did, calls, c, rounds);
  }

  /** The member's resolver converges in two rounds, though it refuses every wrong artifact. */
  lemma CasMemberConverges(store: ArtifactStore, ar: Archive, env: Env, x: Membership, rounds: int)
    requires ar.Valid() && store.contents == ar.Contents() && IsMember(ar, x, env.did) && 2 <= rounds
    ensures Converges(store, env, CasMember(ar.h, Announced(ar, x), env.did), rounds)
  {
    var b := CasMember(ar.h, Announced(ar, x), env.did);
    forall calls | calls != [] && Sound(store, env, b, calls) ensures GoesOn(b, calls, rounds) {
      assert calls == calls[..|calls| - 1] + [calls[|calls| - 1]];
      SoundGoesOn(store, ar, env, x, calls[..|calls| - 1], calls[|calls| - 1], rounds);
    }
  }

  lemma AskedByProgress(ar: Archive, env: Env, x: Membership, calls: seq<Call>, need: Need)
    requires ar.Valid() && IsMember(ar, x, env.did) && Progresses(ar, x, env.did, calls)
    requires Asks(CasMember(ar.h, Announced(ar, x), env.did), calls, need)
    ensures Covers(ar, env, need)
  {
    NamesItsUpdate(ar, x, env.did);
    assert IsAnnouncement(ar, Announced(ar, x), x.cohort);
    assert IsUpdate(ar, Named(x.m, env.did).value, x.cohort, x.index);
  }

  /** It asks only for what the archive covers, though the second need is one the first answer names. */
  lemma CasMemberAsksWithin(store: ArtifactStore, ar: Archive, env: Env, x: Membership)
    requires ar.Valid() && store.contents == ar.Contents() && IsMember(ar, x, env.did)
    ensures AsksWithin(store, ar, env, CasMember(ar.h, Announced(ar, x), env.did))
  {
    var b := CasMember(ar.h, Announced(ar, x), env.did);
    forall past, need | Sound(store, env, b, past) && Asks(b, past, need) ensures Covers(ar, env, need) {
      SoundProgresses(store, ar, env, x, past);
      AskedByProgress(ar, env, x, past, need);
    }
  }

  lemma FinishesWithItsUpdate(store: ArtifactStore, ar: Archive, env: Env, x: Membership, calls: seq<Call>,
                              result: string)
    requires ar.Valid() && store.contents == ar.Contents() && IsMember(ar, x, env.did)
    requires Sound(store, env, CasMember(ar.h, Announced(ar, x), env.did), calls)
    requires StageOf(CasMember(ar.h, Announced(ar, x), env.did), calls) == Finished(result)
    ensures result == x.u
  {
    SoundProgresses(store, ar, env, x, calls);
  }

  /** Two rounds suffice, and the result is the member's own update. */
  method ResolveCasMember(resolver: Resolver, store: ArtifactStore, env: Env, maxIterations: int,
                          ghost ar: Archive, ghost x: Membership)
    returns (r: Outcome)
    requires ar.Valid() && store.contents == ar.Contents() && IsMember(ar, x, env.did) && 2 <= maxIterations
    requires resolver.calls == [] && resolver.behaviour == CasMember(ar.h, Announced(ar, x), env.did)
    modifies resolver
    ensures r == Ok(x.u)
  {
    CasMemberConverges(store, ar, env, x, maxIterations);
    CasMemberAsksWithin(store, ar, env, x);
    r := ResolveMember(resolver, store, env, maxIterations, ar);
    FinishesWithItsUpdate(store, ar, env, x, resolver.calls, r.result);
  }
}
