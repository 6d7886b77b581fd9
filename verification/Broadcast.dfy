/**
 Publishing a cohort's signed beacon transaction: a bounded retry that takes a duplicate rejection for
 success, then confirmation polling, many cohorts interleaved, and a stop that may fall anywhere.
 */
module Broadcast {
  import opened Cohorts
  import opened OrderedMap
  import opened KillSwitch

  type Hex = string
  type Txid = string

  datatype SendOutcome = Accepted(txid: Txid) | Rejected(message: string)

  /** The retry and polling options, with the two message classifiers of the node's rejections. */
  datatype Config = Config(
    sendRetryAttempts: int,
    sendRetryBackoffMs: int,
    confirmTimeoutMs: int,
    isDuplicateAcceptance: string -> bool,
    isNetworkUnreachable: string -> bool)
  {
    function Attempts(): (a: int)
      ensures a >= 1
    {
      if sendRetryAttempts < 1 then 1 else sendRetryAttempts
    }
  }

  /** What a settled send leads to. */
  datatype Next = Resolve(txid: Txid) | GiveUp | BackOff(ms: int)

  predicate ResolvesAsDuplicate(cfg: Config, expected: Option<Txid>, outcome: SendOutcome) {
    outcome.Rejected? && cfg.isDuplicateAcceptance(outcome.message) && expected.Some? && expected.value != ""
  }

  function AfterSend(cfg: Config, expected: Option<Txid>, attempt: nat, outcome: SendOutcome, aborted: bool): Next {
    if outcome.Accepted? then Resolve(outcome.txid)
    else if ResolvesAsDuplicate(cfg, expected, outcome) then Resolve(expected.value)
    else if attempt >= cfg.Attempts() - 1 || aborted then GiveUp
    else BackOff(cfg.sendRetryBackoffMs * (attempt + 1))
  }

  // ---- The two loops, one cohort, against a scripted node ---------------------------------------

  /** How the node and the abort signal answer: attempt by attempt, poll by poll. */
  datatype Script = Script(
    send: nat -> SendOutcome,
    abortedAfterSend: nat -> bool,
    abortedAfterSleep: nat -> bool,
    isConfirmed: nat -> bool,
    abortedBeforePoll: nat -> bool,
    clock: nat -> int)

  datatype SendResult = Sent(txid: Txid) | SendFailed(attempts: int, unreachable: bool, message: string)

  function Sum(s: seq<int>): int {
    if s == [] then 0 else Sum(s[..|s| - 1]) + s[|s| - 1]
  }

  /** Attempt `i` settled as a refusal the loop retries or gives up on. */
  predicate PlainRejection(cfg: Config, expected: Option<Txid>, outcome: SendOutcome) {
    && outcome.Rejected?
    && !(cfg.isDuplicateAcceptance(outcome.message) && expected.Some? && expected.value != "")
  }

  /** The node took the transaction under this id, or already had it under the caller's. */
  predicate IsLiveAs(cfg: Config, expected: Option<Txid>, outcome: SendOutcome, txid: Txid) {
    || outcome == Accepted(txid)
    || (&& outcome.Rejected? && cfg.isDuplicateAcceptance(outcome.message)
        && expected == Some(txid) && txid != "")
  }

  /** Nothing is sent after this attempt: it went through, or it was the last, or the service was stopped after it. */
  ghost predicate EndsSending(cfg: Config, expected: Option<Txid>, script: Script, n: nat) {
    || !PlainRejection(cfg, expected, script.send(n))
    || n >= cfg.sendRetryAttempts - 1 || script.abortedAfterSend(n) || script.abortedAfterSleep(n)
  }

  ghost predicate IsLastSend(cfg: Config, expected: Option<Txid>, script: Script, n: int) {
    n >= 0 && EndsSending(cfg, expected, script, n)
    && forall i :: 0 <= i < n ==> !EndsSending(cfg, expected, script, i)
  }

  method SendWithRetry(cfg: Config, rawHex: Hex, expected: Option<Txid>, script: Script)
    returns (result: SendResult, sends: seq<Hex>, sleeps: seq<int>)
    ensures 1 <= |sends| <= cfg.Attempts()
    ensures forall i :: 0 <= i < |sends| ==> sends[i] == rawHex
    ensures forall i :: 0 <= i < |sends| - 1 ==> PlainRejection(cfg, expected, script.send(i))
    ensures result.Sent? <==> !PlainRejection(cfg, expected, script.send(|sends| - 1))
    ensures result.Sent? ==> IsLiveAs(cfg, expected, script.send(|sends| - 1), result.txid)
    ensures result.SendFailed? ==> result.message == script.send(|sends| - 1).message
                                   && result.unreachable == cfg.isNetworkUnreachable(result.message)
                                   && result.attempts == cfg.Attempts()
    ensures IsLastSend(cfg, expected, script, |sends| - 1)
    ensures |sleeps| == |sends| - 1 || (|sleeps| == |sends| < cfg.Attempts() && script.abortedAfterSleep(|sends| - 1))
    ensures LinearBackoff(cfg.sendRetryBackoffMs, sleeps)
    ensures cfg.sendRetryBackoffMs >= 0 ==>
              2 * Sum(sleeps) <= cfg.sendRetryBackoffMs * (cfg.Attempts() * (cfg.Attempts() - 1))
  {
    var attempts := cfg.Attempts();
    sends, sleeps := [], [];
    var lastError := "";
    var attempt := 0;
    while attempt < attempts
      invariant 0 <= attempt < attempts && |sends| == attempt == |sleeps|
      invariant forall i :: 0 <= i < |sends| ==> sends[i] == rawHex
      invariant forall i :: 0 <= i < attempt ==> PlainRejection(cfg, expected, script.send(i))
      invariant forall i :: 0 <= i < attempt ==> !EndsSending(cfg, expected, script, i)
      invariant LinearBackoff(cfg.sendRetryBackoffMs, sleeps)
    {
      sends := sends + [rawHex];
      BackoffBound(cfg.sendRetryBackoffMs, sleeps, attempts);
      match AfterSend(cfg, expected, attempt, script.send(attempt), script.abortedAfterSend(attempt)) {
        case Resolve(txid) => return Sent(txid), sends, sleeps;
        case GiveUp =>
          lastError := script.send(attempt).message;
          break;
        case BackOff(ms) =>
          BackoffStep(cfg.sendRetryBackoffMs, sleeps, ms);
          lastError := script.send(attempt).message;
          sleeps := sleeps + [ms];
          BackoffBound(cfg.sendRetryBackoffMs, sleeps, attempts);
          if script.abortedAfterSleep(attempt) {
            break;
          }
      }
      attempt := attempt + 1;
    }
    result := SendFailed(attempts, cfg.isNetworkUnreachable(lastError), lastError);
  }

  /** Sleeps of base, 2 base, 3 base and so on: n of them last base times n(n+1)/2. */
  ghost predicate LinearBackoff(base: int, sleeps: seq<int>) {
    && (forall i :: 0 <= i < |sleeps| ==> sleeps[i] == base * (i + 1))
    && 2 * Sum(sleeps) == base * (|sleeps| * (|sleeps| + 1))
  }

  lemma BackoffStep(base: int, sleeps: seq<int>, ms: int)
    requires LinearBackoff(base, sleeps) && ms == base * (|sleeps| + 1)
    ensures LinearBackoff(base, sleeps + [ms])
  {
    var k := |sleeps|;
    assert (sleeps + [ms])[..k] == sleeps;
    assert (k + 1) * (k + 2) == k * (k + 1) + 2 * (k + 1);
    assert base * ((k + 1) * (k + 2)) == base * (k * (k + 1)) + base * (2 * (k + 1));
  }

  lemma BackoffBound(base: int, sleeps: seq<int>, attempts: int)
    requires LinearBackoff(base, sleeps)
    ensures base >= 0 && |sleeps| < attempts ==> 2 * Sum(sleeps) <= base * (attempts * (attempts - 1))
  {
    if base >= 0 && |sleeps| < attempts {
      ProductsGrow(|sleeps|, attempts - 1);
      ScalesUp(base, |sleeps| * (|sleeps| + 1), attempts * (attempts - 1));
    }
  }

  lemma {:induction false} ProductsGrow(k: nat, m: nat)
    requires k <= m
    ensures k * (k + 1) <= (m + 1) * m
  {
    if k < m {
      ProductsGrow(k, m - 1);
      assert (m + 1) * m == m * (m - 1) + 2 * m;
    }
  }

  lemma {:induction false} ScalesUp(base: nat, a: int, b: int)
    requires a <= b
    ensures base * a <= base * b
  {
    if base > 0 {
      ScalesUp(base - 1, a, b);
      assert base * a == (base - 1) * a + a && base * b == (base - 1) * b + b;
    }
  }

  datatype BroadcastResult = BroadcastFailed | BroadcastDone(txid: Txid, confirmed: bool)

  /** The last send decides: refused, it is a failure; gone through, it gives the id. */
  ghost predicate DecidedBySend(cfg: Config, expected: Option<Txid>, script: Script, n: int, r: BroadcastResult) {
    && IsLastSend(cfg, expected, script, n)
    && (r.BroadcastFailed? <==> PlainRejection(cfg, expected, script.send(n)))
    && (r.BroadcastDone? ==> IsLiveAs(cfg, expected, script.send(n), r.txid))
  }

  /** Send, announce the acceptance once, then poll until confirmed, aborted or out of time. */
  method BroadcastAndConfirm(cfg: Config, rawHex: Hex, expected: Option<Txid>, script: Script, ghost horizon: nat)
    returns (result: BroadcastResult, announced: seq<Txid>, polls: nat)
    requires forall i :: i >= horizon ==> script.clock(i) >= script.clock(0) + cfg.confirmTimeoutMs
    ensures result.BroadcastFailed? ==> announced == [] && polls == 0
    ensures exists n :: DecidedBySend(cfg, expected, script, n, result)
    ensures result.BroadcastDone? ==> announced == [result.txid]
    ensures result.BroadcastDone? && result.confirmed ==> polls >= 1 && script.isConfirmed(polls - 1)
    ensures forall i :: 0 <= i < polls - 1 ==> !script.isConfirmed(i)
    ensures forall i :: 0 <= i < polls ==> !script.abortedBeforePoll(i)
    ensures forall i :: 1 <= i <= polls ==> script.clock(i) < script.clock(0) + cfg.confirmTimeoutMs
    ensures result.BroadcastDone? && !result.confirmed ==>
              && (polls >= 1 ==> !script.isConfirmed(polls - 1))
              && (script.abortedBeforePoll(polls) || script.clock(polls + 1) >= script.clock(0) + cfg.confirmTimeoutMs)
  {
    var sent, sends, _ := SendWithRetry(cfg, rawHex, expected, script);
    if sent.SendFailed? {
      assert DecidedBySend(cfg, expected, script, |sends| - 1, BroadcastFailed);
      return BroadcastFailed, [], 0;
    }
    announced := [sent.txid];
    assert forall b :: DecidedBySend(cfg, expected, script, |sends| - 1, BroadcastDone(sent.txid, b));
    var deadline := script.clock(0) + cfg.confirmTimeoutMs;
    polls := 0;
    while script.clock(polls + 1) < deadline && !script.abortedBeforePoll(polls)
      invariant forall i :: 0 <= i < polls ==> !script.isConfirmed(i)
      invariant forall i :: 0 <= i < polls ==> !script.abortedBeforePoll(i)
      invariant forall i :: 1 <= i <= polls ==> script.clock(i) < deadline
      decreases horizon - polls
    {
      polls := polls + 1;
      if script.isConfirmed(polls - 1) {
        return BroadcastDone(sent.txid, true), announced, polls;
      }
    }
    result := BroadcastDone(sent.txid, false);
  }

  // ---- All cohorts, interleaved -----------------------------------------------------------------

  /** A signed transaction as the runner hands it over: `raw` is absent when it does not extract. */
  datatype SignedTx = SignedTx(raw: Option<Hex>, id: Option<Txid>, build: Build)

  datatype Frame = Announced(txid: Txid) | Anchored(txid: Txid, confirmed: bool) | FailedFrame

  datatype Stage =
    | Sending(attempt: nat)
    | BackingOff(attempt: nat)
    | Polling(txid: Txid, deadline: int)
    | PollSleeping(txid: Txid, deadline: int)
    | Settled

  datatype Job = Job(tx: SignedTx, stage: Stage)

  /** What the folds observe, in dispatch order: frames, the co-sign, and the runner's and operator's other events. */
  datatype Obs =
    | Signed(cohort: CohortId, viaScriptPath: bool)
    | Emitted(cohort: CohortId, frame: Frame)
    | Failed(cohort: CohortId)
    | CanceledByOperator(cohort: CohortId)
    | Dismissed(cohort: CohortId)
    | FellBack(cohort: CohortId)
    | Activity(cohort: CohortId)

  datatype Net = Net(
    cfg: Config,
    stopped: bool,
    signed: set<CohortId>,
    jobs: map<CohortId, Job>,
    log: seq<Obs>,
    wire: seq<(CohortId, Hex)>,
    sawConfirmed: set<CohortId>)

  datatype Act =
    | SigningCompletes(cohort: CohortId, publish: bool, tx: SignedTx, viaScriptPath: bool)
    | SendSettles(cohort: CohortId, outcome: SendOutcome, now: int)
    | BackoffEnds(cohort: CohortId)
    | PollSettles(cohort: CohortId, confirmed: bool)
    | PollSleepEnds(cohort: CohortId, now: int)
    | Stop
    | Elsewhere(obs: Obs)

  predicate InStage(net: Net, c: CohortId, p: Stage -> bool) {
    c in net.jobs && p(net.jobs[c].stage)
  }

  /** Whether the act can happen: a pending operation of that cohort settles, and a cohort completes signing once. */
  predicate Enabled(net: Net, a: Act) {
    match a
    case SigningCompletes(c, _, _, _) => c !in net.signed
    case SendSettles(c, _, _) => InStage(net, c, (s: Stage) => s.Sending?)
    case BackoffEnds(c) => InStage(net, c, (s: Stage) => s.BackingOff?)
    case PollSettles(c, _) => InStage(net, c, (s: Stage) => s.Polling?)
    case PollSleepEnds(c, _) => InStage(net, c, (s: Stage) => s.PollSleeping?)
    case Stop => true
    case Elsewhere(o) => !o.Signed? && !o.Emitted?
  }

  /** What one settled operation does for its cohort: a new stage, frames for the folds, bytes for the network. */
  datatype Effect = Effect(stage: Stage, frames: seq<Frame>, sends: seq<Hex>, sawConfirmed: bool)

  /** Once the service is stopping no frame leaves it. */
  function Audible(stopped: bool, f: Frame): seq<Frame> {
    if stopped then [] else [f]
  }

  /** The head of the poll loop: poll again, or close with an unconfirmed anchor. */
  function PollOrClose(stopped: bool, txid: Txid, deadline: int, now: int, frames: seq<Frame>): Effect {
    if now < deadline && !stopped then Effect(Polling(txid, deadline), frames, [], false)
    else Effect(Settled, frames + Audible(stopped, Anchored(txid, false)), [], false)
  }

  function OnSigned(tx: SignedTx): Effect {
    match tx.raw
    case None => Effect(Settled, [FailedFrame], [], false)
    case Some(raw) => Effect(Sending(0), [], [raw], false)
  }

  function OnSendSettled(cfg: Config, stopped: bool, tx: SignedTx, attempt: nat, outcome: SendOutcome,
                         now: int): Effect
  {
    match AfterSend(cfg, tx.id, attempt, outcome, stopped)
    case Resolve(txid) =>
      PollOrClose(stopped, txid, now + cfg.confirmTimeoutMs, now, Audible(stopped, Announced(txid)))
    case GiveUp => Effect(Settled, Audible(stopped, FailedFrame), [], false)
    case BackOff(_) => Effect(BackingOff(attempt), [], [], false)
  }

  function OnBackoffEnd(stopped: bool, tx: SignedTx, attempt: nat): Effect {
    if stopped || tx.raw.None? then Effect(Settled, [], [], false)
    else Effect(Sending(attempt + 1), [], [tx.raw.value], false)
  }

  function OnPollSettled(stopped: bool, txid: Txid, deadline: int, confirmed: bool): Effect {
    if confirmed then Effect(Settled, Audible(stopped, Anchored(txid, true)), [], true)
    else Effect(PollSleeping(txid, deadline), [], [], false)
  }

  function Tagged(c: CohortId, frames: seq<Frame>): seq<Obs> {
    seq(|frames|, i requires 0 <= i < |frames| => Emitted(c, frames[i]))
  }

  function Addressed(c: CohortId, sends: seq<Hex>): seq<(CohortId, Hex)> {
    seq(|sends|, i requires 0 <= i < |sends| => (c, sends[i]))
  }

  function Apply(net: Net, c: CohortId, tx: SignedTx, e: Effect): Net {
    net.(jobs := net.jobs[c := Job(tx, e.stage)],
         log := net.log + Tagged(c, e.frames),
         wire := net.wire + Addressed(c, e.sends),
         sawConfirmed := if e.sawConfirmed then net.sawConfirmed + {c} else net.sawConfirmed)
  }

  /** The effect of an enabled act on the pending job of its cohort. */
  function JobEffect(net: Net, a: Act): Effect
    requires Enabled(net, a) && !a.SigningCompletes? && !a.Stop? && !a.Elsewhere?
  {
    var job := net.jobs[a.cohort];
    match a
    case SendSettles(_, outcome, now) => OnSendSettled(net.cfg, net.stopped, job.tx, job.stage.attempt, outcome, now)
    case BackoffEnds(_) => OnBackoffEnd(net.stopped, job.tx, job.stage.attempt)
    case PollSettles(_, confirmed) => OnPollSettled(net.stopped, job.stage.txid, job.stage.deadline, confirmed)
    case PollSleepEnds(_, now) => PollOrClose(net.stopped, job.stage.txid, job.stage.deadline, now, [])
  }

  function Dispatched(net: Net, c: CohortId, publish: bool, tx: SignedTx): Net {
    if net.stopped || !publish then net else Apply(net, c, tx, OnSigned(tx))
  }

  function Step(net: Net, a: Act): Net {
    if !Enabled(net, a) then net else
    match a
    case SigningCompletes(c, publish, tx, viaScript) =>
      // The broadcast listener is registered first, so an extract failure is dispatched before the co-sign is folded.
      var n := Dispatched(net, c, publish, tx);
      n.(signed := n.signed + {c}, log := n.log + [Signed(c, viaScript)])
    case Stop => net.(stopped := true)
    case Elsewhere(o) => net.(log := net.log + [o])
    case _ => Apply(net, a.cohort, net.jobs[a.cohort].tx, JobEffect(net, a))
  }

  function Start(cfg: Config): Net {
    Net(cfg, false, {}, map[], [], [], {})
  }

  function RunNet(cfg: Config, acts: seq<Act>): Net {
    if acts == [] then Start(cfg) else Step(RunNet(cfg, acts[..|acts| - 1]), acts[|acts| - 1])
  }

  // ---- What one cohort sees ---------------------------------------------------------------------

  /** The co-sign and the frames of one cohort, in order. */
  function Trace(log: seq<Obs>, c: CohortId): seq<Obs> {
    if log == [] then []
    else
      var o := log[|log| - 1];
      Trace(log[..|log| - 1], c) + if (o.Signed? || o.Emitted?) && o.cohort == c then [o] else []
  }

  /** The sends of one cohort, in order. */
  function SendsOf(wire: seq<(CohortId, Hex)>, c: CohortId): seq<Hex> {
    if wire == [] then []
    else SendsOf(wire[..|wire| - 1], c) + if wire[|wire| - 1].0 == c then [wire[|wire| - 1].1] else []
  }

  lemma TraceAppend(log: seq<Obs>, o: Obs, c: CohortId)
    ensures Trace(log + [o], c) == Trace(log, c) + if (o.Signed? || o.Emitted?) && o.cohort == c then [o] else []
  {
    assert (log + [o])[..|log|] == log;
  }

  lemma {:induction false} TraceIsOwn(log: seq<Obs>, c: CohortId)
    ensures forall i :: 0 <= i < |Trace(log, c)| ==> Trace(log, c)[i].cohort == c
  {
    if log != [] { TraceIsOwn(log[..|log| - 1], c); }
  }

  lemma {:induction false} TraceTagged(log: seq<Obs>, x: CohortId, frames: seq<Frame>, c: CohortId)
    ensures Trace(log + Tagged(x, frames), c) == Trace(log, c) + if x == c then Tagged(x, frames) else []
  {
    if frames == [] {
      assert log + Tagged(x, frames) == log;
    } else {
      var n := |frames| - 1;
      TraceTagged(log, x, frames[..n], c);
      TaggedSnoc(log, x, frames);
      TraceAppend(log + Tagged(x, frames[..n]), Emitted(x, frames[n]), c);
    }
  }

  lemma TaggedSnoc(log: seq<Obs>, x: CohortId, frames: seq<Frame>)
    requires frames != []
    ensures var n := |frames| - 1;
            && Tagged(x, frames) == Tagged(x, frames[..n]) + [Emitted(x, frames[n])]
            && log + Tagged(x, frames) == log + Tagged(x, frames[..n]) + [Emitted(x, frames[n])]
  {
  }

  lemma {:induction false} SendsAddressed(wire: seq<(CohortId, Hex)>, x: CohortId, sends: seq<Hex>, c: CohortId)
    ensures SendsOf(wire + Addressed(x, sends), c) == SendsOf(wire, c) + if x == c then sends else []
  {
    if sends == [] {
      assert wire + Addressed(x, sends) == wire;
    } else {
      var n := |sends| - 1;
      SendsAddressed(wire, x, sends[..n], c);
      assert (wire + Addressed(x, sends))[..|wire| + n] == wire + Addressed(x, sends[..n]);
      assert sends == sends[..n] + [sends[n]];
    }
  }

  /** Every frame sequence the protocol may leave behind, with the co-sign in its place. */
  ghost predicate Grammar(t: seq<Obs>, c: CohortId) {
    || t == []
    || (|t| == 1 && t[0].Signed?)
    || (|t| == 2 && t[0] == Emitted(c, FailedFrame) && t[1].Signed?)
    || (|t| == 2 && t[0].Signed? && t[1] == Emitted(c, FailedFrame))
    || (|t| == 2 && t[0].Signed? && t[1].Emitted? && t[1].frame.Announced?)
    || AnchoredTrace(t, c)
  }

  ghost predicate AnchoredTrace(t: seq<Obs>, c: CohortId) {
    && |t| == 3 && t[0].Signed? && t[1].Emitted? && t[1].frame.Announced?
    && t[2].Emitted? && t[2].frame.Anchored? && t[2].frame.txid == t[1].frame.txid
  }

  /** A cohort's pending work, given what it has emitted (`t`) and sent. */
  ghost predicate JobOk(cfg: Config, stopped: bool, tx: SignedTx, stage: Stage, c: CohortId, t: seq<Obs>,
                        sends: seq<Hex>, saw: bool)
  {
    && |sends| <= cfg.Attempts()
    && (forall i :: 0 <= i < |sends| ==> Some(sends[i]) == tx.raw)
    && t != [] && (t[0].Emitted? <==> tx.raw.None?)
    && (!stage.Settled? ==> t[0].Signed?)
    && match stage
       case Sending(n) => |t| == 1 && |sends| == n + 1 && tx.raw.Some?
       case BackingOff(n) => |t| == 1 && |sends| == n + 1 < cfg.Attempts() && tx.raw.Some?
       case Polling(x, _) => |t| == 2 && t[1] == Emitted(c, Announced(x)) && |sends| >= 1
       case PollSleeping(x, _) => |t| == 2 && t[1] == Emitted(c, Announced(x)) && |sends| >= 1
       case Settled => SettledOk(cfg, stopped, c, t, sends, saw)
  }

  ghost predicate SettledOk(cfg: Config, stopped: bool, c: CohortId, t: seq<Obs>, sends: seq<Hex>, saw: bool) {
    || (stopped && |t| == 1 && t[0].Signed?)
    || (stopped && |t| == 2 && t[0].Signed? && t[1].Emitted? && t[1].frame.Announced? && |sends| >= 1)
    || (|t| == 2 && t[0] == Emitted(c, FailedFrame) && t[1].Signed? && sends == [])
    || (|t| == 2 && t[0].Signed? && t[1] == Emitted(c, FailedFrame) && |sends| == cfg.Attempts())
    || (AnchoredTrace(t, c) && |sends| >= 1 && (t[2].frame.confirmed ==> saw))
  }

  /** What an effect must do to keep a cohort's work in order. */
  ghost predicate KeepsJobOk(cfg: Config, stopped: bool, tx: SignedTx, c: CohortId, t: seq<Obs>, sends: seq<Hex>,
                             saw: bool, e: Effect)
  {
    JobOk(cfg, stopped, tx, e.stage, c, t + Tagged(c, e.frames), sends + e.sends, saw || e.sawConfirmed)
  }

  lemma SendSettledKeepsJobOk(cfg: Config, stopped: bool, tx: SignedTx, n: nat, c: CohortId, t: seq<Obs>,
                              sends: seq<Hex>, saw: bool, outcome: SendOutcome, now: int)
    requires JobOk(cfg, stopped, tx, Sending(n), c, t, sends, saw)
    ensures KeepsJobOk(cfg, stopped, tx, c, t, sends, saw, OnSendSettled(cfg, stopped, tx, n, outcome, now))
  {
    assert sends + [] == sends;
  }

  lemma BackoffEndKeepsJobOk(cfg: Config, stopped: bool, tx: SignedTx, n: nat, c: CohortId, t: seq<Obs>,
                             sends: seq<Hex>, saw: bool)
    requires JobOk(cfg, stopped, tx, BackingOff(n), c, t, sends, saw)
    ensures KeepsJobOk(cfg, stopped, tx, c, t, sends, saw, OnBackoffEnd(stopped, tx, n))
  {
    assert t + Tagged(c, []) == t;
  }

  lemma PollSettledKeepsJobOk(cfg: Config, stopped: bool, tx: SignedTx, x: Txid, d: int, c: CohortId, t: seq<Obs>,
                              sends: seq<Hex>, saw: bool, confirmed: bool)
    requires JobOk(cfg, stopped, tx, Polling(x, d), c, t, sends, saw)
    ensures KeepsJobOk(cfg, stopped, tx, c, t, sends, saw, OnPollSettled(stopped, x, d, confirmed))
  {
    assert sends + [] == sends;
  }

  lemma PollSleepEndKeepsJobOk(cfg: Config, stopped: bool, tx: SignedTx, x: Txid, d: int, c: CohortId, t: seq<Obs>,
                               sends: seq<Hex>, saw: bool, now: int)
    requires JobOk(cfg, stopped, tx, PollSleeping(x, d), c, t, sends, saw)
    ensures KeepsJobOk(cfg, stopped, tx, c, t, sends, saw, PollOrClose(stopped, x, d, now, []))
  {
    assert sends + [] == sends;
  }

  ghost predicate CohortInv(net: Net, c: CohortId) {
    var t, sends := Trace(net.log, c), SendsOf(net.wire, c);
    if c in net.jobs then
      && c in net.signed
      && JobOk(net.cfg, net.stopped, net.jobs[c].tx, net.jobs[c].stage, c, t, sends, c in net.sawConfirmed)
    else
      && sends == []
      && if c in net.signed then |t| == 1 && t[0].Signed? else t == []
  }

  /** Nothing of a cohort differs between two states: its frames, its sends, its pending work. */
  ghost predicate SameFor(before: Net, after: Net, c: CohortId) {
    && Trace(after.log, c) == Trace(before.log, c)
    && SendsOf(after.wire, c) == SendsOf(before.wire, c)
    && (c in after.signed <==> c in before.signed)
    && (c in after.sawConfirmed <==> c in before.sawConfirmed)
    && (c in after.jobs <==> c in before.jobs)
    && (c in before.jobs ==> after.jobs[c] == before.jobs[c])
  }

  lemma ApplyFramesOthers(net: Net, x: CohortId, tx: SignedTx, e: Effect, c: CohortId)
    requires x != c && CohortInv(net, c)
    ensures CohortInv(Apply(net, x, tx, e), c)
    ensures SameFor(net, Apply(net, x, tx, e), c)
  {
    TraceTagged(net.log, x, e.frames, c);
    SendsAddressed(net.wire, x, e.sends, c);
  }

  lemma SignedFramesOthers(net: Net, x: CohortId, via: bool, c: CohortId)
    requires x != c && CohortInv(net, c)
    ensures var after := net.(signed := net.signed + {x}, log := net.log + [Signed(x, via)]);
            CohortInv(after, c) && SameFor(net, after, c)
  {
    TraceAppend(net.log, Signed(x, via), c);
  }

  /** A step of another cohort, of the operator or of `stop` leaves this cohort in order. */
  lemma StepFramesOthers(net: Net, a: Act, c: CohortId)
    requires a.Stop? || a.Elsewhere? || a.cohort != c
    requires Enabled(net, a) && CohortInv(net, c)
    ensures CohortInv(Step(net, a), c) && SameFor(net, Step(net, a), c)
  {
    match a
    case Stop =>
    case Elsewhere(o) => TraceAppend(net.log, o, c);
    case SigningCompletes(x, publish, tx, via) =>
      ApplyFramesOthers(net, x, tx, OnSigned(tx), c);
      SignedFramesOthers(Dispatched(net, x, publish, tx), x, via, c);
    case _ => ApplyFramesOthers(net, a.cohort, net.jobs[a.cohort].tx, JobEffect(net, a), c);
  }

  lemma StepKeepsOwnInv(net: Net, a: Act, c: CohortId)
    requires !a.SigningCompletes? && !a.Stop? && !a.Elsewhere? && a.cohort == c
    requires Enabled(net, a) && CohortInv(net, c)
    ensures CohortInv(Step(net, a), c)
  {
    var t, sends, saw, job := Trace(net.log, c), SendsOf(net.wire, c), c in net.sawConfirmed, net.jobs[c];
    match a {
      case SendSettles(_, outcome, now) =>
        SendSettledKeepsJobOk(net.cfg, net.stopped, job.tx, job.stage.attempt, c, t, sends, saw, outcome, now);
      case BackoffEnds(_) => BackoffEndKeepsJobOk(net.cfg, net.stopped, job.tx, job.stage.attempt, c, t, sends, saw);
      case PollSettles(_, confirmed) =>
        PollSettledKeepsJobOk(net.cfg, net.stopped, job.tx, job.stage.txid, job.stage.deadline, c, t, sends, saw,
                              confirmed);
      case PollSleepEnds(_, now) =>
        PollSleepEndKeepsJobOk(net.cfg, net.stopped, job.tx, job.stage.txid, job.stage.deadline, c, t, sends, saw, now);
    }
    var e := JobEffect(net, a);
    assert KeepsJobOk(net.cfg, net.stopped, job.tx, c, t, sends, saw, e);
    TraceTagged(net.log, c, e.frames, c);
    SendsAddressed(net.wire, c, e.sends, c);
  }

  /** The handler's synchronous part when the transaction does not extract: a failure and no send. */
  lemma ExtractFailureKeepsInv(net: Net, c: CohortId, tx: SignedTx, via: bool)
    requires c !in net.signed && CohortInv(net, c) && !net.stopped && tx.raw.None?
    ensures var after := Step(net, SigningCompletes(c, true, tx, via));
            && CohortInv(after, c)
            && Trace(after.log, c) == [Emitted(c, FailedFrame), Signed(c, via)]
            && SendsOf(after.wire, c) == [] && c in after.jobs && after.jobs[c] == Job(tx, Settled)
  {
    var m := Step(net, SigningCompletes(c, true, tx, via));
    ExtractFailureShape(net, c, tx, via);
    TraceAppend(net.log, Emitted(c, FailedFrame), c);
    TraceAppend(net.log + [Emitted(c, FailedFrame)], Signed(c, via), c);
    assert Trace(m.log, c) == [Emitted(c, FailedFrame)] + [Signed(c, via)];
    SettledAfterExtractFailure(net.cfg, net.stopped, tx, c, via, c in net.sawConfirmed);
  }

  lemma ExtractFailureShape(net: Net, c: CohortId, tx: SignedTx, via: bool)
    requires c !in net.signed && !net.stopped && tx.raw.None?
    ensures Step(net, SigningCompletes(c, true, tx, via)) ==
            net.(jobs := net.jobs[c := Job(tx, Settled)], signed := net.signed + {c},
                 log := net.log + [Emitted(c, FailedFrame)] + [Signed(c, via)])
  {
    assert Tagged(c, [FailedFrame]) == [Emitted(c, FailedFrame)];
    assert net.wire + Addressed(c, []) == net.wire;
  }

  lemma SettledAfterExtractFailure(cfg: Config, stopped: bool, tx: SignedTx, c: CohortId, via: bool, saw: bool)
    requires tx.raw.None?
    ensures JobOk(cfg, stopped, tx, Settled, c, [Emitted(c, FailedFrame)] + [Signed(c, via)], [], saw)
  {
  }

  /** The same part when it extracts: the first send. */
  lemma FirstSendKeepsInv(net: Net, c: CohortId, tx: SignedTx, via: bool)
    requires c !in net.signed && CohortInv(net, c) && !net.stopped && tx.raw.Some?
    ensures CohortInv(Step(net, SigningCompletes(c, true, tx, via)), c)
  {
    var n := Apply(net, c, tx, OnSigned(tx));
    assert n.log == net.log;
    TraceAppend(net.log, Signed(c, via), c);
    SendsAddressed(net.wire, c, [tx.raw.value], c);
    assert SendsOf(n.wire, c) == [tx.raw.value];
    SendingAfterSigning(net.cfg, net.stopped, tx, c, via, c in net.sawConfirmed);
  }

  lemma SendingAfterSigning(cfg: Config, stopped: bool, tx: SignedTx, c: CohortId, via: bool, saw: bool)
    requires tx.raw.Some?
    ensures JobOk(cfg, stopped, tx, Sending(0), c, [Signed(c, via)], [tx.raw.value], saw)
  {
  }

  lemma SigningKeepsOwnInv(net: Net, c: CohortId, publish: bool, tx: SignedTx, via: bool)
    requires c !in net.signed && CohortInv(net, c)
    ensures CohortInv(Step(net, SigningCompletes(c, publish, tx, via)), c)
  {
    if net.stopped || !publish {
      TraceAppend(net.log, Signed(c, via), c);
    } else if tx.raw.None? {
      ExtractFailureKeepsInv(net, c, tx, via);
    } else {
      FirstSendKeepsInv(net, c, tx, via);
    }
  }

  lemma {:induction false} RunKeepsCohortInv(cfg: Config, acts: seq<Act>, c: CohortId)
    ensures CohortInv(RunNet(cfg, acts), c) && RunNet(cfg, acts).cfg == cfg
  {
    if acts != [] {
      var net, a := RunNet(cfg, acts[..|acts| - 1]), acts[|acts| - 1];
      RunKeepsCohortInv(cfg, acts[..|acts| - 1], c);
      if Enabled(net, a) {
        if a.Stop? || a.Elsewhere? || a.cohort != c {
          StepFramesOthers(net, a, c);
        } else if a.SigningCompletes? {
          SigningKeepsOwnInv(net, c, a.publish, a.tx, a.viaScriptPath);
        } else {
          StepKeepsOwnInv(net, a, c);
        }
      }
    }
  }

  // ---- The promises -----------------------------------------------------------------------------

  /**
   The frame grammar, for every interleaving and every moment of stopping: one cohort's frames are a
   prefix of a failure, or of an announcement and an anchor of the same transaction; an anchor says
   confirmed only if a poll said so; at most `Attempts` sends were made, all of the same bytes; a
   failure after the first send means every attempt was spent; and work that settled on a service
   still running has told its whole story.
   */
  lemma FrameGrammar(cfg: Config, acts: seq<Act>, c: CohortId)
    ensures var net := RunNet(cfg, acts); var t := Trace(net.log, c); var sends := SendsOf(net.wire, c);
            && Grammar(t, c)
            && (AnchoredTrace(t, c) && t[2].frame.confirmed ==> c in net.sawConfirmed)
            && |sends| <= cfg.Attempts()
            && (forall i :: 0 <= i < |sends| ==> sends[i] == sends[0])
            && (|t| == 2 && t[1] == Emitted(c, FailedFrame) ==> |sends| == cfg.Attempts())
            && (!net.stopped && c in net.jobs && net.jobs[c].stage.Settled? ==>
                  AnchoredTrace(t, c) || (|t| == 2 && Emitted(c, FailedFrame) in t))
  {
    RunKeepsCohortInv(cfg, acts, c);
  }

  function Frames(log: seq<Obs>): seq<Obs> {
    if log == [] then []
    else Frames(log[..|log| - 1]) + if log[|log| - 1].Emitted? then [log[|log| - 1]] else []
  }

  /** Nothing is emitted and nothing is sent once the service has stopped. */
  lemma StoppedStepIsSilent(net: Net, a: Act)
    requires net.stopped
    ensures Step(net, a).stopped && Step(net, a).wire == net.wire
    ensures Frames(Step(net, a).log) == Frames(net.log)
  {
    if Enabled(net, a) {
      match a
      case Stop =>
      case Elsewhere(o) => assert (net.log + [o])[..|net.log|] == net.log;
      case SigningCompletes(c, _, _, via) => assert (net.log + [Signed(c, via)])[..|net.log|] == net.log;
      case _ =>
        assert JobEffect(net, a).frames == [] && JobEffect(net, a).sends == [];
        assert net.log + Tagged(a.cohort, []) == net.log && net.wire + Addressed(a.cohort, []) == net.wire;
    }
  }

  /** The service is stopped exactly once it has been told to. */
  lemma {:induction false} StoppedExactly(cfg: Config, acts: seq<Act>)
    ensures RunNet(cfg, acts).stopped <==> Stop in acts
  {
    if acts != [] {
      var n := |acts| - 1;
      StoppedExactly(cfg, acts[..n]);
      assert acts == acts[..n] + [acts[n]];
    }
  }

  lemma {:induction false} StopSilences(cfg: Config, acts: seq<Act>, i: nat)
    requires i <= |acts| && Stop in acts[..i]
    ensures RunNet(cfg, acts).stopped
    ensures Frames(RunNet(cfg, acts).log) == Frames(RunNet(cfg, acts[..i]).log)
    ensures RunNet(cfg, acts).wire == RunNet(cfg, acts[..i]).wire
  {
    if i == |acts| {
      assert acts[..i] == acts;
      StoppedExactly(cfg, acts);
    } else {
      var n := |acts| - 1;
      assert acts[..n][..i] == acts[..i];
      StopSilences(cfg, acts[..n], i);
      StoppedStepIsSilent(RunNet(cfg, acts[..n]), acts[n]);
    }
  }

  // ---- What happens elsewhere -------------------------------------------------------------------

  /** The observations the protocol does not make itself. */
  function Foreign(log: seq<Obs>): seq<Obs> {
    if log == [] then []
    else
      var o := log[|log| - 1];
      Foreign(log[..|log| - 1]) + if o.Signed? || o.Emitted? then [] else [o]
  }

  /** The observations that happen elsewhere, as the acts tell them. */
  function Heard(acts: seq<Act>): seq<Obs> {
    if acts == [] then []
    else
      var a := acts[|acts| - 1];
      Heard(acts[..|acts| - 1]) + if a.Elsewhere? && !a.obs.Signed? && !a.obs.Emitted? then [a.obs] else []
  }

  lemma ForeignAppend(log: seq<Obs>, o: Obs)
    ensures Foreign(log + [o]) == Foreign(log) + if o.Signed? || o.Emitted? then [] else [o]
  {
    assert (log + [o])[..|log|] == log;
  }

  lemma {:induction false} ForeignTagged(log: seq<Obs>, c: CohortId, frames: seq<Frame>)
    ensures Foreign(log + Tagged(c, frames)) == Foreign(log)
  {
    if frames == [] {
      assert log + Tagged(c, frames) == log;
    } else {
      var n := |frames| - 1;
      ForeignTagged(log, c, frames[..n]);
      assert log + Tagged(c, frames) == (log + Tagged(c, frames[..n])) + [Emitted(c, frames[n])];
      ForeignAppend(log + Tagged(c, frames[..n]), Emitted(c, frames[n]));
    }
  }

  lemma StepHears(net: Net, a: Act)
    ensures Foreign(Step(net, a).log) ==
            Foreign(net.log) + if a.Elsewhere? && !a.obs.Signed? && !a.obs.Emitted? then [a.obs] else []
  {
    if Enabled(net, a) {
      match a
      case Stop =>
      case Elsewhere(o) => ForeignAppend(net.log, o);
      case SigningCompletes(c, publish, tx, via) =>
        ForeignTagged(net.log, c, OnSigned(tx).frames);
        ForeignAppend(Dispatched(net, c, publish, tx).log, Signed(c, via));
      case _ => ForeignTagged(net.log, a.cohort, JobEffect(net, a).frames);
    }
  }

  /** Whatever else happens to any cohort reaches the folds once and in order, whether or not the service stopped. */
  lemma {:induction false} ForeignIsHeard(cfg: Config, acts: seq<Act>)
    ensures Foreign(RunNet(cfg, acts).log) == Heard(acts)
  {
    if acts != [] {
      ForeignIsHeard(cfg, acts[..|acts| - 1]);
      StepHears(RunNet(cfg, acts[..|acts| - 1]), acts[|acts| - 1]);
    }
  }

  /** A cohort the gate refused is never sent, and no frame ever names it. */
  lemma {:induction false} GatedOffStaysSilent(cfg: Config, acts: seq<Act>, i: nat, c: CohortId)
    requires i < |acts| && acts[i].SigningCompletes? && acts[i].cohort == c && !acts[i].publish
    requires c !in RunNet(cfg, acts[..i]).signed
    ensures c in RunNet(cfg, acts).signed && c !in RunNet(cfg, acts).jobs
    ensures SendsOf(RunNet(cfg, acts).wire, c) == []
    ensures Trace(RunNet(cfg, acts).log, c) == [Signed(c, acts[i].viaScriptPath)]
  {
    var n := |acts| - 1;
    var net, a := RunNet(cfg, acts[..n]), acts[n];
    RunKeepsCohortInv(cfg, acts[..n], c);
    if i < n {
      assert acts[..n][..i] == acts[..i] && acts[..n][i] == acts[i];
      GatedOffStaysSilent(cfg, acts[..n], i, c);
      if Enabled(net, a) {
        StepFramesOthers(net, a, c);
      }
    } else {
      TraceAppend(net.log, Signed(c, a.viaScriptPath), c);
    }
  }
}
