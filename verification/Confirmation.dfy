/**
 What the broadcast protocol owes each thing that happens to a cohort: what every settled send, sleep and poll
 leads to, and when an anchor is announced as confirmed or as not, told by the acts themselves.
 */
module Confirmation {
  import opened AnchorState
  import opened Broadcast
  import opened Cohorts
  import opened FateFold
  import opened OrderedMap

  // ---- One act at a time ------------------------------------------------------------------------

  /** The act happens: it is enabled, and the service still runs. */
  ghost predicate Happens(net: Net, a: Act) {
    !net.stopped && Enabled(net, a)
  }

  lemma OneFrame(c: CohortId, f: Frame)
    ensures Tagged(c, [f]) == [Emitted(c, f)]
  {
  }

  lemma NoFramesNoSends(net: Net, c: CohortId)
    ensures net.log + Tagged(c, []) == net.log && net.wire + Addressed(c, []) == net.wire
  {
  }

  /** A cohort let through is sent at once, as it was signed. */
  lemma SignedIsSent(net: Net, c: CohortId, tx: SignedTx, via: bool)
    requires Happens(net, SigningCompletes(c, true, tx, via)) && tx.raw.Some?
    ensures var after := Broadcast.Step(net, SigningCompletes(c, true, tx, via));
            && after.wire == net.wire + [(c, tx.raw.value)] && after.log == net.log + [Signed(c, via)]
            && forall outcome, now :: Enabled(after, SendSettles(c, outcome, now))
  {
    assert Addressed(c, [tx.raw.value]) == [(c, tx.raw.value)];
    NoFramesNoSends(net, c);
  }

  /**
   A send the node took, or had taken before, is announced under the id it went through as; with time left a poll
   is under way, and with none the anchor closes unconfirmed.
   */
  lemma AcceptedSendPolls(net: Net, c: CohortId, outcome: SendOutcome, now: int, x: Txid)
    requires Happens(net, SendSettles(c, outcome, now)) && IsLiveAs(net.cfg, net.jobs[c].tx.id, outcome, x)
    ensures var after := Broadcast.Step(net, SendSettles(c, outcome, now));
            && after.wire == net.wire
            && if net.cfg.confirmTimeoutMs > 0
               then && after.log == net.log + [Emitted(c, Announced(x))]
                    && forall confirmed :: Enabled(after, PollSettles(c, confirmed))
               else after.log == net.log + [Emitted(c, Announced(x)), Emitted(c, Anchored(x, false))]
  {
    NoFramesNoSends(net, c);
    OneFrame(c, Announced(x));
    assert Tagged(c, [Announced(x)] + [Anchored(x, false)]) ==
           [Emitted(c, Announced(x)), Emitted(c, Anchored(x, false))];
  }

  /** A refused send is retried after a sleep while fewer sends were made than allowed, and then it is a failure. */
  lemma RefusedSendRetries(net: Net, c: CohortId, outcome: SendOutcome, now: int)
    requires Happens(net, SendSettles(c, outcome, now)) && CohortInv(net, c)
    requires PlainRejection(net.cfg, net.jobs[c].tx.id, outcome)
    ensures var after := Broadcast.Step(net, SendSettles(c, outcome, now));
            && after.wire == net.wire
            && if |SendsOf(net.wire, c)| < net.cfg.sendRetryAttempts
               then after.log == net.log && Enabled(after, BackoffEnds(c))
               else after.log == net.log + [Emitted(c, FailedFrame)]
  {
    NoFramesNoSends(net, c);
    OneFrame(c, FailedFrame);
  }

  /** The sleep over, the same bytes go out again. */
  lemma SleptIsSentAgain(net: Net, c: CohortId)
    requires Happens(net, BackoffEnds(c)) && CohortInv(net, c)
    ensures net.jobs[c].tx.raw.Some?
    ensures var after := Broadcast.Step(net, BackoffEnds(c));
            && after.log == net.log && after.wire == net.wire + [(c, net.jobs[c].tx.raw.value)]
            && forall outcome, now :: Enabled(after, SendSettles(c, outcome, now))
  {
    NoFramesNoSends(net, c);
    assert Addressed(c, [net.jobs[c].tx.raw.value]) == [(c, net.jobs[c].tx.raw.value)];
  }

  /** The id the cohort's transaction was announced under. */
  ghost predicate AnnouncedAs(net: Net, c: CohortId, x: Txid) {
    |Trace(net.log, c)| >= 2 && Trace(net.log, c)[1] == Emitted(c, Announced(x))
  }

  lemma PolledIsAnnounced(net: Net, c: CohortId)
    requires CohortInv(net, c) && c in net.jobs
    requires net.jobs[c].stage.Polling? || net.jobs[c].stage.PollSleeping?
    ensures AnnouncedAs(net, c, net.jobs[c].stage.txid) && |Trace(net.log, c)| == 2
  {
  }

  /** A poll that finds it mined closes with a confirmed anchor of the announced id; any other is slept on. */
  lemma PollDecides(net: Net, c: CohortId, confirmed: bool, x: Txid)
    requires Happens(net, PollSettles(c, confirmed)) && CohortInv(net, c) && AnnouncedAs(net, c, x)
    ensures var after := Broadcast.Step(net, PollSettles(c, confirmed));
            && after.wire == net.wire
            && if confirmed then after.log == net.log + [Emitted(c, Anchored(x, true))]
               else after.log == net.log && forall now :: Enabled(after, PollSleepEnds(c, now))
  {
    PolledIsAnnounced(net, c);
    NoFramesNoSends(net, c);
    OneFrame(c, Anchored(x, true));
  }

  /** Nothing is pending for the cohort. */
  ghost predicate AtRest(net: Net, c: CohortId) {
    forall a :: Enabled(net, a) && !a.Stop? && !a.Elsewhere? && !a.SigningCompletes? ==> a.cohort != c
  }

  /** On a stopped service whatever settles for a cohort ends its work, but for a poll that is slept on first. */
  lemma StoppedWorkEnds(net: Net, a: Act)
    requires net.stopped && Enabled(net, a) && !a.Stop? && !a.Elsewhere? && !a.SigningCompletes?
    requires !(a.PollSettles? && !a.confirmed)
    ensures AtRest(Broadcast.Step(net, a), a.cohort)
  {
    var after := Broadcast.Step(net, a);
    assert after.jobs[a.cohort].stage == Settled;
    forall b | Enabled(after, b) && !b.Stop? && !b.Elsewhere? && !b.SigningCompletes? ensures b.cohort != a.cohort {}
  }

  // ---- Told by the acts -------------------------------------------------------------------------

  /** At `i`, and at this clock, a send of the cohort settled as accepted under this id on a running service. */
  ghost predicate AcceptedAt(cfg: Config, acts: seq<Act>, i: int, c: CohortId, x: Txid, clock: int) {
    && 0 <= i < |acts| && acts[i].SendSettles? && acts[i].cohort == c && acts[i].now == clock
    && Happens(RunNet(cfg, acts[..i]), acts[i])
    && IsLiveAs(cfg, RunNet(cfg, acts[..i]).jobs[c].tx.id, acts[i].outcome, x)
  }

  /** At `i` a poll of the cohort settled as mined on a running service. */
  ghost predicate MinedAt(cfg: Config, acts: seq<Act>, i: int, c: CohortId) {
    0 <= i < |acts| && acts[i] == PollSettles(c, true) && Happens(RunNet(cfg, acts[..i]), acts[i])
  }

  /** Accepted at `i`; at `j` the clock had reached that time and the whole confirmation window. */
  ghost predicate OutOfTimeAt(cfg: Config, acts: seq<Act>, i: int, j: int, c: CohortId, x: Txid) {
    && 0 <= i <= j < |acts| && acts[i].SendSettles? && AcceptedAt(cfg, acts, i, c, x, acts[i].now)
    && (acts[j].SendSettles? || acts[j].PollSleepEnds?) && acts[j].cohort == c
    && Happens(RunNet(cfg, acts[..j]), acts[j])
    && acts[j].now >= acts[i].now + cfg.confirmTimeoutMs
  }

  ghost predicate WasAccepted(cfg: Config, acts: seq<Act>, c: CohortId, x: Txid, clock: int) {
    exists i :: AcceptedAt(cfg, acts, i, c, x, clock)
  }

  ghost predicate WasMined(cfg: Config, acts: seq<Act>, c: CohortId) {
    exists i :: MinedAt(cfg, acts, i, c)
  }

  ghost predicate RanOutOfTime(cfg: Config, acts: seq<Act>, c: CohortId, x: Txid) {
    exists i, j :: OutOfTimeAt(cfg, acts, i, j, c, x)
  }

  lemma Earlier(acts: seq<Act>, n: nat, i: int)
    requires n <= |acts| && 0 <= i < n
    ensures acts[..n][..i] == acts[..i] && acts[..n][i] == acts[i]
  {
  }

  lemma AcceptedStays(cfg: Config, acts: seq<Act>, c: CohortId, x: Txid, clock: int)
    requires acts != [] && WasAccepted(cfg, acts[..|acts| - 1], c, x, clock)
    ensures WasAccepted(cfg, acts, c, x, clock)
  {
    var p := acts[..|acts| - 1];
    var i :| AcceptedAt(cfg, p, i, c, x, clock);
    Earlier(acts, |acts| - 1, i);
    assert AcceptedAt(cfg, acts, i, c, x, clock);
  }

  lemma OutOfTimeStays(cfg: Config, acts: seq<Act>, c: CohortId, x: Txid)
    requires acts != [] && RanOutOfTime(cfg, acts[..|acts| - 1], c, x)
    ensures RanOutOfTime(cfg, acts, c, x)
  {
    var p := acts[..|acts| - 1];
    var i, j :| OutOfTimeAt(cfg, p, i, j, c, x);
    Earlier(acts, |acts| - 1, i);
    Earlier(acts, |acts| - 1, j);
    assert OutOfTimeAt(cfg, acts, i, j, c, x);
  }

  /** The acts tell of a mined poll as they did before, or by the last one. */
  lemma MinedStep(cfg: Config, acts: seq<Act>, c: CohortId)
    requires acts != []
    ensures WasMined(cfg, acts, c) <==>
            WasMined(cfg, acts[..|acts| - 1], c) || MinedAt(cfg, acts, |acts| - 1, c)
  {
    var n := |acts| - 1;
    var p := acts[..n];
    if i :| MinedAt(cfg, acts, i, c) {
      if i < n {
        Earlier(acts, n, i);
        assert MinedAt(cfg, p, i, c);
      }
    }
    if i :| MinedAt(cfg, p, i, c) {
      Earlier(acts, n, i);
      assert MinedAt(cfg, acts, i, c);
    }
  }

  /** At `i` a poll of the cohort settled as mined, whether or not the service still ran. */
  ghost predicate PolledAt(cfg: Config, acts: seq<Act>, i: int, c: CohortId) {
    0 <= i < |acts| && acts[i] == PollSettles(c, true) && Enabled(RunNet(cfg, acts[..i]), acts[i])
  }

  ghost predicate WasPolled(cfg: Config, acts: seq<Act>, c: CohortId) {
    exists i :: PolledAt(cfg, acts, i, c)
  }

  lemma PolledStep(cfg: Config, acts: seq<Act>, c: CohortId)
    requires acts != []
    ensures WasPolled(cfg, acts, c) <==>
            WasPolled(cfg, acts[..|acts| - 1], c) || PolledAt(cfg, acts, |acts| - 1, c)
  {
    var n := |acts| - 1;
    var p := acts[..n];
    if i :| PolledAt(cfg, acts, i, c) {
      if i < n {
        Earlier(acts, n, i);
        assert PolledAt(cfg, p, i, c);
      }
    }
    if i :| PolledAt(cfg, p, i, c) {
      Earlier(acts, n, i);
      assert PolledAt(cfg, acts, i, c);
    }
  }

  lemma SawStep(net: Net, a: Act, c: CohortId)
    ensures c in Broadcast.Step(net, a).sawConfirmed <==>
            c in net.sawConfirmed || (Enabled(net, a) && a == PollSettles(c, true))
  {
  }

  /** The flag the frame grammar speaks of is up exactly once a poll of the cohort has settled as mined. */
  lemma {:induction false} SawExactly(cfg: Config, acts: seq<Act>, c: CohortId)
    ensures c in RunNet(cfg, acts).sawConfirmed <==> WasPolled(cfg, acts, c)
  {
    if acts != [] {
      SawExactly(cfg, acts[..|acts| - 1], c);
      PolledStep(cfg, acts, c);
      SawStep(RunNet(cfg, acts[..|acts| - 1]), acts[|acts| - 1], c);
    }
  }

  ghost predicate PollsSince(cfg: Config, acts: seq<Act>, c: CohortId, stage: Stage) {
    stage.Polling? || stage.PollSleeping? ==>
      WasAccepted(cfg, acts, c, stage.txid, stage.deadline - cfg.confirmTimeoutMs)
  }

  predicate IsAnchor(t: seq<Obs>, confirmed: bool) {
    |t| == 3 && t[2].Emitted? && t[2].frame.Anchored? && t[2].frame.confirmed == confirmed
  }

  /** What a cohort's trace says, against the acts. */
  ghost predicate TraceTold(cfg: Config, acts: seq<Act>, c: CohortId, t: seq<Obs>) {
    && (IsAnchor(t, true) <==> WasMined(cfg, acts, c))
    && (IsAnchor(t, false) ==> RanOutOfTime(cfg, acts, c, t[2].frame.txid))
  }

  ghost predicate ToldBy(cfg: Config, acts: seq<Act>, c: CohortId, net: Net) {
    && (c in net.jobs ==> PollsSince(cfg, acts, c, net.jobs[c].stage))
    && TraceTold(cfg, acts, c, Trace(net.log, c))
  }

  /** A trace that does not change, or grows but not to an anchor, is told by more acts as it was by fewer. */
  lemma ToldStays(cfg: Config, acts: seq<Act>, c: CohortId, t: seq<Obs>, t': seq<Obs>)
    requires acts != [] && TraceTold(cfg, acts[..|acts| - 1], c, t) && !MinedAt(cfg, acts, |acts| - 1, c)
    requires t' == t || (!IsAnchor(t, true) && |t'| != 3)
    ensures TraceTold(cfg, acts, c, t')
  {
    MinedStep(cfg, acts, c);
    if IsAnchor(t', false) {
      OutOfTimeStays(cfg, acts, c, t'[2].frame.txid);
    }
  }

  lemma PollsStay(cfg: Config, acts: seq<Act>, c: CohortId, stage: Stage, stage': Stage)
    requires acts != [] && PollsSince(cfg, acts[..|acts| - 1], c, stage)
    requires stage'.Polling? || stage'.PollSleeping? ==>
               && (stage.Polling? || stage.PollSleeping?)
               && stage'.txid == stage.txid && stage'.deadline == stage.deadline
    ensures PollsSince(cfg, acts, c, stage')
  {
    if stage'.Polling? || stage'.PollSleeping? {
      AcceptedStays(cfg, acts, c, stage.txid, stage.deadline - cfg.confirmTimeoutMs);
    }
  }

  /** Nothing happened to the cohort. */
  lemma UntouchedIsTold(cfg: Config, acts: seq<Act>, c: CohortId, net: Net, after: Net)
    requires acts != [] && ToldBy(cfg, acts[..|acts| - 1], c, net) && !MinedAt(cfg, acts, |acts| - 1, c)
    requires SameFor(net, after, c)
    ensures ToldBy(cfg, acts, c, after)
  {
    ToldStays(cfg, acts, c, Trace(net.log, c), Trace(after.log, c));
    if c in net.jobs {
      PollsStay(cfg, acts, c, net.jobs[c].stage, net.jobs[c].stage);
    }
  }

  // ---- The cohort's own acts --------------------------------------------------------------------

  /** What an own act does to the cohort's trace and stage. */
  lemma OwnStep(net: Net, a: Act, c: CohortId)
    requires Enabled(net, a) && !a.SigningCompletes? && !a.Stop? && !a.Elsewhere? && a.cohort == c
    ensures var after, e := Broadcast.Step(net, a), JobEffect(net, a);
            && Trace(after.log, c) == Trace(net.log, c) + Tagged(c, e.frames)
            && c in after.jobs && after.jobs[c].stage == e.stage
  {
    TraceTagged(net.log, c, JobEffect(net, a).frames, c);
  }

  /** A cohort with work pending has not been anchored. */
  lemma PendingIsUnanchored(net: Net, c: CohortId)
    requires CohortInv(net, c) && c in net.jobs && !net.jobs[c].stage.Settled?
    ensures |Trace(net.log, c)| == if net.jobs[c].stage.Polling? || net.jobs[c].stage.PollSleeping? then 2 else 1
  {
  }

  lemma SignedIsTold(cfg: Config, acts: seq<Act>, c: CohortId, net: Net)
    requires acts != [] && CohortInv(net, c) && ToldBy(cfg, acts[..|acts| - 1], c, net)
    requires acts[|acts| - 1].SigningCompletes? && acts[|acts| - 1].cohort == c && Enabled(net, acts[|acts| - 1])
    ensures ToldBy(cfg, acts, c, Broadcast.Step(net, acts[|acts| - 1]))
  {
    var a := acts[|acts| - 1];
    var after := Broadcast.Step(net, a);
    SigningKeepsOwnInv(net, c, a.publish, a.tx, a.viaScriptPath);
    SigningIsUnanchored(net, a, c);
    ToldStays(cfg, acts, c, Trace(net.log, c), Trace(after.log, c));
  }

  lemma SigningIsUnanchored(net: Net, a: Act, c: CohortId)
    requires CohortInv(net, c) && a.SigningCompletes? && a.cohort == c && Enabled(net, a)
    ensures var after := Broadcast.Step(net, a);
            && Trace(net.log, c) == [] && |Trace(after.log, c)| <= 2
            && (c in after.jobs ==> after.jobs[c].stage.Sending? || after.jobs[c].stage.Settled?)
  {
    var d := Dispatched(net, c, a.publish, a.tx);
    TraceTagged(net.log, c, OnSigned(a.tx).frames, c);
    TraceAppend(d.log, Signed(c, a.viaScriptPath), c);
  }

  lemma SettledSendIsTold(cfg: Config, acts: seq<Act>, c: CohortId, net: Net)
    requires acts != [] && net == RunNet(cfg, acts[..|acts| - 1]) && net.cfg == cfg
    requires CohortInv(net, c) && ToldBy(cfg, acts[..|acts| - 1], c, net)
    requires acts[|acts| - 1].SendSettles? && acts[|acts| - 1].cohort == c && Enabled(net, acts[|acts| - 1])
    ensures ToldBy(cfg, acts, c, Broadcast.Step(net, acts[|acts| - 1]))
  {
    var n := |acts| - 1;
    var a, t := acts[n], Trace(net.log, c);
    var next := AfterSend(cfg, net.jobs[c].tx.id, net.jobs[c].stage.attempt, a.outcome, net.stopped);
    OwnStep(net, a, c);
    PendingIsUnanchored(net, c);
    MinedStep(cfg, acts, c);
    if next.Resolve? && !net.stopped {
      assert AcceptedAt(cfg, acts, n, c, next.txid, a.now);
      if cfg.confirmTimeoutMs <= 0 {
        assert OutOfTimeAt(cfg, acts, n, n, c, next.txid);
        assert Trace(Broadcast.Step(net, a).log, c)
            == t + Tagged(c, [Announced(next.txid)] + [Anchored(next.txid, false)]);
      }
    }
  }

  lemma EndedSleepIsTold(cfg: Config, acts: seq<Act>, c: CohortId, net: Net)
    requires acts != [] && net == RunNet(cfg, acts[..|acts| - 1]) && net.cfg == cfg
    requires CohortInv(net, c) && ToldBy(cfg, acts[..|acts| - 1], c, net)
    requires acts[|acts| - 1].PollSleepEnds? && acts[|acts| - 1].cohort == c && Enabled(net, acts[|acts| - 1])
    ensures ToldBy(cfg, acts, c, Broadcast.Step(net, acts[|acts| - 1]))
  {
    var n := |acts| - 1;
    var a, stage := acts[n], net.jobs[c].stage;
    OwnStep(net, a, c);
    PendingIsUnanchored(net, c);
    MinedStep(cfg, acts, c);
    AcceptedStays(cfg, acts, c, stage.txid, stage.deadline - cfg.confirmTimeoutMs);
    if a.now >= stage.deadline && !net.stopped {
      var i :| AcceptedAt(cfg, acts, i, c, stage.txid, stage.deadline - cfg.confirmTimeoutMs);
      assert OutOfTimeAt(cfg, acts, i, n, c, stage.txid);
    }
  }

  lemma SettledPollIsTold(cfg: Config, acts: seq<Act>, c: CohortId, net: Net)
    requires acts != [] && net == RunNet(cfg, acts[..|acts| - 1]) && net.cfg == cfg
    requires CohortInv(net, c) && ToldBy(cfg, acts[..|acts| - 1], c, net)
    requires acts[|acts| - 1].PollSettles? && acts[|acts| - 1].cohort == c && Enabled(net, acts[|acts| - 1])
    ensures ToldBy(cfg, acts, c, Broadcast.Step(net, acts[|acts| - 1]))
  {
    var a, stage := acts[|acts| - 1], net.jobs[c].stage;
    OwnStep(net, a, c);
    PendingIsUnanchored(net, c);
    MinedStep(cfg, acts, c);
    PollsStay(cfg, acts, c, stage, Broadcast.Step(net, a).jobs[c].stage);
  }

  lemma EndedBackoffIsTold(cfg: Config, acts: seq<Act>, c: CohortId, net: Net)
    requires acts != [] && CohortInv(net, c) && ToldBy(cfg, acts[..|acts| - 1], c, net)
    requires acts[|acts| - 1].BackoffEnds? && acts[|acts| - 1].cohort == c && Enabled(net, acts[|acts| - 1])
    ensures ToldBy(cfg, acts, c, Broadcast.Step(net, acts[|acts| - 1]))
  {
    var a := acts[|acts| - 1];
    OwnStep(net, a, c);
    PendingIsUnanchored(net, c);
    ToldStays(cfg, acts, c, Trace(net.log, c), Trace(Broadcast.Step(net, a).log, c));
  }

  lemma {:induction false} RunIsTold(cfg: Config, acts: seq<Act>, c: CohortId)
    ensures ToldBy(cfg, acts, c, RunNet(cfg, acts))
  {
    if acts != [] {
      var p, a := acts[..|acts| - 1], acts[|acts| - 1];
      var net := RunNet(cfg, p);
      RunIsTold(cfg, p, c);
      RunKeepsCohortInv(cfg, p, c);
      if !Enabled(net, a) {
        UntouchedIsTold(cfg, acts, c, net, net);
      } else if a.Stop? || a.Elsewhere? || a.cohort != c {
        StepFramesOthers(net, a, c);
        UntouchedIsTold(cfg, acts, c, net, RunNet(cfg, acts));
      } else {
        match a
        case SigningCompletes(_, _, _, _) => SignedIsTold(cfg, acts, c, net);
        case SendSettles(_, _, _) => SettledSendIsTold(cfg, acts, c, net);
        case BackoffEnds(_) => EndedBackoffIsTold(cfg, acts, c, net);
        case PollSettles(_, _) => SettledPollIsTold(cfg, acts, c, net);
        case PollSleepEnds(_, _) => EndedSleepIsTold(cfg, acts, c, net);
      }
    }
  }

  // ---- The promises -----------------------------------------------------------------------------

  /**
   For every run: a cohort's frames end in a confirmed anchor, of the id it was announced under, if and only if
   some poll of it settled as mined on a running service.
   */
  lemma ConfirmedExactly(cfg: Config, acts: seq<Act>, c: CohortId)
    ensures var t := Trace(RunNet(cfg, acts).log, c);
            WasMined(cfg, acts, c) <==>
            exists x :: |t| == 3 && t[1] == Emitted(c, Announced(x)) && t[2] == Emitted(c, Anchored(x, true))
  {
    var t := Trace(RunNet(cfg, acts).log, c);
    RunIsTold(cfg, acts, c);
    FrameGrammar(cfg, acts, c);
    TraceIsOwn(RunNet(cfg, acts).log, c);
    if IsAnchor(t, true) {
      assert AnchoredTrace(t, c) && t[1] == Emitted(c, Announced(t[2].frame.txid));
    }
  }

  /**
   And in an unconfirmed one only if the clock had reached the time its send was accepted, under that id, plus
   the whole confirmation window.
   */
  lemma UnconfirmedOnlyOutOfTime(cfg: Config, acts: seq<Act>, c: CohortId, x: Txid)
    requires Emitted(c, Anchored(x, false)) in Trace(RunNet(cfg, acts).log, c)
    ensures RanOutOfTime(cfg, acts, c, x)
  {
    RunIsTold(cfg, acts, c);
    FrameGrammar(cfg, acts, c);
  }

  /**
   From a mined poll on, whatever happens: while the read retains the cohort it says confirmed under the announced
   id, and while the monitor retains it and nothing else has ended it, its chip is one of the anchored two.
   */
  lemma MinedReadsConfirmed(cfg: Config, acts: seq<Act>, c: CohortId)
    requires WasMined(cfg, acts, c)
    ensures var log := RunNet(cfg, acts).log;
            && (c in AnchorTable(log).table ==>
                  && AnchorTable(log).table[c].fact == IsConfirmed && AnchorTable(log).table[c].reason == None
                  && AnchorTable(log).table[c].txid.Some?
                  && AnnouncedAs(RunNet(cfg, acts), c, AnchorTable(log).table[c].txid.value))
            && (Undisturbed(log, c) && c in RunFold(log).ended.table ==>
                  RunFold(log).ended.table[c].chip == AnchoredChip || RunFold(log).ended.table[c].chip == FallbackChip)
  {
    var log := RunNet(cfg, acts).log;
    var t := Trace(log, c);
    ConfirmedExactly(cfg, acts, c);
    var x :| |t| == 3 && t[1] == Emitted(c, Announced(x)) && t[2] == Emitted(c, Anchored(x, true));
    if c in AnchorTable(log).table {
      AnchorHoldsLastFrame(log, c);
    }
    if Undisturbed(log, c) && c in RunFold(log).ended.table {
      TraceIsOwn(log, c);
      FrameGrammar(cfg, acts, c);
      FateFollowsTrace(log, c);
      RecordIsLastFate(log, c);
    }
  }
}
