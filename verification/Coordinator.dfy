/**
 The kill switch and the broadcast protocol as one run: the gate of each `signing-complete` is taken
 from the tables as they stand, and the signed transaction is the one the runner was given to sign.
 */
module Coordinator {
  import opened Cohorts
  import opened OrderedMap
  import opened KillSwitch
  import opened Broadcast

  datatype Happening =
    | Wiring(event: Event)
    | Completes(at: int, cohort: CohortId, tx: SignedTx, viaScriptPath: bool)
    | Network(act: Act)

  function AsEvent(x: Happening): seq<Event> {
    match x
    case Wiring(e) => if e.what.SigningComplete? then [] else [e]
    case Completes(at, c, _, _) => [Event(at, SigningComplete(c))]
    case Network(_) => []
  }

  /** The events the kill-switch tables see. */
  function Events(h: seq<Happening>): seq<Event> {
    if h == [] then [] else Events(h[..|h| - 1]) + AsEvent(h[|h| - 1])
  }

  /** The gate's answer when a cohort completes signing after `h`. */
  function Gate(mode: Mode, h: seq<Happening>, at: int, c: CohortId): bool {
    Decision(RunFrom(mode, Events(h)), Event(at, SigningComplete(c))) == Some(PublishLeg(c, true))
  }

  /** The acts the broadcast protocol sees. */
  function Acts(mode: Mode, h: seq<Happening>): seq<Act> {
    if h == [] then []
    else
      var p := h[..|h| - 1];
      Acts(mode, p) +
      match h[|h| - 1]
      case Wiring(_) => []
      case Completes(at, c, tx, via) => [SigningCompletes(c, Gate(mode, p, at, c), tx, via)]
      case Network(a) => if a.SigningCompletes? then [] else [a]
  }

  /** The broadcasting service trusts the cohort's transaction: not switched off, or advertised before it was. */
  predicate MayPublish(mode: Mode, t: Tables, c: CohortId) {
    mode == Broadcasting && (!t.disabled || StampedBefore(t, c))
  }

  /** Wiring adds no act, and a network act adds no event; each other is added as it is. */
  lemma OneByOne(mode: Mode, p: seq<Happening>, x: Happening)
    ensures x.Wiring? ==> Acts(mode, p + [x]) == Acts(mode, p)
    ensures x.Wiring? && !x.event.what.SigningComplete? ==> Events(p + [x]) == Events(p) + [x.event]
    ensures x.Network? ==> Events(p + [x]) == Events(p)
    ensures x.Network? && !x.act.SigningCompletes? ==> Acts(mode, p + [x]) == Acts(mode, p) + [x.act]
  {
    assert (p + [x])[..|p|] == p;
  }

  /** A completion is an event of the tables, and an act gated by the tables as they stood before it. */
  lemma CompletionIsGated(mode: Mode, p: seq<Happening>, at: int, c: CohortId, tx: SignedTx, via: bool)
    ensures var h := p + [Completes(at, c, tx, via)];
            && Events(h) == Events(p) + [Event(at, SigningComplete(c))]
            && Acts(mode, h) ==
               Acts(mode, p) + [SigningCompletes(c, MayPublish(mode, RunFrom(mode, Events(p)), c), tx, via)]
  {
    var h := p + [Completes(at, c, tx, via)];
    assert h[..|p|] == p && h[|p|] == Completes(at, c, tx, via);
    GateExactly(mode, p, at, c);
  }

  lemma GateExactly(mode: Mode, p: seq<Happening>, at: int, c: CohortId)
    ensures Gate(mode, p, at, c) <==> MayPublish(mode, RunFrom(mode, Events(p)), c)
  {
    ModeIsFixed(mode, Events(p));
    LegsExactly(RunFrom(mode, Events(p)), at, c, "");
  }

  /**
   The other direction of the gate, over whole runs: the first completion of a cohort on a running service is
   folded as it was, and its transaction is sent at once exactly if it extracts and the service may publish it.
   */
  lemma CompletionIsSent(mode: Mode, cfg: Config, p: seq<Happening>, at: int, c: CohortId, tx: SignedTx, via: bool)
    requires var net := RunNet(cfg, Acts(mode, p)); !net.stopped && c !in net.signed
    ensures var net := RunNet(cfg, Acts(mode, p));
            var after := RunNet(cfg, Acts(mode, p + [Completes(at, c, tx, via)]));
            && after.wire == (if MayPublish(mode, RunFrom(mode, Events(p)), c) && tx.raw.Some?
                              then net.wire + [(c, tx.raw.value)] else net.wire)
            && after.log != [] && after.log[|after.log| - 1] == Signed(c, via)
            && c in after.signed
  {
    var acts := Acts(mode, p);
    var a := SigningCompletes(c, MayPublish(mode, RunFrom(mode, Events(p)), c), tx, via);
    CompletionIsGated(mode, p, at, c, tx, via);
    assert (acts + [a])[..|acts|] == acts;
    SigningSends(RunNet(cfg, acts), a);
  }

  lemma SigningSends(net: Net, a: Act)
    requires a.SigningCompletes? && !net.stopped && a.cohort !in net.signed
    ensures var after := Broadcast.Step(net, a);
            && after.wire == (if a.publish && a.tx.raw.Some? then net.wire + [(a.cohort, a.tx.raw.value)] else net.wire)
            && after.log != [] && after.log[|after.log| - 1] == Signed(a.cohort, a.viaScriptPath)
            && a.cohort in after.signed
  {
    if a.tx.raw.Some? {
      assert Addressed(a.cohort, [a.tx.raw.value]) == [(a.cohort, a.tx.raw.value)];
    }
    assert net.wire + Addressed(a.cohort, []) == net.wire;
  }

  /** The runner signs a transaction that was built for that cohort, by the builder the service chose. */
  ghost predicate SignsWhatWasBuilt(mode: Mode, h: seq<Happening>) {
    forall i :: 0 <= i < |h| && h[i].Completes? ==> WasBuilt(mode, Events(h[..i]), h[i].cohort, h[i].tx.build)
  }

  ghost predicate WasBuilt(mode: Mode, es: seq<Event>, c: CohortId, build: Build) {
    exists q :: 0 <= q < |es| && es[q].what == ProvideTxData(c)
                && Decision(RunFrom(mode, es[..q]), es[q]) == Some(TxDataLeg(c, build))
  }

  lemma PublishedBuildIsLive(mode: Mode, es: seq<Event>, at: int, c: CohortId, build: Build)
    requires ClockOrdered(es + [Event(at, SigningComplete(c))])
    requires WasBuilt(mode, es, c, build)
    requires Decision(RunFrom(mode, es), Event(at, SigningComplete(c))) == Some(PublishLeg(c, true))
    ensures build == LiveTx
  {
    var q :| 0 <= q < |es| && es[q].what == ProvideTxData(c)
             && Decision(RunFrom(mode, es[..q]), es[q]) == Some(TxDataLeg(c, build));
    var h := es + [Event(at, SigningComplete(c))];
    assert h[..|es|] == es && h[..q] == es[..q];
    PublishedWasBuiltLive(mode, h, q, |es|, c);
  }

  lemma {:induction false} EventsPrefix(h: seq<Happening>)
    requires h != [] && ClockOrdered(Events(h))
    ensures ClockOrdered(Events(h[..|h| - 1]))
  {
    var es := Events(h[..|h| - 1]);
    forall i, j | 0 <= i < j < |es| ensures es[i].at <= es[j].at {
      assert es[i] == Events(h)[i] && es[j] == Events(h)[j];
    }
  }

  /** A job keeps its transaction; a new one is a gated-on cohort's own. */
  lemma JobComesFrom(net: Net, a: Act, c: CohortId)
    requires c in Broadcast.Step(net, a).jobs
    requires c in net.jobs ==> c in net.signed
    ensures if c in net.jobs then Broadcast.Step(net, a).jobs[c].tx == net.jobs[c].tx
            else a.SigningCompletes? && a.cohort == c && a.publish && Broadcast.Step(net, a).jobs[c].tx == a.tx
  {
  }

  lemma SignsPrefix(mode: Mode, h: seq<Happening>)
    requires h != [] && SignsWhatWasBuilt(mode, h)
    ensures SignsWhatWasBuilt(mode, h[..|h| - 1])
    ensures h[|h| - 1].Completes? ==>
              WasBuilt(mode, Events(h[..|h| - 1]), h[|h| - 1].cohort, h[|h| - 1].tx.build)
  {
    var p := h[..|h| - 1];
    forall i | 0 <= i < |p| && p[i].Completes? ensures WasBuilt(mode, Events(p[..i]), p[i].cohort, p[i].tx.build) {
      assert p[..i] == h[..i] && p[i] == h[i];
    }
  }

  lemma {:induction false} EveryJobIsLive(mode: Mode, cfg: Config, h: seq<Happening>, c: CohortId)
    requires ClockOrdered(Events(h)) && SignsWhatWasBuilt(mode, h)
    requires c in RunNet(cfg, Acts(mode, h)).jobs
    ensures RunNet(cfg, Acts(mode, h)).jobs[c].tx.build == LiveTx
  {
    if h != [] {
      var n := |h| - 1;
      var before, acts := Acts(mode, h[..n]), Acts(mode, h);
      EventsPrefix(h);
      SignsPrefix(mode, h);
      if |acts| == |before| {
        assert acts == before;
        EveryJobIsLive(mode, cfg, h[..n], c);
      } else {
        var net, a := RunNet(cfg, before), acts[|before|];
        assert acts[..|before|] == before;
        RunKeepsCohortInv(cfg, before, c);
        JobComesFrom(net, a, c);
        if c in net.jobs {
          EveryJobIsLive(mode, cfg, h[..n], c);
        } else {
          PublishedBuildIsLive(mode, Events(h[..n]), h[n].at, c, a.tx.build);
        }
      }
    }
  }

  lemma {:induction false} SentIsListed(wire: seq<(CohortId, Hex)>, k: nat)
    requires k < |wire|
    ensures wire[k].1 in SendsOf(wire, wire[k].0)
  {
    if k < |wire| - 1 {
      SentIsListed(wire[..|wire| - 1], k);
    }
  }

  /**
   No run, whenever the switch engages and whatever is evicted, re-advertised or released, hands the
   network a transaction that the live builder did not build; and what is sent is that transaction.
   */
  lemma EverySendWasBuiltLive(mode: Mode, cfg: Config, h: seq<Happening>, k: nat)
    requires ClockOrdered(Events(h)) && SignsWhatWasBuilt(mode, h)
    requires k < |RunNet(cfg, Acts(mode, h)).wire|
    ensures var net := RunNet(cfg, Acts(mode, h)); var c := net.wire[k].0;
            c in net.jobs && net.jobs[c].tx.build == LiveTx && net.jobs[c].tx.raw == Some(net.wire[k].1)
  {
    var net := RunNet(cfg, Acts(mode, h));
    var c := net.wire[k].0;
    SentIsListed(net.wire, k);
    RunKeepsCohortInv(cfg, Acts(mode, h), c);
    EveryJobIsLive(mode, cfg, h, c);
  }
}
