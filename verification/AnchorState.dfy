/**
 The public anchor read: broadcast frames, each emitted once, folded into a bounded table that a poll
 can ask for the last known fact.
 */
module AnchorState {
  import opened Cohorts
  import opened OrderedMap
  import opened KillSwitch
  import opened Broadcast

  const MAX_TERMINAL: nat := 24
  const GENERIC_FAILURE_REASON := "broadcast failed"

  datatype AnchorFact = IsBroadcast | IsConfirmed | IsFailed

  datatype AnchorEntry = AnchorEntry(fact: AnchorFact, txid: Option<Txid>, reason: Option<string>)

  /** The public record; an absent fact is the answer for unknown, never broadcast and evicted alike. */
  datatype AnchorRead = AnchorRead(
    enabled: bool, fact: Option<AnchorFact>, txid: Option<Txid>, explorerUrl: Option<string>, reason: Option<string>)

  function EntryOf(f: Frame): AnchorEntry {
    match f
    case Announced(t) => AnchorEntry(IsBroadcast, Some(t), None)
    case Anchored(t, confirmed) => AnchorEntry(if confirmed then IsConfirmed else IsBroadcast, Some(t), None)
    case FailedFrame => AnchorEntry(IsFailed, None, Some(GENERIC_FAILURE_REASON))
  }

  function FoldObs(m: OMap<CohortId, AnchorEntry>, o: Obs): OMap<CohortId, AnchorEntry> {
    if o.Emitted? then m.Remember(o.cohort, EntryOf(o.frame), MAX_TERMINAL) else m
  }

  function AnchorTable(log: seq<Obs>): OMap<CohortId, AnchorEntry> {
    if log == [] then OMap([], map[]) else FoldObs(AnchorTable(log[..|log| - 1]), log[|log| - 1])
  }

  // ---- The bounded fold against the whole history -----------------------------------------------

  function FrameOps(log: seq<Obs>): seq<Op<CohortId, AnchorEntry>> {
    if log == [] then []
    else
      var o := log[|log| - 1];
      FrameOps(log[..|log| - 1]) + if o.Emitted? then [Touch(o.cohort, EntryOf(o.frame))] else []
  }

  lemma {:induction false} TableIsItsOps(log: seq<Obs>)
    ensures AnchorTable(log) == Run(FrameOps(log), MAX_TERMINAL)
    ensures forall j :: 0 <= j < |FrameOps(log)| ==> FrameOps(log)[j].Touch?
  {
    if log != [] {
      TableIsItsOps(log[..|log| - 1]);
      var before, ops := FrameOps(log[..|log| - 1]), FrameOps(log);
      if log[|log| - 1].Emitted? {
        assert ops[..|ops| - 1] == before;
      } else {
        assert ops == before;
      }
    }
  }

  predicate FrameOf(o: Obs, c: CohortId) {
    o.Emitted? && o.cohort == c
  }

  /** The other cohorts that had a frame after position `i`. */
  ghost function FramedAfter(log: seq<Obs>, i: int, c: CohortId): set<CohortId>
    requires i >= -1
  {
    set j | i < j < |log| && log[j].Emitted? && log[j].cohort != c :: log[j].cohort
  }

  lemma {:induction false} NoFramesNoOps(log: seq<Obs>, c: CohortId)
    requires forall j :: 0 <= j < |log| ==> !FrameOf(log[j], c)
    ensures LastOp(FrameOps(log), c) == -1
  {
    if log != [] {
      var p, ops := log[..|log| - 1], FrameOps(log);
      NoFramesNoOps(p, c);
      if |ops| > |FrameOps(p)| { assert ops[..|ops| - 1] == FrameOps(p); } else { assert ops == FrameOps(p); }
    }
  }

  /** The last operation on a cohort is its last frame, and the same cohorts come after both. */
  lemma {:induction false} LastFrameIsLastOp(log: seq<Obs>, i: nat, c: CohortId)
    requires i < |log| && FrameOf(log[i], c)
    requires forall j :: i < j < |log| ==> !FrameOf(log[j], c)
    ensures var ops := FrameOps(log); var k := LastOp(ops, c);
            k >= 0 && ops[k] == Touch(c, EntryOf(log[i].frame)) && TouchedAfter(ops, k, c) == FramedAfter(log, i, c)
  {
    var n := |log| - 1;
    var p, ops, before := log[..n], FrameOps(log), FrameOps(log[..n]);
    if |ops| > |before| {
      assert ops[..|ops| - 1] == before;
    } else {
      assert ops == before;
    }
    if i == n {
      assert TouchedAfter(ops, |ops| - 1, c) == {};
      assert FramedAfter(log, i, c) == {};
    } else {
      LastFrameIsLastOp(p, i, c);
      var k := LastOp(before, c);
      assert LastOp(ops, c) == k;
      FramedAfterStep(log, i, c);
      if log[n].Emitted? {
        TouchedAfterStep(ops, k, c);
      }
    }
  }

  lemma FramedAfterStep(log: seq<Obs>, i: nat, c: CohortId)
    requires i < |log| - 1 && !FrameOf(log[|log| - 1], c)
    ensures FramedAfter(log, i, c) == FramedAfter(log[..|log| - 1], i, c)
                                      + if log[|log| - 1].Emitted? then {log[|log| - 1].cohort} else {}
  {
    var p := log[..|log| - 1];
    forall x | x in FramedAfter(p, i, c) ensures x in FramedAfter(log, i, c) {
      var j :| i < j < |p| && p[j].Emitted? && p[j].cohort != c && p[j].cohort == x;
      assert log[j] == p[j];
    }
    forall x | x in FramedAfter(log, i, c) && !(log[|log| - 1].Emitted? && log[|log| - 1].cohort == x)
      ensures x in FramedAfter(p, i, c)
    {
      var j :| i < j < |log| && log[j].Emitted? && log[j].cohort != c && log[j].cohort == x;
      assert log[j] == p[j];
    }
  }

  lemma TouchedAfterStep<V>(ops: seq<Op<CohortId, V>>, k: nat, c: CohortId)
    requires k < |ops| - 1 && ops[|ops| - 1].Touch? && ops[|ops| - 1].key != c
    ensures TouchedAfter(ops, k, c) == TouchedAfter(ops[..|ops| - 1], k, c) + {ops[|ops| - 1].key}
  {
    var p := ops[..|ops| - 1];
    forall x | x in TouchedAfter(p, k, c) ensures x in TouchedAfter(ops, k, c) {
      var j :| k < j < |p| && p[j].Touch? && p[j].key != c && p[j].key == x;
      assert ops[j] == p[j];
    }
    forall x | x in TouchedAfter(ops, k, c) && x != ops[|ops| - 1].key ensures x in TouchedAfter(p, k, c) {
      var j :| k < j < |ops| && ops[j].Touch? && ops[j].key != c && ops[j].key == x;
      assert ops[j] == p[j];
    }
  }

  /**
   The read equals the last frame over the whole history exactly for the 24 cohorts most recently
   framed, and has nothing for any other.
   */
  lemma ReadIsLastFrame(log: seq<Obs>, i: nat, c: CohortId)
    requires i < |log| && FrameOf(log[i], c)
    requires forall j :: i < j < |log| ==> !FrameOf(log[j], c)
    ensures AnchorTable(log).Get(c)
            == if |FramedAfter(log, i, c)| < MAX_TERMINAL then Some(EntryOf(log[i].frame)) else None
  {
    TableIsItsOps(log);
    LastFrameIsLastOp(log, i, c);
    RunHoldsMostRecent(FrameOps(log), c, MAX_TERMINAL);
  }

  lemma UnframedReadsNothing(log: seq<Obs>, c: CohortId)
    requires forall j :: 0 <= j < |log| ==> !FrameOf(log[j], c)
    ensures AnchorTable(log).Get(c) == None
  {
    TableIsItsOps(log);
    NoFramesNoOps(log, c);
    RunHoldsMostRecent(FrameOps(log), c, MAX_TERMINAL);
  }

  // ---- The fold in place ------------------------------------------------------------------------

  /** How the network derives a link for a transaction: absent network, a throw and an empty link all give none. */
  datatype Explorer = NoNetwork | Network(explorerTxUrl: Txid -> Option<string>)

  function ExplorerUrl(x: Explorer, txid: Option<Txid>): Option<string> {
    if txid.None? || txid.value == "" || x.NoNetwork? then None
    else
      var url := x.explorerTxUrl(txid.value);
      if url == Some("") then None else url
  }

  /** What a public read says of a frame: the fact, the frame's own id, and the one reason that is ever given. */
  ghost predicate Tells(r: AnchorRead, f: Frame) {
    match f
    case Announced(t) => r.fact == Some(IsBroadcast) && r.txid == Some(t) && r.reason == None
    case Anchored(t, true) => r.fact == Some(IsConfirmed) && r.txid == Some(t) && r.reason == None
    case Anchored(t, false) => r.fact == Some(IsBroadcast) && r.txid == Some(t) && r.reason == None
    case FailedFrame => r.fact == Some(IsFailed) && r.txid == None && r.reason == Some("broadcast failed")
  }

  /** The cohort's last frame is the observation at `i`. */
  ghost predicate LastFrameAt(log: seq<Obs>, i: int, c: CohortId) {
    0 <= i < |log| && FrameOf(log[i], c) && forall j :: i < j < |log| ==> !FrameOf(log[j], c)
  }

  lemma EntryTells(enabled: bool, f: Frame, url: Option<string>)
    ensures var e := EntryOf(f); Tells(AnchorRead(enabled, Some(e.fact), e.txid, url, e.reason), f)
  {
  }

  class AnchorFold {
    const enabled: bool
    const network: Explorer
    const entries: BoundedMap<CohortId, AnchorEntry>

    ghost predicate Valid()
      reads this, entries
    {
      entries.Valid() && entries.cap == MAX_TERMINAL
    }

    constructor (enabled: bool, network: Explorer)
      ensures Valid() && entries.Model() == AnchorTable([]) && fresh(entries)
      ensures this.enabled == enabled && this.network == network
    {
      this.enabled, this.network := enabled, network;
      entries := new BoundedMap(MAX_TERMINAL);
    }

    method OnBeaconBroadcast(c: CohortId, txid: Txid)
      requires Valid()
      modifies entries
      ensures Valid() && entries.Model() == FoldObs(old(entries.Model()), Emitted(c, Announced(txid)))
    {
      var _ := entries.Remember(c, AnchorEntry(IsBroadcast, Some(txid), None));
    }

    method OnBeaconAnchored(c: CohortId, txid: Txid, confirmed: bool)
      requires Valid()
      modifies entries
      ensures Valid() && entries.Model() == FoldObs(old(entries.Model()), Emitted(c, Anchored(txid, confirmed)))
    {
      var _ := entries.Remember(c, AnchorEntry(if confirmed then IsConfirmed else IsBroadcast, Some(txid), None));
    }

    method OnBeaconBroadcastFailed(c: CohortId)
      requires Valid()
      modifies entries
      ensures Valid() && entries.Model() == FoldObs(old(entries.Model()), Emitted(c, FailedFrame))
    {
      var _ := entries.Remember(c, AnchorEntry(IsFailed, None, Some(GENERIC_FAILURE_REASON)));
    }

    /** The public read, stated over the whole frame history the table abbreviates. */
    method Read(c: CohortId, ghost log: seq<Obs>) returns (r: AnchorRead)
      requires Valid() && entries.Model() == AnchorTable(log)
      ensures r.enabled == enabled
      ensures (forall j :: 0 <= j < |log| ==> !FrameOf(log[j], c)) ==> r == AnchorRead(enabled, None, None, None, None)
      ensures forall i :: LastFrameAt(log, i, c) ==>
                if |FramedAfter(log, i, c)| < 24 then Tells(r, log[i].frame)
                else r == AnchorRead(enabled, None, None, None, None)
      ensures r.explorerUrl.Some? <==>
                && r.txid.Some? && r.txid.value != "" && network.Network?
                && network.explorerTxUrl(r.txid.value).Some? && network.explorerTxUrl(r.txid.value).value != ""
      ensures r.explorerUrl.Some? ==> r.explorerUrl == network.explorerTxUrl(r.txid.value)
    {
      if c !in entries.table {
        r := AnchorRead(enabled, None, None, None, None);
      } else {
        var e := entries.table[c];
        r := AnchorRead(enabled, Some(e.fact), e.txid, ExplorerUrl(network, e.txid), e.reason);
      }
      if forall j :: 0 <= j < |log| ==> !FrameOf(log[j], c) {
        UnframedReadsNothing(log, c);
      }
      forall i | LastFrameAt(log, i, c)
        ensures if |FramedAfter(log, i, c)| < 24 then Tells(r, log[i].frame)
                else r == AnchorRead(enabled, None, None, None, None)
      {
        ReadIsLastFrame(log, i, c);
        EntryTells(enabled, log[i].frame, r.explorerUrl);
      }
    }
  }
}
