/**
 The transport has one advert slot, which the runner and the republisher both write. Each may retire
 only its own advert, and the only tool for that is a stop closure scoped to one advert id.
 */
module AdvertSlot {
  import opened Cohorts
  import opened OrderedMap

  datatype Owner = Runner | Republisher

  datatype Advert = Advert(id: nat, owner: Owner, cohort: CohortId)

  // ---- The objects ------------------------------------------------------------------------------

  /** One cell, overwritten by every publish. Advert ids are never used twice. */
  class Transport {
    var slot: Option<Advert>
    var nextId: nat
    /** The ids whose stop closures the runner was given. */
    ghost var runnerIds: set<nat>

    constructor ()
      ensures slot == None && nextId == 0 && runnerIds == {}
    {
      slot, nextId, runnerIds := None, 0, {};
    }

    /** Returns the id the stop closure is scoped to. */
    method PublishRepeating(owner: Owner, cohort: CohortId) returns (id: nat)
      modifies this
      ensures id == old(nextId) && nextId == old(nextId) + 1
      ensures slot == Some(Advert(id, owner, cohort))
      ensures runnerIds == old(runnerIds) + if owner.Runner? then {id} else {}
    {
      id := nextId;
      slot := Some(Advert(id, owner, cohort));
      nextId := nextId + 1;
      if owner.Runner? {
        runnerIds := runnerIds + {id};
      }
    }

    /** Runs the stop closure of one advert: it clears the cell only while that advert is in it. */
    method Stop(id: nat)
      modifies `slot
      ensures slot == Stopped(old(slot), Some(id))
    {
      if slot.Some? && slot.value.id == id {
        slot := None;
      }
    }
  }

  function Stopped(slot: Option<Advert>, closure: Option<nat>): Option<Advert> {
    if slot.Some? && closure == Some(slot.value.id) then None else slot
  }

  class AdvertRepublisher {
    const transport: Transport
    /** The closure of the advert this object last installed. */
    var stopCurrent: Option<nat>

    constructor (transport: Transport)
      ensures this.transport == transport && stopCurrent == None
      ensures transport.slot == None && transport.nextId == 0 && transport.runnerIds == {} ==>
                Slots() == State(None, None, 0, {})
    {
      this.transport := transport;
      stopCurrent := None;
    }

    ghost function Slots(): State
      reads this, transport
    {
      State(transport.slot, stopCurrent, transport.nextId, transport.runnerIds)
    }

    /** `publishes` is false when building or signing the message throws. */
    method Republish(cohort: CohortId, publishes: bool)
      modifies this, transport
      ensures Slots() == Step(old(Slots()), Republishes(cohort, publishes))
      ensures publishes ==>
                && transport.slot == Some(Advert(old(transport.nextId), Republisher, cohort))
                && stopCurrent == Some(old(transport.nextId))
                && transport.nextId == old(transport.nextId) + 1
      ensures !publishes ==>
                && transport.slot == Stopped(old(transport.slot), old(stopCurrent))
                && stopCurrent == None && transport.nextId == old(transport.nextId)
    {
      if stopCurrent.Some? {
        transport.Stop(stopCurrent.value);
      }
      stopCurrent := None;
      if !publishes {
        return;
      }
      var id := transport.PublishRepeating(Republisher, cohort);
      stopCurrent := Some(id);
    }

    method Clear()
      modifies this, transport`slot
      ensures Slots() == Step(old(Slots()), Clears)
      ensures transport.slot == Stopped(old(transport.slot), old(stopCurrent)) && stopCurrent == None
    {
      if stopCurrent.Some? {
        transport.Stop(stopCurrent.value);
      }
      stopCurrent := None;
    }

    /** The runner's publish on the same transport, as this object sees it. */
    method RunnerPublish(cohort: CohortId) returns (id: nat)
      modifies transport
      ensures Slots() == Step(old(Slots()), RunnerPublishes(cohort)) && id in transport.runnerIds
    {
      id := transport.PublishRepeating(Runner, cohort);
    }

    /** The runner stops an advert of its own. */
    method RunnerStop(id: nat)
      requires id in transport.runnerIds
      modifies transport`slot
      ensures Slots() == Step(old(Slots()), RunnerStops(id))
    {
      transport.Stop(id);
    }
  }

  // ---- Interleavings ----------------------------------------------------------------------------

  /** The runner stops an advert by the id its own publish returned; any other id is not in its hands. */
  datatype Act = RunnerPublishes(cohort: CohortId) | RunnerStops(id: nat)
               | Republishes(cohort: CohortId, publishes: bool) | Clears

  datatype State = State(slot: Option<Advert>, stopCurrent: Option<nat>, nextId: nat, runnerIds: set<nat>)

  function Step(s: State, a: Act): State {
    match a
    case RunnerPublishes(c) =>
      s.(slot := Some(Advert(s.nextId, Runner, c)), nextId := s.nextId + 1,
         runnerIds := s.runnerIds + {s.nextId})
    case RunnerStops(id) =>
      if id in s.runnerIds then s.(slot := Stopped(s.slot, Some(id))) else s
    case Republishes(c, publishes) =>
      if publishes
      then s.(slot := Some(Advert(s.nextId, Republisher, c)), stopCurrent := Some(s.nextId),
              nextId := s.nextId + 1)
      else s.(slot := Stopped(s.slot, s.stopCurrent), stopCurrent := None)
    case Clears =>
      s.(slot := Stopped(s.slot, s.stopCurrent), stopCurrent := None)
  }

  ghost function Run(h: seq<Act>): State {
    if h == [] then State(None, None, 0, {}) else Step(Run(h[..|h| - 1]), h[|h| - 1])
  }

  ghost predicate Inv(s: State) {
    && (forall id :: id in s.runnerIds ==> id < s.nextId)
    && (s.stopCurrent.Some? ==> s.stopCurrent.value < s.nextId && s.stopCurrent.value !in s.runnerIds)
    && (s.slot.Some? ==>
          match s.slot.value.owner
          case Runner => s.slot.value.id in s.runnerIds
          case Republisher => s.stopCurrent == Some(s.slot.value.id))
  }

  lemma {:induction false} RunKeepsInv(h: seq<Act>)
    ensures Inv(Run(h))
  {
    if h != [] {
      RunKeepsInv(h[..|h| - 1]);
    }
  }

  /** Whenever the slot holds a republished advert, the retained closure is exactly that advert's. */
  lemma HeldClosureIsTheSlots(h: seq<Act>)
    ensures var s := Run(h);
            s.slot.Some? && s.slot.value.owner == Republisher <==>
            s.slot.Some? && s.stopCurrent == Some(s.slot.value.id)
  {
    RunKeepsInv(h);
  }

  /**
   The slot as it would be if the republisher could ask who owns it: the last advert published, unless
   its owner has retired it since.
   */
  ghost function OwnedSlot(h: seq<Act>): Option<Advert> {
    if h == [] then None
    else
      var before := OwnedSlot(h[..|h| - 1]);
      match h[|h| - 1]
      case RunnerPublishes(c) => Some(Advert(Published(h[..|h| - 1]), Runner, c))
      case RunnerStops(id) =>
        if before.Some? && before.value.owner == Runner && before.value.id == id then None else before
      case Republishes(c, publishes) =>
        if publishes then Some(Advert(Published(h[..|h| - 1]), Republisher, c)) else RunnersOnly(before)
      case Clears => RunnersOnly(before)
  }

  ghost function RunnersOnly(slot: Option<Advert>): Option<Advert> {
    if slot.Some? && slot.value.owner == Republisher then None else slot
  }

  ghost function Published(h: seq<Act>): nat {
    if h == [] then 0
    else
      Published(h[..|h| - 1]) +
      if h[|h| - 1].RunnerPublishes? || (h[|h| - 1].Republishes? && h[|h| - 1].publishes) then 1 else 0
  }

  /** One retained id does the work of knowing the owner, under every interleaving. */
  lemma {:induction false} ClosureActsAsOwnership(h: seq<Act>)
    ensures Run(h).slot == OwnedSlot(h) && Run(h).nextId == Published(h)
  {
    if h != [] {
      ClosureActsAsOwnership(h[..|h| - 1]);
      RunKeepsInv(h[..|h| - 1]);
    }
  }

  /** Clearing removes a republished advert and nothing else; a failed republish does the same. */
  lemma RunnerAdvertsAreSafe(h: seq<Act>, a: Act)
    requires a == Clears || (a.Republishes? && !a.publishes)
    ensures var s, t := Run(h), Run(h + [a]);
            && t.slot == RunnersOnly(s.slot)
            && (t.slot.Some? ==> t.slot.value.owner == Runner)
            && (s.slot.Some? && s.slot.value.owner == Runner ==> t.slot == s.slot)
  {
    assert (h + [a])[..|h|] == h;
    RunKeepsInv(h);
  }

  /** The runner's own stops, disposal or keygen alike, never take down a republished advert. */
  lemma RepublishedAdvertsAreSafe(h: seq<Act>, id: nat)
    requires Run(h).slot.Some? && Run(h).slot.value.owner == Republisher
    ensures Run(h + [RunnerStops(id)]).slot == Run(h).slot
  {
    assert (h + [RunnerStops(id)])[..|h|] == h;
    RunKeepsInv(h);
  }
}
