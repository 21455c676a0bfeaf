/** Stored bodies and ids over runs: a retained capture keeps what was stored for it, ids are given out in turn. */
module StoredBodies {
  import opened Bytes
  import opened Hosts
  import opened Captures
  import opened CaptureRuns

  /** A task is about to remove its body only when nobody retains the capture. */
  ghost predicate DoomedAreGone(w: World) {
    forall id: nat :: IsDoomed(w, id) ==> !Retains(w.ring.traffic, id)
  }

  /** Whose task is in this state, on either side. */
  predicate IsDoomed(w: World, id: nat) {
    At(w.recording, id, Doomed) || At(w.copying, id, Doomed)
  }

  /** Whoever is doomed was so before, or its task has just looked and found nobody. */
  lemma NewlyDoomed(w: World, ev: Event, id: nat)
    requires Possible(w, ev) && IsDoomed(After(w, ev), id)
    ensures IsDoomed(w, id) || ((ev.OfRecord? || ev.OfCopy?) && !Retains(w.ring.traffic, id))
  {
    match ev
    case OfRing(r) => RingLeavesTasks(w, r);
    case OfFlow(k, f) => FlowLeavesTasks(w, k, f);
    case OfRecord(_, _) =>
    case OfCopy(_, _) =>
  }

  lemma RingLeavesTasks(w: World, ev: RingEvent)
    ensures RingAfter(w, ev).recording == w.recording && RingAfter(w, ev).copying == w.copying
  {
  }

  lemma FlowLeavesTasks(w: World, id: nat, ev: FlowEvent)
    requires FlowPossible(w, id, ev)
    ensures FlowAfter(w, id, ev).recording == w.recording && FlowAfter(w, id, ev).copying == w.copying
  {
  }

  lemma StaysGone(w: World, w': World, id: nat)
    requires NoReturn(w, w') && id < w.ring.nextId && !Retains(w.ring.traffic, id)
    ensures !Retains(w'.ring.traffic, id)
  {
    assert Retains(w'.ring.traffic, id) ==> Lasting(w.ring.traffic, w'.ring.traffic, id);
  }

  lemma StepKeepsDoomed(w: World, ev: Event)
    requires Inv(w) && Possible(w, ev) && DoomedAreGone(w)
    ensures DoomedAreGone(After(w, ev))
  {
    var after := After(w, ev);
    StepLasts(w, ev);
    forall id: nat | IsDoomed(after, id)
      ensures !Retains(after.ring.traffic, id)
    {
      NewlyDoomed(w, ev, id);
      if IsDoomed(w, id) {
        StaysGone(w, after, id);
      }
    }
  }

  lemma {:induction false} RunKeepsDoomed(events: seq<Event>)
    requires Run(NEW, events).Some?
    ensures DoomedAreGone(Run(NEW, events).value)
  {
    if events != [] {
      var front := events[..|events| - 1];
      RunKeepsDoomed(front);
      RunKeepsInv(front);
      StepKeepsDoomed(Run(NEW, front).value, events[|events| - 1]);
    }
  }

  /** What was stored for a capture that is still retained is still stored. */
  ghost predicate BodiesStay(w: World, w': World) {
    forall id: nat :: id < w.ring.nextId && Retains(w'.ring.traffic, id) ==> Stays(w.ring, w'.ring, id)
  }

  predicate Stays(a: Ring, b: Ring, id: nat) {
    (id in a.responses ==> id in b.responses) && (id in a.requests ==> id in b.requests)
  }

  lemma BeginLeavesBodies(ring: Ring, destination: DestinationClass, replayable: bool, id: nat)
    requires RingInv(ring) && id < ring.nextId
    ensures var next := Begin(ring, destination, replayable); Retains(next.traffic, id) ==> Stays(ring, next, id)
  {
    var next := Begin(ring, destination, replayable);
    RoomIsMade(ring);
    BeginLasts(ring, destination, replayable);
    var (room, gone) := Room(ring);
    assert next.responses == room.responses && next.requests == room.requests;
    if Retains(next.traffic, id) {
      assert Same(ring.traffic, next.traffic, id);
      AppendedRetains(room, destination, replayable, id);
    }
  }

  lemma AppendedRetains(ring: Ring, destination: DestinationClass, replayable: bool, id: nat)
    requires id < ring.nextId && Retains(Appended(ring, destination, replayable).traffic, id)
    ensures Retains(ring.traffic, id)
  {
    IndexOfAppended(ring.traffic, Capture(ring.nextId, destination, Pending, NoBreak, None), id);
  }

  lemma RingLeavesBodies(w: World, ev: RingEvent, id: nat)
    requires Inv(w) && RingPossible(w, ev) && id < w.ring.nextId && Retains(RingAfter(w, ev).ring.traffic, id)
    ensures Stays(w.ring, RingAfter(w, ev).ring, id)
  {
    match ev
    case Begins(destination, replayable) => BeginLeavesBodies(w.ring, destination, replayable, id);
    case Starts(limit) => StartForgets(w.ring, limit);
    case Clears =>
    case Finishes(k, failed) =>
  }

  lemma FlowLeavesBodies(w: World, k: nat, ev: FlowEvent)
    requires FlowPossible(w, k, ev)
    ensures var next := FlowAfter(w, k, ev).ring; next.responses == w.ring.responses && next.requests == w.ring.requests
  {
  }

  lemma RecordLeavesBodies(w: World, k: nat, ev: RecordEvent, id: nat)
    requires DoomedAreGone(w) && RecordPossible(w, k, ev) && Retains(w.ring.traffic, id)
    ensures Stays(w.ring, RecordAfter(w, k, ev).ring, id)
  {
    assert IsDoomed(w, id) ==> !Retains(w.ring.traffic, id);
  }

  lemma CopyLeavesBodies(w: World, k: nat, ev: CopyEvent, id: nat)
    requires DoomedAreGone(w) && CopyPossible(w, k, ev) && Retains(w.ring.traffic, id)
    ensures Stays(w.ring, CopyAfter(w, k, ev).ring, id)
  {
    assert IsDoomed(w, id) ==> !Retains(w.ring.traffic, id);
  }

  lemma OneStays(w: World, ev: Event, id: nat)
    requires Inv(w) && DoomedAreGone(w) && Possible(w, ev)
    requires id < w.ring.nextId && Retains(After(w, ev).ring.traffic, id)
    ensures Stays(w.ring, After(w, ev).ring, id)
  {
    match ev
    case OfRing(r) => RingLeavesBodies(w, r, id);
    case OfFlow(k, f) => FlowLeavesBodies(w, k, f);
    case OfRecord(k, r) => RecordLeavesBodies(w, k, r, id);
    case OfCopy(k, c) => CopyLeavesBodies(w, k, c, id);
  }

  lemma StepLeavesBodies(w: World, ev: Event)
    requires Inv(w) && DoomedAreGone(w) && Possible(w, ev)
    ensures BodiesStay(w, After(w, ev))
  {
    forall id: nat | id < w.ring.nextId && Retains(After(w, ev).ring.traffic, id)
      ensures Stays(w.ring, After(w, ev).ring, id)
    {
      OneStays(w, ev, id);
    }
  }

  lemma StaysOn(u: World, v: World, w: World)
    requires u.ring.nextId <= v.ring.nextId && NoReturn(v, w) && BodiesStay(u, v) && BodiesStay(v, w)
    ensures BodiesStay(u, w)
  {
    forall id: nat | id < u.ring.nextId && Retains(w.ring.traffic, id)
      ensures Stays(u.ring, w.ring, id)
    {
      assert Lasting(v.ring.traffic, w.ring.traffic, id);
      assert Stays(u.ring, v.ring, id) && Stays(v.ring, w.ring, id);
    }
  }

  /**
    Over any continuation of any run: what was stored for a capture, of its request or its response, stays
    stored as long as the capture is retained.
   */
  lemma {:induction false} RetainedBodiesStay(first: seq<Event>, more: seq<Event>)
    requires Run(NEW, first + more).Some?
    ensures Run(NEW, first).Some? && BodiesStay(Run(NEW, first).value, Run(NEW, first + more).value)
    decreases |more|
  {
    PhaseIsFinal(first, more);
    if more == [] {
      assert first + more == first;
    } else {
      var front, last := more[..|more| - 1], more[|more| - 1];
      var upTo := first + front;
      assert (first + more)[..|first + more| - 1] == upTo;
      RetainedBodiesStay(first, front);
      PhaseIsFinal(first, front);
      RunKeepsInv(upTo);
      RunKeepsDoomed(upTo);
      StepLasts(Run(NEW, upTo).value, last);
      StepLeavesBodies(Run(NEW, upTo).value, last);
      StaysOn(Run(NEW, first).value, Run(NEW, upTo).value, Run(NEW, first + more).value);
    }
  }

  // ----- Ids -----

  function Begun(events: seq<Event>): nat {
    if events == [] then 0
    else
      var last := events[|events| - 1];
      Begun(events[..|events| - 1]) + if last.OfRing? && last.ring.Begins? then 1 else 0
  }

  /** Ids are given out one after the other, from 1, whatever else happens. */
  lemma {:induction false} IdsAreGivenInTurn(events: seq<Event>)
    requires Run(NEW, events).Some?
    ensures Run(NEW, events).value.ring.nextId == 1 + Begun(events)
  {
    if events != [] {
      var front, last := events[..|events| - 1], events[|events| - 1];
      IdsAreGivenInTurn(front);
      RunKeepsInv(front);
      StepGivesIds(Run(NEW, front).value, last);
    }
  }

  lemma StepGivesIds(w: World, ev: Event)
    requires Inv(w) && Possible(w, ev)
    ensures After(w, ev).ring.nextId == w.ring.nextId + if ev.OfRing? && ev.ring.Begins? then 1 else 0
  {
    match ev
    case OfRing(Begins(destination, replayable)) => BeginLasts(w.ring, destination, replayable);
    case OfRing(Starts(limit)) => StartForgets(w.ring, limit);
    case _ =>
  }

  // ----- The limit -----

  function LimitOf(events: seq<Event>): nat {
    if events == [] then 200
    else
      match events[|events| - 1]
      case OfRing(Starts(limit)) => limit
      case _ => LimitOf(events[..|events| - 1])
  }

  /** The ring keeps the limit it was last started with, 200 at first. */
  lemma {:induction false} LimitIsTheLastSet(events: seq<Event>)
    requires Run(NEW, events).Some?
    ensures |Run(NEW, events).value.ring.traffic| <= Run(NEW, events).value.ring.limit == LimitOf(events)
  {
    RunKeepsInv(events);
    if events != [] {
      var front, last := events[..|events| - 1], events[|events| - 1];
      LimitIsTheLastSet(front);
      RunKeepsInv(front);
      StepKeepsLimit(Run(NEW, front).value, last);
    }
  }

  lemma StepKeepsLimit(w: World, ev: Event)
    requires Inv(w) && Possible(w, ev)
    ensures After(w, ev).ring.limit == match ev case OfRing(Starts(limit)) => limit case _ => w.ring.limit
  {
    match ev
    case OfRing(Begins(destination, replayable)) => RoomIsMade(w.ring);
    case OfRing(Starts(limit)) => StartForgets(w.ring, limit);
    case _ =>
  }
}
