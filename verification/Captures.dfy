/**
  The bounded ring of captures and what hangs on it: breakpoints, replay templates and the two body
  stores. The critical sections are given as functions, with what they keep; `Shared` is the locked
  state as the code updates it.
 */
module Captures {
  import opened Bytes
  import opened Hosts

  datatype Phase = Pending | Complete | Errored

  datatype BreakState = NoBreak | Waiting | Modified | Continued | TimedOut

  datatype Capture = Capture(
    id: nat, destination: DestinationClass, phase: Phase, breakpoint: BreakState, rule: Option<string>)

  /** Modifying a response is allowed for Development destinations alone. */
  predicate MayModify(destination: DestinationClass) {
    destination == Development
  }

  datatype Ring = Ring(
    nextId: nat, limit: nat, traffic: seq<Capture>, captures: nat, evicted: nat,
    breakpoints: set<nat>, templates: set<nat>, requests: set<nat>, responses: set<nat>)

  // ----- Critical sections as functions -----

  function IndexOf(traffic: seq<Capture>, id: nat): (r: Option<nat>)
    ensures r.Some? ==> r.value < |traffic| && traffic[r.value].id == id
    ensures r.None? ==> forall i :: 0 <= i < |traffic| ==> traffic[i].id != id
  {
    if traffic == [] then None
    else if traffic[0].id == id then Some(0)
    else match IndexOf(traffic[1..], id) case None => None case Some(i) => Some(i + 1)
  }

  predicate Retains(traffic: seq<Capture>, id: nat) {
    IndexOf(traffic, id).Some?
  }

  function Update(ring: Ring, id: nat, change: Capture -> Capture): Ring {
    match IndexOf(ring.traffic, id)
    case None => ring
    case Some(i) => ring.(traffic := ring.traffic[i := change(ring.traffic[i])])
  }

  /** Evict the oldest capture with everything that hangs on it. */
  function Evict(ring: Ring): Ring
    requires ring.traffic != []
  {
    var id := ring.traffic[0].id;
    ring.(traffic := ring.traffic[1..], evicted := ring.evicted + 1,
          breakpoints := ring.breakpoints - {id}, templates := ring.templates - {id},
          requests := ring.requests - {id}, responses := ring.responses - {id})
  }

  /** Evict until the limit holds. */
  function Shrink(ring: Ring): (r: Ring)
    ensures |r.traffic| <= r.limit && r.limit == ring.limit
    decreases |ring.traffic|
  {
    if |ring.traffic| > ring.limit then Shrink(Evict(ring)) else ring
  }

  /** A new capture under the next id. */
  function Appended(ring: Ring, destination: DestinationClass, replayable: bool): Ring {
    var traffic := ring.traffic + [Capture(ring.nextId, destination, Pending, NoBreak, None)];
    ring.(nextId := ring.nextId + 1, traffic := traffic, captures := |traffic|,
          templates := if replayable then ring.templates + {ring.nextId} else ring.templates)
  }

  function Begin(ring: Ring, destination: DestinationClass, replayable: bool): Ring {
    var full := |ring.traffic| == ring.limit && ring.traffic != [];
    Appended(if full then Evict(ring) else ring, destination, replayable)
  }

  function StartWith(ring: Ring, limit: nat): Ring {
    var shrunk := Shrink(ring.(limit := limit));
    shrunk.(captures := |shrunk.traffic|)
  }

  function Cleared(ring: Ring): Ring {
    ring.(traffic := [], captures := 0, evicted := 0,
          breakpoints := {}, templates := {}, requests := {}, responses := {})
  }

  function Finished(failed: bool): Capture -> Capture {
    (c: Capture) => if c.phase == Pending then c.(phase := if failed then Errored else Complete) else c
  }

  function Broken(ring: Ring, id: nat): Ring {
    Update(ring, id, (c: Capture) => c.(breakpoint := Waiting)).(breakpoints := ring.breakpoints + {id})
  }

  // ----- What every critical section keeps -----

  /** The retained capture with this id may be modified. */
  predicate Modifiable(traffic: seq<Capture>, id: nat) {
    var at := IndexOf(traffic, id);
    at.Some? && MayModify(traffic[at.value].destination)
  }

  /** Ids increase along the ring and have all been given out. */
  ghost predicate Ordered(ring: Ring) {
    && (forall i, j :: 0 <= i < j < |ring.traffic| ==> ring.traffic[i].id < ring.traffic[j].id)
    && (forall i :: 0 <= i < |ring.traffic| ==> ring.traffic[i].id < ring.nextId)
  }

  /** What hangs on a capture hangs on a retained one; a stopped capture says so. */
  ghost predicate Attached(ring: Ring) {
    && (forall id :: id in ring.breakpoints ==>
          var at := IndexOf(ring.traffic, id); at.Some? && ring.traffic[at.value].breakpoint == Waiting)
    && (forall id :: id in ring.templates ==> Retains(ring.traffic, id))
  }

  /** Only captures that may be modified carry a rule or a breakpoint. */
  ghost predicate Guarded(traffic: seq<Capture>) {
    forall i :: 0 <= i < |traffic| && (traffic[i].rule.Some? || traffic[i].breakpoint != NoBreak) ==>
                  MayModify(traffic[i].destination)
  }

  ghost predicate Linked(ring: Ring) {
    Ordered(ring) && Attached(ring) && Guarded(ring.traffic)
  }

  /** Between critical sections the ring is also as long as it says and no longer than its limit. */
  ghost predicate RingInv(ring: Ring) {
    Linked(ring) && 0 < ring.limit && |ring.traffic| <= ring.limit && ring.captures == |ring.traffic|
  }

  /** Both retain the same capture under this id. */
  predicate Same(a: seq<Capture>, b: seq<Capture>, id: nat) {
    var i, j := IndexOf(a, id), IndexOf(b, id);
    i.Some? && j.Some? && a[i.value] == b[j.value]
  }

  /** Side tables and stores say the same about this id. */
  predicate SameAttachments(a: Ring, b: Ring, id: nat) {
    && (id in a.breakpoints <==> id in b.breakpoints) && (id in a.templates <==> id in b.templates)
    && (id in a.requests <==> id in b.requests) && (id in a.responses <==> id in b.responses)
  }

  predicate Unattached(ring: Ring, id: nat) {
    id !in ring.breakpoints && id !in ring.templates && id !in ring.requests && id !in ring.responses
  }

  /** The captures in `gone` are gone with all that hung on them; everything else is as it was. */
  ghost predicate Forgets(before: Ring, after: Ring, gone: set<nat>) {
    forall id: nat ::
      if id in gone then !Retains(after.traffic, id) && Unattached(after, id)
      else && SameAttachments(before, after, id)
           && (Retains(after.traffic, id) <==> Retains(before.traffic, id))
           && (Retains(after.traffic, id) ==> Same(before.traffic, after.traffic, id))
  }

  lemma ForgetsCompose(a: Ring, b: Ring, c: Ring, first: set<nat>, second: set<nat>)
    requires Forgets(a, b, first) && Forgets(b, c, second)
    ensures Forgets(a, c, first + second)
  {
  }

  lemma ForgetsNothing(ring: Ring, same: Ring)
    requires same == ring.(nextId := same.nextId, limit := same.limit,
                           captures := same.captures, evicted := same.evicted)
    ensures Forgets(ring, same, {})
  {
  }

  lemma UniqueIndex(ring: Ring, i: nat)
    requires Ordered(ring) && i < |ring.traffic|
    ensures IndexOf(ring.traffic, ring.traffic[i].id) == Some(i)
  {
  }

  lemma EvictIndex(ring: Ring, id: nat)
    requires Ordered(ring) && ring.traffic != []
    ensures IndexOf(Evict(ring).traffic, id)
         == match IndexOf(ring.traffic, id) case None => None case Some(i) => if i == 0 then None else Some(i - 1)
  {
    if id == ring.traffic[0].id {
      var rest := Evict(ring).traffic;
      forall i | 0 <= i < |rest|
        ensures rest[i].id != id
      {
        assert rest[i] == ring.traffic[i + 1];
      }
    }
  }

  /** Every index moves up by one. */
  ghost predicate Shifted(before: seq<Capture>, after: seq<Capture>) {
    forall id ::
      IndexOf(after, id)
      == match IndexOf(before, id) case None => None case Some(i) => if i == 0 then None else Some(i - 1)
  }

  lemma EvictShifts(ring: Ring)
    requires Ordered(ring) && ring.traffic != []
    ensures Shifted(ring.traffic, Evict(ring).traffic)
  {
    forall id
      ensures IndexOf(Evict(ring).traffic, id)
           == match IndexOf(ring.traffic, id) case None => None case Some(i) => if i == 0 then None else Some(i - 1)
    {
      EvictIndex(ring, id);
    }
  }

  lemma EvictKeepsLinked(ring: Ring)
    requires Linked(ring) && ring.traffic != []
    ensures Linked(Evict(ring))
  {
    EvictShifts(ring);
    UniqueIndex(ring, 0);
  }

  /** Eviction forgets the oldest capture and nothing else. */
  lemma EvictForgets(ring: Ring)
    requires Linked(ring) && ring.traffic != []
    ensures Linked(Evict(ring)) && Forgets(ring, Evict(ring), {ring.traffic[0].id})
  {
    EvictKeepsLinked(ring);
    EvictShifts(ring);
    UniqueIndex(ring, 0);
  }

  /** The ids of the `n` oldest captures. */
  function Oldest(traffic: seq<Capture>, n: nat): set<nat>
    requires n <= |traffic|
  {
    set i | 0 <= i < n :: traffic[i].id
  }

  /** How many captures are too many. */
  function Excess(traffic: seq<Capture>, limit: nat): (n: nat)
    ensures n <= |traffic|
  {
    if |traffic| > limit then |traffic| - limit else 0
  }

  /** Shrinking forgets the oldest captures, as many as are too many, and no others. */
  lemma {:induction false} ShrinkForgets(ring: Ring)
    requires Linked(ring)
    ensures var n := Excess(ring.traffic, ring.limit); var next := Shrink(ring);
            && Linked(next) && Forgets(ring, next, Oldest(ring.traffic, n))
            && next.traffic == ring.traffic[n..] && next.evicted == ring.evicted + n
            && next.nextId == ring.nextId
    decreases |ring.traffic|
  {
    var n := Excess(ring.traffic, ring.limit);
    if n > 0 {
      var next := Evict(ring);
      EvictForgets(ring);
      ShrinkForgets(next);
      ForgetsCompose(ring, next, Shrink(ring), {ring.traffic[0].id}, Oldest(next.traffic, n - 1));
      OldestStep(ring.traffic, n);
    } else {
      assert Oldest(ring.traffic, 0) == {};
      ForgetsNothing(ring, ring);
    }
  }

  /** The same for a new limit. */
  lemma StartForgets(ring: Ring, limit: nat)
    requires RingInv(ring) && 0 < limit
    ensures var n := Excess(ring.traffic, limit); var next := StartWith(ring, limit);
            && RingInv(next) && Forgets(ring, next, Oldest(ring.traffic, n))
            && next.traffic == ring.traffic[n..] && next.evicted == ring.evicted + n
            && next.nextId == ring.nextId && next.limit == limit
  {
    var wide, next := ring.(limit := limit), StartWith(ring, limit);
    var gone := Oldest(ring.traffic, Excess(ring.traffic, limit));
    ShrinkForgets(wide);
    ForgetsNothing(ring, wide);
    ForgetsCompose(ring, wide, Shrink(wide), {}, gone);
    ForgetsNothing(Shrink(wide), next);
    ForgetsCompose(ring, Shrink(wide), next, {} + gone, {});
    assert {} + gone + {} == gone;
  }

  lemma OldestStep(traffic: seq<Capture>, n: nat)
    requires 0 < n <= |traffic|
    ensures {traffic[0].id} + Oldest(traffic[1..], n - 1) == Oldest(traffic, n)
  {
    forall id | id in Oldest(traffic, n) && id != traffic[0].id
      ensures id in Oldest(traffic[1..], n - 1)
    {
      var i :| 0 <= i < n && traffic[i].id == id;
      assert traffic[1..][i - 1].id == id;
    }
    forall id | id in Oldest(traffic[1..], n - 1)
      ensures id in Oldest(traffic, n)
    {
      var i :| 0 <= i < n - 1 && traffic[1..][i].id == id;
      assert traffic[i + 1].id == id;
    }
  }

  lemma {:induction false} IndexOfAppended(traffic: seq<Capture>, c: Capture, id: nat)
    ensures IndexOf(traffic + [c], id)
         == match IndexOf(traffic, id) case Some(i) => Some(i) case None => if c.id == id then Some(|traffic|) else None
  {
    if traffic != [] {
      IndexOfAppended(traffic[1..], c, id);
      assert (traffic + [c])[1..] == traffic[1..] + [c];
    }
  }

  lemma AppendKeepsRing(ring: Ring, destination: DestinationClass, replayable: bool)
    requires Linked(ring)
    ensures Linked(Appended(ring, destination, replayable))
    ensures forall id :: Retains(Appended(ring, destination, replayable).traffic, id) <==>
                           Retains(ring.traffic, id) || id == ring.nextId
    ensures forall id :: Retains(ring.traffic, id) ==>
                           Same(ring.traffic, Appended(ring, destination, replayable).traffic, id)
  {
    var next := Appended(ring, destination, replayable);
    var c := Capture(ring.nextId, destination, Pending, NoBreak, None);
    forall k
      ensures IndexOf(next.traffic, k)
           == match IndexOf(ring.traffic, k)
              case Some(i) => Some(i)
              case None => if ring.nextId == k then Some(|ring.traffic|) else None
    {
      IndexOfAppended(ring.traffic, c, k);
    }
  }

  /** Making room for one more: at the limit the oldest capture goes, else none. */
  function Room(ring: Ring): (Ring, set<nat>) {
    if |ring.traffic| == ring.limit && ring.traffic != [] then (Evict(ring), {ring.traffic[0].id}) else (ring, {})
  }

  lemma RoomIsMade(ring: Ring)
    requires RingInv(ring)
    ensures var (room, gone) := Room(ring);
            && Linked(room) && |room.traffic| < room.limit == ring.limit && room.nextId == ring.nextId
            && Forgets(ring, room, gone)
  {
    if |ring.traffic| == ring.limit {
      EvictForgets(ring);
    } else {
      ForgetsNothing(ring, ring);
    }
  }

  /** The ring without the capture begun last. */
  function WithoutLast(ring: Ring, id: nat): Ring
    requires ring.traffic != []
  {
    ring.(traffic := ring.traffic[..|ring.traffic| - 1], templates := ring.templates - {id})
  }

  /** What beginning an exchange adds: one pending capture under a new id, at the end. */
  ghost predicate Adds(ring: Ring, next: Ring, destination: DestinationClass, replayable: bool) {
    var id, full := ring.nextId, |ring.traffic| == ring.limit;
    && next.nextId == id + 1 && next.limit == ring.limit
    && |next.traffic| == (if full then ring.limit else |ring.traffic| + 1)
    && next.evicted == ring.evicted + (if full then 1 else 0)
    && next.traffic != [] && next.traffic[|next.traffic| - 1] == Capture(id, destination, Pending, NoBreak, None)
    && !Retains(ring.traffic, id) && (id in next.templates <==> replayable)
    && Forgets(ring, WithoutLast(next, id), if full then Oldest(ring.traffic, 1) else {})
  }

  lemma AppendAdds(ring: Ring, room: Ring, gone: set<nat>, destination: DestinationClass, replayable: bool)
    requires Linked(room) && room.nextId == ring.nextId && Forgets(ring, room, gone)
    ensures var next := Appended(room, destination, replayable);
            && Forgets(ring, WithoutLast(next, ring.nextId), gone)
            && (ring.nextId in next.templates <==> replayable)
  {
    var next := Appended(room, destination, replayable);
    assert !Retains(room.traffic, room.nextId);
    assert next.traffic[..|next.traffic| - 1] == room.traffic;
    assert WithoutLast(next, ring.nextId).templates == room.templates;
    SameButCounters(ring, room, WithoutLast(next, ring.nextId), gone);
  }

  /** Beginning an exchange keeps the ring and, apart from the new capture, only makes room. */
  lemma BeginKeepsRing(ring: Ring, destination: DestinationClass, replayable: bool)
    requires RingInv(ring)
    ensures var next := Begin(ring, destination, replayable);
            RingInv(next) && Adds(ring, next, destination, replayable)
  {
    RoomIsMade(ring);
    var (room, gone) := Room(ring);
    AppendKeepsRing(room, destination, replayable);
    assert |ring.traffic| == ring.limit ==> Oldest(ring.traffic, 1) == {ring.traffic[0].id};
    AppendAdds(ring, room, gone, destination, replayable);
  }

  lemma SameButCounters(ring: Ring, room: Ring, other: Ring, gone: set<nat>)
    requires Forgets(ring, room, gone)
    requires other == room.(nextId := other.nextId, captures := other.captures)
    ensures Forgets(ring, other, gone)
  {
  }

  /** The same captures under the same ids and classes. */
  ghost predicate SameCaptures(a: seq<Capture>, b: seq<Capture>) {
    |a| == |b| && forall i :: 0 <= i < |a| ==> a[i].id == b[i].id && a[i].destination == b[i].destination
  }

  lemma {:induction false} SameIndices(a: seq<Capture>, b: seq<Capture>, id: nat)
    requires SameCaptures(a, b)
    ensures IndexOf(a, id) == IndexOf(b, id)
  {
    if a != [] {
      SameIndices(a[1..], b[1..], id);
    }
  }

  /** A change that leaves id and class alone. */
  ghost predicate Mild(change: Capture -> Capture) {
    forall c: Capture :: change(c).id == c.id && change(c).destination == c.destination
  }

  /** Rules and outcomes are only written to captures that may be modified, and never over a waiting breakpoint. */
  ghost predicate Harmless(ring: Ring, id: nat, change: Capture -> Capture) {
    && Mild(change)
    && (var at := IndexOf(ring.traffic, id);
        at.Some? ==>
          var c := change(ring.traffic[at.value]);
          && (c.rule.Some? || c.breakpoint != NoBreak ==> MayModify(c.destination))
          && (id in ring.breakpoints ==> c.breakpoint == Waiting))
  }

  lemma UpdateIsMild(ring: Ring, id: nat, change: Capture -> Capture)
    requires Mild(change)
    ensures SameCaptures(ring.traffic, Update(ring, id, change).traffic)
    ensures Update(ring, id, change) == ring.(traffic := Update(ring, id, change).traffic)
    ensures forall k :: IndexOf(Update(ring, id, change).traffic, k) == IndexOf(ring.traffic, k)
  {
    var next := Update(ring, id, change);
    forall k
      ensures IndexOf(next.traffic, k) == IndexOf(ring.traffic, k)
    {
      SameIndices(ring.traffic, next.traffic, k);
    }
  }

  lemma UpdateKeepsRing(ring: Ring, id: nat, change: Capture -> Capture)
    requires Linked(ring) && Harmless(ring, id, change)
    ensures Linked(Update(ring, id, change))
    ensures forall other :: other != id && Retains(ring.traffic, other) ==>
                              Same(ring.traffic, Update(ring, id, change).traffic, other)
  {
    UpdateIsMild(ring, id, change);
  }

  // ----- The locked state as the code updates it -----

  class Shared {
    var nextId: nat
    var limit: nat
    var traffic: seq<Capture>
    var captures: nat
    var evicted: nat
    var breakpoints: set<nat>
    var templates: set<nat>
    var requests: set<nat>
    var responses: set<nat>

    function Value(): Ring
      reads this
    {
      Ring(nextId, limit, traffic, captures, evicted, breakpoints, templates, requests, responses)
    }

    ghost predicate Valid()
      reads this
    {
      RingInv(Value())
    }

    constructor ()
      ensures Valid() && Value() == Ring(1, 200, [], 0, 0, {}, {}, {}, {})
    {
      nextId, limit, traffic, captures, evicted := 1, 200, [], 0, 0;
      breakpoints, templates, requests, responses := {}, {}, {}, {};
    }

    /** Inside a critical section: the oldest capture goes, and no side table or store keeps anything of it. */
    method PopFront()
      requires Linked(Value()) && traffic != []
      modifies this
      ensures Linked(Value()) && Value() == Evict(old(Value()))
      ensures Forgets(old(Value()), Value(), {old(traffic)[0].id})
      ensures nextId == old(nextId) && limit == old(limit) && traffic == old(traffic)[1..]
      ensures evicted == old(evicted) + 1
    {
      ghost var before := Value();
      var capture := traffic[0];
      traffic := traffic[1..];
      breakpoints := breakpoints - {capture.id};
      templates := templates - {capture.id};
      requests := requests - {capture.id};
      responses := responses - {capture.id};
      evicted := evicted + 1;
      assert Value() == Evict(before);
      EvictForgets(before);
    }

    method Append(destination: DestinationClass, replayable: bool)
      modifies this
      ensures Value() == Appended(old(Value()), destination, replayable)
    {
      var id := nextId;
      nextId := nextId + 1;
      traffic := traffic + [Capture(id, destination, Pending, NoBreak, None)];
      if replayable {
        templates := templates + {id};
      }
      captures := |traffic|;
    }

    /** At the limit the oldest capture goes. */
    method MakeRoom()
      requires Linked(Value()) && 0 < limit
      modifies this
      ensures Value() == Room(old(Value())).0
    {
      if |traffic| == limit {
        PopFront();
      }
    }

    /**
      A pending capture under an id never given out before comes last; at the limit the oldest one makes
      room for it. Apart from that nothing changes.
     */
    method BeginExchange(destination: DestinationClass, replayable: bool) returns (id: nat)
      requires Valid()
      modifies this
      ensures Valid() && Value() == Begin(old(Value()), destination, replayable)
      ensures id == old(nextId) && Adds(old(Value()), Value(), destination, replayable)
    {
      ghost var before := Value();
      id := nextId;
      MakeRoom();
      Append(destination, replayable);
      assert Value() == Begin(before, destination, replayable);
      BeginKeepsRing(before, destination, replayable);
    }

    /** A new limit: as many of the oldest captures go as are too many, with all that hung on them, and no others. */
    method Start(captureLimit: nat)
      requires Valid() && captureLimit > 0
      modifies this
      ensures Valid() && Value() == StartWith(old(Value()), captureLimit)
      ensures limit == captureLimit && nextId == old(nextId)
      ensures var n := Excess(old(traffic), captureLimit);
              && traffic == old(traffic)[n..] && evicted == old(evicted) + n
              && Forgets(old(Value()), Value(), Oldest(old(traffic), n))
    {
      ghost var before := Value().(limit := captureLimit);
      limit := captureLimit;
      while |traffic| > limit
        invariant Shrink(Value()) == Shrink(before) && limit == captureLimit
        invariant Linked(Value())
        decreases |traffic|
      {
        PopFront();
      }
      captures := |traffic|;
      StartForgets(old(Value()), captureLimit);
    }

    /** Nothing is retained and nothing is stored; ids go on where they were. */
    method Clear()
      requires Valid()
      modifies this
      ensures Valid() && Value() == Cleared(old(Value()))
      ensures forall id :: !Retains(traffic, id) && Unattached(Value(), id)
      ensures captures == 0 && evicted == 0 && nextId == old(nextId) && limit == old(limit)
    {
      breakpoints, templates := {}, {};
      traffic := [];
      requests, responses := {}, {};
      captures, evicted := 0, 0;
    }

    /** The search for a capture by its id. */
    method Position(id: nat) returns (at: Option<nat>)
      ensures at == IndexOf(traffic, id)
    {
      var i := 0;
      while i < |traffic| && traffic[i].id != id
        invariant i <= |traffic|
        invariant IndexOf(traffic, id) == match IndexOf(traffic[i..], id) case None => None case Some(k) => Some(k + i)
      {
        assert traffic[i..][1..] == traffic[i + 1..];
        i := i + 1;
      }
      at := if i < |traffic| then Some(i) else None;
    }

    /** The capture with this id changes, if retained; every other stays as it was, and where it was. */
    method UpdateCapture(id: nat, change: Capture -> Capture)
      requires Valid() && Harmless(Value(), id, change)
      modifies this`traffic
      ensures Valid() && Value() == Update(old(Value()), id, change)
      ensures forall k :: IndexOf(traffic, k) == IndexOf(old(traffic), k)
      ensures forall other :: other != id && Retains(old(traffic), other) ==> Same(old(traffic), traffic, other)
    {
      ghost var before := Value();
      var at := Position(id);
      if at.Some? {
        traffic := traffic[at.value := change(traffic[at.value])];
      }
      assert Value() == Update(before, id, change);
      UpdateKeepsRing(before, id, change);
      UpdateIsMild(before, id, change);
    }

    /** A pending phase is settled, once: finishing again, or a capture that is gone, changes nothing. */
    method Finish(id: nat, failed: bool)
      requires Valid()
      modifies this`traffic
      ensures Valid() && |traffic| == |old(traffic)|
      ensures forall i :: 0 <= i < |traffic| ==>
                traffic[i] == if old(traffic)[i].id == id && old(traffic)[i].phase == Pending
                              then old(traffic)[i].(phase := if failed then Errored else Complete)
                              else old(traffic)[i]
    {
      forall i | 0 <= i < |traffic| && traffic[i].id == id
        ensures IndexOf(traffic, id) == Some(i)
      {
        UniqueIndex(Value(), i);
      }
      UpdateCapture(id, Finished(failed));
    }

    /** The breakpoint section: only a retained Development capture is stopped, and no other is touched. */
    method TryBreak(id: nat, enabled: bool) returns (stopped: bool)
      requires Valid()
      modifies this
      ensures Valid() && Value() == if stopped then Broken(old(Value()), id) else old(Value())
      ensures stopped <==> enabled && Modifiable(old(traffic), id)
      ensures stopped ==> breakpoints == old(breakpoints) + {id} && IndexOf(traffic, id).Some?
                          && traffic[IndexOf(traffic, id).value].breakpoint == Waiting
      ensures forall other :: other != id && Retains(old(traffic), other) ==> Same(old(traffic), traffic, other)
    {
      stopped := enabled && Modifiable(traffic, id);
      if stopped {
        UpdateCapture(id, (c: Capture) => c.(breakpoint := Waiting));
        breakpoints := breakpoints + {id};
      }
    }
  }
}
