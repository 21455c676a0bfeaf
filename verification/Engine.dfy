/**
  The capture ring and the stores together: captures decide which bodies are stored, stored bodies
  hold the budget. A run of both is a run of each, kept in agreement.
 */
module Engine {
  import opened Bytes
  import opened Recording
  import opened Budget
  import opened Orphans
  import Captures
  import CaptureRuns

  datatype Engine = Engine(world: CaptureRuns.World, sys: Sys)

  const IDLE := Engine(CaptureRuns.NEW, EMPTY)

  /** A body under this key is stored, as the captures see it. */
  predicate Listed(ring: Captures.Ring, key: Key) {
    if key.requestSide then key.id in ring.requests else key.id in ring.responses
  }

  /** A body under this key is stored, as the stores see it. */
  ghost predicate Stored(entries: seq<Entry>, key: Key) {
    exists i :: 0 <= i < |entries| && entries[i].held.stored && entries[i].key == key
  }

  /** Both see the same. */
  ghost predicate Agree(engine: Engine) {
    forall key :: Stored(engine.sys.entries, key) <==> Listed(engine.world.ring, key)
  }

  /**
    `Captured` is a step of the captures that stores nothing; what it removes leaves the stores in the same
    critical section, one entry after the other in any order. `Inserted` puts a body into a store. `Inside`
    is a step within the stores.
   */
  datatype Event =
    | Captured(ev: CaptureRuns.Event, removals: seq<nat>)
    | Inserted(ev: CaptureRuns.Event, insertion: SysEvent)
    | Inside(step: SysEvent)

  /** The steps of the captures that put a body into a store, and its key. */
  function Inserting(ev: CaptureRuns.Event): Option<Key> {
    match ev
    case OfRecord(id, RecordInserts) => Some(Key(false, id))
    case OfRecord(id, Replaces) => Some(Key(false, id))
    case OfCopy(id, CopyInserts) => Some(Key(true, id))
    case _ => None
  }

  /** A recording enters its store empty, a replacement or a request copy once it is on disk. */
  predicate Inserts(ev: CaptureRuns.Event, insertion: SysEvent) {
    var recorded := ev.OfRecord? && ev.record.RecordInserts?;
    match insertion
    case Record(key, _, _, _) => Inserting(ev) == Some(key) && recorded
    case JobHandsOver(_, key, _) => Inserting(ev) == Some(key) && !recorded
    case _ => false
  }

  /** A step that changes which bodies are stored. */
  predicate TouchesStore(step: SysEvent) {
    match step
    case Record(_, _, _, _) => true
    case JobHandsOver(_, _, _) => true
    case Local(_, Store(Remove)) => true
    case Local(_, Store(Displace)) => true
    case _ => false
  }

  /** The entry is stored under a key that is not listed any more. */
  predicate Leaves(ring: Captures.Ring, e: Entry) {
    e.held.stored && !Listed(ring, e.key)
  }

  function Removals(indices: seq<nat>): seq<SysEvent> {
    if indices == [] then []
    else Removals(indices[..|indices| - 1]) + [Local(indices[|indices| - 1], Store(Remove))]
  }

  /** The entries with these indices are exactly those that leave. */
  ghost predicate AllThatLeave(entries: seq<Entry>, ring: Captures.Ring, indices: seq<nat>) {
    forall i: nat :: i < |entries| ==> (i in indices <==> Leaves(ring, entries[i]))
  }

  ghost predicate Possible(engine: Engine, ev: Event) {
    match ev
    case Captured(c, removals) =>
      && CaptureRuns.Possible(engine.world, c) && Inserting(c).None?
      && AllThatLeave(engine.sys.entries, CaptureRuns.After(engine.world, c).ring, removals)
      && Budget.Run(engine.sys, Removals(removals)).Some?
    case Inserted(c, insertion) =>
      CaptureRuns.Possible(engine.world, c) && Budget.Possible(engine.sys, insertion) && Inserts(c, insertion)
    case Inside(step) => Budget.Possible(engine.sys, step) && !TouchesStore(step)
  }

  ghost function After(engine: Engine, ev: Event): Engine
    requires Possible(engine, ev)
  {
    match ev
    case Captured(c, removals) =>
      Engine(CaptureRuns.After(engine.world, c), Budget.Run(engine.sys, Removals(removals)).value)
    case Inserted(c, insertion) => Engine(CaptureRuns.After(engine.world, c), Budget.After(engine.sys, insertion))
    case Inside(step) => engine.(sys := Budget.After(engine.sys, step))
  }

  ghost function Run(events: seq<Event>): Option<Engine> {
    if events == [] then Some(IDLE)
    else
      var before := Run(events[..|events| - 1]);
      var last := events[|events| - 1];
      if before.None? || !Possible(before.value, last) then None else Some(After(before.value, last))
  }

  // ----- A run of both is a run of each -----

  lemma {:induction false} RunsJoin(first: seq<SysEvent>, sys: Sys, more: seq<SysEvent>)
    requires Budget.Run(EMPTY, first) == Some(sys)
    ensures Budget.Run(EMPTY, first + more) == Budget.Run(sys, more)
    decreases |more|
  {
    if more == [] {
      assert first + more == first;
    } else {
      RunsJoin(first, sys, more[..|more| - 1]);
      assert (first + more)[..|first + more| - 1] == first + more[..|more| - 1];
    }
  }

  lemma {:induction false} RunOfEach(events: seq<Event>)
    returns (captured: seq<CaptureRuns.Event>, steps: seq<SysEvent>)
    requires Run(events).Some?
    ensures CaptureRuns.Run(CaptureRuns.NEW, captured) == Some(Run(events).value.world)
    ensures Budget.Run(EMPTY, steps) == Some(Run(events).value.sys)
  {
    if events == [] {
      return [], [];
    }
    var front, last := events[..|events| - 1], events[|events| - 1];
    captured, steps := RunOfEach(front);
    var engine := Run(front).value;
    match last
    case Captured(c, removals) =>
      CaptureRuns.RunStep(captured, c, engine.world);
      captured := captured + [c];
      RunsJoin(steps, engine.sys, Removals(removals));
      steps := steps + Removals(removals);
    case Inserted(c, insertion) =>
      CaptureRuns.RunStep(captured, c, engine.world);
      captured := captured + [c];
      RunStep(steps, engine.sys, insertion);
      steps := steps + [insertion];
    case Inside(step) =>
      RunStep(steps, engine.sys, step);
      steps := steps + [step];
  }

  lemma BothKeepInv(events: seq<Event>)
    requires Run(events).Some?
    ensures CaptureRuns.Inv(Run(events).value.world) && Budget.Inv(Run(events).value.sys)
  {
    var captured, steps := RunOfEach(events);
    CaptureRuns.RunKeepsInv(captured);
    RunKeepsInv(steps);
  }

  // ----- Both agree on what is stored -----

  lemma {:induction false} ShrinkListsLess(ring: Captures.Ring)
    ensures var next := Captures.Shrink(ring); next.requests <= ring.requests && next.responses <= ring.responses
    decreases |ring.traffic|
  {
    if |ring.traffic| > ring.limit {
      ShrinkListsLess(Captures.Evict(ring));
    }
  }

  /** Only an insertion lists a body that was not listed before. */
  lemma OthersListLess(w: CaptureRuns.World, ev: CaptureRuns.Event)
    requires CaptureRuns.Possible(w, ev) && Inserting(ev).None?
    ensures var next := CaptureRuns.After(w, ev).ring;
            next.requests <= w.ring.requests && next.responses <= w.ring.responses
  {
    if ev.OfRing? && ev.ring.Starts? {
      ShrinkListsLess(w.ring.(limit := ev.ring.limit));
    }
  }

  /** The entries with these indices are out of their store; nothing else about what is stored has changed. */
  ghost predicate Unstored(before: seq<Entry>, after: seq<Entry>, indices: seq<nat>) {
    && |after| == |before|
    && forall i: nat :: i < |before| ==>
         after[i].key == before[i].key && (after[i].held.stored <==> before[i].held.stored && i !in indices)
  }

  lemma OneMoreUnstored(before: seq<Entry>, sys: Sys, indices: seq<nat>, i: nat)
    requires Unstored(before, sys.entries, indices) && Budget.Possible(sys, Local(i, Store(Remove)))
    ensures Unstored(before, Budget.After(sys, Local(i, Store(Remove))).entries, indices + [i])
  {
    var after := Budget.After(sys, Local(i, Store(Remove))).entries;
    forall k: nat | k < |before|
      ensures after[k].key == before[k].key
      ensures after[k].held.stored <==> before[k].held.stored && k !in indices + [i]
    {
      if k != i {
        assert after[k] == sys.entries[k];
      }
    }
  }

  lemma {:induction false} RemovalsUnstore(sys: Sys, indices: seq<nat>)
    requires Budget.Run(sys, Removals(indices)).Some?
    ensures Unstored(sys.entries, Budget.Run(sys, Removals(indices)).value.entries, indices)
  {
    if indices != [] {
      var front, last := indices[..|indices| - 1], indices[|indices| - 1];
      assert Removals(indices)[..|Removals(indices)| - 1] == Removals(front);
      RemovalsUnstore(sys, front);
      OneMoreUnstored(sys.entries, Budget.Run(sys, Removals(front)).value, front, last);
      assert front + [last] == indices;
    }
  }

  lemma RemovalAgrees(engine: Engine, c: CaptureRuns.Event, removals: seq<nat>)
    requires Agree(engine) && Possible(engine, Captured(c, removals))
    ensures Agree(After(engine, Captured(c, removals)))
  {
    OthersListLess(engine.world, c);
    RemovalsUnstore(engine.sys, removals);
    var after := Budget.Run(engine.sys, Removals(removals)).value.entries;
    UnstoredAgrees(engine, CaptureRuns.After(engine.world, c).ring, removals, after);
  }

  lemma UnstoredAgrees(engine: Engine, ring: Captures.Ring, removals: seq<nat>, after: seq<Entry>)
    requires Agree(engine) && AllThatLeave(engine.sys.entries, ring, removals)
    requires ring.requests <= engine.world.ring.requests && ring.responses <= engine.world.ring.responses
    requires Unstored(engine.sys.entries, after, removals)
    ensures forall key :: Stored(after, key) <==> Listed(ring, key)
  {
    var entries := engine.sys.entries;
    forall key
      ensures Stored(after, key) <==> Listed(ring, key)
    {
      if Listed(ring, key) {
        assert Listed(engine.world.ring, key);
        var i: nat :| i < |entries| && entries[i].held.stored && entries[i].key == key;
        assert after[i].held.stored;
      }
      if i: nat :| i < |after| && after[i].held.stored && after[i].key == key {
        assert entries[i].held.stored && i !in removals;
      }
    }
  }

  lemma InsertionLists(w: CaptureRuns.World, ev: CaptureRuns.Event, k: Key, key: Key)
    requires CaptureRuns.Possible(w, ev) && Inserting(ev) == Some(k)
    ensures Listed(CaptureRuns.After(w, ev).ring, key) <==> Listed(w.ring, key) || key == k
  {
  }

  /** One entry, if any, left its place to a new one under the same key. */
  lemma ReplacedEntry(entries: seq<Entry>, previous: Option<nat>, out: Entry, e: Entry, key: Key)
    requires previous.Some? ==> previous.value < |entries| && entries[previous.value].key == e.key && !out.held.stored
    requires e.held.stored
    ensures var rest := if previous.Some? then entries[previous.value := out] else entries;
            Stored(rest + [e], key) <==> Stored(entries, key) || key == e.key
  {
    var rest := if previous.Some? then entries[previous.value := out] else entries;
    var after := rest + [e];
    if key == e.key {
      assert after[|rest|] == e;
    } else {
      if i :| 0 <= i < |entries| && entries[i].held.stored && entries[i].key == key {
        assert after[i] == entries[i];
      }
      if i :| 0 <= i < |after| && after[i].held.stored && after[i].key == key {
        assert i < |rest| && entries[i] == after[i];
      }
    }
  }

  lemma RecordStores(s: Sys, insertion: SysEvent, key: Key)
    requires insertion.Record? && Budget.Possible(s, insertion)
    ensures Stored(Budget.After(s, insertion).entries, key) <==> Stored(s.entries, key) || key == insertion.key
  {
    var e := Fresh(insertion.key, insertion.limit, insertion.codec);
    var out := if insertion.previous.Some? then LeaveStore(s.entries[insertion.previous.value]) else e;
    ReplacedEntry(s.entries, insertion.previous, out, e, key);
  }

  lemma HandOverStores(s: Sys, insertion: SysEvent, key: Key)
    requires insertion.JobHandsOver? && Budget.Possible(s, insertion)
    ensures Stored(Budget.After(s, insertion).entries, key) <==> Stored(s.entries, key) || key == insertion.key
  {
    var job := s.jobs[insertion.j];
    var e := Whole(insertion.key, job.limit, job.bytes);
    var out := match insertion.previous case Some(i) => StoreNext(s.entries[i], s.used, Remove).0 case None => e;
    ReplacedEntry(s.entries, insertion.previous, out, e, key);
  }

  lemma InsertionAgrees(engine: Engine, c: CaptureRuns.Event, insertion: SysEvent)
    requires Agree(engine) && Possible(engine, Inserted(c, insertion))
    ensures Agree(After(engine, Inserted(c, insertion)))
  {
    forall key
      ensures Stored(Budget.After(engine.sys, insertion).entries, key)
         <==> Listed(CaptureRuns.After(engine.world, c).ring, key)
    {
      InsertionLists(engine.world, c, insertion.key, key);
      if insertion.Record? {
        RecordStores(engine.sys, insertion, key);
      } else {
        HandOverStores(engine.sys, insertion, key);
      }
    }
  }

  lemma StaysStored(e: Entry, used: int, step: Recording.Event)
    requires Enabled(e, used, step) && step != Store(Remove) && step != Store(Displace)
    ensures var e' := Next(e, used, step).0; e'.held.stored == e.held.stored && e'.key == e.key
  {
  }

  lemma InsideAgrees(engine: Engine, step: SysEvent)
    requires Agree(engine) && Possible(engine, Inside(step))
    ensures Agree(After(engine, Inside(step)))
  {
    var entries, after := engine.sys.entries, Budget.After(engine.sys, step).entries;
    if step.Local? {
      StaysStored(entries[step.i], engine.sys.used, step.step);
    }
    assert |after| == |entries|;
    assert forall i :: 0 <= i < |entries| ==>
                         after[i].held.stored == entries[i].held.stored && after[i].key == entries[i].key;
    forall key
      ensures Stored(after, key) <==> Stored(entries, key)
    {
      if i :| 0 <= i < |entries| && entries[i].held.stored && entries[i].key == key {
        assert after[i].held.stored && after[i].key == key;
      }
    }
  }

  lemma {:induction false} RunAgrees(events: seq<Event>)
    requires Run(events).Some?
    ensures Agree(Run(events).value)
  {
    if events != [] {
      var front := events[..|events| - 1];
      RunAgrees(front);
      match events[|events| - 1]
      case Captured(c, removals) => RemovalAgrees(Run(front).value, c, removals);
      case Inserted(c, insertion) => InsertionAgrees(Run(front).value, c, insertion);
      case Inside(step) => InsideAgrees(Run(front).value, step);
    }
  }

  // ----- When everything is over -----

  /** Nobody is in a critical section, and what left its store has been cancelled or dropped. */
  ghost predicate EntriesAtRest(entries: seq<Entry>) {
    forall i :: 0 <= i < |entries| ==>
                  && entries[i].acct.section.Free?
                  && (entries[i].held.stored || entries[i].acct.cancelled || entries[i].held.dropped)
  }

  /** No capture is left, and every task that stored a body has rechecked. */
  ghost predicate CapturesOver(w: CaptureRuns.World) {
    && w.ring.traffic == []
    && (forall id :: !CaptureRuns.Unfinished(w.recording, id))
    && (forall id :: !CaptureRuns.Unfinished(w.copying, id))
  }

  ghost predicate AllOver(engine: Engine) {
    CapturesOver(engine.world) && EntriesAtRest(engine.sys.entries)
  }

  /** What the stored bodies answer for. */
  function StoredSum(entries: seq<Entry>): int {
    if entries == [] then 0
    else
      var last := entries[|entries| - 1];
      StoredSum(entries[..|entries| - 1]) + if last.held.stored then Accounted(last) else 0
  }

  lemma {:induction false} OnlyStoredCount(entries: seq<Entry>)
    requires AllSound(entries) && EntriesAtRest(entries)
    ensures Sum(entries) == StoredSum(entries)
    ensures (forall i :: 0 <= i < |entries| ==> !entries[i].held.stored) ==> StoredSum(entries) == 0
  {
    if entries != [] {
      OnlyStoredCount(entries[..|entries| - 1]);
    }
  }

  lemma OnlyLateAreListed(w: CaptureRuns.World)
    requires CaptureRuns.NoOrphans(w) && CapturesOver(w)
    ensures forall key :: Listed(w.ring, key) <==> !key.requestSide && key.id in w.late
  {
    forall key
      ensures Listed(w.ring, key) <==> !key.requestSide && key.id in w.late
    {
      assert !Captures.Retains(w.ring.traffic, key.id);
    }
  }

  lemma NothingStored(entries: seq<Entry>)
    requires forall key :: !Stored(entries, key)
    ensures forall i :: 0 <= i < |entries| ==> !entries[i].held.stored
  {
    forall i | 0 <= i < |entries|
      ensures !entries[i].held.stored
    {
      assert !Stored(entries, entries[i].key);
    }
  }

  /**
    After any run that is over, the bodies still stored are exactly the replacements that came too late and
    have not been cleared since; they and the copies in flight are all the budget that is in use. So a run
    without late replacements leaves only the abandoned copies on the counter.
   */
  lemma ClearingReturnsTheBudget(events: seq<Event>)
    requires Run(events).Some? && AllOver(Run(events).value)
    ensures var engine := Run(events).value;
            && (forall key :: Stored(engine.sys.entries, key) <==> !key.requestSide && key.id in engine.world.late)
            && engine.sys.used == SumJobs(engine.sys.jobs) + StoredSum(engine.sys.entries)
            && (engine.world.late == {} ==>
                  (engine.sys.used == 0
                   <==> forall j :: 0 <= j < |engine.sys.jobs| ==> InFlight(engine.sys.jobs[j]) == 0))
  {
    BothKeepInv(events);
    RunAgrees(events);
    var engine := Run(events).value;
    OnlyLateAreListed(engine.world);
    OnlyStoredCount(engine.sys.entries);
    NoneInFlight(engine.sys.jobs);
    if engine.world.late == {} {
      NothingStored(engine.sys.entries);
    }
  }
}
