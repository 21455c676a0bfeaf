/**
  Every interleaving of the capture ring with the tasks beside it: one task per
  exchange that forwards it, and one per body that is being stored. A step is
  one critical section of the shared state or one store operation.
 */
module CaptureRuns {
  import opened Bytes
  import opened Hosts
  import opened Captures

  /**
    How far forwarding of one exchange has come; an aborted task has no entry. `body` says whether a rule
    or a decision has put a replacement body in the place of the response's own.
   */
  datatype Flow =
    | Forwarding
    | RuleChosen(rule: string, body: bool)
    | RuleDone(body: bool)
    | Stopped(body: bool)
    | Decided(outcome: BreakState, body: bool)
    | Answering(body: bool)
    | Served

  /** The flow writes, or has written, to the response. */
  predicate Rewrites(flow: Flow) {
    match flow
    case RuleChosen(_, _) => true
    case RuleDone(body) => body
    case Stopped(_) => true
    case Decided(_, _) => true
    case Answering(body) => body
    case _ => false
  }

  /** A task that inserts into a store and then looks whether the capture is still retained. */
  datatype Task = Begun | Inserted | Doomed | Settled

  /**
    `flows`, `recording` and `copying` are keyed by capture. `begun` counts captures since the last
    clear; `late` holds the ids a replacement body was stored under when nobody retained them.
   */
  datatype World = World(
    ring: Ring, flows: map<nat, Flow>, recording: map<nat, Task>, copying: map<nat, Task>, begun: nat, late: set<nat>)

  const NEW := World(Ring(1, 200, [], 0, 0, {}, {}, {}, {}), map[], map[], map[], 0, {})

  /** The shared state itself. */
  datatype RingEvent =
    | Begins(destination: DestinationClass, replayable: bool)
    | Starts(limit: nat)
    | Clears
    | Finishes(id: nat, failed: bool)

  /**
    A forwarding task, at most one per exchange, and the user resolving its breakpoint. A response that is
    not recorded, because bodies are not captured or the store refuses, is served all the same.
   */
  datatype FlowEvent =
    | ChoosesRule(rule: string, body: bool)
    | NotesRule
    | NoRule
    | Breaks
    | NoBreakpoint
    | Resolved
    | Withdraws(outcome: BreakState, body: bool)
    | NotesOutcome
    | NotRecorded
    | Aborts

  /** Response bodies: recorded with a recheck, or stored as a replacement without one. */
  datatype RecordEvent = Replaces | RecordBegins | RecordInserts | RecordRechecks | RecordRemoves

  /** Redacted request copies. */
  datatype CopyEvent = CopyBegins | CopyFails | CopyInserts | CopyRechecks | CopyRemoves

  datatype Event =
    | OfRing(ring: RingEvent)
    | OfFlow(id: nat, flow: FlowEvent)
    | OfRecord(id: nat, record: RecordEvent)
    | OfCopy(id: nat, copy: CopyEvent)

  predicate At<T(==)>(m: map<nat, T>, id: nat, value: T) {
    id in m && m[id] == value
  }

  predicate RingPossible(w: World, ev: RingEvent) {
    match ev
    case Begins(_, _) => true
    case Starts(limit) => 0 < limit <= 1000
    case Clears => true
    case Finishes(id, _) => id < w.ring.nextId
  }

  function RingAfter(w: World, ev: RingEvent): World {
    match ev
    case Begins(destination, replayable) =>
      var next := Begin(w.ring, destination, replayable);
      w.(ring := next, flows := w.flows[w.ring.nextId := Forwarding],
         begun := w.begun + 1, late := w.late * next.responses)
    case Starts(limit) =>
      var next := StartWith(w.ring, limit);
      w.(ring := next, late := w.late * next.responses)
    case Clears => w.(ring := Cleared(w.ring), begun := 0, late := {})
    case Finishes(id, failed) => w.(ring := Update(w.ring, id, Finished(failed)))
  }

  predicate FlowPossible(w: World, id: nat, ev: FlowEvent) {
    match ev
    case ChoosesRule(_, _) => At(w.flows, id, Forwarding) && Modifiable(w.ring.traffic, id)
    case NotesRule => id in w.flows && w.flows[id].RuleChosen?
    case NoRule => At(w.flows, id, Forwarding)
    case Breaks => id in w.flows && w.flows[id].RuleDone? && Modifiable(w.ring.traffic, id)
    case NoBreakpoint => id in w.flows && w.flows[id].RuleDone?
    case Resolved => id in w.ring.breakpoints
    case Withdraws(outcome, body) =>
      && id in w.flows && w.flows[id].Stopped?
      && (outcome.Modified? || outcome.Continued? || outcome.TimedOut?) && (body ==> outcome.Modified?)
    case NotesOutcome => id in w.flows && w.flows[id].Decided?
    case NotRecorded => id in w.flows && w.flows[id].Answering?
    case Aborts => id in w.flows
  }

  function FlowAfter(w: World, id: nat, ev: FlowEvent): World
    requires FlowPossible(w, id, ev)
  {
    match ev
    case ChoosesRule(rule, body) => FlowTo(w, id, RuleChosen(rule, body))
    case NotesRule =>
      FlowTo(w, id, RuleDone(w.flows[id].body)).(ring := Update(w.ring, id, WithRule(w.flows[id].rule)))
    case NoRule => FlowTo(w, id, RuleDone(false))
    case Breaks => FlowTo(w, id, Stopped(w.flows[id].body)).(ring := Broken(w.ring, id))
    case NoBreakpoint => FlowTo(w, id, Answering(w.flows[id].body))
    case Resolved => w.(ring := Unbroken(w.ring, id))
    case Withdraws(outcome, body) =>
      FlowTo(w, id, Decided(outcome, w.flows[id].body || body)).(ring := Unbroken(w.ring, id))
    case NotesOutcome =>
      FlowTo(w, id, Answering(w.flows[id].body)).(ring := Update(w.ring, id, WithOutcome(w.flows[id].outcome)))
    case NotRecorded => FlowTo(w, id, Served)
    case Aborts => w.(flows := w.flows - {id})
  }

  function FlowTo(w: World, id: nat, flow: Flow): World {
    w.(flows := w.flows[id := flow])
  }

  function Unbroken(ring: Ring, id: nat): Ring {
    ring.(breakpoints := ring.breakpoints - {id})
  }

  predicate RecordPossible(w: World, id: nat, ev: RecordEvent) {
    match ev
    case Replaces => At(w.flows, id, Answering(true))
    case RecordBegins => At(w.flows, id, Answering(false)) && id !in w.recording
    case RecordInserts => At(w.recording, id, Begun)
    case RecordRechecks => At(w.recording, id, Inserted)
    case RecordRemoves => At(w.recording, id, Doomed)
  }

  function RecordAfter(w: World, id: nat, ev: RecordEvent): World {
    match ev
    case Replaces =>
      FlowTo(w, id, Served).(ring := w.ring.(responses := w.ring.responses + {id}),
                             late := if Retains(w.ring.traffic, id) then w.late else w.late + {id})
    case RecordBegins => FlowTo(w, id, Served).(recording := w.recording[id := Begun])
    case RecordInserts => RecordingTo(w, id, Inserted).(ring := w.ring.(responses := w.ring.responses + {id}))
    case RecordRechecks => RecordingTo(w, id, if Retains(w.ring.traffic, id) then Settled else Doomed)
    case RecordRemoves =>
      RecordingTo(w, id, Settled).(ring := w.ring.(responses := w.ring.responses - {id}), late := w.late - {id})
  }

  function RecordingTo(w: World, id: nat, task: Task): World {
    w.(recording := w.recording[id := task])
  }

  predicate CopyPossible(w: World, id: nat, ev: CopyEvent) {
    match ev
    case CopyBegins => id < w.ring.nextId && id !in w.copying
    case CopyFails => At(w.copying, id, Begun)
    case CopyInserts => At(w.copying, id, Begun)
    case CopyRechecks => At(w.copying, id, Inserted)
    case CopyRemoves => At(w.copying, id, Doomed)
  }

  function CopyAfter(w: World, id: nat, ev: CopyEvent): World {
    match ev
    case CopyBegins => CopyingTo(w, id, Begun)
    case CopyFails => CopyingTo(w, id, Settled)
    case CopyInserts => CopyingTo(w, id, Inserted).(ring := w.ring.(requests := w.ring.requests + {id}))
    case CopyRechecks => CopyingTo(w, id, if Retains(w.ring.traffic, id) then Settled else Doomed)
    case CopyRemoves => CopyingTo(w, id, Settled).(ring := w.ring.(requests := w.ring.requests - {id}))
  }

  function CopyingTo(w: World, id: nat, task: Task): World {
    w.(copying := w.copying[id := task])
  }

  predicate Possible(w: World, ev: Event) {
    match ev
    case OfRing(r) => RingPossible(w, r)
    case OfFlow(id, f) => FlowPossible(w, id, f)
    case OfRecord(id, r) => RecordPossible(w, id, r)
    case OfCopy(id, c) => CopyPossible(w, id, c)
  }

  function After(w: World, ev: Event): World
    requires Possible(w, ev)
  {
    match ev
    case OfRing(r) => RingAfter(w, r)
    case OfFlow(id, f) => FlowAfter(w, id, f)
    case OfRecord(id, r) => RecordAfter(w, id, r)
    case OfCopy(id, c) => CopyAfter(w, id, c)
  }

  function WithRule(rule: string): Capture -> Capture {
    (c: Capture) => c.(rule := Some(rule))
  }

  function WithOutcome(outcome: BreakState): Capture -> Capture {
    (c: Capture) => c.(breakpoint := outcome)
  }

  function Run(w: World, events: seq<Event>): Option<World> {
    if events == [] then Some(w)
    else
      var before := Run(w, events[..|events| - 1]);
      var last := events[|events| - 1];
      if before.None? || !Possible(before.value, last) then None else Some(After(before.value, last))
  }

  // ----- What every step keeps -----

  /** A forwarding task that writes to the response works on a Development capture, if it is still retained. */
  ghost predicate FlowsGuarded(w: World) {
    && (forall id :: id in w.flows ==> id < w.ring.nextId)
    && (forall id :: id in w.flows && Rewrites(w.flows[id]) && Retains(w.ring.traffic, id) ==>
          Modifiable(w.ring.traffic, id))
    && (forall id :: id in w.flows && id in w.ring.breakpoints ==> w.flows[id].Stopped?)
    && (forall id :: id in w.flows && (id in w.recording || id in w.late) ==> w.flows[id] == Served)
  }

  predicate Unfinished(tasks: map<nat, Task>, id: nat) {
    At(tasks, id, Inserted) || At(tasks, id, Doomed)
  }

  /** A stored body without a retained capture is a late replacement or is about to be removed by its task. */
  ghost predicate NoOrphans(w: World) {
    && (forall id :: id in w.ring.responses ==>
          id < w.ring.nextId && (Retains(w.ring.traffic, id) || id in w.late || Unfinished(w.recording, id)))
    && (forall id :: id in w.ring.requests ==>
          id < w.ring.nextId && (Retains(w.ring.traffic, id) || Unfinished(w.copying, id)))
    && (forall id :: id in w.late ==> id in w.ring.responses && !Retains(w.ring.traffic, id) && id !in w.recording)
    && (forall id :: id in w.recording || id in w.copying ==> id < w.ring.nextId)
  }

  ghost predicate Inv(w: World) {
    RingInv(w.ring) && FlowsGuarded(w) && NoOrphans(w) && w.begun == |w.ring.traffic| + w.ring.evicted
  }

  // ----- Eviction -----

  /** Captures were evicted, and nothing else changed. */
  ghost predicate Trimmed(ring: Ring, trimmed: Ring, gone: set<nat>) {
    && Forgets(ring, trimmed, gone)
    && trimmed.nextId == ring.nextId
    && |trimmed.traffic| + trimmed.evicted == |ring.traffic| + ring.evicted
  }

  /** What is still stored or retained after a trim was so before. */
  lemma KeptByTrim(ring: Ring, trimmed: Ring, gone: set<nat>, id: nat)
    requires Forgets(ring, trimmed, gone)
    requires || id in trimmed.responses || id in trimmed.requests || id in trimmed.breakpoints
             || Retains(trimmed.traffic, id)
    ensures SameAttachments(ring, trimmed, id)
    ensures Retains(ring.traffic, id) <==> Retains(trimmed.traffic, id)
    ensures Retains(trimmed.traffic, id) ==> Same(ring.traffic, trimmed.traffic, id)
  {
    assert !(id in gone && Unattached(trimmed, id) && !Retains(trimmed.traffic, id));
  }

  lemma TrimKeepsFlows(w: World, ring: Ring, gone: set<nat>)
    requires FlowsGuarded(w) && Trimmed(w.ring, ring, gone)
    ensures FlowsGuarded(w.(ring := ring, late := w.late * ring.responses))
  {
    forall id | Retains(ring.traffic, id)
      ensures Modifiable(ring.traffic, id) <==> Modifiable(w.ring.traffic, id)
    {
      KeptByTrim(w.ring, ring, gone, id);
    }
    forall id | id in ring.breakpoints
      ensures id in w.ring.breakpoints
    {
      KeptByTrim(w.ring, ring, gone, id);
    }
  }

  lemma TrimKeepsNoOrphans(w: World, ring: Ring, gone: set<nat>)
    requires NoOrphans(w) && Trimmed(w.ring, ring, gone)
    ensures NoOrphans(w.(ring := ring, late := w.late * ring.responses))
  {
    forall id | id in ring.responses || id in ring.requests
      ensures SameAttachments(w.ring, ring, id) && (Retains(ring.traffic, id) <==> Retains(w.ring.traffic, id))
    {
      KeptByTrim(w.ring, ring, gone, id);
    }
  }

  /** A world whose ring was trimmed, the late ids with it. */
  lemma TrimKeepsInv(w: World, ring: Ring, gone: set<nat>)
    requires Inv(w) && Trimmed(w.ring, ring, gone) && RingInv(ring)
    ensures Inv(w.(ring := ring, late := w.late * ring.responses))
  {
    TrimKeepsFlows(w, ring, gone);
    TrimKeepsNoOrphans(w, ring, gone);
  }

  lemma StartsKeepsInv(w: World, limit: nat)
    requires Inv(w) && 0 < limit
    ensures Inv(RingAfter(w, Starts(limit)))
  {
    StartForgets(w.ring, limit);
    TrimKeepsInv(w, StartWith(w.ring, limit), Oldest(w.ring.traffic, Excess(w.ring.traffic, limit)));
  }

  // ----- Beginning an exchange -----

  lemma AppendKeepsInv(w: World, destination: DestinationClass, replayable: bool)
    requires Inv(w) && |w.ring.traffic| < w.ring.limit
    ensures Inv(w.(ring := Appended(w.ring, destination, replayable),
                   flows := w.flows[w.ring.nextId := Forwarding], begun := w.begun + 1))
  {
    var next := Appended(w.ring, destination, replayable);
    AppendKeepsRing(w.ring, destination, replayable);
    forall id | id in w.flows && Retains(next.traffic, id) && id != w.ring.nextId
      ensures Modifiable(next.traffic, id) <==> Modifiable(w.ring.traffic, id)
    {
      assert Same(w.ring.traffic, next.traffic, id);
    }
    assert w.ring.nextId !in w.ring.breakpoints by {
      assert !Retains(w.ring.traffic, w.ring.nextId);
    }
  }

  /** The world after a full ring made room. */
  function MadeRoom(w: World): World
    requires w.ring.traffic != []
  {
    var room := Evict(w.ring);
    w.(ring := room.(captures := |room.traffic|), late := w.late * room.responses)
  }

  lemma MakingRoomKeepsInv(w: World)
    requires Inv(w) && |w.ring.traffic| == w.ring.limit
    ensures Inv(MadeRoom(w)) && |MadeRoom(w).ring.traffic| < MadeRoom(w).ring.limit
  {
    EvictForgets(w.ring);
    SameButCounters(w.ring, Evict(w.ring), MadeRoom(w).ring, {w.ring.traffic[0].id});
    TrimKeepsInv(w, MadeRoom(w).ring, {w.ring.traffic[0].id});
  }

  lemma BeginsKeepsInv(w: World, destination: DestinationClass, replayable: bool)
    requires Inv(w)
    ensures Inv(RingAfter(w, Begins(destination, replayable)))
  {
    if |w.ring.traffic| == w.ring.limit {
      MakingRoomKeepsInv(w);
      AppendKeepsInv(MadeRoom(w), destination, replayable);
    } else {
      AppendKeepsInv(w, destination, replayable);
      assert w.late * w.ring.responses == w.late;
    }
  }

  // ----- Updating a capture -----

  lemma UpdateKeepsInv(w: World, id: nat, change: Capture -> Capture)
    requires Inv(w) && Harmless(w.ring, id, change)
    ensures Inv(w.(ring := Update(w.ring, id, change)))
  {
    UpdateIsMild(w.ring, id, change);
    UpdateKeepsRing(w.ring, id, change);
  }

  lemma BreaksKeepsInv(w: World, id: nat)
    requires Inv(w) && FlowPossible(w, id, Breaks)
    ensures Inv(FlowAfter(w, id, Breaks))
  {
    var change := (c: Capture) => c.(breakpoint := Waiting);
    UpdateKeepsInv(w, id, change);
    UpdateIsMild(w.ring, id, change);
    NowStopped(w.(ring := Update(w.ring, id, change)), id);
  }

  lemma NowStopped(w: World, id: nat)
    requires Inv(w) && id in w.flows && w.flows[id].RuleDone? && Modifiable(w.ring.traffic, id)
    requires w.ring.traffic[IndexOf(w.ring.traffic, id).value].breakpoint == Waiting
    ensures Inv(FlowTo(w, id, Stopped(w.flows[id].body)).(ring := w.ring.(breakpoints := w.ring.breakpoints + {id})))
  {
  }

  /** Recording a rule or an outcome; for an evicted capture nothing is written. */
  lemma NotesKeepsInv(w: World, id: nat, change: Capture -> Capture, flow: Flow)
    requires Inv(w) && Mild(change) && id in w.flows && id !in w.ring.breakpoints
    requires w.flows[id].RuleChosen? || w.flows[id].Decided?
    requires flow.RuleDone? || flow.Answering?
    ensures Inv(FlowTo(w, id, flow).(ring := Update(w.ring, id, change)))
  {
    UpdateKeepsInv(w, id, change);
    UpdateIsMild(w.ring, id, change);
    MovesOn(w.(ring := Update(w.ring, id, change)), id, flow);
  }

  lemma MovesOn(w: World, id: nat, flow: Flow)
    requires Inv(w) && id in w.flows && id !in w.ring.breakpoints
    requires Rewrites(flow) && Retains(w.ring.traffic, id) ==> Modifiable(w.ring.traffic, id)
    requires !flow.Stopped? && (w.flows[id] == Served ==> flow == Served)
    ensures Inv(FlowTo(w, id, flow))
  {
  }

  lemma LeavesBreakpoint(w: World, id: nat)
    requires Inv(w)
    ensures Inv(w.(ring := Unbroken(w.ring, id)))
  {
  }

  lemma FlowKeepsInv(w: World, id: nat, ev: FlowEvent)
    requires Inv(w) && FlowPossible(w, id, ev)
    ensures Inv(FlowAfter(w, id, ev))
  {
    match ev
    case ChoosesRule(rule, body) => MovesOn(w, id, RuleChosen(rule, body));
    case NotesRule => NotesKeepsInv(w, id, WithRule(w.flows[id].rule), RuleDone(w.flows[id].body));
    case NoRule => MovesOn(w, id, RuleDone(false));
    case Breaks => BreaksKeepsInv(w, id);
    case NoBreakpoint => MovesOn(w, id, Answering(w.flows[id].body));
    case Resolved => LeavesBreakpoint(w, id);
    case Withdraws(outcome, body) =>
      LeavesBreakpoint(w, id);
      MovesOn(w.(ring := Unbroken(w.ring, id)), id, Decided(outcome, w.flows[id].body || body));
    case NotesOutcome => NotesKeepsInv(w, id, WithOutcome(w.flows[id].outcome), Answering(w.flows[id].body));
    case NotRecorded => MovesOn(w, id, Served);
    case Aborts =>
  }

  lemma RingKeepsInv(w: World, ev: RingEvent)
    requires Inv(w) && RingPossible(w, ev)
    ensures Inv(RingAfter(w, ev))
  {
    match ev
    case Begins(destination, replayable) => BeginsKeepsInv(w, destination, replayable);
    case Starts(limit) => StartsKeepsInv(w, limit);
    case Clears =>
    case Finishes(id, failed) => UpdateKeepsInv(w, id, Finished(failed));
  }

  // ----- Tasks beside the captures -----

  /** The stores hold other bodies; the captures are the same. */
  lemma StoresKeepRing(ring: Ring, requests: set<nat>, responses: set<nat>)
    requires RingInv(ring)
    ensures RingInv(ring.(requests := requests, responses := responses))
  {
  }

  /** Two sets differ in one id at most. */
  predicate DifferAt(a: set<nat>, b: set<nat>, id: nat) {
    a - {id} == b - {id}
  }

  /** A body is stored, or removed, by a task that is not over before it has rechecked. */
  lemma RecordingKeepsNoOrphans(w: World, id: nat, task: Task, responses: set<nat>)
    requires NoOrphans(w) && id in w.recording && DifferAt(responses, w.ring.responses, id)
    requires id in responses ==> Retains(w.ring.traffic, id) || task == Inserted || task == Doomed
    ensures NoOrphans(RecordingTo(w, id, task).(ring := w.ring.(responses := responses)))
  {
    forall other
      ensures other != id ==> (other in responses <==> other in w.ring.responses)
    {
      assert other in responses - {id} <==> other in w.ring.responses - {id};
    }
  }

  lemma RecordingMoves(w: World, id: nat, task: Task, responses: set<nat>)
    requires Inv(w) && id in w.recording && DifferAt(responses, w.ring.responses, id)
    requires id in responses ==> Retains(w.ring.traffic, id) || task == Inserted || task == Doomed
    ensures Inv(RecordingTo(w, id, task).(ring := w.ring.(responses := responses)))
  {
    StoresKeepRing(w.ring, w.ring.requests, responses);
    RecordingKeepsNoOrphans(w, id, task, responses);
  }

  /** Serving a response begins its recording. */
  lemma RecordingBegins(w: World, id: nat)
    requires Inv(w) && At(w.flows, id, Served) && id !in w.recording && id !in w.late
    ensures Inv(RecordingTo(w, id, Begun))
  {
  }

  lemma ReplacementKeepsNoOrphans(w: World, id: nat, late: set<nat>)
    requires NoOrphans(w) && id < w.ring.nextId && id !in w.recording
    requires late == if Retains(w.ring.traffic, id) then w.late else w.late + {id}
    ensures NoOrphans(w.(ring := w.ring.(responses := w.ring.responses + {id}), late := late))
  {
  }

  lemma ReplacesKeepsInv(w: World, id: nat)
    requires Inv(w) && RecordPossible(w, id, Replaces)
    ensures Inv(RecordAfter(w, id, Replaces))
  {
    MovesOn(w, id, Served);
    var served := FlowTo(w, id, Served);
    StoresKeepRing(w.ring, w.ring.requests, w.ring.responses + {id});
    ReplacementKeepsNoOrphans(served, id, RecordAfter(w, id, Replaces).late);
  }

  lemma RecordKeepsInv(w: World, id: nat, ev: RecordEvent)
    requires Inv(w) && RecordPossible(w, id, ev)
    ensures Inv(RecordAfter(w, id, ev))
  {
    match ev
    case Replaces => ReplacesKeepsInv(w, id);
    case RecordBegins =>
      MovesOn(w, id, Served);
      RecordingBegins(FlowTo(w, id, Served), id);
    case RecordInserts => RecordingMoves(w, id, Inserted, w.ring.responses + {id});
    case RecordRechecks => RecordingMoves(w, id, RecordAfter(w, id, ev).recording[id], w.ring.responses);
    case RecordRemoves =>
      RecordingMoves(w, id, Settled, w.ring.responses - {id});
      assert w.late - {id} == w.late;
  }

  lemma CopyingKeepsNoOrphans(w: World, id: nat, task: Task, requests: set<nat>)
    requires NoOrphans(w) && id < w.ring.nextId && DifferAt(requests, w.ring.requests, id)
    requires id in requests ==> Retains(w.ring.traffic, id) || task == Inserted || task == Doomed
    ensures NoOrphans(CopyingTo(w, id, task).(ring := w.ring.(requests := requests)))
  {
    forall other
      ensures other != id ==> (other in requests <==> other in w.ring.requests)
    {
      assert other in requests - {id} <==> other in w.ring.requests - {id};
    }
  }

  lemma CopyingMoves(w: World, id: nat, task: Task, requests: set<nat>)
    requires Inv(w) && id < w.ring.nextId && DifferAt(requests, w.ring.requests, id)
    requires id in requests ==> Retains(w.ring.traffic, id) || task == Inserted || task == Doomed
    ensures Inv(CopyingTo(w, id, task).(ring := w.ring.(requests := requests)))
  {
    StoresKeepRing(w.ring, requests, w.ring.responses);
    CopyingKeepsNoOrphans(w, id, task, requests);
  }

  lemma CopyKeepsInv(w: World, id: nat, ev: CopyEvent)
    requires Inv(w) && CopyPossible(w, id, ev)
    ensures Inv(CopyAfter(w, id, ev))
  {
    match ev
    case CopyBegins => CopyingMoves(w, id, Begun, w.ring.requests);
    case CopyFails => CopyingMoves(w, id, Settled, w.ring.requests);
    case CopyInserts => CopyingMoves(w, id, Inserted, w.ring.requests + {id});
    case CopyRechecks => CopyingMoves(w, id, CopyAfter(w, id, ev).copying[id], w.ring.requests);
    case CopyRemoves => CopyingMoves(w, id, Settled, w.ring.requests - {id});
  }

  lemma StepKeepsInv(w: World, ev: Event)
    requires Inv(w) && Possible(w, ev)
    ensures Inv(After(w, ev))
  {
    match ev
    case OfRing(r) => RingKeepsInv(w, r);
    case OfFlow(id, f) => FlowKeepsInv(w, id, f);
    case OfRecord(id, r) => RecordKeepsInv(w, id, r);
    case OfCopy(id, c) => CopyKeepsInv(w, id, c);
  }

  // ----- Whole runs -----

  lemma {:induction false} RunKeepsInv(events: seq<Event>)
    requires Run(NEW, events).Some?
    ensures Inv(Run(NEW, events).value)
  {
    if events != [] {
      RunKeepsInv(events[..|events| - 1]);
      StepKeepsInv(Run(NEW, events[..|events| - 1]).value, events[|events| - 1]);
    }
  }

  /**
    The ring after any run: ordered ids, bounded length, exact counts, no dangling breakpoint or template,
    rules and breakpoints on Development captures only.
   */
  lemma RingIsConsistent(events: seq<Event>)
    requires Run(NEW, events).Some?
    ensures var w := Run(NEW, events).value;
            && (forall i, j :: 0 <= i < j < |w.ring.traffic| ==>
                  w.ring.traffic[i].id < w.ring.traffic[j].id < w.ring.nextId)
            && |w.ring.traffic| == w.ring.captures <= w.ring.limit
            && w.begun == w.ring.captures + w.ring.evicted
            && (forall id :: id in w.ring.templates ==> Retains(w.ring.traffic, id))
            && (forall id :: id in w.ring.breakpoints ==>
                  var at := IndexOf(w.ring.traffic, id); at.Some? && w.ring.traffic[at.value].breakpoint == Waiting)
            && (forall i :: 0 <= i < |w.ring.traffic| ==>
                  var c := w.ring.traffic[i];
                  c.rule.Some? || c.breakpoint != NoBreak ==> c.destination == Development)
  {
    RunKeepsInv(events);
  }

  /** A stored response whose capture is gone and whose task, if any, has finished. */
  ghost predicate OrphanResponse(w: World, id: nat) {
    id in w.ring.responses && !Retains(w.ring.traffic, id) && !Unfinished(w.recording, id)
  }

  ghost predicate OrphanRequest(w: World, id: nat) {
    id in w.ring.requests && !Retains(w.ring.traffic, id) && !Unfinished(w.copying, id)
  }

  /**
    After any run no request copy is an orphan, and the orphaned responses are exactly the
    replacements that were stored after their capture had gone and have not been cleared since.
   */
  lemma OrphansAreExactlyLateReplacements(events: seq<Event>, id: nat)
    requires Run(NEW, events).Some?
    ensures !OrphanRequest(Run(NEW, events).value, id)
    ensures OrphanResponse(Run(NEW, events).value, id) <==> id in Run(NEW, events).value.late
  {
    RunKeepsInv(events);
  }

  /** After any run, storing a replacement leaves an orphan exactly when its capture is not retained at that moment. */
  lemma ReplacementLeavesOrphanExactlyWhenLate(events: seq<Event>, id: nat)
    requires Run(NEW, events + [OfRecord(id, Replaces)]).Some?
    ensures Run(NEW, events).Some?
    ensures OrphanResponse(Run(NEW, events + [OfRecord(id, Replaces)]).value, id)
       <==> !Retains(Run(NEW, events).value.ring.traffic, id)
  {
    assert (events + [OfRecord(id, Replaces)])[..|events|] == events;
    RunKeepsInv(events);
  }

  /** After any run a response is only rewritten, and a replacement only stored, for a Development capture. */
  lemma OnlyDevelopmentIsRewritten(events: seq<Event>, id: nat)
    requires Run(NEW, events).Some?
    ensures var w := Run(NEW, events).value; var at := IndexOf(w.ring.traffic, id);
            id in w.flows && Rewrites(w.flows[id]) && at.Some? ==> w.ring.traffic[at.value].destination == Development
    ensures var w := Run(NEW, events).value;
            Possible(w, OfRecord(id, Replaces)) ==> id in w.flows && Rewrites(w.flows[id])
  {
    RunKeepsInv(events);
  }

  /** A rule has given the first exchange a body of its own, which is about to be stored. */
  lemma ReplacementIsReady() returns (events: seq<Event>, w: World)
    ensures Run(NEW, events) == Some(w) && w.flows == map[1 := Answering(true)] && w.recording == map[]
  {
    var begins, noBreakpoint := OfRing(Begins(Development, false)), OfFlow(1, NoBreakpoint);
    var chooses, notes := OfFlow(1, ChoosesRule("rule", true)), OfFlow(1, NotesRule);
    var w1 := After(NEW, begins);
    assert w1.flows == map[1 := Forwarding] && w1.recording == map[];
    assert w1.ring.traffic == [Capture(1, Development, Pending, NoBreak, None)];
    var w2 := After(w1, chooses);
    var w3 := After(w2, notes);
    w := After(w3, noBreakpoint);
    RunStep([], begins, NEW);
    events := [] + [begins];
    RunStep(events, chooses, w1);
    events := events + [chooses];
    RunStep(events, notes, w2);
    events := events + [notes];
    RunStep(events, noBreakpoint, w3);
    events := events + [noBreakpoint];
  }

  /** It can happen: clear the captures while a rule's body is about to be stored as the replacement. */
  lemma ReplacementCanComeTooLate() returns (events: seq<Event>)
    ensures Run(NEW, events).Some? && OrphanResponse(Run(NEW, events).value, 1)
  {
    var w;
    events, w := ReplacementIsReady();
    var clears, tooLate := OfRing(Clears), OfRecord(1, Replaces);
    var cleared := After(w, clears);
    assert cleared.ring.traffic == [] && cleared.flows == w.flows && cleared.recording == map[];
    RunStep(events, clears, w);
    events := events + [clears];
    RunStep(events, tooLate, cleared);
    events := events + [tooLate];
  }

  lemma RunStep(events: seq<Event>, ev: Event, w: World)
    requires Run(NEW, events) == Some(w) && Possible(w, ev)
    ensures Run(NEW, events + [ev]) == Some(After(w, ev))
  {
    assert (events + [ev])[..|events|] == events;
  }

  // ----- Captures keep their identity -----

  /** A capture that both rings retain is the same exchange, and a phase other than pending is final. */
  ghost predicate Lasting(a: seq<Capture>, b: seq<Capture>, id: nat) {
    var i, j := IndexOf(a, id), IndexOf(b, id);
    && i.Some? && j.Some?
    && a[i.value].destination == b[j.value].destination
    && (a[i.value].phase != Pending ==> b[j.value].phase == a[i.value].phase)
  }

  /** An id that was given out and is retained after a step was retained before it. */
  ghost predicate NoReturn(w: World, w': World) {
    && w.ring.nextId <= w'.ring.nextId
    && forall id: nat :: id < w.ring.nextId && Retains(w'.ring.traffic, id) ==>
                           Lasting(w.ring.traffic, w'.ring.traffic, id)
  }

  lemma UpdateLasts(ring: Ring, id: nat, change: Capture -> Capture)
    requires Mild(change)
    requires forall c: Capture :: c.phase != Pending ==> change(c).phase == c.phase
    ensures forall k: nat :: Retains(Update(ring, id, change).traffic, k) ==>
                               Lasting(ring.traffic, Update(ring, id, change).traffic, k)
  {
    UpdateIsMild(ring, id, change);
  }

  lemma SameTrafficLasts(traffic: seq<Capture>)
    ensures forall id: nat :: Retains(traffic, id) ==> Lasting(traffic, traffic, id)
  {
  }

  lemma RingLasts(w: World, ev: RingEvent)
    requires Inv(w) && RingPossible(w, ev)
    ensures NoReturn(w, RingAfter(w, ev))
  {
    SameTrafficLasts(w.ring.traffic);
    match ev
    case Begins(destination, replayable) => BeginLasts(w.ring, destination, replayable);
    case Starts(limit) => StartForgets(w.ring, limit);
    case Clears =>
    case Finishes(id, failed) => UpdateLasts(w.ring, id, Finished(failed));
  }

  lemma BeginLasts(ring: Ring, destination: DestinationClass, replayable: bool)
    requires RingInv(ring)
    ensures var next := Begin(ring, destination, replayable);
            next.nextId == ring.nextId + 1
            && forall id: nat :: id < ring.nextId && Retains(next.traffic, id) ==> Same(ring.traffic, next.traffic, id)
  {
    var room := Room(ring).0;
    RoomIsMade(ring);
    AppendKeepsRing(room, destination, replayable);
    forall id: nat | id < ring.nextId && Retains(Begin(ring, destination, replayable).traffic, id)
      ensures Same(ring.traffic, Begin(ring, destination, replayable).traffic, id)
    {
      assert Same(ring.traffic, room.traffic, id);
    }
  }

  lemma FlowLasts(w: World, id: nat, ev: FlowEvent)
    requires FlowPossible(w, id, ev)
    ensures NoReturn(w, FlowAfter(w, id, ev))
  {
    SameTrafficLasts(w.ring.traffic);
    match ev
    case NotesRule => UpdateLasts(w.ring, id, WithRule(w.flows[id].rule));
    case Breaks => UpdateLasts(w.ring, id, (c: Capture) => c.(breakpoint := Waiting));
    case NotesOutcome => UpdateLasts(w.ring, id, WithOutcome(w.flows[id].outcome));
    case _ =>
  }

  lemma RecordLasts(w: World, id: nat, ev: RecordEvent)
    ensures NoReturn(w, RecordAfter(w, id, ev))
  {
    SameTrafficLasts(w.ring.traffic);
  }

  lemma CopyLasts(w: World, id: nat, ev: CopyEvent)
    ensures NoReturn(w, CopyAfter(w, id, ev))
  {
    SameTrafficLasts(w.ring.traffic);
  }

  lemma StepLasts(w: World, ev: Event)
    requires Inv(w) && Possible(w, ev)
    ensures NoReturn(w, After(w, ev))
  {
    match ev
    case OfRing(r) => RingLasts(w, r);
    case OfFlow(id, f) => FlowLasts(w, id, f);
    case OfRecord(id, r) => RecordLasts(w, id, r);
    case OfCopy(id, c) => CopyLasts(w, id, c);
  }

  /** Over any continuation of any run: ids are never given out twice, and a finished phase never changes again. */
  lemma {:induction false} PhaseIsFinal(first: seq<Event>, more: seq<Event>)
    requires Run(NEW, first + more).Some?
    ensures Run(NEW, first).Some?
    ensures NoReturn(Run(NEW, first).value, Run(NEW, first + more).value)
    decreases |more|
  {
    if more == [] {
      assert first + more == first;
      SameTrafficLasts(Run(NEW, first).value.ring.traffic);
    } else {
      var front, last := more[..|more| - 1], more[|more| - 1];
      assert (first + more)[..|first + more| - 1] == first + front;
      PhaseIsFinal(first, front);
      RunKeepsInv(first + front);
      StepLasts(Run(NEW, first + front).value, last);
      LastsOn(Run(NEW, first).value, Run(NEW, first + front).value, Run(NEW, first + more).value);
    }
  }

  lemma LastsOn(u: World, v: World, w: World)
    requires NoReturn(u, v) && NoReturn(v, w)
    ensures NoReturn(u, w)
  {
    forall id: nat | id < u.ring.nextId && Retains(w.ring.traffic, id)
      ensures Lasting(u.ring.traffic, w.ring.traffic, id)
    {
      assert Lasting(v.ring.traffic, w.ring.traffic, id);
      assert Lasting(u.ring.traffic, v.ring.traffic, id);
    }
  }
}
