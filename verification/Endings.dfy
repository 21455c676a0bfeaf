/** Every task beside the capture ring can come to its end, from wherever a run has led. */
module Endings {
  import opened Bytes
  import opened Hosts
  import opened Captures
  import opened CaptureRuns

  /** At any time the captures may be cleared, limited anew or added to, a task aborted, a copy lost on its way. */
  lemma AnybodyMayInterfere(w: World, destination: DestinationClass, replayable: bool, limit: nat, id: nat)
    ensures Possible(w, OfRing(Clears)) && Possible(w, OfRing(Begins(destination, replayable)))
    ensures Possible(w, OfRing(Starts(limit))) <==> 1 <= limit <= 1000
    ensures Possible(w, OfFlow(id, Aborts)) <==> id in w.flows
    ensures Possible(w, OfFlow(id, Resolved)) <==> id in w.ring.breakpoints
    ensures Possible(w, OfCopy(id, CopyBegins)) <==> id < w.ring.nextId && id !in w.copying
    ensures At(w.copying, id, Begun) ==>
              && Possible(w, OfCopy(id, CopyFails))
              && var after := After(w, OfCopy(id, CopyFails));
                 At(after.copying, id, Settled) && after.ring == w.ring && after.flows == w.flows
  {
  }

  /** How many steps a forwarding task needs when nobody has anything more to say. */
  function StepsToServe(flow: Flow): nat {
    match flow
    case Served => 0
    case Answering(_) => 1
    case RuleDone(_) => 2
    case Decided(_, _) => 2
    case _ => 3
  }

  /** The step that a task takes then; a stopped one is released without a change. */
  function NextStep(flow: Flow): FlowEvent {
    match flow
    case Forwarding => NoRule
    case RuleChosen(_, _) => NotesRule
    case RuleDone(_) => NoBreakpoint
    case Stopped(_) => Withdraws(Continued, false)
    case Decided(_, _) => NotesOutcome
    case _ => NotRecorded
  }

  lemma OneStepOn(events: seq<Event>, ev: Event) returns (w: World)
    requires Run(NEW, events).Some? && Possible(Run(NEW, events).value, ev)
    ensures Run(NEW, events + [ev]) == Some(w) && w == After(Run(NEW, events).value, ev)
  {
    w := After(Run(NEW, events).value, ev);
    RunStep(events, ev, Run(NEW, events).value);
  }

  /** Whatever happened before, a forwarding task can end, and so its response is served. */
  lemma {:induction false} ExchangeCanBeServed(events: seq<Event>, id: nat) returns (more: seq<Event>)
    requires Run(NEW, events).Some? && id in Run(NEW, events).value.flows
    ensures Run(NEW, events + more).Some? && At(Run(NEW, events + more).value.flows, id, Served)
    ensures |more| == StepsToServe(Run(NEW, events).value.flows[id])
    decreases StepsToServe(Run(NEW, events).value.flows[id])
  {
    var flow := Run(NEW, events).value.flows[id];
    if flow == Served {
      NothingMore(events);
      return [];
    }
    var ev := OfFlow(id, NextStep(flow));
    var w := OneStepOn(events, ev);
    var rest := ExchangeCanBeServed(events + [ev], id);
    OneMore(events, ev, rest);
    more := [ev] + rest;
  }

  // ----- Tasks that store a body -----

  function StepsToSettle(task: Task): nat {
    match task
    case Begun => 3
    case Inserted => 2
    case Doomed => 1
    case Settled => 0
  }

  /** The step a task takes next when its store does not fail. */
  function NextRecord(task: Task): RecordEvent {
    match task
    case Begun => RecordInserts
    case Inserted => RecordRechecks
    case _ => RecordRemoves
  }

  function NextCopy(task: Task): CopyEvent {
    match task
    case Begun => CopyInserts
    case Inserted => CopyRechecks
    case _ => CopyRemoves
  }

  /** What a task has stored is retained when it is over. */
  predicate EndedWell(tasks: map<nat, Task>, stored: set<nat>, traffic: seq<Capture>, id: nat) {
    At(tasks, id, Settled) && (id in stored ==> Retains(traffic, id))
  }

  lemma NothingMore(events: seq<Event>)
    ensures events + [] == events
  {
  }

  lemma OneMore(events: seq<Event>, ev: Event, rest: seq<Event>)
    ensures events + ([ev] + rest) == events + [ev] + rest && |[ev] + rest| == |rest| + 1
  {
  }

  lemma RecordStep(events: seq<Event>, id: nat) returns (next: seq<Event>)
    requires Run(NEW, events).Some? && id in Run(NEW, events).value.recording
    requires Run(NEW, events).value.recording[id] != Settled
    ensures next == events + [OfRecord(id, NextRecord(Run(NEW, events).value.recording[id]))]
    ensures Run(NEW, next).Some? && id in Run(NEW, next).value.recording
    ensures StepsToSettle(Run(NEW, next).value.recording[id]) < StepsToSettle(Run(NEW, events).value.recording[id])
  {
    var ev := OfRecord(id, NextRecord(Run(NEW, events).value.recording[id]));
    var w := OneStepOn(events, ev);
    next := events + [ev];
  }

  lemma SettledRecordIsWell(events: seq<Event>, id: nat)
    requires Run(NEW, events).Some? && At(Run(NEW, events).value.recording, id, Settled)
    ensures var w := Run(NEW, events).value; EndedWell(w.recording, w.ring.responses, w.ring.traffic, id)
  {
    RunKeepsInv(events);
  }

  /** A recording task can end, and when it has, a body is stored only if its capture is still retained. */
  lemma {:induction false} RecordingCanEnd(events: seq<Event>, id: nat) returns (more: seq<Event>)
    requires Run(NEW, events).Some? && id in Run(NEW, events).value.recording
    ensures Run(NEW, events + more).Some? && |more| <= StepsToSettle(Run(NEW, events).value.recording[id])
    ensures var w := Run(NEW, events + more).value; EndedWell(w.recording, w.ring.responses, w.ring.traffic, id)
    decreases StepsToSettle(Run(NEW, events).value.recording[id])
  {
    var task := Run(NEW, events).value.recording[id];
    if task == Settled {
      SettledRecordIsWell(events, id);
      NothingMore(events);
      return [];
    }
    var next := RecordStep(events, id);
    var rest := RecordingCanEnd(next, id);
    OneMore(events, OfRecord(id, NextRecord(task)), rest);
    more := [OfRecord(id, NextRecord(task))] + rest;
  }

  lemma CopyStep(events: seq<Event>, id: nat) returns (next: seq<Event>)
    requires Run(NEW, events).Some? && id in Run(NEW, events).value.copying
    requires Run(NEW, events).value.copying[id] != Settled
    ensures next == events + [OfCopy(id, NextCopy(Run(NEW, events).value.copying[id]))]
    ensures Run(NEW, next).Some? && id in Run(NEW, next).value.copying
    ensures StepsToSettle(Run(NEW, next).value.copying[id]) < StepsToSettle(Run(NEW, events).value.copying[id])
  {
    var ev := OfCopy(id, NextCopy(Run(NEW, events).value.copying[id]));
    var w := OneStepOn(events, ev);
    next := events + [ev];
  }

  lemma SettledCopyIsWell(events: seq<Event>, id: nat)
    requires Run(NEW, events).Some? && At(Run(NEW, events).value.copying, id, Settled)
    ensures var w := Run(NEW, events).value; EndedWell(w.copying, w.ring.requests, w.ring.traffic, id)
  {
    RunKeepsInv(events);
  }

  /** The same for the task that stores a request copy. */
  lemma {:induction false} CopyCanEnd(events: seq<Event>, id: nat) returns (more: seq<Event>)
    requires Run(NEW, events).Some? && id in Run(NEW, events).value.copying
    ensures Run(NEW, events + more).Some? && |more| <= StepsToSettle(Run(NEW, events).value.copying[id])
    ensures var w := Run(NEW, events + more).value; EndedWell(w.copying, w.ring.requests, w.ring.traffic, id)
    decreases StepsToSettle(Run(NEW, events).value.copying[id])
  {
    var task := Run(NEW, events).value.copying[id];
    if task == Settled {
      SettledCopyIsWell(events, id);
      NothingMore(events);
      return [];
    }
    var next := CopyStep(events, id);
    var rest := CopyCanEnd(next, id);
    OneMore(events, OfCopy(id, NextCopy(task)), rest);
    more := [OfCopy(id, NextCopy(task))] + rest;
  }

  // ----- An answer that is stored -----

  /**
    Wherever an exchange is answered, its body can be stored: a replacement is then stored, and a recorded
    body is stored exactly when its capture is still retained.
   */
  lemma AnswerCanBeStored(events: seq<Event>, id: nat, body: bool) returns (more: seq<Event>)
    requires Run(NEW, events).Some? && At(Run(NEW, events).value.flows, id, Answering(body))
    ensures Run(NEW, events + more).Some? && At(Run(NEW, events + more).value.flows, id, Served)
    ensures var w := Run(NEW, events + more).value;
            id in w.ring.responses <==> body || Retains(Run(NEW, events).value.ring.traffic, id)
  {
    RunKeepsInv(events);
    if body {
      var w := OneStepOn(events, OfRecord(id, Replaces));
      return [OfRecord(id, Replaces)];
    }
    more := RecordAnswer(events, id);
  }

  lemma RecordAnswer(events: seq<Event>, id: nat) returns (more: seq<Event>)
    requires Run(NEW, events).Some? && At(Run(NEW, events).value.flows, id, Answering(false))
    requires id !in Run(NEW, events).value.recording
    ensures Run(NEW, events + more).Some? && At(Run(NEW, events + more).value.flows, id, Served)
    ensures var w := Run(NEW, events + more).value;
            id in w.ring.responses <==> Retains(Run(NEW, events).value.ring.traffic, id)
  {
    var begins, inserts := OfRecord(id, RecordBegins), OfRecord(id, RecordInserts);
    var rechecks, removes := OfRecord(id, RecordRechecks), OfRecord(id, RecordRemoves);
    var w1 := OneStepOn(events, begins);
    var w2 := OneStepOn(events + [begins], inserts);
    var w3 := OneStepOn(events + [begins] + [inserts], rechecks);
    more := [begins, inserts, rechecks];
    assert events + more == events + [begins] + [inserts] + [rechecks];
    if !Retains(w2.ring.traffic, id) {
      var w4 := OneStepOn(events + more, removes);
      assert events + (more + [removes]) == events + more + [removes];
      more := more + [removes];
    }
  }
}
