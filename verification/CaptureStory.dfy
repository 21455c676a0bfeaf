/**
  What a capture shows of its own story: after any run, rule, breakpoint and phase of a retained capture
  are those of the steps taken for it, and a replacement is only stored if a rule or a decision gave one.
 */
module CaptureStory {
  import opened Bytes
  import opened Hosts
  import opened Captures
  import opened CaptureRuns

  /** What the steps so far say about one id; the fields in the order in which they come about. */
  datatype Story = Story(
    rule: Option<string>, ruleBody: bool, ruleNoted: bool, stopped: bool,
    decision: Option<BreakState>, decisionBody: bool, decisionNoted: bool, failed: Option<bool>)

  const NOTHING_YET := Story(None, false, false, false, None, false, false, None)

  function StoryStep(story: Story, ev: Event, id: nat): Story {
    match ev
    case OfFlow(k, flow) =>
      if k != id then story
      else (match flow
            case ChoosesRule(rule, body) => story.(rule := Some(rule), ruleBody := body)
            case NotesRule => story.(ruleNoted := true)
            case Breaks => story.(stopped := true)
            case Withdraws(outcome, body) => story.(decision := Some(outcome), decisionBody := body)
            case NotesOutcome => story.(decisionNoted := true)
            case _ => story)
    case OfRing(Finishes(k, failed)) => if k == id && story.failed.None? then story.(failed := Some(failed)) else story
    case _ => story
  }

  function StoryOf(events: seq<Event>, id: nat): Story {
    if events == [] then NOTHING_YET
    else StoryStep(StoryOf(events[..|events| - 1], id), events[|events| - 1], id)
  }

  /** How far the forwarding task has come, in terms of the story. */
  predicate FlowTells(flow: Flow, story: Story) {
    match flow
    case Forwarding => story == NOTHING_YET.(failed := story.failed)
    case RuleChosen(rule, body) =>
      story == NOTHING_YET.(rule := Some(rule), ruleBody := body, failed := story.failed)
    case RuleDone(body) =>
      && body == story.ruleBody && (story.ruleNoted <==> story.rule.Some?)
      && !story.stopped && story.decision.None? && !story.decisionBody && !story.decisionNoted
    case Stopped(body) =>
      && body == story.ruleBody && (story.ruleNoted <==> story.rule.Some?)
      && story.stopped && story.decision.None? && !story.decisionBody && !story.decisionNoted
    case Decided(outcome, body) =>
      && body == (story.ruleBody || story.decisionBody) && (story.ruleNoted <==> story.rule.Some?)
      && story.stopped && story.decision == Some(outcome) && !story.decisionNoted
    case Answering(body) => body == (story.ruleBody || story.decisionBody)
    case Served => true
  }

  /** What a capture shows. */
  predicate CaptureTells(c: Capture, story: Story) {
    && c.rule == (if story.ruleNoted then story.rule else None)
    && (story.ruleNoted ==> story.rule.Some?)
    && (story.decisionNoted ==> story.decision.Some?)
    && c.breakpoint == (if story.decisionNoted then story.decision.value
                        else if story.stopped then Waiting
                        else NoBreak)
    && c.phase == (match story.failed case None => Pending case Some(failed) => if failed then Errored else Complete)
  }

  /** The retained capture with this id. */
  function CaptureOf(traffic: seq<Capture>, id: nat): Option<Capture> {
    match IndexOf(traffic, id)
    case None => None
    case Some(i) => Some(traffic[i])
  }

  function FlowOf(flows: map<nat, Flow>, id: nat): Option<Flow> {
    if id in flows then Some(flows[id]) else None
  }

  /** What there is of one id fits its story; of an id not given out there is none. */
  predicate Tells(given: bool, flow: Option<Flow>, c: Option<Capture>, story: Story) {
    && (!given ==> story == NOTHING_YET)
    && (flow.Some? ==> FlowTells(flow.value, story))
    && (c.Some? ==> CaptureTells(c.value, story))
  }

  predicate IdTells(w: World, id: nat, story: Story) {
    Tells(id < w.ring.nextId, FlowOf(w.flows, id), CaptureOf(w.ring.traffic, id), story)
  }

  ghost predicate AllTell(events: seq<Event>, w: World) {
    forall id: nat :: IdTells(w, id, StoryOf(events, id))
  }

  lemma StoryGoesOn(events: seq<Event>, ev: Event, id: nat)
    ensures StoryOf(events + [ev], id) == StoryStep(StoryOf(events, id), ev, id)
  {
    assert (events + [ev])[..|events|] == events;
  }

  // ----- The ring, seen from one id -----

  function Changed(c: Option<Capture>, change: Capture -> Capture, here: bool): Option<Capture> {
    if here && c.Some? then Some(change(c.value)) else c
  }

  lemma UpdateSeen(ring: Ring, k: nat, change: Capture -> Capture, id: nat)
    requires Mild(change)
    ensures CaptureOf(Update(ring, k, change).traffic, id) == Changed(CaptureOf(ring.traffic, id), change, k == id)
    ensures Update(ring, k, change).nextId == ring.nextId
  {
    UpdateIsMild(ring, k, change);
  }

  /** A retained capture that others were forgotten around is the same. */
  lemma ForgettingSeen(before: Ring, after: Ring, gone: set<nat>, id: nat)
    requires Forgets(before, after, gone)
    ensures CaptureOf(after.traffic, id).Some? ==> CaptureOf(after.traffic, id) == CaptureOf(before.traffic, id)
  {
    assert Retains(after.traffic, id) ==> id !in gone && Same(before.traffic, after.traffic, id);
  }

  lemma StartSeen(ring: Ring, limit: nat, id: nat)
    requires RingInv(ring) && 0 < limit
    ensures var next := StartWith(ring, limit);
            && next.nextId == ring.nextId
            && (CaptureOf(next.traffic, id).Some? ==> CaptureOf(next.traffic, id) == CaptureOf(ring.traffic, id))
  {
    StartForgets(ring, limit);
    ForgettingSeen(ring, StartWith(ring, limit), Oldest(ring.traffic, Excess(ring.traffic, limit)), id);
  }

  lemma NotYetRetained(ring: Ring, id: nat)
    requires Ordered(ring) && id >= ring.nextId
    ensures CaptureOf(ring.traffic, id).None?
  {
  }

  /** After an exchange began: the new capture is fresh, the others that are left are as they were. */
  lemma BeginSeen(ring: Ring, destination: DestinationClass, replayable: bool, id: nat)
    requires RingInv(ring)
    ensures var next := Begin(ring, destination, replayable); var c := CaptureOf(next.traffic, id);
            && next.nextId == ring.nextId + 1
            && (id < ring.nextId && c.Some? ==> c == CaptureOf(ring.traffic, id))
            && (id == ring.nextId && c.Some? ==> c.value == Capture(id, destination, Pending, NoBreak, None))
            && (id > ring.nextId ==> c.None?)
  {
    var next := Begin(ring, destination, replayable);
    BeginKeepsRing(ring, destination, replayable);
    BeginLasts(ring, destination, replayable);
    if id < ring.nextId {
      assert Retains(next.traffic, id) ==> Same(ring.traffic, next.traffic, id);
    } else if id == ring.nextId {
      UniqueIndex(next, |next.traffic| - 1);
    } else {
      NotYetRetained(next, id);
    }
  }

  // ----- Steps keep the story -----

  lemma FinishTells(given: bool, flow: Option<Flow>, c: Option<Capture>, k: nat, failed: bool, id: nat, story: Story)
    requires Tells(given, flow, c, story) && (k == id ==> given)
    ensures Tells(given, flow, Changed(c, Finished(failed), k == id), StoryStep(story, OfRing(Finishes(k, failed)), id))
  {
  }

  lemma FinishesTells(w: World, k: nat, failed: bool, id: nat, story: Story)
    requires k < w.ring.nextId && IdTells(w, id, story)
    ensures IdTells(RingAfter(w, Finishes(k, failed)), id, StoryStep(story, OfRing(Finishes(k, failed)), id))
  {
    UpdateSeen(w.ring, k, Finished(failed), id);
    FinishTells(id < w.ring.nextId, FlowOf(w.flows, id), CaptureOf(w.ring.traffic, id), k, failed, id, story);
  }

  lemma RingTells(w: World, ev: RingEvent, id: nat, story: Story)
    requires Inv(w) && RingPossible(w, ev) && IdTells(w, id, story)
    ensures IdTells(RingAfter(w, ev), id, StoryStep(story, OfRing(ev), id))
  {
    match ev
    case Begins(destination, replayable) => BeginSeen(w.ring, destination, replayable, id);
    case Starts(limit) => StartSeen(w.ring, limit, id);
    case Clears =>
    case Finishes(k, failed) => FinishesTells(w, k, failed, id, story);
  }

  /** What a flow step does to the captures. */
  function NoteOf(flow: Flow, ev: FlowEvent): Option<Capture -> Capture>
    requires ev.NotesRule? ==> flow.RuleChosen?
    requires ev.NotesOutcome? ==> flow.Decided?
  {
    match ev
    case NotesRule => Some(WithRule(flow.rule))
    case Breaks => Some((c: Capture) => c.(breakpoint := Waiting))
    case NotesOutcome => Some(WithOutcome(flow.outcome))
    case _ => None
  }

  lemma FlowSeen(w: World, k: nat, ev: FlowEvent, id: nat)
    requires FlowPossible(w, k, ev) && k in w.flows
    ensures var after := FlowAfter(w, k, ev); var note := NoteOf(w.flows[k], ev);
            && after.ring.nextId == w.ring.nextId
            && CaptureOf(after.ring.traffic, id)
               == (if note.Some? then Changed(CaptureOf(w.ring.traffic, id), note.value, k == id)
                   else CaptureOf(w.ring.traffic, id))
            && (k != id ==> FlowOf(after.flows, id) == FlowOf(w.flows, id))
  {
    match ev
    case NotesRule => UpdateSeen(w.ring, k, WithRule(w.flows[k].rule), id);
    case Breaks => UpdateSeen(w.ring, k, (c: Capture) => c.(breakpoint := Waiting), id);
    case NotesOutcome => UpdateSeen(w.ring, k, WithOutcome(w.flows[k].outcome), id);
    case _ => assert FlowAfter(w, k, ev).ring.traffic == w.ring.traffic;
  }

  /** One flow step, seen from its own id. */
  lemma OwnStepTells(w: World, id: nat, ev: FlowEvent, c: Option<Capture>, story: Story)
    requires FlowPossible(w, id, ev) && id in w.flows
    requires Tells(true, Some(w.flows[id]), c, story)
    ensures var note, next := NoteOf(w.flows[id], ev), StoryStep(story, OfFlow(id, ev), id);
            var noted := if note.Some? then Changed(c, note.value, true) else c;
            Tells(true, FlowOf(FlowAfter(w, id, ev).flows, id), noted, next)
  {
  }

  lemma FlowTellsOn(w: World, k: nat, ev: FlowEvent, id: nat, story: Story)
    requires Inv(w) && FlowPossible(w, k, ev) && IdTells(w, id, story)
    ensures IdTells(FlowAfter(w, k, ev), id, StoryStep(story, OfFlow(k, ev), id))
  {
    if k !in w.flows {
      assert ev.Resolved? && FlowAfter(w, k, ev).ring.traffic == w.ring.traffic;
    } else {
      FlowSeen(w, k, ev, id);
      if k == id {
        OwnStepTells(w, id, ev, CaptureOf(w.ring.traffic, id), story);
      }
    }
  }

  lemma OthersTell(w: World, ev: Event, id: nat, story: Story)
    requires Inv(w) && Possible(w, ev) && (ev.OfRecord? || ev.OfCopy?) && IdTells(w, id, story)
    ensures IdTells(After(w, ev), id, story)
  {
    var after := After(w, ev);
    assert after.ring.traffic == w.ring.traffic && after.ring.nextId == w.ring.nextId;
    assert FlowOf(after.flows, id) == FlowOf(w.flows, id) || FlowOf(after.flows, id) == Some(Served);
  }

  lemma StepTells(events: seq<Event>, w: World, ev: Event)
    requires Inv(w) && Possible(w, ev) && AllTell(events, w)
    ensures AllTell(events + [ev], After(w, ev))
  {
    forall id: nat
      ensures IdTells(After(w, ev), id, StoryOf(events + [ev], id))
    {
      var story := StoryOf(events, id);
      StoryGoesOn(events, ev, id);
      assert IdTells(w, id, story);
      match ev
      case OfRing(r) => RingTells(w, r, id, story);
      case OfFlow(k, f) => FlowTellsOn(w, k, f, id, story);
      case _ => OthersTell(w, ev, id, story);
    }
  }

  lemma {:induction false} RunTells(events: seq<Event>)
    requires Run(NEW, events).Some?
    ensures AllTell(events, Run(NEW, events).value)
  {
    if events != [] {
      var front, last := events[..|events| - 1], events[|events| - 1];
      RunTells(front);
      RunKeepsInv(front);
      StepTells(front, Run(NEW, front).value, last);
      assert front + [last] == events;
    }
  }

  /**
    After any run a retained capture shows the rule that was chosen and noted for it, its breakpoint as it
    was stopped or decided, and the first end that was reported.
   */
  lemma CaptureShowsItsStory(events: seq<Event>, id: nat)
    requires Run(NEW, events).Some?
    ensures var traffic := Run(NEW, events).value.ring.traffic;
            CaptureOf(traffic, id).Some? ==> CaptureTells(CaptureOf(traffic, id).value, StoryOf(events, id))
  {
    RunTells(events);
    assert IdTells(Run(NEW, events).value, id, StoryOf(events, id));
  }

  /** After any run a replacement can be stored, and the response not recorded, exactly as rule and decision say. */
  lemma ReplacementIsFromRuleOrDecision(events: seq<Event>, id: nat)
    requires Run(NEW, events).Some?
    ensures var w, story := Run(NEW, events).value, StoryOf(events, id);
            && (Possible(w, OfRecord(id, Replaces)) ==> story.ruleBody || story.decisionBody)
            && (Possible(w, OfRecord(id, RecordBegins)) ==> !story.ruleBody && !story.decisionBody)
  {
    RunTells(events);
    assert IdTells(Run(NEW, events).value, id, StoryOf(events, id));
  }

  // ----- A stop is resolved once -----

  /** The exchange was stopped and is not stopped any more, nor ever again. */
  ghost predicate WentOn(w: World, id: nat) {
    && id < w.ring.nextId && id !in w.ring.breakpoints
    && (id in w.flows ==>
          w.flows[id].Stopped? || w.flows[id].Decided? || w.flows[id].Answering? || w.flows[id] == Served)
  }

  lemma ResolvedGoesOn(w: World, id: nat)
    requires Inv(w) && FlowPossible(w, id, Resolved)
    ensures WentOn(FlowAfter(w, id, Resolved), id)
  {
    assert Retains(w.ring.traffic, id);
    assert FlowAfter(w, id, Resolved).ring == w.ring.(breakpoints := w.ring.breakpoints - {id});
    RetainedIsGiven(w.ring, id);
  }

  lemma RetainedIsGiven(ring: Ring, id: nat)
    requires Ordered(ring) && Retains(ring.traffic, id)
    ensures id < ring.nextId
  {
  }

  lemma RingGoesOn(w: World, ev: RingEvent, id: nat)
    requires Inv(w) && RingPossible(w, ev) && WentOn(w, id)
    ensures WentOn(RingAfter(w, ev), id)
  {
    match ev
    case Begins(destination, replayable) =>
      BeginLasts(w.ring, destination, replayable);
      RoomIsMade(w.ring);
    case Starts(limit) => StartForgets(w.ring, limit);
    case Clears =>
    case Finishes(k, failed) =>
  }

  lemma FlowGoesOn(w: World, k: nat, ev: FlowEvent, id: nat)
    requires FlowPossible(w, k, ev) && WentOn(w, id)
    ensures WentOn(FlowAfter(w, k, ev), id)
  {
  }

  lemma OthersGoOn(w: World, ev: Event, id: nat)
    requires Possible(w, ev) && (ev.OfRecord? || ev.OfCopy?) && WentOn(w, id)
    ensures WentOn(After(w, ev), id)
  {
  }

  lemma StepGoesOn(w: World, ev: Event, id: nat)
    requires Inv(w) && Possible(w, ev) && WentOn(w, id)
    ensures WentOn(After(w, ev), id)
  {
    match ev
    case OfRing(r) => RingGoesOn(w, r, id);
    case OfFlow(k, f) => FlowGoesOn(w, k, f, id);
    case _ => OthersGoOn(w, ev, id);
  }

  lemma {:induction false} ResolvedIsOver(events: seq<Event>, id: nat)
    requires Run(NEW, events).Some? && OfFlow(id, Resolved) in events
    ensures WentOn(Run(NEW, events).value, id)
  {
    var front, last := events[..|events| - 1], events[|events| - 1];
    var before := Run(NEW, front).value;
    RunKeepsInv(front);
    if last == OfFlow(id, Resolved) {
      ResolvedGoesOn(before, id);
    } else {
      assert events == front + [last];
      ResolvedIsOver(front, id);
      StepGoesOn(before, last, id);
    }
  }

  lemma NotResolvedAgain(events: seq<Event>, ev: Event, id: nat)
    requires Run(NEW, events + [ev]).Some? && OfFlow(id, Resolved) in events
    ensures ev != OfFlow(id, Resolved)
  {
    assert (events + [ev])[..|events|] == events;
    ResolvedIsOver(events, id);
  }

  lemma MoreEvents(first: seq<Event>, more: seq<Event>)
    requires more != []
    ensures var front, last := more[..|more| - 1], more[|more| - 1];
            more == front + [last] && first + more == first + front + [last]
  {
  }

  lemma EarlierRuns(events: seq<Event>, ev: Event)
    requires Run(NEW, events + [ev]).Some?
    ensures Run(NEW, events).Some?
  {
    assert (events + [ev])[..|events|] == events;
  }

  lemma {:induction false} NeverResolvedAgain(first: seq<Event>, more: seq<Event>, id: nat)
    requires Run(NEW, first + more).Some? && OfFlow(id, Resolved) in first
    ensures OfFlow(id, Resolved) !in more
    decreases |more|
  {
    if more != [] {
      var front, last := more[..|more| - 1], more[|more| - 1];
      MoreEvents(first, more);
      EarlierRuns(first + front, last);
      NeverResolvedAgain(first, front, id);
      NotResolvedAgain(first + front, last, id);
    }
  }

  /** In every run an exchange's breakpoint is resolved at most once, and nothing hangs on it from then on. */
  lemma BreakpointIsResolvedOnce(first: seq<Event>, more: seq<Event>, id: nat)
    requires Run(NEW, first + more).Some? && OfFlow(id, Resolved) in first
    ensures OfFlow(id, Resolved) !in more && id !in Run(NEW, first + more).value.ring.breakpoints
  {
    NeverResolvedAgain(first, more, id);
    ResolvedIsOver(first + more, id);
  }

  // ----- A task that was aborted -----

  ghost predicate IsAborted(w: World, id: nat) {
    id < w.ring.nextId && id !in w.flows
  }

  lemma StepStaysAborted(w: World, ev: Event, id: nat)
    requires Inv(w) && Possible(w, ev) && IsAborted(w, id)
    ensures IsAborted(After(w, ev), id)
  {
    StepLasts(w, ev);
    match ev
    case OfFlow(k, f) => assert id in FlowAfter(w, k, f).flows ==> id == k && f.Resolved?;
    case _ =>
  }

  lemma {:induction false} AbortedStaysAborted(first: seq<Event>, more: seq<Event>, id: nat)
    requires Run(NEW, first + [OfFlow(id, Aborts)] + more).Some?
    ensures IsAborted(Run(NEW, first + [OfFlow(id, Aborts)] + more).value, id)
    decreases |more|
  {
    var upTo := first + [OfFlow(id, Aborts)];
    if more == [] {
      assert upTo + more == upTo && upTo[..|upTo| - 1] == first;
      RunKeepsInv(first);
    } else {
      var front, last := more[..|more| - 1], more[|more| - 1];
      MoreEvents(upTo, more);
      EarlierRuns(upTo + front, last);
      AbortedStaysAborted(first, front, id);
      RunKeepsInv(upTo + front);
      assert (upTo + front + [last])[..|upTo + front|] == upTo + front;
      StepStaysAborted(Run(NEW, upTo + front).value, last, id);
    }
  }

  /** A forwarding task that was aborted rewrites nothing, stops nowhere and stores nothing in any continuation. */
  lemma AbortedDoesNothing(first: seq<Event>, more: seq<Event>, id: nat, flow: FlowEvent, record: RecordEvent)
    requires Run(NEW, first + [OfFlow(id, Aborts)] + more).Some?
    ensures var w := Run(NEW, first + [OfFlow(id, Aborts)] + more).value;
            && (Possible(w, OfFlow(id, flow)) ==> flow == Resolved)
            && (Possible(w, OfRecord(id, record)) ==> record != Replaces && record != RecordBegins)
  {
    AbortedStaysAborted(first, more, id);
  }
}
