/** The label of a recording: which step gives which, for every codec, and what it says about the whole run. */
module Labels {
  import opened Bytes
  import opened Recording
  import opened Budget

  /** The stream, the budget, the disk or the consumer is lost, or the tap goes before the worker has finished. */
  predicate Interrupts(ev: Event) {
    match ev
    case Worker(step) => step == OverBudget || step == WriteFails || step == TakeFails
    case Body(step) =>
      || step == InnerFails || step == TeeSeesCancel || step == TeeBroken
      || step == WorkerJoined || step == BodyDropped
    case _ => false
  }

  /** The label an open recording has after a step, and whether it is still open. */
  function LabelAfter(ev: Event): Label {
    if ev == Worker(Completes) then Complete
    else if ev == Worker(Unable) then Unavailable
    else if Interrupts(ev) then Partial
    else Label.Recording
  }

  lemma BodyGivesLabel(e: Entry, ev: BodyEvent)
    requires BodyEnabled(e, ev) && (e.acct.outcome == Label.Recording ==> e.tee.tap.Open?)
    ensures BodyNext(e, ev).acct.outcome
         == if e.acct.outcome == Label.Recording then LabelAfter(Body(ev)) else e.acct.outcome
  {
  }

  lemma WorkerGivesLabel(e: Entry, used: int, ev: WorkerEvent)
    requires Settled(e) && WorkerEnabled(e, used, ev)
    ensures WorkerNext(e, used, ev).0.acct.outcome
         == if e.acct.outcome == Label.Recording then LabelAfter(Worker(ev)) else e.acct.outcome
  {
  }

  /** Every step, for every codec: an open label becomes exactly this one, a settled label stays. */
  lemma StepGivesLabel(e: Entry, used: int, ev: Event)
    requires Sound(e) && Enabled(e, used, ev)
    ensures Next(e, used, ev).0.acct.outcome
         == if e.acct.outcome == Label.Recording then LabelAfter(ev) else e.acct.outcome
  {
    match ev
    case Body(b) => BodyGivesLabel(e, b);
    case Worker(w) => WorkerGivesLabel(e, used, w);
    case Store(_) =>
    case Layout(_) =>
  }

  lemma WorkerReachesItsEnd(e: Entry, used: int, ev: WorkerEvent)
    requires WorkerEnabled(e, used, ev) && e.rec.worker != Ending
    ensures WorkerNext(e, used, ev).0.rec.worker == Ending <==> ev == TakesEnd
  {
  }

  /** A label becomes complete only when the worker completes, and the worker only gets there by taking the end. */
  lemma OnlyTheEndCompletes(e: Entry, used: int, ev: Event)
    requires Sound(e) && Enabled(e, used, ev)
    ensures e.acct.outcome != Complete && Next(e, used, ev).0.acct.outcome == Complete ==>
              ev == Worker(Completes) && e.rec.worker == Ending
    ensures e.rec.worker != Ending && Next(e, used, ev).0.rec.worker == Ending ==> ev == Worker(TakesEnd)
  {
    StepGivesLabel(e, used, ev);
    if ev.Worker? && e.rec.worker != Ending {
      WorkerReachesItsEnd(e, used, ev.step);
    }
  }

  // ----- Encodings that are not supported -----

  /** Of an unsupported encoding nothing is read, and it is never called complete. No other is called unavailable. */
  ghost predicate Unread(e: Entry) {
    && (e.codec == Unsupported ==>
          && (e.rec.worker == Idle || e.rec.worker == Finished)
          && e.rec.taken == [] && e.rec.disk == [] && e.rec.total == 0 && e.acct.outcome != Complete)
    && (e.acct.outcome == Unavailable ==> e.codec == Unsupported)
  }

  ghost predicate AllUnread(entries: seq<Entry>) {
    forall i :: 0 <= i < |entries| ==> Unread(entries[i])
  }

  lemma WorkerKeepsUnread(e: Entry, used: int, ev: WorkerEvent)
    requires Unread(e) && WorkerEnabled(e, used, ev)
    ensures Unread(WorkerNext(e, used, ev).0)
  {
  }

  lemma BodyKeepsUnread(e: Entry, ev: BodyEvent)
    requires Unread(e) && BodyEnabled(e, ev)
    ensures Unread(BodyNext(e, ev))
  {
  }

  lemma StepKeepsUnread(e: Entry, used: int, ev: Event)
    requires Unread(e) && Enabled(e, used, ev)
    ensures Unread(Next(e, used, ev).0)
  {
    match ev
    case Body(b) => BodyKeepsUnread(e, b);
    case Worker(w) => WorkerKeepsUnread(e, used, w);
    case Store(_) =>
    case Layout(_) =>
  }

  lemma LocalKeepsUnread(s: Sys, i: nat, step: Event)
    requires AllUnread(s.entries) && Possible(s, Local(i, step))
    ensures AllUnread(After(s, Local(i, step)).entries)
  {
    StepKeepsUnread(s.entries[i], s.used, step);
  }

  lemma RecordKeepsUnread(s: Sys, key: Key, limit: nat, codec: Codec, previous: Option<nat>)
    requires AllUnread(s.entries) && Possible(s, Record(key, limit, codec, previous))
    ensures AllUnread(After(s, Record(key, limit, codec, previous)).entries)
  {
  }

  lemma HandOverKeepsUnread(s: Sys, j: nat, key: Key, previous: Option<nat>)
    requires AllUnread(s.entries) && Possible(s, JobHandsOver(j, key, previous))
    ensures AllUnread(After(s, JobHandsOver(j, key, previous)).entries)
  {
    if previous.Some? {
      StepKeepsUnread(s.entries[previous.value], s.used, Store(Remove));
    }
  }

  lemma SysStepKeepsUnread(s: Sys, ev: SysEvent)
    requires AllUnread(s.entries) && Possible(s, ev)
    ensures AllUnread(After(s, ev).entries)
  {
    match ev
    case Local(i, step) => LocalKeepsUnread(s, i, step);
    case Record(key, limit, codec, previous) => RecordKeepsUnread(s, key, limit, codec, previous);
    case JobHandsOver(j, key, previous) => HandOverKeepsUnread(s, j, key, previous);
    case _ =>
  }

  lemma {:induction false} RunKeepsUnread(events: seq<SysEvent>)
    requires Run(EMPTY, events).Some?
    ensures AllUnread(Run(EMPTY, events).value.entries)
  {
    if events != [] {
      RunKeepsUnread(events[..|events| - 1]);
      SysStepKeepsUnread(Run(EMPTY, events[..|events| - 1]).value, events[|events| - 1]);
    }
  }

  /** After any run a recording of an unsupported encoding is empty and not complete; no other is unavailable. */
  lemma UnsupportedIsNeverComplete(events: seq<SysEvent>, i: nat)
    requires Run(EMPTY, events).Some? && i < |Run(EMPTY, events).value.entries|
    ensures var e := Run(EMPTY, events).value.entries[i];
            && (e.codec == Unsupported ==> e.acct.outcome != Complete && e.rec.disk == [] && e.rec.total == 0)
            && (e.acct.outcome == Unavailable ==> e.codec == Unsupported)
  {
    RunKeepsUnread(events);
  }

  /** Whatever step settles a label in a run, the label is the one that step gives, in every continuation. */
  lemma LabelIsForever(first: seq<SysEvent>, i: nat, step: Event, more: seq<SysEvent>)
    requires Run(EMPTY, first + [Local(i, step)] + more).Some?
    requires Run(EMPTY, first).Some? ==>
               var entries := Run(EMPTY, first).value.entries;
               i < |entries| && entries[i].acct.outcome == Label.Recording && LabelAfter(step) != Label.Recording
    ensures i < |Run(EMPTY, first + [Local(i, step)] + more).value.entries|
    ensures Run(EMPTY, first + [Local(i, step)] + more).value.entries[i].acct.outcome == LabelAfter(step)
  {
    var upTo := first + [Local(i, step)];
    RunContinues(upTo, more);
    RunSplits(first, Local(i, step));
    RunKeepsInv(first);
    StepGivesLabel(Run(EMPTY, first).value.entries[i], Run(EMPTY, first).value.used, step);
  }

  /** The first step of a worker that cannot read the encoding is the only one it takes undisturbed. */
  lemma UnsupportedBecomesUnavailable(e: Entry, used: int, ev: WorkerEvent)
    requires Sound(e) && e.codec == Unsupported && e.rec.worker == Idle
    requires e.acct.outcome == Label.Recording && !e.acct.cancelled
    requires WorkerEnabled(e, used, ev) && ev != TakeFails && ev != Dies
    ensures var e' := WorkerNext(e, used, ev).0;
            e'.acct.outcome == Unavailable && e'.rec.worker == Finished && e'.rec.disk == e.rec.disk
  {
  }
}
