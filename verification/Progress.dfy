/**
  Backpressure without deadlock: a poll that waits, for room in the pipe or for the worker's end, waits
  for steps of the worker that are enabled and soon run out.
 */
module Progress {
  import opened Bytes
  import opened Recording

  /** A poll can do nothing but wait: the pipe is full, or the input is closed and the worker still runs. */
  predicate Waits(e: Entry) {
    Polling(e) && e.rec.worker != Finished && (PipeIsFull(e) || e.tee.tap == Open(false))
  }

  predicate PipeIsFull(e: Entry) {
    && e.tee.tap == Open(true) && !e.acct.cancelled && |e.tee.pipe| == PAGE_SIZE
    && Unteed(e.body.pending, e.body.written) != []
  }

  /** A step of the worker in which nothing goes wrong from outside, or the end of a critical section. */
  predicate Proceeds(ev: Event) {
    match ev
    case Worker(step) => step != Dies && step != TakeFails && step != WriteFails
    case Store(step) => step == SectionEnds
    case _ => false
  }

  /** How many such steps there can be, at most, before more input arrives. */
  function Due(e: Entry): nat {
    8 * |e.tee.pipe| + (if e.acct.section.Free? then 0 else 1)
    + match e.rec.worker
      case Idle => 2
      case Holding(chunk) => |chunk| + if e.acct.section.Adding? then 6 else 8
      case Writing(rest, _) => |rest| + 3
      case Ending => 1
      case Finished => 0
  }

  /** While a poll waits somebody can take a step that proceeds. */
  lemma WaitingIsForSomebody(e: Entry, used: int) returns (ev: Event)
    requires Sound(e) && Waits(e)
    ensures Proceeds(ev) && Enabled(e, used, ev)
  {
    if e.acct.section.Removing? {
      return Store(SectionEnds);
    }
    match e.rec.worker
    case Idle =>
      if e.acct.cancelled {
        ev := Worker(SeesCancel);
      } else if e.codec == Unsupported {
        ev := Worker(Unable);
      } else if e.tee.pipe != [] {
        assert e.tee.pipe[..|e.tee.pipe|] == e.tee.pipe;
        ev := Worker(Take(e.tee.pipe, |e.tee.pipe|));
      } else {
        ev := Worker(TakesEnd);
      }
    case Holding(chunk) =>
      if e.acct.section.Adding? {
        ev := Worker(Reserved);
      } else if e.acct.cancelled {
        ev := Worker(Refused);
      } else if used + |chunk| <= e.limit {
        ev := Worker(Reserve);
      } else {
        ev := Worker(OverBudget);
      }
    case Writing(rest, _) =>
      ev := if rest == [] then Worker(Flushed) else Worker(Write(|rest|));
    case Ending =>
      ev := Worker(Completes);
  }

  /** Every such step of an identity recording leaves fewer of them to come. */
  lemma StepsRunOut(e: Entry, used: int, ev: Event)
    requires Sound(e) && e.codec == Identity && Proceeds(ev) && Enabled(e, used, ev)
    ensures Due(Next(e, used, ev).0) < Due(e)
  {
  }

  lemma OneStepOn(start: Entry, usedAtStart: int, done: seq<Event>, e: Entry, used: int)
    returns (ev: Event, e': Entry, used': int)
    requires LocalRun(start, usedAtStart, done) == Some((e, used))
    requires Sound(e) && e.codec == Identity && Waits(e)
    ensures Proceeds(ev) && LocalRun(start, usedAtStart, done + [ev]) == Some((e', used'))
    ensures Sound(e') && e'.codec == Identity && Due(e') < Due(e)
  {
    ev := WaitingIsForSomebody(e, used);
    var next := Next(e, used, ev);
    e', used' := next.0, next.1;
    StepsRunOut(e, used, ev);
    StepKeepsSound(e, used, ev);
    NextKeepsIdentity(e, used, ev);
    LocalRunStep(start, usedAtStart, done, e, used, ev);
  }

  ghost predicate AllProceed(steps: seq<Event>) {
    forall i :: 0 <= i < |steps| ==> Proceeds(steps[i])
  }

  lemma OneMore(done: seq<Event>, ev: Event, more: seq<Event>)
    requires Proceeds(ev) && AllProceed(more)
    ensures AllProceed([ev] + more) && done + ([ev] + more) == done + [ev] + more
  {
  }

  /** Where at most `n` steps that proceed lead to, if no poll waits there. */
  ghost predicate EndsWaiting(start: Entry, used: int, done: seq<Event>, steps: seq<Event>, n: nat) {
    && |steps| <= n && AllProceed(steps)
    && LocalRun(start, used, done + steps).Some? && !Waits(LocalRun(start, used, done + steps).value.0)
  }

  lemma NoMoreSteps(start: Entry, usedAtStart: int, done: seq<Event>, e: Entry, used: int)
    requires LocalRun(start, usedAtStart, done) == Some((e, used)) && !Waits(e)
    ensures EndsWaiting(start, usedAtStart, done, [], 0)
  {
    assert done + [] == done;
  }

  /** From wherever a poll waits, at most `Due` steps of others lead to where it does not wait any more. */
  lemma {:induction false} WaitingEnds(start: Entry, usedAtStart: int, done: seq<Event>, e: Entry, used: int)
    returns (steps: seq<Event>)
    requires LocalRun(start, usedAtStart, done) == Some((e, used))
    requires Sound(e) && e.codec == Identity
    ensures EndsWaiting(start, usedAtStart, done, steps, Due(e))
    decreases Due(e)
  {
    if Waits(e) {
      var ev, e', used' := OneStepOn(start, usedAtStart, done, e, used);
      var more := WaitingEnds(start, usedAtStart, done + [ev], e', used');
      OneMore(done, ev, more);
      steps := [ev] + more;
    } else {
      NoMoreSteps(start, usedAtStart, done, e, used);
      steps := [];
    }
  }
}
