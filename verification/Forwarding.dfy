/**
  `RecordedBody::poll_frame` as the code runs it: one call, from the poll of the
  inner body to the frame it hands on. Every assignment it makes is a step of
  the recording protocol, so what the protocol keeps holds for the code.
 */
module Forwarding {
  import opened Bytes
  import opened Recording

  /** What polling the inner body gives. */
  datatype Inner = NotReady | Delivers(frame: Frame) | Breaks | Ends

  /** What one call answers. */
  datatype Poll = Pending | Yields(frame: Frame) | YieldsError | YieldsEnd

  /** How one turn of the tee loop ends. */
  datatype Turn = Pushed | GaveUp | Full

  class RecordedBody {
    const key: Key
    const limit: nat
    const codec: Codec
    var body: Stream
    var tee: Tee
    var rec: Recorder
    var acct: Account
    var held: Holders
    var view: JsonView
    /** The shared counter, which forwarding never touches. */
    ghost const used: int

    function State(): Entry
      reads this
    {
      Entry(key, limit, codec, body, tee, rec, acct, held, view)
    }

    /** Nobody is inside a critical section, and the consumer may still poll. */
    ghost predicate Ready()
      reads this
    {
      Sound(State()) && Polling(State()) && acct.section.Free?
    }

    /** Bytes of the frame in hand wait for a pipe that takes none now. */
    predicate PipeTakesNone(room: nat -> nat)
      reads this
    {
      && Unteed(body.pending, body.written) != [] && tee.tap == Open(true)
      && !acct.cancelled && rec.worker != Finished
      && (|tee.pipe| == PAGE_SIZE || room(body.written) == 0)
    }

    /** The input is closed and the worker is not done. */
    predicate WorkerIsBusy()
      reads this
    {
      tee.tap == Open(false) && rec.worker != Finished
    }

    /** From `start`, steps of this body alone lead to where it stands. */
    ghost predicate Reached(start: Entry, steps: seq<Event>)
      reads this
    {
      && LocalRun(start, used, steps) == Some((State(), used))
      && forall i :: 0 <= i < |steps| ==> steps[i].Body?
    }

    constructor (e: Entry, ghost counter: int)
      ensures State() == e && used == counter
    {
      used := counter;
      key, limit, codec := e.key, e.limit, e.codec;
      body, tee, rec, acct, held, view := e.body, e.tee, e.rec, e.acct, e.held, e.view;
    }

    method Do(ev: BodyEvent, ghost start: Entry, ghost done: seq<Event>) returns (ghost steps: seq<Event>)
      requires Sound(State()) && BodyEnabled(State(), ev)
      requires Reached(start, done)
      modifies this`body, this`tee, this`acct
      ensures State() == BodyNext(old(State()), ev) && Sound(State())
      ensures Reached(start, steps)
    {
      BodyKeepsSound(State(), ev);
      var next := BodyNext(State(), ev);
      body, tee, acct := next.body, next.tee, next.acct;
      steps := done + [Body(ev)];
      LocalRunStep(start, used, done, old(State()), used, Body(ev));
    }

    /** `tap.take()`: the drop settles the label, then the pipe closes. */
    method TakeTap(why: BodyEvent, ghost start: Entry, ghost done: seq<Event>) returns (ghost steps: seq<Event>)
      requires Sound(State()) && tee.tap.Open? && BodyEnabled(State(), why) && TakesTap(why)
      requires Reached(start, done)
      modifies this`body, this`tee, this`acct
      ensures Sound(State()) && Reached(start, steps)
      ensures tee == old(tee).(tap := Gone)
      ensures body == old(body).(failed := old(body).failed || why == InnerFails,
                                 closed := old(body).closed || why == BodyDropped)
      ensures acct.section == old(acct.section)
    {
      steps := Do(why, start, done);
      steps := Do(TapGone, start, steps);
    }

    /** The inner body is over and all of it is teed: close the pipe and wait for the worker. */
    method JoinWorker(ghost start: Entry, ghost done: seq<Event>)
      returns (joined: bool, ghost steps: seq<Event>)
      requires Ready() && body.ended && Unteed(body.pending, body.written) == []
      requires Reached(start, done)
      modifies this`body, this`tee, this`acct
      ensures Ready() && Reached(start, steps)
      ensures body == old(body)
      ensures joined ==> tee.tap == Gone
      ensures !joined ==> tee.tap == Open(false) && rec.worker != Finished
    {
      steps := done;
      if tee.tap.Open? {
        if tee.tap == Open(true) {
          steps := Do(CloseInput, start, steps);
        }
        if rec.worker != Finished {
          return false, steps;
        }
        steps := TakeTap(WorkerJoined, start, steps);
      }
      joined := true;
    }

    /** There is no use in teeing any more: the entry is cancelled or the worker has stopped. */
    method GiveUpTap(ghost start: Entry, ghost done: seq<Event>) returns (ghost steps: seq<Event>)
      requires Ready() && Unteed(body.pending, body.written) != [] && tee.tap.Open?
      requires acct.cancelled || rec.worker == Finished
      requires Reached(start, done)
      modifies this`body, this`tee, this`acct
      ensures Ready() && Reached(start, steps) && body == old(body) && tee.tap == Gone
    {
      steps := TakeTap(if acct.cancelled then TeeSeesCancel else TeeBroken, start, done);
    }

    /** One turn of the tee loop with bytes left: push some into the pipe, give up the tap, or find it full. */
    method TeeSome(room: nat -> nat, ghost start: Entry, ghost done: seq<Event>)
      returns (turn: Turn, ghost steps: seq<Event>)
      requires Ready() && Unteed(body.pending, body.written) != []
      requires Reached(start, done)
      modifies this`body, this`tee, this`acct
      ensures Ready() && Reached(start, steps)
      ensures body == old(body).(written := body.written)
      ensures turn == GaveUp ==> tee.tap == Gone
      ensures turn == Full ==> PipeTakesNone(room)
      ensures turn == Pushed ==>
                |Unteed(body.pending, body.written)| < |old(Unteed(body.pending, body.written))|
    {
      steps := done;
      if tee.tap == Gone {
        return GaveUp, steps;
      }
      if acct.cancelled || rec.worker == Finished {
        steps := GiveUpTap(start, steps);
        return GaveUp, steps;
      }
      var count := Min(Min(room(body.written), PAGE_SIZE - |tee.pipe|), |Unteed(body.pending, body.written)|);
      if count == 0 {
        return Full, steps;
      }
      ghost var left := Unteed(body.pending, body.written);
      steps := Do(TeeBytes(count), start, steps);
      assert Unteed(body.pending, body.written) == left[count..];
      turn := Pushed;
    }

    /** The tee loop: push the pending frame until it is through, the tap is gone, or the pipe is full. */
    method TeePending(room: nat -> nat, ghost start: Entry, ghost done: seq<Event>)
      returns (through: bool, ghost steps: seq<Event>)
      requires Ready() && body.pending.Some?
      requires Reached(start, done)
      modifies this`body, this`tee, this`acct
      ensures Ready() && Reached(start, steps)
      ensures body == old(body).(written := body.written)
      ensures through ==> tee.tap == Gone || Unteed(body.pending, body.written) == []
      ensures !through ==> PipeTakesNone(room)
    {
      steps := done;
      while Unteed(body.pending, body.written) != []
        invariant Ready() && Reached(start, steps)
        invariant body == old(body).(written := body.written)
        decreases |Unteed(body.pending, body.written)|
      {
        var turn;
        turn, steps := TeeSome(room, start, steps);
        if turn != Pushed {
          return turn == GaveUp, steps;
        }
      }
      through := true;
    }

    /** The inner body broke: the tap goes and the error is passed on. */
    method BreakOff(ghost start: Entry) returns (ghost steps: seq<Event>)
      requires Ready() && start == State() && body.pending.None? && !body.ended
      modifies this`body, this`tee, this`acct
      ensures Sound(State()) && Reached(start, steps)
      ensures body == old(body).(failed := true) && !tee.tap.Open?
    {
      steps := [];
      if tee.tap.Open? {
        steps := TakeTap(InnerFails, start, steps);
      } else {
        steps := Do(InnerFails, start, steps);
      }
    }

    /** The inner body is over and nothing is in hand: join the worker, then say so. */
    method EndPoll(ghost start: Entry) returns (answer: Poll, ghost steps: seq<Event>)
      requires Ready() && start == State() && body.pending.None?
      modifies this`body, this`tee, this`acct
      ensures Sound(State()) && Reached(start, steps)
      ensures answer == if WorkerIsBusy() then Pending else YieldsEnd
      ensures body == old(body).(ended := true, closed := answer == YieldsEnd)
      ensures answer == YieldsEnd ==> tee.tap == Gone && body.yielded == body.polled
    {
      steps := [];
      if !body.ended {
        steps := Do(InnerEnds, start, steps);
      }
      var joined;
      joined, steps := JoinWorker(start, steps);
      if !joined {
        return Pending, steps;
      }
      steps := Do(YieldEnd, start, steps);
      answer := YieldsEnd;
    }

    /** The first half of a poll, without a frame in hand; `answer` is set when the poll ends there. */
    method PollInner(inner: Inner, ghost start: Entry) returns (answer: Option<Poll>, ghost steps: seq<Event>)
      requires Ready() && start == State() && body.pending.None?
      requires body.ended ==> inner == Ends
      modifies this`body, this`tee, this`acct
      ensures Sound(State()) && Reached(start, steps)
      ensures answer == match inner
                        case NotReady => Some(Pending)
                        case Delivers(_) => None
                        case Breaks => Some(YieldsError)
                        case Ends => Some(if WorkerIsBusy() then Pending else YieldsEnd)
      ensures answer.None? ==>
                Ready() && body.pending.Some? && inner == Delivers(body.pending.value) && body.ended == old(body.ended)
      ensures inner == NotReady ==> body == old(body) && tee == old(tee)
      ensures body.yielded == old(body.yielded)
      ensures body.closed <==> answer == Some(YieldsEnd)
      ensures body.failed <==> answer == Some(YieldsError)
      ensures answer == Some(YieldsError) ==> !tee.tap.Open?
      ensures answer == Some(YieldsEnd) ==> body.ended && tee.tap == Gone && body.yielded == body.polled
    {
      steps := [];
      match inner {
        case NotReady =>
          answer := Some(Pending);
        case Delivers(frame) =>
          steps := Do(InnerFrame(frame), start, steps);
          answer := None;
        case Breaks =>
          steps := BreakOff(start);
          answer := Some(YieldsError);
        case Ends =>
          var end;
          end, steps := EndPoll(start);
          answer := Some(end);
      }
    }

    /** Hand on the frame in hand, which is teed or has no tap to go to. */
    method HandOn(ghost start: Entry, ghost done: seq<Event>) returns (frame: Frame, ghost steps: seq<Event>)
      requires Ready() && body.pending.Some? && Reached(start, done)
      requires tee.tap == Gone || (Unteed(body.pending, body.written) == [] && !body.ended)
      modifies this`body, this`tee, this`acct
      ensures Sound(State()) && Reached(start, steps)
      ensures frame == old(body.pending.value) && tee == old(tee)
      ensures body == old(body).(yielded := old(body.yielded) + [frame], pending := None)
      ensures tee.tap == Gone || tee.teed == DataBytes(body.yielded)
    {
      frame := body.pending.value;
      ReleaseMeansTeed(State(), used);
      steps := Do(Release, start, done);
    }

    /** The frame in hand is teed. If the inner body says it is over, the recording must end before it is handed on. */
    method EndIfLast(last: bool, ghost start: Entry, ghost done: seq<Event>)
      returns (ended: bool, ghost steps: seq<Event>)
      requires Ready() && body.pending.Some? && Reached(start, done)
      requires tee.tap == Gone || Unteed(body.pending, body.written) == []
      modifies this`body, this`tee, this`acct
      ensures Ready() && Reached(start, steps)
      ensures body == old(body).(ended := old(body).ended || last)
      ensures ended <==> !WorkerIsBusy()
      ensures ended ==> tee.tap == Gone || (Unteed(body.pending, body.written) == [] && !body.ended)
    {
      steps := done;
      if last && !body.ended {
        steps := Do(InnerEnds, start, steps);
      }
      ended := true;
      if body.ended && tee.tap.Open? {
        ended, steps := JoinWorker(start, steps);
      }
    }

    /** The second half: tee the frame in hand, finish the recording if it was the last, hand it on. */
    method PassOn(last: bool, room: nat -> nat, ghost start: Entry, ghost done: seq<Event>)
      returns (r: Poll, ghost steps: seq<Event>)
      requires Ready() && body.pending.Some?
      requires Reached(start, done)
      modifies this`body, this`tee, this`acct
      ensures Sound(State()) && Reached(start, steps)
      ensures r == if PipeTakesNone(room) || WorkerIsBusy() then Pending else Yields(old(body.pending.value))
      ensures !body.closed && !body.failed
      ensures r.Pending? ==> body.yielded == old(body.yielded) && body.pending == old(body.pending)
      ensures r.Yields? ==> body.yielded == old(body.yielded) + [r.frame] && body.pending.None?
      ensures r.Yields? ==> tee.tap == Gone || tee.teed == DataBytes(body.yielded)
      ensures r.Yields? && (body.ended || last) ==> tee.tap == Gone
    {
      var through;
      through, steps := TeePending(room, start, done);
      if !through {
        return Pending, steps;
      }
      var ended;
      ended, steps := EndIfLast(last, start, steps);
      if !ended {
        return Pending, steps;
      }
      var frame;
      frame, steps := HandOn(start, steps);
      r := Yields(frame);
    }

    /**
      One poll. `inner` is what the inner body gives if asked, `last` whether it then says it is over,
      `room` what the pipe is willing to take at each offset. The answer is pending exactly when the inner
      body was asked and is not ready, the pipe takes none of the bytes left, or the worker is still busy
      behind a closed input.
     */
    method PollFrame(inner: Inner, last: bool, room: nat -> nat) returns (r: Poll, ghost steps: seq<Event>)
      requires Ready()
      requires body.ended && body.pending.None? ==> inner == Ends
      modifies this`body, this`tee, this`acct
      ensures Sound(State()) && Reached(old(State()), steps)
      ensures r.Pending? <==>
                || (old(body.pending).None? && inner == NotReady)
                || (&& Unteed(body.pending, body.written) != [] && tee.tap == Open(true)
                    && !acct.cancelled && rec.worker != Finished
                    && (|tee.pipe| == PAGE_SIZE || room(body.written) == 0))
                || (tee.tap == Open(false) && rec.worker != Finished)
      ensures !r.Pending? ==>
                r == match old(body.pending)
                     case Some(frame) => Yields(frame)
                     case None => match inner
                                  case Delivers(frame) => Yields(frame)
                                  case Breaks => YieldsError
                                  case _ => YieldsEnd
      ensures r.Yields? ==> body.yielded == old(body.yielded) + [r.frame] && body.pending.None?
      ensures r.Yields? ==> tee.tap == Gone || tee.teed == DataBytes(body.yielded)
      ensures r.Yields? && (body.ended || last) ==> tee.tap == Gone
      ensures !r.Yields? ==> body.yielded == old(body.yielded)
      ensures body.closed <==> r.YieldsEnd?
      ensures body.failed <==> r.YieldsError?
      ensures r.YieldsError? ==> !tee.tap.Open?
      ensures r.YieldsEnd? ==> body.ended && tee.tap == Gone && body.yielded == body.polled
    {
      ghost var start := State();
      steps := [];
      if body.pending.None? {
        var answer;
        answer, steps := PollInner(inner, start);
        if answer.Some? {
          return answer.value, steps;
        }
      }
      r, steps := PassOn(last, room, start, steps);
    }
  }
}
