/**
  The operations on one entry as the code runs them when nobody interferes:
  `Entry::cancel`, the worker's loop and the layout writer. Every assignment
  they make is a step of the recording protocol.
 */
module Operations {
  import opened Bytes
  import opened Recording

  /** Why a layout cannot be asked for. */
  datatype ViewError = NotComplete | AnalysisBusy

  lemma PartWritten(disk: seq<byte>, rest: seq<byte>, n: nat)
    requires n <= |rest|
    ensures disk <= disk + rest[..n] <= disk + rest
  {
  }

  class Cell {
    const key: Key
    const limit: nat
    const codec: Codec
    var body: Stream
    var tee: Tee
    var rec: Recorder
    var acct: Account
    var held: Holders
    var view: JsonView
    /** The shared counter. */
    var used: int
    /** Where this cell began, and every step since. */
    ghost const start: Entry
    ghost const usedAtStart: int
    ghost var steps: seq<Event>

    function State(): Entry
      reads this
    {
      Entry(key, limit, codec, body, tee, rec, acct, held, view)
    }

    ghost predicate Valid()
      reads this
    {
      Sound(State()) && LocalRun(start, usedAtStart, steps) == Some((State(), used))
    }

    constructor (e: Entry, counter: int)
      requires Sound(e)
      ensures Valid() && State() == e && used == counter && start == e && usedAtStart == counter
    {
      key, limit, codec := e.key, e.limit, e.codec;
      body, tee, rec, acct, held, view := e.body, e.tee, e.rec, e.acct, e.held, e.view;
      used := counter;
      start, usedAtStart, steps := e, counter, [];
    }

    method Become(e: Entry, counter: int)
      requires e.key == key && e.limit == limit && e.codec == codec
      modifies `body, `tee, `rec, `acct, `held, `view, `used
      ensures State() == e && used == counter
    {
      body, tee, rec, acct, held, view := e.body, e.tee, e.rec, e.acct, e.held, e.view;
      used := counter;
    }

    method Do(step: Event)
      requires Valid() && Enabled(State(), used, step)
      modifies this
      ensures Valid() && (State(), used) == Next(old(State()), old(used), step)
    {
      LocalRunStep(start, usedAtStart, steps, State(), used, step);
      StepKeepsSound(State(), used, step);
      NextKeepsIdentity(State(), used, step);
      var next := Next(State(), used, step);
      Become(next.0, next.1);
      steps := steps + [step];
    }

    /** `remove`: out of the store, cancelled, and its whole reservation given back at once. */
    method Remove()
      requires Valid() && held.stored && !held.dropped && acct.section.Free?
      modifies this
      ensures Valid() && acct.cancelled && !held.stored && !held.handle && !view.layoutFile
      ensures acct.reserved == 0 && used == old(used) - old(acct.reserved) && acct.section.Free?
      ensures acct.outcome == old(acct.outcome) && rec == old(rec) && tee == old(tee) && body == old(body)
    {
      Do(Store(StoreEvent.Remove));
      Do(Store(SectionEnds));
    }

    /** Read from the pipe: at least a byte, at most `most` of them and at most one buffer. */
    method TakeChunk(most: nat)
      requires Valid() && !held.dropped && rec.worker == Idle && codec == Identity && tee.pipe != [] && most > 0
      modifies this
      ensures Valid() && acct == old(acct) && held == old(held) && body == old(body) && used == old(used)
      ensures rec.worker.Holding? && rec.worker.chunk != [] && tee == old(tee).(pipe := tee.pipe)
      ensures rec == old(rec).(taken := rec.taken, worker := rec.worker)
      ensures |rec.worker.chunk| <= PAGE_SIZE && rec.worker.chunk + tee.pipe == old(tee.pipe)
    {
      var count := Min(Min(most, PAGE_SIZE), |tee.pipe|);
      Do(Worker(Take(tee.pipe[..count], count)));
    }

    /** The critical section gives the chunk up, because the entry is cancelled or the budget exhausted. */
    method RefuseChunk()
      requires Valid() && !held.dropped && rec.worker.Holding? && acct.section.Free?
      requires acct.cancelled || used + |rec.worker.chunk| > limit
      modifies this
      ensures Valid() && held == old(held) && body == old(body) && tee == old(tee) && used == old(used)
      ensures rec == old(rec).(worker := Finished)
      ensures acct == if old(acct.cancelled) then old(acct) else old(acct).(outcome := Partial)
    {
      if acct.cancelled {
        Do(Worker(Refused));
      } else {
        Do(Worker(OverBudget));
      }
    }

    /** The worker's critical section: refuse a cancelled entry or a full budget, else reserve the chunk. */
    method ReserveChunk() returns (reserved: bool)
      requires Valid() && !held.dropped && rec.worker.Holding? && acct.section.Free?
      modifies this
      ensures Valid() && acct.section.Free? && held == old(held) && body == old(body) && tee == old(tee)
      ensures acct.cancelled == old(acct.cancelled)
      ensures reserved <==> !acct.cancelled && old(used) + |old(rec.worker.chunk)| <= limit
      ensures reserved ==> used == old(used) + |old(rec.worker.chunk)| && acct.outcome == old(acct.outcome)
                           && rec == old(rec).(worker := Writing(old(rec.worker.chunk), |old(rec.worker.chunk)|))
      ensures !reserved ==> rec == old(rec).(worker := Finished) && used == old(used)
                            && acct.outcome == if acct.cancelled then old(acct.outcome) else Partial
    {
      reserved := !acct.cancelled && used + |rec.worker.chunk| <= limit;
      if reserved {
        Do(Worker(Reserve));
        Do(Worker(Reserved));
      } else {
        RefuseChunk();
      }
    }

    /** The whole chunk is written and its length published. */
    method WriteWhole()
      requires Valid() && !held.dropped && acct.section.Free?
      requires rec.worker.Writing? && |rec.worker.rest| == rec.worker.count > 0
      modifies this
      ensures Valid() && acct == old(acct) && used == old(used)
      ensures held == old(held) && body == old(body) && tee == old(tee)
      ensures rec.worker == Idle && rec.disk == old(rec.disk) + old(rec.worker.rest) && rec.total == |rec.disk|
    {
      Do(Worker(Write(rec.worker.count)));
      Do(Worker(Flushed));
    }

    /** Only part of the chunk is written. */
    method WritePart(fits: nat)
      requires Valid() && !held.dropped && acct.section.Free?
      requires rec.worker.Writing? && fits < |rec.worker.rest|
      modifies this
      ensures Valid() && acct == old(acct).(outcome := Settle(old(acct.outcome), Partial)) && used == old(used)
      ensures held == old(held) && body == old(body) && tee == old(tee)
      ensures rec.worker == Finished && old(rec.disk) <= rec.disk <= old(rec.disk) + old(rec.worker.rest)
    {
      PartWritten(rec.disk, rec.worker.rest, fits);
      if fits > 0 {
        Do(Worker(Write(fits)));
      }
      Do(Worker(WriteFails));
    }

    /**
      Write a reserved chunk and publish the new length. The disk takes bytes as long as the file stays
      within `room`, the length at which it first fails; what fitted before that is written.
     */
    method WriteChunk(room: nat) returns (stored: bool)
      requires Valid() && !held.dropped && acct.section.Free?
      requires rec.worker.Writing? && |rec.worker.rest| == rec.worker.count > 0
      modifies this
      ensures Valid() && acct == old(acct).(outcome := acct.outcome) && used == old(used)
      ensures held == old(held) && body == old(body) && tee == old(tee)
      ensures stored <==> |old(rec.disk)| + |old(rec.worker.rest)| <= room
      ensures stored ==> rec.worker == Idle && acct == old(acct)
                         && rec.disk == old(rec.disk) + old(rec.worker.rest) && rec.total == |rec.disk|
      ensures !stored ==> rec.worker == Finished && acct.outcome == Settle(old(acct.outcome), Partial)
                          && old(rec.disk) <= rec.disk <= old(rec.disk) + old(rec.worker.rest)
    {
      stored := |rec.disk| + |rec.worker.rest| <= room;
      if stored {
        WriteWhole();
      } else {
        WritePart(if room <= |rec.disk| then 0 else room - |rec.disk|);
      }
    }

    /** One turn of the worker's loop with a chunk in hand. */
    method StoreChunk(room: nat) returns (stored: bool)
      requires Valid() && !held.dropped && rec.worker.Holding? && rec.worker.chunk != [] && acct.section.Free?
      modifies this
      ensures Valid() && acct.section.Free? && held == old(held) && body == old(body) && tee == old(tee)
      ensures acct.cancelled == old(acct.cancelled)
      ensures stored <==> && !acct.cancelled
                          && old(used) + |old(rec.worker.chunk)| <= limit
                          && |old(rec.disk)| + |old(rec.worker.chunk)| <= room
      ensures stored ==> && rec.worker == Idle && used == old(used) + |old(rec.worker.chunk)|
                         && acct.outcome == old(acct.outcome)
                         && rec.disk == old(rec.disk) + old(rec.worker.chunk) && rec.total == |rec.disk|
      ensures !stored ==> && rec.worker == Finished
                          && old(rec.disk) <= rec.disk <= old(rec.disk) + old(rec.worker.chunk)
      ensures !stored && old(acct.outcome) == Recording ==>
                acct.outcome == if acct.cancelled then Recording else Partial
    {
      stored := ReserveChunk();
      if stored {
        stored := WriteChunk(room);
      }
    }

    /** Budget and disk have room for `n` more bytes; none need no room. */
    predicate Fits(counter: int, written: nat, n: nat, room: nat) {
      n == 0 || (counter + n <= limit && written + n <= room)
    }

    /** One turn of the worker's loop: what was read goes to disk, or the worker stops. */
    method MoveChunk(most: nat, room: nat) returns (stored: bool)
      requires Valid() && !held.dropped && rec.worker == Idle && acct.section.Free?
      requires codec == Identity && tee.pipe != [] && !acct.cancelled && most > 0
      modifies this
      ensures Valid() && acct.section.Free? && held == old(held) && body == old(body)
      ensures tee == old(tee).(pipe := tee.pipe) && !acct.cancelled
      ensures old(rec.disk) <= rec.disk <= old(rec.disk) + old(tee.pipe)
      ensures stored ==> && rec.worker == Idle && acct.outcome == old(acct.outcome)
                         && |tee.pipe| < |old(tee.pipe)| && used + |tee.pipe| == old(used) + |old(tee.pipe)|
                         && rec.disk + tee.pipe == old(rec.disk) + old(tee.pipe)
                         && used <= limit && |rec.disk| <= room
      ensures !stored ==> && rec.worker == Finished && !Fits(old(used), |old(rec.disk)|, |old(tee.pipe)|, room)
                          && (old(acct.outcome) == Recording ==> acct.outcome == Partial)
    {
      ghost var disk, pipe := rec.disk, tee.pipe;
      TakeChunk(most);
      ghost var chunk := rec.worker.chunk;
      assert disk + pipe == disk + chunk + tee.pipe;
      stored := StoreChunk(room);
      assert rec.disk <= disk + chunk <= disk + pipe;
    }

    /** The pipe is drained and closed. */
    method EndWorker()
      requires Valid() && !held.dropped && rec.worker == Idle && acct.section.Free?
      requires codec == Identity && tee.tap == Open(false) && tee.pipe == []
      modifies this
      ensures Valid() && rec == old(rec).(worker := Finished) && used == old(used)
      ensures acct == old(acct).(outcome := acct.outcome)
      ensures body == old(body) && tee == old(tee) && held == old(held)
      ensures old(acct.outcome) == Recording ==>
                acct.outcome == if acct.cancelled then Recording else Complete
      ensures old(acct.outcome) == Recording && acct.outcome == Complete ==> rec.disk == DataBytes(body.polled)
    {
      if acct.cancelled {
        Do(Worker(SeesCancel));
      } else {
        Do(Worker(TakesEnd));
        Do(Worker(Completes));
      }
    }

    /**
      The whole loop of an identity recording whose pipe has been closed on purpose, whatever each read
      returns. Undisturbed, it ends complete exactly when budget and disk have room for all of the pipe.
     */
    method RunWorker(sizes: nat -> nat, room: nat)
      requires Valid() && !held.dropped && rec.worker == Idle && acct.section.Free?
      requires codec == Identity && tee.tap == Open(false)
      requires forall n: nat :: sizes(n) > 0
      modifies this
      ensures Valid() && rec.worker == Finished && acct.cancelled == old(acct.cancelled)
      ensures old(rec.disk) <= rec.disk <= old(rec.disk) + old(tee.pipe)
      ensures old(acct.outcome) == Recording ==>
                acct.outcome == if acct.cancelled then Recording
                                else if Fits(old(used), |old(rec.disk)|, |old(tee.pipe)|, room) then Complete
                                else Partial
      ensures old(acct.outcome) == Recording && acct.outcome == Complete ==>
                rec.disk == DataBytes(body.polled) && used == old(used) + |old(tee.pipe)|
    {
      ghost var disk, pipe := rec.disk, tee.pipe;
      while tee.pipe != [] && !acct.cancelled
        invariant Valid() && !held.dropped && rec.worker == Idle && acct.section.Free? && tee.tap == Open(false)
        invariant acct.cancelled == old(acct.cancelled) && acct.outcome == old(acct.outcome)
        invariant used + |tee.pipe| == old(used) + |pipe|
        invariant disk <= rec.disk && rec.disk + tee.pipe == disk + pipe
        invariant tee.pipe == pipe || (!acct.cancelled && used <= limit && |rec.disk| <= room)
        decreases |tee.pipe|
      {
        ghost var was, left := rec.disk, tee.pipe;
        var stored := MoveChunk(sizes(|rec.disk|), room);
        if !stored {
          assert rec.disk <= was + left == disk + pipe;
          return;
        }
      }
      assert rec.disk <= rec.disk + tee.pipe;
      if acct.cancelled {
        Do(Worker(SeesCancel));
      } else {
        assert rec.disk + [] == rec.disk;
        EndWorker();
      }
    }

    /**
      `json_view`: only a complete body has a layout; cancelling sets the token of the job at hand; a start
      begins a job with a token of its own unless one is under way or done.
     */
    method AskLayout(start: bool, cancel: bool, permitFree: bool) returns (r: Result<Status, ViewError>)
      requires Valid() && !held.dropped
      modifies this
      ensures Valid() && body == old(body) && tee == old(tee) && rec == old(rec) && acct == old(acct)
      ensures held == old(held) && used == old(used)
      ensures acct.outcome != Complete ==> r == Err(NotComplete) && view == old(view)
      ensures acct.outcome == Complete && cancel ==> r == Ok(view.status) && view == old(view).(token := true)
      ensures acct.outcome == Complete && !cancel ==>
                if !start || old(view.status) == Building || old(view.status) == Ready then
                  r == Ok(view.status) && view == old(view)
                else if !permitFree then
                  r == Err(AnalysisBusy) && view == old(view)
                else
                  r == Ok(Building) && view == old(view).(status := Building, token := false, job := Formatting(0))
    {
      if acct.outcome != Complete {
        return Err(NotComplete);
      }
      if cancel {
        Do(Layout(CancelToken));
        return Ok(view.status);
      }
      if !start || view.status == Building || view.status == Ready {
        return Ok(view.status);
      }
      if !permitFree {
        return Err(AnalysisBusy);
      }
      Do(Layout(Start));
      r := Ok(view.status);
    }

    /** `BudgetWriter::write`: reserve, then hand the bytes to the file; a refusal reserves nothing. */
    method WriteLayout(n: nat) returns (reserved: bool)
      requires Valid() && !held.dropped && acct.section.Free?
      requires view.job.Formatting?
      modifies this
      ensures Valid() && acct.section.Free? && held == old(held) && rec == old(rec)
      ensures reserved <==> !old(acct.cancelled) && !old(view.token) && old(used) + n <= limit
      ensures acct == old(acct).(reserved := acct.reserved)
      ensures reserved ==> used == old(used) + n && acct.reserved == old(acct.reserved) + n
                           && view == old(view).(job := Formatting(old(view.job.held) + n))
      ensures !reserved ==> used == old(used) && acct == old(acct) && view == old(view)
    {
      reserved := !acct.cancelled && !view.token && used + n <= limit;
      if reserved {
        Do(Layout(LayoutReserve(n)));
        Do(Layout(LayoutReserved));
      }
    }

    /**
      A layout that failed or was called off: what its writer reserved is given back, unless a
      cancellation already did that.
     */
    method AbortLayout()
      requires Valid() && !held.dropped && view.job.Aborting? && acct.section.Free?
      modifies this
      ensures Valid() && acct.section.Free? && view.status == Failed && view.job == NoJob
      ensures used == old(used) - (if old(acct.cancelled) then 0 else old(view.job.held))
      ensures !acct.cancelled ==> acct.reserved == acct.raw
    {
      Do(Layout(LayoutEvent.Abort));
      if acct.section.Removing? {
        Do(Store(SectionEnds));
      }
      Do(Layout(Report));
    }

    /** The writer is dropped before the layout is finished. */
    method FailLayout()
      requires Valid() && !held.dropped && view.job.Formatting? && acct.section.Free?
      modifies this
      ensures Valid() && acct.section.Free? && view.status == Failed && view.job == NoJob
      ensures used == old(used) - (if old(acct.cancelled) then 0 else old(view.job.held))
      ensures !acct.cancelled ==> acct.reserved == acct.raw
    {
      Do(Layout(LayoutFails));
      AbortLayout();
    }

    /** A finished layout, after the last look at the flags. */
    method PublishLayout()
      requires Valid() && !held.dropped && view.job.Formatted? && acct.section.Free?
      modifies this
      ensures Valid() && acct.section.Free? && view.job == NoJob
      ensures view.status == if old(acct.cancelled) || old(view.token) then Failed else Ready
      ensures view.status == Ready ==> view.layoutFile && view.layoutTotal == old(view.job.held) && used == old(used)
      ensures view.status == Failed ==> used == old(used) - (if old(acct.cancelled) then 0 else old(view.job.held))
    {
      Do(Layout(CheckFlags));
      if view.job.Aborting? {
        AbortLayout();
      } else {
        Do(Layout(Publish));
      }
    }

    /**
      The loop of the writer, undisturbed, whatever the sizes of its writes; `room` is the length the layout
      can reach before a read of the second pass, a write or the last flush fails. It gets through exactly
      when that is all of it and, unless there is nothing to write, neither flag is set and the budget has
      room for it.
     */
    method WriteAll(writes: nat -> nat, room: nat) returns (through: bool)
      requires Valid() && !held.dropped && view.job == Formatting(0) && acct.section.Free?
      requires forall n: nat :: writes(n) > 0
      modifies this
      ensures Valid() && held == old(held) && acct.section.Free? && rec == old(rec)
      ensures acct.cancelled == old(acct.cancelled) && view == old(view).(job := view.job)
      ensures view.job.Formatting? && used == old(used) + view.job.held && (acct.cancelled ==> view.job.held == 0)
      ensures through ==> view.job.held == LayoutSize(rec.disk)
      ensures through <==> Layable(old(used), room)
    {
      var size := LayoutSize(rec.disk);
      while view.job.held < size && view.job.held <= room
        invariant Valid() && held == old(held) && acct.section.Free? && rec == old(rec)
        invariant view == old(view).(job := view.job) && view.job.Formatting? && view.job.held <= size
        invariant acct.cancelled == old(acct.cancelled) && used == old(used) + view.job.held
        invariant view.job.held == 0 || (!acct.cancelled && !view.token && used <= limit)
        decreases size - view.job.held
      {
        var reserved := WriteLayout(Min(writes(view.job.held), size - view.job.held));
        if !reserved {
          return false;
        }
      }
      through := view.job.held <= room;
    }

    /** Undisturbed, the whole layout can be written. */
    predicate Layable(counter: int, room: nat)
      reads this
    {
      var size := LayoutSize(rec.disk);
      size <= room && (size == 0 || (!acct.cancelled && !view.token && counter + size <= limit))
    }

    /**
      The whole job, undisturbed: a layout is published exactly when neither flag is set, the budget has room
      for all of it and nothing fails before its end. Otherwise nothing stays reserved for it, although
      dropping the buffered writer tries its last `buffered` bytes once more.
     */
    method BuildLayout(writes: nat -> nat, room: nat, buffered: nat)
      requires Valid() && !held.dropped && view.job == Formatting(0) && acct.section.Free?
      requires forall n: nat :: writes(n) > 0
      modifies this
      ensures Valid() && acct.section.Free? && view.job == NoJob
      ensures view.status == Ready <==>
                && !old(acct.cancelled) && !old(view.token) && old(LayoutSize(rec.disk)) <= room
                && (old(LayoutSize(rec.disk)) == 0 || old(used + LayoutSize(rec.disk)) <= limit)
      ensures view.status == Ready || view.status == Failed
      ensures view.status == Ready ==> view.layoutFile && used == old(used) + view.layoutTotal
                                       && view.layoutTotal == old(LayoutSize(rec.disk))
      ensures view.status == Failed ==> used == old(used)
    {
      var through := WriteAll(writes, room);
      if through {
        Do(Layout(LayoutDone));
        PublishLayout();
      } else {
        var _ := WriteLayout(buffered);
        FailLayout();
      }
    }
  }
}
