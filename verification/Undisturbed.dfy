/** A recording that nobody disturbs: whatever the body, it is forwarded, recorded and labelled complete. */
module Undisturbed {
  import opened Bytes
  import opened Recording
  import opened Operations

  function Size(frame: Frame): nat {
    if frame.Data? then |frame.bytes| else 0
  }

  /** Everybody waits for the next frame: what came so far has been forwarded and is on disk. */
  ghost predicate Calm(cell: Cell)
    reads cell
  {
    Steady(cell) && cell.body.pending.None? && cell.tee.pipe == []
  }

  /** Nobody has disturbed the recording, and the worker is idle. */
  ghost predicate Steady(cell: Cell)
    reads cell
  {
    && cell.Valid() && cell.codec == Identity && !cell.held.dropped && cell.rec.worker == Idle
    && cell.acct.section.Free? && !cell.acct.cancelled && cell.acct.outcome == Label.Recording
    && !cell.body.ended && !cell.body.failed && !cell.body.closed && cell.tee.tap == Open(true)
  }

  /** The worker takes what is in the pipe. */
  method Drain(cell: Cell)
    requires Steady(cell) && cell.used + |cell.tee.pipe| <= cell.limit
    modifies cell
    ensures Steady(cell) && cell.tee.pipe == [] && cell.body == old(cell.body)
    ensures cell.used == old(cell.used) + |old(cell.tee.pipe)|
  {
    while cell.tee.pipe != []
      invariant Steady(cell) && cell.body == old(cell.body)
      invariant cell.used + |cell.tee.pipe| == old(cell.used) + |old(cell.tee.pipe)|
      decreases |cell.tee.pipe|
    {
      var stored := cell.MoveChunk(PAGE_SIZE, |cell.rec.disk| + |cell.tee.pipe|);
      assert stored;
    }
  }

  /** As much of the frame in hand as the empty pipe takes. */
  method TeePart(cell: Cell)
    requires Steady(cell) && cell.tee.pipe == [] && Unteed(cell.body.pending, cell.body.written) != []
    modifies cell
    ensures Steady(cell) && cell.used == old(cell.used)
    ensures cell.body == old(cell.body).(written := cell.body.written)
    ensures var left := Unteed(cell.body.pending, cell.body.written);
            cell.tee.pipe != [] && |left| + |cell.tee.pipe| == |old(Unteed(cell.body.pending, cell.body.written))|
  {
    var left := Unteed(cell.body.pending, cell.body.written);
    var n := Min(PAGE_SIZE, |left|);
    cell.Do(Body(TeeBytes(n)));
    assert cell.tee.pipe == left[..n];
  }

  /** One frame is polled, teed, recorded and handed on. */
  method Forward(cell: Cell, frame: Frame)
    requires Calm(cell) && cell.used + Size(frame) <= cell.limit
    modifies cell
    ensures Calm(cell) && cell.body.yielded == old(cell.body.yielded) + [frame]
    ensures cell.used == old(cell.used) + Size(frame)
  {
    cell.Do(Body(InnerFrame(frame)));
    while Unteed(cell.body.pending, cell.body.written) != []
      invariant Steady(cell) && cell.tee.pipe == []
      invariant cell.body.pending == Some(frame) && cell.body.yielded == old(cell.body.yielded)
      invariant cell.used + |Unteed(cell.body.pending, cell.body.written)| == old(cell.used) + Size(frame)
      decreases |Unteed(cell.body.pending, cell.body.written)|
    {
      TeePart(cell);
      Drain(cell);
    }
    cell.Do(Body(Release));
  }

  /** The inner body ends and the input closes. */
  method CloseInputs(cell: Cell)
    requires Calm(cell)
    modifies cell
    ensures cell.Valid() && cell.body == old(cell.body).(ended := true)
    ensures cell.tee == old(cell.tee).(tap := Open(false))
    ensures cell.rec == old(cell.rec) && cell.acct == old(cell.acct) && cell.held == old(cell.held)
    ensures cell.used == old(cell.used)
  {
    cell.Do(Body(InnerEnds));
    cell.Do(Body(CloseInput));
  }

  /** The worker is done: the tap goes and the consumer hears the end. */
  method Leave(cell: Cell)
    requires cell.Valid() && Polling(cell.State()) && cell.body.pending.None? && cell.body.ended
    requires cell.tee.tap == Open(false) && cell.rec.worker == Finished && cell.acct.section.Free?
    requires cell.acct.outcome == Complete
    modifies cell
    ensures cell.Valid() && cell.acct == old(cell.acct) && cell.rec == old(cell.rec) && cell.used == old(cell.used)
    ensures cell.body == old(cell.body).(closed := true) && cell.tee.tap == Gone
  {
    cell.Do(Body(WorkerJoined));
    cell.Do(Body(TapGone));
    cell.Do(Body(YieldEnd));
  }

  /** The inner body ends: the input closes, the worker completes, the tap goes. */
  method Conclude(cell: Cell)
    requires Calm(cell)
    modifies cell
    ensures cell.Valid() && cell.acct.outcome == Complete && cell.body.closed && cell.tee.tap == Gone
    ensures cell.body.yielded == old(cell.body.yielded) && cell.used == old(cell.used)
    ensures cell.rec.disk == DataBytes(cell.body.yielded) && cell.rec.total == |cell.rec.disk|
  {
    CloseInputs(cell);
    cell.EndWorker();
    AllYielded(cell.State());
    Leave(cell);
  }

  lemma AllYielded(e: Entry)
    requires Sound(e) && e.body.pending.None? && e.acct.outcome == Complete && e.codec == Identity
    ensures e.rec.disk == DataBytes(e.body.yielded) && e.rec.total == |e.rec.disk|
  {
    assert e.body.yielded + [] == e.body.yielded;
  }

  method ForwardAll(cell: Cell, frames: seq<Frame>)
    requires Calm(cell) && cell.body.yielded == [] && cell.used == 0 && |DataBytes(frames)| <= cell.limit
    modifies cell
    ensures Calm(cell) && cell.body.yielded == frames && cell.used == |DataBytes(frames)|
  {
    assert frames[..0] == [];
    for i := 0 to |frames|
      invariant Calm(cell)
      invariant cell.body.yielded == frames[..i] && cell.used == |DataBytes(frames[..i])|
    {
      SizeOfPrefix(frames, i);
      Forward(cell, frames[i]);
      assert frames[..i + 1] == frames[..i] + [frames[i]];
    }
    assert frames[..|frames|] == frames;
  }

  /**
    Any body that fits the budget: recorded from the beginning with nobody in between, the consumer gets
    every frame and the recording is complete, whole and paid for.
   */
  method RecordWhole(key: Key, limit: nat, frames: seq<Frame>) returns (cell: Cell)
    requires |DataBytes(frames)| <= limit
    ensures cell.Valid() && cell.start == Fresh(key, limit, Identity) && cell.usedAtStart == 0
    ensures cell.acct.outcome == Complete && cell.body.closed && cell.body.yielded == frames
    ensures cell.rec.disk == DataBytes(frames) && cell.rec.total == |cell.rec.disk| == cell.used
  {
    FreshIsSound(key, limit);
    cell := new Cell(Fresh(key, limit, Identity), 0);
    ForwardAll(cell, frames);
    Conclude(cell);
  }

  lemma FreshIsSound(key: Key, limit: nat)
    ensures Sound(Fresh(key, limit, Identity))
  {
  }

  lemma {:induction false} DataGrows(frames: seq<Frame>, i: nat)
    requires i <= |frames|
    ensures |DataBytes(frames[..i])| <= |DataBytes(frames)|
    decreases |frames|
  {
    if i < |frames| {
      DataGrows(frames[..|frames| - 1], i);
      assert frames[..|frames| - 1][..i] == frames[..i];
    } else {
      assert frames[..i] == frames;
    }
  }

  lemma SizeOfPrefix(frames: seq<Frame>, i: nat)
    requires i < |frames|
    ensures |DataBytes(frames[..i + 1])| == |DataBytes(frames[..i])| + Size(frames[i]) <= |DataBytes(frames)|
  {
    assert frames[..i + 1] == frames[..i] + [frames[i]];
    DataBytesStep(frames[..i], frames[i]);
    DataGrows(frames, i + 1);
  }
}
