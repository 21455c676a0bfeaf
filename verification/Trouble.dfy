/**
  What may happen at any time: no party of a recording keeps another from going wrong, going away or
  going on. The theorems over all runs speak of all these steps.
 */
module Trouble {
  import opened Bytes
  import opened Recording
  import opened Budget
  import opened Labels

  /** An entry somebody still owns, with nobody in its critical section. */
  ghost predicate Quiet(e: Entry) {
    Sound(e) && !e.held.dropped && e.acct.section.Free?
  }

  /** The worker may be aborted wherever it is, and its reads and writes may fail; each ends it, none completes it. */
  lemma WorkerMayFail(e: Entry, used: int)
    requires Quiet(e) && e.rec.worker != Finished
    ensures Enabled(e, used, Worker(Dies))
    ensures e.rec.worker == Idle <==> Enabled(e, used, Worker(TakeFails))
    ensures e.rec.worker.Writing? <==> Enabled(e, used, Worker(WriteFails))
    ensures forall step ::
              (step == Dies || step == TakeFails || step == WriteFails) && Enabled(e, used, Worker(step)) ==>
              var e' := Next(e, used, Worker(step)).0;
              && e'.rec == e.rec.(worker := Finished) && e'.tee == e.tee && e'.acct.reserved == e.acct.reserved
              && e'.acct.outcome == if step == Dies then e.acct.outcome else Settle(e.acct.outcome, Partial)
  {
  }

  /** A read gives any front part of the pipe; a decoder makes anything of it, or ends. */
  lemma WorkerMayRead(e: Entry, used: int, chunk: seq<byte>, from: nat)
    requires Quiet(e) && e.rec.worker == Idle
    ensures e.codec == Identity && 0 < from <= |e.tee.pipe| && chunk == e.tee.pipe[..from] && from <= PAGE_SIZE ==>
              Enabled(e, used, Worker(Take(chunk, from)))
    ensures e.codec == Decoding && from <= |e.tee.pipe| && 0 < |chunk| <= PAGE_SIZE ==>
              Enabled(e, used, Worker(Take(chunk, from)))
    ensures e.codec == Decoding ==> Enabled(e, used, Worker(TakesEnd))
    ensures e.codec == Identity ==>
              (Enabled(e, used, Worker(TakesEnd))
               <==> e.tee.pipe == [] && (e.tee.tap == Open(false) || e.tee.tap == Gone))
    ensures e.codec == Unsupported <==> Enabled(e, used, Worker(Unable))
  {
  }

  /** A chunk is reserved, refused or over the budget: exactly one of them; refused, nothing is reserved. */
  lemma ChunkIsJudged(e: Entry, used: int)
    requires Quiet(e) && e.rec.worker.Holding?
    ensures Enabled(e, used, Worker(Refused)) <==> e.acct.cancelled
    ensures Enabled(e, used, Worker(Reserve)) <==> !e.acct.cancelled && used + |e.rec.worker.chunk| <= e.limit
    ensures Enabled(e, used, Worker(OverBudget)) <==> !e.acct.cancelled && used + |e.rec.worker.chunk| > e.limit
    ensures e.acct.cancelled ==> Next(e, used, Worker(Refused)).1 == used
  {
  }

  /** The consumer may vanish at any time, and a polled stream gives any frame, fails or ends at any time. */
  lemma StreamMayDoAnything(e: Entry, used: int, frame: Frame)
    requires Quiet(e) && !e.body.closed
    ensures Enabled(e, used, Body(BodyDropped))
    ensures Polling(e) && e.body.pending.None? && !e.body.ended ==>
              && Enabled(e, used, Body(InnerFrame(frame))) && Enabled(e, used, Body(InnerEnds))
              && Enabled(e, used, Body(InnerFails))
    ensures Polling(e) && e.body.pending.Some? && !e.body.ended ==> Enabled(e, used, Body(InnerEnds))
  {
  }

  /** While bytes are left and the tap is there: the pipe takes any part that fits, or the tap has to go. */
  lemma TeeMayGoOn(e: Entry, used: int, n: nat)
    requires Quiet(e) && Polling(e) && e.tee.tap == Open(true)
    requires var left := Unteed(e.body.pending, e.body.written); 0 < n <= |left| && |e.tee.pipe| + n <= PAGE_SIZE
    ensures Enabled(e, used, Body(TeeSeesCancel)) <==> e.acct.cancelled
    ensures Enabled(e, used, Body(TeeBroken)) <==> e.rec.worker == Finished
    ensures Enabled(e, used, Body(TeeBytes(n))) <==> e.rec.worker != Finished
  {
  }

  /** Whatever the others are doing, the store may remove or displace what it lists, and cancel again. */
  lemma StoreMayCancel(e: Entry, used: int)
    requires Quiet(e)
    ensures e.held.stored <==> Enabled(e, used, Store(Remove))
    ensures e.held.stored <==> Enabled(e, used, Store(Displace))
    ensures e.acct.cancelled <==> Enabled(e, used, Store(CancelAgain))
  {
  }

  /** An entry goes when nobody owns it any more: neither store, nor tap, nor worker, nor layout job. */
  lemma EntryGoesWithItsLastOwner(e: Entry, used: int)
    requires Quiet(e)
    ensures Enabled(e, used, Store(Drop))
       <==> !e.held.stored && e.tee.tap == Gone && e.rec.worker == Finished && e.view.job == NoJob
  {
  }

  /** The user may start and cancel layouts of a complete recording; a job may fail as long as it is formatting. */
  lemma LayoutMayBeTried(e: Entry, used: int)
    requires Quiet(e)
    ensures Enabled(e, used, Layout(CancelToken)) <==> e.acct.outcome == Complete
    ensures Enabled(e, used, Layout(Start))
       <==> e.acct.outcome == Complete && (e.view.status == Unbuilt || e.view.status == Failed)
    ensures Enabled(e, used, Layout(LayoutFails)) <==> e.view.job.Formatting?
    ensures forall n: nat :: e.view.job.Formatting? && !e.acct.cancelled && !e.view.token && used + n <= e.limit ==>
              Enabled(e, used, Layout(LayoutReserve(n)))
  {
  }

  /** A recording may begin under any key, displacing what is stored there; a copy may begin, fail and be abandoned. */
  lemma AnybodyMayBegin(s: Sys, key: Key, limit: nat, codec: Codec, bytes: seq<byte>)
    requires Inv(s)
    ensures exists previous :: Possible(s, Record(key, limit, codec, previous))
    ensures Possible(s, JobBegins(bytes, limit))
  {
    if i :| 0 <= i < |s.entries| && s.entries[i].held.stored && s.entries[i].key == key {
      var previous: Option<nat> := Some(i);
      assert Sound(s.entries[i]);
      assert Possible(s, Record(key, limit, codec, previous));
    } else {
      assert Possible(s, Record(key, limit, codec, None));
    }
  }

  lemma CopyMayFail(s: Sys, j: nat)
    requires j < |s.jobs|
    ensures Possible(s, JobWrites(j)) <==> s.jobs[j].stage == Held
    ensures Possible(s, JobFails(j)) <==> s.jobs[j].stage == Held
    ensures Possible(s, JobAbandoned(j)) <==> s.jobs[j].stage != Over && !s.jobs[j].abandoned
  {
  }

  /** Whatever an entry may do by itself it may do in the system. */
  lemma EntriesAreFree(s: Sys, i: nat, step: Event)
    requires i < |s.entries|
    ensures Possible(s, Local(i, step)) <==> Enabled(s.entries[i], s.used, step)
  {
  }
}
