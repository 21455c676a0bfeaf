/**
  One recorded body as a concurrent protocol: the body that is forwarded, the
  tap that copies it into a bounded pipe, the worker that writes the pipe to
  disk, cancellation from any side, and the JSON layout job. A step is one
  atomic access or one stretch that no other party can interleave; a critical
  section that touches both `reserved` and the shared counter takes two steps.
 */
module Recording {
  import opened Bytes
  import JsonLayout

  datatype Frame = Data(bytes: seq<byte>) | Trailers

  /** The result label of an entry; it starts as Recording. */
  datatype Label = Recording | Complete | Partial | Unavailable

  datatype Codec = Identity | Decoding | Unsupported

  /** The forwarding side's end of the pipe: open (with or without its writing half), being dropped, or gone. */
  datatype Tap = Open(input: bool) | Dropping | Gone

  datatype Worker =
    | Idle
    | Holding(chunk: seq<byte>)
    | Writing(rest: seq<byte>, count: nat)
    | Ending
    | Finished

  /**
    The section under the `result` lock: free, about to add to `reserved` what the counter
    already holds, or the reverse.
   */
  datatype Section = Free | Adding(n: nat, forLayout: bool) | Removing(n: nat)

  datatype Status = Unbuilt | Building | Ready | Failed

  datatype Job =
    | NoJob
    | Formatting(held: nat)
    | Formatted(held: nat)
    | Aborting(held: nat)
    | Publishing(held: nat)
    | Reporting

  datatype Key = Key(requestSide: bool, id: nat)

  /** The forwarded body; `polled` and `yielded` are its whole history. */
  datatype Stream = Stream(
    polled: seq<Frame>, ended: bool, failed: bool,
    pending: Option<Frame>, written: nat, yielded: seq<Frame>, closed: bool)

  /** The tap and its bounded pipe; `teed` is everything ever put in. */
  datatype Tee = Tee(tap: Tap, teed: seq<byte>, pipe: seq<byte>)

  /** The worker; `taken` is everything it ever took out of the pipe. */
  datatype Recorder = Recorder(worker: Worker, taken: seq<byte>, disk: seq<byte>, total: nat)

  /** What the `result` lock guards; `raw` is what was reserved for the recording alone. */
  datatype Account = Account(outcome: Label, cancelled: bool, section: Section, reserved: int, raw: nat)

  /** Whether a store still lists the entry, whether its file is open, whether its last owner is gone. */
  datatype Holders = Holders(stored: bool, handle: bool, dropped: bool)

  datatype JsonView = JsonView(status: Status, token: bool, job: Job, layoutTotal: nat, layoutFile: bool)

  datatype Entry = Entry(
    key: Key, limit: nat, codec: Codec,
    body: Stream, tee: Tee, rec: Recorder, acct: Account, held: Holders, view: JsonView) {

    /** `Entry::finish`: the first label other than Recording stays. */
    function Labelled(next: Label): Entry {
      this.(acct := acct.(outcome := Settle(acct.outcome, next)))
    }

    /** The worker stops. */
    function Stopped(): Entry {
      this.(rec := rec.(worker := Finished))
    }

    function LayoutAt(job: Job): Entry {
      this.(view := view.(job := job))
    }
  }

  const NO_VIEW := JsonView(Unbuilt, false, NoJob, 0, false)

  /** A fresh recording. */
  function Fresh(key: Key, limit: nat, codec: Codec): Entry {
    Entry(key, limit, codec, Stream([], false, false, None, 0, [], false),
          Tee(Open(true), [], []), Recorder(Idle, [], [], 0),
          Account(Recording, false, Free, 0, 0), Holders(true, true, false), NO_VIEW)
  }

  /** A copy stored in one piece, already on disk and reserved. */
  function Whole(key: Key, limit: nat, bytes: seq<byte>): Entry {
    Entry(key, limit, Identity, Stream([Data(bytes)], true, false, None, 0, [Data(bytes)], true),
          Tee(Gone, bytes, []), Recorder(Finished, bytes, bytes, |bytes|),
          Account(Complete, false, Free, |bytes|, |bytes|), Holders(true, true, false), NO_VIEW)
  }

  function DataBytes(frames: seq<Frame>): seq<byte> {
    if frames == [] then []
    else
      var last := frames[|frames| - 1];
      DataBytes(frames[..|frames| - 1]) + if last.Data? then last.bytes else []
  }

  /** What is left to tee of the pending frame. */
  function Unteed(pending: Option<Frame>, written: nat): seq<byte> {
    if pending.Some? && pending.value.Data? && written <= |pending.value.bytes| then pending.value.bytes[written..]
    else []
  }

  /** What the worker took and has not written. */
  function InHand(worker: Worker): seq<byte> {
    match worker
    case Holding(chunk) => chunk
    case Writing(rest, _) => rest
    case _ => []
  }

  function Settle(outcome: Label, next: Label): Label {
    if outcome == Recording then next else outcome
  }

  /** Dropping the tap settles the label before the pipe closes. */
  function TapTaken(e: Entry): Entry {
    if e.tee.tap.Open? then e.(tee := e.tee.(tap := Dropping)).Labelled(Partial) else e
  }

  /** The first half of `Entry::cancel`. */
  function CancelBegun(e: Entry): Entry
    requires e.acct.reserved >= 0
  {
    e.(acct := e.acct.(cancelled := true, section := Removing(e.acct.reserved), reserved := 0),
       held := e.held.(handle := false), view := e.view.(layoutFile := false))
  }

  // ----- The forwarded body: `RecordedBody::poll_frame` -----

  datatype BodyEvent =
    | InnerFrame(frame: Frame)
    | InnerEnds
    | InnerFails
    | TeeBytes(n: nat)
    | TeeSeesCancel
    | TeeBroken
    | CloseInput
    | WorkerJoined
    | TapGone
    | Release
    | YieldEnd
    | BodyDropped

  /** A poll can run: the consumer still asks, the stream has not failed, and no drop is under way. */
  predicate Polling(e: Entry) {
    !e.body.closed && !e.body.failed && e.tee.tap != Dropping
  }

  predicate BodyEnabled(e: Entry, ev: BodyEvent) {
    var left := Unteed(e.body.pending, e.body.written);
    match ev
    case InnerFrame(_) => Polling(e) && e.body.pending.None? && !e.body.ended
    case InnerEnds => !e.body.ended && !e.body.failed
    case InnerFails => Polling(e) && e.body.pending.None? && !e.body.ended && e.acct.section.Free?
    case TeeBytes(n) =>
      && Polling(e) && 0 < n <= |left| && |e.tee.pipe| + n <= PAGE_SIZE
      && e.tee.tap == Open(true) && e.rec.worker != Finished
    case TeeSeesCancel => Polling(e) && left != [] && e.tee.tap.Open? && e.acct.cancelled && e.acct.section.Free?
    case TeeBroken =>
      && Polling(e) && left != []
      && e.tee.tap == Open(true) && e.rec.worker == Finished && e.acct.section.Free?
    case CloseInput => Polling(e) && left == [] && e.body.ended && e.tee.tap == Open(true)
    case WorkerJoined =>
      && Polling(e) && left == [] && e.body.ended
      && e.tee.tap == Open(false) && e.rec.worker == Finished && e.acct.section.Free?
    case TapGone => e.tee.tap == Dropping
    case Release => Polling(e) && e.body.pending.Some? && (e.tee.tap == Gone || (left == [] && !e.body.ended))
    case YieldEnd => Polling(e) && e.body.pending.None? && e.body.ended && e.tee.tap == Gone
    case BodyDropped => !e.body.closed && e.acct.section.Free?
  }

  function BodyNext(e: Entry, ev: BodyEvent): Entry
    requires BodyEnabled(e, ev)
  {
    match ev
    case InnerFrame(frame) =>
      e.(body := e.body.(polled := e.body.polled + [frame], pending := Some(frame), written := 0))
    case InnerEnds => e.(body := e.body.(ended := true))
    case InnerFails => TapTaken(e).(body := TapTaken(e).body.(failed := true))
    case TeeBytes(n) =>
      var bytes := Unteed(e.body.pending, e.body.written)[..n];
      e.(body := e.body.(written := e.body.written + n),
         tee := e.tee.(teed := e.tee.teed + bytes, pipe := e.tee.pipe + bytes))
    case TeeSeesCancel => TapTaken(e)
    case TeeBroken => TapTaken(e)
    case CloseInput => e.(tee := e.tee.(tap := Open(false)))
    case WorkerJoined => TapTaken(e)
    case TapGone => e.(tee := e.tee.(tap := Gone))
    case Release => e.(body := e.body.(yielded := e.body.yielded + [e.body.pending.value], pending := None))
    case YieldEnd => e.(body := e.body.(closed := true))
    case BodyDropped => TapTaken(e).(body := TapTaken(e).body.(closed := true))
  }

  // ----- The worker spawned by `record` -----

  datatype WorkerEvent =
    | Unable
    | SeesCancel
    | Take(chunk: seq<byte>, from: nat)
    | TakesEnd
    | TakeFails
    | Reserve
    | Reserved
    | Refused
    | OverBudget
    | Write(n: nat)
    | WriteFails
    | Flushed
    | Completes
    | Dies

  predicate WorkerEnabled(e: Entry, used: int, ev: WorkerEvent) {
    && !e.held.dropped && e.rec.worker != Finished
    && match ev
       case Unable => e.rec.worker == Idle && e.codec == Unsupported && e.acct.section.Free?
       case SeesCancel => e.rec.worker == Idle && e.acct.cancelled
       case Take(chunk, from) =>
         && e.rec.worker == Idle && e.codec != Unsupported && 0 < |chunk| <= PAGE_SIZE && from <= |e.tee.pipe|
         && (e.codec == Identity ==> chunk == e.tee.pipe[..from])
       case TakesEnd =>
         && e.rec.worker == Idle && e.codec != Unsupported
         && (e.codec == Identity ==> e.tee.pipe == [] && (e.tee.tap == Open(false) || e.tee.tap == Gone))
       case TakeFails => e.rec.worker == Idle && e.acct.section.Free?
       case Reserve =>
         && e.rec.worker.Holding? && e.acct.section.Free? && !e.acct.cancelled
         && used + |e.rec.worker.chunk| <= e.limit
       case Reserved => e.rec.worker.Holding? && e.acct.section.Adding? && !e.acct.section.forLayout
       case Refused => e.rec.worker.Holding? && e.acct.section.Free? && e.acct.cancelled
       case OverBudget =>
         && e.rec.worker.Holding? && e.acct.section.Free? && !e.acct.cancelled
         && used + |e.rec.worker.chunk| > e.limit
       case Write(n) => e.rec.worker.Writing? && 0 < n <= |e.rec.worker.rest|
       case WriteFails => e.rec.worker.Writing? && e.acct.section.Free?
       case Flushed => e.rec.worker.Writing? && e.rec.worker.rest == []
       case Completes => e.rec.worker == Ending && e.acct.section.Free?
       case Dies => !(e.acct.section.Adding? && !e.acct.section.forLayout)
  }

  function WorkerNext(e: Entry, used: int, ev: WorkerEvent): (Entry, int)
    requires WorkerEnabled(e, used, ev)
  {
    match ev
    case Unable => (e.Labelled(Unavailable).Stopped(), used)
    case SeesCancel => (e.Stopped(), used)
    case Take(chunk, from) =>
      (e.(tee := e.tee.(pipe := e.tee.pipe[from..]),
          rec := e.rec.(taken := e.rec.taken + chunk, worker := Holding(chunk))), used)
    case TakesEnd => (e.(rec := e.rec.(worker := Ending)), used)
    case TakeFails => (e.Labelled(Partial).Stopped(), used)
    case Reserve =>
      var n := |e.rec.worker.chunk|;
      (e.(acct := e.acct.(section := Adding(n, false))), used + n)
    case Reserved =>
      var n := e.acct.section.n;
      (e.(acct := e.acct.(section := Free, reserved := e.acct.reserved + n, raw := e.acct.raw + n),
          rec := e.rec.(worker := Writing(e.rec.worker.chunk, |e.rec.worker.chunk|))), used)
    case Refused => (e.Stopped(), used)
    case OverBudget => (e.(acct := e.acct.(outcome := Partial)).Stopped(), used)
    case Write(n) =>
      var rest := e.rec.worker.rest;
      (e.(rec := e.rec.(disk := e.rec.disk + rest[..n], worker := Writing(rest[n..], e.rec.worker.count))), used)
    case WriteFails => (e.Labelled(Partial).Stopped(), used)
    case Flushed => (e.(rec := e.rec.(total := e.rec.total + e.rec.worker.count, worker := Idle)), used)
    case Completes => (e.Labelled(Complete).Stopped(), used)
    case Dies => (e.Stopped(), used)
  }

  // ----- The store's side: cancel, displacement, drop -----

  datatype StoreEvent = Remove | CancelAgain | SectionEnds | Displace | Drop

  predicate StoreEnabled(e: Entry, ev: StoreEvent) {
    && !e.held.dropped
    && match ev
       case Remove => e.held.stored && e.acct.section.Free?
       case CancelAgain => e.acct.cancelled && e.acct.section.Free?
       case SectionEnds => e.acct.section.Removing?
       case Displace => e.held.stored
       case Drop =>
         && !e.held.stored && e.tee.tap == Gone && e.rec.worker == Finished
         && e.view.job == NoJob && e.acct.section.Free?
  }

  function StoreNext(e: Entry, used: int, ev: StoreEvent): (Entry, int)
    requires StoreEnabled(e, ev) && e.acct.reserved >= 0
  {
    match ev
    case Remove => (CancelBegun(e).(held := CancelBegun(e).held.(stored := false)), used)
    case CancelAgain => (CancelBegun(e), used)
    case SectionEnds => (e.(acct := e.acct.(section := Free)), used - e.acct.section.n)
    case Displace => (e.(held := e.held.(stored := false)), used)
    case Drop =>
      (e.(held := e.held.(handle := false, dropped := true), acct := e.acct.(reserved := 0),
          view := e.view.(layoutFile := false)), used - e.acct.reserved)
  }

  // ----- The JSON layout job -----

  datatype LayoutEvent =
    | Start
    | CancelToken
    | LayoutReserve(n: nat)
    | LayoutReserved
    | LayoutFails
    | LayoutDone
    | CheckFlags
    | Abort
    | Publish
    | Report

  /** How long the layout of a recorded body is. */
  function LayoutSize(disk: seq<byte>): nat {
    |JsonLayout.Format(disk)|
  }

  /**
    A job reserves its layout piece by piece, some pieces twice when writing them failed, and is done when
    it has written all of it.
   */
  predicate LayoutEnabled(e: Entry, used: int, ev: LayoutEvent) {
    && !e.held.dropped
    && match ev
       case Start => e.acct.outcome == Complete && e.view.status != Building && e.view.status != Ready
       case CancelToken => e.acct.outcome == Complete
       case LayoutReserve(n) =>
         && e.view.job.Formatting? && e.acct.section.Free?
         && !e.acct.cancelled && !e.view.token && used + n <= e.limit
       case LayoutReserved => e.view.job.Formatting? && e.acct.section.Adding? && e.acct.section.forLayout
       case LayoutFails => e.view.job.Formatting? && !(e.acct.section.Adding? && e.acct.section.forLayout)
       case LayoutDone =>
         && e.view.job.Formatting? && e.view.job.held == LayoutSize(e.rec.disk)
         && !(e.acct.section.Adding? && e.acct.section.forLayout)
       case CheckFlags => e.view.job.Formatted?
       case Abort => e.view.job.Aborting? && e.acct.section.Free?
       case Publish => e.view.job.Publishing?
       case Report => e.view.job.Reporting?
  }

  function LayoutNext(e: Entry, used: int, ev: LayoutEvent): (Entry, int)
    requires LayoutEnabled(e, used, ev)
  {
    match ev
    case Start => (e.(view := e.view.(status := Building, token := false, job := Formatting(0))), used)
    case CancelToken => (e.(view := e.view.(token := true)), used)
    case LayoutReserve(n) => (e.(acct := e.acct.(section := Adding(n, true))), used + n)
    case LayoutReserved =>
      var n := e.acct.section.n;
      (e.(acct := e.acct.(section := Free, reserved := e.acct.reserved + n)).LayoutAt(Formatting(e.view.job.held + n)),
       used)
    case LayoutFails => (e.LayoutAt(Aborting(e.view.job.held)), used)
    case LayoutDone => (e.LayoutAt(Formatted(e.view.job.held)), used)
    case CheckFlags =>
      var cancelled := e.view.token || e.acct.cancelled;
      (e.LayoutAt(if cancelled then Aborting(e.view.job.held) else Publishing(e.view.job.held)), used)
    case Abort =>
      if e.acct.cancelled then (e.LayoutAt(Reporting), used)
      else
        var n := e.view.job.held;
        (e.(acct := e.acct.(reserved := e.acct.reserved - n, section := Removing(n))).LayoutAt(Reporting), used)
    case Publish =>
      (e.(view := e.view.(status := Ready, layoutTotal := e.view.job.held, layoutFile := true, job := NoJob)), used)
    case Report => (e.(view := e.view.(status := Failed, job := NoJob)), used)
  }

  // ----- All steps of one entry -----

  datatype Event =
    | Body(body: BodyEvent)
    | Worker(step: WorkerEvent)
    | Store(store: StoreEvent)
    | Layout(layout: LayoutEvent)

  predicate Enabled(e: Entry, used: int, ev: Event) {
    match ev
    case Body(b) => BodyEnabled(e, b)
    case Worker(w) => WorkerEnabled(e, used, w)
    case Store(s) => StoreEnabled(e, s) && e.acct.reserved >= 0
    case Layout(l) => LayoutEnabled(e, used, l)
  }

  function Next(e: Entry, used: int, ev: Event): (Entry, int)
    requires Enabled(e, used, ev)
  {
    match ev
    case Body(b) => (BodyNext(e, b), used)
    case Worker(w) => WorkerNext(e, used, w)
    case Store(s) => StoreNext(e, used, s)
    case Layout(l) => LayoutNext(e, used, l)
  }

  // ----- What every step keeps -----

  /** Forwarding: what was polled is what was yielded plus the frame in hand. */
  ghost predicate Forwards(polled: seq<Frame>, yielded: seq<Frame>, pending: Option<Frame>, written: nat) {
    && yielded + (if pending.Some? then [pending.value] else []) == polled
    && (pending.Some? && pending.value.Data? ==> written <= |pending.value.bytes|)
  }

  /**
    The tee: an unbroken prefix of the data; with what is left of the pending frame, all of it
    while the tap is open.
   */
  ghost predicate Copies(teed: seq<byte>, left: seq<byte>, data: seq<byte>, open: bool) {
    teed <= data && (open ==> teed + left == data)
  }

  /** The pipe loses nothing and reorders nothing. */
  ghost predicate Flows(teed: seq<byte>, taken: seq<byte>, pipe: seq<byte>) {
    teed == taken + pipe
  }

  /** What the worker took is on disk or in hand; a worker that stopped may have lost what it held. */
  ghost predicate Lands(taken: seq<byte>, disk: seq<byte>, held: seq<byte>, alive: bool) {
    disk <= taken && (alive ==> disk + held == taken)
  }

  ghost predicate Tees(e: Entry) {
    && Copies(e.tee.teed, Unteed(e.body.pending, e.body.written), DataBytes(e.body.polled), e.tee.tap.Open?)
    && (e.tee.tap == Open(false) ==> e.body.ended && Unteed(e.body.pending, e.body.written) == [])
    && (e.body.failed ==> !e.tee.tap.Open?)
    && (!e.tee.tap.Open? ==> e.acct.outcome != Recording)
    && |e.tee.pipe| <= PAGE_SIZE
  }

  /** Nothing is on disk that was not reserved, and the published length never runs ahead of the disk. */
  ghost predicate Writes(e: Entry) {
    && (e.codec == Identity ==> Flows(e.tee.teed, e.rec.taken, e.tee.pipe))
    && Lands(e.rec.taken, e.rec.disk, InHand(e.rec.worker), e.rec.worker != Finished)
    && e.rec.total <= |e.rec.disk| <= e.acct.raw
    && (e.rec.worker.Idle? || e.rec.worker.Holding? || e.rec.worker.Ending? ==>
          e.rec.total == |e.rec.disk| == e.acct.raw)
    && (e.rec.worker.Writing? ==>
          e.rec.total + e.rec.worker.count == |e.rec.disk| + |e.rec.worker.rest| == e.acct.raw)
    && (e.rec.worker.Ending? && e.codec == Identity ==> e.tee.pipe == [] && e.tee.tap != Open(true))
    && (e.acct.section.Adding? && !e.acct.section.forLayout ==>
          e.rec.worker.Holding? && |e.rec.worker.chunk| == e.acct.section.n)
  }

  /** A complete recording is closed and whole. */
  ghost predicate Settled(e: Entry) {
    && (e.acct.outcome == Complete || e.acct.outcome == Unavailable ==> e.rec.worker == Finished)
    && (e.acct.outcome == Complete ==>
          && e.rec.total == |e.rec.disk| == e.acct.raw
          && (e.codec == Identity ==> e.body.ended && !e.body.failed && e.rec.disk == DataBytes(e.body.polled)))
  }

  /** What the layout job, or a finished layout, holds of the reservation. */
  function LayoutHolds(e: Entry): nat {
    match e.view.job
    case Formatting(held) => held
    case Formatted(held) => held
    case Aborting(held) => held
    case Publishing(held) => held
    case Reporting => 0
    case NoJob => if e.view.status == Ready then e.view.layoutTotal else 0
  }

  /** The reservation is the recording's bytes plus the layout's until it is given back, once. */
  ghost predicate Reserves(e: Entry) {
    && (!e.acct.cancelled && !e.held.dropped ==> e.acct.reserved == e.acct.raw + LayoutHolds(e))
    && (e.acct.cancelled ==> e.acct.reserved == 0 && !e.acct.section.Adding?)
    && (e.acct.section.Adding? && e.acct.section.forLayout ==> e.view.job.Formatting?)
    && (e.held.dropped ==>
          && e.acct.reserved == 0 && e.acct.section.Free? && e.tee.tap == Gone
          && e.rec.worker == Finished && e.view.job == NoJob && !e.held.stored)
    && (e.view.status == Building <==> e.view.job != NoJob)
    && (e.view.job != NoJob || e.view.status != Unbuilt ==> e.acct.outcome == Complete)
  }

  /** A finished layout is a layout of what is on disk; its file is open only while it is ready and somebody owns it. */
  ghost predicate LaidOut(e: Entry) {
    && (e.view.job.Formatted? || e.view.job.Publishing? ==> e.view.job.held == LayoutSize(e.rec.disk))
    && (e.view.status == Ready ==> e.view.layoutTotal == LayoutSize(e.rec.disk))
    && (e.view.layoutFile ==> e.view.status == Ready && !e.held.dropped)
  }

  ghost predicate Sound(e: Entry) {
    && Forwards(e.body.polled, e.body.yielded, e.body.pending, e.body.written)
    && Tees(e) && Writes(e) && Settled(e) && Reserves(e) && LaidOut(e)
  }

  /** The part of the shared counter this entry answers for, at every single atomic step. */
  function Accounted(e: Entry): int {
    e.acct.reserved + match e.acct.section
                 case Free => 0
                 case Adding(n, _) => n
                 case Removing(n) => n
  }

  lemma DataBytesStep(frames: seq<Frame>, frame: Frame)
    ensures DataBytes(frames + [frame]) == DataBytes(frames) + if frame.Data? then frame.bytes else []
  {
    assert (frames + [frame])[..|frames|] == frames;
  }

  lemma CopyNothingYet(teed: seq<byte>, data: seq<byte>, bytes: seq<byte>, open: bool)
    requires Copies(teed, [], data, open)
    ensures Copies(teed, bytes, data + bytes, open)
  {
    assert teed + [] == teed;
  }

  lemma FrameArrives(e: Entry, frame: Frame)
    requires Sound(e) && BodyEnabled(e, InnerFrame(frame))
    ensures Sound(BodyNext(e, InnerFrame(frame)))
  {
    var e' := BodyNext(e, InnerFrame(frame));
    var bytes := if frame.Data? then frame.bytes else [];
    DataBytesStep(e.body.polled, frame);
    CopyNothingYet(e.tee.teed, DataBytes(e.body.polled), bytes, e.tee.tap.Open?);
    assert Unteed(e'.body.pending, e'.body.written) == bytes;
  }

  lemma CopyMore(teed: seq<byte>, left: seq<byte>, data: seq<byte>, n: nat)
    requires Copies(teed, left, data, true) && n <= |left|
    ensures Copies(teed + left[..n], left[n..], data, true)
  {
    assert teed + left[..n] + left[n..] == teed + left;
  }

  lemma BytesAreTeed(e: Entry, n: nat)
    requires Sound(e) && BodyEnabled(e, TeeBytes(n))
    ensures Sound(BodyNext(e, TeeBytes(n)))
  {
    var e' := BodyNext(e, TeeBytes(n));
    var left := Unteed(e.body.pending, e.body.written);
    assert Unteed(e'.body.pending, e'.body.written) == left[n..];
    CopyMore(e.tee.teed, left, DataBytes(e.body.polled), n);
    assert e.codec == Identity ==> Flows(e'.tee.teed, e'.rec.taken, e'.tee.pipe);
  }

  lemma FrameLeaves(e: Entry)
    requires Sound(e) && BodyEnabled(e, Release)
    ensures Sound(BodyNext(e, Release))
  {
    var e' := BodyNext(e, Release);
    assert Unteed(e'.body.pending, e'.body.written) == [];
  }

  predicate TakesTap(ev: BodyEvent) {
    ev == InnerFails || ev == TeeSeesCancel || ev == TeeBroken || ev == WorkerJoined || ev == BodyDropped
  }

  /** Taking the tap settles the label, so whatever the pipe loses from here on is not called complete. */
  lemma TapTakenKeepsSound(e: Entry)
    requires Sound(e)
    ensures Sound(TapTaken(e))
  {
  }

  lemma FailureKeepsSound(e: Entry)
    requires Sound(e) && !e.tee.tap.Open? && !e.body.ended
    ensures Sound(e.(body := e.body.(failed := true)))
  {
  }

  lemma ClosingKeepsSound(e: Entry)
    requires Sound(e)
    ensures Sound(e.(body := e.body.(closed := true)))
  {
  }

  lemma TapIsTaken(e: Entry, ev: BodyEvent)
    requires Sound(e) && BodyEnabled(e, ev) && TakesTap(ev)
    ensures Sound(BodyNext(e, ev))
  {
    TapTakenKeepsSound(e);
    var e1 := TapTaken(e);
    if ev == InnerFails {
      FailureKeepsSound(e1);
    } else if ev == BodyDropped {
      ClosingKeepsSound(e1);
    }
  }

  lemma TapAdvances(e: Entry, ev: BodyEvent)
    requires Sound(e) && BodyEnabled(e, ev)
    requires ev == InnerEnds || ev == CloseInput || ev == TapGone || ev == YieldEnd
    ensures Sound(BodyNext(e, ev))
  {
  }

  lemma BodyKeepsSound(e: Entry, ev: BodyEvent)
    requires Sound(e) && BodyEnabled(e, ev)
    ensures Sound(BodyNext(e, ev))
  {
    if TakesTap(ev) {
      TapIsTaken(e, ev);
    } else {
      FramesMove(e, ev);
    }
  }

  lemma FramesMove(e: Entry, ev: BodyEvent)
    requires Sound(e) && BodyEnabled(e, ev) && !TakesTap(ev)
    ensures Sound(BodyNext(e, ev))
  {
    match ev
    case InnerFrame(frame) => FrameArrives(e, frame);
    case TeeBytes(n) => BytesAreTeed(e, n);
    case Release => FrameLeaves(e);
    case _ => TapAdvances(e, ev);
  }

  lemma BodyKeepsAccounts(e: Entry, ev: BodyEvent)
    requires BodyEnabled(e, ev)
    ensures Accounted(BodyNext(e, ev)) == Accounted(e)
  {
  }

  lemma TakenFlows(teed: seq<byte>, taken: seq<byte>, pipe: seq<byte>, n: nat)
    requires Flows(teed, taken, pipe) && n <= |pipe|
    ensures Flows(teed, taken + pipe[..n], pipe[n..])
  {
    assert taken + pipe == taken + pipe[..n] + pipe[n..];
  }

  lemma TakenLands(taken: seq<byte>, disk: seq<byte>, chunk: seq<byte>)
    requires Lands(taken, disk, [], true)
    ensures Lands(taken + chunk, disk, chunk, true)
  {
    assert disk + [] == disk;
  }

  lemma ChunkIsTaken(e: Entry, used: int, chunk: seq<byte>, from: nat)
    requires Sound(e) && WorkerEnabled(e, used, Take(chunk, from))
    ensures Sound(WorkerNext(e, used, Take(chunk, from)).0)
  {
    TakenLands(e.rec.taken, e.rec.disk, chunk);
    if e.codec == Identity {
      TakenFlows(e.tee.teed, e.rec.taken, e.tee.pipe, from);
    }
  }

  lemma WrittenLands(taken: seq<byte>, disk: seq<byte>, rest: seq<byte>, n: nat)
    requires Lands(taken, disk, rest, true) && n <= |rest|
    ensures Lands(taken, disk + rest[..n], rest[n..], true)
  {
    assert disk + rest == disk + rest[..n] + rest[n..];
  }

  lemma BytesAreWritten(e: Entry, used: int, n: nat)
    requires Sound(e) && WorkerEnabled(e, used, Write(n))
    ensures Sound(WorkerNext(e, used, Write(n)).0)
  {
    WrittenLands(e.rec.taken, e.rec.disk, e.rec.worker.rest, n);
  }

  /** The worker reaches the end with the label still open only when the tap closed its half on purpose. */
  lemma CompleteIsWhole(e: Entry)
    requires Sound(e) && e.rec.worker == Ending && e.acct.outcome == Recording && e.codec == Identity
    ensures e.body.ended && !e.body.failed && e.rec.disk == DataBytes(e.body.polled)
  {
    assert e.tee.tap == Open(false);
    assert e.tee.teed + [] == e.tee.teed && e.rec.taken + [] == e.rec.taken && e.rec.disk + [] == e.rec.disk;
  }

  lemma WorkerStops(e: Entry, used: int, ev: WorkerEvent)
    requires Sound(e) && WorkerEnabled(e, used, ev)
    requires WorkerNext(e, used, ev).0.rec.worker == Finished
    ensures Sound(WorkerNext(e, used, ev).0)
  {
    if ev == Completes && e.acct.outcome == Recording && e.codec == Identity {
      CompleteIsWhole(e);
    }
  }

  lemma WorkerReserves(e: Entry, used: int, ev: WorkerEvent)
    requires Sound(e) && WorkerEnabled(e, used, ev)
    requires ev == Reserve || ev == Reserved
    ensures Sound(WorkerNext(e, used, ev).0)
  {
  }

  lemma WorkerTurns(e: Entry, used: int, ev: WorkerEvent)
    requires Sound(e) && WorkerEnabled(e, used, ev)
    requires ev == TakesEnd || ev == Flushed
    ensures Sound(WorkerNext(e, used, ev).0)
  {
    assert e.rec.disk + [] == e.rec.disk;
  }

  lemma WorkerKeepsSound(e: Entry, used: int, ev: WorkerEvent)
    requires Sound(e) && WorkerEnabled(e, used, ev)
    ensures Sound(WorkerNext(e, used, ev).0)
  {
    match ev
    case Take(chunk, from) => ChunkIsTaken(e, used, chunk, from);
    case Write(n) => BytesAreWritten(e, used, n);
    case TakesEnd => WorkerTurns(e, used, ev);
    case Flushed => WorkerTurns(e, used, ev);
    case Reserve => WorkerReserves(e, used, ev);
    case Reserved => WorkerReserves(e, used, ev);
    case _ => WorkerStops(e, used, ev);
  }

  lemma WorkerKeepsAccounts(e: Entry, used: int, ev: WorkerEvent)
    requires WorkerEnabled(e, used, ev)
    ensures var (e', used') := WorkerNext(e, used, ev);
            Accounted(e') - Accounted(e) == used' - used && (used' > used ==> used' <= e.limit)
  {
  }

  lemma StoreKeepsSound(e: Entry, used: int, ev: StoreEvent)
    requires Sound(e) && StoreEnabled(e, ev) && e.acct.reserved >= 0
    ensures var (e', used') := StoreNext(e, used, ev);
            Sound(e') && Accounted(e') - Accounted(e) == used' - used && used' <= used
  {
  }

  /** A step that leaves the body, the pipe, the worker and the label alone keeps what is said about them. */
  ghost predicate SameRecording(e: Entry, e': Entry) {
    e' == e.(acct := e.acct.(section := e'.acct.section, reserved := e'.acct.reserved), view := e'.view)
  }

  lemma SameRecordingSound(e: Entry, e': Entry)
    requires Sound(e) && SameRecording(e, e') && Reserves(e') && LaidOut(e')
    requires e'.acct.section.Adding? && !e'.acct.section.forLayout ==> e'.acct.section == e.acct.section
    ensures Sound(e')
  {
  }

  lemma LayoutKeepsReserves(e: Entry, used: int, ev: LayoutEvent)
    requires Reserves(e) && LayoutEnabled(e, used, ev)
    ensures Reserves(LayoutNext(e, used, ev).0)
  {
  }

  lemma LayoutKeepsLaidOut(e: Entry, used: int, ev: LayoutEvent)
    requires Reserves(e) && LaidOut(e) && LayoutEnabled(e, used, ev)
    ensures LaidOut(LayoutNext(e, used, ev).0)
  {
  }

  lemma LayoutKeepsSound(e: Entry, used: int, ev: LayoutEvent)
    requires Sound(e) && LayoutEnabled(e, used, ev)
    ensures Sound(LayoutNext(e, used, ev).0)
  {
    LayoutKeepsReserves(e, used, ev);
    LayoutKeepsLaidOut(e, used, ev);
    var e' := LayoutNext(e, used, ev).0;
    assert SameRecording(e, e');
    SameRecordingSound(e, e');
  }

  lemma LayoutKeepsAccounts(e: Entry, used: int, ev: LayoutEvent)
    requires LayoutEnabled(e, used, ev)
    requires Reserves(e)
    ensures var (e', used') := LayoutNext(e, used, ev);
            Accounted(e') - Accounted(e) == used' - used && (used' > used ==> used' <= e.limit)
  {
  }

  // ----- One step, seen from both sides -----

  lemma StepKeepsSound(e: Entry, used: int, ev: Event)
    requires Sound(e) && Enabled(e, used, ev)
    ensures var (e', used') := Next(e, used, ev);
            Sound(e') && Accounted(e') - Accounted(e) == used' - used && (used' > used ==> used' <= e.limit)
  {
    match ev
    case Body(b) => BodyKeepsSound(e, b); BodyKeepsAccounts(e, b);
    case Worker(w) => WorkerKeepsSound(e, used, w); WorkerKeepsAccounts(e, used, w);
    case Store(s) => StoreKeepsSound(e, used, s);
    case Layout(l) => LayoutKeepsSound(e, used, l); LayoutKeepsAccounts(e, used, l);
  }

  lemma NextKeepsIdentity(e: Entry, used: int, ev: Event)
    requires Enabled(e, used, ev)
    ensures var e' := Next(e, used, ev).0; e'.key == e.key && e'.limit == e.limit && e'.codec == e.codec
  {
  }

  /**
    What never goes back: the label once settled, cancellation, a finished layout, and the bytes of
    a complete recording.
   */
  ghost predicate Sticks(e: Entry, e': Entry) {
    && (e.acct.outcome != Recording ==> e'.acct.outcome == e.acct.outcome)
    && (e.acct.cancelled ==> e'.acct.cancelled)
    && (e.held.dropped ==> e'.held.dropped)
    && (e.view.status == Ready ==> e'.view.status == Ready)
    && (e.acct.outcome == Complete ==> e'.rec.disk == e.rec.disk && e'.rec.total == e.rec.total)
    && e'.limit == e.limit && e'.key == e.key && e'.codec == e.codec
  }

  lemma BodySticks(e: Entry, ev: BodyEvent)
    requires BodyEnabled(e, ev)
    ensures Sticks(e, BodyNext(e, ev))
  {
  }

  lemma WorkerSticks(e: Entry, used: int, ev: WorkerEvent)
    requires Settled(e) && WorkerEnabled(e, used, ev)
    ensures Sticks(e, WorkerNext(e, used, ev).0)
  {
  }

  lemma StoreSticks(e: Entry, used: int, ev: StoreEvent)
    requires StoreEnabled(e, ev) && e.acct.reserved >= 0
    ensures Sticks(e, StoreNext(e, used, ev).0)
  {
  }

  lemma LayoutSticks(e: Entry, used: int, ev: LayoutEvent)
    requires Reserves(e) && LayoutEnabled(e, used, ev)
    ensures Sticks(e, LayoutNext(e, used, ev).0)
  {
  }

  lemma StepSticks(e: Entry, used: int, ev: Event)
    requires Sound(e) && Enabled(e, used, ev)
    ensures Sticks(e, Next(e, used, ev).0)
  {
    match ev
    case Body(b) => BodySticks(e, b);
    case Worker(w) => WorkerSticks(e, used, w);
    case Store(t) => StoreSticks(e, used, t);
    case Layout(l) => LayoutSticks(e, used, l);
  }

  /** Frames are never dropped or reordered on the way to the consumer, and nothing written is taken back. */
  ghost predicate Grows(e: Entry, e': Entry) {
    && e.body.polled <= e'.body.polled && e.body.yielded <= e'.body.yielded
    && e.tee.teed <= e'.tee.teed && e.rec.disk <= e'.rec.disk
  }

  lemma BodyGrows(e: Entry, ev: BodyEvent)
    requires BodyEnabled(e, ev)
    ensures Grows(e, BodyNext(e, ev))
  {
  }

  lemma WorkerGrows(e: Entry, used: int, ev: WorkerEvent)
    requires WorkerEnabled(e, used, ev)
    ensures Grows(e, WorkerNext(e, used, ev).0)
  {
  }

  lemma HistoriesGrow(e: Entry, used: int, ev: Event)
    requires Enabled(e, used, ev)
    ensures Grows(e, Next(e, used, ev).0)
  {
    match ev
    case Body(b) => BodyGrows(e, b);
    case Worker(w) => WorkerGrows(e, used, w);
    case _ =>
  }

  /** A frame is released only when all its bytes are in the pipe or the tap is gone. */
  lemma ReleaseMeansTeed(e: Entry, used: int)
    requires Sound(e) && Enabled(e, used, Body(Release))
    ensures var e' := Next(e, used, Body(Release)).0;
            e'.body.yielded == e.body.polled && (e'.tee.tap == Gone || e.tee.teed == DataBytes(e'.body.yielded))
  {
    assert e.tee.tap.Open? ==> e.tee.teed + [] == e.tee.teed;
  }

  /**
    Losing the budget or the disk, the stream (which a decoder may have read to its end before), or the
    consumer before the end.
   */
  predicate Loses(e: Entry, ev: Event) {
    || ev == Worker(OverBudget) || ev == Worker(WriteFails) || ev == Worker(TakeFails)
    || (ev == Body(InnerFails) && e.codec == Identity)
    || (e.acct.outcome != Complete && ev.Body? && ev.body != WorkerJoined && TakesTap(ev.body))
  }

  /** A label from which Complete can no longer be reached. */
  predicate NeverComplete(e: Entry) {
    e.acct.outcome == Partial || e.acct.outcome == Unavailable
  }

  lemma BodyLoss(e: Entry, ev: BodyEvent)
    requires Settled(e) && (!e.tee.tap.Open? ==> e.acct.outcome != Recording)
    requires BodyEnabled(e, ev) && Loses(e, Body(ev))
    ensures NeverComplete(BodyNext(e, ev))
  {
  }

  lemma WorkerLoss(e: Entry, used: int, ev: WorkerEvent)
    requires Settled(e) && WorkerEnabled(e, used, ev) && Loses(e, Worker(ev))
    ensures NeverComplete(WorkerNext(e, used, ev).0)
  {
  }

  lemma LossIsNeverComplete(e: Entry, used: int, ev: Event)
    requires Sound(e) && Enabled(e, used, ev) && Loses(e, ev)
    ensures NeverComplete(Next(e, used, ev).0)
  {
    match ev
    case Body(b) => BodyLoss(e, b);
    case Worker(w) => WorkerLoss(e, used, w);
  }

  /** Whatever happens, the disk holds a prefix of the data; a complete recording holds it all. */
  lemma DiskIsPrefixOfData(e: Entry)
    requires Sound(e) && e.codec == Identity
    ensures e.rec.disk <= DataBytes(e.body.polled)
    ensures e.acct.outcome == Complete ==> e.rec.disk == DataBytes(e.body.polled) && e.rec.total == |e.rec.disk|
  {
    assert e.rec.taken <= e.tee.teed;
  }

  // ----- A layout cancelled in time -----

  /** A layout whose token or entry was cancelled before the last look at the flags. */
  predicate Doomed(e: Entry) {
    && (e.view.token || e.acct.cancelled)
    && (e.view.job.Formatting? || e.view.job.Formatted? || e.view.job.Aborting? || e.view.job.Reporting?)
  }

  /** Such a layout is still under way, or has failed and was not started again. */
  predicate Unpublishable(e: Entry) {
    Doomed(e) || (e.view.job == NoJob && e.view.status == Failed)
  }

  /** Cancelling, on either side, before the job's last look at the flags makes its layout such a one. */
  lemma CancellingDooms(e: Entry, used: int, ev: Event)
    requires Enabled(e, used, ev) && (e.view.job.Formatting? || e.view.job.Formatted?)
    requires ev == Layout(CancelToken) || ev == Store(Remove) || ev == Store(CancelAgain)
    ensures Unpublishable(Next(e, used, ev).0)
  {
  }

  lemma LayoutKeepsUnpublishable(e: Entry, used: int, ev: LayoutEvent)
    requires Sound(e) && Unpublishable(e) && LayoutEnabled(e, used, ev) && ev != Start
    ensures Unpublishable(LayoutNext(e, used, ev).0)
  {
  }

  lemma OthersLeaveTheJob(e: Entry, used: int, ev: Event)
    requires Enabled(e, used, ev) && !ev.Layout?
    ensures var e' := Next(e, used, ev).0;
            e'.view.job == e.view.job && e'.view.token == e.view.token && e'.view.status == e.view.status
            && (e.acct.cancelled ==> e'.acct.cancelled)
  {
  }

  /** No step of anybody publishes such a layout; only a new start leads out. */
  lemma StepKeepsUnpublishable(e: Entry, used: int, ev: Event)
    requires Sound(e) && Unpublishable(e) && Enabled(e, used, ev) && ev != Layout(Start)
    ensures Unpublishable(Next(e, used, ev).0)
  {
    match ev
    case Layout(l) => LayoutKeepsUnpublishable(e, used, l);
    case _ => OthersLeaveTheJob(e, used, ev);
  }

  // ----- Runs of one entry -----

  /** Steps in a row with nobody in between, each enabled when its turn comes. */
  function LocalRun(e: Entry, used: int, steps: seq<Event>): Option<(Entry, int)> {
    if steps == [] then Some((e, used))
    else
      var before := LocalRun(e, used, steps[..|steps| - 1]);
      var last := steps[|steps| - 1];
      if before.None? || !Enabled(before.value.0, before.value.1, last) then None
      else Some(Next(before.value.0, before.value.1, last))
  }

  lemma LocalRunStep(e: Entry, used: int, steps: seq<Event>, e': Entry, used': int, step: Event)
    requires LocalRun(e, used, steps) == Some((e', used')) && Enabled(e', used', step)
    ensures LocalRun(e, used, steps + [step]) == Some(Next(e', used', step))
  {
    assert (steps + [step])[..|steps|] == steps;
  }
}
