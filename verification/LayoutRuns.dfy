/** The layout job over whole runs: what it reserves, what it publishes, and what a cancellation undoes. */
module LayoutRuns {
  import opened Bytes
  import opened CheckedReader
  import opened JsonLayout
  import opened Recording
  import opened Budget
  import opened Orphans

  /**
    In every run: a live, complete entry without a job reserves its raw bytes, and its layout's when one is
    ready; and a start finds no job under way and nothing an earlier one left reserved.
   */
  lemma LayoutReservation(events: seq<SysEvent>, i: nat)
    requires Run(EMPTY, events).Some? && i < |Run(EMPTY, events).value.entries|
    ensures var s := Run(EMPTY, events).value; var e := s.entries[i];
            && (e.acct.outcome == Complete && !e.acct.cancelled && !e.held.dropped && e.view.job == NoJob ==>
                  e.acct.reserved == |e.rec.disk| + (if e.view.status == Ready then e.view.layoutTotal else 0))
            && (e.view.status == Building <==> e.view.job != NoJob)
            && (Enabled(e, s.used, Layout(Start)) ==> e.view.job == NoJob && LayoutHolds(e) == 0)
  {
    RunKeepsInv(events);
  }

  /**
    In every run: an open layout is a layout of the recorded bytes, and unless it is empty it is covered
    by the reservation exactly when nobody has cancelled the entry.
   */
  lemma OpenLayoutIsReserved(events: seq<SysEvent>, i: nat)
    requires Run(EMPTY, events).Some? && i < |Run(EMPTY, events).value.entries|
    requires Run(EMPTY, events).value.entries[i].view.layoutFile
    ensures var e := Run(EMPTY, events).value.entries[i];
            && e.acct.outcome == Complete && e.view.status == Ready
            && e.view.layoutTotal == |Format(e.rec.disk)|
            && (e.view.layoutTotal > 0 ==>
                  (e.acct.reserved == |e.rec.disk| + e.view.layoutTotal <==> !e.acct.cancelled))
  {
    RunKeepsInv(events);
  }

  lemma BracketsLayout()
    ensures Format([91, 93]) == [91, 10, 32, 32, 10, 93]
  {
    var s: seq<byte> := [91, 93];
    assert s[..1] == [91] && s[..0] == [];
    assert PlaceAfter(s[..1]) == Place(false, false, 1);
    assert Spaces(2) == [32, 32] && Spaces(0) == [];
  }

  const STORED_COPY := Whole(Key(false, 1), 100, [91, 93])

  /** The copy `[]` after its layout was printed and the flags were looked at, not yet published. */
  const LAYOUT_CHECKED :=
    STORED_COPY.(acct := Account(Complete, false, Free, 8, 2),
                 view := JsonView(Building, false, Publishing(6), 0, false))

  /** The copy `[]` has been written. */
  const COPY_WRITTEN := Sys(2, [], [StoreJob([91, 93], 100, OnDisk, false)])

  lemma CopyIsWritten() returns (events: seq<SysEvent>)
    ensures Run(EMPTY, events) == Some(COPY_WRITTEN)
  {
    var job := StoreJob([91, 93], 100, Waiting, false);
    RunStep([], EMPTY, JobBegins([91, 93], 100));
    assert EMPTY.jobs + [job] == [job];
    events := [] + [JobBegins([91, 93], 100)];
    OnlyCopySteps(events, 0, job, JobReserves(0), 2, job.(stage := Held));
    events := events + [JobReserves(0)];
    OnlyCopySteps(events, 2, job.(stage := Held), JobWrites(0), 2, job.(stage := OnDisk));
    events := events + [JobWrites(0)];
  }

  lemma CopyIsStored() returns (events: seq<SysEvent>)
    ensures Run(EMPTY, events).Some?
    ensures Run(EMPTY, events).value.used == 2
            && Run(EMPTY, events).value.entries == [STORED_COPY]
  {
    events := CopyIsWritten();
    var handOver := JobHandsOver(0, Key(false, 1), None);
    assert [] + [STORED_COPY] == [STORED_COPY];
    RunStep(events, COPY_WRITTEN, handOver);
    events := events + [handOver];
  }

  /** One step of the first entry. */
  lemma LocalStep(events: seq<SysEvent>, e: Entry, used: int, step: Event)
    requires Run(EMPTY, events).Some?
    requires Run(EMPTY, events).value.entries == [e] && Run(EMPTY, events).value.used == used
    requires Enabled(e, used, step)
    ensures var next := Run(EMPTY, events + [Local(0, step)]);
            next.Some? && next.value.entries == [Next(e, used, step).0] && next.value.used == Next(e, used, step).1
  {
    RunStep(events, Run(EMPTY, events).value, Local(0, step));
    assert [e][0 := Next(e, used, step).0] == [Next(e, used, step).0];
  }

  lemma LayoutIsChecked() returns (events: seq<SysEvent>)
    ensures Run(EMPTY, events).Some?
    ensures Run(EMPTY, events).value.used == 8 && Run(EMPTY, events).value.entries == [LAYOUT_CHECKED]
  {
    BracketsLayout();
    events := CopyIsStored();
    var e0 := STORED_COPY;
    LocalStep(events, e0, 2, Layout(Start));
    events := events + [Local(0, Layout(Start))];
    var e1 := e0.(view := JsonView(Building, false, Formatting(0), 0, false));
    LocalStep(events, e1, 2, Layout(LayoutReserve(6)));
    events := events + [Local(0, Layout(LayoutReserve(6)))];
    var e2 := e1.(acct := e1.acct.(section := Adding(6, true)));
    LocalStep(events, e2, 8, Layout(LayoutReserved));
    events := events + [Local(0, Layout(LayoutReserved))];
    var e3 := e2.(acct := LAYOUT_CHECKED.acct, view := e2.view.(job := Formatting(6)));
    LocalStep(events, e3, 8, Layout(LayoutDone));
    events := events + [Local(0, Layout(LayoutDone))];
    LocalStep(events, e3.LayoutAt(Formatted(6)), 8, Layout(CheckFlags));
    events := events + [Local(0, Layout(CheckFlags))];
  }

  /**
    It can happen: cancellation between the job's last look at the flags and its publication leaves an
    open layout that nothing reserves.
   */
  lemma CancelledEntryMayHoldALayout() returns (events: seq<SysEvent>)
    ensures Run(EMPTY, events).Some?
    ensures var s := Run(EMPTY, events).value;
            && s.used == 0 && |s.entries| == 1
            && s.entries[0].acct.cancelled && s.entries[0].view.layoutFile && s.entries[0].view.layoutTotal == 6
  {
    events := LayoutIsChecked();
    LocalStep(events, LAYOUT_CHECKED, 8, Store(Remove));
    events := events + [Local(0, Store(Remove))];
    var e1 := CancelBegun(LAYOUT_CHECKED).(held := Holders(false, false, false));
    LocalStep(events, e1, 8, Store(SectionEnds));
    events := events + [Local(0, Store(SectionEnds))];
    LocalStep(events, e1.(acct := e1.acct.(section := Free)), 0, Layout(Publish));
    events := events + [Local(0, Layout(Publish))];
  }

  /** The entry exists and its layout, cancelled in time, is still under way or has failed. */
  ghost predicate Blocked(s: Sys, i: nat) {
    i < |s.entries| && Unpublishable(s.entries[i])
  }

  lemma LocalStaysBlocked(s: Sys, k: nat, step: Event, i: nat)
    requires Inv(s) && Possible(s, Local(k, step)) && Blocked(s, i)
    requires k == i ==> step != Layout(Start)
    ensures Blocked(After(s, Local(k, step)), i)
  {
    if k == i {
      StepKeepsUnpublishable(s.entries[i], s.used, step);
    }
  }

  lemma RecordStaysBlocked(s: Sys, key: Key, limit: nat, codec: Codec, previous: Option<nat>, i: nat)
    requires Possible(s, Record(key, limit, codec, previous)) && Blocked(s, i)
    ensures Blocked(After(s, Record(key, limit, codec, previous)), i)
  {
  }

  /** Pushing the entry out of its store may only cancel it. */
  lemma HandOverStaysBlocked(s: Sys, j: nat, key: Key, previous: Option<nat>, i: nat)
    requires Possible(s, JobHandsOver(j, key, previous)) && Blocked(s, i)
    ensures Blocked(After(s, JobHandsOver(j, key, previous)), i)
  {
    if previous == Some(i) {
      OthersLeaveTheJob(s.entries[i], s.used, Store(Remove));
    }
  }

  lemma JobStaysBlocked(s: Sys, ev: SysEvent, i: nat)
    requires !ev.Record? && !ev.Local? && !ev.JobHandsOver? && Possible(s, ev) && Blocked(s, i)
    ensures Blocked(After(s, ev), i)
  {
  }

  /** Nobody's step but a new start leads out. */
  lemma StaysBlocked(s: Sys, ev: SysEvent, i: nat)
    requires Inv(s) && Possible(s, ev) && ev != Local(i, Layout(Start)) && Blocked(s, i)
    ensures Blocked(After(s, ev), i)
  {
    match ev
    case Local(k, step) => LocalStaysBlocked(s, k, step, i);
    case Record(key, limit, codec, previous) => RecordStaysBlocked(s, key, limit, codec, previous, i);
    case JobHandsOver(j, key, previous) => HandOverStaysBlocked(s, j, key, previous, i);
    case _ => JobStaysBlocked(s, ev, i);
  }

  lemma {:induction false} RunStaysBlocked(first: seq<SysEvent>, more: seq<SysEvent>, i: nat)
    requires Run(EMPTY, first + more).Some?
    requires Run(EMPTY, first).Some? ==> Blocked(Run(EMPTY, first).value, i)
    requires Local(i, Layout(Start)) !in more
    ensures Blocked(Run(EMPTY, first + more).value, i)
    decreases |more|
  {
    if more == [] {
      assert first + more == first;
    } else {
      var front, last := more[..|more| - 1], more[|more| - 1];
      assert first + more == first + front + [last];
      RunSplits(first + front, last);
      RunStaysBlocked(first, front, i);
      RunKeepsInv(first + front);
      StaysBlocked(Run(EMPTY, first + front).value, last, i);
    }
  }

  /**
    In every run: a layout cancelled before its job last looks at the flags is published by no
    continuation without a new start.
   */
  lemma CancelledLayoutIsNotPublished(first: seq<SysEvent>, more: seq<SysEvent>, i: nat)
    requires Run(EMPTY, first + more).Some?
    requires Run(EMPTY, first).Some? ==> Blocked(Run(EMPTY, first).value, i)
    requires Local(i, Layout(Start)) !in more
    ensures Blocked(Run(EMPTY, first + more).value, i) && Run(EMPTY, first + more).value.entries[i].view.status != Ready
  {
    RunStaysBlocked(first, more, i);
    RunKeepsInv(first + more);
  }

  /**
    In every run: when the user or the store cancels before the job last looks at the flags, no continuation
    publishes the layout without a new start.
   */
  lemma CancelIsObeyed(first: seq<SysEvent>, i: nat, cancel: Event, more: seq<SysEvent>)
    requires Run(EMPTY, first + [Local(i, cancel)] + more).Some?
    requires cancel == Layout(CancelToken) || cancel == Store(Remove)
    requires Run(EMPTY, first).Some? ==>
               var entries := Run(EMPTY, first).value.entries;
               i < |entries| && (entries[i].view.job.Formatting? || entries[i].view.job.Formatted?)
    requires Local(i, Layout(Start)) !in more
    ensures var entries := Run(EMPTY, first + [Local(i, cancel)] + more).value.entries;
            i < |entries| && entries[i].view.status != Ready
  {
    var upTo := first + [Local(i, cancel)];
    RunContinues(upTo, more);
    RunSplits(first, Local(i, cancel));
    CancellingDooms(Run(EMPTY, first).value.entries[i], Run(EMPTY, first).value.used, cancel);
    CancelledLayoutIsNotPublished(upTo, more, i);
  }
}
