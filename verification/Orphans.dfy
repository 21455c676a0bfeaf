/**
  Copies abandoned on their way into a store: which of them stay charged, for how long, and when the
  whole budget comes back.
 */
module Orphans {
  import opened Bytes
  import opened Recording
  import opened Budget

  /** What the steps say about a copy: whether it was abandoned, and whether it was written. */
  ghost predicate Tracks(events: seq<SysEvent>, j: nat, job: StoreJob) {
    && (job.abandoned <==> JobAbandoned(j) in events)
    && (job.stage == OnDisk ==> JobWrites(j) in events)
    && (job.stage == Waiting || job.stage == Held ==> JobWrites(j) !in events)
    && (job.stage == Over && job.abandoned ==> JobWrites(j) !in events)
  }

  ghost predicate AllTracked(events: seq<SysEvent>, jobs: seq<StoreJob>) {
    && (forall j :: 0 <= j < |jobs| ==> Tracks(events, j, jobs[j]))
    && (forall j: nat :: j >= |jobs| ==> JobAbandoned(j) !in events && JobWrites(j) !in events)
  }

  lemma StepIsTracked(events: seq<SysEvent>, s: Sys, ev: SysEvent)
    requires AllTracked(events, s.jobs) && Possible(s, ev)
    ensures AllTracked(events + [ev], After(s, ev).jobs)
  {
    forall other: SysEvent
      ensures other in events + [ev] <==> other in events || other == ev
    {
    }
  }

  lemma {:induction false} RunIsTracked(events: seq<SysEvent>)
    requires Run(EMPTY, events).Some?
    ensures AllTracked(events, Run(EMPTY, events).value.jobs)
  {
    if events != [] {
      var front, last := events[..|events| - 1], events[|events| - 1];
      RunIsTracked(front);
      StepIsTracked(front, Run(EMPTY, front).value, last);
      assert front + [last] == events;
    }
  }

  /** After any run the orphans are exactly the copies that were both abandoned and written. */
  lemma OrphansWereAbandonedAndWritten(events: seq<SysEvent>, j: nat)
    requires Run(EMPTY, events).Some?
    ensures var jobs := Run(EMPTY, events).value.jobs;
            j < |jobs| && Orphan(jobs[j]) <==> JobAbandoned(j) in events && JobWrites(j) in events
  {
    RunIsTracked(events);
  }

  /** Nothing holds a reservation any more: every entry is cancelled or dropped, no copy is on its way into a store. */
  ghost predicate Quiet(s: Sys) {
    && AllReleased(s.entries)
    && forall j :: 0 <= j < |s.jobs| ==> s.jobs[j].stage != Held && (s.jobs[j].stage == OnDisk ==> s.jobs[j].abandoned)
  }

  ghost predicate AllReleased(entries: seq<Entry>) {
    forall i :: 0 <= i < |entries| ==>
                  (entries[i].acct.cancelled || entries[i].held.dropped) && entries[i].acct.section.Free?
  }

  lemma {:induction false} NothingAccounted(entries: seq<Entry>)
    requires AllSound(entries) && AllReleased(entries)
    ensures Sum(entries) == 0
  {
    if entries != [] {
      NothingAccounted(entries[..|entries| - 1]);
    }
  }

  lemma {:induction false} NoneInFlight(jobs: seq<StoreJob>)
    ensures SumJobs(jobs) == 0 <==> forall j :: 0 <= j < |jobs| ==> InFlight(jobs[j]) == 0
  {
    if jobs != [] {
      NoneInFlight(jobs[..|jobs| - 1]);
      assert jobs == jobs[..|jobs| - 1] + [jobs[|jobs| - 1]];
    }
  }

  /**
    When nothing holds a reservation any more, the whole budget is free again exactly when no copy of
    any size was both abandoned and written.
   */
  lemma BudgetComesBackUnlessOrphaned(events: seq<SysEvent>)
    requires Run(EMPTY, events).Some? && Quiet(Run(EMPTY, events).value)
    ensures var s := Run(EMPTY, events).value;
            s.used == 0 <==> forall j :: 0 <= j < |s.jobs| && JobAbandoned(j) in events && JobWrites(j) in events ==>
                                           s.jobs[j].bytes == []
  {
    RunKeepsInv(events);
    RunIsTracked(events);
    var s := Run(EMPTY, events).value;
    NothingAccounted(s.entries);
    NoneInFlight(s.jobs);
    forall j | 0 <= j < |s.jobs|
      ensures InFlight(s.jobs[j])
           == if JobAbandoned(j) in events && JobWrites(j) in events then |s.jobs[j].bytes| else 0
    {
      assert Tracks(events, j, s.jobs[j]);
    }
  }

  /** An orphan stays, and stays charged, in every continuation. */
  lemma OrphansStayCharged(first: seq<SysEvent>, later: seq<SysEvent>, j: nat)
    requires Run(EMPTY, first + later).Some?
    requires JobAbandoned(j) in first && JobWrites(j) in first
    ensures Run(EMPTY, first).Some? && j < |Run(EMPTY, first).value.jobs| <= |Run(EMPTY, first + later).value.jobs|
    ensures Run(EMPTY, first + later).value.jobs[j] == Run(EMPTY, first).value.jobs[j]
    ensures Run(EMPTY, first + later).value.used >= |Run(EMPTY, first).value.jobs[j].bytes|
  {
    RunContinues(first, later);
    OrphansWereAbandonedAndWritten(first, j);
    RunKeepsInv(first + later);
    var t := Run(EMPTY, first + later).value;
    AccountsAreNatural(t.entries);
    OneOfTheJobs(t.jobs, j);
  }

  lemma {:induction false} OneOfTheJobs(jobs: seq<StoreJob>, j: nat)
    requires j < |jobs|
    ensures InFlight(jobs[j]) <= SumJobs(jobs)
  {
    if j < |jobs| - 1 {
      OneOfTheJobs(jobs[..|jobs| - 1], j);
    }
  }

  /** One step of the only copy, while no store holds anything. */
  lemma OnlyCopySteps(events: seq<SysEvent>, used: int, job: StoreJob, ev: SysEvent, used': int, job': StoreJob)
    requires Run(EMPTY, events) == Some(Sys(used, [], [job])) && Possible(Sys(used, [], [job]), ev)
    requires After(Sys(used, [], [job]), ev) == Sys(used', [], [job][0 := job'])
    ensures Run(EMPTY, events + [ev]) == Some(Sys(used', [], [job']))
  {
    RunStep(events, Sys(used, [], [job]), ev);
    assert [job][0 := job'] == [job'];
  }

  lemma ReservedThenAbandoned() returns (events: seq<SysEvent>)
    ensures Run(EMPTY, events) == Some(Sys(1, [], [StoreJob([0], 1, Held, true)])) && JobAbandoned(0) in events
  {
    var job := StoreJob([0], 1, Waiting, false);
    RunStep([], EMPTY, JobBegins([0], 1));
    assert EMPTY.jobs + [job] == [job];
    events := [] + [JobBegins([0], 1)];
    OnlyCopySteps(events, 0, job, JobReserves(0), 1, job.(stage := Held));
    events := events + [JobReserves(0)];
    OnlyCopySteps(events, 1, job.(stage := Held), JobAbandoned(0), 1, StoreJob([0], 1, Held, true));
    events := events + [JobAbandoned(0)];
  }

  /**
    It can happen: a copy of one byte, abandoned while it is written, keeps that byte reserved, with
    nobody left to give it back.
   */
  lemma AbandonedCopyStaysCharged() returns (events: seq<SysEvent>)
    ensures Run(EMPTY, events).Some?
    ensures Quiet(Run(EMPTY, events).value) && Run(EMPTY, events).value.used == 1
  {
    events := ReservedThenAbandoned();
    var held := StoreJob([0], 1, Held, true);
    OnlyCopySteps(events, 1, held, JobWrites(0), 1, held.(stage := OnDisk));
    events := events + [JobWrites(0)];
  }

  /** The same copy gives its reservation back when writing it fails. */
  lemma AbandonedCopyMayFail() returns (events: seq<SysEvent>)
    ensures Run(EMPTY, events).Some? && JobAbandoned(0) in events
    ensures Quiet(Run(EMPTY, events).value) && Run(EMPTY, events).value.used == 0
  {
    events := ReservedThenAbandoned();
    var held := StoreJob([0], 1, Held, true);
    OnlyCopySteps(events, 1, held, JobFails(0), 0, held.(stage := Over));
    events := events + [JobFails(0)];
  }
}
