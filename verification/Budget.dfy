/**
  Both stores together: every entry ever created, every store job in flight and
  the one shared counter. Runs are sequences of atomic steps of any party.
 */
module Budget {
  import opened Bytes
  import opened Recording

  datatype Stage = Waiting | Held | OnDisk | Over

  /**
    A request or replacement copy on its way into a store. `abandoned` says that its awaiting side is
    gone: the copy is still reserved and written, but nobody is left to put it into the store.
   */
  datatype StoreJob = StoreJob(bytes: seq<byte>, limit: nat, stage: Stage, abandoned: bool)

  datatype Sys = Sys(used: int, entries: seq<Entry>, jobs: seq<StoreJob>)

  const EMPTY := Sys(0, [], [])

  /** The entry a store lists under the same key, which an insertion pushes out. */
  predicate Displaces(s: Sys, key: Key, previous: Option<nat>) {
    match previous
    case Some(i) => i < |s.entries| && s.entries[i].held.stored && s.entries[i].key == key
    case None => forall i | 0 <= i < |s.entries| :: s.entries[i].held.stored ==> s.entries[i].key != key
  }

  datatype SysEvent =
    | Record(key: Key, limit: nat, codec: Codec, previous: Option<nat>)
    | Local(i: nat, step: Event)
    | JobBegins(bytes: seq<byte>, limit: nat)
    | JobReserves(j: nat)
    | JobRefused(j: nat)
    | JobWrites(j: nat)
    | JobFails(j: nat)
    | JobHandsOver(j: nat, key: Key, previous: Option<nat>)
    | JobAbandoned(j: nat)

  predicate Possible(s: Sys, ev: SysEvent) {
    match ev
    case Record(key, _, _, previous) =>
      Displaces(s, key, previous) && (previous.Some? ==> StoreEnabled(s.entries[previous.value], Displace))
    case Local(i, step) =>
      && i < |s.entries| && Enabled(s.entries[i], s.used, step)
    case JobBegins(_, _) => true
    case JobReserves(j) =>
      j < |s.jobs| && s.jobs[j].stage == Waiting && s.used + |s.jobs[j].bytes| <= s.jobs[j].limit
    case JobRefused(j) =>
      j < |s.jobs| && s.jobs[j].stage == Waiting && s.used + |s.jobs[j].bytes| > s.jobs[j].limit
    case JobWrites(j) => j < |s.jobs| && s.jobs[j].stage == Held
    case JobFails(j) => j < |s.jobs| && s.jobs[j].stage == Held
    case JobHandsOver(j, key, previous) =>
      && j < |s.jobs| && s.jobs[j].stage == OnDisk && !s.jobs[j].abandoned
      && Displaces(s, key, previous) && (previous.Some? ==> Removable(s.entries[previous.value]))
    case JobAbandoned(j) => j < |s.jobs| && s.jobs[j].stage != Over && !s.jobs[j].abandoned
  }

  predicate Removable(e: Entry) {
    StoreEnabled(e, Remove) && e.acct.reserved >= 0
  }

  /** Unlike `record`, which only drops it from the map, handing over a copy cancels the entry it displaces. */
  function PushOut(s: Sys, previous: Option<nat>): seq<Entry>
    requires previous.Some? ==> previous.value < |s.entries| && Removable(s.entries[previous.value])
  {
    match previous
    case None => s.entries
    case Some(i) => s.entries[i := StoreNext(s.entries[i], s.used, Remove).0]
  }

  function After(s: Sys, ev: SysEvent): Sys
    requires Possible(s, ev)
  {
    match ev
    case Record(key, limit, codec, previous) =>
      s.(entries := Displaced(s, previous) + [Fresh(key, limit, codec)])
    case Local(i, step) =>
      var (e, used) := Next(s.entries[i], s.used, step);
      s.(entries := s.entries[i := e], used := used)
    case JobBegins(bytes, limit) => s.(jobs := s.jobs + [StoreJob(bytes, limit, Waiting, false)])
    case JobReserves(j) => JobTo(s, j, Held).(used := s.used + |s.jobs[j].bytes|)
    case JobRefused(j) => JobTo(s, j, Over)
    case JobWrites(j) => JobTo(s, j, OnDisk)
    case JobFails(j) => JobTo(s, j, Over).(used := s.used - |s.jobs[j].bytes|)
    case JobHandsOver(j, key, previous) =>
      JobTo(s, j, Over).(entries := PushOut(s, previous) + [Whole(key, s.jobs[j].limit, s.jobs[j].bytes)])
    case JobAbandoned(j) => s.(jobs := s.jobs[j := s.jobs[j].(abandoned := true)])
  }

  function JobTo(s: Sys, j: nat, stage: Stage): Sys
    requires j < |s.jobs|
  {
    s.(jobs := s.jobs[j := s.jobs[j].(stage := stage)])
  }

  /** `record` drops the entry it displaces from the map and no more. */
  function Displaced(s: Sys, previous: Option<nat>): seq<Entry>
    requires previous.Some? ==> previous.value < |s.entries|
  {
    match previous
    case None => s.entries
    case Some(i) => s.entries[i := LeaveStore(s.entries[i])]
  }

  function LeaveStore(e: Entry): Entry {
    e.(held := e.held.(stored := false))
  }

  /** A run: steps that are each possible when they happen. */
  function Run(s: Sys, events: seq<SysEvent>): Option<Sys> {
    if events == [] then Some(s)
    else
      var before := Run(s, events[..|events| - 1]);
      var last := events[|events| - 1];
      if before.None? || !Possible(before.value, last) then None else Some(After(before.value, last))
  }

  /** A new recording lets the one it displaces go on; a stored copy cancels it. Nothing else changes for it. */
  lemma DisplacedEntryGoesOn(s: Sys, ev: SysEvent, i: nat)
    requires Possible(s, ev) && (ev.Record? || ev.JobHandsOver?) && ev.previous == Some(i)
    ensures var e, e' := s.entries[i], After(s, ev).entries[i];
            && !e'.held.stored && e'.body == e.body && e'.tee == e.tee && e'.rec == e.rec
            && e'.acct.outcome == e.acct.outcome
            && (ev.Record? ==> e'.acct == e.acct && e'.held.handle == e.held.handle && e'.view == e.view)
            && (ev.JobHandsOver? ==>
                  e'.acct.cancelled && e'.acct.reserved == 0 && !e'.held.handle && !e'.view.layoutFile)
  {
  }

  /** A copy that waits is reserved exactly when it fits the budget, and refused otherwise. */
  lemma CopyIsReservedWhenItFits(s: Sys, j: nat)
    requires j < |s.jobs| && s.jobs[j].stage == Waiting
    ensures Possible(s, JobReserves(j)) <==> s.used + |s.jobs[j].bytes| <= s.jobs[j].limit
    ensures Possible(s, JobRefused(j)) <==> s.used + |s.jobs[j].bytes| > s.jobs[j].limit
    ensures Possible(s, JobReserves(j)) ==> After(s, JobReserves(j)).used == s.used + |s.jobs[j].bytes|
    ensures Possible(s, JobRefused(j)) ==> After(s, JobRefused(j)).used == s.used
  {
  }

  // ----- Accounts -----

  function Sum(entries: seq<Entry>): int {
    if entries == [] then 0 else Sum(entries[..|entries| - 1]) + Accounted(entries[|entries| - 1])
  }

  function InFlight(job: StoreJob): nat {
    if job.stage == Held || job.stage == OnDisk then |job.bytes| else 0
  }

  function SumJobs(jobs: seq<StoreJob>): nat {
    if jobs == [] then 0 else SumJobs(jobs[..|jobs| - 1]) + InFlight(jobs[|jobs| - 1])
  }

  lemma {:induction false} SumUpdate(entries: seq<Entry>, i: nat, e: Entry)
    requires i < |entries|
    ensures Sum(entries[i := e]) == Sum(entries) - Accounted(entries[i]) + Accounted(e)
  {
    var front := entries[..|entries| - 1];
    if i < |front| {
      SumUpdate(front, i, e);
      assert entries[i := e][..|entries| - 1] == front[i := e];
    } else {
      assert entries[i := e][..|entries| - 1] == front;
    }
  }

  lemma {:induction false} SumJobsUpdate(jobs: seq<StoreJob>, j: nat, job: StoreJob)
    requires j < |jobs|
    ensures SumJobs(jobs[j := job]) == SumJobs(jobs) - InFlight(jobs[j]) + InFlight(job)
  {
    var front := jobs[..|jobs| - 1];
    if j < |front| {
      SumJobsUpdate(front, j, job);
      assert jobs[j := job][..|jobs| - 1] == front[j := job];
    } else {
      assert jobs[j := job][..|jobs| - 1] == front;
    }
  }

  lemma SumAppend(entries: seq<Entry>, e: Entry)
    ensures Sum(entries + [e]) == Sum(entries) + Accounted(e)
  {
    assert (entries + [e])[..|entries|] == entries;
  }

  // ----- The invariant -----

  ghost predicate UniqueKeys(entries: seq<Entry>) {
    forall i, j :: 0 <= i < j < |entries| && entries[i].held.stored && entries[j].held.stored ==>
                     entries[i].key != entries[j].key
  }

  ghost predicate AllSound(entries: seq<Entry>) {
    forall i :: 0 <= i < |entries| ==> Sound(entries[i])
  }

  ghost predicate Inv(s: Sys) {
    && AllSound(s.entries)
    && UniqueKeys(s.entries)
    && s.used == Sum(s.entries) + SumJobs(s.jobs)
  }

  /** Every limit in force is at most `ceiling`. */
  ghost predicate Capped(s: Sys, ceiling: nat) {
    && (forall i :: 0 <= i < |s.entries| ==> s.entries[i].limit <= ceiling)
    && (forall j :: 0 <= j < |s.jobs| && s.jobs[j].stage != Over ==> s.jobs[j].limit <= ceiling)
  }

  predicate CappedEvent(ev: SysEvent, ceiling: nat) {
    match ev
    case Record(_, limit, _, _) => limit <= ceiling
    case JobBegins(_, limit) => limit <= ceiling
    case _ => true
  }

  lemma NewEntriesAreSound(key: Key, limit: nat, codec: Codec, bytes: seq<byte>)
    ensures Sound(Fresh(key, limit, codec)) && Accounted(Fresh(key, limit, codec)) == 0
    ensures Sound(Whole(key, limit, bytes)) && Accounted(Whole(key, limit, bytes)) == |bytes|
  {
    DataBytesStep([], Data(bytes));
    assert [] + [Data(bytes)] == [Data(bytes)];
    assert [] + bytes == bytes && bytes + [] == bytes;
  }

  lemma LeavingIsSound(e: Entry)
    requires Sound(e) && !e.held.dropped
    ensures Sound(LeaveStore(e)) && Accounted(LeaveStore(e)) == Accounted(e)
  {
  }

  lemma RemovedIsSound(e: Entry, used: int)
    requires Sound(e) && StoreEnabled(e, Remove)
    ensures var e' := StoreNext(e, used, Remove).0;
            Sound(e') && Accounted(e') == Accounted(e) && !e'.held.stored && e'.key == e.key
  {
    StoreKeepsSound(e, used, Remove);
  }

  lemma UpdateKeepsUnique(entries: seq<Entry>, i: nat, e: Entry)
    requires i < |entries| && UniqueKeys(entries)
    requires e.key == entries[i].key && (e.held.stored ==> entries[i].held.stored)
    ensures UniqueKeys(entries[i := e])
  {
  }

  lemma StoredNeverReturns(e: Entry, used: int, step: Event)
    requires Enabled(e, used, step)
    ensures var e' := Next(e, used, step).0;
            e'.key == e.key && e'.limit == e.limit && (e'.held.stored ==> e.held.stored)
  {
  }

  lemma UpdateKeepsSound(entries: seq<Entry>, i: nat, e: Entry)
    requires i < |entries| && AllSound(entries) && Sound(e)
    ensures AllSound(entries[i := e])
  {
    var updated := entries[i := e];
    forall k | 0 <= k < |updated|
      ensures Sound(updated[k])
    {
      assert k != i ==> updated[k] == entries[k];
    }
  }

  lemma EntryChanges(s: Sys, i: nat, e: Entry, used: int)
    requires Inv(s) && i < |s.entries| && Sound(e)
    requires e.key == s.entries[i].key && (e.held.stored ==> s.entries[i].held.stored)
    requires Accounted(e) - Accounted(s.entries[i]) == used - s.used
    ensures Inv(s.(entries := s.entries[i := e], used := used))
  {
    UpdateKeepsSound(s.entries, i, e);
    UpdateKeepsUnique(s.entries, i, e);
    SumUpdate(s.entries, i, e);
  }

  lemma LocalKeepsInv(s: Sys, i: nat, step: Event)
    requires Inv(s) && Possible(s, Local(i, step))
    ensures Inv(After(s, Local(i, step)))
    ensures var s' := After(s, Local(i, step)); s'.used > s.used ==> s'.used <= s.entries[i].limit
  {
    var next := Next(s.entries[i], s.used, step);
    StepKeepsSound(s.entries[i], s.used, step);
    StoredNeverReturns(s.entries[i], s.used, step);
    EntryChanges(s, i, next.0, next.1);
  }

  lemma AppendKeepsUnique(rest: seq<Entry>, e: Entry)
    requires UniqueKeys(rest)
    requires forall i :: 0 <= i < |rest| && rest[i].held.stored ==> rest[i].key != e.key
    ensures UniqueKeys(rest + [e])
  {
  }

  lemma AppendKeepsSound(rest: seq<Entry>, e: Entry)
    requires AllSound(rest) && Sound(e)
    ensures AllSound(rest + [e])
  {
    forall i | 0 <= i < |rest + [e]|
      ensures Sound((rest + [e])[i])
    {
      if i < |rest| {
        assert (rest + [e])[i] == rest[i];
      }
    }
  }

  /** An entry appended under a free key, with what it answers for. */
  lemma InsertKeepsInv(used: int, rest: seq<Entry>, e: Entry, jobs: seq<StoreJob>)
    requires AllSound(rest) && UniqueKeys(rest) && Sound(e)
    requires forall i :: 0 <= i < |rest| && rest[i].held.stored ==> rest[i].key != e.key
    requires used == Sum(rest) + Accounted(e) + SumJobs(jobs)
    ensures Inv(Sys(used, rest + [e], jobs))
  {
    SumAppend(rest, e);
    AppendKeepsUnique(rest, e);
    AppendKeepsSound(rest, e);
  }

  lemma PushedOut(s: Sys, i: nat, e: Entry)
    requires Inv(s) && Displaces(s, e.key, Some(i))
    requires Sound(e) && !e.held.stored && e.key == s.entries[i].key && Accounted(e) == Accounted(s.entries[i])
    ensures var rest := s.entries[i := e];
            && AllSound(rest) && UniqueKeys(rest) && Sum(rest) == Sum(s.entries)
            && forall k :: 0 <= k < |rest| && rest[k].held.stored ==> rest[k].key != e.key
  {
    SumUpdate(s.entries, i, e);
    UpdateKeepsUnique(s.entries, i, e);
  }

  lemma RecordKeepsInv(s: Sys, key: Key, limit: nat, codec: Codec, previous: Option<nat>)
    requires Inv(s) && Possible(s, Record(key, limit, codec, previous))
    ensures Inv(After(s, Record(key, limit, codec, previous)))
  {
    if previous.Some? {
      var i := previous.value;
      LeavingIsSound(s.entries[i]);
      PushedOut(s, i, LeaveStore(s.entries[i]));
    }
    NewEntriesAreSound(key, limit, codec, []);
    InsertKeepsInv(s.used, Displaced(s, previous), Fresh(key, limit, codec), s.jobs);
  }

  lemma PushOutMakesRoom(s: Sys, key: Key, previous: Option<nat>)
    requires Inv(s) && Displaces(s, key, previous)
    requires previous.Some? ==> Removable(s.entries[previous.value])
    ensures var rest := PushOut(s, previous);
            && AllSound(rest) && UniqueKeys(rest) && Sum(rest) == Sum(s.entries)
            && forall k :: 0 <= k < |rest| && rest[k].held.stored ==> rest[k].key != key
  {
    if previous.Some? {
      var i := previous.value;
      RemovedIsSound(s.entries[i], s.used);
      PushedOut(s, i, StoreNext(s.entries[i], s.used, Remove).0);
    }
  }

  lemma HandOverKeepsInv(s: Sys, j: nat, key: Key, previous: Option<nat>)
    requires Inv(s) && Possible(s, JobHandsOver(j, key, previous))
    ensures Inv(After(s, JobHandsOver(j, key, previous)))
  {
    PushOutMakesRoom(s, key, previous);
    var job := s.jobs[j];
    NewEntriesAreSound(key, job.limit, Identity, job.bytes);
    SumJobsUpdate(s.jobs, j, job.(stage := Over));
    InsertKeepsInv(s.used, PushOut(s, previous), Whole(key, job.limit, job.bytes), s.jobs[j := job.(stage := Over)]);
  }

  lemma JobChanges(s: Sys, j: nat, job: StoreJob, used: int)
    requires Inv(s) && j < |s.jobs| && used - s.used == InFlight(job) - InFlight(s.jobs[j])
    ensures Inv(s.(jobs := s.jobs[j := job], used := used))
  {
    SumJobsUpdate(s.jobs, j, job);
  }

  lemma JobBeginsKeepsInv(s: Sys, job: StoreJob)
    requires Inv(s) && job.stage == Waiting
    ensures Inv(s.(jobs := s.jobs + [job]))
  {
    assert (s.jobs + [job])[..|s.jobs|] == s.jobs;
  }

  lemma JobKeepsInv(s: Sys, ev: SysEvent)
    requires Inv(s) && !ev.Record? && !ev.Local? && !ev.JobHandsOver? && Possible(s, ev)
    ensures Inv(After(s, ev))
  {
    match ev
    case JobBegins(bytes, limit) => JobBeginsKeepsInv(s, StoreJob(bytes, limit, Waiting, false));
    case JobReserves(j) => JobChanges(s, j, s.jobs[j].(stage := Held), s.used + |s.jobs[j].bytes|);
    case JobRefused(j) => JobChanges(s, j, s.jobs[j].(stage := Over), s.used);
    case JobWrites(j) => JobChanges(s, j, s.jobs[j].(stage := OnDisk), s.used);
    case JobFails(j) => JobChanges(s, j, s.jobs[j].(stage := Over), s.used - |s.jobs[j].bytes|);
    case JobAbandoned(j) => JobChanges(s, j, s.jobs[j].(abandoned := true), s.used);
  }

  lemma StepKeepsInv(s: Sys, ev: SysEvent)
    requires Inv(s) && Possible(s, ev)
    ensures Inv(After(s, ev))
  {
    match ev
    case Local(i, step) => LocalKeepsInv(s, i, step);
    case Record(key, limit, codec, previous) => RecordKeepsInv(s, key, limit, codec, previous);
    case JobHandsOver(j, key, previous) => HandOverKeepsInv(s, j, key, previous);
    case _ => JobKeepsInv(s, ev);
  }

  lemma LocalKeepsCap(s: Sys, i: nat, step: Event, ceiling: nat)
    requires Inv(s) && Possible(s, Local(i, step)) && Capped(s, ceiling) && s.used <= ceiling
    ensures Capped(After(s, Local(i, step)), ceiling) && After(s, Local(i, step)).used <= ceiling
  {
    LocalKeepsInv(s, i, step);
    StoredNeverReturns(s.entries[i], s.used, step);
  }

  lemma RecordKeepsCap(s: Sys, key: Key, limit: nat, codec: Codec, previous: Option<nat>, ceiling: nat)
    requires Possible(s, Record(key, limit, codec, previous)) && Capped(s, ceiling)
    requires limit <= ceiling && s.used <= ceiling
    ensures var after := After(s, Record(key, limit, codec, previous)); Capped(after, ceiling) && after.used <= ceiling
  {
    var entries := Displaced(s, previous);
    assert forall i :: 0 <= i < |entries| ==> entries[i].limit == s.entries[i].limit;
  }

  lemma HandOverKeepsCap(s: Sys, j: nat, key: Key, previous: Option<nat>, ceiling: nat)
    requires Possible(s, JobHandsOver(j, key, previous)) && Capped(s, ceiling) && s.used <= ceiling
    ensures var after := After(s, JobHandsOver(j, key, previous)); Capped(after, ceiling) && after.used <= ceiling
  {
    var entries := PushOut(s, previous);
    assert forall i :: 0 <= i < |entries| ==> entries[i].limit == s.entries[i].limit;
  }

  lemma JobKeepsCap(s: Sys, ev: SysEvent, ceiling: nat)
    requires !ev.Record? && !ev.Local? && !ev.JobHandsOver?
    requires Possible(s, ev) && Capped(s, ceiling) && CappedEvent(ev, ceiling) && s.used <= ceiling
    ensures Capped(After(s, ev), ceiling) && After(s, ev).used <= ceiling
  {
  }

  lemma StepKeepsCap(s: Sys, ev: SysEvent, ceiling: nat)
    requires Inv(s) && Possible(s, ev) && Capped(s, ceiling) && CappedEvent(ev, ceiling) && s.used <= ceiling
    ensures Capped(After(s, ev), ceiling) && After(s, ev).used <= ceiling
  {
    match ev
    case Local(i, step) => LocalKeepsCap(s, i, step, ceiling);
    case Record(key, limit, codec, previous) => RecordKeepsCap(s, key, limit, codec, previous, ceiling);
    case JobHandsOver(j, key, previous) => HandOverKeepsCap(s, j, key, previous, ceiling);
    case _ => JobKeepsCap(s, ev, ceiling);
  }

  // ----- Whole runs -----

  lemma {:induction false} RunKeepsInv(events: seq<SysEvent>)
    requires Run(EMPTY, events).Some?
    ensures Inv(Run(EMPTY, events).value)
  {
    if events != [] {
      RunKeepsInv(events[..|events| - 1]);
      StepKeepsInv(Run(EMPTY, events[..|events| - 1]).value, events[|events| - 1]);
    }
  }

  lemma {:induction false} AccountsAreNatural(entries: seq<Entry>)
    requires AllSound(entries)
    ensures Sum(entries) >= 0
  {
    if entries != [] {
      AccountsAreNatural(entries[..|entries| - 1]);
      AccountIsNatural(entries[|entries| - 1]);
    }
  }

  lemma AccountIsNatural(e: Entry)
    requires Sound(e)
    ensures 0 <= e.acct.reserved && 0 <= Accounted(e)
  {
  }

  /**
    Conservation: after any run the counter is the sum of what all undropped entries and
    in-flight copies answer for. It never goes below zero, and neither does any reservation.
   */
  lemma BudgetIsConserved(events: seq<SysEvent>)
    requires Run(EMPTY, events).Some?
    ensures var s := Run(EMPTY, events).value;
            && s.used == Sum(s.entries) + SumJobs(s.jobs)
            && s.used >= 0
            && forall i :: 0 <= i < |s.entries| ==>
                 && s.entries[i].acct.reserved >= 0
                 && (s.entries[i].acct.cancelled || s.entries[i].held.dropped ==> s.entries[i].acct.reserved == 0)
  {
    RunKeepsInv(events);
    var s := Run(EMPTY, events).value;
    AccountsAreNatural(s.entries);
    forall i | 0 <= i < |s.entries|
      ensures s.entries[i].acct.reserved >= 0
    {
      AccountIsNatural(s.entries[i]);
    }
  }

  /** Under one fixed limit the counter never exceeds it. */
  lemma {:induction false} BudgetIsNeverExceeded(events: seq<SysEvent>, ceiling: nat)
    requires Run(EMPTY, events).Some?
    requires forall i :: 0 <= i < |events| ==> CappedEvent(events[i], ceiling)
    ensures Run(EMPTY, events).value.used <= ceiling && Capped(Run(EMPTY, events).value, ceiling)
  {
    if events != [] {
      var before := events[..|events| - 1];
      BudgetIsNeverExceeded(before, ceiling);
      RunKeepsInv(before);
      StepKeepsCap(Run(EMPTY, before).value, events[|events| - 1], ceiling);
    }
  }

  ghost predicate Later(e: Entry, e': Entry) {
    Sticks(e, e') && Grows(e, e')
  }

  /** A copy on disk that nobody will put into a store. */
  predicate Orphan(job: StoreJob) {
    job.stage == OnDisk && job.abandoned
  }

  /** What a later state owes to an earlier one. */
  ghost predicate Continues(s: Sys, t: Sys) {
    && |s.entries| <= |t.entries|
    && (forall i :: 0 <= i < |s.entries| ==> Later(s.entries[i], t.entries[i]))
    && |s.jobs| <= |t.jobs|
    && (forall j :: 0 <= j < |s.jobs| && Orphan(s.jobs[j]) ==> t.jobs[j] == s.jobs[j])
  }

  lemma EntryContinues(e: Entry, used: int, step: Event)
    requires Sound(e) && Enabled(e, used, step)
    ensures Later(e, Next(e, used, step).0)
  {
    StepSticks(e, used, step);
    HistoriesGrow(e, used, step);
  }

  lemma AllLater(entries: seq<Entry>)
    ensures forall i :: 0 <= i < |entries| ==> Later(entries[i], entries[i])
  {
  }

  /** One entry moves on, the others and the jobs stay; new entries may have been added. */
  lemma EntriesContinue(s: Sys, i: nat, e: Entry, more: seq<Entry>)
    requires i < |s.entries| && Later(s.entries[i], e)
    ensures var after := s.entries[i := e] + more;
            |s.entries| <= |after| && forall k :: 0 <= k < |s.entries| ==> Later(s.entries[k], after[k])
  {
    AllLater(s.entries);
  }

  lemma LocalContinues(s: Sys, i: nat, step: Event)
    requires Inv(s) && Possible(s, Local(i, step))
    ensures Continues(s, After(s, Local(i, step)))
  {
    var e := Next(s.entries[i], s.used, step).0;
    EntryContinues(s.entries[i], s.used, step);
    EntriesContinue(s, i, e, []);
    assert s.entries[i := e] + [] == s.entries[i := e];
  }

  lemma JobContinues(s: Sys, ev: SysEvent)
    requires !ev.Record? && !ev.Local? && !ev.JobHandsOver? && Possible(s, ev)
    ensures Continues(s, After(s, ev))
  {
    AllLater(s.entries);
  }

  lemma RecordContinues(s: Sys, key: Key, limit: nat, codec: Codec, previous: Option<nat>)
    requires Inv(s) && Possible(s, Record(key, limit, codec, previous))
    ensures Continues(s, After(s, Record(key, limit, codec, previous)))
  {
    var added := Fresh(key, limit, codec);
    if previous.Some? {
      var i := previous.value;
      EntryContinues(s.entries[i], s.used, Store(Displace));
      EntriesContinue(s, i, LeaveStore(s.entries[i]), [added]);
    } else {
      AllLater(s.entries);
    }
  }

  lemma HandOverContinues(s: Sys, j: nat, key: Key, previous: Option<nat>)
    requires Inv(s) && Possible(s, JobHandsOver(j, key, previous))
    ensures Continues(s, After(s, JobHandsOver(j, key, previous)))
  {
    var whole := Whole(key, s.jobs[j].limit, s.jobs[j].bytes);
    if previous.Some? {
      var i := previous.value;
      EntryContinues(s.entries[i], s.used, Store(Remove));
      EntriesContinue(s, i, StoreNext(s.entries[i], s.used, Remove).0, [whole]);
    } else {
      AllLater(s.entries);
    }
  }

  lemma StepContinues(s: Sys, ev: SysEvent)
    requires Inv(s) && Possible(s, ev)
    ensures Continues(s, After(s, ev))
  {
    match ev
    case Local(i, step) => LocalContinues(s, i, step);
    case Record(key, limit, codec, previous) => RecordContinues(s, key, limit, codec, previous);
    case JobHandsOver(j, key, previous) => HandOverContinues(s, j, key, previous);
    case _ => JobContinues(s, ev);
  }

  lemma RunSplits(first: seq<SysEvent>, ev: SysEvent)
    ensures Run(EMPTY, first + [ev]).Some? ==> Run(EMPTY, first).Some? && Possible(Run(EMPTY, first).value, ev)
                                               && Run(EMPTY, first + [ev]).value == After(Run(EMPTY, first).value, ev)
  {
    assert (first + [ev])[..|first|] == first;
  }

  lemma RunStep(events: seq<SysEvent>, s: Sys, ev: SysEvent)
    requires Run(EMPTY, events) == Some(s) && Possible(s, ev)
    ensures Run(EMPTY, events + [ev]) == Some(After(s, ev))
  {
    assert (events + [ev])[..|events|] == events;
  }

  lemma ContinuesOn(s: Sys, t: Sys, u: Sys)
    requires Continues(s, t) && Continues(t, u)
    ensures Continues(s, u)
  {
    forall i | 0 <= i < |s.entries|
      ensures Later(s.entries[i], u.entries[i])
    {
      assert Later(s.entries[i], t.entries[i]) && Later(t.entries[i], u.entries[i]);
    }
  }

  /** However a run goes on, labels, cancellations, complete bytes and orphaned reservations stay as they are. */
  lemma {:induction false} RunContinues(first: seq<SysEvent>, more: seq<SysEvent>)
    requires Run(EMPTY, first + more).Some?
    ensures Run(EMPTY, first).Some?
    ensures Continues(Run(EMPTY, first).value, Run(EMPTY, first + more).value)
    decreases |more|
  {
    if more == [] {
      assert first + more == first;
      AllLater(Run(EMPTY, first).value.entries);
    } else {
      var front, last := more[..|more| - 1], more[|more| - 1];
      assert first + more == first + front + [last];
      RunSplits(first + front, last);
      RunContinues(first, front);
      RunKeepsInv(first + front);
      StepContinues(Run(EMPTY, first + front).value, last);
      ContinuesOn(Run(EMPTY, first).value, Run(EMPTY, first + front).value, Run(EMPTY, first + more).value);
    }
  }

  /** In every run, an identity recording labelled complete holds exactly the data bytes of the whole inner body. */
  lemma CompleteIsExact(events: seq<SysEvent>, i: nat)
    requires Run(EMPTY, events).Some? && i < |Run(EMPTY, events).value.entries|
    ensures var e := Run(EMPTY, events).value.entries[i];
            e.codec == Identity ==>
              && e.rec.disk <= DataBytes(e.body.polled)
              && (e.acct.outcome == Complete ==>
                    && e.body.ended && !e.body.failed
                    && e.rec.disk == DataBytes(e.body.polled) && e.rec.total == |e.rec.disk|)
  {
    RunKeepsInv(events);
    var e := Run(EMPTY, events).value.entries[i];
    if e.codec == Identity {
      DiskIsPrefixOfData(e);
    }
  }

  /** In every run, what the consumer got is what the inner body delivered, but for the one frame in hand. */
  lemma ForwardingIsTransparent(events: seq<SysEvent>, i: nat)
    requires Run(EMPTY, events).Some? && i < |Run(EMPTY, events).value.entries|
    ensures var e := Run(EMPTY, events).value.entries[i];
            && e.body.polled == e.body.yielded + (if e.body.pending.Some? then [e.body.pending.value] else [])
            && e.tee.teed <= DataBytes(e.body.polled)
            && |e.tee.pipe| <= PAGE_SIZE
  {
    RunKeepsInv(events);
  }

  /**
    A recording that loses its stream, its budget, its disk or its consumer early is never complete,
    however the run goes on.
   */
  lemma LossIsForever(first: seq<SysEvent>, i: nat, step: Event, more: seq<SysEvent>)
    requires Run(EMPTY, first + [Local(i, step)] + more).Some?
    requires Run(EMPTY, first).Some? ==>
               var entries := Run(EMPTY, first).value.entries;
               i < |entries| && Loses(entries[i], step)
    ensures i < |Run(EMPTY, first + [Local(i, step)] + more).value.entries|
    ensures NeverComplete(Run(EMPTY, first + [Local(i, step)] + more).value.entries[i])
  {
    var upTo := first + [Local(i, step)];
    RunContinues(upTo, more);
    RunSplits(first, Local(i, step));
    RunKeepsInv(first);
    LossIsNeverComplete(Run(EMPTY, first).value.entries[i], Run(EMPTY, first).value.used, step);
  }

  /** A page reads the label first and the length later: if the label was complete, the length is the final one. */
  lemma PageCarriesFinalTotal(first: seq<SysEvent>, later: seq<SysEvent>, i: nat)
    requires Run(EMPTY, first + later).Some?
    requires Run(EMPTY, first).Some? ==>
               var entries := Run(EMPTY, first).value.entries;
               i < |entries| && entries[i].acct.outcome == Complete
    ensures i < |Run(EMPTY, first + later).value.entries|
    ensures var e := Run(EMPTY, first + later).value.entries[i];
            e.rec.total == |e.rec.disk| && (e.codec == Identity ==> e.rec.total == |DataBytes(e.body.polled)|)
  {
    RunContinues(first, later);
    RunKeepsInv(first + later);
  }
}
