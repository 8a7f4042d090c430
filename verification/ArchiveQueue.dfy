/** The archive queue over every run: who is queued, how often, and what an id in the queue still means. */
module ArchiveQueue {
  import opened Prelude
  import opened JobTable
  import opened ArchiveOutcome
  import opened Lifecycle
  import opened LifecycleInvariant
  import opened LifecycleHistory

  // ----- who puts what into the queue

  /** What a step adds to the queue. */
  function NewEntry(s: Sys, step: Step): Option<Entry> {
    if step.Stop? && |StopJob(s, step.stop).0.log| > |s.log| then Some(Last(StopJob(s, step.stop).0.log)) else None
  }

  function Last(log: seq<Entry>): Entry
    requires log != []
  {
    log[|log| - 1]
  }

  /** The job with this number is queued by step k. */
  ghost predicate QueuedAt(steps: seq<Step>, k: nat, uid: nat) {
    && k < |steps| && NewEntry(Run(EMPTY, steps[..k]), steps[k]).Some?
    && NewEntry(Run(EMPTY, steps[..k]), steps[k]).value.uid == uid
  }

  lemma LogGrows(s: Sys, step: Step)
    requires Inv(s)
    ensures Apply(s, step).log == s.log + (if NewEntry(s, step).Some? then [NewEntry(s, step).value] else [])
  {
    hide Inv, StopJob;
    if step.Stop? {
      var stopped, snap, t, id := StopShape(s, step.stop);
      if stopped && snap.row.monitoring != Disabled {
        assert StopJob(s, step.stop).0.log == s.log + [Entry(id, snap.row.uid)];
      }
    }
  }

  lemma {:induction false} LogPrefix(steps: seq<Step>, k: nat)
    requires k <= |steps|
    ensures Run(EMPTY, steps[..k]).log <= Run(EMPTY, steps).log
  {
    hide Run, Inv, NewEntry, Apply;
    if k == |steps| {
      assert steps[..k] == steps;
    } else {
      var before, last := steps[..|steps| - 1], steps[|steps| - 1];
      assert steps == before + [last] && steps[..k] == before[..k];
      LogPrefix(before, k);
      RunSnoc(EMPTY, before, last);
      StartedInv(before);
      LogGrows(Run(EMPTY, before), last);
    }
  }

  /** Each entry was added by one step. */
  lemma {:induction false} EntryFrom(steps: seq<Step>, i: nat) returns (k: nat)
    requires i < |Run(EMPTY, steps).log|
    ensures k < |steps| && |Run(EMPTY, steps[..k]).log| == i
    ensures QueuedAt(steps, k, Run(EMPTY, steps).log[i].uid)
    decreases |steps|
  {
    if steps == [] {
      assert false;
    } else {
      hide Run, Inv, NewEntry, Apply;
      var before, last := steps[..|steps| - 1], steps[|steps| - 1];
      assert steps == before + [last];
      RunSnoc(EMPTY, before, last);
      StartedInv(before);
      LogGrows(Run(EMPTY, before), last);
      if i < |Run(EMPTY, before).log| {
        k := EntryFrom(before, i);
        assert steps[..k] == before[..k] && steps[k] == before[k];
      } else {
        k := |before|;
      }
    }
  }

  // ----- a job that was stopped for good is not queued again

  /** A stop that does not ask for `running` leaves its job finished. */
  lemma QueuedEnds(s: Sys, step: Step) returns (f: Row)
    requires Inv(s) && NewEntry(s, step).Some? && !AsksRunning(step)
    ensures f.uid == NewEntry(s, step).value.uid && Frozen(Apply(s, step), f)
  {
    hide Inv, StopJob;
    var stopped, snap, t, id := StopShape(s, step.stop);
    f := MarkedRow(t, id, snap.row, step.stop);
    StepKeepsInv(s, step);
    FinishedIsFrozen(StopJob(s, step.stop).0, f);
  }

  /** The row a stop marks. */
  lemma MarkedRow(t: Sys, id: int, r: Row, req: StopReq) returns (f: Row)
    requires Target(t, id, r)
    ensures f in MarkStopped(t, id, r, req).job && f.state == FinalState(req) && f.uid == r.uid
  {
    var p := SetStopped(FinalState(req), StopDuration(req, r), r.monitoring);
    var x :| x in t.job && x.id == id;
    var i :| 0 <= i < |t.job| && t.job[i] == x;
    f := Patched(p, x);
    assert UpdateWhere(t.job, ById(id), p)[i] == f;
  }

  lemma FinishedIsFrozen(s: Sys, f: Row)
    requires Inv(s) && f in s.job && f.state != Running
    ensures Frozen(s, f)
  {
  }

  lemma FrozenNotQueued(s: Sys, f: Row, step: Step)
    requires Inv(s) && Frozen(s, f) && NewEntry(s, step).Some?
    ensures NewEntry(s, step).value.uid != f.uid
  {
    hide Inv, StopJob;
    var stopped, snap, t, id := StopShape(s, step.stop);
  }

  lemma {:induction false} StaysFrozen(steps: seq<Step>, k: nat, m: nat, f: Row)
    requires k <= m <= |steps| && Frozen(Run(EMPTY, steps[..k]), f)
    ensures Frozen(Run(EMPTY, steps[..m]), f)
    decreases m
  {
    hide Run, Inv, Frozen, Apply;
    if m == k {
    } else {
      StaysFrozen(steps, k, m - 1, f);
      assert steps[..m] == steps[..m - 1] + [steps[m - 1]];
      RunSnoc(EMPTY, steps[..m - 1], steps[m - 1]);
      StartedInv(steps[..m - 1]);
      StepKeepsFrozen(Run(EMPTY, steps[..m - 1]), f, steps[m - 1]);
    }
  }

  /** A queued job is finished for good once one of the stops that queued it did not ask for `running`. */
  lemma QueuedIsFinished(steps: seq<Step>, k: nat, uid: nat)
    requires QueuedAt(steps, k, uid) && !AsksRunning(steps[k])
    ensures var s := Run(EMPTY, steps);
            && (forall r :: r in s.cache ==> r.uid != uid)
            && (forall r :: r in s.job && r.uid == uid ==> r.state != Running)
  {
    var f := FrozenAfter(steps, k, uid);
    assert steps[..|steps|] == steps;
    StaysFrozen(steps, k + 1, |steps|, f);
  }

  lemma FrozenAfter(steps: seq<Step>, k: nat, uid: nat) returns (f: Row)
    requires QueuedAt(steps, k, uid) && !AsksRunning(steps[k])
    ensures f.uid == uid && Frozen(Run(EMPTY, steps[..k + 1]), f)
  {
    hide Run, Inv, NewEntry, Frozen, Apply;
    assert steps[..k + 1] == steps[..k] + [steps[k]];
    RunSnoc(EMPTY, steps[..k], steps[k]);
    StartedInv(steps[..k]);
    f := QueuedEnds(Run(EMPTY, steps[..k]), steps[k]);
  }

  lemma SecondQueueing(steps: seq<Step>, k1: nat, k2: nat, uid: nat)
    requires k1 < k2 < |steps| && QueuedAt(steps, k1, uid) && QueuedAt(steps, k2, uid)
    ensures AsksRunning(steps[k1])
  {
    if !AsksRunning(steps[k1]) {
      var f := FrozenAfter(steps, k1, uid);
      StaysFrozen(steps, k1 + 1, k2, f);
      StartedInv(steps[..k2]);
      FrozenNotQueued(Run(EMPTY, steps[..k2]), f, steps[k2]);
    }
  }

  // ----- queued twice

  ghost predicate QueuedTwice(s: Sys) {
    exists i, j :: 0 <= i < j < |s.log| && s.log[i].uid == s.log[j].uid
  }

  /** A stop that asked for `running` queued a job that a later stop queued again. */
  ghost predicate RunningQueuedAgain(steps: seq<Step>) {
    exists k1: nat, k2: nat, uid ::
      k1 < k2 < |steps| && QueuedAt(steps, k1, uid) && QueuedAt(steps, k2, uid) && AsksRunning(steps[k1])
  }

  lemma PositionOf(steps: seq<Step>, k: nat, uid: nat)
    requires QueuedAt(steps, k, uid)
    ensures var i := |Run(EMPTY, steps[..k]).log|;
            && i < |Run(EMPTY, steps).log| && Run(EMPTY, steps).log[i].uid == uid
            && |Run(EMPTY, steps[..k + 1]).log| == i + 1
  {
    hide Run, Inv, NewEntry, Apply;
    assert steps[..k + 1] == steps[..k] + [steps[k]];
    RunSnoc(EMPTY, steps[..k], steps[k]);
    StartedInv(steps[..k]);
    LogGrows(Run(EMPTY, steps[..k]), steps[k]);
    LogPrefix(steps, k + 1);
  }

  lemma LaterIsLonger(steps: seq<Step>, k: nat, m: nat)
    requires k <= m <= |steps|
    ensures |Run(EMPTY, steps[..k]).log| <= |Run(EMPTY, steps[..m]).log|
  {
    hide Run;
    assert steps[..m][..k] == steps[..k];
    LogPrefix(steps[..m], k);
  }

  /** Over every run some job is queued twice if and only if a stop that asked for the state `running` queued a job
      that a later stop queued again. */
  lemma QueuedTwiceIff(steps: seq<Step>)
    ensures QueuedTwice(Run(EMPTY, steps)) <==> RunningQueuedAgain(steps)
  {
    hide Run, QueuedAt;
    var log := Run(EMPTY, steps).log;
    if i: nat, j: nat :| i < j < |log| && log[i].uid == log[j].uid {
      var k1 := EntryFrom(steps, i);
      var k2 := EntryFrom(steps, j);
      if k2 <= k1 {
        LaterIsLonger(steps, k2, k1);
      }
      SecondQueueing(steps, k1, k2, log[i].uid);
    }
    if k1: nat, k2: nat, uid :|
      k1 < k2 < |steps| && QueuedAt(steps, k1, uid) && QueuedAt(steps, k2, uid) && AsksRunning(steps[k1])
    {
      PositionOf(steps, k1, uid);
      PositionOf(steps, k2, uid);
      LaterIsLonger(steps, k1 + 1, k2);
    }
  }

  /** So without such stops no job is queued twice, and a queued job has left the cache and `running`. */
  lemma QueuedAtMostOnce(steps: seq<Step>)
    requires NoneAsksRunning(steps)
    ensures var s := Run(EMPTY, steps);
            && (forall i, j :: 0 <= i < j < |s.log| ==> s.log[i].uid != s.log[j].uid)
            && (forall i :: 0 <= i < |s.log| ==> EntryPlaced(s, s.log[i]) && EntryFinished(s, s.log[i]))
  {
    QueuedTwiceIff(steps);
    StartedInv(steps);
    hide Run, QueuedAt;
    var s := Run(EMPTY, steps);
    forall i | 0 <= i < |s.log| ensures EntryFinished(s, s.log[i]) {
      var k := EntryFrom(steps, i);
      QueuedIsFinished(steps, k, s.log[i].uid);
    }
  }

  ghost predicate EntryFinished(s: Sys, e: Entry) {
    forall r :: r in s.job && r.uid == e.uid ==> r.state != Running
  }

  /** A stop that asks for `running` leaves the job running, and the next one queues it again. */
  lemma RunningStopQueuesTwice(s: Sys, r: Row)
    requires s.cache == [] && s.job == [r] && r.state == Running && r.monitoring != Disabled
    ensures var req := StopReq(FullKey(r), r.start, Requested(Running));
            StopJob(StopJob(s, req).0, req).0.log == s.log + [Entry(r.id, r.uid)] + [Entry(r.id, r.uid)]
  {
    var req := StopReq(FullKey(r), r.start, Requested(Running));
    StopsAgain(s, r, req);
    StopsAgain(StopJob(s, req).0, r.(duration := StopDuration(req, r)), req);
  }

  lemma StopsAgain(s: Sys, r: Row, req: StopReq)
    requires s.cache == [] && s.job == [r] && r.state == Running && r.monitoring != Disabled
    requires req == StopReq(FullKey(r), r.start, Requested(Running))
    ensures StopJob(s, req).0 ==
            s.(job := [r.(duration := StopDuration(req, r))], log := s.log + [Entry(r.id, r.uid)])
  {
    assert Newest([r], FullKey(r)) == Some(r);
    assert Lookup(s, req.q) == Some(Snapshot(r, false));
    assert UpdateWhere([r], ById(r.id), SetStopped(Running, StopDuration(req, r), r.monitoring)) ==
           [r.(duration := StopDuration(req, r))];
  }

  // ----- what an id in the queue means

  ghost predicate Lives(s: Sys, uid: nat) {
    exists r :: r in s.job && r.uid == uid
  }

  ghost predicate HasId(s: Sys, id: int) {
    exists r :: r in s.job && r.id == id
  }

  /** A queued id means the job it was queued for as long as that job's row exists, and another job if and only if
      that row has been deleted and the id handed out again. */
  lemma EntryIdGood(steps: seq<Step>, i: nat)
    requires i < |Run(EMPTY, steps).log|
    ensures var s := Run(EMPTY, steps);
            var e := s.log[i];
            && ((exists r :: r in s.job && r.id == e.id && r.uid == e.uid) <==> Lives(s, e.uid))
            && ((exists r :: r in s.job && r.id == e.id && r.uid != e.uid) <==> !Lives(s, e.uid) && HasId(s, e.id))
  {
    StartedInv(steps);
    var s := Run(EMPTY, steps);
    var e := s.log[i];
    assert EntryPlaced(s, e);
    forall x, y | x in s.job && y in s.job && x.id == y.id ensures x == y {
      SortedIds(s.job, x, y);
    }
  }

  /** The worker's mark lands on a row of another job if and only if the queued job's row has been deleted, its id
      handed out again, and the exit writes a status. */
  lemma MarkHitsOtherJob(steps: seq<Step>, exit: Exit)
    requires Run(EMPTY, steps).done < |Run(EMPTY, steps).log|
    ensures var s := Run(EMPTY, steps);
            var e := s.log[s.done];
            (exists k :: 0 <= k < |s.job| && s.job[k].uid != e.uid && Marked(s, exit, k)) <==>
            !Lives(s, e.uid) && HasId(s, e.id) && StatusOf(exit).Some?
  {
    var s := Run(EMPTY, steps);
    EntryIdGood(steps, s.done);
    hide Run, Inv;
    forall k | 0 <= k < |s.job| ensures Marked(s, exit, k) <==> StatusOf(exit).Some? && s.job[k].id == s.log[s.done].id {
      assert s.job[k] in s.job;
    }
    if !Lives(s, s.log[s.done].uid) && HasId(s, s.log[s.done].id) && StatusOf(exit).Some? {
      var r :| r in s.job && r.id == s.log[s.done].id;
      var k :| 0 <= k < |s.job| && s.job[k] == r;
      assert Marked(s, exit, k);
    }
  }

  /** The worker's UPDATE matches the k-th row. */
  ghost predicate Marked(s: Sys, exit: Exit, k: nat)
    requires k < |s.job| && s.done < |s.log|
  {
    && StatusOf(exit).Some? && Matches(ById(s.log[s.done].id), s.job[k])
    && Archive(s, exit).job[k] == s.job[k].(monitoring := StatusOf(exit).value)
  }

  /** What one job through the worker leaves: a row of `job` is marked if and only if it has the queued id, as failed
      when its metadata or its archiving failed, as successful when nothing did; no other column changes. */
  lemma ArchiveMarks(s: Sys, exit: Exit, k: nat)
    requires s.done < |s.log| && k < |s.job|
    ensures var t := Archive(s, exit);
            && t.cache == s.cache && t.log == s.log && t.done == s.done + 1 && |t.job| == |s.job|
            && t.job[k] == s.job[k].(monitoring :=
                 if s.job[k].id != s.log[s.done].id then s.job[k].monitoring
                 else if exit in {MetadataError, ArchiveError} then ArchivingFailed
                 else if exit == Archived then ArchivingSuccessful
                 else s.job[k].monitoring)
  {
  }

  lemma FirstStart(s: Sys, req: Row)
    requires s.job == []
    ensures StartJob(s, req, true) == s.(job := [NewRow(s, req).(id := 1)], nextUid := s.nextUid + 1)
  {
  }

  lemma StopOnly(s: Sys, r: Row)
    requires s.cache == [] && s.job == [r] && r.state == Running && r.monitoring != Disabled
    ensures StopJob(s, StopReq(FullKey(r), r.start, Unset)).0 ==
            s.(job := [r.(state := Completed, duration := 0)], log := s.log + [Entry(r.id, r.uid)])
  {
    var req := StopReq(FullKey(r), r.start, Unset);
    assert Newest([r], FullKey(r)) == Some(r);
    assert Lookup(s, req.q) == Some(Snapshot(r, false));
    assert UpdateWhere([r], ById(r.id), SetStopped(Completed, 0, r.monitoring)) ==
           [r.(state := Completed, duration := 0)];
  }

  lemma ArchiveOnly(s: Sys, r: Row)
    requires s.job == [r] && s.done < |s.log| && s.log[s.done].id == r.id
    ensures Archive(s, Archived) == s.(done := s.done + 1, job := [r.(monitoring := ArchivingSuccessful)])
  {
    assert UpdateWhere([r], ById(r.id), SetMonitoring(ArchivingSuccessful)) == [r.(monitoring := ArchivingSuccessful)];
  }

  lemma DeleteOnly(s: Sys, r: Row)
    requires s.job == [r]
    ensures DeleteJobs(s, ById(r.id)) == s.(job := [])
  {
    assert DeleteWhere([r], ById(r.id)) == [] by { assert forall x :: x in [r] ==> x.id == r.id; }
  }

  /** After a delete the id is handed out again: the worker then marks a job that still runs.
      Here `a` has been started and stopped, and waits in the queue under id 1. */
  lemma ReusedIdIsMarked(s: Sys, a: Row, b: Row)
    requires Inv(s) && s.job == [a] && a.id == 1 && s.done == 0 && s.log == [Entry(1, a.uid)]
    ensures var s1 := Apply(s, DeleteById(1));
            var s2 := Apply(s1, Start(b, true));
            var s3 := Apply(s2, ArchiveNext(Archived));
            s3.job == [b.(id := 1, uid := s.nextUid, state := Running, monitoring := ArchivingSuccessful)]
            && s.nextUid != a.uid
  {
    DeleteOnly(s, a);
    var s1 := s.(job := []);
    FirstStart(s1, b);
    ArchiveOnly(StartJob(s1, b, true), NewRow(s1, b).(id := 1));
  }

  /** That state is reached by one start and one stop. */
  lemma OneJobStopped(a: Row)
    requires a.monitoring == RunningOrArchiving
    ensures var s := Apply(Apply(EMPTY, Start(a, true)), Stop(StopReq(FullKey(a), a.start, Unset)));
            Inv(s) && |s.job| == 1 && s.job[0].id == 1 && s.done == 0 && s.log == [Entry(1, s.job[0].uid)]
  {
    FirstStart(EMPTY, a);
    var r := NewRow(EMPTY, a).(id := 1);
    assert FullKey(a) == FullKey(r);
    StopOnly(EMPTY.(job := [r], nextUid := 1), r);
    EmptyInv();
    StepKeepsInv(EMPTY, Start(a, true));
    StepKeepsInv(Apply(EMPTY, Start(a, true)), Stop(StopReq(FullKey(a), a.start, Unset)));
  }
}
