/** What every run of the lifecycle keeps, and what a finished job's row says about its past. */
module LifecycleInvariant {
  import opened Prelude
  import opened JobTable
  import opened ArchiveOutcome
  import opened Lifecycle

  // ----- the invariant

  /** Ids, keys and jobs are unique in a table. */
  ghost predicate TableOk(t: Table) {
    Sorted(t) && KeysUnique(t) && forall a, b :: a in t && b in t && a.uid == b.uid ==> a == b
  }

  /** A job is in one table only. */
  ghost predicate Uids(s: Sys) {
    && (forall r :: r in s.cache ==> r.uid < s.nextUid && r.state == Running)
    && (forall r :: r in s.job ==> r.uid < s.nextUid)
    && (forall a, b :: a in s.cache && b in s.job ==> a.uid != b.uid)
  }

  /** A queued job has left the cache, and its entry holds the id of its own row. */
  ghost predicate EntryPlaced(s: Sys, e: Entry) {
    && e.uid < s.nextUid
    && (forall r :: r in s.cache ==> r.uid != e.uid)
    && (forall r :: r in s.job && r.uid == e.uid ==> r.id == e.id)
  }

  ghost predicate Queued(s: Sys) {
    s.done <= |s.log| && forall i :: 0 <= i < |s.log| ==> EntryPlaced(s, s.log[i])
  }

  ghost predicate Inv(s: Sys) {
    TableOk(s.cache) && TableOk(s.job) && Uids(s) && Queued(s)
  }

  lemma AppendOk(t: Table, r: Row)
    requires TableOk(t) && !HasKey(t, r)
    requires forall x :: x in t ==> x.uid != r.uid
    ensures TableOk(Append(t, r))
  {
  }

  lemma StartKeepsInv(s: Sys, req: Row, tagged: bool)
    requires Inv(s)
    ensures Inv(StartJob(s, req, tagged))
  {
    if StartAccepted(s, req, tagged) {
      var t, n := StartJob(s, req, tagged), NewRow(s, req);
      assert !HasKey(if tagged then s.job else s.cache, n);
      AppendOk(if tagged then s.job else s.cache, n);
      forall i | 0 <= i < |s.log| ensures EntryPlaced(t, s.log[i]) {
        assert EntryPlaced(s, s.log[i]);
      }
    }
  }

  lemma MoveKeepsInv(s: Sys, i: nat)
    requires Inv(s) && i < |s.cache|
    ensures Inv(MoveAt(s, i))
  {
    var t, r := MoveAt(s, i), s.cache[i];
    assert forall x :: x in t.cache ==> x in s.cache && x.uid != r.uid;
    if !HasKey(s.job, r) {
      AppendOk(s.job, r);
    }
    forall k | 0 <= k < |s.log| ensures EntryPlaced(t, s.log[k]) {
      assert EntryPlaced(s, s.log[k]);
    }
  }

  lemma {:induction false} SyncKeepsInv(s: Sys)
    requires Inv(s)
    ensures Inv(SyncJobs(s))
    decreases |s.cache|
  {
    if s.cache == [] {
    } else {
      MoveKeepsInv(s, 0);
      SyncKeepsInv(MoveAt(s, 0));
    }
  }

  lemma Origin(t: Table, w: Where, p: Patch, r: Row) returns (x: Row)
    requires r in UpdateWhere(t, w, p)
    ensures x in t && r == Update1(w, p, x)
  {
    var i :| 0 <= i < |t| && UpdateWhere(t, w, p)[i] == r;
    x := t[i];
  }

  /** An update leaves ids, keys and uids alone. */
  lemma UpdateOk(t: Table, w: Where, p: Patch)
    requires TableOk(t)
    ensures TableOk(UpdateWhere(t, w, p))
  {
    var u := UpdateWhere(t, w, p);
    forall a, b | a in u && b in u && (SameKey(a, b) || a.uid == b.uid) ensures a == b {
      var x := Origin(t, w, p, a);
      var y := Origin(t, w, p, b);
    }
  }

  lemma UpdateKeepsInv(s: Sys, w: Where, p: Patch)
    requires Inv(s)
    ensures Inv(UpdateJobs(s, w, p))
  {
    var t := UpdateJobs(s, w, p);
    UpdateOk(s.job, w, p);
    forall r | r in t.job
      ensures exists x :: x in s.job && r == Update1(w, p, x)
    {
      var x := Origin(s.job, w, p, r);
    }
    forall i | 0 <= i < |s.log| ensures EntryPlaced(t, s.log[i]) {
      assert EntryPlaced(s, s.log[i]);
    }
  }

  lemma DeleteKeepsInv(s: Sys, w: Where)
    requires Inv(s)
    ensures Inv(DeleteJobs(s, w))
  {
    var t := DeleteJobs(s, w);
    forall i | 0 <= i < |s.log| ensures EntryPlaced(t, s.log[i]) {
      assert EntryPlaced(s, s.log[i]);
    }
  }

  /** Row `id` of `job` is a running row of the same job as `r`. */
  ghost predicate Target(s: Sys, id: int, r: Row) {
    && (exists x :: x in s.job && x.id == id)
    && (forall x :: x in s.job && x.id == id ==> SameJob(x, r) && x.state == Running)
  }

  /** Where the commit's target is the running row of the job it means, a stop keeps the invariant. */
  lemma MarkKeepsInv(s: Sys, r: Row, id: int, req: StopReq)
    requires Inv(s) && Target(s, id, r)
    ensures Inv(MarkStopped(s, id, r, req))
  {
    var p := SetStopped(FinalState(req), StopDuration(req, r), r.monitoring);
    var x :| x in s.job && x.id == id;
    UpdateKeepsInv(s, ById(id), p);
    var t := UpdateJobs(s, ById(id), p);
    if r.monitoring != Disabled {
      assert EntryPlaced(t, Entry(id, r.uid)) by {
        forall y | y in t.job && y.uid == r.uid ensures y.id == id {
          var z := Origin(s.job, ById(id), p, y);
        }
      }
      var m := MarkStopped(s, id, r, req);
      forall i | 0 <= i < |m.log| ensures EntryPlaced(m, m.log[i]) {
        assert i < |s.log| ==> EntryPlaced(t, s.log[i]);
        assert i == |s.log| ==> EntryPlaced(t, Entry(id, r.uid));
      }
    }
  }

  /** A transfer of the cached row `r` leaves its running copy under the next id of `job`. */
  lemma TransferMoves(s: Sys, r: Row, stale: int)
    requires Inv(s) && r in s.cache && !HasKey(s.job, r)
    ensures var (t, id) := Transfer(s, r.id, stale);
            && Inv(t) && id == Some(NextId(s.job))
            && t.job == s.job + [r.(id := NextId(s.job))]
            && t.log == s.log && t.done == s.done && t.nextUid == s.nextUid
            && (forall x :: x in t.cache <==> x in s.cache && x != r)
            && Target(t, NextId(s.job), r)
  {
    var i := Index(s.cache, r.id);
    SortedIds(s.cache, s.cache[i], r);
    MoveKeepsInv(s, i);
  }

  /** `t` is `s` with the looked-up row in the `job` table, and `id` its id there. */
  ghost predicate Ready(s: Sys, snap: Snapshot, t: Sys, id: int) {
    var r := snap.row;
    t.log == s.log && t.done == s.done && t.nextUid == s.nextUid &&
    if snap.cached then
      && r in s.cache && !HasKey(s.job, r) && id == NextId(s.job)
      && t == Transfer(s, r.id, 0).0 && t.job == s.job + [r.(id := id)]
      && (forall x :: x in t.cache <==> x in s.cache && x != r)
    else
      r in s.job && id == r.id && t == s
  }

  /** An atomic stop changes nothing, or it marks and enqueues the running row it looked up. */
  lemma StopShape(s: Sys, req: StopReq) returns (stopped: bool, snap: Snapshot, t: Sys, id: int)
    requires Inv(s)
    ensures stopped <==> StopJob(s, req).1.Stopped?
    ensures !stopped ==> StopJob(s, req).0 == s
    ensures stopped ==>
      && Lookup(s, req.q) == Some(snap) && Admissible(snap, req)
      && Ready(s, snap, t, id) && Inv(t) && Target(t, id, snap.row)
      && StopJob(s, req) ==
         (MarkStopped(t, id, snap.row, req),
          Stopped(Entry(id, snap.row.uid), FinalState(req), StopDuration(req, snap.row)))
  {
    hide Inv;
    stopped, t, id := false, s, 0;
    match Lookup(s, req.q)
    case None => snap := Snapshot(Row(0, 0, "", 0, 0, Running, 0, Disabled, 0), false);
    case Some(found) =>
      snap := found;
      var r := snap.row;
      if Admissible(snap, req) {
        if !snap.cached {
          RunningTarget(s, r);
          stopped, id := true, r.id;
        } else if HasKey(s.job, r) {
          CachedRowFound(s, r);
        } else {
          TransferMoves(s, r, 0);
          stopped, t, id := true, Transfer(s, r.id, 0).0, NextId(s.job);
        }
      }
  }

  lemma RunningTarget(s: Sys, r: Row)
    requires Inv(s) && r in s.job && r.state == Running
    ensures Target(s, r.id, r)
  {
  }

  lemma CachedRowFound(s: Sys, r: Row)
    requires Inv(s) && r in s.cache
    ensures Index(s.cache, r.id) >= 0 && s.cache[Index(s.cache, r.id)] == r
  {
    SortedIds(s.cache, s.cache[Index(s.cache, r.id)], r);
  }

  lemma StopKeepsInv(s: Sys, req: StopReq)
    requires Inv(s)
    ensures Inv(StopJob(s, req).0)
  {
    hide StopJob, Inv;
    var stopped, snap, t, id := StopShape(s, req);
    if stopped {
      MarkKeepsInv(t, snap.row, id, req);
    }
  }

  lemma ArchiveKeepsInv(s: Sys, exit: Exit)
    requires Inv(s)
    ensures Inv(Archive(s, exit))
  {
    if s.done < |s.log| {
      var taken := s.(done := s.done + 1);
      forall i | 0 <= i < |s.log| ensures EntryPlaced(taken, s.log[i]) {
        assert EntryPlaced(s, s.log[i]);
      }
      if StatusOf(exit).Some? {
        UpdateKeepsInv(taken, ById(s.log[s.done].id), SetMonitoring(StatusOf(exit).value));
      }
    }
  }

  lemma StepKeepsInv(s: Sys, step: Step)
    requires Inv(s)
    ensures Inv(Apply(s, step))
  {
    hide Inv;
    match step
    case Start(req, tagged) => StartKeepsInv(s, req, tagged);
    case Sync => SyncKeepsInv(s);
    case Stop(req) => StopKeepsInv(s, req);
    case Watchdog(now, grace) => UpdateKeepsInv(s, Overrun(now - grace), SetStopped(Failed, 0, ArchivingFailed));
    case Refresh(now) => UpdateKeepsInv(s, IsRunning, SetRefreshed(now));
    case DeleteById(id) => DeleteKeepsInv(s, ById(id));
    case DeleteBefore(ts, spared) => DeleteKeepsInv(s, Before(ts, spared));
    case ArchiveNext(exit) => ArchiveKeepsInv(s, exit);
  }

  lemma {:induction false} RunKeepsInv(s: Sys, steps: seq<Step>)
    requires Inv(s)
    ensures Inv(Run(s, steps))
    decreases |steps|
  {
    if steps == [] {
    } else {
      StepKeepsInv(s, steps[0]);
      RunKeepsInv(Apply(s, steps[0]), steps[1..]);
    }
  }

  // ----- a job that has left `running`

  /** Every row of this job, wherever it is, is the finished row `f`, up to its monitoring status. */
  ghost predicate Frozen(s: Sys, f: Row) {
    && f.uid < s.nextUid && f.state != Running
    && (forall r :: r in s.cache ==> r.uid != f.uid)
    && (forall r :: r in s.job && r.uid == f.uid ==> r == f.(monitoring := r.monitoring))
  }

  lemma {:induction false} SyncKeepsFrozen(s: Sys, f: Row)
    requires Inv(s) && Frozen(s, f)
    ensures Frozen(SyncJobs(s), f)
    decreases |s.cache|
  {
    if s.cache == [] {
    } else {
      MoveKeepsInv(s, 0);
      SyncKeepsFrozen(MoveAt(s, 0), f);
    }
  }

  lemma UpdateKeepsFrozen(s: Sys, f: Row, w: Where, p: Patch)
    requires Frozen(s, f)
    requires p.SetMonitoring? || forall r :: r in s.job && Matches(w, r) ==> r.uid != f.uid
    ensures Frozen(UpdateJobs(s, w, p), f)
  {
    forall r | r in UpdateWhere(s.job, w, p) && r.uid == f.uid ensures r == f.(monitoring := r.monitoring) {
      var x := Origin(s.job, w, p, r);
    }
  }

  lemma StopKeepsFrozen(s: Sys, f: Row, req: StopReq)
    requires Inv(s) && Frozen(s, f)
    ensures Frozen(StopJob(s, req).0, f)
  {
    hide StopJob, Inv, Transfer;
    var stopped, snap, t, id := StopShape(s, req);
    if stopped {
      var r := snap.row;
      assert r.uid != f.uid;
      assert Frozen(t, f);
      UpdateKeepsFrozen(t, f, ById(id), SetStopped(FinalState(req), StopDuration(req, r), r.monitoring));
    }
  }

  lemma StepKeepsFrozen(s: Sys, f: Row, step: Step)
    requires Inv(s) && Frozen(s, f)
    ensures Frozen(Apply(s, step), f)
  {
    match step
    case Start(req, tagged) =>
    case Sync => SyncKeepsFrozen(s, f);
    case Stop(req) => StopKeepsFrozen(s, f, req);
    case Watchdog(now, grace) => UpdateKeepsFrozen(s, f, Overrun(now - grace), SetStopped(Failed, 0, ArchivingFailed));
    case Refresh(now) => UpdateKeepsFrozen(s, f, IsRunning, SetRefreshed(now));
    case DeleteById(id) =>
    case DeleteBefore(ts, spared) =>
    case ArchiveNext(exit) =>
      if s.done < |s.log| && StatusOf(exit).Some? {
        UpdateKeepsFrozen(s.(done := s.done + 1), f, ById(s.log[s.done].id), SetMonitoring(StatusOf(exit).value));
      }
  }

  /** Leaving `running` is permanent: the finished row keeps its id, key, state and duration
      through every further run, until a delete removes it for good. */
  lemma {:induction false} FinishedStaysFinished(s: Sys, steps: seq<Step>, f: Row)
    requires Inv(s) && f in s.job && f.state != Running
    ensures Frozen(Run(s, steps), f)
  {
    FrozenRun(s, steps, f);
  }

  lemma {:induction false} FrozenRun(s: Sys, steps: seq<Step>, f: Row)
    requires Inv(s) && Frozen(s, f)
    ensures Frozen(Run(s, steps), f)
    decreases |steps|
  {
    if steps == [] {
    } else {
      StepKeepsInv(s, steps[0]);
      StepKeepsFrozen(s, f, steps[0]);
      FrozenRun(Apply(s, steps[0]), steps[1..], f);
    }
  }
}
