/** The repository and the request handlers as objects that update their tables in place,
    each method proved against the transition system. A SQL statement is one assignment. */
module JobRepository {
  import opened Prelude
  import opened JobTable
  import opened Lifecycle
  import opened LifecycleInvariant
  import opened LifecycleHistory

  /** `nextUid` numbers the inserted jobs; the source has no such counter and never reads it. */
  class Repository {
    var cache: Table
    var job: Table
    var nextUid: nat

    constructor ()
      ensures Tables() == EMPTY
    {
      cache, job, nextUid := [], [], 0;
    }

    ghost function Tables(): Sys
      reads this
    {
      Sys(cache, job, [], 0, nextUid)
    }

    /** InsertJob, and InsertJobDirect when `direct`: the new row's id, or none when the key is taken. */
    method Insert(req: Row, direct: bool) returns (id: Option<int>)
      modifies this
      ensures var t := old(if direct then job else cache);
              && (id.None? <==> exists r :: r in t && r.jobId == req.jobId && r.cluster == req.cluster && r.start == req.start)
              && (id.Some? ==> id.value == if t == [] then 1 else t[|t| - 1].id + 1)
      ensures id.None? ==> Tables() == old(Tables())
      ensures id.Some? ==>
                && nextUid == old(nextUid) + 1
                && var row := req.(id := id.value, uid := old(nextUid));
                && job == (if direct then old(job) + [row] else old(job))
                && cache == (if direct then old(cache) else old(cache) + [row])
    {
      var t, row := if direct then job else cache, req.(uid := nextUid);
      if HasKey(t, req) {
        return None;
      }
      id, nextUid := Some(NextId(t)), nextUid + 1;
      if direct {
        job := Append(job, row);
      } else {
        cache := Append(cache, row);
      }
    }

    /** SyncJobs: scan the cache, move it in one transaction, then replace the cache ids.
        Each reported job carries the id of the `job` row with its own key. */
    method SyncJobs() returns (jobs: seq<Row>)
      requires Inv(Tables())
      modifies this`cache, this`job
      ensures Tables() == Lifecycle.SyncJobs(old(Tables()))
      ensures |jobs| == |old(cache)|
      ensures forall i :: 0 <= i < |jobs| ==>
                jobs[i] == old(cache)[i].(id := jobs[i].id) && Resolve(job, old(cache)[i]) == Some(jobs[i].id)
    {
      hide Inv, Lifecycle.SyncJobs, Newest;
      ghost var before := Tables();
      jobs := [];
      for i := 0 to |cache|
        invariant Tables() == before && jobs == cache[..i]
      {
        jobs := jobs + [cache[i]];
      }
      var moved := Lifecycle.SyncJobs(Sys(cache, job, [], 0, nextUid));
      cache, job := moved.cache, moved.job;
      for i := 0 to |jobs|
        invariant Tables() == moved && |jobs| == |before.cache|
        invariant forall k :: 0 <= k < i ==>
                    jobs[k] == before.cache[k].(id := jobs[k].id) && Resolve(job, before.cache[k]) == Some(jobs[k].id)
        invariant forall k :: i <= k < |jobs| ==> jobs[k] == before.cache[k]
      {
        ResolvesAll(before, jobs[i]);
        var found := Newest(job, FullKey(jobs[i]));
        if found.None? {
          continue;
        }
        jobs := jobs[i := jobs[i].(id := found.value.id)];
      }
    }

    method TransferCachedJobToMain(cacheId: int, stale: int) returns (id: Option<int>)
      modifies this`cache, this`job
      ensures (Tables(), id) == Transfer(old(Tables()), cacheId, stale)
      ensures (forall r :: r in old(cache) ==> r.id != cacheId) ==> Tables() == old(Tables()) && id == Some(stale)
      ensures forall i :: 0 <= i < |old(cache)| && old(cache)[i].id == cacheId && old(Sorted(cache)) ==>
                var r := old(cache)[i];
                if exists x :: x in old(job) && SameKey(x, r) then Tables() == old(Tables()) && id == None
                else
                  && id == Some(if old(job) == [] then 1 else old(job)[|old(job)| - 1].id + 1)
                  && job == old(job) + [r.(id := id.value)] && cache == Cut(old(cache), i)
    {
      var i := Index(cache, cacheId);
      if i == -1 {
        return Some(stale);
      }
      if HasKey(job, cache[i]) {
        return None;
      }
      id := Some(NextId(job));
      job := Append(job, cache[i]);
      cache := RemoveAt(cache, i);
    }

    /** Stop: only the row with the id changes, and only its state, duration and monitoring status. */
    method MarkStopped(id: int, state: JobState, duration: int, monitoring: Monitoring)
      modifies this`job
      ensures job == UpdateWhere(old(job), ById(id), SetStopped(state, duration, monitoring))
      ensures |job| == |old(job)| && forall i :: 0 <= i < |job| ==>
                var r := old(job)[i];
                job[i] == Row(r.id, r.jobId, r.cluster, r.start, r.walltime, if r.id == id then state else r.state,
                              if r.id == id then duration else r.duration,
                              if r.id == id then monitoring else r.monitoring, r.uid)
    {
      job := UpdateWhere(job, ById(id), SetStopped(state, duration, monitoring));
    }

    /** The watchdog: running rows with a walltime that has been over for more than `grace` become failed, with
        duration 0 and failed archiving; no other row and no other column changes. */
    method StopJobsExceedingWalltimeBy(now: int, grace: int)
      modifies this`job
      ensures Tables() == Apply(old(Tables()), Step.Watchdog(now, grace))
      ensures |job| == |old(job)| && forall i :: 0 <= i < |job| ==>
                var r := old(job)[i];
                var over := r.state == Running && r.walltime > 0 && now > r.start + r.walltime + grace;
                job[i] == Row(r.id, r.jobId, r.cluster, r.start, r.walltime, if over then Failed else r.state,
                              if over then 0 else r.duration, if over then ArchivingFailed else r.monitoring, r.uid)
    {
      job := UpdateWhere(job, Overrun(now - grace), SetStopped(Failed, 0, ArchivingFailed));
    }

    /** Running rows get their age as duration; no other row and no other column changes. */
    method UpdateDuration(now: int)
      modifies this`job
      ensures Tables() == Apply(old(Tables()), Step.Refresh(now))
      ensures |job| == |old(job)| && forall i :: 0 <= i < |job| ==>
                var r := old(job)[i];
                job[i] == Row(r.id, r.jobId, r.cluster, r.start, r.walltime, r.state,
                              if r.state == Running then now - r.start else r.duration, r.monitoring, r.uid)
    {
      job := UpdateWhere(job, IsRunning, SetRefreshed(now));
    }

    /** Only the monitoring status of the row with the id changes. */
    method UpdateMonitoringStatus(id: int, monitoring: Monitoring)
      modifies this`job
      ensures |job| == |old(job)| && forall i :: 0 <= i < |job| ==>
                var r := old(job)[i];
                job[i] == Row(r.id, r.jobId, r.cluster, r.start, r.walltime, r.state, r.duration,
                              if r.id == id then monitoring else r.monitoring, r.uid)
    {
      job := UpdateWhere(job, ById(id), SetMonitoring(monitoring));
    }

    /** In a table with its ids in order the one row with the id is cut out; an unknown id changes nothing. */
    method DeleteJobByID(id: int)
      modifies this`job
      ensures Tables() == Apply(old(Tables()), Step.DeleteById(id))
      ensures old(Sorted(job)) ==>
                forall i :: 0 <= i < |old(job)| && old(job)[i].id == id ==> job == Cut(old(job), i)
      ensures (forall i :: 0 <= i < |old(job)| ==> old(job)[i].id != id) ==> job == old(job)
    {
      hide DeleteWhere, Sorted;
      if old(Sorted(job)) {
        forall i | 0 <= i < |job| && job[i].id == id ensures DeleteWhere(job, ById(id)) == Cut(job, i) {
          DeleteOne(job, id, i);
        }
      }
      if forall i :: 0 <= i < |job| ==> job[i].id != id {
        DeleteMissing(job, id);
      }
      job := DeleteWhere(job, ById(id));
    }

    /** `spared` are the rows that the tag filter leaves out; the count is taken before the delete. */
    method DeleteJobsBefore(ts: int, spared: set<int>) returns (cnt: nat)
      modifies this`job
      ensures Tables() == Apply(old(Tables()), Step.DeleteBefore(ts, spared))
      ensures forall r :: r in job <==> r in old(job) && !(r.start < ts && r.id !in spared)
      ensures old(Sorted(job)) ==> Sorted(job)
      ensures cnt + |job| == |old(job)|
    {
      hide DeleteWhere, Matches;
      var w := Before(ts, spared);
      cnt := 0;
      DeleteNone(job, w);
      for i := 0 to |job|
        invariant job == old(job) && cnt + |DeleteWhere(job[..i], w)| == i
      {
        DeleteNext(job, i, w);
        if Matches(w, job[i]) {
          cnt := cnt + 1;
        }
      }
      assert job[..|job|] == job;
      OldRowsGo(job, ts, spared);
      job := DeleteWhere(job, w);
    }
  }

  ghost function Cut(t: Table, i: nat): Table
    requires i < |t|
  {
    t[..i] + t[i + 1..]
  }

  lemma DeleteLast(t: Table, id: int)
    requires t != []
    ensures var init, last := DeleteWhere(t[..|t| - 1], ById(id)), t[|t| - 1];
            DeleteWhere(t, ById(id)) == if last.id == id then init else init + [last]
  {
    hide Sorted;
  }

  lemma {:induction false} DeleteMissing(t: Table, id: int)
    requires forall i :: 0 <= i < |t| ==> t[i].id != id
    ensures DeleteWhere(t, ById(id)) == t
    decreases |t|
  {
    hide DeleteWhere, Sorted, Matches;
    if t == [] {
      DeleteNone(t, ById(id));
      assert t[..0] == t;
    } else {
      var init, last := t[..|t| - 1], t[|t| - 1];
      DeleteMissing(init, id);
      DeleteLast(t, id);
      assert t == init + [last];
    }
  }

  lemma {:induction false} DeleteOne(t: Table, id: int, i: nat)
    requires Sorted(t) && i < |t| && t[i].id == id
    ensures DeleteWhere(t, ById(id)) == Cut(t, i)
  {
    hide DeleteWhere, Matches;
    var n := |t| - 1;
    DeleteLast(t, id);
    if i == n {
      DeleteMissing(t[..n], id);
      assert Cut(t, n) == t[..n];
    } else {
      DeleteOne(t[..n], id, i);
      CutInit(t, i);
    }
  }

  lemma CutInit(t: Table, i: nat)
    requires i < |t| - 1
    ensures Cut(t, i) == Cut(t[..|t| - 1], i) + [t[|t| - 1]]
  {
  }

  lemma OldRowsGo(t: Table, ts: int, spared: set<int>)
    ensures forall r :: r in DeleteWhere(t, Before(ts, spared)) <==> r in t && !(r.start < ts && r.id !in spared)
  {
    hide DeleteWhere;
  }

  lemma DeleteNone(t: Table, w: Where)
    ensures DeleteWhere(t[..0], w) == []
  {
  }

  lemma DeleteNext(t: Table, i: nat, w: Where)
    requires i < |t|
    ensures |DeleteWhere(t[..i + 1], w)| == |DeleteWhere(t[..i], w)| + (if Matches(w, t[i]) then 0 else 1)
  {
    hide Matches;
    assert t[..i + 1][..i] == t[..i];
  }

  lemma ResolvesAll(s: Sys, r: Row)
    requires Inv(s) && r in s.cache
    ensures Newest(Lifecycle.SyncJobs(s).job, FullKey(r)).Some?
  {
    SyncReportsJobIds(s, r);
  }

  /** A start is accepted exactly when every row of the pair in `job` started at least a day before, in the 64-bit
      difference that the check computes, and the table it goes to does not have its key. */
  lemma AcceptedIff(s: Sys, req: Row, tagged: bool)
    ensures StartAccepted(s, req, tagged) <==>
            && (forall r :: r in s.job && r.jobId == req.jobId && r.cluster == req.cluster ==>
                  Sub64(req.start, r.start) >= 86400)
            && (forall r :: r in (if tagged then s.job else s.cache) ==> !SameKey(r, req))
  {
    var jobs := SelectAll(s.job, Query(req.jobId, Some(req.cluster), None));
    assert forall r :: r in jobs <==> r in s.job && r.jobId == req.jobId && r.cluster == req.cluster;
    hide SelectAll;
  }

  /** The rows after an accepted start, and none other after a refused one. */
  lemma StartedRow(s: Sys, req: Row, tagged: bool)
    ensures !StartAccepted(s, req, tagged) ==> Lifecycle.StartJob(s, req, tagged) == s
    ensures StartAccepted(s, req, tagged) ==>
              var t := if tagged then s.job else s.cache;
              var row := req.(id := if t == [] then 1 else t[|t| - 1].id + 1, uid := s.nextUid, state := Running);
              Lifecycle.StartJob(s, req, tagged) ==
              s.(job := if tagged then s.job + [row] else s.job, cache := if tagged then s.cache else s.cache + [row],
                 nextUid := s.nextUid + 1)
  {
    hide StartAccepted;
  }

  /** What a stop answers and stores, from `s` to `t`: which check failed, if one did; otherwise the requested state, or
      `completed`, and the wrapped difference of the times, for the row of `job` with the answered id. */
  ghost predicate StopSays(s: Sys, t: Sys, snap: Snapshot, req: StopReq, reply: Reply) {
    var r := snap.row;
    && !reply.NotFound?
    && (reply.AlreadyStopped? <==> r.state != Running)
    && (reply.BadStopTime? <==> r.state == Running && r.start > req.stopTime)
    && (reply.BadState? <==> r.state == Running && r.start <= req.stopTime && req.state.Invalid?)
    && (reply.TransferFailed? ==> snap.cached)
    && (!reply.Stopped? ==> t == s)
    && (reply.Stopped? ==>
          && reply.state == (if req.state.Requested? then req.state.state else Completed)
          && reply.duration == ToInt32(Sub64(req.stopTime, r.start))
          && reply.entry.uid == r.uid && (!snap.cached ==> reply.entry.id == r.id)
          && t.log == s.log + (if r.monitoring == Disabled then [] else [reply.entry])
          && forall x :: x in t.job && x.id == reply.entry.id ==>
               x.state == reply.state && x.duration == reply.duration && x.monitoring == r.monitoring)
  }

  lemma MarkedStays(s: Sys, id: int, r: Row, req: StopReq)
    ensures forall x :: x in MarkStopped(s, id, r, req).job && x.id == id ==>
              && x.state == (if req.state.Requested? then req.state.state else Completed)
              && x.duration == ToInt32(Sub64(req.stopTime, r.start)) && x.monitoring == r.monitoring
    ensures MarkStopped(s, id, r, req).log == s.log + (if r.monitoring == Disabled then [] else [Entry(id, r.uid)])
  {
    forall x | x in MarkStopped(s, id, r, req).job && x.id == id
      ensures && x.state == (if req.state.Requested? then req.state.state else Completed)
              && x.duration == ToInt32(Sub64(req.stopTime, r.start)) && x.monitoring == r.monitoring
    {
      var y := Origin(s.job, ById(id), SetStopped(FinalState(req), StopDuration(req, r), r.monitoring), x);
    }
  }

  lemma CommitSays(s: Sys, snap: Snapshot, req: StopReq, stale: int)
    ensures StopSays(s, Commit(s, snap, req, stale).0, snap, req, Commit(s, snap, req, stale).1)
  {
    var r := snap.row;
    if Commit(s, snap, req, stale).1.Stopped? {
      var (s1, id) := if snap.cached then Transfer(s, r.id, stale) else (s, Some(r.id));
      MarkedStays(s1, id.value, r, req);
      hide MarkStopped;
    }
  }

  /** The start and stop handlers; REST and NATS run the same branches. `log` is what was handed to the archiver. */
  class Handlers {
    const repo: Repository
    var log: seq<Entry>
    var done: nat

    constructor (repo: Repository)
      ensures this.repo == repo && log == [] && done == 0
    {
      this.repo := repo;
      log, done := [], 0;
    }

    ghost function State(): Sys
      reads this, repo
    {
      Sys(repo.cache, repo.job, log, done, repo.nextUid)
    }

    /** startJob. The duplicate loop stops at the first row that is less than a day older. */
    method StartJob(req: Row, tagged: bool) returns (accepted: bool)
      modifies this, repo
      ensures accepted <==>
                && (forall r :: r in old(repo.job) && r.jobId == req.jobId && r.cluster == req.cluster ==>
                      Sub64(req.start, r.start) >= 86400)
                && (forall r :: r in old(if tagged then repo.job else repo.cache) ==> !SameKey(r, req))
      ensures accepted ==>
                var t := old(if tagged then repo.job else repo.cache);
                var id := if t == [] then 1 else t[|t| - 1].id + 1;
                var row := req.(id := id, uid := old(repo.nextUid), state := Running);
                && repo.job == (if tagged then old(repo.job) + [row] else old(repo.job))
                && repo.cache == (if tagged then old(repo.cache) else old(repo.cache) + [row])
      ensures !accepted ==> State() == old(State())
      ensures State() == Lifecycle.StartJob(old(State()), req, tagged)
    {
      AcceptedIff(State(), req, tagged);
      StartedRow(State(), req, tagged);
      hide SelectAll, StartAccepted, Lifecycle.StartJob;
      var jobs := SelectAll(repo.job, Query(req.jobId, Some(req.cluster), None));
      for i := 0 to |jobs|
        invariant State() == old(State())
        invariant forall k :: 0 <= k < i ==> Sub64(req.start, jobs[k].start) >= SECONDS_PER_DAY
      {
        if Sub64(req.start, jobs[i].start) < SECONDS_PER_DAY {
          assert jobs[i] in jobs && jobs[i] in repo.job;
          return false;
        }
      }
      forall r | r in repo.job && r.jobId == req.jobId && r.cluster == req.cluster
        ensures Sub64(req.start, r.start) >= 86400
      {
        assert r in jobs;
      }
      ghost var t := if tagged then repo.job else repo.cache;
      var id := repo.Insert(req.(state := Running), tagged);
      assert id.None? <==> exists r :: r in t && SameKey(r, req);
      accepted := id.Some?;
    }

    /** stopJobByRequest with the commit following at once. */
    method StopJobByRequest(req: StopReq) returns (reply: Reply)
      modifies this, repo
      ensures (State(), reply) == StopJob(old(State()), req)
      ensures reply.NotFound? <==>
                forall r :: r in old(repo.cache) || r in old(repo.job) ==>
                  !(r.jobId == req.q.jobId && (req.q.cluster.Some? ==> r.cluster == req.q.cluster.value)
                    && (req.q.start.Some? ==> r.start == req.q.start.value))
      ensures reply.NotFound? ==> State() == old(State())
      ensures !reply.NotFound? ==>
                Lookup(old(State()), req.q).Some? &&
                StopSays(old(State()), State(), Lookup(old(State()), req.q).value, req, reply)
      ensures reply.Stopped? ==>
                && reply.state == (if req.state.Requested? then req.state.state else Completed)
                && forall x :: x in repo.job && x.id == reply.entry.id ==>
                     x.state == reply.state && x.duration == reply.duration
    {
      var isCached := false;
      var found := Newest(repo.cache, req.q);
      if found.None? {
        found := Newest(repo.job, req.q);
        if found.None? {
          return NotFound;
        }
      } else {
        isCached := true;
      }
      reply := CheckAndHandleStopJob(Snapshot(found.value, isCached), req, 0);
    }

    /** checkAndHandleStopJob: the checks look at the snapshot, everything after them at the tables. */
    method CheckAndHandleStopJob(snap: Snapshot, req: StopReq, stale: int) returns (reply: Reply)
      modifies this, repo
      ensures (State(), reply) == Commit(old(State()), snap, req, stale)
      ensures StopSays(old(State()), State(), snap, req, reply)
    {
      CommitSays(State(), snap, req, stale);
      hide StopSays;
      var r := snap.row;
      if r.state != Running {
        return AlreadyStopped(r.uid);
      }
      if r.start > req.stopTime {
        return BadStopTime(r.uid);
      }
      if req.state.Invalid? {
        return BadState(r.uid);
      }
      var state := if req.state.Unset? then Completed else req.state.state;
      var duration := ToInt32(Sub64(req.stopTime, r.start));
      var id := r.id;
      if snap.cached {
        var newId := repo.TransferCachedJobToMain(r.id, stale);
        if newId.None? {
          return TransferFailed(r.uid);
        }
        id := newId.value;
      }
      repo.MarkStopped(id, state, duration, r.monitoring);
      reply := Stopped(Entry(id, r.uid), state, duration);
      if r.monitoring == Disabled {
        return;
      }
      log := log + [Entry(id, r.uid)];
    }
  }
}
