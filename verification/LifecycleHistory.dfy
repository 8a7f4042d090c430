/** Statements over whole runs from the empty system: who ended a job, which keys exist,
    and which row an id that a sync reports really means. */
module LifecycleHistory {
  import opened Prelude
  import opened JobTable
  import opened ArchiveOutcome
  import opened Lifecycle
  import opened LifecycleInvariant

  lemma {:induction false} RunSnoc(s: Sys, steps: seq<Step>, last: Step)
    ensures Run(s, steps + [last]) == Apply(Run(s, steps), last)
    decreases |steps|
  {
    if steps == [] {
      assert Run(s, [last]) == Run(Apply(s, last), []);
    } else {
      assert (steps + [last])[1..] == steps[1..] + [last];
      RunSnoc(Apply(s, steps[0]), steps[1..], last);
    }
  }

  lemma EmptyInv()
    ensures Inv(EMPTY)
  {
  }

  // ----- SyncJobs

  ghost predicate Arrives(s: Sys, r: Row) {
    r in s.cache && !HasKey(s.job, r)
  }

  /** `x` is the row `r` under an id of the other table. */
  predicate Rehomed(r: Row, x: Row) {
    x == r.(id := x.id)
  }

  lemma MoveFacts(s: Sys)
    requires Inv(s) && s.cache != []
    ensures var t, r0 := MoveAt(s, 0), s.cache[0];
            && Inv(t) && s.job <= t.job
            && (forall x :: x in t.job && x !in s.job ==> Arrives(s, r0) && Rehomed(r0, x))
            && (Arrives(s, r0) ==> exists x :: x in t.job && Rehomed(r0, x))
            && (forall r :: r != r0 ==> (Arrives(t, r) <==> Arrives(s, r)))
            && !Arrives(t, r0)
  {
    MoveKeepsInv(s, 0);
    var t, r0 := MoveAt(s, 0), s.cache[0];
    forall r | r != r0 ensures Arrives(t, r) <==> Arrives(s, r) {
      OthersArrive(s, r);
    }
    GoneFromCache(s);
    hide Inv;
    if Arrives(s, r0) {
      var x := r0.(id := NextId(s.job));
      assert x in t.job && Rehomed(r0, x);
    }
  }

  lemma OthersArrive(s: Sys, r: Row)
    requires Inv(s) && s.cache != [] && r != s.cache[0]
    ensures Arrives(MoveAt(s, 0), r) <==> Arrives(s, r)
  {
    var t := MoveAt(s, 0);
    assert r in t.cache <==> r in s.cache;
    if r in s.cache {
      assert !SameKey(r, s.cache[0]);
    }
  }

  lemma GoneFromCache(s: Sys)
    requires Inv(s) && s.cache != []
    ensures !Arrives(MoveAt(s, 0), s.cache[0])
  {
  }

  /** The rows `job` already had stay where and as they are: a stopped row is never overwritten.
      What is appended are the cached rows whose key `job` did not have. */
  lemma {:induction false} SyncAppends(s: Sys)
    requires Inv(s)
    ensures s.job <= SyncJobs(s).job
    ensures forall x :: x in SyncJobs(s).job && x !in s.job ==> exists r :: Arrives(s, r) && Rehomed(r, x)
    ensures forall r :: Arrives(s, r) ==> exists x :: x in SyncJobs(s).job && Rehomed(r, x)
    decreases |s.cache|
  {
    hide Inv, Arrives, Rehomed;
    if s.cache == [] {
      NothingArrives(s);
    } else {
      var t, r0 := MoveAt(s, 0), s.cache[0];
      MoveFacts(s);
      SyncAppends(t);
    }
  }

  lemma NothingArrives(s: Sys)
    requires s.cache == []
    ensures forall r :: !Arrives(s, r)
  {
  }

  // ----- who ended a job

  /** The stop request `step`, handled in `s`, ended `r` and reported exactly its id, state and duration: the state
      is the requested one, or `completed` where the request names none. */
  ghost predicate StoppedBy(s: Sys, step: Step, r: Row) {
    && step.Stop?
    && StopJob(s, step.stop).1 == Stopped(Entry(r.id, r.uid), r.state, r.duration)
    && r.start <= step.stop.stopTime
    && r.duration == ToInt32(Sub64(step.stop.stopTime, r.start))
    && r.state == (if step.stop.state.Requested? then step.stop.state.state else Completed)
  }

  /** The watchdog ended `r`, which had overrun its walltime and the grace period. */
  ghost predicate KilledBy(step: Step, r: Row) {
    && step.Watchdog?
    && r.state == Failed && r.duration == 0
    && 0 < r.walltime && r.start + r.walltime < step.now - step.grace
  }

  /** `x` is the finished row `r` up to its monitoring status. */
  ghost predicate SameEnd(x: Row, r: Row) {
    x == r.(monitoring := x.monitoring)
  }

  /** A finished row was finished already, or this very step ended it. */
  lemma FinishedBefore(s: Sys, step: Step, r: Row)
    requires Inv(s) && r in Apply(s, step).job && r.state != Running
    ensures (exists x :: x in s.job && SameEnd(x, r)) || StoppedBy(s, step, r) || KilledBy(step, r)
  {
    if r in s.job {
      assert SameEnd(r, r);
    } else {
      match step
      case Start(req, tagged) =>
      case Sync => SyncAppends(s);
      case Stop(req) => StoppedNow(s, req, r);
      case Watchdog(now, grace) =>
        var x := Origin(s.job, Overrun(now - grace), SetStopped(Failed, 0, ArchivingFailed), r);
      case Refresh(now) =>
        var x := Origin(s.job, IsRunning, SetRefreshed(now), r);
      case DeleteById(id) =>
      case DeleteBefore(ts, spared) =>
      case ArchiveNext(exit) =>
        var m := StatusOf(exit).value;
        var x := Origin(s.job, ById(s.log[s.done].id), SetMonitoring(m), r);
        assert SameEnd(x, r);
    }
  }

  lemma StoppedNow(s: Sys, req: StopReq, r: Row)
    requires Inv(s) && r in StopJob(s, req).0.job && r !in s.job && r.state != Running
    ensures StoppedBy(s, Step.Stop(req), r)
  {
    hide Inv, StopJob;
    var stopped, snap, t, id := StopShape(s, req);
    var p := SetStopped(FinalState(req), StopDuration(req, snap.row), snap.row.monitoring);
    var x := Origin(t.job, ById(id), p, r);
    assert x.id == id;
  }

  /** What ended a row is still true of it when only its monitoring status has changed since. */
  lemma EndCarries(s: Sys, step: Step, x: Row, r: Row)
    requires SameEnd(x, r)
    ensures x.state == r.state
    ensures StoppedBy(s, step, x) ==> StoppedBy(s, step, r)
    ensures KilledBy(step, x) ==> KilledBy(step, r)
  {
    hide StopJob;
  }

  /** Step k of the run ended r. */
  ghost predicate EndedAt(steps: seq<Step>, k: nat, r: Row) {
    k < |steps| && (StoppedBy(Run(EMPTY, steps[..k]), steps[k], r) || KilledBy(steps[k], r))
  }

  lemma EndedEarlier(before: seq<Step>, step: Step, k: nat, x: Row, r: Row)
    requires EndedAt(before, k, x) && SameEnd(x, r)
    ensures EndedAt(before + [step], k, r)
  {
    hide Run, SameEnd, StoppedBy, KilledBy;
    var steps := before + [step];
    assert before[..k] == steps[..k] && before[k] == steps[k];
    EndCarries(Run(EMPTY, before[..k]), steps[k], x, r);
  }

  lemma EndedLast(before: seq<Step>, step: Step, r: Row)
    requires StoppedBy(Run(EMPTY, before), step, r) || KilledBy(step, r)
    ensures EndedAt(before + [step], |before|, r)
  {
    hide Run, StoppedBy, KilledBy;
    assert (before + [step])[..|before|] == before;
  }

  /** Over every run: a row that has left `running` was ended by one stop request, whose duration
      and state it still carries, or by the watchdog, which leaves duration 0. */
  lemma {:induction false} FinishedRowHistory(steps: seq<Step>, r: Row)
    requires r in Run(EMPTY, steps).job && r.state != Running
    ensures exists k :: EndedAt(steps, k, r)
    decreases |steps|
  {
    if steps == [] {
    } else {
      hide Inv, StoppedBy, KilledBy, SameEnd, Apply, EndedAt;
      var n := |steps| - 1;
      var before, step := steps[..n], steps[n];
      assert steps == before + [step];
      RunSnoc(EMPTY, before, step);
      StartedInv(before);
      FinishedBefore(Run(EMPTY, before), step, r);
      if x :| x in Run(EMPTY, before).job && SameEnd(x, r) {
        EndCarries(EMPTY, step, x, r);
        FinishedRowHistory(before, x);
        var k :| EndedAt(before, k, x);
        EndedEarlier(before, step, k, x, r);
      } else {
        EndedLast(before, step, r);
      }
    }
  }

  lemma StartedInv(steps: seq<Step>)
    ensures Inv(Run(EMPTY, steps))
  {
    EmptyInv();
    RunKeepsInv(EMPTY, steps);
  }

  /** The recorded duration is the true one exactly when that is below 2^31 seconds. */
  lemma DurationExact(req: StopReq, r: Row)
    requires r.start <= req.stopTime
    ensures StopDuration(req, r) == req.stopTime - r.start <==> req.stopTime - r.start < TWO_31
  {
    var d := req.stopTime - r.start;
    if d < TWO_63 {
      Sub64Exact(req.stopTime, r.start);
      ToInt32Exact(d);
    }
  }

  // ----- conservation of keys

  function KeyOf(r: Row): (int, string, Int64) {
    (r.jobId, r.cluster, r.start)
  }

  function Keys(t: Table): set<(int, string, Int64)> {
    set r | r in t :: KeyOf(r)
  }

  function AllKeys(s: Sys): set<(int, string, Int64)> {
    Keys(s.cache) + Keys(s.job)
  }

  lemma UpdateKeepsKeys(t: Table, w: Where, p: Patch)
    ensures Keys(UpdateWhere(t, w, p)) == Keys(t)
  {
    var u := UpdateWhere(t, w, p);
    forall r | r in t ensures KeyOf(r) in Keys(u) {
      var i :| 0 <= i < |t| && t[i] == r;
      assert u[i] in u && KeyOf(u[i]) == KeyOf(r);
    }
    forall r | r in u ensures KeyOf(r) in Keys(t) {
      var x := Origin(t, w, p, r);
    }
  }

  /** Sync moves every cached key. */
  lemma SyncMovesAllKeys(s: Sys)
    requires Inv(s)
    ensures SyncJobs(s).cache == [] && Keys(SyncJobs(s).job) == AllKeys(s)
  {
    hide Inv;
    SyncAppends(s);
    var t := SyncJobs(s);
    forall r | r in s.cache ensures KeyOf(r) in Keys(t.job) {
      if Arrives(s, r) {
        var x :| x in t.job && Rehomed(r, x);
        assert KeyOf(x) == KeyOf(r);
      } else {
        var x :| x in s.job && SameKey(x, r);
        assert x in t.job && KeyOf(x) == KeyOf(r);
      }
    }
  }

  /** A transfer moves one key, or, when `job` has the key already, fails and changes nothing. */
  lemma TransferMovesOneKey(s: Sys, r: Row, stale: int)
    requires Inv(s) && r in s.cache
    ensures var (t, id) := Transfer(s, r.id, stale);
            if HasKey(s.job, r) then t == s && id.None?
            else Keys(t.job) == Keys(s.job) + {KeyOf(r)} && Keys(t.cache) == Keys(s.cache) - {KeyOf(r)}
  {
    CachedRowFound(s, r);
    if !HasKey(s.job, r) {
      TransferMoves(s, r, stale);
      var t := Transfer(s, r.id, stale).0;
      forall x | x in s.cache && x != r ensures KeyOf(x) != KeyOf(r) {
        assert !SameKey(x, r);
      }
    }
  }

  function KeysAfter(s: Sys, step: Step): set<(int, string, Int64)> {
    match step
    case Start(req, tagged) => AllKeys(s) + (if StartAccepted(s, req, tagged) then {KeyOf(req)} else {})
    case DeleteById(id) => Keys(s.cache) + Keys(DeleteWhere(s.job, ById(id)))
    case DeleteBefore(ts, spared) => Keys(s.cache) + Keys(DeleteWhere(s.job, Before(ts, spared)))
    case _ => AllKeys(s)
  }

  /** Only accepted starts add a key and only deletes take keys away. */
  lemma StepConservesKeys(s: Sys, step: Step)
    requires Inv(s)
    ensures AllKeys(Apply(s, step)) == KeysAfter(s, step)
  {
    hide Inv, StopJob;
    match step
    case Start(req, tagged) =>
      if StartAccepted(s, req, tagged) {
        var n := NewRow(s, req).(id := NextId(if tagged then s.job else s.cache));
        assert KeyOf(n) == KeyOf(req);
        assert n in Apply(s, step).cache || n in Apply(s, step).job;
      }
    case Sync => SyncMovesAllKeys(s);
    case Stop(req) => StopConservesKeys(s, req);
    case Watchdog(now, grace) => UpdateKeepsKeys(s.job, Overrun(now - grace), SetStopped(Failed, 0, ArchivingFailed));
    case Refresh(now) => UpdateKeepsKeys(s.job, IsRunning, SetRefreshed(now));
    case DeleteById(id) =>
    case DeleteBefore(ts, spared) =>
    case ArchiveNext(exit) =>
      if s.done < |s.log| && StatusOf(exit).Some? {
        UpdateKeepsKeys(s.job, ById(s.log[s.done].id), SetMonitoring(StatusOf(exit).value));
      }
  }

  lemma StopConservesKeys(s: Sys, req: StopReq)
    requires Inv(s)
    ensures AllKeys(StopJob(s, req).0) == AllKeys(s)
  {
    hide Inv, StopJob;
    var stopped, snap, t, id := StopShape(s, req);
    if stopped {
      UpdateKeepsKeys(t.job, ById(id), SetStopped(FinalState(req), StopDuration(req, snap.row), snap.row.monitoring));
      if snap.cached {
        assert KeyOf(t.job[|s.job|]) == KeyOf(snap.row);
        assert AllKeys(t) == AllKeys(s);
      }
    }
  }

  function AcceptedKeys(s: Sys, steps: seq<Step>): set<(int, string, Int64)>
    decreases |steps|
  {
    if steps == [] then {}
    else (match steps[0]
          case Start(req, tagged) => if StartAccepted(s, req, tagged) then {KeyOf(req)} else {}
          case _ => {}) + AcceptedKeys(Apply(s, steps[0]), steps[1..])
  }

  /** The keys that the deletes of the run take away. */
  function DeletedKeys(s: Sys, steps: seq<Step>): set<(int, string, Int64)>
    decreases |steps|
  {
    if steps == [] then {}
    else (match steps[0]
          case DeleteById(id) => AllKeys(s) - AllKeys(Apply(s, steps[0]))
          case DeleteBefore(ts, spared) => AllKeys(s) - AllKeys(Apply(s, steps[0]))
          case _ => {}) + DeletedKeys(Apply(s, steps[0]), steps[1..])
  }

  lemma DeleteOnlyTakes(s: Sys, step: Step)
    requires step.DeleteById? || step.DeleteBefore?
    ensures AllKeys(Apply(s, step)) <= AllKeys(s)
  {
    var w := if step.DeleteById? then ById(step.id) else Before(step.ts, step.spared);
    assert forall r :: r in DeleteWhere(s.job, w) ==> r in s.job;
  }

  /** Over every run: each key there at the end was there at the start or came by an accepted start, and each of
      those is there at the end unless a delete took it. */
  lemma {:induction false} RunConservesKeys(s: Sys, steps: seq<Step>)
    requires Inv(s)
    ensures AllKeys(Run(s, steps)) <= AllKeys(s) + AcceptedKeys(s, steps)
    ensures AllKeys(s) + AcceptedKeys(s, steps) <= AllKeys(Run(s, steps)) + DeletedKeys(s, steps)
    decreases |steps|
  {
    hide Inv, AllKeys, Apply, StartAccepted;
    if steps == [] {
    } else {
      StepKeepsInv(s, steps[0]);
      StepConservesKeys(s, steps[0]);
      if steps[0].DeleteById? || steps[0].DeleteBefore? {
        DeleteOnlyTakes(s, steps[0]);
      }
      RunConservesKeys(Apply(s, steps[0]), steps[1..]);
    }
  }

  lemma {:induction false} NothingDeleted(s: Sys, steps: seq<Step>)
    requires forall i :: 0 <= i < |steps| ==> !steps[i].DeleteById? && !steps[i].DeleteBefore?
    ensures DeletedKeys(s, steps) == {}
    decreases |steps|
  {
    if steps == [] {
    } else {
      NothingDeleted(Apply(s, steps[0]), steps[1..]);
    }
  }

  /** Over every run without deletes the keys are exactly the old ones and those of the accepted starts. */
  lemma NoDeletesNothingLost(s: Sys, steps: seq<Step>)
    requires Inv(s)
    requires forall i :: 0 <= i < |steps| ==> !steps[i].DeleteById? && !steps[i].DeleteBefore?
    ensures AllKeys(Run(s, steps)) == AllKeys(s) + AcceptedKeys(s, steps)
  {
    hide Inv, AllKeys, Run;
    RunConservesKeys(s, steps);
    NothingDeleted(s, steps);
  }

  // ----- the ids SyncJobs reports to the start hooks

  /** The lookup by full key that replaces the cache id of a reported job. */
  function Resolve(job: Table, r: Row): Option<int> {
    match Newest(job, FullKey(r))
    case Some(x) => Some(x.id)
    case None => None
  }

  /** A reported job gets the id of the `job` row with its key, which is its own row exactly
      when `job` did not have that key before. */
  lemma SyncReportsJobIds(s: Sys, r: Row)
    requires Inv(s) && r in s.cache
    ensures exists x :: x in SyncJobs(s).job && SameKey(x, r) && Resolve(SyncJobs(s).job, r) == Some(x.id) &&
                        (x.uid == r.uid <==> !HasKey(s.job, r))
  {
    SyncAppends(s);
    SyncKeepsInv(s);
    var t := SyncJobs(s);
    var y := KeyHolder(s, t, r);
    hide Inv, SyncJobs;
    OneOfKey(t, y, r);
  }

  /** The row of `job` that has the key after the sync. */
  lemma KeyHolder(s: Sys, t: Sys, r: Row) returns (y: Row)
    requires Inv(s) && r in s.cache && s.job <= t.job
    requires Arrives(s, r) ==> exists x :: x in t.job && Rehomed(r, x)
    ensures y in t.job && SameKey(y, r) && (y.uid == r.uid <==> !HasKey(s.job, r))
  {
    if Arrives(s, r) {
      y :| y in t.job && Rehomed(r, y);
    } else {
      y :| y in s.job && SameKey(y, r);
      assert y in t.job;
    }
  }

  lemma OneOfKey(t: Sys, y: Row, r: Row)
    requires Inv(t) && y in t.job && SameKey(y, r)
    ensures Resolve(t.job, r) == Some(y.id)
  {
    assert Selects(FullKey(r), y);
    assert SameKey(Newest(t.job, FullKey(r)).value, y);
  }

  /** Deletes do not take the repository mutex. One that runs between the commit and the lookup makes
      the lookup fail, and so leaves the cache id in place, exactly when it deletes the reported row. */
  lemma SyncReportsCacheId(s: Sys, r: Row, w: Where)
    requires Inv(s) && r in s.cache
    ensures Resolve(DeleteWhere(SyncJobs(s).job, w), r).None? <==>
            forall x :: x in SyncJobs(s).job && SameKey(x, r) ==> Matches(w, x)
  {
  }
}
