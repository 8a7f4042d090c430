/** The stop handlers as they really interleave: the lookup runs without the repository mutex and the commit
    under it. Where each commit finds its row untouched, such a run is a run of atomic stops. */
module SplitStop {
  import opened Prelude
  import opened JobTable
  import opened ArchiveOutcome
  import opened Lifecycle
  import opened LifecycleInvariant
  import opened LifecycleHistory
  import opened DayWindow

  /** What a handler holds between lookup and commit. */
  datatype Held = Held(snap: Snapshot, req: StopReq)
  datatype Fine = Fine(sys: Sys, held: map<nat, Held>)

  datatype FineStep =
    | Atomic(step: Step)
    | Look(handler: nat, req: StopReq)
    | Finish(handler: nat, stale: int)

  function ApplyFine(f: Fine, step: FineStep): Fine {
    match step
    case Atomic(s) => f.(sys := Apply(f.sys, s))
    case Look(h, req) =>
      (match Lookup(f.sys, req.q)
       case None => f
       case Some(snap) => f.(held := f.held[h := Held(snap, req)]))
    case Finish(h, stale) =>
      if h !in f.held then f
      else Fine(Commit(f.sys, f.held[h].snap, f.held[h].req, stale).0, f.held - {h})
  }

  function RunFine(f: Fine, steps: seq<FineStep>): Fine
    decreases |steps|
  {
    if steps == [] then f else RunFine(ApplyFine(f, steps[0]), steps[1..])
  }

  /** The row a handler holds is in the table it was found in, unchanged but for its duration. */
  predicate Present(s: Sys, snap: Snapshot) {
    exists r :: r in (if snap.cached then s.cache else s.job) && r == snap.row.(duration := r.duration)
  }

  /** What stays true of a snapshot whatever happens to its row. */
  ghost predicate HeldOk(s: Sys, snap: Snapshot) {
    && snap.row.uid < s.nextUid
    && (forall r :: r in s.job && r.uid == snap.row.uid ==> SameJob(r, snap.row))
    && (snap.cached ==> forall r :: r in s.cache && r.uid == snap.row.uid ==> r == snap.row)
    && (!snap.cached ==>
          && (forall r :: r in s.cache ==> r.uid != snap.row.uid)
          && (forall r :: r in s.job && r.uid == snap.row.uid ==>
                r.id == snap.row.id && !HasKey(s.cache, snap.row)))
  }

  function Narrowed(req: StopReq, r: Row): StopReq {
    req.(q := FullKey(r))
  }

  // ----- one commit

  lemma NewestByKey(t: Table, k: Row)
    requires KeysUnique(t)
    ensures !HasKey(t, k) ==> Newest(t, FullKey(k)) == None
    ensures forall r :: r in t && SameKey(r, k) ==> Newest(t, FullKey(k)) == Some(r)
  {
    assert forall r :: Selects(FullKey(k), r) <==> SameKey(r, k);
  }

  lemma PresentIsFound(s: Sys, snap: Snapshot) returns (x: Row)
    requires Inv(s) && HeldOk(s, snap) && Present(s, snap)
    ensures Lookup(s, FullKey(snap.row)) == Some(Snapshot(x, snap.cached))
    ensures x == snap.row.(duration := x.duration)
    ensures x in (if snap.cached then s.cache else s.job)
  {
    x :| x in (if snap.cached then s.cache else s.job) && x == snap.row.(duration := x.duration);
    assert SameKey(x, snap.row);
    NewestByKey(s.cache, snap.row);
    NewestByKey(s.job, snap.row);
  }

  lemma CommitIsAtomic(s: Sys, snap: Snapshot, req: StopReq, stale: int)
    requires Inv(s) && HeldOk(s, snap) && Present(s, snap)
    ensures Commit(s, snap, req, stale) == StopJob(s, Narrowed(req, snap.row))
  {
    hide Inv, HeldOk, Present;
    var x := PresentIsFound(s, snap);
    if snap.cached {
      CachedRowFound(s, x);
    }
  }

  lemma MarkedAt(s: Sys, r: Row, req: StopReq, i: nat)
    requires i < |s.job|
    ensures i < |MarkStopped(s, s.job[i].id, r, req).job|
    ensures MarkStopped(s, s.job[i].id, r, req).job[i].monitoring == r.monitoring
  {
  }

  lemma AgreeingDirectCommit(s: Sys, snap: Snapshot, req: StopReq, stale: int)
    requires Inv(s) && HeldOk(s, snap) && Admissible(snap, req) && !snap.cached
    requires Commit(s, snap, req, stale) == StopJob(s, Narrowed(req, snap.row))
    ensures Present(s, snap)
  {
    hide Inv, StopJob;
    var r := snap.row;
    assert Commit(s, snap, req, stale).0 == MarkStopped(s, r.id, r, req);
    var stopped, found, t, id := StopShape(s, Narrowed(req, r));
    var x := found.row;
    assert x.uid == r.uid && id == r.id;
    assert MarkStopped(t, id, x, req).cache == t.cache == s.cache;
    assert x in s.job && x.id == r.id;
    var i :| 0 <= i < |s.job| && s.job[i] == x;
    MarkedAt(s, r, req, i);
    MarkedAt(s, x, req, i);
  }

  lemma AgreeingTransfer(s: Sys, snap: Snapshot, req: StopReq, stale: int)
    requires Inv(s) && HeldOk(s, snap) && Admissible(snap, req) && snap.cached
    requires Index(s.cache, snap.row.id) != -1
    requires Commit(s, snap, req, stale) == StopJob(s, Narrowed(req, snap.row))
    ensures Present(s, snap)
  {
    hide Inv;
    var found := Lookup(s, FullKey(snap.row)).value;
    assert found.row.uid == snap.row.uid;
    if found.cached {
      assert found.row == snap.row;
    } else {
      RowIdSmall(s, found.row);
      assert false;
    }
  }

  lemma RowIdSmall(s: Sys, r: Row)
    requires Inv(s) && r in s.job
    ensures r.id < NextId(s.job)
  {
  }

  /** The cached row has gone, but by luck the older insert id that the transfer then answers is that of the job's own
      running row. */
  predicate LuckyStale(s: Sys, snap: Snapshot, stale: int) {
    && snap.cached && Index(s.cache, snap.row.id) == -1 && !HasKey(s.cache, snap.row)
    && exists x :: x in s.job && x == snap.row.(id := stale, duration := x.duration)
  }

  lemma LuckyRowFound(s: Sys, snap: Snapshot, stale: int) returns (x: Row)
    requires Inv(s) && LuckyStale(s, snap, stale)
    ensures x == snap.row.(id := stale, duration := x.duration)
    ensures Lookup(s, FullKey(snap.row)) == Some(Snapshot(x, false))
  {
    x :| x in s.job && x == snap.row.(id := stale, duration := x.duration);
    assert SameKey(x, snap.row);
    UniqueKeys(s);
    NewestByKey(s.cache, snap.row);
    NewestByKey(s.job, snap.row);
  }

  lemma LuckyCommit(s: Sys, snap: Snapshot, req: StopReq, stale: int)
    requires Inv(s) && LuckyStale(s, snap, stale)
    ensures Commit(s, snap, req, stale) == StopJob(s, Narrowed(req, snap.row))
  {
    hide Inv, Lookup, Update1;
    var x := LuckyRowFound(s, snap, stale);
  }

  lemma UniqueKeys(s: Sys)
    requires Inv(s)
    ensures KeysUnique(s.cache) && KeysUnique(s.job)
  {
  }

  lemma AgreeingStale(s: Sys, snap: Snapshot, req: StopReq, stale: int)
    requires Inv(s) && HeldOk(s, snap) && Admissible(snap, req) && snap.cached
    requires Index(s.cache, snap.row.id) == -1
    requires Commit(s, snap, req, stale) == StopJob(s, Narrowed(req, snap.row))
    ensures LuckyStale(s, snap, stale)
  {
    hide Inv, StopJob;
    var r := snap.row;
    assert Commit(s, snap, req, stale).0 == MarkStopped(s, stale, r, req);
    var stopped, found, t, id := StopShape(s, Narrowed(req, r));
    var x := found.row;
    assert x.uid == r.uid && id == stale;
    assert !found.cached;
    assert x in s.job && x.id == stale;
    var i :| 0 <= i < |s.job| && s.job[i] == x;
    MarkedAt(s, r, req, i);
    MarkedAt(s, x, req, i);
    UniqueKeys(s);
    NewestByKey(s.cache, r);
    assert x == r.(id := stale, duration := x.duration);
  }

  /** A commit that passes the checks does what an atomic stop of the same job would do, if and only if its row is
      still where the lookup found it, or it has gone and the stale id is by luck the right one. */
  lemma CommitIff(s: Sys, snap: Snapshot, req: StopReq, stale: int)
    requires Inv(s) && HeldOk(s, snap) && Admissible(snap, req)
    ensures Commit(s, snap, req, stale) == StopJob(s, Narrowed(req, snap.row)) <==>
            Present(s, snap) || LuckyStale(s, snap, stale)
  {
    hide Inv, HeldOk, Present, Commit, StopJob, LuckyStale;
    if Present(s, snap) {
      CommitIsAtomic(s, snap, req, stale);
    }
    if LuckyStale(s, snap, stale) {
      LuckyCommit(s, snap, req, stale);
    }
    if Commit(s, snap, req, stale) == StopJob(s, Narrowed(req, snap.row)) {
      if !snap.cached {
        AgreeingDirectCommit(s, snap, req, stale);
      } else if Index(s.cache, snap.row.id) == -1 {
        AgreeingStale(s, snap, req, stale);
      } else {
        AgreeingTransfer(s, snap, req, stale);
      }
    }
  }

  /** A commit whose checks fail changes nothing. */
  lemma RejectedCommit(s: Sys, snap: Snapshot, req: StopReq, stale: int)
    requires !Admissible(snap, req)
    ensures Commit(s, snap, req, stale).0 == s
  {
  }

  // ----- what holds of a snapshot meanwhile

  lemma LookupIsHeldOk(s: Sys, q: Query)
    requires Inv(s) && Lookup(s, q).Some?
    ensures HeldOk(s, Lookup(s, q).value)
  {
    var snap := Lookup(s, q).value;
    var r := snap.row;
    if !snap.cached {
      forall x | x in s.cache ensures !SameKey(x, r) {
        assert !Selects(q, x);
      }
    }
  }

  lemma DescentKeepsHeld(s: Sys, t: Sys, snap: Snapshot)
    requires HeldOk(s, snap) && Descends(s, t) && s.nextUid <= t.nextUid
    ensures HeldOk(t, snap)
  {
    forall x | x in t.job && x.uid == snap.row.uid
      ensures SameJob(x, snap.row)
      ensures !snap.cached ==> x.id == snap.row.id && !HasKey(t.cache, snap.row)
    {
      assert Comes(s, x);
    }
  }

  lemma StartKeepsHeld(s: Sys, req: Row, tagged: bool, snap: Snapshot)
    requires Inv(s) && HeldOk(s, snap)
    ensures HeldOk(StartJob(s, req, tagged), snap)
  {
    if StartAccepted(s, req, tagged) {
      AcceptedApart(s, req, tagged);
      var t := StartJob(s, req, tagged);
      forall x | x in t.job && x.uid == snap.row.uid
        ensures !snap.cached ==> !HasKey(t.cache, snap.row)
      {
        assert x in s.job;
        assert SameKey(x, snap.row);
        if SamePair(x, req) {
          assert DayApart(x, req);
        }
      }
    }
  }

  lemma StepKeepsUidBound(s: Sys, step: Step)
    requires Inv(s)
    ensures s.nextUid <= Apply(s, step).nextUid
  {
    hide Inv, StopJob;
    if step.Stop? {
      var stopped, snap, t, id := StopShape(s, step.stop);
    }
  }

  lemma StepKeepsHeld(s: Sys, step: Step, snap: Snapshot)
    requires Inv(s) && HeldOk(s, snap)
    ensures HeldOk(Apply(s, step), snap)
  {
    hide Inv, HeldOk, StartJob;
    if step.Start? {
      StartKeepsHeld(s, step.req, step.tagged, snap);
    } else {
      StepDescends(s, step);
      StepKeepsUidBound(s, step);
      DescentKeepsHeld(s, Apply(s, step), snap);
    }
  }

  /** Steps on other jobs, read off the step itself. */
  predicate LeavesRow(s: Sys, step: Step, snap: Snapshot) {
    match step
    case Start(_, _) => true
    case Sync => !snap.cached
    case Stop(req) => Lookup(s, req.q).Some? ==> Lookup(s, req.q).value.row.uid != snap.row.uid
    case Watchdog(now, grace) => snap.cached || !Matches(Overrun(now - grace), snap.row)
    case Refresh(_) => true
    case DeleteById(id) => snap.cached || snap.row.id != id
    case DeleteBefore(ts, spared) => snap.cached || !Matches(Before(ts, spared), snap.row)
    case ArchiveNext(_) => snap.cached || s.done >= |s.log| || s.log[s.done].id != snap.row.id
  }

  lemma UpdateKeepsPresent(s: Sys, w: Where, p: Patch, snap: Snapshot)
    requires Present(s, snap)
    requires !snap.cached && !p.SetRefreshed? ==> forall d :: !Matches(w, snap.row.(duration := d))
    ensures Present(UpdateJobs(s, w, p), snap)
  {
    var r :| r in (if snap.cached then s.cache else s.job) && r == snap.row.(duration := r.duration);
    if !snap.cached {
      var i :| 0 <= i < |s.job| && s.job[i] == r;
      var x := UpdateWhere(s.job, w, p)[i];
      assert x in UpdateWhere(s.job, w, p) && x == snap.row.(duration := x.duration);
    }
  }

  lemma StopKeepsPresent(s: Sys, req: StopReq, snap: Snapshot)
    requires Inv(s) && HeldOk(s, snap) && Present(s, snap) && LeavesRow(s, Step.Stop(req), snap)
    ensures Present(StopJob(s, req).0, snap)
  {
    hide Inv, StopJob;
    var stopped, found, t, id := StopShape(s, req);
    if stopped {
      var r :| r in (if snap.cached then s.cache else s.job) && r == snap.row.(duration := r.duration);
      assert Present(t, snap);
      var p := SetStopped(FinalState(req), StopDuration(req, found.row), found.row.monitoring);
      if !snap.cached && r.id == id {
        assert false;
      }
      UpdateKeepsPresent(t, ById(id), p, snap);
    }
  }

  lemma SameTablesKeepPresent(s: Sys, t: Sys, snap: Snapshot)
    requires Present(s, snap)
    requires snap.cached ==> forall r :: r in s.cache ==> r in t.cache
    requires !snap.cached ==> forall r :: r in s.job && r == snap.row.(duration := r.duration) ==> r in t.job
    ensures Present(t, snap)
  {
    var r :| r in (if snap.cached then s.cache else s.job) && r == snap.row.(duration := r.duration);
    assert r in (if snap.cached then t.cache else t.job);
  }

  lemma ArchiveKeepsPresent(s: Sys, exit: Exit, snap: Snapshot)
    requires Present(s, snap) && LeavesRow(s, ArchiveNext(exit), snap)
    ensures Present(Archive(s, exit), snap)
  {
    if s.done < |s.log| {
      var t := s.(done := s.done + 1);
      SameTablesKeepPresent(s, t, snap);
      if StatusOf(exit).Some? {
        UpdateKeepsPresent(t, ById(s.log[s.done].id), SetMonitoring(StatusOf(exit).value), snap);
      }
    }
  }

  /** Steps on other jobs keep the held row in place, so between lookup and commit any number of them may run. */
  lemma OtherJobsKeepPresent(s: Sys, step: Step, snap: Snapshot)
    requires Inv(s) && HeldOk(s, snap) && Present(s, snap) && LeavesRow(s, step, snap)
    ensures Present(Apply(s, step), snap)
  {
    hide Inv, HeldOk, Present, UpdateWhere;
    match step
    case Start(req, tagged) => SameTablesKeepPresent(s, StartJob(s, req, tagged), snap);
    case Sync =>
      SyncAppends(s);
      SameTablesKeepPresent(s, SyncJobs(s), snap);
    case Stop(req) => StopKeepsPresent(s, req, snap);
    case Watchdog(now, grace) => UpdateKeepsPresent(s, Overrun(now - grace), SetStopped(Failed, 0, ArchivingFailed), snap);
    case Refresh(now) => UpdateKeepsPresent(s, IsRunning, SetRefreshed(now), snap);
    case DeleteById(id) => SameTablesKeepPresent(s, DeleteJobs(s, ById(id)), snap);
    case DeleteBefore(ts, spared) => SameTablesKeepPresent(s, DeleteJobs(s, Before(ts, spared)), snap);
    case ArchiveNext(exit) => ArchiveKeepsPresent(s, exit, snap);
  }

  // ----- whole runs

  ghost predicate AllHeldOk(f: Fine) {
    forall h :: h in f.held ==> HeldOk(f.sys, f.held[h].snap)
  }

  ghost predicate FineOk(f: Fine) {
    Inv(f.sys) && AllHeldOk(f)
  }

  /** No other step moved, deleted or stopped a row between its lookup and its commit. */
  predicate Undisturbed(f: Fine, steps: seq<FineStep>)
    decreases |steps|
  {
    steps != [] ==>
      && (steps[0].Finish? && steps[0].handler in f.held ==> Present(f.sys, f.held[steps[0].handler].snap))
      && Undisturbed(ApplyFine(f, steps[0]), steps[1..])
  }

  /** The atomic run: lookups vanish, a commit becomes one stop of the job it holds. */
  function Coarse(f: Fine, step: FineStep): seq<Step> {
    match step
    case Atomic(s) => [s]
    case Look(_, _) => []
    case Finish(h, _) => if h in f.held then [Step.Stop(Narrowed(f.held[h].req, f.held[h].snap.row))] else []
  }

  function Coarsened(f: Fine, steps: seq<FineStep>): seq<Step>
    decreases |steps|
  {
    if steps == [] then [] else Coarse(f, steps[0]) + Coarsened(ApplyFine(f, steps[0]), steps[1..])
  }

  lemma {:induction false} RunAppend(s: Sys, a: seq<Step>, b: seq<Step>)
    ensures Run(s, a + b) == Run(Run(s, a), b)
    decreases |a|
  {
    if a == [] {
      assert a + b == b;
    } else {
      assert (a + b)[1..] == a[1..] + b;
      RunAppend(Apply(s, a[0]), a[1..], b);
    }
  }

  lemma FineStepRefines(f: Fine, step: FineStep)
    requires FineOk(f)
    requires step.Finish? && step.handler in f.held ==> Present(f.sys, f.held[step.handler].snap)
    ensures ApplyFine(f, step).sys == Run(f.sys, Coarse(f, step)) && FineOk(ApplyFine(f, step))
  {
    hide Inv, HeldOk, Present, Apply, Commit;
    var c := Coarse(f, step);
    if c != [] {
      assert c[1..] == [];
      assert Run(f.sys, c) == Apply(f.sys, c[0]);
    }
    match step
    case Look(h, req) =>
      if Lookup(f.sys, req.q).Some? {
        LookupIsHeldOk(f.sys, req.q);
      }
    case Atomic(s) => AtomicKeepsFine(f, s, f.held);
    case Finish(h, stale) =>
      if h in f.held {
        CommitIsAtomic(f.sys, f.held[h].snap, f.held[h].req, stale);
        StopIsApply(f.sys, Narrowed(f.held[h].req, f.held[h].snap.row));
        AtomicKeepsFine(f, c[0], f.held - {h});
      }
  }

  lemma StopIsApply(s: Sys, req: StopReq)
    ensures Apply(s, Step.Stop(req)) == StopJob(s, req).0
  {
  }

  lemma AtomicKeepsFine(f: Fine, step: Step, rest: map<nat, Held>)
    requires FineOk(f)
    requires rest.Keys <= f.held.Keys && forall h :: h in rest ==> rest[h] == f.held[h]
    ensures FineOk(Fine(Apply(f.sys, step), rest))
  {
    hide Inv, HeldOk, Apply;
    StepKeepsInv(f.sys, step);
    forall h | h in rest ensures HeldOk(Apply(f.sys, step), rest[h].snap) {
      StepKeepsHeld(f.sys, step, rest[h].snap);
    }
  }

  /** Every interleaving of lookups, commits and other steps in which each commit still finds its row
      has the tables and the queue of a run of atomic stops. */
  lemma {:induction false} InterleavingRefinesAtomic(f: Fine, steps: seq<FineStep>)
    requires FineOk(f) && Undisturbed(f, steps)
    ensures RunFine(f, steps).sys == Run(f.sys, Coarsened(f, steps))
    ensures FineOk(RunFine(f, steps))
    decreases |steps|
  {
    hide FineOk, Present, Coarse, ApplyFine;
    if steps == [] {
    } else {
      var g := ApplyFine(f, steps[0]);
      FineStepRefines(f, steps[0]);
      InterleavingRefinesAtomic(g, steps[1..]);
      RunAppend(f.sys, Coarse(f, steps[0]), Coarsened(g, steps[1..]));
    }
  }

  /** An atomic step or a lookup that asks for the stop state `running`. */
  predicate FineAsksRunning(step: FineStep) {
    match step
    case Atomic(s) => AsksRunning(s)
    case Look(_, req) => req.state == Requested(Running)
    case Finish(_, _) => false
  }

  /** If no lookup and no atomic step asks for `running`, the atomic run does not either, so `QueuedAtMostOnce` holds
      of it. */
  lemma {:induction false} CoarsenedEnds(f: Fine, steps: seq<FineStep>)
    requires forall h :: h in f.held ==> f.held[h].req.state != Requested(Running)
    requires forall i :: 0 <= i < |steps| ==> !FineAsksRunning(steps[i])
    ensures NoneAsksRunning(Coarsened(f, steps))
    decreases |steps|
  {
    hide Apply, Commit, Lookup;
    if steps == [] {
    } else {
      assert !FineAsksRunning(steps[0]);
      CoarsenedEnds(ApplyFine(f, steps[0]), steps[1..]);
    }
  }

  // ----- steps that leave the held rows alone

  /** Every row held by a handler is still where its lookup found it. */
  predicate AllPresent(f: Fine) {
    forall h :: h in f.held ==> Present(f.sys, f.held[h].snap)
  }

  /** Read off the step: an atomic step concerns none of the held rows, and a commit is of another job than the
      rows that the other handlers hold. Lookups never interfere. */
  predicate Innocent(f: Fine, step: FineStep) {
    match step
    case Atomic(s) => forall h :: h in f.held ==> LeavesRow(f.sys, s, f.held[h].snap)
    case Look(_, _) => true
    case Finish(h, _) =>
      h in f.held ==> forall k :: k in f.held && k != h ==> f.held[k].snap.row.uid != f.held[h].snap.row.uid
  }

  /** No step moves, deletes or stops a row that a handler holds at that time, but for the handler itself. */
  predicate NonInterfering(f: Fine, steps: seq<FineStep>)
    decreases |steps|
  {
    steps != [] ==> Innocent(f, steps[0]) && NonInterfering(ApplyFine(f, steps[0]), steps[1..])
  }

  lemma LookupIsPresent(s: Sys, q: Query)
    requires Lookup(s, q).Some?
    ensures Present(s, Lookup(s, q).value)
  {
    var snap := Lookup(s, q).value;
    assert snap.row in (if snap.cached then s.cache else s.job);
  }

  /** A commit that still finds its row leaves the rows of all other jobs in place. */
  lemma FinishKeepsPresent(s: Sys, held: Held, stale: int, snap: Snapshot)
    requires Inv(s) && HeldOk(s, held.snap) && Present(s, held.snap)
    requires HeldOk(s, snap) && Present(s, snap) && snap.row.uid != held.snap.row.uid
    ensures Present(Commit(s, held.snap, held.req, stale).0, snap)
  {
    hide Inv, HeldOk, Present, Commit, StopJob;
    var req := Narrowed(held.req, held.snap.row);
    var x := PresentIsFound(s, held.snap);
    CommitIsAtomic(s, held.snap, held.req, stale);
    StopKeepsPresent(s, req, snap);
  }

  lemma InnocentKeepsPresent(f: Fine, step: FineStep)
    requires FineOk(f) && AllPresent(f) && Innocent(f, step)
    ensures AllPresent(ApplyFine(f, step))
  {
    hide Inv, HeldOk, Present, Apply, Commit, Lookup, LeavesRow;
    match step
    case Atomic(s) =>
      forall h | h in f.held ensures Present(Apply(f.sys, s), f.held[h].snap) {
        OtherJobsKeepPresent(f.sys, s, f.held[h].snap);
      }
    case Look(h, req) =>
      if Lookup(f.sys, req.q).Some? {
        LookupIsPresent(f.sys, req.q);
      }
    case Finish(h, stale) =>
      if h in f.held {
        forall k | k in f.held && k != h
          ensures Present(Commit(f.sys, f.held[h].snap, f.held[h].req, stale).0, f.held[k].snap)
        {
          FinishKeepsPresent(f.sys, f.held[h], stale, f.held[k].snap);
        }
      }
  }

  /** Whatever steps on other jobs interleave, each commit of such a run finds its row where the lookup left it. */
  lemma {:induction false} OtherJobsDoNotDisturb(f: Fine, steps: seq<FineStep>)
    requires FineOk(f) && AllPresent(f) && NonInterfering(f, steps)
    ensures Undisturbed(f, steps)
    decreases |steps|
  {
    hide FineOk, Present, Innocent, ApplyFine;
    if steps == [] {
    } else {
      InnocentKeepsPresent(f, steps[0]);
      FineStepRefines(f, steps[0]);
      OtherJobsDoNotDisturb(ApplyFine(f, steps[0]), steps[1..]);
    }
  }

  /** From the empty system on: if no step moves, deletes or stops a row between its lookup and its commit, the
      tables and the queue are those of a run of atomic stops. */
  lemma SplitRunIsAtomic(steps: seq<FineStep>)
    requires NonInterfering(Fine(EMPTY, map[]), steps)
    ensures RunFine(Fine(EMPTY, map[]), steps).sys == Run(EMPTY, Coarsened(Fine(EMPTY, map[]), steps))
  {
    EmptyInv();
    hide Inv;
    OtherJobsDoNotDisturb(Fine(EMPTY, map[]), steps);
    InterleavingRefinesAtomic(Fine(EMPTY, map[]), steps);
  }

  // ----- what goes wrong otherwise

  /** A sync between lookup and commit frees the cache ids, and the next cached job gets the looked-up one:
      the commit then stops that job and archives it as the other. */
  lemma CommitHitsOtherJob(s: Sys, a: Row, b: Row, req: StopReq, stale: int)
    requires s.cache == [b] && a.id == b.id && a.uid != b.uid && !HasKey(s.job, b)
    requires Admissible(Snapshot(a, true), req) && a.monitoring != Disabled
    ensures var t := Commit(s, Snapshot(a, true), req, stale).0;
            var id := NextId(s.job);
            && t.cache == [] && t.log == s.log + [Entry(id, a.uid)]
            && |t.job| == |s.job| + 1
            && t.job[|s.job|] == b.(id := id, state := FinalState(req), duration := StopDuration(req, a),
                                    monitoring := a.monitoring)
  {
    assert Index(s.cache, a.id) == 0;
    assert RemoveAt([b], 0) == [];
  }

  /** A commit right after a sync: the cached row has gone, its job is in `job` and goes on running, and the row that
      happens to have the stale id is stopped in its place and queued under its name. */
  lemma CommitHitsStale(s: Sys, snap: Snapshot, req: StopReq, stale: int, victim: Row)
    requires Inv(s) && snap.cached && snap.row in s.cache && !HasKey(s.job, snap.row) && Admissible(snap, req)
    requires victim in SyncJobs(s).job && victim.id == stale && victim.uid != snap.row.uid
    ensures var t := Commit(SyncJobs(s), snap, req, stale).0;
            && (exists x :: x in t.job && SameJob(x, snap.row) && x.state == Running)
            && victim.(state := FinalState(req), duration := StopDuration(req, snap.row),
                       monitoring := snap.row.monitoring) in t.job
            && t.log == s.log + (if snap.row.monitoring == Disabled then [] else [Entry(stale, snap.row.uid)])
  {
    hide Inv, SyncJobs;
    var m, r := SyncJobs(s), snap.row;
    assert Index(m.cache, r.id) == -1;
    var x := SyncedCopy(s, r);
    OneId(s, x, victim);
    OthersMarked(m, stale, r, req, x);
    VictimMarked(m, victim, r, req);
  }

  lemma OthersMarked(s: Sys, id: int, r: Row, req: StopReq, x: Row)
    requires x in s.job && x.id != id
    ensures x in MarkStopped(s, id, r, req).job
  {
    var p := SetStopped(FinalState(req), StopDuration(req, r), r.monitoring);
    var i :| 0 <= i < |s.job| && s.job[i] == x;
    assert UpdateWhere(s.job, ById(id), p)[i] == x;
  }

  lemma VictimMarked(s: Sys, x: Row, r: Row, req: StopReq)
    requires x in s.job
    ensures x.(state := FinalState(req), duration := StopDuration(req, r), monitoring := r.monitoring)
            in MarkStopped(s, x.id, r, req).job
  {
    var p := SetStopped(FinalState(req), StopDuration(req, r), r.monitoring);
    var i :| 0 <= i < |s.job| && s.job[i] == x;
    assert UpdateWhere(s.job, ById(x.id), p)[i] == Patched(p, x);
  }

  lemma SyncedCopy(s: Sys, r: Row) returns (x: Row)
    requires Inv(s) && r in s.cache && !HasKey(s.job, r)
    ensures x in SyncJobs(s).job && SameJob(x, r) && x.state == Running
  {
    SyncAppends(s);
    assert Arrives(s, r);
    x :| x in SyncJobs(s).job && Rehomed(r, x);
  }

  lemma OneId(s: Sys, x: Row, y: Row)
    requires Inv(s) && x in SyncJobs(s).job && y in SyncJobs(s).job && x.uid != y.uid
    ensures x.id != y.id
  {
    SyncKeepsInv(s);
    if x.id == y.id {
      SortedIds(SyncJobs(s).job, x, y);
    }
  }

  /** A lookup with its commit right behind it is one atomic stop, and the handler then holds nothing. */
  lemma LookThenFinish(f: Fine, h: nat, req: StopReq)
    requires h !in f.held
    ensures var t := ApplyFine(ApplyFine(f, Look(h, req)), Finish(h, 0));
            t.sys == StopJob(f.sys, req).0 && t.held == f.held
  {
    hide Commit, Lookup;
    if Lookup(f.sys, req.q).Some? {
      assert f.held[h := Held(Lookup(f.sys, req.q).value, req)] - {h} == f.held;
    }
  }

  /** Two handlers look up the same running row, both commit, and the job is queued twice. */
  lemma StoppedTwice(s: Sys, r: Row, req1: StopReq, req2: StopReq)
    requires s.cache == [] && s.job == [r] && r.monitoring != Disabled
    requires Selects(req1.q, r) && Selects(req2.q, r)
    requires Admissible(Snapshot(r, false), req1) && Admissible(Snapshot(r, false), req2)
    ensures var looked := ApplyFine(ApplyFine(Fine(s, map[]), Look(0, req1)), Look(1, req2));
            var t := ApplyFine(ApplyFine(looked, Finish(0, 0)), Finish(1, 0)).sys;
            && t.log == s.log + [Entry(r.id, r.uid)] + [Entry(r.id, r.uid)]
            && t.job[0].duration == StopDuration(req2, r)
  {
    OneRowFound(s, r, req1.q);
    OneRowFound(s, r, req2.q);
    hide Lookup;
  }

  lemma OneRowFound(s: Sys, r: Row, q: Query)
    requires s.cache == [] && s.job == [r] && Selects(q, r)
    ensures Lookup(s, q) == Some(Snapshot(r, false))
  {
  }
}
