/** The duplicate check of the start handlers: what keeps the rows of one (job id, cluster)
    a day apart, in order, and found newest first, over every run. */
module DayWindow {
  import opened Prelude
  import opened JobTable
  import opened ArchiveOutcome
  import opened Lifecycle
  import opened LifecycleInvariant
  import opened LifecycleHistory

  predicate InTables(s: Sys, r: Row) {
    r in s.cache || r in s.job
  }

  predicate DayApart(a: Row, b: Row) {
    a.start + SECONDS_PER_DAY <= b.start || b.start + SECONDS_PER_DAY <= a.start
  }

  /** Different jobs of one pair started at least a day apart. */
  ghost predicate AllApart(s: Sys) {
    forall a, b :: InTables(s, a) && InTables(s, b) && SamePair(a, b) && a.uid != b.uid ==> DayApart(a, b)
  }

  /** Ids in `job` follow start times, and a cached row is the latest of its pair. */
  ghost predicate Ordered(s: Sys) {
    && (forall a, b :: a in s.job && b in s.job && SamePair(a, b) && a.id < b.id ==>
          a.start + SECONDS_PER_DAY <= b.start)
    && (forall a, b :: a in s.cache && b in s.job && SamePair(a, b) ==> b.start + SECONDS_PER_DAY <= a.start)
    && (forall a, b :: a in s.cache && b in s.cache && SamePair(a, b) ==> a == b)
  }

  // ----- steps that start nothing

  /** `x`, in `job`, was there before, or came from the cache and has a larger id than all before. */
  ghost predicate Comes(s: Sys, x: Row) {
    || (exists r :: r in s.job && SameJob(r, x) && r.id == x.id)
    || ((exists r :: r in s.cache && SameJob(r, x)) && forall y :: y in s.job ==> y.id < x.id)
  }

  ghost predicate Descends(s: Sys, t: Sys) {
    && (forall x :: x in t.cache ==> x in s.cache)
    && (forall x :: x in t.job ==> Comes(s, x))
  }

  lemma UpdateDescends(s: Sys, w: Where, p: Patch)
    ensures Descends(s, UpdateJobs(s, w, p))
  {
    forall x | x in UpdateWhere(s.job, w, p) ensures Comes(s, x) {
      var r := Origin(s.job, w, p, x);
    }
  }

  lemma AppendedIdsBig(t0: Table, t1: Table, x: Row)
    requires Sorted(t1) && t0 <= t1 && x in t1 && x !in t0
    ensures forall y :: y in t0 ==> y.id < x.id
  {
    var i :| 0 <= i < |t1| && t1[i] == x;
    assert i >= |t0|;
    forall y | y in t0 ensures y.id < x.id {
      var j :| 0 <= j < |t0| && t0[j] == y;
      assert t1[j] == y;
    }
  }

  lemma SyncedIsSorted(s: Sys)
    requires Inv(s)
    ensures Sorted(SyncJobs(s).job)
  {
    SyncKeepsInv(s);
  }

  lemma ArrivalComes(s: Sys, r: Row, x: Row)
    requires Arrives(s, r) && Rehomed(r, x) && forall y :: y in s.job ==> y.id < x.id
    ensures Comes(s, x)
  {
    assert SameJob(r, x);
  }

  lemma SyncDescends(s: Sys)
    requires Inv(s)
    ensures Descends(s, SyncJobs(s))
  {
    hide Inv, Arrives, Rehomed;
    SyncAppends(s);
    SyncedIsSorted(s);
    var t := SyncJobs(s);
    forall x | x in t.job ensures Comes(s, x) {
      if x !in s.job {
        AppendedIdsBig(s.job, t.job, x);
        var r :| Arrives(s, r) && Rehomed(r, x);
        ArrivalComes(s, r, x);
      }
    }
  }

  /** The moved rows keep the order of the cache. */
  lemma {:induction false} SyncKeepsOrder(s: Sys, a: Row, b: Row, x: Row, y: Row)
    requires Inv(s) && Arrives(s, a) && Arrives(s, b) && a.id < b.id
    requires x in SyncJobs(s).job && y in SyncJobs(s).job && Rehomed(a, x) && Rehomed(b, y)
    ensures x.id < y.id
    decreases |s.cache|
  {
    hide Inv, Arrives, SyncJobs;
    var t, r0 := MoveFirst(s, a);
    LaterArrives(s, a, b);
    SyncAppends(t);
    SyncedIsSorted(t);
    if a == r0 {
      var first := a.(id := NextId(s.job));
      SyncKeepsInv(t);
      OneRowPerJob(SyncJobs(t), x, first);
      NotThere(t, b, y);
      AppendedIdsBig(t.job, SyncJobs(t).job, y);
    } else {
      SyncKeepsOrder(t, a, b, x, y);
    }
  }

  lemma MoveFirst(s: Sys, a: Row) returns (t: Sys, r0: Row)
    requires Inv(s) && Arrives(s, a)
    ensures s.cache != [] && t == MoveAt(s, 0) && r0 == s.cache[0] && SyncJobs(s) == SyncJobs(t) && Inv(t)
    ensures |t.cache| < |s.cache|
    ensures a == r0 ==> a.(id := NextId(s.job)) in t.job
    ensures a != r0 ==> Arrives(t, a)
  {
    t, r0 := MoveAt(s, 0), s.cache[0];
    MoveFacts(s);
  }

  /** The first cached row has the least id. */
  lemma LaterArrives(s: Sys, a: Row, b: Row)
    requires Inv(s) && Arrives(s, a) && Arrives(s, b) && a.id < b.id
    ensures Arrives(MoveAt(s, 0), b)
  {
    assert b != s.cache[0];
    MoveFacts(s);
  }

  lemma NotThere(t: Sys, b: Row, y: Row)
    requires Inv(t) && Arrives(t, b) && Rehomed(b, y)
    ensures y !in t.job
  {
  }

  lemma StopDescends(s: Sys, req: StopReq)
    requires Inv(s)
    ensures Descends(s, StopJob(s, req).0)
  {
    hide Inv, StopJob;
    var stopped, snap, t, id := StopShape(s, req);
    if stopped {
      var p := SetStopped(FinalState(req), StopDuration(req, snap.row), snap.row.monitoring);
      forall x | x in UpdateWhere(t.job, ById(id), p) ensures Comes(s, x) {
        var y := Origin(t.job, ById(id), p, x);
        if y !in s.job {
          NextIdBig(s);
          assert SameJob(snap.row, x);
        }
      }
    }
  }

  lemma NextIdBig(s: Sys)
    requires Inv(s)
    ensures forall y :: y in s.job ==> y.id < NextId(s.job)
  {
  }

  lemma StepDescends(s: Sys, step: Step)
    requires Inv(s) && !step.Start?
    ensures Descends(s, Apply(s, step))
  {
    match step
    case Sync => SyncDescends(s);
    case Stop(req) => StopDescends(s, req);
    case Watchdog(now, grace) => UpdateDescends(s, Overrun(now - grace), SetStopped(Failed, 0, ArchivingFailed));
    case Refresh(now) => UpdateDescends(s, IsRunning, SetRefreshed(now));
    case DeleteById(id) =>
    case DeleteBefore(ts, spared) =>
    case ArchiveNext(exit) =>
      if s.done < |s.log| && StatusOf(exit).Some? {
        UpdateDescends(s, ById(s.log[s.done].id), SetMonitoring(StatusOf(exit).value));
      }
  }

  lemma Ancestor(s: Sys, t: Sys, x: Row) returns (r: Row)
    requires Descends(s, t) && InTables(t, x)
    ensures InTables(s, r) && SameJob(r, x)
  {
    if x in t.cache {
      r := x;
    } else {
      assert Comes(s, x);
      if y :| y in s.job && SameJob(y, x) && y.id == x.id {
        r := y;
      } else {
        r :| r in s.cache && SameJob(r, x);
      }
    }
  }

  lemma DescentKeepsApart(s: Sys, t: Sys)
    requires AllApart(s) && Descends(s, t)
    ensures AllApart(t)
  {
    hide Comes, Descends;
    forall a, b | InTables(t, a) && InTables(t, b) && SamePair(a, b) && a.uid != b.uid ensures DayApart(a, b) {
      var x := Ancestor(s, t, a);
      var y := Ancestor(s, t, b);
      assert InTables(s, x) && InTables(s, y) && SamePair(x, y) && x.uid != y.uid;
    }
  }

  /** Where a row of `job` was before the step. */
  lemma Source(s: Sys, x: Row) returns (r: Row, stayed: bool)
    requires Comes(s, x)
    ensures SameJob(r, x)
    ensures if stayed then r in s.job && r.id == x.id else r in s.cache && forall y :: y in s.job ==> y.id < x.id
  {
    if y :| y in s.job && SameJob(y, x) && y.id == x.id {
      r, stayed := y, true;
    } else {
      r :| r in s.cache && SameJob(r, x);
      stayed := false;
    }
  }

  lemma OneRowPerJob(t: Sys, a: Row, b: Row)
    requires Inv(t) && a in t.job && b in t.job && a.uid == b.uid
    ensures a == b
  {
  }

  lemma JobsStayOrdered(s: Sys, t: Sys, a: Row, b: Row)
    requires Inv(t) && Ordered(s) && Descends(s, t)
    requires a in t.job && b in t.job && SamePair(a, b) && a.id < b.id
    ensures a.start + SECONDS_PER_DAY <= b.start
  {
    hide Inv, Comes;
    var x, xStayed := Source(s, a);
    var y, yStayed := Source(s, b);
    if !xStayed && !yStayed {
      assert x == y;
      OneRowPerJob(t, a, b);
    }
  }

  lemma OneTablePerJob(t: Sys, a: Row, b: Row)
    requires Inv(t) && a in t.cache && b in t.job
    ensures a.uid != b.uid
  {
  }

  lemma CacheStaysLatest(s: Sys, t: Sys, a: Row, b: Row)
    requires Inv(t) && Ordered(s) && Descends(s, t) && a in t.cache && b in t.job && SamePair(a, b)
    ensures b.start + SECONDS_PER_DAY <= a.start
  {
    hide Inv, Comes;
    var y, stayed := Source(s, b);
    OneTablePerJob(t, a, b);
    assert !stayed ==> y == a;
  }

  lemma DescentKeepsOrder(s: Sys, t: Sys)
    requires Inv(t) && Ordered(s) && Descends(s, t)
    ensures Ordered(t)
  {
    hide Inv, Comes;
    forall a, b | a in t.job && b in t.job && SamePair(a, b) && a.id < b.id
      ensures a.start + SECONDS_PER_DAY <= b.start
    {
      JobsStayOrdered(s, t, a, b);
    }
    forall a, b | a in t.cache && b in t.job && SamePair(a, b) ensures b.start + SECONDS_PER_DAY <= a.start {
      CacheStaysLatest(s, t, a, b);
    }
  }

  // ----- accepted starts

  /** The duplicate check looks at `job` only; this is what it misses. */
  predicate CacheApart(s: Sys, req: Row) {
    forall r :: r in s.cache && SamePair(r, req) ==> DayApart(r, req)
  }

  predicate CacheClear(s: Sys, req: Row) {
    forall r :: r in s.cache ==> !SamePair(r, req)
  }

  /** The 64-bit difference that the check computes does not wrap from far below zero to above; two times from 0 on
      never do that. */
  predicate NoWrap(req: Row, r: Row) {
    req.start - r.start >= -TWO_63
  }

  predicate NoWraps(s: Sys, req: Row) {
    forall r :: r in s.job && SamePair(r, req) ==> NoWrap(req, r)
  }

  /** Passing the check means a day's distance to every row of `job`, after it if and only if nothing wraps. */
  lemma AcceptedApart(s: Sys, req: Row, tagged: bool)
    requires StartAccepted(s, req, tagged)
    ensures forall r :: r in s.job && SamePair(r, req) ==> DayApart(r, req)
    ensures forall r :: r in s.job && SamePair(r, req) ==>
              (r.start + SECONDS_PER_DAY <= req.start <==> NoWrap(req, r))
  {
    forall r | r in s.job && SamePair(r, req)
      ensures DayApart(r, req) && (r.start + SECONDS_PER_DAY <= req.start <==> NoWrap(req, r))
    {
      assert r in SelectAll(s.job, Query(req.jobId, Some(req.cluster), None));
      assert Sub64(req.start, r.start) >= SECONDS_PER_DAY;
      Sub64Exact(req.start, r.start);
    }
  }

  /** An accepted start adds one row, of a new job. */
  lemma StartAdds(s: Sys, req: Row, tagged: bool) returns (n: Row)
    requires Inv(s) && StartAccepted(s, req, tagged)
    ensures forall r :: InTables(StartJob(s, req, tagged), r) <==> InTables(s, r) || r == n
    ensures SameKey(n, req) && forall r :: InTables(s, r) ==> r.uid != n.uid
  {
    n := NewRow(s, req).(id := NextId(if tagged then s.job else s.cache));
  }

  lemma StartApart(s: Sys, req: Row, tagged: bool)
    requires Inv(s) && AllApart(s) && StartAccepted(s, req, tagged)
    ensures AllApart(StartJob(s, req, tagged)) <==> CacheApart(s, req)
  {
    hide StartJob, Inv, StartAccepted;
    AcceptedApart(s, req, tagged);
    var t := StartJob(s, req, tagged);
    var n := StartAdds(s, req, tagged);
    if AllApart(t) {
      forall r | r in s.cache && SamePair(r, req) ensures DayApart(r, req) {
        assert InTables(t, r) && InTables(t, n) && SamePair(r, n);
      }
    } else {
      var a, b :| InTables(t, a) && InTables(t, b) && SamePair(a, b) && a.uid != b.uid && !DayApart(a, b);
      assert a == n || b == n;
      var r := if a == n then b else a;
      assert InTables(s, r) && SamePair(r, req) && !DayApart(r, req);
    }
  }

  lemma StartStaysOrdered(s: Sys, req: Row, tagged: bool)
    requires Inv(s) && Ordered(s) && StartAccepted(s, req, tagged) && CacheClear(s, req) && NoWraps(s, req)
    ensures Ordered(StartJob(s, req, tagged))
  {
    AcceptedApart(s, req, tagged);
  }

  lemma AcceptedShape(s: Sys, req: Row, tagged: bool) returns (n: Row)
    requires Inv(s) && StartAccepted(s, req, tagged)
    ensures var t := StartJob(s, req, tagged);
            if tagged then t.job == s.job + [n] && t.cache == s.cache else t.cache == s.cache + [n] && t.job == s.job
    ensures SameKey(n, req) && (tagged ==> forall r :: r in s.job ==> r.id < n.id)
  {
    NextIdBig(s);
    n := NewRow(s, req).(id := NextId(if tagged then s.job else s.cache));
  }

  lemma OrderedNeedsNoWrap(s: Sys, req: Row, tagged: bool)
    requires Inv(s) && StartAccepted(s, req, tagged) && Ordered(StartJob(s, req, tagged))
    ensures NoWraps(s, req)
  {
    hide Inv, StartAccepted, StartJob;
    AcceptedApart(s, req, tagged);
    var t := StartJob(s, req, tagged);
    var n := AcceptedShape(s, req, tagged);
    assert n in (if tagged then t.job else t.cache);
    forall r | r in s.job && SamePair(r, req) ensures NoWrap(req, r) {
      assert r in t.job && SamePair(r, n);
    }
  }

  /** Without a cached row of the pair, an accepted start keeps the order if and only if nothing wraps. */
  lemma StartOrdered(s: Sys, req: Row, tagged: bool)
    requires Inv(s) && Ordered(s) && StartAccepted(s, req, tagged) && CacheClear(s, req)
    ensures Ordered(StartJob(s, req, tagged)) <==> NoWraps(s, req)
  {
    hide Inv, Ordered, StartJob, StartAccepted, CacheClear, NoWraps;
    if NoWraps(s, req) {
      StartStaysOrdered(s, req, tagged);
    }
    if Ordered(StartJob(s, req, tagged)) {
      OrderedNeedsNoWrap(s, req, tagged);
    }
  }

  // ----- other steps between the check of a start and its insert

  /** A start whose check has read s and whose insert finds t. */
  function SplitStart(s: Sys, t: Sys, req: Row, tagged: bool): Sys {
    if Duplicate(s.job, req) || HasKey(if tagged then t.job else t.cache, req) then t
    else if tagged then t.(job := Append(t.job, NewRow(t, req)), nextUid := t.nextUid + 1)
    else t.(cache := Append(t.cache, NewRow(t, req)), nextUid := t.nextUid + 1)
  }

  lemma DescentKeepsUnique(s: Sys, t: Sys, req: Row)
    requires !Duplicate(s.job, req) && CacheClear(s, req) && Descends(s, t)
    ensures !Duplicate(t.job, req) && CacheClear(t, req)
  {
    hide Comes;
    var q := Query(req.jobId, Some(req.cluster), None);
    forall x | x in SelectAll(t.job, q) ensures Sub64(req.start, x.start) >= SECONDS_PER_DAY {
      assert x in t.job && SamePair(x, req);
      var r, stayed := Source(s, x);
      assert SamePair(r, req);
      assert r in SelectAll(s.job, q);
    }
  }

  lemma {:induction false} CheckStaysTrue(s: Sys, steps: seq<Step>, req: Row)
    requires Inv(s) && !Duplicate(s.job, req) && CacheClear(s, req)
    requires forall i :: 0 <= i < |steps| ==> !steps[i].Start?
    ensures !Duplicate(Run(s, steps).job, req) && CacheClear(Run(s, steps), req)
    decreases |steps|
  {
    hide Inv, Duplicate, CacheClear, Descends, Apply;
    if steps == [] {
    } else {
      var t := Apply(s, steps[0]);
      StepKeepsInv(s, steps[0]);
      StepDescends(s, steps[0]);
      DescentKeepsUnique(s, t, req);
      CheckStaysTrue(t, steps[1..], req);
    }
  }

  /** Starts take the mutex, syncs and stops do not. With no cached row of the pair, whatever other steps run between
      check and insert: an accepted start is one atomic start after them, and a refused one, one before them. */
  lemma SplitStartIsAtomic(s: Sys, steps: seq<Step>, req: Row, tagged: bool)
    requires Inv(s) && CacheClear(s, req)
    requires forall i :: 0 <= i < |steps| ==> !steps[i].Start?
    ensures SplitStart(s, Run(s, steps), req, tagged) ==
            if Duplicate(s.job, req) then Run(StartJob(s, req, tagged), steps)
            else StartJob(Run(s, steps), req, tagged)
  {
    hide Inv, Duplicate, CacheClear, Run;
    if !Duplicate(s.job, req) {
      CheckStaysTrue(s, steps, req);
    }
  }

  // ----- runs

  ghost predicate EveryStateApart(s: Sys, steps: seq<Step>)
    decreases |steps|
  {
    AllApart(s) && (steps != [] ==> EveryStateApart(Apply(s, steps[0]), steps[1..]))
  }

  /** Every accepted start finds the cached rows of its pair at least a day away. */
  predicate StartsApart(s: Sys, steps: seq<Step>)
    decreases |steps|
  {
    steps != [] ==>
      && (steps[0].Start? && StartAccepted(s, steps[0].req, steps[0].tagged) ==> CacheApart(s, steps[0].req))
      && StartsApart(Apply(s, steps[0]), steps[1..])
  }

  /** Over every run the day window holds in every state if and only if each accepted start
      finds the cached rows of its pair a day away: the check itself never reads the cache. */
  lemma {:induction false} DayWindowIff(s: Sys, steps: seq<Step>)
    requires Inv(s) && AllApart(s)
    ensures EveryStateApart(s, steps) <==> StartsApart(s, steps)
    decreases |steps|
  {
    hide Inv, AllApart, CacheApart, StartJob;
    if steps == [] {
    } else {
      var t := Apply(s, steps[0]);
      StepKeepsInv(s, steps[0]);
      if steps[0].Start? {
        if StartAccepted(s, steps[0].req, steps[0].tagged) {
          StartApart(s, steps[0].req, steps[0].tagged);
        } else {
          RefusedStart(s, steps[0].req, steps[0].tagged);
        }
      } else {
        StepDescends(s, steps[0]);
        DescentKeepsApart(s, t);
      }
      if AllApart(t) {
        DayWindowIff(t, steps[1..]);
      } else {
        assert !EveryStateApart(t, steps[1..]);
      }
    }
  }

  lemma RefusedStart(s: Sys, req: Row, tagged: bool)
    requires !StartAccepted(s, req, tagged)
    ensures StartJob(s, req, tagged) == s
  {
  }

  /** Accepted starts find no cached row of their pair, and their times do not wrap. */
  predicate StartsClear(s: Sys, steps: seq<Step>)
    decreases |steps|
  {
    steps != [] ==>
      && (steps[0].Start? && StartAccepted(s, steps[0].req, steps[0].tagged) ==>
            CacheClear(s, steps[0].req) && NoWraps(s, steps[0].req))
      && StartsClear(Apply(s, steps[0]), steps[1..])
  }

  lemma {:induction false} RunOrdered(s: Sys, steps: seq<Step>)
    requires Inv(s) && Ordered(s) && StartsClear(s, steps)
    ensures Ordered(Run(s, steps))
    decreases |steps|
  {
    hide Inv, Ordered, CacheClear, NoWraps, StartJob;
    if steps == [] {
    } else {
      StepKeepsInv(s, steps[0]);
      if steps[0].Start? {
        if StartAccepted(s, steps[0].req, steps[0].tagged) {
          StartOrdered(s, steps[0].req, steps[0].tagged);
        } else {
          RefusedStart(s, steps[0].req, steps[0].tagged);
        }
      } else {
        StepDescends(s, steps[0]);
        DescentKeepsOrder(s, Apply(s, steps[0]));
      }
      RunOrdered(Apply(s, steps[0]), steps[1..]);
    }
  }

  lemma NewestRowIsLatest(s: Sys, q: Query, r: Row)
    requires Inv(s) && Ordered(s) && Newest(s.job, q).Some? && SamePair(r, Newest(s.job, q).value)
    requires r in s.job && Selects(q, r) && r != Newest(s.job, q).value
    ensures r.start + SECONDS_PER_DAY <= Newest(s.job, q).value.start
  {
    var newest := Newest(s.job, q).value;
    OneIdPerRow(s, r, newest);
    hide Inv, Newest;
    assert r.id < newest.id;
  }

  lemma OneIdPerRow(s: Sys, a: Row, b: Row)
    requires Inv(s) && a in s.job && b in s.job && a != b
    ensures Sorted(s.job) && a.id != b.id
  {
  }

  /** In an ordered state the lookup of the stop handlers, given the cluster but no start time,
      finds the job of the pair that started last, and nothing only if there is none. */
  lemma LookupFindsLatest(s: Sys, jobId: int, cluster: string)
    requires Inv(s) && Ordered(s)
    ensures match Lookup(s, Query(jobId, Some(cluster), None))
            case None => forall r :: InTables(s, r) ==> !(r.jobId == jobId && r.cluster == cluster)
            case Some(snap) =>
              && InTables(s, snap.row) && snap.row.jobId == jobId && snap.row.cluster == cluster
              && forall r :: InTables(s, r) && SamePair(r, snap.row) && r != snap.row ==>
                   r.start + SECONDS_PER_DAY <= snap.row.start
  {
    hide Inv, Newest;
    var q := Query(jobId, Some(cluster), None);
    assert forall r :: Selects(q, r) <==> r.jobId == jobId && r.cluster == cluster;
    match Lookup(s, q)
    case None =>
    case Some(snap) =>
      forall r | InTables(s, r) && SamePair(r, snap.row) && r != snap.row
        ensures r.start + SECONDS_PER_DAY <= snap.row.start
      {
        if !snap.cached {
          NewestRowIsLatest(s, q, r);
        }
      }
  }

  /** In an ordered state SyncJobs ignores no row. */
  lemma {:induction false} SyncIgnoresNothing(s: Sys)
    requires Inv(s) && Ordered(s)
    ensures |SyncJobs(s).job| == |s.job| + |s.cache|
    decreases |s.cache|
  {
    if s.cache == [] {
    } else {
      assert !HasKey(s.job, s.cache[0]);
      var t := MoveAt(s, 0);
      MoveKeepsInv(s, 0);
      MoveDescends(s);
      DescentKeepsOrder(s, t);
      SyncIgnoresNothing(t);
    }
  }

  lemma MoveDescends(s: Sys)
    requires Inv(s) && s.cache != []
    ensures Descends(s, MoveAt(s, 0))
  {
    var t := MoveAt(s, 0);
    forall x | x in t.job ensures Comes(s, x) {
      if x !in s.job {
        NextIdBig(s);
        assert SameJob(s.cache[0], x);
      }
    }
  }

  lemma OrderedApart(s: Sys)
    requires Inv(s) && Ordered(s)
    ensures AllApart(s)
  {
    forall a, b | InTables(s, a) && InTables(s, b) && SamePair(a, b) && a.uid != b.uid ensures DayApart(a, b) {
      if a in s.job && b in s.job {
        assert a.id < b.id || b.id < a.id;
      }
    }
  }

  /** Over every run whose accepted starts find no cached row of their pair: the jobs of a pair stay a day
      apart, ids follow start times, and a sync ignores no row. */
  lemma DayWindowRun(steps: seq<Step>)
    requires StartsClear(EMPTY, steps)
    ensures var s := Run(EMPTY, steps);
            Inv(s) && Ordered(s) && AllApart(s) && |SyncJobs(s).job| == |s.job| + |s.cache|
  {
    assert Ordered(EMPTY);
    hide Inv, Ordered, AllApart;
    EmptyInv();
    RunKeepsInv(EMPTY, steps);
    RunOrdered(EMPTY, steps);
    SyncIgnoresNothing(Run(EMPTY, steps));
    OrderedApart(Run(EMPTY, steps));
  }

  lemma CachedStart(s: Sys, req: Row)
    requires s.job == [] && !HasKey(s.cache, req)
    ensures StartJob(s, req, false) ==
            s.(cache := s.cache + [NewRow(s, req).(id := NextId(s.cache))], nextUid := s.nextUid + 1)
  {
  }

  /** Two untagged starts of one pair, an hour apart, are both accepted. */
  lemma CachedDuplicateAccepted(a: Row, b: Row)
    requires SamePair(a, b) && 0 <= a.start && b.start == a.start + 3600
    ensures var s := Apply(Apply(EMPTY, Start(a, false)), Start(b, false));
            |s.cache| == 2 && SamePair(s.cache[0], s.cache[1]) && s.cache[1].start - s.cache[0].start == 3600
  {
    hide StartJob;
    CachedStart(EMPTY, a);
    CachedStart(Apply(EMPTY, Start(a, false)), b);
  }
}
