/** The life of a job as a transition system: the two tables, the archive queue and
    one atomic step per request, periodic service or archived job. */
module Lifecycle {
  import opened Prelude
  import opened JobTable
  import opened ArchiveOutcome

  const SECONDS_PER_DAY := 86400

  /** What the stop path hands to the archiver: a `job`-table id, and which job it means. */
  datatype Entry = Entry(id: int, uid: nat)

  /** `log` lists every entry ever queued; the worker has taken the first `done` of them. */
  datatype Sys = Sys(cache: Table, job: Table, log: seq<Entry>, done: nat, nextUid: nat)

  /** One UPDATE or DELETE statement on the `job` table. */
  function UpdateJobs(s: Sys, w: Where, p: Patch): Sys {
    s.(job := UpdateWhere(s.job, w, p))
  }

  function DeleteJobs(s: Sys, w: Where): Sys {
    s.(job := DeleteWhere(s.job, w))
  }

  // ----- start

  /** Refused when some row of the pair in `job` is less than a day older than the request. */
  predicate Duplicate(job: Table, req: Row) {
    exists r :: r in SelectAll(job, Query(req.jobId, Some(req.cluster), None)) &&
                Sub64(req.start, r.start) < SECONDS_PER_DAY
  }

  predicate StartAccepted(s: Sys, req: Row, tagged: bool) {
    !Duplicate(s.job, req) && !HasKey(if tagged then s.job else s.cache, req)
  }

  function NewRow(s: Sys, req: Row): Row {
    req.(state := Running, uid := s.nextUid)
  }

  function StartJob(s: Sys, req: Row, tagged: bool): Sys {
    if !StartAccepted(s, req, tagged) then s
    else if tagged then s.(job := Append(s.job, NewRow(s, req)), nextUid := s.nextUid + 1)
    else s.(cache := Append(s.cache, NewRow(s, req)), nextUid := s.nextUid + 1)
  }

  // ----- moving a cached row

  /** INSERT OR IGNORE of one cached row into `job`, and its deletion from the cache. */
  function MoveAt(s: Sys, i: nat): Sys
    requires i < |s.cache|
  {
    s.(cache := RemoveAt(s.cache, i),
       job := if HasKey(s.job, s.cache[i]) then s.job else Append(s.job, s.cache[i]))
  }

  /** SyncJobs moves the rows in rowid order. */
  function SyncJobs(s: Sys): (s': Sys)
    ensures s'.cache == [] && s'.log == s.log && s'.done == s.done && s'.nextUid == s.nextUid
    decreases |s.cache|
  {
    if s.cache == [] then s else SyncJobs(MoveAt(s, 0))
  }

  /** TransferCachedJobToMain. A plain INSERT: a key already in `job` fails the transaction.
      When the cached row is gone nothing is inserted and LastInsertId answers `stale`,
      the rowid of whatever the connection inserted last. */
  function Transfer(s: Sys, cacheId: int, stale: int): (Sys, Option<int>) {
    var i := Index(s.cache, cacheId);
    if i == -1 then (s, Some(stale))
    else if HasKey(s.job, s.cache[i]) then (s, None)
    else (MoveAt(s, i), Some(NextId(s.job)))
  }

  // ----- stop

  datatype ReqState = Unset | Invalid | Requested(state: JobState)
  datatype StopReq = StopReq(q: Query, stopTime: Int64, state: ReqState)
  datatype Snapshot = Snapshot(row: Row, cached: bool)

  datatype Reply =
    | NotFound
    | AlreadyStopped(uid: nat)
    | BadStopTime(uid: nat)
    | BadState(uid: nat)
    | TransferFailed(uid: nat)
    | Stopped(entry: Entry, state: JobState, duration: int)

  /** FindCached, then Find. */
  function Lookup(s: Sys, q: Query): Option<Snapshot> {
    match Newest(s.cache, q)
    case Some(r) => Some(Snapshot(r, true))
    case None =>
      match Newest(s.job, q)
      case Some(r) => Some(Snapshot(r, false))
      case None => None
  }

  function FinalState(req: StopReq): JobState {
    if req.state.Requested? then req.state.state else Completed
  }

  function StopDuration(req: StopReq, r: Row): int {
    ToInt32(Sub64(req.stopTime, r.start))
  }

  predicate Admissible(snap: Snapshot, req: StopReq) {
    snap.row.state == Running && snap.row.start <= req.stopTime && !req.state.Invalid?
  }

  /** The locked part of a stop: transfer when the lookup found a cached row, mark, enqueue. */
  function Commit(s: Sys, snap: Snapshot, req: StopReq, stale: int): (Sys, Reply) {
    var r := snap.row;
    if r.state != Running then (s, AlreadyStopped(r.uid))
    else if r.start > req.stopTime then (s, BadStopTime(r.uid))
    else if req.state.Invalid? then (s, BadState(r.uid))
    else
      var (s1, id) := if snap.cached then Transfer(s, r.id, stale) else (s, Some(r.id));
      if id.None? then (s, TransferFailed(r.uid))
      else (MarkStopped(s1, id.value, r, req), Stopped(Entry(id.value, r.uid), FinalState(req), StopDuration(req, r)))
  }

  function MarkStopped(s: Sys, id: int, r: Row, req: StopReq): Sys {
    Enqueue(UpdateJobs(s, ById(id), SetStopped(FinalState(req), StopDuration(req, r), r.monitoring)), id, r)
  }

  /** Jobs with monitoring disabled are not archived. */
  function Enqueue(s: Sys, id: int, r: Row): Sys {
    if r.monitoring == Disabled then s else s.(log := s.log + [Entry(id, r.uid)])
  }

  function StopJob(s: Sys, req: StopReq): (Sys, Reply) {
    match Lookup(s, req.q)
    case None => (s, NotFound)
    case Some(snap) => Commit(s, snap, req, 0)
  }

  // ----- the worker

  /** One job through the archive worker; exits that set no status leave the table alone. */
  function Archive(s: Sys, exit: Exit): Sys {
    if s.done >= |s.log| then s
    else
      var taken := s.(done := s.done + 1);
      match StatusOf(exit)
      case None => taken
      case Some(m) => UpdateJobs(taken, ById(s.log[s.done].id), SetMonitoring(m))
  }

  // ----- steps and runs

  datatype Step =
    | Start(req: Row, tagged: bool)
    | Sync
    | Stop(stop: StopReq)
    | Watchdog(now: int, grace: int)
    | Refresh(clock: int)
    | DeleteById(id: int)
    | DeleteBefore(ts: int, spared: set<int>)
    | ArchiveNext(exit: Exit)

  function Apply(s: Sys, step: Step): Sys {
    match step
    case Start(req, tagged) => StartJob(s, req, tagged)
    case Sync => SyncJobs(s)
    case Stop(req) => StopJob(s, req).0
    case Watchdog(now, grace) =>
      UpdateJobs(s, Overrun(now - grace), SetStopped(Failed, 0, ArchivingFailed))
    case Refresh(now) => UpdateJobs(s, IsRunning, SetRefreshed(now))
    case DeleteById(id) => DeleteJobs(s, ById(id))
    case DeleteBefore(ts, spared) => DeleteJobs(s, Before(ts, spared))
    case ArchiveNext(exit) => Archive(s, exit)
  }

  function Run(s: Sys, steps: seq<Step>): Sys
    decreases |steps|
  {
    if steps == [] then s else Run(Apply(s, steps[0]), steps[1..])
  }

  const EMPTY := Sys([], [], [], 0, 0)

  /** The code accepts `running` as the requested stop state. */
  predicate AsksRunning(step: Step) {
    step.Stop? && step.stop.state == Requested(Running)
  }

  predicate NoneAsksRunning(steps: seq<Step>) {
    forall i :: 0 <= i < |steps| ==> !AsksRunning(steps[i])
  }
}
