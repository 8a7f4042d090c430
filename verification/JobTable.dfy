/** The two job tables as the SQL statements of the repository see them.
    A table is the sequence of its rows in rowid order; `id INTEGER PRIMARY KEY`
    without AUTOINCREMENT gives a new row the largest live id plus one. */
module JobTable {
  import opened Prelude

  datatype JobState =
    | BootFail | Cancelled | Completed | Deadline | Failed | NodeFail
    | OutOfMemory | Pending | Preempted | Running | Suspended | Timeout

  datatype Monitoring = Disabled | RunningOrArchiving | ArchivingFailed | ArchivingSuccessful

  /** One row. `uid` numbers the accepted starts: it names the job a row belongs to
      even after its database id has changed or has been handed out again. */
  datatype Row = Row(
    id: int, jobId: int, cluster: string, start: Int64, walltime: int,
    state: JobState, duration: int, monitoring: Monitoring, uid: nat)

  type Table = seq<Row>

  predicate SamePair(a: Row, b: Row) {
    a.jobId == b.jobId && a.cluster == b.cluster
  }

  predicate SameKey(a: Row, b: Row) {
    SamePair(a, b) && a.start == b.start
  }

  /** The fields no statement of the repository ever changes once a row is in a table. */
  predicate SameJob(a: Row, b: Row) {
    a.uid == b.uid && SameKey(a, b) && a.walltime == b.walltime
  }

  ghost predicate Sorted(t: Table) {
    forall i, j :: 0 <= i < j < |t| ==> t[i].id < t[j].id
  }

  ghost predicate KeysUnique(t: Table) {
    forall a, b :: a in t && b in t && SameKey(a, b) ==> a == b
  }

  function NextId(t: Table): (id: int)
    ensures Sorted(t) ==> forall r :: r in t ==> r.id < id
  {
    if t == [] then 1 else t[|t| - 1].id + 1
  }

  lemma SortedIds(t: Table, a: Row, b: Row)
    requires Sorted(t) && a in t && b in t && a.id == b.id
    ensures a == b
  {
  }

  // ----- queries

  /** Position of the row with this id, or -1. */
  function Index(t: Table, id: int): (i: int)
    ensures -1 <= i < |t|
    ensures i >= 0 ==> t[i].id == id
    ensures i == -1 <==> forall r :: r in t ==> r.id != id
  {
    if t == [] then -1
    else if t[|t| - 1].id == id then |t| - 1
    else Index(t[..|t| - 1], id)
  }

  predicate HasKey(t: Table, k: Row) {
    exists r :: r in t && SameKey(r, k)
  }

  /** The WHERE clause shared by Find, FindCached and FindAll. */
  datatype Query = Query(jobId: int, cluster: Option<string>, start: Option<Int64>)

  predicate Selects(q: Query, r: Row) {
    && r.jobId == q.jobId
    && (q.cluster.Some? ==> r.cluster == q.cluster.value)
    && (q.start.Some? ==> r.start == q.start.value)
  }

  function FullKey(r: Row): Query {
    Query(r.jobId, Some(r.cluster), Some(r.start))
  }

  /** ORDER BY id DESC LIMIT 1. */
  function Newest(t: Table, q: Query): (r: Option<Row>)
    ensures r.Some? ==> r.value in t && Selects(q, r.value)
    ensures r.None? <==> forall x :: x in t ==> !Selects(q, x)
    ensures r.Some? && Sorted(t) ==> forall x :: x in t && Selects(q, x) ==> x.id <= r.value.id
  {
    if t == [] then None
    else if Selects(q, t[|t| - 1]) then Some(t[|t| - 1])
    else
      assert t == t[..|t| - 1] + [t[|t| - 1]];
      Newest(t[..|t| - 1], q)
  }

  function SelectAll(t: Table, q: Query): (s: Table)
    ensures forall r :: r in s <==> r in t && Selects(q, r)
  {
    if t == [] then []
    else
      assert t == t[..|t| - 1] + [t[|t| - 1]];
      SelectAll(t[..|t| - 1], q) + (if Selects(q, t[|t| - 1]) then [t[|t| - 1]] else [])
  }

  // ----- statements

  datatype Where =
    | ById(id: int)
    | IsRunning
    | Overrun(limit: int)
    | Before(ts: int, spared: set<int>)

  predicate Matches(w: Where, r: Row) {
    match w
    case ById(id) => r.id == id
    case IsRunning => r.state == Running
    case Overrun(limit) => r.state == Running && r.walltime > 0 && r.start < limit - r.walltime
    case Before(ts, spared) => r.start < ts && r.id !in spared
  }

  datatype Patch =
    | SetStopped(state: JobState, duration: int, monitoring: Monitoring)
    | SetRefreshed(now: int)
    | SetMonitoring(monitoring: Monitoring)

  function Patched(p: Patch, r: Row): (s: Row)
    ensures SameJob(r, s) && r.id == s.id
  {
    match p
    case SetStopped(state, duration, monitoring) =>
      r.(state := state, duration := duration, monitoring := monitoring)
    case SetRefreshed(now) => r.(duration := now - r.start)
    case SetMonitoring(monitoring) => r.(monitoring := monitoring)
  }

  function Update1(w: Where, p: Patch, r: Row): (s: Row)
    ensures SameJob(r, s) && r.id == s.id
  {
    if Matches(w, r) then Patched(p, r) else r
  }

  function UpdateWhere(t: Table, w: Where, p: Patch): (s: Table)
    ensures |s| == |t| && forall i :: 0 <= i < |t| ==> s[i] == Update1(w, p, t[i])
  {
    seq(|t|, i requires 0 <= i < |t| => Update1(w, p, t[i]))
  }

  function DeleteWhere(t: Table, w: Where): (s: Table)
    ensures forall r :: r in s <==> r in t && !Matches(w, r)
    ensures Sorted(t) ==> Sorted(s)
  {
    if t == [] then []
    else
      assert t == t[..|t| - 1] + [t[|t| - 1]];
      assert Sorted(t) ==> forall r :: r in t[..|t| - 1] ==> r.id < t[|t| - 1].id;
      DeleteWhere(t[..|t| - 1], w) + (if Matches(w, t[|t| - 1]) then [] else [t[|t| - 1]])
  }

  function RemoveAt(t: Table, i: nat): (s: Table)
    requires i < |t|
    ensures Sorted(t) ==> Sorted(s) && forall r :: r in s <==> r in t && r != t[i]
  {
    assert forall r :: r in t[..i] + t[i + 1..] ==> r in t;
    assert t == t[..i] + [t[i]] + t[i + 1..];
    t[..i] + t[i + 1..]
  }

  function Append(t: Table, r: Row): (s: Table)
    ensures forall x :: x in s <==> x in t || x == r.(id := NextId(t))
    ensures Sorted(t) ==> Sorted(s)
  {
    t + [r.(id := NextId(t))]
  }
}
