/** The metadata column of the job table, its cache, and the maps they share with job objects. */
module MetadataCache {
  import opened Prelude

  type Meta = map<string, string>

  /** A stored meta_data value: NULL or empty, the JSON null, an object of strings, or text that fails to decode,
      perhaps after some entries have been stored. */
  datatype Raw = Empty | Null | Object(m: Meta) | Broken(partial: Option<Meta>)

  datatype Row = Row(start: int, tagged: bool, userTagged: bool, raw: Raw)

  datatype Error = NoRow | BadJson | NotArchived

  /** A Go map on the heap; several holders can point at it. */
  class MetaMap {
    var m: Meta

    constructor (m: Meta)
      ensures this.m == m
    {
      this.m := m;
    }
  }

  /** A job object as handed out by a lookup. */
  class Job {
    const id: int
    var metaData: MetaMap?

    constructor (id: int)
      ensures this.id == id && metaData == null
    {
      this.id := id;
      metaData := null;
    }
  }

  datatype Omit = OmitNone | OmitAll | OmitUser

  /** The WHERE clause of DeleteJobsBefore. */
  predicate Old(r: Row, t: int, omit: Omit) {
    r.start < t && !(omit.OmitAll? && r.tagged) && !(omit.OmitUser? && r.userTagged)
  }

  function Doomed(rows: map<int, Row>, t: int, omit: Omit): set<int> {
    set id | id in rows && Old(rows[id], t, omit)
  }

  /** Decoding raw into a map that is there already keeps the cache correct: it must have had no other keys, and
      if it is a cached map itself its content must not change. */
  predicate Harmless(had: Meta, raw: Raw, shared: bool) {
    match raw
    case Object(m) => had.Keys <= m.Keys && (shared ==> had == m)
    case Broken(Some(p)) => shared ==> had + p == had
    case _ => true
  }

  lemma MergeIsStored(had: Meta, m: Meta)
    ensures had + m == m <==> had.Keys <= m.Keys
  {
    if had + m == m {
      assert forall k :: k in had ==> k in had + m;
    } else {
      assert exists k :: k in had + m && k !in m;
    }
  }

  function Content(x: MetaMap?): Option<Meta>
    reads x
  {
    if x == null then None else Some(x.m)
  }

  /** What decoding a stored value into an empty field leaves there. */
  function Decoded(raw: Raw): Option<Meta> {
    match raw
    case Object(m) => Some(m)
    case Broken(partial) => partial
    case _ => None
  }

  function Failure(rows: map<int, Row>, id: int): Option<Error> {
    if id !in rows then Some(NoRow) else if rows[id].raw.Broken? then Some(BadJson) else None
  }

  lemma SameButOne<K, V>(a: map<K, V>, b: map<K, V>, k: K, v: V)
    requires a - {k} == b - {k}
    ensures a[k := v] == b[k := v]
  {
    assert forall j :: j in a && j != k ==> j in a - {k};
    assert forall j :: j in b && j != k ==> j in b - {k};
    assert forall j :: j in a - {k} ==> a[j] == (a - {k})[j] == b[j];
  }

  class MetadataRepository {
    var rows: map<int, Row>
    var cache: map<int, MetaMap?>

    ghost function CachedMaps(): set<MetaMap?>
      reads this
    {
      set id | id in cache :: cache[id]
    }

    /** x is what decoding the stored value yields. */
    ghost predicate Decodes(raw: Raw, x: MetaMap?)
      reads x
    {
      match raw
      case Null => x == null
      case Object(m) => x != null && x.m == m
      case _ => false
    }

    /** A map that is in the cache is there for some job, whose stored object it equals. */
    lemma SharedWith(x: MetaMap) returns (id: int)
      requires Valid() && x in CachedMaps()
      ensures id in cache && cache[id] == x && rows[id].raw == Object(x.m)
    {
      id :| id in cache && cache[id] == x;
    }

    /** Every cached id is a live job and its cached map equals the stored metadata. */
    ghost predicate Valid()
      reads this, CachedMaps()
    {
      forall id :: id in cache ==>
        id in rows && cache[id] in CachedMaps() && Decodes(rows[id].raw, cache[id])
    }

    constructor ()
      ensures Valid() && rows == map[]
    {
      rows := map[];
      cache := map[];
    }

    /** The map an unmarshal into the job's field writes: the job's own one, when it has one and the cache misses. */
    ghost function Written(job: Job): set<MetaMap>
      reads this, job
    {
      if job.metaData != null && job.id !in cache then {job.metaData} else {}
    }

    /** json.Unmarshal of an object into the job's map: it adds to a map that is there, and makes one otherwise. */
    method Unmarshal(job: Job, m: Meta)
      modifies job`metaData, if job.metaData == null then {} else {job.metaData}
      ensures job.metaData != null
      ensures old(job.metaData) == null ==> fresh(job.metaData) && job.metaData.m == m
      ensures old(job.metaData) != null ==> job.metaData == old(job.metaData) && job.metaData.m == old(job.metaData.m) + m
      ensures old(Valid()) ==>
                (Valid() <==> (job.metaData in CachedMaps() ==> job.metaData.m == old(job.metaData.m)))
    {
      if job.metaData == null {
        job.metaData := new MetaMap(m);
      } else {
        ghost var shared := Valid() && job.metaData in CachedMaps();
        ghost var other := job.id;
        if shared {
          other := SharedWith(job.metaData);
        }
        job.metaData.m := job.metaData.m + m;
        if shared {
          assert Decodes(rows[other].raw, cache[other]) <==> job.metaData.m == old(job.metaData.m);
        }
      }
    }

    method FetchMetadata(job: Job) returns (meta: MetaMap?, err: Option<Error>)
      modifies `cache, job`metaData, Written(job)
      ensures job.id in old(cache) ==>
                meta == job.metaData == old(cache[job.id]) && err.None? && cache == old(cache)
      ensures job.id !in old(cache) && (job.id !in rows || rows[job.id].raw.Empty? || rows[job.id].raw.Broken?) ==>
                cache == old(cache) && meta == null
      ensures err == if job.id in old(cache) then None else Failure(rows, job.id)
      ensures old(Valid()) && job.id !in rows ==> err == Some(NoRow) && meta == null
      ensures old(Valid()) && job.id in rows && old(job.metaData) == null ==>
                match rows[job.id].raw
                case Object(m) => err.None? && meta != null && meta == job.metaData && meta.m == m
                case Broken(_) => err == Some(BadJson) && meta == null
                case _ => err.None? && meta == null && job.metaData == null
      ensures job.id !in old(cache) && job.id in rows && (rows[job.id].raw.Null? || rows[job.id].raw.Object?) ==>
                && cache == old(cache)[job.id := job.metaData] && meta == job.metaData
                && (old(job.metaData) == null ==> Decodes(rows[job.id].raw, meta) && (meta != null ==> fresh(meta)))
      ensures job.id !in rows || rows[job.id].raw.Empty? ==>
                job.metaData == if job.id in old(cache) then old(cache[job.id]) else old(job.metaData)
      ensures old(Valid()) && old(job.metaData) == null ==>
                && Content(job.metaData) == (if job.id in rows then Decoded(rows[job.id].raw) else None)
                && err == Failure(rows, job.id) && meta == if err.Some? then null else job.metaData
      ensures old(Valid()) && job.id in rows && old(Written(job)) != {} ==>
                (Valid() <==> Harmless(old(job.metaData.m), rows[job.id].raw, old(job.metaData in CachedMaps())))
      ensures old(Valid()) && (job.id !in rows || old(Written(job)) == {}) ==> Valid()
    {
      if job.id in cache {
        job.metaData := cache[job.id];
        return job.metaData, None;
      }
      if job.id !in rows {
        return null, Some(NoRow);
      }
      match rows[job.id].raw {
        case Empty =>
          return null, None;
        case Null =>
          job.metaData := null;
        case Object(m) =>
          if job.metaData != null {
            MergeIsStored(job.metaData.m, m);
          }
          Unmarshal(job, m);
        case Broken(partial) =>
          if partial.Some? {
            Unmarshal(job, partial.value);
          }
          return null, Some(BadJson);
      }
      cache := cache[job.id := job.metaData];
      return job.metaData, None;
    }

    /** The cache drops an entry, by age or by size. */
    method Evict(id: int)
      requires Valid()
      modifies `cache
      ensures Valid() && cache == old(cache) - {id}
    {
      cache := cache - {id};
    }

    /** What UpdateMetadata starts from: the job's own map, or what a fetch would find. */
    ghost function Base(job: Job): Meta
      reads this, job, job.metaData
    {
      if job.metaData != null then job.metaData.m
      else if job.id in rows && rows[job.id].raw.Object? then rows[job.id].raw.m
      else map[]
    }

    /** Why UpdateMetadata stores nothing, if so: the fetch it needs for a job without a map fails. */
    ghost function Refusal(job: Job): Option<Error>
      reads this, job
    {
      if job.metaData != null then None else Failure(rows, job.id)
    }

    /** UpdateMetadata copies the map before it changes it, so no map that was there before is written. `archived`
        tells whether the archive accepts the new metadata, which is tried last. */
    method UpdateMetadata(job: Job, key: string, val: string, archived: bool) returns (err: Option<Error>)
      requires Valid()
      modifies `cache, `rows, job`metaData
      ensures err == if old(Refusal(job)).Some? then old(Refusal(job)) else if archived then None else Some(NotArchived)
      ensures old(Refusal(job)).Some? ==>
                && rows == old(rows) && cache == old(cache) - {job.id}
                && Content(job.metaData) == if job.id in rows then Decoded(rows[job.id].raw) else None
      ensures old(Refusal(job)).None? ==>
                && job.metaData != null && fresh(job.metaData) && job.metaData.m == old(Base(job))[key := val]
                && cache == old(cache)[job.id := job.metaData]
                && rows == if job.id in old(rows)
                           then old(rows)[job.id := old(rows)[job.id].(raw := Object(old(Base(job))[key := val]))]
                           else old(rows)
      ensures old(job.metaData) == null && job.id in old(rows) && old(rows)[job.id].raw.Object? ==>
                rows[job.id].raw == Object(old(rows)[job.id].raw.m[key := val])
      ensures old(job.metaData) == null && job.id in old(rows) && (old(rows)[job.id].raw.Empty? || old(rows)[job.id].raw.Null?) ==>
                rows[job.id].raw == Object(map[key := val])
      ensures old(job.metaData) != null && job.id in old(rows) ==>
                rows[job.id].raw == Object(old(job.metaData.m)[key := val])
      ensures old(job.metaData) == null && job.id !in old(rows) ==> err == Some(NoRow)
      ensures old(job.metaData) == null && job.id in old(rows) && old(rows)[job.id].raw.Broken? ==> err == Some(BadJson)
      ensures Valid() <==> job.id in rows || old(job.metaData) == null
    {
      Evict(job.id);
      var base, fetchErr := FetchBase(job);
      if fetchErr.Some? {
        return fetchErr;
      }
      ghost var fetched := cache;
      Store(job, base[key := val]);
      SameButOne(fetched, old(cache), job.id, job.metaData);
      return if archived then None else Some(NotArchived);
    }

    /** A job without a map is given the stored one first. */
    method FetchBase(job: Job) returns (base: Meta, err: Option<Error>)
      requires Valid() && job.id !in cache
      modifies `cache, job`metaData
      ensures Valid() && err == old(Refusal(job)) && cache - {job.id} == old(cache)
      ensures err.None? ==> base == old(Base(job)) && (job.id in rows || old(job.metaData) != null)
      ensures err.Some? ==>
                cache == old(cache) && Content(job.metaData) == if job.id in rows then Decoded(rows[job.id].raw) else None
    {
      if job.metaData == null {
        var _, fetchErr := FetchMetadata(job);
        if fetchErr.Some? {
          return map[], fetchErr;
        }
      }
      return if job.metaData != null then job.metaData.m else map[], None;
    }

    /** The new map goes into the job, its row (if there is one) and the cache. */
    method Store(job: Job, m: Meta)
      requires Valid()
      modifies `cache, `rows, job`metaData
      ensures job.metaData != null && fresh(job.metaData) && job.metaData.m == m
      ensures cache == old(cache)[job.id := job.metaData]
      ensures rows == if job.id in old(rows)
                      then old(rows)[job.id := old(rows)[job.id].(raw := Object(m))] else old(rows)
      ensures Valid() <==> job.id in rows
    {
      var cpy := new MetaMap(m);
      job.metaData := cpy;
      if job.id in rows {
        rows := rows[job.id := rows[job.id].(raw := Object(cpy.m))];
      }
      cache := cache[job.id := cpy];
      assert cache[job.id] == cpy;
    }

    /** A new row; its id is larger than every live one. */
    method Insert(id: int, row: Row)
      requires id !in rows
      modifies `rows
      ensures rows == old(rows)[id := row] && (old(Valid()) ==> Valid())
    {
      rows := rows[id := row];
    }

    method DeleteJobByID(id: int)
      requires Valid()
      modifies `rows, `cache
      ensures Valid() && rows == old(rows) - {id} && cache == old(cache) - {id}
    {
      cache := cache - {id};
      rows := rows - {id};
    }

    /** `listed` are the ids of the rows to be deleted, in the order the query delivers them. */
    method DeleteJobsBefore(t: int, omit: Omit, listed: seq<int>) returns (cnt: nat)
      requires Valid() && Elements(listed) == Doomed(rows, t, omit)
      modifies `rows, `cache
      ensures var ids := Doomed(old(rows), t, omit);
              cnt == |ids| && rows == old(rows) - ids && cache == old(cache) - ids
      ensures forall id :: id in rows <==>
                id in old(rows) && var r := old(rows)[id];
                !(r.start < t && (omit.OmitAll? ==> !r.tagged) && (omit.OmitUser? ==> !r.userTagged))
      ensures Valid()
    {
      var ids := Doomed(rows, t, omit);
      cnt := |ids|;
      if cnt > 0 {
        var jobIds := [];
        for i := 0 to |listed|
          invariant jobIds == listed[..i]
        {
          jobIds := jobIds + [listed[i]];
        }
        assert jobIds == listed;
        for i := 0 to |jobIds|
          invariant cache == old(cache) - Elements(jobIds[..i]) && rows == old(rows)
        {
          assert jobIds[..i + 1] == jobIds[..i] + [jobIds[i]];
          cache := cache - {jobIds[i]};
        }
        assert jobIds[..|jobIds|] == jobIds;
      }
      assert ids == {} ==> cache == old(cache) - ids;
      rows := rows - ids;
    }
  }

  // ----- runs

  /** The calls of a run. Load is a lookup that hands out a new job object; Stop and UpdateMonitoringStatus only
      invalidate. Fetch and Update name one of the objects handed out so far; the first is called on jobs without
      metadata, the second on jobs that are live. */
  datatype Call = Load(id: int) | Fetch(i: nat) | Update(i: nat, key: string, val: string, archived: bool)
                | Evict(id: int) | Insert(id: int, row: Row) | Delete(id: int)
                | DeleteBefore(t: int, omit: Omit, listed: seq<int>) | Invalidate(id: int)

  // The same calls without a cache and without shared maps.

  datatype JobValue = JobValue(id: int, metaData: Option<Meta>)

  datatype Answer = Answer(metaData: Option<Meta>, err: Option<Error>)

  datatype World = World(rows: map<int, Row>, jobs: seq<JobValue>, answers: seq<Answer>)

  predicate CanFetch(w: World, i: nat) {
    i < |w.jobs| && w.jobs[i].metaData.None?
  }

  /** A fetch decodes the row. */
  function FetchOnly(w: World, i: nat): World
    requires CanFetch(w, i)
  {
    var id := w.jobs[i].id;
    var stored := if id in w.rows then Decoded(w.rows[id].raw) else None;
    var fail := Failure(w.rows, id);
    w.(jobs := w.jobs[i := JobValue(id, stored)],
       answers := w.answers + [Answer(if fail.Some? then None else stored, fail)])
  }

  predicate CanUpdate(w: World, i: nat) {
    i < |w.jobs| && w.jobs[i].id in w.rows
  }

  /** An update changes one key of what the job has, or of what is stored, and stores it. */
  function UpdateOnly(w: World, i: nat, key: string, val: string, archived: bool): World
    requires CanUpdate(w, i)
  {
    var id := w.jobs[i].id;
    var stored := Decoded(w.rows[id].raw);
    if w.jobs[i].metaData.None? && w.rows[id].raw.Broken? then
      w.(jobs := w.jobs[i := JobValue(id, stored)], answers := w.answers + [Answer(None, Some(BadJson))])
    else
      var had := if w.jobs[i].metaData.Some? then w.jobs[i].metaData else stored;
      var m := (if had.Some? then had.value else map[])[key := val];
      World(w.rows[id := w.rows[id].(raw := Object(m))], w.jobs[i := JobValue(id, Some(m))],
            w.answers + [Answer(Some(m), if archived then None else Some(NotArchived))])
  }

  function Do(w: World, c: Call): World {
    match c
    case Load(id) => w.(jobs := w.jobs + [JobValue(id, None)])
    case Fetch(i) => if CanFetch(w, i) then FetchOnly(w, i) else w
    case Update(i, key, val, archived) => if CanUpdate(w, i) then UpdateOnly(w, i, key, val, archived) else w
    case Insert(id, row) => if id in w.rows then w else w.(rows := w.rows[id := row])
    case Delete(id) => w.(rows := w.rows - {id})
    case DeleteBefore(t, omit, listed) =>
      if Elements(listed) == Doomed(w.rows, t, omit) then w.(rows := w.rows - Doomed(w.rows, t, omit)) else w
    case Evict(_) => w
    case Invalidate(_) => w
  }

  function DoAll(w: World, calls: seq<Call>): World {
    if calls == [] then w else Do(DoAll(w, calls[..|calls| - 1]), calls[|calls| - 1])
  }

  predicate OnlyDrops(c: Call) {
    c.Evict? || c.Invalidate?
  }

  function WithoutDrops(calls: seq<Call>): seq<Call> {
    if calls == [] then []
    else
      var init, last := WithoutDrops(calls[..|calls| - 1]), calls[|calls| - 1];
      if OnlyDrops(last) then init else init + [last]
  }

  /** When the cache drops entries makes no difference to any answer or row. */
  lemma {:induction false} DropsDoNotMatter(w: World, calls: seq<Call>)
    ensures DoAll(w, calls) == DoAll(w, WithoutDrops(calls))
  {
    hide Do;
    if calls == [] {
    } else {
      var init, last := calls[..|calls| - 1], calls[|calls| - 1];
      DropsDoNotMatter(w, init);
      if OnlyDrops(last) {
        DropDoesNothing(DoAll(w, init), last);
      } else {
        assert (WithoutDrops(init) + [last])[..|WithoutDrops(init)|] == WithoutDrops(init);
      }
    }
  }

  lemma DropDoesNothing(w: World, c: Call)
    requires OnlyDrops(c)
    ensures Do(w, c) == w
  {
  }

  /** What one object stored, the next fetch for any other object of that job answers. */
  lemma UpdateIsRead(w: World, i: nat, key: string, val: string, archived: bool, k: nat)
    requires CanUpdate(w, i) && !(w.jobs[i].metaData.None? && w.rows[w.jobs[i].id].raw.Broken?)
    requires k != i && CanFetch(w, k) && w.jobs[k].id == w.jobs[i].id
    ensures var u := Do(w, Update(i, key, val, archived));
            var m := u.jobs[i].metaData;
            m.Some? && key in m.value && m.value[key] == val && u.rows[w.jobs[i].id].raw == Object(m.value)
            && Do(u, Fetch(k)).answers == u.answers + [Answer(m, None)]
  {
  }

  /** A fetch by an object without metadata answers what is stored: an object with its keys, nothing for an empty column or
      a null, and an error for text that does not decode or a row that is gone. */
  lemma FetchAnswers(w: World, i: nat)
    requires CanFetch(w, i)
    ensures var id, u := w.jobs[i].id, Do(w, Fetch(i));
            && u.rows == w.rows && |u.answers| == |w.answers| + 1
            && u.answers[|w.answers|] ==
               if id !in w.rows then Answer(None, Some(NoRow))
               else match w.rows[id].raw
                    case Object(m) => Answer(Some(m), None)
                    case Broken(_) => Answer(None, Some(BadJson))
                    case _ => Answer(None, None)
  {
  }

  lemma DoAllSnoc(w: World, calls: seq<Call>, c: Call)
    ensures DoAll(w, calls + [c]) == Do(DoAll(w, calls), c) && DoAll(w, []) == w
  {
    hide Do;
    assert (calls + [c])[..|calls|] == calls;
  }

  /** From the stored object to another caller's answer: two objects of one job are loaded, one of them sets a key, the
      other fetches. */
  lemma StoredIsServed(rows: map<int, Row>, id: int, m: Meta, key: string, val: string)
    requires id in rows && rows[id].raw == Object(m)
    ensures var w := DoAll(World(rows, [], []), [Load(id)] + [Load(id)] + [Update(0, key, val, true)] + [Fetch(1)]);
            && w.rows == rows[id := rows[id].(raw := Object(m[key := val]))]
            && w.answers == [Answer(Some(m[key := val]), None)] + [Answer(Some(m[key := val]), None)]
  {
    var w0 := World(rows, [], []);
    DoAllSnoc(w0, [], Load(id));
    assert [] + [Load(id)] == [Load(id)];
    DoAllSnoc(w0, [Load(id)], Load(id));
    DoAllSnoc(w0, [Load(id)] + [Load(id)], Update(0, key, val, true));
    DoAllSnoc(w0, [Load(id)] + [Load(id)] + [Update(0, key, val, true)], Fetch(1));
    hide DoAll;
    var w2 := Do(Do(w0, Load(id)), Load(id));
    assert w2 == World(rows, [JobValue(id, None)] + [JobValue(id, None)], []);
    assert CanUpdate(w2, 0);
  }

  /** An update adds or changes its one key. Every other key keeps the value it has in the job's own map, or, for a job
      without one, in the stored object; nothing else is added, and the row gets what the job has. */
  lemma UpdateKeepsOthers(w: World, i: nat, key: string, val: string, archived: bool, k: string)
    requires CanUpdate(w, i) && k != key
    requires w.jobs[i].metaData.Some? || w.rows[w.jobs[i].id].raw.Object?
    ensures var had := if w.jobs[i].metaData.Some? then w.jobs[i].metaData.value else w.rows[w.jobs[i].id].raw.m;
            var u := UpdateOnly(w, i, key, val, archived);
            var now := u.jobs[i].metaData;
            && now.Some? && u.rows[w.jobs[i].id].raw == Object(now.value)
            && key in now.value && now.value[key] == val
            && (k in now.value <==> k in had) && (k in had ==> now.value[k] == had[k])
  {
  }

  /** The job objects and the answers given so far have, now, the contents that the uncached world has; the
      repository has its rows. */
  ghost predicate Shows(repo: MetadataRepository, jobs: seq<Job>, answers: seq<(MetaMap?, Option<Error>)>, w: World)
    reads *
  {
    && repo.Valid() && repo.rows == w.rows
    && |jobs| == |w.jobs| && (forall i, k :: 0 <= i < k < |jobs| ==> jobs[i] != jobs[k])
    && (forall i :: 0 <= i < |jobs| ==> jobs[i].id == w.jobs[i].id && Content(jobs[i].metaData) == w.jobs[i].metaData)
    && |answers| == |w.answers|
    && (forall k :: 0 <= k < |answers| ==>
          Content(answers[k].0) == w.answers[k].metaData && answers[k].1 == w.answers[k].err)
  }

  method CallFetch(repo: MetadataRepository, jobs: seq<Job>, answers: seq<(MetaMap?, Option<Error>)>, i: nat, ghost w: World)
    returns (more: seq<(MetaMap?, Option<Error>)>)
    requires Shows(repo, jobs, answers, w) && CanFetch(w, i)
    modifies repo`cache, jobs[i]
    ensures Shows(repo, jobs, more, FetchOnly(w, i))
  {
    var meta, err := repo.FetchMetadata(jobs[i]);
    more := answers + [(meta, err)];
  }

  method CallUpdate(repo: MetadataRepository, jobs: seq<Job>, answers: seq<(MetaMap?, Option<Error>)>, i: nat,
                    key: string, val: string, archived: bool, ghost w: World)
    returns (more: seq<(MetaMap?, Option<Error>)>)
    requires Shows(repo, jobs, answers, w) && CanUpdate(w, i)
    modifies repo`cache, repo`rows, jobs[i]
    ensures Shows(repo, jobs, more, UpdateOnly(w, i, key, val, archived))
  {
    var refused := jobs[i].metaData == null && repo.rows[jobs[i].id].raw.Broken?;
    var err := repo.UpdateMetadata(jobs[i], key, val, archived);
    more := answers + [(if refused then null else jobs[i].metaData, err)];
  }

  method Perform(repo: MetadataRepository, jobs: seq<Job>, answers: seq<(MetaMap?, Option<Error>)>, c: Call, ghost w: World)
    returns (jobs': seq<Job>, answers': seq<(MetaMap?, Option<Error>)>)
    requires Shows(repo, jobs, answers, w)
    modifies repo, jobs
    ensures Shows(repo, jobs', answers', Do(w, c))
    ensures forall j :: j in jobs' ==> j in jobs || fresh(j)
  {
    jobs', answers' := jobs, answers;
    match c
    case Load(id) =>
      var job := new Job(id);
      jobs' := jobs + [job];
    case Fetch(i) =>
      if i < |jobs| && jobs[i].metaData == null {
        answers' := CallFetch(repo, jobs, answers, i, w);
      }
    case Update(i, key, val, archived) =>
      if i < |jobs| && jobs[i].id in repo.rows {
        answers' := CallUpdate(repo, jobs, answers, i, key, val, archived, w);
      }
    case Evict(id) => repo.Evict(id);
    case Insert(id, row) =>
      if id !in repo.rows {
        repo.Insert(id, row);
      }
    case Delete(id) => repo.DeleteJobByID(id);
    case DeleteBefore(t, omit, listed) =>
      if Elements(listed) == Doomed(repo.rows, t, omit) {
        var _ := repo.DeleteJobsBefore(t, omit, listed);
      }
    case Invalidate(id) => repo.Evict(id);
  }

  /** Over every run the cache is invisible, whatever it drops: rows, job objects and answers are those of the same
      calls without a cache. The answers are compared at the end of the run, so no map that was handed to a caller or
      kept in the cache has been written since. */
  method Run(repo: MetadataRepository, calls: seq<Call>)
    returns (jobs: seq<Job>, answers: seq<(MetaMap?, Option<Error>)>)
    requires repo.Valid()
    modifies repo
    ensures Shows(repo, jobs, answers, DoAll(World(old(repo.rows), [], []), calls))
  {
    jobs, answers := [], [];
    ghost var w := World(repo.rows, [], []);
    for n := 0 to |calls|
      invariant w == DoAll(World(old(repo.rows), [], []), calls[..n])
      invariant Shows(repo, jobs, answers, w)
      invariant forall j :: j in jobs ==> fresh(j)
    {
      assert calls[..n + 1][..n] == calls[..n];
      forall i | 0 <= i < |jobs| ensures fresh(jobs[i]) {
        assert jobs[i] in jobs;
      }
      jobs, answers := Perform(repo, jobs, answers, calls[n], w);
      w := Do(w, calls[n]);
    }
    assert calls[..|calls|] == calls;
  }

  /** Without the second condition: metadata set on an object of a deleted job stays in the cache, and the next job
      that gets the id is served it instead of its own. */
  method DeletedJobResurfaces(repo: MetadataRepository, job: Job, key: string, val: string, archived: bool, row: Row)
    returns (served: MetaMap?, err: Option<Error>)
    requires repo.Valid() && job.metaData != null && job.id !in repo.rows
    modifies repo, job
    ensures repo.rows == old(repo.rows)[job.id := row]
    ensures err.None? && served != null && served.m == old(job.metaData.m)[key := val]
  {
    var _ := repo.UpdateMetadata(job, key, val, archived);
    repo.Insert(job.id, row);
    var next := new Job(job.id);
    served, err := repo.FetchMetadata(next);
  }
}
