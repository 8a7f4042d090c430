/** The flat query list for the metric store and the regrouping of its flat answer. */
module QueryRegroup {
  import opened Prelude

  type Scope = string

  /** A number of the store; None is NaN. */
  type Float = Option<real>

  datatype SubCluster = SubCluster(name: string, remove: bool)

  datatype MetricConfig = MetricConfig(scope: Scope, timestep: int, unit: string, subClusters: seq<SubCluster>)

  datatype Resource = Resource(hostname: string, hwthreads: Option<seq<int>>, accelerators: seq<string>)

  datatype Job = Job(subCluster: string, numAcc: int, resources: seq<Resource>)

  /** A result of BuildScopeQueries. */
  datatype ScopeQuery = ScopeQuery(metric: string, hostname: string, aggregate: bool, kind: Option<string>,
                                   typeIds: seq<string>, scope: Scope)

  datatype Query = Query(metric: string, hostname: string, aggregate: bool, kind: Option<string>, typeIds: seq<string>,
                         resolution: int)

  /** The metric configuration of the cluster, the coarser of two scopes, and BuildScopeQueries: native and requested
      scope, metric, host, hardware threads and accelerators give queries, or None for an unsupported pair. */
  datatype Env = Env(config: map<string, MetricConfig>, max: (Scope, Scope) -> Scope,
                     build: (Scope, Scope, string, string, seq<int>, seq<string>) -> Option<seq<ScopeQuery>>)

  const ACCELERATOR := "accelerator"

  predicate Removed(mc: MetricConfig, subCluster: string) {
    exists i :: 0 <= i < |mc.subClusters| && mc.subClusters[i].name == subCluster && mc.subClusters[i].remove
  }

  /** The metric is queried at all for this job. */
  predicate Queried(env: Env, job: Job, metric: string) {
    && metric in env.config && !Removed(env.config[metric], job.subCluster)
    && !(env.config[metric].scope == ACCELERATOR && job.numAcc == 0)
  }

  // ----- what is asked

  /** The requested scopes that are not turned into an effective scope that an earlier one gave. */
  function Kept(env: Env, native: Scope, scopes: seq<Scope>): seq<Scope> {
    if scopes == [] then []
    else
      var init, last := scopes[..|scopes| - 1], scopes[|scopes| - 1];
      if exists i :: 0 <= i < |init| && env.max(native, init[i]) == env.max(native, last) then Kept(env, native, init)
      else Kept(env, native, init) + [last]
  }

  /** One call of BuildScopeQueries for each host. */
  function OverHosts(env: Env, job: Job, node: seq<int>, metric: string, scope: Scope, n: nat): Option<seq<ScopeQuery>>
    requires n <= |job.resources| && metric in env.config
  {
    if n == 0 then Some([])
    else
      var init := OverHosts(env, job, node, metric, scope, n - 1);
      var host := job.resources[n - 1];
      var threads := if host.hwthreads.Some? then host.hwthreads.value else node;
      var last := env.build(env.config[metric].scope, scope, metric, host.hostname, threads, host.accelerators);
      if init.None? || last.None? then None else Some(init.value + last.value)
  }

  function OverScopes(env: Env, job: Job, node: seq<int>, metric: string, kept: seq<Scope>): Option<seq<ScopeQuery>>
    requires metric in env.config
  {
    if kept == [] then Some([])
    else
      var init := OverScopes(env, job, node, metric, kept[..|kept| - 1]);
      var last := OverHosts(env, job, node, metric, kept[|kept| - 1], |job.resources|);
      if init.None? || last.None? then None else Some(init.value + last.value)
  }

  /** All scope queries of a job: metric by metric, kept scope by kept scope, host by host. */
  function Asked(env: Env, job: Job, node: seq<int>, metrics: seq<string>, scopes: seq<Scope>): Option<seq<ScopeQuery>> {
    if metrics == [] then Some([])
    else
      var m := metrics[|metrics| - 1];
      var init := Asked(env, job, node, metrics[..|metrics| - 1], scopes);
      var last := if Queried(env, job, m) then OverScopes(env, job, node, m, Kept(env, env.config[m].scope, scopes))
                  else Some([]);
      if init.None? || last.None? then None else Some(init.value + last.value)
  }

  function ToQuery(s: ScopeQuery, resolution: int): Query {
    Query(s.metric, s.hostname, s.aggregate, s.kind, s.typeIds, resolution)
  }

  /** Two lists built in parallel from one. */
  predicate Parallel(asked: seq<ScopeQuery>, resolution: int, queries: seq<Query>, assignment: seq<Scope>) {
    && |queries| == |assignment| == |asked|
    && forall i :: 0 <= i < |asked| ==> queries[i] == ToQuery(asked[i], resolution) && assignment[i] == asked[i].scope
  }

  lemma {:induction false} KeptExtends(env: Env, native: Scope, scopes: seq<Scope>)
    ensures forall k :: k in Kept(env, native, scopes) ==> k in scopes
  {
    if scopes == [] {
    } else {
      KeptExtends(env, native, scopes[..|scopes| - 1]);
    }
  }

  /** No two of these scopes have the same effect. */
  ghost predicate Distinct(env: Env, native: Scope, kept: seq<Scope>) {
    forall i, k :: 0 <= i < k < |kept| ==> env.max(native, kept[i]) != env.max(native, kept[k])
  }

  /** Some scope of the list has the effect of this one. */
  ghost predicate Covers(env: Env, native: Scope, kept: seq<Scope>, scope: Scope) {
    exists k :: 0 <= k < |kept| && env.max(native, kept[k]) == env.max(native, scope)
  }

  lemma CoversMore(env: Env, native: Scope, kept: seq<Scope>, more: seq<Scope>, scope: Scope)
    requires kept <= more && Covers(env, native, kept, scope)
    ensures Covers(env, native, more, scope)
  {
    var k :| 0 <= k < |kept| && env.max(native, kept[k]) == env.max(native, scope);
    assert more[k] == kept[k];
  }

  lemma {:induction false} KeptDistinct(env: Env, native: Scope, scopes: seq<Scope>)
    ensures Distinct(env, native, Kept(env, native, scopes))
  {
    if scopes == [] {
    } else {
      var init := scopes[..|scopes| - 1];
      var before, kept := Kept(env, native, init), Kept(env, native, scopes);
      KeptDistinct(env, native, init);
      KeptExtends(env, native, init);
      forall i, k | 0 <= i < k < |kept| ensures env.max(native, kept[i]) != env.max(native, kept[k]) {
        if k == |before| {
          assert before[i] in init;
        } else {
          assert kept[i] == before[i] && kept[k] == before[k];
        }
      }
    }
  }

  lemma {:induction false} KeptCovers(env: Env, native: Scope, scopes: seq<Scope>, i: nat)
    requires i < |scopes|
    ensures Covers(env, native, Kept(env, native, scopes), scopes[i])
    decreases |scopes|, i
  {
    var init, last := scopes[..|scopes| - 1], scopes[|scopes| - 1];
    var before, kept := Kept(env, native, init), Kept(env, native, scopes);
    if i < |init| {
      KeptCovers(env, native, init, i);
      CoversMore(env, native, before, kept, init[i]);
    } else if j :| 0 <= j < |init| && env.max(native, init[j]) == env.max(native, last) {
      KeptCovers(env, native, init, j);
      CoversMore(env, native, before, kept, init[j]);
    } else {
      assert kept[|before|] == last;
    }
  }

  /** No effective scope is asked for twice, and none of those requested is lost. */
  lemma KeptOnce(env: Env, native: Scope, scopes: seq<Scope>)
    ensures Distinct(env, native, Kept(env, native, scopes))
    ensures forall i :: 0 <= i < |scopes| ==> Covers(env, native, Kept(env, native, scopes), scopes[i])
  {
    KeptDistinct(env, native, scopes);
    forall i | 0 <= i < |scopes| ensures Covers(env, native, Kept(env, native, scopes), scopes[i]) {
      KeptCovers(env, native, scopes, i);
    }
  }

  // A failure on the way is a failure of the whole.

  lemma {:induction false} HostsFail(env: Env, job: Job, node: seq<int>, metric: string, scope: Scope, k: nat, n: nat)
    requires k <= n <= |job.resources| && metric in env.config
    requires OverHosts(env, job, node, metric, scope, k).None?
    ensures OverHosts(env, job, node, metric, scope, n).None?
  {
    if k == n {
    } else {
      HostsFail(env, job, node, metric, scope, k, n - 1);
    }
  }

  lemma {:induction false} ScopesFail(env: Env, job: Job, node: seq<int>, metric: string, some: seq<Scope>, kept: seq<Scope>)
    requires metric in env.config && some <= kept && OverScopes(env, job, node, metric, some).None?
    ensures OverScopes(env, job, node, metric, kept).None?
  {
    if some == kept {
    } else {
      ScopesFail(env, job, node, metric, some, kept[..|kept| - 1]);
    }
  }

  lemma {:induction false} MetricsFail(env: Env, job: Job, node: seq<int>, some: seq<string>, metrics: seq<string>,
                                       scopes: seq<Scope>)
    requires some <= metrics && Asked(env, job, node, some, scopes).None?
    ensures Asked(env, job, node, metrics, scopes).None?
  {
    if some == metrics {
    } else {
      MetricsFail(env, job, node, some, metrics[..|metrics| - 1], scopes);
    }
  }

  lemma {:induction false} KeptPrefix(env: Env, native: Scope, some: seq<Scope>, scopes: seq<Scope>)
    requires some <= scopes
    ensures Kept(env, native, some) <= Kept(env, native, scopes)
  {
    if some == scopes {
    } else {
      KeptPrefix(env, native, some, scopes[..|scopes| - 1]);
    }
  }

  /** The inner loop of the duplicate check. */
  method Handled(handledScopes: seq<Scope>, scope: Scope) returns (found: bool)
    ensures found <==> scope in handledScopes
  {
    for i := 0 to |handledScopes|
      invariant scope !in handledScopes[..i]
    {
      if handledScopes[i] == scope {
        return true;
      }
    }
    return false;
  }

  predicate Effective(env: Env, native: Scope, kept: seq<Scope>, handledScopes: seq<Scope>) {
    |handledScopes| == |kept| && forall i :: 0 <= i < |kept| ==> handledScopes[i] == env.max(native, kept[i])
  }

  lemma HandledMeansSeen(env: Env, native: Scope, scopes: seq<Scope>, k: nat, handledScopes: seq<Scope>)
    requires k < |scopes| && Effective(env, native, Kept(env, native, scopes[..k]), handledScopes)
    ensures env.max(native, scopes[k]) in handledScopes <==> Kept(env, native, scopes[..k + 1]) == Kept(env, native, scopes[..k])
    ensures env.max(native, scopes[k]) !in handledScopes <==>
              Kept(env, native, scopes[..k + 1]) == Kept(env, native, scopes[..k]) + [scopes[k]]
  {
    var seen := scopes[..k];
    var kept := Kept(env, native, seen);
    KeptOnce(env, native, seen);
    KeptExtends(env, native, seen);
    assert scopes[..k + 1][..k] == seen;
    if env.max(native, scopes[k]) in handledScopes {
      var i :| 0 <= i < |handledScopes| && handledScopes[i] == env.max(native, scopes[k]);
      assert kept[i] in seen;
      var j :| 0 <= j < |seen| && seen[j] == kept[i];
      assert env.max(native, seen[j]) == env.max(native, scopes[k]);
    } else {
      forall j | 0 <= j < |seen| ensures env.max(native, seen[j]) != env.max(native, scopes[k]) {
        var i :| 0 <= i < |kept| && env.max(native, kept[i]) == env.max(native, seen[j]);
        assert handledScopes[i] in handledScopes;
      }
    }
  }

  /** One requested scope: a call of BuildScopeQueries for each host of the job. */
  method AddScope(env: Env, job: Job, node: seq<int>, metric: string, scope: Scope, resolution: int,
                  queries: seq<Query>, assignment: seq<Scope>, ghost asked: seq<ScopeQuery>)
    returns (ok: bool, qs: seq<Query>, ss: seq<Scope>)
    requires metric in env.config && Parallel(asked, resolution, queries, assignment)
    ensures ok <==> OverHosts(env, job, node, metric, scope, |job.resources|).Some?
    ensures ok ==> Parallel(asked + OverHosts(env, job, node, metric, scope, |job.resources|).value, resolution, qs, ss)
  {
    qs, ss := queries, assignment;
    ghost var added: seq<ScopeQuery> := [];
    for h := 0 to |job.resources|
      invariant OverHosts(env, job, node, metric, scope, h) == Some(added)
      invariant Parallel(asked + added, resolution, qs, ss)
    {
      var host := job.resources[h];
      var hwthreads := if host.hwthreads.Some? then host.hwthreads.value else node;
      var results := env.build(env.config[metric].scope, scope, metric, host.hostname, hwthreads, host.accelerators);
      if results.None? {
        HostsFail(env, job, node, metric, scope, h + 1, |job.resources|);
        return false, [], [];
      }
      for r := 0 to |results.value|
        invariant Parallel(asked + added + results.value[..r], resolution, qs, ss)
      {
        qs := qs + [ToQuery(results.value[r], resolution)];
        ss := ss + [results.value[r].scope];
      }
      assert asked + added + results.value == asked + (added + results.value);
      assert results.value[..|results.value|] == results.value;
      added := added + results.value;
    }
    ok := true;
  }

  lemma ScopesSnoc(env: Env, job: Job, node: seq<int>, metric: string, kept: seq<Scope>, scope: Scope)
    requires metric in env.config
    ensures var init := OverScopes(env, job, node, metric, kept);
            var last := OverHosts(env, job, node, metric, scope, |job.resources|);
            OverScopes(env, job, node, metric, kept + [scope])
            == if init.None? || last.None? then None else Some(init.value + last.value)
    ensures OverScopes(env, job, node, metric, []) == Some([])
  {
    hide OverHosts;
    assert (kept + [scope])[..|kept|] == kept;
  }

  lemma KeptNone(env: Env, native: Scope, scopes: seq<Scope>)
    ensures Kept(env, native, scopes[..0]) == []
  {
  }

  /** One metric: each effective scope once. */
  method AddMetric(env: Env, job: Job, node: seq<int>, metric: string, scopes: seq<Scope>, resolution: int,
                   queries: seq<Query>, assignment: seq<Scope>, ghost asked: seq<ScopeQuery>)
    returns (ok: bool, qs: seq<Query>, ss: seq<Scope>)
    requires Queried(env, job, metric) && Parallel(asked, resolution, queries, assignment)
    ensures var all := OverScopes(env, job, node, metric, Kept(env, env.config[metric].scope, scopes));
            (ok <==> all.Some?) && (ok ==> Parallel(asked + all.value, resolution, qs, ss))
  {
    hide Parallel, OverHosts, OverScopes, Kept;
    ScopesSnoc(env, job, node, metric, [], "");
    KeptNone(env, env.config[metric].scope, scopes);
    var native := env.config[metric].scope;
    var handledScopes: seq<Scope> := [];
    qs, ss := queries, assignment;
    ghost var added: seq<ScopeQuery> := [];
    assert asked + added == asked;
    for k := 0 to |scopes|
      invariant Effective(env, native, Kept(env, native, scopes[..k]), handledScopes)
      invariant OverScopes(env, job, node, metric, Kept(env, native, scopes[..k])) == Some(added)
      invariant Parallel(asked + added, resolution, qs, ss)
    {
      HandledMeansSeen(env, native, scopes, k, handledScopes);
      var scope := env.max(native, scopes[k]);
      var found := Handled(handledScopes, scope);
      if !found {
        handledScopes := handledScopes + [scope];
        var fine;
        ghost var kept := Kept(env, native, scopes[..k]);
        ScopesSnoc(env, job, node, metric, kept, scopes[k]);
        fine, qs, ss := AddScope(env, job, node, metric, scopes[k], resolution, qs, ss, asked + added);
        if !fine {
          KeptPrefix(env, native, scopes[..k + 1], scopes);
          ScopesFail(env, job, node, metric, kept + [scopes[k]], Kept(env, native, scopes));
          return false, [], [];
        }
        ghost var last := OverHosts(env, job, node, metric, scopes[k], |job.resources|).value;
        assert asked + added + last == asked + (added + last);
        added := added + last;
      }
    }
    assert scopes[..|scopes|] == scopes;
    ok := true;
  }

  /** buildQueries: None for a missing topology or an unsupported pair of scopes; otherwise two lists of one length. */
  method BuildQueries(env: Env, topology: Option<seq<int>>, job: Job, metrics: seq<string>, scopes: seq<Scope>,
                      resolution: int) returns (r: Option<(seq<Query>, seq<Scope>)>)
    ensures r.Some? <==> topology.Some? && Asked(env, job, topology.value, metrics, scopes).Some?
    ensures r.Some? ==>
              Parallel(Asked(env, job, topology.value, metrics, scopes).value, resolution, r.value.0, r.value.1)
    ensures r.Some? ==>
              var asked := Asked(env, job, topology.value, metrics, scopes).value;
              && |r.value.0| == |r.value.1| == |asked|
              && forall i :: 0 <= i < |asked| ==>
                   var q := r.value.0[i];
                   && q.metric == asked[i].metric && q.hostname == asked[i].hostname && q.aggregate == asked[i].aggregate
                   && q.kind == asked[i].kind && q.typeIds == asked[i].typeIds && q.resolution == resolution
                   && r.value.1[i] == asked[i].scope
  {
    if topology.None? {
      return None;
    }
    var queries: seq<Query>, assignment: seq<Scope> := [], [];
    ghost var asked: seq<ScopeQuery> := [];
    for i := 0 to |metrics|
      invariant Asked(env, job, topology.value, metrics[..i], scopes) == Some(asked)
      invariant Parallel(asked, resolution, queries, assignment)
    {
      assert metrics[..i + 1][..i] == metrics[..i];
      if Queried(env, job, metrics[i]) {
        var ok;
        ok, queries, assignment :=
          AddMetric(env, job, topology.value, metrics[i], scopes, resolution, queries, assignment, asked);
        if !ok {
          MetricsFail(env, job, topology.value, metrics[..i + 1], metrics, scopes);
          return None;
        }
        asked := Asked(env, job, topology.value, metrics[..i + 1], scopes).value;
      } else {
        assert asked + [] == asked;
      }
    }
    assert metrics[..|metrics|] == metrics;
    return Some((queries, assignment));
  }

  // BuildScopeQueries puts the metric it is given into every query.
  ghost predicate NamesMetric(env: Env) {
    forall native, requested, m, host, threads, accs, i ::
      env.build(native, requested, m, host, threads, accs).Some?
      && 0 <= i < |env.build(native, requested, m, host, threads, accs).value| ==>
        env.build(native, requested, m, host, threads, accs).value[i].metric == m
  }

  lemma {:induction false} HostsName(env: Env, job: Job, node: seq<int>, metric: string, scope: Scope, n: nat)
    requires NamesMetric(env) && n <= |job.resources| && metric in env.config
    requires OverHosts(env, job, node, metric, scope, n).Some?
    ensures forall q :: q in OverHosts(env, job, node, metric, scope, n).value ==> q.metric == metric
  {
    if n == 0 {
    } else {
      HostsName(env, job, node, metric, scope, n - 1);
    }
  }

  lemma {:induction false} ScopesName(env: Env, job: Job, node: seq<int>, metric: string, kept: seq<Scope>)
    requires NamesMetric(env) && metric in env.config && OverScopes(env, job, node, metric, kept).Some?
    ensures forall q :: q in OverScopes(env, job, node, metric, kept).value ==> q.metric == metric
  {
    hide NamesMetric;
    if kept == [] {
    } else {
      ScopesName(env, job, node, metric, kept[..|kept| - 1]);
      HostsName(env, job, node, metric, kept[|kept| - 1], |job.resources|);
    }
  }

  /** Only configured, unremoved metrics that were asked for are queried. */
  lemma {:induction false} AskedConfigured(env: Env, job: Job, node: seq<int>, metrics: seq<string>, scopes: seq<Scope>)
    requires NamesMetric(env) && Asked(env, job, node, metrics, scopes).Some?
    ensures forall q :: q in Asked(env, job, node, metrics, scopes).value ==> q.metric in metrics && Queried(env, job, q.metric)
  {
    hide NamesMetric, Queried, Kept;
    if metrics == [] {
    } else {
      var m := metrics[|metrics| - 1];
      AskedConfigured(env, job, node, metrics[..|metrics| - 1], scopes);
      if Queried(env, job, m) {
        ConfigOf(env, job, m);
        ScopesName(env, job, node, m, Kept(env, env.config[m].scope, scopes));
      }
    }
  }

  lemma ConfigOf(env: Env, job: Job, m: string)
    requires Queried(env, job, m)
    ensures m in env.config
  {
  }

  // ----- exactly what is asked

  /** The call of BuildScopeQueries for one metric, scope and host; a host without a list of hardware threads has all
      those of its node. */
  ghost function Built(env: Env, job: Job, node: seq<int>, m: string, scope: Scope, h: nat): Option<seq<ScopeQuery>>
    requires m in env.config && h < |job.resources|
  {
    var host := job.resources[h];
    env.build(env.config[m].scope, scope, m, host.hostname,
              if host.hwthreads.Some? then host.hwthreads.value else node, host.accelerators)
  }

  /** A metric is queried when it is configured, not removed from the job's subcluster, and no accelerator metric of a
      job without accelerators. */
  lemma QueriedIff(env: Env, job: Job, m: string)
    ensures Queried(env, job, m) <==>
            && m in env.config
            && (forall i :: 0 <= i < |env.config[m].subClusters| && env.config[m].subClusters[i].name == job.subCluster ==>
                  !env.config[m].subClusters[i].remove)
            && (env.config[m].scope == "accelerator" ==> job.numAcc != 0)
  {
  }

  lemma {:induction false} HostsIff(env: Env, job: Job, node: seq<int>, m: string, scope: Scope, n: nat)
    requires n <= |job.resources| && m in env.config
    ensures OverHosts(env, job, node, m, scope, n).None? <==>
            exists h: nat :: h < n && Built(env, job, node, m, scope, h).None?
    ensures OverHosts(env, job, node, m, scope, n).Some? ==>
              forall q :: q in OverHosts(env, job, node, m, scope, n).value <==>
                          exists h: nat :: h < n && q in Built(env, job, node, m, scope, h).value
  {
    if n == 0 {
    } else {
      HostsIff(env, job, node, m, scope, n - 1);
      BuiltLast(env, job, node, m, scope, n);
      hide OverHosts, Built;
    }
  }

  lemma BuiltLast(env: Env, job: Job, node: seq<int>, m: string, scope: Scope, n: nat)
    requires 0 < n <= |job.resources| && m in env.config
    ensures var init := OverHosts(env, job, node, m, scope, n - 1);
            var last := Built(env, job, node, m, scope, n - 1);
            OverHosts(env, job, node, m, scope, n) ==
            if init.None? || last.None? then None else Some(init.value + last.value)
  {
  }

  lemma {:induction false} ScopesIff(env: Env, job: Job, node: seq<int>, m: string, kept: seq<Scope>)
    requires m in env.config
    ensures OverScopes(env, job, node, m, kept).None? <==>
            exists scope, h: nat :: scope in kept && h < |job.resources| && Built(env, job, node, m, scope, h).None?
    ensures OverScopes(env, job, node, m, kept).Some? ==>
              forall q :: q in OverScopes(env, job, node, m, kept).value <==>
                          exists scope, h: nat :: scope in kept && h < |job.resources| &&
                                                  q in Built(env, job, node, m, scope, h).value
  {
    hide OverHosts, Built;
    if kept == [] {
    } else {
      var init, last := kept[..|kept| - 1], kept[|kept| - 1];
      ScopesIff(env, job, node, m, init);
      HostsIff(env, job, node, m, last, |job.resources|);
      ScopesSnoc(env, job, node, m, init, last);
      assert init + [last] == kept;
      assert forall scope :: scope in kept <==> scope in init || scope == last;
      hide OverScopes;
    }
  }

  /** Metric m is asked for on host h under one of its kept scopes. */
  ghost predicate Wanted(env: Env, job: Job, metrics: seq<string>, scopes: seq<Scope>, m: string, scope: Scope, h: nat) {
    m in metrics && Queried(env, job, m) && scope in Kept(env, env.config[m].scope, scopes) && h < |job.resources|
  }

  /** The plan fails exactly when one of the wanted calls does, and otherwise holds exactly the queries they give. */
  lemma {:induction false} AskedIff(env: Env, job: Job, node: seq<int>, metrics: seq<string>, scopes: seq<Scope>)
    ensures Asked(env, job, node, metrics, scopes).None? <==>
            exists m, scope, h: nat ::
              Wanted(env, job, metrics, scopes, m, scope, h) && Built(env, job, node, m, scope, h).None?
    ensures Asked(env, job, node, metrics, scopes).Some? ==>
              forall q :: q in Asked(env, job, node, metrics, scopes).value <==>
                          exists m, scope, h: nat ::
                            Wanted(env, job, metrics, scopes, m, scope, h) && q in Built(env, job, node, m, scope, h).value
  {
    hide OverScopes, Built, Queried, Kept;
    if metrics == [] {
    } else {
      var init, last := metrics[..|metrics| - 1], metrics[|metrics| - 1];
      AskedIff(env, job, node, init, scopes);
      if Queried(env, job, last) {
        ConfigOf(env, job, last);
        ScopesIff(env, job, node, last, Kept(env, env.config[last].scope, scopes));
      }
      forall m, scope, h: nat
        ensures Wanted(env, job, metrics, scopes, m, scope, h) <==>
                Wanted(env, job, init, scopes, m, scope, h) || (m == last && Wanted(env, job, [last], scopes, m, scope, h))
      {
      }
    }
  }

  // ----- what is answered

  datatype Statistics = Statistics(avg: real, min: real, max: real)

  datatype Result = Result(error: Option<string>, resolution: int, avg: Float, min: Float, max: Float, data: seq<Float>)

  datatype Series = Series(hostname: string, id: Option<string>, statistics: Statistics, data: seq<Float>)

  datatype JobMetric = JobMetric(unit: string, timestep: int, series: seq<Series>)

  datatype ScopedStats = ScopedStats(hostname: string, id: Option<string>, statistics: Statistics)

  datatype Failure = Failure(metric: string, hostname: string, message: string)

  type Key = (string, Scope)

  /** SanitizeStats: one NaN makes all three zero. */
  function Sanitized(r: Result): Statistics {
    if r.avg.Some? && r.min.Some? && r.max.Some? then Statistics(r.avg.value, r.min.value, r.max.value)
    else Statistics(0.0, 0.0, 0.0)
  }

  /** ExtractTypeID */
  function TypeId(q: Query, ndx: nat): Option<string> {
    if q.kind.Some? && ndx < |q.typeIds| then Some(q.typeIds[ndx]) else None
  }

  function RowSeries(q: Query, row: seq<Result>): seq<Series> {
    if row == [] then []
    else
      var n := |row| - 1;
      if row[n].error.Some? then RowSeries(q, row[..n])
      else RowSeries(q, row[..n]) + [Series(q.hostname, TypeId(q, n), Sanitized(row[n]), row[n].data)]
  }

  function RowFailures(q: Query, row: seq<Result>): seq<Failure> {
    if row == [] then []
    else
      var n := |row| - 1;
      if row[n].error.None? then RowFailures(q, row[..n])
      else RowFailures(q, row[..n]) + [Failure(q.metric, q.hostname, row[n].error.value)]
  }

  /** The number of results that are no errors. */
  function Good(row: seq<Result>): nat {
    if row == [] then 0 else Good(row[..|row| - 1]) + (if row[|row| - 1].error.None? then 1 else 0)
  }

  /** Result by result, in order: a good one is a series of the query's host, with the type id at its own position, with
      its numbers, or zeros if one of them is NaN, and its data; any other is a failure of the metric on that host. */
  lemma {:induction false} RowAt(q: Query, row: seq<Result>, i: nat)
    requires i < |row|
    ensures |RowSeries(q, row)| == Good(row) && |RowFailures(q, row)| == |row| - Good(row)
    ensures var r, k := row[i], Good(row[..i]);
            if r.error.None? then
              && k < Good(row)
              && RowSeries(q, row)[k] ==
                 Series(q.hostname, if q.kind.Some? && i < |q.typeIds| then Some(q.typeIds[i]) else None,
                        if r.avg.None? || r.min.None? || r.max.None? then Statistics(0.0, 0.0, 0.0)
                        else Statistics(r.avg.value, r.min.value, r.max.value),
                        r.data)
            else
              0 <= i - k < |row| - Good(row) && RowFailures(q, row)[i - k] == Failure(q.metric, q.hostname, r.error.value)
  {
    var init := row[..|row| - 1];
    RowLengths(q, init);
    if i == |init| {
      GoodAtMost(init);
    } else {
      RowAt(q, init, i);
      assert init[..i] == row[..i];
    }
  }

  lemma {:induction false} RowLengths(q: Query, row: seq<Result>)
    ensures |RowSeries(q, row)| == Good(row) && |RowFailures(q, row)| == |row| - Good(row)
  {
    if row == [] {
    } else {
      RowLengths(q, row[..|row| - 1]);
    }
  }

  lemma {:induction false} GoodAtMost(row: seq<Result>)
    ensures Good(row) <= |row|
  {
    if row == [] {
    } else {
      GoodAtMost(row[..|row| - 1]);
    }
  }

  /** The queries with the scope assigned to each. */
  datatype Plan = Plan(queries: seq<Query>, assignment: seq<Scope>) {
    predicate Valid() {
      |queries| == |assignment|
    }

    function KeyAt(i: nat): Key
      requires i < |queries| && Valid()
    {
      (queries[i].metric, assignment[i])
    }
  }

  /** Answers to queries of metrics outside `known` are ignored; None knows all. */
  predicate Known(known: Option<set<string>>, metric: string) {
    known.None? || metric in known.value
  }

  /** The series of one metric and scope, in the order of the queries. */
  function GroupOf(p: Plan, known: Option<set<string>>, rows: seq<seq<Result>>, key: Key): seq<Series>
    requires p.Valid() && |rows| <= |p.queries|
  {
    if rows == [] then []
    else
      var n := |rows| - 1;
      if p.KeyAt(n) == key && Known(known, key.0) then
        GroupOf(p, known, rows[..n], key) + RowSeries(p.queries[n], rows[n])
      else GroupOf(p, known, rows[..n], key)
  }

  function Failures(p: Plan, known: Option<set<string>>, rows: seq<seq<Result>>): seq<Failure>
    requires p.Valid() && |rows| <= |p.queries|
  {
    if rows == [] then []
    else
      var n := |rows| - 1;
      if Known(known, p.queries[n].metric) then Failures(p, known, rows[..n]) + RowFailures(p.queries[n], rows[n])
      else Failures(p, known, rows[..n])
  }

  /** The time step of a group: the resolution of the first result (an error or not) of the first query that
      contributed a series. */
  function StepOf(p: Plan, known: Option<set<string>>, rows: seq<seq<Result>>, key: Key): int
    requires p.Valid() && |rows| <= |p.queries| && GroupOf(p, known, rows, key) != []
  {
    var n := |rows| - 1;
    if GroupOf(p, known, rows[..n], key) != [] then StepOf(p, known, rows[..n], key)
    else FirstResolution(p.queries[n], rows[n])
  }

  function FirstResolution(q: Query, row: seq<Result>): int
    requires RowSeries(q, row) != []
  {
    row[0].resolution
  }

  /** The series of a row stand in its group right behind those of the earlier rows. */
  lemma {:induction false} GroupAt(p: Plan, known: Option<set<string>>, rows: seq<seq<Result>>, i: nat)
    requires p.Valid() && i < |rows| <= |p.queries| && Known(known, p.queries[i].metric)
    ensures var key := (p.queries[i].metric, p.assignment[i]);
            GroupOf(p, known, rows[..i], key) + RowSeries(p.queries[i], rows[i]) <= GroupOf(p, known, rows, key)
  {
    hide RowSeries;
    var n := |rows| - 1;
    if i == n {
    } else {
      GroupAt(p, known, rows[..n], i);
      assert rows[..n][..i] == rows[..i];
    }
  }

  /** The time step of a group is the resolution of the first result of the first row that put a series into it. */
  lemma {:induction false} StepIsFirst(p: Plan, known: Option<set<string>>, rows: seq<seq<Result>>, key: Key) returns (i: nat)
    requires p.Valid() && |rows| <= |p.queries| && GroupOf(p, known, rows, key) != []
    ensures i < |rows| && (p.queries[i].metric, p.assignment[i]) == key && Known(known, key.0)
    ensures GroupOf(p, known, rows[..i], key) == [] && RowSeries(p.queries[i], rows[i]) != []
    ensures rows[i] != [] && StepOf(p, known, rows, key) == rows[i][0].resolution
  {
    var n := |rows| - 1;
    if GroupOf(p, known, rows[..n], key) == [] {
      i := n;
    } else {
      i := StepIsFirst(p, known, rows[..n], key);
      assert rows[..n][..i] == rows[..i];
    }
  }

  /** The inner loop over the results of one query. */
  method AppendRow(q: Query, row: seq<Result>, had: seq<Series>, failures: seq<Failure>)
    returns (series: seq<Series>, errors: seq<Failure>)
    ensures series == had + RowSeries(q, row) && errors == failures + RowFailures(q, row)
  {
    series, errors := had, failures;
    for ndx := 0 to |row|
      invariant series == had + RowSeries(q, row[..ndx]) && errors == failures + RowFailures(q, row[..ndx])
    {
      assert row[..ndx + 1][..ndx] == row[..ndx];
      if row[ndx].error.Some? {
        errors := errors + [Failure(q.metric, q.hostname, row[ndx].error.value)];
      } else {
        series := series + [Series(q.hostname, TypeId(q, ndx), Sanitized(row[ndx]), row[ndx].data)];
      }
    }
    assert row[..|row|] == row;
  }

  predicate Has<T>(data: map<string, map<Scope, T>>, key: Key) {
    key.0 in data && key.1 in data[key.0]
  }

  predicate NoEmptyMetric<T(==)>(data: map<string, map<Scope, T>>) {
    forall m :: m in data ==> data[m] != map[]
  }

  function Scopes<T>(data: map<string, map<Scope, T>>, metric: string): map<Scope, T> {
    if metric in data then data[metric] else map[]
  }

  /** The scopes of one metric, with one of them stored, or deleted again when its group is empty. */
  method PutScope<T>(had: map<Scope, T>, scope: Scope, group: T, empty: bool) returns (scopes: map<Scope, T>)
    ensures scope in scopes <==> !empty
    ensures !empty ==> scopes[scope] == group
    ensures forall t :: t != scope ==> (t in scopes <==> t in had) && (t in had ==> scopes[t] == had[t])
  {
    scopes := had[scope := group];
    if empty {
      scopes := scopes - {scope};
    }
  }

  /** Other metrics have their scopes, and those of the key's metric differ in one scope only. */
  ghost predicate OnlyAt<T>(data: map<string, map<Scope, T>>, more: map<string, map<Scope, T>>, key: Key) {
    && (forall m :: m != key.0 ==> Scopes(more, m) == Scopes(data, m))
    && (forall t :: t != key.1 ==>
          && (t in Scopes(more, key.0) <==> t in Scopes(data, key.0))
          && (t in Scopes(data, key.0) ==> Scopes(more, key.0)[t] == Scopes(data, key.0)[t]))
  }

  lemma OneGroupChanged<T>(data: map<string, map<Scope, T>>, more: map<string, map<Scope, T>>, key: Key)
    requires OnlyAt(data, more, key)
    ensures forall k: Key :: k != key ==> (Has(more, k) <==> Has(data, k))
    ensures forall k: Key :: k != key && Has(data, k) ==> Has(more, k) && more[k.0][k.1] == data[k.0][k.1]
  {
    forall k: Key | k != key
      ensures Has(more, k) <==> Has(data, k)
      ensures Has(data, k) ==> Has(more, k) && more[k.0][k.1] == data[k.0][k.1]
    {
      assert Has(more, k) <==> k.1 in Scopes(more, k.0);
      assert Has(data, k) <==> k.1 in Scopes(data, k.0);
    }
  }

  /** Stores a group, and deletes it again when it is empty, the metric with it when that was its last scope. */
  method Put<T(==)>(data: map<string, map<Scope, T>>, key: Key, group: T, empty: bool)
    returns (more: map<string, map<Scope, T>>)
    requires NoEmptyMetric(data)
    ensures NoEmptyMetric(more)
    ensures Has(more, key) <==> !empty
    ensures !empty ==> more[key.0][key.1] == group
    ensures forall k: Key :: k != key ==> (Has(more, k) <==> Has(data, k))
    ensures forall k: Key :: k != key && Has(data, k) ==> Has(more, k) && more[k.0][k.1] == data[k.0][k.1]
  {
    var scopes := PutScope(Scopes(data, key.0), key.1, group, empty);
    if empty && |scopes| == 0 {
      more := data - {key.0};
    } else {
      more := data[key.0 := scopes];
    }
    assert Scopes(more, key.0) == scopes;
    OneGroupChanged(data, more, key);
  }

  /** A row adds to the group of its query and to no other. */
  lemma GroupStep(p: Plan, known: Option<set<string>>, rows: seq<seq<Result>>, key: Key)
    requires p.Valid() && 0 < |rows| <= |p.queries|
    ensures var n := |rows| - 1;
            var mine := p.KeyAt(n) == key && Known(known, key.0);
            var before := GroupOf(p, known, rows[..n], key);
            && GroupOf(p, known, rows, key) == (if mine then before + RowSeries(p.queries[n], rows[n]) else before)
            && (before != [] ==> StepOf(p, known, rows, key) == StepOf(p, known, rows[..n], key))
            && (before == [] && mine && RowSeries(p.queries[n], rows[n]) != [] ==>
                  StepOf(p, known, rows, key) == FirstResolution(p.queries[n], rows[n]))
  {
  }

  lemma GroupsStep(p: Plan, known: Option<set<string>>, rows: seq<seq<Result>>)
    requires p.Valid() && 0 < |rows| <= |p.queries|
    ensures forall key: Key :: p.KeyAt(|rows| - 1) != key || !Known(known, key.0) ==>
              var n := |rows| - 1;
              && GroupOf(p, known, rows, key) == GroupOf(p, known, rows[..n], key)
              && (GroupOf(p, known, rows, key) != [] ==> StepOf(p, known, rows, key) == StepOf(p, known, rows[..n], key))
  {
    forall key: Key | p.KeyAt(|rows| - 1) != key || !Known(known, key.0)
      ensures var n := |rows| - 1;
              && GroupOf(p, known, rows, key) == GroupOf(p, known, rows[..n], key)
              && (GroupOf(p, known, rows, key) != [] ==> StepOf(p, known, rows, key) == StepOf(p, known, rows[..n], key))
    {
      GroupStep(p, known, rows, key);
    }
  }

  /** The groups are exactly the non-empty ones, and no metric is left without a scope. */
  ghost predicate Grouped(p: Plan, env: Env, rows: seq<seq<Result>>, data: map<string, map<Scope, JobMetric>>)
    requires p.Valid() && |rows| <= |p.queries|
  {
    && NoEmptyMetric(data)
    && (forall key: Key :: Has(data, key) <==> GroupOf(p, Some(env.config.Keys), rows, key) != [])
    && (forall key: Key :: Has(data, key) ==>
          && key.0 in env.config
          && data[key.0][key.1] == JobMetric(env.config[key.0].unit, StepOf(p, Some(env.config.Keys), rows, key),
                                             GroupOf(p, Some(env.config.Keys), rows, key)))
  }

  /** One row of the answer goes into the groups. */
  method AddRow(p: Plan, env: Env, rows: seq<seq<Result>>, i: nat, data: map<string, map<Scope, JobMetric>>,
                errors: seq<Failure>)
    returns (more: map<string, map<Scope, JobMetric>>, failures: seq<Failure>)
    requires p.Valid() && i < |rows| <= |p.queries|
    requires Grouped(p, env, rows[..i], data) && errors == Failures(p, Some(env.config.Keys), rows[..i])
    ensures Grouped(p, env, rows[..i + 1], more) && failures == Failures(p, Some(env.config.Keys), rows[..i + 1])
  {
    hide GroupOf, StepOf, NoEmptyMetric, RowSeries, RowFailures, FirstResolution;
    ghost var known := Some(env.config.Keys);
    ghost var before := rows[..i];
    assert rows[..i + 1][..i] == before;
    GroupsStep(p, known, rows[..i + 1]);
    var query, metric, scope := p.queries[i], p.queries[i].metric, p.assignment[i];
    var key := (metric, scope);
    if metric !in env.config {
      return data, errors;
    }
    GroupStep(p, known, rows[..i + 1], key);
    var mc := env.config[metric];
    var step := if |rows[i]| > 0 then rows[i][0].resolution else mc.timestep;
    var jobMetric := if Has(data, key) then data[metric][scope] else JobMetric(mc.unit, step, []);
    assert jobMetric.series == GroupOf(p, known, before, key);
    var series;
    series, failures := AppendRow(query, rows[i], jobMetric.series, errors);
    assert series == GroupOf(p, known, rows[..i + 1], key);
    FirstOf(query, rows[i]);
    more := Put(data, key, jobMetric.(series := series), |series| == 0);
    assert Has(more, key) ==> more[metric][scope] == JobMetric(mc.unit, StepOf(p, known, rows[..i + 1], key), series);
  }

  lemma FirstOf(q: Query, row: seq<Result>)
    ensures RowSeries(q, row) != [] ==> row != [] && FirstResolution(q, row) == row[0].resolution
  {
  }

  /** An answer with more rows than queries is cut. */
  function Cut(p: Plan, results: seq<seq<Result>>): (rows: seq<seq<Result>>)
    ensures |rows| <= |p.queries| && rows <= results
    ensures |results| <= |p.queries| ==> rows == results
    ensures |results| > |p.queries| ==> |rows| == |p.queries|
  {
    if |results| > |p.queries| then results[..|p.queries|] else results
  }

  /** LoadData after the request. */
  method LoadData(p: Plan, env: Env, results: seq<seq<Result>>)
    returns (data: map<string, map<Scope, JobMetric>>, errors: seq<Failure>)
    requires p.Valid()
    ensures Grouped(p, env, Cut(p, results), data) && errors == Failures(p, Some(env.config.Keys), Cut(p, results))
    ensures var rows, known := Cut(p, results), Some(env.config.Keys);
            && (forall m :: m in data ==> data[m] != map[])
            && (forall m, t :: m in data && t in data[m] <==> GroupOf(p, known, rows, (m, t)) != [])
            && (forall m, t :: m in data && t in data[m] ==>
                  && m in env.config && data[m][t].unit == env.config[m].unit
                  && data[m][t].timestep == StepOf(p, known, rows, (m, t))
                  && data[m][t].series == GroupOf(p, known, rows, (m, t)))
  {
    hide Grouped, GroupOf, StepOf;
    var used := results;
    if |used| > |p.queries| {
      used := used[..|p.queries|];
    }
    data, errors := map[], [];
    NoGroups(p, env, used);
    for i := 0 to |used|
      invariant Grouped(p, env, used[..i], data) && errors == Failures(p, Some(env.config.Keys), used[..i])
    {
      data, errors := AddRow(p, env, used, i, data, errors);
    }
    assert used[..|used|] == used;
    GroupedSays(p, env, used, data);
  }

  lemma GroupedSays(p: Plan, env: Env, rows: seq<seq<Result>>, data: map<string, map<Scope, JobMetric>>)
    requires p.Valid() && |rows| <= |p.queries| && Grouped(p, env, rows, data)
    ensures forall m :: m in data ==> data[m] != map[]
    ensures forall m, t :: m in data && t in data[m] <==> GroupOf(p, Some(env.config.Keys), rows, (m, t)) != []
    ensures forall m, t :: m in data && t in data[m] ==>
              && m in env.config && data[m][t].unit == env.config[m].unit
              && data[m][t].timestep == StepOf(p, Some(env.config.Keys), rows, (m, t))
              && data[m][t].series == GroupOf(p, Some(env.config.Keys), rows, (m, t))
  {
    hide GroupOf, StepOf;
    forall m, t ensures m in data && t in data[m] <==> GroupOf(p, Some(env.config.Keys), rows, (m, t)) != [] {
      assert m in data && t in data[m] <==> Has(data, (m, t));
    }
    forall m, t | m in data && t in data[m]
      ensures data[m][t] == JobMetric(env.config[m].unit, StepOf(p, Some(env.config.Keys), rows, (m, t)),
                                      GroupOf(p, Some(env.config.Keys), rows, (m, t)))
    {
      assert Has(data, (m, t));
    }
  }

  lemma NoGroups(p: Plan, env: Env, rows: seq<seq<Result>>)
    requires p.Valid() && |rows| <= |p.queries|
    ensures Grouped(p, env, rows[..0], map[])
  {
  }

  // ----- statistics only

  /** The statistics of a list of series, without the data. */
  function Stats(s: seq<Series>): (r: seq<ScopedStats>)
    ensures |r| == |s|
  {
    seq(|s|, i requires 0 <= i < |s| => ScopedStats(s[i].hostname, s[i].id, s[i].statistics))
  }

  lemma StatsAt(s: seq<Series>, i: nat)
    requires i < |s|
    ensures Stats(s)[i] == ScopedStats(s[i].hostname, s[i].id, s[i].statistics)
  {
  }

  lemma StatsConcat(a: seq<Series>, b: seq<Series>)
    ensures Stats(a + b) == Stats(a) + Stats(b)
  {
  }

  method AppendStats(q: Query, row: seq<Result>, had: seq<ScopedStats>, failures: seq<Failure>)
    returns (stats: seq<ScopedStats>, errors: seq<Failure>)
    ensures stats == had + Stats(RowSeries(q, row)) && errors == failures + RowFailures(q, row)
  {
    stats, errors := had, failures;
    for ndx := 0 to |row|
      invariant stats == had + Stats(RowSeries(q, row[..ndx])) && errors == failures + RowFailures(q, row[..ndx])
    {
      assert row[..ndx + 1][..ndx] == row[..ndx];
      if row[ndx].error.Some? {
        errors := errors + [Failure(q.metric, q.hostname, row[ndx].error.value)];
      } else {
        StatsConcat(RowSeries(q, row[..ndx]), [Series(q.hostname, TypeId(q, ndx), Sanitized(row[ndx]), row[ndx].data)]);
        stats := stats + [ScopedStats(q.hostname, TypeId(q, ndx), Sanitized(row[ndx]))];
      }
    }
    assert row[..|row|] == row;
  }

  ghost predicate GroupedStats(p: Plan, rows: seq<seq<Result>>, data: map<string, map<Scope, seq<ScopedStats>>>)
    requires p.Valid() && |rows| <= |p.queries|
  {
    && NoEmptyMetric(data)
    && (forall key: Key :: Has(data, key) <==> GroupOf(p, None, rows, key) != [])
    && (forall key: Key :: Has(data, key) ==> data[key.0][key.1] == Stats(GroupOf(p, None, rows, key)))
  }

  method AddStats(p: Plan, rows: seq<seq<Result>>, i: nat, data: map<string, map<Scope, seq<ScopedStats>>>,
                  errors: seq<Failure>)
    returns (more: map<string, map<Scope, seq<ScopedStats>>>, failures: seq<Failure>)
    requires p.Valid() && i < |rows| && i < |p.queries|
    requires GroupedStats(p, rows[..i], data) && errors == Failures(p, None, rows[..i])
    ensures GroupedStats(p, rows[..i + 1], more) && failures == Failures(p, None, rows[..i + 1])
  {
    hide GroupOf, StepOf, NoEmptyMetric, RowSeries, RowFailures, Stats;
    ghost var before := rows[..i];
    assert rows[..i + 1][..i] == before;
    GroupsStep(p, None, rows[..i + 1]);
    var query := p.queries[i];
    var key := (query.metric, p.assignment[i]);
    GroupStep(p, None, rows[..i + 1], key);
    NoStats();
    var had := if Has(data, key) then data[key.0][key.1] else [];
    assert had == Stats(GroupOf(p, None, before, key));
    var stats;
    stats, failures := AppendStats(query, rows[i], had, errors);
    StatsConcat(GroupOf(p, None, before, key), RowSeries(query, rows[i]));
    assert stats == Stats(GroupOf(p, None, rows[..i + 1], key));
    more := Put(data, key, stats, |stats| == 0);
  }

  lemma NoStats()
    ensures Stats([]) == []
  {
  }

  /** LoadScopedStats after the request: it has no check, so more rows than queries are an index out of range. */
  method LoadScopedStats(p: Plan, rows: seq<seq<Result>>)
    returns (r: Option<(map<string, map<Scope, seq<ScopedStats>>>, seq<Failure>)>)
    requires p.Valid()
    ensures r.None? <==> |rows| > |p.queries|
    ensures r.Some? ==> GroupedStats(p, rows, r.value.0) && r.value.1 == Failures(p, None, rows)
    ensures r.Some? ==>
              var data := r.value.0;
              && (forall m, t :: m in data && t in data[m] <==> GroupOf(p, None, rows, (m, t)) != [])
              && (forall m, t :: m in data && t in data[m] ==>
                    var group := GroupOf(p, None, rows, (m, t));
                    && |data[m][t]| == |group|
                    && forall i :: 0 <= i < |group| ==>
                         data[m][t][i] == ScopedStats(group[i].hostname, group[i].id, group[i].statistics))
  {
    hide GroupedStats, GroupOf, Stats;
    var data: map<string, map<Scope, seq<ScopedStats>>>, errors: seq<Failure> := map[], [];
    NoGroupedStats(p, rows);
    for i := 0 to |rows|
      invariant i <= |p.queries|
      invariant GroupedStats(p, rows[..i], data) && errors == Failures(p, None, rows[..i])
    {
      if i == |p.queries| {
        return None;
      }
      data, errors := AddStats(p, rows, i, data, errors);
    }
    assert rows[..|rows|] == rows;
    StatsSay(p, rows, data);
    return Some((data, errors));
  }

  lemma StatsSay(p: Plan, rows: seq<seq<Result>>, data: map<string, map<Scope, seq<ScopedStats>>>)
    requires p.Valid() && |rows| <= |p.queries| && GroupedStats(p, rows, data)
    ensures forall m, t :: m in data && t in data[m] <==> GroupOf(p, None, rows, (m, t)) != []
    ensures forall m, t :: m in data && t in data[m] ==>
              var group := GroupOf(p, None, rows, (m, t));
              && |data[m][t]| == |group|
              && forall i :: 0 <= i < |group| ==>
                   data[m][t][i] == ScopedStats(group[i].hostname, group[i].id, group[i].statistics)
  {
    hide GroupOf, Stats;
    forall m, t ensures m in data && t in data[m] <==> GroupOf(p, None, rows, (m, t)) != [] {
      assert m in data && t in data[m] <==> Has(data, (m, t));
    }
    forall m, t | m in data && t in data[m]
      ensures var group := GroupOf(p, None, rows, (m, t));
              && |data[m][t]| == |group|
              && forall i :: 0 <= i < |group| ==>
                   data[m][t][i] == ScopedStats(group[i].hostname, group[i].id, group[i].statistics)
    {
      assert Has(data, (m, t));
      var group := GroupOf(p, None, rows, (m, t));
      forall i | 0 <= i < |group|
        ensures data[m][t][i] == ScopedStats(group[i].hostname, group[i].id, group[i].statistics)
      {
        StatsAt(group, i);
      }
    }
  }

  lemma NoGroupedStats(p: Plan, rows: seq<seq<Result>>)
    requires p.Valid()
    ensures GroupedStats(p, rows[..0], map[])
  {
  }

  // ----- the two loaders agree

  lemma {:induction false} AllKnown(p: Plan, known: set<string>, rows: seq<seq<Result>>, key: Key)
    requires p.Valid() && |rows| <= |p.queries| && forall q :: q in p.queries ==> q.metric in known
    ensures GroupOf(p, Some(known), rows, key) == GroupOf(p, None, rows, key)
    ensures Failures(p, Some(known), rows) == Failures(p, None, rows)
  {
    if rows == [] {
    } else {
      var n := |rows| - 1;
      assert p.queries[n] in p.queries;
      AllKnown(p, known, rows[..n], key);
    }
  }

  lemma PlanKnown(env: Env, job: Job, node: seq<int>, metrics: seq<string>, scopes: seq<Scope>, resolution: int, p: Plan)
    requires NamesMetric(env) && Asked(env, job, node, metrics, scopes).Some?
    requires Parallel(Asked(env, job, node, metrics, scopes).value, resolution, p.queries, p.assignment)
    ensures p.Valid() && forall q :: q in p.queries ==> q.metric in env.config.Keys
  {
    hide NamesMetric;
    var asked := Asked(env, job, node, metrics, scopes).value;
    AskedConfigured(env, job, node, metrics, scopes);
    forall q | q in p.queries ensures q.metric in env.config.Keys {
      var i :| 0 <= i < |p.queries| && p.queries[i] == q;
      assert asked[i] in asked;
      ConfigOf(env, job, q.metric);
    }
  }

  /** For the plan of buildQueries and any answer no longer than it, LoadData and LoadScopedStats have the same
      groups, and in each group the same hosts, ids and statistics in the same order. */
  lemma LoadersAgree(env: Env, job: Job, node: seq<int>, metrics: seq<string>, scopes: seq<Scope>, resolution: int,
                     p: Plan, rows: seq<seq<Result>>, data: map<string, map<Scope, JobMetric>>,
                     stats: map<string, map<Scope, seq<ScopedStats>>>)
    requires NamesMetric(env) && Asked(env, job, node, metrics, scopes).Some?
    requires Parallel(Asked(env, job, node, metrics, scopes).value, resolution, p.queries, p.assignment)
    requires |rows| <= |p.queries| && Grouped(p, env, rows, data) && GroupedStats(p, rows, stats)
    ensures forall key: Key :: Has(data, key) <==> Has(stats, key)
    ensures forall key: Key :: Has(data, key) ==> Stats(data[key.0][key.1].series) == stats[key.0][key.1]
    ensures Failures(p, Some(env.config.Keys), rows) == Failures(p, None, rows)
  {
    hide NamesMetric, Asked, Parallel, GroupOf, StepOf, Stats, Failures;
    PlanKnown(env, job, node, metrics, scopes, resolution, p);
    AllKnown(p, env.config.Keys, rows, ("", ""));
    forall key: Key ensures GroupOf(p, Some(env.config.Keys), rows, key) == GroupOf(p, None, rows, key) {
      AllKnown(p, env.config.Keys, rows, key);
    }
  }

  /** Nothing is lost and nothing invented: the members of a group are the series of the rows with its key. */
  lemma {:induction false} GroupMembers(p: Plan, known: Option<set<string>>, rows: seq<seq<Result>>, key: Key, s: Series)
    requires p.Valid() && |rows| <= |p.queries|
    ensures s in GroupOf(p, known, rows, key) <==>
            Known(known, key.0) && exists i :: 0 <= i < |rows| && p.KeyAt(i) == key && s in RowSeries(p.queries[i], rows[i])
  {
    hide RowSeries;
    if rows == [] {
    } else {
      var n := |rows| - 1;
      GroupMembers(p, known, rows[..n], key, s);
      if i :| 0 <= i < n && p.KeyAt(i) == key && s in RowSeries(p.queries[i], rows[..n][i]) {
        assert rows[..n][i] == rows[i];
      }
      if i :| 0 <= i < |rows| && p.KeyAt(i) == key && s in RowSeries(p.queries[i], rows[i]) {
        assert i < n ==> rows[..n][i] == rows[i];
      }
    }
  }

  /** The errors reported are those of the rows of known metrics, row by row in their order. */
  lemma {:induction false} FailuresAt(p: Plan, known: Option<set<string>>, rows: seq<seq<Result>>, i: nat)
    requires p.Valid() && i < |rows| <= |p.queries|
    ensures var before, mine := Failures(p, known, rows[..i]), RowFailures(p.queries[i], rows[i]);
            (if known.None? || p.queries[i].metric in known.value then before + mine else before) <= Failures(p, known, rows)
    ensures forall x :: x in Failures(p, known, rows) ==>
              exists k :: 0 <= k < |rows| && (known.None? || p.queries[k].metric in known.value)
                          && x in RowFailures(p.queries[k], rows[k])
    decreases |rows|
  {
    hide RowFailures;
    var n := |rows| - 1;
    if n == 0 {
    } else {
      FailuresAt(p, known, rows[..n], if i < n then i else 0);
      forall x | x in Failures(p, known, rows[..n])
        ensures exists k :: 0 <= k < |rows| && (known.None? || p.queries[k].metric in known.value)
                            && x in RowFailures(p.queries[k], rows[k])
      {
        var k :| 0 <= k < n && (known.None? || p.queries[k].metric in known.value)
                 && x in RowFailures(p.queries[k], rows[..n][k]);
        assert rows[..n][k] == rows[k];
      }
      assert i < n ==> rows[..n][..i] == rows[..i];
    }
  }

  /** Every result is either a series or a failure. */
  lemma {:induction false} RowSplits(q: Query, row: seq<Result>)
    ensures |RowSeries(q, row)| + |RowFailures(q, row)| == |row|
  {
    if row == [] {
    } else {
      RowSplits(q, row[..|row| - 1]);
    }
  }
}
