/** Job statistics computed over all jobs and per group, and how the groups add up to the whole. */
module GroupedStats {
  import opened Prelude
  import opened StatsModel

  /** A selected job; `group` is the value of the column to group by. */
  datatype Job = Job(group: Option<string>, user: string, running: bool, start: int, duration: int,
                     nodes: nat, cores: Option<nat>, accs: Option<nat>)

  /** The clock value, the threshold of short jobs and the requested fields (None: all) of one query. */
  datatype Query = Query(now: int, short: int, fields: Option<set<string>>)

  predicate Needed(f: Field, q: Query) {
    f == TotalJobs || q.fields.None? || Name(f) in q.fields.value
  }

  function Age(j: Job, now: int): int {
    if j.running then now - j.start else j.duration
  }

  /** SUM skips NULL. */
  function OrZero(x: Option<nat>): nat {
    if x.Some? then x.value else 0
  }

  /** What a job adds to the SUM or COUNT behind a column. */
  function Weight(f: Field, j: Job, q: Query): int {
    match f
    case TotalJobs => 1
    case TotalUsers => 0
    case TotalWalltime => Age(j, q.now)
    case TotalNodes => j.nodes
    case TotalNodeHours => Age(j, q.now) * j.nodes
    case TotalCores => OrZero(j.cores)
    case TotalCoreHours => Age(j, q.now) * OrZero(j.cores)
    case TotalAccs => OrZero(j.accs)
    case TotalAccHours => Age(j, q.now) * OrZero(j.accs)
    case RunningJobs => if j.running then 1 else 0
    case ShortJobs => if j.duration < q.short then 1 else 0
  }

  predicate InHours(f: Field) {
    f.TotalWalltime? || f.TotalNodeHours? || f.TotalCoreHours? || f.TotalAccHours?
  }

  function Total(f: Field, s: seq<Job>, q: Query): int {
    if s == [] then 0 else Weight(f, s[0], q) + Total(f, s[1..], q)
  }

  function Users(s: seq<Job>): set<string> {
    set j | j in s :: j.user
  }

  /** Whole hours; SQLite divides integers towards zero. */
  function Hours(seconds: int): int {
    if seconds >= 0 then seconds / 3600 else -((-seconds) / 3600)
  }

  /** One column of buildStatsQuery over the jobs of one result row. */
  function Column(f: Field, s: seq<Job>, q: Query): int {
    if !Needed(f, q) then 0
    else if f == TotalUsers then |Users(s)|
    else if InHours(f) then Hours(Total(f, s, q))
    else Total(f, s, q)
  }

  function OfGroup(s: seq<Job>, g: Option<string>): seq<Job> {
    if s == [] then []
    else if s[0].group == g then [s[0]] + OfGroup(s[1..], g)
    else OfGroup(s[1..], g)
  }

  /** The jobs whose group column is not NULL. */
  function Named(s: seq<Job>): seq<Job> {
    if s == [] then []
    else if s[0].group.Some? then [s[0]] + Named(s[1..])
    else Named(s[1..])
  }

  /** The groups of s, each once, in the order the database delivers them. */
  ghost predicate GroupOrder(gs: seq<Option<string>>, s: seq<Job>) {
    && (forall i, k :: 0 <= i < k < |gs| ==> gs[i] != gs[k])
    && (forall j :: j in s ==> j.group in gs)
    && (forall g :: g in gs ==> exists j :: j in s && j.group == g)
  }

  function StatsOf(id: string, s: seq<Job>, q: Query): Stats {
    Stats(id, Column(TotalJobs, s, q), Column(TotalUsers, s, q), Column(TotalWalltime, s, q), Column(TotalNodes, s, q),
          Column(TotalNodeHours, s, q), Column(TotalCores, s, q), Column(TotalCoreHours, s, q), Column(TotalAccs, s, q),
          Column(TotalAccHours, s, q), Column(RunningJobs, s, q), Column(ShortJobs, s, q))
  }

  /** The records of the groups with a name. */
  function Grouped(gs: seq<Option<string>>, s: seq<Job>, q: Query): seq<Stats> {
    if gs == [] then []
    else
      var init, g := gs[..|gs| - 1], gs[|gs| - 1];
      if g.Some? then Grouped(init, s, q) + [StatsOf(g.value, OfGroup(s, g), q)] else Grouped(init, s, q)
  }

  function NamedGroups(gs: seq<Option<string>>): nat {
    if gs == [] then 0 else NamedGroups(gs[..|gs| - 1]) + (if gs[|gs| - 1].Some? then 1 else 0)
  }

  lemma {:induction false} GroupedLength(gs: seq<Option<string>>, s: seq<Job>, q: Query)
    ensures |Grouped(gs, s, q)| == NamedGroups(gs)
  {
    hide StatsOf;
    if gs == [] {
    } else {
      GroupedLength(gs[..|gs| - 1], s, q);
    }
  }

  /** The record of the i-th group stands behind those of the named groups before it. */
  lemma {:induction false} GroupedAt(gs: seq<Option<string>>, s: seq<Job>, q: Query, i: nat)
    requires i < |gs| && gs[i].Some?
    ensures NamedGroups(gs[..i]) < |Grouped(gs, s, q)|
    ensures Grouped(gs, s, q)[NamedGroups(gs[..i])] == StatsOf(gs[i].value, OfGroup(s, gs[i]), q)
  {
    hide StatsOf;
    var init := gs[..|gs| - 1];
    GroupedLength(init, s, q);
    if i == |init| {
    } else {
      GroupedAt(init, s, q, i);
      assert init[..i] == gs[..i];
    }
  }

  /** The record has the group's name, and in each field the column of that name over the group's jobs. */
  ghost predicate RecordOf(r: Stats, name: string, s: seq<Job>, q: Query) {
    && r.id == name
    && r.totalJobs == Column(TotalJobs, s, q) && r.totalUsers == Column(TotalUsers, s, q)
    && r.totalWalltime == Column(TotalWalltime, s, q) && r.totalNodes == Column(TotalNodes, s, q)
    && r.totalNodeHours == Column(TotalNodeHours, s, q) && r.totalCores == Column(TotalCores, s, q)
    && r.totalCoreHours == Column(TotalCoreHours, s, q) && r.totalAccs == Column(TotalAccs, s, q)
    && r.totalAccHours == Column(TotalAccHours, s, q) && r.runningJobs == Column(RunningJobs, s, q)
    && r.shortJobs == Column(ShortJobs, s, q)
  }

  lemma RecordIs(name: string, s: seq<Job>, q: Query)
    ensures RecordOf(StatsOf(name, s, q), name, s, q)
  {
    hide Column;
  }

  method JobsStatsGrouped(gs: seq<Option<string>>, s: seq<Job>, q: Query) returns (stats: seq<Stats>)
    ensures stats == Grouped(gs, s, q)
    ensures |stats| == NamedGroups(gs)
    ensures forall i :: 0 <= i < |gs| && gs[i].Some? ==>
              && NamedGroups(gs[..i]) < |stats|
              && RecordOf(stats[NamedGroups(gs[..i])], gs[i].value, OfGroup(s, gs[i]), q)
  {
    hide StatsOf, RecordOf;
    stats := [];
    for i := 0 to |gs|
      invariant stats == Grouped(gs[..i], s, q)
    {
      assert gs[..i + 1][..i] == gs[..i];
      if gs[i].Some? {
        stats := stats + [StatsOf(gs[i].value, OfGroup(s, gs[i]), q)];
      }
    }
    assert gs[..|gs|] == gs;
    GroupedLength(gs, s, q);
    forall i | 0 <= i < |gs| && gs[i].Some?
      ensures NamedGroups(gs[..i]) < |stats| && RecordOf(stats[NamedGroups(gs[..i])], gs[i].value, OfGroup(s, gs[i]), q)
    {
      GroupedAt(gs, s, q, i);
      RecordIs(gs[i].value, OfGroup(s, gs[i]), q);
    }
  }

  // ----- what a column means

  /** What one more job adds to each sum: itself, its age, its nodes, cores and accelerators (none where the column is
      NULL), and their products with its age, which is the time since its start while it runs. */
  lemma OneMoreJob(s: seq<Job>, j: Job, q: Query)
    ensures var age := if j.running then q.now - j.start else j.duration;
            var cores, accs := if j.cores.Some? then j.cores.value else 0, if j.accs.Some? then j.accs.value else 0;
            && Total(TotalJobs, [j] + s, q) == 1 + Total(TotalJobs, s, q)
            && Total(TotalWalltime, [j] + s, q) == age + Total(TotalWalltime, s, q)
            && Total(TotalNodes, [j] + s, q) == j.nodes + Total(TotalNodes, s, q)
            && Total(TotalNodeHours, [j] + s, q) == age * j.nodes + Total(TotalNodeHours, s, q)
            && Total(TotalCores, [j] + s, q) == cores + Total(TotalCores, s, q)
            && Total(TotalCoreHours, [j] + s, q) == age * cores + Total(TotalCoreHours, s, q)
            && Total(TotalAccs, [j] + s, q) == accs + Total(TotalAccs, s, q)
            && Total(TotalAccHours, [j] + s, q) == age * accs + Total(TotalAccHours, s, q)
            && Total(RunningJobs, [j] + s, q) == (if j.running then 1 else 0) + Total(RunningJobs, s, q)
            && Total(ShortJobs, [j] + s, q) == (if j.duration < q.short then 1 else 0) + Total(ShortJobs, s, q)
    ensures forall f :: Total(f, [], q) == 0
  {
    assert ([j] + s)[1..] == s;
  }

  /** A requested column is its sum, the number of different users, or for the four hour columns the whole hours in its
      sum, cut towards zero; any other is 0. */
  lemma ColumnMeans(f: Field, s: seq<Job>, q: Query)
    ensures f != TotalJobs && q.fields.Some? && Name(f) !in q.fields.value ==> Column(f, s, q) == 0
    ensures f == TotalJobs || q.fields.None? || Name(f) in q.fields.value ==>
              var c, x := Column(f, s, q), Total(f, s, q);
              if f == TotalUsers then c == |set j | j in s :: j.user|
              else if f in {TotalWalltime, TotalNodeHours, TotalCoreHours, TotalAccHours} then
                if x >= 0 then 3600 * c <= x < 3600 * c + 3600 else 3600 * c - 3600 < x <= 3600 * c && c <= 0
              else c == x
  {
    hide Total;
    assert Users(s) == set j | j in s :: j.user;
  }

  /** JobsStats scans every column and copies all but the node, core and accelerator totals. */
  function Overall(s: seq<Job>, q: Query): Stats {
    StatsOf("", s, q).(totalNodes := 0, totalCores := 0, totalAccs := 0)
  }

  /** Apart from these three fields the overall record has the columns of all jobs. */
  lemma OverallIs(s: seq<Job>, q: Query)
    ensures RecordOf(Overall(s, q).(totalNodes := Column(TotalNodes, s, q), totalCores := Column(TotalCores, s, q),
                                    totalAccs := Column(TotalAccs, s, q)), "", s, q)
    ensures Overall(s, q).totalNodes == Overall(s, q).totalCores == Overall(s, q).totalAccs == 0
  {
    hide Column;
  }

  /** A column added up over the records of the groups. */
  function SumOf(f: Field, rows: seq<Stats>): int {
    if rows == [] then 0 else SumOf(f, rows[..|rows| - 1]) + Get(rows[|rows| - 1], f)
  }

  // ----- the groups partition the named jobs

  /** The sum over named groups of the column's seconds, counts or units. */
  function SumTotals(f: Field, gs: seq<Option<string>>, s: seq<Job>, q: Query): int {
    if gs == [] then 0
    else
      var g := gs[|gs| - 1];
      SumTotals(f, gs[..|gs| - 1], s, q) + (if g.Some? then Total(f, OfGroup(s, g), q) else 0)
  }

  lemma {:induction false} OneGroupGrows(f: Field, gs: seq<Option<string>>, s: seq<Job>, q: Query)
    requires s != []
    requires forall i, k :: 0 <= i < k < |gs| ==> gs[i] != gs[k]
    ensures SumTotals(f, gs, s, q) == SumTotals(f, gs, s[1..], q)
              + (if s[0].group.Some? && s[0].group in gs then Weight(f, s[0], q) else 0)
  {
    hide Weight;
    if gs == [] {
    } else {
      var init, g := gs[..|gs| - 1], gs[|gs| - 1];
      OneGroupGrows(f, init, s, q);
      assert s[0].group in gs <==> s[0].group in init || s[0].group == g;
      assert ([s[0]] + OfGroup(s[1..], g))[1..] == OfGroup(s[1..], g);
    }
  }

  lemma {:induction false} GroupsPartition(f: Field, gs: seq<Option<string>>, s: seq<Job>, q: Query)
    requires forall i, k :: 0 <= i < k < |gs| ==> gs[i] != gs[k]
    requires forall j :: j in s ==> j.group in gs
    ensures SumTotals(f, gs, s, q) == Total(f, Named(s), q)
  {
    hide Weight;
    if s == [] {
      NothingToSum(f, gs, q);
    } else {
      assert s[0] in s;
      OneGroupGrows(f, gs, s, q);
      GroupsPartition(f, gs, s[1..], q);
      assert ([s[0]] + Named(s[1..]))[1..] == Named(s[1..]);
    }
  }

  lemma {:induction false} NothingToSum(f: Field, gs: seq<Option<string>>, q: Query)
    ensures SumTotals(f, gs, [], q) == 0
  {
    if gs == [] {
    } else {
      NothingToSum(f, gs[..|gs| - 1], q);
    }
  }

  lemma SumSnoc(f: Field, rows: seq<Stats>, x: Stats)
    ensures SumOf(f, rows + [x]) == SumOf(f, rows) + Get(x, f)
  {
    hide Get;
    assert (rows + [x])[..|rows|] == rows;
  }

  lemma ColumnOf(f: Field, id: string, s: seq<Job>, q: Query)
    ensures Get(StatsOf(id, s, q), f) == Column(f, s, q)
  {
    hide Column;
  }

  /** Unrequested columns are 0 in every record. */
  lemma {:induction false} Unneeded(f: Field, gs: seq<Option<string>>, s: seq<Job>, q: Query)
    requires !Needed(f, q)
    ensures SumOf(f, Grouped(gs, s, q)) == 0
  {
    hide StatsOf, Get, Needed;
    if gs == [] {
    } else {
      var init, g := gs[..|gs| - 1], gs[|gs| - 1];
      Unneeded(f, init, s, q);
      if g.Some? {
        ColumnOf(f, g.value, OfGroup(s, g), q);
        SumSnoc(f, Grouped(init, s, q), StatsOf(g.value, OfGroup(s, g), q));
      }
    }
  }

  lemma PlainColumn(f: Field, s: seq<Job>, q: Query)
    requires !InHours(f) && f != TotalUsers
    ensures Needed(f, q) ==> Column(f, s, q) == Total(f, s, q)
  {
    hide Needed, Total;
  }

  lemma {:induction false} SumIsTotals(f: Field, gs: seq<Option<string>>, s: seq<Job>, q: Query)
    requires !InHours(f) && f != TotalUsers && Needed(f, q)
    ensures SumOf(f, Grouped(gs, s, q)) == SumTotals(f, gs, s, q)
  {
    hide StatsOf, Total, Get, Needed, Column, OfGroup, InHours;
    if gs == [] {
    } else {
      var init, g := gs[..|gs| - 1], gs[|gs| - 1];
      SumIsTotals(f, init, s, q);
      if g.Some? {
        ColumnOf(f, g.value, OfGroup(s, g), q);
        PlainColumn(f, OfGroup(s, g), q);
        SumSnoc(f, Grouped(init, s, q), StatsOf(g.value, OfGroup(s, g), q));
      }
    }
  }

  /** Counts and units of the groups add up to those of the jobs that have a group. */
  lemma GroupsAddUp(f: Field, gs: seq<Option<string>>, s: seq<Job>, q: Query)
    requires GroupOrder(gs, s) && !InHours(f) && f != TotalUsers
    ensures SumOf(f, Grouped(gs, s, q)) == Column(f, Named(s), q)
  {
    hide SumTotals, Grouped, Total;
    if Needed(f, q) {
      SumIsTotals(f, gs, s, q);
    } else {
      Unneeded(f, gs, s, q);
    }
    GroupsPartition(f, gs, s, q);
  }

  // ----- against the overall record

  lemma {:induction false} NamedAll(s: seq<Job>)
    ensures (forall j :: j in s ==> j.group.Some?) <==> Named(s) == s
    ensures |Named(s)| == |s| <==> Named(s) == s
    ensures |Named(s)| <= |s|
  {
    if s == [] {
    } else {
      NamedAll(s[1..]);
      assert s == [s[0]] + s[1..];
      assert forall j :: j in s <==> j == s[0] || j in s[1..];
    }
  }

  lemma {:induction false} TotalJobsIsLength(s: seq<Job>, q: Query)
    ensures Total(TotalJobs, s, q) == |s|
  {
    if s == [] {
    } else {
      TotalJobsIsLength(s[1..], q);
    }
  }

  /** Job, running and short counts of the groups are those of the overall record when no group column is NULL;
      the job count tells exactly. */
  lemma CountsMatchOverall(gs: seq<Option<string>>, s: seq<Job>, q: Query)
    requires GroupOrder(gs, s)
    ensures SumOf(TotalJobs, Grouped(gs, s, q)) == Overall(s, q).totalJobs <==> forall j :: j in s ==> j.group.Some?
    ensures (forall j :: j in s ==> j.group.Some?) ==>
              && SumOf(RunningJobs, Grouped(gs, s, q)) == Overall(s, q).runningJobs
              && SumOf(ShortJobs, Grouped(gs, s, q)) == Overall(s, q).shortJobs
  {
    hide GroupOrder, Grouped, SumOf, Total, Users, Hours;
    GroupsAddUp(TotalJobs, gs, s, q);
    GroupsAddUp(RunningJobs, gs, s, q);
    GroupsAddUp(ShortJobs, gs, s, q);
    NamedAll(s);
    TotalJobsIsLength(s, q);
    TotalJobsIsLength(Named(s), q);
  }

  /** The node total of the groups is not the overall one, which is never filled in: they agree only at 0. The
      same holds for cores and accelerators. */
  lemma UnitsMissOverall(f: Field, gs: seq<Option<string>>, s: seq<Job>, q: Query)
    requires GroupOrder(gs, s) && f in {TotalNodes, TotalCores, TotalAccs}
    ensures SumOf(f, Grouped(gs, s, q)) == Get(Overall(s, q), f) <==>
            !Needed(f, q) || forall j :: j in Named(s) ==> Weight(f, j, q) == 0
  {
    hide GroupOrder, Grouped, SumOf, Users, Hours, Named, Weight;
    GroupsAddUp(f, gs, s, q);
    ZeroTotal(f, Named(s), q);
  }

  lemma {:induction false} ZeroTotal(f: Field, s: seq<Job>, q: Query)
    requires f in {TotalNodes, TotalCores, TotalAccs}
    ensures Total(f, s, q) >= 0
    ensures Total(f, s, q) == 0 <==> forall j :: j in s ==> Weight(f, j, q) == 0
  {
    if s == [] {
    } else {
      ZeroTotal(f, s[1..], q);
      assert forall j :: j in s <==> j == s[0] || j in s[1..];
    }
  }

  /** The requested fields have no influence on the sums. */
  lemma {:induction false} SameTotal(f: Field, s: seq<Job>, q: Query, r: Query)
    requires q.now == r.now && q.short == r.short
    ensures Total(f, s, q) == Total(f, s, r)
  {
    if s == [] {
    } else {
      SameTotal(f, s[1..], q, r);
    }
  }

  // ----- hours

  lemma {:induction false} TotalNonNegative(f: Field, s: seq<Job>, q: Query)
    requires forall j :: j in s ==> Age(j, q.now) >= 0
    ensures Total(f, s, q) >= 0
  {
    if s == [] {
    } else {
      assert s[0] in s && forall j :: j in s[1..] ==> j in s;
      WeightNonNegative(f, s[0], q);
      TotalNonNegative(f, s[1..], q);
    }
  }

  lemma WeightNonNegative(f: Field, j: Job, q: Query)
    requires Age(j, q.now) >= 0
    ensures Weight(f, j, q) >= 0
  {
    ProductNonNegative(Age(j, q.now), j.nodes);
    ProductNonNegative(Age(j, q.now), OrZero(j.cores));
    ProductNonNegative(Age(j, q.now), OrZero(j.accs));
  }

  lemma ProductNonNegative(a: nat, b: nat)
    ensures a * b >= 0
  {
  }

  lemma {:induction false} OfGroupMembers(s: seq<Job>, g: Option<string>)
    ensures forall j :: j in OfGroup(s, g) <==> j in s && j.group == g
  {
    if s == [] {
    } else {
      OfGroupMembers(s[1..], g);
      assert forall j :: j in s <==> j == s[0] || j in s[1..];
    }
  }

  /** The seconds that are cut off; they have the sign of x. */
  function Cut(x: int): int {
    x - 3600 * Hours(x)
  }

  /** The seconds that are cut off group by group. */
  function SumCuts(f: Field, gs: seq<Option<string>>, s: seq<Job>, q: Query): int {
    if gs == [] then 0
    else
      var g := gs[|gs| - 1];
      SumCuts(f, gs[..|gs| - 1], s, q) + (if g.Some? then Cut(Total(f, OfGroup(s, g), q)) else 0)
  }

  lemma HourColumn(f: Field, s: seq<Job>, q: Query)
    requires InHours(f) && Needed(f, q)
    ensures Column(f, s, q) == Hours(Total(f, s, q))
  {
    hide Needed, Total;
  }

  /** Hours and cut seconds of the groups are the seconds of the whole. */
  lemma {:induction false} HoursAndCuts(f: Field, gs: seq<Option<string>>, s: seq<Job>, q: Query)
    requires InHours(f) && Needed(f, q)
    ensures 3600 * SumOf(f, Grouped(gs, s, q)) + SumCuts(f, gs, s, q) == SumTotals(f, gs, s, q)
  {
    hide StatsOf, Total, Get, Needed, InHours, Column, OfGroup, Hours;
    if gs == [] {
    } else {
      var init, g := gs[..|gs| - 1], gs[|gs| - 1];
      HoursAndCuts(f, init, s, q);
      if g.Some? {
        ColumnOf(f, g.value, OfGroup(s, g), q);
        HourColumn(f, OfGroup(s, g), q);
        SumSnoc(f, Grouped(init, s, q), StatsOf(g.value, OfGroup(s, g), q));
      }
    }
  }

  lemma CutSign(x: int)
    ensures x >= 0 ==> 0 <= Cut(x) <= 3599
    ensures x <= 0 ==> -3599 <= Cut(x) <= 0
  {
  }

  /** A group adds less than an hour, and a negative group adds nothing. */
  lemma {:induction false} CutsAtMost(f: Field, gs: seq<Option<string>>, s: seq<Job>, q: Query)
    ensures SumCuts(f, gs, s, q) <= 3599 * NamedGroups(gs)
    ensures SumTotals(f, gs, s, q) < 0 ==> SumCuts(f, gs, s, q) <= 3599 * (NamedGroups(gs) - 1)
  {
    hide Total, OfGroup, Cut;
    if gs == [] {
    } else {
      CutsAtMost(f, gs[..|gs| - 1], s, q);
      CutSign(Total(f, OfGroup(s, gs[|gs| - 1]), q));
    }
  }

  /** The hours of all named jobs never exceed the sum over their G groups by more than G - 1, and they are not below
      that sum if and only if the seconds cut off in the groups add up to at least 0, or to more than minus an hour
      where all together are not positive. */
  lemma HoursIff(f: Field, gs: seq<Option<string>>, s: seq<Job>, q: Query)
    requires GroupOrder(gs, s) && InHours(f) && Needed(f, q) && NamedGroups(gs) >= 1
    ensures var excess := Column(f, Named(s), q) - SumOf(f, Grouped(gs, s, q));
            var cuts := SumCuts(f, gs, s, q);
            && excess <= NamedGroups(gs) - 1
            && (excess >= 0 <==> cuts >= 0 || (cuts > -3600 && Total(f, Named(s), q) <= 0))
  {
    hide Grouped, SumOf, SumTotals, SumCuts, Total, NamedGroups, Named, Needed, Hours, InHours;
    HourColumn(f, Named(s), q);
    HoursAndCuts(f, gs, s, q);
    GroupsPartition(f, gs, s, q);
    CutsAtMost(f, gs, s, q);
    CutSign(Total(f, Named(s), q));
  }

  lemma {:induction false} CutsNonNegative(f: Field, gs: seq<Option<string>>, s: seq<Job>, q: Query)
    requires forall j :: j in s ==> Age(j, q.now) >= 0
    ensures SumCuts(f, gs, s, q) >= 0
  {
    hide Total, Cut;
    if gs == [] {
    } else {
      var g := gs[|gs| - 1];
      CutsNonNegative(f, gs[..|gs| - 1], s, q);
      OfGroupMembers(s, g);
      TotalNonNegative(f, OfGroup(s, g), q);
      CutSign(Total(f, OfGroup(s, g), q));
    }
  }

  /** So without negative durations the hours of all named jobs exceed the sum over their G groups by 0 to G - 1. */
  lemma HoursWithin(f: Field, gs: seq<Option<string>>, s: seq<Job>, q: Query)
    requires GroupOrder(gs, s) && InHours(f) && NamedGroups(gs) >= 1
    requires forall j :: j in s ==> Age(j, q.now) >= 0
    ensures 0 <= Column(f, Named(s), q) - SumOf(f, Grouped(gs, s, q)) <= NamedGroups(gs) - 1
    ensures (forall j :: j in s ==> j.group.Some?) ==> Get(Overall(s, q), f) == Column(f, Named(s), q)
  {
    hide GroupOrder, Grouped, SumOf, SumCuts, Total, NamedGroups, Named, Needed;
    NamedAll(s);
    ColumnOf(f, "", s, q);
    if Needed(f, q) {
      CutsNonNegative(f, gs, s, q);
      HoursIff(f, gs, s, q);
    } else {
      Unneeded(f, gs, s, q);
    }
  }

  /** A running job that starts in the future has a negative duration; then the groups can exceed the whole. */
  lemma FutureStartBreaksHours()
    ensures var early := Job(Some("a"), "a", true, 1, 0, 1, None, None);
            var late := Job(Some("b"), "b", false, 0, 3600, 1, None, None);
            var q := Query(0, 0, None);
            var gs := [Some("a"), Some("b")];
            && GroupOrder(gs, [early, late])
            && Overall([early, late], q).totalWalltime < SumOf(TotalWalltime, Grouped(gs, [early, late], q))
  {
    hide Grouped, SumOf, Total, OfGroup, Users, GroupOrder, StatsOf;
    var early := Job(Some("a"), "a", true, 1, 0, 1, None, None);
    var late := Job(Some("b"), "b", false, 0, 3600, 1, None, None);
    PairInOrder(early, late);
    var q := Query(0, 0, None);
    var gs := [Some("a"), Some("b")];
    var s := [early, late];
    PairGroups(early, late);
    TwoGroups(s, q);
    ColumnOf(TotalWalltime, "", s, q);
    PairTotal(TotalWalltime, early, late, q);
  }

  lemma PairInOrder(a: Job, b: Job)
    requires a.group == Some("a") && b.group == Some("b")
    ensures GroupOrder([Some("a"), Some("b")], [a, b])
  {
    assert "a" != "b";
    assert a in [a, b] && b in [a, b];
  }

  lemma PairGroups(a: Job, b: Job)
    requires a.group == Some("a") && b.group == Some("b")
    ensures OfGroup([a, b], Some("a")) == [a] && OfGroup([a, b], Some("b")) == [b]
  {
    assert [a, b][1..] == [b] && [b][1..] == [];
    assert "a" != "b";
    assert OfGroup([b], Some("a")) == [] && OfGroup([b], Some("b")) == [b];
  }

  lemma PairTotal(f: Field, a: Job, b: Job, q: Query)
    ensures Total(f, [a], q) == Weight(f, a, q) && Total(f, [b], q) == Weight(f, b, q)
    ensures Total(f, [a, b], q) == Weight(f, a, q) + Weight(f, b, q)
  {
    hide Weight;
    assert [a, b][1..] == [b] && [b][1..] == [] && [a][1..] == [];
  }

  lemma TwoGroups(s: seq<Job>, q: Query)
    ensures SumOf(TotalWalltime, Grouped([Some("a"), Some("b")], s, q))
            == Column(TotalWalltime, OfGroup(s, Some("a")), q) + Column(TotalWalltime, OfGroup(s, Some("b")), q)
  {
    hide OfGroup, StatsOf, Column;
    var a, b := Some("a"), Some("b");
    var first, second := StatsOf("a", OfGroup(s, a), q), StatsOf("b", OfGroup(s, b), q);
    assert [a, b][..1] == [a] && [a][..0] == [];
    assert Grouped([a], s, q) == [] + [first] == [first];
    assert Grouped([a, b], s, q) == [first] + [second];
    ColumnOf(TotalWalltime, "a", OfGroup(s, a), q);
    ColumnOf(TotalWalltime, "b", OfGroup(s, b), q);
    SumSnoc(TotalWalltime, [], first);
    SumSnoc(TotalWalltime, [first], second);
  }

  // ----- users

  function SumUsers(gs: seq<Option<string>>, s: seq<Job>): nat {
    if gs == [] then 0
    else
      var g := gs[|gs| - 1];
      SumUsers(gs[..|gs| - 1], s) + (if g.Some? then |Users(OfGroup(s, g))| else 0)
  }

  lemma UsersCons(j: Job, s: seq<Job>)
    ensures Users([j] + s) == Users(s) + {j.user}
    ensures |Users([j] + s)| == |Users(s)| + (if j.user in Users(s) then 0 else 1)
  {
    assert forall k :: k in [j] + s <==> k == j || k in s;
    if j.user in Users(s) {
      assert Users(s) + {j.user} == Users(s);
    }
  }

  lemma {:induction false} OneUserGrows(gs: seq<Option<string>>, s: seq<Job>)
    requires s != []
    requires forall i, k :: 0 <= i < k < |gs| ==> gs[i] != gs[k]
    ensures SumUsers(gs, s) == SumUsers(gs, s[1..])
              + (if s[0].group.Some? && s[0].group in gs && s[0].user !in Users(OfGroup(s[1..], s[0].group)) then 1 else 0)
  {
    hide Users;
    if gs == [] {
    } else {
      var init, g := gs[..|gs| - 1], gs[|gs| - 1];
      OneUserGrows(init, s);
      assert s[0].group in gs <==> s[0].group in init || s[0].group == g;
      UsersCons(s[0], OfGroup(s[1..], g));
    }
  }

  lemma {:induction false} NoUsers(gs: seq<Option<string>>)
    ensures SumUsers(gs, []) == 0
  {
    if gs == [] {
    } else {
      NoUsers(gs[..|gs| - 1]);
    }
  }

  lemma {:induction false} NamedMembers(s: seq<Job>)
    ensures forall j :: j in Named(s) <==> j in s && j.group.Some?
  {
    if s == [] {
    } else {
      NamedMembers(s[1..]);
      assert forall j :: j in s <==> j == s[0] || j in s[1..];
    }
  }

  lemma FreshInGroup(j: Job, s: seq<Job>)
    requires j.group.Some?
    ensures j.user in Users(OfGroup(s, j.group)) ==> j.user in Users(Named(s))
    ensures j.user in Users(Named(s)) && j.group == Some(j.user) && (forall k :: k in s ==> k.group == Some(k.user)) ==>
              j.user in Users(OfGroup(s, j.group))
  {
    OfGroupMembers(s, j.group);
    NamedMembers(s);
  }

  lemma {:induction false} UsersCovered(gs: seq<Option<string>>, s: seq<Job>)
    requires forall i, k :: 0 <= i < k < |gs| ==> gs[i] != gs[k]
    requires forall j :: j in s ==> j.group in gs
    ensures |Users(Named(s))| <= SumUsers(gs, s)
    ensures (forall j :: j in s ==> j.group == Some(j.user)) ==> |Users(Named(s))| == SumUsers(gs, s)
  {
    hide Users;
    if s == [] {
      NoUsers(gs);
      NoOne();
    } else {
      assert s[0] in s;
      assert forall j :: j in s <==> j == s[0] || j in s[1..];
      OneUserGrows(gs, s);
      UsersCovered(gs, s[1..]);
      if s[0].group.Some? {
        FreshInGroup(s[0], s[1..]);
        UsersCons(s[0], Named(s[1..]));
      }
    }
  }

  lemma NoOne()
    ensures |Users([])| == 0
  {
    assert Users([]) == {};
  }

  lemma {:induction false} SumIsUsers(gs: seq<Option<string>>, s: seq<Job>, q: Query)
    ensures SumOf(TotalUsers, Grouped(gs, s, q)) == if Needed(TotalUsers, q) then SumUsers(gs, s) else 0
  {
    hide StatsOf, Total, Get, Needed, Users;
    if gs == [] {
    } else {
      var init, g := gs[..|gs| - 1], gs[|gs| - 1];
      SumIsUsers(init, s, q);
      if g.Some? {
        ColumnOf(TotalUsers, g.value, OfGroup(s, g), q);
        SumSnoc(TotalUsers, Grouped(init, s, q), StatsOf(g.value, OfGroup(s, g), q));
      }
    }
  }

  /** The user counts of the groups add up to at least the users overall, and to exactly those when jobs are
      grouped by user. */
  lemma UsersMatchOverall(gs: seq<Option<string>>, s: seq<Job>, q: Query)
    requires GroupOrder(gs, s) && forall j :: j in s ==> j.group.Some?
    ensures Overall(s, q).totalUsers <= SumOf(TotalUsers, Grouped(gs, s, q))
    ensures (forall j :: j in s ==> j.group == Some(j.user)) ==>
              Overall(s, q).totalUsers == SumOf(TotalUsers, Grouped(gs, s, q))
  {
    hide Grouped, SumOf, Total, Users;
    NamedAll(s);
    UsersCovered(gs, s);
    SumIsUsers(gs, s, q);
  }
}
