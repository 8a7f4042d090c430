/** The copy retention service: a marker file remembers how far jobs have been copied. */
module RetentionCopy {
  import opened Prelude

  /** `tagged`: the job carries tags that the configured policy omits. */
  datatype Job = Job(id: nat, start: int, tagged: bool)

  /** FindJobsBetween. BETWEEN includes both ends; a lower end of 0 means none. */
  function FindJobsBetween(jobs: set<Job>, first: int, last: int): Option<set<Job>> {
    if first >= last then None
    else Some(set j | j in jobs && !j.tagged && (if first == 0 then j.start < last else first <= j.start <= last))
  }

  /** What became of a run that found jobs: the transfer failed, or it succeeded and `left` is what the marker file
      reads as afterwards. That is the cutoff, or, when the write failed, which is only logged, what was there before,
      0 for an emptied file, or the number that a part of the digits makes. */
  datatype Outcome = NotTransferred | Transferred(left: int)

  datatype Marker = Marker(ts: int, known: set<Job>)

  /** `handed` lists what each successful transfer was given, `repeats` those of them after which the marker was not
      written; `written` has the markers, each with the jobs known at that time. */
  datatype State = State(jobs: set<Job>, marker: int, handed: seq<set<Job>>, repeats: seq<set<Job>>, written: seq<Marker>)

  datatype Step = Arrive(job: Job) | Copy(cutoff: int, outcome: Outcome)

  /** An error, nothing to do, and a failed transfer all leave the marker alone. */
  function CopyRun(s: State, cutoff: int, outcome: Outcome): State {
    match FindJobsBetween(s.jobs, s.marker, cutoff)
    case None => s
    case Some(found) =>
      if found == {} || outcome.NotTransferred? then s
      else if outcome.left == cutoff then
        s.(marker := cutoff, handed := s.handed + [found], written := s.written + [Marker(cutoff, s.jobs)])
      else s.(marker := outcome.left, handed := s.handed + [found], repeats := s.repeats + [found])
  }

  function Apply(s: State, step: Step): State {
    match step
    case Arrive(job) => s.(jobs := s.jobs + {job})
    case Copy(cutoff, outcome) => CopyRun(s, cutoff, outcome)
  }

  function Run(s: State, steps: seq<Step>): State
    decreases |steps|
  {
    if steps == [] then s else Run(Apply(s, steps[0]), steps[1..])
  }

  const EMPTY := State({}, 0, [], [], [])

  /** New jobs are new, and do not start before the marker. */
  predicate NoLateJob(s: State, steps: seq<Step>)
    decreases |steps|
  {
    steps != [] ==>
      && (steps[0].Arrive? ==> steps[0].job !in s.jobs && (s.marker != 0 ==> s.marker <= steps[0].job.start))
      && NoLateJob(Apply(s, steps[0]), steps[1..])
  }

  /** However a marker write fails, the file does not read as more than the cutoff. */
  predicate NoMarkerBeyond(steps: seq<Step>) {
    forall i :: 0 <= i < |steps| && steps[i].Copy? && steps[i].outcome.Transferred? ==>
      0 <= steps[i].outcome.left <= steps[i].cutoff
  }

  function Times(j: Job, handed: seq<set<Job>>): (n: nat)
    ensures n > 0 <==> exists i :: 0 <= i < |handed| && j in handed[i]
  {
    if handed == [] then 0
    else
      assert handed == handed[..|handed| - 1] + [handed[|handed| - 1]];
      Times(j, handed[..|handed| - 1]) + (if j in handed[|handed| - 1] then 1 else 0)
  }

  lemma TimesSnoc(j: Job, handed: seq<set<Job>>, last: set<Job>)
    ensures Times(j, handed + [last]) == Times(j, handed) + (if j in last then 1 else 0)
  {
    assert (handed + [last])[..|handed|] == handed;
  }

  // ----- nothing is left out, however the marker fails

  ghost predicate Covered(s: State) {
    s.marker != 0 ==> forall j :: j in s.jobs && !j.tagged && j.start < s.marker ==> Times(j, s.handed) >= 1
  }

  lemma CopyKeepsCovered(s: State, cutoff: int, outcome: Outcome)
    requires Covered(s) && (outcome.Transferred? ==> outcome.left <= cutoff)
    ensures Covered(CopyRun(s, cutoff, outcome))
  {
    var t := CopyRun(s, cutoff, outcome);
    if t != s {
      var found := FindJobsBetween(s.jobs, s.marker, cutoff).value;
      forall j | j in t.jobs && !j.tagged && j.start < t.marker ensures Times(j, t.handed) >= 1 {
        TimesSnoc(j, s.handed, found);
      }
    }
  }

  /** Over every run, whatever the cutoffs and failures, marker writes included: every selectable job below the marker
      was handed over at least once. */
  lemma {:induction false} AtLeastOnce(s: State, steps: seq<Step>)
    requires Covered(s) && NoLateJob(s, steps) && NoMarkerBeyond(steps)
    ensures Covered(Run(s, steps))
    decreases |steps|
  {
    hide CopyRun;
    if steps == [] {
    } else {
      var step := steps[0];
      if step.Copy? {
        CopyKeepsCovered(s, step.cutoff, step.outcome);
      }
      AtLeastOnce(Apply(s, step), steps[1..]);
    }
  }

  // ----- how often exactly, when a failed write leaves the old marker

  /** A marker write that fails leaves the file as it was. */
  predicate OldMarkerStays(s: State, steps: seq<Step>)
    decreases |steps|
  {
    steps != [] ==>
      && (steps[0].Copy? && steps[0].outcome.Transferred? ==> steps[0].outcome.left in {steps[0].cutoff, s.marker})
      && OldMarkerStays(Apply(s, steps[0]), steps[1..])
  }

  /** A marker but the first was written with this time stamp when the job was known. */
  ghost predicate AtLaterMarker(s: State, j: Job) {
    exists i :: 1 <= i < |s.written| && s.written[i].ts == j.start && j in s.written[i].known
  }

  /** How often a job has been handed over by runs that then wrote the marker, by where it starts. */
  ghost predicate HandedRight(s: State, j: Job) {
    var n := Times(j, s.handed) - Times(j, s.repeats);
    if j.tagged || s.marker == 0 || j.start > s.marker then n == 0
    else if j.start == s.marker then n == if AtLaterMarker(s, j) then 1 else 0
    else n == if AtLaterMarker(s, j) then 2 else 1
  }

  /** The marker is the last one written, and no time stamp is beyond it. */
  ghost predicate MarkersOk(s: State) {
    && s.marker >= 0 && (s.marker == 0 <==> s.written == [])
    && (s.written != [] ==> s.marker == s.written[|s.written| - 1].ts)
    && (forall i :: 0 <= i < |s.written| ==> s.written[i].ts <= s.marker && s.written[i].known <= s.jobs)
  }

  ghost predicate HandedKnown(s: State) {
    && (forall i :: 0 <= i < |s.handed| ==> s.handed[i] <= s.jobs)
    && (forall i :: 0 <= i < |s.repeats| ==> s.repeats[i] <= s.jobs)
  }

  ghost predicate Inv(s: State) {
    MarkersOk(s) && HandedKnown(s) && forall j :: j in s.jobs ==> HandedRight(s, j)
  }

  lemma MarkedKeepsRight(s: State, cutoff: int, j: Job)
    requires Inv(s) && j in s.jobs
    ensures HandedRight(CopyRun(s, cutoff, Transferred(cutoff)), j)
  {
    var t := CopyRun(s, cutoff, Transferred(cutoff));
    assert HandedRight(s, j);
    if t != s {
      var found := FindJobsBetween(s.jobs, s.marker, cutoff).value;
      TimesSnoc(j, s.handed, found);
      var last := |s.written|;
      assert t.written[last] == Marker(cutoff, s.jobs);
      assert forall i :: 0 <= i < last ==> t.written[i] == s.written[i];
      if AtLaterMarker(s, j) {
        var i :| 1 <= i < |s.written| && s.written[i].ts == j.start && j in s.written[i].known;
        assert t.written[i].ts == j.start;
      }
      if AtLaterMarker(t, j) {
        var i :| 1 <= i < |t.written| && t.written[i].ts == j.start && j in t.written[i].known;
        assert i < last ==> s.written[i].ts == j.start && j in s.written[i].known;
      }
    }
  }

  lemma RepeatedKeepsRight(s: State, cutoff: int, left: int, j: Job)
    requires HandedRight(s, j) && left == s.marker != cutoff
    ensures HandedRight(CopyRun(s, cutoff, Transferred(left)), j)
  {
    hide FindJobsBetween, Times;
    var t := CopyRun(s, cutoff, Transferred(left));
    if t != s {
      var found := FindJobsBetween(s.jobs, s.marker, cutoff).value;
      TimesSnoc(j, s.handed, found);
      TimesSnoc(j, s.repeats, found);
      assert AtLaterMarker(s, j) <==> AtLaterMarker(t, j);
    }
  }

  lemma CopyKeepsBounds(s: State, cutoff: int, outcome: Outcome)
    requires MarkersOk(s) && HandedKnown(s) && (outcome.Transferred? ==> outcome.left in {cutoff, s.marker})
    ensures MarkersOk(CopyRun(s, cutoff, outcome)) && HandedKnown(CopyRun(s, cutoff, outcome))
  {
  }

  lemma CopyKeepsInv(s: State, cutoff: int, outcome: Outcome)
    requires Inv(s) && (outcome.Transferred? ==> outcome.left in {cutoff, s.marker})
    ensures Inv(CopyRun(s, cutoff, outcome))
  {
    hide FindJobsBetween, HandedRight;
    CopyKeepsBounds(s, cutoff, outcome);
    var t := CopyRun(s, cutoff, outcome);
    forall j | j in t.jobs ensures HandedRight(t, j) {
      if outcome.NotTransferred? {
        assert t == s;
      } else if outcome.left == cutoff {
        MarkedKeepsRight(s, cutoff, j);
      } else {
        RepeatedKeepsRight(s, cutoff, outcome.left, j);
      }
    }
  }

  lemma ArriveKeepsInv(s: State, job: Job)
    requires Inv(s) && job !in s.jobs && (s.marker != 0 ==> s.marker <= job.start)
    ensures Inv(Apply(s, Arrive(job)))
  {
    var t := Apply(s, Arrive(job));
    forall j | j in t.jobs ensures HandedRight(t, j) {
      if j in s.jobs {
        assert HandedRight(s, j);
        assert AtLaterMarker(s, j) <==> AtLaterMarker(t, j);
      } else {
        assert forall i :: 0 <= i < |s.handed| ==> j !in s.handed[i];
        assert forall i :: 0 <= i < |s.repeats| ==> j !in s.repeats[i];
      }
    }
  }

  lemma {:induction false} RunKeepsInv(s: State, steps: seq<Step>)
    requires Inv(s) && NoLateJob(s, steps) && OldMarkerStays(s, steps)
    ensures Inv(Run(s, steps))
    decreases |steps|
  {
    hide Inv, CopyRun;
    if steps == [] {
    } else {
      match steps[0] {
        case Arrive(job) => ArriveKeepsInv(s, job);
        case Copy(cutoff, outcome) => CopyKeepsInv(s, cutoff, outcome);
      }
      RunKeepsInv(Apply(s, steps[0]), steps[1..]);
    }
  }

  /** The exact number of handovers of a selectable job, with u the runs that handed it over and then failed to write
      the marker: below the marker 1 + u, or 2 + u if and only if it was known when a marker other than the first was
      written at its very start time; beyond the marker u. So at most twice if and only if u is 0, or 1 for a job that
      starts at no such marker. */
  lemma CopyCoverage(steps: seq<Step>, j: Job)
    requires NoLateJob(EMPTY, steps) && OldMarkerStays(EMPTY, steps)
    requires j in Run(EMPTY, steps).jobs && !j.tagged
    ensures var s := Run(EMPTY, steps);
            var n, u := Times(j, s.handed), Times(j, s.repeats);
            var twice := if AtLaterMarker(s, j) then 1 else 0;
            && (s.marker != 0 && j.start < s.marker ==> n == 1 + twice + u && (n <= 2 <==> u + twice <= 1))
            && (s.marker != 0 && j.start == s.marker ==> n == twice + u)
            && (j.start > s.marker || s.marker == 0 ==> n == u)
  {
    RunKeepsInv(EMPTY, steps);
    assert HandedRight(Run(EMPTY, steps), j);
  }

  /** Without a failed marker write u is 0. */
  lemma {:induction false} NoFailureNoRepeat(s: State, steps: seq<Step>)
    requires forall i :: 0 <= i < |steps| && steps[i].Copy? && steps[i].outcome.Transferred? ==>
               steps[i].outcome.left == steps[i].cutoff
    ensures Run(s, steps).repeats == s.repeats
    ensures OldMarkerStays(s, steps)
    decreases |steps|
  {
    if steps == [] {
    } else {
      NoFailureNoRepeat(Apply(s, steps[0]), steps[1..]);
    }
  }

  /** With successful marker writes, the promised bound: once or twice below the marker, at most once at it, never
      beyond. */
  lemma OnceOrTwice(steps: seq<Step>, j: Job)
    requires NoLateJob(EMPTY, steps) && j in Run(EMPTY, steps).jobs && !j.tagged
    requires forall i :: 0 <= i < |steps| && steps[i].Copy? && steps[i].outcome.Transferred? ==>
               steps[i].outcome.left == steps[i].cutoff
    ensures var s := Run(EMPTY, steps);
            var n := Times(j, s.handed);
            && (s.marker != 0 && j.start < s.marker ==> 1 <= n <= 2 && (n == 2 <==> AtLaterMarker(s, j)))
            && (s.marker != 0 && j.start == s.marker ==> n <= 1)
            && (j.start > s.marker || s.marker == 0 ==> n == 0)
  {
    NoFailureNoRepeat(EMPTY, steps);
    CopyCoverage(steps, j);
  }

  /** Once the marker has passed a job it is never handed over again, as long as a failed write leaves the marker; one
      whose copy failed inside an otherwise successful transfer, which is only logged, is lost to the copy. */
  lemma {:induction false} NeverHandedAgain(s: State, steps: seq<Step>, j: Job)
    requires 0 < s.marker && j.start < s.marker && OldMarkerStays(s, steps)
    ensures Times(j, Run(s, steps).handed) == Times(j, s.handed)
    ensures s.marker <= Run(s, steps).marker
    decreases |steps|
  {
    if steps == [] {
    } else {
      var t := Apply(s, steps[0]);
      if t.handed != s.handed {
        TimesSnoc(j, s.handed, t.handed[|s.handed|]);
      }
      NeverHandedAgain(t, steps[1..], j);
    }
  }

  /** Three runs whose second cutoff is exactly a start time: that job is handed over twice. */
  lemma HandedTwice(a: Job, b: Job)
    requires 0 < a.start && a.start + 1 < b.start && !a.tagged && !b.tagged
    ensures var s1 := CopyRun(EMPTY.(jobs := {a, b}), a.start + 1, Transferred(a.start + 1));
            var s2 := CopyRun(s1, b.start, Transferred(b.start));
            var s3 := CopyRun(s2, b.start + 1, Transferred(b.start + 1));
            s3.handed == [{a}, {b}, {b}] && Times(b, s3.handed) == 2
  {
    hide FindJobsBetween, Times, CopyRun;
    var s0 := EMPTY.(jobs := {a, b});
    FoundOneByOne(a, b);
    var s1 := CopyOne(s0, a.start + 1, a);
    var s2 := CopyOne(s1, b.start, b);
    var s3 := CopyOne(s2, b.start + 1, b);
    TimesSnoc(b, [], {a});
    TimesSnoc(b, [{a}], {b});
    TimesSnoc(b, [{a}, {b}], {b});
    assert [] + [{a}] == [{a}] && [{a}] + [{b}] == [{a}, {b}] && [{a}, {b}] + [{b}] == [{a}, {b}, {b}];
    assert Times(b, []) == 0;
  }

  lemma FoundOneByOne(a: Job, b: Job)
    requires 0 < a.start && a.start + 1 < b.start && !a.tagged && !b.tagged
    ensures FindJobsBetween({a, b}, 0, a.start + 1) == Some({a})
    ensures FindJobsBetween({a, b}, a.start + 1, b.start) == Some({b})
    ensures FindJobsBetween({a, b}, b.start, b.start + 1) == Some({b})
  {
    assert FindJobsBetween({a, b}, 0, a.start + 1).value == {a};
    assert FindJobsBetween({a, b}, a.start + 1, b.start).value == {b};
    assert FindJobsBetween({a, b}, b.start, b.start + 1).value == {b};
  }

  lemma CopyOne(s: State, cutoff: int, j: Job) returns (t: State)
    requires FindJobsBetween(s.jobs, s.marker, cutoff) == Some({j})
    ensures t == CopyRun(s, cutoff, Transferred(cutoff))
    ensures t == s.(marker := cutoff, handed := s.handed + [{j}], written := s.written + [Marker(cutoff, s.jobs)])
  {
    t := CopyRun(s, cutoff, Transferred(cutoff));
  }

  function Again(step: Step, k: nat): seq<Step> {
    if k == 0 then [] else [step] + Again(step, k - 1)
  }

  /** A marker that can never be written: each of k runs hands the job over. */
  lemma {:induction false} HandedEveryTime(s: State, j: Job, cutoff: int, k: nat)
    requires s.marker == 0 && s.jobs == {j} && 0 <= j.start < cutoff && !j.tagged
    ensures var t := Run(s, Again(Copy(cutoff, Transferred(0)), k));
            t.marker == 0 && Times(j, t.handed) == Times(j, s.handed) + k
    decreases k
  {
    hide Apply, Times;
    if k == 0 {
    } else {
      var step := Copy(cutoff, Transferred(0));
      assert Again(step, k)[0] == step && Again(step, k)[1..] == Again(step, k - 1);
      HandedOnceMore(s, j, cutoff);
      HandedEveryTime(Apply(s, step), j, cutoff, k - 1);
    }
  }

  lemma HandedOnceMore(s: State, j: Job, cutoff: int)
    requires s.marker == 0 && s.jobs == {j} && 0 <= j.start < cutoff && !j.tagged
    ensures var t := Apply(s, Copy(cutoff, Transferred(0)));
            t.marker == 0 && t.jobs == {j} && Times(j, t.handed) == Times(j, s.handed) + 1
  {
    hide Times;
    FoundAgain(s, j, cutoff);
    TimesSnoc(j, s.handed, {j});
  }

  lemma FoundAgain(s: State, j: Job, cutoff: int)
    requires s.marker == 0 && s.jobs == {j} && 0 <= j.start < cutoff && !j.tagged
    ensures CopyRun(s, cutoff, Transferred(0)) == s.(handed := s.handed + [{j}], repeats := s.repeats + [{j}])
  {
    assert FindJobsBetween(s.jobs, 0, cutoff).value == {j};
  }

  class CopyService {
    var jobs: set<Job>
    var marker: int
    ghost var handed: seq<set<Job>>
    ghost var repeats: seq<set<Job>>
    ghost var written: seq<Marker>

    constructor ()
      ensures Shown() == EMPTY
    {
      jobs, marker, handed, repeats, written := {}, 0, [], [], [];
    }

    ghost function Shown(): State
      reads this
    {
      State(jobs, marker, handed, repeats, written)
    }

    /** One scheduled run. */
    method Copy(cutoff: int, outcome: Outcome)
      modifies this`marker, this`handed, this`repeats, this`written
      ensures Shown() == CopyRun(old(Shown()), cutoff, outcome)
      ensures var found := set j | j in jobs && !j.tagged
                                   && (if old(marker) == 0 then j.start < cutoff else old(marker) <= j.start <= cutoff);
              if old(marker) < cutoff && found != {} && outcome.Transferred? then
                && handed == old(handed) + [found] && marker == outcome.left
                && written == old(written) + (if outcome.left == cutoff then [Marker(cutoff, jobs)] else [])
                && repeats == old(repeats) + (if outcome.left == cutoff then [] else [found])
              else Shown() == old(Shown())
    {
      var lastProcessed := marker;
      var found := FindJobsBetween(jobs, lastProcessed, cutoff);
      if found.None? {
        return;
      }
      if found.value == {} {
        return;
      }
      if outcome.NotTransferred? {
        return;
      }
      handed := handed + [found.value];
      marker := outcome.left;
      if outcome.left == cutoff {
        written := written + [Marker(cutoff, jobs)];
      } else {
        repeats := repeats + [found.value];
      }
    }
  }
}
