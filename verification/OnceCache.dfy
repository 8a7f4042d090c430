/** The once-only cache entries of the statistics cache under interleaved callers. */
module OnceCache {
  import opened Prelude
  import opened StatsModel

  /** What the compute function returns; errors are kept like results. */
  datatype Outcome = Result(stats: seq<Stats>) | Failed(error: string)

  /** sync.Once of an entry, with the entry's outcome. */
  datatype Once = Idle | Running(owner: nat) | Done(outcome: Outcome)

  /** Where a caller of getOrCompute is. */
  datatype Pc = Outside | Holding(key: string, entry: nat) | Computing(key: string, entry: nat)

  /** `computed` and `answers` record the calls of compute and the returns of getOrCompute. */
  datatype State = State(entries: map<string, nat>, once: seq<Once>, callers: map<nat, Pc>,
                         computed: seq<(string, Outcome)>, answers: seq<(string, Outcome)>)

  /** The four atomic pieces of getOrCompute: the locked lookup, winning the once, finishing it, and returning. */
  datatype Event = Lookup(c: nat, key: string) | Enter(c: nat) | Compute(c: nat, outcome: Outcome) | Return(c: nat)

  const EMPTY := State(map[], [], map[], [], [])

  function At(s: State, c: nat): Pc {
    if c in s.callers then s.callers[c] else Outside
  }

  predicate Enabled(s: State, e: Event) {
    match e
    case Lookup(c, key) => At(s, c).Outside?
    case Enter(c) => At(s, c).Holding? && At(s, c).entry < |s.once| && s.once[At(s, c).entry].Idle?
    case Compute(c, r) => At(s, c).Computing? && At(s, c).entry < |s.once|
    case Return(c) => At(s, c).Holding? && At(s, c).entry < |s.once| && s.once[At(s, c).entry].Done?
  }

  function Next(s: State, e: Event): State
    requires Enabled(s, e)
  {
    match e
    case Lookup(c, key) =>
      if key in s.entries then s.(callers := s.callers[c := Holding(key, s.entries[key])])
      else s.(entries := s.entries[key := |s.once|], once := s.once + [Idle],
              callers := s.callers[c := Holding(key, |s.once|)])
    case Enter(c) =>
      var pc := At(s, c);
      s.(once := s.once[pc.entry := Running(c)], callers := s.callers[c := Computing(pc.key, pc.entry)])
    case Compute(c, r) =>
      var pc := At(s, c);
      s.(once := s.once[pc.entry := Done(r)], callers := s.callers[c := Holding(pc.key, pc.entry)],
         computed := s.computed + [(pc.key, r)])
    case Return(c) =>
      var pc := At(s, c);
      s.(callers := s.callers[c := Outside], answers := s.answers + [(pc.key, s.once[pc.entry].outcome)])
  }

  /** An event that is not enabled does not happen. */
  function Run(s: State, es: seq<Event>): State {
    if es == [] then s
    else
      var t := Run(s, es[..|es| - 1]);
      if Enabled(t, es[|es| - 1]) then Next(t, es[|es| - 1]) else t
  }

  /** The outcomes computed for a key, in order. */
  function Outcomes(log: seq<(string, Outcome)>, key: string): seq<Outcome> {
    if log == [] then []
    else
      var init, last := log[..|log| - 1], log[|log| - 1];
      if last.0 == key then Outcomes(init, key) + [last.1] else Outcomes(init, key)
  }

  /** Every key has an entry of its own. */
  ghost predicate EntriesOk(s: State) {
    && (forall k :: k in s.entries ==> s.entries[k] < |s.once|)
    && (forall j, k :: j in s.entries && k in s.entries && s.entries[j] == s.entries[k] ==> j == k)
  }

  /** Callers inside the function hold the entry of their key; the once of an entry runs in exactly one of them. */
  ghost predicate CallersOk(s: State) {
    && (forall c :: !At(s, c).Outside? ==> At(s, c).key in s.entries && s.entries[At(s, c).key] == At(s, c).entry)
    && (forall c :: At(s, c).Computing? ==> At(s, c).entry < |s.once| && s.once[At(s, c).entry] == Running(c))
    && (forall i :: 0 <= i < |s.once| && s.once[i].Running? ==>
          At(s, s.once[i].owner).Computing? && At(s, s.once[i].owner).entry == i)
  }

  /** A key without a finished entry was never computed; a finished entry holds its only outcome. */
  ghost predicate LogOk(s: State) {
    && (forall k :: k !in s.entries ==> Outcomes(s.computed, k) == [])
    && (forall k :: k in s.entries && s.entries[k] < |s.once| ==>
          Outcomes(s.computed, k) == if s.once[s.entries[k]].Done? then [s.once[s.entries[k]].outcome] else [])
  }

  ghost predicate AnswersOk(s: State) {
    forall i :: 0 <= i < |s.answers| ==> Outcomes(s.computed, s.answers[i].0) == [s.answers[i].1]
  }

  ghost predicate Inv(s: State) {
    EntriesOk(s) && CallersOk(s) && LogOk(s) && AnswersOk(s)
  }

  lemma OutcomesSnoc(log: seq<(string, Outcome)>, x: (string, Outcome), k: string)
    ensures Outcomes(log + [x], k) == if x.0 == k then Outcomes(log, k) + [x.1] else Outcomes(log, k)
  {
    assert (log + [x])[..|log|] == log;
  }

  lemma LookupKeepsEntries(s: State, e: Event)
    requires EntriesOk(s) && e.Lookup? && Enabled(s, e)
    ensures EntriesOk(Next(s, e))
  {
  }

  lemma LookupKeepsCallers(s: State, e: Event)
    requires EntriesOk(s) && CallersOk(s) && e.Lookup? && Enabled(s, e)
    ensures CallersOk(Next(s, e))
  {
    var t := Next(s, e);
    assert forall c :: c != e.c ==> At(t, c) == At(s, c);
    assert forall k :: k in s.entries ==> k in t.entries && t.entries[k] == s.entries[k];
    assert forall i :: 0 <= i < |s.once| ==> t.once[i] == s.once[i];
  }

  lemma LookupKeepsLog(s: State, e: Event)
    requires EntriesOk(s) && LogOk(s) && e.Lookup? && Enabled(s, e)
    ensures LogOk(Next(s, e))
  {
    hide Outcomes;
  }

  lemma LookupKeepsInv(s: State, e: Event)
    requires Inv(s) && e.Lookup? && Enabled(s, e)
    ensures Inv(Next(s, e))
  {
    LookupKeepsEntries(s, e);
    LookupKeepsCallers(s, e);
    LookupKeepsLog(s, e);
    hide EntriesOk, CallersOk, LogOk, Outcomes;
  }

  lemma EnterKeepsCallers(s: State, e: Event)
    requires EntriesOk(s) && CallersOk(s) && e.Enter? && Enabled(s, e)
    ensures CallersOk(Next(s, e))
  {
    var t := Next(s, e);
    assert forall c :: c != e.c ==> At(t, c) == At(s, c);
  }

  lemma EnterKeepsInv(s: State, e: Event)
    requires Inv(s) && e.Enter? && Enabled(s, e)
    ensures Inv(Next(s, e))
  {
    EnterKeepsCallers(s, e);
    hide CallersOk, Outcomes;
  }

  lemma ComputeKeepsCallers(s: State, e: Event)
    requires EntriesOk(s) && CallersOk(s) && e.Compute? && Enabled(s, e)
    ensures CallersOk(Next(s, e))
  {
    var t := Next(s, e);
    assert forall c :: c != e.c ==> At(t, c) == At(s, c);
  }

  /** A key whose entry runs has no outcome yet; now it has one. */
  lemma ComputeAddsOutcome(s: State, e: Event, k: string)
    requires CallersOk(s) && LogOk(s) && e.Compute? && Enabled(s, e)
    ensures At(s, e.c).key in s.entries && s.entries[At(s, e.c).key] == At(s, e.c).entry
    ensures Outcomes(Next(s, e).computed, k) == if k == At(s, e.c).key then [e.outcome] else Outcomes(s.computed, k)
    ensures Outcomes(s.computed, At(s, e.c).key) == []
  {
    hide Outcomes;
    OutcomesSnoc(s.computed, (At(s, e.c).key, e.outcome), k);
  }

  lemma ComputeKeepsLog(s: State, e: Event)
    requires EntriesOk(s) && CallersOk(s) && LogOk(s) && e.Compute? && Enabled(s, e)
    ensures LogOk(Next(s, e))
  {
    hide Outcomes, CallersOk;
    forall k ensures Outcomes(Next(s, e).computed, k) == if k == At(s, e.c).key then [e.outcome] else Outcomes(s.computed, k) {
      ComputeAddsOutcome(s, e, k);
    }
    ComputeAddsOutcome(s, e, At(s, e.c).key);
  }

  lemma ComputeKeepsAnswers(s: State, e: Event)
    requires CallersOk(s) && LogOk(s) && AnswersOk(s) && e.Compute? && Enabled(s, e)
    ensures AnswersOk(Next(s, e))
  {
    hide Outcomes, CallersOk, LogOk;
    forall i | 0 <= i < |s.answers| ensures Outcomes(Next(s, e).computed, s.answers[i].0) == [s.answers[i].1] {
      ComputeAddsOutcome(s, e, s.answers[i].0);
    }
  }

  lemma ComputeKeepsInv(s: State, e: Event)
    requires Inv(s) && e.Compute? && Enabled(s, e)
    ensures Inv(Next(s, e))
  {
    ComputeKeepsCallers(s, e);
    ComputeKeepsLog(s, e);
    ComputeKeepsAnswers(s, e);
    hide CallersOk, LogOk, AnswersOk, Outcomes;
  }

  lemma ReturnKeepsCallers(s: State, e: Event)
    requires CallersOk(s) && e.Return? && Enabled(s, e)
    ensures CallersOk(Next(s, e))
  {
    var t := Next(s, e);
    assert forall c :: c != e.c ==> At(t, c) == At(s, c);
  }

  lemma ReturnKeepsInv(s: State, e: Event)
    requires Inv(s) && e.Return? && Enabled(s, e)
    ensures Inv(Next(s, e))
  {
    ReturnKeepsCallers(s, e);
    hide Outcomes;
  }

  lemma {:induction false} RunKeepsInv(s: State, es: seq<Event>)
    requires Inv(s)
    ensures Inv(Run(s, es))
  {
    hide Inv, Enabled, Next;
    if es == [] {
    } else {
      var t, e := Run(s, es[..|es| - 1]), es[|es| - 1];
      RunKeepsInv(s, es[..|es| - 1]);
      if Enabled(t, e) {
        match e {
          case Lookup(_, _) => LookupKeepsInv(t, e);
          case Enter(_) => EnterKeepsInv(t, e);
          case Compute(_, _) => ComputeKeepsInv(t, e);
          case Return(_) => ReturnKeepsInv(t, e);
        }
      }
    }
  }

  lemma {:induction false} OutcomesMember(log: seq<(string, Outcome)>, i: nat)
    requires i < |log|
    ensures log[i].1 in Outcomes(log, log[i].0)
    ensures forall k :: 0 <= k < i && log[k].0 == log[i].0 ==> |Outcomes(log, log[i].0)| >= 2
  {
    var n := |log| - 1;
    if i < n {
      OutcomesMember(log[..n], i);
    } else {
      forall k | 0 <= k < i && log[k].0 == log[i].0 ensures |Outcomes(log, log[i].0)| >= 2 {
        OutcomesMember(log[..n], k);
      }
    }
  }

  /** In every interleaving compute runs at most once for a key, and every caller of that key is given the one
      outcome, be it a result or an error. */
  lemma OncePerKey(es: seq<Event>)
    ensures var s := Run(EMPTY, es);
            && (forall i, k :: 0 <= i < k < |s.computed| ==> s.computed[i].0 != s.computed[k].0)
            && (forall i :: 0 <= i < |s.answers| ==> s.answers[i] in s.computed)
  {
    var s := Run(EMPTY, es);
    RunKeepsInv(EMPTY, es);
    hide Run, Outcomes;
    forall i, k | 0 <= i < k < |s.computed| ensures s.computed[i].0 != s.computed[k].0 {
      OutcomesMember(s.computed, k);
    }
    forall i | 0 <= i < |s.answers| ensures s.answers[i] in s.computed {
      OneOutcome(s.computed, s.answers[i].0, s.answers[i].1);
    }
  }

  lemma {:induction false} OneOutcome(log: seq<(string, Outcome)>, key: string, r: Outcome)
    requires r in Outcomes(log, key)
    ensures (key, r) in log
  {
    if log == [] {
    } else {
      var init, last := log[..|log| - 1], log[|log| - 1];
      if last == (key, r) {
        assert log[|log| - 1] == last;
      } else {
        OneOutcome(init, key, r);
      }
    }
  }

  /** No deadlock: while a caller is inside, it or the caller computing its key can move. */
  lemma CallersProgress(es: seq<Event>, c: nat, outcome: Outcome)
    requires !At(Run(EMPTY, es), c).Outside?
    ensures var s := Run(EMPTY, es);
            || Enabled(s, Enter(c)) || Enabled(s, Compute(c, outcome)) || Enabled(s, Return(c))
            || exists b :: At(s, b).Computing? && At(s, b).key == At(s, c).key && Enabled(s, Compute(b, outcome))
  {
    var s := Run(EMPTY, es);
    RunKeepsInv(EMPTY, es);
    hide Run, Outcomes;
    var pc := At(s, c);
    assert s.entries[pc.key] == pc.entry;
    if s.once[pc.entry].Running? {
      var b := s.once[pc.entry].owner;
      assert At(s, b).Computing? && At(s, b).entry == pc.entry;
    }
  }

  lemma RunSnoc(s: State, es: seq<Event>, e: Event)
    requires Enabled(Run(s, es), e)
    ensures Run(s, es + [e]) == Next(Run(s, es), e)
  {
    hide Enabled, Next;
    assert (es + [e])[..|es|] == es;
  }

  /** From the empty cache: a caller alone is answered what it computed, and the next one of the key is given the same
      without another computation. */
  lemma ComputedThenShared(c: nat, d: nat, key: string, outcome: Outcome)
    ensures var s := Run(EMPTY, [Lookup(c, key)] + [Enter(c)] + [Compute(c, outcome)] + [Return(c)]
                                + [Lookup(d, key)] + [Return(d)]);
            s.computed == [(key, outcome)] && s.answers == [(key, outcome)] + [(key, outcome)]
  {
    hide Run;
    var es := [Lookup(c, key)];
    OneEvent(Lookup(c, key));
    RunSnoc(EMPTY, es, Enter(c));
    RunSnoc(EMPTY, es + [Enter(c)], Compute(c, outcome));
    RunSnoc(EMPTY, es + [Enter(c)] + [Compute(c, outcome)], Return(c));
    RunSnoc(EMPTY, es + [Enter(c)] + [Compute(c, outcome)] + [Return(c)], Lookup(d, key));
    RunSnoc(EMPTY, es + [Enter(c)] + [Compute(c, outcome)] + [Return(c)] + [Lookup(d, key)], Return(d));
  }

  lemma OneEvent(e: Event)
    requires Enabled(EMPTY, e)
    ensures Run(EMPTY, [e]) == Next(EMPTY, e)
  {
    assert Run(EMPTY, []) == EMPTY;
    RunSnoc(EMPTY, [], e);
    assert [] + [e] == [e];
  }

  // ----- the cache object

  class CacheEntry {
    var outcome: Option<Outcome>

    constructor ()
      ensures outcome == None
    {
      outcome := None;
    }
  }

  class StatsGroupCache {
    var entries: map<string, CacheEntry>

    ghost predicate Valid()
      reads this
    {
      forall j, k :: j in entries && k in entries && entries[j] == entries[k] ==> j == k
    }

    /** The finished entries. */
    ghost function View(): map<string, Outcome>
      reads this, entries.Values
    {
      map k | k in entries && entries[k].outcome.Some? :: entries[k].outcome.value
    }

    constructor ()
      ensures Valid() && View() == map[]
    {
      entries := map[];
    }

    /** getOrCompute without interleaving; `now` is what compute would return now. */
    method GetOrCompute(key: string, now: Outcome) returns (r: Outcome)
      requires Valid()
      modifies this, entries.Values
      ensures Valid()
      ensures View() == if key in old(View()) then old(View()) else old(View())[key := now]
      ensures r == if key in old(View()) then old(View())[key] else now
    {
      var entry: CacheEntry;
      if key in entries {
        entry := entries[key];
      } else {
        entry := new CacheEntry();
        entries := entries[key := entry];
      }
      assert key in entries && entries[key] == entry;
      if entry.outcome.None? {
        entry.outcome := Some(now);
      }
      r := entry.outcome.value;
    }
  }
}
