/** The archiver's protocol: producers, one worker, a bounded channel, a pending counter,
    a cancellable context and a shutdown that waits or times out. */
module Archiver {
  import opened Prelude
  import opened JobTable
  import opened ArchiveOutcome

  const CAPACITY := 128

  type Job = nat

  datatype Worker = Waiting | Busy(job: Job) | Exited

  /** Where Shutdown is. */
  datatype Phase = Live | Draining | SawDone | TimedOut | ReturnedNil | ReturnedError

  datatype Proto = Proto(
    entering: multiset<Job>,          // producers between Add(1) and the send
    queue: seq<Job>, pending: int, closed: bool, cancelled: bool,
    worker: Worker, phase: Phase, panicked: bool,
    triggered: seq<Job>, sent: seq<Job>, received: seq<Job>, finished: seq<(Job, Exit)>)

  const STARTED := Proto(multiset{}, [], 0, false, false, Waiting, Live, false, [], [], [], [])

  datatype Step =
    | Add(job: Job)
    | Send(job: Job)
    | Receive
    | SeeClosed
    | SeeCancelled
    | Process(exit: Exit)
    | ParentCancel
    | Close
    | SeeDone
    | TimeOut
    | ReturnNil
    | ReturnError

  /** A step that is not enabled is blocked; a send on the closed channel is not blocked, it panics. */
  predicate Enabled(s: Proto, step: Step) {
    match step
    case Add(_) => true
    case Send(job) => job in s.entering && (s.closed || |s.queue| < CAPACITY)
    case Receive => s.worker.Waiting? && s.queue != []
    case SeeClosed => s.worker.Waiting? && s.queue == [] && s.closed
    case SeeCancelled => s.worker.Waiting? && s.cancelled
    case Process(_) => s.worker.Busy?
    case ParentCancel => true
    case Close => s.phase.Live?
    case SeeDone => s.phase.Draining? && s.pending == 0
    case TimeOut => s.phase.Draining?
    case ReturnNil => s.phase.SawDone? && s.worker.Exited?
    case ReturnError => s.phase.TimedOut? && s.worker.Exited?
  }

  function Next(s: Proto, step: Step): Proto
    requires Enabled(s, step)
  {
    match step
    case Add(job) =>
      s.(pending := s.pending + 1, entering := s.entering + multiset{job}, triggered := s.triggered + [job])
    case Send(job) =>
      if s.closed then s.(panicked := true)
      else s.(entering := s.entering - multiset{job}, queue := s.queue + [job], sent := s.sent + [job])
    case Receive =>
      s.(worker := Busy(s.queue[0]), queue := s.queue[1..], received := s.received + [s.queue[0]])
    case SeeClosed => s.(worker := Exited)
    case SeeCancelled => s.(worker := Exited)
    case Process(exit) =>
      s.(worker := Waiting, pending := s.pending - 1, finished := s.finished + [(s.worker.job, exit)])
    case ParentCancel => s.(cancelled := true)
    case Close => s.(phase := Draining, closed := true)
    case SeeDone => s.(phase := SawDone)
    case TimeOut => s.(phase := TimedOut, cancelled := true)
    case ReturnNil => s.(phase := ReturnedNil)
    case ReturnError => s.(phase := ReturnedError)
  }

  ghost predicate Legal(s: Proto, steps: seq<Step>)
    decreases |steps|
  {
    steps != [] ==> Enabled(s, steps[0]) && Legal(Next(s, steps[0]), steps[1..])
  }

  function Final(s: Proto, steps: seq<Step>): Proto
    requires Legal(s, steps)
    decreases |steps|
  {
    if steps == [] then s else Final(Next(s, steps[0]), steps[1..])
  }

  /** No trigger happens, or is still on its way, once shutdown has begun. */
  predicate Orderly(s: Proto, step: Step) {
    (step.Add? ==> s.phase.Live?) && (step.Close? ==> s.entering == multiset{})
  }

  ghost predicate OrderlyRun(s: Proto, steps: seq<Step>)
    requires Legal(s, steps)
    decreases |steps|
  {
    steps != [] ==> Orderly(s, steps[0]) && OrderlyRun(Next(s, steps[0]), steps[1..])
  }

  // ----- the counter

  function InHand(s: Proto): seq<Job> {
    if s.worker.Busy? then [s.worker.job] else []
  }

  function Jobs(finished: seq<(Job, Exit)>): seq<Job> {
    seq(|finished|, i requires 0 <= i < |finished| => finished[i].0)
  }

  /** Every triggered job is at exactly one place, in order, and the counter counts the unfinished ones. */
  ghost predicate Counted(s: Proto) {
    && s.pending == |s.entering| + |s.queue| + |InHand(s)|
    && multiset(s.triggered) == multiset(s.sent) + s.entering
    && s.sent == s.received + s.queue
    && s.received == Jobs(s.finished) + InHand(s)
    && |s.queue| <= CAPACITY
  }

  lemma AddKeepsCounted(s: Proto, job: Job)
    requires Counted(s)
    ensures Counted(Next(s, Add(job)))
  {
  }

  lemma SendKeepsCounted(s: Proto, job: Job)
    requires Counted(s) && Enabled(s, Send(job))
    ensures Counted(Next(s, Send(job)))
  {
    SentOne(s.triggered, s.sent, s.entering, job);
    assert s.received + (s.queue + [job]) == s.received + s.queue + [job];
  }

  lemma SentOne(triggered: seq<Job>, sent: seq<Job>, entering: multiset<Job>, job: Job)
    requires multiset(triggered) == multiset(sent) + entering && job in entering
    ensures multiset(triggered) == multiset(sent + [job]) + (entering - multiset{job})
    ensures |entering - multiset{job}| == |entering| - 1
  {
    assert multiset(sent + [job]) == multiset(sent) + multiset{job};
    assert entering == (entering - multiset{job}) + multiset{job};
  }

  lemma ReceiveKeepsCounted(s: Proto)
    requires Counted(s) && Enabled(s, Receive)
    ensures Counted(Next(s, Receive))
  {
    assert s.queue == [s.queue[0]] + s.queue[1..];
  }

  lemma ProcessKeepsCounted(s: Proto, exit: Exit)
    requires Counted(s) && Enabled(s, Process(exit))
    ensures Counted(Next(s, Process(exit)))
  {
    assert Jobs(s.finished + [(s.worker.job, exit)]) == Jobs(s.finished) + [s.worker.job];
  }

  lemma StepKeepsCounted(s: Proto, step: Step)
    requires Counted(s) && Enabled(s, step)
    ensures Counted(Next(s, step))
  {
    match step
    case Add(job) => AddKeepsCounted(s, job);
    case Send(job) => SendKeepsCounted(s, job);
    case Receive => ReceiveKeepsCounted(s);
    case Process(exit) => ProcessKeepsCounted(s, exit);
    case _ =>
  }

  /** In every interleaving, orderly or not, the pending counter is the number of producers between add and send,
      queued jobs and jobs in hand; so it is never negative, and it is zero only when all is finished. */
  lemma {:induction false} PendingCounts(s: Proto, steps: seq<Step>)
    requires Counted(s) && Legal(s, steps)
    ensures Counted(Final(s, steps))
    ensures Final(s, steps).pending >= 0
    ensures Final(s, steps).pending == |Final(s, steps).triggered| - |Final(s, steps).finished|
    decreases |steps|
  {
    if steps == [] {
      CountedTotals(s);
    } else {
      StepKeepsCounted(s, steps[0]);
      PendingCounts(Next(s, steps[0]), steps[1..]);
    }
  }

  lemma CountedTotals(s: Proto)
    requires Counted(s)
    ensures s.pending == |s.triggered| - |s.finished|
  {
    assert |multiset(s.triggered)| == |multiset(s.sent)| + |s.entering|;
  }

  // ----- shutdown

  /** How far Shutdown and the worker can be. */
  ghost predicate PhasesOk(s: Proto) {
    && !s.panicked
    && (s.closed <==> !s.phase.Live?)
    && (s.closed ==> s.entering == multiset{})
    && (s.worker.Exited? ==> s.cancelled || (s.closed && s.queue == []))
    && (s.phase.SawDone? || s.phase.ReturnedNil? ==> s.pending == 0)
    && (s.phase.TimedOut? || s.phase.ReturnedError? ==> s.cancelled)
    && (s.phase.ReturnedNil? || s.phase.ReturnedError? ==> s.worker.Exited?)
  }

  ghost predicate ShutdownOk(s: Proto) {
    Counted(s) && PhasesOk(s)
  }

  lemma BusyIsPending(s: Proto)
    requires Counted(s) && s.worker.Busy?
    ensures s.pending > 0
  {
  }

  lemma StepKeepsPhasesOk(s: Proto, step: Step)
    requires PhasesOk(s) && Enabled(s, step) && Orderly(s, step) && (s.worker.Busy? ==> s.pending > 0)
    ensures PhasesOk(Next(s, step))
  {
  }

  lemma StepKeepsShutdownOk(s: Proto, step: Step)
    requires ShutdownOk(s) && Enabled(s, step) && Orderly(s, step)
    ensures ShutdownOk(Next(s, step))
  {
    StepKeepsCounted(s, step);
    if s.worker.Busy? {
      BusyIsPending(s);
    }
    StepKeepsPhasesOk(s, step);
    hide Counted, PhasesOk;
  }

  lemma {:induction false} OrderlyRunKeepsShutdownOk(s: Proto, steps: seq<Step>)
    requires ShutdownOk(s) && Legal(s, steps) && OrderlyRun(s, steps)
    ensures ShutdownOk(Final(s, steps))
    decreases |steps|
  {
    hide ShutdownOk;
    if steps == [] {
    } else {
      StepKeepsShutdownOk(s, steps[0]);
      OrderlyRunKeepsShutdownOk(Next(s, steps[0]), steps[1..]);
    }
  }

  lemma StartedOk()
    ensures ShutdownOk(STARTED)
  {
    assert Jobs([]) == [];
  }

  /** If Shutdown returns nil, every job ever triggered was received in the order it was sent and has been
      finished, the queue is empty, the counter is zero and the worker has exited; nothing panicked. */
  lemma NilReturnMeansAllFinished(steps: seq<Step>)
    requires Legal(STARTED, steps) && OrderlyRun(STARTED, steps)
    requires Final(STARTED, steps).phase.ReturnedNil?
    ensures var s := Final(STARTED, steps);
            && s.worker.Exited? && s.queue == [] && s.pending == 0 && !s.panicked
            && s.sent == s.received == Jobs(s.finished)
            && multiset(s.triggered) == multiset(Jobs(s.finished))
  {
    StartedOk();
    OrderlyRunKeepsShutdownOk(STARTED, steps);
  }

  lemma LeftQueued(s: Proto)
    requires ShutdownOk(s) && s.phase.ReturnedError?
    ensures s.sent == Jobs(s.finished) + s.queue && s.pending == |s.queue|
    ensures multiset(s.triggered) == multiset(Jobs(s.finished)) <==> s.queue == []
  {
    assert multiset(s.triggered) == multiset(Jobs(s.finished)) + multiset(s.queue);
    assert |multiset(s.triggered)| == |multiset(Jobs(s.finished))| + |s.queue|;
  }

  /** If Shutdown returns the timeout error, the context was cancelled and the worker has exited with nothing
      in hand; the finished jobs are the first ones sent, and all are finished if and only if none is left queued. */
  lemma ErrorReturnMeansCancelled(steps: seq<Step>)
    requires Legal(STARTED, steps) && OrderlyRun(STARTED, steps)
    requires Final(STARTED, steps).phase.ReturnedError?
    ensures var s := Final(STARTED, steps);
            && s.cancelled && s.worker.Exited? && !s.panicked
            && s.sent == Jobs(s.finished) + s.queue && s.pending == |s.queue|
            && (multiset(s.triggered) == multiset(Jobs(s.finished)) <==> s.queue == [])
  {
    hide Counted;
    StartedOk();
    OrderlyRunKeepsShutdownOk(STARTED, steps);
    LeftQueued(Final(STARTED, steps));
  }

  // ----- what becomes of the monitoring status

  /** The status that the worker wrote for the i-th job sent, if it wrote one. */
  function Written(s: Proto, i: nat): Option<Monitoring> {
    if i < |s.finished| then StatusOf(s.finished[i].1) else None
  }

  predicate MarkedFailed(s: Proto, i: nat) {
    Written(s, i) == Some(ArchivingFailed)
  }

  predicate Completed(s: Proto, i: nat) {
    i < |s.finished| && s.finished[i].1 == Archived
  }

  /** The job has been completed or marked as failed: its status is final. */
  predicate Settled(s: Proto, i: nat) {
    Written(s, i).Some?
  }

  /** An error exit that only logs. */
  predicate Silent(exit: Exit) {
    exit.FootprintError? || exit.EnergyError? || exit.ExecuteError?
  }

  predicate NoSilentExit(s: Proto) {
    forall i :: 0 <= i < |s.finished| ==> !Silent(s.finished[i].1)
  }

  /** When Shutdown returns the timeout error, position by position in the order the jobs were sent: the promise that
      jobs which miss the timeout are marked as failed is kept if and only if none is left queued; that jobs which end
      in an error are, if and only if no exit was silent; and that every job ends completed or marked as failed, if
      and only if both hold. */
  lemma FailureMarkIff(steps: seq<Step>)
    requires Legal(STARTED, steps) && OrderlyRun(STARTED, steps)
    requires Final(STARTED, steps).phase.ReturnedError?
    ensures var s := Final(STARTED, steps);
            && |s.sent| == |s.finished| + |s.queue|
            && (forall i :: 0 <= i < |s.finished| ==> s.sent[i] == s.finished[i].0)
            && ((forall i :: |s.finished| <= i < |s.sent| ==> MarkedFailed(s, i)) <==> s.queue == [])
            && ((forall i :: 0 <= i < |s.finished| && !Completed(s, i) ==> MarkedFailed(s, i)) <==> NoSilentExit(s))
            && ((forall i :: 0 <= i < |s.sent| ==> Settled(s, i)) <==> s.queue == [] && NoSilentExit(s))
  {
    ErrorReturnMeansCancelled(steps);
    var s := Final(STARTED, steps);
    assert forall i :: 0 <= i < |s.finished| ==> s.sent[i] == Jobs(s.finished)[i];
    QueuedUnmarked(s);
    ErrorsMarkedIff(s);
    AllSettledIff(s);
  }

  lemma SilentIff(s: Proto, i: nat)
    requires i < |s.finished|
    ensures !Silent(s.finished[i].1) <==> Completed(s, i) || MarkedFailed(s, i)
    ensures !Silent(s.finished[i].1) <==> Settled(s, i)
  {
  }

  lemma QueuedUnmarked(s: Proto)
    requires |s.sent| == |s.finished| + |s.queue|
    ensures (forall i :: |s.finished| <= i < |s.sent| ==> MarkedFailed(s, i)) <==> s.queue == []
  {
    if s.queue != [] {
      assert |s.finished| < |s.sent| && !MarkedFailed(s, |s.finished|);
    }
  }

  lemma ErrorsMarkedIff(s: Proto)
    ensures (forall i :: 0 <= i < |s.finished| && !Completed(s, i) ==> MarkedFailed(s, i)) <==> NoSilentExit(s)
  {
    forall i | 0 <= i < |s.finished| ensures !Silent(s.finished[i].1) <==> Completed(s, i) || MarkedFailed(s, i) {
      SilentIff(s, i);
    }
  }

  lemma AllSettledIff(s: Proto)
    requires |s.sent| == |s.finished| + |s.queue|
    ensures (forall i :: 0 <= i < |s.sent| ==> Settled(s, i)) <==> s.queue == [] && NoSilentExit(s)
  {
    forall i | 0 <= i < |s.finished| ensures !Silent(s.finished[i].1) <==> Settled(s, i) {
      SilentIff(s, i);
    }
    if s.queue != [] {
      assert |s.finished| < |s.sent| && !Settled(s, |s.finished|);
    }
  }

  /** One job is triggered and sent, then Shutdown times out before the worker takes it. */
  function MissedRun(job: Job): seq<Step> {
    [Add(job), Send(job)] + [Close, TimeOut, SeeCancelled, ReturnError]
  }

  lemma MissedShutdown(s: Proto)
    requires s.phase.Live? && s.worker.Waiting? && s.entering == multiset{}
    ensures var steps := [Close, TimeOut, SeeCancelled, ReturnError];
            && Legal(s, steps) && OrderlyRun(s, steps)
            && Final(s, steps) == s.(closed := true, cancelled := true, worker := Exited, phase := ReturnedError)
  {
    var s1 := Next(s, Close);
    var s2 := Next(s1, TimeOut);
    var s3 := Next(s2, SeeCancelled);
    Prepend(s3, ReturnError, []);
    Prepend(s2, SeeCancelled, [ReturnError]);
    Prepend(s1, TimeOut, [SeeCancelled, ReturnError]);
    Prepend(s, Close, [TimeOut, SeeCancelled, ReturnError]);
  }

  /** The promise can fail: this run times out with the job still queued, and no one ever touches its status. */
  lemma TimeoutLeavesJobUnmarked(job: Job)
    ensures var steps := MissedRun(job);
            && Legal(STARTED, steps) && OrderlyRun(STARTED, steps)
            && Final(STARTED, steps).phase.ReturnedError?
            && Final(STARTED, steps).triggered == [job] && !MarkedFailed(Final(STARTED, steps), 0)
  {
    var rest := [Close, TimeOut, SeeCancelled, ReturnError];
    var s1 := Next(STARTED, Add(job));
    var s2 := Next(s1, Send(job));
    MissedShutdown(s2);
    Prepend(s1, Send(job), rest);
    Prepend(STARTED, Add(job), [Send(job)] + rest);
    assert MissedRun(job) == [Add(job)] + ([Send(job)] + rest);
  }

  lemma Prepend(s: Proto, step: Step, rest: seq<Step>)
    requires Enabled(s, step) && Orderly(s, step)
    requires Legal(Next(s, step), rest) && OrderlyRun(Next(s, step), rest)
    ensures Legal(s, [step] + rest) && OrderlyRun(s, [step] + rest)
    ensures Final(s, [step] + rest) == Final(Next(s, step), rest)
  {
    assert ([step] + rest)[1..] == rest;
  }

  // ----- no deadlock

  /** Steps left before Shutdown has returned, once the channel is closed. */
  function Measure(s: Proto): nat {
    2 * |s.queue| + (match s.worker case Busy(_) => 2 case Waiting => 1 case Exited => 0) +
    (match s.phase case Draining => 2 case SawDone => 1 case TimedOut => 1 case _ => 0)
  }

  lemma StepDecreasesMeasure(s: Proto, step: Step)
    requires ShutdownOk(s) && s.closed && Enabled(s, step) && Orderly(s, step) && !step.ParentCancel?
    ensures Measure(Next(s, step)) < Measure(s)
  {
  }

  /** After the channel is closed Shutdown returns: no run is longer than the measure, and in every state
      in which it has not returned some step can be taken. Only a further cancellation is not counted. */
  lemma {:induction false} ShutdownReturns(s: Proto, steps: seq<Step>)
    requires ShutdownOk(s) && s.closed && Legal(s, steps) && OrderlyRun(s, steps)
    requires forall i :: 0 <= i < |steps| ==> !steps[i].ParentCancel?
    ensures |steps| <= Measure(s)
    ensures var t := Final(s, steps);
            t.phase.ReturnedNil? || t.phase.ReturnedError? ||
            exists step :: Enabled(t, step) && Orderly(t, step) && !step.ParentCancel?
    decreases |steps|
  {
    hide ShutdownOk;
    if steps == [] {
      NotStuck(s);
    } else {
      StepDecreasesMeasure(s, steps[0]);
      StepKeepsShutdownOk(s, steps[0]);
      StaysClosed(s, steps[0]);
      ShutdownReturns(Next(s, steps[0]), steps[1..]);
    }
  }

  lemma StaysClosed(s: Proto, step: Step)
    requires s.closed && Enabled(s, step)
    ensures Next(s, step).closed
  {
  }

  lemma NotStuck(s: Proto)
    requires ShutdownOk(s) && s.closed
    ensures s.phase.ReturnedNil? || s.phase.ReturnedError? ||
            exists step :: Enabled(s, step) && Orderly(s, step) && !step.ParentCancel?
  {
    var step :=
      if s.worker.Busy? then Process(Archived)
      else if s.worker.Waiting? then (if s.queue == [] then SeeClosed else Receive)
      else if s.phase.Draining? then TimeOut
      else if s.phase.SawDone? then ReturnNil
      else ReturnError;
    assert s.phase.ReturnedNil? || s.phase.ReturnedError? || (Enabled(s, step) && Orderly(s, step));
  }

  // ----- a trigger that is late

  /** Until the send panics, a producer between Add and send stays there once the channel is closed. */
  lemma LateProducerStays(s: Proto, job: Job, step: Step)
    requires Counted(s) && s.closed && job in s.entering && Enabled(s, step)
    ensures !Enabled(s, SeeDone)
    ensures var t := Next(s, step);
            && Counted(t) && t.closed && job in t.entering
            && (t.panicked <==> s.panicked || step.Send?)
            && (t.phase.SawDone? || t.phase.ReturnedNil? ==> s.phase.SawDone?  || s.phase.ReturnedNil?)
  {
    hide Counted, Next, Enabled;
    StepKeepsCounted(s, step);
    EnteringIsPending(s, job);
    LateStep(s, job, step);
  }

  lemma LateStep(s: Proto, job: Job, step: Step)
    requires s.pending > 0 && s.closed && job in s.entering && Enabled(s, step)
    ensures !Enabled(s, SeeDone)
    ensures var t := Next(s, step);
            && t.closed && job in t.entering
            && (t.panicked <==> s.panicked || step.Send?)
            && (t.phase.SawDone? || t.phase.ReturnedNil? ==> s.phase.SawDone?  || s.phase.ReturnedNil?)
  {
  }

  lemma EnteringIsPending(s: Proto, job: Job)
    requires Counted(s) && job in s.entering
    ensures s.pending > 0
  {
    assert |s.entering| >= s.entering[job] > 0;
  }

  /** A producer still between Add and send when the channel is closed: in every further run, orderly or not, its send
      panics, Shutdown never sees the counter at zero, and so never returns nil. */
  lemma {:induction false} LateProducerPanics(s: Proto, job: Job, steps: seq<Step>)
    requires Counted(s) && s.closed && job in s.entering && Legal(s, steps)
    ensures var t := Final(s, steps);
            && Counted(t) && t.closed && job in t.entering && !Enabled(t, SeeDone)
            && (s.panicked || Send(job) in steps ==> t.panicked)
            && (t.phase.SawDone? || t.phase.ReturnedNil? ==> s.phase.SawDone? || s.phase.ReturnedNil?)
    decreases |steps|
  {
    hide Counted;
    if steps == [] {
      LateProducerStays(s, job, ParentCancel);
    } else {
      LateProducerStays(s, job, steps[0]);
      LateProducerPanics(Next(s, steps[0]), job, steps[1..]);
    }
  }

  // ----- the goroutines as code

  /** What the archiving calls of one job report. */
  datatype Calls = Calls(metadata: bool, archive: bool, footprint: bool, energy: bool, execute: bool)

  function ExitOf(c: Calls): Exit {
    if !c.metadata then MetadataError
    else if !c.archive then ArchiveError
    else if !c.footprint then FootprintError
    else if !c.energy then EnergyError
    else if !c.execute then ExecuteError
    else Archived
  }

  /** The exit names the first call that failed. */
  lemma ExitIff(c: Calls)
    ensures ExitOf(c) == MetadataError <==> !c.metadata
    ensures ExitOf(c) == ArchiveError <==> c.metadata && !c.archive
    ensures ExitOf(c) == FootprintError <==> c.metadata && c.archive && !c.footprint
    ensures ExitOf(c) == EnergyError <==> c.metadata && c.archive && c.footprint && !c.energy
    ensures ExitOf(c) == ExecuteError <==> c.metadata && c.archive && c.footprint && c.energy && !c.execute
    ensures ExitOf(c) == Archived <==> c.metadata && c.archive && c.footprint && c.energy && c.execute
  {
  }

  /** The status that the calls for one job lead to, if any. */
  function Verdict(c: Calls): Option<Monitoring> {
    if !c.metadata || !c.archive then Some(ArchivingFailed)
    else if c.footprint && c.energy && c.execute then Some(ArchivingSuccessful)
    else None
  }

  /** The last verdict on job j among the first n. */
  function LastVerdict(jobs: seq<Job>, calls: seq<Calls>, n: nat, j: Job): Option<Monitoring>
    requires n <= |jobs| && n <= |calls|
  {
    if n == 0 then None
    else if jobs[n - 1] == j && Verdict(calls[n - 1]).Some? then Verdict(calls[n - 1])
    else LastVerdict(jobs, calls, n - 1, j)
  }

  /** The statuses after the first n jobs: each job has the last verdict on it, or its old status if there was none. */
  ghost predicate StatusAfter(before: map<Job, Monitoring>, after: map<Job, Monitoring>, jobs: seq<Job>,
                              calls: seq<Calls>, n: nat)
    requires n <= |jobs| && n <= |calls|
  {
    forall j: Job ::
      match LastVerdict(jobs, calls, n, j)
      case Some(m) => j in after && after[j] == m
      case None => (j in after <==> j in before) && (j in before ==> after[j] == before[j])
  }

  lemma NoStatus(status: map<Job, Monitoring>, jobs: seq<Job>, calls: seq<Calls>)
    ensures StatusAfter(status, status, jobs, calls, 0)
  {
  }

  lemma StatusNext(before: map<Job, Monitoring>, after: map<Job, Monitoring>, jobs: seq<Job>, calls: seq<Calls>, n: nat)
    requires n < |jobs| && n < |calls| && StatusAfter(before, after, jobs, calls, n)
    ensures StatusAfter(before, if Verdict(calls[n]).Some? then after[jobs[n] := Verdict(calls[n]).value] else after,
                        jobs, calls, n + 1)
  {
    hide Verdict;
  }

  /** How a send on the channel ends. */
  datatype Sending = Sent | Blocked | Panics

  class ArchiveWorker {
    var channel: seq<Job>
    var pending: int
    var closed: bool
    var cancelled: bool
    var done: bool
    var status: map<Job, Monitoring>
    ghost var log: seq<(Job, Exit)>

    constructor ()
      ensures channel == [] && pending == 0 && !closed && !cancelled && !done && status == map[] && log == []
    {
      channel, pending, closed, cancelled, done, status, log := [], 0, false, false, false, map[], [];
    }

    /** The protocol state this object shows. */
    ghost predicate Shows(s: Proto)
      reads this
    {
      && channel == s.queue && pending == s.pending && closed == s.closed && cancelled == s.cancelled
      && done == s.worker.Exited? && log == s.finished
    }

    /** TriggerArchiving: Add and Send of the protocol. The call blocks, with the job already counted, if the open
        channel is full, and panics if the channel is closed. */
    method TriggerArchiving(job: Job) returns (sending: Sending)
      modifies this`pending, this`channel
      ensures pending == old(pending) + 1
      ensures (sending.Panics? <==> closed) && (sending.Blocked? <==> !closed && |old(channel)| >= 128)
      ensures channel == if sending.Sent? then old(channel) + [job] else old(channel)
      ensures forall s :: old(Shows(s)) ==>
                && Enabled(s, Add(job))
                && var t := Next(s, Add(job));
                && (sending.Blocked? <==> !Enabled(t, Send(job)))
                && Shows(if sending.Blocked? then t else Next(t, Send(job)))
                && (sending.Panics? <==> t.closed)
    {
      pending := pending + 1;
      if closed {
        return Panics;
      }
      if |channel| >= CAPACITY {
        return Blocked;
      }
      channel := channel + [job];
      return Sent;
    }

    /** The body of the worker loop for one job: six exits, each of which calls Done once. */
    method ProcessJob(job: Job, c: Calls)
      modifies this`pending, this`status, this`log
      ensures pending == old(pending) - 1
      ensures log == old(log) + [(job, ExitOf(c))]
      ensures status ==
              if !c.metadata || !c.archive then old(status)[job := ArchivingFailed]
              else if c.footprint && c.energy && c.execute then old(status)[job := ArchivingSuccessful]
              else old(status)
      ensures status == (match StatusOf(ExitOf(c)) case Some(m) => old(status)[job := m] case None => old(status))
    {
      log := log + [(job, ExitOf(c))];
      if !c.metadata {
        status := status[job := ArchivingFailed];
        pending := pending - 1;
        return;
      }
      if !c.archive {
        status := status[job := ArchivingFailed];
        pending := pending - 1;
        return;
      }
      if !c.footprint {
        pending := pending - 1;
        return;
      }
      if !c.energy {
        pending := pending - 1;
        return;
      }
      if !c.execute {
        pending := pending - 1;
        return;
      }
      status := status[job := ArchivingSuccessful];
      pending := pending - 1;
    }

    /** archivingWorker, up to its exit or to the point where it waits on an empty open channel. `calls[i]` answers
        the i-th job; the select takes the cancelled context, once there is one, before job number `cancelAt`. The
        jobs up to there, or all, are processed in channel order, and nothing else is. */
    method Work(calls: seq<Calls>, cancelAt: nat)
      requires !done && |channel| <= |calls|
      modifies this
      ensures done == (closed || cancelled) && closed == old(closed) && cancelled == old(cancelled)
      ensures var n := if old(cancelled) && cancelAt < |old(channel)| then cancelAt else |old(channel)|;
              && channel == old(channel)[n..] && pending == old(pending) - n
              && log == old(log) + Outcomes(old(channel), calls, n)
              && StatusAfter(old(status), status, old(channel), calls, n)
              && forall s :: old(Shows(s)) && s.worker.Waiting? ==>
                   Shows(WorkEnd(s, calls, n).(worker := if done then Exited else Waiting))
    {
      hide StatusAfter, ExitOf;
      NoStatus(status, channel, calls);
      var i := 0;
      while true
        invariant 0 <= i <= |old(channel)| && (old(cancelled) ==> i <= cancelAt || cancelAt >= |old(channel)|)
        invariant !done && closed == old(closed) && cancelled == old(cancelled)
        invariant channel == old(channel)[i..] && pending == old(pending) - i
        invariant log == old(log) + Outcomes(old(channel), calls, i)
        invariant StatusAfter(old(status), status, old(channel), calls, i)
        decreases |channel|
      {
        if cancelled && (i == cancelAt || channel == []) {
          done := true;
          break;
        }
        if channel == [] {
          done := closed;
          break;
        }
        var job := channel[0];
        channel := channel[1..];
        StatusNext(old(status), status, old(channel), calls, i);
        ProcessJob(job, calls[i]);
        i := i + 1;
      }
    }
  }

  /** The protocol state after `n` jobs; `WorkIsARun` shows that a run leads there. */
  function WorkEnd(s: Proto, calls: seq<Calls>, n: nat): Proto
    requires n <= |s.queue| && n <= |calls|
  {
    s.(queue := s.queue[n..], pending := s.pending - n, received := s.received + s.queue[..n],
       finished := s.finished + Outcomes(s.queue, calls, n))
  }

  function Outcomes(jobs: seq<Job>, calls: seq<Calls>, n: nat): seq<(Job, Exit)>
    requires n <= |jobs| && n <= |calls|
  {
    seq(n, i requires 0 <= i < n => (jobs[i], ExitOf(calls[i])))
  }

  /** The protocol steps of the worker loop over the first `n` queued jobs. */
  function WorkSteps(calls: seq<Calls>, n: nat): seq<Step>
    requires n <= |calls|
  {
    if n == 0 then [] else [Receive, Process(ExitOf(calls[0]))] + WorkSteps(calls[1..], n - 1)
  }

  lemma WorkEndStep(s: Proto, calls: seq<Calls>, n: nat)
    requires s.worker.Waiting? && 0 < n <= |s.queue| && n <= |calls|
    ensures var t := Next(Next(s, Receive), Process(ExitOf(calls[0])));
            t.worker.Waiting? && t.queue == s.queue[1..] && WorkEnd(t, calls[1..], n - 1) == WorkEnd(s, calls, n)
  {
    var e := (s.queue[0], ExitOf(calls[0]));
    assert s.received + s.queue[..n] == s.received + [s.queue[0]] + s.queue[1..][..n - 1];
    assert Outcomes(s.queue, calls, n) == [e] + Outcomes(s.queue[1..], calls[1..], n - 1);
    assert s.finished + ([e] + Outcomes(s.queue[1..], calls[1..], n - 1)) ==
           s.finished + [e] + Outcomes(s.queue[1..], calls[1..], n - 1);
    assert s.queue[1..][n - 1..] == s.queue[n..];
  }

  lemma TwoSteps(s: Proto, a: Step, b: Step, rest: seq<Step>)
    requires Enabled(s, a) && Enabled(Next(s, a), b) && Legal(Next(Next(s, a), b), rest)
    ensures Legal(s, [a, b] + rest) && Final(s, [a, b] + rest) == Final(Next(Next(s, a), b), rest)
  {
    assert ([a, b] + rest)[1..] == [b] + rest && ([b] + rest)[1..] == rest;
  }

  /** What `Work` leaves behind is the end of a run of the protocol. */
  lemma {:induction false} WorkIsARun(s: Proto, calls: seq<Calls>, n: nat)
    requires s.worker.Waiting? && n <= |s.queue| && n <= |calls|
    ensures Legal(s, WorkSteps(calls, n)) && Final(s, WorkSteps(calls, n)) == WorkEnd(s, calls, n)
    decreases n
  {
    if n == 0 {
    } else {
      var e := ExitOf(calls[0]);
      var t := Next(Next(s, Receive), Process(e));
      WorkEndStep(s, calls, n);
      WorkIsARun(t, calls[1..], n - 1);
      TwoSteps(s, Receive, Process(e), WorkSteps(calls[1..], n - 1));
    }
  }

  lemma OrderlyTwo(s: Proto, a: Step, b: Step, rest: seq<Step>)
    requires Enabled(s, a) && Orderly(s, a) && Enabled(Next(s, a), b) && Orderly(Next(s, a), b)
    requires Legal(Next(Next(s, a), b), rest) && OrderlyRun(Next(Next(s, a), b), rest)
    ensures Legal(s, [a, b] + rest) && OrderlyRun(s, [a, b] + rest)
    ensures Final(s, [a, b] + rest) == Final(Next(Next(s, a), b), rest)
  {
    hide Enabled, Next, Orderly;
    assert ([a, b] + rest)[1..] == [b] + rest && ([b] + rest)[1..] == rest;
  }

  lemma NothingLeft(s: Proto)
    requires ShutdownOk(s) && s.phase.Live? && s.worker.Waiting? && s.entering == multiset{} && s.queue == []
    ensures var steps := [Close, SeeDone] + ([SeeClosed, ReturnNil] + []);
            Legal(s, steps) && OrderlyRun(s, steps) && Final(s, steps).phase.ReturnedNil?
  {
    var t := Next(Next(s, Close), SeeDone);
    OrderlyTwo(t, SeeClosed, ReturnNil, []);
    OrderlyTwo(s, Close, SeeDone, [SeeClosed, ReturnNil] + []);
  }

  /** The worker takes the next job and finishes it. */
  lemma FinishOne(s: Proto, exit: Exit)
    requires ShutdownOk(s) && s.phase.Live? && s.worker.Waiting? && s.queue != []
    ensures Enabled(s, Receive) && Orderly(s, Receive)
    ensures var r := Next(s, Receive);
            && Enabled(r, Process(exit)) && Orderly(r, Process(exit))
            && var t := Next(r, Process(exit));
            ShutdownOk(t) && t.phase.Live? && t.worker.Waiting? && t.entering == s.entering && t.queue == s.queue[1..]
  {
    hide ShutdownOk;
    StepKeepsShutdownOk(s, Receive);
    StepKeepsShutdownOk(Next(s, Receive), Process(exit));
  }

  /** Work through the queue, then shut down. */
  function Graceful(calls: seq<Calls>, n: nat): seq<Step>
    requires n <= |calls|
  {
    if n == 0 then [Close, SeeDone] + ([SeeClosed, ReturnNil] + [])
    else [Receive, Process(ExitOf(calls[0]))] + Graceful(calls[1..], n - 1)
  }

  /** A shutdown need not time out: with no trigger under way, the worker can finish what is queued, whatever its calls
      report, and Shutdown returns nil. */
  lemma {:induction false} GracefulShutdown(s: Proto, calls: seq<Calls>)
    requires ShutdownOk(s) && s.phase.Live? && s.worker.Waiting? && s.entering == multiset{} && |s.queue| <= |calls|
    ensures var steps := Graceful(calls, |s.queue|);
            Legal(s, steps) && OrderlyRun(s, steps) && Final(s, steps).phase.ReturnedNil?
    decreases |s.queue|
  {
    hide ShutdownOk, Enabled, Next, Orderly, Legal, OrderlyRun, Final, ExitOf;
    if s.queue == [] {
      NothingLeft(s);
    } else {
      var exit := ExitOf(calls[0]);
      FinishOne(s, exit);
      var t := Next(Next(s, Receive), Process(exit));
      GracefulShutdown(t, calls[1..]);
      OrderlyTwo(s, Receive, Process(exit), Graceful(calls[1..], |t.queue|));
    }
  }
}
