/**
 The offload job: one background pass at a time, shared by the event loop and the worker thread, as atomic steps
 of the two. The loop hears of a finished pass through an eventfd, whose wakeup it may collect long before it acts
 on it.
*/
module OffloadModel {
  const WORD: nat := 0x1_0000_0000

  type u32 = x: int | 0 <= x < WORD

  /** A submitted pass: not begun, its work done, counted but not yet signalled. */
  datatype Stage = Queued | Worked | Counted

  /** Where the loop is: free, waiting for the worker to go idle, in `retired` past the drain, past the read. */
  datatype Pc = Free | Joining | Drained | Read(finished: u32)

  datatype Job = Job(
    busy: bool, again: bool, completion: u32, retiredPasses: u32,
    fd: bool, wake: bool,        // the eventfd is signalled; the loop has a collected wakeup to act on
    jobs: seq<Stage>,            // the worker's queue, served from the front
    pc: Pc, draining: bool, books: Books)

  /**
   What was asked and done: requests made and those made before the last pass to begin, passes started, finished,
   retired, and calls of the listener.
  */
  datatype Books = Books(requests: nat, covered: nat, started: nat, finished: nat, retired: nat, fired: nat)

  const IDLE := Job(false, false, 0, 0, false, false, [], Free, false, Books(0, 0, 0, 0, 0, 0))

  // ----- the loop's side -----

  function Run(s: Job): Job {
    var t := s.(books := s.books.(requests := s.books.requests + 1));
    if s.busy then t.(again := true)
    else t.(busy := true, jobs := s.jobs + [Queued], books := t.books.(started := s.books.started + 1))
  }

  /** The coalesced request re-enters `run`, but it is one already made. */
  function Rerun(s: Job): Job {
    var t := Run(s);
    t.(books := t.books.(requests := s.books.requests))
  }

  function RunTimes(s: Job, n: nat): Job {
    if n == 0 then s else Run(RunTimes(s, n - 1))
  }

  /** The end of `retired`, past the read: the listener asks for `asks` passes of its own. */
  function Retire(s: Job, finished: u32, asks: nat): Job {
    if finished == s.retiredPasses then s.(pc := Free, draining := s.draining && s.busy) else
      var told := s.(retiredPasses := finished, busy := false, again := false,
                     books := s.books.(retired := s.books.retired + 1, fired := s.books.fired + 1));
      var asked := RunTimes(told, asks);
      var rerun := if s.again && !asked.busy then Rerun(asked) else asked;
      rerun.(pc := Free, draining := s.draining && rerun.busy)
  }

  datatype Step =
    | Request                  // run()
    | Collect | Callback       // the wakeup is collected; its callback drains the eventfd
    | DrainCall | JoinDone     // drain(): wait for the worker, then drain the eventfd
    | ReadCompletion | Finish(asks: nat)
    | Work | Count | Signal    // the worker

  predicate Enabled(s: Job, step: Step) {
    match step
    case Request => s.pc == Free && !s.draining
    case Collect => s.fd && !s.wake
    case Callback => s.pc == Free && !s.draining && s.wake
    case DrainCall => s.pc == Free && !s.draining && s.busy
    case JoinDone => s.pc == Joining && s.jobs == []
    case ReadCompletion => s.pc == Drained
    case Finish(_) => s.pc.Read?
    case Work => s.jobs != [] && s.jobs[0] == Queued
    case Count => s.jobs != [] && s.jobs[0] == Worked
    case Signal => s.jobs != [] && s.jobs[0] == Counted
  }

  function Do(s: Job, step: Step): Job
    requires Enabled(s, step)
  {
    match step
    case Request => Run(s)
    case Collect => s.(wake := true)
    case Callback => s.(wake := false, fd := false, pc := Drained)
    case DrainCall => s.(draining := true, pc := Joining)
    case JoinDone => s.(fd := false, pc := Drained)
    case ReadCompletion => s.(pc := Read(s.completion))
    case Finish(asks) =>
      var t := Retire(s, s.pc.finished, asks);
      if t.draining then t.(pc := Joining) else t
    case Work => s.(jobs := [Worked] + s.jobs[1..], books := s.books.(covered := s.books.requests))
    case Count => s.(jobs := [Counted] + s.jobs[1..], completion := (s.completion + 1) % WORD,
        books := s.books.(finished := s.books.finished + 1))
    case Signal => s.(jobs := s.jobs[1..], fd := true)
  }

  // ----- what every interleaving keeps -----

  /** The shape of the worker's queue: perhaps a pass still to be signalled, then perhaps one still to finish. */
  ghost predicate Queue(s: Job) {
    && |s.jobs| <= 2
    && (|s.jobs| == 2 ==> s.jobs[0] == Counted && s.jobs[1] == Queued)
    && s.books.started == s.books.finished + Unfinished(s.jobs)
  }

  function Unfinished(jobs: seq<Stage>): nat {
    if jobs == [] then 0 else if jobs[|jobs| - 1] == Counted then 0 else 1
  }

  /** A finished pass that is not retired will still be seen. */
  ghost predicate WillWake(s: Job) {
    || s.fd || s.wake || (s.jobs != [] && s.jobs[0] == Counted)
    || s.pc == Joining || s.pc == Drained || (s.pc.Read? && s.pc.finished != s.retiredPasses)
  }

  /** Every request is behind the last pass to begin, or one that has yet to begin is sure to come. */
  ghost predicate WillCover(s: Job) {
    s.books.covered == s.books.requests || Queued in s.jobs || (s.again && s.busy)
  }

  ghost predicate Inv(s: Job) {
    && Queue(s) && WillCover(s) && (s.books.finished != s.books.retired ==> WillWake(s))
    && s.books.covered <= s.books.requests
    && s.completion == s.books.finished % WORD && s.retiredPasses == s.books.retired % WORD
    && s.books.retired <= s.books.finished <= s.books.retired + 1
    && s.books.started == s.books.retired + (if s.busy then 1 else 0)
    && s.books.fired == s.books.retired
    && (s.again ==> s.busy)
    && (s.pc.Read? ==> s.pc.finished == s.retiredPasses || s.pc.finished == s.completion)
    && (s.draining ==> s.busy && s.pc != Free) && (s.pc == Joining ==> s.draining)
    && (s.draining && s.pc != Joining ==> s.jobs == [] && s.books.finished == s.books.retired + 1)
    && (s.draining && s.pc.Read? ==> s.pc.finished == s.completion)
  }

  lemma {:induction false} RunTimesKeeps(s: Job, n: nat)
    requires s.again ==> s.busy
    ensures var t := RunTimes(s, n);
      if n == 0 then t == s
      else if s.busy then t == s.(again := true, books := s.books.(requests := s.books.requests + n))
      else t == s.(busy := true, jobs := s.jobs + [Queued], again := n > 1,
                   books := s.books.(requests := s.books.requests + n, started := s.books.started + 1))
  {
    if n > 0 {
      RunTimesKeeps(s, n - 1);
    }
  }

  lemma NeighboursDiffer(n: nat)
    ensures n % WORD != (n + 1) % WORD
  {
  }

  /** What retiring a new pass comes to: at most one pass is queued, whoever asked for it. */
  lemma RetireIs(s: Job, finished: u32, asks: nat)
    requires (s.again ==> s.busy) && finished != s.retiredPasses
    ensures var t := Retire(s, finished, asks);
      && t.busy == (asks > 0 || s.again) && t.again == (asks > 1) && t.retiredPasses == finished
      && t.completion == s.completion && t.fd == s.fd && t.wake == s.wake && t.pc == Free
      && t.draining == (s.draining && t.busy) && t.jobs == (if t.busy then s.jobs + [Queued] else s.jobs)
      && t.books == Books(s.books.requests + asks, s.books.covered,
                          s.books.started + (if t.busy then 1 else 0), s.books.finished,
                          s.books.retired + 1, s.books.fired + 1)
  {
    hide RunTimes;
    RunTimesKeeps(s.(retiredPasses := finished, busy := false, again := false,
                     books := s.books.(retired := s.books.retired + 1, fired := s.books.fired + 1)), asks);
  }

  lemma FinishKeeps(s: Job, asks: nat)
    requires Inv(s) && s.pc.Read?
    ensures Inv(Do(s, Finish(asks)))
  {
    hide RunTimes, Run;
    NeighboursDiffer(s.books.retired);
    if s.pc.finished != s.retiredPasses {
      hide Retire;
      RetireIs(s, s.pc.finished, asks);
    }
  }

  lemma LoopKeeps(s: Job, step: Step)
    requires Inv(s) && Enabled(s, step) && !step.Finish? && !step.Work? && !step.Count? && !step.Signal?
    ensures Inv(Do(s, step))
  {
    hide RunTimes, Retire;
    NeighboursDiffer(s.books.retired);
  }

  lemma WorkerKeeps(s: Job, step: Step)
    requires Inv(s) && Enabled(s, step) && (step.Work? || step.Count? || step.Signal?)
    ensures Inv(Do(s, step))
  {
    hide RunTimes, Retire, Run;
    NeighboursDiffer(s.books.retired);
    var t := Do(s, step);
    assert s.jobs == [s.jobs[0]] + s.jobs[1..];
    if step == Work {
      assert |s.jobs| == 1 && t.jobs == [Worked];
    } else if step == Count {
      assert |s.jobs| == 1 && t.jobs == [Counted];
    }
  }

  lemma StepKeeps(s: Job, step: Step)
    requires Inv(s) && Enabled(s, step)
    ensures Inv(Do(s, step))
  {
    hide Do, Inv;
    match step
    case Finish(asks) => FinishKeeps(s, asks);
    case Work => WorkerKeeps(s, step);
    case Count => WorkerKeeps(s, step);
    case Signal => WorkerKeeps(s, step);
    case _ => LoopKeeps(s, step);
  }

  function Exec(s: Job, steps: seq<Step>): Job
    requires Possible(s, steps)
    decreases |steps|, 1
  {
    if steps == [] then s else Do(Exec(s, steps[..|steps| - 1]), steps[|steps| - 1])
  }

  predicate Possible(s: Job, steps: seq<Step>)
    decreases |steps|, 0
  {
    steps == [] ||
    (Possible(s, steps[..|steps| - 1]) && Enabled(Exec(s, steps[..|steps| - 1]), steps[|steps| - 1]))
  }

  lemma {:induction false} EveryInterleavingKeeps(s: Job, steps: seq<Step>)
    requires Inv(s) && Possible(s, steps)
    ensures Inv(Exec(s, steps))
  {
    hide Do, Enabled, Inv;
    if steps != [] {
      EveryInterleavingKeeps(s, steps[..|steps| - 1]);
      StepKeeps(Exec(s, steps[..|steps| - 1]), steps[|steps| - 1]);
    }
  }

  lemma IdleHolds()
    ensures Inv(IDLE)
  {
  }

  /** A state some interleaving leads to. */
  ghost predicate Reachable(s: Job) {
    exists steps: seq<Step> :: Possible(IDLE, steps) && s == Exec(IDLE, steps)
  }

  /** In every interleaving: no wakeup is lost, no request is lost, and the listener ran once per retired pass. */
  lemma NothingIsLost(s: Job)
    requires Reachable(s)
    ensures s.books.finished != s.books.retired ==> WillWake(s)
    ensures WillCover(s) && s.books.fired == s.books.retired
  {
    hide Do, Enabled, Exec, Possible, Queue, WillWake, WillCover;
    IdleHolds();
    var steps: seq<Step> :| Possible(IDLE, steps) && s == Exec(IDLE, steps);
    EveryInterleavingKeeps(IDLE, steps);
  }

  /** A wakeup with no pass finished since the last retirement retires nothing and runs nothing. */
  lemma StaleWakeupIsQuiet(s: Job, asks: nat)
    requires Inv(s) && s.pc.Read? && s.pc.finished == s.retiredPasses
    ensures Do(s, Finish(asks)) == s.(pc := Free)
  {
    NeighboursDiffer(s.books.retired);
  }

  // ----- it all comes to rest -----

  function StageWeight(j: Stage): nat {
    match j case Queued => 22 case Worked => 21 case Counted => 20
  }

  function JobsWeight(jobs: seq<Stage>): nat {
    if jobs == [] then 0 else StageWeight(jobs[0]) + JobsWeight(jobs[1..])
  }

  /** How much is left to do when nobody asks for more. */
  function Rest(s: Job): nat {
    JobsWeight(s.jobs)
    + (if s.again then 30 else 0)
    + (if s.wake then 4 else 0) + (if !s.fd then 0 else if s.wake then 1 else 6)
    + match s.pc { case Free => 0 case Read(_) => 1 case Drained => 2 case Joining => 3 }
  }

  lemma {:induction false} JobsWeightPush(jobs: seq<Stage>, j: Stage)
    ensures JobsWeight(jobs + [j]) == JobsWeight(jobs) + StageWeight(j)
  {
    if jobs == [] {
      assert jobs + [j] == [j] && [j][1..] == [];
    } else {
      JobsWeightPush(jobs[1..], j);
      assert (jobs + [j])[1..] == jobs[1..] + [j];
    }
  }

  /** A step nobody asked for, with a listener that does not re-run, brings rest nearer. */
  lemma StepsTowardsRest(s: Job, step: Step)
    requires Inv(s) && Enabled(s, step) && step != Request && step != DrainCall
    requires step.Finish? ==> step.asks == 0
    ensures Rest(Do(s, step)) < Rest(s)
  {
    var t := Do(s, step);
    match step
    case Finish(_) =>
      JobsWeightPush(s.jobs, Queued);
      NeighboursDiffer(s.books.retired);
    case Work => assert t.jobs[1..] == s.jobs[1..];
    case Count => assert t.jobs[1..] == s.jobs[1..];
    case _ =>
  }

  /** `drain` is never stuck: while it waits, the worker or the loop itself has a step to take. */
  lemma DrainIsNeverStuck(s: Job)
    requires Inv(s) && s.draining
    ensures Enabled(s, Work) || Enabled(s, Count) || Enabled(s, Signal)
      || Enabled(s, JoinDone) || Enabled(s, ReadCompletion) || Enabled(s, Finish(0))
  {
  }

  /** At rest every pass was retired and announced, and every request is behind the start of one. */
  lemma RestIsSettled(s: Job)
    requires Inv(s)
    requires forall step :: Enabled(s, step) ==> step == Request || step == DrainCall
    ensures !s.busy && s.jobs == [] && s.books.covered == s.books.requests
    ensures s.books.started == s.books.finished == s.books.retired == s.books.fired
  {
    assert !Enabled(s, Work) && !Enabled(s, Count) && !Enabled(s, Signal);
    assert !Enabled(s, Collect) && !Enabled(s, Callback) && !Enabled(s, JoinDone) && !Enabled(s, ReadCompletion);
    assert s.pc.Read? ==> Enabled(s, Finish(0));
  }
}
