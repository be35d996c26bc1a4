/**
 The offload job as the object it is. Its methods are made of the atomic steps of OffloadModel.dfy, with the
 worker's own steps falling wherever the caller says, so each keeps the invariant of every interleaving.
*/
module OffloadImpl {
  import opened OffloadModel

  /** The worker's next step, if it has a pass to work on. */
  function WorkerStep(s: Job): Job {
    if s.jobs == [] then s else
      match s.jobs[0]
      case Queued => Do(s, Work)
      case Worked => Do(s, Count)
      case Counted => Do(s, Signal)
  }

  function WorkerSteps(s: Job, n: nat): Job {
    if n == 0 then s else WorkerStep(WorkerSteps(s, n - 1))
  }

  /** Nothing on the loop's side moves while the worker works. */
  ghost predicate LoopSideKept(s: Job, t: Job) {
    && t.busy == s.busy && t.again == s.again && t.retiredPasses == s.retiredPasses && t.wake == s.wake
    && t.pc == s.pc && t.draining == s.draining
    && t.books == s.books.(covered := t.books.covered, finished := t.books.finished)
  }

  lemma WorkerStepKeeps(s: Job)
    requires Inv(s)
    ensures Inv(WorkerStep(s)) && LoopSideKept(s, WorkerStep(s))
  {
    hide Inv, OffloadModel.Run, OffloadModel.Retire, JobsWeight;
    if s.jobs != [] {
      match s.jobs[0]
      case Queued => StepKeeps(s, Work);
      case Worked => StepKeeps(s, Count);
      case Counted => StepKeeps(s, Signal);
    }
  }

  lemma WorkerStepWorks(s: Job)
    requires s.jobs != []
    ensures JobsWeight(WorkerStep(s).jobs) < JobsWeight(s.jobs)
  {
    hide OffloadModel.Run, OffloadModel.Retire;
    var t := WorkerStep(s);
    assert s.jobs[0] != Counted ==> t.jobs[1..] == s.jobs[1..];
  }

  lemma {:induction false} WorkerStepsKeep(s: Job, n: nat)
    requires Inv(s)
    ensures Inv(WorkerSteps(s, n)) && LoopSideKept(s, WorkerSteps(s, n))
  {
    hide Inv, WorkerStep;
    if n > 0 {
      WorkerStepsKeep(s, n - 1);
      WorkerStepKeeps(WorkerSteps(s, n - 1));
    }
  }

  /**
   `retired` for a wakeup, with the worker taking `first` steps between the drain of the eventfd and the read of
   the count, and `second` steps between the read and the rest.
  */
  function RetiredAmid(s: Job, first: nat, second: nat, asks: nat): Job
    requires Inv(s) && Enabled(s, Callback)
  {
    var drained := Do(s, Callback);
    StepKeeps(s, Callback);
    WorkerStepsKeep(drained, first);
    var atRead := WorkerSteps(drained, first);
    var read := Do(atRead, ReadCompletion);
    StepKeeps(atRead, ReadCompletion);
    WorkerStepsKeep(read, second);
    Do(WorkerSteps(read, second), Finish(asks))
  }

  lemma RunTimesOne(s: Job, n: nat)
    ensures RunTimes(s, 0) == s
    ensures RunTimes(s, n + 1) == OffloadModel.Run(RunTimes(s, n))
  {
  }

  class OffloadJob {
    var busy: bool
    var again: bool
    var completion: u32
    var retiredPasses: u32
    var fd: bool
    var jobs: seq<Stage>
    // the loop's pending wakeup and place, and the books
    ghost var wake: bool
    ghost var pc: Pc
    ghost var draining: bool
    ghost var books: Books

    ghost function View(): Job
      reads this
    {
      Job(busy, again, completion, retiredPasses, fd, wake, jobs, pc, draining, books)
    }

    constructor ()
      ensures View() == IDLE && Inv(View())
    {
      hide Inv;
      busy, again, completion, retiredPasses, fd, jobs := false, false, 0, 0, false, [];
      wake, pc, draining := false, Free, false;
      books := Books(0, 0, 0, 0, 0, 0);
      new;
      IdleHolds();
    }

    method Run()
      modifies this
      ensures View() == OffloadModel.Run(old(View()))
    {
      books := books.(requests := books.requests + 1);
      if busy {
        again := true;
        return;
      }
      busy := true;
      jobs := jobs + [Queued];
      books := books.(started := books.started + 1);
    }

    /** One step of the worker: the work itself, the count of it, then the signal. */
    method Worker()
      requires Inv(View())
      modifies this
      ensures View() == WorkerStep(old(View())) && Inv(View())
    {
      hide Inv, OffloadModel.Run, OffloadModel.Retire, JobsWeight;
      WorkerStepKeeps(View());
      if jobs == [] {
        return;
      }
      match jobs[0]
      case Queued =>
        jobs := [Worked] + jobs[1..];
        books := books.(covered := books.requests);
      case Worked =>
        jobs := [Counted] + jobs[1..];
        completion := (completion + 1) % WORD;
        books := books.(finished := books.finished + 1);
      case Counted =>
        jobs := jobs[1..];
        fd := true;
    }

    method WorkerRuns(steps: nat)
      requires Inv(View())
      modifies this
      ensures View() == WorkerSteps(old(View()), steps) && Inv(View())
    {
      hide Inv, WorkerStep;
      for i := 0 to steps
        invariant View() == WorkerSteps(old(View()), i) && Inv(View())
      {
        Worker();
      }
    }

    /** Wait until the worker is idle. */
    method Join()
      requires Inv(View())
      modifies this
      ensures Inv(View()) && LoopSideKept(old(View()), View()) && jobs == []
    {
      hide Inv, WorkerStep;
      while jobs != []
        invariant Inv(View()) && LoopSideKept(old(View()), View())
        decreases JobsWeight(jobs)
      {
        WorkerStepKeeps(View());
        WorkerStepWorks(View());
        Worker();
      }
    }

    /** What the listener asks for when it is called. */
    method Ask(asks: nat)
      modifies this
      ensures View() == RunTimes(old(View()), asks)
    {
      hide OffloadModel.Run, RunTimes;
      RunTimesOne(View(), 0);
      for i := 0 to asks
        invariant View() == RunTimes(old(View()), i)
      {
        RunTimesOne(old(View()), i);
        Run();
      }
    }

    /** The end of `retired`: the pass read as finished is retired, and the listener asks for `asks` passes. */
    method Retire(seen: u32, asks: nat)
      modifies this
      ensures View() == OffloadModel.Retire(old(View()), seen, asks)
    {
      hide OffloadModel.Run, RunTimes;
      ghost var waiting := draining;
      if seen == retiredPasses {
        pc := Free;
        draining := draining && busy;
        return;
      }
      retiredPasses := seen;
      busy := false;
      var rerun := again;
      again := false;
      books := books.(retired := books.retired + 1, fired := books.fired + 1);
      Ask(asks);
      ghost var asked := books.requests;
      if rerun && !busy {
        Run();
      }
      books := books.(requests := asked);
      pc := Free;
      draining := waiting && busy;
    }

    /**
     `retired`, called for a wakeup: the eventfd is drained, the count read and the pass retired, with the worker
     taking `first` and `second` steps in between.
    */
    method Retired(first: nat, second: nat, asks: nat)
      requires Inv(View()) && Enabled(View(), Callback)
      modifies this
      ensures Inv(View()) && View() == RetiredAmid(old(View()), first, second, asks)
    {
      hide Inv, WorkerSteps, OffloadModel.Retire;
      StepKeeps(View(), Callback);
      fd, wake, pc := false, false, Drained;
      WorkerStepsKeep(View(), first);
      WorkerRuns(first);
      StepKeeps(View(), ReadCompletion);
      var seen := completion;
      pc := Read(seen);
      WorkerStepsKeep(View(), second);
      WorkerRuns(second);
      StepKeeps(View(), Finish(asks));
      ghost var read := View();
      Retire(seen, asks);
      RetireLeavesNoDrain(read, seen, asks);
    }

    /** One round of `drain`: the worker is waited for, and the pass it finished is retired. */
    method JoinAndRetire(ask: nat)
      requires Inv(View()) && pc == Free && !draining && busy
      modifies this
      ensures Inv(View()) && pc == Free && !draining
      ensures busy == (ask > 0 || old(again)) && again == (ask > 1)
      ensures jobs == (if busy then [Queued] else []) && !fd && books.fired == old(books.fired) + 1
    {
      hide Inv, OffloadModel.Retire, WorkerStep;
      StepKeeps(View(), DrainCall);
      draining, pc := true, Joining;
      Join();
      StepKeeps(View(), JoinDone);
      fd, pc := false, Drained;
      StepKeeps(View(), ReadCompletion);
      var seen := completion;
      pc := Read(seen);
      JoinedIsRetired(View(), ask);
      Retire(seen, ask);
      draining := false;
    }

    /**
     `drain`: pass after pass is waited for and retired until none is in flight. It ends, whatever the listener
     asks for in the first |asks| of its calls, once it stops asking.
    */
    method Drain(asks: seq<nat>)
      requires Inv(View()) && pc == Free && !draining
      modifies this
      ensures Inv(View()) && pc == Free && !draining && !busy
      ensures !old(busy) ==> View() == old(View())
      ensures old(busy) ==> jobs == [] && !fd && books.fired > old(books.fired) && books.finished == books.retired
      ensures books.covered == books.requests || Queued in jobs
    {
      hide Inv, OffloadModel.Retire, WorkerStep;
      var i := 0;
      BusyShows(View());
      while busy
        invariant Inv(View()) && pc == Free && !draining && 0 <= i <= |asks| && books.fired >= old(books.fired)
        invariant View() == old(View())
          || (jobs == (if busy then [Queued] else []) && !fd && books.fired > old(books.fired))
        invariant again ==> busy
        invariant !old(busy) ==> View() == old(View())
        decreases |asks| - i, again, busy
      {
        JoinAndRetire(if i < |asks| then asks[i] else 0);
        if i < |asks| {
          i := i + 1;
        }
      }
      BusyShows(View());
    }
  }

  lemma RetireLeavesNoDrain(s: Job, seen: u32, asks: nat)
    requires s.pc == Read(seen) && !s.draining
    ensures Do(s, Finish(asks)) == OffloadModel.Retire(s, seen, asks)
  {
    hide RunTimes, OffloadModel.Run;
  }

  lemma BusyShows(s: Job)
    requires Inv(s)
    ensures s.again ==> s.busy
    ensures s.books.covered == s.books.requests || Queued in s.jobs || s.busy
    ensures !s.busy ==> s.books.finished == s.books.retired
  {
  }

  /** With the worker idle, a waiting drain sees a pass nobody retired, and retires it. */
  lemma JoinedIsRetired(s: Job, asks: nat)
    requires Inv(s) && s.draining && s.pc.Read? && s.jobs == []
    ensures var t := OffloadModel.Retire(s, s.pc.finished, asks);
      && t.books.fired == s.books.fired + 1 && t.jobs == (if t.busy then [Queued] else []) && t.fd == s.fd
      && t.busy == (asks > 0 || s.again) && t.again == (asks > 1) && t.pc == Free && t.wake == s.wake
      && t.draining == t.busy
    ensures var t := OffloadModel.Retire(s, s.pc.finished, asks).(draining := false);
      Inv(t)
  {
    hide OffloadModel.Retire;
    NeighboursDiffer(s.books.retired);
    RetireIs(s, s.pc.finished, asks);
  }
}
