/**
 Shutdown ends. After the pool is stopped every worker leaves its loop within a number of its
 own steps bounded by the batch size, whatever the other threads do, and once all have left
 the results never change again.
 */
module Shutdown {
  import opened Core
  import opened Server
  import opened System
  import opened SystemInvariant
  import SystemTheorems

  /** Action a is a step of worker w. */
  predicate Own(a: Action, w: nat) {
    (a.CheckStop? || a.PopTask? || a.EndBatch? || a.RunTask? || a.NextBatch?) && a.w == w
  }

  function OwnSteps(actions: seq<Action>, w: nat): nat {
    if actions == [] then 0
    else OwnSteps(actions[..|actions| - 1], w) + (if Own(actions[|actions| - 1], w) then 1 else 0)
  }

  /** Steps that a worker can still make after stop: fill its batch, run it, and see the flag. */
  function Remaining(worker: Worker, batchSize: nat): int {
    match worker.pc
    case Exited => 0
    case Top => 1
    case Running => |worker.batch| - worker.next + 2
    case Popping => 2 * batchSize - |worker.batch| + 3
  }

  /** The most that can remain. */
  function Limit(batchSize: nat): nat {
    2 * batchSize + 3
  }

  lemma RemainingBounds(s: State, w: nat)
    requires Inv(s) && w < |s.workers|
    ensures 0 <= Remaining(s.workers[w], s.batchSize) <= Limit(s.batchSize)
    ensures Remaining(s.workers[w], s.batchSize) == 0 <==> s.workers[w].pc.Exited?
  {
    assert WorkerFits(s, w);
  }

  lemma StepCounts(s: State, a: Action, w: nat)
    requires Inv(s) && s.stop && Enabled(s, a) && w < |s.workers|
    ensures var r := Apply(s, a);
            && r.stop
            && Remaining(r.workers[w], r.batchSize) + (if Own(a, w) then 1 else 0)
               <= Remaining(s.workers[w], s.batchSize)
  {
    assert WorkerFits(s, w);
  }

  /** In every continuation, the own steps of a worker use up what remains. */
  lemma {:induction false} RunCounts(s: State, later: seq<Action>, w: nat)
    requires Inv(s) && s.stop && Run(s, later).Some? && w < |s.workers|
    ensures var r := Run(s, later).value;
            && Inv(r) && r.stop
            && Remaining(r.workers[w], r.batchSize) + OwnSteps(later, w) <= Remaining(s.workers[w], s.batchSize)
  {
    if later != [] {
      var before, a := later[..|later| - 1], later[|later| - 1];
      RunCounts(s, before, w);
      StepCounts(Run(s, before).value, a, w);
      StepKeepsInv(Run(s, before).value, a);
    }
  }

  /** A worker that has not left can always make a step of its own. */
  lemma NeverBlocked(s: State, w: nat) returns (a: Action)
    requires Inv(s) && w < |s.workers| && !s.workers[w].pc.Exited?
    ensures Enabled(s, a) && Own(a, w)
  {
    assert WorkerFits(s, w);
    var worker := s.workers[w];
    a := if worker.pc.Top? then CheckStop(w)
         else if worker.pc.Popping? then EndBatch(w)
         else if worker.next < |worker.batch| then RunTask(w, [])
         else NextBatch(w);
  }

  predicate AllExited(s: State) {
    forall w :: 0 <= w < |s.workers| ==> s.workers[w].pc.Exited?
  }

  /** Once all workers have left, nothing is added to the results any more. */
  lemma {:induction false} ResultsFrozen(s: State, later: seq<Action>)
    requires AllExited(s) && Run(s, later).Some?
    ensures AllExited(Run(s, later).value) && Run(s, later).value.results == s.results
  {
    if later != [] {
      ResultsFrozen(s, later[..|later| - 1]);
      StepFrozen(Run(s, later[..|later| - 1]).value, later[|later| - 1]);
    }
  }

  lemma StepFrozen(s: State, a: Action)
    requires AllExited(s) && Enabled(s, a)
    ensures AllExited(Apply(s, a)) && Apply(s, a).results == s.results
  {
  }

  /** Worker w makes few steps, has left when it has made them, and is not blocked before. */
  ghost predicate Leaves(r: State, w: nat, steps: nat, limit: nat)
    requires w < |r.workers|
  {
    && steps <= limit && (steps == limit ==> r.workers[w].pc.Exited?)
    && (!r.workers[w].pc.Exited? ==> exists a :: Enabled(r, a) && Own(a, w))
  }

  /** What stopping the pool does in every continuation. */
  ghost predicate Ends(s: State, later: seq<Action>, r: State) {
    && r.stop && |r.workers| == |s.workers|
    && |r.results| <= |s.results| + |s.workers| * s.batchSize
    && (forall w :: 0 <= w < |r.workers| ==> Leaves(r, w, OwnSteps(later, w), 2 * s.batchSize + 3))
  }

  lemma WorkerLeaves(s: State, later: seq<Action>, w: nat)
    requires Inv(s) && s.stop && Run(s, later).Some? && w < |s.workers|
    ensures Leaves(Run(s, later).value, w, OwnSteps(later, w), 2 * s.batchSize + 3)
  {
    var r := Run(s, later).value;
    RunCounts(s, later, w);
    RemainingBounds(s, w);
    RemainingBounds(r, w);
    if !r.workers[w].pc.Exited? { var a := NeverBlocked(r, w); }
  }

  lemma StoppedEnds(s: State, later: seq<Action>)
    requires Inv(s) && s.stop && Run(s, later).Some?
    ensures Ends(s, later, Run(s, later).value)
  {
    SystemTheorems.BoundAfterStop(s, later);
    SystemTheorems.RunPays(s, later);
    forall w | 0 <= w < |s.workers| ensures Leaves(Run(s, later).value, w, OwnSteps(later, w), 2 * s.batchSize + 3) {
      WorkerLeaves(s, later, w);
    }
  }

  /**
   For any run, stop the pool, and let anything follow: the flag is set, at most thread_count *
   batch_size further results appear, and every worker makes at most 2 * batch_size + 3 steps,
   is never blocked before it has left, and has left when it has made them.
   */
  lemma ShutdownEnds(listener: int, workers: nat, batchSize: nat, before: seq<Action>, after: seq<Action>)
    requires Run(Start(listener, workers, batchSize), before).Some?
    requires Run(Apply(Run(Start(listener, workers, batchSize), before).value, StopPool), after).Some?
    ensures var s := Apply(Run(Start(listener, workers, batchSize), before).value, StopPool);
            s.stop && Ends(s, after, Run(s, after).value)
  {
    var start := Start(listener, workers, batchSize);
    StartInv(listener, workers, batchSize);
    RunsKeepInv(start, before);
    var s := Run(start, before).value;
    StepKeepsInv(s, StopPool);
    StoppedEnds(Apply(s, StopPool), after);
  }
}
