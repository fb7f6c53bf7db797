/** Shutdown of the server with the MPMC ring, at the grain of atomic accesses. */
module MpmcShutdown {
  import opened Core
  import opened MpmcServer
  import opened MpmcServerRuns
  import opened MpmcSteady
  import System
  import SystemInvariant
  import Progress
  import Shutdown

  /**
   For any run, stop the pool, and let anything follow: the bounds of the coarse system hold of
   the steps that the threads have made.
   */
  lemma ShutdownEnds(listener: int, workers: nat, batchSize: nat, capacity: nat, before: seq<Action>,
                     after: seq<Action>)
    requires capacity >= 2 && Run(Start(listener, workers, batchSize, capacity), before).Some?
    requires var j := Run(Start(listener, workers, batchSize, capacity), before).value;
             Enabled(j, StopPool) && Run(Apply(j, StopPool), after).Some?
    ensures var j := Apply(Run(Start(listener, workers, batchSize, capacity), before).value, StopPool);
            var r := Run(j, after).value;
            j.system.stop && Shutdown.Ends(j.system, Trace(j, after), r.system)
  {
    var start := Start(listener, workers, batchSize, capacity);
    var j := Run(start, before).value;
    RefinesSystem(listener, workers, batchSize, capacity, before);
    StepKeepsLink(j, StopPool);
    var stopped := Apply(j, StopPool);
    RefinesFrom(stopped, after);
    Shutdown.ShutdownEnds(listener, workers, batchSize, Trace(start, before), Trace(stopped, after));
  }

  /** Once all workers have left, the results never change again. */
  lemma ResultsFrozen(listener: int, workers: nat, batchSize: nat, capacity: nat, before: seq<Action>,
                      after: seq<Action>)
    requires capacity >= 2 && Run(Start(listener, workers, batchSize, capacity), before).Some?
    requires var j := Run(Start(listener, workers, batchSize, capacity), before).value;
             Shutdown.AllExited(j.system) && Run(j, after).Some?
    ensures var j := Run(Start(listener, workers, batchSize, capacity), before).value;
            Run(j, after).value.system.results == j.system.results
  {
    var j := Run(Start(listener, workers, batchSize, capacity), before).value;
    RefinesSystem(listener, workers, batchSize, capacity, before);
    RefinesFrom(j, after);
    Shutdown.ResultsFrozen(j.system, Trace(j, after));
  }

  // ----- every worker gets out -----

  lemma OwnLeavesOthers(s: System.State, a: System.Action, w: nat, v: nat)
    requires System.Enabled(s, a) && Shutdown.Own(a, w) && v < |s.workers| && v != w
    ensures System.Apply(s, a).workers[v] == s.workers[v]
  {
  }

  ghost predicate ExitedBelow(s: System.State, m: nat) {
    m <= |s.workers| && forall v :: 0 <= v < m ==> s.workers[v].pc.Exited?
  }

  /** One step of worker w on its way out. */
  lemma StepOut(start: Joint, actions: seq<Action>, j: Joint, w: nat, answer: nat -> seq<byte>)
    returns (longer: seq<Action>, r: Joint)
    requires Leads(start, actions, j, answer) && Steady(j, true, {}) && ExitedBelow(j.system, w)
    requires w < |j.system.workers| && !j.system.workers[w].pc.Exited?
    ensures Leads(start, longer, r, answer) && Steady(r, true, {}) && ExitedBelow(r.system, w)
    ensures SamePool(j.system, r.system)
    ensures Shutdown.Remaining(r.system.workers[w], r.system.batchSize)
          < Shutdown.Remaining(j.system.workers[w], j.system.batchSize)
  {
    var act := Progress.WorkerMove(j.system, w, answer);
    longer, r := WorkerMoves(start, actions, j, w, act, true, {}, answer);
    Shutdown.StepCounts(j.system, act, w);
    forall v | 0 <= v < w ensures r.system.workers[v].pc.Exited? {
      OwnLeavesOthers(j.system, act, w, v);
    }
  }

  lemma DriveOut(start: Joint, actions: seq<Action>, j: Joint, w: nat, answer: nat -> seq<byte>)
    returns (longer: seq<Action>, r: Joint)
    requires Leads(start, actions, j, answer) && Steady(j, true, {}) && ExitedBelow(j.system, w)
    requires w < |j.system.workers|
    ensures Leads(start, longer, r, answer) && Steady(r, true, {}) && ExitedBelow(r.system, w + 1)
    ensures SamePool(j.system, r.system)
  {
    longer, r := actions, j;
    while !r.system.workers[w].pc.Exited?
      invariant Leads(start, longer, r, answer) && Steady(r, true, {}) && ExitedBelow(r.system, w)
      invariant SamePool(j.system, r.system)
      decreases Shutdown.Remaining(r.system.workers[w], r.system.batchSize)
    {
      Shutdown.RemainingBounds(r.system, w);
      longer, r := StepOut(start, longer, r, w, answer);
      Shutdown.RemainingBounds(r.system, w);
    }
  }

  /**
   From every state reached after stop, at whatever point of a call the threads are, some run
   at atomic grain lets every worker leave its loop, so joining them can return.
   */
  lemma AllCanExit(listener: int, workers: nat, batchSize: nat, capacity: nat, actions: seq<Action>,
                   answer: nat -> seq<byte>)
    returns (later: seq<Action>)
    requires capacity >= 2 && Run(Start(listener, workers, batchSize, capacity), actions).Some?
    requires Run(Start(listener, workers, batchSize, capacity), actions).value.system.stop
    ensures var j := Run(Start(listener, workers, batchSize, capacity), actions).value;
            && Run(j, later).Some? && Answering(j, later, answer)
            && Shutdown.AllExited(Run(j, later).value.system)
  {
    var start := Start(listener, workers, batchSize, capacity);
    var j := Run(start, actions).value;
    RefinesSystem(listener, workers, batchSize, capacity, actions);
    SystemInvariant.StartInv(listener, workers, batchSize);
    SystemInvariant.RunsKeepInv(start.system, Trace(start, actions));
    var r;
    later, r := FinishAll(j, [], j, true, {}, answer);
    for w := 0 to |j.system.workers|
      invariant Leads(j, later, r, answer) && Steady(r, true, {}) && ExitedBelow(r.system, w)
      invariant SamePool(j.system, r.system)
    {
      later, r := DriveOut(j, later, r, w, answer);
    }
  }
}

/** Shutdown of the server with the SPSC ring. */
module SpscShutdown {
  import opened Core
  import opened SpscServer
  import System
  import SystemInvariant
  import Shutdown

  lemma ShutdownEnds(listener: int, batchSize: nat, capacity: nat, before: seq<Action>, after: seq<Action>)
    requires capacity >= 2 && Run(Start(listener, batchSize, capacity), before).Some?
    requires var j := Run(Start(listener, batchSize, capacity), before).value;
             Enabled(j, StopPool) && Run(Apply(j, StopPool), after).Some?
    ensures var j := Apply(Run(Start(listener, batchSize, capacity), before).value, StopPool);
            var r := Run(j, after).value;
            j.system.stop && Shutdown.Ends(j.system, Trace(j, after), r.system)
  {
    var start := Start(listener, batchSize, capacity);
    var j := Run(start, before).value;
    RefinesSystem(listener, batchSize, capacity, before);
    StepKeepsLink(j, StopPool);
    var stopped := Apply(j, StopPool);
    RefinesFrom(stopped, after);
    Shutdown.ShutdownEnds(listener, 1, batchSize, Trace(start, before), Trace(stopped, after));
  }

  lemma ResultsFrozen(listener: int, batchSize: nat, capacity: nat, before: seq<Action>, after: seq<Action>)
    requires capacity >= 2 && Run(Start(listener, batchSize, capacity), before).Some?
    requires var j := Run(Start(listener, batchSize, capacity), before).value;
             Shutdown.AllExited(j.system) && Run(j, after).Some?
    ensures var j := Run(Start(listener, batchSize, capacity), before).value;
            Run(j, after).value.system.results == j.system.results
  {
    var j := Run(Start(listener, batchSize, capacity), before).value;
    RefinesSystem(listener, batchSize, capacity, before);
    RefinesFrom(j, after);
    Shutdown.ResultsFrozen(j.system, Trace(j, after));
  }
}
