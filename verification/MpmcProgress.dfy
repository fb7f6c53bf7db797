/**
 Progress of the server with the MPMC ring, at the grain of atomic accesses. From every state
 that it reaches before stop, some run of its threads delivers a request, exactly when the
 request was not refused.
 */
module MpmcProgress {
  import opened Core
  import opened Session
  import opened Server
  import opened QueueUse
  import opened MpmcServer
  import opened MpmcServerRuns
  import opened MpmcSteady
  import System
  import SystemInvariant
  import SystemTheorems
  import Progress
  import Replies

  /** Request `id` was not refused, and the pool is at work. */
  ghost predicate Hopeful(s: System.State, id: nat) {
    Sane(s, false, {id}) && |s.workers| >= 1 && s.batchSize >= 1
  }

  /** And nobody is inside a call of the ring. */
  ghost predicate Calm(j: Joint, id: nat) {
    Steady(j, false, {id}) && Hopeful(j.system, id)
  }

  lemma HopeMeans(s: System.State, id: nat)
    requires Hopeful(s, id)
    ensures SystemInvariant.Inv(s) && Progress.Ready(s) && id < |s.places| && !s.places[id].Refused?
  {
    assert id in {id};
  }

  /** The step of the code that the coarse system's helpful step stands for, at the grain of the ring. */
  lemma Simulate(start: Joint, actions: seq<Action>, j: Joint, act: System.Action, id: nat, answer: nat -> seq<byte>)
    returns (longer: seq<Action>, r: Joint)
    requires Leads(start, actions, j, answer) && Calm(j, id)
    requires id < |j.system.places| && Progress.Answerable(j.system.places[id])
    requires act == Progress.HelpfulMove(j.system, id, answer)
    ensures System.Enabled(j.system, act) && Progress.Helps(j.system, act, id, answer)
    ensures Leads(start, longer, r, answer) && Calm(r, id) && r.system == System.Apply(j.system, act)
  {
    HopeMeans(j.system, id);
    Progress.Moves(j.system, id, answer);
    if act.Visit? || act.HandleResponse? {
      Replies.NothingSubmits(j.system);
      longer, r := ByNetwork(start, actions, j, act, false, {id}, answer);
    } else {
      longer, r := WorkerMoves(start, actions, j, act.w, act, false, {id}, answer);
    }
  }

  // ----- delivery -----

  lemma {:induction false} Deliver(start: Joint, actions: seq<Action>, j: Joint, id: nat, answer: nat -> seq<byte>)
    returns (longer: seq<Action>, r: Joint)
    requires Leads(start, actions, j, answer) && Calm(j, id) && id < |j.system.places|
    ensures Leads(start, longer, r, answer) && Calm(r, id)
    ensures id < |r.system.places| && r.system.places[id].Delivered?
    decreases Progress.Stage(j.system.places[id]), Progress.Ahead(j.system, j.system.places[id]),
              Progress.Effort(j.system, j.system.places[id])
  {
    longer, r := actions, j;
    HopeMeans(j.system, id);
    if !j.system.places[id].Delivered? {
      Progress.Bounded(j.system, id);
      longer, r := Simulate(start, actions, j, Progress.HelpfulMove(j.system, id, answer), id, answer);
      Progress.Bounded(r.system, id);
      longer, r := Deliver(start, longer, r, id, answer);
    }
  }

  /** `later` hands the engine's answer to the session of request `id`. */
  predicate Delivers(j: Joint, later: seq<Action>, id: nat, answer: nat -> seq<byte>) {
    && Run(j, later).Some? && Answering(j, later, answer)
    && Progress.Answered(j.system, Run(j, later).value.system, id, answer)
  }

  lemma StepAnswered(start: Joint, j: Joint, a: Action, answer: nat -> seq<byte>)
    requires Enabled(j, a) && StepAnswers(j, a, answer) && Progress.NewAnswers(start.system, j.system, answer)
    ensures Progress.NewAnswers(start.system, Apply(j, a).system, answer)
  {
    var did := Label(j, a);
    if did.Some? && System.Enabled(j.system, did.value) {
      Progress.StepResults(j.system, did.value);
    }
  }

  lemma {:induction false} RunAnswered(j: Joint, later: seq<Action>, answer: nat -> seq<byte>)
    requires Run(j, later).Some? && Answering(j, later, answer)
    ensures Progress.NewAnswers(j.system, Run(j, later).value.system, answer)
  {
    if later != [] {
      var before, a := later[..|later| - 1], later[|later| - 1];
      RunAnswered(j, before, answer);
      StepAnswered(j, Run(j, before).value, a, answer);
    }
  }

  lemma RefusedStays(j: Joint, later: seq<Action>, id: nat, answer: nat -> seq<byte>)
    requires Linked(j) && SystemInvariant.Inv(j.system) && id < |j.system.places| && j.system.places[id].Refused?
    ensures !Delivers(j, later, id, answer)
  {
    if Run(j, later).Some? {
      RefinesFrom(j, later);
      SystemTheorems.RefusedHangs(j.system, Trace(j, later), id);
    }
  }

  lemma HopefulDelivers(j: Joint, id: nat, answer: nat -> seq<byte>) returns (later: seq<Action>)
    requires Linked(j) && Hopeful(j.system, id)
    ensures Delivers(j, later, id, answer)
  {
    var r;
    later, r := FinishAll(j, [], j, false, {id}, answer);
    HopeMeans(j.system, id);
    HopeMeans(r.system, id);
    later, r := Deliver(j, later, r, id, answer);
    RunAnswered(j, later, answer);
    Progress.DeliveredIsAnswered(j.system, r.system, id, answer);
  }

  /**
   In every state that the server with the MPMC ring reaches before stop, at whatever point of
   a push or a pop its threads are, some run at atomic grain delivers a request if and only if
   the request was not refused.
   */
  lemma AnsweredExactlyUnlessRefused(listener: int, workers: nat, batchSize: nat, capacity: nat, actions: seq<Action>,
                                     id: nat, answer: nat -> seq<byte>)
    requires workers >= 1 && batchSize >= 1 && capacity >= 2
    requires Run(Start(listener, workers, batchSize, capacity), actions).Some?
    requires var j := Run(Start(listener, workers, batchSize, capacity), actions).value;
             !j.system.stop && id < |j.system.places|
    ensures var j := Run(Start(listener, workers, batchSize, capacity), actions).value;
            (exists later :: Delivers(j, later, id, answer)) <==> !j.system.places[id].Refused?
  {
    var start := Start(listener, workers, batchSize, capacity);
    var j := Run(start, actions).value;
    RefinesSystem(listener, workers, batchSize, capacity, actions);
    SystemInvariant.StartInv(listener, workers, batchSize);
    SystemInvariant.RunsKeepInv(start.system, Trace(start, actions));
    Progress.RunsKeepAlive(start.system, Trace(start, actions));
    if j.system.places[id].Refused? {
      forall later: seq<Action> ensures !Delivers(j, later, id, answer) {
        RefusedStays(j, later, id, answer);
      }
    } else {
      var later := HopefulDelivers(j, id, answer);
      assert Delivers(j, later, id, answer);
    }
  }
}
