/**
 The server with the MPMC ring at rest: from any state the threads can finish the calls they are
 in, and then every step of the coarse system that the code makes is a run at atomic grain.
 */
module MpmcSteady {
  import opened Core
  import opened Session
  import opened Server
  import opened QueueUse
  import opened MpmcServer
  import opened MpmcServerRuns
  import Mpmc
  import MpmcSolo
  import System
  import SystemInvariant
  import Progress

  /** The coarse system is as it should be, and none of the given requests was refused. */
  ghost predicate Sane(s: System.State, stop: bool, ids: set<nat>) {
    && SystemInvariant.Inv(s) && Progress.Alive(s) && s.stop == stop
    && forall id :: id in ids ==> id < |s.places| && !s.places[id].Refused?
  }

  lemma StepKeepsSane(s: System.State, a: System.Action, stop: bool, ids: set<nat>)
    requires Sane(s, stop, ids) && System.Enabled(s, a) && !a.StopPool?
    ensures Sane(System.Apply(s, a), stop, ids)
  {
    SystemInvariant.StepKeepsInv(s, a);
    Progress.StepKeepsAlive(s, a);
    forall id | id in ids ensures id < |System.Apply(s, a).places| && !System.Apply(s, a).places[id].Refused? {
      NotRefusedLater(s, a, id);
    }
  }

  lemma NotRefusedLater(s: System.State, a: System.Action, id: nat)
    requires id < |s.places| && !s.places[id].Refused? && System.Enabled(s, a)
    ensures id < |System.Apply(s, a).places| && !System.Apply(s, a).places[id].Refused?
  {
  }

  predicate SamePool(s: System.State, r: System.State) {
    |r.workers| == |s.workers| && r.batchSize == s.batchSize
  }

  // ----- every thread finishes its call -----

  lemma LabelKeepsSane(s: System.State, pushing: Option<Reply>, tid: nat, pc: Mpmc.Pc, stop: bool, ids: set<nat>)
    requires Sane(s, stop, ids)
    ensures var r := Perform(s, RingLabel(pushing, tid, pc)); Sane(r, stop, ids) && SamePool(s, r)
  {
    var did := RingLabel(pushing, tid, pc);
    if did.Some? && System.Enabled(s, did.value) { StepKeepsSane(s, did.value, stop, ids); }
  }

  lemma AloneKeepsSane(j: Joint, tid: nat, stop: bool, ids: set<nat>)
    requires Sane(j.system, stop, ids)
    ensures Sane(Alone(j, tid).system, stop, ids) && SamePool(j.system, Alone(j, tid).system)
  {
    if Enabled(j, StepRing(tid, false)) {
      var ring := RingAfter(j, StepRing(tid, false));
      if tid in ring.threads { LabelKeepsSane(j.system, j.pushing, tid, ring.threads[tid], stop, ids); }
    }
  }

  /** What finishing calls keeps. */
  ghost predicate Going(start: Joint, actions: seq<Action>, j: Joint, stop: bool, ids: set<nat>,
                        answer: nat -> seq<byte>) {
    Leads(start, actions, j, answer) && Linked(j) && Sane(j.system, stop, ids)
  }

  lemma FinishStep(start: Joint, actions: seq<Action>, j: Joint, tid: nat, stop: bool, ids: set<nat>,
                   answer: nat -> seq<byte>)
    returns (longer: seq<Action>, r: Joint)
    requires Going(start, actions, j, stop, ids, answer) && tid in j.ring.threads && !Mpmc.Free(j.ring, tid)
    ensures Going(start, longer, r, stop, ids, answer) && SamePool(j.system, r.system)
    ensures MpmcSolo.Framed(j.ring, r.ring, tid) && MpmcSolo.Toil(r.ring, tid) < MpmcSolo.Toil(j.ring, tid)
  {
    AloneLinked(j, tid);
    AloneKeepsSane(j, tid, stop, ids);
    MpmcSolo.StepToils(j.ring, tid);
    longer := ExtendOne(start, actions, j, tid, answer);
    r := Alone(j, tid);
  }

  lemma FinishThread(start: Joint, actions: seq<Action>, j: Joint, tid: nat, stop: bool, ids: set<nat>,
                     answer: nat -> seq<byte>)
    returns (longer: seq<Action>, r: Joint)
    requires Going(start, actions, j, stop, ids, answer) && tid in j.ring.threads
    ensures Going(start, longer, r, stop, ids, answer) && SamePool(j.system, r.system)
    ensures MpmcSolo.Framed(j.ring, r.ring, tid) && Mpmc.Free(r.ring, tid)
  {
    longer, r := actions, j;
    MpmcSolo.SoloFramed(j.ring, tid, 0);
    while !Mpmc.Free(r.ring, tid)
      invariant Going(start, longer, r, stop, ids, answer) && SamePool(j.system, r.system)
      invariant MpmcSolo.Framed(j.ring, r.ring, tid)
      decreases MpmcSolo.Toil(r.ring, tid)
    {
      var before := r;
      longer, r := FinishStep(start, longer, r, tid, stop, ids, answer);
      MpmcSolo.FramedTwice(j.ring, before.ring, r.ring, tid);
    }
  }

  /** Only the network thread and the workers are ever inside a call. */
  lemma StrangersFree(j: Joint, tid: nat)
    requires Linked(j) && tid > |j.system.workers|
    ensures Mpmc.Free(j.ring, tid)
  {
    if tid in j.ring.threads {
      assert PopRole(j.system, j.ring, tid - 1);
    }
  }

  ghost predicate FreeBelow(ring: Mpmc.State, m: nat) {
    forall tid :: tid in ring.threads && tid < m ==> Mpmc.Free(ring, tid)
  }

  lemma FramedFreeBelow(s: Mpmc.State, r: Mpmc.State, m: nat)
    requires FreeBelow(s, m) && MpmcSolo.Framed(s, r, m) && Mpmc.Free(r, m)
    ensures FreeBelow(r, m + 1)
  {
    forall tid | tid in r.threads && tid < m + 1 ensures Mpmc.Free(r, tid) {
      if tid != m { assert Mpmc.Free(s, tid); }
    }
  }

  lemma FinishNext(start: Joint, actions: seq<Action>, j: Joint, m: nat, stop: bool, ids: set<nat>,
                   answer: nat -> seq<byte>)
    returns (longer: seq<Action>, r: Joint)
    requires Going(start, actions, j, stop, ids, answer) && FreeBelow(j.ring, m)
    ensures Going(start, longer, r, stop, ids, answer) && FreeBelow(r.ring, m + 1) && SamePool(j.system, r.system)
  {
    longer, r := actions, j;
    if m in j.ring.threads {
      longer, r := FinishThread(start, actions, j, m, stop, ids, answer);
      FramedFreeBelow(j.ring, r.ring, m);
    }
  }

  /** Nobody is inside a call of the ring. */
  ghost predicate Steady(j: Joint, stop: bool, ids: set<nat>) {
    Linked(j) && Sane(j.system, stop, ids) && j.pushing.None? && AllFree(j.ring)
  }

  /** From any state, the threads one after the other finish what they are in. */
  lemma FinishAll(start: Joint, actions: seq<Action>, j: Joint, stop: bool, ids: set<nat>, answer: nat -> seq<byte>)
    returns (longer: seq<Action>, r: Joint)
    requires Going(start, actions, j, stop, ids, answer)
    ensures Leads(start, longer, r, answer) && Steady(r, stop, ids) && SamePool(j.system, r.system)
  {
    longer, r := actions, j;
    for m := 0 to |j.system.workers| + 1
      invariant Going(start, longer, r, stop, ids, answer) && FreeBelow(r.ring, m) && SamePool(j.system, r.system)
    {
      longer, r := FinishNext(start, longer, r, m, stop, ids, answer);
    }
    EveryoneFree(r);
  }

  lemma EveryoneFree(j: Joint)
    requires Linked(j) && FreeBelow(j.ring, |j.system.workers| + 1)
    ensures AllFree(j.ring) && j.pushing.None?
  {
    forall tid | tid in j.ring.threads ensures Mpmc.Free(j.ring, tid) {
      if tid > |j.system.workers| { StrangersFree(j, tid); }
    }
  }

  // ----- steps of the coarse system, made by the ring server -----

  lemma ByNetwork(start: Joint, actions: seq<Action>, j: Joint, act: System.Action, stop: bool, ids: set<nat>,
                  answer: nat -> seq<byte>)
    returns (longer: seq<Action>, r: Joint)
    requires Leads(start, actions, j, answer) && Steady(j, stop, ids) && OutsidePush(j.system, act)
    ensures Leads(start, longer, r, answer) && Steady(r, stop, ids) && r.system == System.Apply(j.system, act)
  {
    assert 0 in j.ring.threads ==> Mpmc.Free(j.ring, 0);
    StepKeepsSane(j.system, act, stop, ids);
    longer, r := NetworkStep(start, actions, j, act, answer);
  }

  lemma ByWorker(start: Joint, actions: seq<Action>, j: Joint, w: nat, act: System.Action, stop: bool, ids: set<nat>,
                 answer: nat -> seq<byte>)
    returns (longer: seq<Action>, r: Joint)
    requires Leads(start, actions, j, answer) && Steady(j, stop, ids) && OutsidePop(j.system, act, w)
    requires Progress.CodeLike(j.system, act, answer)
    ensures Leads(start, longer, r, answer) && Steady(r, stop, ids) && r.system == System.Apply(j.system, act)
  {
    assert w + 1 in j.ring.threads ==> Mpmc.Free(j.ring, w + 1);
    StepKeepsLink(j, Worker(w, act));
    StepKeepsSane(j.system, act, stop, ids);
    longer := Extend(start, actions, j, Worker(w, act), answer);
    r := Apply(j, Worker(w, act));
  }

  lemma ByPop(start: Joint, actions: seq<Action>, j: Joint, w: nat, act: System.Action, stop: bool, ids: set<nat>,
              answer: nat -> seq<byte>)
    returns (longer: seq<Action>, r: Joint)
    requires Leads(start, actions, j, answer) && Steady(j, stop, ids) && WantsTask(j.system, w)
    requires act == (if j.system.taskHead < |j.system.tasks| then System.PopTask(w) else System.EndBatch(w))
    ensures Leads(start, longer, r, answer) && Steady(r, stop, ids) && r.system == System.Apply(j.system, act)
  {
    assert Waiting(j.system) == [] <==> j.system.taskHead >= |j.system.tasks| by {
      assert |Waiting(j.system)| == |j.system.tasks| - j.system.taskHead;
    }
    longer, r := WholePop(start, actions, j, w, answer);
    StepKeepsSane(j.system, act, stop, ids);
  }

  predicate MadeByPop(s: System.State, act: System.Action) {
    act.PopTask? || (act.EndBatch? && WantsTask(s, act.w))
  }

  /** The next step of worker w, as worker_loop makes it, at the grain of the ring. */
  lemma WorkerMoves(start: Joint, actions: seq<Action>, j: Joint, w: nat, act: System.Action, stop: bool,
                    ids: set<nat>, answer: nat -> seq<byte>)
    returns (longer: seq<Action>, r: Joint)
    requires Leads(start, actions, j, answer) && Steady(j, stop, ids)
    requires w < |j.system.workers| && act == Progress.WorkerMove(j.system, w, answer) && !act.StopPool?
    ensures System.Enabled(j.system, act)
    ensures Leads(start, longer, r, answer) && Steady(r, stop, ids) && r.system == System.Apply(j.system, act)
  {
    assert SystemInvariant.WorkerFits(j.system, w);
    if MadeByPop(j.system, act) {
      longer, r := ByPop(start, actions, j, w, act, stop, ids, answer);
    } else {
      longer, r := ByWorker(start, actions, j, w, act, stop, ids, answer);
    }
  }
}
