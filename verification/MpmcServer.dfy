/**
 The server with the MPMC ring as its task queue and any number of workers, at the grain of
 single atomic accesses. The network thread is thread 0 of the ring, worker w is thread w + 1.
 Every run of this system is a run of the coarse system in which push and pop take effect at
 one point, so everything proved of that system holds here.
 */
module MpmcServer {
  import opened Core
  import opened Session
  import opened Server
  import opened QueueUse
  import RingCells
  import Mpmc
  import MpmcInvariant
  import MpmcTheorems
  import System
  import SystemInvariant
  import SystemTheorems
  import EndToEnd

  /** `pushing` is the visit whose push has neither claimed a position nor given up. */
  datatype Joint = Joint(system: System.State, ring: Mpmc.State, pushing: Option<Reply>)

  datatype Action =
    | Network(act: System.Action)
    | Worker(w: nat, act: System.Action)
    | StopPool
    | BeginPush(reply: Reply)
    | BeginPop(w: nat)
    | StepRing(tid: nat, spurious: bool)
    | ShutdownQueue

  function Start(listener: int, workers: nat, batchSize: nat, capacity: nat): Joint
    requires capacity >= 2
  {
    Joint(System.Start(listener, workers, batchSize), Mpmc.Init(capacity), None)
  }

  predicate Enabled(j: Joint, a: Action) {
    Mpmc.Shaped(j.ring) &&
    match a
    case Network(act) => j.pushing.None? && Mpmc.Free(j.ring, 0) && OutsidePush(j.system, act)
    case Worker(w, act) => Mpmc.Free(j.ring, w + 1) && OutsidePop(j.system, act, w)
    case StopPool => true
    case BeginPush(reply) => j.pushing.None? && Mpmc.Free(j.ring, 0) && Submission(j.system, reply).Some?
    case BeginPop(w) => Mpmc.Free(j.ring, w + 1) && WantsTask(j.system, w)
    case StepRing(tid, _) => !Mpmc.Free(j.ring, tid)
    case ShutdownQueue => true
  }

  /** The step of the ring. */
  function RingAction(j: Joint, a: Action): Option<Mpmc.Action> {
    match a
    case BeginPush(reply) =>
      var task := Submission(j.system, reply);
      if task.Some? then Some(Mpmc.BeginPush(0, task.value)) else None
    case BeginPop(w) => Some(Mpmc.BeginPop(w + 1))
    case StepRing(tid, spurious) => Some(Mpmc.Step(tid, spurious))
    case ShutdownQueue => Some(Mpmc.Shutdown)
    case _ => None
  }

  function RingAfter(j: Joint, a: Action): (r: Mpmc.State)
    requires Enabled(j, a)
    ensures Mpmc.Shaped(r) && r.capacity == j.ring.capacity
  {
    var act := RingAction(j, a);
    if act.Some? then Mpmc.Apply(j.ring, act.value) else j.ring
  }

  /** What thread `tid`, now at `pc`, has just done to the coarse system. */
  function RingLabel(pushing: Option<Reply>, tid: nat, pc: Mpmc.Pc): Option<System.Action> {
    if tid == 0 then
      if pushing.None? then None
      else if pc.PushWrite? then Some(System.Visit(pushing.value, true))
      else if pc.PushDone? then Some(System.Visit(pushing.value, false))
      else None
    else if pc.PopMove? then Some(System.PopTask(tid - 1))
    else if pc.PopEmpty? then Some(System.EndBatch(tid - 1))
    else None
  }

  /** The step of the coarse system that happens in this step, if any. */
  function Label(j: Joint, a: Action): Option<System.Action>
    requires Enabled(j, a)
  {
    match a
    case Network(act) => Some(act)
    case Worker(_, act) => Some(act)
    case StopPool => Some(System.StopPool)
    case StepRing(tid, _) =>
      var r := RingAfter(j, a);
      if tid in r.threads then RingLabel(j.pushing, tid, r.threads[tid]) else None
    case _ => None
  }

  function PushingAfter(j: Joint, a: Action): Option<Reply>
    requires Enabled(j, a)
  {
    match a
    case BeginPush(reply) => Some(reply)
    case StepRing(tid, _) => if tid == 0 && Label(j, a).Some? then None else j.pushing
    case _ => j.pushing
  }

  function Apply(j: Joint, a: Action): Joint
    requires Enabled(j, a)
  {
    Joint(Perform(j.system, Label(j, a)), RingAfter(j, a), PushingAfter(j, a))
  }

  function Run(j: Joint, actions: seq<Action>): Option<Joint> {
    if actions == [] then Some(j)
    else
      var before := Run(j, actions[..|actions| - 1]);
      var a := actions[|actions| - 1];
      if before.Some? && Enabled(before.value, a) then Some(Apply(before.value, a)) else None
  }

  /** The run of the coarse system inside a run. */
  function Trace(j: Joint, actions: seq<Action>): seq<System.Action>
    requires Run(j, actions).Some?
  {
    if actions == [] then []
    else
      var before := actions[..|actions| - 1];
      Trace(j, before) + Steps(Label(Run(j, before).value, actions[|actions| - 1]))
  }

  // ----- what links the ring to the system -----

  predicate InStep(s: System.State, ring: Mpmc.State) {
    && ring.head <= ring.tail == |ring.entries| && s.taskHead <= |s.tasks|
    && MpmcTheorems.Contents(ring) == Waiting(s)
  }

  /** Inside push, before the claim. */
  predicate Trying(pc: Mpmc.Pc) {
    pc.PushCheckStop? || pc.PushLoadTail? || pc.PushLoadSequence? || pc.PushCas?
  }

  /** Inside pop, before the claim. */
  predicate Seeking(pc: Mpmc.Pc) {
    pc.PopLoadHead? || pc.PopLoadSequence? || pc.PopCas?
  }

  predicate PushRole(s: System.State, ring: Mpmc.State, pushing: Option<Reply>) {
    if pushing.Some? then
      0 in ring.threads && Trying(ring.threads[0]) && Submission(s, pushing.value) == Some(ring.threads[0].task)
    else
      0 in ring.threads ==> MpmcInvariant.HoldingForWrite(ring.threads[0]) || ring.threads[0].PushDone?
  }

  /** A worker that claimed a position already has that position's task as the last of its batch. */
  predicate PopRole(s: System.State, ring: Mpmc.State, w: nat) {
    w + 1 in ring.threads ==>
      var pc := ring.threads[w + 1];
      && (Seeking(pc) || MpmcInvariant.HoldingForRead(pc) || pc.PopDone? || pc.PopEmpty?)
      && (Seeking(pc) ==> WantsTask(s, w))
      && (MpmcInvariant.HoldingForRead(pc) ==>
            pc.h < |ring.entries| && LastTaken(s, w) == Some(ring.entries[pc.h].task))
  }

  predicate PopRoles(s: System.State, ring: Mpmc.State) {
    forall tid :: tid in ring.threads && tid > 0 ==> PopRole(s, ring, tid - 1)
  }

  predicate Roles(j: Joint) {
    PushRole(j.system, j.ring, j.pushing) && PopRoles(j.system, j.ring)
  }

  predicate Linked(j: Joint) {
    MpmcInvariant.Inv(j.ring) && InStep(j.system, j.ring) && Roles(j)
  }

  // ----- one step of the ring, as the server sees it -----

  /** Only thread `tid` moved, and no position changed its task. */
  predicate Moves(ring: Mpmc.State, after: Mpmc.State, tid: nat) {
    && tid in after.threads && after.threads == ring.threads[tid := after.threads[tid]]
    && ring.head <= ring.tail == |ring.entries| && after.head <= after.tail == |after.entries|
    && |ring.entries| <= |after.entries|
    && forall p :: 0 <= p < |ring.entries| ==> after.entries[p].task == ring.entries[p].task
  }

  predicate PushSummary(ring: Mpmc.State, after: Mpmc.State)
    requires Moves(ring, after, 0) && 0 in ring.threads
  {
    var pc, next := ring.threads[0], after.threads[0];
    var queue, later := MpmcTheorems.Contents(ring), MpmcTheorems.Contents(after);
    if Trying(pc) then
      || (Trying(next) && next.task == pc.task && later == queue)
      || (next.PushWrite? && later == queue + [pc.task])
      || (next == Mpmc.PushDone(false) && later == queue)
    else
      (MpmcInvariant.HoldingForWrite(next) || next == Mpmc.PushDone(true)) && later == queue
  }

  predicate PopSummary(ring: Mpmc.State, after: Mpmc.State, tid: nat)
    requires Moves(ring, after, tid) && tid in ring.threads
  {
    var pc, next := ring.threads[tid], after.threads[tid];
    var queue, later := MpmcTheorems.Contents(ring), MpmcTheorems.Contents(after);
    if Seeking(pc) then
      || (Seeking(next) && later == queue)
      || (next.PopMove? && queue != [] && later == queue[1..]
          && next.h < |after.entries| && after.entries[next.h].task == queue[0])
      || (next.PopEmpty? && later == queue)
    else
      && MpmcInvariant.HoldingForRead(pc) && pc.h < |ring.entries| && later == queue
      && (|| next == Mpmc.PopDone(RingCells.Full(ring.entries[pc.h].task))
          || (MpmcInvariant.HoldingForRead(next) && !next.PopMove? && next.h == pc.h))
  }

  lemma StepMoves(ring: Mpmc.State, tid: nat, spurious: bool)
    requires MpmcInvariant.Inv(ring) && !Mpmc.Free(ring, tid)
    ensures Moves(ring, Mpmc.Apply(ring, Mpmc.Step(tid, spurious)), tid)
  {
    MpmcInvariant.StepKeepsInv(ring, Mpmc.Step(tid, spurious));
    MpmcTheorems.StepAdvances(ring, Mpmc.Step(tid, spurious));
    MpmcTheorems.OneThreadMoves(ring, tid, spurious);
  }

  lemma StepPushes(ring: Mpmc.State, spurious: bool)
    requires MpmcInvariant.Inv(ring) && 0 in ring.threads && Mpmc.InPush(ring.threads[0])
    ensures var after := Mpmc.Apply(ring, Mpmc.Step(0, spurious)); Moves(ring, after, 0) && PushSummary(ring, after)
  {
    StepMoves(ring, 0, spurious);
    MpmcTheorems.StepRefines(ring, Mpmc.Step(0, spurious));
  }

  lemma StepPops(ring: Mpmc.State, tid: nat, spurious: bool)
    requires MpmcInvariant.Inv(ring) && tid in ring.threads
    requires Seeking(ring.threads[tid]) || MpmcInvariant.HoldingForRead(ring.threads[tid])
    ensures var after := Mpmc.Apply(ring, Mpmc.Step(tid, spurious));
            Moves(ring, after, tid) && PopSummary(ring, after, tid)
  {
    StepMoves(ring, tid, spurious);
    if Seeking(ring.threads[tid]) {
      StepSeeks(ring, tid, spurious);
    } else {
      MpmcTheorems.PopMovesOut(ring, tid, ring.threads[tid].h);
    }
  }

  lemma StepSeeks(ring: Mpmc.State, tid: nat, spurious: bool)
    requires MpmcInvariant.Inv(ring) && tid in ring.threads && Seeking(ring.threads[tid])
    requires Moves(ring, Mpmc.Apply(ring, Mpmc.Step(tid, spurious)), tid)
    ensures PopSummary(ring, Mpmc.Apply(ring, Mpmc.Step(tid, spurious)), tid)
  {
    if MpmcTheorems.ClaimsHead(ring, Mpmc.Step(tid, spurious)) {
      MpmcTheorems.PopClaims(ring, tid);
    } else {
      MpmcTheorems.StepRefines(ring, Mpmc.Step(tid, spurious));
    }
  }

  // ----- every step keeps the link -----

  lemma StartLinked(listener: int, workers: nat, batchSize: nat, capacity: nat)
    requires capacity >= 2
    ensures Linked(Start(listener, workers, batchSize, capacity))
  {
    MpmcInvariant.InitInv(capacity);
  }

  /** A step of the system that leaves alone the workers that are inside pop. */
  lemma SystemKeepsRoles(s: System.State, r: System.State, ring: Mpmc.State)
    requires PopRoles(s, ring) && r.batchSize == s.batchSize && |r.workers| == |s.workers|
    requires forall w :: 0 <= w < |s.workers| && !Mpmc.Free(ring, w + 1) ==> r.workers[w] == s.workers[w]
    ensures PopRoles(r, ring)
  {
    forall tid | tid in ring.threads && tid > 0 ensures PopRole(r, ring, tid - 1) {
      assert PopRole(s, ring, tid - 1);
    }
  }

  lemma NetworkKeepsLink(j: Joint, act: System.Action)
    requires Linked(j) && Enabled(j, Network(act))
    ensures Linked(Apply(j, Network(act)))
  {
    OutsidePushEffect(j.system, act);
    SystemKeepsRoles(j.system, System.Apply(j.system, act), j.ring);
  }

  lemma WorkerKeepsLink(j: Joint, w: nat, act: System.Action)
    requires Linked(j) && Enabled(j, Worker(w, act))
    ensures Linked(Apply(j, Worker(w, act)))
  {
    OutsidePopEffect(j.system, act, w);
    SystemKeepsRoles(j.system, System.Apply(j.system, act), j.ring);
  }

  lemma StopKeepsLink(j: Joint)
    requires Linked(j) && Enabled(j, StopPool)
    ensures Linked(Apply(j, StopPool))
  {
    SystemKeepsRoles(j.system, System.Apply(j.system, System.StopPool), j.ring);
  }

  /** Thread `tid` begins a call. */
  lemma BeginKeepsRoles(s: System.State, ring: Mpmc.State, after: Mpmc.State, tid: nat)
    requires PopRoles(s, ring) && tid in after.threads && after == Mpmc.Goto(ring, tid, after.threads[tid])
    requires tid > 0 ==> after.threads[tid].PopLoadHead? && WantsTask(s, tid - 1)
    ensures PopRoles(s, after)
  {
    forall other | other in after.threads && other > 0 ensures PopRole(s, after, other - 1) {
      if other != tid { assert PopRole(s, ring, other - 1); }
    }
  }

  lemma BeginPushKeepsLink(j: Joint, reply: Reply)
    requires Linked(j) && Enabled(j, BeginPush(reply))
    ensures Linked(Apply(j, BeginPush(reply)))
  {
    MpmcTheorems.StepRefines(j.ring, RingAction(j, BeginPush(reply)).value);
    BeginKeepsRoles(j.system, j.ring, RingAfter(j, BeginPush(reply)), 0);
  }

  lemma BeginPopKeepsLink(j: Joint, w: nat)
    requires Linked(j) && Enabled(j, BeginPop(w))
    ensures Linked(Apply(j, BeginPop(w)))
  {
    MpmcTheorems.StepRefines(j.ring, Mpmc.BeginPop(w + 1));
    BeginKeepsRoles(j.system, j.ring, RingAfter(j, BeginPop(w)), w + 1);
  }

  lemma ShutdownKeepsLink(j: Joint)
    requires Linked(j) && Enabled(j, ShutdownQueue)
    ensures Linked(Apply(j, ShutdownQueue))
  {
    MpmcTheorems.StepRefines(j.ring, Mpmc.Shutdown);
    var after := RingAfter(j, ShutdownQueue);
    forall tid | tid in after.threads && tid > 0 ensures PopRole(j.system, after, tid - 1) {
      assert PopRole(j.system, j.ring, tid - 1);
    }
  }

  /** A step of one thread leaves the roles of the other workers alone. */
  lemma OthersKeepRole(s: System.State, ring: Mpmc.State, after: Mpmc.State, tid: nat, other: nat)
    requires PopRoles(s, ring) && Moves(ring, after, tid) && other in after.threads && other > 0 && other != tid
    ensures PopRole(s, after, other - 1)
  {
    assert PopRole(s, ring, other - 1);
  }

  /** A claim submits the task to the coarse system, a refusal loses it, any other step does nothing to it. */
  lemma PushOutcome(s: System.State, ring: Mpmc.State, after: Mpmc.State, pushing: Option<Reply>)
    requires InStep(s, ring) && PushRole(s, ring, pushing) && 0 in ring.threads && !ring.threads[0].PushDone?
    requires Moves(ring, after, 0) && PushSummary(ring, after)
    ensures var did := RingLabel(pushing, 0, after.threads[0]);
            var r := Perform(s, did);
            && (did.Some? ==> System.Enabled(s, did.value))
            && InStep(r, after)
            && PushRole(r, after, if did.Some? then None else pushing)
            && r.workers == s.workers && r.batchSize == s.batchSize
  {
    if pushing.Some? {
      PushEffect(s, pushing.value, true);
      PushEffect(s, pushing.value, false);
    }
  }

  /** The network thread inside push. */
  lemma PushKeepsLink(j: Joint, spurious: bool)
    requires Linked(j) && Enabled(j, StepRing(0, spurious))
    ensures var did := Label(j, StepRing(0, spurious)); did.Some? ==> System.Enabled(j.system, did.value)
    ensures Linked(Apply(j, StepRing(0, spurious)))
  {
    var after := RingAfter(j, StepRing(0, spurious));
    MpmcInvariant.StepKeepsInv(j.ring, Mpmc.Step(0, spurious));
    StepPushes(j.ring, spurious);
    PushOutcome(j.system, j.ring, after, j.pushing);
    forall tid | tid in after.threads && tid > 0 ensures PopRole(j.system, after, tid - 1) {
      OthersKeepRole(j.system, j.ring, after, 0, tid);
    }
    SystemKeepsRoles(j.system, Apply(j, StepRing(0, spurious)).system, after);
  }

  /** A claim moves the oldest task into the worker's batch, an empty queue ends the batch. */
  lemma PopOutcome(s: System.State, ring: Mpmc.State, after: Mpmc.State, tid: nat)
    requires InStep(s, ring) && PopRoles(s, ring) && tid > 0 && tid in ring.threads
    requires Moves(ring, after, tid) && PopSummary(ring, after, tid)
    ensures var did := RingLabel(None, tid, after.threads[tid]);
            var r := Perform(s, did);
            && (did.Some? ==> System.Enabled(s, did.value))
            && InStep(r, after) && r.pass == s.pass && r.batchSize == s.batchSize
            && (forall v :: 0 <= v < |s.workers| && v != tid - 1 ==> r.workers[v] == s.workers[v])
            && PopRole(r, after, tid - 1)
  {
    var w, next := tid - 1, after.threads[tid];
    assert PopRole(s, ring, w);
    if next.PopMove? {
      assert Waiting(s) != [];
      PopEffect(s, w);
    } else if next.PopEmpty? {
      EmptyEffect(s, w);
    }
  }

  lemma PopRolesAfter(s: System.State, r: System.State, ring: Mpmc.State, after: Mpmc.State, tid: nat)
    requires PopRoles(s, ring) && tid > 0 && Moves(ring, after, tid) && PopRole(r, after, tid - 1)
    requires r.batchSize == s.batchSize && |r.workers| == |s.workers|
    requires forall v :: 0 <= v < |s.workers| && v != tid - 1 ==> r.workers[v] == s.workers[v]
    ensures PopRoles(r, after)
  {
    forall other | other in after.threads && other > 0 ensures PopRole(r, after, other - 1) {
      if other != tid { OthersKeepRole(s, ring, after, tid, other); }
    }
  }

  /** A worker inside pop. */
  lemma PopKeepsLink(j: Joint, tid: nat, spurious: bool)
    requires Linked(j) && tid > 0 && Enabled(j, StepRing(tid, spurious))
    ensures var did := Label(j, StepRing(tid, spurious)); did.Some? ==> System.Enabled(j.system, did.value)
    ensures Linked(Apply(j, StepRing(tid, spurious)))
  {
    var after := RingAfter(j, StepRing(tid, spurious));
    MpmcInvariant.StepKeepsInv(j.ring, Mpmc.Step(tid, spurious));
    assert PopRole(j.system, j.ring, tid - 1);
    StepPops(j.ring, tid, spurious);
    PopOutcome(j.system, j.ring, after, tid);
    PopRolesAfter(j.system, Apply(j, StepRing(tid, spurious)).system, j.ring, after, tid);
  }

  lemma StepKeepsLink(j: Joint, a: Action)
    requires Linked(j) && Enabled(j, a)
    ensures Linked(Apply(j, a))
    ensures Label(j, a).Some? ==> System.Enabled(j.system, Label(j, a).value)
  {
    match a
    case Network(act) => NetworkKeepsLink(j, act);
    case Worker(w, act) => WorkerKeepsLink(j, w, act);
    case StopPool => StopKeepsLink(j);
    case BeginPush(reply) => BeginPushKeepsLink(j, reply);
    case BeginPop(w) => BeginPopKeepsLink(j, w);
    case ShutdownQueue => ShutdownKeepsLink(j);
    case StepRing(tid, spurious) =>
      if tid == 0 { PushKeepsLink(j, spurious); } else { PopKeepsLink(j, tid, spurious); }
  }

  // ----- theorems -----

  lemma {:induction false} RefinesFrom(j: Joint, actions: seq<Action>)
    requires Linked(j) && Run(j, actions).Some?
    ensures Linked(Run(j, actions).value)
    ensures System.Run(j.system, Trace(j, actions)) == Some(Run(j, actions).value.system)
  {
    if actions != [] {
      var before, a := actions[..|actions| - 1], actions[|actions| - 1];
      RefinesFrom(j, before);
      var r := Run(j, before).value;
      StepKeepsLink(r, a);
      ExtendRun(j.system, Trace(j, before), r.system, Label(r, a));
    }
  }

  /** Every run at the grain of atomic accesses is a run of the coarse system, and the ring holds its queue. */
  lemma RefinesSystem(listener: int, workers: nat, batchSize: nat, capacity: nat, actions: seq<Action>)
    requires capacity >= 2 && Run(Start(listener, workers, batchSize, capacity), actions).Some?
    ensures var start := Start(listener, workers, batchSize, capacity);
            var j := Run(start, actions).value;
            && Linked(j)
            && System.Run(start.system, Trace(start, actions)) == Some(j.system)
  {
    StartLinked(listener, workers, batchSize, capacity);
    RefinesFrom(Start(listener, workers, batchSize, capacity), actions);
  }

  /**
   So in the server with the MPMC ring no request is lost or duplicated, and every reply goes
   to the connection that sent the request.
   */
  lemma ServerIsSound(listener: int, workers: nat, batchSize: nat, capacity: nat, actions: seq<Action>, id: nat, p: nat)
    requires capacity >= 2 && Run(Start(listener, workers, batchSize, capacity), actions).Some?
    ensures var s := Run(Start(listener, workers, batchSize, capacity), actions).value.system;
            && (id < s.pass.server.nextTraceId <==> exists place :: SystemInvariant.HeldAt(s, id, place))
            && (forall x, y :: SystemInvariant.HeldAt(s, id, x) && SystemInvariant.HeldAt(s, id, y) ==> x == y)
            && (p < s.resultHead ==>
                  && p < |s.results| && p < |s.deliveredTo| && s.results[p].requestId < |s.origins|
                  && s.deliveredTo[p] == Some(s.origins[s.results[p].requestId].connection))
  {
    var start := Start(listener, workers, batchSize, capacity);
    RefinesSystem(listener, workers, batchSize, capacity, actions);
    SystemTheorems.Conservation(listener, workers, batchSize, Trace(start, actions), id);
    if p < Run(start, actions).value.system.resultHead {
      SystemTheorems.RepliesGoHome(listener, workers, batchSize, Trace(start, actions), p);
    }
  }

  /** And what the end-to-end theorem says of each connection holds of the server with the MPMC ring. */
  lemma ClientsAreServed(listener: int, workers: nat, batchSize: nat, capacity: nat, actions: seq<Action>, n: nat,
                         ps: seq<seq<byte>>)
    requires capacity >= 2 && Run(Start(listener, workers, batchSize, capacity), actions).Some?
    ensures var start := Start(listener, workers, batchSize, capacity);
            && System.Run(start.system, Trace(start, actions)).Some?
            && var d := EndToEnd.DialogueOf(start.system, Trace(start, actions), n);
               EndToEnd.Served(d, ps, start.system, Trace(start, actions))
  {
    RefinesSystem(listener, workers, batchSize, capacity, actions);
    EndToEnd.RequestsAndReplies(listener, workers, batchSize,
                                Trace(Start(listener, workers, batchSize, capacity), actions), n, ps);
  }

  /** The bound on results after stop, too. */
  lemma ShutdownBound(listener: int, workers: nat, batchSize: nat, capacity: nat, before: seq<Action>,
                      after: seq<Action>)
    requires capacity >= 2 && Run(Start(listener, workers, batchSize, capacity), before).Some?
    requires var j := Run(Start(listener, workers, batchSize, capacity), before).value;
             j.system.stop && Run(j, after).Some?
    ensures var j := Run(Start(listener, workers, batchSize, capacity), before).value;
            |Run(j, after).value.system.results| <= |j.system.results| + workers * batchSize
  {
    var start := Start(listener, workers, batchSize, capacity);
    var j := Run(start, before).value;
    RefinesSystem(listener, workers, batchSize, capacity, before);
    RefinesFrom(j, after);
    SystemTheorems.ShutdownBound(listener, workers, batchSize, Trace(start, before), Trace(j, after));
  }

  /** The task that pop returns to a worker, read out of the cell, is the task the coarse system put into its batch. */
  lemma PopReturnsTheBatchTask(j: Joint, tid: nat, spurious: bool)
    requires Linked(j) && tid > 0 && Enabled(j, StepRing(tid, spurious))
    ensures var r := Apply(j, StepRing(tid, spurious));
            && tid in r.ring.threads
            && (r.ring.threads[tid].PopDone? ==>
                  LastTaken(r.system, tid - 1).Some?
                  && r.ring.threads[tid].got == RingCells.Full(LastTaken(r.system, tid - 1).value))
  {
    assert PopRole(j.system, j.ring, tid - 1);
    StepPops(j.ring, tid, spurious);
  }

  /** Some worker is still between claiming the position one lap before the tail and releasing its cell. */
  predicate SlowWorker(ring: Mpmc.State) {
    exists tid :: tid in ring.threads && tid > 0 && MpmcInvariant.HoldingForRead(ring.threads[tid])
                  && ring.threads[tid].h + ring.capacity == ring.tail
  }

  /** The next cell is still in use one lap back: the ring is full, or a worker is slow. */
  lemma BlockedMeans(j: Joint)
    requires Linked(j)
    ensures MpmcTheorems.Blocked(j.ring) <==> |Waiting(j.system)| == j.ring.capacity || SlowWorker(j.ring)
  {
    assert |Waiting(j.system)| == j.ring.tail - j.ring.head;
    if j.ring.tail >= j.ring.capacity {
      assert MpmcInvariant.EntryFits(j.ring, j.ring.tail - j.ring.capacity);
    }
    forall tid | tid in j.ring.threads && MpmcInvariant.HoldingForRead(j.ring.threads[tid])
      ensures j.ring.threads[tid].h < j.ring.tail && j.ring.entries[j.ring.threads[tid].h].phase == Mpmc.Taking(tid)
    {
      assert MpmcInvariant.ThreadFits(j.ring, tid);
    }
  }

  /** The network thread is about to be refused. */
  predicate Refusing(j: Joint) {
    && j.pushing.Some? && 0 in j.ring.threads && j.system.taskHead <= |j.system.tasks|
    && match j.ring.threads[0]
       case PushCheckStop(_) => j.ring.stopped
       case PushLoadSequence(_, t) =>
         t == j.ring.tail && (|Waiting(j.system)| == j.ring.capacity || SlowWorker(j.ring))
       case _ => false
  }

  lemma RefusalAtRing(j: Joint, spurious: bool)
    requires Linked(j) && Enabled(j, StepRing(0, spurious)) && j.pushing.Some?
    ensures var ring := RingAfter(j, StepRing(0, spurious));
            0 in ring.threads && (ring.threads[0] == Mpmc.PushDone(false) <==> Refusing(j))
  {
    BlockedMeans(j);
    if j.ring.threads[0].PushLoadSequence? {
      MpmcTheorems.RefusedExactlyWhen(j.ring, 0, spurious);
    }
  }

  lemma PushRefuses(j: Joint, spurious: bool)
    requires Linked(j) && Enabled(j, StepRing(0, spurious))
    ensures Apply(j, StepRing(0, spurious)).system.refused != j.system.refused <==> Refusing(j)
  {
    StepPushes(j.ring, spurious);
    if j.pushing.Some? {
      RefusalAtRing(j, spurious);
      PushEffect(j.system, j.pushing.value, true);
      PushEffect(j.system, j.pushing.value, false);
    }
  }

  lemma NoVisitNoRefusal(s: System.State, did: Option<System.Action>)
    requires did.Some? ==> !did.value.Visit?
    ensures Perform(s, did).refused == s.refused
  {
  }

  lemma OthersRefuseNothing(j: Joint, a: Action)
    requires Enabled(j, a) && !(a.StepRing? && a.tid == 0)
    ensures Apply(j, a).system.refused == j.system.refused
  {
    if a.Network? {
      OutsidePushEffect(j.system, a.act);
    } else if a.Worker? {
      OutsidePopEffect(j.system, a.act, a.w);
    } else {
      NoVisitNoRefusal(j.system, Label(j, a));
    }
  }

  /**
   A step refuses a request if and only if it is the network thread's check of a stopped queue,
   or its load of the sequence at the tail while the ring is full or some worker has been
   inside one pop for a whole lap. A full ring means more open sessions than cells.
   */
  lemma RefusedExactlyWhen(listener: int, workers: nat, batchSize: nat, capacity: nat, actions: seq<Action>, a: Action)
    requires capacity >= 2 && Run(Start(listener, workers, batchSize, capacity), actions).Some?
    requires Enabled(Run(Start(listener, workers, batchSize, capacity), actions).value, a)
    ensures var j := Run(Start(listener, workers, batchSize, capacity), actions).value;
            && (Apply(j, a).system.refused != j.system.refused <==> a.StepRing? && a.tid == 0 && Refusing(j))
            && (j.pushing.Some? ==>
                  |j.system.tasks| - j.system.taskHead < |j.system.pass.server.sessions|)
  {
    var start := Start(listener, workers, batchSize, capacity);
    var j := Run(start, actions).value;
    RefinesSystem(listener, workers, batchSize, capacity, actions);
    if a.StepRing? && a.tid == 0 {
      PushRefuses(j, a.spurious);
    } else {
      OthersRefuseNothing(j, a);
    }
    if j.pushing.Some? {
      SystemInvariant.StartInv(listener, workers, batchSize);
      SystemInvariant.RunsKeepInv(start.system, Trace(start, actions));
      SystemTheorems.RoomWhenSubmitting(j.system, j.pushing.value);
    }
  }
}
