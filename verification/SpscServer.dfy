/**
 The server with the SPSC ring as its task queue and, as the configuration then demands,
 one worker, at the grain of single atomic accesses. The network thread is the producer and
 the worker is the consumer. Every run is a run of the coarse system, and with fewer open
 sessions than slots no request is ever refused before shutdown.
 */
module SpscServer {
  import opened Core
  import opened Session
  import opened Server
  import opened QueueUse
  import RingCells
  import Spsc
  import SpscTheorems
  import System
  import SystemInvariant
  import SystemTheorems
  import EndToEnd

  /** `pushing` is the visit whose finalize_request is inside push. */
  datatype Joint = Joint(system: System.State, ring: Spsc.Ring, pushing: Option<Reply>)

  datatype Action =
    | Network(act: System.Action)
    | Worker(act: System.Action)
    | StopPool
    | BeginPush(reply: Reply)
    | StepPush
    | BeginPop
    | StepPop
    | ShutdownQueue

  function Start(listener: int, batchSize: nat, capacity: nat): Joint
    requires capacity >= 2
  {
    Joint(System.Start(listener, 1, batchSize), Spsc.Empty(capacity), None)
  }

  predicate Enabled(j: Joint, a: Action) {
    Spsc.Shaped(j.ring) &&
    match a
    case Network(act) => j.pushing.None? && OutsidePush(j.system, act)
    case Worker(act) => Spsc.ConsumerFree(j.ring) && OutsidePop(j.system, act, 0)
    case StopPool => true
    case BeginPush(reply) => j.pushing.None? && Spsc.ProducerFree(j.ring) && Submission(j.system, reply).Some?
    case StepPush => j.pushing.Some? && !Spsc.ProducerFree(j.ring)
    case BeginPop => Spsc.ConsumerFree(j.ring) && WantsTask(j.system, 0)
    case StepPop => !Spsc.ConsumerFree(j.ring)
    case ShutdownQueue => true
  }

  /** The step of the ring. */
  function RingAction(j: Joint, a: Action): Option<Spsc.Action> {
    match a
    case BeginPush(reply) =>
      var task := Submission(j.system, reply);
      if task.Some? then Some(Spsc.BeginPush(task.value)) else None
    case StepPush => Some(Spsc.StepProducer)
    case BeginPop => Some(Spsc.BeginPop)
    case StepPop => Some(Spsc.StepConsumer)
    case ShutdownQueue => Some(Spsc.Shutdown)
    case _ => None
  }

  function RingAfter(j: Joint, a: Action): (r: Spsc.Ring)
    requires Enabled(j, a)
    ensures Spsc.Shaped(r) && r.capacity == j.ring.capacity
  {
    var act := RingAction(j, a);
    if act.Some? then Spsc.Apply(j.ring, act.value) else j.ring
  }

  function PushLabel(reply: Reply, producer: Spsc.Producer): Option<System.Action> {
    if producer.Pushed? then Some(System.Visit(reply, producer.accepted)) else None
  }

  function PopLabel(consumer: Spsc.Consumer): Option<System.Action> {
    if consumer.Popped? then Some(System.PopTask(0))
    else if consumer.FoundEmpty? then Some(System.EndBatch(0))
    else None
  }

  /** The step of the coarse system that happens in this step, if any. */
  function Label(j: Joint, a: Action): Option<System.Action>
    requires Enabled(j, a)
  {
    match a
    case Network(act) => Some(act)
    case Worker(act) => Some(act)
    case StopPool => Some(System.StopPool)
    case StepPush => PushLabel(j.pushing.value, RingAfter(j, a).producer)
    case StepPop => PopLabel(RingAfter(j, a).consumer)
    case _ => None
  }

  function PushingAfter(j: Joint, a: Action): Option<Reply>
    requires Enabled(j, a)
  {
    match a
    case BeginPush(reply) => Some(reply)
    case StepPush => if Label(j, a).Some? then None else j.pushing
    case _ => j.pushing
  }

  function Apply(j: Joint, a: Action): Joint
    requires Enabled(j, a)
  {
    Joint(Perform(j.system, Label(j, a)), RingAfter(j, a), PushingAfter(j, a))
  }

  function Run(j: Joint, actions: seq<Action>): Option<Joint> {
    if actions == [] then Some(j)
    else
      var before := Run(j, actions[..|actions| - 1]);
      var a := actions[|actions| - 1];
      if before.Some? && Enabled(before.value, a) then Some(Apply(before.value, a)) else None
  }

  /** The run of the coarse system inside a run. */
  function Trace(j: Joint, actions: seq<Action>): seq<System.Action>
    requires Run(j, actions).Some?
  {
    if actions == [] then []
    else
      var before := actions[..|actions| - 1];
      Trace(j, before) + Steps(Label(Run(j, before).value, actions[|actions| - 1]))
  }

  // ----- what links the ring to the system -----

  predicate InStep(s: System.State, ring: Spsc.Ring) {
    && ring.head <= |ring.log| && s.taskHead <= |s.tasks|
    && SpscTheorems.Contents(ring) == Waiting(s)
  }

  predicate PushRole(s: System.State, producer: Spsc.Producer, pushing: Option<Reply>) {
    if pushing.None? then producer.ProducerIdle? || producer.Pushed?
    else !producer.ProducerIdle? && !producer.Pushed? && Submission(s, pushing.value) == Some(producer.task)
  }

  predicate PopRole(s: System.State, consumer: Spsc.Consumer) {
    consumer.ConsumerIdle? || consumer.Popped? || consumer.FoundEmpty? || WantsTask(s, 0)
  }

  predicate Linked(j: Joint) {
    && SpscTheorems.Inv(j.ring)
    && InStep(j.system, j.ring)
    && PushRole(j.system, j.ring.producer, j.pushing)
    && PopRole(j.system, j.ring.consumer)
  }

  /** Steps outside the ring, and steps of the ring that begin a call or shut the queue down. */
  lemma OutsideKeepsLink(j: Joint, a: Action)
    requires Linked(j) && Enabled(j, a) && !a.StepPush? && !a.StepPop?
    ensures Linked(Apply(j, a)) && Apply(j, a).system.refused == j.system.refused
    ensures Label(j, a).Some? ==> System.Enabled(j.system, Label(j, a).value)
  {
    if a.Network? { OutsidePushEffect(j.system, a.act); }
    if a.Worker? { OutsidePopEffect(j.system, a.act, 0); }
    if a.BeginPush? || a.BeginPop? || a.ShutdownQueue? {
      SpscTheorems.StepRefines(j.ring, RingAction(j, a).value);
    }
  }

  /** A step of push leaves the contents alone until it returns, and then adds the task if it was accepted. */
  predicate PushSummary(ring: Spsc.Ring, after: Spsc.Ring) {
    && !ring.producer.ProducerIdle? && !ring.producer.Pushed? && !after.producer.ProducerIdle?
    && ring.head <= |ring.log| && after.head <= |after.log|
    && var queue, later := SpscTheorems.Contents(ring), SpscTheorems.Contents(after);
       if after.producer.Pushed? then later == (if after.producer.accepted then queue + [ring.producer.task] else queue)
       else after.producer.task == ring.producer.task && later == queue
  }

  lemma StepPushes(ring: Spsc.Ring)
    requires SpscTheorems.Inv(ring) && !Spsc.ProducerFree(ring)
    ensures var after := Spsc.AdvanceProducer(ring); SpscTheorems.Inv(after) && PushSummary(ring, after)
  {
    SpscTheorems.StepRefines(ring, Spsc.StepProducer);
  }

  /** What a step of push does to both sides, by whether it returns. */
  lemma PushOutcome(s: System.State, ring: Spsc.Ring, after: Spsc.Ring, reply: Reply)
    requires InStep(s, ring) && PushRole(s, ring.producer, Some(reply)) && PushSummary(ring, after)
    ensures var did := PushLabel(reply, after.producer);
            var r := Perform(s, did);
            && InStep(r, after)
            && (did.Some? ==> System.Enabled(s, did.value))
            && PushRole(r, after.producer, if did.Some? then None else Some(reply))
            && r.workers == s.workers && r.batchSize == s.batchSize
            && (r.refused == s.refused || after.producer == Spsc.Pushed(false))
  {
    PushEffect(s, reply, true);
    PushEffect(s, reply, false);
  }

  lemma PushKeepsLink(j: Joint)
    requires Linked(j) && Enabled(j, StepPush)
    ensures Linked(Apply(j, StepPush))
    ensures Label(j, StepPush).Some? ==> System.Enabled(j.system, Label(j, StepPush).value)
    ensures Apply(j, StepPush).system.refused == j.system.refused
         || Spsc.AdvanceProducer(j.ring).producer == Spsc.Pushed(false)
  {
    StepPushes(j.ring);
    PushOutcome(j.system, j.ring, Spsc.AdvanceProducer(j.ring), j.pushing.value);
  }

  lemma PopOutcome(s: System.State, ring: Spsc.Ring)
    requires SpscTheorems.Inv(ring) && InStep(s, ring) && WantsTask(s, 0) && !Spsc.ConsumerFree(ring)
    ensures var after := Spsc.AdvanceConsumer(ring);
            var did := PopLabel(after.consumer);
            var r := Perform(s, did);
            && SpscTheorems.Inv(after) && InStep(r, after)
            && (did.Some? ==> System.Enabled(s, did.value))
            && PopRole(r, after.consumer)
            && r.pass == s.pass && r.refused == s.refused
            && (after.consumer.Popped? ==>
                  LastTaken(r, 0).Some? && after.consumer.got == RingCells.Full(LastTaken(r, 0).value))
  {
    SpscTheorems.StepRefines(ring, Spsc.StepConsumer);
    if ring.consumer.StoreHead? {
      assert SpscTheorems.Contents(ring)[0] == ring.log[ring.head];
      PopEffect(s, 0);
    } else {
      EmptyEffect(s, 0);
    }
  }

  /** The task that pop returns is the task the coarse system put into the batch. */
  lemma PopKeepsLink(j: Joint)
    requires Linked(j) && Enabled(j, StepPop)
    ensures Linked(Apply(j, StepPop)) && Apply(j, StepPop).system.refused == j.system.refused
    ensures Label(j, StepPop).Some? ==> System.Enabled(j.system, Label(j, StepPop).value)
    ensures var r := Apply(j, StepPop);
            r.ring.consumer.Popped? ==>
              LastTaken(r.system, 0).Some? && r.ring.consumer.got == RingCells.Full(LastTaken(r.system, 0).value)
  {
    PopOutcome(j.system, j.ring);
  }

  lemma StepKeepsLink(j: Joint, a: Action)
    requires Linked(j) && Enabled(j, a)
    ensures Linked(Apply(j, a))
    ensures Label(j, a).Some? ==> System.Enabled(j.system, Label(j, a).value)
    ensures Apply(j, a).system.refused == j.system.refused
         || (a.StepPush? && Spsc.AdvanceProducer(j.ring).producer == Spsc.Pushed(false))
  {
    if a.StepPush? {
      PushKeepsLink(j);
    } else if a.StepPop? {
      PopKeepsLink(j);
    } else {
      OutsideKeepsLink(j, a);
    }
  }

  // ----- theorems -----

  lemma {:induction false} RefinesFrom(j: Joint, actions: seq<Action>)
    requires Linked(j) && Run(j, actions).Some?
    ensures Linked(Run(j, actions).value) && Run(j, actions).value.ring.capacity == j.ring.capacity
    ensures System.Run(j.system, Trace(j, actions)) == Some(Run(j, actions).value.system)
  {
    if actions != [] {
      var before, a := actions[..|actions| - 1], actions[|actions| - 1];
      RefinesFrom(j, before);
      var r := Run(j, before).value;
      StepKeepsLink(r, a);
      ExtendRun(j.system, Trace(j, before), r.system, Label(r, a));
    }
  }

  /** Every run at the grain of atomic accesses is a run of the coarse system, and the ring holds its queue. */
  lemma RefinesSystem(listener: int, batchSize: nat, capacity: nat, actions: seq<Action>)
    requires capacity >= 2 && Run(Start(listener, batchSize, capacity), actions).Some?
    ensures var start := Start(listener, batchSize, capacity);
            var j := Run(start, actions).value;
            && Linked(j) && j.ring.capacity == capacity
            && System.Run(start.system, Trace(start, actions)) == Some(j.system)
            && SystemInvariant.Inv(j.system)
  {
    var start := Start(listener, batchSize, capacity);
    RefinesFrom(start, actions);
    SystemInvariant.StartInv(listener, 1, batchSize);
    SystemInvariant.RunsKeepInv(start.system, Trace(start, actions));
  }

  /**
   So in the server with the SPSC ring no request is lost or duplicated, and every reply goes
   to the connection that sent the request.
   */
  lemma ServerIsSound(listener: int, batchSize: nat, capacity: nat, actions: seq<Action>, id: nat, p: nat)
    requires capacity >= 2 && Run(Start(listener, batchSize, capacity), actions).Some?
    ensures var s := Run(Start(listener, batchSize, capacity), actions).value.system;
            && (id < s.pass.server.nextTraceId <==> exists place :: SystemInvariant.HeldAt(s, id, place))
            && (forall x, y :: SystemInvariant.HeldAt(s, id, x) && SystemInvariant.HeldAt(s, id, y) ==> x == y)
            && (p < s.resultHead ==>
                  && p < |s.results| && p < |s.deliveredTo| && s.results[p].requestId < |s.origins|
                  && s.deliveredTo[p] == Some(s.origins[s.results[p].requestId].connection))
  {
    var start := Start(listener, batchSize, capacity);
    RefinesSystem(listener, batchSize, capacity, actions);
    SystemTheorems.Conservation(listener, 1, batchSize, Trace(start, actions), id);
    if p < Run(start, actions).value.system.resultHead {
      SystemTheorems.RepliesGoHome(listener, 1, batchSize, Trace(start, actions), p);
    }
  }

  /** What the end-to-end theorem says of each connection holds of the server with the SPSC ring. */
  lemma ClientsAreServed(listener: int, batchSize: nat, capacity: nat, actions: seq<Action>, n: nat, ps: seq<seq<byte>>)
    requires capacity >= 2 && Run(Start(listener, batchSize, capacity), actions).Some?
    ensures var start := Start(listener, batchSize, capacity);
            && System.Run(start.system, Trace(start, actions)).Some?
            && var d := EndToEnd.DialogueOf(start.system, Trace(start, actions), n);
               EndToEnd.Served(d, ps, start.system, Trace(start, actions))
  {
    RefinesSystem(listener, batchSize, capacity, actions);
    EndToEnd.RequestsAndReplies(listener, 1, batchSize, Trace(Start(listener, batchSize, capacity), actions), n, ps);
  }

  /** The bound on results after stop, too. */
  lemma ShutdownBound(listener: int, batchSize: nat, capacity: nat, before: seq<Action>, after: seq<Action>)
    requires capacity >= 2 && Run(Start(listener, batchSize, capacity), before).Some?
    requires var j := Run(Start(listener, batchSize, capacity), before).value; j.system.stop && Run(j, after).Some?
    ensures var j := Run(Start(listener, batchSize, capacity), before).value;
            |Run(j, after).value.system.results| <= |j.system.results| + batchSize
  {
    var start := Start(listener, batchSize, capacity);
    var j := Run(start, before).value;
    RefinesSystem(listener, batchSize, capacity, before);
    RefinesFrom(j, after);
    SystemTheorems.ShutdownBound(listener, 1, batchSize, Trace(start, before), Trace(j, after));
  }

  /** A push is refused only after shutdown or with at least as many open sessions as slots. */
  lemma RefusedOnlyWhen(j: Joint)
    requires Linked(j) && SystemInvariant.Inv(j.system)
    requires Enabled(j, StepPush) && Spsc.AdvanceProducer(j.ring).producer == Spsc.Pushed(false)
    ensures j.ring.stopped || |j.system.pass.server.sessions| >= j.ring.capacity
  {
    if j.ring.producer.LoadHead? {
      SpscTheorems.RefusedExactlyWhenFull(j.ring);
      SystemTheorems.RoomWhenSubmitting(j.system, j.pushing.value);
    }
  }

  ghost predicate AlwaysAtMost(j: Joint, actions: seq<Action>, limit: nat) {
    && (Run(j, actions).Some? ==> |Run(j, actions).value.system.pass.server.sessions| <= limit)
    && (actions != [] ==> AlwaysAtMost(j, actions[..|actions| - 1], limit))
  }

  lemma StepNotRefused(j: Joint, a: Action)
    requires Linked(j) && SystemInvariant.Inv(j.system) && Enabled(j, a)
    requires !j.ring.stopped && j.system.refused == [] && a != ShutdownQueue
    requires |j.system.pass.server.sessions| < j.ring.capacity
    ensures var r := Apply(j, a); !r.ring.stopped && r.system.refused == []
  {
    StepKeepsLink(j, a);
    if a.StepPush? && Spsc.AdvanceProducer(j.ring).producer == Spsc.Pushed(false) {
      RefusedOnlyWhen(j);
    }
  }

  lemma {:induction false} NothingRefused(listener: int, batchSize: nat, capacity: nat, actions: seq<Action>)
    requires capacity >= 2 && Run(Start(listener, batchSize, capacity), actions).Some?
    requires AlwaysAtMost(Start(listener, batchSize, capacity), actions, capacity - 1) && ShutdownQueue !in actions
    ensures var j := Run(Start(listener, batchSize, capacity), actions).value;
            !j.ring.stopped && j.system.refused == []
  {
    if actions != [] {
      var before, a := actions[..|actions| - 1], actions[|actions| - 1];
      assert actions == before + [a];
      NothingRefused(listener, batchSize, capacity, before);
      RefinesSystem(listener, batchSize, capacity, before);
      StepNotRefused(Run(Start(listener, batchSize, capacity), before).value, a);
    }
  }

  /**
   With the ring of 1024 slots, one worker and never more than 1023 open sessions, no
   request is refused before shutdown, the ring holds exactly the system's queue, and it
   holds no more tasks than sessions wait for inference.
   */
  lemma NeverRefused(listener: int, batchSize: nat, actions: seq<Action>)
    requires Run(Start(listener, batchSize, 1024), actions).Some?
    requires AlwaysAtMost(Start(listener, batchSize, 1024), actions, 1023) && ShutdownQueue !in actions
    ensures var j := Run(Start(listener, batchSize, 1024), actions).value;
            && j.system.refused == []
            && InStep(j.system, j.ring)
            && j.ring.tail - j.ring.head <= |SystemTheorems.WaitingSessions(j.system.pass.server)|
  {
    NothingRefused(listener, batchSize, 1024, actions);
    RefinesSystem(listener, batchSize, 1024, actions);
    SystemTheorems.QueueWithinWaiting(Run(Start(listener, batchSize, 1024), actions).value.system);
  }
}
