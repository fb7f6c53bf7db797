/**
 The single-producer single-consumer ring as a transition system: one producer and one
 consumer, each deciding on a copy of the other's index that is stale by the time it acts.
 A task is written and moved out in two steps, with the slot torn in between.
 */
module Spsc {
  import opened Core
  import opened RingCells

  datatype Producer =
    | ProducerIdle
    | CheckStop(task: InferenceTask)
    | LoadOwnTail(task: InferenceTask)
    | LoadHead(task: InferenceTask, t: nat)
    | Write(task: InferenceTask, t: nat)
    | Writing(task: InferenceTask, t: nat)
    | StoreTail(task: InferenceTask, t: nat)
    | Pushed(accepted: bool)

  datatype Consumer =
    | ConsumerIdle
    | LoadOwnHead
    | LoadTail(h: nat)
    | Move(h: nat)
    | Moving(h: nat, got: Slot)
    | StoreHead(h: nat, got: Slot)
    | Popped(got: Slot)
    | FoundEmpty

  /** `log` and `popped` are history: the tasks pushed and the values returned, in order. */
  datatype Ring = Ring(
    capacity: nat,
    head: nat,
    tail: nat,
    stopped: bool,
    buffer: seq<Slot>,
    producer: Producer,
    consumer: Consumer,
    log: seq<InferenceTask>,
    popped: seq<Slot>)

  datatype Action = BeginPush(task: InferenceTask) | StepProducer | BeginPop | StepConsumer | Shutdown

  predicate Shaped(s: Ring) {
    s.capacity >= 2 && |s.buffer| == s.capacity
  }

  function Empty(capacity: nat): (s: Ring)
    requires capacity >= 2
    ensures Shaped(s)
  {
    Ring(capacity, 0, 0, false, seq(capacity, _ => Vacant), ProducerIdle, ConsumerIdle, [], [])
  }

  predicate ProducerFree(s: Ring) {
    s.producer.ProducerIdle? || s.producer.Pushed?
  }

  predicate ConsumerFree(s: Ring) {
    s.consumer.ConsumerIdle? || s.consumer.Popped? || s.consumer.FoundEmpty?
  }

  predicate Enabled(s: Ring, a: Action) {
    match a
    case BeginPush(_) => ProducerFree(s)
    case StepProducer => !ProducerFree(s)
    case BeginPop => ConsumerFree(s)
    case StepConsumer => !ConsumerFree(s)
    case Shutdown => true
  }

  function AdvanceProducer(s: Ring): (r: Ring)
    requires Shaped(s) && !ProducerFree(s)
    ensures Shaped(r) && r.capacity == s.capacity
  {
    var n := s.capacity;
    match s.producer
    case CheckStop(task) => s.(producer := if s.stopped then Pushed(false) else LoadOwnTail(task))
    case LoadOwnTail(task) => s.(producer := LoadHead(task, s.tail))
    case LoadHead(task, t) =>
      s.(producer := if CellOf(t + 1, n) == CellOf(s.head, n) then Pushed(false) else Write(task, t))
    case Write(task, t) => s.(buffer := s.buffer[CellOf(t, n) := Torn], producer := Writing(task, t))
    case Writing(task, t) => s.(buffer := s.buffer[CellOf(t, n) := Full(task)], producer := StoreTail(task, t))
    case StoreTail(task, t) => s.(tail := t + 1, log := s.log + [task], producer := Pushed(true))
  }

  function AdvanceConsumer(s: Ring): (r: Ring)
    requires Shaped(s) && !ConsumerFree(s)
    ensures Shaped(r) && r.capacity == s.capacity
  {
    var n := s.capacity;
    match s.consumer
    case LoadOwnHead => s.(consumer := LoadTail(s.head))
    case LoadTail(h) => s.(consumer := if h == s.tail then FoundEmpty else Move(h))
    case Move(h) => s.(buffer := s.buffer[CellOf(h, n) := Torn], consumer := Moving(h, s.buffer[CellOf(h, n)]))
    case Moving(h, got) => s.(buffer := s.buffer[CellOf(h, n) := Vacant], consumer := StoreHead(h, got))
    case StoreHead(h, got) => s.(head := h + 1, popped := s.popped + [got], consumer := Popped(got))
  }

  function Apply(s: Ring, a: Action): (r: Ring)
    requires Shaped(s) && Enabled(s, a)
    ensures Shaped(r) && r.capacity == s.capacity
  {
    match a
    case BeginPush(task) => s.(producer := CheckStop(task))
    case StepProducer => AdvanceProducer(s)
    case BeginPop => s.(consumer := LoadOwnHead)
    case StepConsumer => AdvanceConsumer(s)
    case Shutdown => s.(stopped := true)
  }

  function Run(s: Ring, actions: seq<Action>): (r: Option<Ring>)
    requires Shaped(s)
    ensures r.Some? ==> Shaped(r.value) && r.value.capacity == s.capacity
  {
    if actions == [] then Some(s)
    else
      var before := Run(s, actions[..|actions| - 1]);
      var a := actions[|actions| - 1];
      if before.Some? && Enabled(before.value, a) then Some(Apply(before.value, a)) else None
  }
}

/** The SPSC ring is a FIFO queue that holds one task fewer than it has slots. */
module SpscTheorems {
  import opened Core
  import opened RingCells
  import TaskFifo
  import opened Spsc

  /** Tasks whose tail store happened and whose head store did not. */
  function Contents(s: Ring): seq<InferenceTask>
    requires s.head <= |s.log|
  {
    s.log[s.head..]
  }

  predicate SlotFits(s: Ring, p: nat)
    requires Shaped(s) && p < |s.log|
  {
    var slot := s.buffer[CellOf(p, s.capacity)];
    if p != s.head then slot == Full(s.log[p])
    else match s.consumer
      case Moving(_, _) => slot == Torn
      case StoreHead(_, _) => slot == Vacant
      case _ => slot == Full(s.log[p])
  }

  predicate ProducerFits(s: Ring)
    requires Shaped(s)
  {
    match s.producer
    case LoadHead(_, t) => t == s.tail
    case Write(_, t) => t == s.tail < s.head + s.capacity - 1
    case Writing(_, t) => t == s.tail < s.head + s.capacity - 1
    case StoreTail(task, t) => t == s.tail < s.head + s.capacity - 1 && s.buffer[CellOf(t, s.capacity)] == Full(task)
    case _ => true
  }

  predicate ConsumerFits(s: Ring) {
    match s.consumer
    case LoadTail(h) => h == s.head
    case Move(h) => h == s.head < |s.log|
    case Moving(h, got) => h == s.head < |s.log| && got == Full(s.log[h])
    case StoreHead(h, got) => h == s.head < |s.log| && got == Full(s.log[h])
    case _ => true
  }

  predicate Inv(s: Ring) {
    && Shaped(s)
    && s.head <= s.tail == |s.log| && s.tail <= s.head + s.capacity - 1
    && (forall p: nat :: s.head <= p < s.tail ==> SlotFits(s, p))
    && ProducerFits(s)
    && ConsumerFits(s)
    && |s.popped| == s.head
    && (forall i :: 0 <= i < s.head ==> s.popped[i] == Full(s.log[i]))
  }

  /** The comparison of masked indices is exactly the test for capacity - 1 tasks. */
  lemma FullTest(head: nat, t: nat, n: nat)
    requires n >= 2 && head <= t <= head + n - 1
    ensures CellOf(t + 1, n) == CellOf(head, n) <==> t - head == n - 1
  {
    if t - head == n - 1 {
      SameCell(head, n);
    } else {
      CellsApart(head, t + 1, n);
    }
  }

  /** The slot the producer fills is not the slot of any unread task. */
  lemma FreeSlot(s: Ring, p: nat)
    requires Inv(s) && s.head <= p < s.tail
    ensures CellOf(p, s.capacity) != CellOf(s.tail, s.capacity)
  {
    CellsApart(p, s.tail, s.capacity);
  }

  lemma ProducerKeepsInv(s: Ring)
    requires Inv(s) && !ProducerFree(s)
    ensures Inv(AdvanceProducer(s))
    ensures forall p: nat :: s.head <= p < s.tail ==>
              AdvanceProducer(s).buffer[CellOf(p, s.capacity)] == s.buffer[CellOf(p, s.capacity)]
  {
    if s.producer.LoadHead? { FullTest(s.head, s.tail, s.capacity); }
    var r := AdvanceProducer(s);
    forall p: nat | s.head <= p < s.tail
      ensures r.buffer[CellOf(p, s.capacity)] == s.buffer[CellOf(p, s.capacity)]
      ensures SlotFits(r, p)
    {
      FreeSlot(s, p);
      assert SlotFits(s, p);
    }
  }

  lemma ConsumerKeepsInv(s: Ring)
    requires Inv(s) && !ConsumerFree(s)
    ensures Inv(AdvanceConsumer(s))
  {
    var r, n := AdvanceConsumer(s), s.capacity;
    if s.head < s.tail { assert SlotFits(s, s.head); }
    forall p: nat | r.head <= p < r.tail ensures SlotFits(r, p) {
      assert SlotFits(s, p);
      if p > s.head { CellsApart(s.head, p, n); }
    }
    assert ProducerFits(r) by {
      if s.head < s.tail { CellsApart(s.head, s.tail, n); }
    }
  }

  lemma StepKeepsInv(s: Ring, a: Action)
    requires Inv(s) && Enabled(s, a)
    ensures Inv(Apply(s, a))
  {
    match a
    case StepProducer => ProducerKeepsInv(s);
    case StepConsumer => ConsumerKeepsInv(s);
    case BeginPush(_) => OutsideKeepsInv(s, a);
    case BeginPop => OutsideKeepsInv(s, a);
    case Shutdown => OutsideKeepsInv(s, a);
  }

  lemma OutsideKeepsInv(s: Ring, a: Action)
    requires Inv(s) && Enabled(s, a) && !a.StepProducer? && !a.StepConsumer?
    ensures Inv(Apply(s, a))
  {
    forall p: nat | s.head <= p < s.tail ensures SlotFits(Apply(s, a), p) {
      assert SlotFits(s, p);
    }
  }

  // ----- refinement -----

  /** A push takes effect at its tail store, a pop at its head store. */
  function Effect(s: Ring, a: Action): seq<TaskFifo.Event> {
    if a.StepProducer? && s.producer.StoreTail? then [TaskFifo.Enqueue(s.producer.task)]
    else if a.StepConsumer? && s.consumer.StoreHead? && s.consumer.got.Full?
    then [TaskFifo.Dequeue(s.consumer.got.task)]
    else []
  }

  function History(s: Ring, actions: seq<Action>): seq<TaskFifo.Event>
    requires Shaped(s) && Run(s, actions).Some?
  {
    if actions == [] then []
    else
      var before := actions[..|actions| - 1];
      History(s, before) + Effect(Run(s, before).value, actions[|actions| - 1])
  }

  lemma StepRefines(s: Ring, a: Action)
    requires Inv(s) && Enabled(s, a)
    ensures Inv(Apply(s, a))
    ensures Effect(s, a) == [] ==> Contents(Apply(s, a)) == Contents(s)
    ensures Effect(s, a) != [] ==> TaskFifo.Apply(Contents(s), Effect(s, a)[0]) == Some(Contents(Apply(s, a)))
  {
    StepKeepsInv(s, a);
    var r := Apply(s, a);
    if a.StepProducer? && s.producer.StoreTail? {
      assert Contents(r) == Contents(s) + [s.producer.task];
    } else if a.StepConsumer? && s.consumer.StoreHead? {
      assert Contents(r) == Contents(s)[1..];
    }
  }

  /**
   In every interleaving the tail and head stores form a FIFO history, at most
   capacity - 1 tasks are in the ring, and pop returns whole tasks in push order.
   */
  lemma {:induction false} RefinesBoundedFifo(n: nat, actions: seq<Action>)
    requires n >= 2 && Run(Empty(n), actions).Some?
    ensures var s := Run(Empty(n), actions).value;
            && Inv(s)
            && |Contents(s)| <= n - 1
            && TaskFifo.Replay(History(Empty(n), actions)) == Some(Contents(s))
            && |s.popped| <= |s.log|
            && forall i :: 0 <= i < |s.popped| ==> s.popped[i] == Full(s.log[i])
  {
    if actions != [] {
      var before, a := actions[..|actions| - 1], actions[|actions| - 1];
      RefinesBoundedFifo(n, before);
      var s := Run(Empty(n), before).value;
      StepRefines(s, a);
      var events, e := History(Empty(n), before), Effect(s, a);
      if e == [] {
        assert events + e == events;
      } else {
        assert (events + e)[..|events + e| - 1] == events;
      }
    }
  }

  /** A push past the stop check is refused exactly when capacity - 1 tasks are present as head is read. */
  lemma RefusedExactlyWhenFull(s: Ring)
    requires Inv(s) && s.producer.LoadHead?
    ensures AdvanceProducer(s).producer == Pushed(false) <==> |Contents(s)| == s.capacity - 1
  {
    FullTest(s.head, s.tail, s.capacity);
  }

  lemma EmptyExactlyWhen(s: Ring)
    requires Inv(s) && s.consumer.LoadTail?
    ensures AdvanceConsumer(s).consumer == FoundEmpty <==> Contents(s) == []
  {
  }

  /** The two sides never work on the same slot. */
  lemma NoDataRace(s: Ring)
    requires Inv(s)
    requires s.producer.Write? || s.producer.Writing? || s.producer.StoreTail?
    requires s.consumer.Move? || s.consumer.Moving? || s.consumer.StoreHead?
    ensures CellOf(s.producer.t, s.capacity) != CellOf(s.consumer.h, s.capacity)
  {
    CellsApart(s.head, s.tail, s.capacity);
  }

  // ----- after shutdown -----

  /** After Shutdown every push begun later is refused, and nothing is added to the queue. */
  lemma {:induction false} LatePushRefused(s: Ring, later: seq<Action>)
    requires Shaped(s) && ProducerFree(s) && Run(Apply(s, Shutdown), later).Some?
    ensures var r := Run(Apply(s, Shutdown), later).value;
            && r.stopped && r.log == s.log && r.tail == s.tail
            && (r.producer == s.producer || r.producer.CheckStop? || r.producer == Pushed(false))
  {
    if later != [] {
      LatePushRefused(s, later[..|later| - 1]);
    }
  }

  // ----- size() -----

  /** `size()` subtracts a head read later from a tail read earlier, in 64-bit arithmetic. */
  function SizeWord(tailSeen: nat, headSeen: nat): nat {
    (tailSeen - headSeen) % TWO_64
  }

  lemma {:induction false} Monotone(s: Ring, actions: seq<Action>)
    requires Inv(s) && Run(s, actions).Some?
    ensures var r := Run(s, actions).value;
            && Inv(r)
            && s.head <= r.head && s.tail <= r.tail
            && (StepProducer !in actions ==> r.tail == s.tail)
            && (StepConsumer !in actions ==> r.head == s.head)
  {
    if actions != [] {
      var before, a := actions[..|actions| - 1], actions[|actions| - 1];
      assert actions == before + [a];
      Monotone(s, before);
      StepKeepsInv(Run(s, before).value, a);
    }
  }

  /**
   `size()` is within 0..capacity - 1 exactly when the head read second has not passed
   the tail read first. That always holds when the caller is the producer or the consumer,
   because its own index cannot move during the call.
   */
  lemma SizeMeaningfulExactlyWhen(s: Ring, between: seq<Action>)
    requires Inv(s) && Run(s, between).Some? && Run(s, between).value.head < TWO_64 - s.capacity
    ensures var size := SizeWord(s.tail, Run(s, between).value.head);
            && (size <= s.capacity - 1 <==> Run(s, between).value.head <= s.tail)
            && (Run(s, between).value.head <= s.tail ==> size == s.tail - Run(s, between).value.head)
            && (StepConsumer !in between ==> size == |Contents(s)|)
            && (StepProducer !in between || StepConsumer !in between ==> size <= s.capacity - 1)
  {
    Monotone(s, between);
    WordOfDifference(s.tail, Run(s, between).value.head);
  }

  lemma WordOfDifference(t: nat, h: nat)
    ensures h <= t < h + TWO_64 ==> SizeWord(t, h) == t - h
    ensures t < h <= t + TWO_64 ==> SizeWord(t, h) == t - h + TWO_64
  {
  }

  lemma Extend(s: Ring, actions: seq<Action>, r: Ring, a: Action) returns (longer: seq<Action>)
    requires Shaped(s) && Run(s, actions) == Some(r) && Enabled(r, a)
    ensures longer == actions + [a] && Run(s, longer) == Some(Apply(r, a))
  {
    longer := actions + [a];
    assert longer[..|longer| - 1] == actions;
  }

  lemma {:induction false} ExtendMany(s: Ring, actions: seq<Action>, r: Ring, a: Action, k: nat)
    returns (longer: seq<Action>)
    requires Shaped(s) && Run(s, actions) == Some(r) && Shaped(r) && Repeats(r, a, k).Some?
    ensures Run(s, longer) == Repeats(r, a, k)
    decreases k
  {
    if k == 0 {
      longer := actions;
    } else {
      var shorter := Extend(s, actions, r, a);
      longer := ExtendMany(s, shorter, Apply(r, a), a, k - 1);
    }
  }

  function Repeats(s: Ring, a: Action, k: nat): Option<Ring>
    requires Shaped(s)
    decreases k
  {
    if k == 0 then Some(s) else if Enabled(s, a) then Repeats(Apply(s, a), a, k - 1) else None
  }

  lemma OnePush(s: Ring, task: InferenceTask)
    requires Shaped(s) && ProducerFree(s) && !s.stopped && CellOf(s.tail + 1, s.capacity) != CellOf(s.head, s.capacity)
    ensures var r := Repeats(Apply(s, BeginPush(task)), StepProducer, 6);
            r.Some? && r.value.tail == s.tail + 1 && r.value.head == s.head && r.value.consumer == s.consumer
  {
  }

  lemma OnePop(s: Ring)
    requires Shaped(s) && ConsumerFree(s) && s.head != s.tail
    ensures var r := Repeats(Apply(s, BeginPop), StepConsumer, 5); r.Some? && r.value.head == s.head + 1
  {
  }

  /** A third thread reading tail, then head after one task has come and gone, sees 2^64 - 1. */
  lemma ObserverUnderflows(task: InferenceTask) returns (between: seq<Action>)
    ensures Run(Empty(1024), between).Some?
    ensures SizeWord(Empty(1024).tail, Run(Empty(1024), between).value.head) == TWO_64 - 1
  {
    var s := Empty(1024);
    OnePush(s, task);
    between := Extend(s, [], s, BeginPush(task));
    between := ExtendMany(s, between, Apply(s, BeginPush(task)), StepProducer, 6);
    var r := Run(s, between).value;
    OnePop(r);
    between := Extend(s, between, r, BeginPop);
    between := ExtendMany(s, between, Apply(r, BeginPop), StepConsumer, 5);
  }
}
