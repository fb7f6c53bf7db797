/**
 The bounded multi-producer multi-consumer ring as a transition system.

 Any number of threads call push and pop. One atomic access of a thread is one step,
 steps of different threads interleave freely, and the weak compare-exchange may fail
 although the value matches. Writing or moving out a cell's task takes two steps, with
 the cell torn in between, so that a data race would be visible.
 */
module Mpmc {
  import opened Core
  import opened RingCells

  /** Where a thread is, with its local copy of `t` or `h`. */
  datatype Pc =
    | PushCheckStop(task: InferenceTask)
    | PushLoadTail(task: InferenceTask)
    | PushLoadSequence(task: InferenceTask, t: nat)
    | PushCas(task: InferenceTask, t: nat)
    | PushWrite(task: InferenceTask, t: nat)
    | PushWriting(task: InferenceTask, t: nat)
    | PushPublish(task: InferenceTask, t: nat)
    | PushDone(accepted: bool)
    | PopLoadHead
    | PopLoadSequence(h: nat)
    | PopCas(h: nat)
    | PopMove(h: nat)
    | PopMoving(h: nat, got: Slot)
    | PopRelease(h: nat, got: Slot)
    | PopDone(got: Slot)
    | PopEmpty

  /** History: how far the task of a position has come, and which thread holds it. */
  datatype Phase = Claimed(writer: nat) | Published | Taking(reader: nat) | Released(got: Slot)

  datatype Entry = Entry(task: InferenceTask, phase: Phase)

  /**
   `entries` is history only: entries[p] is the task whose producer claimed position p.
   No step reads it to decide what to do.
   */
  datatype State = State(
    capacity: nat,
    head: nat,
    tail: nat,
    stopped: bool,
    sequence: seq<nat>,
    slots: seq<Slot>,
    threads: map<nat, Pc>,
    entries: seq<Entry>)

  datatype Action =
    | BeginPush(tid: nat, task: InferenceTask)
    | BeginPop(tid: nat)
    | Step(tid: nat, spurious: bool)
    | Shutdown

  predicate Shaped(s: State) {
    && s.capacity >= 2
    && |s.sequence| == s.capacity
    && |s.slots| == s.capacity
  }

  function Init(capacity: nat): (s: State)
    requires capacity >= 2
    ensures Shaped(s)
  {
    State(capacity, 0, 0, false, seq(capacity, i requires 0 <= i => i), seq(capacity, _ => Vacant), map[], [])
  }

  predicate Free(s: State, tid: nat) {
    tid in s.threads ==> s.threads[tid].PushDone? || s.threads[tid].PopDone? || s.threads[tid].PopEmpty?
  }

  predicate Enabled(s: State, a: Action) {
    match a
    case BeginPush(tid, _) => Free(s, tid)
    case BeginPop(tid) => Free(s, tid)
    case Step(tid, _) => !Free(s, tid)
    case Shutdown => true
  }

  function Goto(s: State, tid: nat, pc: Pc): State {
    s.(threads := s.threads[tid := pc])
  }

  function SetPhase(entries: seq<Entry>, p: nat, phase: Phase): (r: seq<Entry>)
    ensures |r| == |entries|
  {
    if p < |entries| then entries[p := Entry(entries[p].task, phase)] else entries
  }

  /** Signed distance of a loaded sequence from the position it is compared with. */
  function Diff(sequence: nat, position: nat): int {
    sequence - position
  }

  function AdvancePush(s: State, tid: nat, spurious: bool): (r: State)
    requires Shaped(s) && !Free(s, tid)
    ensures Shaped(r) && r.capacity == s.capacity
  {
    match s.threads[tid]
    case PushCheckStop(task) =>
      Goto(s, tid, if s.stopped then PushDone(false) else PushLoadTail(task))
    case PushLoadTail(task) =>
      Goto(s, tid, PushLoadSequence(task, s.tail))
    case PushLoadSequence(task, t) =>
      var diff := Diff(s.sequence[CellOf(t, s.capacity)], t);
      Goto(s, tid, if diff == 0 then PushCas(task, t) else if diff < 0 then PushDone(false) else PushLoadTail(task))
    case PushCas(task, t) =>
      if s.tail == t && !spurious then
        Goto(s.(tail := t + 1, entries := s.entries + [Entry(task, Claimed(tid))]), tid, PushWrite(task, t))
      else
        Goto(s, tid, PushLoadSequence(task, s.tail))
    case PushWrite(task, t) =>
      Goto(s.(slots := s.slots[CellOf(t, s.capacity) := Torn]), tid, PushWriting(task, t))
    case PushWriting(task, t) =>
      Goto(s.(slots := s.slots[CellOf(t, s.capacity) := Full(task)]), tid, PushPublish(task, t))
    case PushPublish(task, t) =>
      Goto(s.(sequence := s.sequence[CellOf(t, s.capacity) := t + 1],
              entries := SetPhase(s.entries, t, Published)), tid, PushDone(true))
    case _ => s
  }

  function AdvancePop(s: State, tid: nat, spurious: bool): (r: State)
    requires Shaped(s) && !Free(s, tid)
    ensures Shaped(r) && r.capacity == s.capacity
  {
    match s.threads[tid]
    case PopLoadHead =>
      Goto(s, tid, PopLoadSequence(s.head))
    case PopLoadSequence(h) =>
      var diff := Diff(s.sequence[CellOf(h, s.capacity)], h + 1);
      Goto(s, tid, if diff == 0 then PopCas(h) else if diff < 0 then PopEmpty else PopLoadHead)
    case PopCas(h) =>
      if s.head == h && !spurious then
        Goto(s.(head := h + 1, entries := SetPhase(s.entries, h, Taking(tid))), tid, PopMove(h))
      else
        Goto(s, tid, PopLoadSequence(s.head))
    case PopMove(h) =>
      var i := CellOf(h, s.capacity);
      Goto(s.(slots := s.slots[i := Torn]), tid, PopMoving(h, s.slots[i]))
    case PopMoving(h, got) =>
      Goto(s.(slots := s.slots[CellOf(h, s.capacity) := Vacant]), tid, PopRelease(h, got))
    case PopRelease(h, got) =>
      Goto(s.(sequence := s.sequence[CellOf(h, s.capacity) := h + s.capacity],
              entries := SetPhase(s.entries, h, Released(got))), tid, PopDone(got))
    case _ => s
  }

  predicate InPush(pc: Pc) {
    || pc.PushCheckStop? || pc.PushLoadTail? || pc.PushLoadSequence? || pc.PushCas?
    || pc.PushWrite? || pc.PushWriting? || pc.PushPublish?
  }

  function Apply(s: State, a: Action): (r: State)
    requires Shaped(s) && Enabled(s, a)
    ensures Shaped(r) && r.capacity == s.capacity
  {
    match a
    case BeginPush(tid, task) => Goto(s, tid, PushCheckStop(task))
    case BeginPop(tid) => Goto(s, tid, PopLoadHead)
    case Step(tid, spurious) =>
      if InPush(s.threads[tid]) then AdvancePush(s, tid, spurious) else AdvancePop(s, tid, spurious)
    case Shutdown => s.(stopped := true)
  }

  /** The state after a run, or None when some action was not enabled. */
  function Run(s: State, actions: seq<Action>): (r: Option<State>)
    requires Shaped(s)
    ensures r.Some? ==> Shaped(r.value) && r.value.capacity == s.capacity
  {
    if actions == [] then Some(s)
    else
      var before := Run(s, actions[..|actions| - 1]);
      var a := actions[|actions| - 1];
      if before.Some? && Enabled(before.value, a) then Some(Apply(before.value, a)) else None
  }
}
