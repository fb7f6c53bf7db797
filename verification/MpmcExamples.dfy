/**
 Where the MPMC ring differs from a bounded queue, for any capacity. A push can be refused by
 an empty ring, when a consumer paused in its window for a whole lap. A pop can find nothing
 although an earlier push returned true, when another producer paused in its window.
 */
module MpmcExamples {
  import opened Core
  import opened RingCells
  import opened Mpmc
  import opened MpmcInvariant
  import opened MpmcTheorems
  import opened MpmcSolo

  const SLOW: nat := 0
  const PRODUCER: nat := 1
  const CONSUMER: nat := 2

  // ----- runs made of calls that run alone -----

  lemma Extend(start: State, actions: seq<Action>, s: State, a: Action) returns (longer: seq<Action>)
    requires Shaped(start) && Run(start, actions) == Some(s) && Enabled(s, a)
    ensures Run(start, longer) == Some(Apply(s, a))
  {
    longer := actions + [a];
    assert longer[..|longer| - 1] == actions;
  }

  lemma ExtendSolo(start: State, actions: seq<Action>, s: State, tid: nat, k: nat) returns (longer: seq<Action>)
    requires Shaped(start) && Run(start, actions) == Some(s) && tid in s.threads
    ensures Run(start, longer) == Some(Solo(s, tid, k))
  {
    longer := actions;
    for i := 0 to k
      invariant Run(start, longer) == Some(Solo(s, tid, i))
    {
      var r := Solo(s, tid, i);
      if !Free(r, tid) { longer := Extend(start, longer, r, Step(tid, false)); }
    }
  }

  /** A thread enters push and passes the stop check. */
  lemma EnterPush(start: State, actions: seq<Action>, s: State, tid: nat, task: InferenceTask)
    returns (longer: seq<Action>, r: State)
    requires Shaped(start) && Run(start, actions) == Some(s) && Inv(s) && Free(s, tid) && !s.stopped
    ensures Run(start, longer) == Some(r) && Inv(r) && r == Goto(s, tid, PushLoadTail(task))
  {
    longer := Extend(start, actions, s, BeginPush(tid, task));
    r := Apply(s, BeginPush(tid, task));
    StepKeepsInv(s, BeginPush(tid, task));
    longer := Extend(start, longer, r, Step(tid, false));
    StepKeepsInv(r, Step(tid, false));
    GotoTwice(s, tid, PushCheckStop(task), PushLoadTail(task));
    r := Apply(r, Step(tid, false));
  }

  lemma EnterPop(start: State, actions: seq<Action>, s: State, tid: nat) returns (longer: seq<Action>, r: State)
    requires Shaped(start) && Run(start, actions) == Some(s) && Inv(s) && Free(s, tid)
    ensures Run(start, longer) == Some(r) && Inv(r) && r == Goto(s, tid, PopLoadHead)
  {
    longer := Extend(start, actions, s, BeginPop(tid));
    r := Apply(s, BeginPop(tid));
    StepKeepsInv(s, BeginPop(tid));
  }

  /** A push that runs alone from beginning to end. */
  lemma WholePush(start: State, actions: seq<Action>, s: State, tid: nat, task: InferenceTask)
    returns (longer: seq<Action>, r: State)
    requires Shaped(start) && Run(start, actions) == Some(s) && Inv(s)
    requires Free(s, tid) && !s.stopped && s.tail < s.capacity
    ensures Run(start, longer) == Some(r) && Inv(r) && r.capacity == s.capacity && !r.stopped
    ensures r.threads == s.threads[tid := PushDone(true)]
    ensures r.head == s.head && Contents(r) == Contents(s) + [task]
  {
    var entered;
    longer, entered := EnterPush(start, actions, s, tid, task);
    var k := PushAlone(entered, tid);
    SoloFramed(entered, tid, k);
    SoloSide(entered, tid, k);
    longer := ExtendSolo(start, longer, entered, tid, k);
    r := Solo(entered, tid, k);
    assert Contents(entered) == Contents(s);
  }

  /** A pop that runs alone from beginning to end, with the head published. */
  lemma WholePop(start: State, actions: seq<Action>, s: State, tid: nat) returns (longer: seq<Action>, r: State)
    requires Shaped(start) && Run(start, actions) == Some(s) && Inv(s) && Free(s, tid) && !Unready(s)
    ensures Run(start, longer) == Some(r) && Inv(r) && r.capacity == s.capacity && r.stopped == s.stopped
    ensures tid in r.threads && r.threads[tid].PopDone? && r.threads == s.threads[tid := r.threads[tid]]
    ensures r.tail == s.tail && Contents(s) != [] && Contents(r) == Contents(s)[1..]
  {
    var entered;
    longer, entered := EnterPop(start, actions, s, tid);
    var k := PopAlone(entered, tid);
    SoloFramed(entered, tid, k);
    SoloSide(entered, tid, k);
    longer := ExtendSolo(start, longer, entered, tid, k);
    r := Solo(entered, tid, k);
    assert Contents(entered) == Contents(s);
  }

  // ----- refused by an empty ring -----

  /** The ring is empty at position j of the first lap, and the slow consumer still holds position 0. */
  predicate Lapping(s: State, n: nat, j: nat) {
    && Inv(s) && s.capacity == n && 1 <= j <= n && !s.stopped && s.head == s.tail == j
    && SLOW in s.threads && s.threads[SLOW] == PopMove(0)
    && (PRODUCER in s.threads ==> s.threads[PRODUCER].PushDone?)
    && (CONSUMER in s.threads ==> s.threads[CONSUMER].PopDone?)
    && s.threads.Keys <= {SLOW, PRODUCER, CONSUMER}
  }

  lemma SoloClaims(s: State, tid: nat, k: nat)
    requires Shaped(s) && tid in s.threads && Inv(Solo(s, tid, k)) && Solo(s, tid, k).threads[tid].PopLoadHead?
    requires !Unready(Solo(s, tid, k))
    ensures var before, after := Solo(s, tid, k), Solo(s, tid, k + 3);
            && Inv(after) && after.threads[tid] == PopMove(before.head)
            && Contents(before) != [] && Contents(after) == Contents(before)[1..]
  {
    SoloPopLoads(s, tid, k);
    var loaded := Solo(s, tid, k + 2);
    PopClaims(loaded, tid);
    assert Contents(loaded) == Contents(Solo(s, tid, k));
  }

  /** A consumer claims the oldest task, which is published, and pauses. */
  lemma ClaimHead(start: State, actions: seq<Action>, s: State, tid: nat) returns (longer: seq<Action>, r: State)
    requires Shaped(start) && Run(start, actions) == Some(s) && Inv(s) && Free(s, tid) && !Unready(s)
    ensures Run(start, longer) == Some(r) && Inv(r) && r.capacity == s.capacity && r.stopped == s.stopped
    ensures r.threads == s.threads[tid := PopMove(s.head)]
    ensures r.tail == s.tail && Contents(s) != [] && Contents(r) == Contents(s)[1..]
  {
    var entered;
    longer, entered := EnterPop(start, actions, s, tid);
    var k := 0;
    SoloClaims(entered, tid, k);
    SoloFramed(entered, tid, k + 3);
    SoloSide(entered, tid, k + 3);
    longer := ExtendSolo(start, longer, entered, tid, k + 3);
    r := Solo(entered, tid, k + 3);
    assert Contents(entered) == Contents(s);
  }

  /** The slow consumer claims the first task and pauses. */
  lemma Pause(n: nat, task: InferenceTask) returns (actions: seq<Action>, r: State)
    requires n >= 2
    ensures Run(Init(n), actions) == Some(r) && Lapping(r, n, 1)
  {
    InitInv(n);
    var pushed;
    actions, pushed := WholePush(Init(n), [], Init(n), PRODUCER, task);
    assert |Contents(pushed)| == 1;
    NobodyWriting(pushed);
    actions, r := ClaimHead(Init(n), actions, pushed, SLOW);
    assert |Contents(r)| == 0;
  }

  /** One more task comes and goes. */
  lemma Round(n: nat, actions: seq<Action>, s: State, task: InferenceTask, j: nat)
    returns (longer: seq<Action>, r: State)
    requires n >= 2 && j < n && Run(Init(n), actions) == Some(s) && Lapping(s, n, j)
    ensures Run(Init(n), longer) == Some(r) && Lapping(r, n, j + 1)
  {
    var pushed;
    longer, pushed := WholePush(Init(n), actions, s, PRODUCER, task);
    assert |Contents(pushed)| == 1;
    NobodyWriting(pushed);
    longer, r := WholePop(Init(n), longer, pushed, CONSUMER);
    assert |Contents(r)| == 0;
  }

  lemma {:induction false} Lap(n: nat, task: InferenceTask, j: nat) returns (actions: seq<Action>, r: State)
    requires n >= 2 && 1 <= j <= n
    ensures Run(Init(n), actions) == Some(r) && Lapping(r, n, j)
  {
    if j == 1 {
      actions, r := Pause(n, task);
    } else {
      actions, r := Lap(n, task, j - 1);
      actions, r := Round(n, actions, r, task, j - 1);
    }
  }

  /**
   For every capacity there is a run after which the ring is empty and not stopped, one
   consumer is still inside its pop of position 0, and the next push is refused.
   */
  lemma RefusedWhileEmpty(n: nat, task: InferenceTask) returns (actions: seq<Action>)
    requires n >= 2
    ensures Run(Init(n), actions).Some?
    ensures var s := Run(Init(n), actions).value;
            && !s.stopped && s.head == s.tail == |s.entries| && Contents(s) == []
            && SLOW in s.threads && s.threads[SLOW] == PopMove(0) && s.tail == n
            && PRODUCER in s.threads && s.threads[PRODUCER] == PushDone(false)
  {
    var s, entered;
    actions, s := Lap(n, task, n);
    actions, entered := EnterPush(Init(n), actions, s, PRODUCER, task);
    StillBlocked(entered, n);
    var k := PushAlone(entered, PRODUCER);
    actions := ExtendSolo(Init(n), actions, entered, PRODUCER, k);
    assert Contents(Goto(entered, PRODUCER, PushDone(false))) == [];
  }

  lemma StillBlocked(s: State, n: nat)
    requires Inv(s) && s.capacity == n == s.tail && SLOW in s.threads && s.threads[SLOW] == PopMove(0)
    ensures Blocked(s)
  {
    assert ThreadFits(s, SLOW);
  }

  // ----- nothing to pop after a push returned -----

  /** The slow producer claims position 0 and pauses. */
  lemma PauseWriting(n: nat, task: InferenceTask) returns (actions: seq<Action>, r: State)
    requires n >= 2
    ensures Run(Init(n), actions) == Some(r) && Inv(r) && r.capacity == n && !r.stopped
    ensures r.threads == map[SLOW := PushWrite(task, 0)] && r.head == 0 && Contents(r) == [task]
  {
    InitInv(n);
    var entered;
    actions, entered := EnterPush(Init(n), [], Init(n), SLOW, task);
    var k := 0;
    SoloLoads(entered, SLOW, k);
    SoloStep(entered, SLOW, k + 2);
    SoloFramed(entered, SLOW, k + 3);
    SoloSide(entered, SLOW, k + 3);
    actions := ExtendSolo(Init(n), actions, entered, SLOW, k + 3);
    r := Solo(entered, SLOW, k + 3);
    assert Contents(Solo(entered, SLOW, k + 2)) == [];
  }

  lemma SecondIsPublished(s: State, first: InferenceTask, second: InferenceTask)
    requires Inv(s) && s.head == 0 && Contents(s) == [first, second]
    requires forall tid :: tid in s.threads && HoldingForWrite(s.threads[tid]) ==> s.threads[tid].t == 0
    ensures |s.entries| == 2 && s.entries[1] == Entry(second, Published)
  {
    assert |Contents(s)| == 2;
    assert EntryFits(s, 1);
    assert Contents(s)[1] == s.entries[1].task;
  }

  lemma FirstIsUnpublished(s: State, task: InferenceTask)
    requires Inv(s) && s.head == 0 && SLOW in s.threads && s.threads[SLOW] == PushWrite(task, 0)
    ensures Unready(s)
  {
    assert ThreadFits(s, SLOW);
  }

  /**
   For every capacity there is a run in which a push has returned true and its task is
   published in the ring, and a pop that begins afterwards answers empty.
   */
  lemma EmptyAfterPush(n: nat, first: InferenceTask, second: InferenceTask) returns (actions: seq<Action>)
    requires n >= 2
    ensures Run(Init(n), actions).Some?
    ensures var s := Run(Init(n), actions).value;
            && s.head == 0 && |s.entries| == s.tail == 2 && Contents(s) == [first, second]
            && s.entries[1] == Entry(second, Published)
            && PRODUCER in s.threads && s.threads[PRODUCER] == PushDone(true)
            && SLOW in s.threads && s.threads[SLOW] == PushWrite(first, 0)
            && CONSUMER in s.threads && s.threads[CONSUMER] == PopEmpty
  {
    var s, pushed, entered;
    actions, s := PauseWriting(n, first);
    assert |Contents(s)| == 1;
    actions, pushed := WholePush(Init(n), actions, s, PRODUCER, second);
    SecondIsPublished(pushed, first, second);
    actions, entered := EnterPop(Init(n), actions, pushed, CONSUMER);
    FirstIsUnpublished(entered, first);
    var k := PopAlone(entered, CONSUMER);
    actions := ExtendSolo(Init(n), actions, entered, CONSUMER, k);
    assert Contents(Goto(entered, CONSUMER, PopEmpty)) == Contents(pushed);
  }
}
