/** What the MPMC ring promises its callers, in every interleaving of any number of threads. */
module MpmcTheorems {
  import opened Core
  import TaskFifo
  import opened RingCells
  import opened Mpmc
  import opened MpmcInvariant

  // ----- refinement of the FIFO queue -----

  function Tasks(entries: seq<Entry>): seq<InferenceTask> {
    seq(|entries|, i requires 0 <= i < |entries| => entries[i].task)
  }

  /** The abstract queue: tasks claimed by a producer and not yet by a consumer. */
  function Contents(s: State): seq<InferenceTask>
    requires s.head <= s.tail == |s.entries|
  {
    Tasks(s.entries[s.head..s.tail])
  }

  predicate ClaimsTail(s: State, a: Action) {
    a.Step? && a.tid in s.threads && !a.spurious && s.threads[a.tid].PushCas? && s.threads[a.tid].t == s.tail
  }

  predicate ClaimsHead(s: State, a: Action) {
    a.Step? && a.tid in s.threads && !a.spurious && s.threads[a.tid].PopCas? && s.threads[a.tid].h == s.head
  }

  /** A call takes effect on the abstract queue at its successful compare-exchange. */
  function Effect(s: State, a: Action): seq<TaskFifo.Event> {
    if ClaimsTail(s, a) then [TaskFifo.Enqueue(s.threads[a.tid].task)]
    else if ClaimsHead(s, a) && s.head < |s.entries| then [TaskFifo.Dequeue(s.entries[s.head].task)]
    else []
  }

  function History(s: State, actions: seq<Action>): seq<TaskFifo.Event>
    requires Shaped(s) && Run(s, actions).Some?
  {
    if actions == [] then []
    else
      var before := actions[..|actions| - 1];
      History(s, before) + Effect(Run(s, before).value, actions[|actions| - 1])
  }

  lemma StepRefines(s: State, a: Action)
    requires Inv(s) && Enabled(s, a)
    ensures Inv(Apply(s, a))
    ensures |Effect(s, a)| <= 1
    ensures Effect(s, a) == [] ==> Contents(Apply(s, a)) == Contents(s)
    ensures Effect(s, a) != [] ==> TaskFifo.Apply(Contents(s), Effect(s, a)[0]) == Some(Contents(Apply(s, a)))
  {
    StepKeepsInv(s, a);
    var r := Apply(s, a);
    StepAdvances(s, a);
    if ClaimsTail(s, a) {
      ContentsGrow(s, r, s.threads[a.tid].task);
    } else if ClaimsHead(s, a) {
      assert ThreadFits(s, a.tid);
      HeadPublished(s);
      ContentsShrink(s, r);
    } else {
      ContentsStay(s, r);
    }
  }

  predicate SameTasks(before: seq<Entry>, after: seq<Entry>) {
    |before| <= |after| && forall p :: 0 <= p < |before| ==> after[p].task == before[p].task
  }

  lemma ContentsStay(s: State, r: State)
    requires s.head <= s.tail == |s.entries| && r.head == s.head && r.tail == s.tail == |r.entries|
    requires SameTasks(s.entries, r.entries)
    ensures Contents(r) == Contents(s)
  {
  }

  lemma ContentsGrow(s: State, r: State, task: InferenceTask)
    requires s.head <= s.tail == |s.entries| && r.head == s.head && r.tail == s.tail + 1 == |r.entries|
    requires SameTasks(s.entries, r.entries) && r.entries[s.tail].task == task
    ensures Contents(r) == Contents(s) + [task]
  {
  }

  lemma ContentsShrink(s: State, r: State)
    requires s.head < s.tail == |s.entries| && r.head == s.head + 1 && r.tail == s.tail == |r.entries|
    requires SameTasks(s.entries, r.entries)
    ensures Contents(r) == Contents(s)[1..]
  {
  }

  /**
   In every run the claims form a FIFO history whose queue is the content of the ring,
   and the ring never holds more than its capacity.
   */
  lemma {:induction false} RefinesFifo(n: nat, actions: seq<Action>)
    requires n >= 2 && Run(Init(n), actions).Some?
    ensures var s := Run(Init(n), actions).value;
            && Inv(s)
            && |Contents(s)| <= n
            && TaskFifo.Replay(History(Init(n), actions)) == Some(Contents(s))
  {
    if actions == [] {
      InitInv(n);
    } else {
      var before, a := actions[..|actions| - 1], actions[|actions| - 1];
      RefinesFifo(n, before);
      var s := Run(Init(n), before).value;
      StepRefines(s, a);
      var events, e := History(Init(n), before), Effect(s, a);
      if e == [] {
        assert events + e == events;
      } else {
        assert (events + e)[..|events + e| - 1] == events;
      }
    }
  }

  // ----- positions only move forward -----

  function Rank(phase: Phase): nat {
    match phase
    case Claimed(_) => 0
    case Published => 1
    case Taking(_) => 2
    case Released(_) => 3
  }

  /** From e to f: same task, no phase undone, and the same holder while the phase stays. */
  predicate Advances(e: Entry, f: Entry) {
    && f.task == e.task
    && Rank(e.phase) <= Rank(f.phase) <= Rank(e.phase) + 1
    && (Rank(e.phase) == Rank(f.phase) ==> e == f)
  }

  lemma StepAdvances(s: State, a: Action)
    requires Inv(s) && Enabled(s, a)
    ensures var r := Apply(s, a);
            && s.tail <= r.tail <= s.tail + 1 && s.head <= r.head <= s.head + 1
            && |s.entries| <= |r.entries|
            && (!ClaimsTail(s, a) ==> r.tail == s.tail && |r.entries| == |s.entries|)
            && (!ClaimsHead(s, a) ==> r.head == s.head)
            && forall p :: 0 <= p < |s.entries| ==> Advances(s.entries[p], r.entries[p])
  {
    if a.Step? {
      assert ThreadFits(s, a.tid);
      if InPush(s.threads[a.tid]) { PushAdvances(s, a.tid, a.spurious); } else { PopAdvances(s, a.tid, a.spurious); }
    }
  }

  /** Tail and entries of a step of push. */
  lemma PushAdvances(s: State, tid: nat, spurious: bool)
    requires |s.entries| == s.tail && Shaped(s) && tid in s.threads && InPush(s.threads[tid]) && ThreadFits(s, tid)
    ensures var r, claims := AdvancePush(s, tid, spurious), ClaimsTail(s, Step(tid, spurious));
            && r.head == s.head && r.tail == (if claims then s.tail + 1 else s.tail)
            && |r.entries| == (if claims then |s.entries| + 1 else |s.entries|)
            && forall p :: 0 <= p < |s.entries| ==> Advances(s.entries[p], r.entries[p])
  {
  }

  /** Head and entries of a step of pop. */
  lemma PopAdvances(s: State, tid: nat, spurious: bool)
    requires Inv(s) && !Free(s, tid) && !InPush(s.threads[tid])
    ensures var r, claims := AdvancePop(s, tid, spurious), ClaimsHead(s, Step(tid, spurious));
            && r.tail == s.tail && r.head == (if claims then s.head + 1 else s.head)
            && |r.entries| == |s.entries|
            && forall p :: 0 <= p < |s.entries| ==> Advances(s.entries[p], r.entries[p])
  {
    assert ThreadFits(s, tid);
    if ClaimsHead(s, Step(tid, spurious)) { HeadPublished(s); }
  }

  /** A step of a thread moves no other thread. */
  lemma OneThreadMoves(s: State, tid: nat, spurious: bool)
    requires Shaped(s) && !Free(s, tid)
    ensures var r := Apply(s, Step(tid, spurious));
            && tid in r.threads && r.threads == s.threads[tid := r.threads[tid]]
            && r.capacity == s.capacity && r.stopped == s.stopped
  {
  }

  lemma {:induction false} CountersMonotone(s: State, actions: seq<Action>)
    requires Inv(s) && Run(s, actions).Some?
    ensures var r := Run(s, actions).value;
            s.tail <= r.tail <= s.tail + |actions| && s.head <= r.head <= s.head + |actions|
  {
    if actions != [] {
      var before, a := actions[..|actions| - 1], actions[|actions| - 1];
      CountersMonotone(s, before);
      RunKeepsInv(s, before);
      StepAdvances(Run(s, before).value, a);
    }
  }

  // ----- observable results: what calls return -----

  datatype Transfer = Transfer(position: nat, value: Slot)

  /** The push that returns true in this step, if any. */
  function AcceptedBy(s: State, a: Action): seq<Transfer> {
    if a.Step? && a.tid in s.threads && s.threads[a.tid].PushPublish?
    then [Transfer(s.threads[a.tid].t, Full(s.threads[a.tid].task))] else []
  }

  /** The pop that returns a task in this step, if any. */
  function PoppedBy(s: State, a: Action): seq<Transfer> {
    if a.Step? && a.tid in s.threads && s.threads[a.tid].PopRelease?
    then [Transfer(s.threads[a.tid].h, s.threads[a.tid].got)] else []
  }

  function Accepted(s: State, actions: seq<Action>): seq<Transfer>
    requires Shaped(s) && Run(s, actions).Some?
  {
    if actions == [] then []
    else
      var before := actions[..|actions| - 1];
      Accepted(s, before) + AcceptedBy(Run(s, before).value, actions[|actions| - 1])
  }

  function Popped(s: State, actions: seq<Action>): seq<Transfer>
    requires Shaped(s) && Run(s, actions).Some?
  {
    if actions == [] then []
    else
      var before := actions[..|actions| - 1];
      Popped(s, before) + PoppedBy(Run(s, before).value, actions[|actions| - 1])
  }

  /** The transfers are exactly the positions of rank at least k, each once, with its own task. */
  ghost predicate Records(ts: seq<Transfer>, entries: seq<Entry>, k: nat) {
    && (forall i :: 0 <= i < |ts| ==>
          && ts[i].position < |entries|
          && Rank(entries[ts[i].position].phase) >= k
          && ts[i].value == Full(entries[ts[i].position].task))
    && (forall i, j :: 0 <= i < j < |ts| ==> ts[i].position != ts[j].position)
    && (forall p :: 0 <= p < |entries| && Rank(entries[p].phase) >= k ==>
          exists i :: 0 <= i < |ts| && ts[i].position == p)
  }

  predicate Frame(before: seq<Entry>, after: seq<Entry>) {
    && |before| <= |after|
    && (forall p :: 0 <= p < |before| ==> Advances(before[p], after[p]))
    && (forall p :: |before| <= p < |after| ==> Rank(after[p].phase) == 0)
  }

  lemma RecordNothing(ts: seq<Transfer>, before: seq<Entry>, after: seq<Entry>, k: nat)
    requires Records(ts, before, k) && Frame(before, after) && k > 0
    requires forall p :: 0 <= p < |before| && Rank(before[p].phase) < k ==> Rank(after[p].phase) < k
    ensures Records(ts, after, k)
  {
    forall p | 0 <= p < |after| && Rank(after[p].phase) >= k
      ensures exists i :: 0 <= i < |ts| && ts[i].position == p
    {
      assert p < |before| && Rank(before[p].phase) >= k;
    }
  }

  lemma RecordOne(ts: seq<Transfer>, t: Transfer, before: seq<Entry>, after: seq<Entry>, k: nat)
    requires Records(ts, before, k) && Frame(before, after) && k > 0
    requires t.position < |before| && Rank(before[t.position].phase) < k <= Rank(after[t.position].phase)
    requires t.value == Full(before[t.position].task)
    requires forall p :: 0 <= p < |before| && p != t.position && Rank(before[p].phase) < k ==> Rank(after[p].phase) < k
    ensures Records(ts + [t], after, k)
  {
    var us := ts + [t];
    forall p | 0 <= p < |after| && Rank(after[p].phase) >= k
      ensures exists i :: 0 <= i < |us| && us[i].position == p
    {
      if p == t.position {
        assert us[|ts|].position == p;
      } else {
        assert Rank(before[p].phase) >= k;
        var i :| 0 <= i < |ts| && ts[i].position == p;
        assert us[i].position == p;
      }
    }
  }

  lemma StepFrames(s: State, a: Action)
    requires Inv(s) && Enabled(s, a)
    ensures Frame(s.entries, Apply(s, a).entries)
  {
    StepAdvances(s, a);
  }

  /** Only the step that publishes raises a position to rank 1. */
  lemma OtherStepsPublishNothing(s: State, a: Action, p: nat)
    requires Inv(s) && Enabled(s, a) && AcceptedBy(s, a) == [] && p < |s.entries| && Rank(s.entries[p].phase) < 1
    ensures p < |Apply(s, a).entries| && Rank(Apply(s, a).entries[p].phase) < 1
  {
    if a.Step? { assert ThreadFits(s, a.tid); }
    if ClaimsHead(s, a) { HeadPublished(s); }
  }

  lemma StepAccepts(s: State, a: Action, ts: seq<Transfer>)
    requires Inv(s) && Enabled(s, a) && Records(ts, s.entries, 1)
    ensures Records(ts + AcceptedBy(s, a), Apply(s, a).entries, 1)
  {
    StepFrames(s, a);
    if AcceptedBy(s, a) != [] {
      assert ThreadFits(s, a.tid);
      RecordOne(ts, AcceptedBy(s, a)[0], s.entries, Apply(s, a).entries, 1);
    } else {
      assert ts + AcceptedBy(s, a) == ts;
      var after := Apply(s, a).entries;
      forall p | 0 <= p < |s.entries| && Rank(s.entries[p].phase) < 1 ensures Rank(after[p].phase) < 1 {
        OtherStepsPublishNothing(s, a, p);
      }
      RecordNothing(ts, s.entries, after, 1);
    }
  }

  lemma StepPops(s: State, a: Action, ts: seq<Transfer>)
    requires Inv(s) && Enabled(s, a) && Records(ts, s.entries, 3)
    ensures Records(ts + PoppedBy(s, a), Apply(s, a).entries, 3)
  {
    StepFrames(s, a);
    if PoppedBy(s, a) != [] {
      assert ThreadFits(s, a.tid);
      RecordOne(ts, PoppedBy(s, a)[0], s.entries, Apply(s, a).entries, 3);
    } else {
      if a.Step? { assert ThreadFits(s, a.tid); }
      assert ts + PoppedBy(s, a) == ts;
      RecordNothing(ts, s.entries, Apply(s, a).entries, 3);
    }
  }

  lemma {:induction false} RunRecords(n: nat, actions: seq<Action>)
    requires n >= 2 && Run(Init(n), actions).Some?
    ensures var s := Run(Init(n), actions).value;
            && Inv(s)
            && Records(Accepted(Init(n), actions), s.entries, 1)
            && Records(Popped(Init(n), actions), s.entries, 3)
  {
    if actions == [] {
      InitInv(n);
    } else {
      var before, a := actions[..|actions| - 1], actions[|actions| - 1];
      RunRecords(n, before);
      var s := Run(Init(n), before).value;
      StepKeepsInv(s, a);
      StepAccepts(s, a, Accepted(Init(n), before));
      StepPops(s, a, Popped(Init(n), before));
    }
  }

  lemma RecordOf(ts: seq<Transfer>, entries: seq<Entry>, k: nat, p: nat) returns (i: nat)
    requires Records(ts, entries, k) && p < |entries| && Rank(entries[p].phase) >= k
    ensures i < |ts| && ts[i] == Transfer(p, Full(entries[p].task))
  {
    i :| 0 <= i < |ts| && ts[i].position == p;
  }

  /**
   Over any run, no task is returned twice, every returned task is the one that the
   accepted push at the same position brought, and an accepted task that has not been
   returned is held by one consumer or sits whole in its cell.
   */
  lemma ExactlyOnce(n: nat, actions: seq<Action>)
    requires n >= 2 && Run(Init(n), actions).Some?
    ensures var s, pushed, popped := Run(Init(n), actions).value, Accepted(Init(n), actions), Popped(Init(n), actions);
            && (forall i, j :: 0 <= i < j < |pushed| ==> pushed[i].position != pushed[j].position)
            && (forall i, j :: 0 <= i < j < |popped| ==> popped[i].position != popped[j].position)
            && (forall i :: 0 <= i < |popped| ==> popped[i] in pushed)
            && (forall i :: 0 <= i < |pushed| ==>
                  var p := pushed[i].position;
                  || pushed[i] in popped
                  || (exists tid :: tid in s.threads && HoldingForRead(s.threads[tid]) && s.threads[tid].h == p)
                  || (s.head <= p < s.tail && s.slots[CellOf(p, n)] == pushed[i].value))
  {
    RunRecords(n, actions);
    var s, pushed, popped := Run(Init(n), actions).value, Accepted(Init(n), actions), Popped(Init(n), actions);
    forall i | 0 <= i < |popped| ensures popped[i] in pushed {
      var j := RecordOf(pushed, s.entries, 1, popped[i].position);
      assert pushed[j] == popped[i];
    }
    forall i | 0 <= i < |pushed|
      ensures var p := pushed[i].position;
              || pushed[i] in popped
              || (exists tid :: tid in s.threads && HoldingForRead(s.threads[tid]) && s.threads[tid].h == p)
              || (s.head <= p < s.tail && s.slots[CellOf(p, n)] == pushed[i].value)
    {
      WhereIs(s, pushed[i].position);
      if Rank(s.entries[pushed[i].position].phase) == 3 {
        var j := RecordOf(popped, s.entries, 3, pushed[i].position);
        assert pushed[i] == popped[j];
      }
    }
  }

  lemma WhereIs(s: State, p: nat)
    requires Inv(s) && p < s.tail
    ensures s.entries[p].phase.Published? ==>
              s.head <= p && s.slots[CellOf(p, s.capacity)] == Full(s.entries[p].task)
    ensures s.entries[p].phase.Taking? ==>
              exists tid :: tid in s.threads && HoldingForRead(s.threads[tid]) && s.threads[tid].h == p
  {
    assert EntryFits(s, p);
    if s.entries[p].phase.Published? {
      SameCell(p, s.capacity);
      assert CellFits(s, p + s.capacity);
    }
  }

  // ----- no data race -----

  /** Two threads inside their windows work on different cells, and only such a thread touches data. */
  lemma NoDataRace(s: State, a: Action, other: nat)
    requires Inv(s) && a.Step? && Enabled(s, a)
    requires other in s.threads && other != a.tid && Holding(s.threads[other])
    ensures Apply(s, a).slots != s.slots ==> Holding(s.threads[a.tid])
    ensures Holding(s.threads[a.tid]) ==>
              CellOf(HeldPosition(s.threads[a.tid]), s.capacity) != CellOf(HeldPosition(s.threads[other]), s.capacity)
    ensures var i := CellOf(HeldPosition(s.threads[other]), s.capacity);
            Apply(s, a).slots[i] == s.slots[i] && Apply(s, a).sequence[i] == s.sequence[i]
  {
    if Holding(s.threads[a.tid]) {
      HoldersApart(s, a.tid, other);
    }
  }

  lemma HoldersApart(s: State, tid: nat, other: nat)
    requires Inv(s) && tid in s.threads && other in s.threads && other != tid
    requires Holding(s.threads[tid]) && Holding(s.threads[other])
    ensures CellOf(HeldPosition(s.threads[tid]), s.capacity) != CellOf(HeldPosition(s.threads[other]), s.capacity)
  {
    assert ThreadFits(s, tid);
    assert ThreadFits(s, other);
    var p, q := HeldPosition(s.threads[tid]), HeldPosition(s.threads[other]);
    assert p != q;
    assert EntryFits(s, p);
    assert EntryFits(s, q);
    if p < q { CellsApart(p, q, s.capacity); } else { CellsApart(q, p, s.capacity); }
  }

  /** The moment a consumer moves a task out, the cell holds it whole, and it is the claimed one. */
  lemma ConsumerSeesWholeTask(n: nat, actions: seq<Action>, tid: nat)
    requires n >= 2 && Run(Init(n), actions).Some?
    requires var s := Run(Init(n), actions).value; tid in s.threads && s.threads[tid].PopMove?
    ensures var s := Run(Init(n), actions).value;
            var h := s.threads[tid].h;
            h < |s.entries| && s.slots[CellOf(h, n)] == Full(s.entries[h].task)
  {
    InitInv(n);
    RunKeepsInv(Init(n), actions);
    assert ThreadFits(Run(Init(n), actions).value, tid);
    MoveStep(Run(Init(n), actions).value, tid);
  }

  // ----- refusal and emptiness -----

  /** No operation is half done. */
  predicate Quiet(s: State) {
    forall tid :: tid in s.threads ==> !Holding(s.threads[tid])
  }

  lemma QuietPhases(s: State, p: nat)
    requires Inv(s) && Quiet(s) && p < s.tail
    ensures s.entries[p].phase.Released? <==> p < s.head
    ensures s.entries[p].phase.Published? <==> s.head <= p
  {
    assert EntryFits(s, p);
  }

  /** The cell of the next position is still in use one lap earlier. */
  predicate Blocked(s: State)
    requires Shaped(s) && |s.entries| == s.tail
  {
    s.tail >= s.capacity && !s.entries[s.tail - s.capacity].phase.Released?
  }

  /** The sequence a producer loads for position t, compared with t. */
  lemma LoadedByPush(s: State, t: nat)
    requires Inv(s) && t <= s.tail
    ensures var seen := s.sequence[CellOf(t, s.capacity)];
            && (seen < t <==> t == s.tail && Blocked(s))
            && (seen > t ==> t < s.tail)
  {
    var q := NextUser(t, s.tail, s.capacity);
    assert CellFits(s, q);
  }

  lemma LoadedByPop(s: State, h: nat)
    requires Inv(s) && h <= s.head
    ensures var seen := s.sequence[CellOf(h, s.capacity)];
            && (seen < h + 1 <==> h == s.head && (h == s.tail || s.entries[h].phase.Claimed?))
            && (seen > h + 1 ==> h < s.head)
  {
    if h == s.head {
      HeadPublished(s);
      if h < s.tail { assert EntryFits(s, h); }
    } else {
      var q := NextUser(h, s.tail, s.capacity);
      assert CellFits(s, q);
      assert EntryFits(s, h);
    }
  }

  /**
   A push that passed the stop check gives up exactly when nobody has claimed its
   position and the position one lap earlier is still unreleased. With no half-done
   operation this is exactly the full queue.
   */
  lemma RefusedExactlyWhen(s: State, tid: nat, spurious: bool)
    requires Inv(s) && tid in s.threads && s.threads[tid].PushLoadSequence?
    ensures var t := s.threads[tid].t;
            var refused := AdvancePush(s, tid, spurious).threads[tid] == PushDone(false);
            && (refused <==> t == s.tail && Blocked(s))
            && (Quiet(s) ==> (refused <==> t == s.tail && |Contents(s)| == s.capacity))
  {
    var t := s.threads[tid].t;
    assert ThreadFits(s, tid);
    LoadedByPush(s, t);
    if Quiet(s) && t == s.tail >= s.capacity { QuietPhases(s, t - s.capacity); }
  }

  /** A pop gives up exactly when its position is still the head and is not published. */
  lemma EmptyExactlyWhen(s: State, tid: nat, spurious: bool)
    requires Inv(s) && tid in s.threads && s.threads[tid].PopLoadSequence?
    ensures var h := s.threads[tid].h;
            var empty := AdvancePop(s, tid, spurious).threads[tid] == PopEmpty;
            && (empty <==> h == s.head && (h == s.tail || s.entries[h].phase.Claimed?))
            && (Quiet(s) ==> (empty <==> h == s.head && Contents(s) == []))
  {
    var h := s.threads[tid].h;
    assert ThreadFits(s, tid);
    LoadedByPop(s, h);
    if Quiet(s) && h < s.tail { QuietPhases(s, h); }
  }

  // ----- after shutdown -----

  /** A program counter that a thread outside push can get to once the queue is stopped. */
  predicate LatePc(s: State, tid: nat, pc: Pc) {
    && (InPush(pc) ==> pc.PushCheckStop?)
    && (pc.PushDone? ==> pc == PushDone(false) || (tid in s.threads && pc == s.threads[tid]))
  }

  /**
   After Shutdown every push begun later is refused: the thread never gets past the stop
   check, and the only answer it gets is false.
   */
  lemma {:induction false} LatePushRefused(s: State, tid: nat, later: seq<Action>)
    requires Shaped(s) && Free(s, tid) && Run(Apply(s, Shutdown), later).Some?
    ensures var r := Run(Apply(s, Shutdown), later).value;
            r.stopped && (tid in r.threads ==> LatePc(s, tid, r.threads[tid]))
  {
    if later != [] {
      LatePushRefused(s, tid, later[..|later| - 1]);
      LateStep(s, tid, Run(Apply(s, Shutdown), later[..|later| - 1]).value, later[|later| - 1]);
    }
  }

  lemma LateStep(s: State, tid: nat, r: State, a: Action)
    requires Shaped(r) && r.stopped && (tid in r.threads ==> LatePc(s, tid, r.threads[tid])) && Enabled(r, a)
    ensures var q := Apply(r, a); q.stopped && (tid in q.threads ==> LatePc(s, tid, q.threads[tid]))
  {
    if a.Step? { OneThreadMoves(r, a.tid, a.spurious); }
  }

  // ----- retries and solo runs -----

  predicate TakesPart(tid: nat, actions: seq<Action>) {
    exists i :: 0 <= i < |actions| && !actions[i].Shutdown? && actions[i].tid == tid
  }

  lemma {:induction false} BystanderStays(s: State, tid: nat, actions: seq<Action>)
    requires Inv(s) && tid in s.threads && Run(s, actions).Some? && !TakesPart(tid, actions)
    ensures var r := Run(s, actions).value; tid in r.threads && r.threads[tid] == s.threads[tid]
  {
    if actions != [] {
      var before, a := actions[..|actions| - 1], actions[|actions| - 1];
      assert !TakesPart(tid, before) by {
        assert forall i :: 0 <= i < |before| ==> before[i] == actions[i];
      }
      BystanderStays(s, tid, before);
      assert actions[|actions| - 1] == a;
    }
  }

  /**
   A producer that finds its position used up reloads the tail, after any steps of the
   others, and gets a strictly larger position: some other claim succeeded meanwhile.
   */
  lemma PushRetryMeansProgress(s: State, tid: nat, spurious: bool, others: seq<Action>)
    requires Inv(s) && tid in s.threads && s.threads[tid].PushLoadSequence?
    requires AdvancePush(s, tid, spurious).threads[tid].PushLoadTail?
    requires var r := AdvancePush(s, tid, spurious); Run(r, others).Some? && !TakesPart(tid, others)
    ensures var r := Run(AdvancePush(s, tid, spurious), others).value;
            tid in r.threads && r.threads[tid].PushLoadTail?
            && AdvancePush(r, tid, spurious).threads[tid].PushLoadSequence?
            && AdvancePush(r, tid, spurious).threads[tid].t > s.threads[tid].t
  {
    assert ThreadFits(s, tid);
    LoadedByPush(s, s.threads[tid].t);
    PushStep(s, tid, spurious);
    var r := AdvancePush(s, tid, spurious);
    BystanderStays(r, tid, others);
    CountersMonotone(r, others);
  }

  lemma PopRetryMeansProgress(s: State, tid: nat, spurious: bool, others: seq<Action>)
    requires Inv(s) && tid in s.threads && s.threads[tid].PopLoadSequence?
    requires AdvancePop(s, tid, spurious).threads[tid].PopLoadHead?
    requires var r := AdvancePop(s, tid, spurious); Run(r, others).Some? && !TakesPart(tid, others)
    ensures var r := Run(AdvancePop(s, tid, spurious), others).value;
            tid in r.threads && r.threads[tid].PopLoadHead?
            && AdvancePop(r, tid, spurious).threads[tid].PopLoadSequence?
            && AdvancePop(r, tid, spurious).threads[tid].h > s.threads[tid].h
  {
    assert ThreadFits(s, tid);
    LoadedByPop(s, s.threads[tid].h);
    PopStep(s, tid, spurious);
    var r := AdvancePop(s, tid, spurious);
    BystanderStays(r, tid, others);
    CountersMonotone(r, others);
  }

  /** A failed compare-exchange that is not spurious also leaves a strictly larger position. */
  lemma CasFailureMeansProgress(s: State, tid: nat)
    requires Inv(s) && tid in s.threads
    ensures s.threads[tid].PushCas? && !AdvancePush(s, tid, false).threads[tid].PushWrite? ==>
              AdvancePush(s, tid, false).threads[tid] == PushLoadSequence(s.threads[tid].task, s.tail)
              && s.tail > s.threads[tid].t
    ensures s.threads[tid].PopCas? && !AdvancePop(s, tid, false).threads[tid].PopMove? ==>
              AdvancePop(s, tid, false).threads[tid] == PopLoadSequence(s.head) && s.head > s.threads[tid].h
  {
    assert ThreadFits(s, tid);
  }

  /** k steps of one thread, with nobody else running and no spurious failure. */
  function Solo(s: State, tid: nat, k: nat): (r: State)
    requires Shaped(s) && tid in s.threads
    ensures Shaped(r) && tid in r.threads
  {
    if k == 0 then s
    else
      var r := Solo(s, tid, k - 1);
      if Free(r, tid) then r else Apply(r, Step(tid, false))
  }

  lemma SoloStep(s: State, tid: nat, k: nat)
    requires Shaped(s) && tid in s.threads && Inv(Solo(s, tid, k))
    ensures Inv(Solo(s, tid, k + 1))
    ensures var before, after := Solo(s, tid, k), Solo(s, tid, k + 1);
            match before.threads[tid]
            case PushCas(task, t) => t == before.tail ==>
              after.threads[tid] == PushWrite(task, t) && Contents(after) == Contents(before) + [task]
            case PushWrite(task, t) => after.threads[tid] == PushWriting(task, t) && Contents(after) == Contents(before)
            case PushWriting(task, t) =>
              after.threads[tid] == PushPublish(task, t) && Contents(after) == Contents(before)
            case PushPublish(task, t) => after.threads[tid] == PushDone(true) && Contents(after) == Contents(before)
            case _ => true
  {
    var before := Solo(s, tid, k);
    if !Free(before, tid) {
      StepRefines(before, Step(tid, false));
    }
  }

  lemma LoadsAlone(s: State, tid: nat)
    requires Inv(s) && tid in s.threads && s.threads[tid].PushLoadTail?
    ensures var s1 := AdvancePush(s, tid, false);
            && !Free(s1, tid) && InPush(s1.threads[tid])
            && AdvancePush(s1, tid, false)
               == Goto(s, tid, if Blocked(s) then PushDone(false) else PushCas(s.threads[tid].task, s.tail))
            && Inv(AdvancePush(s1, tid, false))
  {
    var task := s.threads[tid].task;
    var s1 := Goto(s, tid, PushLoadSequence(task, s.tail));
    var pc := if Blocked(s) then PushDone(false) else PushCas(task, s.tail);
    LoadedByPush(s, s.tail);
    assert AdvancePush(s1, tid, false) == Goto(s1, tid, pc);
    GotoTwice(s, tid, s1.threads[tid], pc);
    LocalStep(s, tid, pc);
  }

  lemma GotoTwice(s: State, tid: nat, first: Pc, second: Pc)
    ensures Goto(Goto(s, tid, first), tid, second) == Goto(s, tid, second)
  {
    assert s.threads[tid := first][tid := second] == s.threads[tid := second];
  }

  lemma SoloLoads(s: State, tid: nat, k: nat)
    requires Shaped(s) && tid in s.threads && Inv(Solo(s, tid, k)) && Solo(s, tid, k).threads[tid].PushLoadTail?
    ensures var r := Solo(s, tid, k);
            && Inv(Solo(s, tid, k + 2))
            && Solo(s, tid, k + 2)
               == Goto(r, tid, if Blocked(r) then PushDone(false) else PushCas(r.threads[tid].task, r.tail))
  {
    var r := Solo(s, tid, k);
    LoadsAlone(r, tid);
    assert Solo(s, tid, k + 1) == AdvancePush(r, tid, false);
  }

  lemma SoloFinishes(s: State, tid: nat, k: nat)
    requires Shaped(s) && tid in s.threads && Inv(Solo(s, tid, k))
    requires var r := Solo(s, tid, k); r.threads[tid].PushCas? && r.threads[tid].t == r.tail
    ensures var before, after := Solo(s, tid, k), Solo(s, tid, k + 4);
            && after.threads[tid] == PushDone(true)
            && Inv(after)
            && Contents(after) == Contents(before) + [before.threads[tid].task]
  {
    SoloStep(s, tid, k);
    SoloStep(s, tid, k + 1);
    SoloStep(s, tid, k + 2);
    SoloStep(s, tid, k + 3);
  }

  /** A push running alone finishes in one iteration: refused after both loads, or done in six steps. */
  lemma PushAlone(s: State, tid: nat) returns (k: nat)
    requires Inv(s) && tid in s.threads && s.threads[tid].PushLoadTail?
    ensures k == (if Blocked(s) then 2 else 6)
    ensures Blocked(s) ==> Solo(s, tid, k) == Goto(s, tid, PushDone(false))
    ensures !Blocked(s) ==>
              && Solo(s, tid, k).threads[tid] == PushDone(true)
              && Inv(Solo(s, tid, k))
              && Contents(Solo(s, tid, k)) == Contents(s) + [s.threads[tid].task]
  {
    k := 0;
    assert Solo(s, tid, k) == s;
    SoloLoads(s, tid, k);
    k := k + 2;
    if !Blocked(s) {
      assert Contents(Solo(s, tid, k)) == Contents(s);
      SoloFinishes(s, tid, k);
      k := k + 4;
    }
  }

  // The same for pop.

  lemma PopClaims(s: State, tid: nat)
    requires Inv(s) && tid in s.threads && s.threads[tid].PopCas? && s.threads[tid].h == s.head
    ensures var r := Apply(s, Step(tid, false));
            && Inv(r) && Contents(s) != []
            && r.threads[tid] == PopMove(s.head)
            && Contents(r) == Contents(s)[1..]
            && s.head < |r.entries| && r.entries[s.head].task == Contents(s)[0]
  {
    StepRefines(s, Step(tid, false));
    assert ThreadFits(s, tid);
    HeadPublished(s);
  }

  lemma PopMovesOut(s: State, tid: nat, p: nat)
    requires Inv(s) && tid in s.threads && HoldingForRead(s.threads[tid]) && s.threads[tid].h == p
    ensures var r := Apply(s, Step(tid, false));
            && Inv(r) && Contents(r) == Contents(s)
            && p < |s.entries| && p < |r.entries| && r.entries[p].task == s.entries[p].task
            && var got := Full(s.entries[p].task);
               r.threads[tid] == (if s.threads[tid].PopMove? then PopMoving(p, got)
                                  else if s.threads[tid].PopMoving? then PopRelease(p, got) else PopDone(got))
  {
    StepRefines(s, Step(tid, false));
    StepAdvances(s, Step(tid, false));
    assert ThreadFits(s, tid);
    if s.threads[tid].PopMove? { MoveStep(s, tid); }
  }

  lemma SoloClaim(s: State, tid: nat, k: nat)
    requires Shaped(s) && tid in s.threads && Inv(Solo(s, tid, k))
    requires var r := Solo(s, tid, k); r.threads[tid].PopCas? && r.threads[tid].h == r.head
    ensures var before, after := Solo(s, tid, k), Solo(s, tid, k + 1);
            && Inv(after) && after.threads[tid] == PopMove(before.head)
            && Contents(before) != [] && Contents(after) == Contents(before)[1..]
            && before.head < |after.entries| && after.entries[before.head].task == Contents(before)[0]
  {
    PopClaims(Solo(s, tid, k), tid);
  }

  lemma SoloMove(s: State, tid: nat, k: nat, p: nat)
    requires Shaped(s) && tid in s.threads && Inv(Solo(s, tid, k))
    requires var pc := Solo(s, tid, k).threads[tid]; HoldingForRead(pc) && pc.h == p
    ensures var before, after := Solo(s, tid, k), Solo(s, tid, k + 1);
            && Inv(after) && Contents(after) == Contents(before)
            && p < |before.entries| && p < |after.entries| && after.entries[p].task == before.entries[p].task
            && var got := Full(before.entries[p].task);
               after.threads[tid] == (if before.threads[tid].PopMove? then PopMoving(p, got)
                                      else if before.threads[tid].PopMoving? then PopRelease(p, got) else PopDone(got))
  {
    PopMovesOut(Solo(s, tid, k), tid, p);
  }

  lemma SoloPops(s: State, tid: nat, k: nat)
    requires Shaped(s) && tid in s.threads && Inv(Solo(s, tid, k))
    requires var r := Solo(s, tid, k); r.threads[tid].PopCas? && r.threads[tid].h == r.head
    ensures var before, after := Solo(s, tid, k), Solo(s, tid, k + 4);
            && Contents(before) != []
            && after.threads[tid] == PopDone(Full(Contents(before)[0]))
            && Inv(after)
            && Contents(after) == Contents(before)[1..]
  {
    var p := Solo(s, tid, k).head;
    SoloClaim(s, tid, k);
    SoloMove(s, tid, k + 1, p);
    SoloMove(s, tid, k + 2, p);
    SoloMove(s, tid, k + 3, p);
  }

  /** The head is not published: there is no task, or its producer has not finished. */
  predicate Unready(s: State)
    requires |s.entries| == s.tail
  {
    s.head >= s.tail || s.entries[s.head].phase.Claimed?
  }

  lemma PopLoadsAlone(s: State, tid: nat)
    requires Inv(s) && tid in s.threads && s.threads[tid].PopLoadHead?
    ensures var s1 := AdvancePop(s, tid, false);
            && !Free(s1, tid) && !InPush(s1.threads[tid])
            && AdvancePop(s1, tid, false) == Goto(s, tid, if Unready(s) then PopEmpty else PopCas(s.head))
            && Inv(AdvancePop(s1, tid, false))
  {
    var s1 := Goto(s, tid, PopLoadSequence(s.head));
    var pc := if Unready(s) then PopEmpty else PopCas(s.head);
    LoadedByPop(s, s.head);
    HeadPublished(s);
    assert AdvancePop(s1, tid, false) == Goto(s1, tid, pc);
    GotoTwice(s, tid, s1.threads[tid], pc);
    LocalStep(s, tid, pc);
  }

  lemma SoloPopLoads(s: State, tid: nat, k: nat)
    requires Shaped(s) && tid in s.threads && Inv(Solo(s, tid, k)) && Solo(s, tid, k).threads[tid].PopLoadHead?
    ensures var r := Solo(s, tid, k);
            && Inv(Solo(s, tid, k + 2))
            && Solo(s, tid, k + 2) == Goto(r, tid, if Unready(r) then PopEmpty else PopCas(r.head))
  {
    var r := Solo(s, tid, k);
    PopLoadsAlone(r, tid);
    assert Solo(s, tid, k + 1) == AdvancePop(r, tid, false);
  }

  /** A pop running alone finishes in one iteration: empty after both loads, or the oldest task after six steps. */
  lemma PopAlone(s: State, tid: nat) returns (k: nat)
    requires Inv(s) && tid in s.threads && s.threads[tid].PopLoadHead?
    ensures k == (if Unready(s) then 2 else 6)
    ensures Unready(s) ==> Solo(s, tid, k) == Goto(s, tid, PopEmpty)
    ensures !Unready(s) ==>
              && Contents(s) != []
              && Solo(s, tid, k).threads[tid] == PopDone(Full(Contents(s)[0]))
              && Inv(Solo(s, tid, k))
              && Contents(Solo(s, tid, k)) == Contents(s)[1..]
  {
    k := 0;
    assert Solo(s, tid, k) == s;
    SoloPopLoads(s, tid, k);
    k := k + 2;
    if !Unready(s) {
      assert Contents(Solo(s, tid, k)) == Contents(s);
      SoloPops(s, tid, k);
      k := k + 4;
    }
  }

  // ----- size and machine arithmetic -----

  /** `size()` reads the tail, and the head at some later moment. */
  function Size(tailSeen: nat, headSeen: nat): nat {
    if tailSeen > headSeen then tailSeen - headSeen else 0
  }

  lemma SizeWithinCapacity(n: nat, before: seq<Action>, between: seq<Action>)
    requires n >= 2 && Run(Init(n), before).Some? && Run(Run(Init(n), before).value, between).Some?
    ensures var s := Run(Init(n), before).value;
            var size := Size(s.tail, Run(s, between).value.head);
            && size <= n && s.head <= s.tail == |s.entries|
            && |Contents(s)| - |between| <= size <= |Contents(s)|
  {
    InitInv(n);
    RunKeepsInv(Init(n), before);
    CountersMonotone(Run(Init(n), before).value, between);
  }

  const TWO_63: nat := 0x8000_0000_0000_0000

  /** Reinterpretation of a 64-bit counter as a signed value. */
  function AsSigned(x: nat): int
    requires x < 2 * TWO_63
  {
    if x < TWO_63 then x else x - 2 * TWO_63
  }

  /**
   In a run of fewer than 2^63 - capacity steps no counter reaches the sign bit, so the
   signed 64-bit difference the code branches on is the mathematical one.
   */
  lemma SignedDifferenceIsExact(n: nat, actions: seq<Action>, i: nat, p: nat)
    requires n >= 2 && Run(Init(n), actions).Some? && |actions| + n < TWO_63
    requires i < n && p <= Run(Init(n), actions).value.tail
    ensures var seen := Run(Init(n), actions).value.sequence[i];
            && seen < TWO_63 && p + 1 < TWO_63
            && AsSigned(seen) - AsSigned(p) == Diff(seen, p)
            && AsSigned(seen) - AsSigned(p + 1) == Diff(seen, p + 1)
  {
    InitInv(n);
    RunKeepsInv(Init(n), actions);
    CountersMonotone(Init(n), actions);
    var s := Run(Init(n), actions).value;
    SmallCell(i, n);
    if i <= s.tail {
      var q := NextUser(i, s.tail, n);
      assert CellFits(s, q);
    } else {
      assert CellFits(s, i);
    }
  }
}
