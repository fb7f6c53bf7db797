/**
 What one thread does to the MPMC ring while it runs alone: which parts it leaves as they are,
 and that it always finishes its call, from whatever point it has reached.
 */
module MpmcSolo {
  import opened Core
  import opened RingCells
  import opened Mpmc
  import opened MpmcInvariant
  import opened MpmcTheorems

  /** Only the program counter of one thread and the ring have changed. */
  predicate Framed(s: State, r: State, tid: nat) {
    && Inv(r) && r.capacity == s.capacity && r.stopped == s.stopped
    && tid in r.threads && r.threads == s.threads[tid := r.threads[tid]]
  }

  lemma FramedTwice(s: State, r: State, q: State, tid: nat)
    requires Framed(s, r, tid) && Framed(r, q, tid)
    ensures Framed(s, q, tid)
  {
    var pc := r.threads[tid];
    assert s.threads[tid := pc][tid := q.threads[tid]] == s.threads[tid := q.threads[tid]];
  }

  lemma StepFramed(s: State, tid: nat) returns (r: State)
    requires Inv(s) && tid in s.threads
    ensures r == (if Free(s, tid) then s else Apply(s, Step(tid, false))) && Framed(s, r, tid)
  {
    r := s;
    if Free(s, tid) {
      assert s.threads[tid := s.threads[tid]] == s.threads;
    } else {
      StepKeepsInv(s, Step(tid, false));
      OneThreadMoves(s, tid, false);
      r := Apply(s, Step(tid, false));
    }
  }

  lemma {:induction false} SoloFramed(s: State, tid: nat, k: nat)
    requires Inv(s) && tid in s.threads
    ensures Framed(s, Solo(s, tid, k), tid)
  {
    if k == 0 {
      assert s.threads[tid := s.threads[tid]] == s.threads;
    } else {
      var r := Solo(s, tid, k - 1);
      SoloFramed(s, tid, k - 1);
      var next := StepFramed(r, tid);
      FramedTwice(s, r, next, tid);
    }
  }

  predicate Pushing(pc: Pc) {
    InPush(pc) || pc.PushDone?
  }

  /** A push leaves the head alone and a pop the tail. */
  predicate OneSide(s: State, r: State, tid: nat) {
    && tid in s.threads && tid in r.threads
    && (Pushing(r.threads[tid]) <==> Pushing(s.threads[tid]))
    && (Pushing(s.threads[tid]) ==> r.head == s.head)
    && (!Pushing(s.threads[tid]) ==> r.tail == s.tail)
  }

  lemma StepSide(s: State, tid: nat) returns (r: State)
    requires Shaped(s) && tid in s.threads
    ensures r == (if Free(s, tid) then s else Apply(s, Step(tid, false))) && OneSide(s, r, tid)
  {
    r := if Free(s, tid) then s else Apply(s, Step(tid, false));
  }

  lemma {:induction false} SoloSide(s: State, tid: nat, k: nat)
    requires Shaped(s) && tid in s.threads
    ensures OneSide(s, Solo(s, tid, k), tid)
  {
    if k > 0 {
      SoloSide(s, tid, k - 1);
      var next := StepSide(Solo(s, tid, k - 1), tid);
      assert next == Solo(s, tid, k);
    }
  }

  /** With nobody writing, the oldest task is published. */
  lemma NobodyWriting(s: State)
    requires Inv(s) && s.head < s.tail && forall tid :: tid in s.threads ==> !HoldingForWrite(s.threads[tid])
    ensures !Unready(s)
  {
    assert EntryFits(s, s.head);
  }

  // ----- every call that runs alone ends -----

  /** Steps that the thread still needs when it runs alone; a stale position costs a reload. */
  function Toil(s: State, tid: nat): nat {
    if tid !in s.threads then 0
    else match s.threads[tid]
      case PushCheckStop(_) => 10
      case PushLoadTail(_) => 7
      case PushLoadSequence(_, t) => if t == s.tail then 6 else 9
      case PushCas(_, t) => if t == s.tail then 5 else 8
      case PushWrite(_, _) => 3
      case PushWriting(_, _) => 2
      case PushPublish(_, _) => 1
      case PopLoadHead => 7
      case PopLoadSequence(h) => if h == s.head then 6 else 9
      case PopCas(h) => if h == s.head then 5 else 8
      case PopMove(_) => 3
      case PopMoving(_, _) => 2
      case PopRelease(_, _) => 1
      case _ => 0
  }

  lemma StepToils(s: State, tid: nat)
    requires Inv(s) && !Free(s, tid)
    ensures Toil(Apply(s, Step(tid, false)), tid) < Toil(s, tid)
  {
    assert ThreadFits(s, tid);
    var pc := s.threads[tid];
    if pc.PushLoadSequence? {
      LoadedByPush(s, pc.t);
    } else if pc.PopLoadSequence? {
      LoadedByPop(s, pc.h);
    }
  }

  /** A push that runs alone after its stop check, with what it leaves behind. */
  lemma PushToEnd(s: State, tid: nat, task: InferenceTask) returns (k: nat)
    requires Inv(Goto(s, tid, PushLoadTail(task))) && Shaped(s) && |s.entries| == s.tail
    ensures var r := Solo(Goto(s, tid, PushLoadTail(task)), tid, k);
            && Inv(r) && r.threads == s.threads[tid := PushDone(!Blocked(s))]
            && r.capacity == s.capacity && r.stopped == s.stopped && r.head == s.head
  {
    var t := Goto(s, tid, PushLoadTail(task));
    k := PushAlone(t, tid);
    SoloFramed(t, tid, k);
    SoloSide(t, tid, k);
    GotoTwice(s, tid, PushLoadTail(task), PushDone(!Blocked(s)));
  }
}
