/**
 How the threads of the server use the task queue: which of their steps touch it, and what
 the other steps leave alone. Both rings are joined to the server with these definitions.
 */
module QueueUse {
  import opened Core
  import opened Server
  import System

  /** The task that this visit of the network thread hands to push, if it completes a body. */
  function Submission(s: System.State, reply: Reply): Option<InferenceTask> {
    if s.pass.i < s.pass.size && Visitable(s.pass) then Server.Visit(s.pass, reply).task else None
  }

  /** Worker w is in pop_batch and its batch is not full. */
  predicate WantsTask(s: System.State, w: nat) {
    System.AtPc(s, w, System.Popping) && |s.workers[w].batch| < s.batchSize
  }

  function LastTaken(s: System.State, w: nat): Option<InferenceTask> {
    if w < |s.workers| && s.workers[w].batch != [] then Some(s.workers[w].batch[|s.workers[w].batch| - 1]) else None
  }

  function Waiting(s: System.State): seq<InferenceTask>
    requires s.taskHead <= |s.tasks|
  {
    s.tasks[s.taskHead..]
  }

  /** A step of the network thread that does not call push. */
  predicate OutsidePush(s: System.State, act: System.Action) {
    && (act.Poll? || act.HandleResponse? || (act.Visit? && Submission(s, act.reply).None?))
    && System.Enabled(s, act)
  }

  /** A step of worker w that does not call pop. */
  predicate OutsidePop(s: System.State, act: System.Action, w: nat) {
    && (act.CheckStop? || act.RunTask? || act.NextBatch? || (act.EndBatch? && !WantsTask(s, w)))
    && act.w == w
    && System.Enabled(s, act)
  }

  /** The system after a step of a ring that is, or is not, also a step of the system. */
  function Perform(s: System.State, did: Option<System.Action>): System.State {
    if did.Some? && System.Enabled(s, did.value) then System.Apply(s, did.value) else s
  }

  /** A visit of an entry without events goes on to the next. */
  lemma IdleVisit(s: System.State)
    requires s.pass.i < s.pass.size <= |s.pass.server.polls| && Idle(s.pass.server.polls[s.pass.i])
    ensures var act := System.Visit(NOTHING, true);
            OutsidePush(s, act) && System.Apply(s, act) == s.(pass := Proceed(s.pass, s.pass.server))
  {
  }

  lemma OutsidePushEffect(s: System.State, act: System.Action)
    requires OutsidePush(s, act)
    ensures var r := System.Apply(s, act);
            && r.tasks == s.tasks && r.taskHead == s.taskHead
            && r.workers == s.workers && r.batchSize == s.batchSize && r.refused == s.refused
  {
  }

  lemma OutsidePopEffect(s: System.State, act: System.Action, w: nat)
    requires OutsidePop(s, act, w)
    ensures var r := System.Apply(s, act);
            && r.tasks == s.tasks && r.taskHead == s.taskHead
            && r.pass == s.pass && r.batchSize == s.batchSize && r.refused == s.refused
            && forall v :: 0 <= v < |s.workers| && v != w ==> r.workers[v] == s.workers[v]
  {
  }

  lemma PushEffect(s: System.State, reply: Reply, accepted: bool)
    requires Submission(s, reply).Some? && s.taskHead <= |s.tasks|
    ensures var act := System.Visit(reply, accepted);
            && System.Enabled(s, act)
            && var r := System.Apply(s, act);
               && r.taskHead == s.taskHead <= |r.tasks| && r.workers == s.workers && r.batchSize == s.batchSize
               && Waiting(r) == (if accepted then Waiting(s) + [Submission(s, reply).value] else Waiting(s))
               && r.refused == (if accepted then s.refused else s.refused + [Submission(s, reply).value])
  {
  }

  lemma PopEffect(s: System.State, w: nat)
    requires WantsTask(s, w) && s.taskHead < |s.tasks|
    ensures var act := System.PopTask(w);
            && System.Enabled(s, act)
            && var r := System.Apply(s, act);
               && r.taskHead <= |r.tasks| && r.pass == s.pass && r.batchSize == s.batchSize && r.refused == s.refused
               && Waiting(r) == Waiting(s)[1..]
               && LastTaken(r, w) == Some(Waiting(s)[0])
               && forall v :: 0 <= v < |s.workers| && v != w ==> r.workers[v] == s.workers[v]
  {
  }

  lemma EmptyEffect(s: System.State, w: nat)
    requires WantsTask(s, w)
    ensures var act := System.EndBatch(w);
            && System.Enabled(s, act)
            && var r := System.Apply(s, act);
               && r.tasks == s.tasks && r.taskHead == s.taskHead
               && r.pass == s.pass && r.batchSize == s.batchSize && r.refused == s.refused
               && forall v :: 0 <= v < |s.workers| && v != w ==> r.workers[v] == s.workers[v]
  {
  }

  /** A run of the system, one step longer. */
  lemma ExtendRun(start: System.State, acts: seq<System.Action>, s: System.State, did: Option<System.Action>)
    requires System.Run(start, acts) == Some(s) && (did.Some? ==> System.Enabled(s, did.value))
    ensures System.Run(start, acts + Steps(did)) == Some(Perform(s, did))
  {
    if did.Some? {
      assert (acts + Steps(did))[..|acts|] == acts;
    } else {
      assert acts + Steps(did) == acts;
    }
  }

  function Steps(did: Option<System.Action>): seq<System.Action> {
    if did.Some? then [did.value] else []
  }
}
