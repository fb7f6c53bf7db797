/** What holds of the whole server over every run, whatever the network and the scheduler do. */
module SystemTheorems {
  import opened Core
  import opened Session
  import opened Server
  import opened System
  import opened SystemInvariant

  // ----- conservation -----

  lemma HeldOnce(s: State, id: nat, place: Place)
    requires Inv(s) && HeldAt(s, id, place)
    ensures id < |s.places| && s.places[id] == place
  {
    match place
    case InBatch(w, j) => assert WorkerFits(s, w);
    case InResults(p) => assert ResultFits(s, p);
    case Delivered(p) => assert ResultFits(s, p);
    case Queued(p) => assert Known(s, s.tasks[p].requestId, s.tasks[p].clientFd, Queued(p));
    case Refused(p) => assert Known(s, s.refused[p].requestId, s.refused[p].clientFd, Refused(p));
  }

  /**
   Conservation: after any run, every submitted request is held by exactly one element of
   exactly one of the refused tasks, the task queue, the rest of one worker's batch, the
   result queue or the delivered results, and these hold nothing that was not submitted.
   */
  lemma Conservation(listener: int, workers: nat, batchSize: nat, actions: seq<Action>, id: nat)
    requires Run(Start(listener, workers, batchSize), actions).Some?
    ensures var s := Run(Start(listener, workers, batchSize), actions).value;
            && (id < s.pass.server.nextTraceId <==> exists place :: HeldAt(s, id, place))
            && (forall p, q :: HeldAt(s, id, p) && HeldAt(s, id, q) ==> p == q)
  {
    StartInv(listener, workers, batchSize);
    RunsKeepInv(Start(listener, workers, batchSize), actions);
    var s := Run(Start(listener, workers, batchSize), actions).value;
    if id < s.pass.server.nextTraceId {
      assert HeldAt(s, id, s.places[id]);
    }
    forall p | HeldAt(s, id, p) ensures id < |s.places| && s.places[id] == p {
      HeldOnce(s, id, p);
    }
  }

  // ----- routing -----

  /** Numbers of connections are never reused, and two open descriptors have different numbers. */
  predicate Numbered(s: State) {
    && (forall fd :: fd in s.connections ==> s.connections[fd] < s.nextConnection)
    && (forall fd, g :: fd in s.connections && g in s.connections && fd != g ==> s.connections[fd] != s.connections[g])
  }

  lemma StepKeepsNumbers(s: State, a: Action)
    requires Numbered(s) && Enabled(s, a)
    ensures Numbered(Apply(s, a)) && s.nextConnection <= Apply(s, a).nextConnection
  {
    assert !a.Visit? ==> Apply(s, a).connections == s.connections && Apply(s, a).nextConnection == s.nextConnection;
  }

  lemma {:induction false} RunsKeepNumbers(s: State, actions: seq<Action>)
    requires Numbered(s) && Run(s, actions).Some?
    ensures Numbered(Run(s, actions).value) && s.nextConnection <= Run(s, actions).value.nextConnection
  {
    if actions != [] {
      RunsKeepNumbers(s, actions[..|actions| - 1]);
      StepKeepsNumbers(Run(s, actions[..|actions| - 1]).value, actions[|actions| - 1]);
    }
  }

  /**
   Each open session has at most one request outstanding, only while it waits for
   inference, and the request came from the connection that has the descriptor now.
   */
  lemma OneRequestPerSession(listener: int, workers: nat, batchSize: nat, actions: seq<Action>)
    requires Run(Start(listener, workers, batchSize), actions).Some?
    ensures var s := Run(Start(listener, workers, batchSize), actions).value;
            && Numbered(s)
            && |s.places| == |s.origins|
            && (forall id :: 0 <= id < |s.places| && Outstanding(s.places[id]) ==>
                  && Pending(s.pass.server, s.origins[id].fd)
                  && s.origins[id].fd in s.connections
                  && s.connections[s.origins[id].fd] == s.origins[id].connection)
            && (forall i, j :: 0 <= i < j < |s.places| && Outstanding(s.places[i]) && Outstanding(s.places[j]) ==>
                  s.origins[i].fd != s.origins[j].fd)
  {
    var start := Start(listener, workers, batchSize);
    StartInv(listener, workers, batchSize);
    RunsKeepInv(start, actions);
    RunsKeepNumbers(start, actions);
    var s := Run(start, actions).value;
    forall id | 0 <= id < |s.places| && Outstanding(s.places[id])
      ensures Pending(s.pass.server, s.origins[id].fd) && s.origins[id].fd in s.connections
              && s.connections[s.origins[id].fd] == s.origins[id].connection
              && s.origins[id].fd in s.awaiting && s.awaiting[s.origins[id].fd] == id
    {
      assert RequestFits(s, id);
    }
  }

  /** Every result that was popped went to the connection that sent its request, although descriptors are reused. */
  lemma RepliesGoHome(listener: int, workers: nat, batchSize: nat, actions: seq<Action>, p: nat)
    requires Run(Start(listener, workers, batchSize), actions).Some?
    requires p < Run(Start(listener, workers, batchSize), actions).value.resultHead
    ensures var s := Run(Start(listener, workers, batchSize), actions).value;
            && p < |s.results| && p < |s.deliveredTo|
            && var id := s.results[p].requestId;
               && id < |s.origins|
               && s.results[p].clientFd == s.origins[id].fd
               && s.deliveredTo[p] == Some(s.origins[id].connection)
  {
    StartInv(listener, workers, batchSize);
    RunsKeepInv(Start(listener, workers, batchSize), actions);
    var s := Run(Start(listener, workers, batchSize), actions).value;
    assert DeliveryFits(s, p);
    assert ResultFits(s, p);
  }

  function Repeated(k: nat): seq<Action> {
    seq(k, _ => HandleResponse)
  }

  /** The sessions after the first k results that wait in the result queue. */
  function AfterResponses(s: State, k: nat): Pass
    requires s.resultHead + k <= |s.results|
  {
    s.pass.(server := s.pass.server.(
      sessions := RespondAll(s.pass.server.sessions, s.results[s.resultHead..s.resultHead + k])))
  }

  /** r is the state after k response steps, with the sessions of k results. */
  predicate Responded(s: State, r: State, k: nat) {
    Run(s, Repeated(k)) == Some(r) && HasResponses(s, r, k)
  }

  predicate HasResponses(s: State, r: State, k: nat) {
    && s.resultHead + k <= |s.results| && BetweenPasses(r)
    && r.resultHead == s.resultHead + k && r.results == s.results && r.pass == AfterResponses(s, k)
  }

  lemma OneMore(s: State, r: State, k: nat)
    requires HasResponses(s, r, k) && s.resultHead + k < |s.results|
    ensures Enabled(r, HandleResponse) && HasResponses(s, Apply(r, HandleResponse), k + 1)
  {
    OneMoreResponse(s.pass.server.sessions, s.results, s.resultHead, k);
  }

  lemma RespondOnce(s: State, r: State, k: nat) returns (next: State)
    requires Responded(s, r, k) && s.resultHead + k < |s.results|
    ensures Responded(s, next, k + 1)
  {
    next := Apply(r, HandleResponse);
    assert Repeated(k + 1) == Repeated(k) + [HandleResponse];
    RunAppends(s, Repeated(k), HandleResponse);
    OneMore(s, r, k);
  }

  lemma OneMoreResponse(sessions: map<int, ClientSession>, results: seq<InferenceResult>, head: nat, k: nat)
    requires head + k < |results|
    ensures var before, r := RespondAll(sessions, results[head..head + k]), results[head + k];
            RespondAll(sessions, results[head..head + (k + 1)])
            == if r.clientFd in before then before[r.clientFd := Respond(before[r.clientFd], r.response)] else before
  {
    var popped := results[head..head + (k + 1)];
    assert |popped| == k + 1 && popped[k] == results[head + k];
    assert popped[..k] == results[head..head + k];
  }

  /** Popping k results, one step each, does to the sessions what one call of handle_responses does. */
  lemma ResponsesAreSteps(s: State, k: nat) returns (r: State)
    requires BetweenPasses(s) && s.resultHead + k <= |s.results|
    ensures Responded(s, r, k)
  {
    r := s;
    for i := 0 to k
      invariant Responded(s, r, i)
    {
      r := RespondOnce(s, r, i);
    }
  }

  // ----- a refused request -----

  lemma StepKeepsRefused(s: State, a: Action, id: nat)
    requires Inv(s) && Enabled(s, a) && id < |s.places| && s.places[id].Refused?
    ensures id < |Apply(s, a).places| && Apply(s, a).places[id] == s.places[id]
    ensures |s.origins| <= |Apply(s, a).origins| && id < |s.origins| && Apply(s, a).origins[id] == s.origins[id]
  {
    match a
    case PopTask(w) => PopMoves(s, w);
    case RunTask(w, response) =>
      assert WorkerFits(s, w);
      RunMoves(s, w, response);
    case HandleResponse => assert ResultFits(s, s.resultHead);
    case Visit(_, _) =>
    case Poll(_) =>
    case CheckStop(_) =>
    case EndBatch(_) =>
    case NextBatch(_) =>
    case StopPool =>
  }

  /**
   The answer of push is ignored, so a refused request leaves its connection hanging: in
   every later state the session still waits for inference, on the same connection, and
   no result for the request exists.
   */
  lemma {:induction false} RefusedHangs(s: State, later: seq<Action>, id: nat)
    requires Inv(s) && Run(s, later).Some? && id < |s.places| && s.places[id].Refused?
    ensures var r := Run(s, later).value;
            && Inv(r) && id < |r.places| && r.places[id] == s.places[id]
            && id < |s.origins| && id < |r.origins| && r.origins[id] == s.origins[id]
            && Pending(r.pass.server, s.origins[id].fd)
            && s.origins[id].fd in r.connections && r.connections[s.origins[id].fd] == s.origins[id].connection
            && forall p :: 0 <= p < |r.results| ==> r.results[p].requestId != id
  {
    RunsKeepInv(s, later);
    if later != [] {
      var before, a := later[..|later| - 1], later[|later| - 1];
      RefusedHangs(s, before, id);
      StepKeepsRefused(Run(s, before).value, a, id);
    }
    RefusedWaits(Run(s, later).value, id);
  }

  lemma RefusedWaits(r: State, id: nat)
    requires Inv(r) && id < |r.places| && r.places[id].Refused?
    ensures id < |r.origins| && Pending(r.pass.server, r.origins[id].fd)
    ensures r.origins[id].fd in r.connections && r.connections[r.origins[id].fd] == r.origins[id].connection
    ensures forall p :: 0 <= p < |r.results| ==> r.results[p].requestId != id
  {
    assert RequestFits(r, id);
    forall p | 0 <= p < |r.results| ensures r.results[p].requestId != id { assert ResultFits(r, p); }
  }

  // ----- shutdown -----

  /** The most results a worker can still produce once the stop flag is set. */
  function Budget(worker: Worker, batchSize: nat): nat {
    match worker.pc
    case Popping => batchSize
    case Running => if worker.next <= |worker.batch| then |worker.batch| - worker.next else 0
    case _ => 0
  }

  function TotalBudget(workers: seq<Worker>, batchSize: nat): nat {
    if workers == [] then 0
    else TotalBudget(workers[..|workers| - 1], batchSize) + Budget(workers[|workers| - 1], batchSize)
  }

  lemma {:induction false} BudgetUpdate(workers: seq<Worker>, w: nat, worker: Worker, batchSize: nat)
    requires w < |workers|
    ensures TotalBudget(workers[w := worker], batchSize)
         == TotalBudget(workers, batchSize) - Budget(workers[w], batchSize) + Budget(worker, batchSize)
  {
    var last := |workers| - 1;
    if w == last {
      assert workers[w := worker][..last] == workers[..last];
    } else {
      assert workers[w := worker][..last] == workers[..last][w := worker];
      BudgetUpdate(workers[..last], w, worker, batchSize);
    }
  }

  lemma {:induction false} BudgetBound(workers: seq<Worker>, batchSize: nat)
    requires forall w :: 0 <= w < |workers| ==> |workers[w].batch| <= batchSize
    ensures TotalBudget(workers, batchSize) <= |workers| * batchSize
  {
    if workers != [] {
      var rest := workers[..|workers| - 1];
      BudgetBound(rest, batchSize);
      assert |workers| * batchSize == |rest| * batchSize + batchSize;
    }
  }

  /** Once stop is set, a step that adds a result pays for it from the budget, and none raises the budget. */
  lemma StepPays(s: State, a: Action)
    requires Inv(s) && s.stop && Enabled(s, a)
    ensures var r := Apply(s, a);
            && r.stop && r.batchSize == s.batchSize && |r.workers| == |s.workers|
            && |r.results| + TotalBudget(r.workers, r.batchSize) <= |s.results| + TotalBudget(s.workers, s.batchSize)
  {
    if a.CheckStop? || a.PopTask? || a.EndBatch? || a.RunTask? || a.NextBatch? {
      assert WorkerFits(s, a.w);
      BudgetUpdate(s.workers, a.w, Apply(s, a).workers[a.w], s.batchSize);
    }
  }

  lemma {:induction false} RunPays(s: State, actions: seq<Action>)
    requires Inv(s) && s.stop && Run(s, actions).Some?
    ensures var r := Run(s, actions).value;
            && Inv(r) && r.stop && r.batchSize == s.batchSize && |r.workers| == |s.workers|
            && |r.results| + TotalBudget(r.workers, r.batchSize) <= |s.results| + TotalBudget(s.workers, s.batchSize)
  {
    if actions != [] {
      var before, a := actions[..|actions| - 1], actions[|actions| - 1];
      RunPays(s, before);
      StepPays(Run(s, before).value, a);
      StepKeepsInv(Run(s, before).value, a);
    }
  }

  lemma BoundAfterStop(s: State, after: seq<Action>)
    requires Inv(s) && s.stop && Run(s, after).Some?
    ensures |Run(s, after).value.results| <= |s.results| + |s.workers| * s.batchSize
  {
    RunPays(s, after);
    forall w | 0 <= w < |s.workers| ensures |s.workers[w].batch| <= s.batchSize {
      assert WorkerFits(s, w);
    }
    BudgetBound(s.workers, s.batchSize);
  }

  /** After the stop flag is set at most thread_count * batch_size further results appear. */
  lemma ShutdownBound(listener: int, workers: nat, batchSize: nat, before: seq<Action>, after: seq<Action>)
    requires Run(Start(listener, workers, batchSize), before).Some?
    requires var s := Run(Start(listener, workers, batchSize), before).value; s.stop && Run(s, after).Some?
    ensures var s := Run(Start(listener, workers, batchSize), before).value;
            |Run(s, after).value.results| <= |s.results| + workers * batchSize
  {
    var start := Start(listener, workers, batchSize);
    StartInv(listener, workers, batchSize);
    RunsKeepInv(start, before);
    BoundAfterStop(Run(start, before).value, after);
  }

  // ----- the queue never outgrows the sessions -----

  lemma {:induction false} DistinctFit(fds: seq<int>, open: set<int>)
    requires forall i, j :: 0 <= i < j < |fds| ==> fds[i] != fds[j]
    requires forall i :: 0 <= i < |fds| ==> fds[i] in open
    ensures |fds| <= |open|
  {
    if fds != [] {
      var last := fds[|fds| - 1];
      DistinctFit(fds[..|fds| - 1], open - {last});
    }
  }

  function WaitingSessions(sv: ServerState): set<int> {
    set fd | fd in sv.sessions && sv.sessions[fd].state.InferencePending?
  }

  /** The task queue holds at most one task for each session that waits for inference. */
  lemma QueueWithinWaiting(s: State)
    requires Inv(s)
    ensures |s.tasks| - s.taskHead <= |WaitingSessions(s.pass.server)|
  {
    var queue := s.tasks[s.taskHead..];
    var fds := seq(|queue|, i requires 0 <= i < |queue| => queue[i].clientFd);
    forall i | 0 <= i < |fds|
      ensures var id := queue[i].requestId;
              && id < |s.places| && s.places[id] == Queued(s.taskHead + i)
              && fds[i] in WaitingSessions(s.pass.server) && fds[i] in s.awaiting && s.awaiting[fds[i]] == id
    {
      var id := s.tasks[s.taskHead + i].requestId;
      assert Known(s, id, s.tasks[s.taskHead + i].clientFd, Queued(s.taskHead + i));
      assert RequestFits(s, id);
    }
    DistinctFit(fds, WaitingSessions(s.pass.server));
  }

  /** When a request is submitted, fewer tasks are queued than sessions are open. */
  lemma RoomWhenSubmitting(s: State, reply: Reply)
    requires Inv(s) && s.pass.i < s.pass.size && Visitable(s.pass) && Server.Visit(s.pass, reply).task.Some?
    ensures |s.tasks| - s.taskHead < |s.pass.server.sessions|
  {
    VisitEffects(s.pass, reply);
    QueueWithinWaiting(s);
    var sv, fd := s.pass.server, Server.Visit(s.pass, reply).task.value.clientFd;
    var others := sv.sessions.Keys - {fd};
    assert WaitingSessions(sv) <= others;
    CardinalityMonotone(WaitingSessions(sv), others);
  }

  lemma CardinalityMonotone(a: set<int>, b: set<int>)
    requires a <= b
    ensures |a| <= |b|
  {
    assert b == a + (b - a);
  }
}
