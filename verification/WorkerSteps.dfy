/** One iteration of a worker is a run of the coarse system: check, pops, runs, and back to the top. */
module WorkerSteps {
  import opened Core
  import opened QueueUse
  import opened NaiveQueues
  import opened WorkerPodClass
  import Memory
  import System

  lemma Extend(start: System.State, actions: seq<System.Action>, s: System.State, a: System.Action)
    returns (longer: seq<System.Action>)
    requires System.Run(start, actions) == Some(s) && System.Enabled(s, a)
    ensures System.Run(start, longer) == Some(System.Apply(s, a))
  {
    longer := actions + [a];
    assert longer[..|longer| - 1] == actions;
  }

  /** Worker w has popped the first i tasks that waited in s. */
  predicate HasPopped(s: System.State, r: System.State, w: nat, i: nat) {
    && s.taskHead + i <= |s.tasks| && r.tasks == s.tasks && r.taskHead == s.taskHead + i && r.batchSize == s.batchSize
    && r.results == s.results && r.stop == s.stop && |r.workers| == |s.workers| && w < |r.workers|
    && r.workers[w] == System.Worker(System.Popping, s.tasks[s.taskHead..s.taskHead + i], 0)
  }

  lemma PopOne(s: System.State, r: System.State, w: nat, i: nat)
    requires HasPopped(s, r, w, i) && i < s.batchSize && s.taskHead + i < |s.tasks|
    ensures System.Enabled(r, System.PopTask(w)) && HasPopped(s, System.Apply(r, System.PopTask(w)), w, i + 1)
  {
    var head := s.taskHead;
    assert s.tasks[head..head + (i + 1)] == s.tasks[head..head + i] + [s.tasks[head + i]];
  }

  /** Worker w has run the first i tasks of its batch, with these answers. */
  predicate HasRun(s: System.State, r: System.State, w: nat, batch: seq<InferenceTask>, results: seq<InferenceResult>,
                   i: nat) {
    && i <= |batch| == |results| && r.tasks == s.tasks && r.taskHead == s.taskHead && r.stop == s.stop
    && |r.workers| == |s.workers| && w < |r.workers| && r.workers[w] == System.Worker(System.Running, batch, i)
    && r.results == s.results + results[..i]
  }

  lemma RunOne(s: System.State, r: System.State, w: nat, batch: seq<InferenceTask>, inputs: seq<Memory.int64>,
               works: nat -> Work, i: nat)
    requires i < |batch| && HasRun(s, r, w, batch, ResultsOf(batch, inputs, works), i)
    ensures var act := System.RunTask(w, ResultsOf(batch, inputs, works)[i].response);
            System.Enabled(r, act) && HasRun(s, System.Apply(r, act), w, batch, ResultsOf(batch, inputs, works), i + 1)
  {
    var results := ResultsOf(batch, inputs, works);
    assert results[..i + 1] == results[..i] + [results[i]];
    assert results[i] == ResultOf(batch[i], inputs, works(batch[i].requestId));
    assert results[i] == InferenceResult(batch[i].clientFd, results[i].response, batch[i].requestId);
    assert r.results + [results[i]] == s.results + (results[..i] + [results[i]]);
  }

  lemma PopAll(start: System.State, actions: seq<System.Action>, s: System.State, w: nat, k: nat)
    returns (longer: seq<System.Action>, r: System.State)
    requires System.Run(start, actions) == Some(s) && HasPopped(s, s, w, 0)
    requires k <= s.batchSize && s.taskHead + k <= |s.tasks|
    ensures System.Run(start, longer) == Some(r) && HasPopped(s, r, w, k)
  {
    longer, r := actions, s;
    for i := 0 to k
      invariant System.Run(start, longer) == Some(r) && HasPopped(s, r, w, i)
    {
      PopOne(s, r, w, i);
      longer := Extend(start, longer, r, System.PopTask(w));
      r := System.Apply(r, System.PopTask(w));
    }
  }

  lemma RunAll(start: System.State, actions: seq<System.Action>, s: System.State, w: nat, batch: seq<InferenceTask>,
               inputs: seq<Memory.int64>, works: nat -> Work)
    returns (longer: seq<System.Action>, r: System.State)
    requires System.Run(start, actions) == Some(s) && HasRun(s, s, w, batch, ResultsOf(batch, inputs, works), 0)
    ensures System.Run(start, longer) == Some(r)
    ensures HasRun(s, r, w, batch, ResultsOf(batch, inputs, works), |batch|)
  {
    longer, r := actions, s;
    for i := 0 to |batch|
      invariant System.Run(start, longer) == Some(r) && HasRun(s, r, w, batch, ResultsOf(batch, inputs, works), i)
    {
      var act := System.RunTask(w, ResultsOf(batch, inputs, works)[i].response);
      RunOne(s, r, w, batch, inputs, works, i);
      longer := Extend(start, longer, r, act);
      r := System.Apply(r, act);
    }
  }

  /** The end of pop_batch and the loop over what it returned. */
  lemma ServeBatch(start: System.State, actions: seq<System.Action>, s: System.State, w: nat,
                   batch: seq<InferenceTask>, inputs: seq<Memory.int64>, works: nat -> Work)
    returns (longer: seq<System.Action>, r: System.State)
    requires System.Run(start, actions) == Some(s) && w < |s.workers|
    requires s.workers[w] == System.Worker(System.Popping, batch, 0)
    ensures System.Run(start, longer) == Some(r) && System.AtPc(r, w, System.Top)
    ensures r.tasks == s.tasks && r.taskHead == s.taskHead
    ensures r.results == s.results + ResultsOf(batch, inputs, works)
  {
    longer := Extend(start, actions, s, System.EndBatch(w));
    r := System.Apply(s, System.EndBatch(w));
    var results := ResultsOf(batch, inputs, works);
    if batch != [] {
      assert results[..0] == [] && results[..|batch|] == results;
      longer, r := RunAll(start, longer, r, w, batch, inputs, works);
      longer := Extend(start, longer, r, System.NextBatch(w));
      r := System.Apply(r, System.NextBatch(w));
    }
  }

  /**
   From the top of the loop, with k = min(batch size, queue length): the steps of the coarse
   system take exactly the first k tasks from the queue and add exactly the results that an
   iteration of the worker object pushes.
   */
  lemma IterationIsSteps(s: System.State, w: nat, inputs: seq<Memory.int64>, works: nat -> Work)
    returns (actions: seq<System.Action>, r: System.State)
    requires System.AtPc(s, w, System.Top) && !s.stop && s.taskHead <= |s.tasks|
    ensures System.Run(s, actions) == Some(r) && System.AtPc(r, w, System.Top) && r.taskHead <= |r.tasks|
    ensures var k := Least(s.batchSize, |Waiting(s)|);
            && Waiting(r) == Waiting(s)[k..]
            && r.results == s.results + ResultsOf(Waiting(s)[..k], inputs, works)
  {
    var k := Least(s.batchSize, |Waiting(s)|);
    actions := Extend(s, [], s, System.CheckStop(w));
    r := System.Apply(s, System.CheckStop(w));
    assert s.tasks[s.taskHead..s.taskHead + 0] == [];
    actions, r := PopAll(s, actions, r, w, k);
    actions, r := ServeBatch(s, actions, r, w, s.tasks[s.taskHead..s.taskHead + k], inputs, works);
    assert Waiting(s)[..k] == s.tasks[s.taskHead..s.taskHead + k];
  }
}
