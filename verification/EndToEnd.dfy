/**
 From the bytes a client sends to the replies it gets, across the whole server. For each
 connection, over any run of the system: what was submitted for it is what the client framed,
 and the k-th reply it gets answers its k-th request.
 */
module EndToEnd {
  import opened Core
  import opened Session
  import opened Server
  import opened Framing
  import System
  import SystemInvariant
  import SystemTheorems

  /** What happened on one connection: the kernel's events, the requests submitted, the results handed back. */
  datatype Dialogue = Dialogue(events: seq<Event>, requests: seq<InferenceTask>, answers: seq<InferenceResult>)

  const SILENCE: Dialogue := Dialogue([], [], [])

  /** Descriptor fd is open and belongs to connection n. */
  predicate OpenAs(s: System.State, fd: int, n: nat) {
    fd in s.pass.server.sessions && fd in s.connections && s.connections[fd] == n
  }

  /** The event of a visited client entry. */
  function VisitEvents(e: PollEntry, reply: Reply): seq<Event> {
    if e.gotIn then [ReadVisit(reply.recv)] else if e.gotOut then [WriteVisit(reply.send)] else []
  }

  /** What a step adds to the dialogue of connection n. */
  function Continue(d: Dialogue, s: System.State, a: System.Action, n: nat): Dialogue
    requires System.Enabled(s, a)
  {
    match a
    case Visit(reply, _) =>
      var e := s.pass.server.polls[s.pass.i];
      if OpenAs(s, e.fd, n) then
        d.(events := d.events + VisitEvents(e, reply), requests := d.requests + Submitted(Server.Visit(s.pass, reply)))
      else d
    case HandleResponse =>
      var result := s.results[s.resultHead];
      if OpenAs(s, result.clientFd, n)
      then d.(events := d.events + [Response(result.response)], answers := d.answers + [result]) else d
    case _ => d
  }

  function DialogueOf(start: System.State, actions: seq<System.Action>, n: nat): Dialogue
    requires System.Run(start, actions).Some?
  {
    if actions == [] then SILENCE
    else
      var before := actions[..|actions| - 1];
      Continue(DialogueOf(start, before, n), System.Run(start, before).value, actions[|actions| - 1], n)
  }

  function Bodies(requests: seq<InferenceTask>): (r: seq<seq<byte>>) {
    seq(|requests|, i requires 0 <= i < |requests| => requests[i].data)
  }

  function Responses(answers: seq<InferenceResult>): (r: seq<seq<byte>>) {
    seq(|answers|, i requires 0 <= i < |answers| => answers[i].response)
  }

  /** The k-th answer belongs to the k-th request. */
  predicate InOrder(d: Dialogue) {
    && |d.answers| <= |d.requests|
    && forall k :: 0 <= k < |d.answers| ==> d.answers[k].requestId == d.requests[k].requestId
  }

  /** A waiting session waits for the answer to its last request, any other has all its answers. */
  predicate Matched(s: System.State, fd: int, d: Dialogue) {
    if Pending(s.pass.server, fd) then
      && |d.requests| == |d.answers| + 1
      && fd in s.awaiting && s.awaiting[fd] == d.requests[|d.answers|].requestId
    else |d.requests| == |d.answers|
  }

  /** The events are a life of the framing model with the same requests and answers. */
  predicate Lives(d: Dialogue) {
    && Life(d.events).Some?
    && Bodies(d.requests) == Life(d.events).value.emitted
    && Responses(d.answers) == Life(d.events).value.answered
  }

  /** While the connection is open, its session is the one the events lead to. */
  predicate Current(s: System.State, fd: int, d: Dialogue)
    requires Lives(d) && fd in s.pass.server.sessions
  {
    Life(d.events).value.open && Life(d.events).value.session == s.pass.server.sessions[fd] && Matched(s, fd, d)
  }

  ghost predicate Follows(s: System.State, n: nat, d: Dialogue) {
    && Lives(d) && InOrder(d)
    && (forall fd :: OpenAs(s, fd, n) ==> Current(s, fd, d))
    && (n >= s.nextConnection ==> d == SILENCE)
  }

  // ----- what a visit does, entry by entry -----

  /** The visited client's session afterwards, or None when the connection is closed. */
  function SessionAfter(s: ClientSession, e: PollEntry, reply: Reply): Option<ClientSession>
    requires Readable(s)
  {
    if e.gotIn then
      var o := HandleClientData(s, reply.recv);
      if o.code > 0 then Some(o.session) else None
    else if e.gotOut then SendResponse(s, reply.send)
    else Some(s)
  }

  lemma VisitOfClient(p: Pass, reply: Reply)
    requires PassFits(p) && 1 <= p.i < p.size && Visitable(p)
    ensures var sv, e, v := p.server, p.server.polls[p.i], Visit(p, reply);
            var after := v.pass.server.sessions;
            && e.fd in sv.sessions && SessionFits(sv.sessions[e.fd])
            && var next := SessionAfter(sv.sessions[e.fd], e, reply);
               && (next.None? ==> e.fd !in after)
               && (next.Some? ==> e.fd in after && after[e.fd] == next.value)
               && (forall g :: g != e.fd ==> (g in after <==> g in sv.sessions))
               && (forall g :: g != e.fd && g in after ==> after[g] == sv.sessions[g])
               && v.pass.accepted == p.accepted
               && Submitted(v) == (if e.gotIn && HandleClientData(sv.sessions[e.fd], reply.recv).submitted.Some?
                    then [InferenceTask(e.fd, HandleClientData(sv.sessions[e.fd], reply.recv).submitted.value,
                                        sv.nextTraceId)]
                    else [])
  {
    ReadVisitFits(p.server.sessions[p.server.polls[p.i].fd], reply.recv);
  }

  lemma VisitOfListener(p: Pass, reply: Reply)
    requires PassFits(p) && p.i == 0 < p.size && Visitable(p)
    ensures var sv, v := p.server, Visit(p, reply);
            && v.task.None?
            && sv.polls[0].fd !in sv.sessions
            && v.pass.server.sessions
               == (if v.pass.accepted != p.accepted then sv.sessions[reply.accepted := NewSession()] else sv.sessions)
            && (v.pass.accepted != p.accepted ==> reply.accepted !in sv.sessions)
  {
  }

  /** A visit drops the entry of a client exactly when the event it stands for is fatal. */
  lemma VisitDropsExactlyWhen(p: Pass, reply: Reply)
    requires PassFits(p) && 1 <= p.i < p.size && Visitable(p)
    ensures var e, v := p.server.polls[p.i], Visit(p, reply);
            && e.fd in p.server.sessions
            && var drops := VisitEvents(e, reply) != [] && Fatal(p.server.sessions[e.fd], VisitEvents(e, reply)[0]);
               && (e.fd !in v.pass.server.sessions <==> drops)
               && v.pass.size == (if drops then p.size - 1 else p.size) && v.pass.i == (if drops then p.i else p.i + 1)
  {
    var e := p.server.polls[p.i];
    var s := p.server.sessions[e.fd];
    assert SessionFits(s);
    if s.state.BodyPending? { ZeroLength(s.header); }
  }

  // ----- one event in the life of a connection -----

  lemma LifeExtends(events: seq<Event>, e: Event)
    requires Life(events).Some? && Possible(Life(events).value, e)
    ensures Life(events + [e]) == Some(Happen(Life(events).value, e))
  {
    assert (events + [e])[..|events|] == events;
  }

  lemma ReadExtends(d: Dialogue, recv: Recv, task: InferenceTask)
    requires Lives(d) && Possible(Life(d.events).value, ReadVisit(recv))
    ensures var o := HandleClientData(Life(d.events).value.session, recv);
            var events := d.events + [ReadVisit(recv)];
            && (o.submitted.None? ==> Lives(d.(events := events)))
            && (o.submitted == Some(task.data) ==> Lives(d.(events := events, requests := d.requests + [task])))
            && Life(events) == Some(Happen(Life(d.events).value, ReadVisit(recv)))
  {
    LifeExtends(d.events, ReadVisit(recv));
    assert Bodies(d.requests + [task]) == Bodies(d.requests) + [task.data];
  }

  lemma AnswerExtends(d: Dialogue, result: InferenceResult)
    requires Lives(d) && Possible(Life(d.events).value, Response(result.response))
    ensures var events := d.events + [Response(result.response)];
            && Lives(d.(events := events, answers := d.answers + [result]))
            && Life(events) == Some(Happen(Life(d.events).value, Response(result.response)))
  {
    LifeExtends(d.events, Response(result.response));
    assert Responses(d.answers + [result]) == Responses(d.answers) + [result.response];
  }

  // ----- every step keeps every dialogue -----

  /** A step that is no event of connection n. */
  lemma OthersFollow(s: System.State, r: System.State, n: nat, d: Dialogue)
    requires Follows(s, n, d) && s.nextConnection <= r.nextConnection
    requires forall fd :: OpenAs(r, fd, n) ==>
               || (OpenAs(s, fd, n) && r.pass.server.sessions[fd] == s.pass.server.sessions[fd]
                   && (fd in s.awaiting ==> fd in r.awaiting && r.awaiting[fd] == s.awaiting[fd]))
               || (n >= s.nextConnection && r.pass.server.sessions[fd] == NewSession())
    ensures Follows(r, n, d)
  {
    forall fd | OpenAs(r, fd, n) ensures Current(r, fd, d) {
      if OpenAs(s, fd, n) { assert Current(s, fd, d); }
    }
  }

  /** A step that is an event of connection n, which has descriptor fd. */
  lemma MineFollows(s: System.State, r: System.State, n: nat, fd: int, d: Dialogue)
    requires SystemTheorems.Numbered(s) && OpenAs(s, fd, n)
    requires r.connections == s.connections && r.nextConnection == s.nextConnection
    requires Lives(d) && InOrder(d) && (fd in r.pass.server.sessions ==> Current(r, fd, d))
    ensures Follows(r, n, d)
  {
    forall g | OpenAs(r, g, n) ensures Current(r, g, d) {
      assert g == fd;
    }
  }

  lemma QuietStepFollows(s: System.State, a: System.Action, n: nat, d: Dialogue)
    requires System.Enabled(s, a) && !a.Visit? && !a.HandleResponse? && Follows(s, n, d)
    ensures Follows(System.Apply(s, a), n, d)
  {
    OthersFollow(s, System.Apply(s, a), n, d);
  }

  lemma ResponseFollows(s: System.State, n: nat, d: Dialogue)
    requires SystemInvariant.Inv(s) && SystemTheorems.Numbered(s) && System.Enabled(s, System.HandleResponse)
    requires Follows(s, n, d)
    ensures Follows(System.ResponseStep(s), n, Continue(d, s, System.HandleResponse, n))
  {
    var r, result := System.ResponseStep(s), s.results[s.resultHead];
    var fd := result.clientFd;
    if OpenAs(s, fd, n) {
      assert SystemInvariant.ResultFits(s, s.resultHead);
      assert SystemInvariant.RequestFits(s, result.requestId);
      assert Current(s, fd, d);
      AnswerExtends(d, result);
      MineFollows(s, r, n, fd, Continue(d, s, System.HandleResponse, n));
    } else {
      OthersFollow(s, r, n, d);
    }
  }

  lemma AcceptFollows(s: System.State, reply: Reply, pushAccepted: bool, n: nat, d: Dialogue)
    requires PassFits(s.pass) && s.pass.i == 0
    requires System.Enabled(s, System.Visit(reply, pushAccepted)) && Follows(s, n, d)
    ensures Follows(System.VisitStep(s, reply, pushAccepted), n, Continue(d, s, System.Visit(reply, pushAccepted), n))
  {
    VisitOfListener(s.pass, reply);
    OthersFollow(s, System.VisitStep(s, reply, pushAccepted), n, d);
  }

  /** The visit of a client as a step of the system: what changes for it and what stays for the others. */
  lemma ClientStep(s: System.State, reply: Reply, pushAccepted: bool)
    requires PassFits(s.pass) && s.pass.i >= 1 && System.Enabled(s, System.Visit(reply, pushAccepted))
    ensures var r, v := System.VisitStep(s, reply, pushAccepted), Server.Visit(s.pass, reply);
            var fd := s.pass.server.polls[s.pass.i].fd;
            && r.connections == s.connections && r.nextConnection == s.nextConnection
            && r.pass.server.sessions == v.pass.server.sessions
            && r.awaiting == (if v.task.Some? then s.awaiting[fd := v.task.value.requestId] else s.awaiting)
  {
    VisitOfClient(s.pass, reply);
  }

  lemma OtherClientFollows(s: System.State, reply: Reply, pushAccepted: bool, n: nat, d: Dialogue)
    requires PassFits(s.pass) && s.pass.i >= 1
    requires System.Enabled(s, System.Visit(reply, pushAccepted)) && Follows(s, n, d)
    requires !OpenAs(s, s.pass.server.polls[s.pass.i].fd, n)
    ensures Follows(System.VisitStep(s, reply, pushAccepted), n, d)
  {
    VisitOfClient(s.pass, reply);
    ClientStep(s, reply, pushAccepted);
    OthersFollow(s, System.VisitStep(s, reply, pushAccepted), n, d);
  }

  /** A session that waits for inference is not served, and only a submission makes a session wait. */
  lemma WaitingChanges(s: ClientSession, e: PollEntry, reply: Reply)
    requires SessionFits(s) && (s.state.InferencePending? ==> Idle(e))
    ensures var next := SessionAfter(s, e, reply);
            var submits := e.gotIn && HandleClientData(s, reply.recv).submitted.Some?;
            next.Some? ==>
              && (submits ==> !s.state.InferencePending? && next.value.state.InferencePending?)
              && (!submits ==> (next.value.state.InferencePending? <==> s.state.InferencePending?))
  {
    if e.gotIn { ReadVisitFits(s, reply.recv); }
  }

  lemma ClientLives(d: Dialogue, s: ClientSession, e: PollEntry, reply: Reply, tasks: seq<InferenceTask>)
    requires Lives(d) && Life(d.events).value.open && Life(d.events).value.session == s && SessionFits(s)
    requires tasks != [] <==> e.gotIn && HandleClientData(s, reply.recv).submitted.Some?
    requires tasks != [] ==> |tasks| == 1 && HandleClientData(s, reply.recv).submitted == Some(tasks[0].data)
    ensures var after := d.(events := d.events + VisitEvents(e, reply), requests := d.requests + tasks);
            var next := SessionAfter(s, e, reply);
            && Lives(after)
            && (next.Some? ==> Life(after.events).value.open && Life(after.events).value.session == next.value)
  {
    assert d.requests + [] == d.requests && d.events + [] == d.events;
    if e.gotIn {
      ReadExtends(d, reply.recv, if tasks == [] then InferenceTask(0, [], 0) else tasks[0]);
      if tasks != [] { assert tasks == [tasks[0]]; }
    } else if e.gotOut {
      LifeExtends(d.events, WriteVisit(reply.send));
    }
  }

  lemma ClientFollows(s: System.State, reply: Reply, pushAccepted: bool, n: nat, d: Dialogue)
    requires SystemInvariant.Inv(s) && SystemTheorems.Numbered(s)
    requires s.pass.i >= 1 && System.Enabled(s, System.Visit(reply, pushAccepted)) && Follows(s, n, d)
    requires OpenAs(s, s.pass.server.polls[s.pass.i].fd, n)
    ensures Follows(System.VisitStep(s, reply, pushAccepted), n, Continue(d, s, System.Visit(reply, pushAccepted), n))
  {
    var r, e := System.VisitStep(s, reply, pushAccepted), s.pass.server.polls[s.pass.i];
    var session, tasks := s.pass.server.sessions[e.fd], Submitted(Server.Visit(s.pass, reply));
    assert Current(s, e.fd, d);
    assert QuietIfPending(s.pass.server, s.pass.i);
    VisitOfClient(s.pass, reply);
    ClientStep(s, reply, pushAccepted);
    ReadVisitFits(session, reply.recv);
    WaitingChanges(session, e, reply);
    ClientLives(d, session, e, reply, tasks);
    MineFollows(s, r, n, e.fd, Continue(d, s, System.Visit(reply, pushAccepted), n));
  }

  lemma StepFollows(s: System.State, a: System.Action, n: nat, d: Dialogue)
    requires SystemInvariant.Inv(s) && SystemTheorems.Numbered(s) && System.Enabled(s, a) && Follows(s, n, d)
    ensures Follows(System.Apply(s, a), n, Continue(d, s, a, n))
  {
    if a.HandleResponse? {
      ResponseFollows(s, n, d);
    } else if !a.Visit? {
      QuietStepFollows(s, a, n, d);
    } else if s.pass.i == 0 {
      AcceptFollows(s, a.reply, a.pushAccepted, n, d);
    } else if OpenAs(s, s.pass.server.polls[s.pass.i].fd, n) {
      ClientFollows(s, a.reply, a.pushAccepted, n, d);
    } else {
      OtherClientFollows(s, a.reply, a.pushAccepted, n, d);
    }
  }

  lemma {:induction false} RunFollows(listener: int, workers: nat, batchSize: nat, actions: seq<System.Action>, n: nat)
    requires System.Run(System.Start(listener, workers, batchSize), actions).Some?
    ensures var start := System.Start(listener, workers, batchSize);
            var s := System.Run(start, actions).value;
            SystemInvariant.Inv(s) && SystemTheorems.Numbered(s) && Follows(s, n, DialogueOf(start, actions, n))
  {
    var start := System.Start(listener, workers, batchSize);
    SystemInvariant.StartInv(listener, workers, batchSize);
    SystemInvariant.RunsKeepInv(start, actions);
    SystemTheorems.RunsKeepNumbers(start, actions);
    if actions != [] {
      var before := actions[..|actions| - 1];
      RunFollows(listener, workers, batchSize, before, n);
      StepFollows(System.Run(start, before).value, actions[|actions| - 1], n, DialogueOf(start, before, n));
    }
  }

  // ----- what the engine answered -----

  /** Action a runs the request: its worker has it next. */
  predicate Runs(s: System.State, a: System.Action, id: nat) {
    && a.RunTask? && a.w < |s.workers| && s.workers[a.w].next < |s.workers[a.w].batch|
    && s.workers[a.w].batch[s.workers[a.w].next].requestId == id
  }

  /** The engine's answer to request `id`: the response of the last action of the run that runs it. */
  function AnswerTo(start: System.State, actions: seq<System.Action>, id: nat): Option<seq<byte>> {
    if actions == [] then None
    else
      var before, a := actions[..|actions| - 1], actions[|actions| - 1];
      var s := System.Run(start, before);
      if s.Some? && Runs(s.value, a, id) then Some(a.response) else AnswerTo(start, before, id)
  }

  predicate ResultsAnswer(start: System.State, actions: seq<System.Action>, results: seq<InferenceResult>) {
    forall p :: 0 <= p < |results| ==> AnswerTo(start, actions, results[p].requestId) == Some(results[p].response)
  }

  /** A request that has a result is not run again. */
  lemma RunOnce(s: System.State, a: System.Action, p: nat)
    requires SystemInvariant.Inv(s) && System.Enabled(s, a) && p < |s.results|
    ensures !Runs(s, a, s.results[p].requestId)
  {
    assert SystemInvariant.ResultFits(s, p);
    if a.RunTask? { assert SystemInvariant.WorkerFits(s, a.w); }
  }

  lemma AnswerAppends(start: System.State, before: seq<System.Action>, a: System.Action, id: nat)
    requires System.Run(start, before).Some?
    ensures AnswerTo(start, before + [a], id)
         == if Runs(System.Run(start, before).value, a, id) then Some(a.response) else AnswerTo(start, before, id)
  {
    assert (before + [a])[..|before|] == before;
  }

  /** A step adds no result but that of the request it runs. */
  lemma ResultsAppend(s: System.State, a: System.Action, p: nat)
    requires System.Enabled(s, a) && p < |System.Apply(s, a).results|
    ensures s.results <= System.Apply(s, a).results
    ensures p >= |s.results| ==>
              var r := System.Apply(s, a).results[p]; Runs(s, a, r.requestId) && r.response == a.response
  {
  }

  lemma StepAnswers(start: System.State, before: seq<System.Action>, a: System.Action)
    requires System.Run(start, before).Some?
    requires var s := System.Run(start, before).value;
             SystemInvariant.Inv(s) && System.Enabled(s, a) && ResultsAnswer(start, before, s.results)
    ensures ResultsAnswer(start, before + [a], System.Apply(System.Run(start, before).value, a).results)
  {
    var s := System.Run(start, before).value;
    var results := System.Apply(s, a).results;
    forall p | 0 <= p < |results|
      ensures AnswerTo(start, before + [a], results[p].requestId) == Some(results[p].response)
    {
      AnswerAppends(start, before, a, results[p].requestId);
      ResultsAppend(s, a, p);
      if p < |s.results| { RunOnce(s, a, p); }
    }
  }

  /** In every run, every result carries what the engine answered to its request. */
  lemma {:induction false} ResultsAreAnswers(listener: int, workers: nat, batchSize: nat, actions: seq<System.Action>)
    requires System.Run(System.Start(listener, workers, batchSize), actions).Some?
    ensures var start := System.Start(listener, workers, batchSize);
            ResultsAnswer(start, actions, System.Run(start, actions).value.results)
  {
    var start := System.Start(listener, workers, batchSize);
    if actions != [] {
      var before, a := actions[..|actions| - 1], actions[|actions| - 1];
      ResultsAreAnswers(listener, workers, batchSize, before);
      SystemInvariant.StartInv(listener, workers, batchSize);
      SystemInvariant.RunsKeepInv(start, before);
      StepAnswers(start, before, a);
      assert before + [a] == actions;
    }
  }

  lemma ResultsGrow(s: System.State, a: System.Action)
    requires System.Enabled(s, a)
    ensures s.results <= System.Apply(s, a).results
  {
  }

  predicate AllFrom(answers: seq<InferenceResult>, results: seq<InferenceResult>) {
    forall k :: 0 <= k < |answers| ==> answers[k] in results
  }

  /** What was handed back to a connection came out of the result queue. */
  lemma {:induction false} AnswersAreResults(start: System.State, actions: seq<System.Action>, n: nat)
    requires System.Run(start, actions).Some?
    ensures AllFrom(DialogueOf(start, actions, n).answers, System.Run(start, actions).value.results)
  {
    if actions != [] {
      var before, a := actions[..|actions| - 1], actions[|actions| - 1];
      var s := System.Run(start, before).value;
      AnswersAreResults(start, before, n);
      ResultsGrow(s, a);
      var results := System.Apply(s, a).results;
      forall x | x in s.results ensures x in results {
        var p :| 0 <= p < |s.results| && s.results[p] == x;
        assert results[p] == x;
      }
    }
  }

  /** The k-th result is the engine's answer to the k-th request. */
  predicate AnsweredBy(d: Dialogue, start: System.State, actions: seq<System.Action>)
    requires InOrder(d)
  {
    forall k :: 0 <= k < |d.answers| ==>
      AnswerTo(start, actions, d.requests[k].requestId) == Some(d.answers[k].response)
  }

  /**
   What a connection gets. If the bytes read are a prefix of the frames of ps, the requests are
   the first of ps, all of them once everything is read; the k-th result is what the engine
   answered to the k-th request, at most one request is unanswered, and the bytes sent are a
   prefix of these responses in order. The connection is open unless a fatal event happened.
   */
  predicate Served(d: Dialogue, ps: seq<seq<byte>>, start: System.State, actions: seq<System.Action>) {
    && Life(d.events).Some?
    && var c := Life(d.events).value;
       && (Payloads(ps) && c.consumed <= Encode(ps) ==>
             Bodies(d.requests) <= ps && (c.consumed == Encode(ps) ==> Bodies(d.requests) == ps))
       && InOrder(d) && |d.requests| <= |d.answers| + 1 && AnsweredBy(d, start, actions)
       && c.sent <= Concat(Responses(d.answers))
       && (c.open <==> NoneFatal(d.events))
  }

  lemma DialogueAnswered(listener: int, workers: nat, batchSize: nat, actions: seq<System.Action>, n: nat)
    requires System.Run(System.Start(listener, workers, batchSize), actions).Some?
    requires InOrder(DialogueOf(System.Start(listener, workers, batchSize), actions, n))
    ensures var start := System.Start(listener, workers, batchSize);
            AnsweredBy(DialogueOf(start, actions, n), start, actions)
  {
    var start := System.Start(listener, workers, batchSize);
    var d, results := DialogueOf(start, actions, n), System.Run(start, actions).value.results;
    ResultsAreAnswers(listener, workers, batchSize, actions);
    AnswersAreResults(start, actions, n);
    forall k | 0 <= k < |d.answers|
      ensures AnswerTo(start, actions, d.requests[k].requestId) == Some(d.answers[k].response)
    {
      assert d.answers[k] in results;
      var p :| 0 <= p < |results| && results[p] == d.answers[k];
    }
  }

  /** End to end: every connection of every run is served, whatever its client framed. */
  lemma RequestsAndReplies(listener: int, workers: nat, batchSize: nat, actions: seq<System.Action>, n: nat,
                           ps: seq<seq<byte>>)
    requires System.Run(System.Start(listener, workers, batchSize), actions).Some?
    ensures var start := System.Start(listener, workers, batchSize);
            Served(DialogueOf(start, actions, n), ps, start, actions)
  {
    var d := DialogueOf(System.Start(listener, workers, batchSize), actions, n);
    RunFollows(listener, workers, batchSize, actions, n);
    SentIsAnswered(d.events);
    OpenExactlyWhen(d.events);
    DialogueAnswered(listener, workers, batchSize, actions, n);
    if Payloads(ps) && Life(d.events).value.consumed <= Encode(ps) {
      FramingRoundTrip(d.events, ps);
    }
  }
}
