/**
 Replies get out. From every state the server reaches, a session that sends can be brought back
 to the next header by the poll loop and a ready kernel, exactly when its response is not empty,
 and then every byte of every response of the connection has been sent.
 */
module Replies {
  import opened Core
  import opened Session
  import opened Server
  import opened Framing
  import opened QueueUse
  import opened EndToEnd
  import System
  import SystemInvariant
  import SystemTheorems

  /** Connection n has descriptor fd and this session. */
  predicate Has(s: System.State, fd: int, n: nat, session: ClientSession) {
    OpenAs(s, fd, n) && s.pass.server.sessions[fd] == session
  }

  ghost predicate Sound(s: System.State) {
    SystemInvariant.Inv(s) && SystemTheorems.Numbered(s)
  }

  lemma StepKeepsSound(s: System.State, a: System.Action)
    requires Sound(s) && System.Enabled(s, a)
    ensures Sound(System.Apply(s, a)) && s.nextConnection <= System.Apply(s, a).nextConnection
  {
    SystemInvariant.StepKeepsInv(s, a);
    SystemTheorems.StepKeepsNumbers(s, a);
  }

  /** The step is made by the network thread, and does not enter push. */
  predicate PollOrVisit(s: System.State, a: System.Action) {
    (a.Poll? || a.Visit?) && OutsidePush(s, a)
  }

  predicate NetworkOnly(s: System.State, actions: seq<System.Action>) {
    actions != [] ==>
      var before := actions[..|actions| - 1];
      && NetworkOnly(s, before)
      && (System.Run(s, before).Some? ==> PollOrVisit(System.Run(s, before).value, actions[|actions| - 1]))
  }

  /** The run leads from `start` to s by steps of the network thread outside push. */
  ghost predicate Leads(start: System.State, actions: seq<System.Action>, s: System.State) {
    System.Run(start, actions) == Some(s) && NetworkOnly(start, actions) && Sound(s)
  }

  lemma Extend(start: System.State, actions: seq<System.Action>, s: System.State, a: System.Action)
    returns (longer: seq<System.Action>)
    requires Leads(start, actions, s) && PollOrVisit(s, a)
    ensures Leads(start, longer, System.Apply(s, a))
  {
    longer := actions + [a];
    assert longer[..|longer| - 1] == actions;
    StepKeepsSound(s, a);
  }

  // ----- the rest of a pass -----

  lemma NothingSubmits(s: System.State)
    requires SystemInvariant.Inv(s)
    ensures Submission(s, NOTHING).None?
  {
    if s.pass.i < s.pass.size && Visitable(s.pass) {
      var e := s.pass.server.polls[s.pass.i];
      if e.fd in s.pass.server.sessions {
        assert SessionFits(s.pass.server.sessions[e.fd]);
      }
    }
  }

  /** A visit with nothing to offer leaves a sending session alone. */
  lemma QuietVisit(s: System.State, fd: int, n: nat, session: ClientSession)
    requires Sound(s) && Has(s, fd, n, session) && session.state.ResponseSending? && s.pass.i < s.pass.size
    ensures PollOrVisit(s, System.Visit(NOTHING, true))
    ensures var r := System.Apply(s, System.Visit(NOTHING, true));
            Has(r, fd, n, session) && r.pass.size - r.pass.i < s.pass.size - s.pass.i
  {
    NothingSubmits(s);
    VisitKeepsFit(s.pass, NOTHING);
    if s.pass.i == 0 {
      VisitOfListener(s.pass, NOTHING);
    } else {
      VisitOfClient(s.pass, NOTHING);
    }
  }

  lemma FinishPass(start: System.State, actions: seq<System.Action>, s: System.State, fd: int, n: nat,
                   session: ClientSession)
    returns (longer: seq<System.Action>, r: System.State)
    requires Leads(start, actions, s) && Has(s, fd, n, session) && session.state.ResponseSending?
    ensures Leads(start, longer, r) && Has(r, fd, n, session) && System.BetweenPasses(r)
  {
    longer, r := actions, s;
    while r.pass.i < r.pass.size
      invariant Leads(start, longer, r) && Has(r, fd, n, session)
      decreases r.pass.size - r.pass.i
    {
      QuietVisit(r, fd, n, session);
      longer := Extend(start, longer, r, System.Visit(NOTHING, true));
      r := System.Apply(r, System.Visit(NOTHING, true));
    }
  }

  // ----- one pass in which the client is writable -----

  function Writable(target: nat): nat -> Ready {
    i => Ready(false, i == target)
  }

  /** The pass is at entry m <= target; only the entry of the client, at `target`, has an event, which is output. */
  predicate Nearing(s: System.State, fd: int, target: nat, m: nat) {
    && s.pass.i == m <= target < s.pass.size <= |s.pass.server.polls|
    && (forall i :: m <= i < target ==> Idle(s.pass.server.polls[i]))
    && s.pass.server.polls[target].fd == fd && !s.pass.server.polls[target].gotIn && s.pass.server.polls[target].gotOut
  }

  /** poll reports the client, because its entry asks for output. */
  lemma PollWritable(s: System.State, fd: int, n: nat, session: ClientSession, target: nat)
    requires Sound(s) && System.BetweenPasses(s) && Has(s, fd, n, session) && session.state.ResponseSending?
    requires 1 <= target < |s.pass.server.polls| && s.pass.server.polls[target].fd == fd
    ensures PollOrVisit(s, System.Poll(Writable(target)))
    ensures var r := System.Apply(s, System.Poll(Writable(target)));
            Has(r, fd, n, session) && Nearing(r, fd, target, 0)
  {
    PrepareAsks(s.pass.server, target);
  }

  lemma Near(start: System.State, actions: seq<System.Action>, s: System.State, fd: int, n: nat,
             session: ClientSession, target: nat)
    returns (longer: seq<System.Action>, r: System.State)
    requires Leads(start, actions, s) && Has(s, fd, n, session) && Nearing(s, fd, target, 0)
    ensures Leads(start, longer, r) && Has(r, fd, n, session) && Nearing(r, fd, target, target)
  {
    longer, r := actions, s;
    for m := 0 to target
      invariant Leads(start, longer, r) && Has(r, fd, n, session) && Nearing(r, fd, target, m)
    {
      IdleVisit(r);
      longer := Extend(start, longer, r, System.Visit(NOTHING, true));
      r := System.Apply(r, System.Visit(NOTHING, true));
    }
  }

  /** send takes as much as it is given. */
  function Taking(count: nat): Reply {
    Reply(-1, false, false, WouldBlock, Sent(count))
  }

  lemma SendVisit(s: System.State, fd: int, n: nat, session: ClientSession, target: nat)
    requires Sound(s) && Has(s, fd, n, session) && Nearing(s, fd, target, target) && target >= 1
    requires session.state.ResponseSending? && session.response != []
    ensures var act := System.Visit(Taking(|session.response|), true);
            && PollOrVisit(s, act)
            && OpenAs(System.Apply(s, act), fd, n)
            && System.Apply(s, act).pass.server.sessions[fd].state.HeaderPending?
  {
    var reply := Taking(|session.response|);
    VisitKeepsFit(s.pass, reply);
    VisitOfClient(s.pass, reply);
  }

  /** The whole way: finish the pass, poll, come to the client, send. */
  lemma SendOut(s: System.State, fd: int, n: nat) returns (later: seq<System.Action>, r: System.State)
    requires Sound(s) && OpenAs(s, fd, n)
    requires var session := s.pass.server.sessions[fd]; session.state.ResponseSending? && session.response != []
    ensures Leads(s, later, r) && OpenAs(r, fd, n) && r.pass.server.sessions[fd].state.HeaderPending?
  {
    var session := s.pass.server.sessions[fd];
    later, r := FinishPass(s, [], s, fd, n, session);
    var target :| 1 <= target < |r.pass.server.polls| && r.pass.server.polls[target].fd == fd;
    PollWritable(r, fd, n, session, target);
    later := Extend(s, later, r, System.Poll(Writable(target)));
    r := System.Apply(r, System.Poll(Writable(target)));
    later, r := Near(s, later, r, fd, n, session, target);
    SendVisit(r, fd, n, session, target);
    later := Extend(s, later, r, System.Visit(Taking(|session.response|), true));
    r := System.Apply(r, System.Visit(Taking(|session.response|), true));
  }

  // ----- an empty response -----

  /** A session that sends nothing stays as it is for as long as its connection lasts. */
  ghost predicate Stuck(s: System.State, fd: int, n: nat, session: ClientSession) {
    && Sound(s) && n < s.nextConnection && session.state.ResponseSending? && session.response == []
    && (OpenAs(s, fd, n) ==> s.pass.server.sessions[fd] == session)
  }

  /** Whatever the kernel answers, a visit leaves a session that sends nothing alone, or closes its connection. */
  lemma EmptyVisit(session: ClientSession, e: PollEntry, reply: Reply)
    requires SessionFits(session) && session.state.ResponseSending? && session.response == []
    ensures SessionAfter(session, e, reply) == None || SessionAfter(session, e, reply) == Some(session)
  {
  }

  lemma VisitStuck(s: System.State, reply: Reply, accepted: bool, fd: int, n: nat, session: ClientSession)
    requires Stuck(s, fd, n, session) && System.Enabled(s, System.Visit(reply, accepted))
    ensures Stuck(System.Apply(s, System.Visit(reply, accepted)), fd, n, session)
  {
    StepKeepsSound(s, System.Visit(reply, accepted));
    if s.pass.i == 0 {
      VisitOfListener(s.pass, reply);
    } else {
      VisitOfClient(s.pass, reply);
      ClientStep(s, reply, accepted);
      if OpenAs(s, fd, n) { EmptyVisit(session, s.pass.server.polls[s.pass.i], reply); }
    }
  }

  lemma ResponseStuck(s: System.State, fd: int, n: nat, session: ClientSession)
    requires Stuck(s, fd, n, session) && System.Enabled(s, System.HandleResponse)
    ensures Stuck(System.Apply(s, System.HandleResponse), fd, n, session)
  {
    StepKeepsSound(s, System.HandleResponse);
    assert SystemInvariant.ResultFits(s, s.resultHead);
    assert SystemInvariant.RequestFits(s, s.results[s.resultHead].requestId);
  }

  lemma StepStuck(s: System.State, a: System.Action, fd: int, n: nat, session: ClientSession)
    requires Stuck(s, fd, n, session) && System.Enabled(s, a)
    ensures Stuck(System.Apply(s, a), fd, n, session)
  {
    if a.Visit? {
      VisitStuck(s, a.reply, a.pushAccepted, fd, n, session);
    } else if a.HandleResponse? {
      ResponseStuck(s, fd, n, session);
    } else {
      StepKeepsSound(s, a);
    }
  }

  lemma {:induction false} RunStuck(s: System.State, later: seq<System.Action>, fd: int, n: nat, session: ClientSession)
    requires Stuck(s, fd, n, session) && System.Run(s, later).Some?
    ensures Stuck(System.Run(s, later).value, fd, n, session)
  {
    if later != [] {
      RunStuck(s, later[..|later| - 1], fd, n, session);
      StepStuck(System.Run(s, later[..|later| - 1]).value, later[|later| - 1], fd, n, session);
    }
  }

  // ----- theorems -----

  /** After `later`, connection n is open and waits for its next header. */
  predicate Returns(s: System.State, later: seq<System.Action>, fd: int, n: nat) {
    && System.Run(s, later).Some? && OpenAs(System.Run(s, later).value, fd, n)
    && System.Run(s, later).value.pass.server.sessions[fd].state.HeaderPending?
  }

  lemma ReachedIsSound(listener: int, workers: nat, batchSize: nat, actions: seq<System.Action>)
    requires System.Run(System.Start(listener, workers, batchSize), actions).Some?
    ensures Sound(System.Run(System.Start(listener, workers, batchSize), actions).value)
  {
    var start := System.Start(listener, workers, batchSize);
    SystemInvariant.StartInv(listener, workers, batchSize);
    SystemInvariant.RunsKeepInv(start, actions);
    SystemTheorems.RunsKeepNumbers(start, actions);
  }

  lemma {:induction false} RunJoins(start: System.State, actions: seq<System.Action>, later: seq<System.Action>)
    requires System.Run(start, actions).Some?
    ensures System.Run(start, actions + later) == System.Run(System.Run(start, actions).value, later)
  {
    if later == [] {
      assert actions + later == actions;
    } else {
      var init, a := later[..|later| - 1], later[|later| - 1];
      RunJoins(start, actions, init);
      System.RunAppends(start, actions + init, a);
      System.RunAppends(System.Run(start, actions).value, init, a);
      assert actions + later == actions + init + [a] && later == init + [a];
    }
  }

  /** A connection that waits for a header has sent every byte of every response. */
  lemma AllSent(listener: int, workers: nat, batchSize: nat, actions: seq<System.Action>, fd: int, n: nat)
    requires System.Run(System.Start(listener, workers, batchSize), actions).Some?
    requires var s := System.Run(System.Start(listener, workers, batchSize), actions).value;
             OpenAs(s, fd, n) && s.pass.server.sessions[fd].state.HeaderPending?
    ensures var d := DialogueOf(System.Start(listener, workers, batchSize), actions, n);
            && Life(d.events).Some? && |d.answers| == |d.requests|
            && Life(d.events).value.sent == Concat(Responses(d.answers))
  {
    var start := System.Start(listener, workers, batchSize);
    var s, d := System.Run(start, actions).value, DialogueOf(start, actions, n);
    RunFollows(listener, workers, batchSize, actions, n);
    assert Current(s, fd, d);
    SentIsAnswered(d.events);
    var c := Life(d.events).value;
    assert c.session.response[c.session.bytesSent..] == [];
  }

  /**
   From every reachable state, a session that sends can come back to the next header if and
   only if its response is not empty.
   */
  lemma ReturnsExactlyWhen(listener: int, workers: nat, batchSize: nat, actions: seq<System.Action>, fd: int, n: nat)
    requires System.Run(System.Start(listener, workers, batchSize), actions).Some?
    requires var s := System.Run(System.Start(listener, workers, batchSize), actions).value;
             OpenAs(s, fd, n) && s.pass.server.sessions[fd].state.ResponseSending?
    ensures var s := System.Run(System.Start(listener, workers, batchSize), actions).value;
            (exists later :: Returns(s, later, fd, n)) <==> s.pass.server.sessions[fd].response != []
  {
    var s := System.Run(System.Start(listener, workers, batchSize), actions).value;
    var session := s.pass.server.sessions[fd];
    ReachedIsSound(listener, workers, batchSize, actions);
    if session.response == [] {
      forall later | System.Run(s, later).Some? ensures !Returns(s, later, fd, n) {
        RunStuck(s, later, fd, n, session);
      }
    } else {
      var later, r := SendOut(s, fd, n);
      assert Returns(s, later, fd, n);
    }
  }

  /**
   And the way back takes steps of the network thread alone: after it, everything the engine
   answered to the connection has been sent, byte for byte.
   */
  lemma RepliesGetOut(listener: int, workers: nat, batchSize: nat, actions: seq<System.Action>, fd: int, n: nat)
    returns (later: seq<System.Action>)
    requires System.Run(System.Start(listener, workers, batchSize), actions).Some?
    requires var s := System.Run(System.Start(listener, workers, batchSize), actions).value;
             && OpenAs(s, fd, n) && s.pass.server.sessions[fd].state.ResponseSending?
             && s.pass.server.sessions[fd].response != []
    ensures var start := System.Start(listener, workers, batchSize);
            var s := System.Run(start, actions).value;
            && NetworkOnly(s, later) && Returns(s, later, fd, n)
            && System.Run(start, actions + later) == System.Run(s, later)
            && var d := DialogueOf(start, actions + later, n);
               && Life(d.events).Some? && |d.answers| == |d.requests|
               && Life(d.events).value.sent == Concat(Responses(d.answers))
  {
    var start := System.Start(listener, workers, batchSize);
    var s, r := System.Run(start, actions).value, start;
    ReachedIsSound(listener, workers, batchSize, actions);
    later, r := SendOut(s, fd, n);
    RunJoins(start, actions, later);
    AllSent(listener, workers, batchSize, actions + later, fd, n);
  }
}
