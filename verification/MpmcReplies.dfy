/**
 Replies get out of the server with the MPMC ring too, at the grain of atomic accesses: the
 network thread finishes the push it may be in, and then its poll loop does the rest.
 */
module MpmcReplies {
  import opened Core
  import opened Session
  import opened Server
  import opened QueueUse
  import opened EndToEnd
  import opened MpmcServer
  import opened MpmcServerRuns
  import Mpmc
  import MpmcSolo
  import System
  import SystemInvariant
  import SystemTheorems
  import Framing
  import Replies

  /** The visit that submits a request leaves a sending session alone. */
  lemma SubmittingVisit(s: System.State, reply: Reply, accepted: bool, fd: int, n: nat, session: ClientSession)
    requires Replies.Sound(s) && Replies.Has(s, fd, n, session) && session.state.ResponseSending?
    requires Submission(s, reply).Some?
    ensures System.Enabled(s, System.Visit(reply, accepted))
    ensures var r := System.Apply(s, System.Visit(reply, accepted));
            Replies.Sound(r) && Replies.Has(r, fd, n, session)
  {
    Replies.StepKeepsSound(s, System.Visit(reply, accepted));
    if s.pass.i == 0 {
      VisitOfListener(s.pass, reply);
    } else {
      VisitOfClient(s.pass, reply);
      ClientStep(s, reply, accepted);
    }
  }

  ghost predicate Keeps(j: Joint, fd: int, n: nat, session: ClientSession) {
    Linked(j) && Replies.Sound(j.system) && Replies.Has(j.system, fd, n, session) && session.state.ResponseSending?
  }

  lemma LabelKeeps(s: System.State, pushing: Option<Reply>, pc: Mpmc.Pc, fd: int, n: nat, session: ClientSession)
    requires Replies.Sound(s) && Replies.Has(s, fd, n, session) && session.state.ResponseSending?
    requires pushing.Some? ==> Submission(s, pushing.value).Some?
    ensures var r := Perform(s, RingLabel(pushing, 0, pc)); Replies.Sound(r) && Replies.Has(r, fd, n, session)
  {
    var did := RingLabel(pushing, 0, pc);
    if did.Some? {
      SubmittingVisit(s, did.value.reply, did.value.pushAccepted, fd, n, session);
    }
  }

  lemma PushStepKeeps(j: Joint, fd: int, n: nat, session: ClientSession)
    requires Keeps(j, fd, n, session) && 0 in j.ring.threads && !Mpmc.Free(j.ring, 0)
    ensures Keeps(Alone(j, 0), fd, n, session)
  {
    AloneLinked(j, 0);
    PushStepFacts(j);
    LabelKeeps(j.system, j.pushing, Alone(j, 0).ring.threads[0], fd, n, session);
  }

  /** The network thread finishes the push it is in. */
  lemma FinishPush(start: Joint, actions: seq<Action>, j: Joint, fd: int, n: nat, session: ClientSession,
                   answer: nat -> seq<byte>)
    returns (longer: seq<Action>, r: Joint)
    requires Leads(start, actions, j, answer) && Keeps(j, fd, n, session)
    ensures Leads(start, longer, r, answer) && Keeps(r, fd, n, session)
    ensures r.pushing.None? && Mpmc.Free(r.ring, 0)
  {
    longer, r := actions, j;
    while !Mpmc.Free(r.ring, 0)
      invariant Leads(start, longer, r, answer) && Keeps(r, fd, n, session)
      decreases MpmcSolo.Toil(r.ring, 0)
    {
      MpmcSolo.StepToils(r.ring, 0);
      AloneLinked(r, 0);
      PushStepKeeps(r, fd, n, session);
      longer := ExtendOne(start, longer, r, 0, answer);
      r := Alone(r, 0);
    }
  }

  /** The first i steps of a run of the network thread. */
  lemma {:induction false} PrefixRuns(s: System.State, acts: seq<System.Action>, i: nat)
    requires Replies.NetworkOnly(s, acts) && System.Run(s, acts).Some? && i <= |acts|
    ensures Replies.NetworkOnly(s, acts[..i]) && System.Run(s, acts[..i]).Some?
    decreases |acts| - i
  {
    if i == |acts| {
      assert acts[..i] == acts;
    } else {
      PrefixRuns(s, acts, i + 1);
      assert acts[..i + 1][..i] == acts[..i];
    }
  }

  lemma PrefixOnly(s: System.State, acts: seq<System.Action>, i: nat)
    requires Replies.NetworkOnly(s, acts) && System.Run(s, acts).Some? && i < |acts|
    ensures System.Run(s, acts[..i]).Some? && Replies.PollOrVisit(System.Run(s, acts[..i]).value, acts[i])
    ensures System.Run(s, acts[..i + 1]) == Some(System.Apply(System.Run(s, acts[..i]).value, acts[i]))
  {
    PrefixRuns(s, acts, i);
    PrefixRuns(s, acts, i + 1);
    var more := acts[..i + 1];
    assert more[..|more| - 1] == acts[..i] && more[|more| - 1] == acts[i];
  }

  /** A run of the network thread outside push is a run of the ring server. */
  lemma LiftNetwork(start: Joint, actions: seq<Action>, j: Joint, acts: seq<System.Action>, answer: nat -> seq<byte>)
    returns (longer: seq<Action>, r: Joint)
    requires Leads(start, actions, j, answer) && Linked(j) && j.pushing.None? && Mpmc.Free(j.ring, 0)
    requires System.Run(j.system, acts).Some? && Replies.NetworkOnly(j.system, acts)
    ensures Leads(start, longer, r, answer) && Linked(r) && Some(r.system) == System.Run(j.system, acts)
  {
    longer, r := actions, j;
    for i := 0 to |acts|
      invariant Leads(start, longer, r, answer) && Linked(r) && r.pushing.None? && Mpmc.Free(r.ring, 0)
      invariant Some(r.system) == System.Run(j.system, acts[..i])
    {
      PrefixOnly(j.system, acts, i);
      longer, r := NetworkStep(start, longer, r, acts[i], answer);
    }
    assert acts[..|acts|] == acts;
  }

  /** After `later`, connection n is open and waits for its next header. */
  predicate Returns(j: Joint, later: seq<Action>, fd: int, n: nat) {
    && Run(j, later).Some? && OpenAs(Run(j, later).value.system, fd, n)
    && Run(j, later).value.system.pass.server.sessions[fd].state.HeaderPending?
  }

  lemma SendOut(j: Joint, fd: int, n: nat, session: ClientSession) returns (later: seq<Action>)
    requires Keeps(j, fd, n, session) && session.response != []
    ensures Returns(j, later, fd, n)
  {
    var answer: nat -> seq<byte> := _ => [];
    var r;
    later, r := FinishPush(j, [], j, fd, n, session, answer);
    var acts, s := Replies.SendOut(r.system, fd, n);
    later, r := LiftNetwork(j, later, r, acts, answer);
  }

  lemma EmptyStays(j: Joint, later: seq<Action>, fd: int, n: nat, session: ClientSession)
    requires Keeps(j, fd, n, session) && session.response == []
    ensures !Returns(j, later, fd, n)
  {
    if Run(j, later).Some? {
      RefinesFrom(j, later);
      Replies.RunStuck(j.system, Trace(j, later), fd, n, session);
    }
  }

  lemma Reached(listener: int, workers: nat, batchSize: nat, capacity: nat, actions: seq<Action>)
    requires capacity >= 2 && Run(Start(listener, workers, batchSize, capacity), actions).Some?
    ensures var j := Run(Start(listener, workers, batchSize, capacity), actions).value;
            Linked(j) && Replies.Sound(j.system)
  {
    RefinesSystem(listener, workers, batchSize, capacity, actions);
    Replies.ReachedIsSound(listener, workers, batchSize, Trace(Start(listener, workers, batchSize, capacity), actions));
  }

  /**
   From every state the server with the MPMC ring reaches, at whatever point of a push its
   network thread is, a session that sends can come back to the next header if and only if its
   response is not empty.
   */
  lemma ReturnsExactlyWhen(listener: int, workers: nat, batchSize: nat, capacity: nat, actions: seq<Action>, fd: int,
                           n: nat)
    requires capacity >= 2 && Run(Start(listener, workers, batchSize, capacity), actions).Some?
    requires var s := Run(Start(listener, workers, batchSize, capacity), actions).value.system;
             OpenAs(s, fd, n) && s.pass.server.sessions[fd].state.ResponseSending?
    ensures var j := Run(Start(listener, workers, batchSize, capacity), actions).value;
            (exists later :: Returns(j, later, fd, n)) <==> j.system.pass.server.sessions[fd].response != []
  {
    var j := Run(Start(listener, workers, batchSize, capacity), actions).value;
    var session := j.system.pass.server.sessions[fd];
    Reached(listener, workers, batchSize, capacity, actions);
    if session.response == [] {
      forall later: seq<Action> ensures !Returns(j, later, fd, n) {
        EmptyStays(j, later, fd, n, session);
      }
    } else {
      var later := SendOut(j, fd, n, session);
      assert Returns(j, later, fd, n);
    }
  }

  /** A connection that waits for a header has sent every byte of every response. */
  lemma AllSent(listener: int, workers: nat, batchSize: nat, capacity: nat, actions: seq<Action>, fd: int, n: nat)
    requires capacity >= 2 && Run(Start(listener, workers, batchSize, capacity), actions).Some?
    requires var s := Run(Start(listener, workers, batchSize, capacity), actions).value.system;
             OpenAs(s, fd, n) && s.pass.server.sessions[fd].state.HeaderPending?
    ensures var start := Start(listener, workers, batchSize, capacity);
            && System.Run(start.system, Trace(start, actions)).Some?
            && var d := DialogueOf(start.system, Trace(start, actions), n);
               && Framing.Life(d.events).Some? && |d.answers| == |d.requests|
               && Framing.Life(d.events).value.sent == Framing.Concat(Responses(d.answers))
  {
    RefinesSystem(listener, workers, batchSize, capacity, actions);
    Replies.AllSent(listener, workers, batchSize, Trace(Start(listener, workers, batchSize, capacity), actions), fd, n);
  }
}
