/** What holds in every state of every run of the broker. */
module BrokerRuns {
  import opened Wire
  import opened Broker
  import opened AcceptView
  import opened Replies

  /** The pending session's requester is connected. */
  ghost predicate SessionHeld(s: State) { s.session.Some? ==> s.session.value.requester in s.clients }

  lemma {:induction false} HandleSound(s0: State, id: nat, req: Request, pick: nat)
    requires id in s0.clients && Sound(s0) && SessionHeld(s0)
    ensures Sound(Handle(s0, id, req, pick)) && SessionHeld(Handle(s0, id, req, pick))
    ensures Handle(s0, id, req, pick).clients.Keys == s0.clients.Keys
  {
    hide SendTo, SendAll, ClearSession, AnswerSession, StartAccept, Greet, Invoke, RequestMenu, Emit, UpsertAll, VerbsFor,
         WindowManagers, Sound;
    var s := Noted(s0, id, req);
    var name := s.clients[id].name;
    NotedSound(s0, id, req);
    match req.body {
      case Register(verbs) => SameConnsSound(s, s.(verbs := UpsertAll(s.verbs, verbs, name)));
      case Subscribe => SameConnsSound(s, s.(subs := s.subs + {id}));
      case _ =>
    }
  }

  lemma {:induction false} NotedSound(s: State, id: nat, req: Request)
    requires id in s.clients && Sound(s)
    ensures Sound(Noted(s, id, req))
  {
  }

  lemma {:induction false} SameConnsSound(s: State, t: State)
    requires Sound(s) && t.clients == s.clients && t.nextClient == s.nextClient && t.subs <= s.clients.Keys
    ensures Sound(t)
  {
  }

  lemma {:induction false} RemoveSound(s: State, id: nat)
    requires Sound(s) && SessionHeld(s)
    ensures Sound(RemoveConn(s, id)) && SessionHeld(RemoveConn(s, id))
  {
    hide ClearSession, Emit, SendAll;
    if id in s.clients {
      var gone := s.(clients := s.clients - {id}, subs := s.subs - {id}, verbs := Without(s.verbs, s.clients[id].name));
      assert Sound(gone);
    }
  }

  /** Everything kept by every step. */
  ghost predicate Good(s: State) {
    Sound(s) && SessionHeld(s) && Accounted(s) && Agree(s, Current(s))
  }

  lemma {:induction false} NextGood(s: State, step: Step)
    requires Enabled(s, step) && Good(s)
    ensures Good(Next(s, step))
  {
    hide Agree, Accounted;
    NextAgrees(s, step);
    match step {
      case Connect => ConnectAccounts(s);
      case Receive(id, req, pick) =>
        HandleSound(s, id, req, pick);
        HandleAccounts(s, id, req, pick);
      case Disconnect(id) =>
        RemoveSound(s, id);
        RemoveAccounts(s, id);
      case WriterTakes(id) =>
        FewerAccounts(s, Take(s, id));
    }
  }

  lemma {:induction false} RunGood(states: seq<State>, steps: seq<Step>, i: nat)
    requires IsRun(states, steps) && i < |states|
    ensures Good(states[i])
  {
    if i > 0 {
      RunGood(states, steps, i - 1);
      assert states[i] == Next(states[i - 1], steps[i - 1]);
      NextGood(states[i - 1], steps[i - 1]);
    }
  }

  /** A connection that has had every message sent to it put on its channel. */
  predicate Lossless(c: Conn) { |c.log| == |c.sent| }

  lemma {:induction false} LosslessHasAll(states: seq<State>, steps: seq<Step>, i: nat, id: nat)
    requires IsRun(states, steps) && i < |states| && id in states[i].clients && Lossless(states[i].clients[id])
    ensures states[i].clients[id].log == states[i].clients[id].sent
  {
    RunGood(states, steps, i);
    WithinKeeps(states[i].clients[id].log, states[i].clients[id].sent);
  }

  /**
   Accept-view agreement: at every moment of every run, a client that has said hello and lost
   no message sees exactly the pending session.
   */
  lemma {:induction false} ViewsAgree(states: seq<State>, steps: seq<Step>, i: nat, id: nat)
    requires IsRun(states, steps) && i < |states| && id in states[i].clients
    requires states[i].clients[id].greeted && Lossless(states[i].clients[id])
    ensures View(states[i].clients[id].log) == Current(states[i])
  {
    RunGood(states, steps, i);
    LosslessHasAll(states, steps, i, id);
  }

  /**
   Exactly-once replies: at every moment of every run, for every connected client that lost no
   message and every number, the replies in its channel bearing that number, plus one if the pending
   session is that client's accept.start of that number, are as many as the messages that asked.
   */
  lemma {:induction false} RepliesExactlyOnce(states: seq<State>, steps: seq<Step>, i: nat, id: nat, no: nat)
    requires IsRun(states, steps) && i < |states| && id in states[i].clients && Lossless(states[i].clients[id])
    ensures var s := states[i];
      var due := if s.session.Some? && s.session.value.requester == id && s.session.value.no == no then 1 else 0;
      ReplyCount(s.clients[id].log, no) + due == AskCount(s.clients[id].asked, no)
  {
    RunGood(states, steps, i);
    LosslessHasAll(states, steps, i, id);
    assert BalancedAt(states[i], Owed(states[i]), id, no);
  }

  lemma {:induction false} FewerReplies(a: seq<Msg>, b: seq<Msg>, no: nat)
    requires Within(a, b)
    ensures ReplyCount(a, no) <= ReplyCount(b, no)
  {
    if b != [] {
      var rest := b[..|b| - 1];
      if Within(a, rest) { FewerReplies(a, rest, no); } else { FewerReplies(a[..|a| - 1], rest, no); }
    }
  }

  /** What a good state says of one channel, whether or not messages were lost. */
  lemma {:induction false} ChannelReplies(s: State, id: nat)
    requires Good(s) && id in s.clients
    ensures forall m | m in s.clients[id].log && IsReply(m) ::
      exists r :: r in s.clients[id].asked && r.no == m.no && Answers(m, r.body)
    ensures forall no: nat :: ReplyCount(s.clients[id].log, no) <= AskCount(s.clients[id].asked, no)
  {
    var c := s.clients[id];
    WithinKeeps(c.log, c.sent);
    forall m | m in c.log && IsReply(m)
      ensures exists r :: r in c.asked && r.no == m.no && Answers(m, r.body)
    {
      assert Answered(c.asked, m);
    }
    forall no: nat
      ensures ReplyCount(c.log, no) <= AskCount(c.asked, no)
    {
      FewerReplies(c.log, c.sent, no);
      assert BalancedAt(s, Owed(s), id, no);
    }
  }

  /**
   Even when messages are lost, every reply that arrives answers a request of that client, and no number
   gets more replies than were asked for.
   */
  lemma {:induction false} DeliveredRepliesAnswer(states: seq<State>, steps: seq<Step>, i: nat, id: nat)
    requires IsRun(states, steps) && i < |states| && id in states[i].clients
    ensures forall m | m in states[i].clients[id].log && IsReply(m) ::
      exists r :: r in states[i].clients[id].asked && r.no == m.no && Answers(m, r.body)
    ensures forall no: nat :: ReplyCount(states[i].clients[id].log, no) <= AskCount(states[i].clients[id].asked, no)
  {
    RunGood(states, steps, i);
    ChannelReplies(states[i], id);
  }

  /** The requester of the pending session is connected, and it really asked for what the session wants. */
  lemma {:induction false} PendingRequesterIsConnected(states: seq<State>, steps: seq<Step>, i: nat)
    requires IsRun(states, steps) && i < |states| && states[i].session.Some?
    ensures var x := states[i].session.value;
      && x.requester in states[i].clients && x.ptypes != []
      && Request(x.no, AcceptStart(x.ptypes, x.prompt)) in states[i].clients[x.requester].asked
  {
    RunGood(states, steps, i);
  }
}
