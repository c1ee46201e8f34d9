/**
 Exactly-once replies: every message a connected client sent, mouse hovering excepted, gets one
 reply bearing its number, of a kind that answers it; the only one that may still be due is the
 reply to the accept.start of the pending session.
 */
module Replies {
  import opened Wrappers
  import opened Wire
  import Ids
  import opened Broker

  /** How many replies in ms bear this number. */
  function ReplyCount(ms: seq<Msg>, no: nat): nat {
    if ms == [] then 0
    else
      var last := ms[|ms| - 1];
      ReplyCount(ms[..|ms| - 1], no) + (if IsReply(last) && last.no == no then 1 else 0)
  }

  /** How many of these requests want a reply bearing this number. */
  function AskCount(reqs: seq<Request>, no: nat): nat {
    if reqs == [] then 0
    else
      var last := reqs[|reqs| - 1];
      AskCount(reqs[..|reqs| - 1], no) + (if !last.body.DocHover? && last.no == no then 1 else 0)
  }

  /** A reply still due: to whom, and the number it must bear. */
  datatype Debt = Debt(id: nat, no: nat)

  ghost predicate BalancedAt(s: State, d: multiset<Debt>, id: nat, no: nat)
    requires id in s.clients
  {
    ReplyCount(s.clients[id].sent, no) + d[Debt(id, no)] == AskCount(s.clients[id].asked, no)
  }

  /** Replies sent and replies due make up exactly the replies asked for, client by client, number by number. */
  ghost predicate Balanced(s: State, d: multiset<Debt>) {
    forall id, no: nat | id in s.clients :: BalancedAt(s, d, id, no)
  }

  ghost predicate Answered(asked: seq<Request>, m: Msg) {
    IsReply(m) ==> exists r :: r in asked && r.no == m.no && Answers(m, r.body)
  }

  /** Every reply ever sent to a connected client answers something that client asked. */
  ghost predicate Fitting(s: State) {
    forall id, m | id in s.clients && m in s.clients[id].sent :: Answered(s.clients[id].asked, m)
  }

  ghost predicate Settled(s: State, d: multiset<Debt>) { Balanced(s, d) && Fitting(s) }

  /** The pending session is the requester's own accept.start. */
  ghost predicate Asked(s: State, x: Session) {
    x.requester in s.clients ==>
      x.ptypes != [] && Request(x.no, AcceptStart(x.ptypes, x.prompt)) in s.clients[x.requester].asked
  }

  function Owed(s: State): multiset<Debt> {
    if s.session.None? then multiset{} else multiset{Debt(s.session.value.requester, s.session.value.no)}
  }

  ghost predicate SessionAsked(s: State) { s.session.Some? ==> Asked(s, s.session.value) }

  // ----- what one send does -------------------------------------------------

  lemma {:induction false} CountAfter(c: Conn, m: Msg, no: nat)
    ensures ReplyCount(Enqueue(c, m).sent, no) == ReplyCount(c.sent, no) + (if IsReply(m) && m.no == no then 1 else 0)
  {
    assert (c.sent + [m])[..|c.sent|] == c.sent;
  }

  lemma {:induction false} SendPays(s: State, id: nat, m: Msg, d: multiset<Debt>, r: Request)
    requires id in s.clients && IsReply(m) && Settled(s, d + multiset{Debt(id, m.no)})
    requires r in s.clients[id].asked && r.no == m.no && Answers(m, r.body)
    ensures Settled(SendTo(s, id, m), d)
  {
    var t := SendTo(s, id, m);
    forall j, no: nat | j in t.clients
      ensures BalancedAt(t, d, j, no)
    {
      assert BalancedAt(s, d + multiset{Debt(id, m.no)}, j, no);
      CountAfter(s.clients[id], m, no);
    }
    forall j, k | j in t.clients && k in t.clients[j].sent
      ensures Answered(t.clients[j].asked, k)
    {
      if k in s.clients[j].sent { assert Answered(s.clients[j].asked, k); }
    }
  }

  /** To a client that is gone, a reply pays a debt nobody holds. */
  lemma {:induction false} GoneOwesNothing(s: State, d: multiset<Debt>, gone: Debt)
    requires gone.id !in s.clients && Settled(s, d + multiset{gone})
    ensures Settled(s, d)
  {
    forall j, no: nat | j in s.clients
      ensures BalancedAt(s, d, j, no)
    {
      assert BalancedAt(s, d + multiset{gone}, j, no);
    }
  }

  lemma {:induction false} SendKeeps(s: State, id: nat, m: Msg, d: multiset<Debt>)
    requires !IsReply(m) && Settled(s, d)
    ensures Settled(SendTo(s, id, m), d)
  {
    if id in s.clients { SendAllKeeps(s, {id}, m, d); assert SendAll(s, {id}, m) == SendTo(s, id, m); }
  }

  lemma {:induction false} SendAllKeeps(s: State, group: set<nat>, m: Msg, d: multiset<Debt>)
    requires !IsReply(m) && Settled(s, d)
    ensures Settled(SendAll(s, group, m), d)
  {
    var t := SendAll(s, group, m);
    forall j, no: nat | j in t.clients
      ensures BalancedAt(t, d, j, no)
    {
      assert BalancedAt(s, d, j, no);
      CountAfter(s.clients[j], m, no);
    }
    forall j, k | j in t.clients && k in t.clients[j].sent
      ensures Answered(t.clients[j].asked, k)
    {
      if k in s.clients[j].sent { assert Answered(s.clients[j].asked, k); }
    }
  }

  lemma {:induction false} EmitKeeps(s: State, event: string, source: string, d: multiset<Debt>)
    requires Settled(s, d)
    ensures Settled(Emit(s, event, source), d)
  {
    SameClientsSettled(s, s.(eventSeq := s.eventSeq + 1), d);
    SendAllKeeps(s.(eventSeq := s.eventSeq + 1), s.subs, Event(s.eventSeq + 1, event, source), d);
  }

  /** Sends keep what every client asked, so sessions stay their requesters' own. */
  ghost predicate SameAsked(s: State, t: State) {
    s.clients.Keys == t.clients.Keys && forall id | id in s.clients :: t.clients[id].asked == s.clients[id].asked
  }

  lemma {:induction false} SendSameAsked(s: State, id: nat, m: Msg)
    ensures SameAsked(s, SendTo(s, id, m))
  {
  }

  lemma {:induction false} SendAllSameAsked(s: State, group: set<nat>, m: Msg)
    ensures SameAsked(s, SendAll(s, group, m))
  {
  }

  lemma {:induction false} EmitSameAsked(s: State, event: string, source: string)
    ensures SameAsked(s, Emit(s, event, source))
  {
    SendAllSameAsked(s.(eventSeq := s.eventSeq + 1), s.subs, Event(s.eventSeq + 1, event, source));
  }

  lemma {:induction false} NotedOwes(s: State, id: nat, req: Request, d: multiset<Debt>)
    requires id in s.clients && Settled(s, d)
    ensures Settled(Noted(s, id, req), if req.body.DocHover? then d else d + multiset{Debt(id, req.no)})
    ensures req in Noted(s, id, req).clients[id].asked
    ensures SessionAsked(s) ==> SessionAsked(Noted(s, id, req))
  {
    var t := Noted(s, id, req);
    var after := if req.body.DocHover? then d else d + multiset{Debt(id, req.no)};
    var reqs := s.clients[id].asked;
    assert (reqs + [req])[..|reqs|] == reqs;
    forall j, no: nat | j in t.clients
      ensures BalancedAt(t, after, j, no)
    {
      assert BalancedAt(s, d, j, no);
    }
    forall j, k | j in t.clients && k in t.clients[j].sent
      ensures Answered(t.clients[j].asked, k)
    {
      assert Answered(s.clients[j].asked, k);
    }
  }

  // ----- ending and starting sessions ---------------------------------------

  /** The reply that ends a session pays exactly the debt the session stood for. */
  lemma {:induction false} ResultPays(s: State, x: Session, item: Option<Obj>, reason: string, d: multiset<Debt>)
    requires Settled(s, d + multiset{Debt(x.requester, x.no)}) && Asked(s, x)
    requires item.Some? ==> TypeMatches(x.ptypes, item.value.ptype)
    ensures Settled(SendTo(s, x.requester, AcceptResult(x.no, x.id, item, reason)), d)
  {
    if x.requester in s.clients {
      SendPays(s, x.requester, AcceptResult(x.no, x.id, item, reason), d, Request(x.no, AcceptStart(x.ptypes, x.prompt)));
    } else {
      GoneOwesNothing(s, d, Debt(x.requester, x.no));
    }
  }

  lemma {:induction false} ClearSettles(s: State, reason: string, d: multiset<Debt>)
    requires Settled(s, d + Owed(s)) && SessionAsked(s)
    ensures Settled(ClearSession(s, reason), d) && SameAsked(s, ClearSession(s, reason))
    ensures ClearSession(s, reason).session == None
  {
    hide SendTo, SendAll, Emit, Balanced, Fitting;
    if s.session.Some? {
      var x := s.session.value;
      var free := s.(session := None);
      SameClientsSettled(s, free, d + multiset{Debt(x.requester, x.no)});
      ResultPays(free, x, None, reason, d);
      var told := SendTo(free, x.requester, AcceptResult(x.no, x.id, None, reason));
      SendSameAsked(free, x.requester, AcceptResult(x.no, x.id, None, reason));
      SendAllKeeps(told, told.clients.Keys, AcceptClear(x.id, reason), d);
      SendAllSameAsked(told, told.clients.Keys, AcceptClear(x.id, reason));
      EmitKeeps(Broadcast(told, AcceptClear(x.id, reason)), "accept.cleared", "broker", d);
      EmitSameAsked(Broadcast(told, AcceptClear(x.id, reason)), "accept.cleared", "broker");
    } else {
      assert d + Owed(s) == d;
    }
  }

  lemma {:induction false} SameClientsSettled(s: State, t: State, d: multiset<Debt>)
    requires Settled(s, d) && t.clients == s.clients
    ensures Settled(t, d)
  {
    forall j, no: nat | j in t.clients
      ensures BalancedAt(t, d, j, no)
    {
      assert BalancedAt(s, d, j, no);
    }
  }

  lemma {:induction false} AnswerSettles(s: State, who: nat, req: Request, item: Obj)
    requires s.session.Some? && who in s.clients && SessionAsked(s)
    requires TypeMatches(s.session.value.ptypes, item.ptype)
    requires req in s.clients[who].asked && Answers(Done(req.no), req.body)
    requires Settled(s, Owed(s) + multiset{Debt(who, req.no)})
    ensures Settled(AnswerSession(s, who, req.no, item), multiset{})
    ensures AnswerSession(s, who, req.no, item).session == None
  {
    hide SendTo, SendAll, Emit, Balanced, Fitting;
    var x := s.session.value;
    var result := AcceptResult(x.no, x.id, Some(item), "");
    var mine := multiset{Debt(who, req.no)};
    assert Owed(s) + mine == mine + multiset{Debt(x.requester, x.no)};
    ResultPays(s, x, Some(item), "", mine);
    SendSameAsked(s, x.requester, result);
    var told := SendTo(s, x.requester, result);
    assert mine == multiset{} + multiset{Debt(who, req.no)};
    SendPays(told, who, Done(req.no), multiset{}, req);
    var acked := SendTo(told, who, Done(req.no));
    EmitKeeps(acked, "accept.answered", s.clients[who].name, multiset{});
    var traced := Emit(acked, "accept.answered", s.clients[who].name);
    SameClientsSettled(traced, traced.(session := None), multiset{});
    SendAllKeeps(traced.(session := None), traced.clients.Keys, AcceptClear(x.id, "done"), multiset{});
  }

  // ----- every step ---------------------------------------------------------

  /** Replies sent and the one due from the pending session account for everything asked. */
  ghost predicate Accounted(s: State) { Settled(s, Owed(s)) && SessionAsked(s) }

  /** The request being handled is on record and its reply is due besides the session's. */
  ghost predicate Handling(s: State, id: nat, req: Request) {
    && id in s.clients && SessionAsked(s)
    && req in s.clients[id].asked && Settled(s, Owed(s) + multiset{Debt(id, req.no)})
  }

  /** Replying at once and doing nothing else. */
  lemma {:induction false} ReplyAccounts(s: State, id: nat, req: Request, m: Msg)
    requires Handling(s, id, req) && IsReply(m) && m.no == req.no && Answers(m, req.body)
    ensures Accounted(SendTo(s, id, m))
  {
    hide SendTo;
    SendPays(s, id, m, Owed(s), req);
    SendSameAsked(s, id, m);
  }

  lemma {:induction false} EmitAccounts(s: State, event: string, source: string)
    requires Accounted(s)
    ensures Accounted(Emit(s, event, source))
  {
    hide Emit;
    EmitKeeps(s, event, source, Owed(s));
    EmitSameAsked(s, event, source);
  }

  lemma {:induction false} SendAccounts(s: State, id: nat, m: Msg)
    requires Accounted(s) && !IsReply(m)
    ensures Accounted(SendTo(s, id, m))
  {
    hide SendTo;
    SendKeeps(s, id, m, Owed(s));
    SendSameAsked(s, id, m);
  }

  lemma {:induction false} SendHandles(s: State, id: nat, req: Request, to: nat, m: Msg)
    requires Handling(s, id, req) && !IsReply(m)
    ensures Handling(SendTo(s, to, m), id, req)
  {
    hide SendTo;
    SendKeeps(s, to, m, Owed(s) + multiset{Debt(id, req.no)});
    SendSameAsked(s, to, m);
  }

  lemma {:induction false} SendAllHandles(s: State, id: nat, req: Request, group: set<nat>, m: Msg)
    requires Handling(s, id, req) && !IsReply(m)
    ensures Handling(SendAll(s, group, m), id, req)
  {
    hide SendAll;
    SendAllKeeps(s, group, m, Owed(s) + multiset{Debt(id, req.no)});
    SendAllSameAsked(s, group, m);
  }

  /** Changing the registry, the subscriptions or a client's name changes no account. */
  lemma {:induction false} SameTrafficHandles(s: State, t: State, id: nat, req: Request)
    requires Handling(s, id, req) && t.session == s.session && t.clients.Keys == s.clients.Keys
    requires forall j | j in s.clients :: t.clients[j].asked == s.clients[j].asked && t.clients[j].sent == s.clients[j].sent
    ensures Handling(t, id, req)
  {
    var d := Owed(s) + multiset{Debt(id, req.no)};
    forall j, no: nat | j in t.clients
      ensures BalancedAt(t, d, j, no)
    {
      assert BalancedAt(s, d, j, no);
    }
  }

  lemma {:induction false} StartAccounts(s: State, id: nat, req: Request)
    requires Handling(s, id, req) && req.body.AcceptStart?
    ensures Accounted(StartAccept(s, id, req.no, req.body.ptypes, req.body.prompt))
  {
    hide SendTo, SendAll, Broadcast, Emit, Balanced, Fitting, ClearSession;
    var mine := multiset{Debt(id, req.no)};
    var ptypes := req.body.ptypes;
    assert Owed(s) + mine == mine + Owed(s);
    ClearSettles(s, "superseded", mine);
    var free := ClearSession(s, "superseded");
    if ptypes == [] {
      assert mine == multiset{} + multiset{Debt(id, req.no)};
      SendPays(free, id, Failed(req.no, "bad-request"), multiset{}, req);
    } else {
      var t := StartAccept(s, id, req.no, ptypes, req.body.prompt);
      var x := Session(Ids.SessionName(free.nextSess + 1), id, req.no, ptypes, req.body.prompt);
      var open := free.(session := Some(x), nextSess := free.nextSess + 1);
      SameClientsSettled(free, open, mine);
      BroadcastKeeps(open, ModeOf(x), mine);
      EmitKeeps(Broadcast(open, ModeOf(x)), "accept.started", s.clients[id].name, mine);
      EmitSameAsked(Broadcast(open, ModeOf(x)), "accept.started", s.clients[id].name);
      assert t.session == Some(x);
    }
  }

  lemma {:induction false} BroadcastKeeps(s: State, m: Msg, d: multiset<Debt>)
    requires !IsReply(m) && Settled(s, d)
    ensures Settled(Broadcast(s, m), d) && SameAsked(s, Broadcast(s, m))
  {
    SendAllKeeps(s, s.clients.Keys, m, d);
    SendAllSameAsked(s, s.clients.Keys, m);
  }

  lemma {:induction false} GreetAccounts(s: State, id: nat, req: Request)
    requires Handling(s, id, req) && req.body.Hello?
    ensures Accounted(Greet(s, id, req.no, req.body.name, req.body.roles))
  {
    hide SendTo, SendAll, Emit, Handling, Accounted;
    assert id in s.clients by { HandlingKnows(s, id, req); }
    var c := s.clients[id].(name := req.body.name, roles := s.clients[id].roles + req.body.roles, greeted := true);
    var named := s.(clients := s.clients[id := c]);
    SameTrafficHandles(s, named, id, req);
    ReplyAccounts(named, id, req, Welcome(req.no));
    var known := SendTo(named, id, Welcome(req.no));
    EmitAccounts(known, "client.connected", "broker");
    if s.session.Some? {
      SendAccounts(Emit(known, "client.connected", "broker"), id, ModeOf(s.session.value));
    }
  }

  lemma {:induction false} HandlingKnows(s: State, id: nat, req: Request)
    requires Handling(s, id, req)
    ensures id in s.clients && req in s.clients[id].asked
  {
  }

  lemma {:induction false} InvokeAccounts(s: State, id: nat, req: Request, pick: nat)
    requires Handling(s, id, req) && req.body.VerbInvoke? && id in s.clients
    ensures Accounted(Invoke(s, id, req.no, req.body.verb, req.body.item, pick))
  {
    hide SendTo, SendAll, Emit, Handling, Accounted;
    ReplyAccounts(s, id, req, Failed(req.no, "no-verb"));
    ReplyAccounts(s, id, req, Failed(req.no, "owner-gone"));
    var run := VerbRun(req.body.verb, req.body.item);
    SendHandles(s, id, req, pick, run);
    ReplyAccounts(SendTo(s, pick, run), id, req, Done(req.no));
    EmitAccounts(SendTo(SendTo(s, pick, run), id, Done(req.no)), "verb.invoked", s.clients[id].name);
  }

  lemma {:induction false} AnswerAccounts(s: State, id: nat, req: Request, item: Obj)
    requires Handling(s, id, req) && s.session.Some? && id in s.clients
    requires TypeMatches(s.session.value.ptypes, item.ptype) && Answers(Done(req.no), req.body)
    ensures Accounted(AnswerSession(s, id, req.no, item))
  {
    hide SendTo, SendAll, Emit, Balanced, Fitting, AnswerSession;
    AnswerSettles(s, id, req, item);
  }

  lemma {:induction false} MenuAccounts(s: State, id: nat, req: Request)
    requires Handling(s, id, req) && req.body.MenuRequest? && id in s.clients
    ensures Accounted(RequestMenu(s, id, req.no, req.body.item))
  {
    hide SendTo, SendAll, Handling, Accounted, AnswerSession, VerbsFor, WindowManagers;
    var item := req.body.item;
    if item.None? {
      ReplyAccounts(s, id, req, Failed(req.no, "bad-request"));
    } else if s.session.Some? && TypeMatches(s.session.value.ptypes, item.value.ptype) {
      AnswerAccounts(s, id, req, item.value);
    } else {
      var verbs := VerbsFor(s.verbs, item.value.ptype);
      var show := MenuShow(item.value, verbs);
      SendAllHandles(s, id, req, WindowManagers(s), show);
      var shown := SendAll(s, WindowManagers(s), show);
      ReplyAccounts(shown, id, req, VerbList(req.no, verbs));
      ReplyAccounts(shown, id, req, Done(req.no));
    }
  }

  lemma {:induction false} CancelAccounts(s: State, id: nat, req: Request)
    requires Handling(s, id, req) && req.body.AcceptCancel?
    ensures Accounted(SendTo(ClearSession(s, "cancelled"), id, Done(req.no)))
  {
    hide SendTo, SendAll, Emit, Balanced, Fitting, ClearSession;
    var mine := multiset{Debt(id, req.no)};
    assert Owed(s) + mine == mine + Owed(s);
    ClearSettles(s, "cancelled", mine);
    assert mine == multiset{} + multiset{Debt(id, req.no)};
    SendPays(ClearSession(s, "cancelled"), id, Done(req.no), multiset{}, req);
  }

  lemma {:induction false} HoverAccounts(s0: State, id: nat, req: Request)
    requires id in s0.clients && Accounted(s0) && req.body.DocHover?
    ensures var s := Noted(s0, id, req);
      Accounted(SendAll(s, WindowManagers(s), Hover(req.body.text, s.clients[id].name)))
  {
    hide SendAll, Balanced, Fitting;
    var s := Noted(s0, id, req);
    NotedOwes(s0, id, req, Owed(s0));
    SendAllKeeps(s, WindowManagers(s), Hover(req.body.text, s.clients[id].name), Owed(s));
    SendAllSameAsked(s, WindowManagers(s), Hover(req.body.text, s.clients[id].name));
  }

  lemma {:induction false} EmitHandles(s: State, id: nat, req: Request, event: string, source: string)
    requires Handling(s, id, req)
    ensures Handling(Emit(s, event, source), id, req)
  {
    hide Emit;
    EmitKeeps(s, event, source, Owed(s) + multiset{Debt(id, req.no)});
    EmitSameAsked(s, event, source);
  }

  lemma {:induction false} HandleAccounts(s0: State, id: nat, req: Request, pick: nat)
    requires id in s0.clients && Accounted(s0)
    ensures Accounted(Handle(s0, id, req, pick))
  {
    hide SendTo, SendAll, ClearSession, AnswerSession, StartAccept, Greet, Invoke, RequestMenu, Emit, UpsertAll, VerbsFor,
         WindowManagers, Handling, Accounted;
    var s := Noted(s0, id, req);
    if req.body.DocHover? {
      HoverAccounts(s0, id, req);
      return;
    }
    BeginHandling(s0, id, req);
    var no, name := req.no, s.clients[id].name;
    match req.body {
      case Hello(_, _) => GreetAccounts(s, id, req);
      case Register(verbs) =>
        var r := s.(verbs := UpsertAll(s.verbs, verbs, name));
        SameTrafficHandles(s, r, id, req);
        ReplyAccounts(r, id, req, Done(no));
        EmitAccounts(SendTo(r, id, Done(no)), "verbs.registered", "broker");
      case Subscribe =>
        SameTrafficHandles(s, s.(subs := s.subs + {id}), id, req);
        ReplyAccounts(s.(subs := s.subs + {id}), id, req, Done(no));
      case AcceptStart(_, _) => StartAccounts(s, id, req);
      case AcceptAnswer(session, item) =>
        ReplyAccounts(s, id, req, Failed(no, "stale-answer"));
        ReplyAccounts(s, id, req, Failed(no, "type-mismatch"));
        if !ForeignSession(s, session) && item.Some? && TypeMatches(s.session.value.ptypes, item.value.ptype) {
          AnswerAccounts(s, id, req, item.value);
        }
      case AcceptCancel(session) =>
        ReplyAccounts(s, id, req, Done(no));
        CancelAccounts(s, id, req);
      case VerbInvoke(_, _) => InvokeAccounts(s, id, req, pick);
      case MenuRequest(_) => MenuAccounts(s, id, req);
      case QueryVerbs(item) =>
        var all := item.None? || item.value.ptype == "";
        ReplyAccounts(s, id, req, VerbList(no, if all then s.verbs else VerbsFor(s.verbs, item.value.ptype)));
      case EventEmit(event) =>
        EmitHandles(s, id, req, event, name);
        ReplyAccounts(Emit(s, event, name), id, req, Done(no));
      case Unknown(_) => ReplyAccounts(s, id, req, Failed(no, "unknown-type"));
    }
  }

  lemma {:induction false} BeginHandling(s0: State, id: nat, req: Request)
    requires id in s0.clients && Accounted(s0) && !req.body.DocHover?
    ensures Handling(Noted(s0, id, req), id, req)
  {
    NotedOwes(s0, id, req, Owed(s0));
  }

  lemma {:induction false} RemoveAccounts(s: State, id: nat)
    requires Accounted(s)
    ensures Accounted(RemoveConn(s, id))
  {
    hide Emit, ClearSession;
    if id in s.clients {
      var gone := s.(clients := s.clients - {id}, subs := s.subs - {id}, verbs := Without(s.verbs, s.clients[id].name));
      FewerAccounts(s, gone);
      if gone.session.Some? && gone.session.value.requester == id {
        assert Owed(gone) == multiset{} + Owed(gone);
        ClearSettles(gone, "requester-disconnected", multiset{});
        EmitAccounts(ClearSession(gone, "requester-disconnected"), "client.disconnected", "broker");
      } else {
        EmitAccounts(gone, "client.disconnected", "broker");
      }
    }
  }

  lemma {:induction false} FewerAccounts(s: State, t: State)
    requires Accounted(s) && t.session == s.session && t.clients.Keys <= s.clients.Keys
    requires forall j | j in t.clients :: t.clients[j].asked == s.clients[j].asked && t.clients[j].sent == s.clients[j].sent
    ensures Accounted(t)
  {
    forall j, no: nat | j in t.clients
      ensures BalancedAt(t, Owed(t), j, no)
    {
      assert BalancedAt(s, Owed(s), j, no);
    }
  }

  lemma {:induction false} ConnectAccounts(s: State)
    requires Accounted(s) && (s.session.Some? ==> s.session.value.requester <= s.nextClient)
    ensures Accounted(AddConn(s))
  {
    var t := AddConn(s);
    forall j, no: nat | j in t.clients
      ensures BalancedAt(t, Owed(t), j, no)
    {
      if j != s.nextClient + 1 { assert BalancedAt(s, Owed(s), j, no); }
    }
  }
}
