/**
 Every client that has said hello and lost no message sees exactly the broker's pending
 accept session, by folding the accept.mode and accept.clear messages it received.
 */
module AcceptView {
  import opened Wrappers
  import opened Wire
  import opened Broker

  /** The banner a client shows: the session, what it wants, and its prompt. */
  datatype Mode = Mode(session: string, ptypes: seq<string>, prompt: string)

  /** A mode message replaces the banner; a clear removes it when it names the session shown. */
  function See(v: Option<Mode>, m: Msg): Option<Mode> {
    match m
    case AcceptMode(session, ptypes, prompt) => Some(Mode(session, ptypes, prompt))
    case AcceptClear(session, _) => if v.Some? && v.value.session == session then None else v
    case _ => v
  }

  function View(ms: seq<Msg>): Option<Mode> {
    if ms == [] then None else See(View(ms[..|ms| - 1]), ms[|ms| - 1])
  }

  function Current(s: State): Option<Mode> {
    if s.session.None? then None
    else Some(Mode(s.session.value.id, s.session.value.ptypes, s.session.value.prompt))
  }

  /** Everyone sees cur, except that a client which never said hello may have missed its announcement. */
  ghost predicate Agree(s: State, cur: Option<Mode>) {
    forall id | id in s.clients ::
      View(s.clients[id].sent) == cur || (!s.clients[id].greeted && View(s.clients[id].sent) == None)
  }

  predicate Unrelated(m: Msg) { !m.AcceptMode? && !m.AcceptClear? }

  lemma {:induction false} ViewAfter(c: Conn, m: Msg)
    ensures View(Enqueue(c, m).sent) == See(View(c.sent), m)
  {
    assert (c.sent + [m])[..|c.sent|] == c.sent;
  }

  lemma {:induction false} SendAgrees(s: State, id: nat, m: Msg, cur: Option<Mode>)
    requires Agree(s, cur) && Unrelated(m)
    ensures Agree(SendTo(s, id, m), cur)
  {
    if id in s.clients { ViewAfter(s.clients[id], m); }
  }

  /** Sending the pending mode to one client makes that client agree whatever it saw before. */
  lemma {:induction false} ModeAgrees(s: State, id: nat, x: Session)
    requires forall j | j in s.clients && j != id ::
      || View(s.clients[j].sent) == Some(Mode(x.id, x.ptypes, x.prompt))
      || (!s.clients[j].greeted && View(s.clients[j].sent) == None)
    ensures Agree(SendTo(s, id, ModeOf(x)), Some(Mode(x.id, x.ptypes, x.prompt)))
  {
    if id in s.clients { ViewAfter(s.clients[id], ModeOf(x)); }
  }

  lemma {:induction false} SendAllAgrees(s: State, group: set<nat>, m: Msg, cur: Option<Mode>)
    requires Agree(s, cur) && Unrelated(m)
    ensures Agree(SendAll(s, group, m), cur)
  {
    hide View, ChannelOk;
    forall id | id in s.clients
      ensures View(Enqueue(s.clients[id], m).sent) == View(s.clients[id].sent)
    {
      ViewAfter(s.clients[id], m);
    }
  }

  lemma {:induction false} EmitAgrees(s: State, event: string, source: string, cur: Option<Mode>)
    requires Agree(s, cur)
    ensures Agree(Emit(s, event, source), cur)
  {
    SendAllAgrees(s.(eventSeq := s.eventSeq + 1), s.subs, Event(s.eventSeq + 1, event, source), cur);
  }

  lemma {:induction false} BroadcastModeAgrees(s: State, x: Session, cur: Option<Mode>)
    requires Agree(s, cur)
    ensures Agree(Broadcast(s, ModeOf(x)), Some(Mode(x.id, x.ptypes, x.prompt)))
  {
    hide View, ChannelOk;
    forall id | id in s.clients
      ensures View(Enqueue(s.clients[id], ModeOf(x)).sent) == Some(Mode(x.id, x.ptypes, x.prompt))
    {
      ViewAfter(s.clients[id], ModeOf(x));
    }
  }

  lemma {:induction false} BroadcastClearAgrees(s: State, cur: Mode, reason: string)
    requires Agree(s, Some(cur))
    ensures Agree(Broadcast(s, AcceptClear(cur.session, reason)), None)
  {
    hide View, ChannelOk;
    forall id | id in s.clients
      ensures View(Enqueue(s.clients[id], AcceptClear(cur.session, reason)).sent) == None
    {
      ViewAfter(s.clients[id], AcceptClear(cur.session, reason));
    }
  }

  /** Ending the session by any route leaves everyone seeing none. */
  lemma {:induction false} ClearAgrees(s: State, reason: string)
    requires Agree(s, Current(s))
    ensures Agree(ClearSession(s, reason), None) && ClearSession(s, reason).session == None
  {
    if s.session.Some? {
      var x := s.session.value;
      var cur := Mode(x.id, x.ptypes, x.prompt);
      var result := AcceptResult(x.no, x.id, None, reason);
      assert Agree(s.(session := None), Some(cur));
      SendAgrees(s.(session := None), x.requester, result, Some(cur));
      var told := SendTo(s.(session := None), x.requester, result);
      BroadcastClearAgrees(told, cur, reason);
      EmitAgrees(Broadcast(told, AcceptClear(x.id, reason)), "accept.cleared", "broker", None);
    }
  }

  lemma {:induction false} AnswerAgrees(s: State, who: nat, no: nat, item: Obj)
    requires s.session.Some? && who in s.clients && Agree(s, Current(s))
    ensures Agree(AnswerSession(s, who, no, item), None) && AnswerSession(s, who, no, item).session == None
  {
    var x := s.session.value;
    var cur := Mode(x.id, x.ptypes, x.prompt);
    var result := AcceptResult(x.no, x.id, Some(item), "");
    SendAgrees(s, x.requester, result, Some(cur));
    var told := SendTo(s, x.requester, result);
    SendAgrees(told, who, Done(no), Some(cur));
    var acked := SendTo(told, who, Done(no));
    EmitAgrees(acked, "accept.answered", s.clients[who].name, Some(cur));
    var traced := Emit(acked, "accept.answered", s.clients[who].name);
    assert Agree(traced.(session := None), Some(cur));
    BroadcastClearAgrees(traced.(session := None), cur, "done");
  }

  lemma {:induction false} StartAgrees(s: State, id: nat, no: nat, ptypes: seq<string>, prompt: string)
    requires id in s.clients && Agree(s, Current(s))
    ensures var t := StartAccept(s, id, no, ptypes, prompt); Agree(t, Current(t))
  {
    hide SendTo, SendAll, Broadcast, Emit, ClearSession, Agree;
    ClearAgrees(s, "superseded");
    var free := ClearSession(s, "superseded");
    if ptypes == [] {
      SendAgrees(free, id, Failed(no, "bad-request"), None);
    } else {
      var t := StartAccept(s, id, no, ptypes, prompt);
      var x := t.session.value;
      var open := free.(session := Some(x), nextSess := free.nextSess + 1);
      SameClientsAgree(free, open, None);
      BroadcastModeAgrees(open, x, None);
      EmitAgrees(Broadcast(open, ModeOf(x)), "accept.started", s.clients[id].name, Current(t));
    }
  }

  /** Saying hello late replays the pending session. */
  lemma {:induction false} GreetAgrees(s: State, id: nat, no: nat, name: string, roles: set<string>)
    requires id in s.clients && Agree(s, Current(s))
    ensures var t := Greet(s, id, no, name, roles); Agree(t, Current(t))
  {
    var cur := Current(s);
    var c := s.clients[id].(name := name, roles := s.clients[id].roles + roles, greeted := true);
    var named := s.(clients := s.clients[id := c]);
    var known := SendTo(named, id, Welcome(no));
    ViewAfter(c, Welcome(no));
    var traced := Emit(known, "client.connected", "broker");
    if s.session.None? {
      assert Agree(named, None);
      SendAgrees(named, id, Welcome(no), None);
      EmitAgrees(known, "client.connected", "broker", None);
    } else {
      var shy := named.(clients := named.clients - {id});
      assert Agree(shy, cur);
      forall j | j in traced.clients && j != id
        ensures
          View(traced.clients[j].sent) == cur || (!traced.clients[j].greeted && View(traced.clients[j].sent) == None)
      {
        ViewAfter(s.clients[j], Event(s.eventSeq + 1, "client.connected", "broker"));
      }
      ModeAgrees(traced, id, s.session.value);
    }
  }

  lemma {:induction false} InvokeAgrees(s: State, id: nat, no: nat, verb: string, item: Option<Obj>, pick: nat,
                                        cur: Option<Mode>)
    requires id in s.clients && Agree(s, cur)
    ensures Agree(Invoke(s, id, no, verb, item, pick), cur)
  {
    hide SendTo, SendAll, Emit, Agree;
    SendAgrees(s, id, Failed(no, "no-verb"), cur);
    SendAgrees(s, id, Failed(no, "owner-gone"), cur);
    SendAgrees(s, pick, VerbRun(verb, item), cur);
    var run := SendTo(s, pick, VerbRun(verb, item));
    SendAgrees(run, id, Done(no), cur);
    EmitAgrees(SendTo(run, id, Done(no)), "verb.invoked", s.clients[id].name, cur);
  }

  lemma {:induction false} MenuAgrees(s: State, id: nat, no: nat, item: Option<Obj>)
    requires id in s.clients && Agree(s, Current(s))
    ensures var t := RequestMenu(s, id, no, item); Agree(t, Current(t))
  {
    if item.None? {
      SendAgrees(s, id, Failed(no, "bad-request"), Current(s));
    } else if s.session.Some? && TypeMatches(s.session.value.ptypes, item.value.ptype) {
      AnswerAgrees(s, id, no, item.value);
    } else {
      var verbs := VerbsFor(s.verbs, item.value.ptype);
      var show := MenuShow(item.value, verbs);
      SendAllAgrees(s, WindowManagers(s), show, Current(s));
      var shown := SendAll(s, WindowManagers(s), show);
      SendAgrees(shown, id, VerbList(no, verbs), Current(s));
      SendAgrees(shown, id, Done(no), Current(s));
    }
  }

  lemma {:induction false} HandleAgrees(s0: State, id: nat, req: Request, pick: nat)
    requires id in s0.clients && Agree(s0, Current(s0))
    ensures var t := Handle(s0, id, req, pick); Agree(t, Current(t))
  {
    hide Agree, SendTo, SendAll, ClearSession, AnswerSession, StartAccept, Greet, Invoke, RequestMenu, Emit, UpsertAll;
    NotedAgrees(s0, id, req);
    var s := Noted(s0, id, req);
    var no, name, cur := req.no, s.clients[id].name, Current(s);
    match req.body {
      case Hello(newName, roles) => GreetAgrees(s, id, no, newName, roles);
      case Register(verbs) =>
        var r := s.(verbs := UpsertAll(s.verbs, verbs, name));
        SameClientsAgree(s, r, cur);
        SendAgrees(r, id, Done(no), cur);
        EmitAgrees(SendTo(r, id, Done(no)), "verbs.registered", "broker", cur);
      case Subscribe =>
        var r := s.(subs := s.subs + {id});
        SameClientsAgree(s, r, cur);
        SendAgrees(r, id, Done(no), cur);
      case AcceptStart(ptypes, prompt) => StartAgrees(s, id, no, ptypes, prompt);
      case AcceptAnswer(session, item) =>
        SendAgrees(s, id, Failed(no, "stale-answer"), cur);
        SendAgrees(s, id, Failed(no, "type-mismatch"), cur);
        if !ForeignSession(s, session) && item.Some? { AnswerAgrees(s, id, no, item.value); }
      case AcceptCancel(session) =>
        SendAgrees(s, id, Done(no), cur);
        ClearAgrees(s, "cancelled");
        SendAgrees(ClearSession(s, "cancelled"), id, Done(no), None);
      case VerbInvoke(verb, item) =>
        InvokeAgrees(s, id, no, verb, item, pick, cur);
      case MenuRequest(item) => MenuAgrees(s, id, no, item);
      case QueryVerbs(item) =>
        var all := item.None? || item.value.ptype == "";
        var reply := VerbList(no, if all then s.verbs else VerbsFor(s.verbs, item.value.ptype));
        SendAgrees(s, id, reply, cur);
      case DocHover(text) =>
        SendAllAgrees(s, WindowManagers(s), Hover(text, name), cur);
      case EventEmit(event) =>
        EmitAgrees(s, event, name, cur);
        SendAgrees(Emit(s, event, name), id, Done(no), cur);
      case Unknown(_) =>
        SendAgrees(s, id, Failed(no, "unknown-type"), cur);
    }
  }

  lemma {:induction false} NotedAgrees(s: State, id: nat, req: Request)
    requires id in s.clients && Agree(s, Current(s))
    ensures Agree(Noted(s, id, req), Current(Noted(s, id, req)))
  {
  }

  lemma {:induction false} SameClientsAgree(s: State, r: State, cur: Option<Mode>)
    requires Agree(s, cur) && r.clients == s.clients
    ensures Agree(r, cur)
  {
  }

  // ----- connections, and whole runs ----------------------------------------

  lemma {:induction false} RemoveAgrees(s: State, id: nat)
    requires Agree(s, Current(s))
    ensures var t := RemoveConn(s, id); Agree(t, Current(t))
  {
    if id in s.clients {
      var gone := s.(clients := s.clients - {id}, subs := s.subs - {id}, verbs := Without(s.verbs, s.clients[id].name));
      assert Agree(gone, Current(gone));
      ClearAgrees(gone, "requester-disconnected");
      var quiet := if gone.session.Some? && gone.session.value.requester == id
                   then ClearSession(gone, "requester-disconnected") else gone;
      EmitAgrees(quiet, "client.disconnected", "broker", Current(quiet));
    }
  }

  lemma {:induction false} NextAgrees(s: State, step: Step)
    requires Enabled(s, step) && Agree(s, Current(s))
    ensures Agree(Next(s, step), Current(Next(s, step)))
  {
    match step {
      case Connect =>
      case Receive(id, req, pick) => HandleAgrees(s, id, req, pick);
      case Disconnect(id) => RemoveAgrees(s, id);
      case WriterTakes(id) =>
    }
  }

  lemma {:induction false} RunAgrees(states: seq<State>, steps: seq<Step>, i: nat)
    requires IsRun(states, steps) && i < |states|
    ensures Agree(states[i], Current(states[i]))
  {
    if i > 0 {
      RunAgrees(states, steps, i - 1);
      assert states[i] == Next(states[i - 1], steps[i - 1]);
      NextAgrees(states[i - 1], steps[i - 1]);
    }
  }
}
