/**
 What one step of the broker tells each client. The loop sends by recipient lists; here the same
 step is read from the receiving end: for every client, exactly which messages it is sent, in order.
 */
module Transcript {
  import opened Wrappers
  import opened Wire
  import Ids
  import opened Broker

  /** m, if the condition holds. */
  function If(c: bool, m: Msg): seq<Msg> { if c then [m] else [] }

  /** The n-th event from now, heard by subscribers. */
  function Heard(s: State, j: nat, event: string, source: string): seq<Msg> {
    If(j in s.subs, Event(s.eventSeq + 1, event, source))
  }

  /** The end of the pending session without an object. */
  function Cancelled(s: State, j: nat, reason: string): seq<Msg> {
    if s.session.None? then []
    else
      var x := s.session.value;
      If(j == x.requester, AcceptResult(x.no, x.id, None, reason)) + [AcceptClear(x.id, reason)]
      + Heard(s, j, "accept.cleared", "broker")
  }

  /** The end of the pending session with an object: only the requester gets it. */
  function Resolved(s: State, j: nat, who: nat, no: nat, item: Obj): seq<Msg>
    requires s.session.Some? && who in s.clients
  {
    var x := s.session.value;
    If(j == x.requester, AcceptResult(x.no, x.id, Some(item), "")) + If(j == who, Done(no))
    + Heard(s, j, "accept.answered", s.clients[who].name) + [AcceptClear(x.id, "done")]
  }

  /** Some connected client has this name. */
  predicate Bears(s: State, name: string) { exists k | k in s.clients :: s.clients[k].name == name }

  /** Some connected client is a window manager. */
  predicate Managed(s: State) { exists k | k in s.clients :: "wm" in s.clients[k].roles }

  /** What client j is sent when the broker handles req from client id. */
  function Told(s: State, id: nat, req: Request, pick: nat, j: nat): seq<Msg>
    requires id in s.clients && j in s.clients
  {
    var no, name := req.no, s.clients[id].name;
    var me, wm := j == id, "wm" in s.clients[j].roles;
    match req.body
    case Hello(newName, _) =>
      If(me, Welcome(no)) + Heard(s, j, "client.connected", "broker")
      + (if s.session.Some? then If(me, ModeOf(s.session.value)) else [])
    case Register(_) => If(me, Done(no)) + Heard(s, j, "verbs.registered", "broker")
    case Subscribe => If(me, Done(no))
    case AcceptStart(ptypes, prompt) =>
      Cancelled(s, j, "superseded")
      + (if ptypes == [] then If(me, Failed(no, "bad-request"))
         else [AcceptMode(Ids.SessionName(s.nextSess + 1), ptypes, prompt)]
              + If(j in s.subs, Event(s.eventSeq + (if s.session.Some? then 2 else 1), "accept.started", name)))
    case AcceptAnswer(session, item) =>
      if ForeignSession(s, session) then If(me, Failed(no, "stale-answer"))
      else if item.None? || !TypeMatches(s.session.value.ptypes, item.value.ptype) then If(me, Failed(no, "type-mismatch"))
      else Resolved(s, j, id, no, item.value)
    case AcceptCancel(session) =>
      (if ForeignSession(s, session) then [] else Cancelled(s, j, "cancelled")) + If(me, Done(no))
    case VerbInvoke(verb, item) =>
      var v := FindVerb(s.verbs, verb);
      if v.None? then If(me, Failed(no, "no-verb"))
      else if !Bears(s, v.value.owner) then If(me, Failed(no, "owner-gone"))
      else If(j == pick, VerbRun(verb, item)) + If(me, Done(no)) + Heard(s, j, "verb.invoked", name)
    case MenuRequest(item) =>
      if item.None? then If(me, Failed(no, "bad-request"))
      else if s.session.Some? && TypeMatches(s.session.value.ptypes, item.value.ptype) then Resolved(s, j, id, no, item.value)
      else
        var verbs := VerbsFor(s.verbs, item.value.ptype);
        If(wm, MenuShow(item.value, verbs))
        + If(me, if Managed(s) then Done(no) else VerbList(no, verbs))
    case QueryVerbs(item) =>
      If(me, VerbList(no, if item.None? || item.value.ptype == "" then s.verbs else VerbsFor(s.verbs, item.value.ptype)))
    case DocHover(text) => If(wm, Hover(text, name))
    case EventEmit(event) => Heard(s, j, event, name) + If(me, Done(no))
    case Unknown(_) => If(me, Failed(no, "unknown-type"))
  }

  /** j was sent exactly more, on top of what it had been sent. */
  ghost predicate Got(s: State, t: State, j: nat, more: seq<Msg>)
    requires j in s.clients
  {
    j in t.clients && t.clients[j].sent == s.clients[j].sent + more
  }

  lemma {:induction false} GotThen(s: State, t: State, u: State, j: nat, a: seq<Msg>, b: seq<Msg>)
    requires j in s.clients && Got(s, t, j, a) && Got(t, u, j, b)
    ensures Got(s, u, j, a + b)
  {
    assert (s.clients[j].sent + a) + b == s.clients[j].sent + (a + b);
  }

  lemma {:induction false} GotNothing(s: State, t: State, j: nat)
    requires j in s.clients && j in t.clients && t.clients[j].sent == s.clients[j].sent
    ensures Got(s, t, j, [])
  {
    assert s.clients[j].sent + [] == s.clients[j].sent;
  }

  lemma {:induction false} SendGot(s: State, id: nat, m: Msg, j: nat)
    requires j in s.clients
    ensures Got(s, SendTo(s, id, m), j, If(j == id, m))
  {
    if j != id { GotNothing(s, SendTo(s, id, m), j); }
  }

  lemma {:induction false} SendAllGot(s: State, group: set<nat>, m: Msg, j: nat)
    requires j in s.clients
    ensures Got(s, SendAll(s, group, m), j, If(j in group, m))
  {
    if j !in group { GotNothing(s, SendAll(s, group, m), j); }
  }

  lemma {:induction false} EmitGot(s: State, event: string, source: string, j: nat)
    requires j in s.clients
    ensures Got(s, Emit(s, event, source), j, Heard(s, j, event, source))
  {
    SendAllGot(s.(eventSeq := s.eventSeq + 1), s.subs, Event(s.eventSeq + 1, event, source), j);
  }

  lemma {:induction false} BroadcastGot(s: State, m: Msg, j: nat)
    requires j in s.clients
    ensures Got(s, Broadcast(s, m), j, [m])
  {
    SendAllGot(s, s.clients.Keys, m, j);
  }

  lemma {:induction false} ClearGot(s: State, reason: string, j: nat)
    requires j in s.clients
    ensures Got(s, ClearSession(s, reason), j, Cancelled(s, j, reason))
    ensures ClearSession(s, reason).eventSeq == s.eventSeq + (if s.session.Some? then 1 else 0)
    ensures ClearSession(s, reason).subs == s.subs && ClearSession(s, reason).nextSess == s.nextSess
  {
    hide SendTo, SendAll, Emit, Broadcast;
    if s.session.None? {
      GotNothing(s, s, j);
    } else {
      var x := s.session.value;
      var none := s.(session := None);
      var result := AcceptResult(x.no, x.id, None, reason);
      var told := SendTo(none, x.requester, result);
      var all := Broadcast(told, AcceptClear(x.id, reason));
      SendGot(none, x.requester, result, j);
      assert Got(s, told, j, If(j == x.requester, result));
      BroadcastGot(told, AcceptClear(x.id, reason), j);
      GotThen(s, told, all, j, If(j == x.requester, result), [AcceptClear(x.id, reason)]);
      EmitGot(all, "accept.cleared", "broker", j);
      GotThen(s, all, ClearSession(s, reason), j, If(j == x.requester, result) + [AcceptClear(x.id, reason)],
              Heard(all, j, "accept.cleared", "broker"));
    }
  }

  lemma {:induction false} AnswerGot(s: State, who: nat, no: nat, item: Obj, j: nat)
    requires s.session.Some? && who in s.clients && j in s.clients
    ensures Got(s, AnswerSession(s, who, no, item), j, Resolved(s, j, who, no, item))
  {
    hide SendTo, SendAll, Emit, Broadcast;
    var x := s.session.value;
    var result := AcceptResult(x.no, x.id, Some(item), "");
    var told := SendTo(s, x.requester, result);
    var acked := SendTo(told, who, Done(no));
    var traced := Emit(acked, "accept.answered", s.clients[who].name);
    SendGot(s, x.requester, result, j);
    SendGot(told, who, Done(no), j);
    GotThen(s, told, acked, j, If(j == x.requester, result), If(j == who, Done(no)));
    EmitGot(acked, "accept.answered", s.clients[who].name, j);
    GotThen(s, acked, traced, j, If(j == x.requester, result) + If(j == who, Done(no)),
            Heard(acked, j, "accept.answered", s.clients[who].name));
    BroadcastGot(traced.(session := None), AcceptClear(x.id, "done"), j);
    GotThen(s, traced, AnswerSession(s, who, no, item), j,
            If(j == x.requester, result) + If(j == who, Done(no)) + Heard(acked, j, "accept.answered", s.clients[who].name),
            [AcceptClear(x.id, "done")]);
  }

  lemma {:induction false} StartGot(s: State, id: nat, no: nat, ptypes: seq<string>, prompt: string, j: nat)
    requires id in s.clients && j in s.clients
    ensures Got(s, StartAccept(s, id, no, ptypes, prompt), j, Told(s, id, Request(no, AcceptStart(ptypes, prompt)), 0, j))
  {
    hide SendTo, SendAll, Emit, Broadcast, ClearSession, Cancelled;
    var free := ClearSession(s, "superseded");
    ClearGot(s, "superseded", j);
    if ptypes == [] {
      SendGot(free, id, Failed(no, "bad-request"), j);
      GotThen(s, free, SendTo(free, id, Failed(no, "bad-request")), j,
              Cancelled(s, j, "superseded"), If(j == id, Failed(no, "bad-request")));
    } else {
      var t := StartAccept(s, id, no, ptypes, prompt);
      var x := t.session.value;
      var open := free.(session := Some(x), nextSess := free.nextSess + 1);
      var all := Broadcast(open, ModeOf(x));
      var name := s.clients[id].name;
      BroadcastGot(open, ModeOf(x), j);
      EmitGot(all, "accept.started", name, j);
      GotThen(open, all, t, j, [ModeOf(x)], Heard(all, j, "accept.started", name));
      GotThen(s, free, t, j, Cancelled(s, j, "superseded"), [ModeOf(x)] + Heard(all, j, "accept.started", name));
    }
  }

  lemma {:induction false} GreetGot(s: State, id: nat, no: nat, name: string, roles: set<string>, j: nat)
    requires id in s.clients && j in s.clients
    ensures Got(s, Greet(s, id, no, name, roles), j, Told(s, id, Request(no, Hello(name, roles)), 0, j))
  {
    hide SendTo, SendAll, Emit;
    var c := s.clients[id].(name := name, roles := s.clients[id].roles + roles, greeted := true);
    var known := SendTo(s.(clients := s.clients[id := c]), id, Welcome(no));
    var traced := Emit(known, "client.connected", "broker");
    SendGot(s.(clients := s.clients[id := c]), id, Welcome(no), j);
    EmitGot(known, "client.connected", "broker", j);
    GotThen(s, known, traced, j, If(j == id, Welcome(no)), Heard(known, j, "client.connected", "broker"));
    if s.session.Some? {
      SendGot(traced, id, ModeOf(s.session.value), j);
      GotThen(s, traced, SendTo(traced, id, ModeOf(s.session.value)), j,
              If(j == id, Welcome(no)) + Heard(known, j, "client.connected", "broker"), If(j == id, ModeOf(s.session.value)));
    } else {
      assert Told(s, id, Request(no, Hello(name, roles)), 0, j)
          == If(j == id, Welcome(no)) + Heard(s, j, "client.connected", "broker");
    }
  }

  lemma {:induction false} InvokeGot(s: State, id: nat, no: nat, verb: string, item: Option<Obj>, pick: nat, j: nat)
    requires id in s.clients && j in s.clients
    ensures Got(s, Invoke(s, id, no, verb, item, pick), j, Told(s, id, Request(no, VerbInvoke(verb, item)), pick, j))
  {
    hide SendTo, SendAll, Emit, FindVerb, Named, Bears, If;
    SendGot(s, id, Failed(no, "no-verb"), j);
    SendGot(s, id, Failed(no, "owner-gone"), j);
    var run := SendTo(s, pick, VerbRun(verb, item));
    var acked := SendTo(run, id, Done(no));
    var name := s.clients[id].name;
    SendGot(s, pick, VerbRun(verb, item), j);
    SendGot(run, id, Done(no), j);
    GotThen(s, run, acked, j, If(j == pick, VerbRun(verb, item)), If(j == id, Done(no)));
    EmitGot(acked, "verb.invoked", name, j);
    GotThen(s, acked, Emit(acked, "verb.invoked", name), j, If(j == pick, VerbRun(verb, item)) + If(j == id, Done(no)),
            Heard(acked, j, "verb.invoked", name));
    var v := FindVerb(s.verbs, verb);
    if v.Some? { NamedBears(s, v.value.owner); }
  }

  lemma {:induction false} MenuGot(s: State, id: nat, no: nat, item: Option<Obj>, j: nat)
    requires id in s.clients && j in s.clients
    ensures Got(s, RequestMenu(s, id, no, item), j, Told(s, id, Request(no, MenuRequest(item)), 0, j))
  {
    hide SendTo, SendAll, AnswerSession, VerbsFor, Resolved, Managed, WindowManagers, If;
    SendGot(s, id, Failed(no, "bad-request"), j);
    if item.Some? && s.session.Some? && TypeMatches(s.session.value.ptypes, item.value.ptype) {
      AnswerGot(s, id, no, item.value, j);
    } else if item.Some? {
      var verbs := VerbsFor(s.verbs, item.value.ptype);
      var show := MenuShow(item.value, verbs);
      var shown := SendAll(s, WindowManagers(s), show);
      var reply := if WindowManagers(s) == {} then VerbList(no, verbs) else Done(no);
      SendAllGot(s, WindowManagers(s), show, j);
      SendGot(shown, id, reply, j);
      GotThen(s, shown, SendTo(shown, id, reply), j, If(j in WindowManagers(s), show), If(j == id, reply));
      ManagersManage(s, j);
    }
  }

  lemma {:induction false} NamedBears(s: State, name: string)
    ensures Named(s, name) == {} <==> !Bears(s, name)
  {
    assert forall k :: k in Named(s, name) <==> k in s.clients && s.clients[k].name == name;
  }

  lemma {:induction false} ManagersManage(s: State, j: nat)
    requires j in s.clients
    ensures j in WindowManagers(s) <==> "wm" in s.clients[j].roles
    ensures WindowManagers(s) == {} <==> !Managed(s)
  {
    assert forall k :: k in WindowManagers(s) <==> k in s.clients && "wm" in s.clients[k].roles;
  }

  lemma {:induction false} NotedSame(s0: State, id: nat, req: Request, name: string)
    requires id in s0.clients
    ensures Bears(Noted(s0, id, req), name) == Bears(s0, name) && Managed(Noted(s0, id, req)) == Managed(s0)
  {
    var s := Noted(s0, id, req);
    assert s.clients.Keys == s0.clients.Keys;
    if k :| k in s0.clients && s0.clients[k].name == name { assert s.clients[k].name == name; }
    if k :| k in s0.clients && "wm" in s0.clients[k].roles { assert "wm" in s.clients[k].roles; }
  }

  /** Every message, seen by every client: exactly what it is told, and in what order. */
  lemma {:induction false} HandleTells(s0: State, id: nat, req: Request, pick: nat, j: nat)
    requires id in s0.clients && j in s0.clients
    ensures Got(s0, Handle(s0, id, req, pick), j, Told(s0, id, req, pick, j))
  {
    hide Told, Handle;
    var s := Noted(s0, id, req);
    NotedTold(s0, id, req, pick, j);
    HandleNotedTells(s0, id, req, pick, j);
  }

  lemma {:induction false} NotedTold(s0: State, id: nat, req: Request, pick: nat, j: nat)
    requires id in s0.clients && j in s0.clients
    ensures Told(Noted(s0, id, req), id, req, pick, j) == Told(s0, id, req, pick, j)
    ensures Noted(s0, id, req).clients[j].sent == s0.clients[j].sent
  {
    hide VerbsFor, FindVerb, TypeMatches, Bears, Managed, If;
    var s := Noted(s0, id, req);
    assert s.clients[j].roles == s0.clients[j].roles && s.clients[id].name == s0.clients[id].name;
    if req.body.VerbInvoke? && FindVerb(s.verbs, req.body.verb).Some? {
      NotedSame(s0, id, req, FindVerb(s.verbs, req.body.verb).value.owner);
    } else {
      NotedSame(s0, id, req, "");
    }
  }

  lemma {:induction false} HandleNotedTells(s0: State, id: nat, req: Request, pick: nat, j: nat)
    requires id in s0.clients && j in s0.clients
    ensures Got(Noted(s0, id, req), Handle(s0, id, req, pick), j, Told(Noted(s0, id, req), id, req, pick, j))
  {
    hide SendTo, SendAll, ClearSession, AnswerSession, StartAccept, Greet, Invoke, RequestMenu, Emit, UpsertAll, VerbsFor,
         FindVerb, Cancelled, Resolved, If;
    var s := Noted(s0, id, req);
    var no, name := req.no, s.clients[id].name;
    match req.body {
      case Hello(newName, roles) => GreetGot(s, id, no, newName, roles, j);
      case Register(verbs) =>
        var r := s.(verbs := UpsertAll(s.verbs, verbs, name));
        SendGot(r, id, Done(no), j);
        EmitGot(SendTo(r, id, Done(no)), "verbs.registered", "broker", j);
        GotThen(r, SendTo(r, id, Done(no)), Handle(s0, id, req, pick), j,
                If(j == id, Done(no)), Heard(s, j, "verbs.registered", "broker"));
      case Subscribe => SendGot(s.(subs := s.subs + {id}), id, Done(no), j);
      case AcceptStart(ptypes, prompt) => StartGot(s, id, no, ptypes, prompt, j);
      case AcceptAnswer(session, item) =>
        SendGot(s, id, Failed(no, "stale-answer"), j);
        SendGot(s, id, Failed(no, "type-mismatch"), j);
        if !ForeignSession(s, session) && item.Some? { AnswerGot(s, id, no, item.value, j); }
      case AcceptCancel(session) => CancelGot(s, id, no, session, j);
      case VerbInvoke(verb, item) => InvokeGot(s, id, no, verb, item, pick, j);
      case MenuRequest(item) => MenuGot(s, id, no, item, j);
      case QueryVerbs(item) =>
        var all := item.None? || item.value.ptype == "";
        SendGot(s, id, VerbList(no, if all then s.verbs else VerbsFor(s.verbs, item.value.ptype)), j);
      case DocHover(text) => SendAllGot(s, WindowManagers(s), Hover(text, name), j);
      case EventEmit(event) =>
        EmitGot(s, event, name, j);
        SendGot(Emit(s, event, name), id, Done(no), j);
        GotThen(s, Emit(s, event, name), Handle(s0, id, req, pick), j, Heard(s, j, event, name), If(j == id, Done(no)));
      case Unknown(_) => SendGot(s, id, Failed(no, "unknown-type"), j);
    }
  }

  lemma {:induction false} CancelGot(s: State, id: nat, no: nat, session: string, j: nat)
    requires id in s.clients && j in s.clients
    ensures
      var t := SendTo(if ForeignSession(s, session) then s else ClearSession(s, "cancelled"), id, Done(no));
      Got(s, t, j, (if ForeignSession(s, session) then [] else Cancelled(s, j, "cancelled")) + If(j == id, Done(no)))
  {
    hide SendTo, ClearSession, Cancelled, ForeignSession;
    if ForeignSession(s, session) {
      SendGot(s, id, Done(no), j);
      assert [] + If(j == id, Done(no)) == If(j == id, Done(no));
    } else {
      ClearGot(s, "cancelled", j);
      var t := ClearSession(s, "cancelled");
      SendGot(t, id, Done(no), j);
      GotThen(s, t, SendTo(t, id, Done(no)), j, Cancelled(s, j, "cancelled"), If(j == id, Done(no)));
    }
  }

  /** A departure, seen by every client that stays. */
  lemma {:induction false} RemoveTells(s: State, id: nat, j: nat)
    requires id in s.clients && j in s.clients && j != id
    ensures var held := s.session.Some? && s.session.value.requester == id;
      Got(s, RemoveConn(s, id), j,
          (if held then Cancelled(s, j, "requester-disconnected") else [])
          + If(j in s.subs, Event(s.eventSeq + (if held then 2 else 1), "client.disconnected", "broker")))
  {
    hide Emit, ClearSession, Without;
    var gone := s.(clients := s.clients - {id}, subs := s.subs - {id}, verbs := Without(s.verbs, s.clients[id].name));
    var held := gone.session.Some? && gone.session.value.requester == id;
    ClearGot(gone, "requester-disconnected", j);
    var quiet := if held then ClearSession(gone, "requester-disconnected") else gone;
    EmitGot(quiet, "client.disconnected", "broker", j);
    var more := if held then Cancelled(gone, j, "requester-disconnected") else [];
    if !held { GotNothing(gone, quiet, j); }
    GotThen(gone, quiet, RemoveConn(s, id), j, more, Heard(quiet, j, "client.disconnected", "broker"));
  }

  lemma {:induction false} Grouped(x: seq<Verb>, y: seq<Verb>, z: seq<Verb>)
    ensures x + (y + z) == (x + y) + z
  {
  }

  /** Verbs are offered in the order registered. */
  lemma {:induction false} OfferedInOrder(a: seq<Verb>, b: seq<Verb>, ptype: string)
    ensures VerbsFor(a + b, ptype) == VerbsFor(a, ptype) + VerbsFor(b, ptype)
  {
    hide TypeMatches;
    if a == [] {
      assert a + b == b;
    } else {
      OfferedInOrder(a[1..], b, ptype);
      assert (a + b)[0] == a[0] && (a + b)[1..] == a[1..] + b;
      var first := if TypeMatches(a[0].ptypes, ptype) then [a[0]] else [];
      Grouped(first, VerbsFor(a[1..], ptype), VerbsFor(b, ptype));
    }
  }

  /** The verbs offered for a type are exactly the registered ones that match it, as often as registered. */
  lemma {:induction false} OfferedVerbs(verbs: seq<Verb>, ptype: string, v: Verb)
    ensures multiset(VerbsFor(verbs, ptype))[v] == if TypeMatches(v.ptypes, ptype) then multiset(verbs)[v] else 0
  {
    if verbs != [] {
      OfferedVerbs(verbs[1..], ptype, v);
      assert verbs == [verbs[0]] + verbs[1..];
    }
  }
}
