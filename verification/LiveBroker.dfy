/** The broker as the object its loop updates in place, every method proved against its meaning in Broker. */
module LiveBroker {
  import opened Wrappers
  import opened Ids
  import opened Wire
  import Registry
  import B = Broker

  // ----- what one more turn of a loop adds ----------------------------------

  lemma {:induction false} OneMore(s: B.State, done: set<nat>, id: nat, m: Msg)
    requires id !in done
    ensures B.SendTo(B.SendAll(s, done, m), id, m) == B.SendAll(s, done + {id}, m)
  {
  }

  lemma {:induction false} NobodyYet(s: B.State, m: Msg)
    ensures B.SendAll(s, {}, m) == s
  {
    assert (map id | id in s.clients :: s.clients[id]) == s.clients;
  }

  /** Replacing the first match, or appending when there is none, is Upsert. */
  lemma {:induction false} UpsertAt(verbs: seq<Verb>, v: Verb, i: nat)
    requires i <= |verbs|
    requires forall k | 0 <= k < i :: verbs[k].owner != v.owner || verbs[k].id != v.id
    requires i < |verbs| ==> verbs[i].owner == v.owner && verbs[i].id == v.id
    ensures B.Upsert(verbs, v) == if i < |verbs| then verbs[i := v] else verbs + [v]
  {
    hide B.Upsert;
    var at := Registry.UpsertPlaces(verbs, v);
  }

  lemma {:induction false} FoundAt(verbs: seq<Verb>, id: string, i: nat)
    requires i <= |verbs| && forall k | 0 <= k < i :: verbs[k].id != id
    requires i < |verbs| ==> verbs[i].id == id
    ensures B.FindVerb(verbs, id) == if i < |verbs| then Some(verbs[i]) else None
  {
    if i > 0 { FoundAt(verbs[1..], id, i - 1); }
  }

  lemma {:induction false} KeptNone(owner: string)
    ensures B.Without([], owner) == []
  {
  }

  lemma {:induction false} KeptNext(verbs: seq<Verb>, v: Verb, owner: string)
    ensures B.Without(verbs + [v], owner)
         == B.Without(verbs, owner) + (if v.owner != owner || owner == "" then [v] else [])
  {
    if verbs == [] {
      assert [] + [v] == [v] && [v][1..] == [];
    } else {
      KeptNext(verbs[1..], v, owner);
      assert (verbs + [v])[1..] == verbs[1..] + [v];
    }
  }

  lemma {:induction false} FoundNone(ptype: string)
    ensures B.VerbsFor([], ptype) == []
  {
  }

  lemma {:induction false} FoundNext(verbs: seq<Verb>, v: Verb, ptype: string)
    ensures B.VerbsFor(verbs + [v], ptype)
         == B.VerbsFor(verbs, ptype) + (if TypeMatches(v.ptypes, ptype) then [v] else [])
  {
    hide TypeMatches;
    if verbs == [] {
      assert [] + [v] == [v] && [v][1..] == [];
    } else {
      FoundNext(verbs[1..], v, ptype);
      assert (verbs + [v])[1..] == verbs[1..] + [v];
    }
  }

  class Broker {
    var clients: map<nat, B.Conn>
    var verbs: seq<Verb>
    var session: Option<B.Session>
    var subs: set<nat>
    var nextClient: nat
    var nextSess: nat
    var eventSeq: nat

    function State(): B.State
      reads this
    {
      B.State(clients, verbs, session, subs, nextClient, nextSess, eventSeq)
    }

    constructor ()
      ensures State() == B.START
    {
      clients, verbs, session, subs, nextClient, nextSess, eventSeq := map[], [], None, {}, 0, 0, 0;
    }

    // ----- sending ----------------------------------------------------------

    method SendTo(id: nat, m: Msg)
      modifies this`clients
      ensures State() == B.SendTo(old(State()), id, m)
    {
      if id in clients { clients := clients[id := B.Enqueue(clients[id], m)]; }
    }

    method Broadcast(m: Msg)
      modifies this`clients
      ensures State() == B.Broadcast(old(State()), m)
    {
      var remaining := clients.Keys;
      NobodyYet(State(), m);
      while remaining != {}
        invariant remaining <= old(clients.Keys) == clients.Keys
        invariant State() == B.SendAll(old(State()), old(clients.Keys) - remaining, m)
      {
        var id :| id in remaining;
        OneMore(old(State()), old(clients.Keys) - remaining, id, m);
        SendTo(id, m);
        assert old(clients.Keys) - remaining + {id} == old(clients.Keys) - (remaining - {id});
        remaining := remaining - {id};
      }
      assert old(clients.Keys) - {} == old(clients.Keys);
    }

    /** To every client in the role wm; says whether there was any. */
    method SendToManagers(m: Msg) returns (sent: bool)
      modifies this`clients
      ensures State() == B.SendAll(old(State()), B.WindowManagers(old(State())), m)
      ensures sent <==> B.WindowManagers(old(State())) != {}
    {
      ghost var s := State();
      var remaining := clients.Keys;
      sent := false;
      NobodyYet(s, m);
      ghost var done: set<nat> := {};
      while remaining != {}
        invariant remaining <= s.clients.Keys == clients.Keys
        invariant done == B.WindowManagers(s) - remaining
        invariant State() == B.SendAll(s, done, m)
        invariant sent <==> done != {}
        decreases remaining
      {
        var id :| id in remaining;
        assert clients[id].roles == s.clients[id].roles;
        if "wm" in clients[id].roles {
          OneMore(s, done, id, m);
          SendTo(id, m);
          done := done + {id};
          sent := true;
        }
        remaining := remaining - {id};
      }
      assert done == B.WindowManagers(s);
    }

    method Emit(event: string, source: string)
      modifies this`clients, this`eventSeq
      ensures State() == B.Emit(old(State()), event, source)
    {
      eventSeq := eventSeq + 1;
      var m := Event(eventSeq, event, source);
      ghost var s := State();
      var remaining := subs;
      NobodyYet(s, m);
      while remaining != {}
        invariant remaining <= subs
        invariant clients.Keys == s.clients.Keys
        invariant State() == B.SendAll(s, subs - remaining, m)
      {
        var id :| id in remaining;
        OneMore(s, subs - remaining, id, m);
        SendTo(id, m);
        assert subs - remaining + {id} == subs - (remaining - {id});
        remaining := remaining - {id};
      }
      assert subs - {} == subs;
    }

    // ----- the accept session -----------------------------------------------

    method ClearSession(reason: string)
      modifies this
      ensures State() == B.ClearSession(old(State()), reason)
    {
      if session.Some? {
        var x := session.value;
        session := None;
        SendTo(x.requester, AcceptResult(x.no, x.id, None, reason));
        Broadcast(AcceptClear(x.id, reason));
        Emit("accept.cleared", "broker");
      }
    }

    method AnswerSession(who: nat, no: nat, item: Obj)
      requires session.Some? && who in clients
      modifies this
      ensures State() == B.AnswerSession(old(State()), who, no, item)
    {
      hide B.SendTo, B.SendAll;
      var x, name := session.value, clients[who].name;
      SendTo(x.requester, AcceptResult(x.no, x.id, Some(item), ""));
      SendTo(who, Done(no));
      Emit("accept.answered", name);
      session := None;
      Broadcast(AcceptClear(x.id, "done"));
    }

    method StartAccept(id: nat, no: nat, ptypes: seq<string>, prompt: string)
      requires id in clients
      modifies this
      ensures State() == B.StartAccept(old(State()), id, no, ptypes, prompt)
    {
      hide B.SendTo, B.SendAll, B.ClearSession;
      var name := clients[id].name;
      ClearSession("superseded");
      if |ptypes| == 0 {
        SendTo(id, Failed(no, "bad-request"));
        return;
      }
      nextSess := nextSess + 1;
      var x := B.Session(SessionName(nextSess), id, no, ptypes, prompt);
      session := Some(x);
      Broadcast(B.ModeOf(x));
      Emit("accept.started", name);
    }

    // ----- hello and the registry -------------------------------------------

    method Greet(id: nat, no: nat, name: string, roles: set<string>)
      requires id in clients
      modifies this
      ensures State() == B.Greet(old(State()), id, no, name, roles)
    {
      hide B.SendTo, B.SendAll;
      var c := clients[id];
      clients := clients[id := c.(name := name, roles := c.roles + roles, greeted := true)];
      SendTo(id, Welcome(no));
      Emit("client.connected", "broker");
      if session.Some? { SendTo(id, B.ModeOf(session.value)); }
    }

    method Upsert(v: Verb)
      modifies this`verbs
      ensures verbs == B.Upsert(old(verbs), v)
    {
      for i := 0 to |verbs|
        invariant verbs == old(verbs)
        invariant forall k | 0 <= k < i :: verbs[k].owner != v.owner || verbs[k].id != v.id
      {
        if verbs[i].owner == v.owner && verbs[i].id == v.id {
          UpsertAt(verbs, v, i);
          verbs := verbs[i := v];
          return;
        }
      }
      UpsertAt(verbs, v, |verbs|);
      verbs := verbs + [v];
    }

    method Register(id: nat, no: nat, added: seq<Verb>)
      requires id in clients
      modifies this
      ensures var s := old(State());
        var registered := s.(verbs := B.UpsertAll(s.verbs, added, s.clients[id].name));
        State() == B.Emit(B.SendTo(registered, id, Done(no)), "verbs.registered", "broker")
    {
      hide B.SendTo, B.SendAll, B.Upsert;
      var owner := clients[id].name;
      assert added[0..] == added;
      for i := 0 to |added|
        invariant State() == old(State()).(verbs := verbs)
        invariant B.UpsertAll(verbs, added[i..], owner) == B.UpsertAll(old(verbs), added, owner)
      {
        assert added[i..][0] == added[i] && added[i..][1..] == added[i + 1..];
        Upsert(added[i].(owner := owner));
      }
      SendTo(id, Done(no));
      Emit("verbs.registered", "broker");
    }

    /** Filters the verbs in place. */
    method DropVerbs(owner: string)
      modifies this`verbs
      ensures verbs == B.Without(old(verbs), owner)
    {
      hide B.Without;
      var kept := [];
      assert verbs[..0] == [] && verbs[..|verbs|] == verbs;
      KeptNone(owner);
      for i := 0 to |verbs|
        invariant verbs == old(verbs) && kept == B.Without(verbs[..i], owner)
      {
        KeptNext(verbs[..i], verbs[i], owner);
        assert verbs[..i + 1] == verbs[..i] + [verbs[i]];
        if verbs[i].owner != owner || owner == "" { kept := kept + [verbs[i]]; }
      }
      verbs := kept;
    }

    method VerbsFor(ptype: string) returns (found: seq<Verb>)
      ensures found == B.VerbsFor(verbs, ptype)
    {
      hide B.VerbsFor, TypeMatches;
      found := [];
      assert verbs[..0] == [] && verbs[..|verbs|] == verbs;
      FoundNone(ptype);
      for i := 0 to |verbs|
        invariant found == B.VerbsFor(verbs[..i], ptype)
      {
        FoundNext(verbs[..i], verbs[i], ptype);
        assert verbs[..i + 1] == verbs[..i] + [verbs[i]];
        if TypeMatches(verbs[i].ptypes, ptype) { found := found + [verbs[i]]; }
      }
    }

    method FindVerb(id: string) returns (found: Option<Verb>)
      ensures found == B.FindVerb(verbs, id)
    {
      for i := 0 to |verbs|
        invariant forall k | 0 <= k < i :: verbs[k].id != id
      {
        if verbs[i].id == id {
          FoundAt(verbs, id, i);
          return Some(verbs[i]);
        }
      }
      FoundAt(verbs, id, |verbs|);
      found := None;
    }

    /** Some client of that name; clients are looked at in no particular order. */
    method FindClient(name: string) returns (found: Option<nat>)
      ensures found.None? ==> B.Named(State(), name) == {}
      ensures found.Some? ==> found.value in B.Named(State(), name)
    {
      var remaining := clients.Keys;
      while remaining != {}
        invariant remaining <= clients.Keys
        invariant forall id | id in clients && id !in remaining :: clients[id].name != name
      {
        var id :| id in remaining;
        if clients[id].name == name { return Some(id); }
        remaining := remaining - {id};
      }
      found := None;
    }

    method Invoke(id: nat, no: nat, verb: string, item: Option<Obj>) returns (pick: nat)
      requires id in clients
      modifies this
      ensures B.PickOk(old(State()), VerbInvoke(verb, item), pick)
      ensures State() == B.Invoke(old(State()), id, no, verb, item, pick)
    {
      hide B.SendTo, B.SendAll, B.FindVerb;
      pick := 0;
      var name := clients[id].name;
      var v := FindVerb(verb);
      if v.None? {
        SendTo(id, Failed(no, "no-verb"));
        return;
      }
      var owner := FindClient(v.value.owner);
      if owner.None? {
        SendTo(id, Failed(no, "owner-gone"));
        return;
      }
      pick := owner.value;
      SendTo(pick, VerbRun(verb, item));
      SendTo(id, Done(no));
      Emit("verb.invoked", name);
    }

    method RequestMenu(id: nat, no: nat, item: Option<Obj>)
      requires id in clients
      modifies this
      ensures State() == B.RequestMenu(old(State()), id, no, item)
    {
      hide B.SendTo, B.SendAll, B.VerbsFor, B.AnswerSession, B.WindowManagers;
      if item.None? {
        SendTo(id, Failed(no, "bad-request"));
        return;
      }
      if session.Some? && TypeMatches(session.value.ptypes, item.value.ptype) {
        AnswerSession(id, no, item.value);
        return;
      }
      var found := VerbsFor(item.value.ptype);
      var sent := SendToManagers(MenuShow(item.value, found));
      if !sent {
        SendTo(id, VerbList(no, found));
        return;
      }
      SendTo(id, Done(no));
    }

    // ----- the loop's steps -------------------------------------------------

    method Handle(id: nat, req: Request) returns (pick: nat)
      requires id in clients
      modifies this
      ensures B.PickOk(old(State()), req.body, pick)
      ensures State() == B.Handle(old(State()), id, req, pick)
    {
      hide B.SendTo, B.SendAll, B.Emit, B.ClearSession, B.AnswerSession, B.StartAccept, B.Greet, B.Invoke, B.RequestMenu,
           B.UpsertAll, B.VerbsFor, B.FindVerb, B.WindowManagers, B.ForeignSession, TypeMatches;
      pick := 0;
      clients := clients[id := clients[id].(asked := clients[id].asked + [req])];
      var name, no := clients[id].name, req.no;
      match req.body {
        case Hello(newName, roles) => Greet(id, no, newName, roles);
        case Register(added) => Register(id, no, added);
        case Subscribe =>
          subs := subs + {id};
          SendTo(id, Done(no));
        case AcceptStart(ptypes, prompt) => StartAccept(id, no, ptypes, prompt);
        case AcceptAnswer(answered, item) => Answer(id, no, answered, item);
        case AcceptCancel(cancelled) => Cancel(id, no, cancelled);
        case VerbInvoke(verb, item) =>
          pick := Invoke(id, no, verb, item);
          NotedPick(old(State()), id, req, pick);
        case MenuRequest(item) => RequestMenu(id, no, item);
        case QueryVerbs(item) =>
          var found := verbs;
          if item.Some? && item.value.ptype != "" { found := VerbsFor(item.value.ptype); }
          SendTo(id, VerbList(no, found));
        case DocHover(text) => var _ := SendToManagers(Hover(text, name));
        case EventEmit(event) =>
          Emit(event, name);
          SendTo(id, Done(no));
        case Unknown(_) => SendTo(id, Failed(no, "unknown-type"));
      }
    }

    method Answer(id: nat, no: nat, answered: string, item: Option<Obj>)
      requires id in clients
      modifies this
      ensures var s := old(State());
        State() == if B.ForeignSession(s, answered) then B.SendTo(s, id, Failed(no, "stale-answer"))
                   else if item.None? || !TypeMatches(s.session.value.ptypes, item.value.ptype)
                        then B.SendTo(s, id, Failed(no, "type-mismatch"))
                   else B.AnswerSession(s, id, no, item.value)
    {
      if session.None? || (answered != "" && answered != session.value.id) {
        SendTo(id, Failed(no, "stale-answer"));
      } else if item.None? || !TypeMatches(session.value.ptypes, item.value.ptype) {
        SendTo(id, Failed(no, "type-mismatch"));
      } else {
        AnswerSession(id, no, item.value);
      }
    }

    method Cancel(id: nat, no: nat, cancelled: string)
      requires id in clients
      modifies this
      ensures var s := old(State());
        State() == B.SendTo(if B.ForeignSession(s, cancelled) then s else B.ClearSession(s, "cancelled"), id, Done(no))
    {
      hide B.SendTo, B.ClearSession;
      if session.None? || (cancelled != "" && cancelled != session.value.id) {
        SendTo(id, Done(no));
      } else {
        ClearSession("cancelled");
        SendTo(id, Done(no));
      }
    }

    method AddConn() returns (id: nat)
      modifies this
      ensures State() == B.AddConn(old(State())) && id == nextClient
    {
      nextClient := nextClient + 1;
      id := nextClient;
      clients := clients[id := B.NEW_CONN];
    }

    method RemoveConn(id: nat)
      modifies this
      ensures State() == B.RemoveConn(old(State()), id)
    {
      hide B.Emit, B.ClearSession, B.Without;
      if id !in clients { return; }
      var name := clients[id].name;
      clients, subs := clients - {id}, subs - {id};
      DropVerbs(name);
      if session.Some? && session.value.requester == id { ClearSession("requester-disconnected"); }
      Emit("client.disconnected", "broker");
    }

    /** A writer receives from its connection's channel. */
    method Take(id: nat) returns (m: Msg)
      requires id in clients && clients[id].taken < |clients[id].log|
      modifies this
      ensures State() == B.Take(old(State()), id) && m == old(clients[id].log[clients[id].taken])
    {
      m := clients[id].log[clients[id].taken];
      clients := clients[id := clients[id].(taken := clients[id].taken + 1)];
    }
  }

  lemma {:induction false} NotedPick(s: B.State, id: nat, req: Request, pick: nat)
    requires id in s.clients && req.body.VerbInvoke? && B.PickOk(B.Noted(s, id, req), req.body, pick)
    ensures B.PickOk(s, req.body, pick)
  {
    forall name ensures B.Named(B.Noted(s, id, req), name) == B.Named(s, name) {
    }
  }
}
