/**
 The verb registry and the event bus over whole runs: no verb is registered twice, every verb
 has a connected owner exactly as long as no owner renames itself away, and every subscriber
 is sent every event from its subscription on, once and in order.
 */
module Registry {
  import opened Wrappers
  import opened Wire
  import opened Broker
  import BrokerRuns

  /** The numbers of the events among ms. */
  function EventNumbers(ms: seq<Msg>): seq<nat> {
    if ms == [] then []
    else
      var last := ms[|ms| - 1];
      EventNumbers(ms[..|ms| - 1]) + (if last.Event? then [last.number] else [])
  }

  /** The numbers after a, up to b. */
  function Span(a: nat, b: nat): seq<nat>
    requires a <= b
  {
    seq(b - a, i requires i >= 0 => a + 1 + i)
  }

  // ----- what talking changes -----------------------------------------------

  ghost predicate Heard(s: State, t: State, id: nat)
    requires id in s.clients && id in t.clients && s.eventSeq <= t.eventSeq
  {
    EventNumbers(t.clients[id].sent)
      == EventNumbers(s.clients[id].sent) + (if id in s.subs then Span(s.eventSeq, t.eventSeq) else [])
  }

  /** Messages waiting for the writer. */
  function Waiting(c: Conn): int { |c.log| - c.taken }

  /** How many more messages the channel takes. */
  function Room(c: Conn): nat { if Waiting(c) < 128 then 128 - Waiting(c) else 0 }

  /** The first k of ms, or all of them. */
  function Upto(ms: seq<Msg>, k: nat): seq<Msg> { if |ms| <= k then ms else ms[..k] }

  /** Nothing was taken, and of the messages sent in between just those that found room were put on the channel. */
  ghost predicate Filled(c: Conn, d: Conn) {
    d.taken == c.taken && c.sent <= d.sent && d.log == c.log + Upto(d.sent[|c.sent|..], Room(c))
  }

  /** More may have been put on the channel; who it is and what it asked stay. */
  ghost predicate Kept(c: Conn, d: Conn) {
    d.name == c.name && d.roles == c.roles && d.greeted == c.greeted && d.asked == c.asked && c.log <= d.log && Filled(c, d)
  }

  lemma {:induction false} SameIsFilled(c: Conn, d: Conn)
    requires d.log == c.log && d.sent == c.sent && d.taken == c.taken
    ensures Filled(c, d)
  {
    assert d.sent[|c.sent|..] == [];
  }

  lemma {:induction false} EnqueueKept(c: Conn, m: Msg)
    ensures Kept(c, Enqueue(c, m))
  {
    assert Enqueue(c, m).sent[|c.sent|..] == [m];
  }

  lemma {:induction false} FilledThen(c: Conn, d: Conn, e: Conn)
    requires Filled(c, d) && Filled(d, e)
    ensures Filled(c, e)
  {
    var first, second := d.sent[|c.sent|..], e.sent[|d.sent|..];
    assert e.sent[|c.sent|..] == first + second;
    if |first| < Room(c) {
      assert first + Upto(second, Room(c) - |first|) == Upto(first + second, Room(c));
    } else {
      assert Upto(first + second, Room(c)) == Upto(first, Room(c));
    }
  }

  /**
   From s to t messages were sent and nothing else: names, verbs and subscriptions stay, channels only
   grow, and exactly the subscribers heard exactly the events numbered in between, in order.
   */
  ghost predicate Talked(s: State, t: State) {
    && t.verbs == s.verbs && t.subs == s.subs && t.clients.Keys == s.clients.Keys
    && t.nextClient == s.nextClient && s.eventSeq <= t.eventSeq
    && forall id | id in s.clients :: Kept(s.clients[id], t.clients[id]) && Heard(s, t, id)
  }

  lemma {:induction false} NumbersAfter(c: Conn, m: Msg)
    ensures EventNumbers(Enqueue(c, m).sent) == EventNumbers(c.sent) + (if m.Event? then [m.number] else [])
  {
    assert (c.sent + [m])[..|c.sent|] == c.sent;
  }

  lemma {:induction false} SilenceTalks(s: State, t: State)
    requires t.verbs == s.verbs && t.subs == s.subs && t.clients.Keys == s.clients.Keys
    requires t.nextClient == s.nextClient && t.eventSeq == s.eventSeq
    requires forall id | id in s.clients ::
      && Kept(s.clients[id], t.clients[id])
      && EventNumbers(t.clients[id].sent) == EventNumbers(s.clients[id].sent)
    ensures Talked(s, t)
  {
    hide EventNumbers;
    assert Span(s.eventSeq, s.eventSeq) == [];
    forall id | id in s.clients
      ensures Heard(s, t, id)
    {
      assert EventNumbers(s.clients[id].sent) + [] == EventNumbers(s.clients[id].sent);
    }
  }

  lemma {:induction false} SendTalks(s: State, id: nat, m: Msg)
    requires !m.Event?
    ensures Talked(s, SendTo(s, id, m))
  {
    hide EventNumbers, Filled, Enqueue;
    if id in s.clients {
      NumbersAfter(s.clients[id], m);
      EnqueueKept(s.clients[id], m);
    }
    forall j | j in s.clients ensures Filled(s.clients[j], s.clients[j]) { SameIsFilled(s.clients[j], s.clients[j]); }
    SilenceTalks(s, SendTo(s, id, m));
  }

  lemma {:induction false} SendAllTalks(s: State, group: set<nat>, m: Msg)
    requires !m.Event?
    ensures Talked(s, SendAll(s, group, m))
  {
    hide EventNumbers, Filled, Enqueue;
    forall id | id in s.clients
      ensures EventNumbers(Enqueue(s.clients[id], m).sent) == EventNumbers(s.clients[id].sent)
      ensures Kept(s.clients[id], Enqueue(s.clients[id], m)) && Filled(s.clients[id], s.clients[id])
    {
      NumbersAfter(s.clients[id], m);
      EnqueueKept(s.clients[id], m);
      SameIsFilled(s.clients[id], s.clients[id]);
    }
    SilenceTalks(s, SendAll(s, group, m));
  }

  lemma {:induction false} EmitTalks(s: State, event: string, source: string)
    ensures Talked(s, Emit(s, event, source))
  {
    hide EventNumbers, Filled, Enqueue;
    var m := Event(s.eventSeq + 1, event, source);
    var t := Emit(s, event, source);
    assert Span(s.eventSeq, t.eventSeq) == [s.eventSeq + 1];
    forall id | id in s.clients
      ensures Heard(s, t, id) && Kept(s.clients[id], t.clients[id])
    {
      NumbersAfter(s.clients[id], m);
      EnqueueKept(s.clients[id], m);
      SameIsFilled(s.clients[id], s.clients[id]);
    }
  }

  lemma {:induction false} ThenTalks(s: State, t: State, u: State)
    requires Talked(s, t) && Talked(t, u)
    ensures Talked(s, u)
  {
    hide EventNumbers, Filled;
    assert Span(s.eventSeq, t.eventSeq) + Span(t.eventSeq, u.eventSeq) == Span(s.eventSeq, u.eventSeq);
    forall id | id in s.clients
      ensures Heard(s, u, id) && Filled(s.clients[id], u.clients[id])
    {
      FilledThen(s.clients[id], t.clients[id], u.clients[id]);
      var before := EventNumbers(s.clients[id].sent);
      assert Heard(s, t, id) && Heard(t, u, id);
      assert (before + Span(s.eventSeq, t.eventSeq)) + Span(t.eventSeq, u.eventSeq)
          == before + (Span(s.eventSeq, t.eventSeq) + Span(t.eventSeq, u.eventSeq));
    }
  }

  lemma {:induction false} SessionAside(s: State, t: State)
    requires t == s.(session := t.session, nextSess := t.nextSess)
    ensures Talked(s, t)
  {
    hide Filled;
    forall id | id in s.clients ensures Filled(s.clients[id], t.clients[id]) { SameIsFilled(s.clients[id], t.clients[id]); }
    SilenceTalks(s, t);
  }

  lemma {:induction false} ClearTalks(s: State, reason: string)
    ensures Talked(s, ClearSession(s, reason))
  {
    hide Talked, SendTo, SendAll, Emit;
    if s.session.None? {
      SessionAside(s, s);
    } else {
      var x := s.session.value;
      var none := s.(session := None);
      var result := AcceptResult(x.no, x.id, None, reason);
      var told := SendTo(none, x.requester, result);
      var all := Broadcast(told, AcceptClear(x.id, reason));
      SessionAside(s, none);
      SendTalks(none, x.requester, result);
      ThenTalks(s, none, told);
      SendAllTalks(told, told.clients.Keys, AcceptClear(x.id, reason));
      ThenTalks(s, told, all);
      EmitTalks(all, "accept.cleared", "broker");
      ThenTalks(s, all, Emit(all, "accept.cleared", "broker"));
    }
  }

  lemma {:induction false} AnswerTalks(s: State, who: nat, no: nat, item: Obj)
    requires s.session.Some? && who in s.clients
    ensures Talked(s, AnswerSession(s, who, no, item))
  {
    hide Talked, SendTo, SendAll, Emit;
    var x := s.session.value;
    var result := AcceptResult(x.no, x.id, Some(item), "");
    var told := SendTo(s, x.requester, result);
    var acked := SendTo(told, who, Done(no));
    var traced := Emit(acked, "accept.answered", s.clients[who].name);
    var none := traced.(session := None);
    SendTalks(s, x.requester, result);
    SendTalks(told, who, Done(no));
    ThenTalks(s, told, acked);
    EmitTalks(acked, "accept.answered", s.clients[who].name);
    ThenTalks(s, acked, traced);
    SessionAside(traced, none);
    ThenTalks(s, traced, none);
    SendAllTalks(none, none.clients.Keys, AcceptClear(x.id, "done"));
    ThenTalks(s, none, Broadcast(none, AcceptClear(x.id, "done")));
  }

  lemma {:induction false} StartTalks(s: State, id: nat, no: nat, ptypes: seq<string>, prompt: string)
    requires id in s.clients
    ensures Talked(s, StartAccept(s, id, no, ptypes, prompt))
  {
    hide Talked, SendTo, SendAll, Emit, ClearSession;
    var free := ClearSession(s, "superseded");
    ClearTalks(s, "superseded");
    if ptypes == [] {
      SendTalks(free, id, Failed(no, "bad-request"));
      ThenTalks(s, free, SendTo(free, id, Failed(no, "bad-request")));
    } else {
      var t := StartAccept(s, id, no, ptypes, prompt);
      var x := t.session.value;
      var open := free.(session := Some(x), nextSess := free.nextSess + 1);
      var all := Broadcast(open, ModeOf(x));
      SessionAside(free, open);
      ThenTalks(s, free, open);
      SendAllTalks(open, open.clients.Keys, ModeOf(x));
      ThenTalks(s, open, all);
      EmitTalks(all, "accept.started", s.clients[id].name);
      ThenTalks(s, all, t);
    }
  }

  lemma {:induction false} InvokeTalks(s: State, id: nat, no: nat, verb: string, item: Option<Obj>, pick: nat)
    requires id in s.clients
    ensures Talked(s, Invoke(s, id, no, verb, item, pick))
  {
    hide Talked, SendTo, SendAll, Emit;
    SendTalks(s, id, Failed(no, "no-verb"));
    SendTalks(s, id, Failed(no, "owner-gone"));
    var run := SendTo(s, pick, VerbRun(verb, item));
    var acked := SendTo(run, id, Done(no));
    SendTalks(s, pick, VerbRun(verb, item));
    SendTalks(run, id, Done(no));
    ThenTalks(s, run, acked);
    EmitTalks(acked, "verb.invoked", s.clients[id].name);
    ThenTalks(s, acked, Emit(acked, "verb.invoked", s.clients[id].name));
  }

  lemma {:induction false} MenuTalks(s: State, id: nat, no: nat, item: Option<Obj>)
    requires id in s.clients
    ensures Talked(s, RequestMenu(s, id, no, item))
  {
    hide Talked, SendTo, SendAll, AnswerSession;
    SendTalks(s, id, Failed(no, "bad-request"));
    if item.Some? && s.session.Some? && TypeMatches(s.session.value.ptypes, item.value.ptype) {
      AnswerTalks(s, id, no, item.value);
    } else if item.Some? {
      var verbs := VerbsFor(s.verbs, item.value.ptype);
      var shown := SendAll(s, WindowManagers(s), MenuShow(item.value, verbs));
      var reply := if WindowManagers(s) == {} then VerbList(no, verbs) else Done(no);
      SendAllTalks(s, WindowManagers(s), MenuShow(item.value, verbs));
      SendTalks(shown, id, reply);
      ThenTalks(s, shown, SendTo(shown, id, reply));
    }
  }

  /** The client under its new name and roles. */
  function Renamed(s: State, id: nat, name: string, roles: set<string>): State
    requires id in s.clients
  {
    s.(clients := s.clients[id := s.clients[id].(name := name, roles := s.clients[id].roles + roles, greeted := true)])
  }

  lemma {:induction false} GreetTalks(s: State, id: nat, no: nat, name: string, roles: set<string>)
    requires id in s.clients
    ensures Talked(Renamed(s, id, name, roles), Greet(s, id, no, name, roles))
  {
    hide Talked, SendTo, SendAll, Emit;
    var r := Renamed(s, id, name, roles);
    var known := SendTo(r, id, Welcome(no));
    var traced := Emit(known, "client.connected", "broker");
    SendTalks(r, id, Welcome(no));
    EmitTalks(known, "client.connected", "broker");
    ThenTalks(r, known, traced);
    if s.session.Some? {
      SendTalks(traced, id, ModeOf(s.session.value));
      ThenTalks(r, traced, SendTo(traced, id, ModeOf(s.session.value)));
    }
  }

  /** What a message changes besides sending and the session: the record, and a name, the verbs, or the subscriptions. */
  function Edited(s0: State, id: nat, req: Request): State
    requires id in s0.clients
  {
    var s := Noted(s0, id, req);
    match req.body
    case Hello(name, roles) => Renamed(s, id, name, roles)
    case Register(verbs) => s.(verbs := UpsertAll(s.verbs, verbs, s.clients[id].name))
    case Subscribe => s.(subs := s.subs + {id})
    case _ => s
  }

  /** Handling a message is its one edit, and talk. */
  lemma {:induction false} HandleTalks(s0: State, id: nat, req: Request, pick: nat)
    requires id in s0.clients
    ensures Talked(Edited(s0, id, req), Handle(s0, id, req, pick))
  {
    hide Talked, SendTo, SendAll, ClearSession, AnswerSession, StartAccept, Greet, Invoke, RequestMenu, Emit, UpsertAll,
         VerbsFor, WindowManagers, Renamed;
    var s := Noted(s0, id, req);
    var no, name := req.no, s.clients[id].name;
    match req.body {
      case Hello(newName, roles) => GreetTalks(s, id, no, newName, roles);
      case Register(verbs) =>
        var r := s.(verbs := UpsertAll(s.verbs, verbs, name));
        SendTalks(r, id, Done(no));
        EmitTalks(SendTo(r, id, Done(no)), "verbs.registered", "broker");
        ThenTalks(r, SendTo(r, id, Done(no)), Emit(SendTo(r, id, Done(no)), "verbs.registered", "broker"));
      case Subscribe => SendTalks(s.(subs := s.subs + {id}), id, Done(no));
      case AcceptStart(ptypes, prompt) => StartTalks(s, id, no, ptypes, prompt);
      case AcceptAnswer(session, item) =>
        SendTalks(s, id, Failed(no, "stale-answer"));
        SendTalks(s, id, Failed(no, "type-mismatch"));
        if !ForeignSession(s, session) && item.Some? { AnswerTalks(s, id, no, item.value); }
      case AcceptCancel(session) =>
        SendTalks(s, id, Done(no));
        ClearTalks(s, "cancelled");
        SendTalks(ClearSession(s, "cancelled"), id, Done(no));
        ThenTalks(s, ClearSession(s, "cancelled"), SendTo(ClearSession(s, "cancelled"), id, Done(no)));
      case VerbInvoke(verb, item) => InvokeTalks(s, id, no, verb, item, pick);
      case MenuRequest(item) => MenuTalks(s, id, no, item);
      case QueryVerbs(item) =>
        var all := item.None? || item.value.ptype == "";
        SendTalks(s, id, VerbList(no, if all then s.verbs else VerbsFor(s.verbs, item.value.ptype)));
      case DocHover(text) => SendAllTalks(s, WindowManagers(s), Hover(text, name));
      case EventEmit(event) =>
        EmitTalks(s, event, name);
        SendTalks(Emit(s, event, name), id, Done(no));
        ThenTalks(s, Emit(s, event, name), SendTo(Emit(s, event, name), id, Done(no)));
      case Unknown(_) => SendTalks(s, id, Failed(no, "unknown-type"));
    }
  }

  /** The state once the departing client and its verbs are struck off, before anyone is told. */
  function StruckOff(s: State, id: nat): State
    requires id in s.clients
  {
    s.(clients := s.clients - {id}, subs := s.subs - {id}, verbs := Without(s.verbs, s.clients[id].name))
  }

  lemma {:induction false} RemoveTalks(s: State, id: nat)
    requires id in s.clients
    ensures Talked(StruckOff(s, id), RemoveConn(s, id))
  {
    hide Talked, ClearSession, Emit;
    var gone := StruckOff(s, id);
    SessionAside(gone, gone);
    ClearTalks(gone, "requester-disconnected");
    var quiet := if gone.session.Some? && gone.session.value.requester == id
                 then ClearSession(gone, "requester-disconnected") else gone;
    EmitTalks(quiet, "client.disconnected", "broker");
    ThenTalks(gone, quiet, Emit(quiet, "client.disconnected", "broker"));
  }

  // ----- the bus ------------------------------------------------------------

  lemma {:induction false} UnknownLeaves(s: State, id: nat)
    requires id !in s.clients
    ensures RemoveConn(s, id) == s
  {
  }

  /** The step by which a client that is not subscribed subscribes. */
  predicate Subscribes(s: State, step: Step, id: nat) {
    step.Receive? && step.id == id && step.req.body.Subscribe? && id !in s.subs
  }

  /** Through a step a subscriber that stays is sent exactly the events of that step, and no one else is sent any. */
  lemma {:induction false} NextHears(s: State, step: Step, id: nat)
    requires Enabled(s, step) && id <= s.nextClient && id in Next(s, step).clients
    ensures var t := Next(s, step);
      && id in s.clients && s.eventSeq <= t.eventSeq
      && (id in t.subs <==> id in s.subs || Subscribes(s, step, id))
      && (Subscribes(s, step, id) ==> t.eventSeq == s.eventSeq)
      && EventNumbers(t.clients[id].sent)
           == EventNumbers(s.clients[id].sent) + if id in s.subs then Span(s.eventSeq, t.eventSeq) else []
  {
    hide RemoveConn, EventNumbers, Without, UpsertAll, SendAll, Emit;
    var before := s.clients;
    match step {
      case Connect => assert EventNumbers(before[id].sent) + Span(s.eventSeq, s.eventSeq) == EventNumbers(before[id].sent);
      case Receive(j, req, pick) => HandleHears(s, j, req, pick, id);
      case Disconnect(j) =>
        if j !in s.clients { UnknownLeaves(s, j); } else { RemoveTalks(s, j); }
      case WriterTakes(j) =>
        assert EventNumbers(before[id].sent) + Span(s.eventSeq, s.eventSeq) == EventNumbers(before[id].sent);
    }
  }

  lemma {:induction false} HandleHears(s: State, j: nat, req: Request, pick: nat, id: nat)
    requires j in s.clients && id in Handle(s, j, req, pick).clients
    ensures var t := Handle(s, j, req, pick);
      && id in s.clients && s.eventSeq <= t.eventSeq
      && t.subs == (if req.body.Subscribe? then s.subs + {j} else s.subs)
      && (req.body.Subscribe? ==> t.eventSeq == s.eventSeq)
      && EventNumbers(t.clients[id].sent)
           == EventNumbers(s.clients[id].sent) + if id in s.subs then Span(s.eventSeq, t.eventSeq) else []
  {
    hide Handle, EventNumbers, UpsertAll;
    HandleTalks(s, j, req, pick);
    var t := Handle(s, j, req, pick);
    assert Heard(Edited(s, j, req), t, id);
    if req.body.Subscribe? { SubscribeIsQuiet(s, j, req, pick); }
  }

  lemma {:induction false} SubscribeIsQuiet(s: State, j: nat, req: Request, pick: nat)
    requires j in s.clients && req.body.Subscribe?
    ensures Handle(s, j, req, pick).eventSeq == s.eventSeq && Span(s.eventSeq, s.eventSeq) == []
  {
  }

  /** In every run, who is not subscribed has been sent no event. */
  lemma {:induction false} NoneUnsubscribed(states: seq<State>, steps: seq<Step>, i: nat, id: nat)
    requires IsRun(states, steps) && i < |states| && id in states[i].clients && id !in states[i].subs
    ensures EventNumbers(states[i].clients[id].sent) == []
  {
    hide Next, Enabled, EventNumbers;
    var s, step := states[i - 1], steps[i - 1];
    assert Enabled(s, step) && states[i] == Next(s, step);
    StaysMinted(states, steps, i, i, id);
    NextMints(s, step);
    if id <= s.nextClient {
      NextHears(s, step, id);
      NoneUnsubscribed(states, steps, i - 1, id);
    } else {
      NewcomerHeardNone();
    }
  }

  lemma {:induction false} NewcomerHeardNone()
    ensures EventNumbers(NEW_CONN.sent) == []
  {
  }

  /** Ids are minted by connecting, and a newcomer starts with nothing. */
  lemma {:induction false} NextMints(s: State, step: Step)
    requires Enabled(s, step)
    ensures var t := Next(s, step);
      && t.nextClient == s.nextClient + (if step.Connect? then 1 else 0)
      && (step.Connect? ==> t.subs == s.subs && t.clients[t.nextClient] == NEW_CONN)
  {
    hide Handle, RemoveConn, Heard, UpsertAll, Without;
    match step {
      case Connect =>
      case Receive(j, req, pick) => HandleTalks(s, j, req, pick);
      case Disconnect(j) => if j !in s.clients { UnknownLeaves(s, j); } else { RemoveTalks(s, j); }
      case WriterTakes(j) =>
    }
  }

  /** An id that was connected once is among the minted ones from then on. */
  lemma {:induction false} StaysMinted(states: seq<State>, steps: seq<Step>, a: nat, i: nat, id: nat)
    requires IsRun(states, steps) && a <= i < |states| && id in states[a].clients
    ensures id <= states[i].nextClient
  {
    hide Next, Enabled;
    if i == a {
      BrokerRuns.RunGood(states, steps, a);
    } else {
      StaysMinted(states, steps, a, i - 1, id);
      assert Enabled(states[i - 1], steps[i - 1]) && states[i] == Next(states[i - 1], steps[i - 1]);
      NextMints(states[i - 1], steps[i - 1]);
    }
  }

  /**
   The bus delivers: from the step by which a client subscribes, for as long as it is connected, it is sent
   exactly the events emitted since, each once and in order.
   */
  lemma {:induction false} SubscriberHearsAll(states: seq<State>, steps: seq<Step>, a: nat, i: nat, id: nat)
    requires IsRun(states, steps) && a < i < |states|
    requires Subscribes(states[a], steps[a], id) && id in states[i].clients
    ensures id in states[i].subs && states[a].eventSeq <= states[i].eventSeq
    ensures EventNumbers(states[i].clients[id].sent) == Span(states[a].eventSeq, states[i].eventSeq)
  {
    hide Next, Enabled, EventNumbers;
    var s, step := states[i - 1], steps[i - 1];
    assert Enabled(s, step) && states[i] == Next(s, step);
    SubscriberIsConnected(states[a], steps[a], id);
    StaysMinted(states, steps, a, i - 1, id);
    NextHears(s, step, id);
    if i == a + 1 {
      NoneUnsubscribed(states, steps, a, id);
      assert Span(s.eventSeq, s.eventSeq) == [];
    } else {
      SubscriberHearsAll(states, steps, a, i - 1, id);
      assert Span(states[a].eventSeq, s.eventSeq) + Span(s.eventSeq, states[i].eventSeq)
          == Span(states[a].eventSeq, states[i].eventSeq);
    }
  }

  lemma {:induction false} SubscriberIsConnected(s: State, step: Step, id: nat)
    requires Enabled(s, step) && Subscribes(s, step, id)
    ensures id in s.clients
  {
  }

  /** Every subscriber once subscribed, and has been sent exactly the events emitted since. */
  lemma {:induction false} EverySubscriberSubscribed(states: seq<State>, steps: seq<Step>, i: nat, id: nat)
    returns (a: nat)
    requires IsRun(states, steps) && i < |states| && id in states[i].clients && id in states[i].subs
    ensures a < i && Enabled(states[a], steps[a]) && Subscribes(states[a], steps[a], id)
    ensures states[a].eventSeq <= states[i].eventSeq
    ensures EventNumbers(states[i].clients[id].sent) == Span(states[a].eventSeq, states[i].eventSeq)
  {
    hide Next, Enabled, EventNumbers, Subscribes;
    a := WhenSubscribed(states, steps, i, id);
    SubscriberHearsAll(states, steps, a, i, id);
  }

  lemma {:induction false} WhenSubscribed(states: seq<State>, steps: seq<Step>, i: nat, id: nat) returns (a: nat)
    requires IsRun(states, steps) && i < |states| && id in states[i].clients && id in states[i].subs
    ensures a < i && Enabled(states[a], steps[a]) && Subscribes(states[a], steps[a], id)
  {
    hide Next, Enabled, EventNumbers;
    var s, step := states[i - 1], steps[i - 1];
    assert Enabled(s, step) && states[i] == Next(s, step);
    StaysMinted(states, steps, i, i, id);
    NextMints(s, step);
    if id > s.nextClient { NewcomerUnsubscribed(states, steps, i - 1); }
    NextHears(s, step, id);
    if id in s.subs { a := WhenSubscribed(states, steps, i - 1, id); } else { a := i - 1; }
  }

  lemma {:induction false} NewcomerUnsubscribed(states: seq<State>, steps: seq<Step>, i: nat)
    requires IsRun(states, steps) && i < |states|
    ensures states[i].nextClient + 1 !in states[i].subs
  {
    BrokerRuns.RunGood(states, steps, i);
  }

  /** What the channel of a client that lost nothing holds: every event since it subscribed, or none if it did not. */
  lemma {:induction false} ChannelHearsAll(states: seq<State>, steps: seq<Step>, i: nat, id: nat) returns (a: nat)
    requires IsRun(states, steps) && i < |states| && id in states[i].clients
    requires BrokerRuns.Lossless(states[i].clients[id])
    ensures if id in states[i].subs then
        && a < i && Enabled(states[a], steps[a]) && Subscribes(states[a], steps[a], id)
        && states[a].eventSeq <= states[i].eventSeq
        && EventNumbers(states[i].clients[id].log) == Span(states[a].eventSeq, states[i].eventSeq)
      else
        EventNumbers(states[i].clients[id].log) == []
  {
    hide Next, Enabled, EventNumbers, Subscribes;
    BrokerRuns.LosslessHasAll(states, steps, i, id);
    a := 0;
    if id in states[i].subs {
      a := EverySubscriberSubscribed(states, steps, i, id);
    } else {
      NoneUnsubscribed(states, steps, i, id);
    }
  }

  /** Hence such a subscriber's event numbers are consecutive and end with the latest. */
  lemma {:induction false} EventsAreConsecutive(states: seq<State>, steps: seq<Step>, i: nat, id: nat)
    requires IsRun(states, steps) && i < |states| && id in states[i].clients
    requires BrokerRuns.Lossless(states[i].clients[id])
    ensures var s := states[i];
      var numbers := EventNumbers(s.clients[id].log);
      if id in s.subs then forall k | 0 <= k < |numbers| :: numbers[k] == s.eventSeq - |numbers| + 1 + k else numbers == []
  {
    hide Next, Enabled, EventNumbers, Subscribes;
    var a := ChannelHearsAll(states, steps, i, id);
  }

  // ----- who a client is ------------------------------------------------------

  /** The requests client id sent, in order. */
  function RequestsOf(steps: seq<Step>, id: nat): seq<Request> {
    if steps == [] then []
    else
      var last := steps[|steps| - 1];
      RequestsOf(steps[..|steps| - 1], id) + if last.Receive? && last.id == id then [last.req] else []
  }

  /** The name given in the last hello. */
  function LastName(asked: seq<Request>): string {
    if asked == [] then ""
    else if asked[|asked| - 1].body.Hello? then asked[|asked| - 1].body.name
    else LastName(asked[..|asked| - 1])
  }

  /** Some hello carried the role. */
  ghost predicate Claimed(asked: seq<Request>, role: string) {
    exists r :: r in asked && r.body.Hello? && role in r.body.roles
  }

  ghost predicate SaidHello(asked: seq<Request>) { exists r :: r in asked && r.body.Hello? }

  /** A connection's record of its requests, and who they make it. */
  ghost predicate Identified(c: Conn, asked: seq<Request>) {
    && c.asked == asked && c.name == LastName(asked) && (c.greeted <==> SaidHello(asked))
    && forall role :: role in c.roles <==> Claimed(asked, role)
  }

  lemma {:induction false} AnotherRequest(asked: seq<Request>, r: Request, role: string)
    ensures LastName(asked + [r]) == if r.body.Hello? then r.body.name else LastName(asked)
    ensures SaidHello(asked + [r]) <==> SaidHello(asked) || r.body.Hello?
    ensures Claimed(asked + [r], role) <==> Claimed(asked, role) || (r.body.Hello? && role in r.body.roles)
  {
    assert (asked + [r])[..|asked|] == asked;
    assert r in asked + [r];
    if q :| q in asked && q.body.Hello? { assert q in asked + [r]; }
    if q :| q in asked && q.body.Hello? && role in q.body.roles { assert q in asked + [r]; }
  }

  lemma {:induction false} NextIdentifies(s: State, step: Step, id: nat, asked: seq<Request>)
    requires Enabled(s, step) && id in s.clients && id in Next(s, step).clients && id <= s.nextClient
    requires Identified(s.clients[id], asked)
    ensures Identified(Next(s, step).clients[id], asked + if step.Receive? && step.id == id then [step.req] else [])
  {
    hide Handle, RemoveConn, Heard, Filled, UpsertAll, Without, LastName, SaidHello, Claimed;
    assert asked + [] == asked;
    match step {
      case Connect =>
      case Receive(j, req, pick) =>
        HandleTalks(s, j, req, pick);
        forall role
          ensures Claimed(asked + [req], role) <==> Claimed(asked, role) || (req.body.Hello? && role in req.body.roles)
        {
          AnotherRequest(asked, req, role);
        }
        AnotherRequest(asked, req, "");
      case Disconnect(j) => if j !in s.clients { UnknownLeaves(s, j); } else { RemoveTalks(s, j); }
      case WriterTakes(j) =>
    }
  }

  /** No one unknown sends anything. */
  lemma {:induction false} NoneBefore(states: seq<State>, steps: seq<Step>, i: nat, id: nat)
    requires IsRun(states, steps) && i < |states| && id > states[i].nextClient
    ensures RequestsOf(steps[..i], id) == []
  {
    hide Next;
    if i > 0 {
      NextMints(states[i - 1], steps[i - 1]);
      NoneBefore(states, steps, i - 1, id);
      BrokerRuns.RunGood(states, steps, i - 1);
      assert steps[..i][..i - 1] == steps[..i - 1];
    }
  }

  /**
   Who a connected client is: the broker has on record exactly the requests it sent, in order; its name is that of
   its last hello, it counts as greeted once it said one, and it has a role, that of a window manager for one,
   exactly if one of its hellos carried it.
   */
  lemma {:induction false} HellosIdentify(states: seq<State>, steps: seq<Step>, i: nat, id: nat)
    requires IsRun(states, steps) && i < |states| && id in states[i].clients
    ensures Identified(states[i].clients[id], RequestsOf(steps[..i], id))
  {
    hide Next, Enabled, Identified, RequestsOf;
    var s, step := states[i - 1], steps[i - 1];
    assert Enabled(s, step) && states[i] == Next(s, step);
    StaysMinted(states, steps, i, i, id);
    NextMints(s, step);
    OneMoreStep(steps, i, id);
    if id <= s.nextClient {
      NextHears(s, step, id);
      HellosIdentify(states, steps, i - 1, id);
      NextIdentifies(s, step, id, RequestsOf(steps[..i - 1], id));
    } else {
      NoneBefore(states, steps, i - 1, id);
      NewcomerIdentified();
    }
  }

  lemma {:induction false} OneMoreStep(steps: seq<Step>, i: nat, id: nat)
    requires 0 < i <= |steps|
    ensures RequestsOf(steps[..i], id)
         == RequestsOf(steps[..i - 1], id) + if steps[i - 1].Receive? && steps[i - 1].id == id then [steps[i - 1].req] else []
  {
    assert steps[..i][..i - 1] == steps[..i - 1];
  }

  lemma {:induction false} NewcomerIdentified()
    ensures Identified(NEW_CONN, [])
  {
  }

  // ----- the registry -------------------------------------------------------

  /** No two verbs share an owner and an id. */
  ghost predicate VerbsUnique(verbs: seq<Verb>) {
    forall i, j | 0 <= i < j < |verbs| :: verbs[i].owner != verbs[j].owner || verbs[i].id != verbs[j].id
  }

  /** Every verb registered under a name has a connected client of that name. */
  ghost predicate Owned(s: State) {
    forall v | v in s.verbs && v.owner != "" :: HasClient(s, v.owner)
  }

  ghost predicate HasClient(s: State, name: string) { exists id :: id in s.clients && s.clients[id].name == name }

  /** Where the verb goes: in place of the first of its owner and id, or at the end. */
  lemma {:induction false} FirstMatch(verbs: seq<Verb>, v: Verb) returns (at: nat)
    ensures at <= |verbs| && forall k | 0 <= k < at :: verbs[k].owner != v.owner || verbs[k].id != v.id
    ensures at < |verbs| ==> verbs[at].owner == v.owner && verbs[at].id == v.id
    ensures Upsert(verbs, v) == if at < |verbs| then verbs[at := v] else verbs + [v]
  {
    if verbs == [] || (verbs[0].owner == v.owner && verbs[0].id == v.id) {
      at := 0;
    } else {
      var rest := verbs[1..];
      var below := FirstMatch(rest, v);
      at := below + 1;
      assert forall k | 1 <= k < |verbs| :: verbs[k] == rest[k - 1];
      Prepended(verbs[0], rest, below, v);
      assert verbs == [verbs[0]] + rest;
    }
  }

  lemma {:induction false} Prepended(u: Verb, rest: seq<Verb>, at: nat, v: Verb)
    requires at <= |rest|
    ensures [u] + (if at < |rest| then rest[at := v] else rest + [v])
         == if at + 1 < |[u] + rest| then ([u] + rest)[at + 1 := v] else [u] + rest + [v]
  {
  }

  /** Registering replaces the first verb of that owner and id where it stands, or appends; nothing else changes. */
  lemma {:induction false} UpsertPlaces(verbs: seq<Verb>, v: Verb) returns (at: nat)
    ensures at <= |verbs| && forall k | 0 <= k < at :: verbs[k].owner != v.owner || verbs[k].id != v.id
    ensures at < |verbs| ==> verbs[at].owner == v.owner && verbs[at].id == v.id
    ensures Upsert(verbs, v) == if at < |verbs| then verbs[at := v] else verbs + [v]
    ensures v in Upsert(verbs, v)
    ensures |verbs| <= |Upsert(verbs, v)| <= |verbs| + 1
    ensures forall i | 0 <= i < |verbs| ::
      Upsert(verbs, v)[i] == verbs[i] || (Upsert(verbs, v)[i] == v && verbs[i].owner == v.owner && verbs[i].id == v.id)
    ensures |Upsert(verbs, v)| > |verbs| ==>
      Upsert(verbs, v)[|verbs|] == v && forall u | u in verbs :: u.owner != v.owner || u.id != v.id
  {
    hide Upsert;
    at := FirstMatch(verbs, v);
    assert Upsert(verbs, v)[at] == v;
  }

  lemma {:induction false} UpsertUnique(verbs: seq<Verb>, v: Verb)
    requires VerbsUnique(verbs)
    ensures VerbsUnique(Upsert(verbs, v))
  {
    hide Upsert;
    var _ := UpsertPlaces(verbs, v);
  }

  lemma {:induction false} UpsertAllUnique(verbs: seq<Verb>, added: seq<Verb>, owner: string)
    requires VerbsUnique(verbs)
    ensures VerbsUnique(UpsertAll(verbs, added, owner))
    ensures forall u | u in UpsertAll(verbs, added, owner) :: u in verbs || u.owner == owner
    decreases |added|
  {
    hide VerbsUnique, Upsert;
    if added != [] {
      var v := added[0].(owner := owner);
      UpsertUnique(verbs, v);
      var _ := UpsertPlaces(verbs, v);
      UpsertAllUnique(Upsert(verbs, v), added[1..], owner);
    }
  }

  lemma {:induction false} WithoutKeeps(verbs: seq<Verb>, owner: string)
    requires VerbsUnique(verbs)
    ensures VerbsUnique(Without(verbs, owner))
    ensures forall u :: u in Without(verbs, owner) <==> u in verbs && (u.owner != owner || owner == "")
  {
    if verbs != [] {
      assert VerbsUnique(verbs[1..]);
      WithoutKeeps(verbs[1..], owner);
      assert forall u | u in verbs[1..] :: u.owner != verbs[0].owner || u.id != verbs[0].id;
    }
  }

  lemma {:induction false} NextUnique(s: State, step: Step)
    requires Enabled(s, step) && VerbsUnique(s.verbs)
    ensures VerbsUnique(Next(s, step).verbs)
  {
    hide Handle, RemoveConn, VerbsUnique, Heard, Upsert, UpsertAll, Without;
    match step {
      case Connect =>
      case Receive(id, req, pick) =>
        HandleTalks(s, id, req, pick);
        if req.body.Register? { UpsertAllUnique(s.verbs, req.body.verbs, s.clients[id].name); }
      case Disconnect(id) =>
        if id !in s.clients {
          UnknownLeaves(s, id);
        } else {
          RemoveTalks(s, id);
          WithoutKeeps(s.verbs, s.clients[id].name);
        }
      case WriterTakes(id) =>
    }
  }

  /** The client leaves a name under which verbs are registered and which nobody else bears. */
  predicate Abandons(s: State, id: nat, newName: string)
    requires id in s.clients
  {
    var left := s.clients[id].name;
    && left != "" && left != newName
    && (exists v | v in s.verbs :: v.owner == left)
    && forall j | j in s.clients :: j != id ==> s.clients[j].name != left
  }

  lemma {:induction false} TalkKeepsOwned(s: State, t: State)
    requires Talked(s, t)
    ensures Owned(t) <==> Owned(s)
  {
    hide Heard;
    forall name ensures HasClient(t, name) <==> HasClient(s, name) {
    }
  }

  /** Renaming keeps every verb owned exactly if it abandons no name. */
  lemma {:induction false} RenameOwned(s: State, id: nat, name: string, roles: set<string>)
    requires id in s.clients && Owned(s)
    ensures Owned(Renamed(s, id, name, roles)) <==> !Abandons(s, id, name)
  {
    var t := Renamed(s, id, name, roles);
    var left := s.clients[id].name;
    if Abandons(s, id, name) {
      var v :| v in s.verbs && v.owner == left;
      assert !HasClient(t, left);
    } else {
      forall v | v in t.verbs && v.owner != ""
        ensures HasClient(t, v.owner)
      {
        if j :| j in s.clients && j != id && s.clients[j].name == v.owner {
          assert t.clients[j].name == v.owner;
        } else {
          assert s.clients[id].name == v.owner;
          assert t.clients[id].name == v.owner;
        }
      }
    }
  }

  lemma {:induction false} RegisterOwned(s: State, id: nat, verbs: seq<Verb>)
    requires id in s.clients && Owned(s) && VerbsUnique(s.verbs)
    ensures Owned(s.(verbs := UpsertAll(s.verbs, verbs, s.clients[id].name)))
  {
    hide UpsertAll, VerbsUnique;
    UpsertAllUnique(s.verbs, verbs, s.clients[id].name);
    var t := s.(verbs := UpsertAll(s.verbs, verbs, s.clients[id].name));
    forall v | v in t.verbs && v.owner != ""
      ensures HasClient(t, v.owner)
    {
      if v in s.verbs { assert HasClient(s, v.owner); } else { assert t.clients[id].name == v.owner; }
    }
  }

  lemma {:induction false} StrikeOwned(s: State, id: nat)
    requires id in s.clients && Owned(s) && VerbsUnique(s.verbs)
    ensures Owned(StruckOff(s, id))
  {
    hide Without, VerbsUnique;
    WithoutKeeps(s.verbs, s.clients[id].name);
    var t := StruckOff(s, id);
    forall v | v in t.verbs && v.owner != ""
      ensures HasClient(t, v.owner)
    {
      assert HasClient(s, v.owner);
      var j :| j in s.clients && s.clients[j].name == v.owner;
      assert t.clients[j].name == v.owner;
    }
  }

  lemma {:induction false} SameNamesOwned(s: State, t: State)
    requires t.verbs == s.verbs && s.clients.Keys <= t.clients.Keys
    requires forall id | id in s.clients :: t.clients[id].name == s.clients[id].name
    requires Owned(s)
    ensures Owned(t)
  {
    forall v | v in t.verbs && v.owner != ""
      ensures HasClient(t, v.owner)
    {
      var j :| j in s.clients && s.clients[j].name == v.owner;
      assert t.clients[j].name == v.owner;
    }
  }

  lemma {:induction false} HelloOwned(s: State, id: nat, req: Request)
    requires id in s.clients && Owned(s) && req.body.Hello?
    ensures Owned(Edited(s, id, req)) <==> !Abandons(s, id, req.body.name)
  {
    hide Renamed, Owned;
    var t := Noted(s, id, req);
    SameNamesOwned(s, t);
    RenameOwned(t, id, req.body.name, req.body.roles);
    assert t.clients[id].name == s.clients[id].name && t.verbs == s.verbs;
  }

  /** Every step keeps every verb owned, except a hello by which the last bearer of a name abandons its verbs. */
  lemma {:induction false} NextOwned(s: State, step: Step)
    requires Enabled(s, step) && Sound(s) && VerbsUnique(s.verbs) && Owned(s)
    ensures Owned(Next(s, step)) <==> !(step.Receive? && step.req.body.Hello? && Abandons(s, step.id, step.req.body.name))
  {
    hide Handle, RemoveConn, Talked, Owned, VerbsUnique, StruckOff, Renamed, UpsertAll, Abandons;
    match step {
      case Connect => SameNamesOwned(s, Next(s, step));
      case Receive(id, req, pick) =>
        HandleTalks(s, id, req, pick);
        TalkKeepsOwned(Edited(s, id, req), Handle(s, id, req, pick));
        match req.body {
          case Hello(name, roles) => HelloOwned(s, id, req);
          case Register(verbs) =>
            SameNamesOwned(s, Noted(s, id, req));
            RegisterOwned(Noted(s, id, req), id, verbs);
          case _ => SameNamesOwned(s, Edited(s, id, req));
        }
      case Disconnect(id) =>
        if id !in s.clients {
          UnknownLeaves(s, id);
        } else {
          StrikeOwned(s, id);
          RemoveTalks(s, id);
          TalkKeepsOwned(StruckOff(s, id), RemoveConn(s, id));
        }
      case WriterTakes(id) => SameNamesOwned(s, Next(s, step));
    }
  }

  /** A client that has not said hello has no name. */
  ghost predicate Anonymous(s: State) {
    forall id | id in s.clients :: s.clients[id].greeted || s.clients[id].name == ""
  }

  lemma {:induction false} NextAnonymous(s: State, step: Step)
    requires Enabled(s, step) && Anonymous(s)
    ensures Anonymous(Next(s, step))
  {
    hide Handle, RemoveConn, Heard, UpsertAll, Without;
    match step {
      case Connect =>
      case Receive(id, req, pick) =>
        HandleTalks(s, id, req, pick);
        assert Anonymous(Edited(s, id, req));
      case Disconnect(id) =>
        if id !in s.clients { UnknownLeaves(s, id); } else { RemoveTalks(s, id); }
      case WriterTakes(id) =>
    }
  }

  /** No client says hello a second time. */
  ghost predicate HelloOnce(states: seq<State>, steps: seq<Step>)
    requires IsRun(states, steps)
  {
    forall i | 0 <= i < |steps| && steps[i].Receive? && steps[i].req.body.Hello? ::
      !states[i].clients[steps[i].id].greeted
  }

  lemma {:induction false} RunUnique(states: seq<State>, steps: seq<Step>, i: nat)
    requires IsRun(states, steps) && i < |states|
    ensures VerbsUnique(states[i].verbs) && Anonymous(states[i])
  {
    hide Enabled, Next;
    if i > 0 {
      RunUnique(states, steps, i - 1);
      assert states[i] == Next(states[i - 1], steps[i - 1]);
      NextUnique(states[i - 1], steps[i - 1]);
      NextAnonymous(states[i - 1], steps[i - 1]);
    }
  }

  /**
   In every run, no verb is registered twice under one owner; and if no client says hello twice, every
   verb with an owner has a connected client of that name.
   */
  lemma {:induction false} RegistryHolds(states: seq<State>, steps: seq<Step>, i: nat)
    requires IsRun(states, steps) && i < |states|
    ensures VerbsUnique(states[i].verbs)
    ensures HelloOnce(states, steps) ==> Owned(states[i])
  {
    hide Next, VerbsUnique, Owned;
    RunUnique(states, steps, i);
    if i == 0 {
      NothingOwned();
    } else if HelloOnce(states, steps) {
      var s, step := states[i - 1], steps[i - 1];
      RegistryHolds(states, steps, i - 1);
      RunUnique(states, steps, i - 1);
      BrokerRuns.RunGood(states, steps, i - 1);
      assert states[i] == Next(s, step) && Enabled(s, step);
      NextOwned(s, step);
      if step.Receive? && step.req.body.Hello? {
        assert !s.clients[step.id].greeted;
        assert s.clients[step.id].name == "";
      }
    }
  }

  lemma {:induction false} NothingOwned()
    ensures Owned(START)
  {
    assert START.verbs == [];
  }

  const ABANDONING := [
    Connect,
    Receive(1, Request(1, Hello("alice", {})), 0),
    Receive(1, Request(2, Register([Verb("open", "Open", ["file"], "")])), 0),
    Receive(1, Request(3, Hello("bob", {})), 0)
  ]

  /** Saying hello twice can orphan a verb: alice registers one, then says hello as bob. */
  lemma {:induction false} RenameOrphansVerb()
    ensures exists states :: IsRun(states, ABANDONING) && !Owned(states[4])
  {
    hide Handle, Owned, VerbsUnique, Heard, Abandons;
    var s1 := Next(START, ABANDONING[0]);
    var s2 := Next(s1, ABANDONING[1]);
    AliceArrives(s1, s2);
    var s3 := Next(s2, ABANDONING[2]);
    AliceRegisters(s2, s3);
    var s4 := Next(s3, ABANDONING[3]);
    var states := [START, s1, s2, s3, s4];
    assert IsRun(states, ABANDONING);
    RunUnique(states, ABANDONING, 3);
    BrokerRuns.RunGood(states, ABANDONING, 3);
    OwnedAtThree(states);
    AliceAbandons(s3);
    NextOwned(s3, ABANDONING[3]);
  }

  lemma {:induction false} AliceAbandons(s: State)
    requires s.clients.Keys == {1} && s.clients[1].name == "alice"
    requires s.verbs == [Verb("open", "Open", ["file"], "alice")]
    ensures Abandons(s, 1, "bob")
  {
    assert "alice"[0] != "bob"[0];
    assert s.verbs[0].owner == "alice";
  }

  lemma {:induction false} AliceArrives(s1: State, s2: State)
    requires s1 == Next(START, ABANDONING[0]) && Enabled(s1, ABANDONING[1]) && s2 == Next(s1, ABANDONING[1])
    ensures s2.clients.Keys == {1} && s2.clients[1].name == "alice" && s2.verbs == []
  {
    hide Handle, Heard;
    HandleTalks(s1, 1, ABANDONING[1].req, 0);
  }

  lemma {:induction false} AliceRegisters(s2: State, s3: State)
    requires s2.clients.Keys == {1} && s2.clients[1].name == "alice" && s2.verbs == []
    requires Enabled(s2, ABANDONING[2]) && s3 == Next(s2, ABANDONING[2])
    ensures s3.clients.Keys == {1} && s3.clients[1].name == "alice"
    ensures s3.verbs == [Verb("open", "Open", ["file"], "alice")]
  {
    hide Handle, Heard;
    HandleTalks(s2, 1, ABANDONING[2].req, 0);
    var v := Verb("open", "Open", ["file"], "alice");
    assert UpsertAll(Upsert([], v), [], "alice") == [v];
  }

  lemma {:induction false} OwnedAtThree(states: seq<State>)
    requires IsRun(states, ABANDONING) && 1 in states[1].clients && states[1].clients[1].name == ""
    ensures Owned(states[3])
  {
    hide Next, Owned, VerbsUnique;
    RegistryHolds(states, ABANDONING, 0);
    NothingOwned();
    forall i | 0 <= i < 4
      ensures states[i + 1] == Next(states[i], ABANDONING[i]) && Enabled(states[i], ABANDONING[i])
      ensures VerbsUnique(states[i].verbs) && Sound(states[i])
    {
      RunUnique(states, ABANDONING, i);
      BrokerRuns.RunGood(states, ABANDONING, i);
    }
    NextOwned(states[0], ABANDONING[0]);
    NextOwned(states[1], ABANDONING[1]);
    NextOwned(states[2], ABANDONING[2]);
  }

  // ----- how long a registered verb stays -----------------------------------

  ghost predicate HasVerb(verbs: seq<Verb>, owner: string, id: string) {
    exists v :: v in verbs && v.owner == owner && v.id == id
  }

  lemma {:induction false} UpsertKeepsKeys(verbs: seq<Verb>, v: Verb, owner: string, id: string)
    ensures HasVerb(Upsert(verbs, v), owner, id) <==> HasVerb(verbs, owner, id) || (v.owner == owner && v.id == id)
  {
    hide Upsert;
    var _ := UpsertPlaces(verbs, v);
    var out := Upsert(verbs, v);
    if u :| u in verbs && u.owner == owner && u.id == id {
      var i :| 0 <= i < |verbs| && verbs[i] == u;
      assert out[i] in out;
    }
    if u :| u in out && u.owner == owner && u.id == id {
      var i :| 0 <= i < |out| && out[i] == u;
      if i < |verbs| { assert verbs[i] in verbs; }
    }
  }

  /** Registering adds exactly the keys registered. */
  lemma {:induction false} UpsertAllKeys(verbs: seq<Verb>, added: seq<Verb>, registrar: string, owner: string, id: string)
    ensures HasVerb(UpsertAll(verbs, added, registrar), owner, id) <==>
      HasVerb(verbs, owner, id) || (owner == registrar && exists v :: v in added && v.id == id)
    decreases |added|
  {
    hide HasVerb, Upsert;
    if added != [] {
      var v := added[0].(owner := registrar);
      UpsertKeepsKeys(verbs, v, owner, id);
      UpsertAllKeys(Upsert(verbs, v), added[1..], registrar, owner, id);
      assert added == [added[0]] + added[1..];
    }
  }

  /** The step by which a verb registered under this name is dropped: a client of that name leaves. */
  predicate BearerLeaves(s: State, step: Step, owner: string) {
    owner != "" && step.Disconnect? && step.id in s.clients && s.clients[step.id].name == owner
  }

  /** A verb stays through a step exactly if no bearer of its owner's name leaves, whoever registered it. */
  lemma {:induction false} NextKeepsVerb(s: State, step: Step, owner: string, id: string)
    requires Enabled(s, step) && VerbsUnique(s.verbs) && HasVerb(s.verbs, owner, id)
    ensures HasVerb(Next(s, step).verbs, owner, id) <==> !BearerLeaves(s, step, owner)
  {
    hide Handle, RemoveConn, VerbsUnique, Heard, Upsert, UpsertAll, Without;
    match step {
      case Connect =>
      case Receive(j, req, pick) =>
        HandleTalks(s, j, req, pick);
        if req.body.Register? { UpsertAllKeys(s.verbs, req.body.verbs, s.clients[j].name, owner, id); }
      case Disconnect(j) =>
        if j !in s.clients {
          UnknownLeaves(s, j);
        } else {
          RemoveTalks(s, j);
          WithoutKeeps(s.verbs, s.clients[j].name);
        }
      case WriterTakes(j) =>
    }
  }

  /**
   A verb a client registers is there from then on for as long as no client bearing its owner's name leaves:
   so a client keeps its verbs while it is connected if it is the only one of its name.
   */
  lemma {:induction false} RegisteredVerbStays(states: seq<State>, steps: seq<Step>, a: nat, b: nat, v: Verb)
    requires IsRun(states, steps) && a < b < |states|
    requires steps[a].Receive? && steps[a].req.body.Register? && v in steps[a].req.body.verbs
    requires forall k | a < k < b :: !BearerLeaves(states[k], steps[k], states[a].clients[steps[a].id].name)
    ensures HasVerb(states[b].verbs, states[a].clients[steps[a].id].name, v.id)
  {
    hide Next, Handle, HasVerb, Heard, VerbsUnique, UpsertAll;
    var j := steps[a].id;
    var owner := states[a].clients[j].name;
    assert states[b] == Next(states[b - 1], steps[b - 1]) && Enabled(states[b - 1], steps[b - 1]);
    if a + 1 == b {
      RegisterAdds(states[a], steps[a], v);
    } else {
      RegisteredVerbStays(states, steps, a, b - 1, v);
      RunUnique(states, steps, b - 1);
      NextKeepsVerb(states[b - 1], steps[b - 1], owner, v.id);
    }
  }

  lemma {:induction false} RegisterAdds(s: State, step: Step, v: Verb)
    requires Enabled(s, step) && step.Receive? && step.req.body.Register? && v in step.req.body.verbs
    ensures HasVerb(Next(s, step).verbs, s.clients[step.id].name, v.id)
  {
    hide Handle, HasVerb, Heard, UpsertAll;
    var name := s.clients[step.id].name;
    HandleTalks(s, step.id, step.req, step.pick);
    UpsertAllKeys(s.verbs, step.req.body.verbs, name, name, v.id);
  }

  /** The last of the verbs with this id. */
  function LastOf(added: seq<Verb>, id: string): Option<Verb> {
    if added == [] then None
    else if added[|added| - 1].id == id then Some(added[|added| - 1])
    else LastOf(added[..|added| - 1], id)
  }

  lemma {:induction false} UpsertSets(verbs: seq<Verb>, u: Verb, v: Verb)
    requires VerbsUnique(verbs)
    ensures v in Upsert(verbs, u) <==> if v.owner == u.owner && v.id == u.id then v == u else v in verbs
  {
    hide Upsert;
    var at := UpsertPlaces(verbs, u);
    var out := Upsert(verbs, u);
    if v in verbs && (v.owner != u.owner || v.id != u.id) {
      var i :| 0 <= i < |verbs| && verbs[i] == v;
      assert out[i] == v;
    }
  }

  lemma {:induction false} LastOfRest(added: seq<Verb>, id: string)
    requires added != []
    ensures LastOf(added, id) == if LastOf(added[1..], id).Some? then LastOf(added[1..], id)
                                 else if added[0].id == id then Some(added[0]) else None
  {
    if |added| > 1 && added[|added| - 1].id != id {
      LastOfRest(added[..|added| - 1], id);
      assert added[..|added| - 1][1..] == added[1..][..|added| - 2];
    }
  }

  lemma {:induction false} UpsertAllSets(verbs: seq<Verb>, added: seq<Verb>, owner: string, v: Verb)
    requires VerbsUnique(verbs)
    ensures v in UpsertAll(verbs, added, owner) <==>
      if v.owner == owner && LastOf(added, v.id).Some? then v == LastOf(added, v.id).value.(owner := owner) else v in verbs
    decreases |added|
  {
    hide VerbsUnique, Upsert, LastOf;
    if added == [] {
      NoneOf(v.id);
    } else {
      var u := added[0].(owner := owner);
      UpsertSets(verbs, u, v);
      UpsertUnique(verbs, u);
      UpsertAllSets(Upsert(verbs, u), added[1..], owner, v);
      LastOfRest(added, v.id);
      LastHasId(added[1..], v.id);
    }
  }

  lemma {:induction false} NoneOf(id: string)
    ensures LastOf([], id) == None
  {
  }

  lemma {:induction false} LastHasId(added: seq<Verb>, id: string)
    ensures LastOf(added, id).Some? ==> LastOf(added, id).value.id == id
  {
    if added != [] { LastHasId(added[..|added| - 1], id); }
  }

  /**
   What a register leaves on record: of the sender's own verbs, for each id listed exactly the last one listed, as
   it was given; and every other verb as it was.
   */
  lemma {:induction false} RegisterSets(states: seq<State>, steps: seq<Step>, k: nat, v: Verb)
    requires IsRun(states, steps) && k < |steps| && steps[k].Receive? && steps[k].req.body.Register?
    ensures var name, added := states[k].clients[steps[k].id].name, steps[k].req.body.verbs;
      v in states[k + 1].verbs <==>
      if v.owner == name && LastOf(added, v.id).Some? then v == LastOf(added, v.id).value.(owner := name)
      else v in states[k].verbs
  {
    hide Handle, Heard, Filled, UpsertAll, LastOf, VerbsUnique;
    var s, step := states[k], steps[k];
    assert Enabled(s, step) && states[k + 1] == Next(s, step);
    HandleTalks(s, step.id, step.req, step.pick);
    RunUnique(states, steps, k);
    UpsertAllSets(s.verbs, step.req.body.verbs, s.clients[step.id].name, v);
  }

  const TWINS := [
    Connect,
    Connect,
    Receive(1, Request(1, Hello("alice", {})), 0),
    Receive(2, Request(1, Hello("alice", {})), 0),
    Receive(1, Request(2, Register([Verb("open", "Open", ["file"], "")])), 0),
    Disconnect(2)
  ]

  lemma {:induction false} TwoConnect()
    ensures AddConn(AddConn(START)).clients.Keys == {1, 2}
  {
  }

  lemma {:induction false} TwinsMeet() returns (states: seq<State>)
    ensures IsRun(states, TWINS)
    ensures states[4].clients.Keys == states[5].clients.Keys == {1, 2} && states[6].clients.Keys == {1}
    ensures states[4].clients[1].name == states[5].clients[2].name == states[6].clients[1].name == "alice"
  {
    hide Handle, RemoveConn, AddConn;
    var s1 := Next(START, TWINS[0]);
    var s2 := Next(s1, TWINS[1]);
    TwoConnect();
    var s3 := Next(s2, TWINS[2]);
    AliceGreets(s2, 1);
    var s4 := Next(s3, TWINS[3]);
    AliceGreets(s3, 2);
    var s5 := Next(s4, TWINS[4]);
    SameNames(s4, TWINS[4]);
    var s6 := Next(s5, TWINS[5]);
    LeaverGone(s5, 2);
    states := [START, s1, s2, s3, s4, s5, s6];
  }

  /** The finding: of two clients of one name, the one that leaves takes the other's verb with it. */
  lemma {:induction false} TwinTakesVerb() returns (states: seq<State>)
    ensures IsRun(states, TWINS)
    ensures HasVerb(states[5].verbs, "alice", "open") && !HasVerb(states[6].verbs, "alice", "open")
    ensures 1 in states[6].clients && states[6].clients[1].name == "alice"
  {
    hide Next, HasVerb, VerbsUnique;
    states := TwinsMeet();
    RegisteredVerbStays(states, TWINS, 4, 5, TWINS[4].req.body.verbs[0]);
    RunUnique(states, TWINS, 5);
    assert states[6] == Next(states[5], TWINS[5]) && Enabled(states[5], TWINS[5]);
    NextKeepsVerb(states[5], TWINS[5], "alice", "open");
  }

  lemma {:induction false} AliceGreets(s: State, id: nat)
    requires id in s.clients
    ensures var t := Handle(s, id, Request(1, Hello("alice", {})), 0);
      && t.clients.Keys == s.clients.Keys && t.clients[id].name == "alice"
      && forall j | j in s.clients && j != id :: t.clients[j].name == s.clients[j].name
  {
    hide Handle, Heard;
    HandleTalks(s, id, Request(1, Hello("alice", {})), 0);
  }

  lemma {:induction false} SameNames(s: State, step: Step)
    requires Enabled(s, step) && step.Receive? && step.req.body.Register?
    ensures var t := Next(s, step);
      t.clients.Keys == s.clients.Keys && forall j | j in s.clients :: t.clients[j].name == s.clients[j].name
  {
    hide Handle, Heard, UpsertAll;
    HandleTalks(s, step.id, step.req, step.pick);
  }

  lemma {:induction false} LeaverGone(s: State, id: nat)
    requires id in s.clients
    ensures var t := RemoveConn(s, id);
      t.clients.Keys == s.clients.Keys - {id} && forall j | j in t.clients :: t.clients[j].name == s.clients[j].name
  {
    hide RemoveConn, Heard, Without;
    RemoveTalks(s, id);
  }
}
