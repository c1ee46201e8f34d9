/**
 The broker as a value and the meaning of each thing its loop does: a connection is added,
 a message is handled, a connection is removed, a writer takes one queued message.

 Besides what the source keeps, a connection remembers what was asked of the broker on it and
 everything the broker tried to send it, so that the two can be compared.
 */
module Broker {
  import opened Wrappers
  import opened Ids
  import opened Wire

  /** Slots of a connection's send channel; a message that finds it full is dropped. */
  const SEND_SLOTS: nat := 128

  /**
   name, roles and the send channel, which is log[taken..]; and, as history, whether it said
   hello, what it asked, and what was sent to it whether or not it fitted.
   */
  datatype Conn = Conn(name: string, roles: set<string>, log: seq<Msg>, taken: nat,
                       greeted: bool, asked: seq<Request>, sent: seq<Msg>)

  datatype Session = Session(id: string, requester: nat, no: nat, ptypes: seq<string>, prompt: string)

  datatype State = State(clients: map<nat, Conn>, verbs: seq<Verb>, session: Option<Session>, subs: set<nat>,
                         nextClient: nat, nextSess: nat, eventSeq: nat)

  const NEW_CONN := Conn("", {}, [], 0, false, [], [])

  // ----- sending ------------------------------------------------------------

  function Enqueue(c: Conn, m: Msg): (d: Conn)
    ensures ChannelOk(c) ==> ChannelOk(d)
  {
    assert (c.log + [m])[..|c.log|] == c.log && (c.sent + [m])[..|c.sent|] == c.sent;
    c.(log := if |c.log| - c.taken < SEND_SLOTS then c.log + [m] else c.log, sent := c.sent + [m])
  }

  /** a is what remains of b, in order, when some messages are lost. */
  ghost predicate Within(a: seq<Msg>, b: seq<Msg>) {
    if b == [] then a == []
    else
      || Within(a, b[..|b| - 1])
      || (a != [] && a[|a| - 1] == b[|b| - 1] && Within(a[..|a| - 1], b[..|b| - 1]))
  }

  /** A channel holds at most its slots, and what was put on it is what was sent less what was dropped. */
  ghost predicate ChannelOk(c: Conn) {
    && c.taken <= |c.log| <= |c.sent| && |c.log| - c.taken <= SEND_SLOTS
    && Within(c.log, c.sent)
  }

  /** Client ids were minted, subscribers are connected, and every channel is sound. */
  ghost predicate Sound(s: State) {
    && (forall id | id in s.clients :: 1 <= id <= s.nextClient && ChannelOk(s.clients[id]))
    && s.subs <= s.clients.Keys
  }

  /** What arrives was sent, and if nothing is missing it is all that was sent. */
  lemma {:induction false} WithinKeeps(a: seq<Msg>, b: seq<Msg>)
    requires Within(a, b)
    ensures |a| <= |b| && (|a| == |b| ==> a == b)
    ensures forall m | m in a :: m in b
  {
    if b != [] {
      var rest := b[..|b| - 1];
      if Within(a, rest) {
        WithinKeeps(a, rest);
      } else {
        WithinKeeps(a[..|a| - 1], rest);
        assert a == a[..|a| - 1] + [b[|b| - 1]] && b == rest + [b[|b| - 1]];
      }
    }
  }

  /** Sending touches nothing but the channels it sends on. */
  ghost predicate OnlySent(s: State, t: State) {
    && t.session == s.session && t.verbs == s.verbs && t.subs == s.subs
    && t.nextClient == s.nextClient && t.nextSess == s.nextSess
    && t.clients.Keys == s.clients.Keys
  }

  function SendTo(s: State, id: nat, m: Msg): (t: State)
    ensures OnlySent(s, t) && t.eventSeq == s.eventSeq
    ensures Sound(s) ==> Sound(t)
  {
    if id in s.clients then s.(clients := s.clients[id := Enqueue(s.clients[id], m)]) else s
  }

  /** Sends m to every client in the group. */
  function SendAll(s: State, group: set<nat>, m: Msg): (t: State)
    ensures OnlySent(s, t) && t.eventSeq == s.eventSeq
    ensures Sound(s) ==> Sound(t)
  {
    s.(clients := map id | id in s.clients :: if id in group then Enqueue(s.clients[id], m) else s.clients[id])
  }

  function Broadcast(s: State, m: Msg): (t: State)
    ensures OnlySent(s, t) && t.eventSeq == s.eventSeq
    ensures Sound(s) ==> Sound(t)
  {
    SendAll(s, s.clients.Keys, m)
  }

  function Emit(s: State, event: string, source: string): (t: State)
    ensures OnlySent(s, t) && t.eventSeq == s.eventSeq + 1
    ensures Sound(s) ==> Sound(t)
  {
    SendAll(s.(eventSeq := s.eventSeq + 1), s.subs, Event(s.eventSeq + 1, event, source))
  }

  /** Ends the pending session without an object: the requester hears, then everyone, then the bus. */
  function ClearSession(s: State, reason: string): (t: State)
    ensures t.session == None && t.clients.Keys == s.clients.Keys && (Sound(s) ==> Sound(t))
  {
    if s.session.None? then s
    else
      var x := s.session.value;
      var told := SendTo(s.(session := None), x.requester, AcceptResult(x.no, x.id, None, reason));
      Emit(Broadcast(told, AcceptClear(x.id, reason)), "accept.cleared", "broker")
  }

  /** Ends it with an object that answers it. */
  function AnswerSession(s: State, who: nat, no: nat, item: Obj): (t: State)
    requires s.session.Some? && who in s.clients
    ensures t.session == None && t.clients.Keys == s.clients.Keys && (Sound(s) ==> Sound(t))
  {
    var x := s.session.value;
    var told := SendTo(s, x.requester, AcceptResult(x.no, x.id, Some(item), ""));
    var acked := SendTo(told, who, Done(no));
    var traced := Emit(acked, "accept.answered", s.clients[who].name);
    Broadcast(traced.(session := None), AcceptClear(x.id, "done"))
  }

  function ModeOf(x: Session): Msg { AcceptMode(x.id, x.ptypes, x.prompt) }

  // ----- the verb registry --------------------------------------------------

  /** Replaces the first verb with the same owner and id, or appends. */
  function Upsert(verbs: seq<Verb>, v: Verb): seq<Verb> {
    if verbs == [] then [v]
    else if verbs[0].owner == v.owner && verbs[0].id == v.id then [v] + verbs[1..]
    else [verbs[0]] + Upsert(verbs[1..], v)
  }

  function UpsertAll(verbs: seq<Verb>, added: seq<Verb>, owner: string): seq<Verb>
    decreases |added|
  {
    if added == [] then verbs else UpsertAll(Upsert(verbs, added[0].(owner := owner)), added[1..], owner)
  }

  /** Drops the verbs of a departing owner; verbs registered under the empty name stay. */
  function Without(verbs: seq<Verb>, owner: string): seq<Verb> {
    if verbs == [] then []
    else (if verbs[0].owner != owner || owner == "" then [verbs[0]] else []) + Without(verbs[1..], owner)
  }

  function VerbsFor(verbs: seq<Verb>, ptype: string): seq<Verb> {
    if verbs == [] then []
    else (if TypeMatches(verbs[0].ptypes, ptype) then [verbs[0]] else []) + VerbsFor(verbs[1..], ptype)
  }

  function FindVerb(verbs: seq<Verb>, id: string): Option<Verb> {
    if verbs == [] then None else if verbs[0].id == id then Some(verbs[0]) else FindVerb(verbs[1..], id)
  }

  function Named(s: State, name: string): set<nat> { set id | id in s.clients && s.clients[id].name == name }

  function WindowManagers(s: State): set<nat> { set id | id in s.clients && "wm" in s.clients[id].roles }

  // ----- the loop's steps ---------------------------------------------------

  function AddConn(s: State): State {
    s.(nextClient := s.nextClient + 1, clients := s.clients[s.nextClient + 1 := NEW_CONN])
  }

  function RemoveConn(s: State, id: nat): State {
    if id !in s.clients then s
    else
      var name := s.clients[id].name;
      var gone := s.(clients := s.clients - {id}, subs := s.subs - {id}, verbs := Without(s.verbs, name));
      var quiet := if gone.session.Some? && gone.session.value.requester == id
                   then ClearSession(gone, "requester-disconnected") else gone;
      Emit(quiet, "client.disconnected", "broker")
  }

  /** A writer takes the oldest queued message off the channel. */
  function Take(s: State, id: nat): State
    requires id in s.clients && s.clients[id].taken < |s.clients[id].log|
  {
    s.(clients := s.clients[id := s.clients[id].(taken := s.clients[id].taken + 1)])
  }

  /** The client's message is on record. */
  function Noted(s: State, id: nat, req: Request): State
    requires id in s.clients
  {
    s.(clients := s.clients[id := s.clients[id].(asked := s.clients[id].asked + [req])])
  }

  function Greet(s: State, id: nat, no: nat, name: string, roles: set<string>): (t: State)
    requires id in s.clients
    ensures t.session == s.session && t.clients.Keys == s.clients.Keys && (Sound(s) ==> Sound(t))
  {
    var c := s.clients[id].(name := name, roles := s.clients[id].roles + roles, greeted := true);
    var known := SendTo(s.(clients := s.clients[id := c]), id, Welcome(no));
    var traced := Emit(known, "client.connected", "broker");
    if s.session.Some? then SendTo(traced, id, ModeOf(s.session.value)) else traced
  }

  function StartAccept(s: State, id: nat, no: nat, ptypes: seq<string>, prompt: string): (t: State)
    requires id in s.clients
    ensures t.session.Some? ==> t.session.value.requester == id
    ensures t.clients.Keys == s.clients.Keys && (Sound(s) ==> Sound(t))
  {
    var free := ClearSession(s, "superseded");
    if ptypes == [] then SendTo(free, id, Failed(no, "bad-request"))
    else
      var x := Session(SessionName(free.nextSess + 1), id, no, ptypes, prompt);
      var open := free.(session := Some(x), nextSess := free.nextSess + 1);
      Emit(Broadcast(open, ModeOf(x)), "accept.started", s.clients[id].name)
  }

  predicate ForeignSession(s: State, session: string) {
    s.session.None? || (session != "" && session != s.session.value.id)
  }

  /** pick is the owner the source's map iteration happens to reach first. */
  function Invoke(s: State, id: nat, no: nat, verb: string, item: Option<Obj>, pick: nat): (t: State)
    requires id in s.clients
    ensures OnlySent(s, t) && (Sound(s) ==> Sound(t))
  {
    var v := FindVerb(s.verbs, verb);
    if v.None? then SendTo(s, id, Failed(no, "no-verb"))
    else if Named(s, v.value.owner) == {} then SendTo(s, id, Failed(no, "owner-gone"))
    else Emit(SendTo(SendTo(s, pick, VerbRun(verb, item)), id, Done(no)), "verb.invoked", s.clients[id].name)
  }

  predicate PickOk(s: State, body: Body, pick: nat) {
    body.VerbInvoke? ==>
      var v := FindVerb(s.verbs, body.verb);
      v.Some? && Named(s, v.value.owner) != {} ==> pick in Named(s, v.value.owner)
  }

  function RequestMenu(s: State, id: nat, no: nat, item: Option<Obj>): (t: State)
    requires id in s.clients
    ensures (t.session == s.session || t.session == None) && t.clients.Keys == s.clients.Keys
    ensures Sound(s) ==> Sound(t)
  {
    if item.None? then SendTo(s, id, Failed(no, "bad-request"))
    else if s.session.Some? && TypeMatches(s.session.value.ptypes, item.value.ptype) then
      AnswerSession(s, id, no, item.value)
    else
      var verbs := VerbsFor(s.verbs, item.value.ptype);
      var shown := SendAll(s, WindowManagers(s), MenuShow(item.value, verbs));
      SendTo(shown, id, if WindowManagers(s) == {} then VerbList(no, verbs) else Done(no))
  }

  /** One message handled; the record of what was asked is made first. */
  function Handle(s0: State, id: nat, req: Request, pick: nat): State
    requires id in s0.clients
  {
    var s := Noted(s0, id, req);
    var name := s.clients[id].name;
    var no := req.no;
    match req.body
    case Hello(newName, roles) => Greet(s, id, no, newName, roles)
    case Register(verbs) =>
      Emit(SendTo(s.(verbs := UpsertAll(s.verbs, verbs, name)), id, Done(no)), "verbs.registered", "broker")
    case Subscribe => SendTo(s.(subs := s.subs + {id}), id, Done(no))
    case AcceptStart(ptypes, prompt) => StartAccept(s, id, no, ptypes, prompt)
    case AcceptAnswer(session, item) =>
      if ForeignSession(s, session) then SendTo(s, id, Failed(no, "stale-answer"))
      else if item.None? || !TypeMatches(s.session.value.ptypes, item.value.ptype) then
        SendTo(s, id, Failed(no, "type-mismatch"))
      else AnswerSession(s, id, no, item.value)
    case AcceptCancel(session) =>
      if ForeignSession(s, session) then SendTo(s, id, Done(no))
      else SendTo(ClearSession(s, "cancelled"), id, Done(no))
    case VerbInvoke(verb, item) => Invoke(s, id, no, verb, item, pick)
    case MenuRequest(item) => RequestMenu(s, id, no, item)
    case QueryVerbs(item) =>
      var all := item.None? || item.value.ptype == "";
      SendTo(s, id, VerbList(no, if all then s.verbs else VerbsFor(s.verbs, item.value.ptype)))
    case DocHover(text) => SendAll(s, WindowManagers(s), Hover(text, name))
    case EventEmit(event) => SendTo(Emit(s, event, name), id, Done(no))
    case Unknown(_) => SendTo(s, id, Failed(no, "unknown-type"))
  }

  // ----- runs ---------------------------------------------------------------

  datatype Step =
    | Connect
    | Receive(id: nat, req: Request, pick: nat)
    | Disconnect(id: nat)
    | WriterTakes(id: nat)

  /** Messages come from connected clients, and writers take what is queued. */
  predicate Enabled(s: State, step: Step) {
    match step
    case Connect => true
    case Receive(id, req, pick) => id in s.clients && PickOk(s, req.body, pick)
    case Disconnect(id) => true
    case WriterTakes(id) => id in s.clients && s.clients[id].taken < |s.clients[id].log|
  }

  function Next(s: State, step: Step): State
    requires Enabled(s, step)
  {
    match step
    case Connect => AddConn(s)
    case Receive(id, req, pick) => Handle(s, id, req, pick)
    case Disconnect(id) => RemoveConn(s, id)
    case WriterTakes(id) => Take(s, id)
  }

  const START := State(map[], [], None, {}, 0, 0, 0)

  /** states is a run from the start: each state follows from the one before by an enabled step. */
  ghost predicate IsRun(states: seq<State>, steps: seq<Step>) {
    && |states| == |steps| + 1 && states[0] == START
    && forall i | 0 <= i < |steps| :: Enabled(states[i], steps[i]) && states[i + 1] == Next(states[i], steps[i])
  }
}
