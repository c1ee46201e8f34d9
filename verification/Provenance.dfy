/**
 Why a client was sent what it was sent: over every run, each message in a client's channel was caused by a
 step at which the broker's state justified it.
 */
module Provenance {
  import opened Wrappers
  import opened Wire
  import opened Ids
  import opened Broker
  import opened BrokerRuns
  import opened Transcript
  import opened AcceptView
  import opened Replies
  import opened Sessions
  import EndToEnd
  import Registry

  /** The message offers this object: as an answer, or by a click on it. */
  predicate Offers(body: Body, item: Obj) {
    (body.AcceptAnswer? || body.MenuRequest?) && body.item == Some(item)
  }

  /** The pending session is this client's, with this id and number. */
  predicate Holds(s: State, j: nat, id: string, no: nat) {
    s.session.Some? && s.session.value.requester == j && s.session.value.id == id && s.session.value.no == no
  }

  predicate IsManager(s: State, j: nat) { j in s.clients && "wm" in s.clients[j].roles }

  /** An event as the bus carries it, but for its number. */
  datatype Trace = Trace(event: string, source: string)

  const CLEARED := Trace("accept.cleared", "broker")

  /** The events a step emits, in order. */
  ghost function Emitted(s: State, step: Step): seq<Trace>
    requires step.Receive? ==> step.id in s.clients
  {
    match step
    case Connect => []
    case WriterTakes(_) => []
    case Disconnect(id) =>
      if id !in s.clients then []
      else
        (if Ended(s, step) then [CLEARED] else [])
        + [Trace("client.disconnected", "broker")]
    case Receive(id, req, _) =>
      var name := s.clients[id].name;
      match req.body
      case Hello(_, _) => [Trace("client.connected", "broker")]
      case Register(_) => [Trace("verbs.registered", "broker")]
      case AcceptStart(ptypes, _) =>
        (if Ended(s, step) then [CLEARED] else []) + (if ptypes == [] then [] else [Trace("accept.started", name)])
      case AcceptAnswer(_, _) => if Ended(s, step) then [Trace("accept.answered", name)] else []
      case AcceptCancel(_) => if Ended(s, step) then [CLEARED] else []
      case VerbInvoke(verb, _) => if Runnable(s, verb) then [Trace("verb.invoked", name)] else []
      case MenuRequest(_) => if Ended(s, step) then [Trace("accept.answered", name)] else []
      case EventEmit(event) => [Trace(event, name)]
      case _ => []
  }

  /** The object answers the pending session. */
  predicate Wanted(s: State, item: Option<Obj>) { s.session.Some? && Wants(s.session.value, item) }

  /** The step ends the pending session. */
  predicate Ended(s: State, step: Step) { s.session.Some? && Ends(s.session.value, step) }

  /** The step emits this event under this number. */
  ghost predicate Emits(s: State, step: Step, number: nat, event: string, source: string) {
    && (step.Receive? ==> step.id in s.clients)
    && s.eventSeq < number <= s.eventSeq + |Emitted(s, step)|
    && Emitted(s, step)[number - s.eventSeq - 1] == Trace(event, source)
  }

  /** The first verb registered under this id. */
  ghost predicate FirstVerb(verbs: seq<Verb>, id: string, k: nat) {
    k < |verbs| && verbs[k].id == id && forall l | 0 <= l < k :: verbs[l].id != id
  }

  /** Some connected client bears the name the first verb of this id was registered under. */
  ghost predicate Runnable(s: State, verb: string) {
    exists k: nat :: FirstVerb(s.verbs, verb, k) && Bears(s, s.verbs[k].owner)
  }

  /** The message is about the pending session. */
  predicate Addressed(s: State, session: string) { s.session.Some? && Names(s.session.value, session) }

  /** The requests that are done as asked. */
  ghost predicate Grants(s: State, body: Body) {
    match body
    case Register(_) => true
    case Subscribe => true
    case EventEmit(_) => true
    case AcceptCancel(_) => true
    case AcceptAnswer(session, item) => Addressed(s, session) && Wanted(s, item)
    case VerbInvoke(verb, _) => Runnable(s, verb)
    case MenuRequest(item) => item.Some? && (Wanted(s, item) || Managed(s))
    case _ => false
  }

  /** Why a request is refused. */
  ghost predicate Refuses(s: State, body: Body, code: string) {
    match body
    case AcceptStart(ptypes, _) => ptypes == [] && code == "bad-request"
    case AcceptAnswer(session, item) =>
      if !Addressed(s, session) then code == "stale-answer" else !Wanted(s, item) && code == "type-mismatch"
    case VerbInvoke(verb, _) =>
      if forall v | v in s.verbs :: v.id != verb then code == "no-verb" else !Runnable(s, verb) && code == "owner-gone"
    case MenuRequest(item) => item.None? && code == "bad-request"
    case Unknown(_) => code == "unknown-type"
    case _ => false
  }

  /** The verbs a request is told: those that match, in the order registered. */
  predicate Lists(s: State, body: Body, verbs: seq<Verb>) {
    match body
    case QueryVerbs(item) =>
      verbs == if item.None? || item.value.ptype == "" then s.verbs else VerbsFor(s.verbs, item.value.ptype)
    case MenuRequest(item) =>
      item.Some? && !Wanted(s, item) && !Managed(s) && verbs == VerbsFor(s.verbs, item.value.ptype)
    case _ => false
  }

  /** How a session that the step ends is said to have ended. */
  function EndReason(step: Step): string {
    if step.Disconnect? then "requester-disconnected"
    else if step.Receive? && step.req.body.AcceptStart? then "superseded"
    else if step.Receive? && step.req.body.AcceptCancel? then "cancelled"
    else "done"
  }

  /** What must have been so, before the step, for it to send m to client j, which had been sent before. */
  ghost predicate Caused(s: State, step: Step, j: nat, before: seq<Msg>, m: Msg)
    requires j in s.clients
  {
    match m
    case Welcome(no) => Asked(step, j, no) && step.req.body.Hello?
    case Done(no) => Asked(step, j, no) && Grants(s, step.req.body)
    case Failed(no, code) => Asked(step, j, no) && Refuses(s, step.req.body, code)
    case VerbList(no, verbs) => Asked(step, j, no) && Lists(s, step.req.body, verbs)
    case AcceptResult(no, id, Some(item), _) =>
      Holds(s, j, id, no) && Ends(s.session.value, step) && step.Receive? && Offers(step.req.body, item)
    case AcceptResult(no, id, None, reason) =>
      && Holds(s, j, id, no) && Ends(s.session.value, step) && reason == EndReason(step)
      && step.Receive? && (step.req.body.AcceptStart? || step.req.body.AcceptCancel?)
    case AcceptMode(id, ptypes, prompt) =>
      && step.Receive? && ptypes != []
      && if step.req.body.Hello?
         then step.id == j && s.session.Some? && ModeOf(s.session.value) == m
         else step.req.body == AcceptStart(ptypes, prompt) && id == SessionName(s.nextSess + 1)
    case AcceptClear(id, reason) =>
      && s.session.Some? && s.session.value.id == id && Ends(s.session.value, step) && reason == EndReason(step)
      && (s.session.value.requester == j ==> exists r :: r in before && ResultFor(r, id, s.session.value.no))
    case VerbRun(verb, item) =>
      && step.Receive? && step.req.body == VerbInvoke(verb, item)
      && exists k: nat :: FirstVerb(s.verbs, verb, k) && s.verbs[k].owner == s.clients[j].name
    case MenuShow(shown, verbs) =>
      && IsManager(s, j) && step.Receive? && step.req.body == MenuRequest(Some(shown))
      && !Wanted(s, Some(shown)) && verbs == VerbsFor(s.verbs, shown.ptype)
    case Hover(text, source) =>
      && IsManager(s, j) && step.Receive? && step.req.body == DocHover(text)
      && step.id in s.clients && source == s.clients[step.id].name
    case Event(number, event, source) => j in s.subs && Emits(s, step, number, event, source)
  }

  /** The step handles a message of client j with this number. */
  predicate Asked(step: Step, j: nat, no: nat) { step.Receive? && step.id == j && step.req.no == no }

  predicate ResultFor(r: Msg, id: string, no: nat) { r.AcceptResult? && r.session == id && r.no == no }

  /** Every one of more is caused by the step, given those before it. */
  ghost predicate AllCaused(s: State, step: Step, j: nat, before: seq<Msg>, more: seq<Msg>)
    requires j in s.clients
  {
    forall t | 0 <= t < |more| :: Caused(s, step, j, before + more[..t], more[t])
  }

  lemma {:induction false} CausedThen(s: State, step: Step, j: nat, before: seq<Msg>, a: seq<Msg>, b: seq<Msg>)
    requires j in s.clients && AllCaused(s, step, j, before, a) && AllCaused(s, step, j, before + a, b)
    ensures AllCaused(s, step, j, before, a + b)
  {
    hide Caused;
    forall t | 0 <= t < |a + b|
      ensures Caused(s, step, j, before + (a + b)[..t], (a + b)[t])
    {
      if t < |a| {
        assert (a + b)[..t] == a[..t];
      } else {
        assert before + (a + b)[..t] == before + a + b[..t - |a|];
      }
    }
  }

  lemma {:induction false} CausedIf(s: State, step: Step, j: nat, before: seq<Msg>, c: bool, m: Msg)
    requires j in s.clients && (c ==> Caused(s, step, j, before, m))
    ensures AllCaused(s, step, j, before, If(c, m))
  {
    hide Caused;
    assert before + [m][..0] == before;
  }

  lemma {:induction false} HeardCaused(s: State, step: Step, j: nat, before: seq<Msg>, event: string, source: string)
    requires j in s.clients && Emits(s, step, s.eventSeq + 1, event, source)
    ensures AllCaused(s, step, j, before, Heard(s, j, event, source))
  {
    CausedIf(s, step, j, before, j in s.subs, Event(s.eventSeq + 1, event, source));
  }

  /** The requester hears the result before the clear. */
  lemma {:induction false} ClearCaused(s: State, step: Step, j: nat, before: seq<Msg>, result: Msg, between: seq<Msg>,
                                       reason: string)
    requires j in s.clients && Ended(s, step) && reason == EndReason(step)
    requires ResultFor(result, s.session.value.id, s.session.value.no)
    ensures var x := s.session.value;
      AllCaused(s, step, j, before + If(j == x.requester, result) + between, [AcceptClear(x.id, reason)])
  {
    var x := s.session.value;
    var all := before + If(j == x.requester, result) + between;
    if j == x.requester { assert all[|before|] == result; }
    CausedIf(s, step, j, all, true, AcceptClear(x.id, reason));
  }

  lemma {:induction false} CancelledCaused(s: State, step: Step, j: nat, before: seq<Msg>, reason: string)
    requires j in s.clients
    requires s.session.Some? && s.session.value.requester == j ==>
      step.Receive? && (step.req.body.AcceptStart? || step.req.body.AcceptCancel?)
    requires s.session.Some? ==> Ended(s, step) && reason == EndReason(step)
    requires s.session.Some? ==> Emits(s, step, s.eventSeq + 1, CLEARED.event, CLEARED.source)
    ensures AllCaused(s, step, j, before, Cancelled(s, j, reason))
  {
    hide AllCaused, Emits;
    if s.session.None? {
      NoneCaused(s, step, j, before);
    } else {
      var x := s.session.value;
      var result := AcceptResult(x.no, x.id, None, reason);
      var first, clear := If(j == x.requester, result), [AcceptClear(x.id, reason)];
      CausedIf(s, step, j, before, j == x.requester, result);
      ClearCaused(s, step, j, before, result, [], reason);
      assert before + first + [] == before + first;
      CausedThen(s, step, j, before, first, clear);
      HeardCaused(s, step, j, before + (first + clear), "accept.cleared", "broker");
      CausedThen(s, step, j, before, first + clear, Heard(s, j, "accept.cleared", "broker"));
    }
  }

  lemma {:induction false} NoneCaused(s: State, step: Step, j: nat, before: seq<Msg>)
    requires j in s.clients
    ensures AllCaused(s, step, j, before, [])
  {
  }

  lemma {:induction false} ResolvedCaused(s: State, step: Step, j: nat, before: seq<Msg>, item: Obj)
    requires j in s.clients && Ended(s, step)
    requires step.Receive? && step.id in s.clients && Offers(step.req.body, item)
    ensures AllCaused(s, step, j, before, Resolved(s, j, step.id, step.req.no, item))
  {
    hide AllCaused;
    var x := s.session.value;
    var result, name := AcceptResult(x.no, x.id, Some(item), ""), s.clients[step.id].name;
    var first, ack := If(j == x.requester, result), If(j == step.id, Done(step.req.no));
    var trace, clear := Heard(s, j, "accept.answered", name), [AcceptClear(x.id, "done")];
    CausedIf(s, step, j, before, j == x.requester, result);
    CausedIf(s, step, j, before + first, j == step.id, Done(step.req.no));
    CausedThen(s, step, j, before, first, ack);
    HeardCaused(s, step, j, before + (first + ack), "accept.answered", name);
    CausedThen(s, step, j, before, first + ack, trace);
    ClearCaused(s, step, j, before, result, ack + trace, "done");
    assert before + first + (ack + trace) == before + (first + ack + trace);
    CausedThen(s, step, j, before, first + ack + trace, clear);
  }

  lemma {:induction false} StartCaused(s: State, step: Step, j: nat, before: seq<Msg>)
    requires j in s.clients && step.Receive? && step.id in s.clients && step.req.body.AcceptStart?
    ensures AllCaused(s, step, j, before, Told(s, step.id, step.req, step.pick, j))
  {
    hide AllCaused, Cancelled;
    var ptypes, prompt := step.req.body.ptypes, step.req.body.prompt;
    var ended := Cancelled(s, j, "superseded");
    var after := before + ended;
    CancelledCaused(s, step, j, before, "superseded");
    if ptypes == [] {
      var failed := If(j == step.id, Failed(step.req.no, "bad-request"));
      CausedIf(s, step, j, after, j == step.id, Failed(step.req.no, "bad-request"));
      CausedThen(s, step, j, before, ended, failed);
    } else {
      var mode := AcceptMode(SessionName(s.nextSess + 1), ptypes, prompt);
      var event := Event(s.eventSeq + (if s.session.Some? then 2 else 1), "accept.started", s.clients[step.id].name);
      CausedIf(s, step, j, after, true, mode);
      CausedIf(s, step, j, after + [mode], j in s.subs, event);
      CausedThen(s, step, j, after, [mode], If(j in s.subs, event));
      CausedThen(s, step, j, before, ended, [mode] + If(j in s.subs, event));
    }
  }

  lemma {:induction false} GreetCaused(s: State, step: Step, j: nat, before: seq<Msg>)
    requires j in s.clients && step.Receive? && step.id in s.clients && step.req.body.Hello?
    requires s.session.Some? ==> s.session.value.ptypes != []
    ensures AllCaused(s, step, j, before, Told(s, step.id, step.req, step.pick, j))
  {
    hide AllCaused;
    var me := j == step.id;
    var first, trace := If(me, Welcome(step.req.no)), Heard(s, j, "client.connected", "broker");
    var mode := if s.session.Some? then If(me, ModeOf(s.session.value)) else [];
    CausedIf(s, step, j, before, me, Welcome(step.req.no));
    HeardCaused(s, step, j, before + first, "client.connected", "broker");
    CausedThen(s, step, j, before, first, trace);
    if s.session.Some? {
      CausedIf(s, step, j, before + (first + trace), me, ModeOf(s.session.value));
    } else {
      NoneCaused(s, step, j, before + (first + trace));
    }
    CausedThen(s, step, j, before, first + trace, mode);
  }

  /** The verb found is the first of its id; none is found exactly if none has that id. */
  lemma {:induction false} VerbFound(verbs: seq<Verb>, id: string) returns (k: nat)
    ensures if FindVerb(verbs, id).Some? then FirstVerb(verbs, id, k) && verbs[k] == FindVerb(verbs, id).value
            else forall v | v in verbs :: v.id != id
  {
    k := 0;
    if verbs != [] && verbs[0].id != id {
      var below := VerbFound(verbs[1..], id);
      k := below + 1;
      assert verbs == [verbs[0]] + verbs[1..];
    }
  }

  lemma {:induction false} RunnableVerb(s: State, verb: string)
    ensures var v := FindVerb(s.verbs, verb); Runnable(s, verb) <==> v.Some? && Bears(s, v.value.owner)
  {
    hide FindVerb, Bears;
    var k := VerbFound(s.verbs, verb);
    if l: nat :| FirstVerb(s.verbs, verb, l) && Bears(s, s.verbs[l].owner) {
      if FindVerb(s.verbs, verb).Some? { OneFirst(s.verbs, verb, k, l); }
    }
  }

  lemma {:induction false} OneFirst(verbs: seq<Verb>, id: string, k: nat, l: nat)
    requires FirstVerb(verbs, id, k) && FirstVerb(verbs, id, l)
    ensures k == l
  {
  }

  lemma {:induction false} InvokeCaused(s: State, step: Step, j: nat, before: seq<Msg>)
    requires j in s.clients && Enabled(s, step) && step.Receive? && step.req.body.VerbInvoke?
    ensures AllCaused(s, step, j, before, Told(s, step.id, step.req, step.pick, j))
  {
    hide AllCaused, FindVerb, Runnable, FirstVerb, Bears;
    var no, name, verb := step.req.no, s.clients[step.id].name, step.req.body.verb;
    var me, owner := j == step.id, j == step.pick;
    var run := VerbRun(verb, step.req.body.item);
    var k := VerbFound(s.verbs, verb);
    RunnableVerb(s, verb);
    var v := FindVerb(s.verbs, verb);
    if v.None? {
      CausedIf(s, step, j, before, me, Failed(no, "no-verb"));
    } else if !Bears(s, v.value.owner) {
      assert s.verbs[k] in s.verbs && s.verbs[k].id == verb by { FirstHasId(s.verbs, verb, k); }
      CausedIf(s, step, j, before, me, Failed(no, "owner-gone"));
    } else {
      NamedBears(s, v.value.owner);
      FirstHasId(s.verbs, verb, k);
      CausedIf(s, step, j, before, owner, run);
      CausedIf(s, step, j, before + If(owner, run), me, Done(no));
      CausedThen(s, step, j, before, If(owner, run), If(me, Done(no)));
      HeardCaused(s, step, j, before + (If(owner, run) + If(me, Done(no))), "verb.invoked", name);
      CausedThen(s, step, j, before, If(owner, run) + If(me, Done(no)), Heard(s, j, "verb.invoked", name));
    }
  }

  lemma {:induction false} FirstHasId(verbs: seq<Verb>, id: string, k: nat)
    requires FirstVerb(verbs, id, k)
    ensures k < |verbs| && verbs[k].id == id
  {
  }

  lemma {:induction false} WantedMatches(s: State, item: Option<Obj>)
    ensures Wanted(s, item) <==> s.session.Some? && item.Some? && TypeMatches(s.session.value.ptypes, item.value.ptype)
  {
    if s.session.Some? { WantsMatches(s.session.value, item); }
  }

  lemma {:induction false} OfferedAreRegistered(verbs: seq<Verb>, ptype: string)
    ensures forall v :: v in VerbsFor(verbs, ptype) <==> v in verbs && TypeMatches(v.ptypes, ptype)
  {
    hide TypeMatches;
    forall v ensures v in VerbsFor(verbs, ptype) <==> v in verbs && TypeMatches(v.ptypes, ptype) {
      OfferedVerbs(verbs, ptype, v);
      assert v in VerbsFor(verbs, ptype) <==> multiset(VerbsFor(verbs, ptype))[v] > 0;
      assert v in verbs <==> multiset(verbs)[v] > 0;
    }
  }

  lemma {:induction false} MenuCaused(s: State, step: Step, j: nat, before: seq<Msg>)
    requires j in s.clients && step.Receive? && step.id in s.clients && step.req.body.MenuRequest?
    ensures AllCaused(s, step, j, before, Told(s, step.id, step.req, step.pick, j))
  {
    hide AllCaused, VerbsFor, Managed, TypeMatches, Resolved, Wants;
    var item, no, me := step.req.body.item, step.req.no, j == step.id;
    WantedMatches(s, item);
    if item.None? {
      CausedIf(s, step, j, before, me, Failed(no, "bad-request"));
    } else if Wanted(s, item) {
      ResolvedCaused(s, step, j, before, item.value);
    } else {
      var verbs := VerbsFor(s.verbs, item.value.ptype);
      var shown := If("wm" in s.clients[j].roles, MenuShow(item.value, verbs));
      var reply := if Managed(s) then Done(no) else VerbList(no, verbs);
      CausedIf(s, step, j, before, "wm" in s.clients[j].roles, MenuShow(item.value, verbs));
      CausedIf(s, step, j, before + shown, me, reply);
      CausedThen(s, step, j, before, shown, If(me, reply));
    }
  }

  lemma {:induction false} DoneCaused(s: State, step: Step, j: nat, before: seq<Msg>)
    requires j in s.clients && step.Receive? && Grants(s, step.req.body)
    ensures AllCaused(s, step, j, before, If(j == step.id, Done(step.req.no)))
  {
    CausedIf(s, step, j, before, j == step.id, Done(step.req.no));
  }

  /** Replying, and one event before or after it. */
  lemma {:induction false} AckCaused(s: State, step: Step, j: nat, before: seq<Msg>, event: string, source: string)
    requires j in s.clients && step.Receive? && Grants(s, step.req.body) && Emits(s, step, s.eventSeq + 1, event, source)
    ensures var ack := If(j == step.id, Done(step.req.no));
      && AllCaused(s, step, j, before, ack + Heard(s, j, event, source))
      && AllCaused(s, step, j, before, Heard(s, j, event, source) + ack)
  {
    hide AllCaused, Emits;
    var ack, trace := If(j == step.id, Done(step.req.no)), Heard(s, j, event, source);
    CausedIf(s, step, j, before, j == step.id, Done(step.req.no));
    CausedIf(s, step, j, before + trace, j == step.id, Done(step.req.no));
    HeardCaused(s, step, j, before, event, source);
    HeardCaused(s, step, j, before + ack, event, source);
    CausedThen(s, step, j, before, ack, trace);
    CausedThen(s, step, j, before, trace, ack);
  }

  /** Everything a client is told when a message is handled has its cause. */
  lemma {:induction false} ToldIsCaused(s: State, step: Step, j: nat, before: seq<Msg>)
    requires j in s.clients && Enabled(s, step) && step.Receive?
    requires s.session.Some? ==> s.session.value.ptypes != []
    ensures AllCaused(s, step, j, before, Told(s, step.id, step.req, step.pick, j))
  {
    hide AllCaused, Caused, VerbsFor, FindVerb, TypeMatches, Resolved, Cancelled, ForeignSession, Bears, Managed, Heard, If;
    var no, name, me := step.req.no, s.clients[step.id].name, j == step.id;
    match step.req.body {
      case Hello(_, _) => GreetCaused(s, step, j, before);
      case Register(_) => AckCaused(s, step, j, before, "verbs.registered", "broker");
      case Subscribe => DoneCaused(s, step, j, before);
      case AcceptStart(_, _) => StartCaused(s, step, j, before);
      case AcceptAnswer(_, item) => AnswerCaused(s, step, j, before);
      case AcceptCancel(_) => CancelCaused(s, step, j, before);
      case VerbInvoke(_, _) => InvokeCaused(s, step, j, before);
      case MenuRequest(_) => MenuCaused(s, step, j, before);
      case QueryVerbs(item) => QueryCaused(s, step, j, before);
      case DocHover(text) => HoverCaused(s, step, j, before);
      case EventEmit(event) => AckCaused(s, step, j, before, event, name);
      case Unknown(_) => FailureCaused(s, step, j, before, "unknown-type");
    }
  }

  lemma {:induction false} CancelCaused(s: State, step: Step, j: nat, before: seq<Msg>)
    requires j in s.clients && step.Receive? && step.id in s.clients && step.req.body.AcceptCancel?
    ensures AllCaused(s, step, j, before, Told(s, step.id, step.req, step.pick, j))
  {
    hide AllCaused, Cancelled;
    var ack := If(j == step.id, Done(step.req.no));
    if ForeignSession(s, step.req.body.session) {
      DoneCaused(s, step, j, before);
      assert [] + ack == ack;
    } else {
      var ended := Cancelled(s, j, "cancelled");
      CancelledCaused(s, step, j, before, "cancelled");
      DoneCaused(s, step, j, before + ended);
      CausedThen(s, step, j, before, ended, ack);
    }
  }

  lemma {:induction false} FailureCaused(s: State, step: Step, j: nat, before: seq<Msg>, code: string)
    requires j in s.clients && step.Receive? && (j == step.id ==> Refuses(s, step.req.body, code))
    ensures AllCaused(s, step, j, before, If(j == step.id, Failed(step.req.no, code)))
  {
    CausedIf(s, step, j, before, j == step.id, Failed(step.req.no, code));
  }

  lemma {:induction false} AnswerCaused(s: State, step: Step, j: nat, before: seq<Msg>)
    requires j in s.clients && step.Receive? && step.id in s.clients && step.req.body.AcceptAnswer?
    ensures AllCaused(s, step, j, before, Told(s, step.id, step.req, step.pick, j))
  {
    hide AllCaused, TypeMatches, Resolved, Wants;
    var item := step.req.body.item;
    WantedMatches(s, item);
    if !Addressed(s, step.req.body.session) {
      FailureCaused(s, step, j, before, "stale-answer");
    } else if !Wanted(s, item) {
      FailureCaused(s, step, j, before, "type-mismatch");
    } else {
      ResolvedCaused(s, step, j, before, item.value);
    }
  }

  lemma {:induction false} QueryCaused(s: State, step: Step, j: nat, before: seq<Msg>)
    requires j in s.clients && step.Receive? && step.id in s.clients && step.req.body.QueryVerbs?
    ensures AllCaused(s, step, j, before, Told(s, step.id, step.req, step.pick, j))
  {
    hide AllCaused, VerbsFor;
    var item := step.req.body.item;
    var verbs := if item.None? || item.value.ptype == "" then s.verbs else VerbsFor(s.verbs, item.value.ptype);
    CausedIf(s, step, j, before, j == step.id, VerbList(step.req.no, verbs));
  }

  lemma {:induction false} HoverCaused(s: State, step: Step, j: nat, before: seq<Msg>)
    requires j in s.clients && step.Receive? && step.id in s.clients && step.req.body.DocHover?
    ensures AllCaused(s, step, j, before, Told(s, step.id, step.req, step.pick, j))
  {
    CausedIf(s, step, j, before, "wm" in s.clients[j].roles, Hover(step.req.body.text, s.clients[step.id].name));
  }

  lemma {:induction false} DepartureCaused(s: State, id: nat, j: nat) returns (more: seq<Msg>)
    requires id in s.clients && j in s.clients && j != id
    ensures Got(s, RemoveConn(s, id), j, more) && AllCaused(s, Disconnect(id), j, s.clients[j].sent, more)
  {
    hide AllCaused, RemoveConn, Cancelled;
    var step, before := Disconnect(id), s.clients[j].sent;
    var held := s.session.Some? && s.session.value.requester == id;
    var ended := if held then Cancelled(s, j, "requester-disconnected") else [];
    var event := Event(s.eventSeq + (if held then 2 else 1), "client.disconnected", "broker");
    RemoveTells(s, id, j);
    if held { CancelledCaused(s, step, j, before, "requester-disconnected"); } else { NoneCaused(s, step, j, before); }
    CausedIf(s, step, j, before + ended, j in s.subs, event);
    CausedThen(s, step, j, before, ended, If(j in s.subs, event));
    more := ended + If(j in s.subs, event);
  }

  /** One step, seen by a client connected before and after it: what it was sent, each message with its cause. */
  lemma {:induction false} StepIsCaused(s: State, step: Step, j: nat) returns (more: seq<Msg>)
    requires Enabled(s, step) && Good(s) && j in s.clients && j in Next(s, step).clients
    ensures Got(s, Next(s, step), j, more) && AllCaused(s, step, j, s.clients[j].sent, more)
  {
    hide AllCaused, Handle, RemoveConn, Told, Accounted, Agree;
    match step {
      case Connect =>
        more := [];
        GotNothing(s, Next(s, step), j);
        NoneCaused(s, step, j, s.clients[j].sent);
      case Receive(id, req, pick) =>
        more := Told(s, id, req, pick, j);
        HandleTells(s, id, req, pick, j);
        SessionWants(s);
        ToldIsCaused(s, step, j, s.clients[j].sent);
      case Disconnect(id) =>
        EndToEnd.ConnectionsMove(s, step);
        if id in s.clients {
          more := DepartureCaused(s, id, j);
        } else {
          more := [];
          Registry.UnknownLeaves(s, id);
          GotNothing(s, Next(s, step), j);
          NoneCaused(s, step, j, s.clients[j].sent);
        }
      case WriterTakes(id) =>
        more := [];
        GotNothing(s, Next(s, step), j);
        NoneCaused(s, step, j, s.clients[j].sent);
    }
  }

  lemma {:induction false} SessionWants(s: State)
    requires Good(s)
    ensures s.session.Some? ==> s.session.value.ptypes != []
  {
  }

  ghost predicate CausedAt(states: seq<State>, steps: seq<Step>, k: nat, j: nat, before: seq<Msg>, m: Msg)
    requires k < |steps| && |states| == |steps| + 1
  {
    j in states[k].clients && Caused(states[k], steps[k], j, before, m)
  }

  /** Every message ever sent to a connected client was caused by a step of the run, at a state that justified it. */
  lemma {:induction false} EverythingIsCaused(states: seq<State>, steps: seq<Step>, i: nat, j: nat, p: nat) returns (k: nat)
    requires IsRun(states, steps) && i < |states| && j in states[i].clients && p < |states[i].clients[j].sent|
    ensures k < i && CausedAt(states, steps, k, j, states[i].clients[j].sent[..p], states[i].clients[j].sent[p])
  {
    hide Caused, Enabled, Next;
    RunGood(states, steps, i);
    if i == 0 {
      NobodyAtStart();
    } else {
      var s, step := states[i - 1], steps[i - 1];
      assert states[i] == Next(s, step) && Enabled(s, step);
      RunGood(states, steps, i - 1);
      EndToEnd.ConnectionsMove(s, step);
      if j in s.clients {
        var more := StepIsCaused(s, step, j);
        var was, now := s.clients[j].sent, states[i].clients[j].sent;
        if p < |was| {
          assert now[..p] == was[..p] && now[p] == was[p];
          k := EverythingIsCaused(states, steps, i - 1, j, p);
        } else {
          k := i - 1;
          var t := p - |was|;
          assert now[..p] == was + more[..t] && now[p] == more[t];
        }
      } else {
        JustConnected(s, step, j);
      }
    }
  }

  lemma {:induction false} NobodyAtStart()
    ensures START.clients.Keys == {}
  {
  }

  lemma {:induction false} JustConnected(s: State, step: Step, j: nat)
    requires Enabled(s, step) && j !in s.clients && j in Next(s, step).clients
    ensures Next(s, step).clients[j].sent == []
  {
    EndToEnd.ConnectionsMove(s, step);
  }

  /** The bus counts on by exactly the events listed for the step. */
  lemma {:induction false} StepEmits(s: State, step: Step)
    requires Enabled(s, step)
    ensures Next(s, step).eventSeq == s.eventSeq + |Emitted(s, step)|
  {
    hide SendTo, SendAll, UpsertAll, VerbsFor, FindVerb, WindowManagers, TypeMatches, Without, Named, Bears, Runnable, Wants;
    if step.Receive? && step.req.body.VerbInvoke? {
      var v := FindVerb(s.verbs, step.req.body.verb);
      RunnableVerb(s, step.req.body.verb);
      if v.Some? {
        NamedBears(s, v.value.owner);
        NotedSame(s, step.id, step.req, v.value.owner);
        NamedBears(Noted(s, step.id, step.req), v.value.owner);
      }
    } else if step.Receive? && (step.req.body.AcceptAnswer? || step.req.body.MenuRequest?) {
      WantedMatches(s, step.req.body.item);
    }
  }

  /** How many events the first i steps emitted. */
  ghost function EmittedBy(states: seq<State>, steps: seq<Step>, i: nat): nat
    requires i <= |steps| <= |states|
    requires forall k | 0 <= k < i && steps[k].Receive? :: steps[k].id in states[k].clients
  {
    if i == 0 then 0 else EmittedBy(states, steps, i - 1) + |Emitted(states[i - 1], steps[i - 1])|
  }

  /** Events are numbered from 1 on as they are emitted. */
  lemma {:induction false} EventsAreNumbered(states: seq<State>, steps: seq<Step>, i: nat)
    requires IsRun(states, steps) && i <= |steps|
    ensures forall k | 0 <= k < i && steps[k].Receive? :: steps[k].id in states[k].clients
    ensures states[i].eventSeq == EmittedBy(states, steps, i)
  {
    hide Next, Emitted;
    if i > 0 {
      EventsAreNumbered(states, steps, i - 1);
      assert Enabled(states[i - 1], steps[i - 1]) && states[i] == Next(states[i - 1], steps[i - 1]);
      StepEmits(states[i - 1], steps[i - 1]);
    }
  }

  // ----- what follows -------------------------------------------------------

  lemma {:induction false} InLogWasSent(states: seq<State>, steps: seq<Step>, i: nat, j: nat, m: Msg) returns (p: nat)
    requires IsRun(states, steps) && i < |states| && j in states[i].clients && m in states[i].clients[j].log
    ensures p < |states[i].clients[j].sent| && states[i].clients[j].sent[p] == m
  {
    RunGood(states, steps, i);
    WithinKeeps(states[i].clients[j].log, states[i].clients[j].sent);
    p :| 0 <= p < |states[i].clients[j].sent| && states[i].clients[j].sent[p] == m;
  }

  /**
   An object a client received as the result of its accept was offered, by an answer or a click, while that accept
   was pending, and is of a type it asked for.
   */
  lemma {:induction false} ObjectsWereOffered(states: seq<State>, steps: seq<Step>, i: nat, j: nat, m: Msg) returns (k: nat)
    requires IsRun(states, steps) && i < |states| && j in states[i].clients && m in states[i].clients[j].log
    requires m.AcceptResult? && m.item.Some?
    ensures k < i && steps[k].Receive? && Offers(steps[k].req.body, m.item.value)
    ensures Holds(states[k], j, m.session, m.no) && TypeMatches(states[k].session.value.ptypes, m.item.value.ptype)
    ensures steps[k].req.body.AcceptAnswer? ==> steps[k].req.body.session == "" || steps[k].req.body.session == m.session
  {
    hide IsRun;
    var p := InLogWasSent(states, steps, i, j, m);
    k := EverythingIsCaused(states, steps, i, j, p);
    WantedMatches(states[k], m.item);
  }

  /** A client asked to run a verb bore the name of the owner that verb was registered under, and someone invoked it. */
  lemma {:induction false} VerbsRunAtTheirOwner(states: seq<State>, steps: seq<Step>, i: nat, j: nat, m: Msg) returns (k: nat)
    requires IsRun(states, steps) && i < |states| && j in states[i].clients && m in states[i].clients[j].log
    requires m.VerbRun?
    ensures k < i && steps[k].Receive? && steps[k].req.body == VerbInvoke(m.verb, m.item) && j in states[k].clients
    ensures exists v :: v in states[k].verbs && v.id == m.verb && v.owner == states[k].clients[j].name
  {
    hide IsRun;
    var p := InLogWasSent(states, steps, i, j, m);
    k := EverythingIsCaused(states, steps, i, j, p);
  }

  /** Menus are shown by window managers only, for clicks that answered no accept, with exactly the verbs that match, in order. */
  lemma {:induction false} MenusAreForClicks(states: seq<State>, steps: seq<Step>, i: nat, j: nat, m: Msg) returns (k: nat)
    requires IsRun(states, steps) && i < |states| && j in states[i].clients && m in states[i].clients[j].log
    requires m.MenuShow?
    ensures k < i && steps[k].Receive? && steps[k].req.body == MenuRequest(Some(m.shown)) && IsManager(states[k], j)
    ensures !(states[k].session.Some? && TypeMatches(states[k].session.value.ptypes, m.shown.ptype))
    ensures m.verbs == VerbsFor(states[k].verbs, m.shown.ptype)
    ensures forall v :: v in m.verbs <==> v in states[k].verbs && TypeMatches(v.ptypes, m.shown.ptype)
  {
    hide IsRun;
    var p := InLogWasSent(states, steps, i, j, m);
    k := EverythingIsCaused(states, steps, i, j, p);
    WantedMatches(states[k], Some(m.shown));
    OfferedAreRegistered(states[k].verbs, m.shown.ptype);
  }

  // ----- results come before clears -----------------------------------------

  /** Whoever asked for a session is sent its result before it is sent its clear. */
  lemma {:induction false} ResultBeforeClear(states: seq<State>, steps: seq<Step>, a: nat, i: nat, x: Session, p: nat)
      returns (q: nat)
    requires IsRun(states, steps) && a < |states| && i < |states| && states[a].session == Some(x)
    requires x.requester in states[i].clients && p < |states[i].clients[x.requester].sent|
    requires var m := states[i].clients[x.requester].sent[p]; m.AcceptClear? && m.session == x.id
    ensures q < p && ResultFor(states[i].clients[x.requester].sent[q], x.id, x.no)
  {
    hide IsRun;
    var sent := states[i].clients[x.requester].sent;
    var k := EverythingIsCaused(states, steps, i, x.requester, p);
    if a <= k { SameIdSameSession(states, steps, a, k); } else { SameIdSameSession(states, steps, k, a); }
    var r :| r in sent[..p] && ResultFor(r, x.id, x.no);
    q :| 0 <= q < p && sent[..p][q] == r;
  }
}
