/**
 The pending accept session over whole runs: what starts one, exactly which steps end it, and that its id
 never comes back.
 */
module Sessions {
  import opened Wrappers
  import opened Wire
  import opened Ids
  import opened Broker
  import opened BrokerRuns

  /** The message names the session, or none. */
  predicate Names(x: Session, session: string) { session == "" || session == x.id }

  /** The object is of a type the session asked for. */
  predicate Wants(x: Session, item: Option<Obj>) {
    item.Some? && exists p :: p in x.ptypes && (p == "any" || p == item.value.ptype)
  }

  /** The steps that end this session while it is pending. */
  predicate Ends(x: Session, step: Step) {
    match step
    case Disconnect(id) => id == x.requester
    case Receive(_, req, _) =>
      (match req.body
       case AcceptStart(_, _) => true
       case AcceptAnswer(session, item) => Names(x, session) && Wants(x, item)
       case AcceptCancel(session) => Names(x, session)
       case MenuRequest(item) => Wants(x, item)
       case _ => false)
    case _ => false
  }

  /** The session a step opens: an accept.start that asks for something. */
  function Opened(s: State, step: Step): Option<Session> {
    if step.Receive? && step.req.body.AcceptStart? && step.req.body.ptypes != [] then
      Some(Session(SessionName(s.nextSess + 1), step.id, step.req.no, step.req.body.ptypes, step.req.body.prompt))
    else None
  }

  lemma {:induction false} WantsMatches(x: Session, item: Option<Obj>)
    ensures Wants(x, item) <==> item.Some? && TypeMatches(x.ptypes, item.value.ptype)
  {
  }

  lemma {:induction false} ClearEndsIt(s: State, reason: string)
    ensures ClearSession(s, reason).session == None && ClearSession(s, reason).nextSess == s.nextSess
  {
    hide SendTo, SendAll;
  }

  lemma {:induction false} AnswerEndsIt(s: State, who: nat, no: nat, item: Obj)
    requires s.session.Some? && who in s.clients
    ensures AnswerSession(s, who, no, item).session == None && AnswerSession(s, who, no, item).nextSess == s.nextSess
  {
    hide SendTo, SendAll;
  }

  lemma {:induction false} StartOpensOne(s: State, id: nat, no: nat, ptypes: seq<string>, prompt: string)
    requires id in s.clients
    ensures var t := StartAccept(s, id, no, ptypes, prompt);
      && t.session == (if ptypes == [] then None else Some(Session(SessionName(s.nextSess + 1), id, no, ptypes, prompt)))
      && t.nextSess == s.nextSess + if ptypes == [] then 0 else 1
  {
    hide SendTo, SendAll, ClearSession, SessionName;
    ClearEndsIt(s, "superseded");
  }

  lemma {:induction false} MenuMayEndIt(s: State, id: nat, no: nat, item: Option<Obj>)
    requires id in s.clients
    ensures var t := RequestMenu(s, id, no, item);
      && t.session == (if s.session.Some? && Wants(s.session.value, item) then None else s.session)
      && t.nextSess == s.nextSess
  {
    hide SendTo, SendAll, AnswerSession, VerbsFor, WindowManagers, TypeMatches, Wants;
    if s.session.Some? {
      WantsMatches(s.session.value, item);
      if Wants(s.session.value, item) { AnswerEndsIt(s, id, no, item.value); }
    }
  }

  /** What handling a message does to the pending session. */
  lemma {:induction false} HandleSession(s0: State, id: nat, req: Request, pick: nat)
    requires id in s0.clients
    ensures var t, step := Handle(s0, id, req, pick), Receive(id, req, pick);
      && t.session == (if Opened(s0, step).Some? then Opened(s0, step)
                       else if s0.session.Some? && Ends(s0.session.value, step) then None else s0.session)
      && t.nextSess == s0.nextSess + if Opened(s0, step).Some? then 1 else 0
  {
    hide SendTo, SendAll, ClearSession, AnswerSession, StartAccept, Greet, Invoke, RequestMenu, UpsertAll, VerbsFor,
         WindowManagers, Wants, TypeMatches, SessionName;
    var s := Noted(s0, id, req);
    match req.body {
      case Hello(name, roles) => GreetKeepsIt(s, id, req.no, name, roles);
      case AcceptStart(ptypes, prompt) => StartOpensOne(s, id, req.no, ptypes, prompt);
      case AcceptAnswer(session, item) =>
        if !ForeignSession(s, session) {
          WantsMatches(s.session.value, item);
          if item.Some? { AnswerEndsIt(s, id, req.no, item.value); }
        }
      case AcceptCancel(session) => ClearEndsIt(s, "cancelled");
      case MenuRequest(item) => MenuMayEndIt(s, id, req.no, item);
      case _ =>
    }
  }

  lemma {:induction false} GreetKeepsIt(s: State, id: nat, no: nat, name: string, roles: set<string>)
    requires id in s.clients
    ensures var t := Greet(s, id, no, name, roles); t.session == s.session && t.nextSess == s.nextSess
  {
    hide SendTo, SendAll;
  }

  /**
   Exactly which session is pending after a step: the one it opens, if it opens one; none, if it ends the
   pending one; and otherwise the same as before.
   */
  lemma {:induction false} NextSession(s: State, step: Step)
    requires Enabled(s, step) && SessionHeld(s)
    ensures var t := Next(s, step);
      && t.session == (if Opened(s, step).Some? then Opened(s, step)
                       else if s.session.Some? && Ends(s.session.value, step) then None else s.session)
      && t.nextSess == s.nextSess + if Opened(s, step).Some? then 1 else 0
  {
    hide SendAll, ClearSession, Handle, Without, SessionName;
    match step {
      case Connect =>
      case Receive(id, req, pick) => HandleSession(s, id, req, pick);
      case Disconnect(id) =>
        if id in s.clients {
          var gone := s.(clients := s.clients - {id}, subs := s.subs - {id}, verbs := Without(s.verbs, s.clients[id].name));
          ClearEndsIt(gone, "requester-disconnected");
        }
      case WriterTakes(_) =>
    }
  }

  /** The id of a pending session was minted. */
  ghost predicate Numbered(s: State) {
    s.session.Some? ==> exists n: nat :: 1 <= n <= s.nextSess && s.session.value.id == SessionName(n)
  }

  lemma {:induction false} RunNumbered(states: seq<State>, steps: seq<Step>, a: nat, b: nat)
    requires IsRun(states, steps) && a <= b < |states|
    ensures Numbered(states[b]) && states[a].nextSess <= states[b].nextSess
  {
    hide Enabled, Next, SessionName, Ends, Good;
    if b > 0 {
      Moves(states, steps, b - 1);
      RunNumbered(states, steps, if a == b then a - 1 else a, b - 1);
    }
  }

  /** NextSession, of a step of a run. */
  lemma {:induction false} Moves(states: seq<State>, steps: seq<Step>, k: nat)
    requires IsRun(states, steps) && k < |steps|
    ensures var s, t := states[k], states[k + 1];
      && t.session == (if Opened(s, steps[k]).Some? then Opened(s, steps[k])
                       else if s.session.Some? && Ends(s.session.value, steps[k]) then None else s.session)
      && t.nextSess == s.nextSess + if Opened(s, steps[k]).Some? then 1 else 0
  {
    hide Next, Enabled, Ends, Opened;
    RunGood(states, steps, k);
    assert Enabled(states[k], steps[k]) && states[k + 1] == Next(states[k], steps[k]);
    NextSession(states[k], steps[k]);
  }

  /** A session that is opened after a is not the one pending at a. */
  lemma {:induction false} OpenedIsNew(states: seq<State>, steps: seq<Step>, a: nat, b: nat)
    requires IsRun(states, steps) && a <= b < |steps| && states[a].session.Some? && Opened(states[b], steps[b]).Some?
    ensures Opened(states[b], steps[b]).value.id != states[a].session.value.id
  {
    hide Enabled, Next, Decimal;
    RunNumbered(states, steps, a, a);
    RunNumbered(states, steps, a, b);
    var n: nat :| 1 <= n <= states[a].nextSess && states[a].session.value.id == SessionName(n);
    if SessionName(n) == SessionName(states[b].nextSess + 1) { PrintedIdsDiffer(SESSION_PREFIX, n, states[b].nextSess + 1); }
  }

  /** Two sessions of one run with the same id are the same. */
  lemma {:induction false} SameIdSameSession(states: seq<State>, steps: seq<Step>, a: nat, b: nat)
    requires IsRun(states, steps) && a <= b < |states| && states[a].session.Some? && states[b].session.Some?
    requires states[a].session.value.id == states[b].session.value.id
    ensures states[a].session == states[b].session
  {
    hide Enabled, Next, Ends, Opened, SessionName;
    if a < b {
      Moves(states, steps, b - 1);
      if Opened(states[b - 1], steps[b - 1]).Some? { OpenedIsNew(states, steps, a, b - 1); }
      SameIdSameSession(states, steps, a, b - 1);
    }
  }

  /**
   In every run a session stays pending, unchanged, exactly as long as no step ends it: its requester leaves,
   anyone starts another accept, or someone answers or cancels it, by name or without one, or clicks an object
   it wants. What names another session does nothing to it, and once ended it never comes back.
   */
  lemma {:induction false} PendingUntilEnded(states: seq<State>, steps: seq<Step>, a: nat, b: nat)
    requires IsRun(states, steps) && a <= b < |states| && states[a].session.Some?
    ensures states[b].session == states[a].session <==>
      forall k | a <= k < b :: !Ends(states[a].session.value, steps[k])
  {
    hide Enabled, Next, Opened, SessionName;
    if a < b {
      PendingUntilEnded(states, steps, a, b - 1);
      Moves(states, steps, b - 1);
      if Opened(states[b - 1], steps[b - 1]).Some? {
        OpenedIsNew(states, steps, a, b - 1);
        OpeningEnds(states[b - 1], steps[b - 1], states[a].session.value);
      }
    }
  }

  lemma {:induction false} OpeningEnds(s: State, step: Step, x: Session)
    requires Opened(s, step).Some?
    ensures Ends(x, step)
  {
  }

  /** How many sessions the first i steps opened. */
  function OpenedBy(states: seq<State>, steps: seq<Step>, i: nat): nat
    requires i <= |steps| <= |states|
  {
    if i == 0 then 0 else OpenedBy(states, steps, i - 1) + if Opened(states[i - 1], steps[i - 1]).Some? then 1 else 0
  }

  /** Sessions are numbered from s1 on as they are opened. */
  lemma {:induction false} SessionsAreNumbered(states: seq<State>, steps: seq<Step>, i: nat)
    requires IsRun(states, steps) && i <= |steps|
    ensures states[i].nextSess == OpenedBy(states, steps, i)
    ensures i < |steps| && Opened(states[i], steps[i]).Some? ==>
      states[i + 1].session.Some? && states[i + 1].session.value.id == "s" + Decimal(OpenedBy(states, steps, i) + 1)
  {
    hide Next, Enabled, Opened, Ends, Decimal;
    if i > 0 {
      SessionsAreNumbered(states, steps, i - 1);
      Moves(states, steps, i - 1);
    }
    if i < |steps| {
      Moves(states, steps, i);
      OpenedName(states[i], steps[i]);
    }
  }

  lemma {:induction false} OpenedName(s: State, step: Step)
    ensures Opened(s, step).Some? ==> Opened(s, step).value.id == "s" + Decimal(s.nextSess + 1)
  {
  }
}
