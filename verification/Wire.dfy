/** The presentation protocol: typed objects, verbs, and the messages in both directions. */
module Wire {
  import opened Wrappers

  datatype Obj = Obj(ptype: string, value: string)

  datatype Verb = Verb(id: string, face: string, ptypes: seq<string>, owner: string)

  /** A type is wanted if it is listed by name, or if anything will do. */
  predicate TypeMatches(want: seq<string>, have: string) { "any" in want || have in want }

  datatype Body =
    | Hello(name: string, roles: set<string>)
    | Register(verbs: seq<Verb>)
    | Subscribe
    | AcceptStart(ptypes: seq<string>, prompt: string)
    | AcceptAnswer(session: string, item: Option<Obj>)
    | AcceptCancel(session: string)
    | VerbInvoke(verb: string, item: Option<Obj>)
    | MenuRequest(item: Option<Obj>)
    | QueryVerbs(item: Option<Obj>)
    | DocHover(text: string)
    | EventEmit(event: string)
    | Unknown(kind: string)

  /** A message from a client, with the number its reply will carry. */
  datatype Request = Request(no: nat, body: Body)

  datatype Msg =
    | Welcome(no: nat)
    | Done(no: nat)
    | Failed(no: nat, code: string)
    | VerbList(no: nat, verbs: seq<Verb>)
    | AcceptResult(no: nat, session: string, item: Option<Obj>, reason: string)
    | AcceptMode(session: string, ptypes: seq<string>, prompt: string)
    | AcceptClear(session: string, reason: string)
    | VerbRun(verb: string, item: Option<Obj>)
    | MenuShow(shown: Obj, verbs: seq<Verb>)
    | Hover(text: string, source: string)
    | Event(number: nat, event: string, source: string)

  /** The messages a client hands to a pending request rather than to a handler. */
  predicate IsReply(m: Msg) { m.Welcome? || m.Done? || m.Failed? || m.VerbList? || m.AcceptResult? }

  /** The replies a request may get. */
  predicate Answers(m: Msg, body: Body) {
    match body
    case Hello(_, _) => m.Welcome?
    case Register(_) => m.Done?
    case Subscribe => m.Done?
    case EventEmit(_) => m.Done?
    case AcceptCancel(_) => m.Done?
    case AcceptAnswer(_, _) => m.Done? || m.Failed?
    case VerbInvoke(_, _) => m.Done? || m.Failed?
    case MenuRequest(item) => m.Done? || m.VerbList? || (m.Failed? && item.None?)
    case QueryVerbs(_) => m.VerbList?
    case Unknown(_) => m.Failed?
    case DocHover(_) => false
    case AcceptStart(ptypes, _) =>
      if ptypes == [] then m.Failed?
      else m.AcceptResult? && (m.item.Some? ==> TypeMatches(ptypes, m.item.value.ptype))
  }
}
