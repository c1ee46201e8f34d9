/**
 A broker client: calls that each take a fresh number and wait in the pending table, and the read
 loop that hands replies to them. The steps are those of concurrent callers and the read loop, each
 atomic under the client's lock or on the connection.
 */
module Client {
  import opened Wrappers
  import opened Wire
  import opened AcceptView

  /** Where a caller stands: numbered, sent, returned with a reply or an error, or given up waiting. */
  datatype Phase = Begun | Sent | Returned(reply: Option<Msg>) | Expired

  /** The one-slot channel of a call. */
  datatype Box = Empty | Holding(m: Msg) | Closed

  datatype Call = Call(body: Body, phase: Phase, box: Box, encoded: bool)

  /**
   Call number n is calls[n - 1]. written and read are what went out on and came in from the
   connection; accepting is the window manager's banner. hearsModes and hearsClears say whether the handler
   for accept.mode and the one for accept.clear are registered.
   */
  datatype State = State(calls: seq<Call>, pending: set<nat>, written: seq<Request>, read: seq<Msg>, broken: bool,
                         hearsModes: bool, hearsClears: bool, accepting: Option<Mode>)

  const START := State([], {}, [], [], false, false, false, None)

  predicate Known(c: State, no: nat) { 1 <= no <= |c.calls| }

  function Begin(c: State, body: Body): State {
    c.(calls := c.calls + [Call(body, Begun, Empty, false)], pending := c.pending + {|c.calls| + 1})
  }

  function Encode(c: State, no: nat): State
    requires Known(c, no)
  {
    var call := c.calls[no - 1];
    c.(calls := c.calls[no - 1 := call.(phase := Sent, encoded := true)],
       written := c.written + [Request(no, call.body)])
  }

  function EncodeFails(c: State, no: nat): State
    requires Known(c, no)
  {
    c.(calls := c.calls[no - 1 := c.calls[no - 1].(phase := Returned(None))], pending := c.pending - {no})
  }

  /** Mouse hovering is sent without a number and expects no reply. */
  function Hover(c: State, text: string): State {
    c.(written := c.written + [Request(0, DocHover(text))])
  }

  /** The handler for accept.mode is registered. */
  function ListenModes(c: State): State { c.(hearsModes := true) }

  /** The handler for accept.clear is registered: a call of its own, which takes the lock again. */
  function ListenClears(c: State): State { c.(hearsClears := true) }

  /** What the banner shows after a message, if that message has a handler. */
  function Hear(v: Option<Mode>, m: Msg, modes: bool, clears: bool): Option<Mode> {
    if (m.AcceptMode? && modes) || (m.AcceptClear? && clears) then See(v, m) else v
  }

  /** The read loop takes one message off the connection: a reply goes to the pending call of its number, if any. */
  function Receive(c: State, m: Msg): State {
    var d := c.(read := c.read + [m], accepting := Hear(c.accepting, m, c.hearsModes, c.hearsClears));
    if IsReply(m) && m.no in c.pending && Known(c, m.no) then
      d.(calls := d.calls[m.no - 1 := d.calls[m.no - 1].(box := Holding(m))], pending := d.pending - {m.no})
    else d
  }

  /** The connection died: every pending call's channel is closed. */
  function ReadFails(c: State): State {
    c.(calls := seq(|c.calls|, i requires 0 <= i < |c.calls| =>
                      if i + 1 in c.pending then c.calls[i].(box := Closed) else c.calls[i]),
       pending := {}, broken := true)
  }

  /** A caller whose channel holds a reply, or is closed, returns. */
  function Return(c: State, no: nat): State
    requires Known(c, no)
  {
    var call := c.calls[no - 1];
    c.(calls := c.calls[no - 1 := call.(phase := Returned(if call.box.Holding? then Some(call.box.m) else None))])
  }

  /** A caller's context ends first. */
  function Expire(c: State, no: nat): State
    requires Known(c, no)
  {
    c.(calls := c.calls[no - 1 := c.calls[no - 1].(phase := Expired)], pending := c.pending - {no})
  }

  datatype Step =
    | DoBegin(body: Body)
    | DoEncode(no: nat)
    | DoEncodeFails(no: nat)
    | DoHover(text: string)
    | DoListenModes
    | DoListenClears
    | DoReceive(m: Msg)
    | DoReadFails
    | DoReturn(no: nat)
    | DoExpire(no: nat)

  predicate Enabled(c: State, step: Step) {
    match step
    case DoBegin(body) => !body.DocHover?
    case DoEncode(no) => Known(c, no) && c.calls[no - 1].phase == Begun
    case DoEncodeFails(no) => Known(c, no) && c.calls[no - 1].phase == Begun
    case DoHover(_) => true
    case DoListenModes => !c.hearsModes
    case DoListenClears => !c.hearsClears
    case DoReceive(_) => !c.broken
    case DoReadFails => !c.broken
    case DoReturn(no) => Known(c, no) && c.calls[no - 1].phase == Sent && c.calls[no - 1].box != Empty
    case DoExpire(no) => Known(c, no) && c.calls[no - 1].phase == Sent
  }

  function Next(c: State, step: Step): State
    requires Enabled(c, step)
  {
    match step
    case DoBegin(body) => Begin(c, body)
    case DoEncode(no) => Encode(c, no)
    case DoEncodeFails(no) => EncodeFails(c, no)
    case DoHover(text) => Hover(c, text)
    case DoListenModes => ListenModes(c)
    case DoListenClears => ListenClears(c)
    case DoReceive(m) => Receive(c, m)
    case DoReadFails => ReadFails(c)
    case DoReturn(no) => Return(c, no)
    case DoExpire(no) => Expire(c, no)
  }
}
