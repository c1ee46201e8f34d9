/** A broker client as the object its callers and its read loop update, each method proved against its meaning in Client. */
module LiveClient {
  import opened Wrappers
  import opened Wire
  import opened AcceptView
  import C = Client

  /** The client as the object its callers and its read loop update. */
  class Client {
    var calls: seq<C.Call>
    var pending: set<nat>
    var written: seq<Request>
    var read: seq<Msg>
    var broken: bool
    var hearsModes: bool
    var hearsClears: bool
    var accepting: Option<Mode>

    function Value(): C.State
      reads this
    {
      C.State(calls, pending, written, read, broken, hearsModes, hearsClears, accepting)
    }

    constructor ()
      ensures Value() == C.START
    {
      calls, pending, written, read := [], {}, [], [];
      broken, hearsModes, hearsClears, accepting := false, false, false, None;
    }

    /** Takes the next number and enters the pending table. */
    method Begin(body: Body) returns (no: nat)
      modifies this
      ensures Value() == C.Begin(old(Value()), body) && no == |old(calls)| + 1
    {
      calls := calls + [C.Call(body, C.Begun, C.Empty, false)];
      no := |calls|;
      pending := pending + {no};
    }

    method Encode(no: nat, fails: bool)
      requires C.Known(Value(), no)
      modifies this
      ensures Value() == if fails then C.EncodeFails(old(Value()), no) else C.Encode(old(Value()), no)
    {
      var call := calls[no - 1];
      if fails {
        pending := pending - {no};
        calls := calls[no - 1 := call.(phase := C.Returned(None))];
        return;
      }
      written := written + [Request(no, call.body)];
      calls := calls[no - 1 := call.(phase := C.Sent, encoded := true)];
    }

    method Hover(text: string)
      modifies this`written
      ensures Value() == C.Hover(old(Value()), text)
    {
      written := written + [Request(0, DocHover(text))];
    }

    method ListenModes()
      modifies this`hearsModes
      ensures Value() == C.ListenModes(old(Value()))
    {
      hearsModes := true;
    }

    method ListenClears()
      modifies this`hearsClears
      ensures Value() == C.ListenClears(old(Value()))
    {
      hearsClears := true;
    }

    /** One turn of the read loop. */
    method Receive(m: Msg)
      modifies this
      ensures Value() == C.Receive(old(Value()), m)
    {
      read := read + [m];
      if m.AcceptMode? {
        if hearsModes { accepting := Some(Mode(m.session, m.ptypes, m.prompt)); }
      } else if m.AcceptClear? {
        if hearsClears && accepting.Some? && accepting.value.session == m.session { accepting := None; }
      } else if IsReply(m) {
        var waiting := m.no in pending && 1 <= m.no <= |calls|;
        if waiting {
          pending := pending - {m.no};
          calls := calls[m.no - 1 := calls[m.no - 1].(box := C.Holding(m))];
        }
      }
    }

    /** The last turn of the read loop: every pending channel is closed and its entry deleted. */
    method ReadFails()
      modifies this
      ensures Value() == C.ReadFails(old(Value()))
    {
      broken := true;
      while pending != {}
        invariant pending <= old(pending) && |calls| == |old(calls)|
        invariant forall i | 0 <= i < |calls| ::
          calls[i] == if i + 1 in old(pending) - pending then old(calls)[i].(box := C.Closed) else old(calls)[i]
        invariant Value() == old(Value()).(calls := calls, pending := pending, broken := true)
      {
        var no :| no in pending;
        if 1 <= no <= |calls| { calls := calls[no - 1 := calls[no - 1].(box := C.Closed)]; }
        pending := pending - {no};
      }
    }

    method Return(no: nat) returns (reply: Option<Msg>)
      requires C.Enabled(Value(), C.DoReturn(no))
      modifies this
      ensures Value() == C.Return(old(Value()), no) && calls[no - 1].phase == C.Returned(reply)
    {
      var call := calls[no - 1];
      reply := if call.box.Holding? then Some(call.box.m) else None;
      calls := calls[no - 1 := call.(phase := C.Returned(reply))];
    }

    method Expire(no: nat)
      requires C.Known(Value(), no)
      modifies this
      ensures Value() == C.Expire(old(Value()), no)
    {
      pending := pending - {no};
      calls := calls[no - 1 := calls[no - 1].(phase := C.Expired)];
    }
  }
}
