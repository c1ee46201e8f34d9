/**
 One client of the broker and the broker together, over the connection between them: messages
 reach the broker in the order the client wrote them, and the client reads what the connection's
 writer took, in order. Other clients are free.
 */
module EndToEnd {
  import opened Wrappers
  import opened Wire
  import opened AcceptView
  import opened Replies
  import opened BrokerRuns
  import Registry
  import B = Broker
  import C = Client

  /** wire is all that the broker's writer has put on the client's connection. */
  datatype Pair = Pair(b: B.State, c: C.State, wire: seq<Msg>)

  datatype Step = OfBroker(broker: B.Step) | OfClient(client: C.Step)

  const START := Pair(B.START, C.START, [])

  /** The broker handles the client's messages in the order written; the client reads the wire in order. */
  predicate Enabled(p: Pair, id: nat, step: Step) {
    match step
    case OfBroker(s) =>
      B.Enabled(p.b, s)
      && (s.Receive? && s.id == id ==>
            |p.b.clients[id].asked| < |p.c.written| && s.req == p.c.written[|p.b.clients[id].asked|])
    case OfClient(s) =>
      C.Enabled(p.c, s)
      && (s.DoReceive? ==> |p.c.read| < |p.wire| && s.m == p.wire[|p.c.read|])
  }

  function Next(p: Pair, id: nat, step: Step): Pair
    requires Enabled(p, id, step)
  {
    match step
    case OfBroker(s) =>
      Pair(B.Next(p.b, s), p.c,
           if s == B.WriterTakes(id) then p.wire + [p.b.clients[id].log[p.b.clients[id].taken]] else p.wire)
    case OfClient(s) => p.(c := C.Next(p.c, s))
  }

  ghost predicate IsRun(pairs: seq<Pair>, id: nat, steps: seq<Step>) {
    && |pairs| == |steps| + 1 && pairs[0] == START
    && forall i | 0 <= i < |steps| :: Enabled(pairs[i], id, steps[i]) && pairs[i + 1] == Next(pairs[i], id, steps[i])
  }

  // ----- what the client keeps ----------------------------------------------

  /** What was written carries the number of the call that made it, and each call was written once or not at all. */
  ghost predicate Numbered(c: C.State) {
    && (forall r | r in c.written :: if r.body.DocHover? then r.no == 0 else WrittenBy(c, r))
    && (forall no: nat :: AskCount(c.written, no) == (if C.Known(c, no) && c.calls[no - 1].encoded then 1 else 0))
  }

  ghost predicate WrittenBy(c: C.State, r: Request) {
    C.Known(c, r.no) && c.calls[r.no - 1].body == r.body && c.calls[r.no - 1].encoded
  }

  /** One call's phase, channel and table entry fit together. */
  ghost predicate CallOk(c: C.State, no: nat)
    requires C.Known(c, no)
  {
    var call := c.calls[no - 1];
    && !call.body.DocHover?
    && (no in c.pending ==> call.box == C.Empty && (call.phase == C.Begun || call.phase == C.Sent))
    && (call.phase == C.Sent ==> call.encoded && (no in c.pending || call.box != C.Empty))
    && (call.phase == C.Begun ==> !call.encoded && (no in c.pending || call.box != C.Empty))
    && (call.box == C.Closed ==> c.broken)
    && (call.box.Holding? ==> call.box.m in c.read && IsReply(call.box.m) && call.box.m.no == no)
    && (call.phase.Returned? && call.phase.reply.Some? ==> call.box == C.Holding(call.phase.reply.value))
    && (call.phase == C.Returned(None) ==> !call.encoded || call.box == C.Closed)
  }

  ghost predicate TableOk(c: C.State) {
    && (forall no | no in c.pending :: C.Known(c, no))
    && (forall no: nat | C.Known(c, no) :: CallOk(c, no))
  }

  /** No reply was read for a call that is still pending. */
  ghost predicate NoneMissed(c: C.State) { forall no | no in c.pending :: ReplyCount(c.read, no) == 0 }

  /** A reply that was read sits in the channel of the call it bears the number of, unless that caller gave up. */
  ghost predicate HandedOver(c: C.State) {
    forall m | m in c.read && IsReply(m) ::
      C.Known(c, m.no) && (c.calls[m.no - 1].box == C.Holding(m) || c.calls[m.no - 1].phase == C.Expired)
  }

  /** Every reply on the wire answers something written, and no number gets more replies than were asked for. */
  ghost predicate WireOk(wire: seq<Msg>, written: seq<Request>) {
    && (forall m | m in wire && IsReply(m) :: exists r :: r in written && r.no == m.no && Answers(m, r.body))
    && (forall no: nat :: ReplyCount(wire, no) <= AskCount(written, no))
  }

  /** The wire and the written messages are what the broker has sent and handled, and what it will. */
  ghost predicate Joined(p: Pair, id: nat) {
    if id in p.b.clients then
      var conn := p.b.clients[id];
      conn.asked <= p.c.written && conn.taken <= |conn.log| && p.wire == conn.log[..conn.taken]
    else id > p.b.nextClient ==> p.wire == []
  }

  ghost predicate Linked(p: Pair, id: nat) {
    && Good(p.b) && Joined(p, id) && WireOk(p.wire, p.c.written) && p.c.read <= p.wire
    && Numbered(p.c) && TableOk(p.c) && NoneMissed(p.c) && HandedOver(p.c)
  }

  // ----- counting along prefixes --------------------------------------------

  lemma {:induction false} AskCountGrows(a: seq<Request>, b: seq<Request>, no: nat)
    requires a <= b
    ensures AskCount(a, no) <= AskCount(b, no)
  {
    if |a| < |b| { AskCountGrows(a, b[..|b| - 1], no); } else { assert a == b; }
  }

  lemma {:induction false} ReplyCountGrows(a: seq<Msg>, b: seq<Msg>, no: nat)
    requires a <= b
    ensures ReplyCount(a, no) <= ReplyCount(b, no)
  {
    if |a| < |b| { ReplyCountGrows(a, b[..|b| - 1], no); } else { assert a == b; }
  }

  lemma {:induction false} AskCountAfter(written: seq<Request>, r: Request, no: nat)
    ensures AskCount(written + [r], no) == AskCount(written, no) + (if !r.body.DocHover? && r.no == no then 1 else 0)
  {
    assert (written + [r])[..|written|] == written;
  }

  lemma {:induction false} ReplyCountAfter(ms: seq<Msg>, m: Msg, no: nat)
    ensures ReplyCount(ms + [m], no) == ReplyCount(ms, no) + (if IsReply(m) && m.no == no then 1 else 0)
  {
    assert (ms + [m])[..|ms|] == ms;
  }

  lemma {:induction false} ReplyIsCounted(ms: seq<Msg>, m: Msg)
    requires m in ms && IsReply(m)
    ensures ReplyCount(ms, m.no) >= 1
  {
    if ms[|ms| - 1] != m {
      assert ms == ms[..|ms| - 1] + [ms[|ms| - 1]];
      ReplyIsCounted(ms[..|ms| - 1], m);
    }
  }

  // ----- broker steps -------------------------------------------------------

  lemma {:induction false} ChannelMoves(s: B.State, id: nat, step: B.Step)
    requires B.Enabled(s, step) && id in s.clients && id in B.Next(s, step).clients && id <= s.nextClient
    ensures var c, d := s.clients[id], B.Next(s, step).clients[id];
      && d.asked == (if step.Receive? && step.id == id then c.asked + [step.req] else c.asked)
      && d.taken == (if step == B.WriterTakes(id) then c.taken + 1 else c.taken)
      && c.log <= d.log
  {
    hide B.Handle, B.RemoveConn, Registry.Heard, B.UpsertAll, B.Without;
    match step {
      case Connect =>
      case Receive(j, req, pick) => Registry.HandleTalks(s, j, req, pick);
      case Disconnect(j) => if j in s.clients { Registry.RemoveTalks(s, j); } else { Registry.UnknownLeaves(s, j); }
      case WriterTakes(j) =>
    }
  }

  /** Who is connected changes only by connecting, with a fresh id, and disconnecting. */
  lemma {:induction false} ConnectionsMove(s: B.State, step: B.Step)
    requires B.Enabled(s, step)
    ensures var t := B.Next(s, step);
      && t.nextClient == (if step.Connect? then s.nextClient + 1 else s.nextClient)
      && t.clients.Keys == (if step.Connect? then s.clients.Keys + {s.nextClient + 1}
                            else if step.Disconnect? then s.clients.Keys - {step.id} else s.clients.Keys)
      && (step.Connect? ==> t.clients[s.nextClient + 1] == B.NEW_CONN)
  {
    hide Accounted, Agree, B.Handle, B.RemoveConn, Registry.Heard, B.UpsertAll, B.Without;
    match step {
      case Connect =>
      case Receive(id, req, pick) => Registry.HandleTalks(s, id, req, pick);
      case Disconnect(id) =>
        if id in s.clients { Registry.RemoveTalks(s, id); } else { Registry.UnknownLeaves(s, id); }
      case WriterTakes(id) =>
    }
  }

  lemma {:induction false} ChannelBearsWire(p: Pair, id: nat)
    requires Good(p.b) && id in p.b.clients && Joined(p, id)
    ensures WireOk(p.wire, p.c.written)
  {
    hide Good;
    var conn := p.b.clients[id];
    ChannelReplies(p.b, id);
    forall m | m in p.wire && IsReply(m)
      ensures exists r :: r in p.c.written && r.no == m.no && Answers(m, r.body)
    {
      assert m in conn.log;
    }
    forall no: nat
      ensures ReplyCount(p.wire, no) <= AskCount(p.c.written, no)
    {
      ReplyCountGrows(p.wire, conn.log, no);
      AskCountGrows(conn.asked, p.c.written, no);
    }
  }

  lemma {:induction false} BrokerStepJoins(p: Pair, id: nat, s: B.Step)
    requires Good(p.b) && Joined(p, id) && Enabled(p, id, OfBroker(s))
    ensures Joined(Next(p, id, OfBroker(s)), id) && p.wire <= Next(p, id, OfBroker(s)).wire
  {
    hide B.Next, Accounted, Agree;
    var q := Next(p, id, OfBroker(s));
    ConnectionsMove(p.b, s);
    if id in p.b.clients && id in q.b.clients {
      ChannelMoves(p.b, id, s);
      var c, d := p.b.clients[id], q.b.clients[id];
      assert c.log[..c.taken] == d.log[..c.taken];
      if s == B.WriterTakes(id) {
        assert d.log[..d.taken] == d.log[..c.taken] + [d.log[c.taken]];
        assert c.log[c.taken] == d.log[c.taken];
      }
    }
  }

  lemma {:induction false} BrokerStepLinks(p: Pair, id: nat, s: B.Step)
    requires Linked(p, id) && Enabled(p, id, OfBroker(s))
    ensures Linked(Next(p, id, OfBroker(s)), id)
  {
    hide B.Next, Good, Joined, WireOk, Numbered, TableOk, NoneMissed, HandedOver;
    var q := Next(p, id, OfBroker(s));
    NextGood(p.b, s);
    BrokerStepJoins(p, id, s);
    if id in q.b.clients {
      ChannelBearsWire(q, id);
    } else if s == B.WriterTakes(id) {
      ConnectionsMove(p.b, s);
    }
  }

  // ----- client steps -------------------------------------------------------

  lemma {:induction false} BegunIsUnsent(c: C.State, no: nat)
    requires TableOk(c) && C.Known(c, no) && c.calls[no - 1].phase == C.Begun
    ensures !c.calls[no - 1].encoded && !c.calls[no - 1].body.DocHover?
  {
    assert CallOk(c, no);
  }

  lemma {:induction false} StepNumbers(c: C.State, step: C.Step)
    requires C.Enabled(c, step) && Numbered(c) && TableOk(c)
    ensures Numbered(C.Next(c, step))
  {
    hide AskCount, CallOk;
    var d := C.Next(c, step);
    forall no: nat ensures AskCount(d.written, no) == (if C.Known(d, no) && d.calls[no - 1].encoded then 1 else 0) {
      StepCounts(c, step, no);
    }
    forall r | r in d.written
      ensures if r.body.DocHover? then r.no == 0 else WrittenBy(d, r)
    {
      StepWrote(c, step, r);
    }
  }

  lemma {:induction false} StepCounts(c: C.State, step: C.Step, no: nat)
    requires C.Enabled(c, step) && Numbered(c) && TableOk(c)
    ensures var d := C.Next(c, step); AskCount(d.written, no) == (if C.Known(d, no) && d.calls[no - 1].encoded then 1 else 0)
  {
    hide AskCount, CallOk, WrittenBy, C.Hear;
    if step.DoEncode? {
      BegunIsUnsent(c, step.no);
      AskCountAfter(c.written, Request(step.no, c.calls[step.no - 1].body), no);
    } else if step.DoHover? {
      AskCountAfter(c.written, Request(0, DocHover(step.text)), no);
    }
  }

  lemma {:induction false} StepWrote(c: C.State, step: C.Step, r: Request)
    requires C.Enabled(c, step) && Numbered(c) && TableOk(c) && r in C.Next(c, step).written
    ensures if r.body.DocHover? then r.no == 0 else WrittenBy(C.Next(c, step), r)
  {
    hide AskCount, CallOk, C.Hear;
    if step.DoEncode? { BegunIsUnsent(c, step.no); }
    if r in c.written && !r.body.DocHover? { assert WrittenBy(c, r); }
  }

  lemma {:induction false} StepKeepsTable(c: C.State, step: C.Step)
    requires C.Enabled(c, step) && TableOk(c)
    ensures TableOk(C.Next(c, step))
  {
    hide CallOk;
    var d := C.Next(c, step);
    forall no: nat | C.Known(d, no)
      ensures CallOk(d, no)
    {
      StepKeepsCall(c, step, no);
    }
  }

  lemma {:induction false} StepKeepsCall(c: C.State, step: C.Step, no: nat)
    requires C.Enabled(c, step) && C.Known(C.Next(c, step), no) && (C.Known(c, no) ==> CallOk(c, no))
    ensures CallOk(C.Next(c, step), no)
  {
    if step.DoReceive? {
      ReceiveKeepsCall(c, step.m, no);
    } else if step.DoReadFails? {
      BreakKeepsCall(c, no);
    } else if step.DoBegin? {
      BeginKeepsCall(c, step.body, no);
    }
  }

  lemma {:induction false} ReceiveKeepsCall(c: C.State, m: Msg, no: nat)
    requires !c.broken && C.Known(c, no) && CallOk(c, no)
    ensures CallOk(C.Receive(c, m), no)
  {
    hide C.Hear;
  }

  lemma {:induction false} BreakKeepsCall(c: C.State, no: nat)
    requires !c.broken && C.Known(c, no) && CallOk(c, no)
    ensures CallOk(C.ReadFails(c), no)
  {
  }

  lemma {:induction false} BeginKeepsCall(c: C.State, body: Body, no: nat)
    requires !body.DocHover? && C.Known(C.Begin(c, body), no) && (C.Known(c, no) ==> CallOk(c, no))
    ensures CallOk(C.Begin(c, body), no)
  {
  }

  lemma {:induction false} StepMissesNone(c: C.State, step: C.Step)
    requires C.Enabled(c, step) && TableOk(c) && NoneMissed(c) && HandedOver(c)
    ensures NoneMissed(C.Next(c, step))
  {
    hide ReplyCount, CallOk;
    var d := C.Next(c, step);
    if step.DoReceive? {
      forall no | no in d.pending ensures ReplyCount(d.read, no) == 0 {
        ReplyCountAfter(c.read, step.m, no);
      }
    } else if step.DoBegin? {
      if ReplyCount(c.read, |c.calls| + 1) > 0 { CountedIsRead(c.read, |c.calls| + 1); }
    }
  }

  lemma {:induction false} CountedIsRead(ms: seq<Msg>, no: nat)
    requires ReplyCount(ms, no) > 0
    ensures exists m :: m in ms && IsReply(m) && m.no == no
  {
    var last := ms[|ms| - 1];
    if !(IsReply(last) && last.no == no) { CountedIsRead(ms[..|ms| - 1], no); }
  }

  /** The reply about to be read is the first of its number, and its call was sent. */
  lemma {:induction false} NextReplyIsNew(p: Pair, id: nat, m: Msg)
    requires WireOk(p.wire, p.c.written) && Numbered(p.c) && p.c.read <= p.wire
    requires |p.c.read| < |p.wire| && m == p.wire[|p.c.read|] && IsReply(m)
    ensures C.Known(p.c, m.no) && p.c.calls[m.no - 1].encoded && Answers(m, p.c.calls[m.no - 1].body)
    ensures ReplyCount(p.c.read, m.no) == 0
  {
    var read := p.c.read;
    assert m in p.wire;
    assert read + [m] == p.wire[..|read| + 1];
    ReplyCountAfter(read, m, m.no);
    ReplyCountGrows(read + [m], p.wire, m.no);
  }

  lemma {:induction false} StepHandsOver(p: Pair, id: nat, step: C.Step)
    requires Linked(p, id) && Enabled(p, id, OfClient(step))
    ensures HandedOver(C.Next(p.c, step))
  {
    hide Good, Joined, ReplyCount;
    var c, d := p.c, C.Next(p.c, step);
    if step.DoReceive? && IsReply(step.m) {
      NextReplyIsNew(p, id, step.m);
      ReceiveHandsOver(c, step.m);
    } else {
      forall m | m in d.read && IsReply(m)
        ensures C.Known(d, m.no) && (d.calls[m.no - 1].box == C.Holding(m) || d.calls[m.no - 1].phase == C.Expired)
      {
        assert m in c.read;
        assert CallOk(c, m.no);
      }
    }
  }

  lemma {:induction false} ReceiveHandsOver(c: C.State, m: Msg)
    requires !c.broken && IsReply(m) && TableOk(c) && HandedOver(c)
    requires C.Known(c, m.no) && c.calls[m.no - 1].encoded && ReplyCount(c.read, m.no) == 0
    ensures HandedOver(C.Receive(c, m))
  {
    hide ReplyCount;
    assert CallOk(c, m.no);
    var call := c.calls[m.no - 1];
    if call.box.Holding? { ReplyIsCounted(c.read, call.box.m); }
    var d := C.Receive(c, m);
    forall k | k in d.read && IsReply(k)
      ensures C.Known(d, k.no) && (d.calls[k.no - 1].box == C.Holding(k) || d.calls[k.no - 1].phase == C.Expired)
    {
      if k.no == m.no && k in c.read { ReplyIsCounted(c.read, k); }
    }
  }

  lemma {:induction false} ClientStepLinks(p: Pair, id: nat, s: C.Step)
    requires Linked(p, id) && Enabled(p, id, OfClient(s))
    ensures Linked(Next(p, id, OfClient(s)), id)
  {
    hide Good, Numbered, TableOk, NoneMissed, HandedOver;
    var q := Next(p, id, OfClient(s));
    StepNumbers(p.c, s);
    StepKeepsTable(p.c, s);
    StepMissesNone(p.c, s);
    StepHandsOver(p, id, s);
    assert p.c.written <= q.c.written;
    forall no: nat ensures ReplyCount(q.wire, no) <= AskCount(q.c.written, no) {
      AskCountGrows(p.c.written, q.c.written, no);
    }
    assert q.c.read <= q.wire;
  }

  lemma {:induction false} RunLinked(pairs: seq<Pair>, id: nat, steps: seq<Step>, i: nat)
    requires IsRun(pairs, id, steps) && i < |pairs|
    ensures Linked(pairs[i], id)
  {
    hide Enabled, Next, Good;
    if i == 0 {
      StartLinked(id);
    } else {
      RunLinked(pairs, id, steps, i - 1);
      assert pairs[i] == Next(pairs[i - 1], id, steps[i - 1]);
      match steps[i - 1] {
        case OfBroker(s) => BrokerStepLinks(pairs[i - 1], id, s);
        case OfClient(s) => ClientStepLinks(pairs[i - 1], id, s);
      }
    }
  }

  lemma {:induction false} StartLinked(id: nat)
    ensures Linked(START, id)
  {
    RunGood([B.START], [], 0);
  }

  // ----- the theorems -------------------------------------------------------

  /**
   In every run, a call that returned with a reply got the reply to what it itself asked: it bears the
   call's number and is of a kind that answers the call, and an object it carries matches the types asked for.
   */
  lemma {:induction false} CallsGetTheirOwnReply(pairs: seq<Pair>, id: nat, steps: seq<Step>, i: nat, no: nat)
    requires IsRun(pairs, id, steps) && i < |pairs| && C.Known(pairs[i].c, no)
    requires pairs[i].c.calls[no - 1].phase.Returned? && pairs[i].c.calls[no - 1].phase.reply.Some?
    ensures var call := pairs[i].c.calls[no - 1];
      var reply := call.phase.reply.value;
      IsReply(reply) && reply.no == no && Answers(reply, call.body)
  {
    hide Good, ReplyCount;
    RunLinked(pairs, id, steps, i);
    var p := pairs[i];
    assert CallOk(p.c, no);
    assert p.c.calls[no - 1].box.m in p.wire;
    var r :| r in p.c.written && r.no == no && Answers(p.c.calls[no - 1].box.m, r.body);
    assert WrittenBy(p.c, r);
  }

  /**
   In every run, no number is ever replied to twice, and each reply read went to the call of its number or
   found that caller gone.
   */
  lemma {:induction false} NoReplyGoesAstray(pairs: seq<Pair>, id: nat, steps: seq<Step>, i: nat)
    requires IsRun(pairs, id, steps) && i < |pairs|
    ensures var c := pairs[i].c;
      && (forall no: nat :: ReplyCount(c.read, no) <= 1)
      && (forall m | m in c.read && IsReply(m) ::
           C.Known(c, m.no) && (c.calls[m.no - 1].box == C.Holding(m) || c.calls[m.no - 1].phase == C.Expired))
  {
    hide Good;
    RunLinked(pairs, id, steps, i);
    var p := pairs[i];
    forall no: nat ensures ReplyCount(p.c.read, no) <= 1 {
      ReplyCountGrows(p.c.read, p.wire, no);
    }
  }

  /**
   No call hangs: when the broker has handled all that the client wrote, lost none of its replies, and the
   client has read them all, every caller still waiting has its reply at hand, except the one whose
   accept.start is the pending session.
   */
  lemma {:induction false} NoCallHangs(pairs: seq<Pair>, id: nat, steps: seq<Step>, i: nat, no: nat)
    requires IsRun(pairs, id, steps) && i < |pairs| && id in pairs[i].b.clients
    requires Lossless(pairs[i].b.clients[id]) && pairs[i].b.clients[id].asked == pairs[i].c.written
    requires pairs[i].c.read == pairs[i].b.clients[id].log && !pairs[i].c.broken
    requires C.Known(pairs[i].c, no) && pairs[i].c.calls[no - 1].phase == C.Sent
    ensures var x := pairs[i].b.session;
      pairs[i].c.calls[no - 1].box.Holding? <==> !(x.Some? && x.value.requester == id && x.value.no == no)
  {
    hide ReplyCount, AskCount;
    RunLinked(pairs, id, steps, i);
    var p := pairs[i];
    var conn := p.b.clients[id];
    B.WithinKeeps(conn.log, conn.sent);
    assert BalancedAt(p.b, Owed(p.b), id, no);
    assert CallOk(p.c, no);
    if p.c.calls[no - 1].box.Holding? { ReplyIsCounted(p.c.read, p.c.calls[no - 1].box.m); }
  }

  // ----- after the connection died ------------------------------------------

  /**
   The read loop ended when n calls had been made: of those none is left waiting with an empty channel, and no
   later one's channel is ever filled or closed.
   */
  ghost predicate BrokenAt(c: C.State, n: nat) {
    && c.broken && n <= |c.calls|
    && (forall no: nat | C.Known(c, no) && no <= n ::
          c.calls[no - 1].phase == C.Begun || c.calls[no - 1].phase == C.Sent ==> c.calls[no - 1].box != C.Empty)
    && (forall no: nat | C.Known(c, no) && no > n :: c.calls[no - 1].box == C.Empty)
  }

  /** When the read loop ends, exactly the pending calls' channels are closed; every call in flight can then return. */
  lemma {:induction false} BreakReleases(c: C.State)
    requires TableOk(c) && !c.broken
    ensures var d := C.ReadFails(c);
      && BrokenAt(d, |c.calls|)
      && forall no: nat | C.Known(c, no) :: d.calls[no - 1].box == if no in c.pending then C.Closed else c.calls[no - 1].box
  {
    var d := C.ReadFails(c);
    forall no: nat | C.Known(d, no)
      ensures d.calls[no - 1].box == if no in c.pending then C.Closed else c.calls[no - 1].box
      ensures d.calls[no - 1].phase == C.Begun || d.calls[no - 1].phase == C.Sent ==> d.calls[no - 1].box != C.Empty
    {
      assert CallOk(c, no);
    }
  }

  lemma {:induction false} StepKeepsBroken(c: C.State, step: C.Step, n: nat)
    requires C.Enabled(c, step) && BrokenAt(c, n)
    ensures BrokenAt(C.Next(c, step), n)
  {
    var d := C.Next(c, step);
    forall no: nat | C.Known(d, no)
      ensures no <= n ==>
        (d.calls[no - 1].phase == C.Begun || d.calls[no - 1].phase == C.Sent ==> d.calls[no - 1].box != C.Empty)
      ensures no > n ==> d.calls[no - 1].box == C.Empty
    {
      if C.Known(c, no) { assert no <= n || c.calls[no - 1].box == C.Empty; }
    }
  }

  lemma {:induction false} RunKeepsBroken(pairs: seq<Pair>, id: nat, steps: seq<Step>, a: nat, i: nat)
    requires IsRun(pairs, id, steps) && a < i < |pairs| && steps[a] == OfClient(C.DoReadFails)
    ensures BrokenAt(pairs[i].c, |pairs[a].c.calls|)
  {
    hide Linked, C.Next, C.Enabled;
    assert pairs[i] == Next(pairs[i - 1], id, steps[i - 1]) && Enabled(pairs[i - 1], id, steps[i - 1]);
    if i == a + 1 {
      TableAt(pairs, id, steps, a);
      StillUp(pairs[a].c);
      BreakReleases(pairs[a].c);
      BreakIsReadFails(pairs[a].c);
    } else {
      RunKeepsBroken(pairs, id, steps, a, i - 1);
      if steps[i - 1].OfClient? { StepKeepsBroken(pairs[i - 1].c, steps[i - 1].client, |pairs[a].c.calls|); }
    }
  }

  lemma {:induction false} TableAt(pairs: seq<Pair>, id: nat, steps: seq<Step>, a: nat)
    requires IsRun(pairs, id, steps) && a < |pairs|
    ensures TableOk(pairs[a].c)
  {
    hide Good;
    RunLinked(pairs, id, steps, a);
  }

  lemma {:induction false} StillUp(c: C.State)
    requires C.Enabled(c, C.DoReadFails)
    ensures !c.broken
  {
  }

  lemma {:induction false} BreakIsReadFails(c: C.State)
    requires C.Enabled(c, C.DoReadFails)
    ensures C.Next(c, C.DoReadFails) == C.ReadFails(c)
  {
  }

  /**
   After the connection died, a waiting call can return if and only if it was made before; one made later whose
   message was still written waits until its context ends, and no reply ever reaches it.
   */
  lemma {:induction false} OnlyEarlierCallsReturn(pairs: seq<Pair>, id: nat, steps: seq<Step>, a: nat, i: nat, no: nat)
    requires IsRun(pairs, id, steps) && a < i < |pairs| && steps[a] == OfClient(C.DoReadFails)
    requires C.Known(pairs[i].c, no) && pairs[i].c.calls[no - 1].phase == C.Sent
    ensures C.Enabled(pairs[i].c, C.DoReturn(no)) <==> no <= |pairs[a].c.calls|
    ensures no > |pairs[a].c.calls| ==> no in pairs[i].c.pending
  {
    hide Enabled, Next, Linked;
    RunKeepsBroken(pairs, id, steps, a, i);
    TableAt(pairs, id, steps, i);
    assert CallOk(pairs[i].c, no);
  }

  /** Such a call is possible: made and written after the break, it waits with an empty channel. */
  lemma {:induction false} LateCallWaits(body: Body)
    requires !body.DocHover?
    ensures var c := C.Encode(C.Begin(C.ReadFails(C.START), body), 1);
      && C.Enabled(C.START, C.DoReadFails) && C.Enabled(C.ReadFails(C.START), C.DoBegin(body))
      && C.Enabled(C.Begin(C.ReadFails(C.START), body), C.DoEncode(1))
      && c.broken && c.calls[0].phase == C.Sent && !C.Enabled(c, C.DoReturn(1)) && C.Enabled(c, C.DoExpire(1))
  {
    var c := C.Begin(C.ReadFails(C.START), body);
    assert c.calls[0] == C.Call(body, C.Begun, C.Empty, false);
  }

  // ----- the banner ---------------------------------------------------------

  function Fold(v: Option<Mode>, ms: seq<Msg>): Option<Mode> {
    if ms == [] then v else See(Fold(v, ms[..|ms| - 1]), ms[|ms| - 1])
  }

  /** A message that sets the banner, or takes away the one shown as v. */
  predicate Overrides(m: Msg, v: Mode) { m.AcceptMode? || (m.AcceptClear? && m.session == v.session) }

  /** Whatever v shows has been replaced or cleared by ms. */
  ghost predicate Overridden(v: Option<Mode>, ms: seq<Msg>) { v.Some? ==> exists m :: m in ms && Overrides(m, v.value) }

  lemma {:induction false} OverriddenAfter(v: Option<Mode>, ms: seq<Msg>, m: Msg)
    ensures Overridden(v, ms + [m]) <==> Overridden(v, ms) || (v.Some? && Overrides(m, v.value))
  {
    if v.Some? && Overrides(m, v.value) { assert m in ms + [m]; }
    if k :| v.Some? && k in ms && Overrides(k, v.value) { assert k in ms + [m]; }
  }

  ghost predicate AnyMode(ms: seq<Msg>) { exists m :: m in ms && m.AcceptMode? }

  lemma {:induction false} AnyModeAfter(ms: seq<Msg>, m: Msg)
    ensures AnyMode(ms + [m]) <==> AnyMode(ms) || m.AcceptMode?
  {
    if m.AcceptMode? { assert m in ms + [m]; }
    if k :| k in ms && k.AcceptMode? { assert k in ms + [m]; }
  }

  /** Without a new mode what was shown stays, until it is cleared. */
  lemma {:induction false} FoldWithoutMode(v: Option<Mode>, ms: seq<Msg>)
    requires !AnyMode(ms)
    ensures Fold(v, ms) == if Overridden(v, ms) then None else v
  {
    if ms != [] {
      var rest, last := ms[..|ms| - 1], ms[|ms| - 1];
      assert ms == rest + [last];
      AnyModeAfter(rest, last);
      OverriddenAfter(v, rest, last);
      FoldWithoutMode(v, rest);
    }
  }

  /** A new mode shows whatever was shown before. */
  lemma {:induction false} FoldWithMode(u: Option<Mode>, v: Option<Mode>, ms: seq<Msg>)
    requires AnyMode(ms)
    ensures Fold(u, ms) == Fold(v, ms) && Overridden(u, ms)
  {
    var rest, last := ms[..|ms| - 1], ms[|ms| - 1];
    assert ms == rest + [last];
    AnyModeAfter(rest, last);
    OverriddenAfter(u, rest, last);
    if AnyMode(rest) { FoldWithMode(u, v, rest); }
  }

  /** Two banners agree after the same messages exactly if they agreed before or both have been replaced or cleared. */
  lemma {:induction false} BannersAgree(u: Option<Mode>, v: Option<Mode>, ms: seq<Msg>)
    ensures Fold(u, ms) == Fold(v, ms) <==> u == v || (Overridden(u, ms) && Overridden(v, ms))
  {
    if AnyMode(ms) {
      FoldWithMode(u, v, ms);
      FoldWithMode(v, u, ms);
    } else {
      FoldWithoutMode(u, ms);
      FoldWithoutMode(v, ms);
    }
  }

  lemma {:induction false} FoldAfter(v: Option<Mode>, ms: seq<Msg>, m: Msg)
    ensures Fold(v, ms + [m]) == See(Fold(v, ms), m)
  {
    assert (ms + [m])[..|ms|] == ms;
  }

  lemma {:induction false} ViewSplits(before: seq<Msg>, ms: seq<Msg>)
    ensures View(before + ms) == Fold(View(before), ms)
  {
    if ms == [] {
      assert before + ms == before;
    } else {
      ViewSplits(before, ms[..|ms| - 1]);
      assert (before + ms)[..|before + ms| - 1] == before + ms[..|ms| - 1];
    }
  }

  /** Both accept handlers are registered. */
  predicate Listening(c: C.State) { c.hearsModes && c.hearsClears }

  /** From c on to d the client listened, and its banner followed what it read. */
  ghost predicate Followed(c: C.State, d: C.State) {
    && Listening(d) && c.read <= d.read
    && d.accepting == Fold(c.accepting, d.read[|c.read|..])
  }

  lemma {:induction false} StepFollows(c: C.State, d: C.State, step: C.Step)
    requires Followed(c, d) && C.Enabled(d, step)
    ensures Followed(c, C.Next(d, step))
  {
    if step.DoReceive? {
      assert (d.read + [step.m])[|c.read|..] == d.read[|c.read|..] + [step.m];
      FoldAfter(c.accepting, d.read[|c.read|..], step.m);
    }
  }

  lemma {:induction false} RunFollows(pairs: seq<Pair>, id: nat, steps: seq<Step>, a: nat, i: nat)
    requires IsRun(pairs, id, steps) && a <= i < |pairs| && Listening(pairs[a].c)
    ensures Followed(pairs[a].c, pairs[i].c)
  {
    hide C.Next, C.Enabled;
    if i == a {
      assert pairs[a].c.read[|pairs[a].c.read|..] == [];
    } else {
      RunFollows(pairs, id, steps, a, i - 1);
      assert pairs[i] == Next(pairs[i - 1], id, steps[i - 1]);
      if steps[i - 1].OfClient? { StepFollows(pairs[a].c, pairs[i - 1].c, steps[i - 1].client); }
    }
  }

  /**
   Let both accept handlers be registered at a. The banner shown later by this client, once it has said hello,
   lost nothing and read everything, is the broker's pending session exactly if what it showed at a was what
   the messages read by then announce, or both of these have been replaced or cleared since.
   */
  lemma {:induction false} BannerShowsSession(pairs: seq<Pair>, id: nat, steps: seq<Step>, a: nat, i: nat)
    requires IsRun(pairs, id, steps) && a <= i < |pairs| && Listening(pairs[a].c)
    requires id in pairs[i].b.clients && pairs[i].b.clients[id].greeted && Lossless(pairs[i].b.clients[id])
    requires pairs[i].c.read == pairs[i].b.clients[id].log
    ensures pairs[a].c.read <= pairs[i].c.read
    ensures var shown, due := pairs[a].c.accepting, View(pairs[a].c.read);
      var since := pairs[i].c.read[|pairs[a].c.read|..];
      (pairs[i].c.accepting == Current(pairs[i].b)) <==>
      (shown == due || (Overridden(shown, since) && Overridden(due, since)))
  {
    hide View, Fold, Overridden;
    RunLinked(pairs, id, steps, i);
    RunFollows(pairs, id, steps, a, i);
    var p := pairs[i];
    B.WithinKeeps(p.b.clients[id].log, p.b.clients[id].sent);
    var before, since := pairs[a].c.read, p.c.read[|pairs[a].c.read|..];
    assert p.c.read == before + since;
    ViewSplits(before, since);
    BannersAgree(pairs[a].c.accepting, View(before), since);
  }

  // ----- between the two handlers -------------------------------------------

  /** The last mode among ms, whether or not it was cleared. */
  function LastMode(ms: seq<Msg>): Option<Mode> {
    if ms == [] then None else C.Hear(LastMode(ms[..|ms| - 1]), ms[|ms| - 1], true, false)
  }

  lemma {:induction false} NothingShowsUnheard(pairs: seq<Pair>, id: nat, steps: seq<Step>, i: nat)
    requires IsRun(pairs, id, steps) && i < |pairs| && !pairs[i].c.hearsModes
    ensures pairs[i].c.accepting == None
  {
    if i > 0 {
      assert pairs[i] == Next(pairs[i - 1], id, steps[i - 1]) && Enabled(pairs[i - 1], id, steps[i - 1]);
      NothingShowsUnheard(pairs, id, steps, i - 1);
    }
  }

  lemma {:induction false} StepShowsMode(k: nat, d: C.State, step: C.Step)
    requires C.Enabled(d, step) && !C.Next(d, step).hearsClears && d.hearsModes
    requires k <= |d.read| && d.accepting == LastMode(d.read[k..])
    ensures var e := C.Next(d, step); e.hearsModes && d.read <= e.read && e.accepting == LastMode(e.read[k..])
  {
    if step.DoReceive? {
      assert (d.read + [step.m])[k..][..|d.read| - k] == d.read[k..];
    }
  }

  /** With only the handler for accept.mode, registered at a, the last mode read since is shown, cleared or not. */
  lemma {:induction false} LastModeShows(pairs: seq<Pair>, id: nat, steps: seq<Step>, a: nat, i: nat)
    requires IsRun(pairs, id, steps) && a < i < |pairs|
    requires steps[a] == OfClient(C.DoListenModes) && !pairs[i].c.hearsClears
    ensures pairs[i].c.hearsModes && pairs[a].c.read <= pairs[i].c.read
    ensures pairs[i].c.accepting == LastMode(pairs[i].c.read[|pairs[a].c.read|..])
  {
    hide LastMode;
    assert pairs[i] == Next(pairs[i - 1], id, steps[i - 1]) && Enabled(pairs[i - 1], id, steps[i - 1]);
    if i == a + 1 {
      NothingShowsUnheard(pairs, id, steps, a);
      assert pairs[i].c.read[|pairs[a].c.read|..] == [];
      NoMode();
    } else {
      LastModeShows(pairs, id, steps, a, i - 1);
      if steps[i - 1].OfClient? { StepShowsMode(|pairs[a].c.read|, pairs[i - 1].c, steps[i - 1].client); }
    }
  }

  lemma {:induction false} NoMode()
    ensures LastMode([]) == None
  {
  }
}
