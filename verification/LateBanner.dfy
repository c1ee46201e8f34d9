/** Two runs in which the window manager registers an accept handler too late, and its banner stays wrong. */
module LateBanner {
  import opened Wrappers
  import opened Wire
  import opened AcceptView
  import opened BrokerRuns
  import opened EndToEnd
  import Ids
  import B = Broker
  import C = Client

  const WANTED := AcceptStart(["file"], "Pick a file")
  const GREETING := Hello("wm", {"wm"})
  const PENDING := B.Session(Ids.SessionName(1), 1, 1, ["file"], "Pick a file")
  const CLEARED := AcceptClear(Ids.SessionName(1), "cancelled")

  /**
   Client 1 starts an accept. Client 2 connects and says hello, so the broker sends it the welcome and the
   pending session; it reads both, and only then registers its accept handlers.
   */
  const MISSING := [
    OfBroker(B.Connect),
    OfBroker(B.Receive(1, Request(1, WANTED), 0)),
    OfBroker(B.Connect),
    OfClient(C.DoBegin(GREETING)),
    OfClient(C.DoEncode(1)),
    OfBroker(B.Receive(2, Request(1, GREETING), 0)),
    OfBroker(B.WriterTakes(2)),
    OfBroker(B.WriterTakes(2)),
    OfClient(C.DoReceive(Welcome(1))),
    OfClient(C.DoReceive(B.ModeOf(PENDING))),
    OfClient(C.DoListenModes),
    OfClient(C.DoListenClears)
  ]

  /**
   Client 2 connects, says hello while nothing is pending, and registers its handler for accept.mode. Client 1
   starts an accept and cancels it; client 2 reads both messages, and only then registers the one for accept.clear.
   */
  const STAYING := [
    OfBroker(B.Connect),
    OfBroker(B.Connect),
    OfClient(C.DoBegin(GREETING)),
    OfClient(C.DoEncode(1)),
    OfBroker(B.Receive(2, Request(1, GREETING), 0)),
    OfBroker(B.WriterTakes(2)),
    OfClient(C.DoReceive(Welcome(1))),
    OfClient(C.DoListenModes),
    OfBroker(B.Receive(1, Request(1, WANTED), 0)),
    OfBroker(B.WriterTakes(2)),
    OfClient(C.DoReceive(B.ModeOf(PENDING))),
    OfBroker(B.Receive(1, Request(2, AcceptCancel("")), 0)),
    OfBroker(B.WriterTakes(2)),
    OfClient(C.DoReceive(CLEARED)),
    OfClient(C.DoListenClears)
  ]

  // ----- what the broker does with the messages of the two runs --------------

  lemma {:induction false} AcceptPending(s: B.State)
    requires 1 in s.clients && s.session == None && s.subs == {} && s.nextSess == 0
    ensures var t := B.Handle(s, 1, Request(1, WANTED), 0);
      && t.session == Some(PENDING) && t.subs == {} && t.clients.Keys == s.clients.Keys && t.nextClient == s.nextClient
      && (2 in s.clients ==> t.clients[2] == B.Enqueue(s.clients[2], B.ModeOf(PENDING)))
  {
    hide B.Enqueue;
    var noted := B.Noted(s, 1, Request(1, WANTED));
    assert noted.session == None;
    assert B.ClearSession(noted, "superseded") == noted;
  }

  /** The cancelled session's requester has its result and everyone the clear. */
  lemma {:induction false} AcceptCancelled(s: B.State)
    requires 1 in s.clients && 2 in s.clients && s.session == Some(PENDING) && s.subs == {}
    ensures var t := B.Handle(s, 1, Request(2, AcceptCancel("")), 0);
      t.session == None && 2 in t.clients && t.clients[2] == B.Enqueue(s.clients[2], CLEARED)
  {
    hide B.Enqueue;
    var noted := B.Noted(s, 1, Request(2, AcceptCancel("")));
    assert !B.ForeignSession(noted, "");
    var told := B.SendTo(noted.(session := None), 1, AcceptResult(1, PENDING.id, None, "cancelled"));
    var all := B.Broadcast(told, CLEARED);
    assert all.clients[2] == B.Enqueue(s.clients[2], CLEARED);
    assert B.ClearSession(noted, "cancelled") == B.Emit(all, "accept.cleared", "broker");
  }

  /** A hello is answered by the welcome and, if there is one, the pending session. */
  lemma {:induction false} HelloAnswered(s: B.State)
    requires 2 in s.clients && s.clients[2] == B.NEW_CONN && s.subs == {}
    ensures var t := B.Handle(s, 2, Request(1, GREETING), 0);
      var sent := [Welcome(1)] + if s.session.Some? then [B.ModeOf(s.session.value)] else [];
      && t.session == s.session && t.subs == {} && t.nextSess == s.nextSess && t.clients.Keys == s.clients.Keys
      && t.clients[2] == B.Conn("wm", {"wm"}, sent, 0, true, [Request(1, GREETING)], sent)
  {
    var noted := B.Noted(s, 2, Request(1, GREETING));
    var c := noted.clients[2].(name := "wm", roles := {} + {"wm"}, greeted := true);
    var named := noted.(clients := noted.clients[2 := c]);
    var known := B.SendTo(named, 2, Welcome(1));
    var traced := B.Emit(known, "client.connected", "broker");
    assert traced.clients[2] == known.clients[2];
    assert [] + [Welcome(1)] == [Welcome(1)] && [Welcome(1)] + [] == [Welcome(1)];
    assert [] + [Request(1, GREETING)] == [Request(1, GREETING)];
    assert {} + {"wm"} == {"wm"};
  }

  lemma {:induction false} TwoConnect()
    ensures var s := B.AddConn(B.AddConn(B.START));
      && s.clients.Keys == {1, 2} && s.clients[2] == B.NEW_CONN
      && s.session == None && s.subs == {} && s.nextSess == 0
  {
  }

  /** The broker's part: client 2 connected while the session is pending. */
  lemma {:induction false} LateComer(s: B.State)
    requires s == B.AddConn(B.Handle(B.AddConn(B.START), 1, Request(1, WANTED), 0))
    ensures 2 in s.clients && s.clients[2] == B.NEW_CONN && s.session == Some(PENDING) && s.subs == {}
  {
    hide B.Handle;
    AcceptPending(B.AddConn(B.START));
  }

  // ----- the client's part ----------------------------------------------------

  lemma {:induction false} BegunOnce()
    ensures var c := C.Begin(C.START, GREETING); C.Known(c, 1) && c.calls[0].phase == C.Begun
  {
  }

  predicate Deaf(c: C.State) { !c.broken && !c.hearsModes && !c.hearsClears && c.accepting == None }

  lemma {:induction false} HelloWritten()
    ensures var c := C.Encode(C.Begin(C.START, GREETING), 1);
      c.written == [Request(1, GREETING)] && c.read == [] && Deaf(c)
  {
  }

  lemma {:induction false} Unheard(c: C.State, m: Msg)
    requires Deaf(c)
    ensures C.Receive(c, m).read == c.read + [m] && Deaf(C.Receive(c, m))
  {
  }

  /** With the first handler alone a mode shows, and a clear does not take it away. */
  predicate HalfDeaf(c: C.State) { !c.broken && c.hearsModes && !c.hearsClears }

  lemma {:induction false} HalfHeard(c: C.State, m: Msg)
    requires HalfDeaf(c)
    ensures var d := C.Receive(c, m);
      && d.read == c.read + [m] && HalfDeaf(d)
      && d.accepting == if m.AcceptMode? then Some(Mode(m.session, m.ptypes, m.prompt)) else c.accepting
  {
  }

  // ----- the runs ------------------------------------------------------------

  /** ps follow one another by the steps from number k on. */
  ghost predicate Follow(ps: seq<Pair>, steps: seq<Step>, k: nat) {
    && |ps| >= 1 && k + |ps| - 1 <= |steps|
    && forall i | 0 <= i < |ps| - 1 :: Enabled(ps[i], 2, steps[k + i]) && ps[i + 1] == Next(ps[i], 2, steps[k + i])
  }

  lemma {:induction false} Joins(a: seq<Pair>, b: seq<Pair>, steps: seq<Step>, k: nat)
    requires Follow(a, steps, k) && Follow(b, steps, k + |a| - 1) && b[0] == a[|a| - 1]
    ensures Follow(a + b[1..], steps, k)
  {
    hide Enabled, Next;
    var ps := a + b[1..];
    forall i | 0 <= i < |ps| - 1
      ensures Enabled(ps[i], 2, steps[k + i]) && ps[i + 1] == Next(ps[i], 2, steps[k + i])
    {
      if i >= |a| - 1 {
        var j := i - (|a| - 1);
        assert ps[i] == b[j] && ps[i + 1] == b[j + 1];
        assert b[j + 1] == Next(b[j], 2, steps[k + |a| - 1 + j]);
      }
    }
  }

  /** Client 2 is connected and its hello is written, not yet handled. */
  ghost predicate AtHello(p: Pair, session: Option<B.Session>) {
    && 2 in p.b.clients && p.b.clients[2] == B.NEW_CONN && p.b.session == session && p.b.subs == {}
    && p.c.written == [Request(1, GREETING)] && p.c.read == [] && p.wire == [] && Deaf(p.c)
  }

  /** Greeted, both handlers registered, nothing lost, everything read; and the banner is not the pending session. */
  ghost predicate Misled(p: Pair) {
    && 2 in p.b.clients && Listening(p.c) && p.b.clients[2].greeted && Lossless(p.b.clients[2])
    && p.c.read == p.b.clients[2].log && p.c.accepting != Current(p.b)
  }

  lemma {:induction false} MissingHello() returns (ps: seq<Pair>)
    ensures Follow(ps, MISSING, 0) && |ps| == 6 && ps[0] == START && AtHello(ps[5], Some(PENDING))
  {
    hide B.Handle, C.Encode, C.Begin;
    var p1 := Next(START, 2, MISSING[0]);
    var p2 := Next(p1, 2, MISSING[1]);
    var p3 := Next(p2, 2, MISSING[2]);
    LateComer(p3.b);
    var p4 := Next(p3, 2, MISSING[3]);
    BegunOnce();
    var p5 := Next(p4, 2, MISSING[4]);
    HelloWritten();
    ps := [START, p1, p2, p3, p4, p5];
  }

  /** Both messages are on the wire, read of them was read, and no handler is registered. */
  ghost predicate Replayed(p: Pair, read: seq<Msg>) {
    var ms := [Welcome(1), B.ModeOf(PENDING)];
    && 2 in p.b.clients && p.b.clients[2].greeted && p.b.clients[2].log == ms && p.b.clients[2].sent == ms
    && p.b.session == Some(PENDING) && p.wire == ms && p.c.read == read && Deaf(p.c)
  }

  lemma {:induction false} MissingReplay(p: Pair) returns (ps: seq<Pair>)
    requires AtHello(p, Some(PENDING))
    ensures Follow(ps, MISSING, 5) && |ps| == 4 && ps[0] == p && Replayed(ps[3], [])
  {
    hide B.Handle, Deaf;
    var p6 := Next(p, 2, MISSING[5]);
    HelloAnswered(p.b);
    assert [Welcome(1)] + [B.ModeOf(PENDING)] == [Welcome(1), B.ModeOf(PENDING)];
    var p7 := Next(p6, 2, MISSING[6]);
    var p8 := Next(p7, 2, MISSING[7]);
    ps := [p, p6, p7, p8];
  }

  lemma {:induction false} MissingRead(p: Pair) returns (ps: seq<Pair>)
    requires Replayed(p, [])
    ensures Follow(ps, MISSING, 8) && |ps| == 3 && ps[0] == p && Replayed(ps[2], [Welcome(1), B.ModeOf(PENDING)])
  {
    hide C.Receive, Deaf;
    DeafReads(p.c);
    var p9 := Next(p, 2, MISSING[8]);
    Unheard(p.c, Welcome(1));
    DeafReads(p9.c);
    var p10 := Next(p9, 2, MISSING[9]);
    Unheard(p9.c, B.ModeOf(PENDING));
    ps := [p, p9, p10];
  }

  lemma {:induction false} DeafReads(c: C.State)
    requires Deaf(c)
    ensures !c.broken
  {
  }

  lemma {:induction false} HalfListens(c: C.State)
    requires Deaf(c)
    ensures C.Enabled(c, C.DoListenModes) && HalfDeaf(C.ListenModes(c)) && C.ListenModes(c).read == c.read
  {
  }

  lemma {:induction false} MissingListens(p: Pair) returns (ps: seq<Pair>)
    requires Replayed(p, [Welcome(1), B.ModeOf(PENDING)])
    ensures Follow(ps, MISSING, 10) && |ps| == 3 && ps[0] == p && Misled(ps[2]) && ps[2].c.accepting == None
  {
    var p11 := Next(p, 2, MISSING[10]);
    var p12 := Next(p11, 2, MISSING[11]);
    ps := [p, p11, p12];
  }

  /** The finding: this run ends with a caught-up window manager that shows no banner while a session is pending. */
  lemma {:induction false} LateListenerMissesSession() returns (pairs: seq<Pair>)
    ensures IsRun(pairs, 2, MISSING) && Misled(pairs[|MISSING|]) && pairs[|MISSING|].c.accepting == None
  {
    hide Enabled, Next, Misled, AtHello, Replayed;
    var a := MissingHello();
    var b := MissingReplay(a[5]);
    Joins(a, b, MISSING, 0);
    var c := MissingRead(b[3]);
    Joins(a + b[1..], c, MISSING, 0);
    var d := MissingListens(c[2]);
    Joins(a + b[1..] + c[1..], d, MISSING, 0);
    pairs := a + b[1..] + c[1..] + d[1..];
  }

  lemma {:induction false} StayingHello() returns (ps: seq<Pair>)
    ensures Follow(ps, STAYING, 0) && |ps| == 5 && ps[0] == START && AtHello(ps[4], None)
    ensures ps[4].b.clients.Keys == {1, 2} && ps[4].b.nextSess == 0
  {
    hide C.Encode, C.Begin;
    var p1 := Next(START, 2, STAYING[0]);
    var p2 := Next(p1, 2, STAYING[1]);
    TwoConnect();
    var p3 := Next(p2, 2, STAYING[2]);
    BegunOnce();
    var p4 := Next(p3, 2, STAYING[3]);
    HelloWritten();
    ps := [START, p1, p2, p3, p4];
  }

  /** Client 2 is greeted, has read its channel, and hears modes. */
  ghost predicate HalfReady(p: Pair, ms: seq<Msg>) {
    && p.b.clients.Keys == {1, 2} && p.b.subs == {}
    && p.b.clients[2] == B.Conn("wm", {"wm"}, ms, |ms|, true, [Request(1, GREETING)], ms)
    && p.wire == ms && p.c.read == ms && HalfDeaf(p.c)
  }

  lemma {:induction false} StayingGreeted(p: Pair) returns (ps: seq<Pair>)
    requires AtHello(p, None) && p.b.clients.Keys == {1, 2} && p.b.nextSess == 0
    ensures Follow(ps, STAYING, 4) && |ps| == 5 && ps[0] == p
    ensures HalfReady(ps[4], [Welcome(1)]) && ps[4].b.session == None && ps[4].b.nextSess == 0
  {
    hide Enabled, Next, AtHello, HalfReady, Welcomed;
    var a := StayingWelcomed(p);
    var b := StayingListens(a[2]);
    Joins(a, b, STAYING, 4);
    ps := a + b[1..];
  }

  /** The welcome is on the wire and nothing was read. */
  ghost predicate Welcomed(p: Pair) {
    var ms := [Welcome(1)];
    && p.b.clients.Keys == {1, 2} && p.b.subs == {} && p.b.session == None && p.b.nextSess == 0
    && p.b.clients[2] == B.Conn("wm", {"wm"}, ms, 1, true, [Request(1, GREETING)], ms)
    && p.wire == ms && p.c.read == [] && Deaf(p.c)
  }

  lemma {:induction false} StayingWelcomed(p: Pair) returns (ps: seq<Pair>)
    requires AtHello(p, None) && p.b.clients.Keys == {1, 2} && p.b.nextSess == 0
    ensures Follow(ps, STAYING, 4) && |ps| == 3 && ps[0] == p && Welcomed(ps[2])
  {
    hide B.Handle, Deaf;
    var p5 := Next(p, 2, STAYING[4]);
    HelloAnswered(p.b);
    var p6 := Next(p5, 2, STAYING[5]);
    assert [] + [Welcome(1)] == [Welcome(1)];
    ps := [p, p5, p6];
  }

  lemma {:induction false} StayingListens(p: Pair) returns (ps: seq<Pair>)
    requires Welcomed(p)
    ensures Follow(ps, STAYING, 6) && |ps| == 3 && ps[0] == p
    ensures HalfReady(ps[2], [Welcome(1)]) && ps[2].b.session == None && ps[2].b.nextSess == 0
  {
    hide C.Receive, C.ListenModes, Deaf, HalfDeaf;
    DeafReads(p.c);
    var p7 := Next(p, 2, STAYING[6]);
    Unheard(p.c, Welcome(1));
    HalfListens(p7.c);
    var p8 := Next(p7, 2, STAYING[7]);
    assert [] + [Welcome(1)] == [Welcome(1)];
    ps := [p, p7, p8];
  }

  /** One message for client 2, taken by its writer and read. */
  lemma {:induction false} Delivered(p: Pair, q: Pair, ms: seq<Msg>, m: Msg)
    requires HalfReady(p, ms) && |ms| < 10
    requires q == Pair(q.b, p.c, p.wire) && q.b.clients.Keys == {1, 2} && q.b.subs == {}
    requires q.b.clients[2] == B.Enqueue(p.b.clients[2], m)
    ensures Enabled(q, 2, OfBroker(B.WriterTakes(2)))
    ensures var r := Next(q, 2, OfBroker(B.WriterTakes(2)));
      && Enabled(r, 2, OfClient(C.DoReceive(m)))
      && var e := Next(r, 2, OfClient(C.DoReceive(m)));
      && HalfReady(e, ms + [m]) && e.b.session == q.b.session && e.b.nextSess == q.b.nextSess
      && e.c.accepting == if m.AcceptMode? then Some(Mode(m.session, m.ptypes, m.prompt)) else p.c.accepting
  {
    hide C.Receive;
    HalfHeard(p.c, m);
  }

  lemma {:induction false} StayingStarted(p: Pair) returns (ps: seq<Pair>)
    requires HalfReady(p, [Welcome(1)]) && p.b.session == None && p.b.nextSess == 0
    ensures Follow(ps, STAYING, 8) && |ps| == 4 && ps[0] == p
    ensures HalfReady(ps[3], [Welcome(1)] + [B.ModeOf(PENDING)]) && ps[3].b.session == Some(PENDING)
    ensures ps[3].c.accepting.Some?
  {
    hide B.Handle, B.Enqueue, C.Receive;
    var p9 := Next(p, 2, STAYING[8]);
    AcceptPending(p.b);
    Delivered(p, p9, [Welcome(1)], B.ModeOf(PENDING));
    var p10 := Next(p9, 2, STAYING[9]);
    var p11 := Next(p10, 2, STAYING[10]);
    ps := [p, p9, p10, p11];
  }

  lemma {:induction false} StayingCancelled(p: Pair) returns (ps: seq<Pair>)
    requires HalfReady(p, [Welcome(1)] + [B.ModeOf(PENDING)]) && p.b.session == Some(PENDING) && p.c.accepting.Some?
    ensures Follow(ps, STAYING, 11) && |ps| == 5 && ps[0] == p && Misled(ps[4])
    ensures ps[4].b.session == None && ps[4].c.accepting.Some?
  {
    hide B.Handle, B.Enqueue, C.Receive;
    var p12 := Next(p, 2, STAYING[11]);
    AcceptCancelled(p.b);
    CancelKeeps(p.b);
    Delivered(p, p12, [Welcome(1)] + [B.ModeOf(PENDING)], CLEARED);
    var p13 := Next(p12, 2, STAYING[12]);
    var p14 := Next(p13, 2, STAYING[13]);
    var p15 := Next(p14, 2, STAYING[14]);
    ps := [p, p12, p13, p14, p15];
  }

  lemma {:induction false} CancelKeeps(s: B.State)
    requires 1 in s.clients
    ensures var t := B.Handle(s, 1, Request(2, AcceptCancel("")), 0); t.clients.Keys == s.clients.Keys && t.subs == s.subs
  {
  }

  /** The other finding: this run ends with a caught-up window manager whose banner shows a session that is over. */
  lemma {:induction false} LateClearKeepsBanner() returns (pairs: seq<Pair>)
    ensures IsRun(pairs, 2, STAYING) && Misled(pairs[|STAYING|])
    ensures pairs[|STAYING|].b.session == None && pairs[|STAYING|].c.accepting.Some?
  {
    hide Enabled, Next, Misled, AtHello, HalfReady;
    var a := StayingHello();
    var b := StayingGreeted(a[4]);
    Joins(a, b, STAYING, 0);
    var c := StayingStarted(b[4]);
    var d := StayingCancelled(c[3]);
    var ab := a + b[1..];
    Joins(ab, c, STAYING, 0);
    Joins(ab + c[1..], d, STAYING, 0);
    pairs := ab + c[1..] + d[1..];
  }
}
