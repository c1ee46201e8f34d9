/**
 When a message is lost: exactly when it finds the 128 slots of its client's channel full. So a client
 loses nothing as long as its writer keeps up.
 */
module Delivery {
  import opened Broker
  import opened BrokerRuns
  import opened Registry

  /** What the step from c to d sends finds room on the channel. */
  predicate Fits(c: Conn, d: Conn) { Waiting(c) + |d.sent| - |c.sent| <= 128 }

  /** A step takes a message off a channel only by its writer, and puts on it what it sends as far as there is room. */
  lemma {:induction false} StepFills(s: State, step: Step, id: nat)
    requires Enabled(s, step) && id <= s.nextClient && id in s.clients && id in Next(s, step).clients
    ensures var c, d := s.clients[id], Next(s, step).clients[id];
      && d.taken == c.taken + (if step == WriterTakes(id) then 1 else 0)
      && c.sent <= d.sent && d.log == c.log + Upto(d.sent[|c.sent|..], Room(c))
      && (step.WriterTakes? ==> d.sent == c.sent)
  {
    hide Handle, RemoveConn, Heard, UpsertAll, Without, Upto, Room;
    match step {
      case Connect => SameIsFilled(s.clients[id], s.clients[id]);
      case Receive(j, req, pick) =>
        HandleTalks(s, j, req, pick);
        SameChannelFilled(s.clients[id], Edited(s, j, req).clients[id], Next(s, step).clients[id]);
      case Disconnect(j) =>
        if j in s.clients {
          RemoveTalks(s, j);
        } else {
          UnknownLeaves(s, j);
          SameIsFilled(s.clients[id], s.clients[id]);
        }
      case WriterTakes(j) => SameIsFilled(s.clients[id], s.clients[id]);
    }
  }

  lemma {:induction false} SameChannelFilled(c: Conn, e: Conn, d: Conn)
    requires e.log == c.log && e.sent == c.sent && e.taken == c.taken && Filled(e, d)
    ensures Filled(c, d)
  {
  }

  /** All that the step sends is put on the channel, if it fits. */
  lemma {:induction false} StepDelivers(s: State, step: Step, id: nat)
    requires Enabled(s, step) && Sound(s) && id in s.clients && id in Next(s, step).clients
    ensures var c, d := s.clients[id], Next(s, step).clients[id];
      && c.sent <= d.sent && c.log <= d.log
      && (d.log == c.log + d.sent[|c.sent|..] <==> Fits(c, d))
      && (!Fits(c, d) ==> Waiting(d) == 128)
  {
    hide Next, Within;
    StepFills(s, step, id);
  }

  /** A client has lost nothing if and only if, at each step since it connected, what it was sent found room. */
  lemma {:induction false} LosslessIffRoom(states: seq<State>, steps: seq<Step>, i: nat, id: nat)
    requires IsRun(states, steps) && i < |states| && id in states[i].clients
    ensures Lossless(states[i].clients[id]) <==>
      forall k | 0 <= k < i && id in states[k].clients && id in states[k + 1].clients ::
        Fits(states[k].clients[id], states[k + 1].clients[id])
  {
    hide Next, Enabled, Fits, Good;
    if i == 0 {
      NoneAtStart();
    } else {
      assert Enabled(states[i - 1], steps[i - 1]) && states[i] == Next(states[i - 1], steps[i - 1]);
      if id in states[i - 1].clients {
        LosslessIffRoom(states, steps, i - 1, id);
        LossIsForGood(states, steps, i - 1, id);
      } else {
        JustCame(states, steps, i, id);
      }
    }
  }

  lemma {:induction false} NoneAtStart()
    ensures START.clients.Keys == {}
  {
  }

  lemma {:induction false} LossIsForGood(states: seq<State>, steps: seq<Step>, i: nat, id: nat)
    requires IsRun(states, steps) && i < |steps| && id in states[i].clients && id in states[i + 1].clients
    ensures var c, d := states[i].clients[id], states[i + 1].clients[id];
      Lossless(d) <==> Lossless(c) && Fits(c, d)
  {
    hide Next, Within;
    RunGood(states, steps, i);
    StepFills(states[i], steps[i], id);
  }

  lemma {:induction false} JustCame(states: seq<State>, steps: seq<Step>, i: nat, id: nat)
    requires IsRun(states, steps) && 0 < i < |states| && id in states[i].clients && id !in states[i - 1].clients
    ensures Lossless(states[i].clients[id])
    ensures forall k | 0 <= k < i :: id !in states[k].clients
  {
    hide Next, Enabled, Good;
    var s, step := states[i - 1], steps[i - 1];
    assert Enabled(s, step) && states[i] == Next(s, step);
    StaysMinted(states, steps, i, i, id);
    NextMints(s, step);
    if id <= s.nextClient { NextHears(s, step, id); }
    forall k | 0 <= k < i ensures id !in states[k].clients {
      if id in states[k].clients { StaysMinted(states, steps, k, i - 1, id); }
    }
  }

  /** A client whose channel is never full loses nothing: all that was sent to it is there, in order. */
  lemma {:induction false} KeepingUpIsLossless(states: seq<State>, steps: seq<Step>, i: nat, id: nat)
    requires IsRun(states, steps) && i < |states| && id in states[i].clients
    requires forall k | 0 <= k <= i && id in states[k].clients :: Waiting(states[k].clients[id]) < 128
    ensures states[i].clients[id].log == states[i].clients[id].sent
  {
    hide Next, Enabled, Fits, Good, Waiting;
    forall k | 0 <= k < i && id in states[k].clients && id in states[k + 1].clients
      ensures Fits(states[k].clients[id], states[k + 1].clients[id])
    {
      assert Enabled(states[k], steps[k]) && states[k + 1] == Next(states[k], steps[k]);
      SoundAt(states, steps, k);
      StepDelivers(states[k], steps[k], id);
    }
    LosslessIffRoom(states, steps, i, id);
    LosslessHasAll(states, steps, i, id);
  }

  lemma {:induction false} SoundAt(states: seq<State>, steps: seq<Step>, i: nat)
    requires IsRun(states, steps) && i < |states|
    ensures Sound(states[i])
  {
    RunGood(states, steps, i);
  }
}
