/**
 The bounded queue between the event pump and its drainer. A push appends under the lock and
 signals afterwards; the drainer waits for the signal, empties the queue, and then takes the drop
 count. Each of these is one atomic step, and the steps of any number of producers and the one
 drainer interleave freely.
 */
module EventQueue {
  datatype Queue<T> = Queue(items: seq<T>, max: nat, dropped: nat, token: bool)

  function Appended<T>(q: Queue<T>, item: T): Queue<T> {
    if |q.items| < q.max then q.(items := q.items + [item]) else q.(dropped := q.dropped + 1)
  }

  class BoundedQueue<T> {
    var items: seq<T>
    const max: nat
    var dropped: nat
    var wake: bool

    function Value(): Queue<T>
      reads this
    {
      Queue(items, max, dropped, wake)
    }

    constructor (limit: int)
      ensures Value() == Queue([], if limit <= 0 then 256 else limit, 0, false)
    {
      items, dropped, wake := [], 0, false;
      max := if limit <= 0 then 256 else limit;
    }

    /** The locked half of a push. */
    method Append(item: T) returns (ok: bool)
      modifies this
      ensures Value() == Appended(old(Value()), item) && ok == (|old(items)| < max)
    {
      ok := |items| < max;
      if ok {
        items := items + [item];
      } else {
        dropped := dropped + 1;
      }
    }

    /** The signalling half: the channel holds one token, a second is discarded. */
    method Signal()
      modifies this`wake
      ensures wake
    {
      wake := true;
    }

    /** Appends and signals, or drops the new item, counts it and does not signal; earlier items are never overwritten. */
    method Push(item: T) returns (ok: bool)
      modifies this
      ensures ok == (|old(items)| < max)
      ensures if ok then items == old(items) + [item] && dropped == old(dropped) && wake
              else items == old(items) && dropped == old(dropped) + 1 && wake == old(wake)
    {
      ok := Append(item);
      if ok { Signal(); }
    }

    method Drain() returns (batch: seq<T>)
      modifies this
      ensures batch == old(items) && Value() == old(Value()).(items := [])
    {
      batch := items;
      items := [];
    }

    method TakeDropped() returns (n: nat)
      modifies this
      ensures n == old(dropped) && Value() == old(Value()).(dropped := 0)
    {
      n := dropped;
      dropped := 0;
    }
  }

  // ----- producers and the drainer ------------------------------------------

  /** Waiting for the signal; woken; holding a batch before the drop count is taken; delivering it; gone. */
  datatype Drainer<T> = Waiting | Woken | Holding(batch: seq<T>) | Delivering(batch: seq<T>) | Stopped

  /**
   unsignalled holds the producers between append and signal. As history: what was accepted, in order,
   how many pushes were made and how many dropped, what was delivered, and how many drops were reported.
   */
  datatype State<T> = State(q: Queue<T>, unsignalled: set<nat>, drainer: Drainer<T>,
                            accepted: seq<T>, pushes: nat, lost: nat, delivered: seq<T>, reported: nat)

  datatype Step<T> =
    | DoAppend(producer: nat, item: T)
    | DoSignal(producer: nat)
    | Wake
    | Drain
    | TakeDropped
    | Deliver
    | Stop

  predicate Enabled<T>(s: State<T>, step: Step<T>) {
    match step
    case DoAppend(p, _) => p !in s.unsignalled
    case DoSignal(p) => p in s.unsignalled
    case Wake => s.drainer == Waiting && s.q.token
    case Drain => s.drainer == Woken
    case TakeDropped => s.drainer.Holding?
    case Deliver => s.drainer.Delivering?
    case Stop => s.drainer == Waiting
  }

  function Next<T>(s: State<T>, step: Step<T>): State<T>
    requires Enabled(s, step)
  {
    match step
    case DoAppend(p, item) =>
      var ok := |s.q.items| < s.q.max;
      s.(q := Appended(s.q, item), pushes := s.pushes + 1,
         unsignalled := if ok then s.unsignalled + {p} else s.unsignalled,
         accepted := if ok then s.accepted + [item] else s.accepted,
         lost := if ok then s.lost else s.lost + 1)
    case DoSignal(p) => s.(q := s.q.(token := true), unsignalled := s.unsignalled - {p})
    case Wake => s.(q := s.q.(token := false), drainer := Woken)
    case Drain => s.(q := s.q.(items := []), drainer := Holding(s.q.items))
    case TakeDropped =>
      s.(q := s.q.(dropped := 0), drainer := Delivering(s.drainer.batch), reported := s.reported + s.q.dropped)
    case Deliver => s.(drainer := Waiting, delivered := s.delivered + s.drainer.batch)
    case Stop => s.(drainer := Stopped)
  }

  function Start<T>(limit: int): State<T> {
    State(Queue([], if limit <= 0 then 256 else limit, 0, false), {}, Waiting, [], 0, 0, [], 0)
  }

  ghost predicate IsRun<T>(limit: int, states: seq<State<T>>, steps: seq<Step<T>>) {
    && |states| == |steps| + 1 && states[0] == Start(limit)
    && forall i | 0 <= i < |steps| :: Enabled(states[i], steps[i]) && states[i + 1] == Next(states[i], steps[i])
  }

  /** What the drainer has taken off the queue and not delivered yet. */
  function InHand<T>(s: State<T>): seq<T> {
    if s.drainer.Holding? || s.drainer.Delivering? then s.drainer.batch else []
  }

  /** Every accepted item is delivered, in hand or queued, in push order; every push is accepted or counted as a drop. */
  ghost predicate Conserved<T>(s: State<T>) {
    && s.accepted == s.delivered + InHand(s) + s.q.items
    && s.pushes == |s.accepted| + s.lost
    && s.lost == s.reported + s.q.dropped
    && |s.q.items| <= s.q.max && 0 < s.q.max
  }

  /** Something is on its way to make the drainer look at the queue again. */
  ghost predicate WakeupDue<T>(s: State<T>) { s.q.token || s.unsignalled != {} || s.drainer == Woken }

  /** Queued items have a wake-up due, and so do unreported drops unless the drainer is about to take the count. */
  ghost predicate NoneLost<T>(s: State<T>) {
    && (s.q.items != [] ==> WakeupDue(s))
    && (s.q.dropped > 0 ==> s.q.items != [] || s.drainer.Holding?)
  }

  /** Until something is pushed the drainer is not woken. */
  ghost predicate Undisturbed<T>(s: State<T>) {
    s.pushes == 0 ==> !s.q.token && s.unsignalled == {} && (s.drainer == Waiting || s.drainer == Stopped)
  }

  lemma {:induction false} NextConserves<T>(s: State<T>, step: Step<T>)
    requires Enabled(s, step) && Conserved(s)
    ensures Conserved(Next(s, step))
  {
    var t := Next(s, step);
    match step {
      case DoAppend(p, item) =>
        assert |s.q.items| < s.q.max ==>
          s.delivered + InHand(s) + (s.q.items + [item]) == (s.delivered + InHand(s) + s.q.items) + [item];
      case Drain =>
        assert s.delivered + InHand(s) + s.q.items == s.delivered + s.q.items + [];
      case Deliver =>
        assert t.delivered + InHand(t) == s.delivered + InHand(s);
      case _ =>
    }
  }

  lemma {:induction false} NextLosesNone<T>(s: State<T>, step: Step<T>)
    requires Enabled(s, step) && Conserved(s) && NoneLost(s)
    ensures NoneLost(Next(s, step))
  {
    hide Conserved;
    if step.DoAppend? {
      assert |s.q.items| < s.q.max ==> step.producer in Next(s, step).unsignalled;
      assert 0 < s.q.max by { RoomExists(s); }
    }
  }

  lemma {:induction false} RoomExists<T>(s: State<T>)
    requires Conserved(s)
    ensures 0 < s.q.max
  {
  }

  /**
   No lost wake-up, no lost drop count: in every interleaving, if anything is queued or any drop is
   unreported, a token is present, a producer is between append and signal, or the drainer is between
   waking and taking the drop count. Delivered, held and queued items are the accepted ones in push order,
   and pushes are accepted, reported as dropped, or still counted.
   */
  lemma {:induction false} NothingIsLost<T>(limit: int, states: seq<State<T>>, steps: seq<Step<T>>, i: nat)
    requires IsRun(limit, states, steps) && i < |states|
    ensures var s := states[i];
      && Conserved(s) && NoneLost(s) && Undisturbed(s) && s.q.max == (if limit <= 0 then 256 else limit)
      && (s.q.items != [] || s.q.dropped > 0 ==>
            s.q.token || s.unsignalled != {} || s.drainer == Woken || s.drainer.Holding?)
      && s.pushes == |s.delivered| + |InHand(s)| + |s.q.items| + s.reported + s.q.dropped
  {
    if i > 0 {
      NothingIsLost(limit, states, steps, i - 1);
      assert states[i] == Next(states[i - 1], steps[i - 1]);
      NextConserves(states[i - 1], steps[i - 1]);
      NextLosesNone(states[i - 1], steps[i - 1]);
    }
  }

  /** A push is dropped exactly if it finds the queue full, and never at the cost of an item already queued. */
  lemma {:induction false} DropsOnlyWhenFull<T>(limit: int, states: seq<State<T>>, steps: seq<Step<T>>, i: nat)
    requires IsRun(limit, states, steps) && i < |steps| && steps[i].DoAppend?
    ensures var s, t := states[i], states[i + 1];
      && (t.lost == s.lost + 1 <==> |s.q.items| == if limit <= 0 then 256 else limit)
      && t.q.items == s.q.items + (if t.lost == s.lost then [steps[i].item] else [])
  {
    NothingIsLost(limit, states, steps, i);
    assert states[i + 1] == Next(states[i], steps[i]);
    assert states[i].q.items + [] == states[i].q.items;
  }

  // ----- left alone, the drainer finishes -----------------------------------

  /** The drainer blocked on an absent token. */
  predicate Asleep<T>(s: State<T>) { s.drainer == Waiting && !s.q.token }

  /** The drainer's only step, when it has one. */
  function DrainerStep<T>(s: State<T>): Step<T>
    requires !Asleep(s) && s.drainer != Stopped
  {
    match s.drainer
    case Waiting => Wake
    case Woken => Drain
    case Holding(_) => TakeDropped
    case Delivering(_) => Deliver
  }

  function Alone<T>(s: State<T>, fuel: nat): State<T>
    decreases fuel
  {
    if fuel == 0 || Asleep(s) || s.drainer == Stopped then s else Alone(Next(s, DrainerStep(s)), fuel - 1)
  }

  /** Steps the drainer still needs: up to its next wait, and one more round if a token is there. */
  function Remaining<T>(s: State<T>): nat {
    (match s.drainer case Waiting => 0 case Woken => 3 case Holding(_) => 2 case Delivering(_) => 1 case Stopped => 0)
    + if s.q.token then 4 else 0
  }

  lemma {:induction false} AloneAdvances<T>(s: State<T>, fuel: nat)
    requires Conserved(s) && NoneLost(s) && s.drainer != Stopped && Remaining(s) <= fuel
    ensures var t := Alone(s, fuel);
      Asleep(t) && Conserved(t) && NoneLost(t) && t.unsignalled == s.unsignalled && t.accepted == s.accepted && t.lost == s.lost
    decreases fuel
  {
    hide Conserved, NoneLost;
    if !Asleep(s) {
      var t := Next(s, DrainerStep(s));
      NextConserves(s, DrainerStep(s));
      NextLosesNone(s, DrainerStep(s));
      AloneAdvances(t, fuel - 1);
    }
  }

  /**
   Whenever every producer has signalled and the drainer was not stopped, at most seven steps of the
   drainer alone deliver every accepted item, in push order, report every drop, and put it back to sleep.
   */
  lemma {:induction false} DrainerFinishes<T>(limit: int, states: seq<State<T>>, steps: seq<Step<T>>, i: nat)
    requires IsRun(limit, states, steps) && i < |states|
    requires states[i].unsignalled == {} && states[i].drainer != Stopped
    ensures var t := Alone(states[i], 7);
      && Asleep(t) && t.delivered == states[i].accepted && t.reported == states[i].lost
      && t.q.items == [] && t.q.dropped == 0
  {
    NothingIsLost(limit, states, steps, i);
    AloneAdvances(states[i], 7);
    var t := Alone(states[i], 7);
    assert t.q.items == [];
    assert t.delivered + [] + [] == t.delivered;
  }

  // ----- from anywhere everything arrives -----------------------------------

  /** after[k + 1] follows from after[k] by steps[k]; the steps are signals and the drainer's own. */
  ghost predicate Follows<T>(s: State<T>, after: seq<State<T>>, steps: seq<Step<T>>) {
    && |after| == |steps| + 1 && after[0] == s
    && (forall k | 0 <= k < |steps| :: Enabled(after[k], steps[k]) && after[k + 1] == Next(after[k], steps[k]))
    && (forall k | 0 <= k < |steps| :: !steps[k].DoAppend? && !steps[k].Stop?)
  }

  lemma {:induction false} FollowsFurther<T>(s: State<T>, step: Step<T>, after: seq<State<T>>, steps: seq<Step<T>>)
    requires Enabled(s, step) && !step.DoAppend? && !step.Stop? && Follows(Next(s, step), after, steps)
    ensures Follows(s, [s] + after, [step] + steps) && ([s] + after)[|steps| + 1] == after[|steps|]
  {
    hide Enabled, Next;
    var all, by' := [s] + after, [step] + steps;
    forall k | 0 <= k < |by'|
      ensures Enabled(all[k], by'[k]) && all[k + 1] == Next(all[k], by'[k]) && !by'[k].DoAppend? && !by'[k].Stop?
    {
      if k > 0 { assert all[k] == after[k - 1] && by'[k] == steps[k - 1]; }
    }
  }

  /** The drainer on its own, step by step. */
  lemma {:induction false} AloneFollows<T>(s: State<T>, fuel: nat) returns (after: seq<State<T>>, steps: seq<Step<T>>)
    ensures Follows(s, after, steps) && after[|steps|] == Alone(s, fuel) && |steps| <= fuel
    decreases fuel
  {
    after, steps := [s], [];
    if fuel > 0 && !Asleep(s) && s.drainer != Stopped {
      var step := DrainerStep(s);
      after, steps := AloneFollows(Next(s, step), fuel - 1);
      FollowsFurther(s, step, after, steps);
      after, steps := [s] + after, [step] + steps;
    }
  }

  lemma {:induction false} SignalsThenDrains<T>(s: State<T>) returns (after: seq<State<T>>, steps: seq<Step<T>>)
    requires Conserved(s) && NoneLost(s) && s.drainer != Stopped
    ensures Follows(s, after, steps) && |steps| <= |s.unsignalled| + 7
    ensures var t := after[|steps|];
      && Asleep(t) && t.unsignalled == {} && t.accepted == s.accepted && t.lost == s.lost
      && Conserved(t) && NoneLost(t)
    decreases |s.unsignalled|
  {
    hide Conserved, NoneLost;
    if s.unsignalled == {} {
      AloneAdvances(s, 7);
      after, steps := AloneFollows(s, 7);
    } else {
      var p :| p in s.unsignalled;
      var step: Step<T> := DoSignal(p);
      NextConserves(s, step);
      NextLosesNone(s, step);
      after, steps := SignalsThenDrains(Next(s, step));
      FollowsFurther(s, step, after, steps);
      after, steps := [s] + after, [step] + steps;
    }
  }

  /**
   From every reachable state, unless the drainer was stopped, everything accepted so far arrives: the producers under
   way signal, the drainer takes at most seven steps, and then all is delivered in push order, every drop is
   reported, the drainer sleeps, and anyone may push again.
   */
  lemma {:induction false} EverythingArrives<T>(limit: int, states: seq<State<T>>, steps: seq<Step<T>>, i: nat)
      returns (after: seq<State<T>>, more: seq<Step<T>>)
    requires IsRun(limit, states, steps) && i < |states| && states[i].drainer != Stopped
    ensures Follows(states[i], after, more) && |more| <= |states[i].unsignalled| + 7
    ensures var t := after[|more|];
      && Asleep(t) && t.delivered == states[i].accepted && t.reported == states[i].lost && t.q.items == []
      && forall p: nat, item: T :: Enabled(t, DoAppend(p, item))
  {
    NothingIsLost(limit, states, steps, i);
    after, more := SignalsThenDrains(states[i]);
    var t := after[|more|];
    assert t.q.items == [];
    assert t.delivered + [] + [] == t.delivered;
  }
}
