/** The life of one chat service as a run of events (service.go): handlers come and go, requests
    arrive, and each turn of the dispatch loop takes one message off the queue and starts every
    handler registered at that moment on it. */
module ServiceRuns {
  import opened Types
  import opened Keys
  import opened Delivery
  import opened DeliveryRuns

  datatype Call = Call(fid: string, msg: Message)

  datatype Service = Service(inbox: Inbox, handlers: set<string>, calls: multiset<Call>)

  const NEW := Service(FRESH, {}, multiset{})

  datatype Event =
    | Register(fid: string)
    | Unregister(fid: string)
    | Arrive(msg: Message, viaStop: bool)
    | Turn
    | Close

  ghost predicate Takes(s: Service, e: Event, s': Service) {
    match e
    case Register(fid) => fid !in s.handlers && s' == s.(handlers := s.handlers + {fid})
    case Unregister(fid) => s' == s.(handlers := s.handlers - {fid})
    case Arrive(m, viaStop) => CanReceive(s.inbox, viaStop) && s' == s.(inbox := Receive(s.inbox, m, viaStop))
    case Turn =>
      && s.inbox.queue != [] && s'.inbox == DispatchOne(s.inbox) && s'.handlers == s.handlers
      && (forall c :: s'.calls[c] ==
                      s.calls[c] + if c.msg == s.inbox.queue[0] && c.fid in s.handlers then 1 else 0)
    case Close => !s.inbox.stopped && s' == s.(inbox := s.inbox.(stopped := true))
  }

  ghost predicate IsLife(states: seq<Service>, events: seq<Event>) {
    && |states| == |events| + 1 && states[0] == NEW
    && (forall i :: 0 <= i < |events| ==> Takes(states[i], events[i], states[i + 1]))
  }

  // The messages that arrived by one of these branches of the handler's select, in order.
  function Arrivals(events: seq<Event>, viaStop: set<bool>): seq<Message> {
    if events == [] then [] else
      var n := |events| - 1;
      Arrivals(events[..n], viaStop) + ArrivalBy(events[n], viaStop)
  }

  function ArrivalBy(e: Event, viaStop: set<bool>): seq<Message> {
    if e.Arrive? && e.viaStop in viaStop then [e.msg] else []
  }

  function Queued(events: seq<Event>): seq<Message> {
    Arrivals(events, {false})
  }

  function TurnCount(events: seq<Event>): nat {
    if events == [] then 0 else
      var n := |events| - 1;
      TurnCount(events[..n]) + if events[n] == Turn then 1 else 0
  }

  // `fid` has been registered, and not unregistered since.
  ghost predicate On(events: seq<Event>, fid: string) {
    exists j :: 0 <= j < |events| && events[j] == Register(fid) && Unregister(fid) !in events[j + 1..]
  }

  // After the events of `before`, `e` is the turn of the message `c.msg`, and `c.fid` is registered.
  ghost predicate Owes(before: seq<Event>, e: Event, c: Call) {
    && e == Turn && On(before, c.fid)
    && TurnCount(before) < |Queued(before)| && Queued(before)[TurnCount(before)] == c.msg
  }

  ghost function OwingTurns(events: seq<Event>, c: Call): set<nat> {
    if events == [] then {} else
      var n := |events| - 1;
      OwingTurns(events[..n], c) + if Owes(events[..n], events[n], c) then {n} else {}
  }

  /** First in, first out, one message a turn, whether or not the node has been stopped: after `n`
      turns the first `n` queued messages have been dispatched and the others are waiting. */
  lemma {:induction false} FirstInFirstOut(states: seq<Service>, events: seq<Event>)
    requires IsLife(states, events)
    ensures InOrder(states[|events|].inbox, Queued(events), TurnCount(events))
    decreases |events|
  {
    if events != [] {
      var k := |events| - 1;
      Earlier(states, events, k);
      FirstInFirstOut(states[..k + 1], events[..k]);
      StepInOrder(states[k], events[k], states[k + 1], Queued(events[..k]), TurnCount(events[..k]));
      assert Queued(events) == Queued(events[..k]) + ArrivalBy(events[k], {false});
    }
  }

  ghost predicate InOrder(b: Inbox, queued: seq<Message>, n: nat) {
    n <= |queued| && b.dispatched == queued[..n] && b.queue == queued[n..]
  }

  lemma StepInOrder(s: Service, e: Event, s': Service, queued: seq<Message>, n: nat)
    requires Takes(s, e, s') && InOrder(s.inbox, queued, n)
    ensures InOrder(s'.inbox, queued + ArrivalBy(e, {false}), if e == Turn then n + 1 else n)
  {
    var queued' := queued + ArrivalBy(e, {false});
    assert queued'[n..] == queued[n..] + ArrivalBy(e, {false});
    assert queued'[..n] == queued[..n];
    if e == Turn {
      assert queued' == queued;
      assert queued[..n + 1] == queued[..n] + [queued[n]];
    }
  }

  lemma StepAcknowledges(s: Service, e: Event, s': Service)
    requires Takes(s, e, s')
    ensures s'.inbox.acked == s.inbox.acked + ArrivalBy(e, {false, true})
    ensures s'.inbox.dropped == s.inbox.dropped + ArrivalBy(e, {true})
  {
  }

  /** Every request is acknowledged, in the order of arrival, and those let go are the ones that came by
      the stop branch. */
  lemma {:induction false} AllAcknowledged(states: seq<Service>, events: seq<Event>)
    requires IsLife(states, events)
    ensures states[|events|].inbox.acked == Arrivals(events, {false, true})
    ensures states[|events|].inbox.dropped == Arrivals(events, {true})
    decreases |events|
  {
    if events != [] {
      var k := |events| - 1;
      Earlier(states, events, k);
      AllAcknowledged(states[..k + 1], events[..k]);
      StepAcknowledges(states[k], events[k], states[k + 1]);
    }
  }

  /** A service is stopped exactly when it has been closed, and once at most. */
  lemma {:induction false} StoppedIffClosed(states: seq<Service>, events: seq<Event>)
    requires IsLife(states, events)
    ensures states[|events|].inbox.stopped <==> Close in events
    ensures forall i, j :: 0 <= i < j < |events| ==> !(events[i] == Close && events[j] == Close)
    decreases |events|
  {
    if events != [] {
      var k := |events| - 1;
      Earlier(states, events, k);
      StoppedIffClosed(states[..k + 1], events[..k]);
      assert events == events[..k] + [events[k]];
    }
  }

  /** The registered handlers are those whose registration nothing has undone since. */
  lemma {:induction false} HandlersAreOn(states: seq<Service>, events: seq<Event>)
    requires IsLife(states, events)
    ensures forall fid :: fid in states[|events|].handlers <==> On(events, fid)
    decreases |events|
  {
    if events != [] {
      var k := |events| - 1;
      Earlier(states, events, k);
      HandlersAreOn(states[..k + 1], events[..k]);
      forall fid ensures fid in states[k + 1].handlers <==> On(events, fid) {
        OnSnoc(events, fid);
      }
    }
  }

  lemma OnSnoc(events: seq<Event>, fid: string)
    requires events != []
    ensures var init, last := events[..|events| - 1], events[|events| - 1];
            On(events, fid) <==> last == Register(fid) || (last != Unregister(fid) && On(init, fid))
  {
    var n, last := |events| - 1, events[|events| - 1];
    var init := events[..n];
    if last == Register(fid) {
      assert events[n + 1..] == [];
    }
    if On(events, fid) && last != Register(fid) {
      var j :| 0 <= j <= n && events[j] == Register(fid) && Unregister(fid) !in events[j + 1..];
      RestSnoc(events, j);
      assert init[j] == Register(fid);
    }
    if On(init, fid) && last != Unregister(fid) {
      var j :| 0 <= j < n && init[j] == Register(fid) && Unregister(fid) !in init[j + 1..];
      RestSnoc(events, j);
      assert events[j] == Register(fid);
    }
  }

  lemma RestSnoc(events: seq<Event>, j: nat)
    requires j + 1 < |events|
    ensures var n := |events| - 1; events[j + 1..] == events[..n][j + 1..] + [events[n]]
  {
  }

  /** A handler is started on a message exactly once for each turn that took this message while the
      handler was registered, and at no other time. */
  lemma {:induction false} CallsMatchTurns(states: seq<Service>, events: seq<Event>, c: Call)
    requires IsLife(states, events)
    ensures states[|events|].calls[c] == |OwingTurns(events, c)|
    decreases |events|
  {
    if events != [] {
      var k := |events| - 1;
      Earlier(states, events, k);
      CallsMatchTurns(states[..k + 1], events[..k], c);
      OwingIff(events[..k], c, k);
      LastTurn(states, events, c);
    }
  }

  /** The owing turns are those events that are the turn of `c.msg` while `c.fid` is registered. */
  lemma {:induction false} OwingIff(events: seq<Event>, c: Call, i: nat)
    ensures i in OwingTurns(events, c) <==> i < |events| && Owes(events[..i], events[i], c)
  {
    if events != [] {
      var k := |events| - 1;
      OwingIff(events[..k], c, i);
      if i < k {
        assert events[..k][..i] == events[..i];
      }
    }
  }

  lemma LastTurn(states: seq<Service>, events: seq<Event>, c: Call)
    requires IsLife(states, events) && events != []
    ensures var k := |events| - 1;
            states[k + 1].calls[c] == states[k].calls[c] + if Owes(events[..k], events[k], c) then 1 else 0
  {
    var k := |events| - 1;
    Earlier(states, events, k);
    if events[k] == Turn {
      FirstInFirstOut(states[..k + 1], events[..k]);
      HandlersAreOn(states[..k + 1], events[..k]);
    }
  }

  lemma Earlier(states: seq<Service>, events: seq<Event>, k: nat)
    requires IsLife(states, events) && k < |events|
    ensures IsLife(states[..k + 1], events[..k]) && Takes(states[k], events[k], states[k + 1])
  {
  }

  // ---------- the nodes of the delivery protocol ----------

  // What a step of the protocol is for one node's service.
  function EventBy(s: State, a: Action, peer: string): seq<Event> {
    match a
    case Direct(tid, ran, _, drop) =>
      if ran && tid in s.sends && Peerid(s.sends[tid].msg.envelope.to) == peer
      then [Arrive(s.sends[tid].msg, drop)] else []
    case Dispatch(p) => if p == peer then [Turn] else []
    case Stop(p) => if p == peer && !InboxOf(s, peer).stopped then [Close] else []
    case _ => []
  }

  function EventsOf(states: seq<State>, actions: seq<Action>, peer: string): seq<Event>
    requires |states| == |actions| + 1
  {
    if actions == [] then [] else
      var n := |actions| - 1;
      EventsOf(states[..n + 1], actions[..n], peer) + EventBy(states[n], actions[n], peer)
  }

  // The same life with one more event.
  lemma LiveOn(lives: seq<Service>, events: seq<Event>, e: Event, s: Service)
    requires IsLife(lives, events) && Takes(lives[|events|], e, s)
    ensures IsLife(lives + [s], events + [e])
  {
  }

  lemma StepIsEvent(s: State, a: Action, peer: string, before: Service)
    returns (after: Service)
    requires Enabled(s, a) && before.inbox == InboxOf(s, peer) && before.handlers == {}
    ensures after == before.(inbox := InboxOf(Apply(s, a), peer))
    ensures var es := EventBy(s, a, peer);
            |es| <= 1 && if es == [] then after == before else Takes(before, es[0], after)
  {
    after := before.(inbox := InboxOf(Apply(s, a), peer));
  }

  /** In every run of the protocol, whatever the others do, each node lives the life of one service. */
  lemma {:induction false} NodeLives(states: seq<State>, actions: seq<Action>, peer: string)
    returns (lives: seq<Service>)
    requires IsRun(states, actions)
    ensures IsLife(lives, EventsOf(states, actions, peer))
    ensures lives[|lives| - 1] == Service(InboxOf(Final(states), peer), {}, multiset{})
    decreases |actions|
  {
    if actions == [] {
      lives := [NEW];
    } else {
      var n := |actions| - 1;
      RunPrefix(states, actions);
      lives := NodeLives(states[..n + 1], actions[..n], peer);
      var after := StepIsEvent(states[n], actions[n], peer, lives[|lives| - 1]);
      var es := EventBy(states[n], actions[n], peer);
      if es != [] {
        LiveOn(lives, EventsOf(states[..n + 1], actions[..n], peer), es[0], after);
        lives := lives + [after];
        assert es == [es[0]];
      }
    }
  }

  /** So, stopped or not, what a node has dispatched are the first of the messages queued there, one for
      each turn of its loop, and its queue is the rest; and it has acknowledged every request. */
  lemma NodeDispatchesInOrder(states: seq<State>, actions: seq<Action>, peer: string)
    requires IsRun(states, actions)
    ensures var b, events := InboxOf(Final(states), peer), EventsOf(states, actions, peer);
            && InOrder(b, Queued(events), TurnCount(events))
            && b.acked == Arrivals(events, {false, true}) && b.dropped == Arrivals(events, {true})
            && (b.stopped <==> Close in events)
  {
    var lives := NodeLives(states, actions, peer);
    FirstInFirstOut(lives, EventsOf(states, actions, peer));
    AllAcknowledged(lives, EventsOf(states, actions, peer));
    StoppedIffClosed(lives, EventsOf(states, actions, peer));
  }
}
