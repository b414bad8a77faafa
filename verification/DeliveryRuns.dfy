/** Safety of delivery over whole runs, in any interleaving. */
module DeliveryRuns {
  import opened Types
  import opened Keys
  import opened Mailbox
  import opened Delivery

  function Final(states: seq<State>): State
    requires states != []
  {
    states[|states| - 1]
  }

  lemma RunPrefix(states: seq<State>, actions: seq<Action>)
    requires IsRun(states, actions) && actions != []
    ensures IsRun(states[..|states| - 1], actions[..|actions| - 1])
    ensures StepTo(states[|actions| - 1], actions[|actions| - 1], Final(states))
  {
  }

  lemma RunExtend(states: seq<State>, actions: seq<Action>, a: Action)
    requires IsRun(states, actions) && Enabled(Final(states), a)
    ensures IsRun(states + [Apply(Final(states), a)], actions + [a])
  {
  }

  // Some action of the run is of this kind.
  ghost predicate Has(actions: seq<Action>, kind: Action -> bool) {
    exists i :: 0 <= i < |actions| && kind(actions[i])
  }

  lemma HasSnoc(actions: seq<Action>, kind: Action -> bool)
    requires actions != []
    ensures Has(actions, kind) <==> Has(actions[..|actions| - 1], kind) || kind(actions[|actions| - 1])
  {
    var front := actions[..|actions| - 1];
    if Has(front, kind) {
      var i :| 0 <= i < |front| && kind(front[i]);
      assert kind(actions[i]);
    }
  }

  // No two actions of the run are of this kind.
  ghost predicate AtMostOnce(actions: seq<Action>, kind: Action -> bool) {
    forall i, j :: 0 <= i < j < |actions| ==> !(kind(actions[i]) && kind(actions[j]))
  }

  lemma AtMostOnceSnoc(actions: seq<Action>, kind: Action -> bool)
    requires actions != [] && AtMostOnce(actions[..|actions| - 1], kind)
    requires kind(actions[|actions| - 1]) ==> !Has(actions[..|actions| - 1], kind)
    ensures AtMostOnce(actions, kind)
  {
    var front := actions[..|actions| - 1];
    forall i, j | 0 <= i < j < |actions| ensures !(kind(actions[i]) && kind(actions[j])) {
      assert front[i] == actions[i];
      if j < |front| {
        assert front[j] == actions[j];
      }
    }
  }

  // ---------- the receive queue ----------

  /** Until a node stops, the messages it acknowledged are exactly those dispatched followed by
      those queued, in order and each once, with at most 128 waiting. */
  lemma QueueConservation(states: seq<State>, actions: seq<Action>, peer: string)
    requires IsRun(states, actions)
    ensures var b := InboxOf(Final(states), peer);
            && |b.queue| <= 128
            && (!b.stopped ==> b.acked == b.dispatched + b.queue && b.dropped == [])
            && multiset(b.acked) == multiset(b.dispatched) + multiset(b.queue) + multiset(b.dropped)
  {
    RunKeepsQueues(states, actions);
    assert InboxOk(InboxOf(Final(states), peer));
  }

  lemma {:induction false} RunKeepsQueues(states: seq<State>, actions: seq<Action>)
    requires IsRun(states, actions)
    ensures QueuesOk(Final(states))
  {
    if actions != [] {
      RunPrefix(states, actions);
      RunKeepsQueues(states[..|states| - 1], actions[..|actions| - 1]);
      StepKeepsQueues(states[|actions| - 1], actions[|actions| - 1]);
    }
  }

  // How many turns of the node's dispatch loop the run takes.
  function Turns(actions: seq<Action>, peer: string): nat {
    if actions == [] then 0
    else
      var a := actions[|actions| - 1];
      Turns(actions[..|actions| - 1], peer) + if a.Dispatch? && a.peer == peer then 1 else 0
  }

  lemma StepTurns(s: State, a: Action, peer: string)
    requires Enabled(s, a)
    ensures |InboxOf(Apply(s, a), peer).dispatched| ==
            |InboxOf(s, peer).dispatched| + if a.Dispatch? && a.peer == peer then 1 else 0
  {
  }

  lemma {:induction false} RunTurns(states: seq<State>, actions: seq<Action>, peer: string)
    requires IsRun(states, actions)
    ensures |InboxOf(Final(states), peer).dispatched| == Turns(actions, peer)
  {
    if actions != [] {
      RunPrefix(states, actions);
      RunTurns(states[..|states| - 1], actions[..|actions| - 1], peer);
      StepTurns(states[|actions| - 1], actions[|actions| - 1], peer);
    }
  }

  /** Each turn of the dispatch loop takes exactly one message: as many are dispatched as there were
      turns, and until the node stops they are the first that it acknowledged, in that order. */
  lemma OneMessagePerTurn(states: seq<State>, actions: seq<Action>, peer: string)
    requires IsRun(states, actions)
    ensures var b, n := InboxOf(Final(states), peer), Turns(actions, peer);
            |b.dispatched| == n && (!b.stopped ==> n <= |b.acked| && b.dispatched == b.acked[..n])
  {
    QueueConservation(states, actions, peer);
    RunTurns(states, actions, peer);
  }

  /** A request handler can queue exactly while fewer than 128 messages wait, stopped or not, and can let
      go without queueing exactly when the node is stopped; a request that did not run reports an error. */
  lemma DirectPossibleIff(s: State, tid: nat, reported: bool)
    requires tid in s.sends && s.sends[tid].Trying?
    ensures var b := InboxOf(s, Peerid(s.sends[tid].msg.envelope.to));
            && (Enabled(s, Direct(tid, true, reported, false)) <==> |b.queue| < 128)
            && (Enabled(s, Direct(tid, true, reported, true)) <==> b.stopped)
    ensures Enabled(s, Direct(tid, false, reported, false)) <==> !reported
  {
  }

  /** The dispatch loop can take a turn exactly when a message waits. */
  lemma DispatchPossibleIff(s: State, peer: string)
    ensures Enabled(s, Dispatch(peer)) <==> |InboxOf(s, peer).queue| > 0
  {
  }

  // ---------- draining a mailbox ----------

  ghost predicate SendsFrom(actions: seq<Action>, msgs: set<Message>) {
    forall i :: 0 <= i < |actions| && actions[i].StartSend? ==> actions[i].msg in msgs
  }

  ghost predicate NothingLost(s: State) {
    forall m :: m in s.accepted ==> Kept(s, m)
  }

  lemma {:induction false} RunKeepsDrain(states: seq<State>, actions: seq<Action>, msgs: set<Message>)
    requires IsRun(states, actions) && SendsFrom(actions, msgs) && Consistent(msgs)
    ensures DrainInv(Final(states), msgs)
  {
    if actions != [] {
      var n := |actions| - 1;
      RunPrefix(states, actions);
      RunKeepsDrain(states[..n + 1], actions[..n], msgs);
      StepKeepsDrain(states[n], actions[n], msgs);
    }
  }

  // The three steps by which a message reaches the mailbox only.
  lemma SendToMailbox(states: seq<State>, actions: seq<Action>, tid: nat, m: Message)
    returns (states': seq<State>, actions': seq<Action>)
    requires IsRun(states, actions) && tid !in Final(states).sends
    ensures IsRun(states', actions')
    ensures forall i :: 0 <= i < |actions'| && actions'[i].StartSend? ==>
              actions'[i].msg == m || (i < |actions| && actions'[i] == actions[i])
    ensures var s, s' := Final(states), Final(states');
            && s'.boxes == Stored(s, m).boxes && s'.accepted == s.accepted + {m} && s'.written == s.written
            && s'.sends == s.sends[tid := Returned(m, true, false, true)] && s'.inboxes == s.inboxes
  {
    RunExtend(states, actions, StartSend(tid, m));
    states', actions' := states + [Apply(Final(states), StartSend(tid, m))], actions + [StartSend(tid, m)];
    var a := Direct(tid, false, false, false);
    RunExtend(states', actions', a);
    states', actions' := states' + [Apply(Final(states'), a)], actions' + [a];
    var b := Fallback(tid, true, true);
    RunExtend(states', actions', b);
    states', actions' := states' + [Apply(Final(states'), b)], actions' + [b];
  }

  lemma ReusedIdLoses(m: Message, n: Message) returns (states: seq<State>, actions: seq<Action>)
    requires SameSlot(m, n) && m != n
    ensures IsRun(states, actions) && SendsFrom(actions, {m, n}) && !NothingLost(Final(states))
  {
    states, actions := [START], [];
    var states1, actions1 := SendToMailbox(states, actions, 0, m);
    var states2, actions2 := SendToMailbox(states1, actions1, 1, n);
    states, actions := states2, actions2;
    assert m in Final(states).accepted && !Kept(Final(states), m);
  }

  /** Draining loses no accepted message, in any interleaving of puts, snapshot queries, socket
      writes and deletions, exactly when an id names one message within each mailbox. */
  lemma DrainLosesNothingIff(msgs: set<Message>)
    ensures Consistent(msgs) <==>
            forall states, actions :: IsRun(states, actions) && SendsFrom(actions, msgs) ==>
              NothingLost(Final(states))
  {
    if Consistent(msgs) {
      forall states, actions | IsRun(states, actions) && SendsFrom(actions, msgs)
        ensures NothingLost(Final(states))
      {
        RunKeepsDrain(states, actions, msgs);
      }
    } else {
      var m, n :| m in msgs && n in msgs && SameSlot(m, n) && m != n;
      var states, actions := ReusedIdLoses(m, n);
      assert SendsFrom(actions, msgs);
    }
  }

  // ---------- a session writes its whole snapshot ----------

  lemma {:induction false} RunKeepsProgress(states: seq<State>, actions: seq<Action>, sid: nat)
    requires IsRun(states, actions) && sid in Final(states).sessions
    ensures Progress(Final(states).sessions[sid], Final(states).written)
  {
    if actions != [] {
      var n := |actions| - 1;
      RunPrefix(states, actions);
      if sid in states[n].sessions {
        RunKeepsProgress(states[..n + 1], actions[..n], sid);
      }
      StepKeepsProgress(states[n], actions[n], sid);
    }
  }

  lemma StepKeepsBag(s: State, a: Action, sid: nat)
    requires Enabled(s, a) && sid in s.sessions && !s.sessions[sid].phase.Opened?
    ensures sid in Apply(s, a).sessions && !Apply(s, a).sessions[sid].phase.Opened?
    ensures Apply(s, a).sessions[sid].bag == s.sessions[sid].bag
  {
  }

  // A session queries once: its bag never changes afterwards.
  lemma {:induction false} BagStays(states: seq<State>, actions: seq<Action>, i: nat, sid: nat)
    requires IsRun(states, actions) && i < |actions| && actions[i].Query? && actions[i].answered
    requires actions[i].sid == sid
    ensures sid in Final(states).sessions
    ensures Final(states).sessions[sid].bag == actions[i].bag && !Final(states).sessions[sid].phase.Opened?
  {
    var n := |actions| - 1;
    RunPrefix(states, actions);
    if i < n {
      BagStays(states[..n + 1], actions[..n], i, sid);
      StepKeepsBag(states[n], actions[n], sid);
    }
  }

  /** When a session has got through its drain, every message its query could see has been written
      to its socket, whatever other sessions and senders did meanwhile. */
  lemma DrainWritesSnapshot(states: seq<State>, actions: seq<Action>, i: nat, sid: nat, m: Message)
    requires IsRun(states, actions) && i < |actions| && actions[i].Query? && actions[i].answered
    requires actions[i].sid == sid && sid in states[i].sessions
    requires Visible(BoxOf(states[i], states[i].sessions[sid].box), m)
    requires sid in Final(states).sessions && Final(states).sessions[sid].phase.Live?
    ensures m in Final(states).written
  {
    BagStays(states, actions, i, sid);
    RunKeepsProgress(states, actions, sid);
    assert StepTo(states[i], actions[i], states[i + 1]);
    assert m in multiset(actions[i].bag);
    var e := Final(states).sessions[sid];
    var j :| 0 <= j < |e.bag| && e.bag[j] == m;
  }

  // ---------- end to end ----------

  // A send that returned nil was accepted by the mailbox or acknowledged by the recipient.
  ghost predicate ReturnsOk(s: State) {
    forall tid :: tid in s.sends && s.sends[tid].Returned? && s.sends[tid].ok ==>
      s.sends[tid].msg in s.accepted || s.sends[tid].msg in InboxOf(s, Peerid(s.sends[tid].msg.envelope.to)).acked
  }

  lemma AckedGrows(s: State, a: Action, peer: string, m: Message)
    requires Enabled(s, a) && m in InboxOf(s, peer).acked
    ensures m in InboxOf(Apply(s, a), peer).acked
  {
  }

  lemma StepKeepsReturns(s: State, a: Action)
    requires Enabled(s, a) && ReturnsOk(s)
    ensures ReturnsOk(Apply(s, a))
  {
    var s' := Apply(s, a);
    StepGrows(s, a);
    forall tid | tid in s'.sends && s'.sends[tid].Returned? && s'.sends[tid].ok
      ensures s'.sends[tid].msg in s'.accepted
              || s'.sends[tid].msg in InboxOf(s', Peerid(s'.sends[tid].msg.envelope.to)).acked
    {
      var m := s'.sends[tid].msg;
      var peer := Peerid(m.envelope.to);
      if tid in s.sends && s.sends[tid] == s'.sends[tid] {
        if m in InboxOf(s, peer).acked {
          AckedGrows(s, a, peer, m);
        }
      } else if a.Direct? {
        assert InboxOf(s', peer) == Receive(InboxOf(s, peer), m, a.drop);
      }
    }
  }

  lemma {:induction false} RunKeepsReturns(states: seq<State>, actions: seq<Action>)
    requires IsRun(states, actions)
    ensures ReturnsOk(Final(states))
  {
    if actions != [] {
      RunPrefix(states, actions);
      RunKeepsReturns(states[..|states| - 1], actions[..|actions| - 1]);
      StepKeepsReturns(states[|actions| - 1], actions[|actions| - 1]);
    }
  }

  /** In every run, a message whose send returned nil is queued or dispatched at its recipient,
      stored under the recipient's peer id, or written to a session; the one other possibility is
      that the recipient had been stopped and let the request go. */
  lemma NoSilentLoss(states: seq<State>, actions: seq<Action>, msgs: set<Message>, tid: nat)
    requires IsRun(states, actions) && SendsFrom(actions, msgs) && Consistent(msgs)
    requires tid in Final(states).sends && Final(states).sends[tid].Returned? && Final(states).sends[tid].ok
    ensures var s := Final(states);
            var m := s.sends[tid].msg;
            var b := InboxOf(s, Peerid(m.envelope.to));
            m in b.queue || m in b.dispatched || IsStored(s, m) || m in s.written
            || (b.stopped && m in b.dropped)
  {
    RunKeepsReturns(states, actions);
    RunKeepsDrain(states, actions, msgs);
    var s := Final(states);
    var m := s.sends[tid].msg;
    if m in s.accepted {
      assert Kept(s, m);
    } else {
      QueueConservation(states, actions, Peerid(m.envelope.to));
      AckedIsSomewhere(InboxOf(s, Peerid(m.envelope.to)), m);
    }
  }

  lemma AckedIsSomewhere(b: Inbox, m: Message)
    requires m in b.acked
    requires multiset(b.acked) == multiset(b.dispatched) + multiset(b.queue) + multiset(b.dropped)
    ensures m in b.dispatched || m in b.queue || m in b.dropped
  {
    assert m in multiset(b.acked);
    assert m in multiset(b.dispatched) || m in multiset(b.queue) || m in multiset(b.dropped);
  }

  /** The stopped case is real: a send can return nil and leave its message nowhere. */
  lemma StoppedNodeLoses(m: Message) returns (states: seq<State>, actions: seq<Action>)
    ensures IsRun(states, actions) && Final(states).sends == map[0 := Returned(m, true, true, false)]
    ensures var b := InboxOf(Final(states), Peerid(m.envelope.to));
            b.queue == [] && b.dispatched == [] && !Kept(Final(states), m)
  {
    var peer := Peerid(m.envelope.to);
    states, actions := [START], [];
    RunExtend(states, actions, StartSend(0, m));
    states, actions := states + [Apply(Final(states), StartSend(0, m))], actions + [StartSend(0, m)];
    RunExtend(states, actions, Stop(peer));
    states, actions := states + [Apply(Final(states), Stop(peer))], actions + [Stop(peer)];
    var a := Direct(0, true, true, true);
    RunExtend(states, actions, a);
    states, actions := states + [Apply(Final(states), a)], actions + [a];
  }

  /** Duplicates are possible: a request that ran but reported an error is sent again. */
  lemma DuplicatesPossible(m: Message) returns (states: seq<State>, actions: seq<Action>)
    ensures IsRun(states, actions) && Final(states).sends == map[0 := Returned(m, true, true, true)]
    ensures m in InboxOf(Final(states), Peerid(m.envelope.to)).queue && IsStored(Final(states), m)
  {
    states, actions := [START], [];
    RunExtend(states, actions, StartSend(0, m));
    states, actions := states + [Apply(Final(states), StartSend(0, m))], actions + [StartSend(0, m)];
    var a := Direct(0, true, false, false);
    RunExtend(states, actions, a);
    states, actions := states + [Apply(Final(states), a)], actions + [a];
    var b := Fallback(0, true, true);
    RunExtend(states, actions, b);
    states, actions := states + [Apply(Final(states), b)], actions + [b];
  }

  // ---------- where duplicates come from ----------

  predicate RanDirect(e: Send, m: Message) {
    e.msg == m && !e.Trying? && e.direct
  }

  predicate RanMailbox(e: Send, m: Message) {
    e.msg == m && e.Returned? && e.mailed
  }

  ghost predicate Acked(s: State, m: Message) {
    m in InboxOf(s, Peerid(m.envelope.to)).acked
  }

  // A message is acknowledged, or accepted, exactly when some send of it had that handler run.
  ghost predicate TracedBack(s: State) {
    && (forall m :: Acked(s, m) <==> exists tid :: tid in s.sends && RanDirect(s.sends[tid], m))
    && (forall m :: m in s.accepted <==> exists tid :: tid in s.sends && RanMailbox(s.sends[tid], m))
  }

  // What one step adds to what has been acknowledged and accepted.
  lemma StepAcks(s: State, a: Action, m: Message)
    requires Enabled(s, a)
    ensures Acked(Apply(s, a), m) <==> Acked(s, m) || (a.Direct? && a.ran && s.sends[a.tid].msg == m)
    ensures m in Apply(s, a).accepted <==> m in s.accepted || (a.Fallback? && a.ran && s.sends[a.tid].msg == m)
  {
  }

  // What one step adds to the sends that ran a handler.
  lemma StepRan(s: State, a: Action, m: Message, tid: nat)
    requires Enabled(s, a)
    ensures var s' := Apply(s, a);
            && ((tid in s'.sends && RanDirect(s'.sends[tid], m)) <==>
                (tid in s.sends && RanDirect(s.sends[tid], m))
                || (a.Direct? && a.ran && a.tid == tid && s.sends[tid].msg == m))
            && ((tid in s'.sends && RanMailbox(s'.sends[tid], m)) <==>
                (tid in s.sends && RanMailbox(s.sends[tid], m))
                || (a.Fallback? && a.ran && a.tid == tid && s.sends[tid].msg == m))
  {
  }

  lemma StepKeepsTrace(s: State, a: Action)
    requires Enabled(s, a) && TracedBack(s)
    ensures TracedBack(Apply(s, a))
  {
    var s' := Apply(s, a);
    forall m
      ensures Acked(s', m) <==> exists tid :: tid in s'.sends && RanDirect(s'.sends[tid], m)
      ensures m in s'.accepted <==> exists tid :: tid in s'.sends && RanMailbox(s'.sends[tid], m)
    {
      StepAcks(s, a, m);
      forall tid: nat { StepRan(s, a, m, tid); }
      if a.Direct? || a.Fallback? {
        StepRan(s, a, m, a.tid);
      }
    }
  }

  lemma {:induction false} RunKeepsTrace(states: seq<State>, actions: seq<Action>)
    requires IsRun(states, actions)
    ensures TracedBack(Final(states))
  {
    if actions != [] {
      RunPrefix(states, actions);
      RunKeepsTrace(states[..|states| - 1], actions[..|actions| - 1]);
      StepKeepsTrace(states[|actions| - 1], actions[|actions| - 1]);
    }
  }

  // The direct request of send `tid` ran its handler and yet reported an error.
  function RanButErred(tid: nat): Action -> bool {
    (a: Action) => a.Direct? && a.tid == tid && a.ran && !a.reported
  }

  // A send that fell back after its direct handler ran is one whose direct request ran and erred.
  lemma {:induction false} FellBackAfterRun(states: seq<State>, actions: seq<Action>, tid: nat)
    requires IsRun(states, actions)
    ensures var sends := Final(states).sends;
            && (tid in sends && sends[tid].FallingBack? ==> (sends[tid].direct <==> Has(actions, RanButErred(tid))))
            && (tid in sends && sends[tid].Returned? && sends[tid].mailed ==>
                  (sends[tid].direct <==> Has(actions, RanButErred(tid))))
            && (tid !in sends || sends[tid].Trying? ==> !Has(actions, RanButErred(tid)))
  {
    if actions != [] {
      var n := |actions| - 1;
      RunPrefix(states, actions);
      FellBackAfterRun(states[..n + 1], actions[..n], tid);
      HasSnoc(actions, RanButErred(tid));
      assert Final(states[..n + 1]) == states[n];
    }
  }

  /** A message sent once is both acknowledged and accepted exactly when its direct request ran while
      reporting an error and its mailbox request ran too. */
  lemma DuplicatedIff(states: seq<State>, actions: seq<Action>, tid: nat)
    requires IsRun(states, actions) && tid in Final(states).sends
    requires var sends := Final(states).sends;
             forall t :: t in sends && sends[t].msg == sends[tid].msg ==> t == tid
    ensures var s := Final(states);
            var m := s.sends[tid].msg;
            Acked(s, m) && m in s.accepted <==> RanMailbox(s.sends[tid], m) && Has(actions, RanButErred(tid))
  {
    RunKeepsTrace(states, actions);
    FellBackAfterRun(states, actions, tid);
    var s := Final(states);
    var m := s.sends[tid].msg;
    assert Acked(s, m) <==> RanDirect(s.sends[tid], m);
    assert m in s.accepted <==> RanMailbox(s.sends[tid], m);
  }
}
