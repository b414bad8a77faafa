/** What a sender gets back: the result of `SendMsg` in terms of the requests it made. */
module DeliverySends {
  import opened Types
  import opened Keys
  import opened Mailbox
  import opened Delivery
  import opened DeliveryRuns

  function Started(tid: nat, m: Message): Action -> bool {
    (a: Action) => a.StartSend? && a.tid == tid && a.msg == m
  }

  function AskedDirect(tid: nat): Action -> bool {
    (a: Action) => a.Direct? && a.tid == tid
  }

  function DirectErred(tid: nat): Action -> bool {
    (a: Action) => a.Direct? && a.tid == tid && !a.reported
  }

  function AskedMailbox(tid: nat): Action -> bool {
    (a: Action) => a.Fallback? && a.tid == tid
  }

  // A request of this send came back without an error.
  function ReportedNil(tid: nat): Action -> bool {
    (a: Action) => (a.Direct? || a.Fallback?) && a.tid == tid && a.reported
  }

  ghost predicate NotAsked(actions: seq<Action>, tid: nat) {
    !Has(actions, AskedDirect(tid)) && !Has(actions, AskedMailbox(tid)) && !Has(actions, ReportedNil(tid))
  }

  // The send's state agrees with the requests made so far.
  ghost predicate Agrees(s: State, actions: seq<Action>, tid: nat) {
    if tid !in s.sends then NotAsked(actions, tid)
    else
      && Has(actions, Started(tid, s.sends[tid].msg))
      && match s.sends[tid]
         case Trying(_) => NotAsked(actions, tid)
         case FallingBack(_, _) =>
           && Has(actions, DirectErred(tid))
           && !Has(actions, AskedMailbox(tid)) && !Has(actions, ReportedNil(tid))
         case Returned(_, ok, _, _) =>
           && Has(actions, AskedDirect(tid))
           && (Has(actions, AskedMailbox(tid)) <==> Has(actions, DirectErred(tid)))
           && (ok <==> Has(actions, ReportedNil(tid)))
  }

  lemma KindsSnoc(actions: seq<Action>, tid: nat)
    requires actions != []
    ensures var front, a := actions[..|actions| - 1], actions[|actions| - 1];
            && (Has(actions, AskedDirect(tid)) <==> Has(front, AskedDirect(tid)) || AskedDirect(tid)(a))
            && (Has(actions, DirectErred(tid)) <==> Has(front, DirectErred(tid)) || DirectErred(tid)(a))
            && (Has(actions, AskedMailbox(tid)) <==> Has(front, AskedMailbox(tid)) || AskedMailbox(tid)(a))
            && (Has(actions, ReportedNil(tid)) <==> Has(front, ReportedNil(tid)) || ReportedNil(tid)(a))
  {
    HasSnoc(actions, AskedDirect(tid));
    HasSnoc(actions, DirectErred(tid));
    HasSnoc(actions, AskedMailbox(tid));
    HasSnoc(actions, ReportedNil(tid));
  }

  lemma ErredWasAsked(actions: seq<Action>, tid: nat)
    ensures Has(actions, DirectErred(tid)) ==> Has(actions, AskedDirect(tid))
  {
    if Has(actions, DirectErred(tid)) {
      var i :| 0 <= i < |actions| && DirectErred(tid)(actions[i]);
      assert AskedDirect(tid)(actions[i]);
    }
  }

  lemma {:induction false} SendAgrees(states: seq<State>, actions: seq<Action>, tid: nat)
    requires IsRun(states, actions)
    ensures Agrees(Final(states), actions, tid)
  {
    if actions != [] {
      var n := |actions| - 1;
      RunPrefix(states, actions);
      SendAgrees(states[..n + 1], actions[..n], tid);
      ErredWasAsked(actions[..n], tid);
      var s' := Final(states);
      KindsSnoc(actions, tid);
      if tid in s'.sends {
        HasSnoc(actions, Started(tid, s'.sends[tid].msg));
      }
    }
  }

  /** In every run, a send that has returned gave nil exactly when one of its requests reported nil; it
      asked the recipient, and asked the mailbox exactly when the recipient's request reported an error;
      and the message is the one the send was started with. */
  lemma SendReturnsNilIff(states: seq<State>, actions: seq<Action>, tid: nat)
    requires IsRun(states, actions) && tid in Final(states).sends && Final(states).sends[tid].Returned?
    ensures Final(states).sends[tid].ok <==>
            exists i :: 0 <= i < |actions| && (actions[i].Direct? || actions[i].Fallback?)
                        && actions[i].tid == tid && actions[i].reported
    ensures Has(actions, AskedDirect(tid))
    ensures Has(actions, AskedMailbox(tid)) <==> Has(actions, DirectErred(tid))
    ensures Has(actions, Started(tid, Final(states).sends[tid].msg))
  {
    SendAgrees(states, actions, tid);
    if Has(actions, ReportedNil(tid)) {
      var i :| 0 <= i < |actions| && ReportedNil(tid)(actions[i]);
    }
    if i :| 0 <= i < |actions| && (actions[i].Direct? || actions[i].Fallback?)
            && actions[i].tid == tid && actions[i].reported {
      assert ReportedNil(tid)(actions[i]);
    }
  }

  /** A send asks the recipient once at most, and the mailbox once at most: nothing is tried again. */
  lemma {:induction false} AsksOnce(states: seq<State>, actions: seq<Action>, tid: nat)
    requires IsRun(states, actions)
    ensures AtMostOnce(actions, AskedDirect(tid)) && AtMostOnce(actions, AskedMailbox(tid))
  {
    if actions != [] {
      var n := |actions| - 1;
      RunPrefix(states, actions);
      AsksOnce(states[..n + 1], actions[..n], tid);
      SendAgrees(states[..n + 1], actions[..n], tid);
      AtMostOnceSnoc(actions, AskedDirect(tid));
      AtMostOnceSnoc(actions, AskedMailbox(tid));
    }
  }

  /** The mailbox request stores under the recipient's mailbox id and peer id, and nowhere else. */
  lemma FallbackStoresAt(s: State, tid: nat, reported: bool)
    requires tid in s.sends && s.sends[tid].FallingBack?
    ensures Enabled(s, Fallback(tid, true, reported))
    ensures var m, s' := s.sends[tid].msg, Apply(s, Fallback(tid, true, reported));
            forall k :: BoxOf(s', k) ==
              if k == BoxKey(Mailid(m.envelope.to), Peerid(m.envelope.to))
              then BoxOf(s, k)[m.envelope.id := m] else BoxOf(s, k)
  {
  }

  /** From any state of any run a new send can fail: it then returns an error, and has changed nothing
      but its own state. */
  lemma FailedSendLeavesNoTrace(states: seq<State>, actions: seq<Action>, tid: nat, m: Message)
    returns (states': seq<State>, actions': seq<Action>)
    requires IsRun(states, actions) && tid !in Final(states).sends
    ensures IsRun(states', actions')
    ensures var s := Final(states); Final(states') == s.(sends := s.sends[tid := Returned(m, false, false, false)])
  {
    var a, b, c := StartSend(tid, m), Direct(tid, false, false, false), Fallback(tid, false, false);
    RunExtend(states, actions, a);
    states', actions' := states + [Apply(Final(states), a)], actions + [a];
    RunExtend(states', actions', b);
    states', actions' := states' + [Apply(Final(states'), b)], actions' + [b];
    RunExtend(states', actions', c);
    states', actions' := states' + [Apply(Final(states'), c)], actions' + [c];
    var sends: map<nat, Send> := Final(states).sends;
    assert sends[tid := Trying(m)][tid := FallingBack(m, false)][tid := Returned(m, false, false, false)]
        == sends[tid := Returned(m, false, false, false)];
  }
}
