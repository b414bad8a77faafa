/** Careful additions are exactly what keeps chain and log in agreement: not only at once, but under
    every later removal. */
module GroupReplayExact {
  import opened Types
  import opened Links
  import opened GroupModel
  import opened Roster
  import opened GroupRuns
  import opened GroupWalks
  import opened GroupLog
  import opened GroupReplay

  // ---------- one addition and one removal ----------

  // FROM the head is `ids`, and stays the same list without `ids[i]` when that member is removed.
  ghost predicate StaysRight(s: GroupState, ids: seq<JID>) {
    && ids != []
    && Trail(NextLinks(s.members), ids[0], ids)
    && (forall i :: 0 < i < |ids| && CanSub(s, ids[i]) ==>
          Trail(NextLinks(Sub(s, ids[i]).members), ids[0], Without(ids, i)))
  }

  lemma ReflectsStaysRight(s: GroupState, r: Roster)
    requires Reflects(s, r) && r.ids != []
    ensures StaysRight(s, r.ids)
  {
    ForwardWalk(s.members, r.ids, 0);
    assert r.ids[0..] == r.ids;
    forall i | 0 < i < |r.ids| && CanSub(s, r.ids[i])
      ensures Trail(NextLinks(Sub(s, r.ids[i]).members), r.ids[0], Without(r.ids, i))
    {
      CanSubMatches(s, r, r.ids[i]);
      SubForward(s, r, i);
      ForwardWalk(Sub(s, r.ids[i]).members, Without(r.ids, i), 0);
      assert Without(r.ids, i)[0..] == Without(r.ids, i);
    }
  }

  // The position of a member whose `Prve`, once the cached tail is written back, names `x`.
  lemma NamedAt(s: GroupState, r: Roster, x: JID) returns (i: int)
    requires Reflects(s, r) && r.ids != [] && x != "" && x !in s.members && !CarefulAdd(s, x)
    ensures 0 < i < |r.ids|
    ensures (if i == |r.ids| - 1 then s.last.value else s.members[r.ids[i]]).prve == x
  {
    if s.last.value.prve == x {
      i := |r.ids| - 1;
      RecordAt(s, r, i);
    } else {
      var y :| y in s.members && s.members[y].prve == x;
      i := IndexOf(r.ids, y);
      RecordAt(s, r, i);
      assert i > 0 ==> r.ids[i - 1] in s.members;
    }
  }

  // The records that the removal of a member reads once the id it dangles on is back.
  lemma NamedRecords(s: GroupState, r: Roster, m: Member, i: int)
    requires Reflects(s, r) && m.id != "" && m.id !in s.members && 0 < i < |r.ids|
    requires (if i == |r.ids| - 1 then s.last.value else s.members[r.ids[i]]).prve == m.id
    ensures var after, y := Add(s, m).members, r.ids[i];
            && r.ids[i - 1] in after && after[r.ids[i - 1]].next == y
            && y in after && after[y].prve == m.id && after[y].id == y
            && after[y].next == (if i == |r.ids| - 1 then m.id else r.ids[i + 1])
            && m.id in after && after[m.id].id == m.id
            && (i < |r.ids| - 1 ==> r.ids[i + 1] in after && after[r.ids[i + 1]].id == r.ids[i + 1])
    ensures CanSub(Add(s, m), r.ids[i])
  {
    RecordAt(s, r, i - 1);
    RecordAt(s, r, i);
    if i < |r.ids| - 1 {
      RecordAt(s, r, i + 1);
    }
    RecordAt(s, r, |r.ids| - 1);
  }

  // Removing such a member relinks the wrong record: its true predecessor still points to it.
  lemma NamedSubLoses(s: GroupState, r: Roster, m: Member, i: int)
    requires Reflects(s, r) && m.id != "" && m.id !in s.members && 0 < i < |r.ids|
    requires (if i == |r.ids| - 1 then s.last.value else s.members[r.ids[i]]).prve == m.id
    ensures CanSub(Add(s, m), r.ids[i])
    ensures !Trail(NextLinks(Sub(Add(s, m), r.ids[i]).members), r.ids[0], Without(r.ids + [m.id], i))
  {
    NamedRecords(s, r, m, i);
    var ids := r.ids + [m.id];
    var links := NextLinks(Sub(Add(s, m), r.ids[i]).members);
    assert links[r.ids[i - 1]] == r.ids[i];
    WithoutIndex(ids, i, i - 1);
    WithoutIndex(ids, i, i);
    assert Without(ids, i)[i] != r.ids[i];
  }

  /** From a well-formed state, an addition is careful if and only if FROM the creator is right after
      it and stays right after any one later removal. */
  lemma CarefulIffStaysRight(s: GroupState, r: Roster, m: Member)
    requires Reflects(s, r) && r.ids != []
    ensures CarefulAdd(s, m.id) <==> StaysRight(Add(s, m), r.ids + [m.id])
  {
    AddExtendsWalkIff(s, r, m);
    if CarefulAdd(s, m.id) {
      AddReflects(s, r, m);
      ReflectsStaysRight(Add(s, m), Append(r, m.id));
    } else if m.id != "" && m.id !in s.members {
      var i := NamedAt(s, r, m.id);
      NamedSubLoses(s, r, m, i);
      assert (r.ids + [m.id])[i] == r.ids[i];
    }
  }

  // ---------- whole runs ----------

  // Replaying the successful actions gives exactly what FROM the first of them returns.
  ghost predicate ReplayHolds(ops: seq<Op>) {
    var ids := Replay(Logged(ops));
    ids == [] || Trail(NextLinks(Run(ops).members), ids[0], ids)
  }

  ghost predicate OnlySubs(ops: seq<Op>) {
    forall i :: 0 <= i < |ops| ==> ops[i].Handle? && ops[i].action == SUB
  }

  // At every moment of the run the replay law holds, and goes on holding whatever is removed next.
  ghost predicate ReplayHoldsThroughout(ops: seq<Op>) {
    forall k, subs :: 0 <= k <= |ops| && OnlySubs(subs) ==> ReplayHolds(ops[..k] + subs)
  }

  lemma CarefulReplayHolds(ops: seq<Op>)
    requires CarefulRun(ops)
    ensures ReplayHolds(ops)
  {
    ReplayIsRoster(ops);
    RunReflects(ops);
    var ids := RosterRun(ops).ids;
    if ids != [] {
      ForwardWalk(Run(ops).members, ids, 0);
      assert ids[0..] == ids;
    }
  }

  // Removals alone cannot make a careful run careless.
  lemma {:induction false} CarefulThenSubs(ops: seq<Op>, subs: seq<Op>)
    requires CarefulRun(ops) && OnlySubs(subs)
    ensures CarefulRun(ops + subs)
    decreases |subs|
  {
    if subs == [] {
      assert ops + subs == ops;
    } else {
      var n := |subs| - 1;
      CarefulThenSubs(ops, subs[..n]);
      assert (ops + subs)[..|ops + subs| - 1] == ops + subs[..n];
      CarefulSnoc(ops + subs);
    }
  }

  lemma SnocStates(ops: seq<Op>, op: Op)
    ensures Run(ops + [op]) == Step(Run(ops), op)
    ensures Logged(ops + [op]) == LogAfter(Logged(ops), Run(ops), op)
  {
    assert (ops + [op])[..|ops|] == ops;
  }

  lemma ReplaySnoc(log: seq<Entry>, e: Entry)
    ensures Replay(log + [e]) == ReplayEntry(Replay(log), e)
  {
    assert (log + [e])[..|log|] == log;
  }

  lemma AddReplays(ops: seq<Op>, add: Op)
    requires CarefulRun(ops) && Adds(Run(ops), add)
    ensures Replay(Logged(ops + [add])) == RosterRun(ops).ids + [SubjectOf(add)]
    ensures Run(ops + [add]).members == Add(Run(ops), AddedMember(add)).members
    ensures Run(ops + [add]).last == Add(Run(ops), AddedMember(add)).last
  {
    ReplayIsRoster(ops);
    SnocStates(ops, add);
    ReplaySnoc(Logged(ops), EntryOf(Run(ops), add));
    StepOnChain(Run(ops), add);
  }

  // The removal that exposes an addition of an id still named by a link.
  function SubOf(id: JID): Op {
    Handle(Member(id, "", ""), SUB, "")
  }

  lemma SubReplays(ops: seq<Op>, i: int)
    requires var ids := Replay(Logged(ops)); 0 <= i < |ids| && NoRepeats(ids) && CanSub(Run(ops), ids[i])
    ensures var ids := Replay(Logged(ops));
            && Replay(Logged(ops + [SubOf(ids[i])])) == Without(ids, i)
            && Run(ops + [SubOf(ids[i])]).members == Sub(Run(ops), ids[i]).members
  {
    var ids := Replay(Logged(ops));
    var op := SubOf(ids[i]);
    SnocStates(ops, op);
    ReplaySnoc(Logged(ops), EntryOf(Run(ops), op));
    assert IndexOf(ids, ids[i]) == i;
    StepOnChain(Run(ops), op);
  }

  lemma SubFrame(s: GroupState, t: GroupState, id: JID)
    requires s.members == t.members && s.last == t.last
    ensures CanSub(s, id) <==> CanSub(t, id)
    ensures CanSub(s, id) ==> Sub(s, id).members == Sub(t, id).members
  {
  }

  lemma BadAddNeverWalks(s: GroupState, r: Roster, m: Member)
    requires Reflects(s, r) && (m.id == "" || m.id in s.members)
    ensures !Trail(NextLinks(Add(s, m).members), (r.ids + [m.id])[0], r.ids + [m.id])
  {
    if r.ids == [] {
      assert r.ids + [m.id] == [""];
      assert Add(s, m).members[""].next == "";
    } else {
      AddExtendsWalkIff(s, r, m);
      assert (r.ids + [m.id])[0] == r.ids[0];
    }
  }

  // Adding an empty or a present id breaks the law at once.
  lemma BadAddBreaksReplay(ops: seq<Op>, add: Op)
    requires CarefulRun(ops) && Adds(Run(ops), add)
    requires SubjectOf(add) == "" || SubjectOf(add) in Run(ops).members
    ensures !ReplayHolds(ops + [add])
  {
    RunReflects(ops);
    AddReplays(ops, add);
    BadAddNeverWalks(Run(ops), RosterRun(ops), AddedMember(add));
  }

  // An addition that is not careful breaks the law, at once or with one removal.
  lemma CarelessBreaksReplay(ops: seq<Op>, add: Op) returns (subs: seq<Op>)
    requires CarefulRun(ops) && !CarefulOp(Run(ops), add)
    ensures OnlySubs(subs) && !ReplayHolds(ops + [add] + subs)
  {
    var s, r, m := Run(ops), RosterRun(ops), AddedMember(add);
    if m.id == "" || m.id in s.members {
      subs := [];
      assert ops + [add] + subs == ops + [add];
      BadAddBreaksReplay(ops, add);
    } else {
      RunReflects(ops);
      var i := NamedAt(s, r, m.id);
      NamedSubLoses(s, r, m, i);
      subs := [SubOf(r.ids[i])];
      SubBreaksReplay(ops, add, i);
    }
  }

  lemma SubBreaksReplay(ops: seq<Op>, add: Op, i: int)
    requires CarefulRun(ops) && Adds(Run(ops), add)
    requires var s, r, m := Run(ops), RosterRun(ops), AddedMember(add);
             && Reflects(s, r) && m.id !in r.ids && 0 < i < |r.ids|
             && CanSub(Add(s, m), r.ids[i])
             && !Trail(NextLinks(Sub(Add(s, m), r.ids[i]).members), r.ids[0], Without(r.ids + [m.id], i))
    ensures !ReplayHolds(ops + [add] + [SubOf(RosterRun(ops).ids[i])])
  {
    var s, r, m := Run(ops), RosterRun(ops), AddedMember(add);
    var ids := r.ids + [m.id];
    AddReplays(ops, add);
    SubFrame(Add(s, m), Run(ops + [add]), r.ids[i]);
    assert ids[i] == r.ids[i] && NoRepeats(ids);
    SubReplays(ops + [add], i);
    assert Without(ids, i)[0] == r.ids[0];
  }

  /** After a careful run, the next addition is careful if and only if every later sequence of removals
      leaves the replay of the log equal to FROM the creator. */
  lemma CarefulIffReplayHolds(ops: seq<Op>, add: Op)
    requires CarefulRun(ops)
    ensures CarefulOp(Run(ops), add) <==>
            forall subs :: OnlySubs(subs) ==> ReplayHolds(ops + [add] + subs)
  {
    if CarefulOp(Run(ops), add) {
      assert (ops + [add])[..|ops|] == ops;
      CarefulSnoc(ops + [add]);
      forall subs | OnlySubs(subs) ensures ReplayHolds(ops + [add] + subs) {
        CarefulThenSubs(ops + [add], subs);
        CarefulReplayHolds(ops + [add] + subs);
      }
    } else {
      var subs := CarelessBreaksReplay(ops, add);
    }
  }

  /** A run is careful if and only if, at every moment of it, log and chain agree and go on agreeing
      whatever is removed next. */
  lemma {:induction false} CarefulRunIffReplayHolds(ops: seq<Op>)
    ensures CarefulRun(ops) <==> ReplayHoldsThroughout(ops)
  {
    if CarefulRun(ops) {
      forall k, subs | 0 <= k <= |ops| && OnlySubs(subs) ensures ReplayHolds(ops[..k] + subs) {
        CarefulPrefix(ops, k);
        CarefulThenSubs(ops[..k], subs);
        CarefulReplayHolds(ops[..k] + subs);
      }
    }
    if ReplayHoldsThroughout(ops) && ops != [] {
      var n := |ops| - 1;
      ThroughoutPrefix(ops);
      CarefulRunIffReplayHolds(ops[..n]);
      assert ops[..n] + [ops[n]] == ops[..n + 1];
      forall subs | OnlySubs(subs) ensures ReplayHolds(ops[..n] + [ops[n]] + subs) {
        assert ReplayHolds(ops[..n + 1] + subs);
      }
      CarefulIffReplayHolds(ops[..n], ops[n]);
      CarefulSnoc(ops);
    }
  }

  lemma ThroughoutPrefix(ops: seq<Op>)
    requires ops != [] && ReplayHoldsThroughout(ops)
    ensures ReplayHoldsThroughout(ops[..|ops| - 1])
  {
    var front := ops[..|ops| - 1];
    forall k, subs | 0 <= k <= |front| && OnlySubs(subs) ensures ReplayHolds(front[..k] + subs) {
      assert front[..k] == ops[..k];
      assert ReplayHolds(ops[..k] + subs);
    }
  }
}
