/** Runs outside the careful ones, with what goes wrong in each. In all of them every ADD is of a
    non-empty id that the group does not hold at that moment. */
module GroupExamples {
  import opened Types
  import opened Links
  import opened GroupModel
  import opened Roster
  import opened GroupRuns
  import opened GroupWalks
  import opened GroupLog
  import opened GroupReplay
  import opened GroupReplayExact

  ghost predicate Distinct(g: Group, p: Member, t: Member) {
    && g.owner.id != "" && p.id != "" && t.id != ""
    && g.owner.id != p.id && g.owner.id != t.id && p.id != t.id
  }

  lemma AddToWhole(ops: seq<Op>, ids: seq<JID>, m: Member, logId: string)
    requires CarefulRun(ops) && RosterRun(ops) == Roster(ids, {}, false) && m.id != "" && m.id !in ids
    ensures CarefulRun(ops + [Handle(m, ADD, logId)])
    ensures RosterRun(ops + [Handle(m, ADD, logId)]) == Roster(ids + [m.id], {}, false)
  {
    RunReflects(ops);
    WholeLinks(Run(ops), Roster(ids, {}, false), m.id);
    assert (ops + [Handle(m, ADD, logId)])[..|ops|] == ops;
    CarefulSnoc(ops + [Handle(m, ADD, logId)]);
  }

  lemma FirstSave(g: Group)
    requires g.owner.id != ""
    ensures CarefulRun([Save(g, "u1")]) && RosterRun([Save(g, "u1")]) == Roster([g.owner.id], {}, false)
  {
    assert [Save(g, "u1")][..0] == [];
    assert RosterRun([]) == EMPTY && Run([]) == NEW_GROUP;
    assert [] + [g.owner.id] == [g.owner.id];
  }

  function TwoAdds(g: Group, p: Member, t: Member): seq<Op> {
    [Save(g, "u1")] + [Handle(p, ADD, "u2")] + [Handle(t, ADD, "u3")]
  }

  lemma AfterTwoAdds(g: Group, p: Member, t: Member)
    requires Distinct(g, p, t)
    ensures CarefulRun(TwoAdds(g, p, t))
    ensures RosterRun(TwoAdds(g, p, t)) == Roster([g.owner.id, p.id, t.id], {}, false)
  {
    var c := g.owner.id;
    FirstSave(g);
    AddToWhole([Save(g, "u1")], [c], p, "u2");
    assert [c] + [p.id] == [c, p.id];
    AddToWhole([Save(g, "u1")] + [Handle(p, ADD, "u2")], [c, p.id], t, "u3");
    assert [c, p.id] + [t.id] == [c, p.id, t.id];
  }

  // Create, add `p` and `t`, remove `p`: the cached tail is `t`, still naming `p` before it.
  function StaleOps(g: Group, p: Member, t: Member): seq<Op> {
    TwoAdds(g, p, t) + [Handle(p, SUB, "u4")]
  }

  // The state those calls lead to: `c` before `t`, and the cached copy of `t` behind the times.
  ghost predicate StaleTail(s: GroupState, c: JID, p: JID, t: JID) {
    && s.members.Keys == {c, t} && s.members[c].id == c && s.members[c].next == t && s.members[t].id == t
    && s.last.Some? && s.last.value.id == t && s.last.value.prve == p
  }

  lemma SubLeavesStaleTail(s: GroupState, c: JID, p: JID, t: JID)
    requires Reflects(s, Roster([c, p, t], {}, false))
    ensures CanSub(s, p) && StaleTail(Sub(s, p), c, p, t)
  {
    var r := Roster([c, p, t], {}, false);
    assert Tail([c, p, t]) == t && Pred([c, p, t], 2) == p && Succ([c, p, t], 1) == t;
    RecordAt(s, r, 0);
    RecordAt(s, r, 2);
    SubRecords(s, r, 1);
  }

  lemma AfterStaleOps(g: Group, p: Member, t: Member)
    requires Distinct(g, p, t)
    ensures CarefulRun(StaleOps(g, p, t)) && RosterRun(StaleOps(g, p, t)).ids == [g.owner.id, t.id]
    ensures StaleTail(Run(StaleOps(g, p, t)), g.owner.id, p.id, t.id)
  {
    var before, ops, c := TwoAdds(g, p, t), StaleOps(g, p, t), g.owner.id;
    AfterTwoAdds(g, p, t);
    RunReflects(before);
    assert ops[..|before|] == before;
    CarefulSnoc(ops);
    SubLeavesStaleTail(Run(before), c, p.id, t.id);
    SnocStates(before, Handle(p, SUB, "u4"));
    StepOnChain(Run(before), Handle(p, SUB, "u4"));
    RosterAfterSub(before, c, p, t.id);
  }

  lemma RosterAfterSub(before: seq<Op>, c: JID, p: Member, t: JID)
    requires RosterRun(before) == Roster([c, p.id, t], {}, false) && c != p.id
    ensures RosterRun(before + [Handle(p, SUB, "u4")]).ids == [c, t]
  {
    assert (before + [Handle(p, SUB, "u4")])[..|before|] == before;
    assert IndexOf([c, p.id, t], p.id) == 1;
    assert Without([c, p.id, t], 1) == [c, t];
  }

  /** Adding the removed member back makes TO it walk in a circle: `queryMember` does not end. */
  lemma BackwardQueryCanLoop(g: Group, p: Member, t: Member)
    requires Distinct(g, p, t)
    ensures var s := Run(StaleOps(g, p, t));
            p.id !in s.members && Endless(PrveLinks(HandleMember(s, p, ADD, "u5").members), p.id)
  {
    AfterStaleOps(g, p, t);
    var after := HandleMember(Run(StaleOps(g, p, t)), p, ADD, "u5").members;
    Trapped(PrveLinks(after), p.id, {p.id, t.id});
  }

  /** It does so too when another member was added first, so that the cached tail is current. */
  lemma BackwardQueryCanLoopWhenCurrent(g: Group, p: Member, t: Member, x: Member)
    requires Distinct(g, p, t) && x.id !in {"", g.owner.id, p.id, t.id}
    ensures var s := HandleMember(Run(StaleOps(g, p, t)), x, ADD, "u5");
            && x.id !in Run(StaleOps(g, p, t)).members && CacheCurrent(s) && p.id !in s.members
            && Endless(PrveLinks(HandleMember(s, p, ADD, "u6").members), p.id)
  {
    AfterStaleOps(g, p, t);
    var s := HandleMember(Run(StaleOps(g, p, t)), x, ADD, "u5");
    Trapped(PrveLinks(HandleMember(s, p, ADD, "u6").members), p.id, {p.id, x.id, t.id});
  }

  // Then remove the old tail.
  function LosingOps(g: Group, p: Member, t: Member): seq<Op> {
    StaleOps(g, p, t) + [Handle(p, ADD, "u5")] + [SubOf(t.id)]
  }

  /** Adding the removed member back and then removing the old tail cuts the chain: the log replays to
      the creator and that member, FROM the creator returns the creator alone, and FROM the member,
      which is still stored, never ends. */
  lemma ReAddedMemberIsLost(g: Group, p: Member, t: Member)
    requires Distinct(g, p, t)
    ensures var s := Run(LosingOps(g, p, t));
            && Replay(Logged(LosingOps(g, p, t))) == [g.owner.id, p.id]
            && Trail(NextLinks(s.members), g.owner.id, [g.owner.id])
            && p.id in s.members && Endless(NextLinks(s.members), p.id)
  {
    var ops, c := StaleOps(g, p, t), g.owner.id;
    AfterStaleOps(g, p, t);
    SubCutsChain(Run(ops), c, p, t.id);
    ReplayAfterReAdd(ops, c, p, t.id);
  }

  lemma ReplayAfterReAdd(ops: seq<Op>, c: JID, p: Member, t: JID)
    requires CarefulRun(ops) && RosterRun(ops).ids == [c, t] && c != t && p.id !in {c, t}
    requires CanSub(Add(Run(ops), p), t)
    ensures var ops' := ops + [Handle(p, ADD, "u5")] + [SubOf(t)];
            Replay(Logged(ops')) == [c, p.id] && Run(ops').members == Sub(Add(Run(ops), p), t).members
  {
    var added := ops + [Handle(p, ADD, "u5")];
    AddReplays(ops, Handle(p, ADD, "u5"));
    assert [c, t] + [p.id] == [c, t, p.id];
    assert Replay(Logged(added)) == [c, t, p.id];
    SubFrame(Run(added), Add(Run(ops), p), t);
    RemoveMiddle(added, c, t, p.id);
  }

  lemma RemoveMiddle(ops: seq<Op>, a: JID, b: JID, c: JID)
    requires Replay(Logged(ops)) == [a, b, c] && CanSub(Run(ops), b) && a != b && a != c && b != c
    ensures Replay(Logged(ops + [SubOf(b)])) == [a, c]
    ensures Run(ops + [SubOf(b)]).members == Sub(Run(ops), b).members
  {
    assert [a, b, c][1] == b && NoRepeats([a, b, c]);
    SubReplays(ops, 1);
    assert Without([a, b, c], 1) == [a, c];
  }

  lemma SubCutsChain(s: GroupState, c: JID, p: Member, t: JID)
    requires StaleTail(s, c, p.id, t) && p.id !in {c, t} && c != t
    ensures CanSub(Add(s, p), t)
    ensures var after := Sub(Add(s, p), t).members;
            p.id in after && Trail(NextLinks(after), c, [c]) && Endless(NextLinks(after), p.id)
  {
    var after := Sub(Add(s, p), t).members;
    assert after.Keys == {c, p.id} && after[c].next == t && after[p.id].next == p.id;
    Trapped(NextLinks(after), p.id, {p.id});
  }
}
