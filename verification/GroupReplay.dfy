/** The chain and the log are two records of the same history, and they agree. */
module GroupReplay {
  import opened Types
  import opened Links
  import opened GroupModel
  import opened Roster
  import opened GroupRuns
  import opened GroupWalks
  import opened GroupLog

  // ADD appends, SUB takes the member out.
  function ReplayEntry(ids: seq<JID>, e: Entry): seq<JID> {
    if e.action == ADD then ids + [e.memberId]
    else if e.action == SUB && e.memberId in ids then Without(ids, IndexOf(ids, e.memberId))
    else ids
  }

  function Replay(log: seq<Entry>): seq<JID> {
    if log == [] then [] else ReplayEntry(Replay(log[..|log| - 1]), log[|log| - 1])
  }

  // The entries as they are read back from the stored log records.
  function ReadBack(logs: map<string, MemberLog>, ids: seq<string>): seq<Entry>
    requires forall i :: 0 <= i < |ids| ==> ids[i] in logs
  {
    seq(|ids|, i requires 0 <= i < |ids| => Entry(ids[i], logs[ids[i]].action, logs[ids[i]].memberId))
  }

  lemma ReplayAfter(log: seq<Entry>, s: GroupState, r: Roster, op: Op)
    requires Reflects(s, r) && CarefulOp(s, op) && Replay(log) == r.ids
    ensures Replay(LogAfter(log, s, op)) == RosterStep(r, op).ids
  {
    StepReflects(s, r, op);
    if Accepted(s, op) {
      var e := EntryOf(s, op);
      assert (log + [e])[..|log|] == log;
      if e.action == SUB {
        var i := IndexOf(r.ids, e.memberId);
        assert i == |r.ids| - 1 ==> Without(r.ids, i) == r.ids[..i];
      }
    }
  }

  lemma {:induction false} ReplayIsRoster(ops: seq<Op>)
    requires CarefulRun(ops)
    ensures Replay(Logged(ops)) == RosterRun(ops).ids
  {
    if ops != [] {
      var n := |ops| - 1;
      CarefulPrefix(ops, n);
      ReplayIsRoster(ops[..n]);
      RunReflects(ops[..n]);
      assert CarefulOp(Run(ops[..n]), ops[n]);
      ReplayAfter(Logged(ops[..n]), Run(ops[..n]), RosterRun(ops[..n]), ops[n]);
    }
  }

  lemma ReadBackIsLog(s: GroupState, log: seq<Entry>, failed: set<string>, pending: string)
    requires LogChain(s, log, failed, pending)
    ensures (forall i :: 0 <= i < |log| ==> Ids(log)[i] in s.logs)
    ensures ReadBack(s.logs, Ids(log)) == log
  {
    forall i | 0 <= i < |log| ensures Ids(log)[i] in s.logs && s.logs[Ids(log)[i]] == Stored(log, i, pending) {
    }
  }

  /** Whatever the `Prve` walk from the cached last log visits, replaying those records oldest
      first gives exactly what FROM the head of the chain returns. */
  lemma StoredLogReplaysToWalk(ops: seq<Op>, back: seq<string>)
    requires CarefulRun(ops) && FreshIds(ops) && Run(ops).lastLog.Some?
    requires Trail(LogPrve(Run(ops).logs), Run(ops).lastLog.value.id, back)
    ensures forall i :: 0 <= i < |Reverse(back)| ==> Reverse(back)[i] in Run(ops).logs
    ensures var ids := Replay(ReadBack(Run(ops).logs, Reverse(back)));
            ids != [] && Trail(NextLinks(Run(ops).members), ids[0], ids)
  {
    var s, log, r := Run(ops), Logged(ops), RosterRun(ops);
    LogOfRun(ops);
    LogWalkBack(s, log, Failed(ops), Pending(ops));
    TrailUnique(LogPrve(s.logs), s.lastLog.value.id, back, Reverse(Ids(log)));
    ReverseInvolutive(Ids(log));
    ReadBackIsLog(s, log, Failed(ops), Pending(ops));
    ReplayIsRoster(ops);
    RunReflects(ops);
    NonEmptyAfterLog(ops);
    ForwardWalk(s.members, r.ids, 0);
    assert r.ids[0..] == r.ids;
  }

  lemma {:induction false} NonEmptyAfterLog(ops: seq<Op>)
    requires CarefulRun(ops) && Logged(ops) != []
    ensures RosterRun(ops).ids != []
  {
    var n := |ops| - 1;
    CarefulPrefix(ops, n);
    AcceptedMatches(ops, n);
    if RosterRun(ops[..n]).ids != [] {
      HeadStays(RosterRun(ops[..n]), ops[n]);
    } else if !Accepted(Run(ops[..n]), ops[n]) {
      NonEmptyAfterLog(ops[..n]);
    }
  }

  /** In every disciplined run opened by `saveGroup`, replaying the successful actions gives the
      chain that FROM the creator walks and that TO the last member walks in reverse. */
  lemma {:induction false} DisciplinedReplay(ops: seq<Op>)
    requires DisciplinedRun(ops) && ops != [] && ops[0].Save?
    ensures var s, ids := Run(ops), Replay(Logged(ops));
            && ids != [] && ids[0] == ops[0].group.owner.id
            && Trail(NextLinks(s.members), ids[0], ids)
            && Trail(PrveLinks(s.members), Tail(ids), Reverse(ids))
            && s.last.Some? && s.last.value.id == Tail(ids) && s.last.value.next == ""
  {
    DisciplinedIsWhole(ops);
    ReplayIsRoster(ops);
    RunReflects(ops);
    HeadIsCreator(ops);
    var s, r := Run(ops), RosterRun(ops);
    ForwardWalk(s.members, r.ids, 0);
    BackwardWalk(s, r, |r.ids| - 1);
    CacheCurrentMatches(s, r);
    assert r.ids[0..] == r.ids && r.ids[0..|r.ids|] == r.ids;
  }

  /** The replay law needs its condition: adding a present id is accepted and logged, but the
      chain does not grow with it. */
  lemma DuplicateAddBreaksReplay(g: Group, name: string)
    requires g.owner.id != ""
    ensures var owner := g.owner.id;
            var ops := [Save(g, "u1"), Handle(Member(owner, name, g.id), ADD, "u2")];
            && Replay(Logged(ops)) == [owner, owner]
            && Trail(NextLinks(Run(ops).members), owner, [owner])
  {
    var owner := g.owner.id;
    var first := [Save(g, "u1")];
    var again := Handle(Member(owner, name, g.id), ADD, "u2");
    AfterFirstSave(g);
    RunSnoc(first + [again]);
    assert (first + [again])[..1] == first;
    assert Logged(first + [again]) == [Entry("u1", ADD, owner), Entry("u2", ADD, owner)];
    ReplayTwo(owner);
    assert Run(first + [again]).members.Keys == {owner};
    assert first + [again] == [Save(g, "u1"), again];
  }

  lemma AfterFirstSave(g: Group)
    ensures var ops := [Save(g, "u1")];
            Run(ops) == SaveGroup(NEW_GROUP, g, "u1") && Logged(ops) == [Entry("u1", ADD, g.owner.id)]
  {
    var ops := [Save(g, "u1")];
    assert ops[..0] == [];
    assert Run([]) == NEW_GROUP && Logged([]) == [];
    RunSnoc(ops);
  }

  lemma ReplayTwo(x: JID)
    ensures Replay([Entry("u1", ADD, x), Entry("u2", ADD, x)]) == [x, x]
  {
    var one := [Entry("u1", ADD, x)];
    assert one[..0] == [];
    assert Replay(one) == [x];
    assert [Entry("u1", ADD, x), Entry("u2", ADD, x)][..1] == one;
  }
}
