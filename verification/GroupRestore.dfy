/** Adding members and removing them again, in any order, undoes itself. */
module GroupRestore {
  import opened Types
  import opened GroupModel
  import opened Roster
  import opened GroupRuns
  import opened GroupLog

  // The records of `ids` are unchanged, but for the `Next` link of the last of them.
  ghost predicate SameBase(base: map<JID, MemberItem>, ids: seq<JID>, now: map<JID, MemberItem>) {
    forall i :: 0 <= i < |ids| ==>
      && ids[i] in base && ids[i] in now
      && (if i == |ids| - 1 then now[ids[i]].(next := "") else now[ids[i]]) == base[ids[i]]
  }

  // `q` is `r` with the ids `extra` appended.
  ghost predicate Grown(r: Roster, q: Roster, extra: seq<JID>) {
    && r.ids != [] && q.ids == r.ids + extra
    && q.broken == r.broken && (forall x :: x in r.broken ==> x in r.ids)
    && (extra == [] ==> !q.stale)
  }

  // `s` holds the records of `base`, followed by those of `extra`.
  ghost predicate Extended(base: map<JID, MemberItem>, r: Roster, s: GroupState, q: Roster, extra: seq<JID>) {
    Reflects(s, q) && Grown(r, q, extra) && SameBase(base, r.ids, s.members)
  }

  // ---------- one addition ----------

  lemma StillCareful(base: GroupState, r: Roster, s: GroupState, q: Roster, x: JID)
    requires Reflects(s, q) && !q.stale && q.ids != [] && x !in q.ids && CarefulAdd(base, x)
    requires |r.ids| <= |q.ids| && q.ids[..|r.ids|] == r.ids && (forall y :: y in q.broken ==> y in r.ids)
    requires SameBase(base.members, r.ids, s.members)
    ensures CarefulAdd(s, x)
  {
    forall y | y in s.members ensures s.members[y].prve != x {
      var i := IndexOf(q.ids, y);
      RecordAt(s, q, i);
      if i < |r.ids| {
        assert r.ids[i] == y;
      } else if y !in q.broken {
        assert i > 0 ==> Pred(q.ids, i) in q.ids;
      }
    }
    RecordAt(s, q, |q.ids| - 1);
  }

  lemma GrownRecords(base: map<JID, MemberItem>, ids: seq<JID>, s: GroupState, q: Roster,
                                        m: Member)
    requires Reflects(s, q) && !q.stale && q.ids != [] && m.id !in q.ids
    requires |ids| <= |q.ids| && q.ids[..|ids|] == ids && SameBase(base, ids, s.members)
    ensures SameBase(base, ids, Add(s, m).members)
  {
  }

  lemma ExtendOne(base: GroupState, r: Roster, s: GroupState, q: Roster, extra: seq<JID>,
                                     m: Member, logId: string)
    requires Extended(base.members, r, s, q, extra) && !q.stale
    requires CarefulAdd(base, m.id) && m.id !in q.ids
    ensures Extended(base.members, r, Step(s, Handle(m, ADD, logId)), Append(q, m.id), extra + [m.id])
  {
    assert q.ids[..|r.ids|] == r.ids;
    StillCareful(base, r, s, q, m.id);
    ExtendStep(s, q, m, logId);
    GrownRecords(base.members, r.ids, s, q, m);
    assert Append(q, m.id).ids == r.ids + (extra + [m.id]);
  }

  lemma ExtendStep(s: GroupState, q: Roster, m: Member, logId: string)
    requires Reflects(s, q) && CarefulAdd(s, m.id)
    ensures Reflects(Step(s, Handle(m, ADD, logId)), Append(q, m.id))
    ensures Step(s, Handle(m, ADD, logId)).members == Add(s, m).members
  {
    StepReflects(s, q, Handle(m, ADD, logId));
  }

  // ---------- one removal ----------

  lemma ExtraIsNew(ids: seq<JID>, extra: seq<JID>, k: int)
    requires NoRepeats(ids + extra) && 0 <= k < |extra|
    ensures extra[k] !in ids && IndexOf(ids + extra, extra[k]) == |ids| + k
  {
    assert (ids + extra)[|ids| + k] == extra[k];
    forall j | 0 <= j < |ids| ensures ids[j] != extra[k] {
      assert (ids + extra)[j] == ids[j];
    }
  }

  // Within the roster, removing one of the appended ids only shortens the appended part.
  lemma ShrunkRoster(r: Roster, q: Roster, extra: seq<JID>, k: int)
    requires Grown(r, q, extra) && NoRepeats(q.ids) && 0 <= k < |extra|
    ensures CanRemove(q, extra[k]) && Grown(r, Remove(q, extra[k]), Without(extra, k))
    ensures IndexOf(q.ids, extra[k]) == |r.ids| + k
  {
    var i := |r.ids| + k;
    ExtraIsNew(r.ids, extra, k);
    assert q.ids[0] == r.ids[0];
    if k < |extra| - 1 {
      ExtraIsNew(r.ids, extra, k + 1);
      assert q.ids[i + 1] == extra[k + 1];
      assert Without(q.ids, i) == r.ids + Without(extra, k);
    } else {
      assert q.ids[..i] == r.ids + Without(extra, k);
    }
  }

  // Removing an appended id touches no earlier record but the old tail's `Next`.
  lemma ShrunkRecords(base: map<JID, MemberItem>, ids: seq<JID>, s: GroupState, q: Roster,
                                         i: int)
    requires Reflects(s, q) && 0 < |ids| <= i < |q.ids| && q.ids[i] !in q.broken && CanSub(s, q.ids[i])
    requires q.ids[..|ids|] == ids && SameBase(base, ids, s.members)
    ensures SameBase(base, ids, Sub(s, q.ids[i]).members)
  {
    SubRecords(s, q, i);
    forall j | 0 <= j < |ids| ensures ids[j] == q.ids[j] && ids[j] != q.ids[i] {
    }
  }

  lemma ShrinkOne(base: map<JID, MemberItem>, r: Roster, s: GroupState, q: Roster,
                                     extra: seq<JID>, k: int, m: Member, logId: string)
    requires Extended(base, r, s, q, extra) && 0 <= k < |extra| && m.id == extra[k]
    ensures CanRemove(q, m.id) && Accepted(s, Handle(m, SUB, logId))
    ensures Extended(base, r, Step(s, Handle(m, SUB, logId)), Remove(q, m.id), Without(extra, k))
  {
    ShrunkRoster(r, q, extra, k);
    ShrinkStep(s, q, m, logId);
    assert q.ids[..|r.ids|] == r.ids && q.ids[|r.ids| + k] == m.id;
    ShrunkRecords(base, r.ids, s, q, |r.ids| + k);
  }

  lemma ShrinkStep(s: GroupState, q: Roster, m: Member, logId: string)
    requires Reflects(s, q) && CanRemove(q, m.id)
    ensures CanSub(s, m.id) && Accepted(s, Handle(m, SUB, logId))
    ensures Reflects(Step(s, Handle(m, SUB, logId)), Remove(q, m.id))
    ensures Step(s, Handle(m, SUB, logId)).members == Sub(s, m.id).members
  {
    CanSubMatches(s, q, m.id);
    StepReflects(s, q, Handle(m, SUB, logId));
  }

  // ---------- whole runs ----------

  ghost predicate AllOf(ops: seq<Op>, action: string) {
    forall i :: 0 <= i < |ops| ==> ops[i].Handle? && ops[i].action == action
  }

  function Subjects(ops: seq<Op>): (ids: seq<JID>)
    ensures |ids| == |ops| && forall i :: 0 <= i < |ops| ==> ids[i] == SubjectOf(ops[i])
  {
    seq(|ops|, i requires 0 <= i < |ops| => SubjectOf(ops[i]))
  }

  lemma {:induction false} RunFromConcat(s: GroupState, a: seq<Op>, b: seq<Op>)
    ensures RunFrom(s, a + b) == RunFrom(RunFrom(s, a), b)
  {
    if b == [] {
      assert a + b == a;
    } else {
      var n := |b| - 1;
      assert (a + b)[..|a + b| - 1] == a + b[..n];
      RunFromConcat(s, a, b[..n]);
    }
  }

  lemma RunFromFront(s: GroupState, ops: seq<Op>)
    requires ops != []
    ensures RunFrom(s, ops) == RunFrom(Step(s, ops[0]), ops[1..])
  {
    assert ops == [ops[0]] + ops[1..];
    RunFromConcat(s, [ops[0]], ops[1..]);
    assert [ops[0]][..0] == [];
    assert RunFrom(s, []) == s;
  }

  lemma {:induction false} ExtendAll(base: GroupState, r: Roster, adds: seq<Op>) returns (q: Roster)
    requires Reflects(base, r) && r.ids != [] && !r.stale
    requires AllOf(adds, ADD) && NoRepeats(Subjects(adds))
    requires forall i :: 0 <= i < |adds| ==> CarefulAdd(base, SubjectOf(adds[i]))
    ensures Extended(base.members, r, RunFrom(base, adds), q, Subjects(adds)) && !q.stale
  {
    if adds == [] {
      q := r;
      RecordAt(base, r, |r.ids| - 1);
    } else {
      var n := |adds| - 1;
      var front, op := adds[..n], adds[n];
      SubjectsSnoc(adds);
      q := ExtendAll(base, r, front);
      assert op.member.id !in r.ids;
      ExtendOne(base, r, RunFrom(base, front), q, Subjects(front), op.member, op.logId);
      q := Append(q, op.member.id);
    }
  }

  lemma SubjectsSnoc(ops: seq<Op>)
    requires ops != [] && NoRepeats(Subjects(ops))
    ensures Subjects(ops) == Subjects(ops[..|ops| - 1]) + [SubjectOf(ops[|ops| - 1])]
    ensures SubjectOf(ops[|ops| - 1]) !in Subjects(ops[..|ops| - 1])
    ensures NoRepeats(Subjects(ops[..|ops| - 1]))
  {
  }

  lemma {:induction false} ShrinkAll(base: map<JID, MemberItem>, r: Roster, s: GroupState, q: Roster,
                                     extra: seq<JID>, subs: seq<Op>) returns (q': Roster)
    requires Extended(base, r, s, q, extra)
    requires AllOf(subs, SUB) && NoRepeats(Subjects(subs))
    requires forall x :: x in extra <==> x in Subjects(subs)
    ensures Extended(base, r, RunFrom(s, subs), q', [])
    ensures forall i :: 0 <= i < |subs| ==> Accepted(RunFrom(s, subs[..i]), subs[i])
    decreases |subs|
  {
    if subs == [] {
      assert forall i :: 0 <= i < |extra| ==> extra[i] in extra;
      q' := q;
    } else {
      var op, rest := subs[0], subs[1..];
      var k, q1 := ShrinkFirst(base, r, s, q, extra, subs);
      q' := ShrinkAll(base, r, Step(s, op), q1, Without(extra, k), rest);
      RunFromFront(s, subs);
      AcceptedFront(s, subs);
    }
  }

  lemma ShrinkFirst(base: map<JID, MemberItem>, r: Roster, s: GroupState, q: Roster,
                                       extra: seq<JID>, subs: seq<Op>) returns (k: int, q': Roster)
    requires Extended(base, r, s, q, extra)
    requires subs != [] && AllOf(subs, SUB) && NoRepeats(Subjects(subs))
    requires forall x :: x in extra <==> x in Subjects(subs)
    ensures 0 <= k < |extra| && Accepted(s, subs[0])
    ensures Extended(base, r, Step(s, subs[0]), q', Without(extra, k))
    ensures NoRepeats(Subjects(subs[1..])) && forall x :: x in Without(extra, k) <==> x in Subjects(subs[1..])
  {
    var m := subs[0].member;
    assert Subjects(subs)[0] in extra;
    k := IndexOf(extra, m.id);
    ShrinkOne(base, r, s, q, extra, k, m, subs[0].logId);
    RestOfOrder(extra, k, subs, q.ids, r.ids);
    q' := Remove(q, m.id);
  }

  lemma AcceptedFront(s: GroupState, ops: seq<Op>)
    requires ops != [] && Accepted(s, ops[0])
    requires forall i :: 0 <= i < |ops| - 1 ==> Accepted(RunFrom(Step(s, ops[0]), ops[1..][..i]), ops[1..][i])
    ensures forall i :: 0 <= i < |ops| ==> Accepted(RunFrom(s, ops[..i]), ops[i])
  {
    forall i | 0 <= i < |ops| ensures Accepted(RunFrom(s, ops[..i]), ops[i]) {
      if i > 0 {
        RunFromFront(s, ops[..i]);
        assert ops[..i][1..] == ops[1..][..i - 1] && ops[i] == ops[1..][i - 1];
      }
    }
  }

  lemma RestOfOrder(extra: seq<JID>, k: int, subs: seq<Op>, all: seq<JID>, ids: seq<JID>)
    requires subs != [] && 0 <= k < |extra| && extra[k] == SubjectOf(subs[0])
    requires NoRepeats(all) && all == ids + extra && NoRepeats(Subjects(subs))
    requires forall x :: x in extra <==> x in Subjects(subs)
    ensures NoRepeats(Subjects(subs[1..]))
    ensures forall x :: x in Without(extra, k) <==> x in Subjects(subs[1..])
  {
    assert Subjects(subs) == [SubjectOf(subs[0])] + Subjects(subs[1..]);
    assert forall i :: 0 <= i < |extra| ==> all[|ids| + i] == extra[i];
    WithoutContains(extra, k);
    WithoutContains(Subjects(subs), 0);
    assert Without(Subjects(subs), 0) == Subjects(subs[1..]);
  }

  lemma RestoredRecords(base: GroupState, r: Roster, s: GroupState, q: Roster)
    requires Reflects(base, r) && r.ids != [] && !r.stale && Extended(base.members, r, s, q, [])
    ensures s.members == base.members && s.last == base.last
  {
    assert q.ids == r.ids;
    RecordAt(s, q, |r.ids| - 1);
    forall x | x in base.members ensures x in s.members && s.members[x] == base.members[x] {
      var i := IndexOf(r.ids, x);
      assert r.ids[i] == x;
    }
  }

  // ---------- the log meanwhile ----------

  ghost predicate LastIsStored(s: GroupState) {
    s.lastLog.Some? ==> s.lastLog.value.id in s.logs
  }

  ghost predicate NewLogIds(s: GroupState, ops: seq<Op>) {
    && (forall i :: 0 <= i < |ops| ==> ops[i].Handle? && ops[i].logId !in s.logs)
    && (forall i, j :: 0 <= i < j < |ops| ==> ops[i].logId != ops[j].logId)
  }

  lemma StepLogs(s: GroupState, op: Op)
    requires op.Handle? && LastIsStored(s) && op.logId !in s.logs
    ensures LastIsStored(Step(s, op))
    ensures Step(s, op).logs.Keys == s.logs.Keys + {op.logId} && |Step(s, op).logs| == |s.logs| + 1
  {
    assert Step(s, op).logs.Keys == s.logs.Keys + {op.logId};
  }

  /** Every member call, successful or not, grows the stored log by exactly one record. */
  lemma {:induction false} RunLogs(s: GroupState, ops: seq<Op>)
    requires LastIsStored(s) && NewLogIds(s, ops)
    ensures LastIsStored(RunFrom(s, ops))
    ensures forall k :: k in RunFrom(s, ops).logs ==> k in s.logs || k in UsedIds(ops)
    ensures |RunFrom(s, ops).logs| == |s.logs| + |ops|
  {
    if ops != [] {
      var n := |ops| - 1;
      RunLogs(s, ops[..n]);
      UsedIdsSnoc(ops);
      StepLogs(RunFrom(s, ops[..n]), ops[n]);
    }
  }

  // ---------- the theorem ----------

  lemma {:induction false} SizeOfNoRepeats(ids: seq<JID>)
    requires NoRepeats(ids)
    ensures |(set x | x in ids)| == |ids|
  {
    if ids != [] {
      var n := |ids| - 1;
      SizeOfNoRepeats(ids[..n]);
      assert (set x | x in ids) == (set x | x in ids[..n]) + {ids[n]};
    }
  }

  lemma SameLength(a: seq<JID>, b: seq<JID>)
    requires NoRepeats(a) && NoRepeats(b) && forall x :: x in a <==> x in b
    ensures |a| == |b|
  {
    SizeOfNoRepeats(a);
    SizeOfNoRepeats(b);
    assert (set x | x in a) == (set x | x in b);
  }

  /** From a well-formed state with an up-to-date cached tail, adding any distinct new ids and then
      removing them in any order succeeds throughout and restores every member record and the
      cached tail exactly, while the log grows by twice the number of ids. */
  lemma AddsThenSubsRestore(base: GroupState, r: Roster, adds: seq<Op>, subs: seq<Op>)
    requires Reflects(base, r) && r.ids != [] && !r.stale
    requires AllOf(adds, ADD) && AllOf(subs, SUB)
    requires forall i :: 0 <= i < |adds| ==> CarefulAdd(base, SubjectOf(adds[i]))
    requires NoRepeats(Subjects(adds)) && NoRepeats(Subjects(subs))
    requires forall x :: x in Subjects(adds) <==> x in Subjects(subs)
    requires LastIsStored(base) && NewLogIds(base, adds + subs)
    ensures RunFrom(base, adds + subs).members == base.members
    ensures RunFrom(base, adds + subs).last == base.last
    ensures |RunFrom(base, adds + subs).logs| == |base.logs| + 2 * |adds|
    ensures forall i :: 0 <= i < |subs| ==> Accepted(RunFrom(RunFrom(base, adds), subs[..i]), subs[i])
  {
    var q := ExtendAll(base, r, adds);
    var q' := ShrinkAll(base.members, r, RunFrom(base, adds), q, Subjects(adds), subs);
    RunFromConcat(base, adds, subs);
    RestoredRecords(base, r, RunFrom(base, adds + subs), q');
    RunLogs(base, adds + subs);
    SameLength(Subjects(adds), Subjects(subs));
  }
}
