/** Whole runs of group operations, followed on the roster. A run is careful when every
    addition is of a non-empty id that the group neither holds nor still links to; the
    disciplined runs (additions only while the cached tail is up to date) and the runs that
    never reuse an id are both careful. */
module GroupRuns {
  import opened Types
  import opened GroupModel
  import opened Roster

  // ---------- the reference machine over runs ----------

  predicate RosterAccepts(r: Roster, op: Op) {
    match op
    case Save(_, _) => r.ids == []
    case Handle(m, action, _) => action == ADD || (action == SUB && CanRemove(r, m.id))
  }

  function RosterStep(r: Roster, op: Op): Roster {
    if !RosterAccepts(r, op) then r
    else if op.Save? || op.action == ADD then Append(r, SubjectOf(op))
    else Remove(r, SubjectOf(op))
  }

  function RosterRun(ops: seq<Op>): Roster {
    if ops == [] then EMPTY else RosterStep(RosterRun(ops[..|ops| - 1]), ops[|ops| - 1])
  }

  ghost predicate CarefulOp(s: GroupState, op: Op) {
    Adds(s, op) ==> CarefulAdd(s, SubjectOf(op))
  }

  ghost predicate CarefulRun(ops: seq<Op>) {
    forall i :: 0 <= i < |ops| ==> CarefulOp(Run(ops[..i]), ops[i])
  }

  // ---------- every careful run keeps store and roster in step ----------

  lemma AcceptsMatch(s: GroupState, r: Roster, op: Op)
    requires Reflects(s, r)
    ensures Accepted(s, op) <==> RosterAccepts(r, op)
    ensures Adds(s, op) <==> RosterAccepts(r, op) && (op.Save? || op.action == ADD)
  {
    CanSubMatches(s, r, SubjectOf(op));
  }

  function AddedMember(op: Op): Member {
    if op.Save? then Member(op.group.owner.id, op.group.owner.name, op.group.id) else op.member
  }

  // On the chain, a call is an addition, a removal, or nothing.
  lemma StepOnChain(s: GroupState, op: Op)
    ensures var t := if Adds(s, op) then Add(s, AddedMember(op))
                     else if Accepted(s, op) then Sub(s, SubjectOf(op)) else s;
            Step(s, op).members == t.members && Step(s, op).last == t.last
  {
  }

  lemma StepReflects(s: GroupState, r: Roster, op: Op)
    requires Reflects(s, r) && CarefulOp(s, op)
    ensures Accepted(s, op) <==> RosterAccepts(r, op)
    ensures Reflects(Step(s, op), RosterStep(r, op))
  {
    AcceptsMatch(s, r, op);
    StepOnChain(s, op);
    var x := SubjectOf(op);
    if Adds(s, op) {
      AddReflects(s, r, AddedMember(op));
      ReflectsFrame(Add(s, AddedMember(op)), Step(s, op), Append(r, x));
    } else if Accepted(s, op) {
      SubReflects(s, r, x);
      ReflectsFrame(Sub(s, x), Step(s, op), Remove(r, x));
    } else {
      ReflectsFrame(s, Step(s, op), r);
    }
  }

  // The chain does not depend on the log or the group record.
  lemma ReflectsFrame(s: GroupState, t: GroupState, r: Roster)
    requires Reflects(s, r) && t.members == s.members && t.last == s.last
    ensures Reflects(t, r)
  {
  }

  lemma RunSnoc(ops: seq<Op>)
    requires ops != []
    ensures Run(ops) == Step(Run(ops[..|ops| - 1]), ops[|ops| - 1])
  {
  }

  lemma CarefulPrefix(ops: seq<Op>, n: nat)
    requires CarefulRun(ops) && n <= |ops|
    ensures CarefulRun(ops[..n])
  {
    forall i | 0 <= i < n ensures CarefulOp(Run(ops[..n][..i]), ops[..n][i]) {
      assert ops[..n][..i] == ops[..i];
    }
  }

  /** In every careful run the stored chain, its links in both directions, the dangling links
      and the cached tail are exactly what the roster says. */
  lemma {:induction false} RunReflects(ops: seq<Op>)
    requires CarefulRun(ops)
    ensures Reflects(Run(ops), RosterRun(ops))
  {
    if ops != [] {
      var n := |ops| - 1;
      CarefulPrefix(ops, n);
      RunReflects(ops[..n]);
      assert CarefulOp(Run(ops[..n]), ops[n]);
      StepReflects(Run(ops[..n]), RosterRun(ops[..n]), ops[n]);
    }
  }

  lemma AcceptedMatches(ops: seq<Op>, i: nat)
    requires CarefulRun(ops) && i < |ops|
    ensures Accepted(Run(ops[..i]), ops[i]) <==> RosterAccepts(RosterRun(ops[..i]), ops[i])
  {
    CarefulPrefix(ops, i);
    RunReflects(ops[..i]);
    StepReflects(Run(ops[..i]), RosterRun(ops[..i]), ops[i]);
  }

  // ---------- disciplined runs ----------

  ghost predicate CacheCurrent(s: GroupState) {
    s.last.Some? ==> s.last.value.id in s.members && s.members[s.last.value.id] == s.last.value
  }

  ghost predicate DisciplinedOp(s: GroupState, op: Op) {
    Adds(s, op) ==> SubjectOf(op) != "" && SubjectOf(op) !in s.members && CacheCurrent(s)
  }

  ghost predicate DisciplinedRun(ops: seq<Op>) {
    forall i :: 0 <= i < |ops| ==> DisciplinedOp(Run(ops[..i]), ops[i])
  }

  // The cached tail has the tail's id, and equals the stored record just when it is not stale.
  lemma CacheCurrentMatches(s: GroupState, r: Roster)
    requires Reflects(s, r)
    ensures CacheCurrent(s) <==> !r.stale
    ensures r.ids != [] ==> s.last.Some? && s.last.value.id == Tail(r.ids) && s.last.value.next == ""
  {
    if r.ids != [] {
      RecordAt(s, r, |r.ids| - 1);
    }
  }

  lemma WholeLinks(s: GroupState, r: Roster, x: JID)
    requires Reflects(s, r) && r.broken == {} && !r.stale
    requires x != "" && x !in s.members
    ensures CarefulAdd(s, x)
  {
    forall y | y in s.members ensures s.members[y].prve != x {
      var i := IndexOf(r.ids, y);
      RecordAt(s, r, i);
      if i > 0 {
        assert r.ids[i - 1] in s.members;
      }
    }
  }

  lemma DisciplinedPrefix(ops: seq<Op>)
    requires DisciplinedRun(ops) && ops != []
    ensures DisciplinedRun(ops[..|ops| - 1])
  {
    var front := ops[..|ops| - 1];
    forall i | 0 <= i < |front| ensures DisciplinedOp(Run(front[..i]), front[i]) {
      assert front[..i] == ops[..i];
    }
  }

  lemma CarefulSnoc(ops: seq<Op>)
    requires ops != [] && CarefulRun(ops[..|ops| - 1])
    requires CarefulOp(Run(ops[..|ops| - 1]), ops[|ops| - 1])
    ensures CarefulRun(ops)
  {
    var front := ops[..|ops| - 1];
    forall i | 0 <= i < |ops| ensures CarefulOp(Run(ops[..i]), ops[i]) {
      if i < |front| {
        assert front[..i] == ops[..i] && CarefulOp(Run(front[..i]), front[i]);
      }
    }
  }

  lemma DisciplinedStep(s: GroupState, r: Roster, op: Op)
    requires Reflects(s, r) && r.broken == {} && DisciplinedOp(s, op)
    ensures CarefulOp(s, op) && RosterStep(r, op).broken == {}
  {
    CacheCurrentMatches(s, r);
    if Adds(s, op) {
      WholeLinks(s, r, SubjectOf(op));
    }
  }

  /** Disciplined runs are careful and never leave a dangling link, so `Next` and `Prve` are
      mutually inverse along the whole chain. */
  lemma {:induction false} DisciplinedIsWhole(ops: seq<Op>)
    requires DisciplinedRun(ops)
    ensures CarefulRun(ops) && RosterRun(ops).broken == {}
  {
    if ops != [] {
      var n := |ops| - 1;
      DisciplinedPrefix(ops);
      DisciplinedIsWhole(ops[..n]);
      RunReflects(ops[..n]);
      assert DisciplinedOp(Run(ops[..n]), ops[n]);
      DisciplinedStep(Run(ops[..n]), RosterRun(ops[..n]), ops[n]);
      CarefulSnoc(ops);
    }
  }

  // ---------- runs that never reuse an id ----------

  // The ids added so far, as the calls name them.
  function Added(ops: seq<Op>): set<JID> {
    if ops == [] then {}
    else
      var front, op := ops[..|ops| - 1], ops[|ops| - 1];
      if Adds(Run(front), op) then Added(front) + {SubjectOf(op)} else Added(front)
  }

  ghost predicate NeverReuses(ops: seq<Op>) {
    forall i :: 0 <= i < |ops| && Adds(Run(ops[..i]), ops[i]) ==>
      SubjectOf(ops[i]) != "" && SubjectOf(ops[i]) !in Added(ops[..i])
  }

  ghost predicate ItemNames(item: MemberItem, names: set<JID>) {
    item.id in names && (item.prve == "" || item.prve in names)
  }

  ghost predicate OnlyNames(s: GroupState, names: set<JID>) {
    && (forall y :: y in s.members ==> y in names && ItemNames(s.members[y], names))
    && (s.last.Some? ==> ItemNames(s.last.value, names))
  }

  lemma StepNames(s: GroupState, op: Op, names: set<JID>)
    requires OnlyNames(s, names)
    ensures OnlyNames(Step(s, op), if Adds(s, op) then names + {SubjectOf(op)} else names)
  {
  }

  lemma {:induction false} RunNames(ops: seq<Op>)
    ensures OnlyNames(Run(ops), Added(ops))
  {
    if ops != [] {
      var n := |ops| - 1;
      var front := ops[..n];
      RunNames(front);
      StepNames(Run(front), ops[n], Added(front));
    }
  }

  /** A caller who never adds the same id twice needs no look at the store: the run is careful. */
  lemma NeverReusesIsCareful(ops: seq<Op>)
    requires NeverReuses(ops)
    ensures CarefulRun(ops)
  {
    forall i | 0 <= i < |ops| ensures CarefulOp(Run(ops[..i]), ops[i]) {
      RunNames(ops[..i]);
    }
  }

  // ---------- when the cached tail is out of date ----------

  // The call removes the member just before the tail.
  ghost predicate RemovesBeforeTail(r: Roster, op: Op) {
    op.Handle? && op.action == SUB && CanRemove(r, op.member.id) && IndexOf(r.ids, op.member.id) == |r.ids| - 2
  }

  // The call writes the cached tail: an addition, or the removal of the tail.
  ghost predicate WritesCache(r: Roster, op: Op) {
    RosterAccepts(r, op) && (op.Save? || op.action == ADD || IndexOf(r.ids, op.member.id) == |r.ids| - 1)
  }

  ghost predicate RemovedSinceWrite(ops: seq<Op>, j: int) {
    && 0 <= j < |ops|
    && RemovesBeforeTail(RosterRun(ops[..j]), ops[j])
    && (forall k :: j < k < |ops| ==> !WritesCache(RosterRun(ops[..k]), ops[k]))
  }

  lemma RemovedSinceWriteSnoc(ops: seq<Op>, j: int)
    requires ops != [] && 0 <= j < |ops| - 1
    ensures RemovedSinceWrite(ops, j) <==>
            RemovedSinceWrite(ops[..|ops| - 1], j)
            && !WritesCache(RosterRun(ops[..|ops| - 1]), ops[|ops| - 1])
  {
    var front := ops[..|ops| - 1];
    forall k | 0 <= k <= |front| ensures RosterRun(front[..k]) == RosterRun(ops[..k]) {
      assert front[..k] == ops[..k];
    }
  }

  lemma {:induction false} StaleSinceWrite(ops: seq<Op>)
    ensures RosterRun(ops).stale <==> exists j :: RemovedSinceWrite(ops, j)
  {
    if ops != [] {
      var n := |ops| - 1;
      var front := ops[..n];
      StaleSinceWrite(front);
      forall j | 0 <= j < n { RemovedSinceWriteSnoc(ops, j); }
      if RosterRun(ops).stale {
        if RemovesBeforeTail(RosterRun(front), ops[n]) {
          assert RemovedSinceWrite(ops, n);
        } else {
          var j :| RemovedSinceWrite(front, j);
          assert RemovedSinceWrite(ops, j);
        }
      }
      if j :| RemovedSinceWrite(ops, j) {
        if j < n {
          assert RemovedSinceWrite(front, j);
        }
      }
    }
  }

  /** In every careful run the cached tail differs from the tail's stored record exactly when
      the tail's predecessor has been removed since the cache was last written. */
  lemma CacheDiffersExactly(ops: seq<Op>)
    requires CarefulRun(ops)
    ensures !CacheCurrent(Run(ops)) <==> exists j :: RemovedSinceWrite(ops, j)
  {
    RunReflects(ops);
    CacheCurrentMatches(Run(ops), RosterRun(ops));
    StaleSinceWrite(ops);
  }

  // ---------- what the records carry ----------

  // The member value given by the latest addition of `x`.
  function LatestAdd(ops: seq<Op>, x: JID): Option<Member> {
    if ops == [] then None
    else
      var front, op := ops[..|ops| - 1], ops[|ops| - 1];
      if Adds(Run(front), op) && SubjectOf(op) == x then Some(AddedMember(op)) else LatestAdd(front, x)
  }

  // Records lie under their own ids.
  ghost predicate Keyed(s: GroupState) {
    forall x :: x in s.members ==> s.members[x].id == x
  }

  // ADD stores the new value under its id and, under the cached tail's id, what the cache carries.
  lemma AddPayload(s: GroupState, m: Member, x: JID)
    requires Keyed(s) && x in Add(s, m).members
    ensures var item := Add(s, m).members[x];
            && item.id == x
            && (x == m.id ==> item.member == m)
            && (x != m.id && s.last.Some? && x == s.last.value.id ==> item.member == s.last.value.member)
            && (x != m.id && (s.last.None? || x != s.last.value.id) ==>
                  x in s.members && item.member == s.members[x].member)
    ensures Add(s, m).last.Some? && Add(s, m).last.value.id == m.id && Add(s, m).last.value.member == m
  {
  }

  lemma SubPayload(s: GroupState, y: JID)
    requires Keyed(s) && CanSub(s, y)
    ensures Keyed(Sub(s, y))
    ensures forall x :: x in Sub(s, y).members ==>
              x in s.members && Sub(s, y).members[x].member == s.members[x].member
    ensures var last := Sub(s, y).last;
            last == s.last || (last.Some? && last.value.id in s.members
                               && last.value.member == s.members[last.value.id].member)
  {
  }

  ghost predicate Carries(s: GroupState, ops: seq<Op>) {
    && Keyed(s)
    && (forall x :: x in s.members ==> LatestAdd(ops, x) == Some(s.members[x].member))
    && (s.last.Some? ==> LatestAdd(ops, s.last.value.id) == Some(s.last.value.member))
  }

  /** In every run whatever, each stored record and the cached tail carry the member value of the latest
      addition of their id: relinking, caching and writing back never mix the values up. */
  lemma {:induction false} RecordsCarryLatestAdd(ops: seq<Op>)
    ensures Carries(Run(ops), ops)
  {
    if ops != [] {
      var n := |ops| - 1;
      var s, op := Run(ops[..n]), ops[n];
      RecordsCarryLatestAdd(ops[..n]);
      RunSnoc(ops);
      StepOnChain(s, op);
      if Adds(s, op) {
        forall x | x in Add(s, AddedMember(op)).members
          ensures Add(s, AddedMember(op)).members[x].id == x
          ensures LatestAdd(ops, x) == Some(Add(s, AddedMember(op)).members[x].member)
        {
          AddPayload(s, AddedMember(op), x);
        }
      } else if Accepted(s, op) {
        SubPayload(s, SubjectOf(op));
      }
    }
  }

  // ---------- the creator ----------

  lemma HeadStays(r: Roster, op: Op)
    requires r.ids != []
    ensures RosterStep(r, op).ids != [] && RosterStep(r, op).ids[0] == r.ids[0]
  {
  }

  lemma {:induction false} HeadIsCreator(ops: seq<Op>)
    requires ops != [] && ops[0].Save?
    ensures RosterRun(ops).ids != [] && RosterRun(ops).ids[0] == ops[0].group.owner.id
  {
    if |ops| > 1 {
      HeadIsCreator(ops[..|ops| - 1]);
      HeadStays(RosterRun(ops[..|ops| - 1]), ops[|ops| - 1]);
    } else {
      assert ops[..0] == [];
    }
  }

  lemma {:induction false} CreatorAddedOnce(ops: seq<Op>)
    requires CarefulRun(ops) && ops != [] && ops[0].Save?
    ensures LatestAdd(ops, ops[0].group.owner.id) == Some(AddedMember(ops[0]))
  {
    var n := |ops| - 1;
    if n > 0 {
      CarefulPrefix(ops, n);
      CreatorAddedOnce(ops[..n]);
      RunReflects(ops[..n]);
      HeadIsCreator(ops[..n]);
      RecordAt(Run(ops[..n]), RosterRun(ops[..n]), 0);
      assert CarefulOp(Run(ops[..n]), ops[n]);
    } else {
      assert ops[..0] == [];
      assert Run([]) == NEW_GROUP;
    }
  }

  /** The record of the creator carries, for the whole of a careful run, the owner's id and name and the
      group's id from the first saved group. */
  lemma CreatorKeepsRecord(ops: seq<Op>)
    requires CarefulRun(ops) && ops != [] && ops[0].Save?
    ensures var g := ops[0].group;
            && g.owner.id in Run(ops).members
            && Run(ops).members[g.owner.id].member == Member(g.owner.id, g.owner.name, g.id)
  {
    CreatorAddedOnce(ops);
    RecordsCarryLatestAdd(ops);
    RunReflects(ops);
    HeadIsCreator(ops);
    RecordAt(Run(ops), RosterRun(ops), 0);
  }

  /** A careful run opened by `saveGroup` never empties the group, its head stays the first
      creator, removing that creator fails, and saving the group again touches only its record. */
  lemma CreatorIsPermanent(ops: seq<Op>, again: Group, logId: string)
    requires CarefulRun(ops) && ops != [] && ops[0].Save?
    ensures var s, creator := Run(ops), ops[0].group.owner.id;
            && creator in s.members && s.members[creator].prve == ""
            && !CanSub(s, creator)
            && SaveGroup(s, again, logId) == s.(record := Some(again))
  {
    RunReflects(ops);
    HeadIsCreator(ops);
    RecordAt(Run(ops), RosterRun(ops), 0);
    CanSubMatches(Run(ops), RosterRun(ops), ops[0].group.owner.id);
  }

  // ---------- the member call as it arrives over the wire ----------

  /** Members decoded from a request carry the empty action, since that field is not encoded: the
      handler's calls are all refused, and no chain, cached tail or last log ever changes. */
  lemma {:induction false} WireCallsNeverAct(s: GroupState, ops: seq<Op>)
    requires forall i :: 0 <= i < |ops| ==> ops[i].Handle? && ops[i].action == ""
    ensures RunFrom(s, ops) == s.(logs := RunFrom(s, ops).logs)
    ensures forall i :: 0 <= i < |ops| ==> !Accepted(RunFrom(s, ops[..i]), ops[i])
  {
    if ops != [] {
      WireCallsNeverAct(s, ops[..|ops| - 1]);
    }
  }

  /** Removing the tail always brings the cached tail back in step. */
  lemma TailRemovalRefreshes(s: GroupState, r: Roster, x: JID)
    requires Reflects(s, r) && CanSub(s, x) && s.members[x].next == ""
    ensures CacheCurrent(Sub(s, x))
  {
    CanSubMatches(s, r, x);
    SubReflects(s, r, x);
    RecordAt(s, r, IndexOf(r.ids, x));
    CacheCurrentMatches(Sub(s, x), Remove(r, x));
  }
}
