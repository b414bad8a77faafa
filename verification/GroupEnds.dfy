/** When `queryMember` ends. It has no bound of its own, so it ends exactly when the link walk does;
    a call may close the links into a circle, and this module says which calls do. */
module GroupEnds {
  import opened Types
  import opened Links
  import opened GroupModel
  import opened Roster
  import opened GroupRuns
  import opened GroupWalks

  // Every query of the group ends: from any start, FROM and TO.
  ghost predicate QueriesEnd(s: GroupState) {
    AllEnd(NextLinks(s.members)) && AllEnd(PrveLinks(s.members))
  }

  // Records lie under their own ids, none of them empty, and the first addition sets the cached tail.
  ghost predicate Tidy(s: GroupState) {
    && "" !in s.members
    && Keyed(s)
    && (if s.last.Some? then s.last.value.id != "" else s.members == map[])
  }

  // Following `Prve` from the cached tail's predecessor leads neither to the tail nor to the new id.
  ghost predicate SafeAdd(s: GroupState, id: JID) {
    && id != ""
    && (s.last.Some? ==>
          var last, prve := s.last.value, PrveLinks(s.members);
          id != last.id && !Reaches(prve, last.prve, last.id) && !Reaches(prve, last.prve, id))
  }

  // FROM the successor does not lead to the predecessor, nor TO the predecessor to the successor.
  ghost predicate SafeSub(s: GroupState, id: JID)
    requires CanSub(s, id)
  {
    var item := s.members[id];
    item.next in s.members ==>
      !Reaches(NextLinks(s.members), item.next, item.prve) && !Reaches(PrveLinks(s.members), item.prve, item.next)
  }

  ghost predicate SafeOp(s: GroupState, op: Op) {
    if Adds(s, op) then SafeAdd(s, SubjectOf(op)) else Accepted(s, op) ==> SafeSub(s, SubjectOf(op))
  }

  // ---------- additions ----------

  /** What ADD does to the links, in any state whatever: the tail's come from the cached copy and lead on
      to the new id, the new id's lead back to the tail; no other link changes. */
  lemma AddLinks(s: GroupState, m: Member)
    ensures var next, prve := NextLinks(s.members), PrveLinks(s.members);
            var next', prve' := NextLinks(Add(s, m).members), PrveLinks(Add(s, m).members);
            if s.last.Some? then
              && next' == next[s.last.value.id := m.id][m.id := ""]
              && prve' == prve[s.last.value.id := s.last.value.prve][m.id := s.last.value.id]
            else next' == next[m.id := ""] && prve' == prve[m.id := ""]
    ensures m.id in Add(s, m).members && Add(s, m).last == Some(Add(s, m).members[m.id])
  {
  }

  lemma AddNextEndsIff(s: GroupState, m: Member)
    requires Tidy(s) && AllEnd(NextLinks(s.members))
    ensures AllEnd(NextLinks(Add(s, m).members)) <==> m.id != ""
  {
    var links, after := NextLinks(s.members), NextLinks(Add(s, m).members);
    assert after[m.id] == "";
    if m.id == "" {
      Trapped(after, "", {""});
    } else {
      var cut := links[m.id := ""];
      ReachesNothing(links, "", m.id);
      EditEndsIff(links, m.id, "");
      if s.last.None? || s.last.value.id == m.id {
        assert after == cut;
      } else {
        assert after == cut[s.last.value.id := m.id];
        ReachesStep(cut, m.id, s.last.value.id);
        ReachesNothing(cut, "", s.last.value.id);
        EditEndsIff(cut, s.last.value.id, m.id);
      }
    }
  }

  lemma AddPrveEndsIff(s: GroupState, m: Member)
    requires Tidy(s) && AllEnd(PrveLinks(s.members)) && m.id != ""
    ensures AllEnd(PrveLinks(Add(s, m).members)) <==> SafeAdd(s, m.id)
  {
    var links, after := PrveLinks(s.members), PrveLinks(Add(s, m).members);
    if s.last.None? {
      assert after == links[m.id := ""];
      ReachesNothing(links, "", m.id);
      EditEndsIff(links, m.id, "");
    } else {
      assert after == links[s.last.value.id := s.last.value.prve][m.id := s.last.value.id];
      TwoEditsEndIff(links, s.last.value.id, s.last.value.prve, m.id);
    }
  }

  // The tail's link is rewritten, and the new id is linked to the tail.
  lemma TwoEditsEndIff(links: LinkMap, tail: string, prve: string, id: string)
    requires AllEnd(links)
    ensures AllEnd(links[tail := prve][id := tail]) <==>
            id != tail && !Reaches(links, prve, tail) && !Reaches(links, prve, id)
  {
    var back := links[tail := prve];
    var after := back[id := tail];
    EditEndsIff(links, tail, prve);
    if id == tail {
      Trapped(after, id, {id});
    } else if Reaches(links, prve, tail) {
      var n: nat :| ReachesIn(links, prve, tail, n);
      var way := WayTo(links, prve, tail, n);
      Trapped(after, prve, way);
    } else {
      EditEndsIff(back, id, tail);
      ReachesStep(back, tail, id);
      ReachesUnchanged(links, tail, prve, prve, id);
    }
  }

  /** From any state whose queries end, ADD keeps them ending exactly when it is safe. */
  lemma AddEndsIff(s: GroupState, m: Member)
    requires Tidy(s) && QueriesEnd(s)
    ensures QueriesEnd(Add(s, m)) <==> SafeAdd(s, m.id)
  {
    AddNextEndsIff(s, m);
    if m.id != "" {
      AddPrveEndsIff(s, m);
    }
  }

  // ---------- removals ----------

  lemma NotItsOwnNeighbour(s: GroupState, id: JID)
    requires QueriesEnd(s) && id in s.members
    ensures s.members[id].prve != id && s.members[id].next != id
  {
    if s.members[id].prve == id {
      Trapped(PrveLinks(s.members), id, {id});
    }
    if s.members[id].next == id {
      Trapped(NextLinks(s.members), id, {id});
    }
  }

  /** What an accepted removal does to `Next`, in any state with records under their own ids: the
      predecessor leads to the removed member's successor, if that is stored, and the member is gone.
      Only when it has no stored successor does the cached tail become the predecessor's record. */
  lemma SubNextLinks(s: GroupState, id: JID)
    requires Keyed(s) && CanSub(s, id) && s.members[id].prve != id
    ensures var item, next := s.members[id], NextLinks(s.members);
            NextLinks(Sub(s, id).members) ==
            next[item.prve := if item.next in s.members then item.next else ""] - {id}
    ensures var item, after := s.members[id], Sub(s, id);
            after.last == if item.next in s.members then s.last else Some(s.members[item.prve].(next := ""))
  {
  }

  /** And to `Prve`: the successor leads back to the predecessor. */
  lemma SubPrveLinks(s: GroupState, id: JID)
    requires Keyed(s) && CanSub(s, id) && s.members[id].next != s.members[id].prve
    ensures var item, prve := s.members[id], PrveLinks(s.members);
            PrveLinks(Sub(s, id).members) ==
            (if item.next in s.members then prve[item.next := item.prve] else prve) - {id}
  {
  }

  /** From any state whose queries end, an accepted removal keeps them ending exactly when it is safe. */
  lemma SubEndsIff(s: GroupState, id: JID)
    requires Tidy(s) && QueriesEnd(s) && CanSub(s, id)
    ensures QueriesEnd(Sub(s, id)) <==> SafeSub(s, id)
  {
    var item, next, prve := s.members[id], NextLinks(s.members), PrveLinks(s.members);
    NotItsOwnNeighbour(s, id);
    SubNextLinks(s, id);
    if item.next == item.prve {
      SpliceEndsIff(next, item.prve, id);
      assert ReachesIn(next, item.next, item.prve, 0);
    } else if item.next in s.members {
      SpliceEndsIff(next, item.prve, id);
      SubPrveLinks(s, id);
      SpliceEndsIff(prve, item.next, id);
    } else {
      SubPrveLinks(s, id);
      ReachesNothing(next, "", item.prve);
      EndsAfterEdit(next, item.prve, "");
      EndsWithout(next[item.prve := ""], id);
      EndsWithout(prve, id);
    }
  }

  // ---------- calls and runs ----------

  lemma EndsFrame(s: GroupState, t: GroupState)
    requires s.members == t.members
    ensures QueriesEnd(s) <==> QueriesEnd(t)
  {
  }

  /** From any state whose queries end, a call keeps them ending exactly when it is safe. */
  lemma StepEndsIff(s: GroupState, op: Op)
    requires Tidy(s) && QueriesEnd(s)
    ensures QueriesEnd(Step(s, op)) <==> SafeOp(s, op)
  {
    StepOnChain(s, op);
    if Adds(s, op) {
      AddEndsIff(s, AddedMember(op));
      EndsFrame(Add(s, AddedMember(op)), Step(s, op));
    } else if Accepted(s, op) {
      SubEndsIff(s, SubjectOf(op));
      EndsFrame(Sub(s, SubjectOf(op)), Step(s, op));
    } else {
      EndsFrame(s, Step(s, op));
    }
  }

  lemma StepTidy(s: GroupState, op: Op)
    requires Tidy(s) && (Adds(s, op) ==> SubjectOf(op) != "")
    ensures Tidy(Step(s, op))
  {
    StepOnChain(s, op);
  }

  ghost predicate SafeAt(ops: seq<Op>, i: nat)
    requires i < |ops|
  {
    SafeOp(Run(ops[..i]), ops[i])
  }

  ghost predicate SafeRun(ops: seq<Op>) {
    forall i :: 0 <= i < |ops| ==> SafeAt(ops, i)
  }

  ghost predicate QueriesEndThroughout(ops: seq<Op>) {
    forall k :: 0 <= k <= |ops| ==> QueriesEnd(Run(ops[..k]))
  }

  lemma SafeSnoc(ops: seq<Op>)
    requires ops != []
    ensures SafeRun(ops) <==> SafeRun(ops[..|ops| - 1]) && SafeOp(Run(ops[..|ops| - 1]), ops[|ops| - 1])
  {
    var front := ops[..|ops| - 1];
    forall i | 0 <= i < |front| ensures SafeAt(front, i) == SafeAt(ops, i) {
      assert front[..i] == ops[..i];
    }
    assert SafeAt(ops, |front|) <==> SafeOp(Run(front), ops[|front|]);
  }

  lemma EndThroughoutSnoc(ops: seq<Op>)
    requires ops != []
    ensures QueriesEndThroughout(ops) <==> QueriesEndThroughout(ops[..|ops| - 1]) && QueriesEnd(Run(ops))
  {
    var front := ops[..|ops| - 1];
    assert ops[..|ops|] == ops;
    forall k | 0 <= k <= |front| ensures QueriesEnd(Run(front[..k])) <==> QueriesEnd(Run(ops[..k])) {
      assert front[..k] == ops[..k];
    }
  }

  lemma NewGroupEnds()
    ensures Tidy(NEW_GROUP) && QueriesEnd(NEW_GROUP)
  {
    var none: LinkMap := map[];
    forall x ensures !Endless(none, x) {
      assert !Alive(none, x, 0);
    }
    assert NextLinks(map[]) == none && PrveLinks(map[]) == none;
  }

  /** In every run whatever, queries end at every moment exactly when each call was safe when made. */
  lemma {:induction false} RunEndsIff(ops: seq<Op>)
    ensures QueriesEndThroughout(ops) <==> SafeRun(ops)
    ensures SafeRun(ops) ==> Tidy(Run(ops)) && QueriesEnd(Run(ops))
  {
    if ops == [] {
      NewGroupEnds();
      assert ops[..0] == [];
    } else {
      var n := |ops| - 1;
      RunEndsIff(ops[..n]);
      SafeSnoc(ops);
      EndThroughoutSnoc(ops);
      RunSnoc(ops);
      if SafeRun(ops[..n]) {
        StepEndsIff(Run(ops[..n]), ops[n]);
        if SafeOp(Run(ops[..n]), ops[n]) {
          StepTidy(Run(ops[..n]), ops[n]);
        }
      }
    }
  }

  lemma ReflectsQueriesEnd(s: GroupState, r: Roster)
    requires Reflects(s, r)
    ensures QueriesEnd(s)
  {
    forall x ensures !Endless(NextLinks(s.members), x) && !Endless(PrveLinks(s.members), x) {
      EndsOrEndless(NextLinks(s.members), x);
      EndsOrEndless(PrveLinks(s.members), x);
      if x in s.members {
        ForwardWalk(s.members, r.ids, IndexOf(r.ids, x));
        BackwardWalk(s, r, IndexOf(r.ids, x));
      } else {
        NonMemberWalk(s.members, x);
        assert Trail(NextLinks(s.members), x, []) && Trail(PrveLinks(s.members), x, []);
      }
    }
  }

  /** In every careful run all queries end at every moment, so every call of it is safe. */
  lemma CarefulRunsAreSafe(ops: seq<Op>)
    requires CarefulRun(ops)
    ensures QueriesEndThroughout(ops) && SafeRun(ops)
  {
    forall k | 0 <= k <= |ops| ensures QueriesEnd(Run(ops[..k])) {
      CarefulPrefix(ops, k);
      RunReflects(ops[..k]);
      ReflectsQueriesEnd(Run(ops[..k]), RosterRun(ops[..k]));
    }
    RunEndsIff(ops);
  }

  // ---------- one addition, one query ----------

  /** TO a newly added id never ends exactly when TO the cached tail, with the tail's record as the
      cache has it, visits that id or stops on it. This holds in any state whatever. */
  lemma BackwardEndsIff(s: GroupState, m: Member, trail: seq<JID>)
    requires s.last.Some?
    requires Trail(PrveLinks(s.members[s.last.value.id := s.last.value]), s.last.value.id, trail)
    ensures Endless(PrveLinks(Add(s, m).members), m.id) <==>
            m.id in trail || PrveLinks(s.members[s.last.value.id := s.last.value])[trail[|trail| - 1]] == m.id
  {
    var tail := s.last.value.id;
    var back := PrveLinks(s.members[tail := s.last.value]);
    var after := PrveLinks(Add(s, m).members);
    assert after == back[m.id := tail];
    ReachesByTrail(back, tail, trail, m.id);
    if Reaches(back, tail, m.id) {
      var n: nat :| ReachesIn(back, tail, m.id, n);
      var way := WayTo(back, tail, m.id, n);
      Trapped(after, m.id, way);
    } else {
      TrailOutlived(back, tail, trail);
      AliveUnchanged(back, m.id, tail, tail, |trail|);
      assert !Alive(after, m.id, |trail| + 1);
    }
  }

  /** From a well-formed state, ADD leaves FROM the old tail ending exactly when the id is not empty. */
  lemma ForwardEndsIff(s: GroupState, r: Roster, m: Member)
    requires Reflects(s, r) && r.ids != []
    ensures Endless(NextLinks(Add(s, m).members), Tail(r.ids)) <==> m.id == ""
  {
    var after, tail := NextLinks(Add(s, m).members), Tail(r.ids);
    RecordAt(s, r, |r.ids| - 1);
    if m.id == "" {
      Trapped(after, tail, {tail, ""});
    } else {
      assert "" !in after;
      assert !Alive(after, tail, 2);
    }
  }
}
