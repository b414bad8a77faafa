/** The careful condition is exact: ADD keeps the chain well formed if and only if it is careful. */
module GroupExact {
  import opened Types
  import opened GroupModel
  import opened Roster

  // A stored member without successor is the tail.
  lemma EndIsTail(s: GroupState, r: Roster, x: JID)
    requires Reflects(s, r) && x in s.members && s.members[x].next == ""
    ensures x != "" && r.ids != [] && x == Tail(r.ids)
  {
    var i := IndexOf(r.ids, x);
    RecordAt(s, r, i);
  }

  lemma NobodyFollowsTail(s: GroupState, r: Roster, y: JID)
    requires Reflects(s, r) && y in s.members
    ensures s.members[y].prve != Tail(r.ids)
  {
    var i := IndexOf(r.ids, y);
    RecordAt(s, r, i);
    assert Tail(r.ids) in s.members;
  }

  lemma NextIsUnique(s: GroupState, r: Roster, y: JID, z: JID)
    requires Reflects(s, r) && y in s.members && z in s.members
    requires s.members[y].next == s.members[z].next != ""
    ensures y == z
  {
    var i, j := IndexOf(r.ids, y), IndexOf(r.ids, z);
    RecordAt(s, r, i);
    RecordAt(s, r, j);
    assert r.ids[i + 1] == r.ids[j + 1];
  }

  // Adding a present id: the tail's own, the head's, or one in between.
  lemma PresentAddBreaks(s: GroupState, r: Roster, m: Member, r': Roster)
    requires Reflects(s, r) && m.id in s.members
    ensures !Reflects(Add(s, m), r')
  {
    var i, n := IndexOf(r.ids, m.id), |r.ids| - 1;
    var s' := Add(s, m);
    RecordAt(s, r, n);
    assert s'.members[m.id].next == "" && s'.members[m.id].prve == Tail(r.ids);
    if Reflects(s', r') {
      EndIsTail(s', r', m.id);
      if i == n {
        NobodyFollowsTail(s', r', m.id);
      } else if i == 0 {
        HeadHasNoPrve(s', r');
        NoPrveLeft(s, r, m, r'.ids[0]);
      } else {
        TwoLeadToInner(s, r, m, i);
        NextIsUnique(s', r', r.ids[i - 1], Tail(r.ids));
      }
    }
  }

  lemma TwoLeadToInner(s: GroupState, r: Roster, m: Member, i: int)
    requires Reflects(s, r) && 0 < i < |r.ids| - 1 && m.id == r.ids[i]
    ensures r.ids[i - 1] != Tail(r.ids) && m.id != ""
    ensures var after := Add(s, m).members;
            && r.ids[i - 1] in after && after[r.ids[i - 1]].next == m.id
            && Tail(r.ids) in after && after[Tail(r.ids)].next == m.id
  {
    RecordAt(s, r, i - 1);
    RecordAt(s, r, |r.ids| - 1);
  }

  lemma HeadHasNoPrve(s: GroupState, r: Roster)
    requires Reflects(s, r) && r.ids != []
    ensures r.ids[0] in s.members && s.members[r.ids[0]].prve == ""
  {
    RecordAt(s, r, 0);
  }

  // Re-adding the head leaves no member with an empty `Prve`.
  lemma NoPrveLeft(s: GroupState, r: Roster, m: Member, y: JID)
    requires Reflects(s, r) && |r.ids| > 1 && m.id == r.ids[0]
    requires y in Add(s, m).members
    ensures Add(s, m).members[y].prve != ""
  {
    var i := IndexOf(r.ids, y);
    RecordAt(s, r, i);
    RecordAt(s, r, |r.ids| - 1);
  }

  // Adding an absent id that a dangling link still names.
  lemma NamedAddBreaks(s: GroupState, r: Roster, m: Member, r': Roster, y: JID)
    requires Reflects(s, r) && m.id != "" && m.id !in s.members && r.ids != []
    requires y in s.members
    requires s.members[y].prve == m.id || (s.last.value.prve == m.id && y == Tail(r.ids))
    ensures !Reflects(Add(s, m), r')
  {
    var s' := Add(s, m);
    var i := IndexOf(r.ids, y);
    RecordAt(s, r, i);
    RecordAt(s, r, |r.ids| - 1);
    assert i > 0 ==> r.ids[i - 1] in s.members;
    assert s'.members[y].prve == m.id;
    if Reflects(s', r') {
      EndIsTail(s', r', m.id);
      NobodyFollowsTail(s', r', y);
    }
  }

  /** From a well-formed state, ADD leads to a well-formed state exactly when the id is non-empty,
      absent, and named by no stored or cached `Prve` link. */
  lemma CarefulExactly(s: GroupState, r: Roster, m: Member)
    requires Reflects(s, r)
    ensures CarefulAdd(s, m.id) <==> exists r' :: Reflects(Add(s, m), r')
  {
    if CarefulAdd(s, m.id) {
      AddReflects(s, r, m);
    } else {
      forall r' ensures !Reflects(Add(s, m), r') {
        CarelessBreaks(s, r, m, r');
      }
    }
  }

  lemma CarelessBreaks(s: GroupState, r: Roster, m: Member, r': Roster)
    requires Reflects(s, r) && !CarefulAdd(s, m.id)
    ensures !Reflects(Add(s, m), r')
  {
    if m.id == "" {
      assert m.id in Add(s, m).members;
    } else if m.id in s.members {
      PresentAddBreaks(s, r, m, r');
    } else if y :| y in s.members && s.members[y].prve == m.id {
      NamedAddBreaks(s, r, m, r', y);
    } else {
      NamedAddBreaks(s, r, m, r', Tail(r.ids));
    }
  }
}
