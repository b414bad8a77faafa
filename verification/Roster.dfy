/** A simple reference machine for the member chain. It keeps the ids in order, the ids whose
    stored predecessor dangles, and whether the cached tail is out of date. `Reflects` ties a
    stored group to it, and the lemmas show that every member action keeps them in step. */
module Roster {
  import opened Types
  import opened GroupModel

  datatype Roster = Roster(ids: seq<JID>, broken: set<JID>, stale: bool)

  const EMPTY := Roster([], {}, false)

  ghost predicate NoRepeats(ids: seq<string>) {
    forall i, j :: 0 <= i < j < |ids| ==> ids[i] != ids[j]
  }

  function Pred(ids: seq<JID>, i: int): JID
    requires 0 <= i < |ids|
  {
    if i == 0 then "" else ids[i - 1]
  }

  function Succ(ids: seq<JID>, i: int): JID
    requires 0 <= i < |ids|
  {
    if i == |ids| - 1 then "" else ids[i + 1]
  }

  function Tail(ids: seq<JID>): JID
    requires ids != []
  {
    ids[|ids| - 1]
  }

  function Without(ids: seq<JID>, i: int): seq<JID>
    requires 0 <= i < |ids|
  {
    ids[..i] + ids[i + 1..]
  }

  function Append(r: Roster, x: JID): Roster {
    Roster(r.ids + [x], if r.stale && r.ids != [] then r.broken + {Tail(r.ids)} else r.broken, false)
  }

  predicate CanRemove(r: Roster, x: JID) {
    x in r.ids && x != r.ids[0] && x !in r.broken
  }

  // Removing the tail refreshes the cached tail, removing its predecessor makes it stale, and
  // any removal before the tail mends the dangling link of the id that follows.
  function Remove(r: Roster, x: JID): Roster
    requires CanRemove(r, x)
  {
    var i := IndexOf(r.ids, x);
    if i == |r.ids| - 1 then Roster(r.ids[..i], r.broken, false)
    else Roster(Without(r.ids, i), r.broken - {r.ids[i + 1]}, r.stale || i == |r.ids| - 2)
  }

  // ---------- the relation between a stored group and a roster ----------

  ghost predicate Forward(members: map<JID, MemberItem>, ids: seq<JID>) {
    && NoRepeats(ids)
    && "" !in ids
    && (forall x :: x in members <==> x in ids)
    && (forall i :: 0 <= i < |ids| ==> members[ids[i]].id == ids[i])
    && (forall i {:trigger Succ(ids, i)} :: 0 <= i < |ids| ==> members[ids[i]].next == Succ(ids, i))
  }

  ghost predicate Backward(members: map<JID, MemberItem>, ids: seq<JID>, broken: set<JID>)
    requires forall x :: x in members <==> x in ids
  {
    forall i {:trigger Pred(ids, i)} :: 0 <= i < |ids| ==>
      if ids[i] in broken then i > 0 && members[ids[i]].prve !in ids && members[ids[i]].prve != ""
      else members[ids[i]].prve == Pred(ids, i)
  }

  ghost predicate Cached(s: GroupState, r: Roster)
    requires forall x :: x in s.members <==> x in r.ids
  {
    if r.ids == [] then s.last.None? && !r.stale
    else
      && s.last.Some?
      && (if r.stale then
            && |r.ids| > 1
            && Tail(r.ids) !in r.broken
            && s.last.value.prve !in r.ids && s.last.value.prve != ""
            && s.last.value == s.members[Tail(r.ids)].(prve := s.last.value.prve)
          else s.last.value == s.members[Tail(r.ids)])
  }

  ghost predicate Reflects(s: GroupState, r: Roster) {
    && Forward(s.members, r.ids)
    && (forall x :: x in r.broken ==> x in r.ids)
    && Backward(s.members, r.ids, r.broken)
    && Cached(s, r)
  }

  // What Reflects says of the record at one position.
  lemma RecordAt(s: GroupState, r: Roster, i: int)
    requires Reflects(s, r) && 0 <= i < |r.ids|
    ensures r.ids[i] in s.members
    ensures s.members[r.ids[i]].id == r.ids[i]
    ensures s.members[r.ids[i]].next == Succ(r.ids, i)
    ensures r.ids[i] !in r.broken ==> s.members[r.ids[i]].prve == Pred(r.ids, i)
    ensures r.ids[i] in r.broken ==>
              i > 0 && s.members[r.ids[i]].prve !in s.members && s.members[r.ids[i]].prve != ""
  {
    assert Pred(r.ids, i) == Pred(r.ids, i);
  }

  // ---------- additions ----------

  // The id is new to the group and no link, stored or cached, still names it.
  ghost predicate CarefulAdd(s: GroupState, x: JID) {
    && x != ""
    && x !in s.members
    && (forall y :: y in s.members ==> s.members[y].prve != x)
    && (s.last.Some? ==> s.last.value.prve != x)
  }

  lemma AddForward(s: GroupState, r: Roster, m: Member)
    requires Reflects(s, r) && m.id != "" && m.id !in s.members
    ensures Forward(Add(s, m).members, r.ids + [m.id])
  {
    var ids := r.ids + [m.id];
    var members := Add(s, m).members;
    forall i | 0 <= i < |ids| ensures members[ids[i]].next == Succ(ids, i) {
      if i < |r.ids| - 1 {
        RecordAt(s, r, i);
        assert r.ids[i] != Tail(r.ids);
      }
    }
  }

  lemma AddBackward(s: GroupState, r: Roster, m: Member)
    requires Reflects(s, r) && CarefulAdd(s, m.id)
    requires forall x :: x in Add(s, m).members <==> x in Append(r, m.id).ids
    ensures Backward(Add(s, m).members, Append(r, m.id).ids, Append(r, m.id).broken)
  {
    var r' := Append(r, m.id);
    var members := Add(s, m).members;
    forall i | 0 <= i < |r'.ids|
      ensures if r'.ids[i] in r'.broken
              then i > 0 && members[r'.ids[i]].prve !in r'.ids && members[r'.ids[i]].prve != ""
              else members[r'.ids[i]].prve == Pred(r'.ids, i)
    {
      if i < |r.ids| {
        RecordAt(s, r, i);
        assert Pred(r'.ids, i) == Pred(r.ids, i);
        assert i < |r.ids| - 1 ==> r.ids[i] != Tail(r.ids);
      } else {
        assert m.id !in r'.broken;
      }
    }
  }

  lemma AddReflects(s: GroupState, r: Roster, m: Member)
    requires Reflects(s, r) && CarefulAdd(s, m.id)
    ensures Reflects(Add(s, m), Append(r, m.id))
  {
    AddForward(s, r, m);
    AddBackward(s, r, m);
  }

  // ---------- removals ----------

  lemma WithoutIndex(ids: seq<JID>, i: int, j: int)
    requires 0 <= i < |ids| && 0 <= j < |ids| - 1
    ensures |Without(ids, i)| == |ids| - 1
    ensures Without(ids, i)[j] == if j < i then ids[j] else ids[j + 1]
  {
  }

  lemma WithoutContains(ids: seq<JID>, i: int)
    requires 0 <= i < |ids| && NoRepeats(ids)
    ensures NoRepeats(Without(ids, i))
    ensures forall x :: x in Without(ids, i) <==> x in ids && x != ids[i]
  {
  }

  lemma WithoutNeighbours(ids: seq<JID>, i: int, j: int)
    requires 0 < i < |ids| && 0 <= j < |ids| - 1
    ensures |Without(ids, i)| == |ids| - 1
    ensures Succ(Without(ids, i), j) ==
            if j == i - 1 then Succ(ids, i) else Succ(ids, if j < i then j else j + 1)
    ensures Pred(Without(ids, i), j) ==
            if j == i then ids[i - 1] else Pred(ids, if j < i then j else j + 1)
  {
  }

  // Which removals the store accepts is exactly which the roster accepts.
  lemma CanSubMatches(s: GroupState, r: Roster, x: JID)
    requires Reflects(s, r)
    ensures CanSub(s, x) <==> CanRemove(r, x)
  {
    if x in r.ids {
      var i := IndexOf(r.ids, x);
      RecordAt(s, r, i);
      assert i > 0 ==> r.ids[i] != r.ids[0];
      assert i > 0 ==> r.ids[i - 1] in s.members;
    }
  }

  // A removal in terms of the three ids involved, when each record lies under its own id.
  lemma SubUnfolds(s: GroupState, y: JID, p: JID, n: JID)
    requires y in s.members && s.members[y] == MemberItem(y, p, n, s.members[y].member)
    requires p in s.members && s.members[p].id == p
    requires n in s.members ==> s.members[n].id == n
    ensures CanSub(s, y)
    ensures var m, joined := s.members, s.members[p].(next := if n in s.members then n else "");
            && Sub(s, y).members == (if n in m then m[n := m[n].(prve := p)] else m)[p := joined] - {y}
            && Sub(s, y).last == if n in m then s.last else Some(joined)
  {
  }

  // The records after a removal: the neighbours are relinked and nothing else moves.
  lemma SubRecords(s: GroupState, r: Roster, i: int)
    requires Reflects(s, r) && 0 < i < |r.ids| && r.ids[i] !in r.broken
    ensures CanSub(s, r.ids[i])
    ensures var after := Sub(s, r.ids[i]);
            && (forall x :: x in after.members <==> x in s.members && x != r.ids[i])
            && after.members[r.ids[i - 1]] == s.members[r.ids[i - 1]].(next := Succ(r.ids, i))
            && (i < |r.ids| - 1 ==>
                  && after.members[r.ids[i + 1]] == s.members[r.ids[i + 1]].(prve := r.ids[i - 1])
                  && after.last == s.last)
            && (i == |r.ids| - 1 ==> after.last == Some(after.members[r.ids[i - 1]]))
            && (forall j :: 0 <= j < |r.ids| && (j < i - 1 || i + 1 < j) ==>
                  after.members[r.ids[j]] == s.members[r.ids[j]])
  {
    RecordAt(s, r, i);
    RecordAt(s, r, i - 1);
    if i < |r.ids| - 1 {
      RecordAt(s, r, i + 1);
    }
    SubUnfolds(s, r.ids[i], r.ids[i - 1], Succ(r.ids, i));
  }

  lemma SubForward(s: GroupState, r: Roster, i: int)
    requires Reflects(s, r) && 0 < i < |r.ids| && r.ids[i] !in r.broken
    requires CanSub(s, r.ids[i])
    ensures Forward(Sub(s, r.ids[i]).members, Without(r.ids, i))
  {
    var ids := Without(r.ids, i);
    var members := Sub(s, r.ids[i]).members;
    SubRecords(s, r, i);
    WithoutContains(r.ids, i);
    forall j | 0 <= j < |ids| ensures members[ids[j]].id == ids[j] && members[ids[j]].next == Succ(ids, j) {
      RecordAt(s, r, if j < i then j else j + 1);
      WithoutIndex(r.ids, i, j);
      WithoutNeighbours(r.ids, i, j);
    }
  }

  lemma SubBackward(s: GroupState, r: Roster, i: int)
    requires Reflects(s, r) && 0 < i < |r.ids| && r.ids[i] !in r.broken
    requires CanSub(s, r.ids[i])
    requires forall x :: x in Sub(s, r.ids[i]).members <==> x in Without(r.ids, i)
    ensures Backward(Sub(s, r.ids[i]).members, Without(r.ids, i),
                     if i < |r.ids| - 1 then r.broken - {r.ids[i + 1]} else r.broken)
  {
    var ids := Without(r.ids, i);
    var members := Sub(s, r.ids[i]).members;
    var broken := if i < |r.ids| - 1 then r.broken - {r.ids[i + 1]} else r.broken;
    SubRecords(s, r, i);
    WithoutContains(r.ids, i);
    forall j | 0 <= j < |ids|
      ensures if ids[j] in broken then j > 0 && members[ids[j]].prve !in ids && members[ids[j]].prve != ""
              else members[ids[j]].prve == Pred(ids, j)
    {
      WithoutIndex(r.ids, i, j);
      WithoutNeighbours(r.ids, i, j);
      var k := if j < i then j else j + 1;
      RecordAt(s, r, k);
      if j != i {
        assert i < |r.ids| - 1 ==> r.ids[k] != r.ids[i + 1];
        assert members[ids[j]].prve == s.members[r.ids[k]].prve;
      }
    }
  }

  lemma SubTailCached(s: GroupState, r: Roster)
    requires Reflects(s, r) && |r.ids| > 1 && Tail(r.ids) !in r.broken
    requires CanSub(s, Tail(r.ids))
    requires forall x :: x in Sub(s, Tail(r.ids)).members <==> x in Without(r.ids, |r.ids| - 1)
    ensures Cached(Sub(s, Tail(r.ids)), Roster(Without(r.ids, |r.ids| - 1), r.broken, false))
  {
    SubRecords(s, r, |r.ids| - 1);
    assert Without(r.ids, |r.ids| - 1) == r.ids[..|r.ids| - 1];
  }

  lemma SubInnerCached(s: GroupState, r: Roster, i: int)
    requires Reflects(s, r) && 0 < i < |r.ids| - 1 && r.ids[i] !in r.broken
    requires CanSub(s, r.ids[i])
    requires forall x :: x in Sub(s, r.ids[i]).members <==> x in Without(r.ids, i)
    ensures Cached(Sub(s, r.ids[i]),
                   Roster(Without(r.ids, i), r.broken - {r.ids[i + 1]}, r.stale || i == |r.ids| - 2))
  {
    SubRecords(s, r, i);
    WithoutContains(r.ids, i);
    WithoutIndex(r.ids, i, |r.ids| - 2);
    RecordAt(s, r, |r.ids| - 1);
    assert Tail(Without(r.ids, i)) == Tail(r.ids);
  }

  lemma SubReflects(s: GroupState, r: Roster, x: JID)
    requires Reflects(s, r) && CanRemove(r, x)
    ensures CanSub(s, x) && Reflects(Sub(s, x), Remove(r, x))
  {
    CanSubMatches(s, r, x);
    var i := IndexOf(r.ids, x);
    assert i > 0;
    SubForward(s, r, i);
    SubBackward(s, r, i);
    WithoutContains(r.ids, i);
    if i == |r.ids| - 1 {
      assert Without(r.ids, i) == r.ids[..i];
      SubTailCached(s, r);
    } else {
      SubInnerCached(s, r, i);
    }
  }
}
