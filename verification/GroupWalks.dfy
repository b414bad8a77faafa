/** What `queryMember` returns. FROM follows `Next`, TO follows `Prve`; both are link walks. */
module GroupWalks {
  import opened Types
  import opened Links
  import opened GroupModel
  import opened Roster

  function NextLinks(members: map<JID, MemberItem>): LinkMap {
    map x | x in members :: members[x].next
  }

  function PrveLinks(members: map<JID, MemberItem>): LinkMap {
    map x | x in members :: members[x].prve
  }

  // The position a backward walk from `i` stops at: the nearest dangling link, or the head.
  function Anchor(r: Roster, i: int): (j: int)
    requires 0 <= i < |r.ids|
    ensures 0 <= j <= i
    ensures j == 0 || r.ids[j] in r.broken
    ensures forall k :: j < k <= i ==> r.ids[k] !in r.broken
  {
    if i == 0 || r.ids[i] in r.broken then i else Anchor(r, i - 1)
  }

  /** FROM a member gives the members from it to the end of the chain, in order. */
  lemma ForwardWalk(members: map<JID, MemberItem>, ids: seq<JID>, i: int)
    requires Forward(members, ids) && 0 <= i < |ids|
    ensures Trail(NextLinks(members), ids[i], ids[i..])
  {
    var trail := ids[i..];
    var links := NextLinks(members);
    forall k | 0 < k < |trail| ensures Hop(links, trail, k) {
      assert Succ(ids, i + k - 1) == ids[i + k];
    }
    assert Succ(ids, |ids| - 1) == "";
  }

  /** TO a member gives the members back to the nearest dangling link, newest first; with no
      dangling link that is the whole reversed prefix. */
  lemma {:induction false} BackwardWalk(s: GroupState, r: Roster, i: int)
    requires Reflects(s, r) && 0 <= i < |r.ids|
    ensures Trail(PrveLinks(s.members), r.ids[i], Reverse(r.ids[Anchor(r, i)..i + 1]))
  {
    var j := Anchor(r, i);
    var links := PrveLinks(s.members);
    RecordAt(s, r, j);
    forall k | j < k <= i ensures HopBack(links, r.ids, k) {
      RecordAt(s, r, k);
    }
    TrailBack(links, r.ids, j, i);
  }

  /** A start that is no member gives the empty list, in either direction. */
  lemma NonMemberWalk(members: map<JID, MemberItem>, x: JID)
    requires x !in members
    ensures forall t :: Trail(NextLinks(members), x, t) <==> t == []
    ensures forall t :: Trail(PrveLinks(members), x, t) <==> t == []
  {
  }

  /** On a chain without dangling links, the two walks from any member rebuild the whole chain. */
  lemma WalksRebuild(s: GroupState, r: Roster, x: JID, back: seq<JID>, on: seq<JID>)
    requires Reflects(s, r) && r.broken == {} && x in s.members
    requires Trail(PrveLinks(s.members), x, back) && Trail(NextLinks(s.members), x, on)
    ensures back != [] && Reverse(back[1..]) + on == r.ids
  {
    var i := IndexOf(r.ids, x);
    assert on == r.ids[i..] by {
      ForwardWalk(s.members, r.ids, i);
      TrailUnique(NextLinks(s.members), x, on, r.ids[i..]);
    }
    assert back == Reverse(r.ids[0..i + 1]) by {
      BackwardWalk(s, r, i);
      TrailUnique(PrveLinks(s.members), x, back, Reverse(r.ids[0..i + 1]));
    }
    RebuildSeq(r.ids, i);
  }

  lemma RebuildSeq(ids: seq<JID>, i: int)
    requires 0 <= i < |ids|
    ensures Reverse(ids[0..i + 1]) != [] && Reverse(Reverse(ids[0..i + 1])[1..]) + ids[i..] == ids
  {
    assert ids[0..i + 1][..i] == ids[..i];
    assert Reverse(ids[0..i + 1])[1..] == Reverse(ids[..i]);
    ReverseInvolutive(ids[..i]);
  }

  // ---------- additions over a stale cached tail ----------

  /** ADD over a stale cached tail keeps the forward walk complete, while the backward walk from
      the new member ends after the old tail, or, when the new id is the removed predecessor
      that the cached tail still names, never ends. */
  lemma StaleAddWalks(s: GroupState, r: Roster, m: Member)
    requires Reflects(s, r) && r.stale && m.id != "" && m.id !in s.members
    ensures var after := Add(s, m).members;
            && Trail(NextLinks(after), r.ids[0], r.ids + [m.id])
            && (m.id != s.last.value.prve ==> Trail(PrveLinks(after), m.id, [m.id, Tail(r.ids)]))
            && (m.id == s.last.value.prve ==> Endless(PrveLinks(after), m.id))
  {
    StaleAddForward(s, r, m);
    RecordAt(s, r, |r.ids| - 1);
    StaleAddBackward(Add(s, m).members, m.id, Tail(r.ids), s.last.value.prve);
  }

  lemma StaleAddForward(s: GroupState, r: Roster, m: Member)
    requires Reflects(s, r) && r.stale && m.id != "" && m.id !in s.members
    ensures Trail(NextLinks(Add(s, m).members), r.ids[0], r.ids + [m.id])
  {
    AddForward(s, r, m);
    ForwardWalk(Add(s, m).members, r.ids + [m.id], 0);
    assert (r.ids + [m.id])[0..] == r.ids + [m.id];
  }

  lemma StaleAddBackward(after: map<JID, MemberItem>, x: JID, tail: JID, dangling: JID)
    requires x in after && after[x].prve == tail
    requires tail in after && after[tail].prve == dangling
    requires dangling in after <==> dangling == x
    ensures dangling != x ==> Trail(PrveLinks(after), x, [x, tail])
    ensures dangling == x ==> Endless(PrveLinks(after), x)
  {
    var links := PrveLinks(after);
    if x == dangling {
      Trapped(links, x, {x, tail});
    } else {
      assert Hop(links, [x, tail], 1);
    }
  }

  /** ADD of any id extends the forward walk by that id exactly when the id is non-empty and absent. */
  lemma AddExtendsWalkIff(s: GroupState, r: Roster, m: Member)
    requires Reflects(s, r) && r.ids != []
    ensures Trail(NextLinks(Add(s, m).members), r.ids[0], r.ids + [m.id]) <==>
            m.id != "" && m.id !in s.members
  {
    var after := Add(s, m).members;
    var ids := r.ids + [m.id];
    if m.id != "" && m.id !in s.members {
      AddForward(s, r, m);
      ForwardWalk(after, ids, 0);
      assert ids[0..] == ids;
    } else {
      RecordAt(s, r, |r.ids| - 1);
      BadAddWalk(after, r.ids, m.id);
    }
  }

  lemma BadAddWalk(after: map<JID, MemberItem>, ids: seq<JID>, x: JID)
    requires x in after && after[x].next == "" && ids != []
    requires x == "" || (x in ids && "" !in after)
    ensures !Trail(NextLinks(after), ids[0], ids + [x])
  {
    var trail := ids + [x];
    assert trail[|trail| - 1] == x;
    if x in ids {
      var k := IndexOf(ids, x);
      assert Hop(NextLinks(after), trail, k + 1) ==> trail[k + 1] == "";
      assert trail[k + 1] in NextLinks(after) ==> trail[k + 1] in after;
    }
  }
}
