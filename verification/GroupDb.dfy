/** mailbox_group.go's `groupdb` over the physical store. Every method is proved to do to the
    stored group what `GroupModel` says, and to leave all keys outside the group alone.
    The ghost argument `s` is the state that the store represents for the group. */
module GroupDb {
  import opened Types
  import opened Links
  import opened Codec
  import opened Keys
  import opened Ldb
  import opened GroupModel
  import opened GroupStore
  import opened GroupWalks

  class GroupDb {
    const ldb: LDBDatabase
    const codecs: Codecs
    const groupTab: Database
    const memberTab: Database

    constructor (ldb: LDBDatabase, codecs: Codecs)
      requires codecs.Valid()
      ensures this.ldb == ldb && this.codecs == codecs && Valid()
    {
      this.ldb, this.codecs := ldb, codecs;
      groupTab := Table(Root(ldb), GROUP_PREFIX);
      memberTab := Table(Root(ldb), MEMBER_PREFIX);
    }

    ghost predicate Valid() {
      && codecs.Valid()
      && groupTab == Table(Root(ldb), GROUP_PREFIX)
      && memberTab == Table(Root(ldb), MEMBER_PREFIX)
    }

    lemma Tables()
      requires Valid()
      ensures Physical(memberTab) == ldb && FullPrefix(memberTab) == MEMBER_PREFIX
      ensures Physical(groupTab) == ldb && FullPrefix(groupTab) == GROUP_PREFIX
    {
      assert Physical(Root(ldb)) == ldb && FullPrefix(Root(ldb)) == "";
    }

    ghost predicate Holds(gid: GID, s: GroupState)
      reads ldb
    {
      Represents(ldb.kv, codecs, gid, s)
    }

    // ---------- single keys ----------

    method StoreItem(gid: GID, item: MemberItem, ghost s: GroupState)
      requires Valid() && Holds(gid, s)
      modifies ldb
      ensures Holds(gid, s.(members := s.members[item.id := item])) && SameOutside(old(ldb.kv), ldb.kv, gid)
    {
      PutItem(ldb.kv, codecs, gid, s, item);
      Tables();
      Put(memberTab, MemberK(gid, item.id), codecs.item.encode(item));
    }

    method DropItem(gid: GID, id: JID, ghost s: GroupState)
      requires Valid() && Holds(gid, s)
      modifies ldb
      ensures Holds(gid, s.(members := s.members - {id})) && SameOutside(old(ldb.kv), ldb.kv, gid)
    {
      DeleteItem(ldb.kv, codecs, gid, s, id);
      Tables();
      Delete(memberTab, MemberK(gid, id));
    }

    method StoreLast(gid: GID, item: MemberItem, ghost s: GroupState)
      requires Valid() && Holds(gid, s)
      modifies ldb
      ensures Holds(gid, s.(last := Some(item))) && SameOutside(old(ldb.kv), ldb.kv, gid)
    {
      PutLast(ldb.kv, codecs, gid, s, item);
      Tables();
      Put(memberTab, MemberLastK(gid), codecs.item.encode(item));
    }

    method StoreLog(gid: GID, l: MemberLog, ghost s: GroupState)
      requires Valid() && Holds(gid, s)
      modifies ldb
      ensures Holds(gid, s.(logs := s.logs[l.id := l])) && SameOutside(old(ldb.kv), ldb.kv, gid)
    {
      PutLog(ldb.kv, codecs, gid, s, l);
      Tables();
      Put(memberTab, MemberLogK(gid, l.id), codecs.log.encode(l));
    }

    method StoreLastlog(gid: GID, l: MemberLog, ghost s: GroupState)
      requires Valid() && Holds(gid, s)
      modifies ldb
      ensures Holds(gid, s.(lastLog := Some(l))) && SameOutside(old(ldb.kv), ldb.kv, gid)
    {
      PutLastlog(ldb.kv, codecs, gid, s, l);
      Tables();
      Put(memberTab, MemberLastlogK(gid), codecs.log.encode(l));
    }

    method GetMember(gid: GID, id: JID, ghost s: GroupState) returns (item: Option<MemberItem>)
      requires Valid() && Holds(gid, s)
      ensures item == if id in s.members then Some(s.members[id]) else None
    {
      Tables();
      var buf := Get(memberTab, MemberK(gid, id));
      assert buf == Lookup(ldb.kv, ItemKey(gid, id));
      item := DecodeSome(codecs.item, buf);
    }

    method GetLast(gid: GID, ghost s: GroupState) returns (item: Option<MemberItem>)
      requires Valid() && Holds(gid, s)
      ensures item == s.last
    {
      Tables();
      var buf := Get(memberTab, MemberLastK(gid));
      item := DecodeSome(codecs.item, buf);
    }

    method GetLastlog(gid: GID, ghost s: GroupState) returns (l: Option<MemberLog>)
      requires Valid() && Holds(gid, s)
      ensures l == s.lastLog
    {
      Tables();
      var buf := Get(memberTab, MemberLastlogK(gid));
      l := DecodeSome(codecs.log, buf);
    }

    // ---------- handleMember ----------

    method LogAttempt(gid: GID, memberId: JID, action: string, logId: string, ghost s: GroupState)
      returns (memberLog: MemberLog)
      requires Valid() && Holds(gid, s)
      modifies ldb
      ensures memberLog == NewLog(s, action, memberId, logId)
      ensures Holds(gid, Attempt(s, action, memberId, logId)) && SameOutside(old(ldb.kv), ldb.kv, gid)
    {
      memberLog := MemberLog(logId, "", "", action, "", memberId);
      ghost var t := s;
      var lastLog := GetLastlog(gid, s);
      if lastLog.Some? {
        var l := lastLog.value.(next := logId);
        memberLog := memberLog.(prve := l.id);
        StoreLog(gid, l, t);
        t := t.(logs := t.logs[l.id := l]);
      }
      StoreLog(gid, memberLog, t);
    }

    method AddMember(m: Member, ghost s: GroupState)
      requires Valid() && Holds(m.gid, s)
      modifies ldb
      ensures Holds(m.gid, Add(s, m)) && SameOutside(old(ldb.kv), ldb.kv, m.gid)
    {
      var itm := MemberItem(m.id, "", "", m);
      ghost var t := s;
      var cached := GetLast(m.gid, s);
      if cached.Some? {
        var last := cached.value.(next := itm.id);
        itm := itm.(prve := last.id);
        StoreItem(m.gid, last, t);
        t := t.(members := t.members[last.id := last]);
      }
      StoreItem(m.gid, itm, t);
      StoreLast(m.gid, itm, t.(members := t.members[itm.id := itm]));
    }

    method SubMember(gid: GID, id: JID, ghost s: GroupState) returns (ok: bool)
      requires Valid() && Holds(gid, s)
      modifies ldb
      ensures ok == CanSub(s, id)
      ensures Holds(gid, if ok then Sub(s, id) else s) && SameOutside(old(ldb.kv), ldb.kv, gid)
    {
      var found := GetMember(gid, id, s);
      if found.None? { return false; }
      var itm := found.value;
      var prve := GetMember(gid, itm.prve, s);
      if prve.None? { return false; }
      var itmPrve := prve.value;
      var next := GetMember(gid, itm.next, s);
      ghost var t := s;
      if next.Some? {
        itmPrve := itmPrve.(next := next.value.id);
        var itmNext := next.value.(prve := itmPrve.id);
        StoreItem(gid, itmNext, t);
        t := t.(members := t.members[itmNext.id := itmNext]);
      } else {
        itmPrve := itmPrve.(next := "");
        StoreLast(gid, itmPrve, t);
        t := t.(last := Some(itmPrve));
      }
      StoreItem(gid, itmPrve, t);
      t := t.(members := t.members[itmPrve.id := itmPrve]);
      DropItem(gid, itm.id, t);
      ok := true;
    }

    /** Log the attempt, change the chain, and only then advance the cached last log. A refused
        removal and an unsupported action leave the attempt's log writes behind. */
    method HandleMember(m: Member, action: string, logId: string, ghost s: GroupState) returns (ok: bool)
      requires Valid() && Holds(m.gid, s)
      modifies ldb
      ensures ok == (action == "+"
                     || (action == "-" && m.id in s.members && s.members[m.id].prve in s.members))
      ensures Holds(m.gid, GroupModel.HandleMember(s, m, action, logId))
      ensures SameOutside(old(ldb.kv), ldb.kv, m.gid)
    {
      var lastMlog := LogAttempt(m.gid, m.id, action, logId, s);
      ghost var tried := Attempt(s, action, m.id, logId);
      if action == ADD {
        AddMember(m, tried);
        StoreLastlog(m.gid, lastMlog, Add(tried, m));
        ok := true;
      } else if action == SUB {
        ok := SubMember(m.gid, m.id, tried);
        if ok {
          StoreLastlog(m.gid, lastMlog, Sub(tried, m.id));
        }
      } else {
        ok := false;
      }
    }

    // ---------- group records ----------

    method SaveGroup(g: Group, logId: string, ghost s: GroupState)
      requires Valid() && Holds(g.id, s)
      modifies ldb
      ensures Holds(g.id, GroupModel.SaveGroup(s, g, logId))
      ensures SameOutside(old(ldb.kv), ldb.kv, g.id)
    {
      PutGroup(ldb.kv, codecs, g.id, s, g);
      Tables();
      Put(groupTab, g.id, codecs.group.encode(g));
      ghost var saved := s.(record := Some(g));
      var last := GetLast(g.id, saved);
      if last.None? {
        var ok := HandleMember(Creator(g), ADD, logId, saved);
      }
    }

    method GetGroup(gid: GID, ghost s: GroupState) returns (g: Option<Group>)
      requires Valid() && Holds(gid, s)
      ensures g == GroupModel.GetGroup(s)
    {
      Tables();
      var d := Get(groupTab, gid);
      g := DecodeSome(codecs.group, d);
      if g.Some? {
        var lastLog := GetLastlog(gid, s);
        if lastLog.Some? {
          g := Some(g.value.(lastlog := lastLog.value.id));
        }
      }
    }

    // ---------- queryMember ----------

    ghost function LinksFor(action: string, s: GroupState): LinkMap {
      if action == FROM then NextLinks(s.members) else PrveLinks(s.members)
    }

    /** The source's loop has no bound; `turns` is how many turns it is given. It is done within them
        exactly when the walk ends within them, and has then returned the members of exactly the ids the
        walk visits, in order. Any other action ends at once with nothing. */
    method QueryMember(gid: GID, action: string, start: JID, turns: nat, ghost s: GroupState)
      returns (gml: seq<Member>, done: bool, ghost trail: seq<JID>)
      requires Valid() && Holds(gid, s)
      ensures |gml| == |trail| <= turns
      ensures forall i :: 0 <= i < |trail| ==> trail[i] in s.members && gml[i] == s.members[trail[i]].member
      ensures !done ==> |gml| == turns
      ensures action == "f" ==> done == !Alive(NextLinks(s.members), start, turns)
      ensures action == "t" ==> done == !Alive(PrveLinks(s.members), start, turns)
      ensures action == "f" && done ==> Trail(NextLinks(s.members), start, trail)
      ensures action == "t" && done ==> Trail(PrveLinks(s.members), start, trail)
      ensures action != "f" && action != "t" ==> done && gml == []
    {
      gml, trail := [], [];
      var id := start;
      if action != FROM && action != TO { return [], true, []; }
      ghost var links := LinksFor(action, s);
      while |gml| < turns
        invariant |gml| == |trail| <= turns
        invariant forall i :: 0 <= i < |trail| ==> trail[i] in s.members && gml[i] == s.members[trail[i]].member
        invariant OnTheWay(links, start, trail, id)
        invariant Alive(links, start, turns) == Alive(links, id, turns - |gml|)
        decreases turns - |gml|
      {
        var m := GetMember(gid, id, s);
        LinkAt(action, s, id);
        if m.None? { break; }
        TakeTurn(links, start, trail, id);
        trail := trail + [id];
        gml := gml + [m.value.member];
        id := if action == FROM then m.value.next else m.value.prve;
      }
      var m := GetMember(gid, id, s);
      LinkAt(action, s, id);
      done := m.None?;
    }

    lemma LinkAt(action: string, s: GroupState, id: JID)
      ensures id in LinksFor(action, s) <==> id in s.members
      ensures id in s.members ==>
                LinksFor(action, s)[id] == if action == FROM then s.members[id].next else s.members[id].prve
    {
    }
  }

  // The walk has visited `trail` and stands at `id`.
  ghost predicate OnTheWay(links: LinkMap, start: string, trail: seq<string>, id: string) {
    if trail == [] then id == start
    else
      && trail[0] == start
      && (forall i :: 0 <= i < |trail| ==> trail[i] in links)
      && (forall i :: 0 < i < |trail| ==> Hop(links, trail, i))
      && links[trail[|trail| - 1]] == id
  }

  lemma TakeTurn(links: LinkMap, start: string, trail: seq<string>, id: string)
    requires OnTheWay(links, start, trail, id) && id in links
    ensures OnTheWay(links, start, trail + [id], links[id])
  {
    var trail' := trail + [id];
    forall i | 0 < i < |trail'| ensures Hop(links, trail', i) {
      if i < |trail| {
        assert Hop(links, trail, i);
      }
    }
  }
}
