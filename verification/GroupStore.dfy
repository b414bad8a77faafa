/** How a group's state lies in the physical store, and what single writes do to it. */
module GroupStore {
  import opened Types
  import opened Codec
  import opened Keys
  import opened Ldb
  import opened GroupModel

  ghost predicate ShowsItems(kv: Store, c: Codecs, gid: GID, members: map<JID, MemberItem>) {
    forall id {:trigger ItemKey(gid, id)} ::
      Lookup(kv, ItemKey(gid, id)) == if id in members then Some(c.item.encode(members[id])) else None
  }

  ghost predicate ShowsLogs(kv: Store, c: Codecs, gid: GID, logs: map<string, MemberLog>) {
    forall id {:trigger LogKey(gid, id)} ::
      Lookup(kv, LogKey(gid, id)) == if id in logs then Some(c.log.encode(logs[id])) else None
  }

  ghost predicate Represents(kv: Store, c: Codecs, gid: GID, s: GroupState) {
    && Lookup(kv, GroupKey(gid)) == EncodeSome(c.group, s.record)
    && ShowsItems(kv, c, gid, s.members)
    && Lookup(kv, LastKey(gid)) == EncodeSome(c.item, s.last)
    && ShowsLogs(kv, c, gid, s.logs)
    && Lookup(kv, LastlogKey(gid)) == EncodeSome(c.log, s.lastLog)
  }

  // Nothing outside the group's own keys differs.
  ghost predicate SameOutside(kv: Store, kv': Store, gid: GID) {
    forall k {:trigger Owned(gid, k)} :: !Owned(gid, k) ==> Lookup(kv', k) == Lookup(kv, k)
  }

  lemma KeysOfOneGroup(gid: GID)
    ensures forall x, y {:trigger ItemKey(gid, x), ItemKey(gid, y)} :: ItemKey(gid, x) == ItemKey(gid, y) ==> x == y
    ensures forall x, y {:trigger LogKey(gid, x), LogKey(gid, y)} :: LogKey(gid, x) == LogKey(gid, y) ==> x == y
    ensures forall x, y {:trigger ItemKey(gid, x), LogKey(gid, y)} :: ItemKey(gid, x) != LogKey(gid, y)
    ensures forall x {:trigger ItemKey(gid, x)} ::
              ItemKey(gid, x) != LastKey(gid) && ItemKey(gid, x) != LastlogKey(gid) && ItemKey(gid, x) != GroupKey(gid)
    ensures forall x {:trigger LogKey(gid, x)} ::
              LogKey(gid, x) != LastKey(gid) && LogKey(gid, x) != LastlogKey(gid) && LogKey(gid, x) != GroupKey(gid)
    ensures LastKey(gid) != LastlogKey(gid) && LastKey(gid) != GroupKey(gid) && LastlogKey(gid) != GroupKey(gid)
  {
    forall x, y
      ensures ItemKey(gid, x) == ItemKey(gid, y) ==> x == y
      ensures LogKey(gid, x) == LogKey(gid, y) ==> x == y
    {
      ItemKeyInjective(gid, x, y);
    }
    forall x, y
      ensures ItemKey(gid, x) != LogKey(gid, y)
      ensures ItemKey(gid, x) !in {LastKey(gid), LastlogKey(gid), GroupKey(gid)}
      ensures LogKey(gid, x) !in {LastKey(gid), LastlogKey(gid), GroupKey(gid)}
    {
      FamiliesApart(gid, x, y);
    }
    FamiliesApart(gid, "", "");
  }

  /** A store represents at most one state of a group. */
  lemma RepresentsOne(kv: Store, c: Codecs, gid: GID, s: GroupState, t: GroupState)
    requires c.Valid() && Represents(kv, c, gid, s) && Represents(kv, c, gid, t)
    ensures s == t
  {
    forall id
      ensures id in s.members <==> id in t.members
      ensures id in s.members ==> s.members[id] == t.members[id]
    {
      assert Lookup(kv, ItemKey(gid, id)) == Lookup(kv, ItemKey(gid, id));
    }
    forall id
      ensures id in s.logs <==> id in t.logs
      ensures id in s.logs ==> s.logs[id] == t.logs[id]
    {
      assert Lookup(kv, LogKey(gid, id)) == Lookup(kv, LogKey(gid, id));
    }
    assert DecodeSome(c.group, EncodeSome(c.group, s.record)) == s.record;
    assert DecodeSome(c.group, EncodeSome(c.group, t.record)) == t.record;
    assert DecodeSome(c.item, EncodeSome(c.item, s.last)) == s.last;
    assert DecodeSome(c.item, EncodeSome(c.item, t.last)) == t.last;
    assert DecodeSome(c.log, EncodeSome(c.log, s.lastLog)) == s.lastLog;
    assert DecodeSome(c.log, EncodeSome(c.log, t.lastLog)) == t.lastLog;
    assert s.members == t.members && s.logs == t.logs;
  }

  // ---------- single writes ----------

  lemma PutGroup(kv: Store, c: Codecs, gid: GID, s: GroupState, g: Group)
    requires Represents(kv, c, gid, s)
    ensures Represents(kv[GroupKey(gid) := c.group.encode(g)], c, gid, s.(record := Some(g)))
    ensures SameOutside(kv, kv[GroupKey(gid) := c.group.encode(g)], gid)
  {
  }

  lemma PutItem(kv: Store, c: Codecs, gid: GID, s: GroupState, item: MemberItem)
    requires Represents(kv, c, gid, s)
    ensures Represents(kv[ItemKey(gid, item.id) := c.item.encode(item)], c, gid,
                       s.(members := s.members[item.id := item]))
    ensures SameOutside(kv, kv[ItemKey(gid, item.id) := c.item.encode(item)], gid)
  {
    KeysOfOneGroup(gid);
    OwnsItsKeys(gid, item.id);
  }

  lemma DeleteItem(kv: Store, c: Codecs, gid: GID, s: GroupState, id: JID)
    requires Represents(kv, c, gid, s)
    ensures Represents(kv - {ItemKey(gid, id)}, c, gid, s.(members := s.members - {id}))
    ensures SameOutside(kv, kv - {ItemKey(gid, id)}, gid)
  {
    KeysOfOneGroup(gid);
    OwnsItsKeys(gid, id);
  }

  lemma PutLast(kv: Store, c: Codecs, gid: GID, s: GroupState, item: MemberItem)
    requires Represents(kv, c, gid, s)
    ensures Represents(kv[LastKey(gid) := c.item.encode(item)], c, gid, s.(last := Some(item)))
    ensures SameOutside(kv, kv[LastKey(gid) := c.item.encode(item)], gid)
  {
    KeysOfOneGroup(gid);
    OwnsItsKeys(gid, "");
  }

  lemma PutLog(kv: Store, c: Codecs, gid: GID, s: GroupState, l: MemberLog)
    requires Represents(kv, c, gid, s)
    ensures Represents(kv[LogKey(gid, l.id) := c.log.encode(l)], c, gid, s.(logs := s.logs[l.id := l]))
    ensures SameOutside(kv, kv[LogKey(gid, l.id) := c.log.encode(l)], gid)
  {
    KeysOfOneGroup(gid);
    OwnsItsKeys(gid, l.id);
  }

  lemma PutLastlog(kv: Store, c: Codecs, gid: GID, s: GroupState, l: MemberLog)
    requires Represents(kv, c, gid, s)
    ensures Represents(kv[LastlogKey(gid) := c.log.encode(l)], c, gid, s.(lastLog := Some(l)))
    ensures SameOutside(kv, kv[LastlogKey(gid) := c.log.encode(l)], gid)
  {
    KeysOfOneGroup(gid);
    OwnsItsKeys(gid, "");
  }
}
