/** Where each record lives in the one physical store: the key builders of mailbox_group.go and
    mailbox.go, under their table prefixes, and which of those keys can meet. */
module Keys {
  import opened Types

  const PEER_LEN := 53

  // ---------- ids (types.go) ----------

  function Peerid(i: JID): string {
    if |i| < PEER_LEN then "" else i[..PEER_LEN]
  }

  function Mailid(i: JID): string {
    if |i| < PEER_LEN * 2 then "" else i[PEER_LEN..PEER_LEN * 2]
  }

  function NewJID(id: string, mailbox: string): JID {
    if mailbox != "" then id + mailbox else id
  }

  /** Of any JID the first 53 bytes are the peer id and the next 53 the mailbox id; a part that is not
      there in full is empty. */
  lemma JidParts(id: string, mailbox: string, rest: string)
    requires |id| == 53
    ensures Peerid(id + rest) == id
    ensures |rest| < 53 ==> Mailid(id + rest) == ""
    ensures |mailbox| == 53 ==> Mailid(id + (mailbox + rest)) == mailbox
    ensures forall i: JID :: |i| < 53 ==> Peerid(i) == "" && Mailid(i) == ""
  {
    assert (id + rest)[..53] == id;
    assert |mailbox| == 53 ==> (id + (mailbox + rest))[53..106] == mailbox;
  }

  /** Composing a JID from full-width parts and taking it apart again loses nothing. */
  lemma JidRoundTrip(id: string, mailbox: string)
    requires |id| == 53 && (mailbox == "" || |mailbox| == 53)
    ensures Peerid(NewJID(id, mailbox)) == id && Mailid(NewJID(id, mailbox)) == mailbox
    ensures NewJID(Peerid(NewJID(id, mailbox)), Mailid(NewJID(id, mailbox))) == id + mailbox
  {
    JidParts(id, mailbox, "");
    assert mailbox + "" == mailbox && id + "" == id;
  }

  // ---------- key builders ----------

  const GROUP_PREFIX := "GROUP"
  const MEMBER_PREFIX := "GROUP_MEMBER"

  function MemberK(gid: GID, id: JID): string { gid + "_" + id + "_member" }
  function MemberLastK(gid: GID): string { gid + "_member_last" }
  function MemberLogK(gid: GID, id: string): string { gid + "_" + id + "_memberlog" }
  function MemberLastlogK(gid: GID): string { gid + "_memberlog_last" }

  // The physical keys of one group.
  function GroupKey(gid: GID): string { GROUP_PREFIX + gid }
  function ItemKey(gid: GID, id: JID): string { MEMBER_PREFIX + MemberK(gid, id) }
  function LastKey(gid: GID): string { MEMBER_PREFIX + MemberLastK(gid) }
  function LogKey(gid: GID, id: string): string { MEMBER_PREFIX + MemberLogK(gid, id) }
  function LastlogKey(gid: GID): string { MEMBER_PREFIX + MemberLastlogK(gid) }

  // The physical key of a message in a peer's mailbox table.
  function MsgKey(peer: string, mid: string): string { peer + mid }

  /** The physical keys, prefix and all, as they lie in the store. */
  lemma KeyFormats(gid: GID, id: string)
    ensures GroupKey(gid) == "GROUP" + gid
    ensures ItemKey(gid, id) == "GROUP_MEMBER" + gid + "_" + id + "_member"
    ensures LastKey(gid) == "GROUP_MEMBER" + gid + "_member_last"
    ensures LogKey(gid, id) == "GROUP_MEMBER" + gid + "_" + id + "_memberlog"
    ensures LastlogKey(gid) == "GROUP_MEMBER" + gid + "_memberlog_last"
  {
  }

  // ---------- strings ----------

  lemma SplitAt(a: string, s: string, b: string, t: string)
    requires a + s == b + t && |a| == |b|
    ensures a == b && s == t
  {
    assert (a + s)[..|a|] == a && (b + t)[..|b|] == b;
    assert (a + s)[|a|..] == s && (b + t)[|b|..] == t;
  }

  // ---------- one group ----------

  // The character that ends a key, and the one before "_last", tell the families apart.
  lemma KeyEnds(gid: GID, id: string)
    ensures |ItemKey(gid, id)| > 0 && ItemKey(gid, id)[|ItemKey(gid, id)| - 1] == 'r'
    ensures |LogKey(gid, id)| > 0 && LogKey(gid, id)[|LogKey(gid, id)| - 1] == 'g'
    ensures |LastKey(gid)| > 6 && LastKey(gid)[|LastKey(gid)| - 1] == 't'
    ensures LastKey(gid)[|LastKey(gid)| - 6] == 'r'
    ensures |LastlogKey(gid)| > 6 && LastlogKey(gid)[|LastlogKey(gid)| - 1] == 't'
    ensures LastlogKey(gid)[|LastlogKey(gid)| - 6] == 'g'
  {
  }

  lemma GroupKeyShort(gid: GID, id: string)
    ensures |GroupKey(gid)| < |ItemKey(gid, id)| && |GroupKey(gid)| < |LogKey(gid, id)|
    ensures |GroupKey(gid)| < |LastKey(gid)| && |GroupKey(gid)| < |LastlogKey(gid)|
  {
  }

  /** The five kinds of key of one group, whatever its id looks like, never meet. */
  lemma FamiliesApart(gid: GID, id: string, other: string)
    ensures ItemKey(gid, id) != LogKey(gid, other)
    ensures ItemKey(gid, id) != LastKey(gid) && ItemKey(gid, id) != LastlogKey(gid)
    ensures LogKey(gid, id) != LastKey(gid) && LogKey(gid, id) != LastlogKey(gid)
    ensures LastKey(gid) != LastlogKey(gid)
    ensures GroupKey(gid) !in {ItemKey(gid, id), LogKey(gid, id), LastKey(gid), LastlogKey(gid)}
  {
    KeyEnds(gid, id);
    KeyEnds(gid, other);
    GroupKeyShort(gid, id);
  }

  lemma ItemKeyInjective(gid: GID, id: JID, other: JID)
    ensures ItemKey(gid, id) == ItemKey(gid, other) <==> id == other
    ensures LogKey(gid, id) == LogKey(gid, other) <==> id == other
  {
    var p := MEMBER_PREFIX + (gid + "_");
    assert ItemKey(gid, id) == p + (id + "_member") && ItemKey(gid, other) == p + (other + "_member");
    assert LogKey(gid, id) == p + (id + "_memberlog") && LogKey(gid, other) == p + (other + "_memberlog");
    if ItemKey(gid, id) == ItemKey(gid, other) {
      SplitAt(p, id + "_member", p, other + "_member");
      SplitAt(id, "_member", other, "_member");
    }
    if LogKey(gid, id) == LogKey(gid, other) {
      SplitAt(p, id + "_memberlog", p, other + "_memberlog");
      SplitAt(id, "_memberlog", other, "_memberlog");
    }
  }

  // ---------- several groups ----------

  // Every key of a group is its record key or begins with its member prefix.
  ghost predicate Owned(gid: GID, k: string) {
    k == GroupKey(gid) || MEMBER_PREFIX + gid + "_" <= k
  }

  lemma OwnsItsKeys(gid: GID, id: string)
    ensures Owned(gid, GroupKey(gid)) && Owned(gid, ItemKey(gid, id)) && Owned(gid, LastKey(gid))
    ensures Owned(gid, LogKey(gid, id)) && Owned(gid, LastlogKey(gid))
  {
  }

  predicate NoUnderscore(gid: GID) {
    '_' !in gid
  }

  lemma FirstUnderscore(g: GID, h: GID, k: string)
    requires NoUnderscore(g) && NoUnderscore(h)
    requires g + "_" <= k && h + "_" <= k
    ensures g == h
  {
    assert forall j :: 0 <= j < |g| ==> k[j] == g[j];
    assert forall j :: 0 <= j < |h| ==> k[j] == h[j];
    assert k[|g|] == (g + "_")[|g|] && k[|h|] == (h + "_")[|h|];
  }

  lemma DropPrefix(p: string, a: string, k: string)
    requires p + a <= k
    ensures p <= k && a <= k[|p|..]
  {
  }

  lemma GroupKeyNotMember(g: GID, h: GID)
    requires NoUnderscore(g)
    ensures !(MEMBER_PREFIX + h + "_" <= GroupKey(g))
  {
    assert (MEMBER_PREFIX + h + "_")[5] == '_';
    assert g != "" ==> GroupKey(g)[5] == g[0];
  }

  /** No key belongs to two groups with underscore-free ids. */
  lemma GroupsApart(g: GID, h: GID, k: string)
    requires NoUnderscore(g) && NoUnderscore(h) && Owned(g, k) && Owned(h, k)
    ensures g == h
  {
    GroupKeyNotMember(g, h);
    GroupKeyNotMember(h, g);
    if k == GroupKey(g) {
      SplitAt(GROUP_PREFIX, g, GROUP_PREFIX, h);
    } else {
      assert MEMBER_PREFIX + g + "_" == MEMBER_PREFIX + (g + "_");
      assert MEMBER_PREFIX + h + "_" == MEMBER_PREFIX + (h + "_");
      DropPrefix(MEMBER_PREFIX, g + "_", k);
      DropPrefix(MEMBER_PREFIX, h + "_", k);
      FirstUnderscore(g, h, k[|MEMBER_PREFIX|..]);
    }
  }

  // One group id continues the other after an underscore.
  predicate Continues(h: GID, g: GID) {
    g + "_" <= h
  }

  lemma MeetOneWay(g: GID, h: GID, i: JID, j: JID)
    requires MemberK(g, i) == MemberK(h, j) && |g| < |h|
    ensures Continues(h, g)
  {
    var k := MemberK(g, i);
    assert k == (g + "_") + (i + "_member") && k == h + ("_" + j + "_member");
    assert k[..|h|] == h;
    assert k[..|g| + 1] == g + "_";
    assert h[..|g| + 1] == k[..|g| + 1];
  }

  lemma ContinuationMeets(g: GID, h: GID, j: JID)
    requires Continues(h, g)
    ensures MemberK(g, h[|g| + 1..] + "_" + j) == MemberK(h, j)
  {
  }

  /** The member keys of two groups can meet exactly when the ids are equal or one continues the
      other after an underscore; the underscore-free ids are never in that case. */
  lemma MemberKeysMeetIff(g: GID, h: GID)
    ensures (exists i, j :: MemberK(g, i) == MemberK(h, j)) <==> g == h || Continues(h, g) || Continues(g, h)
  {
    if i, j :| MemberK(g, i) == MemberK(h, j) {
      if |g| < |h| {
        MeetOneWay(g, h, i, j);
      } else if |h| < |g| {
        MeetOneWay(h, g, j, i);
      } else {
        assert MemberK(g, i) == g + ("_" + i + "_member") && MemberK(h, j) == h + ("_" + j + "_member");
        SplitAt(g, "_" + i + "_member", h, "_" + j + "_member");
      }
    }
    if g == h {
      assert MemberK(g, "") == MemberK(h, "");
    } else if Continues(h, g) {
      ContinuationMeets(g, h, "");
    } else if Continues(g, h) {
      ContinuationMeets(h, g, "");
    }
  }

  // ---------- mailboxes ----------

  predicate IsPeer(peer: string) {
    |peer| == PEER_LEN && !(GROUP_PREFIX <= peer)
  }

  /** Message keys of full-width peers determine peer and message id. */
  lemma MsgKeyInjective(p: string, mid: string, q: string, nid: string)
    requires |p| == PEER_LEN && |q| == PEER_LEN
    ensures MsgKey(p, mid) == MsgKey(q, nid) <==> p == q && mid == nid
  {
    if MsgKey(p, mid) == MsgKey(q, nid) {
      SplitAt(p, mid, q, nid);
    }
  }

  /** Message keys never meet group keys. */
  lemma MailboxApart(p: string, mid: string, gid: GID)
    requires IsPeer(p)
    ensures !Owned(gid, MsgKey(p, mid))
  {
    var k := MsgKey(p, mid);
    assert k[..5] == p[..5];
    assert GroupKey(gid)[..5] == GROUP_PREFIX;
    assert (MEMBER_PREFIX + gid + "_")[..5] == GROUP_PREFIX;
  }
}
