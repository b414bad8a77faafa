/** One mailbox node keeps every group and every mailbox in one physical store. The store is a
    faithful product of them: each group and each mailbox evolves as if it were alone. */
module Node {
  import opened Types
  import opened Codec
  import opened Keys
  import opened Ldb
  import opened Links
  import opened GroupModel
  import opened GroupStore
  import opened GroupRuns
  import opened GroupWalks
  import opened GroupLog
  import opened GroupReplay
  import opened Mailbox
  import opened Sorting

  datatype NodeOp = OnGroup(op: Op) | OnMail(mail: MailOp)

  function GidOf(op: Op): GID {
    match op
    case Save(g, _) => g.id
    case Handle(m, _, _) => m.gid
  }

  // Group ids without underscore, peer ids of full width that are not in the group tables.
  predicate Proper(op: NodeOp) {
    match op
    case OnGroup(o) => NoUnderscore(GidOf(o))
    case OnMail(o) => IsPeer(MailPeer(o))
  }

  // What the methods of GroupDb and Mailbox promise of one call, as a relation on stores.
  ghost predicate Performs(c: Codecs, kv: Store, op: NodeOp, kv': Store) {
    match op
    case OnGroup(o) =>
      && (forall s :: Represents(kv, c, GidOf(o), s) ==> Represents(kv', c, GidOf(o), Step(s, o)))
      && SameOutside(kv, kv', GidOf(o))
    case OnMail(o) =>
      && (forall box :: ShowsBox(kv, c, MailPeer(o), box) ==>
            ShowsBox(kv', c, MailPeer(o), BoxStep(MailPeer(o), box, o)))
      && SameOutsideTable(kv, kv', MailPeer(o))
  }

  lemma ShowsOne(kv: Store, c: Codecs, peer: string, box: Box, box': Box)
    requires c.Valid() && ShowsBox(kv, c, peer, box) && ShowsBox(kv, c, peer, box')
    ensures box == box'
  {
    forall mid
      ensures mid in box <==> mid in box'
      ensures mid in box ==> box[mid] == box'[mid]
    {
      assert Lookup(kv, MsgKey(peer, mid)) == Lookup(kv, MsgKey(peer, mid));
    }
  }

  // The contract of GroupDb.HandleMember and GroupDb.SaveGroup gives the relation.
  lemma GroupCallPerforms(c: Codecs, kv: Store, o: Op, kv': Store, s: GroupState)
    requires c.Valid() && Represents(kv, c, GidOf(o), s)
    requires Represents(kv', c, GidOf(o), Step(s, o)) && SameOutside(kv, kv', GidOf(o))
    ensures Performs(c, kv, OnGroup(o), kv')
  {
    forall t | Represents(kv, c, GidOf(o), t) ensures Represents(kv', c, GidOf(o), Step(t, o)) {
      RepresentsOne(kv, c, GidOf(o), s, t);
    }
  }

  // The contract of Mailbox.PutMsg and Mailbox.DoCleanMsg gives the relation.
  lemma MailCallPerforms(c: Codecs, kv: Store, o: MailOp, kv': Store, box: Box)
    requires c.Valid() && ShowsBox(kv, c, MailPeer(o), box)
    requires ShowsBox(kv', c, MailPeer(o), BoxStep(MailPeer(o), box, o))
    requires SameOutsideTable(kv, kv', MailPeer(o))
    ensures Performs(c, kv, OnMail(o), kv')
  {
  }

  // ---------- the four methods' own contracts are steps ----------

  /** What `GroupDb.HandleMember` ensures is a step on the member's group. */
  lemma HandleIsStep(c: Codecs, kv: Store, kv': Store, m: Member, action: string, logId: string, s: GroupState)
    requires c.Valid() && Represents(kv, c, m.gid, s) && SameOutside(kv, kv', m.gid)
    requires Represents(kv', c, m.gid, HandleMember(s, m, action, logId))
    ensures Performs(c, kv, OnGroup(Handle(m, action, logId)), kv')
    ensures GidOf(Handle(m, action, logId)) == m.gid
  {
    GroupCallPerforms(c, kv, Handle(m, action, logId), kv', s);
  }

  /** What `GroupDb.SaveGroup` ensures is a step on the saved group. */
  lemma SaveIsStep(c: Codecs, kv: Store, kv': Store, g: Group, logId: string, s: GroupState)
    requires c.Valid() && Represents(kv, c, g.id, s) && SameOutside(kv, kv', g.id)
    requires Represents(kv', c, g.id, SaveGroup(s, g, logId))
    ensures Performs(c, kv, OnGroup(Save(g, logId)), kv')
    ensures GidOf(Save(g, logId)) == g.id
  {
    GroupCallPerforms(c, kv, Save(g, logId), kv', s);
  }

  /** What `Mailbox.PutMsg` ensures is a step on the recipient's mailbox. */
  lemma PutIsStep(c: Codecs, kv: Store, kv': Store, msg: Message, box: Box)
    requires c.Valid() && ShowsBox(kv, c, Peerid(msg.envelope.to), box)
    requires ShowsBox(kv', c, Peerid(msg.envelope.to), box[msg.envelope.id := msg])
    requires SameOutsideTable(kv, kv', Peerid(msg.envelope.to))
    ensures Performs(c, kv, OnMail(PutMail(msg)), kv')
  {
    MailCallPerforms(c, kv, PutMail(msg), kv', box);
  }

  /** What `Mailbox.DoCleanMsg` ensures is a step on the mailbox of the JID's peer. */
  lemma CleanIsStep(c: Codecs, kv: Store, kv': Store, jid: JID, ids: seq<string>, box: Box)
    requires c.Valid() && ShowsBox(kv, c, Peerid(jid), box)
    requires ShowsBox(kv', c, Peerid(jid), Cleaned(box, ids)) && SameOutsideTable(kv, kv', Peerid(jid))
    ensures Performs(c, kv, OnMail(CleanMail(jid, ids)), kv')
  {
    MailCallPerforms(c, kv, CleanMail(jid, ids), kv', box);
  }

  // ---------- what a call leaves alone ----------

  lemma SameKeysSameGroup(c: Codecs, kv: Store, kv': Store, g: GID, s: GroupState)
    requires Represents(kv, c, g, s)
    requires forall k {:trigger Owned(g, k)} :: Owned(g, k) ==> Lookup(kv', k) == Lookup(kv, k)
    ensures Represents(kv', c, g, s)
  {
    OwnsItsKeys(g, "");
    forall id
      ensures Lookup(kv', ItemKey(g, id)) == Lookup(kv, ItemKey(g, id))
      ensures Lookup(kv', LogKey(g, id)) == Lookup(kv, LogKey(g, id))
    {
      OwnsItsKeys(g, id);
    }
  }

  lemma InTableIsMsg(p: string, k: string)
    requires InTable(p, k)
    ensures k == MsgKey(p, k[|p|..])
  {
  }

  /** A call on another group, or on any mailbox, leaves a group as it was. */
  lemma GroupUntouched(c: Codecs, kv: Store, op: NodeOp, kv': Store, g: GID, s: GroupState)
    requires Performs(c, kv, op, kv') && Proper(op) && NoUnderscore(g)
    requires op.OnGroup? ==> GidOf(op.op) != g
    requires Represents(kv, c, g, s)
    ensures Represents(kv', c, g, s)
  {
    forall k {:trigger Owned(g, k)} | Owned(g, k) ensures Lookup(kv', k) == Lookup(kv, k) {
      match op
      case OnGroup(o) =>
        if Owned(GidOf(o), k) {
          GroupsApart(g, GidOf(o), k);
        }
      case OnMail(o) =>
        if InTable(MailPeer(o), k) {
          InTableIsMsg(MailPeer(o), k);
          MailboxApart(MailPeer(o), k[|MailPeer(o)|..], g);
        }
    }
    SameKeysSameGroup(c, kv, kv', g, s);
  }

  /** A call on any group, or on another peer's mailbox, leaves a mailbox as it was. */
  lemma BoxUntouched(c: Codecs, kv: Store, op: NodeOp, kv': Store, p: string, box: Box)
    requires Performs(c, kv, op, kv') && Proper(op) && IsPeer(p)
    requires op.OnMail? ==> MailPeer(op.mail) != p
    requires ShowsBox(kv, c, p, box)
    ensures ShowsBox(kv', c, p, box)
  {
    forall mid ensures Lookup(kv', MsgKey(p, mid)) == Lookup(kv, MsgKey(p, mid)) {
      var k := MsgKey(p, mid);
      match op
      case OnGroup(o) =>
        MailboxApart(p, mid, GidOf(o));
      case OnMail(o) =>
        if InTable(MailPeer(o), k) {
          InTableIsMsg(MailPeer(o), k);
          MsgKeyInjective(p, mid, MailPeer(o), k[|MailPeer(o)|..]);
        }
    }
  }

  // ---------- whole runs on one store ----------

  ghost predicate IsTrace(c: Codecs, stores: seq<Store>, ops: seq<NodeOp>) {
    && |stores| == |ops| + 1
    && stores[0] == map[]
    && (forall i :: 0 <= i < |ops| ==> Proper(ops[i]))
    && (forall i {:trigger Performs(c, stores[i], ops[i], stores[i + 1])} :: 0 <= i < |ops| ==>
          Performs(c, stores[i], ops[i], stores[i + 1]))
  }

  // The calls on one group, in order.
  function OnlyGroup(ops: seq<NodeOp>, g: GID): seq<Op> {
    if ops == [] then []
    else
      var front, last := OnlyGroup(ops[..|ops| - 1], g), ops[|ops| - 1];
      if last.OnGroup? && GidOf(last.op) == g then front + [last.op] else front
  }

  // The mailbox calls, in order.
  function OnlyMail(ops: seq<NodeOp>): seq<MailOp> {
    if ops == [] then []
    else
      var front, last := OnlyMail(ops[..|ops| - 1]), ops[|ops| - 1];
      if last.OnMail? then front + [last.mail] else front
  }

  lemma TracePrefix(c: Codecs, stores: seq<Store>, ops: seq<NodeOp>)
    requires IsTrace(c, stores, ops) && ops != []
    ensures IsTrace(c, stores[..|ops|], ops[..|ops| - 1])
    ensures Performs(c, stores[|ops| - 1], ops[|ops| - 1], stores[|ops|])
    ensures Proper(ops[|ops| - 1])
  {
    var n := |ops| - 1;
    forall i | 0 <= i < n ensures Performs(c, stores[..n + 1][i], ops[..n][i], stores[..n + 1][i + 1]) {
      assert Performs(c, stores[i], ops[i], stores[i + 1]);
    }
    assert Performs(c, stores[n], ops[n], stores[n + 1]);
  }

  lemma EmptyStore(c: Codecs, g: GID, p: string)
    ensures Represents(map[], c, g, NEW_GROUP) && ShowsBox(map[], c, p, map[])
  {
  }

  /** After any mixed run on one store, each group is exactly where its own calls alone would have
      brought it. */
  lemma {:induction false} GroupsAreIndependent(c: Codecs, stores: seq<Store>, ops: seq<NodeOp>, g: GID)
    requires IsTrace(c, stores, ops) && NoUnderscore(g)
    ensures Represents(stores[|ops|], c, g, Run(OnlyGroup(ops, g)))
  {
    if ops == [] {
      EmptyStore(c, g, "");
    } else {
      var n := |ops| - 1;
      TracePrefix(c, stores, ops);
      GroupsAreIndependent(c, stores[..n + 1], ops[..n], g);
      var s := Run(OnlyGroup(ops[..n], g));
      if ops[n].OnGroup? && GidOf(ops[n].op) == g {
        var own := OnlyGroup(ops, g);
        assert own[..|own| - 1] == OnlyGroup(ops[..n], g);
        assert Represents(stores[n], c, g, s);
      } else {
        GroupUntouched(c, stores[n], ops[n], stores[n + 1], g, s);
      }
    }
  }

  lemma BoxRunSnoc(peer: string, ops: seq<MailOp>, op: MailOp)
    ensures BoxRun(peer, ops + [op]) == BoxStep(peer, BoxRun(peer, ops), op)
  {
  }

  /** After any mixed run on one store, each mailbox is exactly what the mailbox calls alone would
      have made of it: by `BoxHoldsSurvivors`, the last-put, not-since-cleaned messages. */
  lemma {:induction false} MailboxesAreIndependent(c: Codecs, stores: seq<Store>, ops: seq<NodeOp>, p: string)
    requires IsTrace(c, stores, ops) && IsPeer(p)
    ensures ShowsBox(stores[|ops|], c, p, BoxRun(p, OnlyMail(ops)))
  {
    if ops == [] {
      EmptyStore(c, "", p);
    } else {
      var n := |ops| - 1;
      TracePrefix(c, stores, ops);
      MailboxesAreIndependent(c, stores[..n + 1], ops[..n], p);
      var mail := OnlyMail(ops[..n]);
      if ops[n].OnMail? {
        BoxRunSnoc(p, mail, ops[n].mail);
      }
      if ops[n].OnMail? && MailPeer(ops[n].mail) == p {
        assert ShowsBox(stores[n], c, p, BoxRun(p, mail));
      } else {
        BoxUntouched(c, stores[n], ops[n], stores[n + 1], p, BoxRun(p, mail));
      }
    }
  }

  // ---------- what queries on the shared store return ----------

  /** After any mixed run, a mailbox query returns each last-put, not-since-cleaned message of its
      peer that has a non-empty id, exactly once, and nothing else. */
  lemma MailQueryAfterRun(c: Codecs, stores: seq<Store>, ops: seq<NodeOp>, p: string,
                                             box: Box, bag: seq<Message>, m: Message)
    requires c.Valid() && IsTrace(c, stores, ops) && IsPeer(p)
    requires ShowsBox(stores[|ops|], c, p, box) && IsBagOf(bag, box) && Sorted(ByCt(), bag)
    ensures forall i, j :: 0 <= i < j < |bag| ==> bag[i].envelope.ct <= bag[j].envelope.ct
    ensures multiset(bag)[m] ==
            if m.envelope.id != "" && IsSurvivor(p, OnlyMail(ops), m) then 1 else 0
  {
    MailboxesAreIndependent(c, stores, ops, p);
    ShowsOne(stores[|ops|], c, p, box, BoxRun(p, OnlyMail(ops)));
    BoxHoldsSurvivors(p, OnlyMail(ops), m);
    ByCtIsTime(bag);
  }

  /** After any mixed run in which a group's own calls were disciplined, the group found in the store
      gives, FROM its creator, exactly the replay of its successful actions. */
  lemma {:induction false} GroupQueryAfterRun(c: Codecs, stores: seq<Store>, ops: seq<NodeOp>, g: GID, s: GroupState)
    requires c.Valid() && IsTrace(c, stores, ops) && NoUnderscore(g)
    requires Represents(stores[|ops|], c, g, s)
    requires var own := OnlyGroup(ops, g); DisciplinedRun(own) && own != [] && own[0].Save?
    ensures var own := OnlyGroup(ops, g);
            Trail(NextLinks(s.members), own[0].group.owner.id, Replay(Logged(own)))
  {
    GroupsAreIndependent(c, stores, ops, g);
    RepresentsOne(stores[|ops|], c, g, s, Run(OnlyGroup(ops, g)));
    DisciplinedReplay(OnlyGroup(ops, g));
  }
}
