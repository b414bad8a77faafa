/** The mailboxes of the delivery protocol are those of the physical store: the steps that touch the
    mailboxes of one mail node are a run of `PutMsg` and `DoCleanMsg` calls on its store. */
module DeliveryStore {
  import opened Types
  import opened Codec
  import opened Keys
  import opened Ldb
  import opened Mailbox
  import opened Delivery
  import opened DeliveryRuns
  import opened Node

  // The mailbox calls that one step makes on the node `mail`.
  ghost function MailCalls(s: State, a: Action, mail: string): seq<MailOp>
    requires Enabled(s, a)
  {
    match a
    case Fallback(tid, ran, _) =>
      var m := s.sends[tid].msg;
      if ran && BoxFor(m).mail == mail then [PutMail(m)] else []
    case DeleteOne(sid) =>
      var e := s.sessions[sid];
      if e.box.mail == mail then [CleanMail(e.box.peer, [e.pending[0]])] else []
    case _ => []
  }

  ghost function AllMailCalls(states: seq<State>, actions: seq<Action>, mail: string): seq<MailOp>
    requires IsRun(states, actions)
    decreases |actions|
  {
    if actions == [] then []
    else
      RunPrefix(states, actions);
      AllMailCalls(states[..|actions|], actions[..|actions| - 1], mail)
      + MailCalls(states[|actions| - 1], actions[|actions| - 1], mail)
  }

  // A peer id is its own peer id, so it can stand for the JID in a clean call.
  ghost predicate PeersOk(s: State) {
    forall sid :: sid in s.sessions ==> Peerid(s.sessions[sid].box.peer) == s.sessions[sid].box.peer
  }

  lemma StepKeepsPeers(s: State, a: Action)
    requires Enabled(s, a) && PeersOk(s)
    ensures PeersOk(Apply(s, a))
  {
  }

  lemma {:induction false} RunKeepsPeers(states: seq<State>, actions: seq<Action>)
    requires IsRun(states, actions)
    ensures PeersOk(Final(states))
  {
    if actions != [] {
      RunPrefix(states, actions);
      RunKeepsPeers(states[..|states| - 1], actions[..|actions| - 1]);
      StepKeepsPeers(states[|actions| - 1], actions[|actions| - 1]);
    }
  }

  lemma CleanedOne(box: Box, id: string)
    ensures Cleaned(box, [id]) == box - {id}
  {
    var ids := [id];
    assert ids[0] == id;
    assert (set i | 0 <= i < |ids| :: ids[i]) == {id};
  }

  // One step does to a mailbox what its calls do.
  lemma StepIsCalls(s: State, a: Action, mail: string, peer: string)
    requires Enabled(s, a) && PeersOk(s)
    ensures var box, calls := BoxOf(s, BoxKey(mail, peer)), MailCalls(s, a, mail);
            BoxOf(Apply(s, a), BoxKey(mail, peer)) == if calls == [] then box else BoxStep(peer, box, calls[0])
    ensures |MailCalls(s, a, mail)| <= 1
  {
    StepOnBox(s, a, BoxKey(mail, peer));
    if a.DeleteOne? {
      var e := s.sessions[a.sid];
      CleanedOne(BoxOf(s, e.box), e.pending[0]);
    }
  }

  /** In every delivery run, each mailbox of a mail node is what the run's calls on that node make of it. */
  lemma {:induction false} BoxesAreCalls(states: seq<State>, actions: seq<Action>, mail: string, peer: string)
    requires IsRun(states, actions)
    ensures BoxOf(Final(states), BoxKey(mail, peer)) == BoxRun(peer, AllMailCalls(states, actions, mail))
    decreases |actions|
  {
    if actions != [] {
      var n := |actions| - 1;
      RunPrefix(states, actions);
      var s, a, calls := states[n], actions[n], MailCalls(states[n], actions[n], mail);
      BoxesAreCalls(states[..n + 1], actions[..n], mail, peer);
      RunKeepsPeers(states[..n + 1], actions[..n]);
      StepIsCalls(s, a, mail, peer);
      var front := AllMailCalls(states[..n + 1], actions[..n], mail);
      if calls == [] {
        assert front + calls == front;
      } else {
        assert calls == [calls[0]];
        BoxRunSnoc(peer, front, calls[0]);
      }
    }
  }

  // ---------- down to the physical store ----------

  // What one mailbox call does to the physical keys.
  function MailEffect(c: Codecs, kv: Store, o: MailOp): Store {
    match o
    case PutMail(m) => kv[MsgKey(MailPeer(o), m.envelope.id) := c.msg.encode(m)]
    case CleanMail(_, ids) => kv - (set i | 0 <= i < |ids| :: MsgKey(MailPeer(o), ids[i]))
  }

  lemma MailEffectPerforms(c: Codecs, kv: Store, o: MailOp)
    ensures Performs(c, kv, OnMail(o), MailEffect(c, kv, o))
  {
    var peer, kv' := MailPeer(o), MailEffect(c, kv, o);
    MsgKeysOfOnePeer(peer);
    forall box | ShowsBox(kv, c, peer, box) ensures ShowsBox(kv', c, peer, BoxStep(peer, box, o)) {
    }
  }

  predicate AllProper(calls: seq<MailOp>) {
    forall i :: 0 <= i < |calls| ==> IsPeer(MailPeer(calls[i]))
  }

  lemma {:induction false} StoreForCalls(c: Codecs, calls: seq<MailOp>) returns (stores: seq<Store>, ops: seq<NodeOp>)
    requires AllProper(calls)
    ensures IsTrace(c, stores, ops) && OnlyMail(ops) == calls
  {
    if calls == [] {
      stores, ops := [map[]], [];
    } else {
      var n := |calls| - 1;
      stores, ops := StoreForCalls(c, calls[..n]);
      var kv, op := stores[|ops|], OnMail(calls[n]);
      MailEffectPerforms(c, kv, calls[n]);
      TraceExtend(c, stores, ops, op, MailEffect(c, kv, calls[n]));
      OnlyMailSnoc(ops, op);
      stores, ops := stores + [MailEffect(c, kv, calls[n])], ops + [op];
    }
  }

  lemma OnlyMailSnoc(ops: seq<NodeOp>, op: NodeOp)
    ensures OnlyMail(ops + [op]) == OnlyMail(ops) + if op.OnMail? then [op.mail] else []
  {
    assert (ops + [op])[..|ops|] == ops;
  }

  lemma TraceExtend(c: Codecs, stores: seq<Store>, ops: seq<NodeOp>, op: NodeOp, kv: Store)
    requires IsTrace(c, stores, ops) && Proper(op) && Performs(c, stores[|ops|], op, kv)
    ensures IsTrace(c, stores + [kv], ops + [op])
  {
    forall i | 0 <= i < |ops| + 1
      ensures Proper((ops + [op])[i])
      ensures Performs(c, (stores + [kv])[i], (ops + [op])[i], (stores + [kv])[i + 1])
    {
      if i < |ops| {
        TraceAt(c, stores, ops, i);
      }
    }
  }

  lemma TraceAt(c: Codecs, stores: seq<Store>, ops: seq<NodeOp>, i: int)
    requires IsTrace(c, stores, ops) && 0 <= i < |ops|
    ensures Proper(ops[i]) && Performs(c, stores[i], ops[i], stores[i + 1])
  {
  }

  /** Every delivery run whose mailbox calls on a node are for proper peers is realised by a run of that
      node's physical store, after which the tables are the protocol's mailboxes. */
  lemma {:induction false} RunIsRealised(c: Codecs, states: seq<State>, actions: seq<Action>, mail: string)
    returns (stores: seq<Store>, ops: seq<NodeOp>)
    requires IsRun(states, actions) && AllProper(AllMailCalls(states, actions, mail))
    ensures IsTrace(c, stores, ops) && OnlyMail(ops) == AllMailCalls(states, actions, mail)
    ensures forall peer :: IsPeer(peer) ==>
              ShowsBox(stores[|ops|], c, peer, BoxOf(Final(states), BoxKey(mail, peer)))
  {
    stores, ops := StoreForCalls(c, AllMailCalls(states, actions, mail));
    forall peer | IsPeer(peer)
      ensures ShowsBox(stores[|ops|], c, peer, BoxOf(Final(states), BoxKey(mail, peer)))
    {
      StoreHoldsBoxes(c, stores, ops, states, actions, mail, peer);
    }
  }

  /** When a mail node's physical store has performed those calls, mixed with any group calls, its
      tables hold exactly the mailboxes of the protocol. */
  lemma StoreHoldsBoxes(c: Codecs, stores: seq<Store>, ops: seq<NodeOp>, states: seq<State>, actions: seq<Action>,
                        mail: string, peer: string)
    requires IsTrace(c, stores, ops) && IsRun(states, actions) && IsPeer(peer)
    requires OnlyMail(ops) == AllMailCalls(states, actions, mail)
    ensures ShowsBox(stores[|ops|], c, peer, BoxOf(Final(states), BoxKey(mail, peer)))
  {
    MailboxesAreIndependent(c, stores, ops, peer);
    BoxesAreCalls(states, actions, mail, peer);
  }

  /** So no accepted message is lost on the physical store either: under the protocol's condition on ids
      it is under its key in its mail node's store, or has been written to a session. */
  lemma {:induction false} StoreLosesNothing(c: Codecs, stores: seq<Store>, ops: seq<NodeOp>, states: seq<State>,
                                             actions: seq<Action>, msgs: set<Message>, m: Message)
    requires c.Valid() && IsTrace(c, stores, ops) && IsRun(states, actions)
    requires SendsFrom(actions, msgs) && Consistent(msgs)
    requires m in Final(states).accepted && IsPeer(BoxFor(m).peer)
    requires OnlyMail(ops) == AllMailCalls(states, actions, BoxFor(m).mail)
    ensures m in Final(states).written
            || Lookup(stores[|ops|], MsgKey(BoxFor(m).peer, m.envelope.id)) == Some(c.msg.encode(m))
  {
    RunKeepsDrain(states, actions, msgs);
    assert Kept(Final(states), m);
    StoreHoldsBoxes(c, stores, ops, states, actions, BoxFor(m).mail, BoxFor(m).peer);
  }
}
