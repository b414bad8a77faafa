/** Delivery of one-to-one messages, as interleaved steps of any number of senders, recipients and
    websocket sessions: the direct request, the mailbox fallback (service.go), the bounded receive
    queue and its dispatch loop, and the session that queries its mailbox, writes each message to
    its socket and then asks for the written ids to be deleted (rpc/server.go). */
module Delivery {
  import opened Types
  import opened Keys
  import opened Mailbox
  import opened Sorting

  const QUEUE_CAP := 128

  // What a node's receive path has seen.
  datatype Inbox = Inbox(queue: seq<Message>, dispatched: seq<Message>, acked: seq<Message>,
                         dropped: seq<Message>, stopped: bool)

  const FRESH := Inbox([], [], [], [], false)

  // A mailbox table: the node that keeps it, and the peer it is for.
  datatype BoxKey = BoxKey(mail: string, peer: string)

  function KeyOf(jid: JID): BoxKey {
    BoxKey(Mailid(jid), Peerid(jid))
  }

  function BoxFor(m: Message): BoxKey {
    KeyOf(m.envelope.to)
  }

  // `direct` and `mailed` remember whether the recipient's and the mailbox's handlers ran.
  datatype Send =
    | Trying(msg: Message)
    | FallingBack(msg: Message, direct: bool)
    | Returned(msg: Message, ok: bool, direct: bool, mailed: bool)

  datatype Phase = Opened | Writing | Live

  // `bag` is the answer to the query, `todo` its unwritten rest, `ids` what has been written;
  // `pending` is what a clean request has yet to delete.
  datatype Session = Session(box: BoxKey, phase: Phase, bag: seq<Message>, todo: seq<Message>,
                             ids: seq<string>, pending: seq<string>)

  datatype State = State(
    inboxes: map<string, Inbox>,
    boxes: map<BoxKey, Box>,
    sends: map<nat, Send>,
    sessions: map<nat, Session>,
    accepted: set<Message>,
    written: set<Message>
  )

  const START := State(map[], map[], map[], map[], {}, {})

  function InboxOf(s: State, peer: string): Inbox {
    if peer in s.inboxes then s.inboxes[peer] else FRESH
  }

  function BoxOf(s: State, k: BoxKey): Box {
    if k in s.boxes then s.boxes[k] else map[]
  }

  /** A request whose error is nil ran its handler; one that reports an error may have run it. */
  datatype Action =
    | StartSend(tid: nat, msg: Message)
    | Direct(tid: nat, ran: bool, reported: bool, drop: bool)
    | Fallback(tid: nat, ran: bool, reported: bool)
    | Dispatch(peer: string)
    | Stop(peer: string)
    | Open(sid: nat, owner: JID)
    | Query(sid: nat, answered: bool, bag: seq<Message>)
    | WriteOne(sid: nat)
    | RequestClean(sid: nat, runs: bool)
    | DeleteOne(sid: nat)

  // ---------- the receive path of one node ----------

  // The handler waits for room in the queue; only a stopping node lets it return without queueing.
  predicate CanReceive(b: Inbox, drop: bool) {
    if drop then b.stopped else |b.queue| < QUEUE_CAP
  }

  function Receive(b: Inbox, m: Message, drop: bool): Inbox {
    if drop then b.(acked := b.acked + [m], dropped := b.dropped + [m])
    else b.(acked := b.acked + [m], queue := b.queue + [m])
  }

  function DispatchOne(b: Inbox): Inbox
    requires b.queue != []
  {
    b.(queue := b.queue[1..], dispatched := b.dispatched + [b.queue[0]])
  }

  // ---------- steps ----------

  predicate InPhase(s: State, sid: nat, phase: Phase) {
    sid in s.sessions && s.sessions[sid].phase == phase
  }

  ghost predicate Enabled(s: State, a: Action) {
    match a
    case StartSend(tid, _) => tid !in s.sends
    case Direct(tid, ran, reported, drop) =>
      && tid in s.sends && s.sends[tid].Trying?
      && (reported ==> ran)
      && (ran ==> CanReceive(InboxOf(s, Peerid(s.sends[tid].msg.envelope.to)), drop))
    case Fallback(tid, ran, reported) =>
      tid in s.sends && s.sends[tid].FallingBack? && (reported ==> ran)
    case Dispatch(peer) => InboxOf(s, peer).queue != []
    case Stop(peer) => true
    case Open(sid, _) => sid !in s.sessions
    case Query(sid, answered, bag) =>
      && InPhase(s, sid, Opened)
      && (answered ==> Sorted(ByCt(), bag) && IsBagOf(bag, BoxOf(s, s.sessions[sid].box)))
    case WriteOne(sid) => InPhase(s, sid, Writing) && s.sessions[sid].todo != []
    case RequestClean(sid, _) => InPhase(s, sid, Writing) && s.sessions[sid].todo == []
    case DeleteOne(sid) => sid in s.sessions && s.sessions[sid].pending != []
  }

  function Received(s: State, m: Message, drop: bool): State {
    var peer := Peerid(m.envelope.to);
    s.(inboxes := s.inboxes[peer := Receive(InboxOf(s, peer), m, drop)])
  }

  function Stored(s: State, m: Message): State {
    s.(boxes := s.boxes[BoxFor(m) := BoxOf(s, BoxFor(m))[m.envelope.id := m]], accepted := s.accepted + {m})
  }

  ghost function Apply(s: State, a: Action): State
    requires Enabled(s, a)
  {
    match a
    case StartSend(tid, m) => s.(sends := s.sends[tid := Trying(m)])
    case Direct(tid, ran, reported, drop) =>
      var m := s.sends[tid].msg;
      var s' := if ran then Received(s, m, drop) else s;
      s'.(sends := s.sends[tid := if reported then Returned(m, true, true, false) else FallingBack(m, ran)])
    case Fallback(tid, ran, reported) =>
      var m := s.sends[tid].msg;
      var s' := if ran then Stored(s, m) else s;
      s'.(sends := s.sends[tid := Returned(m, reported, s.sends[tid].direct, ran)])
    case Dispatch(peer) => s.(inboxes := s.inboxes[peer := DispatchOne(InboxOf(s, peer))])
    case Stop(peer) => s.(inboxes := s.inboxes[peer := InboxOf(s, peer).(stopped := true)])
    case Open(sid, owner) => s.(sessions := s.sessions[sid := Session(KeyOf(owner), Opened, [], [], [], [])])
    case Query(sid, answered, bag) =>
      var e := s.sessions[sid];
      var e' := if answered then e.(phase := Writing, bag := bag, todo := bag) else e.(phase := Live);
      s.(sessions := s.sessions[sid := e'])
    case WriteOne(sid) =>
      var e := s.sessions[sid];
      s.(sessions := s.sessions[sid := e.(todo := e.todo[1..], ids := e.ids + [e.todo[0].envelope.id])],
         written := s.written + {e.todo[0]})
    case RequestClean(sid, runs) =>
      var e := s.sessions[sid];
      s.(sessions := s.sessions[sid := e.(phase := Live, pending := if runs then e.ids else [])])
    case DeleteOne(sid) =>
      var e := s.sessions[sid];
      s.(sessions := s.sessions[sid := e.(pending := e.pending[1..])],
         boxes := s.boxes[e.box := BoxOf(s, e.box) - {e.pending[0]}])
  }

  // `states` is a run of the actions from the start.
  ghost predicate IsRun(states: seq<State>, actions: seq<Action>) {
    && |states| == |actions| + 1
    && states[0] == START
    && (forall i :: 0 <= i < |actions| ==> StepTo(states[i], actions[i], states[i + 1]))
  }

  ghost predicate StepTo(s: State, a: Action, s': State) {
    Enabled(s, a) && s' == Apply(s, a)
  }

  // ---------- the receive queue ----------

  ghost predicate InboxOk(b: Inbox) {
    && |b.queue| <= QUEUE_CAP
    && multiset(b.acked) == multiset(b.dispatched) + multiset(b.queue) + multiset(b.dropped)
    && (!b.stopped ==> b.dropped == [] && b.acked == b.dispatched + b.queue)
  }

  lemma ReceiveKeeps(b: Inbox, m: Message, drop: bool)
    requires InboxOk(b) && CanReceive(b, drop)
    ensures InboxOk(Receive(b, m, drop))
  {
    if !b.stopped {
      assert b.dispatched + b.queue + [m] == b.dispatched + (b.queue + [m]);
    }
  }

  lemma DispatchKeeps(b: Inbox)
    requires InboxOk(b) && b.queue != []
    ensures InboxOk(DispatchOne(b))
  {
    assert b.queue == [b.queue[0]] + b.queue[1..];
    assert b.dispatched + b.queue == b.dispatched + [b.queue[0]] + b.queue[1..];
  }

  ghost predicate QueuesOk(s: State) {
    forall peer :: InboxOk(InboxOf(s, peer))
  }

  // How one step may change one node's inbox.
  ghost predicate InboxStep(b: Inbox, b': Inbox) {
    || b' == b
    || (exists m, drop :: CanReceive(b, drop) && b' == Receive(b, m, drop))
    || (b.queue != [] && b' == DispatchOne(b))
    || b' == b.(stopped := true)
  }

  lemma StepOnInbox(s: State, a: Action, peer: string)
    requires Enabled(s, a)
    ensures InboxStep(InboxOf(s, peer), InboxOf(Apply(s, a), peer))
  {
  }

  lemma StepKeepsQueues(s: State, a: Action)
    requires Enabled(s, a) && QueuesOk(s)
    ensures QueuesOk(Apply(s, a))
  {
    forall peer ensures InboxOk(InboxOf(Apply(s, a), peer)) {
      assert InboxOk(InboxOf(s, peer));
      StepOnInbox(s, a, peer);
      InboxStepKeeps(InboxOf(s, peer), InboxOf(Apply(s, a), peer));
    }
  }

  lemma InboxStepKeeps(b: Inbox, b': Inbox)
    requires InboxOk(b) && InboxStep(b, b')
    ensures InboxOk(b')
  {
    if m, drop :| CanReceive(b, drop) && b' == Receive(b, m, drop) {
      ReceiveKeeps(b, m, drop);
    } else if b.queue != [] && b' == DispatchOne(b) {
      DispatchKeeps(b);
    }
  }

  // ---------- the mailboxes and their sessions ----------

  predicate SameSlot(m: Message, n: Message) {
    BoxFor(m) == BoxFor(n) && m.envelope.id == n.envelope.id
  }

  // A message id names one message within each mailbox.
  ghost predicate Consistent(msgs: set<Message>) {
    forall m, n :: m in msgs && n in msgs && SameSlot(m, n) ==> m == n
  }

  ghost predicate IsStored(s: State, m: Message) {
    m.envelope.id in BoxOf(s, BoxFor(m)) && BoxOf(s, BoxFor(m))[m.envelope.id] == m
  }

  // Still in the mailbox, or handed to some session's socket.
  ghost predicate Kept(s: State, m: Message) {
    IsStored(s, m) || m in s.written
  }

  ghost predicate BoxOk(box: Box, k: BoxKey, accepted: set<Message>) {
    forall mid :: mid in box ==>
      box[mid] in accepted && box[mid].envelope.id == mid && BoxFor(box[mid]) == k
  }

  ghost predicate WrittenAs(written: set<Message>, k: BoxKey, id: string) {
    exists m :: m in written && BoxFor(m) == k && m.envelope.id == id
  }

  // The written part of the bag, then the rest; a live session has written all of it.
  ghost predicate Progress(e: Session, written: set<Message>) {
    && (e.phase.Opened? ==> e.bag == [] && e.todo == [] && e.ids == [])
    && (e.phase.Live? ==> e.todo == [])
    && |e.ids| + |e.todo| == |e.bag|
    && e.todo == e.bag[|e.ids|..]
    && (forall i :: 0 <= i < |e.ids| ==> e.bag[i] in written && e.ids[i] == e.bag[i].envelope.id)
  }

  ghost predicate SessionOk(e: Session, accepted: set<Message>, written: set<Message>) {
    && (forall i :: 0 <= i < |e.todo| ==> e.todo[i] in accepted && BoxFor(e.todo[i]) == e.box)
    && (forall i :: 0 <= i < |e.ids| ==> WrittenAs(written, e.box, e.ids[i]))
    && (forall i :: 0 <= i < |e.pending| ==> WrittenAs(written, e.box, e.pending[i]))
  }

  ghost predicate StoreOk(s: State) {
    forall k :: BoxOk(BoxOf(s, k), k, s.accepted)
  }

  ghost predicate SessionsOk(s: State) {
    forall sid :: sid in s.sessions ==> SessionOk(s.sessions[sid], s.accepted, s.written)
  }

  ghost predicate SendsOk(s: State, msgs: set<Message>) {
    s.written <= s.accepted <= msgs && forall tid :: tid in s.sends ==> s.sends[tid].msg in msgs
  }

  ghost predicate DrainInv(s: State, msgs: set<Message>) {
    SendsOk(s, msgs) && StoreOk(s) && SessionsOk(s) && forall m :: m in s.accepted ==> Kept(s, m)
  }

  lemma StepGrows(s: State, a: Action)
    requires Enabled(s, a)
    ensures s.accepted <= Apply(s, a).accepted && s.written <= Apply(s, a).written
  {
  }

  lemma StepKeepsSends(s: State, a: Action, msgs: set<Message>)
    requires Enabled(s, a) && SendsOk(s, msgs) && SessionsOk(s) && (a.StartSend? ==> a.msg in msgs)
    ensures SendsOk(Apply(s, a), msgs)
  {
  }

  // What one step may do to one mailbox.
  lemma StepOnBox(s: State, a: Action, k: BoxKey)
    requires Enabled(s, a)
    ensures var box, box' := BoxOf(s, k), BoxOf(Apply(s, a), k);
            || box' == box
            || (a.Fallback? && a.ran && (var m := s.sends[a.tid].msg;
                k == BoxFor(m) && box' == box[m.envelope.id := m] && Apply(s, a).accepted == s.accepted + {m}))
            || (a.DeleteOne? && (var e := s.sessions[a.sid];
                k == e.box && box' == box - {e.pending[0]} && Apply(s, a).written == s.written))
  {
  }

  lemma StepKeepsStore(s: State, a: Action)
    requires Enabled(s, a) && StoreOk(s)
    ensures StoreOk(Apply(s, a))
  {
    StepGrows(s, a);
    forall k ensures BoxOk(BoxOf(Apply(s, a), k), k, Apply(s, a).accepted) {
      assert BoxOk(BoxOf(s, k), k, s.accepted);
      StepOnBox(s, a, k);
    }
  }

  lemma BagIsAccepted(bag: seq<Message>, box: Box, k: BoxKey, accepted: set<Message>)
    requires IsBagOf(bag, box) && BoxOk(box, k, accepted)
    ensures forall i :: 0 <= i < |bag| ==> bag[i] in accepted && BoxFor(bag[i]) == k
  {
    forall i | 0 <= i < |bag| ensures bag[i] in accepted && BoxFor(bag[i]) == k {
      assert bag[i] in multiset(bag);
      assert Visible(box, bag[i]);
    }
  }

  lemma SessionGrows(e: Session, accepted: set<Message>, written: set<Message>,
                                        accepted': set<Message>, written': set<Message>)
    requires SessionOk(e, accepted, written) && accepted <= accepted' && written <= written'
    ensures SessionOk(e, accepted', written')
  {
  }

  lemma WriteKeepsSession(e: Session, accepted: set<Message>, written: set<Message>)
    requires SessionOk(e, accepted, written) && e.todo != []
    ensures SessionOk(e.(todo := e.todo[1..], ids := e.ids + [e.todo[0].envelope.id]), accepted,
                      written + {e.todo[0]})
  {
  }

  lemma StepKeepsProgress(s: State, a: Action, sid: nat)
    requires Enabled(s, a) && sid in Apply(s, a).sessions
    requires sid in s.sessions ==> Progress(s.sessions[sid], s.written)
    ensures Progress(Apply(s, a).sessions[sid], Apply(s, a).written)
  {
    StepGrows(s, a);
    if a.WriteOne? && a.sid == sid {
      var e := s.sessions[sid];
      assert e.bag[|e.ids|] == e.todo[0];
      assert e.todo[1..] == e.bag[|e.ids| + 1..];
    }
  }

  lemma StepKeepsSession(s: State, a: Action, sid: nat)
    requires Enabled(s, a) && StoreOk(s) && SessionsOk(s) && sid in Apply(s, a).sessions
    ensures SessionOk(Apply(s, a).sessions[sid], Apply(s, a).accepted, Apply(s, a).written)
  {
    StepGrows(s, a);
    var s' := Apply(s, a);
    if sid in s.sessions && s'.sessions[sid] == s.sessions[sid] {
      SessionGrows(s.sessions[sid], s.accepted, s.written, s'.accepted, s'.written);
    } else if a.Query? && a.answered {
      var k := s.sessions[sid].box;
      assert BoxOk(BoxOf(s, k), k, s.accepted);
      BagIsAccepted(a.bag, BoxOf(s, k), k, s.accepted);
    } else if a.WriteOne? {
      WriteKeepsSession(s.sessions[sid], s.accepted, s.written);
    }
  }

  // Under one name per message, neither overwriting nor deleting loses an accepted message.
  lemma StepKeepsMessage(s: State, a: Action, msgs: set<Message>, m: Message)
    requires Enabled(s, a) && DrainInv(s, msgs) && Consistent(msgs) && m in Apply(s, a).accepted
    ensures Kept(Apply(s, a), m)
  {
    StepGrows(s, a);
    var k := BoxFor(m);
    StepOnBox(s, a, k);
    assert BoxOk(BoxOf(s, k), k, s.accepted);
    if m in s.accepted && IsStored(s, m) && a.DeleteOne? && a.sid in s.sessions {
      var e := s.sessions[a.sid];
      if k == e.box && m.envelope.id == e.pending[0] {
        assert WrittenAs(s.written, e.box, e.pending[0]);
        var w :| w in s.written && BoxFor(w) == e.box && w.envelope.id == e.pending[0];
        assert SameSlot(m, w);
      }
    } else if a.Fallback? {
      var n := s.sends[a.tid].msg;
      assert SameSlot(m, n) ==> m == n || m !in msgs;
    }
  }

  lemma StepKeepsDrain(s: State, a: Action, msgs: set<Message>)
    requires Enabled(s, a) && DrainInv(s, msgs) && Consistent(msgs) && (a.StartSend? ==> a.msg in msgs)
    ensures DrainInv(Apply(s, a), msgs)
  {
    StepKeepsSends(s, a, msgs);
    StepKeepsStore(s, a);
    forall sid | sid in Apply(s, a).sessions
      ensures SessionOk(Apply(s, a).sessions[sid], Apply(s, a).accepted, Apply(s, a).written)
    {
      StepKeepsSession(s, a, sid);
    }
    forall m | m in Apply(s, a).accepted ensures Kept(Apply(s, a), m) {
      StepKeepsMessage(s, a, msgs, m);
    }
  }
}
