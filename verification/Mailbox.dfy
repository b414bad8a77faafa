/** mailbox.go: messages stored under the recipient's peer id in the shared physical store. */
module Mailbox {
  import opened Types
  import opened Codec
  import opened Keys
  import opened Ldb
  import opened Sorting

  // ---------- a mailbox as a plain map ----------

  type Box = map<string, Message>

  datatype MailOp = PutMail(msg: Message) | CleanMail(jid: JID, ids: seq<string>)

  function MailPeer(op: MailOp): string {
    match op
    case PutMail(msg) => Peerid(msg.envelope.to)
    case CleanMail(jid, _) => Peerid(jid)
  }

  function Cleaned(box: Box, ids: seq<string>): Box {
    box - (set i | 0 <= i < |ids| :: ids[i])
  }

  function BoxStep(peer: string, box: Box, op: MailOp): Box {
    if MailPeer(op) != peer then box
    else match op
      case PutMail(msg) => box[msg.envelope.id := msg]
      case CleanMail(_, ids) => Cleaned(box, ids)
  }

  function BoxRun(peer: string, ops: seq<MailOp>): Box {
    if ops == [] then map[] else BoxStep(peer, BoxRun(peer, ops[..|ops| - 1]), ops[|ops| - 1])
  }

  // Messages are stored under their own ids.
  ghost predicate Named(box: Box) {
    forall mid :: mid in box ==> box[mid].envelope.id == mid
  }

  // The call stores or deletes under `mid`.
  predicate Touches(peer: string, mid: string, op: MailOp) {
    match op
    case PutMail(msg) => Peerid(msg.envelope.to) == peer && msg.envelope.id == mid
    case CleanMail(jid, ids) => Peerid(jid) == peer && mid in ids
  }

  // Put `i` is still in force at the end of the run.
  ghost predicate Survives(peer: string, ops: seq<MailOp>, i: int) {
    && 0 <= i < |ops|
    && ops[i].PutMail? && Peerid(ops[i].msg.envelope.to) == peer
    && (forall j :: i < j < |ops| ==> !Touches(peer, ops[i].msg.envelope.id, ops[j]))
  }

  // `m` is a last-put, not-since-cleaned message.
  ghost predicate IsSurvivor(peer: string, ops: seq<MailOp>, m: Message) {
    exists i :: Survives(peer, ops, i) && ops[i].msg == m
  }

  lemma SurvivesSnoc(peer: string, ops: seq<MailOp>, i: int)
    requires ops != [] && 0 <= i < |ops| - 1
    ensures Survives(peer, ops, i) <==>
            Survives(peer, ops[..|ops| - 1], i)
            && !Touches(peer, ops[i].msg.envelope.id, ops[|ops| - 1])
  {
  }

  /** A mailbox holds exactly the last-put, not-since-cleaned message of each id of its peer. */
  lemma {:induction false} BoxHoldsSurvivors(peer: string, ops: seq<MailOp>, m: Message)
    ensures Named(BoxRun(peer, ops))
    ensures (m.envelope.id in BoxRun(peer, ops) && BoxRun(peer, ops)[m.envelope.id] == m) <==>
            IsSurvivor(peer, ops, m)
  {
    if ops != [] {
      var n := |ops| - 1;
      var front, op := ops[..n], ops[n];
      BoxHoldsSurvivors(peer, front, m);
      if i :| Survives(peer, ops, i) && ops[i].msg == m {
        if i < n {
          SurvivesSnoc(peer, ops, i);
          assert Survives(peer, front, i) && front[i].msg == m;
        }
      }
      var box := BoxRun(peer, ops);
      if m.envelope.id in box && box[m.envelope.id] == m {
        if op.PutMail? && MailPeer(op) == peer && op.msg == m {
          assert Survives(peer, ops, n);
        } else {
          var i :| Survives(peer, front, i) && front[i].msg == m;
          SurvivesSnoc(peer, ops, i);
          assert Survives(peer, ops, i) && ops[i].msg == m;
        }
      }
    }
  }

  // ---------- the mailbox in the physical store ----------

  ghost predicate ShowsBox(kv: Store, c: Codecs, peer: string, box: Box) {
    forall mid {:trigger MsgKey(peer, mid)} ::
      Lookup(kv, MsgKey(peer, mid)) == if mid in box then Some(c.msg.encode(box[mid])) else None
  }

  predicate InTable(peer: string, k: string) {
    peer <= k
  }

  ghost predicate SameOutsideTable(kv: Store, kv': Store, peer: string) {
    forall k {:trigger InTable(peer, k)} :: !InTable(peer, k) ==> Lookup(kv', k) == Lookup(kv, k)
  }

  lemma MsgKeysOfOnePeer(peer: string)
    ensures forall x, y {:trigger MsgKey(peer, x), MsgKey(peer, y)} :: MsgKey(peer, x) == MsgKey(peer, y) ==> x == y
    ensures forall x {:trigger MsgKey(peer, x)} :: InTable(peer, MsgKey(peer, x))
  {
    forall x, y ensures MsgKey(peer, x) == MsgKey(peer, y) ==> x == y {
      SamePrefix(peer, x, y);
    }
  }

  // ---------- order of a message bag ----------

  function ByCt(): (Message, Message) -> bool {
    (a: Message, b: Message) => a.envelope.ct <= b.envelope.ct
  }

  /** A sorted bag is in non-decreasing order of time. */
  lemma ByCtIsTime(bag: seq<Message>)
    ensures Sorted(ByCt(), bag) <==>
            forall i, j :: 0 <= i < j < |bag| ==> bag[i].envelope.ct <= bag[j].envelope.ct
  {
    forall i, j | 0 <= i < j < |bag|
      ensures ByCt()(bag[i], bag[j]) <==> bag[i].envelope.ct <= bag[j].envelope.ct
    {
    }
  }

  // The messages a query of `box` returns: each stored one with a non-empty id, once.
  ghost predicate IsBagOf(bag: seq<Message>, box: Box) {
    forall m: Message :: multiset(bag)[m] == if Visible(box, m) then 1 else 0
  }

  predicate Visible(box: Box, m: Message) {
    m.envelope.id != "" && m.envelope.id in box && box[m.envelope.id] == m
  }

  class Mailbox {
    const ldb: LDBDatabase
    const codecs: Codecs

    constructor (ldb: LDBDatabase, codecs: Codecs)
      requires codecs.Valid()
      ensures this.ldb == ldb && this.codecs == codecs
    {
      this.ldb, this.codecs := ldb, codecs;
    }

    function TableOf(peer: string): (d: Database)
      ensures Physical(d) == ldb && FullPrefix(d) == peer
    {
      assert Physical(Root(ldb)) == ldb && FullPrefix(Root(ldb)) == "";
      Table(Root(ldb), peer)
    }

    method PutMsg(msg: Message, ghost box: Box)
      requires ShowsBox(ldb.kv, codecs, Peerid(msg.envelope.to), box)
      modifies ldb
      ensures ShowsBox(ldb.kv, codecs, Peerid(msg.envelope.to), box[msg.envelope.id := msg])
      ensures SameOutsideTable(old(ldb.kv), ldb.kv, Peerid(msg.envelope.to))
    {
      var id := Peerid(msg.envelope.to);
      MsgKeysOfOnePeer(id);
      Put(TableOf(id), msg.envelope.id, codecs.msg.encode(msg));
      assert ldb.kv == old(ldb.kv)[MsgKey(id, msg.envelope.id) := codecs.msg.encode(msg)];
    }

    method DoCleanMsg(jid: JID, ids: seq<string>, ghost box: Box)
      requires ShowsBox(ldb.kv, codecs, Peerid(jid), box)
      modifies ldb
      ensures ShowsBox(ldb.kv, codecs, Peerid(jid), Cleaned(box, ids))
      ensures SameOutsideTable(old(ldb.kv), ldb.kv, Peerid(jid))
    {
      var id := Peerid(jid);
      var i := 0;
      while i < |ids|
        invariant 0 <= i <= |ids|
        invariant ShowsBox(ldb.kv, codecs, id, Cleaned(box, ids[..i]))
        invariant SameOutsideTable(old(ldb.kv), ldb.kv, id)
      {
        DeleteOne(id, ids[i], Cleaned(box, ids[..i]));
        assert Cleaned(box, ids[..i]) - {ids[i]} == Cleaned(box, ids[..i + 1]);
        i := i + 1;
      }
      assert ids[..i] == ids;
    }

    method DeleteOne(peer: string, mid: string, ghost box: Box)
      requires ShowsBox(ldb.kv, codecs, peer, box)
      modifies ldb
      ensures ShowsBox(ldb.kv, codecs, peer, box - {mid})
      ensures SameOutsideTable(old(ldb.kv), ldb.kv, peer)
    {
      MsgKeysOfOnePeer(peer);
      Delete(TableOf(peer), mid);
      assert ldb.kv == old(ldb.kv) - {MsgKey(peer, mid)};
    }

    /** The iterator runs over the whole physical store, in any order; `Kfilter` keeps the keys of
        this peer. The bag is each stored message with a non-empty id, once, by time. */
    method DoQueryMsg(jid: JID, ghost box: Box) returns (bag: seq<Message>)
      requires codecs.Valid() && ShowsBox(ldb.kv, codecs, Peerid(jid), box) && Named(box)
      ensures IsBagOf(bag, box)
      ensures forall i, j :: 0 <= i < j < |bag| ==> bag[i].envelope.ct <= bag[j].envelope.ct
      ensures Sorted(ByCt(), bag)
    {
      var id := Peerid(jid);
      var snapshot := NewIterator(TableOf(id));
      var sl: seq<Message> := [];
      var rest := snapshot.Keys;
      while rest != {}
        invariant rest <= snapshot.Keys
        invariant forall m: Message :: multiset(sl)[m] ==
                    if Visible(box, m) && MsgKey(id, m.envelope.id) !in rest then 1 else 0
        decreases rest
      {
        var k :| k in rest;
        ghost var before, left := sl, rest;
        rest := rest - {k};
        if Kfilter(id, k) {
          ghost var mid := k[|id|..];
          assert k == MsgKey(id, mid);
          assert Lookup(snapshot, k) == Some(snapshot[k]);
          var m := codecs.msg.decode(snapshot[k]);
          if m.Some? {
            sl := sl + [m.value];
          }
          CollectOne(box, id, before, left, mid, m.value);
        } else {
          SkipOne(box, id, k);
        }
      }
      AllCollected(ldb.kv, codecs, id, box);
      var ml := new Message[|sl|](i requires 0 <= i < |sl| => sl[i]);
      assert ml[..] == sl;
      Sort(ByCt(), ml);
      bag := ml[..];
      ByCtIsTime(bag);
    }
  }

  lemma CollectOne(box: Box, id: string, sl: seq<Message>, left: set<string>, mid: string,
                                      found: Message)
    requires Named(box) && mid != "" && mid in box && box[mid] == found && MsgKey(id, mid) in left
    requires forall m: Message :: multiset(sl)[m] ==
               if Visible(box, m) && MsgKey(id, m.envelope.id) !in left then 1 else 0
    ensures forall m: Message :: multiset(sl + [found])[m] ==
              if Visible(box, m) && MsgKey(id, m.envelope.id) !in left - {MsgKey(id, mid)} then 1 else 0
  {
    MsgKeysOfOnePeer(id);
    assert multiset(sl + [found]) == multiset(sl) + multiset{found};
  }

  // A key that is not longer than the prefix, or does not begin with it, is no visible message.
  lemma SkipOne(box: Box, id: string, k: string)
    requires !Kfilter(id, k)
    ensures forall m: Message :: Visible(box, m) ==> MsgKey(id, m.envelope.id) != k
  {
  }

  lemma AllCollected(kv: Store, c: Codecs, id: string, box: Box)
    requires ShowsBox(kv, c, id, box)
    ensures forall m: Message :: Visible(box, m) ==> MsgKey(id, m.envelope.id) in kv
  {
  }
}
