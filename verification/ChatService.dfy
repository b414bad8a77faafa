/** The stateful pieces behind the delivery steps: a node's receive queue with its registered
    handlers (service.go), and a websocket session's drain loop (rpc/server.go). Each method is one
    atomic step, and is proved to be the matching step of `Delivery` and of `ServiceRuns`. */
module ChatService {
  import opened Types
  import opened Mailbox
  import opened Delivery
  import opened ServiceRuns

  class ChatService {
    var recvMsgCh: seq<Message>
    var stopped: bool
    var handleMsgFn: set<string>
    var calls: multiset<Call>
    ghost var history: Inbox

    // The history agrees with the fields and satisfies the queue's accounting.
    ghost predicate Valid()
      reads this
    {
      history.queue == recvMsgCh && history.stopped == stopped && InboxOk(history)
    }

    ghost function Now(): Service
      reads this
    {
      Service(history, handleMsgFn, calls)
    }

    constructor ()
      ensures Valid() && Now() == NEW && recvMsgCh == [] && !stopped
      ensures history == FRESH && handleMsgFn == {} && calls == multiset{}
    {
      recvMsgCh, stopped, handleMsgFn, calls := [], false, {}, multiset{};
      history := FRESH;
    }

    // `uuid` is the fresh id that the generator produced for this call.
    method AppendHandleMsg(uuid: string) returns (fid: string)
      requires Valid() && uuid !in handleMsgFn
      modifies this`handleMsgFn
      ensures Valid() && fid == uuid && handleMsgFn == old(handleMsgFn) + {fid}
      ensures Takes(old(Now()), Register(fid), Now())
    {
      fid := uuid;
      handleMsgFn := handleMsgFn + {fid};
    }

    method DropHandleMsg(fid: string)
      requires Valid()
      modifies this`handleMsgFn
      ensures Valid() && handleMsgFn == old(handleMsgFn) - {fid}
      ensures Takes(old(Now()), Unregister(fid), Now())
    {
      handleMsgFn := handleMsgFn - {fid};
    }

    // Closing the stop channel a second time panics: then `ok` is false and nothing has changed.
    method StopService() returns (ok: bool)
      requires Valid()
      modifies this`stopped, this`history
      ensures Valid() && stopped && ok == !old(stopped) && history == old(history).(stopped := true)
      ensures ok ==> Takes(old(Now()), Close, Now())
    {
      if stopped { return false; }
      stopped := true;
      history := history.(stopped := true);
      ok := true;
    }

    /** The body of the request handler: it proceeds when the queue has room, or, once the node is
        stopping, by the other branch of the select, which acknowledges without queueing. */
    method HandleNormal(msg: Message, viaStop: bool)
      requires Valid() && CanReceive(history, viaStop)
      modifies this`recvMsgCh, this`history
      ensures Valid() && Takes(old(Now()), Arrive(msg, viaStop), Now())
      ensures recvMsgCh == old(recvMsgCh) + if viaStop then [] else [msg]
      ensures history.acked == old(history.acked) + [msg]
    {
      ReceiveKeeps(history, msg, viaStop);
      if !viaStop {
        recvMsgCh := recvMsgCh + [msg];
      }
      history := Receive(history, msg, viaStop);
    }

    /** One turn of the dispatch loop: the oldest queued message goes to every registered handler,
        to each exactly once, and to no other. */
    method DispatchNext()
      requires Valid() && recvMsgCh != []
      modifies this`recvMsgCh, this`history, this`calls
      ensures Valid() && Takes(old(Now()), Turn, Now())
      ensures recvMsgCh == old(recvMsgCh)[1..]
      ensures history.dispatched == old(history.dispatched) + [old(recvMsgCh)[0]]
      ensures forall c :: calls[c] ==
                old(calls)[c] + if c.msg == old(recvMsgCh)[0] && c.fid in handleMsgFn then 1 else 0
    {
      DispatchKeeps(history);
      var msg := recvMsgCh[0];
      recvMsgCh := recvMsgCh[1..];
      history := DispatchOne(history);
      Spawn(msg);
    }

    method Spawn(msg: Message)
      modifies this`calls
      ensures forall c :: calls[c] == old(calls)[c] + if c.msg == msg && c.fid in handleMsgFn then 1 else 0
    {
      var rest := handleMsgFn;
      while rest != {}
        invariant rest <= handleMsgFn
        invariant forall c :: calls[c] ==
                    old(calls)[c] + if c.msg == msg && c.fid in handleMsgFn - rest then 1 else 0
        decreases rest
      {
        var fid :| fid in rest;
        calls := calls + multiset{Call(fid, msg)};
        rest := rest - {fid};
      }
    }
  }

  function MessageIds(bag: seq<Message>): (ids: seq<string>)
    ensures |ids| == |bag| && forall i :: 0 <= i < |bag| ==> ids[i] == bag[i].envelope.id
  {
    seq(|bag|, i requires 0 <= i < |bag| => bag[i].envelope.id)
  }

  class WebSocket {
    var out: seq<Message>

    constructor ()
      ensures out == []
    {
      out := [];
    }

    /** Every message of the bag is written, in order, and the ids handed to the clean request are
        those of the written messages and no others. */
    method Drain(bag: seq<Message>) returns (ids: seq<string>)
      modifies this
      ensures out == old(out) + bag && ids == MessageIds(bag)
    {
      ids := [];
      var i := 0;
      while i < |bag|
        invariant 0 <= i <= |bag|
        invariant out == old(out) + bag[..i] && ids == MessageIds(bag[..i])
      {
        ids := ids + [bag[i].envelope.id];
        out := out + [bag[i]];
        i := i + 1;
      }
      assert bag[..i] == bag;
    }
  }

  /** Cleaning exactly the ids of a drained snapshot leaves in the mailbox exactly the messages the
      snapshot did not show: those with an empty id and those stored under new ids since. */
  lemma DrainThenClean(before: Box, after: Box, bag: seq<Message>)
    requires Named(before) && IsBagOf(bag, before)
    ensures forall mid :: mid in Cleaned(after, MessageIds(bag)) <==>
              mid in after && (mid == "" || mid !in before)
  {
    var ids := MessageIds(bag);
    forall mid ensures mid in ids <==> mid != "" && mid in before {
      if mid in ids {
        var i :| 0 <= i < |ids| && ids[i] == mid;
        assert bag[i] in multiset(bag);
        assert Visible(before, bag[i]);
      }
      if mid != "" && mid in before {
        assert Visible(before, before[mid]);
        assert before[mid] in multiset(bag);
        var i :| 0 <= i < |bag| && bag[i] == before[mid];
        assert ids[i] == mid;
      }
    }
  }
}
