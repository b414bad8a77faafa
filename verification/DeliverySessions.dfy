/** What a websocket session does with its mailbox: whose it drains, in which order, what it deletes
    and when, and that nothing in the protocol keeps an undisturbed drain from completing. */
module DeliverySessions {
  import opened Types
  import opened Keys
  import opened Mailbox
  import opened Sorting
  import opened Delivery
  import opened DeliveryRuns

  // ---------- whose mailbox ----------

  lemma StepKeepsBox(s: State, a: Action, sid: nat)
    requires Enabled(s, a) && sid in s.sessions
    ensures sid in Apply(s, a).sessions && Apply(s, a).sessions[sid].box == s.sessions[sid].box
  {
  }

  /** A session keeps to the mailbox of the JID it was opened for: that peer's, at that mail node. */
  lemma {:induction false} SessionOwnsBox(states: seq<State>, actions: seq<Action>, j: nat)
    requires IsRun(states, actions) && j < |actions| && actions[j].Open?
    ensures actions[j].sid in Final(states).sessions
    ensures Final(states).sessions[actions[j].sid].box == BoxKey(Mailid(actions[j].owner), Peerid(actions[j].owner))
  {
    var n := |actions| - 1;
    RunPrefix(states, actions);
    if j < n {
      SessionOwnsBox(states[..n + 1], actions[..n], j);
      StepKeepsBox(states[n], actions[n], actions[j].sid);
    }
  }

  lemma RunUpTo(states: seq<State>, actions: seq<Action>, i: nat)
    requires IsRun(states, actions) && i < |actions|
    ensures IsRun(states[..i + 1], actions[..i]) && Final(states[..i + 1]) == states[i]
    ensures StepTo(states[i], actions[i], states[i + 1])
  {
    forall k | 0 <= k < i ensures StepTo(states[..i + 1][k], actions[..i][k], states[..i + 1][k + 1]) {
      assert StepTo(states[k], actions[k], states[k + 1]);
    }
    assert StepTo(states[i], actions[i], states[i + 1]);
  }

  /** A session opened for a JID and past its drain has written every message that was stored for that
      JID, at its mail node and under its peer id, when it queried. */
  lemma OwnMessagesAreWritten(states: seq<State>, actions: seq<Action>, j: nat, i: nat, m: Message)
    requires IsRun(states, actions) && j < i < |actions|
    requires actions[j].Open? && actions[i].Query? && actions[i].answered && actions[i].sid == actions[j].sid
    requires Mailid(m.envelope.to) == Mailid(actions[j].owner) && Peerid(m.envelope.to) == Peerid(actions[j].owner)
    requires IsStored(states[i], m) && m.envelope.id != ""
    requires actions[j].sid in Final(states).sessions && Final(states).sessions[actions[j].sid].phase.Live?
    ensures m in Final(states).written
  {
    RunUpTo(states, actions, i);
    SessionOwnsBox(states[..i + 1], actions[..i], j);
    assert BoxFor(m) == states[i].sessions[actions[j].sid].box;
    DrainWritesSnapshot(states, actions, i, actions[i].sid, m);
  }

  // ---------- in which order ----------

  lemma StepKeepsSorted(s: State, a: Action, sid: nat)
    requires Enabled(s, a) && sid in Apply(s, a).sessions
    requires sid in s.sessions ==> Sorted(ByCt(), s.sessions[sid].bag)
    ensures Sorted(ByCt(), Apply(s, a).sessions[sid].bag)
  {
  }

  /** A session writes its bag from the front, in non-decreasing order of time. */
  lemma {:induction false} WritesInOrder(states: seq<State>, actions: seq<Action>, sid: nat)
    requires IsRun(states, actions) && sid in Final(states).sessions
    ensures var e := Final(states).sessions[sid];
            && |e.todo| <= |e.bag| && e.bag[..|e.bag| - |e.todo|] + e.todo == e.bag
            && (forall i :: 0 <= i < |e.bag| - |e.todo| ==> e.bag[i] in Final(states).written)
            && (forall i, j :: 0 <= i < j < |e.bag| ==> e.bag[i].envelope.ct <= e.bag[j].envelope.ct)
  {
    RunKeepsSorted(states, actions, sid);
    RunKeepsProgress(states, actions, sid);
    ByCtIsTime(Final(states).sessions[sid].bag);
  }

  lemma {:induction false} RunKeepsSorted(states: seq<State>, actions: seq<Action>, sid: nat)
    requires IsRun(states, actions) && sid in Final(states).sessions
    ensures Sorted(ByCt(), Final(states).sessions[sid].bag)
  {
    if actions != [] {
      var n := |actions| - 1;
      RunPrefix(states, actions);
      if sid in states[n].sessions {
        RunKeepsSorted(states[..n + 1], actions[..n], sid);
      }
      StepKeepsSorted(states[n], actions[n], sid);
    }
  }

  // ---------- what is written ----------

  ghost predicate WroteIn(e: Session, m: Message) {
    exists i :: 0 <= i < |e.ids| && i < |e.bag| && e.bag[i] == m
  }

  function WriteCount(actions: seq<Action>, sid: nat): nat {
    if actions == [] then 0 else
      var n := |actions| - 1;
      WriteCount(actions[..n], sid) + if actions[n] == WriteOne(sid) then 1 else 0
  }

  lemma StepWrites(s: State, a: Action, m: Message, sid: nat)
    requires Enabled(s, a) && (sid in s.sessions ==> Progress(s.sessions[sid], s.written))
    ensures var wrote := a.WriteOne? && a.sid == sid && s.sessions[sid].todo[0] == m;
            (sid in Apply(s, a).sessions && WroteIn(Apply(s, a).sessions[sid], m)) <==>
            (sid in s.sessions && WroteIn(s.sessions[sid], m)) || wrote
  {
    if sid in s.sessions {
      var e, e' := s.sessions[sid], Apply(s, a).sessions[sid];
      if a == WriteOne(sid) {
        assert e.todo[0] == e.bag[|e.ids|];
        assert e'.bag[|e.ids|] == e.todo[0];
      }
    }
  }

  lemma StepWritten(s: State, a: Action, m: Message)
    requires Enabled(s, a)
    ensures m in Apply(s, a).written <==> m in s.written || (a.WriteOne? && s.sessions[a.sid].todo[0] == m)
  {
  }

  lemma {:induction false} WrittenInSession(states: seq<State>, actions: seq<Action>, m: Message)
    requires IsRun(states, actions)
    ensures var s := Final(states);
            m in s.written <==> exists sid :: sid in s.sessions && WroteIn(s.sessions[sid], m)
  {
    if actions != [] {
      var n := |actions| - 1;
      RunPrefix(states, actions);
      WrittenInSession(states[..n + 1], actions[..n], m);
      var s, s' := states[n], Final(states);
      StepWritten(s, actions[n], m);
      forall sid: nat
        ensures (sid in s'.sessions && WroteIn(s'.sessions[sid], m)) <==>
                (sid in s.sessions && WroteIn(s.sessions[sid], m))
                || (actions[n].WriteOne? && actions[n].sid == sid && s.sessions[sid].todo[0] == m)
      {
        if sid in s.sessions {
          RunKeepsProgress(states[..n + 1], actions[..n], sid);
        }
        StepWrites(s, actions[n], m, sid);
      }
    }
  }

  lemma {:induction false} IdsCountWrites(states: seq<State>, actions: seq<Action>, sid: nat)
    requires IsRun(states, actions)
    ensures var s := Final(states);
            WriteCount(actions, sid) == if sid in s.sessions then |s.sessions[sid].ids| else 0
  {
    if actions != [] {
      var n := |actions| - 1;
      RunPrefix(states, actions);
      IdsCountWrites(states[..n + 1], actions[..n], sid);
    }
  }

  /** What has been written to sockets is exactly what the sessions have written from the front of their
      bags, and a session has come as far in its bag as it took write steps. */
  lemma WrittenExactly(states: seq<State>, actions: seq<Action>)
    requires IsRun(states, actions)
    ensures var s := Final(states);
            forall m :: m in s.written <==> exists sid :: sid in s.sessions && WroteIn(s.sessions[sid], m)
    ensures forall sid :: sid in Final(states).sessions ==>
              var e := Final(states).sessions[sid];
              |e.ids| == |e.bag| - |e.todo| == WriteCount(actions, sid)
  {
    var s := Final(states);
    forall m ensures m in s.written <==> exists sid :: sid in s.sessions && WroteIn(s.sessions[sid], m) {
      WrittenInSession(states, actions, m);
    }
    forall sid | sid in s.sessions
      ensures var e := s.sessions[sid]; |e.ids| == |e.bag| - |e.todo| == WriteCount(actions, sid)
    {
      RunKeepsProgress(states, actions, sid);
      IdsCountWrites(states, actions, sid);
    }
  }

  // ---------- what is deleted, and when ----------

  function CleanRan(sid: nat): Action -> bool {
    (a: Action) => a.RequestClean? && a.sid == sid && a.runs
  }

  lemma StepPending(s: State, a: Action, sid: nat)
    requires Enabled(s, a) && sid in Apply(s, a).sessions && Apply(s, a).sessions[sid].pending != []
    ensures CleanRan(sid)(a) || (sid in s.sessions && s.sessions[sid].pending != [])
  {
  }

  /** Nothing waits to be deleted for a session whose clean request has not run. */
  lemma {:induction false} DeletesOnRequestOnly(states: seq<State>, actions: seq<Action>, sid: nat)
    requires IsRun(states, actions)
    requires sid in Final(states).sessions && Final(states).sessions[sid].pending != []
    ensures Has(actions, CleanRan(sid))
  {
    if actions != [] {
      var n := |actions| - 1;
      RunPrefix(states, actions);
      HasSnoc(actions, CleanRan(sid));
      StepPending(states[n], actions[n], sid);
      if sid in states[n].sessions && states[n].sessions[sid].pending != [] {
        DeletesOnRequestOnly(states[..n + 1], actions[..n], sid);
      }
    }
  }

  // What waits to be deleted are ids of messages that the session has written.
  ghost predicate PendingWritten(e: Session) {
    forall mid :: mid in e.pending ==> mid in e.ids
  }

  lemma StepKeepsPending(s: State, a: Action, sid: nat)
    requires Enabled(s, a) && sid in Apply(s, a).sessions
    requires sid in s.sessions ==> PendingWritten(s.sessions[sid])
    ensures PendingWritten(Apply(s, a).sessions[sid])
  {
  }

  lemma {:induction false} PendingIsWritten(states: seq<State>, actions: seq<Action>, sid: nat)
    requires IsRun(states, actions) && sid in Final(states).sessions
    ensures PendingWritten(Final(states).sessions[sid])
  {
    if actions != [] {
      var n := |actions| - 1;
      RunPrefix(states, actions);
      if sid in states[n].sessions {
        PendingIsWritten(states[..n + 1], actions[..n], sid);
      }
      StepKeepsPending(states[n], actions[n], sid);
    }
  }

  /** A session deletes nothing but what its bag holds, once it has written the message, and only after
      its clean request has run. */
  lemma DeletesOwnBagOnly(states: seq<State>, actions: seq<Action>, sid: nat, mid: string)
    requires IsRun(states, actions)
    requires sid in Final(states).sessions && mid in Final(states).sessions[sid].pending
    ensures Has(actions, CleanRan(sid))
    ensures var e := Final(states).sessions[sid];
            exists i :: 0 <= i < |e.bag| && e.bag[i].envelope.id == mid && e.bag[i] in Final(states).written
  {
    DeletesOnRequestOnly(states, actions, sid);
    PendingIsWritten(states, actions, sid);
    RunKeepsProgress(states, actions, sid);
    var e := Final(states).sessions[sid];
    var i :| 0 <= i < |e.ids| && e.ids[i] == mid;
    assert e.bag[i].envelope.id == mid;
  }

  // The step stores a message in this place.
  ghost predicate StoresAt(s: State, a: Action, k: BoxKey, mid: string)
    requires Enabled(s, a)
  {
    a.Fallback? && a.ran && BoxFor(s.sends[a.tid].msg) == k && s.sends[a.tid].msg.envelope.id == mid
  }

  // Still to be deleted, or gone.
  ghost predicate Doomed(s: State, sid: nat, k: BoxKey, mid: string) {
    && sid in s.sessions && s.sessions[sid].phase.Live? && s.sessions[sid].box == k
    && (mid in s.sessions[sid].pending || mid !in BoxOf(s, k))
  }

  lemma StepKeepsDoomed(s: State, a: Action, sid: nat, k: BoxKey, mid: string)
    requires Enabled(s, a) && Doomed(s, sid, k, mid) && !StoresAt(s, a, k, mid)
    ensures Doomed(Apply(s, a), sid, k, mid)
  {
    StepKeepsBox(s, a, sid);
    StepOnBox(s, a, k);
    if a.DeleteOne? && a.sid == sid && mid in s.sessions[sid].pending {
      var pending := s.sessions[sid].pending;
      assert pending == [pending[0]] + pending[1..];
    }
  }

  // Since step `i` nothing has been stored in this place.
  ghost predicate NoneStoredSince(states: seq<State>, actions: seq<Action>, i: nat, k: BoxKey, mid: string)
    requires IsRun(states, actions)
  {
    forall j {:trigger StepTo(states[j], actions[j], states[j + 1])} :: i < j < |actions| ==>
      StepTo(states[j], actions[j], states[j + 1]) && !StoresAt(states[j], actions[j], k, mid)
  }

  lemma {:induction false} DoomedSince(states: seq<State>, actions: seq<Action>, i: nat, mid: string)
    requires IsRun(states, actions) && i < |actions| && actions[i].RequestClean? && actions[i].runs
    requires actions[i].sid in states[i].sessions
    requires var e := states[i].sessions[actions[i].sid];
             && (exists k :: 0 <= k < |e.bag| && e.bag[k].envelope.id == mid)
             && NoneStoredSince(states, actions, i, e.box, mid)
    ensures Doomed(Final(states), actions[i].sid, states[i].sessions[actions[i].sid].box, mid)
  {
    var n, e := |actions| - 1, states[i].sessions[actions[i].sid];
    RunPrefix(states, actions);
    RunUpTo(states, actions, n);
    if i < n {
      forall j | i < j < n
        ensures StepTo(states[..n + 1][j], actions[..n][j], states[..n + 1][j + 1])
                && !StoresAt(states[..n + 1][j], actions[..n][j], e.box, mid)
      {
        assert StepTo(states[j], actions[j], states[j + 1]);
      }
      DoomedSince(states[..n + 1], actions[..n], i, mid);
      StepKeepsDoomed(states[n], actions[n], actions[i].sid, e.box, mid);
    } else {
      RunKeepsProgress(states[..n + 1], actions[..n], actions[i].sid);
      var k :| 0 <= k < |e.bag| && e.bag[k].envelope.id == mid;
      assert e.ids[k] == mid;
    }
  }

  /** Once a session's clean request has run and its deletions are through, every id of its bag is gone
      from the mailbox, unless a message has been stored under that id since. */
  lemma CleanTakesEffect(states: seq<State>, actions: seq<Action>, i: nat, mid: string)
    requires IsRun(states, actions) && i < |actions| && actions[i].RequestClean? && actions[i].runs
    requires actions[i].sid in states[i].sessions
    requires var e := states[i].sessions[actions[i].sid];
             && (exists k :: 0 <= k < |e.bag| && e.bag[k].envelope.id == mid)
             && NoneStoredSince(states, actions, i, e.box, mid)
    requires actions[i].sid in Final(states).sessions && Final(states).sessions[actions[i].sid].pending == []
    ensures mid !in BoxOf(Final(states), states[i].sessions[actions[i].sid].box)
  {
    DoomedSince(states, actions, i, mid);
  }

  // ---------- each request once ----------

  function Queried(sid: nat): Action -> bool {
    (a: Action) => a.Query? && a.sid == sid
  }

  function AskedClean(sid: nat): Action -> bool {
    (a: Action) => a.RequestClean? && a.sid == sid
  }

  ghost predicate PhaseAgrees(s: State, actions: seq<Action>, sid: nat) {
    && (sid !in s.sessions || s.sessions[sid].phase.Opened? ==> !Has(actions, Queried(sid)))
    && (sid !in s.sessions || !s.sessions[sid].phase.Live? ==> !Has(actions, AskedClean(sid)))
  }

  lemma StepPhase(s: State, a: Action, sid: nat)
    requires Enabled(s, a)
    ensures var s' := Apply(s, a);
            && (sid !in s'.sessions || s'.sessions[sid].phase.Opened? ==>
                  !Queried(sid)(a) && (sid !in s.sessions || s.sessions[sid].phase.Opened?))
            && (sid !in s'.sessions || !s'.sessions[sid].phase.Live? ==>
                  !AskedClean(sid)(a) && (sid !in s.sessions || !s.sessions[sid].phase.Live?))
  {
  }

  lemma {:induction false} PhaseTells(states: seq<State>, actions: seq<Action>, sid: nat)
    requires IsRun(states, actions)
    ensures PhaseAgrees(Final(states), actions, sid)
  {
    if actions != [] {
      var n := |actions| - 1;
      RunPrefix(states, actions);
      PhaseTells(states[..n + 1], actions[..n], sid);
      StepPhase(states[n], actions[n], sid);
      HasSnoc(actions, Queried(sid));
      HasSnoc(actions, AskedClean(sid));
    }
  }

  /** A session queries its mailbox once at most, and asks for its messages to be deleted once at most. */
  lemma {:induction false} QueriesOnce(states: seq<State>, actions: seq<Action>, sid: nat)
    requires IsRun(states, actions)
    ensures AtMostOnce(actions, Queried(sid)) && AtMostOnce(actions, AskedClean(sid))
  {
    if actions != [] {
      var n := |actions| - 1;
      RunPrefix(states, actions);
      QueriesOnce(states[..n + 1], actions[..n], sid);
      PhaseTells(states[..n + 1], actions[..n], sid);
      AtMostOnceSnoc(actions, Queried(sid));
      AtMostOnceSnoc(actions, AskedClean(sid));
    }
  }

  // ---------- when a request fails ----------

  ghost predicate Unanswered(actions: seq<Action>, sid: nat) {
    forall i :: 0 <= i < |actions| && actions[i].Query? && actions[i].sid == sid ==> !actions[i].answered
  }

  lemma StepKeepsEmpty(s: State, a: Action, sid: nat)
    requires Enabled(s, a) && sid in Apply(s, a).sessions
    requires sid in s.sessions ==> s.sessions[sid].bag == [] && !s.sessions[sid].phase.Writing?
    requires a.Query? && a.sid == sid ==> !a.answered
    ensures Apply(s, a).sessions[sid].bag == [] && !Apply(s, a).sessions[sid].phase.Writing?
  {
  }

  lemma {:induction false} UnansweredIsEmpty(states: seq<State>, actions: seq<Action>, sid: nat)
    requires IsRun(states, actions) && sid in Final(states).sessions && Unanswered(actions, sid)
    ensures Final(states).sessions[sid].bag == [] && !Final(states).sessions[sid].phase.Writing?
  {
    var n := |actions| - 1;
    RunPrefix(states, actions);
    if sid in states[n].sessions {
      UnansweredIsEmpty(states[..n + 1], actions[..n], sid);
    }
    StepKeepsEmpty(states[n], actions[n], sid);
  }

  /** A session whose query was not answered writes nothing and deletes nothing. */
  lemma UnansweredDoesNothing(states: seq<State>, actions: seq<Action>, sid: nat)
    requires IsRun(states, actions) && sid in Final(states).sessions && Unanswered(actions, sid)
    ensures WriteCount(actions, sid) == 0 && Final(states).sessions[sid].pending == []
  {
    UnansweredIsEmpty(states, actions, sid);
    WrittenExactly(states, actions);
    var e := Final(states).sessions[sid];
    if e.pending != [] {
      DeletesOwnBagOnly(states, actions, sid, e.pending[0]);
    }
  }

  /** A drain whose clean request fails has written the whole bag and leaves the mailbox as it was, so
      that the next session is given the same messages again. */
  lemma FailedCleanKeepsBox(states: seq<State>, actions: seq<Action>, sid: nat, owner: JID, bag: seq<Message>)
    returns (states': seq<State>, actions': seq<Action>)
    requires IsRun(states, actions) && sid !in Final(states).sessions
    requires var box := BoxOf(Final(states), BoxKey(Mailid(owner), Peerid(owner)));
             Sorted(ByCt(), bag) && IsBagOf(bag, box)
    ensures IsRun(states', actions') && Final(states').boxes == Final(states).boxes
    ensures sid in Final(states').sessions && Final(states').sessions[sid].phase.Live?
    ensures Final(states').sessions[sid].pending == []
    ensures forall i :: 0 <= i < |bag| ==> bag[i] in Final(states').written
  {
    var states1, actions1 := OpenAndQuery(states, actions, sid, owner, bag);
    states', actions' := WriteAll(states1, actions1, sid);
    var a := RequestClean(sid, false);
    RunExtend(states', actions', a);
    states', actions' := states' + [Apply(Final(states'), a)], actions' + [a];
    RunKeepsProgress(states', actions', sid);
  }

  // ---------- an undisturbed drain ----------

  lemma {:induction false} WriteAll(states: seq<State>, actions: seq<Action>, sid: nat)
    returns (states': seq<State>, actions': seq<Action>)
    requires IsRun(states, actions) && InPhase(Final(states), sid, Writing)
    ensures IsRun(states', actions') && InPhase(Final(states'), sid, Writing)
    ensures Final(states').sessions[sid].todo == []
    ensures Final(states').sessions[sid].bag == Final(states).sessions[sid].bag
    ensures Final(states').sessions[sid].box == Final(states).sessions[sid].box
    ensures Final(states').boxes == Final(states).boxes
    decreases |Final(states).sessions[sid].todo|
  {
    if Final(states).sessions[sid].todo == [] {
      states', actions' := states, actions;
    } else {
      var a := WriteOne(sid);
      RunExtend(states, actions, a);
      states', actions' := WriteAll(states + [Apply(Final(states), a)], actions + [a], sid);
    }
  }

  lemma {:induction false} DeleteAll(states: seq<State>, actions: seq<Action>, sid: nat)
    returns (states': seq<State>, actions': seq<Action>)
    requires IsRun(states, actions) && InPhase(Final(states), sid, Live)
    ensures IsRun(states', actions') && InPhase(Final(states'), sid, Live)
    ensures Final(states').sessions[sid].box == Final(states).sessions[sid].box
    ensures Final(states').written == Final(states).written
    ensures var k, pending := Final(states).sessions[sid].box, Final(states).sessions[sid].pending;
            BoxOf(Final(states'), k) == Cleaned(BoxOf(Final(states), k), pending)
    decreases |Final(states).sessions[sid].pending|
  {
    var s := Final(states);
    var pending := s.sessions[sid].pending;
    if pending == [] {
      states', actions' := states, actions;
    } else {
      var a := DeleteOne(sid);
      RunExtend(states, actions, a);
      states', actions' := DeleteAll(states + [Apply(s, a)], actions + [a], sid);
      CleanedCons(BoxOf(s, s.sessions[sid].box), pending);
    }
  }

  lemma CleanedCons(box: Box, ids: seq<string>)
    requires ids != []
    ensures Cleaned(box - {ids[0]}, ids[1..]) == Cleaned(box, ids)
  {
    assert (set i | 0 <= i < |ids| :: ids[i]) == {ids[0]} + (set i | 0 <= i < |ids[1..]| :: ids[1..][i]);
  }

  /** From any state of any run a new session can open, query, write its whole bag and have it deleted:
      every visible message of the mailbox has then been written, and only messages with an empty id are
      left in it. */
  lemma DrainCanComplete(states: seq<State>, actions: seq<Action>, sid: nat, owner: JID, bag: seq<Message>)
    returns (states': seq<State>, actions': seq<Action>)
    requires IsRun(states, actions) && sid !in Final(states).sessions
    requires var box := BoxOf(Final(states), BoxKey(Mailid(owner), Peerid(owner)));
             Sorted(ByCt(), bag) && IsBagOf(bag, box) && Named(box)
    ensures IsRun(states', actions')
    ensures forall m :: Visible(BoxOf(Final(states), BoxKey(Mailid(owner), Peerid(owner))), m) ==>
              m in Final(states').written
    ensures forall mid :: mid in BoxOf(Final(states'), BoxKey(Mailid(owner), Peerid(owner))) ==> mid == ""
  {
    var k := BoxKey(Mailid(owner), Peerid(owner));
    var box := BoxOf(Final(states), k);
    var states1, actions1 := OpenAndQuery(states, actions, sid, owner, bag);
    var states2, actions2 := WriteAll(states1, actions1, sid);
    RunKeepsProgress(states2, actions2, sid);
    var ids := Final(states2).sessions[sid].ids;
    var a := RequestClean(sid, true);
    RunExtend(states2, actions2, a);
    states', actions' := DeleteAll(states2 + [Apply(Final(states2), a)], actions2 + [a], sid);
    BagCleans(box, bag, ids);
    forall m | Visible(box, m) ensures m in Final(states').written {
      assert m in multiset(bag);
      var i :| 0 <= i < |bag| && bag[i] == m;
    }
  }

  lemma OpenAndQuery(states: seq<State>, actions: seq<Action>, sid: nat, owner: JID, bag: seq<Message>)
    returns (states': seq<State>, actions': seq<Action>)
    requires IsRun(states, actions) && sid !in Final(states).sessions
    requires Sorted(ByCt(), bag) && IsBagOf(bag, BoxOf(Final(states), BoxKey(Mailid(owner), Peerid(owner))))
    ensures IsRun(states', actions') && InPhase(Final(states'), sid, Writing)
    ensures Final(states').sessions[sid].bag == bag
    ensures Final(states').sessions[sid].box == BoxKey(Mailid(owner), Peerid(owner))
    ensures Final(states').boxes == Final(states).boxes
  {
    var a := Open(sid, owner);
    RunExtend(states, actions, a);
    states', actions' := states + [Apply(Final(states), a)], actions + [a];
    var b := Query(sid, true, bag);
    RunExtend(states', actions', b);
    states', actions' := states' + [Apply(Final(states'), b)], actions' + [b];
  }

  lemma BagCleans(box: Box, bag: seq<Message>, ids: seq<string>)
    requires Named(box) && IsBagOf(bag, box)
    requires |ids| == |bag| && forall i :: 0 <= i < |ids| ==> ids[i] == bag[i].envelope.id
    ensures forall mid :: mid in Cleaned(box, ids) ==> mid == ""
  {
    forall mid | mid in box && mid != "" ensures mid in ids {
      assert Visible(box, box[mid]);
      assert box[mid] in multiset(bag);
      var i :| 0 <= i < |bag| && bag[i] == box[mid];
      assert ids[i] == mid;
    }
  }
}
