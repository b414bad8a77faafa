/** The action log: a second doubly linked structure, with its own cached last entry, in which
    every attempt leaves a record but only the successful ones become part of the chain. */
module GroupLog {
  import opened Types
  import opened Links
  import opened GroupModel

  datatype Entry = Entry(logId: string, action: string, memberId: JID)

  function EntryOf(s: GroupState, op: Op): Entry {
    Entry(op.logId, ActionOf(s, op), SubjectOf(op))
  }

  function LogAfter(log: seq<Entry>, s: GroupState, op: Op): seq<Entry> {
    if Accepted(s, op) then log + [EntryOf(s, op)] else log
  }

  function FailedAfter(failed: set<string>, s: GroupState, op: Op): set<string> {
    if Attempts(s, op) && !Accepted(s, op) then failed + {op.logId} else failed
  }

  function PendingAfter(pending: string, s: GroupState, op: Op): string {
    if !Attempts(s, op) then pending else if Accepted(s, op) then "" else op.logId
  }

  // The successful member actions of a run, oldest first.
  function Logged(ops: seq<Op>): seq<Entry> {
    if ops == [] then []
    else LogAfter(Logged(ops[..|ops| - 1]), Run(ops[..|ops| - 1]), ops[|ops| - 1])
  }

  // The log ids of the attempts that failed.
  function Failed(ops: seq<Op>): set<string> {
    if ops == [] then {}
    else FailedAfter(Failed(ops[..|ops| - 1]), Run(ops[..|ops| - 1]), ops[|ops| - 1])
  }

  // The latest attempt's log id, if that attempt failed.
  function Pending(ops: seq<Op>): string {
    if ops == [] then ""
    else PendingAfter(Pending(ops[..|ops| - 1]), Run(ops[..|ops| - 1]), ops[|ops| - 1])
  }

  // The record of entry `i` when the last entry's `Next` is `after`.
  function Stored(log: seq<Entry>, i: int, after: string): MemberLog
    requires 0 <= i < |log|
  {
    MemberLog(log[i].logId,
              if i == 0 then "" else log[i - 1].logId,
              if i == |log| - 1 then after else log[i + 1].logId,
              log[i].action, "", log[i].memberId)
  }

  ghost predicate InLog(log: seq<Entry>, k: string) {
    exists i :: 0 <= i < |log| && log[i].logId == k
  }

  ghost predicate DistinctIds(log: seq<Entry>, failed: set<string>) {
    && "" !in failed
    && (forall i :: 0 <= i < |log| ==> log[i].logId != "" && log[i].logId !in failed)
    && (forall i, j :: 0 <= i < j < |log| ==> log[i].logId != log[j].logId)
  }

  ghost predicate Chained(logs: map<string, MemberLog>, log: seq<Entry>, pending: string) {
    forall i {:trigger Stored(log, i, pending)} :: 0 <= i < |log| ==>
      log[i].logId in logs && logs[log[i].logId] == Stored(log, i, pending)
  }

  ghost predicate LogHolds(logs: map<string, MemberLog>, lastLog: Option<MemberLog>,
                           log: seq<Entry>, failed: set<string>, pending: string)
  {
    && DistinctIds(log, failed)
    && (pending == "" || pending in failed)
    && (forall k :: k in logs <==> k in failed || InLog(log, k))
    && Chained(logs, log, pending)
    && (forall k :: k in failed ==> k in logs && logs[k].id == k && logs[k].next == "")
    && lastLog == if log == [] then None else Some(Stored(log, |log| - 1, ""))
  }

  ghost predicate LogChain(s: GroupState, log: seq<Entry>, failed: set<string>, pending: string) {
    LogHolds(s.logs, s.lastLog, log, failed, pending)
  }

  // ---------- one step ----------

  lemma RelinkChained(s: GroupState, log: seq<Entry>, failed: set<string>, pending: string,
                                         e: Entry)
    requires LogChain(s, log, failed, pending) && e.logId !in s.logs
    ensures Chained(Attempt(s, e.action, e.memberId, e.logId).logs, log, e.logId)
  {
    var logs := Attempt(s, e.action, e.memberId, e.logId).logs;
    forall i | 0 <= i < |log|
      ensures log[i].logId in logs && logs[log[i].logId] == Stored(log, i, e.logId)
    {
      assert s.logs[log[i].logId] == Stored(log, i, pending);
    }
  }

  lemma AttemptFails(s: GroupState, log: seq<Entry>, failed: set<string>, pending: string,
                                        e: Entry)
    requires LogChain(s, log, failed, pending) && e.logId != "" && e.logId !in s.logs
    ensures LogHolds(Attempt(s, e.action, e.memberId, e.logId).logs, s.lastLog, log, failed + {e.logId}, e.logId)
  {
    RelinkChained(s, log, failed, pending, e);
    AttemptKeys(s, log, failed, pending, e);
  }

  // An attempt adds its own record; a failed attempt's record is otherwise left as it was.
  lemma AttemptKeys(s: GroupState, log: seq<Entry>, failed: set<string>, pending: string,
                                       e: Entry)
    requires LogChain(s, log, failed, pending) && e.logId !in s.logs
    ensures var logs := Attempt(s, e.action, e.memberId, e.logId).logs;
            && (forall k :: k in logs <==> k in s.logs || k == e.logId)
            && (forall k :: k in failed ==> k in s.logs && logs[k] == s.logs[k])
    ensures forall i :: 0 <= i < |log| ==> log[i].logId in s.logs
  {
  }

  lemma AttemptChained(s: GroupState, log: seq<Entry>, failed: set<string>, pending: string,
                                          e: Entry)
    requires LogChain(s, log, failed, pending) && e.logId !in s.logs
    ensures Chained(Attempt(s, e.action, e.memberId, e.logId).logs, log + [e], "")
  {
    var logs := Attempt(s, e.action, e.memberId, e.logId).logs;
    forall i | 0 <= i < |log| + 1
      ensures (log + [e])[i].logId in logs && logs[(log + [e])[i].logId] == Stored(log + [e], i, "")
    {
      if i < |log| {
        assert s.logs[log[i].logId] == Stored(log, i, pending);
      }
    }
  }

  lemma AttemptSucceeds(s: GroupState, log: seq<Entry>, failed: set<string>, pending: string,
                                           e: Entry)
    requires LogChain(s, log, failed, pending) && e.logId != "" && e.logId !in s.logs
    ensures LogHolds(Attempt(s, e.action, e.memberId, e.logId).logs,
                     Some(NewLog(s, e.action, e.memberId, e.logId)), log + [e], failed, "")
  {
    AttemptChained(s, log, failed, pending, e);
    AttemptKeys(s, log, failed, pending, e);
    forall k ensures InLog(log + [e], k) <==> InLog(log, k) || k == e.logId {
      InLogSnoc(log, e, k);
    }
  }

  lemma InLogSnoc(log: seq<Entry>, e: Entry, k: string)
    ensures InLog(log + [e], k) <==> InLog(log, k) || k == e.logId
  {
    if InLog(log, k) {
      var i :| 0 <= i < |log| && log[i].logId == k;
      assert (log + [e])[i].logId == k;
    }
    assert (log + [e])[|log|] == e;
  }

  // ---------- whole runs ----------

  ghost predicate FreshIds(ops: seq<Op>) {
    && (forall i :: 0 <= i < |ops| ==> ops[i].logId != "")
    && (forall i, j :: 0 <= i < j < |ops| ==> ops[i].logId != ops[j].logId)
  }

  function UsedIds(ops: seq<Op>): set<string> {
    set i | 0 <= i < |ops| :: ops[i].logId
  }

  lemma UsedIdsSnoc(ops: seq<Op>)
    requires ops != []
    ensures UsedIds(ops) == UsedIds(ops[..|ops| - 1]) + {ops[|ops| - 1].logId}
    ensures (forall i, j :: 0 <= i < j < |ops| ==> ops[i].logId != ops[j].logId) ==>
              ops[|ops| - 1].logId !in UsedIds(ops[..|ops| - 1])
  {
  }

  lemma {:induction false} LogKeysUsed(ops: seq<Op>)
    ensures forall k :: k in Failed(ops) || InLog(Logged(ops), k) ==> k in UsedIds(ops)
  {
    if ops != [] {
      var n := |ops| - 1;
      LogKeysUsed(ops[..n]);
      UsedIdsSnoc(ops);
    }
  }

  lemma LogStep(s: GroupState, log: seq<Entry>, failed: set<string>, pending: string, op: Op)
    requires LogChain(s, log, failed, pending) && op.logId != "" && op.logId !in s.logs
    ensures LogChain(Step(s, op), LogAfter(log, s, op), FailedAfter(failed, s, op), PendingAfter(pending, s, op))
  {
    if Accepted(s, op) {
      AttemptSucceeds(s, log, failed, pending, EntryOf(s, op));
      assert Step(s, op).logs == Attempt(s, ActionOf(s, op), SubjectOf(op), op.logId).logs;
    } else if Attempts(s, op) {
      AttemptFails(s, log, failed, pending, EntryOf(s, op));
    }
  }

  /** In every run, whatever is added, removed or refused, the stored log is the chain of the
      successful actions; failed attempts are stored beside it. */
  lemma {:induction false} LogOfRun(ops: seq<Op>)
    requires FreshIds(ops)
    ensures LogChain(Run(ops), Logged(ops), Failed(ops), Pending(ops))
  {
    if ops != [] {
      var n := |ops| - 1;
      LogOfRun(ops[..n]);
      NextIdIsNew(ops);
      LogStep(Run(ops[..n]), Logged(ops[..n]), Failed(ops[..n]), Pending(ops[..n]), ops[n]);
    }
  }

  lemma NextIdIsNew(ops: seq<Op>)
    requires FreshIds(ops) && ops != []
    requires var front := ops[..|ops| - 1]; LogChain(Run(front), Logged(front), Failed(front), Pending(front))
    ensures ops[|ops| - 1].logId !in Run(ops[..|ops| - 1]).logs
  {
    LogKeysUsed(ops[..|ops| - 1]);
    UsedIdsSnoc(ops);
  }

  // ---------- the records of failed attempts ----------

  function LastId(log: seq<Entry>): string {
    if log == [] then "" else log[|log| - 1].logId
  }

  // An attempt's record is the one just made, and no other failed attempt's record changes.
  lemma FailedRecordStep(s: GroupState, log: seq<Entry>, failed: set<string>, pending: string, op: Op, k: string)
    requires LogChain(s, log, failed, pending) && op.logId != "" && op.logId !in s.logs
    ensures k in failed ==> k in s.logs && k in Step(s, op).logs && Step(s, op).logs[k] == s.logs[k]
    ensures Attempts(s, op) && !Accepted(s, op) ==>
              op.logId in Step(s, op).logs
              && Step(s, op).logs[op.logId] ==
                 MemberLog(op.logId, LastId(log), "", ActionOf(s, op), "", SubjectOf(op))
  {
    if log != [] {
      assert InLog(log, log[|log| - 1].logId);
    }
  }

  lemma {:induction false} FailedStays(ops: seq<Op>, k: string)
    requires FreshIds(ops) && ops != [] && k in Failed(ops[..|ops| - 1])
    ensures k in Failed(ops) && k in Run(ops[..|ops| - 1]).logs && k in Run(ops).logs
    ensures Run(ops).logs[k] == Run(ops[..|ops| - 1]).logs[k]
  {
    var front := ops[..|ops| - 1];
    LogOfRun(front);
    NextIdIsNew(ops);
    FailedRecordStep(Run(front), Logged(front), Failed(front), Pending(front), ops[|ops| - 1], k);
  }

  // What a refused or unsupported attempt leaves in its record.
  function AttemptRecord(s: GroupState, op: Op, before: string): MemberLog {
    MemberLog(op.logId, before, "", ActionOf(s, op), "", SubjectOf(op))
  }

  lemma FailedJustNow(ops: seq<Op>)
    requires FreshIds(ops) && ops != []
    requires var s, op := Run(ops[..|ops| - 1]), ops[|ops| - 1]; Attempts(s, op) && !Accepted(s, op)
    ensures var front, op := ops[..|ops| - 1], ops[|ops| - 1];
            && op.logId in Failed(ops) && op.logId in Run(ops).logs
            && Run(ops).logs[op.logId] == AttemptRecord(Run(front), op, LastId(Logged(front)))
  {
    var front, op := ops[..|ops| - 1], ops[|ops| - 1];
    LogOfRun(front);
    NextIdIsNew(ops);
    FailedRecordStep(Run(front), Logged(front), Failed(front), Pending(front), op, "");
  }

  lemma {:induction false} FailedRecordKept(ops: seq<Op>, i: nat)
    requires FreshIds(ops) && i < |ops|
    requires Attempts(Run(ops[..i]), ops[i]) && !Accepted(Run(ops[..i]), ops[i])
    ensures ops[i].logId in Failed(ops) && ops[i].logId in Run(ops).logs
    ensures Run(ops).logs[ops[i].logId] == AttemptRecord(Run(ops[..i]), ops[i], LastId(Logged(ops[..i])))
  {
    var n := |ops| - 1;
    if i < n {
      assert ops[..n][..i] == ops[..i];
      FailedRecordKept(ops[..n], i);
      FailedStays(ops, ops[i].logId);
    } else {
      FailedJustNow(ops);
    }
  }

  /** In every run, the record of a refused or unsupported attempt keeps, to the end, what was tried: the
      action and the member, and the last successful entry before it as its predecessor. */
  lemma FailedAttemptRecord(ops: seq<Op>, i: nat)
    requires FreshIds(ops) && i < |ops|
    requires Attempts(Run(ops[..i]), ops[i]) && !Accepted(Run(ops[..i]), ops[i])
    ensures ops[i].logId in Failed(ops) && ops[i].logId in Run(ops).logs
    ensures Run(ops).logs[ops[i].logId] ==
            MemberLog(ops[i].logId, LastId(Logged(ops[..i])), "", ActionOf(Run(ops[..i]), ops[i]), "",
                      SubjectOf(ops[i]))
  {
    FailedRecordKept(ops, i);
  }

  // ---------- walking the log ----------

  function LogNext(logs: map<string, MemberLog>): LinkMap {
    map k | k in logs :: logs[k].next
  }

  function LogPrve(logs: map<string, MemberLog>): LinkMap {
    map k | k in logs :: logs[k].prve
  }

  function Ids(log: seq<Entry>): (ids: seq<string>)
    ensures |ids| == |log| && forall i :: 0 <= i < |log| ==> ids[i] == log[i].logId
  {
    seq(|log|, i requires 0 <= i < |log| => log[i].logId)
  }

  /** The `Prve` walk from the cached last log visits exactly the successful actions, newest first. */
  lemma LogWalkBack(s: GroupState, log: seq<Entry>, failed: set<string>, pending: string)
    requires LogChain(s, log, failed, pending) && log != []
    ensures Trail(LogPrve(s.logs), s.lastLog.value.id, Reverse(Ids(log)))
  {
    var ids, links, n := Ids(log), LogPrve(s.logs), |log| - 1;
    assert s.logs[log[0].logId] == Stored(log, 0, pending);
    assert "" !in s.logs;
    forall k | 0 < k <= n ensures HopBack(links, ids, k) {
      assert s.logs[log[k].logId] == Stored(log, k, pending);
    }
    TrailBack(links, ids, 0, n);
    assert ids[0..n + 1] == ids;
  }

  /** The `Next` walk from the first log visits the successful actions in order up to the last,
      and then at most the latest attempt, when that attempt failed. */
  lemma LogWalkOn(s: GroupState, log: seq<Entry>, failed: set<string>, pending: string)
    requires LogChain(s, log, failed, pending) && log != []
    ensures Trail(LogNext(s.logs), log[0].logId, Ids(log) + if pending == "" then [] else [pending])
  {
    var links := LogNext(s.logs);
    var trail := Ids(log) + if pending == "" then [] else [pending];
    forall i | 0 <= i < |log| ensures trail[i] in links && links[trail[i]] == Stored(log, i, pending).next {
    }
    forall k | 0 < k < |trail| ensures Hop(links, trail, k) {
      assert trail[k - 1] in links;
    }
    assert "" !in s.logs;
  }

  /** A failed attempt is linked from nowhere but the last entry, and only while it is the latest
      attempt: the next attempt overwrites that link. */
  lemma {:induction false} FailedOnlyPending(ops: seq<Op>, k: string)
    requires FreshIds(ops) && k in Run(ops).logs && Run(ops).logs[k].next in Failed(ops)
    ensures Logged(ops) != [] && k == Logged(ops)[|Logged(ops)| - 1].logId
    ensures Run(ops).logs[k].next == Pending(ops)
  {
    LogOfRun(ops);
    var log := Logged(ops);
    if InLog(log, k) {
      var i :| 0 <= i < |log| && log[i].logId == k;
      assert Run(ops).logs[k] == Stored(log, i, Pending(ops));
    }
  }

  // ---------- what getGroup reports ----------

  function LatestSave(ops: seq<Op>): Option<Group> {
    if ops == [] then None
    else if ops[|ops| - 1].Save? then Some(ops[|ops| - 1].group) else LatestSave(ops[..|ops| - 1])
  }

  lemma {:induction false} LastLogOfRun(ops: seq<Op>)
    ensures var s, log := Run(ops), Logged(ops);
            && s.record == LatestSave(ops)
            && (s.last.Some? ==> log != [])
            && (if log == [] then s.lastLog.None?
                else s.lastLog.Some? && s.lastLog.value.id == log[|log| - 1].logId)
  {
    if ops != [] {
      LastLogOfRun(ops[..|ops| - 1]);
    }
  }

  lemma {:induction false} SavedHasTail(ops: seq<Op>)
    requires LatestSave(ops).Some?
    ensures Run(ops).last.Some?
  {
    if !ops[|ops| - 1].Save? {
      SavedHasTail(ops[..|ops| - 1]);
    }
  }

  lemma {:induction false} LatestSaveExists(ops: seq<Op>)
    ensures LatestSave(ops).Some? <==> exists i :: 0 <= i < |ops| && ops[i].Save?
  {
    if ops != [] {
      var n := |ops| - 1;
      LatestSaveExists(ops[..n]);
      if i :| 0 <= i < n && ops[..n][i].Save? {
        assert ops[i].Save?;
      }
      if i :| 0 <= i < |ops| && ops[i].Save? {
        assert i < n ==> ops[..n][i].Save?;
      }
    }
  }

  /** `getGroup` finds the group exactly when some call saved it, whatever member actions there were. */
  lemma GroupFoundIff(ops: seq<Op>)
    ensures GetGroup(Run(ops)).Some? <==> exists i :: 0 <= i < |ops| && ops[i].Save?
  {
    LastLogOfRun(ops);
    LatestSaveExists(ops);
  }

  /** In every run that saved the group, `getGroup` returns the latest saved record with its
      `Lastlog` replaced by the id of the latest successful member action. */
  lemma GetGroupReportsLatest(ops: seq<Op>)
    requires LatestSave(ops).Some?
    ensures Logged(ops) != []
    ensures GetGroup(Run(ops)) ==
            Some(LatestSave(ops).value.(lastlog := Logged(ops)[|Logged(ops)| - 1].logId))
  {
    LastLogOfRun(ops);
    SavedHasTail(ops);
  }
}
