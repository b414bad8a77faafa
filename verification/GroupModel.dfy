/** What mailbox_group.go keeps for one group, read off the key-value store, and what each
    operation does to it. `GroupDb` proves that the operations on the physical store do this. */
module GroupModel {
  import opened Types

  datatype GroupState = GroupState(
    record: Option<Group>,
    members: map<JID, MemberItem>,
    last: Option<MemberItem>,
    logs: map<string, MemberLog>,
    lastLog: Option<MemberLog>
  )

  const NEW_GROUP := GroupState(None, map[], None, map[], None)

  function NewLog(s: GroupState, action: string, memberId: JID, logId: string): MemberLog {
    MemberLog(logId, if s.lastLog.Some? then s.lastLog.value.id else "", "", action, "", memberId)
  }

  // Every attempt is logged first, and linked from the cached last log, whether or not it succeeds.
  function Attempt(s: GroupState, action: string, memberId: JID, logId: string): GroupState {
    var linked :=
      if s.lastLog.Some? then s.logs[s.lastLog.value.id := s.lastLog.value.(next := logId)] else s.logs;
    s.(logs := linked[logId := NewLog(s, action, memberId, logId)])
  }

  // The cached tail is linked and written back over the tail's own record.
  function Add(s: GroupState, m: Member): GroupState {
    var item := MemberItem(m.id, if s.last.Some? then s.last.value.id else "", "", m);
    var linked :=
      if s.last.Some? then s.members[s.last.value.id := s.last.value.(next := m.id)] else s.members;
    s.(members := linked[m.id := item], last := Some(item))
  }

  predicate CanSub(s: GroupState, id: JID) {
    id in s.members && s.members[id].prve in s.members
  }

  // The successor's record is relinked; the cached tail is rewritten only when the tail goes.
  function Sub(s: GroupState, id: JID): GroupState
    requires CanSub(s, id)
  {
    var item := s.members[id];
    var prve := s.members[item.prve];
    if item.next in s.members then
      var next := s.members[item.next];
      s.(members := s.members[next.id := next.(prve := prve.id)][prve.id := prve.(next := next.id)]
                    - {item.id})
    else
      var prve' := prve.(next := "");
      s.(members := s.members[prve.id := prve'] - {item.id}, last := Some(prve'))
  }

  predicate Succeeds(s: GroupState, action: string, id: JID) {
    action == ADD || (action == SUB && CanSub(s, id))
  }

  function HandleMember(s: GroupState, m: Member, action: string, logId: string): GroupState {
    var tried := Attempt(s, action, m.id, logId);
    if !Succeeds(s, action, m.id) then tried
    else
      var done := if action == ADD then Add(tried, m) else Sub(tried, m.id);
      done.(lastLog := Some(NewLog(s, action, m.id, logId)))
  }

  function Creator(g: Group): Member {
    Member(g.owner.id, g.owner.name, g.id)
  }

  function SaveGroup(s: GroupState, g: Group, logId: string): GroupState {
    var saved := s.(record := Some(g));
    if s.last.None? then HandleMember(saved, Creator(g), ADD, logId) else saved
  }

  function GetGroup(s: GroupState): Option<Group> {
    if s.record.None? then None
    else if s.lastLog.None? then s.record
    else Some(s.record.value.(lastlog := s.lastLog.value.id))
  }

  // Runs: calls made one at a time, each given the log id its UUID generator produced.
  datatype Op =
    | Save(group: Group, logId: string)
    | Handle(member: Member, action: string, logId: string)

  function Step(s: GroupState, op: Op): GroupState {
    match op
    case Save(g, logId) => SaveGroup(s, g, logId)
    case Handle(m, action, logId) => HandleMember(s, m, action, logId)
  }

  function RunFrom(s: GroupState, ops: seq<Op>): GroupState {
    if ops == [] then s else Step(RunFrom(s, ops[..|ops| - 1]), ops[|ops| - 1])
  }

  function Run(ops: seq<Op>): GroupState {
    RunFrom(NEW_GROUP, ops)
  }

  // The member action a call performs in state `s`, if it performs one at all.
  function ActionOf(s: GroupState, op: Op): string {
    if op.Handle? then op.action else if s.last.None? then ADD else ""
  }

  function SubjectOf(op: Op): JID {
    if op.Handle? then op.member.id else op.group.owner.id
  }

  predicate Attempts(s: GroupState, op: Op) {
    op.Handle? || s.last.None?
  }

  predicate Accepted(s: GroupState, op: Op) {
    Attempts(s, op) && Succeeds(s, ActionOf(s, op), SubjectOf(op))
  }

  predicate Adds(s: GroupState, op: Op) {
    Attempts(s, op) && ActionOf(s, op) == ADD
  }
}
