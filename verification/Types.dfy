/** The records the node stores and sends, one datatype per Go struct.
    Go strings and byte slices are both modelled as `string`, one `char` per byte. */
module Types {
  type JID = string
  type GID = string

  datatype Option<+T> = None | Some(value: T)

  function IndexOf<T(==)>(s: seq<T>, x: T): (i: int)
    requires x in s
    ensures 0 <= i < |s| && s[i] == x
  {
    if s[0] == x then 0 else 1 + IndexOf(s[1..], x)
  }

  // The exported fields of GroupMember; its unexported `action` is never encoded,
  // so operations that read it take it as a separate argument.
  datatype Member = Member(id: JID, name: string, gid: GID)

  datatype Group = Group(id: GID, owner: Member, name: string, comment: string, lastlog: string)

  datatype MemberItem = MemberItem(id: JID, prve: JID, next: JID, member: Member)

  datatype MemberLog =
    MemberLog(id: string, prve: string, next: string, action: string, gid: GID, memberId: JID)

  const ADD := "+"
  const SUB := "-"
  const FROM := "f"
  const TO := "t"

  datatype Envelope =
    Envelope(id: string, from: JID, to: JID, kind: int, ack: int, ct: int, gid: JID)

  datatype Attr = Attr(key: string, val: string)

  datatype Message = Message(envelope: Envelope, attrs: seq<Attr>, content: string, vsn: string)
}
