/** The binary codec, as a parameter: encoding is total and decoding is its left inverse. */
module Codec {
  import opened Types

  datatype Codec<!T> = Codec(encode: T -> string, decode: string -> Option<T>)

  ghost predicate Lawful<T(!new)>(c: Codec<T>) {
    forall x: T :: c.decode(c.encode(x)) == Some(x)
  }

  datatype Codecs = Codecs(group: Codec<Group>, item: Codec<MemberItem>, log: Codec<MemberLog>, msg: Codec<Message>)
  {
    ghost predicate Valid() {
      Lawful(group) && Lawful(item) && Lawful(log) && Lawful(msg)
    }
  }

  function EncodeSome<T>(c: Codec<T>, x: Option<T>): Option<string> {
    if x.Some? then Some(c.encode(x.value)) else None
  }

  function DecodeSome<T>(c: Codec<T>, x: Option<string>): Option<T> {
    if x.Some? then c.decode(x.value) else None
  }
}
