/** rpc/types.go's `Members.Hash`: sort the members by id, feed the ids to the digest in order.
    The digest function itself is left abstract; what it is fed is the canonical form. */
module MembersHash {
  import opened Types
  import opened Sorting

  datatype Contact = Contact(id: string, name: string)

  // bytes.Compare(a, b) < 0
  predicate Less(a: string, b: string) {
    b != "" && (a == "" || a[0] < b[0] || (a[0] == b[0] && Less(a[1..], b[1..])))
  }

  predicate AtMost(a: string, b: string) {
    !Less(b, a)
  }

  // The first place where the two differ decides, and a proper prefix comes first.
  ghost predicate DecidedAt(a: string, b: string, i: int) {
    && 0 <= i <= |a| && i < |b| && a[..i] == b[..i]
    && (i == |a| || a[i] < b[i])
  }

  lemma {:induction false} LessIsLexicographic(a: string, b: string)
    ensures Less(a, b) <==> exists i :: DecidedAt(a, b, i)
  {
    if a == "" {
      assert b != "" ==> DecidedAt(a, b, 0);
    } else if b != "" {
      LessIsLexicographic(a[1..], b[1..]);
      if i :| DecidedAt(a, b, i) {
        if i > 0 {
          assert a[..i][0] == b[..i][0] && a[1..][..i - 1] == a[..i][1..] && b[1..][..i - 1] == b[..i][1..];
          assert DecidedAt(a[1..], b[1..], i - 1);
        }
      }
      if Less(a, b) {
        if a[0] < b[0] {
          assert DecidedAt(a, b, 0);
        } else {
          var i :| DecidedAt(a[1..], b[1..], i);
          assert a[..i + 1] == [a[0]] + a[1..][..i] && b[..i + 1] == [b[0]] + b[1..][..i];
          assert DecidedAt(a, b, i + 1);
        }
      }
    }
  }

  lemma {:induction false} LessIsStrict(a: string, b: string)
    ensures !(Less(a, b) && Less(b, a))
    ensures AtMost(a, b) && AtMost(b, a) ==> a == b
  {
    if a != "" && b != "" {
      LessIsStrict(a[1..], b[1..]);
      assert a == [a[0]] + a[1..] && b == [b[0]] + b[1..];
    }
  }

  lemma {:induction false} AtMostTransitive(a: string, b: string, c: string)
    requires AtMost(a, b) && AtMost(b, c)
    ensures AtMost(a, c)
  {
    if a != "" && b != "" && c != "" && a[0] == b[0] == c[0] {
      AtMostTransitive(a[1..], b[1..], c[1..]);
    }
  }

  function ById(): (Contact, Contact) -> bool {
    (a: Contact, b: Contact) => AtMost(a.id, b.id)
  }

  lemma ByIdIsPreorder()
    ensures TotalPreorder(ById())
  {
    forall a: Contact, b: Contact ensures ById()(a, b) || ById()(b, a) {
      LessIsStrict(a.id, b.id);
    }
    forall a: Contact, b: Contact, c: Contact | ById()(a, b) && ById()(b, c) ensures ById()(a, c) {
      AtMostTransitive(a.id, b.id, c.id);
    }
  }

  function Ids(ms: seq<Contact>): (ids: seq<string>)
    ensures |ids| == |ms| && forall i :: 0 <= i < |ms| ==> ids[i] == ms[i].id
  {
    if ms == [] then [] else [ms[0].id] + Ids(ms[1..])
  }

  function Concat(ids: seq<string>): string {
    if ids == [] then "" else ids[0] + Concat(ids[1..])
  }

  ghost predicate FeedsBy(ms: seq<Contact>, fed: string, sorted: seq<Contact>) {
    multiset(sorted) == multiset(ms) && Sorted(ById(), sorted) && fed == Concat(Ids(sorted))
  }

  // `fed` is what the digest gets for these members.
  ghost predicate Feeds(ms: seq<Contact>, fed: string) {
    exists sorted :: FeedsBy(ms, fed, sorted)
  }

  lemma {:induction false} ConcatSnoc(ids: seq<string>, x: string)
    ensures Concat([]) == "" && Concat(ids + [x]) == Concat(ids) + x
  {
    if ids == [] {
      assert ids + [x] == [x] && [x][1..] == [];
      assert Concat([x]) == x + Concat([]);
    } else {
      assert (ids + [x])[1..] == ids[1..] + [x];
      ConcatSnoc(ids[1..], x);
    }
  }

  method Feed(m: array<Contact>) returns (fed: string)
    ensures fed == Concat(Ids(m[..]))
  {
    ghost var ids := Ids(m[..]);
    fed := "";
    var i := 0;
    while i < m.Length
      invariant 0 <= i <= m.Length
      invariant fed == Concat(ids[..i])
    {
      assert ids[..i + 1] == ids[..i] + [m[i].id];
      ConcatSnoc(ids[..i], m[i].id);
      fed := fed + m[i].id;
      i := i + 1;
    }
    assert ids[..i] == ids;
  }

  lemma InOrder(ms: seq<Contact>)
    requires Sorted(ById(), ms)
    ensures forall i, j :: 0 <= i < j < |ms| ==> !Less(ms[j].id, ms[i].id)
  {
    forall i, j | 0 <= i < j < |ms| ensures !Less(ms[j].id, ms[i].id) {
      assert ById()(ms[i], ms[j]);
    }
  }

  method Hash(m: array<Contact>) returns (fed: string)
    modifies m
    ensures multiset(m[..]) == multiset(old(m[..])) && Sorted(ById(), m[..])
    ensures forall i, j :: 0 <= i < j < m.Length ==> !Less(m[j].id, m[i].id)
    ensures fed == Concat(Ids(m[..])) && Feeds(old(m[..]), fed)
  {
    ByIdIsPreorder();
    Sort(ById(), m);
    fed := Feed(m);
    assert FeedsBy(old(m[..]), fed, m[..]);
    InOrder(m[..]);
  }

  // ---------- canonical form ----------

  lemma BagWithout<T>(s: seq<T>, k: int)
    requires 0 <= k < |s|
    ensures multiset(s) == multiset(s[..k] + s[k + 1..]) + multiset{s[k]}
  {
    assert s == s[..k] + [s[k]] + s[k + 1..];
  }

  lemma TakeOutAt(b: seq<Contact>, k: int) returns (rest: seq<Contact>)
    requires 0 <= k < |b|
    ensures |rest| < |b| && multiset(rest) == multiset(b) - multiset{b[k]}
    ensures multiset(Ids(b)) == multiset(Ids(rest)) + multiset{b[k].id}
  {
    rest := b[..k] + b[k + 1..];
    BagWithout(b, k);
    BagWithout(Ids(b), k);
    assert Ids(rest) == Ids(b)[..k] + Ids(b)[k + 1..];
  }

  // Equal multisets of members have equal multisets of ids.
  lemma {:induction false} IdsOfPermutation(a: seq<Contact>, b: seq<Contact>)
    requires multiset(a) == multiset(b)
    ensures multiset(Ids(a)) == multiset(Ids(b))
    decreases |a|
  {
    if a == [] {
      assert |multiset(b)| == 0;
    } else {
      var x := a[0];
      assert x in multiset(b);
      var k := IndexOf(b, x);
      var a' := TakeOutAt(a, 0);
      var b' := TakeOutAt(b, k);
      IdsOfPermutation(a', b');
    }
  }

  ghost predicate SortedIds(ids: seq<string>) {
    forall i, j :: 0 <= i < j < |ids| ==> AtMost(ids[i], ids[j])
  }

  lemma LeastFirst(a: seq<string>, x: string)
    requires SortedIds(a) && x in a
    ensures AtMost(a[0], x)
  {
    LessIsStrict(x, x);
    var i :| 0 <= i < |a| && a[i] == x;
  }

  lemma HeadsAgree(a: seq<string>, b: seq<string>)
    requires SortedIds(a) && SortedIds(b) && multiset(a) == multiset(b) && a != []
    ensures b != [] && a[0] == b[0]
  {
    assert a[0] in multiset(b);
    assert b[0] in multiset(a);
    LeastFirst(a, b[0]);
    LeastFirst(b, a[0]);
    LessIsStrict(a[0], b[0]);
  }

  lemma RestOfBag(a: seq<string>)
    requires a != []
    ensures a == [a[0]] + a[1..] && multiset(a[1..]) == multiset(a) - multiset{a[0]}
  {
  }

  lemma {:induction false} SortedUnique(a: seq<string>, b: seq<string>)
    requires SortedIds(a) && SortedIds(b) && multiset(a) == multiset(b)
    ensures a == b
  {
    if a == [] {
      assert |multiset(b)| == 0;
    } else {
      HeadsAgree(a, b);
      RestOfBag(a);
      RestOfBag(b);
      SortedUnique(a[1..], b[1..]);
    }
  }

  /** The digest is fed the same bytes for every permutation of the same members. */
  lemma FeedIsCanonical(a: seq<Contact>, b: seq<Contact>, fa: string, fb: string)
    requires multiset(a) == multiset(b) && Feeds(a, fa) && Feeds(b, fb)
    ensures fa == fb
  {
    var s :| FeedsBy(a, fa, s);
    var t :| FeedsBy(b, fb, t);
    IdsOfPermutation(s, t);
    SortedUnique(Ids(s), Ids(t));
  }

  lemma {:induction false} ConcatInjective(a: seq<string>, b: seq<string>, n: nat)
    requires n > 0 && Concat(a) == Concat(b)
    requires (forall i :: 0 <= i < |a| ==> |a[i]| == n) && (forall i :: 0 <= i < |b| ==> |b[i]| == n)
    ensures a == b
  {
    if a != [] && b != [] {
      assert Concat(a)[..n] == a[0] && Concat(b)[..n] == b[0];
      assert Concat(a)[n..] == Concat(a[1..]) && Concat(b)[n..] == Concat(b[1..]);
      ConcatInjective(a[1..], b[1..], n);
      assert a == [a[0]] + a[1..] && b == [b[0]] + b[1..];
    }
  }

  lemma LengthsKept(ms: seq<Contact>, sorted: seq<Contact>, n: nat)
    requires multiset(sorted) == multiset(ms) && forall i :: 0 <= i < |ms| ==> |ms[i].id| == n
    ensures forall i :: 0 <= i < |sorted| ==> |Ids(sorted)[i]| == n
  {
    forall i | 0 <= i < |sorted| ensures |Ids(sorted)[i]| == n {
      assert sorted[i] in multiset(sorted);
      assert sorted[i] in ms;
    }
  }

  /** With ids of one fixed length, the bytes determine the multiset of ids. */
  lemma FeedDeterminesIds(a: seq<Contact>, b: seq<Contact>, fed: string, n: nat)
    requires n > 0 && Feeds(a, fed) && Feeds(b, fed)
    requires (forall i :: 0 <= i < |a| ==> |a[i].id| == n) && (forall i :: 0 <= i < |b| ==> |b[i].id| == n)
    ensures multiset(Ids(a)) == multiset(Ids(b))
  {
    var s :| FeedsBy(a, fed, s);
    var t :| FeedsBy(b, fed, t);
    LengthsKept(a, s, n);
    LengthsKept(b, t, n);
    ConcatInjective(Ids(s), Ids(t), n);
    IdsOfPermutation(a, s);
    IdsOfPermutation(b, t);
  }
}
