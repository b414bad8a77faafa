/** Walking a structure of id-to-id links, as the member chain and the action log are walked:
    start at an id, follow its link while the id has a record. The source gives the walk
    no bound, so whether it ends at all is part of what is proved. */
module Links {
  type LinkMap = map<string, string>

  // The walk goes from position `i - 1` to position `i`.
  ghost predicate Hop(links: LinkMap, trail: seq<string>, i: int)
    requires 0 < i < |trail|
  {
    trail[i - 1] in links && links[trail[i - 1]] == trail[i]
  }

  // `trail` is every id the walk visits, in order, and the walk then stops.
  ghost predicate Trail(links: LinkMap, start: string, trail: seq<string>) {
    if trail == [] then start !in links
    else
      && trail[0] == start
      && (forall i :: 0 <= i < |trail| ==> trail[i] in links)
      && (forall i :: 0 < i < |trail| ==> Hop(links, trail, i))
      && links[trail[|trail| - 1]] !in links
  }

  // The walk has taken `n` steps and is still on a stored id.
  ghost predicate Alive(links: LinkMap, start: string, n: nat)
    decreases n
  {
    start in links && (n > 0 ==> Alive(links, links[start], n - 1))
  }

  ghost predicate Endless(links: LinkMap, start: string) {
    forall n: nat :: Alive(links, start, n)
  }

  lemma TrailTail(links: LinkMap, start: string, trail: seq<string>)
    requires trail != [] && Trail(links, start, trail)
    ensures start in links && Trail(links, links[start], trail[1..])
  {
    var rest := trail[1..];
    if rest != [] {
      forall i | 0 < i < |rest| ensures Hop(links, rest, i) {
        assert Hop(links, trail, i + 1);
        assert rest[i - 1] == trail[i] && rest[i] == trail[i + 1];
      }
      assert Hop(links, trail, 1);
    }
  }

  lemma TrailCons(links: LinkMap, start: string, rest: seq<string>)
    requires start in links && Trail(links, links[start], rest)
    ensures Trail(links, start, [start] + rest)
  {
    var trail := [start] + rest;
    forall i | 0 < i < |trail| ensures Hop(links, trail, i) {
      if i > 1 {
        assert Hop(links, rest, i - 1);
        assert trail[i - 1] == rest[i - 2] && trail[i] == rest[i - 1];
      }
    }
  }

  // A walk that ends visits one sequence only.
  lemma {:induction false} TrailUnique(links: LinkMap, start: string, t: seq<string>, u: seq<string>)
    requires Trail(links, start, t) && Trail(links, start, u)
    ensures t == u
    decreases |t|
  {
    if t != [] {
      TrailTail(links, start, t);
      TrailTail(links, start, u);
      TrailUnique(links, links[start], t[1..], u[1..]);
      assert t == [start] + t[1..] && u == [start] + u[1..];
    }
  }

  lemma {:induction false} TrailOutlived(links: LinkMap, start: string, trail: seq<string>)
    requires Trail(links, start, trail)
    ensures !Alive(links, start, |trail|)
    decreases |trail|
  {
    if trail != [] {
      TrailTail(links, start, trail);
      TrailOutlived(links, links[start], trail[1..]);
    }
  }

  lemma {:induction false} TrailOfStopped(links: LinkMap, start: string, n: nat) returns (trail: seq<string>)
    requires !Alive(links, start, n)
    ensures Trail(links, start, trail)
    decreases n
  {
    if start !in links {
      trail := [];
    } else {
      var rest := TrailOfStopped(links, links[start], n - 1);
      TrailCons(links, start, rest);
      trail := [start] + rest;
    }
  }

  // The walk ends exactly when some trail exists; otherwise it visits stored ids forever.
  lemma EndsOrEndless(links: LinkMap, start: string)
    ensures (exists trail :: Trail(links, start, trail)) <==> !Endless(links, start)
  {
    if trail :| Trail(links, start, trail) {
      TrailOutlived(links, start, trail);
    }
    if !Endless(links, start) {
      var n: nat :| !Alive(links, start, n);
      var trail := TrailOfStopped(links, start, n);
    }
  }

  // A non-empty set of stored ids that every link stays inside traps the walk.
  lemma Trapped(links: LinkMap, start: string, cycle: set<string>)
    requires start in cycle && cycle <= links.Keys
    requires forall x :: x in cycle ==> links[x] in cycle
    ensures Endless(links, start)
  {
    forall n: nat ensures Alive(links, start, n) {
      TrappedFor(links, start, cycle, n);
    }
  }

  lemma {:induction false} TrappedFor(links: LinkMap, start: string, cycle: set<string>, n: nat)
    requires start in cycle && cycle <= links.Keys
    requires forall x :: x in cycle ==> links[x] in cycle
    ensures Alive(links, start, n)
    decreases n
  {
    if n > 0 {
      TrappedFor(links, links[start], cycle, n - 1);
    }
  }

  function Reverse(s: seq<string>): seq<string> {
    if s == [] then [] else [s[|s| - 1]] + Reverse(s[..|s| - 1])
  }

  lemma {:induction false} ReverseAt(s: seq<string>, i: int)
    requires 0 <= i < |s|
    ensures |Reverse(s)| == |s| && Reverse(s)[i] == s[|s| - 1 - i]
  {
    if |s| > 1 {
      ReverseAt(s[..|s| - 1], if i > 0 then i - 1 else 0);
    }
  }

  lemma ReverseInvolutive(s: seq<string>)
    ensures Reverse(Reverse(s)) == s
  {
    if s != [] {
      ReverseAt(s, 0);
      ReverseAt(Reverse(s), 0);
    }
    forall i | 0 <= i < |s| ensures Reverse(Reverse(s))[i] == s[i] {
      ReverseAt(s, |s| - 1 - i);
      ReverseAt(Reverse(s), i);
    }
  }

  // The link of position `i` leads to position `i - 1`.
  ghost predicate HopBack(links: LinkMap, ids: seq<string>, i: int)
    requires 0 < i < |ids|
  {
    ids[i] in links && links[ids[i]] == ids[i - 1]
  }

  lemma {:induction false} TrailBack(links: LinkMap, ids: seq<string>, j: int, i: int)
    requires 0 <= j <= i < |ids|
    requires ids[j] in links && links[ids[j]] !in links
    requires forall k :: j < k <= i ==> HopBack(links, ids, k)
    ensures Trail(links, ids[i], Reverse(ids[j..i + 1]))
    decreases i
  {
    if j == i {
      TrailCons(links, ids[i], []);
      assert ids[j..i + 1] == [ids[i]];
    } else {
      TrailBack(links, ids, j, i - 1);
      assert HopBack(links, ids, i);
      TrailCons(links, ids[i], Reverse(ids[j..i]));
      assert ids[j..i + 1][..i - j] == ids[j..i];
    }
  }

  // ---------- which walks end, and what keeps them ending ----------

  // Within `n` steps the walk comes to `target`, stored or not.
  ghost predicate ReachesIn(links: LinkMap, start: string, target: string, n: nat)
    decreases n
  {
    start == target || (n > 0 && start in links && ReachesIn(links, links[start], target, n - 1))
  }

  ghost predicate Reaches(links: LinkMap, start: string, target: string) {
    exists n: nat :: ReachesIn(links, start, target, n)
  }

  // Every walk ends.
  ghost predicate AllEnd(links: LinkMap) {
    forall x :: !Endless(links, x)
  }

  // What a caller sees of it: the target is on the trail, or is the id the walk stops on.
  lemma {:induction false} ReachesByTrail(links: LinkMap, start: string, trail: seq<string>, target: string)
    requires trail != [] && Trail(links, start, trail)
    ensures Reaches(links, start, target) <==> target in trail || links[trail[|trail| - 1]] == target
    decreases |trail|
  {
    TrailTail(links, start, trail);
    var rest := trail[1..];
    assert trail == [start] + rest;
    if rest == [] {
      assert !ReachesIn(links, start, target, 1) ==> forall n: nat :: !ReachesIn(links, start, target, n);
    } else {
      ReachesByTrail(links, links[start], rest, target);
      ReachesStep(links, start, target);
    }
  }

  lemma ReachesStep(links: LinkMap, start: string, target: string)
    requires start in links
    ensures Reaches(links, start, target) <==> start == target || Reaches(links, links[start], target)
  {
    if start != target {
      if n: nat :| ReachesIn(links, start, target, n) {
        assert ReachesIn(links, links[start], target, n - 1);
      }
      if n: nat :| ReachesIn(links, links[start], target, n) {
        assert ReachesIn(links, start, target, n + 1);
      }
    } else {
      assert ReachesIn(links, start, target, 0);
    }
  }

  // A walk that never comes to `k` does not notice the link of `k`.
  lemma {:induction false} AliveUnchanged(links: LinkMap, k: string, v: string, start: string, n: nat)
    requires !Reaches(links, start, k)
    ensures Alive(links[k := v], start, n) <==> Alive(links, start, n)
    decreases n
  {
    assert !ReachesIn(links, start, k, 0);
    if start in links && n > 0 {
      ReachesStep(links, start, k);
      AliveUnchanged(links, k, v, links[start], n - 1);
    }
  }

  lemma {:induction false} ReachesInUnchanged(links: LinkMap, k: string, v: string, start: string, target: string,
                                              n: nat)
    requires !Reaches(links, start, k)
    ensures ReachesIn(links[k := v], start, target, n) <==> ReachesIn(links, start, target, n)
    decreases n
  {
    assert !ReachesIn(links, start, k, 0);
    if start in links && n > 0 {
      ReachesStep(links, start, k);
      ReachesInUnchanged(links, k, v, links[start], target, n - 1);
    }
  }

  lemma ReachesUnchanged(links: LinkMap, k: string, v: string, start: string, target: string)
    requires !Reaches(links, start, k)
    ensures Reaches(links[k := v], start, target) <==> Reaches(links, start, target)
  {
    var links' := links[k := v];
    if n: nat :| ReachesIn(links, start, target, n) {
      ReachesInUnchanged(links, k, v, start, target, n);
    }
    if n: nat :| ReachesIn(links', start, target, n) {
      ReachesInUnchanged(links, k, v, start, target, n);
    }
  }

  lemma ReachesNothing(links: LinkMap, start: string, target: string)
    requires start !in links
    ensures Reaches(links, start, target) <==> start == target
  {
    assert start == target ==> ReachesIn(links, start, target, 0);
  }

  lemma {:induction false} StopsAfterEdit(links: LinkMap, k: string, v: string, start: string, n: nat, nv: nat)
    returns (m: nat)
    requires !Alive(links, start, n) && !Alive(links[k := v], v, nv)
    ensures !Alive(links[k := v], start, m)
    decreases n
  {
    if start == k {
      m := nv + 1;
    } else if start !in links {
      m := 0;
    } else {
      m := StopsAfterEdit(links, k, v, links[start], n - 1, nv);
      m := m + 1;
    }
  }

  // The ids on the way from `start` to `target`.
  lemma {:induction false} WayTo(links: LinkMap, start: string, target: string, n: nat) returns (way: set<string>)
    requires ReachesIn(links, start, target, n)
    ensures start in way && target in way
    ensures forall x :: x in way && x != target ==> x in links && links[x] in way
    ensures forall x :: x in way ==> Reaches(links, start, x)
    decreases n
  {
    if start == target {
      way := {start};
      assert ReachesIn(links, start, start, 0);
    } else {
      var rest := WayTo(links, links[start], target, n - 1);
      way := {start} + rest;
      forall x | x in way ensures Reaches(links, start, x) {
        ReachesStep(links, start, x);
      }
    }
  }

  lemma EndsAfterEdit(links: LinkMap, k: string, v: string)
    requires AllEnd(links) && !Reaches(links, v, k)
    ensures AllEnd(links[k := v])
  {
    assert !Endless(links, v);
    var nv: nat :| !Alive(links, v, nv);
    AliveUnchanged(links, k, v, v, nv);
    var links' := links[k := v];
    forall x ensures !Endless(links', x) {
      assert !Endless(links, x);
      var n: nat :| !Alive(links, x, n);
      var m := StopsAfterEdit(links, k, v, x, n, nv);
    }
  }

  /** Redirecting one link keeps every walk ending exactly when the new target does not lead back to
      the id whose link it is. */
  lemma EditEndsIff(links: LinkMap, k: string, v: string)
    requires AllEnd(links)
    ensures AllEnd(links[k := v]) <==> !Reaches(links, v, k)
  {
    if Reaches(links, v, k) {
      var n: nat :| ReachesIn(links, v, k, n);
      var way := WayTo(links, v, k, n);
      Trapped(links[k := v], v, way);
    } else {
      EndsAfterEdit(links, k, v);
    }
  }

  lemma {:induction false} AliveWithout(links: LinkMap, d: string, start: string, n: nat)
    requires Alive(links - {d}, start, n)
    ensures Alive(links, start, n)
    decreases n
  {
    if n > 0 {
      AliveWithout(links, d, links[start], n - 1);
    }
  }

  lemma EndsWithout(links: LinkMap, d: string)
    requires AllEnd(links)
    ensures AllEnd(links - {d})
  {
    var links' := links - {d};
    forall x ensures !Endless(links', x) {
      assert !Endless(links, x);
      var n: nat :| !Alive(links, x, n);
      if Alive(links', x, n) {
        AliveWithout(links, d, x, n);
      }
    }
  }

  /** Taking `d` out and letting `k` point to where `d` pointed keeps every walk ending exactly when
      that place does not lead to `k`. */
  lemma SpliceEndsIff(links: LinkMap, k: string, d: string)
    requires AllEnd(links) && d in links && k != d
    ensures AllEnd(links[k := links[d]] - {d}) <==> !Reaches(links, links[d], k)
  {
    var v := links[d];
    assert links[d := v] == links;
    EditEndsIff(links, d, v);
    if Reaches(links, v, k) {
      var n: nat :| ReachesIn(links, v, k, n);
      var way := WayTo(links, v, k, n);
      assert d !in way;
      Trapped(links[k := v] - {d}, v, way);
    } else {
      EndsAfterEdit(links, k, v);
      EndsWithout(links[k := v], d);
    }
  }
}
