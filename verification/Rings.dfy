/** The circular doubly linked lists of util/cache.cc, link by link. */
module Rings {

  // A list's dummy head, or a cache entry.
  datatype Link = Lru | InUse | Item(id: nat)

  datatype Links = Links(next: map<Link, Link>, prev: map<Link, Link>)

  // One place on, around the ring.
  function Around(i: nat, n: nat): nat
    requires i < n
  {
    if i + 1 < n then i + 1 else 0
  }

  ghost predicate Differ<T>(s: seq<T>, i: nat, j: nat)
    requires i < |s| && j < |s|
  {
    s[i] != s[j]
  }

  ghost predicate Distinct<T>(s: seq<T>) {
    forall i, j | 0 <= i < j < |s| :: Differ(s, i, j)
  }

  // Place i of s is linked to the place after it, in both directions.
  predicate Joined(k: Links, s: seq<Link>, i: nat)
    requires i < |s|
  {
    var x, y := s[i], s[Around(i, |s|)];
    x in k.next && k.next[x] == y && y in k.prev && k.prev[y] == x
  }

  /** The nodes of s, in order, are linked into one circle in both
      directions. */
  ghost predicate Ring(k: Links, s: seq<Link>) {
    s != [] && Distinct(s) && forall i | 0 <= i < |s| :: Joined(k, s, i)
  }

  // LRU_Remove
  function Unlinked(k: Links, e: Link): Links
    requires e in k.next && e in k.prev
  {
    var n, p := k.next[e], k.prev[e];
    Links(k.next[p := n], k.prev[n := p])
  }

  // LRU_Append: just before the head, so newest.
  function Linked(k: Links, head: Link, e: Link): Links
    requires head in k.prev
  {
    var p := k.prev[head];
    Links(k.next[e := head][p := e], k.prev[e := p][head := e])
  }

  function Without<T>(s: seq<T>, i: nat): seq<T>
    requires i < |s|
  {
    s[..i] + s[i + 1..]
  }

  lemma Apart<T>(s: seq<T>, i: nat, j: nat)
    requires Distinct(s) && i < |s| && j < |s| && i != j
    ensures s[i] != s[j]
  {
    assert if i < j then Differ(s, i, j) else Differ(s, j, i);
  }

  lemma DistinctMore<T>(s: seq<T>, e: T)
    requires Distinct(s) && e !in s
    ensures Distinct(s + [e])
  {
    forall i, j | 0 <= i < j < |s + [e]| ensures Differ(s + [e], i, j) {
      if j < |s| {
        assert Differ(s, i, j);
      } else {
        assert (s + [e])[i] in s;
      }
    }
  }

  lemma DistinctWithout<T>(s: seq<T>, i: nat)
    requires Distinct(s) && i < |s|
    ensures Distinct(Without(s, i)) && forall x :: x in Without(s, i) <==> x in s && x != s[i]
  {
    var r := Without(s, i);
    forall j, l | 0 <= j < l < |r| ensures Differ(r, j, l) {
      assert Differ(s, if j < i then j else j + 1, if l < i then l else l + 1);
    }
    forall x | x in r ensures x in s && x != s[i] {
      var j :| 0 <= j < |r| && r[j] == x;
      assert if j < i then Differ(s, j, i) else Differ(s, i, j + 1);
    }
    forall x | x in s && x != s[i] ensures x in r {
      var j :| 0 <= j < |s| && s[j] == x;
      assert r[if j < i then j else j - 1] == x;
    }
  }

  // The place after place j, once place i is gone.
  lemma AroundWithout<T>(s: seq<T>, i: nat, j: nat)
    requires 1 <= i < |s| && j < |s| - 1
    ensures var r := Without(s, i); var a := if j < i then j else j + 1;
      && r[j] == s[a] && a != i
      && r[Around(j, |r|)] == s[if a == i - 1 then Around(i, |s|) else Around(a, |s|)]
  {}

  lemma UnlinkRing(k: Links, s: seq<Link>, i: nat)
    requires Ring(k, s) && 1 <= i < |s|
    ensures s[i] in k.next && s[i] in k.prev && Ring(Unlinked(k, s[i]), Without(s, i))
  {
    var n := |s|;
    assert Joined(k, s, i - 1) && Joined(k, s, i) && s[Around(i - 1, n)] == s[i];
    var r, k' := Without(s, i), Unlinked(k, s[i]);
    DistinctWithout(s, i);
    forall j | 0 <= j < |r| ensures Joined(k', r, j) {
      AroundWithout(s, i, j);
      var a := if j < i then j else j + 1;
      assert Joined(k, s, a);
      if a != i - 1 {
        Apart(s, a, i - 1);
        Apart(s, Around(a, n), Around(i, n));
      }
    }
  }

  lemma UnlinkOther(k: Links, s: seq<Link>, i: nat, t: seq<Link>)
    requires Ring(k, s) && 1 <= i < |s| && Ring(k, t) && forall a, b | a in s && b in t :: a != b
    ensures s[i] in k.next && s[i] in k.prev && Ring(Unlinked(k, s[i]), t)
  {
    var n := |s|;
    assert Joined(k, s, i - 1) && Joined(k, s, i) && s[Around(i - 1, n)] == s[i];
    assert s[i - 1] in s && s[Around(i, n)] in s;
    forall j | 0 <= j < |t| ensures Joined(Unlinked(k, s[i]), t, j) {
      assert Joined(k, t, j) && t[j] in t && t[Around(j, |t|)] in t;
    }
  }

  lemma LinkRing(k: Links, s: seq<Link>, e: Link)
    requires Ring(k, s) && e !in s
    ensures s[0] in k.prev && Ring(Linked(k, s[0], e), s + [e])
  {
    var n := |s|;
    assert Joined(k, s, n - 1) && s[Around(n - 1, n)] == s[0];
    var r, k' := s + [e], Linked(k, s[0], e);
    DistinctMore(s, e);
    forall j | 0 <= j < |r| ensures Joined(k', r, j) {
      if j < n - 1 {
        assert Joined(k, s, j);
        assert r[Around(j, |r|)] == s[Around(j, n)];
        Apart(s, j, n - 1);
        Apart(s, j + 1, 0);
      }
    }
  }

  lemma LinkOther(k: Links, s: seq<Link>, e: Link, t: seq<Link>)
    requires Ring(k, s) && Ring(k, t) && e !in t && forall a, b | a in s && b in t :: a != b
    ensures s[0] in k.prev && Ring(Linked(k, s[0], e), t)
  {
    var n := |s|;
    assert Joined(k, s, n - 1) && s[Around(n - 1, n)] == s[0];
    assert s[0] in s && s[n - 1] in s;
    forall j | 0 <= j < |t| ensures Joined(Linked(k, s[0], e), t, j) {
      assert Joined(k, t, j) && t[j] in t && t[Around(j, |t|)] in t;
    }
  }
}
