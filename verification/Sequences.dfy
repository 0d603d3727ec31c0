/** Sequences of any kind of element. */
module Sequences {

  lemma InsertMembers<T>(s: seq<T>, p: nat, e: T)
    requires p <= |s|
    ensures forall x :: x in s[..p] + [e] + s[p..] <==> x in s || x == e
  {
    assert s == s[..p] + s[p..];
  }

  ghost function Concat<T>(parts: seq<seq<T>>): seq<T> {
    if parts == [] then [] else Concat(parts[..|parts| - 1]) + parts[|parts| - 1]
  }

  lemma {:induction false} ConcatPart<T>(parts: seq<seq<T>>, i: nat) returns (at: nat)
    requires i < |parts|
    ensures at + |parts[i]| <= |Concat(parts)| && Concat(parts)[at..at + |parts[i]|] == parts[i]
    ensures i > 0 ==> at >= |Concat(parts[..i])|
    ensures at == |Concat(parts[..i])|
  {
    var n := |parts| - 1;
    if i == n {
      at := |Concat(parts[..n])|;
      assert Concat(parts)[at..] == parts[n];
    } else {
      at := ConcatPart(parts[..n], i);
      assert parts[..n][..i] == parts[..i];
      assert Concat(parts)[..|Concat(parts[..n])|] == Concat(parts[..n]);
    }
  }

  lemma {:induction false} ConcatMembers<T>(parts: seq<seq<T>>)
    ensures forall e :: e in Concat(parts) <==> exists i :: 0 <= i < |parts| && e in parts[i]
  {
    if parts != [] {
      var n := |parts| - 1;
      ConcatMembers(parts[..n]);
      assert forall i | 0 <= i < n :: parts[..n][i] == parts[i];
    }
  }

  lemma {:induction false} ConcatPrefix<T>(parts: seq<seq<T>>, i: nat)
    requires i <= |parts|
    ensures Concat(parts[..i]) <= Concat(parts)
  {
    assert parts[..|parts|] == parts;
    if i < |parts| {
      var n := |parts| - 1;
      assert parts[..n][..i] == parts[..i];
      ConcatPrefix(parts[..n], i);
    }
  }
}
