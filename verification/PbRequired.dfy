/** Which required fields were seen, as bits (nanopb's pb_decode.c). */
module PbRequired {
  import opened Bits
  import opened PbFormat
  import opened PbCommon

  // PB_MAX_REQUIRED_FIELDS
  const MAX_REQUIRED: nat := 64

  /** A seen field is the q-th required one. */
  ghost predicate HasIndex(d: Desc, seen: set<nat>, q: nat) {
    exists i :: i in seen && IsRequired(d, i, q)
  }

  ghost predicate IsRequired(d: Desc, i: nat, q: nat) {
    i < |d.fields| && d.fields[i].ht.Required? && RequiredBefore(d.fields, i) == q
  }

  ghost predicate InWord(d: Desc, seen: set<nat>, w: nat, q: nat) {
    HasIndex(d, seen, w * 32 + q)
  }

  /** Bit q of the two words says whether the q-th required field was seen. */
  ghost predicate Tracks(words: seq<nat>, d: Desc, seen: set<nat>) {
    && |words| == 2 && words[0] < Pow2(32) && words[1] < Pow2(32)
    && (forall q: nat :: WordBit(words, 0, q, d, seen)) && forall q: nat :: WordBit(words, 1, q, d, seen)
  }

  ghost predicate WordBit(words: seq<nat>, w: nat, q: nat, d: Desc, seen: set<nat>)
    requires w < 2 == |words|
  {
    Bit(words[w], q) <==> q < 32 && InWord(d, seen, w, q)
  }

  lemma NothingSeen(d: Desc)
    ensures Tracks([0, 0], d, {})
  {
    ZeroBits();
    assert Pow2(32) > 0 by {
      PowPositive(32);
    }
  }

  lemma PowPositive(n: nat)
    ensures Pow2(n) > 0
  {}

  /** Notes that field i was seen. */
  method Note(words: seq<nat>, d: Desc, i: nat, index: nat, ghost seen: set<nat>) returns (r: seq<nat>)
    requires Tracks(words, d, seen) && i < |d.fields| && index == RequiredBefore(d.fields, i)
    ensures Tracks(r, d, seen + {i})
  {
    r := words;
    if d.fields[i].ht.Required? && index < MAX_REQUIRED {
      r := words[index / 32 := SetBit(words[index / 32], index % 32, 32)];
    }
    forall w, q: nat | 0 <= w < 2 ensures WordBit(r, w, q, d, seen + {i}) {
      assert WordBit(words, w, q, d, seen);
      SeenOne(d, seen, i, w * 32 + q);
    }
    assert forall q: nat :: WordBit(r, 0, q, d, seen + {i});
    assert forall q: nat :: WordBit(r, 1, q, d, seen + {i});
  }

  lemma SeenOne(d: Desc, seen: set<nat>, i: nat, q: nat)
    ensures HasIndex(d, seen + {i}, q) <==> (HasIndex(d, seen, q) || IsRequired(d, i, q))
  {
    if HasIndex(d, seen, q) {
      var j :| j in seen && IsRequired(d, j, q);
      assert j in seen + {i};
    }
    if IsRequired(d, i, q) {
      assert i in seen + {i};
    }
  }

  // The first n required fields were seen.
  ghost predicate FirstSeen(d: Desc, seen: set<nat>, n: nat) {
    forall q: nat | q < n :: HasIndex(d, seen, q)
  }

  function Counted(total: nat): nat {
    if total > MAX_REQUIRED then MAX_REQUIRED else total
  }

  /** The final check passes exactly when the first 64 required fields, or all of
      them when there are fewer, were seen. */
  method Check(words: seq<nat>, d: Desc, total: nat, ghost seen: set<nat>) returns (ok: bool)
    requires Tracks(words, d, seen) && total == RequiredBefore(d.fields, |d.fields|)
    ensures ok <==> FirstSeen(d, seen, Counted(total))
  {
    var count := Counted(total);
    for i := 0 to count / 32
      invariant FirstSeen(d, seen, i * 32)
    {
      WordFull(words, i, 32, d, seen);
      Spans(d, seen, i, 32, count);
      if words[i] != Pow2(32) - 1 {
        return false;
      }
    }
    if count % 32 != 0 {
      NoneBeyond(words, d, seen, total);
      WordFull(words, count / 32, count % 32, d, seen);
      Spans(d, seen, count / 32, count % 32, count);
      if words[count / 32] != Pow2(count % 32) - 1 {
        return false;
      }
    }
    return true;
  }

  ghost predicate Span(d: Desc, seen: set<nat>, w: nat, n: nat) {
    forall q: nat | q < n :: InWord(d, seen, w, q)
  }

  lemma Spans(d: Desc, seen: set<nat>, w: nat, n: nat, count: nat)
    requires w * 32 + n <= count
    ensures FirstSeen(d, seen, w * 32 + n) <==> FirstSeen(d, seen, w * 32) && Span(d, seen, w, n)
    ensures FirstSeen(d, seen, count) ==> FirstSeen(d, seen, w * 32 + n)
  {
    if FirstSeen(d, seen, w * 32) && Span(d, seen, w, n) {
      forall q: nat | q < w * 32 + n ensures HasIndex(d, seen, q) {
        if q >= w * 32 {
          assert InWord(d, seen, w, q - w * 32);
        }
      }
    }
    if FirstSeen(d, seen, w * 32 + n) {
      forall q: nat | q < n ensures InWord(d, seen, w, q) {
        assert HasIndex(d, seen, w * 32 + q);
      }
    }
  }

  /** A word is full up to n exactly when those fields were seen. */
  lemma WordFull(words: seq<nat>, w: nat, n: nat, d: Desc, seen: set<nat>)
    requires Tracks(words, d, seen) && w < 2 && n <= 32
    requires n < 32 ==> forall q: nat | n <= q :: !InWord(d, seen, w, q)
    ensures words[w] == Pow2(n) - 1 <==> Span(d, seen, w, n)
  {
    forall q: nat ensures Bit(words[w], q) <==> q < n && InWord(d, seen, w, q) {
      assert WordBit(words, w, q, d, seen);
    }
    AllOnes(words[w], n);
    if OnesTo(words[w], n) {
      forall q: nat | q < n ensures InWord(d, seen, w, q) {
        assert Bit(words[w], q);
      }
    }
    if Span(d, seen, w, n) {
      forall q: nat | q < n ensures Bit(words[w], q) {
        assert InWord(d, seen, w, q);
      }
    }
  }

  lemma NoneBeyond(words: seq<nat>, d: Desc, seen: set<nat>, total: nat)
    requires total == RequiredBefore(d.fields, |d.fields|)
    ensures forall q: nat | total <= q :: !HasIndex(d, seen, q)
  {
    forall q: nat | total <= q ensures !HasIndex(d, seen, q) {
      if HasIndex(d, seen, q) {
        var i :| i in seen && IsRequired(d, i, q);
        RequiredGrows(d.fields, i, |d.fields|);
        assert false;
      }
    }
  }

  /** All required fields up to the 64th were seen. */
  ghost predicate AllSeen(d: Desc, seen: set<nat>) {
    forall i: nat | i < |d.fields| && d.fields[i].ht.Required? && RequiredBefore(d.fields, i) < MAX_REQUIRED ::
      i in seen
  }

  /** Counting by index or by field is the same. */
  lemma SeenByField(d: Desc, seen: set<nat>)
    ensures FirstSeen(d, seen, Counted(RequiredBefore(d.fields, |d.fields|))) <==> AllSeen(d, seen)
  {
    var n := |d.fields|;
    if FirstSeen(d, seen, Counted(RequiredBefore(d.fields, n))) {
      forall i: nat | i < n && d.fields[i].ht.Required? && RequiredBefore(d.fields, i) < MAX_REQUIRED
        ensures i in seen {
        RequiredGrows(d.fields, i, n);
        var q := RequiredBefore(d.fields, i);
        assert HasIndex(d, seen, q);
        var j :| j in seen && IsRequired(d, j, q);
        if i < j {
          RequiredGrows(d.fields, i, j);
        } else if j < i {
          RequiredGrows(d.fields, j, i);
        }
      }
    }
    if AllSeen(d, seen) {
      forall q: nat | q < Counted(RequiredBefore(d.fields, n)) ensures HasIndex(d, seen, q) {
        var i := FieldOf(d, n, q);
        assert IsRequired(d, i, q) && i in seen;
      }
    }
  }

  lemma {:induction false} FieldOf(d: Desc, n: nat, q: nat) returns (i: nat)
    requires n <= |d.fields| && q < RequiredBefore(d.fields, n)
    ensures i < n && IsRequired(d, i, q)
  {
    if RequiredBefore(d.fields, n - 1) <= q {
      return n - 1;
    }
    i := FieldOf(d, n - 1, q);
  }

  ghost predicate CoversRequired(d: Desc, seen: set<nat>) {
    forall i: nat | i < |d.fields| && d.fields[i].ht.Required? :: i in seen
  }

  /** The check stands for "every required field was seen" exactly when the
      description has at most 64 of them. */
  lemma ChecksAllIff(d: Desc)
    ensures (forall seen: set<nat> :: AllSeen(d, seen) ==> CoversRequired(d, seen))
      <==> RequiredBefore(d.fields, |d.fields|) <= MAX_REQUIRED
  {
    var n := |d.fields|;
    if RequiredBefore(d.fields, n) <= MAX_REQUIRED {
      forall i: nat | i < n && d.fields[i].ht.Required? ensures RequiredBefore(d.fields, i) < MAX_REQUIRED {
        RequiredGrows(d.fields, i, n);
      }
    } else {
      var i := FieldOf(d, n, MAX_REQUIRED);
      var seen := Others(n, i);
      assert AllSeen(d, seen) && !CoversRequired(d, seen);
    }
  }

  ghost function Others(n: nat, i: nat): (s: set<nat>)
    ensures forall j: nat :: j in s <==> j < n && j != i
  {
    if n == 0 then {} else (if n - 1 == i then {} else {n - 1}) + Others(n - 1, i)
  }
}
