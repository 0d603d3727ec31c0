/** Where a compaction ends one output and begins the next (db/db_impl.cc,
    Compaction::ShouldStopBefore in db/version_set.cc). */
module OutputCuts {
  import opened Options
  import opened Keys
  import opened Versions
  import opened Sequences

  /** The files two levels down, the size an output is to have, and the size of a
      table with given entries. */
  datatype Limits = Limits(grandparents: seq<File>, maxOutput: nat, tableSize: seq<Entry> -> nat)

  lemma TotalSnoc(fs: seq<File>, a: nat, b: nat)
    requires a <= b < |fs|
    ensures TotalFileSize(fs[a..b + 1]) == TotalFileSize(fs[a..b]) + fs[b].size
  {
    assert fs[a..b + 1][..b - a] == fs[a..b];
  }

  lemma {:induction false} TotalJoin(fs: seq<File>, a: nat, b: nat, c: nat)
    requires a <= b <= c <= |fs|
    ensures TotalFileSize(fs[a..b]) + TotalFileSize(fs[b..c]) == TotalFileSize(fs[a..c])
  {
    if b < c {
      TotalJoin(fs, a, b, c - 1);
      TotalSnoc(fs, a, c - 1);
      TotalSnoc(fs, b, c - 1);
    }
  }

  // ---- stops ----

  /** How many files, from the first on, end before k. */
  function Passed(fs: seq<File>, k: IKey): (n: nat)
    ensures n <= |fs|
  {
    PassedFrom(fs, k, 0)
  }

  function PassedFrom(fs: seq<File>, k: IKey, i: nat): (n: nat)
    requires i <= |fs|
    ensures i <= n <= |fs|
    decreases |fs| - i
  {
    if i < |fs| && Less(fs[i].largest, k) then PassedFrom(fs, k, i + 1) else i
  }

  ghost predicate EndsAt(fs: seq<File>, k: IKey, n: nat) {
    && n <= |fs| && (forall j | 0 <= j < n :: Less(fs[j].largest, k))
    && (n < |fs| ==> AtMost(k, fs[n].largest))
  }

  lemma {:induction false} PassedFromIs(fs: seq<File>, k: IKey, i: nat, n: nat)
    requires i <= n && EndsAt(fs, k, n)
    ensures PassedFrom(fs, k, i) == n
    decreases n - i
  {
    if i < n {
      PassedFromIs(fs, k, i + 1, n);
    }
  }

  lemma {:induction false} PassedFromEnds(fs: seq<File>, k: IKey, i: nat)
    requires i <= |fs| && forall j | 0 <= j < i :: Less(fs[j].largest, k)
    ensures EndsAt(fs, k, PassedFrom(fs, k, i))
    decreases |fs| - i
  {
    if i < |fs| && Less(fs[i].largest, k) {
      PassedFromEnds(fs, k, i + 1);
    }
  }

  lemma PassedIs(fs: seq<File>, k: IKey)
    ensures EndsAt(fs, k, Passed(fs, k)) && forall n | EndsAt(fs, k, n) :: n == Passed(fs, k)
  {
    PassedFromEnds(fs, k, 0);
    forall n | EndsAt(fs, k, n) ensures n == Passed(fs, k) {
      PassedFromIs(fs, k, 0, n);
    }
  }

  lemma PassedGrows(fs: seq<File>, a: IKey, b: IKey)
    requires Less(a, b)
    ensures Passed(fs, a) <= Passed(fs, b)
  {
    PassedIs(fs, a);
    PassedIs(fs, b);
    var n := Passed(fs, b);
    if n < Passed(fs, a) {
      KeyOrder(fs[n].largest, a, b);
    }
  }

  /** The bytes of the files that end between a and b. */
  ghost function BytesBetween(w: Limits, a: IKey, b: IKey): nat {
    var m, n := Passed(w.grandparents, a), Passed(w.grandparents, b);
    if m <= n then TotalFileSize(w.grandparents[m..n]) else 0
  }

  /** The last key that stopped an output; the first one counts as such. */
  ghost function LastStop(w: Limits, seen: seq<Entry>): (i: nat)
    requires seen != []
    ensures i < |seen|
  {
    var n := |seen| - 1;
    if n == 0 then 0
    else
      var l := LastStop(w, seen[..n]);
      if BytesBetween(w, seen[l].k, seen[n].k) > 10 * w.maxOutput then n else l
  }

  /** Key i stops an output: the files that end between the last stop and it have
      too many bytes. */
  ghost predicate StopsAt(w: Limits, input: seq<Entry>, i: int) {
    0 < i < |input| && BytesBetween(w, input[LastStop(w, input[..i])].k, input[i].k) > 10 * w.maxOutput
  }

  lemma {:induction false} LastStopIs(w: Limits, input: seq<Entry>, n: nat)
    requires 0 < n <= |input|
    ensures var l := LastStop(w, input[..n]); (l == 0 || StopsAt(w, input, l)) && forall i | l < i < n ::
      !StopsAt(w, input, i)
  {
    if n > 1 {
      assert input[..n][..n - 1] == input[..n - 1];
      LastStopIs(w, input, n - 1);
    }
  }

  lemma StopsEarlier(w: Limits, seen: seq<Entry>, e: Entry)
    ensures forall i | 0 <= i < |seen| :: StopsAt(w, seen + [e], i) <==> StopsAt(w, seen, i)
  {
    forall i | 0 < i < |seen| ensures StopsAt(w, seen + [e], i) <==> StopsAt(w, seen, i) {
      assert (seen + [e])[..i] == seen[..i];
    }
  }

  // ---- the cursor over the grandparents ----

  /** Where ShouldStopBefore's fields stand after the keys seen so far. */
  ghost predicate Standing(w: Limits, seen: seq<Entry>, index: nat, seenKey: bool, bytes: nat) {
    if seen == [] then index == 0 && !seenKey && bytes == 0
    else
      var last := seen[|seen| - 1].k;
      seenKey && EndsAt(w.grandparents, last, index) && bytes == BytesBetween(w, seen[LastStop(w, seen)].k, last)
  }

  /** One call of ShouldStopBefore, by its own contract. */
  lemma StandsNext(w: Limits, seen: seq<Entry>, e: Entry, index: nat, seenKey: bool, bytes: nat, index': nat)
    requires Standing(w, seen, index, seenKey, bytes) && SortedEntries(seen + [e])
    requires index <= index' <= |w.grandparents|
    requires forall j | index <= j < index' :: Less(w.grandparents[j].largest, e.k)
    requires index' < |w.grandparents| ==> AtMost(e.k, w.grandparents[index'].largest)
    ensures var sum := bytes + if seenKey then TotalFileSize(w.grandparents[index..index']) else 0;
      var stop := sum > 10 * w.maxOutput;
      && (stop <==> StopsAt(w, seen + [e], |seen|))
      && Standing(w, seen + [e], index', true, if stop then 0 else sum)
  {
    assert (seen + [e])[..|seen|] == seen;
    if seen != [] {
      var last := seen[|seen| - 1].k;
      assert Less((seen + [e])[|seen| - 1].k, (seen + [e])[|seen|].k);
      forall j | 0 <= j < index' ensures Less(w.grandparents[j].largest, e.k) {
        if j < index {
          KeyOrder(w.grandparents[j].largest, last, e.k);
        }
      }
      Later(w, seen, e, index, bytes, index');
    } else {
      PassedIs(w.grandparents, e.k);
    }
  }

  lemma Later(w: Limits, seen: seq<Entry>, e: Entry, index: nat, bytes: nat, index': nat)
    requires seen != [] && SortedEntries(seen + [e]) && Standing(w, seen, index, true, bytes)
    requires index <= index' && EndsAt(w.grandparents, e.k, index')
    ensures bytes + TotalFileSize(w.grandparents[index..index']) == BytesBetween(w, seen[LastStop(w, seen)].k, e.k)
    ensures BytesBetween(w, e.k, e.k) == 0
  {
    var l, last := LastStop(w, seen), seen[|seen| - 1].k;
    PassedIs(w.grandparents, last);
    PassedIs(w.grandparents, e.k);
    if l < |seen| - 1 {
      assert Less((seen + [e])[l].k, (seen + [e])[|seen| - 1].k);
      PassedGrows(w.grandparents, seen[l].k, last);
    }
    TotalJoin(w.grandparents, Passed(w.grandparents, seen[l].k), index, index');
  }

  // ---- cuts ----

  ghost predicate AllBefore(o: seq<Entry>, k: IKey) {
    forall e | e in o :: Less(e.k, k)
  }

  ghost predicate AllFrom(o: seq<Entry>, k: IKey) {
    forall e | e in o :: AtMost(k, e.k)
  }

  // No proper part of the output is large enough.
  ghost predicate PartsSmall(w: Limits, o: seq<Entry>) {
    forall n | 0 < n < |o| :: w.tableSize(o[..n]) < w.maxOutput
  }

  /** Between output k and what comes after it key i stops. */
  ghost predicate StoppedBy(w: Limits, input: seq<Entry>, outs: seq<seq<Entry>>, open: seq<Entry>, k: nat, i: int)
    requires k < |outs|
  {
    && StopsAt(w, input, i) && AllBefore(outs[k], input[i].k)
    && AllFrom(open, input[i].k) && forall m | k < m < |outs| :: AllFrom(outs[m], input[i].k)
  }

  /** Output k was closed because it was large enough or because a key stopped it. */
  ghost predicate Closed(w: Limits, input: seq<Entry>, outs: seq<seq<Entry>>, open: seq<Entry>, k: nat)
    requires k < |outs|
  {
    w.tableSize(outs[k]) >= w.maxOutput || exists i :: StoppedBy(w, input, outs, open, k, i)
  }

  // No key that stops lies inside the output.
  ghost predicate Unstopped(w: Limits, input: seq<Entry>, o: seq<Entry>) {
    forall i | StopsAt(w, input, i) :: AllBefore(o, input[i].k) || AllFrom(o, input[i].k)
  }

  ghost predicate Sized(w: Limits, outs: seq<seq<Entry>>, open: seq<Entry>) {
    && (forall k | 0 <= k < |outs| :: PartsSmall(w, outs[k]))
    && PartsSmall(w, open) && (open != [] ==> w.tableSize(open) < w.maxOutput)
  }

  ghost predicate OpenAfter(w: Limits, seen: seq<Entry>, open: seq<Entry>) {
    forall i | StopsAt(w, seen, i) :: AllFrom(open, seen[i].k)
  }

  ghost predicate NoneStopped(w: Limits, seen: seq<Entry>, outs: seq<seq<Entry>>) {
    forall k | 0 <= k < |outs| :: Unstopped(w, seen, outs[k])
  }

  ghost predicate ClosedAt(w: Limits, input: seq<Entry>, outs: seq<seq<Entry>>, open: seq<Entry>, k: int) {
    0 <= k < |outs| ==> Closed(w, input, outs, open, k)
  }

  ghost predicate CutAt(w: Limits, seen: seq<Entry>, outs: seq<seq<Entry>>, open: seq<Entry>, k: int) {
    && Sized(w, outs, open) && NoneStopped(w, seen, outs) && OpenAfter(w, seen, open)
    && ClosedAt(w, seen, outs, open, k)
  }

  /** The closed outputs and the one being built. */
  ghost predicate WellCut(w: Limits, seen: seq<Entry>, outs: seq<seq<Entry>>, open: seq<Entry>) {
    forall k :: CutAt(w, seen, outs, open, k)
  }

  ghost predicate Within(outs: seq<seq<Entry>>, open: seq<Entry>, seen: seq<Entry>) {
    (forall k, e | 0 <= k < |outs| && e in outs[k] :: e in seen) && forall e | e in open :: e in seen
  }

  /** All outputs: each one ends where it is large enough or a key stops it, and not
      before; the last one also ends with the input. */
  ghost predicate CutRight(w: Limits, input: seq<Entry>, outs: seq<seq<Entry>>) {
    && (forall k | 0 <= k < |outs| :: PartsSmall(w, outs[k]) && Unstopped(w, input, outs[k]))
    && forall k | k != |outs| - 1 :: ClosedAt(w, input, outs, [], k)
  }

  // Entries seen before e come before it.
  lemma SeenBefore(seen: seq<Entry>, e: Entry, o: seq<Entry>)
    requires SortedEntries(seen + [e]) && forall x | x in o :: x in seen
    ensures AllBefore(o, e.k)
  {
    forall x | x in o ensures Less(x.k, e.k) {
      var i :| 0 <= i < |seen| && seen[i] == x;
      assert Less((seen + [e])[i].k, (seen + [e])[|seen|].k);
    }
  }

  lemma StillUnstopped(w: Limits, seen: seq<Entry>, e: Entry, o: seq<Entry>)
    requires Unstopped(w, seen, o) && AllBefore(o, e.k)
    ensures Unstopped(w, seen + [e], o)
  {
    StopsEarlier(w, seen, e);
  }

  // Closed because of a stop, it stays so when only later outputs change.
  lemma StillClosed(w: Limits, seen: seq<Entry>, seen': seq<Entry>, outs: seq<seq<Entry>>, open: seq<Entry>,
    outs': seq<seq<Entry>>, open': seq<Entry>, k: nat)
    requires ClosedAt(w, seen, outs, open, k) && k < |outs| && k < |outs'| && outs'[k] == outs[k]
    requires forall i | StoppedBy(w, seen, outs, open, k, i) :: StoppedBy(w, seen', outs', open', k, i)
    ensures ClosedAt(w, seen', outs', open', k)
  {
    assert Closed(w, seen, outs, open, k);
    if w.tableSize(outs[k]) < w.maxOutput {
      var i :| StoppedBy(w, seen, outs, open, k, i);
      assert StoppedBy(w, seen', outs', open', k, i);
    }
  }

  /** A key that does not stop the output being built changes nothing. */
  lemma PassKeeps(w: Limits, seen: seq<Entry>, e: Entry, outs: seq<seq<Entry>>, open: seq<Entry>)
    requires WellCut(w, seen, outs, open) && Within(outs, open, seen) && SortedEntries(seen + [e])
    requires StopsAt(w, seen + [e], |seen|) ==> open == []
    ensures WellCut(w, seen + [e], outs, open)
  {
    assert CutAt(w, seen, outs, open, |outs|);
    var seen' := seen + [e];
    StopsEarlier(w, seen, e);
    forall k | 0 <= k < |outs| ensures Unstopped(w, seen', outs[k]) {
      SeenBefore(seen, e, outs[k]);
      StillUnstopped(w, seen, e, outs[k]);
    }
    forall k ensures CutAt(w, seen', outs, open, k) {
      assert CutAt(w, seen, outs, open, k);
      if 0 <= k < |outs| {
        StillClosed(w, seen, seen', outs, open, outs, open, k);
      }
    }
  }

  /** A key that stops it closes it. */
  lemma StopKeeps(w: Limits, seen: seq<Entry>, e: Entry, outs: seq<seq<Entry>>, open: seq<Entry>)
    requires WellCut(w, seen, outs, open) && Within(outs, open, seen) && SortedEntries(seen + [e])
    requires StopsAt(w, seen + [e], |seen|)
    ensures WellCut(w, seen + [e], outs + [open], [])
  {
    assert CutAt(w, seen, outs, open, |outs|);
    var seen', outs' := seen + [e], outs + [open];
    StopsEarlier(w, seen, e);
    SeenBefore(seen, e, open);
    forall k | 0 <= k < |outs'| ensures Unstopped(w, seen', outs'[k]) {
      if k < |outs| {
        SeenBefore(seen, e, outs[k]);
        StillUnstopped(w, seen, e, outs[k]);
      }
    }
    forall k ensures CutAt(w, seen', outs', [], k) {
      assert CutAt(w, seen, outs, open, k);
      if 0 <= k < |outs| {
        StillClosed(w, seen, seen', outs, open, outs', [], k);
      } else if k == |outs| {
        assert StoppedBy(w, seen', outs', [], k, |seen|);
      }
    }
  }

  ghost predicate StopsUpTo(w: Limits, seen: seq<Entry>, e: Entry) {
    forall i | StopsAt(w, seen, i) :: AtMost(seen[i].k, e.k)
  }

  lemma LongerOpen(w: Limits, seen: seq<Entry>, e: Entry, open: seq<Entry>)
    requires OpenAfter(w, seen, open) && StopsUpTo(w, seen, e)
    ensures OpenAfter(w, seen, open + [e])
  {}

  lemma LongerParts(w: Limits, open: seq<Entry>, e: Entry)
    requires PartsSmall(w, open) && (open != [] ==> w.tableSize(open) < w.maxOutput)
    ensures PartsSmall(w, open + [e])
  {
    var o := open + [e];
    forall n | 0 < n < |o| ensures w.tableSize(o[..n]) < w.maxOutput {
      assert o[..n] == open[..n] && open[..|open|] == open;
    }
  }

  /** An entry that is kept joins the output being built ... */
  lemma EntryKeeps(w: Limits, seen: seq<Entry>, e: Entry, outs: seq<seq<Entry>>, open: seq<Entry>)
    requires WellCut(w, seen, outs, open) && StopsUpTo(w, seen, e)
    requires w.tableSize(open + [e]) < w.maxOutput
    ensures WellCut(w, seen, outs, open + [e])
  {
    assert CutAt(w, seen, outs, open, |outs|);
    LongerOpen(w, seen, e, open);
    LongerParts(w, open, e);
    forall k ensures CutAt(w, seen, outs, open + [e], k) {
      assert CutAt(w, seen, outs, open, k);
      if 0 <= k < |outs| {
        StillClosed(w, seen, seen, outs, open, outs, open + [e], k);
      }
    }
  }

  /** ... which is closed when that makes it large enough. */
  lemma FullKeeps(w: Limits, seen: seq<Entry>, e: Entry, outs: seq<seq<Entry>>, open: seq<Entry>)
    requires WellCut(w, seen, outs, open) && StopsUpTo(w, seen, e)
    requires w.tableSize(open + [e]) >= w.maxOutput
    ensures WellCut(w, seen, outs + [open + [e]], [])
  {
    assert CutAt(w, seen, outs, open, |outs|);
    var outs' := outs + [open + [e]];
    LongerOpen(w, seen, e, open);
    LongerParts(w, open, e);
    forall k ensures CutAt(w, seen, outs', [], k) {
      assert CutAt(w, seen, outs, open, k);
      if 0 <= k < |outs| {
        StillClosed(w, seen, seen, outs, open, outs', [], k);
      }
    }
  }

  /** At the end of the input what is left is the last output. */
  lemma EndKeeps(w: Limits, input: seq<Entry>, outs: seq<seq<Entry>>, open: seq<Entry>)
    requires WellCut(w, input, outs, open)
    ensures CutRight(w, input, if open == [] then outs else outs + [open])
  {
    assert CutAt(w, input, outs, open, |outs|);
    forall k ensures ClosedAt(w, input, outs, open, k) {
      assert CutAt(w, input, outs, open, k);
    }
    if open != [] {
      var outs' := outs + [open];
      forall k | k != |outs| ensures ClosedAt(w, input, outs', [], k) {
        if 0 <= k < |outs| {
          StillClosed(w, input, input, outs, open, outs', [], k);
        }
      }
    }
  }

  // ---- the cuts are determined ----

  lemma HeadOf(outs: seq<seq<Entry>>)
    requires outs != []
    ensures Concat(outs) == outs[0] + Concat(outs[1..])
  {
    ConcatSplit(outs, 1);
    assert outs[..1] == [outs[0]] && Concat([outs[0]]) == outs[0];
  }

  lemma {:induction false} ConcatSplit(outs: seq<seq<Entry>>, i: nat)
    requires i <= |outs|
    ensures Concat(outs) == Concat(outs[..i]) + Concat(outs[i..])
  {
    if i == |outs| {
      assert outs[..i] == outs;
    } else {
      var n := |outs| - 1;
      ConcatSplit(outs[..n], i);
      assert outs[..n][..i] == outs[..i] && outs[..n][i..] == outs[i..][..n - i];
    }
  }

  // An output cannot go on past where another one of the same entries was stopped.
  lemma StopInside(w: Limits, input: seq<Entry>, a: seq<seq<Entry>>, o: seq<Entry>, n: nat)
    requires |a| > 1 && a[0] != [] && a[1] != [] && ClosedAt(w, input, a, [], 0) && Unstopped(w, input, o)
    requires n == |a[0]| < |o| && o[0] == a[0][0] && o[n] == a[1][0]
    ensures w.tableSize(a[0]) >= w.maxOutput
  {
    assert Closed(w, input, a, [], 0);
    assert a[0][0] in a[0] && a[1][0] in a[1] && o[0] in o && o[n] in o;
    forall i | StopsAt(w, input, i) ensures !StoppedBy(w, input, a, [], 0, i) {
      assert AllBefore(o, input[i].k) || AllFrom(o, input[i].k);
      assert AllFrom(a[1], input[i].k) ==> AtMost(input[i].k, o[n].k);
    }
  }

  /** Of two right cuts of the same entries neither has the shorter first output. */
  lemma NoShorter(w: Limits, input: seq<Entry>, a: seq<seq<Entry>>, b: seq<seq<Entry>>)
    requires CutRight(w, input, a) && CutRight(w, input, b) && Concat(a) == Concat(b) && a != [] && b != []
    requires (forall k | 0 <= k < |a| :: a[k] != []) && (forall k | 0 <= k < |b| :: b[k] != [])
    ensures |a[0]| >= |b[0]|
  {
    var n := |a[0]|;
    if n < |b[0]| {
      HeadOf(a);
      HeadOf(b);
      FirstOfTwo(a[0], Concat(a[1..]), b[0], Concat(b[1..]));
      if |a| > 1 {
        HeadOf(a[1..]);
        assert a[1..][0] == a[1];
        assert PartsSmall(w, b[0]) && ClosedAt(w, input, a, [], 0);
        StopInside(w, input, a, b[0], n);
      }
    }
  }

  lemma FirstOfTwo(a: seq<Entry>, rest: seq<Entry>, b: seq<Entry>, bs: seq<Entry>)
    requires a + rest == b + bs && 0 < |a| < |b|
    ensures rest != [] && b[..|a|] == a && b[0] == a[0] && b[|a|] == rest[0]
  {
    var whole := a + rest;
    assert whole[..|a|] == a && (b + bs)[..|a|] == b[..|a|];
    assert whole[|a|] == rest[0] && (b + bs)[|a|] == b[|a|] && whole[0] == a[0];
  }

  lemma TailCut(w: Limits, input: seq<Entry>, a: seq<seq<Entry>>)
    requires CutRight(w, input, a) && a != []
    ensures CutRight(w, input, a[1..])
  {
    var t := a[1..];
    forall k | k != |t| - 1 ensures ClosedAt(w, input, t, [], k) {
      if 0 <= k < |t| {
        assert ClosedAt(w, input, a, [], k + 1);
        assert Closed(w, input, a, [], k + 1);
        TailClosed(w, input, a, k);
      }
    }
  }

  lemma TailClosed(w: Limits, input: seq<Entry>, a: seq<seq<Entry>>, k: nat)
    requires k + 1 < |a| && Closed(w, input, a, [], k + 1)
    ensures Closed(w, input, a[1..], [], k)
  {
    if w.tableSize(a[k + 1]) < w.maxOutput {
      var i :| StoppedBy(w, input, a, [], k + 1, i);
      forall m | k < m < |a| - 1 ensures AllFrom(a[1..][m], input[i].k) {
        assert AllFrom(a[m + 1], input[i].k);
      }
      assert StoppedBy(w, input, a[1..], [], k, i);
    }
  }

  /** There is only one way to cut the entries right. */
  lemma {:induction false} CutsAreDetermined(w: Limits, input: seq<Entry>, a: seq<seq<Entry>>, b: seq<seq<Entry>>)
    requires CutRight(w, input, a) && CutRight(w, input, b) && Concat(a) == Concat(b)
    requires (forall k | 0 <= k < |a| :: a[k] != []) && (forall k | 0 <= k < |b| :: b[k] != [])
    ensures a == b
    decreases |a|
  {
    if a != [] {
      HeadOf(a);
    }
    if b != [] {
      HeadOf(b);
    }
    if a != [] && b != [] {
      NoShorter(w, input, a, b);
      NoShorter(w, input, b, a);
      assert a[0] == Concat(a)[..|a[0]|] == b[0];
      assert Concat(a[1..]) == Concat(a)[|a[0]|..] == Concat(b[1..]);
      TailCut(w, input, a);
      TailCut(w, input, b);
      CutsAreDetermined(w, input, a[1..], b[1..]);
      assert a == [a[0]] + a[1..] && b == [b[0]] + b[1..];
    }
  }
}
