/** DBIter (db/db_iter.cc): presents the visible user keys of a merging
    iterator, in both directions. */
module DbIter {
  import opened Options
  import opened Keys
  import Merger

  ghost function Contents(es: seq<Entry>): iset<Entry> {
    iset e | e in es
  }

  ghost predicate InOrder(es: seq<Entry>, i: int, j: int) {
    0 <= i < j < |es| ==> Less(es[i].k, es[j].k) && es[i].k.sn != es[j].k.sn
  }

  // Sorted entries under different sequence numbers.
  ghost predicate GoodEntries(es: seq<Entry>) {
    forall i, j :: InOrder(es, i, j)
  }

  lemma GoodMeans(es: seq<Entry>)
    ensures GoodEntries(es) <==> SortedEntries(es) && DistinctSequences(Contents(es))
  {
    if GoodEntries(es) {
      forall i, j | 0 <= i < j < |es| ensures Less(es[i].k, es[j].k) {
        assert InOrder(es, i, j);
      }
      forall a, b | a in es && b in es && a.k.sn == b.k.sn ensures a == b {
        var i :| 0 <= i < |es| && es[i] == a;
        var j :| 0 <= j < |es| && es[j] == b;
        assert InOrder(es, i, j) && InOrder(es, j, i);
      }
    } else {
      var i, j :| !InOrder(es, i, j);
      assert es[i] in Contents(es) && es[j] in Contents(es);
      KeyOrder(es[i].k, es[j].k, es[i].k);
    }
  }

  predicate Seen(es: seq<Entry>, s: Sequence, i: nat)
    requires i < |es|
  {
    es[i].k.sn <= s
  }

  /** Entry i is what a read of its key at s returns: the first visible entry of
      the key, and a value. */
  ghost predicate Live(es: seq<Entry>, s: Sequence, i: nat) {
    && i < |es| && Seen(es, s, i) && es[i].k.kind.Put?
    && forall j | 0 <= j < i && es[j].k.user == es[i].k.user :: !Seen(es, s, j)
  }

  lemma SameUserOrder(es: seq<Entry>, i: nat, j: nat)
    requires GoodEntries(es) && i < j < |es|
    ensures es[i].k.user <= es[j].k.user
    ensures es[i].k.user == es[j].k.user ==> es[i].k.sn > es[j].k.sn
  {
    assert InOrder(es, i, j);
  }

  /** The live entries are exactly the keys a read at s finds. */
  lemma LiveIsLookup(es: seq<Entry>, s: Sequence, i: nat)
    requires GoodEntries(es) && Live(es, s, i)
    ensures Lookup(Contents(es), es[i].k.user, s) == Some(es[i].v)
  {
    forall x | x in Contents(es) && Visible(x, es[i].k.user, s) ensures x.k.sn <= es[i].k.sn {
      var j :| 0 <= j < |es| && es[j] == x;
      if i < j {
        SameUserOrder(es, i, j);
      }
    }
    GoodMeans(es);
    LookupOf(Contents(es), es[i].k.user, s, es[i]);
  }

  lemma LookupIsLive(es: seq<Entry>, s: Sequence, u: UserKey) returns (i: nat)
    requires GoodEntries(es) && Lookup(Contents(es), u, s).Some?
    ensures Live(es, s, i) && es[i].k.user == u
  {
    var e :| IsNewest(Contents(es), u, s, e) && e.k.kind.Put?;
    i :| 0 <= i < |es| && es[i] == e;
    forall j | 0 <= j < i && es[j].k.user == u ensures !Seen(es, s, j) {
      SameUserOrder(es, j, i);
      assert es[j] in Contents(es);
    }
  }

  // ---- positions among the visible keys ----

  // The key found, if any, with its value.
  datatype At = Nowhere | AtKey(u: UserKey, v: Bytes)

  ghost predicate VisibleAs(P: iset<Entry>, s: Sequence, r: At) {
    r.AtKey? ==> Lookup(P, r.u, s) == Some(r.v)
  }

  /** r is the least visible key that is at least lo (above lo if strict). */
  ghost predicate LeastFrom(P: iset<Entry>, s: Sequence, lo: Option<UserKey>, strict: bool, r: At) {
    && VisibleAs(P, s, r)
    && (r.AtKey? ==> FromLo(lo, strict, r.u))
    && forall w | FromLo(lo, strict, w) && Lookup(P, w, s).Some? :: r.AtKey? && r.u <= w
  }

  predicate FromLo(lo: Option<UserKey>, strict: bool, w: UserKey) {
    lo.Some? ==> lo.value < w || (!strict && lo.value == w)
  }

  /** r is the greatest visible key below hi. */
  ghost predicate GreatestBelow(P: iset<Entry>, s: Sequence, hi: Option<UserKey>, r: At) {
    && VisibleAs(P, s, r)
    && (r.AtKey? ==> BelowHi(hi, r.u))
    && forall w | BelowHi(hi, w) && Lookup(P, w, s).Some? :: r.AtKey? && w <= r.u
  }

  predicate BelowHi(hi: Option<UserKey>, w: UserKey) {
    hi.Some? ==> w < hi.value
  }

  lemma LeastLive(es: seq<Entry>, s: Sequence, lo: Option<UserKey>, strict: bool, start: nat, at: nat)
    requires GoodEntries(es) && at <= |es|
    requires at < |es| ==> Live(es, s, at) && FromLo(lo, strict, es[at].k.user)
    requires forall i | 0 <= i < at && Live(es, s, i) :: !FromLo(lo, strict, es[i].k.user)
    ensures LeastFrom(Contents(es), s, lo, strict, if at < |es| then AtKey(es[at].k.user, es[at].v) else Nowhere)
  {
    if at < |es| {
      LiveIsLookup(es, s, at);
    }
    forall w | FromLo(lo, strict, w) && Lookup(Contents(es), w, s).Some? ensures at < |es| && es[at].k.user <= w {
      var i := LookupIsLive(es, s, w);
      if at < i {
        SameUserOrder(es, at, i);
      }
    }
  }

  lemma GreatestLive(es: seq<Entry>, s: Sequence, hi: Option<UserKey>, at: Option<nat>)
    requires GoodEntries(es)
    requires at.Some? ==> Live(es, s, at.value) && BelowHi(hi, es[at.value].k.user)
    requires forall i: nat | (at.Some? ==> at.value < i) && Live(es, s, i) :: !BelowHi(hi, es[i].k.user)
    ensures GreatestBelow(Contents(es), s, hi, if at.Some? then AtKey(es[at.value].k.user, es[at.value].v) else Nowhere)
  {
    if at.Some? {
      LiveIsLookup(es, s, at.value);
    }
    forall w | BelowHi(hi, w) && Lookup(Contents(es), w, s).Some? ensures at.Some? && w <= es[at.value].k.user {
      var i := LookupIsLive(es, s, w);
      if at.Some? && i < at.value {
        SameUserOrder(es, i, at.value);
      }
    }
  }

  lemma UpToCurrent(es: seq<Entry>, at: nat)
    requires GoodEntries(es) && at < |es|
    ensures forall i | 0 <= i <= at :: es[i].k.user <= es[at].k.user
    ensures forall i | at <= i < |es| :: es[i].k.user >= es[at].k.user
  {
    forall i | 0 <= i < |es| ensures if i <= at then es[i].k.user <= es[at].k.user else es[i].k.user >= es[at].k.user {
      if i < at {
        SameUserOrder(es, i, at);
      } else if at < i {
        SameUserOrder(es, at, i);
      }
    }
  }

  // ---- going forward ----

  /** The key up to which entries are being skipped, if any. */
  function Skip(skipping: bool, saved: Option<UserKey>): Option<UserKey> {
    if skipping then saved else None
  }

  predicate Beyond(skip: Option<UserKey>, u: UserKey) {
    skip.Some? ==> skip.value < u
  }

  ghost predicate ForwardAt(es: seq<Entry>, s: Sequence, pos: nat, skip: Option<UserKey>, j: int, i: int) {
    && (0 <= j < pos <= i < |es| && es[j].k.user == es[i].k.user && Seen(es, s, j) ==> !Beyond(skip, es[i].k.user))
    && (skip.Some? && pos <= i < |es| && Seen(es, s, i) ==> skip.value <= es[i].k.user)
  }

  /** Entries from pos on can be scanned: no visible key straddles pos, except
      keys being skipped, and nothing visible precedes the skipped key. */
  ghost predicate CanGoForward(es: seq<Entry>, s: Sequence, pos: nat, skip: Option<UserKey>) {
    pos <= |es| && forall j, i :: ForwardAt(es, s, pos, skip, j, i)
  }

  // A live entry i that the scan from start has passed or skips belongs to a key skipped from the outset.
  ghost predicate PassedAt(es: seq<Entry>, s: Sequence, start: nat, skip0: Option<UserKey>, pos: nat,
    skip: Option<UserKey>, i: int) {
    start <= i && Live(es, s, i) && (i < pos || !Beyond(skip, es[i].k.user)) ==> !Beyond(skip0, es[i].k.user)
  }

  ghost predicate Forwarding(es: seq<Entry>, s: Sequence, start: nat, skip0: Option<UserKey>, pos: nat,
    skip: Option<UserKey>) {
    && GoodEntries(es) && start <= pos && CanGoForward(es, s, pos, skip)
    && (skip0.Some? ==> skip.Some? && skip0.value <= skip.value)
    && forall i :: PassedAt(es, s, start, skip0, pos, skip, i)
  }

  lemma ForwardPassed(es: seq<Entry>, s: Sequence, start: nat, skip0: Option<UserKey>, pos: nat, skip: Option<UserKey>)
    requires Forwarding(es, s, start, skip0, pos, skip)
    ensures forall i | start <= i < pos && Live(es, s, i) :: !Beyond(skip0, es[i].k.user)
  {
    forall i | start <= i < pos && Live(es, s, i) ensures !Beyond(skip0, es[i].k.user) {
      assert PassedAt(es, s, start, skip0, pos, skip, i);
    }
  }

  // What the loop skips up to after looking at entry pos.
  function SkipAfter(es: seq<Entry>, s: Sequence, pos: nat, skip: Option<UserKey>): Option<UserKey>
    requires pos < |es|
  {
    if Seen(es, s, pos) && es[pos].k.kind.Deletion? then Some(es[pos].k.user) else skip
  }

  lemma ForwardStep(es: seq<Entry>, s: Sequence, start: nat, skip0: Option<UserKey>, pos: nat, skip: Option<UserKey>)
    requires Forwarding(es, s, start, skip0, pos, skip) && pos < |es|
    requires Seen(es, s, pos) && es[pos].k.kind.Put? ==> !Beyond(skip, es[pos].k.user)
    ensures Forwarding(es, s, start, skip0, pos + 1, SkipAfter(es, s, pos, skip))
  {
    UpToCurrent(es, pos);
    StillScannable(es, s, pos, skip);
    assert ForwardAt(es, s, pos, skip, pos, pos);
    var pos', skip' := pos + 1, SkipAfter(es, s, pos, skip);
    forall i ensures PassedAt(es, s, start, skip0, pos', skip', i) {
      assert PassedAt(es, s, start, skip0, pos, skip, i);
    }
  }

  lemma StillScannable(es: seq<Entry>, s: Sequence, pos: nat, skip: Option<UserKey>)
    requires GoodEntries(es) && CanGoForward(es, s, pos, skip) && pos < |es|
    requires Seen(es, s, pos) && es[pos].k.kind.Put? ==> !Beyond(skip, es[pos].k.user)
    ensures CanGoForward(es, s, pos + 1, SkipAfter(es, s, pos, skip))
  {
    UpToCurrent(es, pos);
    assert ForwardAt(es, s, pos, skip, pos, pos);
    var pos', skip' := pos + 1, SkipAfter(es, s, pos, skip);
    forall j, i ensures ForwardAt(es, s, pos', skip', j, i) {
      assert ForwardAt(es, s, pos, skip, j, i);
    }
  }

  lemma ForwardYields(es: seq<Entry>, s: Sequence, start: nat, skip0: Option<UserKey>, pos: nat, skip: Option<UserKey>)
    requires Forwarding(es, s, start, skip0, pos, skip) && pos < |es|
    requires Seen(es, s, pos) && es[pos].k.kind.Put? && Beyond(skip, es[pos].k.user)
    ensures Live(es, s, pos) && Beyond(skip0, es[pos].k.user)
    ensures forall i | start <= i < pos && Live(es, s, i) :: !Beyond(skip0, es[i].k.user)
  {
    forall j | 0 <= j < pos && es[j].k.user == es[pos].k.user ensures !Seen(es, s, j) {
      assert ForwardAt(es, s, pos, skip, j, pos);
    }
    ForwardPassed(es, s, start, skip0, pos, skip);
  }

  // ---- going backward ----

  ghost predicate BackwardAt(es: seq<Entry>, s: Sequence, top: nat, j: int, i: int) {
    0 <= j < top <= i < |es| && es[j].k.user == es[i].k.user ==> !Seen(es, s, i)
  }

  // No key is visible on both sides of top.
  ghost predicate CanGoBackward(es: seq<Entry>, s: Sequence, top: nat) {
    top <= |es| && forall j, i :: BackwardAt(es, s, top, j, i)
  }

  // Nothing before `found` has been seen, and a live entry scanned is `found`.
  ghost predicate BackedAt(es: seq<Entry>, s: Sequence, top: nat, c: nat, found: Option<nat>, i: int)
    requires top <= |es|
  {
    && (found.Some? && c <= i < found.value && i < |es| ==> !Seen(es, s, i))
    && (c <= i < top && Live(es, s, i) ==> found == Some(i))
  }

  /** Entries c .. top have been scanned backwards; `found` is the newest visible
      value of the last key met, if that key is not deleted. */
  ghost predicate Backing(es: seq<Entry>, s: Sequence, top: nat, c: nat, found: Option<nat>) {
    && GoodEntries(es) && c <= top && CanGoBackward(es, s, top)
    && (found.Some? ==> c <= found.value < top && Seen(es, s, found.value) && es[found.value].k.kind.Put?)
    && forall i :: BackedAt(es, s, top, c, found, i)
  }

  lemma BackwardStep(es: seq<Entry>, s: Sequence, top: nat, c: nat, found: Option<nat>)
    requires Backing(es, s, top, c, found) && 0 < c
    requires Seen(es, s, c - 1) && found.Some? ==> es[found.value].k.user <= es[c - 1].k.user
    ensures Backing(es, s, top, c - 1,
      if Seen(es, s, c - 1) then (if es[c - 1].k.kind.Put? then Some(c - 1) else None) else found)
  {
    var c' := c - 1;
    var found' := if Seen(es, s, c') then (if es[c'].k.kind.Put? then Some(c') else None) else found;
    forall i ensures BackedAt(es, s, top, c', found', i) {
      assert BackedAt(es, s, top, c, found, i);
      if found.Some? {
        SameUserOrder(es, c', found.value);
      }
    }
  }

  /** Backwards, everything visible before the current entry lies at or before
      the inner position, which rests on another key. */
  ghost predicate Behind(es: seq<Entry>, s: Sequence, at: nat, p: nat) {
    && at < |es|
    && (p < |es| ==> p < at && es[p].k.user < es[at].k.user && Seen(es, s, p))
    && forall j | 0 <= j < at && (p < |es| ==> p < j) :: !Seen(es, s, j)
  }

  lemma BackwardYields(es: seq<Entry>, s: Sequence, top: nat, c: nat, found: Option<nat>)
    requires Backing(es, s, top, c, found) && found.Some?
    requires c > 0 ==> Seen(es, s, c - 1) && es[c - 1].k.user < es[found.value].k.user
    ensures Live(es, s, found.value)
    ensures forall i | 0 <= i < top && Live(es, s, i) :: i <= found.value
    ensures Behind(es, s, found.value, if c == 0 then |es| else c - 1)
  {
    forall j | c <= j < found.value ensures !Seen(es, s, j) {
      assert BackedAt(es, s, top, c, found, j);
    }
    forall j | 0 <= j < found.value && es[j].k.user == es[found.value].k.user ensures !Seen(es, s, j) {
      if j < c - 1 {
        SameUserOrder(es, j, c - 1);
      }
    }
    BackwardEnds(es, s, top, c, found);
  }

  lemma BackwardEnds(es: seq<Entry>, s: Sequence, top: nat, c: nat, found: Option<nat>)
    requires Backing(es, s, top, c, found)
    ensures forall i | c <= i < top && Live(es, s, i) :: found == Some(i)
  {
    forall i | c <= i < top && Live(es, s, i) ensures found == Some(i) {
      assert BackedAt(es, s, top, c, found, i);
    }
  }

  datatype Direction = Forward | Reverse

  class DBIter {
    const iter: Merger.MergingIterator
    const sequence: Sequence
    var savedKey: Option<UserKey>
    var savedValue: Bytes
    var direction: Direction
    var valid: bool
    ghost var at: nat  // the live entry the iterator stands on

    constructor (iter: Merger.MergingIterator, s: Sequence)
      requires iter.Inv() && GoodEntries(iter.es)
      ensures Inv() && !valid && this.iter == iter && sequence == s
    {
      this.iter, sequence := iter, s;
      savedKey, savedValue, direction, valid := None, "", Forward, false;
      at := 0;
    }

    ghost predicate Inv()
      reads this, iter, iter.children
    {
      && iter.Inv() && GoodEntries(iter.es)
      && (valid ==> Live(iter.es, sequence, at))
      && (valid && direction.Forward? ==> iter.pos == at)
      && (valid && direction.Reverse? ==> Behind(iter.es, sequence, at, iter.pos))
      && (valid && direction.Reverse? ==> savedKey == Some(iter.es[at].k.user) && savedValue == iter.es[at].v)
    }

    function Key(): UserKey
      requires Inv() && valid
      reads this, iter, iter.children
    {
      if direction.Forward? then iter.Here().k.user else savedKey.value
    }

    function Value(): Bytes
      requires Inv() && valid
      reads this, iter, iter.children
    {
      if direction.Forward? then iter.Here().v else savedValue
    }

    // Where the iterator stands among the visible keys.
    ghost function Position(): At
      requires Inv()
      reads this, iter, iter.children
    {
      if valid then AtKey(Key(), Value()) else Nowhere
    }

    method FindNextUserEntry(skipping0: bool)
      requires iter.Inv() && GoodEntries(iter.es) && iter.Valid() && direction.Forward?
      requires CanGoForward(iter.es, sequence, iter.pos, Skip(skipping0, savedKey)) && (skipping0 ==> savedKey.Some?)
      modifies this, iter, iter.children
      ensures Inv() && direction.Forward?
      ensures valid ==> iter.pos >= old(iter.pos) && Beyond(old(Skip(skipping0, savedKey)), iter.es[at].k.user)
      ensures forall i | old(iter.pos) <= i < (if valid then at else |iter.es|) && Live(iter.es, sequence, i) ::
        !Beyond(old(Skip(skipping0, savedKey)), iter.es[i].k.user)
    {
      var skipping := skipping0;
      ghost var start, skip0 := iter.pos, Skip(skipping0, savedKey);
      var first := true;
      while first || iter.Valid()
        invariant iter.Inv() && (first ==> iter.Valid())
        invariant direction.Forward? && (skipping ==> savedKey.Some?)
        invariant Forwarding(iter.es, sequence, start, skip0, iter.pos, Skip(skipping, savedKey))
        decreases |iter.es| - iter.pos, first
      {
        first := false;
        var e := iter.Here();
        ghost var skip := Skip(skipping, savedKey);
        if e.k.sn <= sequence {
          match e.k.kind {
            case Deletion =>
              savedKey := Some(e.k.user);
              skipping := true;
            case Put =>
              if skipping && e.k.user <= savedKey.value {
              } else {
                ForwardYields(iter.es, sequence, start, skip0, iter.pos, skip);
                valid := true;
                at := iter.pos;
                savedKey := None;
                return;
              }
          }
        }
        ForwardStep(iter.es, sequence, start, skip0, iter.pos, skip);
        iter.Next();
      }
      ForwardPassed(iter.es, sequence, start, skip0, iter.pos, Skip(skipping, savedKey));
      savedKey := None;
      valid := false;
    }

    method SeekToFirst()
      requires Inv()
      modifies this, iter, iter.children
      ensures Inv() && LeastFrom(Contents(iter.es), sequence, None, false, Position())
    {
      direction := Forward;
      savedValue := "";
      iter.SeekToFirst();
      if iter.Valid() {
        FindNextUserEntry(false);
      } else {
        valid := false;
      }
      LeastLive(iter.es, sequence, None, false, 0, if valid then at else |iter.es|);
    }

    // The loop of FindPrevUserEntry.
    method ScanBack(ghost top: nat) returns (valueType: Kind, ghost found: Option<nat>, ghost c: nat)
      requires iter.Inv() && GoodEntries(iter.es) && direction.Reverse? && CanGoBackward(iter.es, sequence, top)
      requires iter.pos == if top == 0 then |iter.es| else top - 1
      modifies this`savedKey, this`savedValue, iter, iter.children
      ensures iter.Inv() && Backing(iter.es, sequence, top, c, found) && (valueType.Put? <==> found.Some?)
      ensures iter.pos == if c == 0 then |iter.es| else c - 1
      ensures found.Some? ==> savedKey == Some(iter.es[found.value].k.user) && savedValue == iter.es[found.value].v
      ensures found.None? ==> c == 0
      ensures found.Some? && c > 0 ==>
        Seen(iter.es, sequence, c - 1) && iter.es[c - 1].k.user < iter.es[found.value].k.user
    {
      valueType := Deletion;
      found, c := None, top;
      if iter.Valid() {
        var first := true;
        while first || iter.Valid()
          invariant iter.Inv() && (first ==> iter.Valid())
          invariant iter.pos == if c == 0 then |iter.es| else c - 1
          invariant Backing(iter.es, sequence, top, c, found)
          invariant valueType.Put? <==> found.Some?
          invariant found.Some?
            ==> savedKey == Some(iter.es[found.value].k.user) && savedValue == iter.es[found.value].v
          decreases c, first
        {
          first := false;
          var e := iter.Here();
          ghost var was := found;
          if e.k.sn <= sequence {
            if valueType != Deletion && e.k.user < savedKey.value {
              break;
            }
            valueType := e.k.kind;
            if valueType == Deletion {
              savedKey, savedValue := None, "";
              found := None;
            } else {
              savedKey, savedValue := Some(e.k.user), e.v;
              found := Some(iter.pos);
            }
          }
          BackwardStep(iter.es, sequence, top, c, was);
          iter.Prev();
          c := c - 1;
        }
      }
    }

    /** Saves the newest visible value of the previous undeleted key. */
    method FindPrevUserEntry(ghost top: nat)
      requires iter.Inv() && GoodEntries(iter.es) && direction.Reverse? && CanGoBackward(iter.es, sequence, top)
      requires iter.pos == if top == 0 then |iter.es| else top - 1
      modifies this, iter, iter.children
      ensures Inv() && (valid ==> direction.Reverse? && at < top)
      ensures forall i | 0 <= i < top && Live(iter.es, sequence, i) :: valid && i <= at
    {
      var valueType;
      ghost var found, c;
      valueType, found, c := ScanBack(top);
      if valueType == Deletion {
        BackwardEnds(iter.es, sequence, top, c, found);
        valid := false;
        savedKey, savedValue := None, "";
        direction := Forward;
      } else {
        BackwardYields(iter.es, sequence, top, c, found);
        at := found.value;
        valid := true;
      }
    }

    method Seek(target: UserKey)
      requires Inv()
      modifies this, iter, iter.children
      ensures Inv() && LeastFrom(Contents(iter.es), sequence, Some(target), false, Position())
    {
      direction := Forward;
      savedValue := "";
      savedKey := None;
      iter.Seek(SeekKey(target, sequence));
      SeekStart(iter.es, sequence, target, iter.pos);
      if iter.Valid() {
        FindNextUserEntry(false);
      } else {
        valid := false;
      }
      LeastLive(iter.es, sequence, Some(target), false, 0, if valid then at else |iter.es|);
    }

    method SeekToLast()
      requires Inv()
      modifies this, iter, iter.children
      ensures Inv() && GreatestBelow(Contents(iter.es), sequence, None, Position())
    {
      direction := Reverse;
      savedValue := "";
      iter.SeekToLast();
      FindPrevUserEntry(|iter.es|);
      GreatestLive(iter.es, sequence, None, if valid then Some(at) else None);
    }

    method Next()
      requires Inv() && valid
      modifies this, iter, iter.children
      ensures Inv() && LeastFrom(Contents(iter.es), sequence, Some(old(Key())), true, Position())
    {
      ghost var was, u := at, Key();
      if direction == Reverse {
        direction := Forward;
        if !iter.Valid() {
          iter.SeekToFirst();
        } else {
          iter.Next();
        }
        // The current entry is still ahead, so the inner iterator is valid.
        assert iter.Valid();
      } else {
        savedKey := Some(iter.Here().k.user);
      }
      NextStart(iter.es, sequence, was, iter.pos);
      FindNextUserEntry(true);
      UpToCurrent(iter.es, was);
      LeastLive(iter.es, sequence, Some(u), true, 0, if valid then at else |iter.es|);
    }

    /** Steps back from the current entry until the key changes. */
    method LeaveCurrentKey() returns (found: bool)
      requires Inv() && valid && direction.Forward?
      modifies this`savedKey, iter, iter.children
      ensures savedKey == Some(old(Key()))
      ensures iter.Inv() && (found <==> iter.Valid())
      ensures found ==> iter.pos < at && iter.es[iter.pos].k.user < savedKey.value
      ensures forall j | (found ==> iter.pos < j) && 0 <= j <= at :: iter.es[j].k.user == savedKey.value
    {
      savedKey := Some(iter.Here().k.user);
      UpToCurrent(iter.es, at);
      found := false;
      while true
        invariant iter.Inv() && iter.pos <= at && !found && savedKey == Some(old(Key()))
        invariant forall j | iter.pos <= j <= at :: iter.es[j].k.user == savedKey.value
        decreases iter.pos
      {
        iter.Prev();
        if !iter.Valid() {
          return;
        }
        if iter.Here().k.user < savedKey.value {
          return true;
        }
      }
    }

    method Prev()
      requires Inv() && valid
      modifies this, iter, iter.children
      ensures Inv() && GreatestBelow(Contents(iter.es), sequence, Some(old(Key())), Position())
    {
      ghost var was, u := at, Key();
      UpToCurrent(iter.es, was);
      if direction == Forward {
        var found := LeaveCurrentKey();
        if !found {
          valid := false;
          savedKey, savedValue := None, "";
          GreatestLive(iter.es, sequence, Some(u), None);
          return;
        }
        direction := Reverse;
      }
      ghost var top := if iter.Valid() then iter.pos + 1 else 0;
      PrevStart(iter.es, sequence, was, top);
      FindPrevUserEntry(top);
      GreatestLive(iter.es, sequence, Some(u), if valid then Some(at) else None);
    }
  }

  lemma NextStart(es: seq<Entry>, s: Sequence, at: nat, pos: nat)
    requires GoodEntries(es) && Live(es, s, at) && pos <= at
    requires forall j | pos <= j < at :: !Seen(es, s, j)
    ensures CanGoForward(es, s, pos, Some(es[at].k.user))
  {
    UpToCurrent(es, at);
  }

  /** Below top every key is smaller than the current one, and nothing visible
      lies between top and the current entry's key. */
  lemma PrevStart(es: seq<Entry>, s: Sequence, at: nat, top: nat)
    requires GoodEntries(es) && Live(es, s, at) && top <= at
    requires top > 0 ==> es[top - 1].k.user < es[at].k.user
    requires forall j | top <= j < at :: !Seen(es, s, j) || es[j].k.user == es[at].k.user
    ensures CanGoBackward(es, s, top)
    ensures forall i | 0 <= i < top :: es[i].k.user < es[at].k.user
    ensures forall i | top <= i && Live(es, s, i) :: es[i].k.user >= es[at].k.user
  {
    UpToCurrent(es, at);
    if top > 0 {
      UpToCurrent(es, top - 1);
    }
  }

  lemma SeekStart(es: seq<Entry>, s: Sequence, target: UserKey, pos: nat)
    requires GoodEntries(es) && SeeksTo(es, SeekKey(target, s), pos)
    ensures CanGoForward(es, s, pos, None)
    ensures forall i | 0 <= i < pos && Seen(es, s, i) :: es[i].k.user < target
    ensures forall i | pos <= i < |es| :: es[i].k.user >= target
  {
    forall i | 0 <= i < |es| ensures if i < pos then Seen(es, s, i) ==> es[i].k.user < target
      else es[i].k.user >= target {
      SeekKeyBound(target, s, es[i].k);
      if pos < i {
        KeyOrder(SeekKey(target, s), es[pos].k, es[i].k);
        SameUserOrder(es, pos, i);
        SeekKeyBound(target, s, es[pos].k);
      }
    }
  }
}
