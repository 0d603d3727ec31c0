/** Internal keys as bytes, and the keys put between blocks (db/dbformat.h,
    db/dbformat.cc, util/comparator.cc). */
module ByteKeys {
  import Keys
  import opened Coding

  // ---- the bytewise order ----

  // BytewiseComparator's Compare(a, b) < 0
  predicate BytesLess(a: Bytes, b: Bytes) {
    b != [] && (a == [] || a[0] < b[0] || (a[0] == b[0] && BytesLess(a[1..], b[1..])))
  }

  /** The bytewise order is a strict total order. */
  lemma {:induction false} BytesOrder(a: Bytes, b: Bytes, c: Bytes)
    ensures !BytesLess(a, a)
    ensures BytesLess(a, b) && BytesLess(b, c) ==> BytesLess(a, c)
    ensures BytesLess(a, b) || BytesLess(b, a) || a == b
  {
    if a != [] {
      BytesOrder(a[1..], if b == [] then [] else b[1..], if c == [] then [] else c[1..]);
      assert b != [] && a[0] == b[0] && a[1..] == b[1..] ==> a == [a[0]] + a[1..] == [b[0]] + b[1..] == b;
    }
  }

  /** The first byte that differs decides. */
  lemma {:induction false} FirstDifference(a: Bytes, b: Bytes, n: nat)
    requires n < |a| && n < |b| && a[..n] == b[..n] && a[n] < b[n]
    ensures BytesLess(a, b)
  {
    if n > 0 {
      assert a[0] == a[..n][0] == b[..n][0] == b[0];
      assert a[1..][..n - 1] == a[..n][1..] == b[..n][1..] == b[1..][..n - 1];
      FirstDifference(a[1..], b[1..], n - 1);
    }
  }

  // After what the two agree in there is room for a byte between theirs.
  predicate RoomBetween(a: Bytes, b: Bytes) {
    var n := Agreement(a, b);
    n < |a| && n < |b| && (a[n] as int) + 1 < b[n]
  }

  // Such a byte also makes the key shorter.
  predicate Shortens(a: Bytes, b: Bytes) {
    RoomBetween(a, b) && Agreement(a, b) + 1 < |a|
  }

  // r ends after n bytes of key and a byte one greater than key's next.
  predicate StepsAt(r: Bytes, key: Bytes, n: nat) {
    n < |key| && |r| == n + 1 && r[..n] == key[..n] && r[n] == (key[n] as int) + 1
  }

  /** What lies between two keys begins with all they agree in, and is longer. */
  lemma NoneShorter(a: Bytes, b: Bytes, t: Bytes)
    requires RoomBetween(a, b) && BytesLess(a, t) && BytesLess(t, b)
    ensures |t| > Agreement(a, b)
    decreases |a|
  {
    if Agreement(a, b) > 0 {
      NoneShorter(a[1..], b[1..], t[1..]);
    }
  }

  // BytewiseComparator's FindShortestSeparator
  method ShortestSeparator(start: Bytes, limit: Bytes) returns (r: Bytes)
    ensures r == start || (|r| <= |start| && BytesLess(start, r) && BytesLess(r, limit))
    ensures if RoomBetween(start, limit) then StepsAt(r, start, Agreement(start, limit)) else r == start
    ensures r != start ==> forall t | BytesLess(start, t) && BytesLess(t, limit) :: |r| <= |t|
  {
    var n := Common(start, limit);
    AgreementIs(start, limit);
    AgreeOnce(start, limit, n, Agreement(start, limit));
    if n < |start| && n < |limit| && start[n] < 0xff && start[n] + 1 < limit[n] {
      r := start[..n] + [start[n] + 1];
      FirstDifference(start, r, n);
      FirstDifference(r, limit, n);
      forall t | BytesLess(start, t) && BytesLess(t, limit) ensures |r| <= |t| {
        NoneShorter(start, limit, t);
      }
    } else {
      r := start;
    }
  }

  // BytewiseComparator's FindShortSuccessor
  method ShortSuccessor(key: Bytes) returns (r: Bytes)
    ensures r == key || (|r| <= |key| && BytesLess(key, r))
    ensures r == key ==> forall i | 0 <= i < |key| :: key[i] == 0xff
    ensures r != key ==> exists n :: StepsAt(r, key, n) && forall i | 0 <= i < n :: key[i] == 0xff
  {
    for i := 0 to |key|
      invariant forall j | 0 <= j < i :: key[j] == 0xff
    {
      if key[i] != 0xff {
        r := key[..i] + [key[i] + 1];
        FirstDifference(key, r, i);
        assert StepsAt(r, key, i);
        return;
      }
    }
    r := key;
  }

  // ---- internal keys ----

  /** An internal key ends in eight bytes holding its sequence number and kind. */
  predicate IsInternal(k: Bytes) {
    |k| >= 8
  }

  // ExtractUserKey
  function User(k: Bytes): Bytes
    requires IsInternal(k)
  {
    k[..|k| - 8]
  }

  function Packed(k: Bytes): nat
    requires IsInternal(k)
  {
    DecodeFixed64(k[|k| - 8..])
  }

  function SequenceOf(k: Bytes): nat
    requires IsInternal(k)
  {
    Packed(k) / 256
  }

  // Appending a packed sequence number and kind to a user key.
  function Tagged(user: Bytes, k: Keys.IKey): (r: Bytes)
    ensures IsInternal(r)
  {
    user + EncodeFixed64(Keys.Tag(k))
  }

  /** A tagged key gives back its parts. */
  lemma TaggedParts(user: Bytes, k: Keys.IKey)
    ensures User(Tagged(user, k)) == user && Packed(Tagged(user, k)) == Keys.Tag(k)
      && SequenceOf(Tagged(user, k)) == k.sn
  {
    DecodeEncodeFixed64(Keys.Tag(k));
    assert Tagged(user, k)[|user|..] == EncodeFixed64(Keys.Tag(k));
  }

  // LookupKey's internal key
  function LookupKey(u: Bytes, s: Keys.Sequence): (r: Bytes)
    ensures IsInternal(r)
  {
    Tagged(u, Keys.SeekKey(0, s))
  }

  // InternalKeyComparator's Compare(a, b) < 0
  predicate KeyLess(a: Bytes, b: Bytes) {
    IsInternal(a) && IsInternal(b) && (BytesLess(User(a), User(b)) || (User(a) == User(b) && Packed(a) > Packed(b)))
  }

  lemma KeyOrder(a: Bytes, b: Bytes, c: Bytes)
    ensures !KeyLess(a, a)
    ensures KeyLess(a, b) && KeyLess(b, c) ==> KeyLess(a, c)
    ensures IsInternal(a) && IsInternal(b) && IsInternal(c) && KeyLess(a, b) && !KeyLess(c, b) ==> KeyLess(a, c)
    ensures IsInternal(a) && IsInternal(b) && IsInternal(c) && !KeyLess(b, a) && KeyLess(b, c) ==> KeyLess(a, c)
    ensures IsInternal(a) && IsInternal(b) && IsInternal(c) && !KeyLess(b, a) && !KeyLess(c, b) ==> !KeyLess(c, a)
  {
    if IsInternal(a) {
      BytesOrder(User(a), User(a), User(a));
    }
    if IsInternal(a) && IsInternal(b) && IsInternal(c) {
      BytesOrder(User(a), User(b), User(c));
      BytesOrder(User(b), User(c), User(a));
      BytesOrder(User(c), User(b), User(a));
      BytesOrder(User(c), User(a), User(b));
      BytesOrder(User(b), User(a), User(c));
    }
  }

  /** sep ends a block whose last key is `last`, with `next` after it: it is
      `last` itself, or its user key lies strictly between theirs. */
  ghost predicate Divides(sep: Bytes, last: Bytes, next: Bytes) {
    && IsInternal(sep) && IsInternal(last) && IsInternal(next) && KeyLess(sep, next)
    && (sep == last || (BytesLess(User(last), User(sep)) && BytesLess(User(sep), User(next))))
  }

  // What is known of a separator before the next key comes.
  ghost predicate Closes(sep: Bytes, last: Bytes) {
    IsInternal(sep) && IsInternal(last) && (sep == last || BytesLess(User(last), User(sep)))
  }

  const EARLIEST := Keys.IKey(0, Keys.MAX_SEQUENCE, Keys.Put)

  // InternalKeyComparator's FindShortestSeparator
  method FindShortestSeparator(start: Bytes, limit: Bytes) returns (r: Bytes)
    requires KeyLess(start, limit)
    ensures Divides(r, start, limit) && |r| <= |start|
    ensures r != start <==> Shortens(User(start), User(limit))
    ensures r != start ==> StepsAt(User(r), User(start), Agreement(User(start), User(limit)))
  {
    var tmp := ShortestSeparator(User(start), User(limit));
    BytesOrder(User(start), User(start), tmp);
    if |tmp| < |User(start)| && BytesLess(User(start), tmp) {
      r := Tagged(tmp, EARLIEST);
      TaggedParts(tmp, EARLIEST);
    } else {
      r := start;
    }
  }

  // InternalKeyComparator's FindShortSuccessor
  method FindShortSuccessor(key: Bytes) returns (r: Bytes)
    requires IsInternal(key)
    ensures Closes(r, key) && |r| <= |key|
  {
    var tmp := ShortSuccessor(User(key));
    BytesOrder(User(key), User(key), tmp);
    if |tmp| < |User(key)| && BytesLess(User(key), tmp) {
      r := Tagged(tmp, EARLIEST);
      TaggedParts(tmp, EARLIEST);
    } else {
      r := key;
    }
  }
}
