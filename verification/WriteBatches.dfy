/** Write batches as bytes (db/write_batch.cc). */
module WriteBatches {
  import opened Options
  import opened Coding

  const HEADER: nat := 12

  datatype Op = Put(key: Bytes, value: Bytes) | Delete(key: Bytes)

  predicate OpOk(op: Op) {
    |op.key| < LIMIT32 && (op.Put? ==> |op.value| < LIMIT32)
  }

  ghost predicate AllOk(ops: seq<Op>) {
    forall i | 0 <= i < |ops| :: OpOk(ops[i])
  }

  // kTypeValue is 1, kTypeDeletion 0.
  function EncodeOp(op: Op): (b: Bytes)
    ensures |b| >= 1
  {
    match op
    case Put(key, value) => [1] + Prefixed(key) + Prefixed(value)
    case Delete(key) => [0] + Prefixed(key)
  }

  function EncodeOps(ops: seq<Op>): Bytes {
    EncodeFrom(ops, 0)
  }

  // The operations from the k-th on.
  function EncodeFrom(ops: seq<Op>, k: nat): Bytes
    requires k <= |ops|
  {
    From(EncodeOp, ops, k)
  }

  function From(enc: Op -> Bytes, ops: seq<Op>, k: nat): Bytes
    requires k <= |ops|
    decreases |ops| - k
  {
    if k == |ops| then [] else enc(ops[k]) + From(enc, ops, k + 1)
  }

  lemma OpsJoin(a: seq<Op>, b: seq<Op>)
    ensures EncodeOps(a + b) == EncodeOps(a) + EncodeOps(b)
  {
    JoinFrom(EncodeOp, a, b, 0);
  }

  lemma {:induction false} JoinFrom(enc: Op -> Bytes, a: seq<Op>, b: seq<Op>, k: nat)
    requires k <= |a|
    ensures From(enc, a + b, k) == From(enc, a, k) + From(enc, b, 0)
    decreases |a| - k
  {
    if k == |a| {
      assert forall j: nat | j < |b| :: SameAt(a + b, |a|, b, j);
      SecondFrom(enc, a + b, |a|, b, 0, |a|);
      NoneBefore(From(enc, b, 0));
    } else {
      JoinFrom(enc, a, b, k + 1);
      Reassociate(enc(a[k]), From(enc, a, k + 1), From(enc, b, 0));
    }
  }

  ghost predicate SameAt(c: seq<Op>, n: nat, b: seq<Op>, j: nat) {
    j < |b| && n + j < |c| && c[n + j] == b[j]
  }

  // Where b stands at the end of c: b's k-th is c's i-th.
  lemma {:induction false} SecondFrom(enc: Op -> Bytes, c: seq<Op>, n: nat, b: seq<Op>, k: nat, i: nat)
    requires k <= |b| && i == n + k && |c| == n + |b| && forall j: nat | j < |b| :: SameAt(c, n, b, j)
    ensures From(enc, c, i) == From(enc, b, k)
    decreases |b| - k
  {
    if k < |b| {
      SecondFrom(enc, c, n, b, k + 1, i + 1);
      assert SameAt(c, n, b, k);
      SameStep(enc, c, i, b, k);
    }
  }

  lemma {:induction false} SameStep(enc: Op -> Bytes, a: seq<Op>, i: nat, b: seq<Op>, j: nat)
    requires i < |a| && j < |b| && a[i] == b[j] && From(enc, a, i + 1) == From(enc, b, j + 1)
    ensures From(enc, a, i) == From(enc, b, j)
  {}

  // ---- reading one operation ----

  function GetPut(b: Bytes): (r: Option<Rest<Op>>)
    ensures r.Some? ==> |r.value.rest| < |b|
  {
    match GetLengthPrefixedSlice(b)
    case None => None
    case Some(k) => match GetLengthPrefixedSlice(k.rest)
      case None => None
      case Some(v) => Some(Rest(Put(k.value, v.value), v.rest))
  }

  function GetDelete(b: Bytes): (r: Option<Rest<Op>>)
    ensures r.Some? ==> |r.value.rest| < |b|
  {
    match GetLengthPrefixedSlice(b)
    case None => None
    case Some(k) => Some(Rest(Delete(k.value), k.rest))
  }

  function GetOp(b: Bytes): (r: Option<Rest<Op>>)
    requires b != []
    ensures r.Some? ==> |r.value.rest| < |b|
  {
    if b[0] == 1 then GetPut(b[1..]) else if b[0] == 0 then GetDelete(b[1..]) else None
  }

  lemma PutReads(key: Bytes, value: Bytes, tail: Bytes)
    requires |key| < LIMIT32 && |value| < LIMIT32
    ensures GetPut(Prefixed(key) + (Prefixed(value) + tail)) == Some(Rest(Put(key, value), tail))
  {
    SliceRoundTrip(key, Prefixed(value) + tail);
    SliceRoundTrip(value, tail);
  }

  lemma OpReads(op: Op, tail: Bytes)
    requires OpOk(op)
    ensures GetOp(EncodeOp(op) + tail) == Some(Rest(op, tail))
  {
    match op
    case Put(key, value) =>
      PutReads(key, value, tail);
      AfterTag(1, Prefixed(key), Prefixed(value), tail);
    case Delete(key) =>
      SliceRoundTrip(key, tail);
      AfterTag(0, Prefixed(key), [], tail);
      NoneAfter([0] + Prefixed(key));
      NoneBefore(tail);
  }

  lemma AfterTag(t: Byte, a: Bytes, b: Bytes, tail: Bytes)
    ensures ([t] + a + b + tail)[0] == t && ([t] + a + b + tail)[1..] == a + (b + tail)
  {}

  // ---- the batch ----

  /** What a batch's bytes hold: its sequence number, its count, and its
      operations. */
  ghost predicate Holds(rep: Bytes, sn: nat, ops: seq<Op>) {
    && sn < LIMIT64 && |ops| < LIMIT32 && AllOk(ops) && |rep| >= HEADER
    && rep[..8] == EncodeFixed64(sn) && rep[8..HEADER] == EncodeFixed32(|ops|) && rep[HEADER..] == EncodeOps(ops)
  }

  class WriteBatch {
    var rep: Bytes
    ghost var sn: nat
    ghost var ops: seq<Op>

    ghost predicate Valid()
      reads this
    {
      Holds(rep, sn, ops)
    }

    constructor ()
      ensures Valid() && ops == [] && sn == 0
    {
      rep := EncodeFixed64(0) + EncodeFixed32(0);
      sn, ops := 0, [];
      new;
      assert rep[..8] == EncodeFixed64(0) && rep[8..HEADER] == EncodeFixed32(0) && rep[HEADER..] == [];
    }

    // What a log record holds becomes the batch.
    method SetContents(contents: Bytes, ghost n: nat, ghost os: seq<Op>)
      modifies this
      ensures rep == contents && sn == n && ops == os
    {
      rep, sn, ops := contents, n, os;
    }

    method Count() returns (n: nat)
      requires Valid()
      ensures n == |ops|
    {
      DecodeEncodeFixed32(|ops|);
      n := DecodeFixed32(rep[8..HEADER]);
    }

    method Sequence() returns (n: nat)
      requires Valid()
      ensures n == sn
    {
      DecodeEncodeFixed64(sn);
      n := DecodeFixed64(rep[..8]);
    }

    method SetSequence(n: nat)
      requires Valid() && n < LIMIT64
      modifies this
      ensures Valid() && sn == n && ops == old(ops)
    {
      rep := EncodeFixed64(n) + rep[8..];
      sn := n;
      assert old(rep)[8..] == old(rep)[8..HEADER] + old(rep)[HEADER..];
      Regrouped(EncodeFixed64(n), old(rep)[8..HEADER], old(rep)[HEADER..], rep);
    }

    // SetCount, and the bytes of the new operations.
    method Grow(count: nat, body: Bytes, ghost more: seq<Op>)
      requires Valid() && count == |ops| + |more| < LIMIT32 && AllOk(more) && body == EncodeOps(more)
      modifies this
      ensures Valid() && sn == old(sn) && ops == old(ops) + more
    {
      OpsJoin(ops, more);
      var tail := rep[HEADER..] + body;
      rep := rep[..8] + EncodeFixed32(count) + tail;
      ops := ops + more;
      Regrouped(old(rep)[..8], EncodeFixed32(count), tail, rep);
      AllOkJoin(old(ops), more);
    }

    method PutOp(key: Bytes, value: Bytes)
      requires Valid() && OpOk(Put(key, value)) && |ops| + 1 < LIMIT32
      modifies this
      ensures Valid() && sn == old(sn) && ops == old(ops) + [Put(key, value)]
    {
      var n := Count();
      SingleOp(Put(key, value));
      Grow(n + 1, [1] + Prefixed(key) + Prefixed(value), [Put(key, value)]);
    }

    method DeleteOp(key: Bytes)
      requires Valid() && OpOk(Delete(key)) && |ops| + 1 < LIMIT32
      modifies this
      ensures Valid() && sn == old(sn) && ops == old(ops) + [Delete(key)]
    {
      var n := Count();
      SingleOp(Delete(key));
      Grow(n + 1, [0] + Prefixed(key), [Delete(key)]);
    }

    /** Another batch's operations after these. */
    method Append(source: WriteBatch)
      requires Valid() && source.Valid() && |ops| + |source.ops| < LIMIT32
      modifies this
      ensures Valid() && sn == old(sn) && ops == old(ops) + old(source.ops)
    {
      var n := Count();
      var m := source.Count();
      Grow(n + m, source.rep[HEADER..], source.ops);
    }

    /** InsertInto: the operations in order, each one sequence number after the
        one before; the count is checked at the end. */
    method InsertInto() returns (ok: bool, entries: seq<(nat, Op)>)
      ensures Valid() ==> ok && |entries| == |ops| && Numbered(entries, sn, ops)
    {
      if |rep| < HEADER {
        return false, [];
      }
      ghost var body: Option<seq<Op>> := None;
      if Valid() {
        body := Some(ops);
        DecodeEncodeFixed64(sn);
        DecodeEncodeFixed32(|ops|);
      }
      ok, entries := Iterate(rep[HEADER..], DecodeFixed64(rep[..8]), body);
      ok := ok && |entries| == DecodeFixed32(rep[8..HEADER]);
    }
  }

  method Iterate(body: Bytes, start: nat, ghost ops: Option<seq<Op>>) returns (ok: bool, entries: seq<(nat, Op)>)
    ensures ops.Some? && AllOk(ops.value) && body == EncodeOps(ops.value)
      ==> ok && Numbered(entries, start, ops.value) && |entries| == |ops.value|
  {
    ghost var known := ops.Some? && AllOk(ops.value) && body == EncodeOps(ops.value);
    entries := [];
    var input, sequence := body, start;
    while input != []
      invariant sequence == start + |entries|
      invariant known ==> Numbered(entries, start, ops.value) && input == EncodeFrom(ops.value, |entries|)
      decreases |input|
    {
      if known {
        NextOp(ops.value, |entries|, input);
      }
      match GetOp(input)
      case None => return false, entries;
      case Some(r) =>
        if known {
          NumberedGrows(entries, start, ops.value, sequence, r.value);
        }
        entries := entries + [(sequence, r.value)];
        sequence := sequence + 1;
        input := r.rest;
    }
    if known {
      Drained(ops.value, |entries|);
    }
    ok := true;
  }

  // The first operations, numbered from start.
  ghost predicate Numbered(entries: seq<(nat, Op)>, start: nat, ops: seq<Op>) {
    |entries| <= |ops| && forall i | 0 <= i < |entries| :: NumberedAt(entries, start, ops, i)
  }

  ghost predicate NumberedAt(entries: seq<(nat, Op)>, start: nat, ops: seq<Op>, i: nat)
    requires i < |entries| <= |ops|
  {
    entries[i] == (start + i, ops[i])
  }

  lemma NumberedGrows(entries: seq<(nat, Op)>, start: nat, ops: seq<Op>, sequence: nat, op: Op)
    requires Numbered(entries, start, ops) && |entries| < |ops| && sequence == start + |entries| && op == ops[|entries|]
    ensures Numbered(entries + [(sequence, op)], start, ops)
  {
    forall i | 0 <= i < |entries| + 1 ensures NumberedAt(entries + [(sequence, op)], start, ops, i) {
      assert i < |entries| ==> NumberedAt(entries, start, ops, i);
    }
  }

  lemma NextOp(ops: seq<Op>, k: nat, input: Bytes)
    requires AllOk(ops) && k <= |ops| && input == EncodeFrom(ops, k) && input != []
    ensures k < |ops| && GetOp(input) == Some(Rest(ops[k], EncodeFrom(ops, k + 1)))
  {
    OpReads(ops[k], EncodeFrom(ops, k + 1));
  }

  lemma Drained(ops: seq<Op>, k: nat)
    requires k <= |ops| && EncodeFrom(ops, k) == []
    ensures k == |ops|
  {}

  lemma SingleOp(op: Op)
    ensures EncodeOps([op]) == EncodeOp(op)
  {
    assert EncodeFrom([op], 1) == [];
    NoneAfter(EncodeOp(op));
  }

  lemma AllOkJoin(a: seq<Op>, b: seq<Op>)
    requires AllOk(a) && AllOk(b)
    ensures AllOk(a + b)
  {}

  lemma Regrouped(a: Bytes, b: Bytes, c: Bytes, whole: Bytes)
    requires |a| == 8 && |b| == 4 && whole == a + b + c
    ensures whole[..8] == a && whole[8..HEADER] == b && whole[HEADER..] == c
  {}

  /** A batch written to the log and read from it is the same batch: its bytes
      determine its sequence number and its operations. */
  lemma BytesDetermine(rep: Bytes, sn: nat, ops: seq<Op>, sn': nat, ops': seq<Op>)
    requires Holds(rep, sn, ops) && Holds(rep, sn', ops')
    ensures sn == sn' && ops == ops'
  {
    DecodeEncodeFixed64(sn);
    DecodeEncodeFixed64(sn');
    DecodeEncodeFixed32(|ops|);
    DecodeEncodeFixed32(|ops'|);
    SameOps(ops, ops', 0);
  }

  lemma {:induction false} SameOps(a: seq<Op>, b: seq<Op>, k: nat)
    requires AllOk(a) && AllOk(b) && |a| == |b| && k <= |a| && EncodeFrom(a, k) == EncodeFrom(b, k)
    ensures a[k..] == b[k..]
    decreases |a| - k
  {
    if k < |a| {
      OpReads(a[k], EncodeFrom(a, k + 1));
      OpReads(b[k], EncodeFrom(b, k + 1));
      SameOps(a, b, k + 1);
      assert a[k..] == [a[k]] + a[k + 1..] && b[k..] == [b[k]] + b[k + 1..];
    }
  }
}
