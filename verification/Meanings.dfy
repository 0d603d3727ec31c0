/** What writes mean to reads: the database answers like a map to which the
    operations written so far have been applied one by one. */
module Meanings {
  import opened Options
  import opened Keys
  import opened Engine
  import opened EngineProofs
  import opened EngineRuns
  import opened Sequences

  /** The value of u after the operations, if it was `was` before. */
  function After(ops: seq<Op>, u: UserKey, was: Option<Bytes>): Option<Bytes> {
    if ops == [] then was
    else
      var rest, last := ops[..|ops| - 1], ops[|ops| - 1];
      if last.user != u then After(rest, u, was)
      else match last
        case PutOp(_, v) => Some(v)
        case DeleteOp(_) => None
  }

  /** The last operation on u decides; without one nothing changes. */
  lemma {:induction false} LastDecides(ops: seq<Op>, u: UserKey, was: Option<Bytes>, i: nat)
    ensures i < |ops| && ops[i].user == u && (forall j | i < j < |ops| :: ops[j].user != u) ==>
      After(ops, u, was) == if ops[i].PutOp? then Some(ops[i].v) else None
    ensures (forall j | 0 <= j < |ops| :: ops[j].user != u) ==> After(ops, u, was) == was
  {
    if ops != [] {
      LastDecides(ops[..|ops| - 1], u, was, i);
    }
  }

  lemma {:induction false} AfterBoth(a: seq<Op>, b: seq<Op>, u: UserKey, was: Option<Bytes>)
    ensures After(a + b, u, was) == After(b, u, After(a, u, was))
  {
    if b == [] {
      assert a + b == a;
    } else {
      assert (a + b)[..|a + b| - 1] == a + b[..|b| - 1];
      AfterBoth(a, b[..|b| - 1], u, was);
    }
  }

  // ---- one write ----

  // Entries numbered above t are not seen at t.
  lemma NotYet(H: iset<Entry>, B: iset<Entry>, u: UserKey, t: nat)
    requires DistinctSequences(H) && forall e | e in B :: e.k.sn > t
    ensures Lookup(H + B, u, t) == Lookup(H, u, t)
  {
    forall e ensures IsNewest(H + B, u, t, e) <==> IsNewest(H, u, t, e) {
      if IsNewest(H, u, t, e) {
        assert e in H + B;
      }
      if IsNewest(H + B, u, t, e) {
        assert forall x | x in H :: x in H + B;
      }
    }
    LookupAgree(H, H + B, u, t);
  }

  /** From one sequence number to the next only the key written there changes. */
  lemma AtEntry(P: iset<Entry>, e: Entry, u: UserKey)
    requires DistinctSequences(P) && e in P && e.k.sn > 0
    ensures Lookup(P, u, e.k.sn) == if e.k.user != u then Lookup(P, u, e.k.sn - 1)
      else if e.k.kind.Put? then Some(e.v) else None
  {
    if e.k.user == u {
      LookupOf(P, u, e.k.sn, e);
    } else {
      forall x | x in P ensures Visible(x, u, e.k.sn) <==> Visible(x, u, e.k.sn - 1) {
        if x.k.sn == e.k.sn {
          assert x == e;
        }
      }
      SameVisible(P, u, e.k.sn - 1, e.k.sn);
    }
  }

  lemma SameVisible(P: iset<Entry>, u: UserKey, s: nat, t: nat)
    requires DistinctSequences(P) && forall x | x in P :: Visible(x, u, s) <==> Visible(x, u, t)
    ensures Lookup(P, u, s) == Lookup(P, u, t)
  {
    forall e ensures IsNewest(P, u, s, e) <==> IsNewest(P, u, t, e) {}
    if e :| IsNewest(P, u, s, e) {
      LookupOf(P, u, s, e);
      LookupOf(P, u, t, e);
    }
  }

  ghost predicate EnteredAt(P: iset<Entry>, last: nat, ops: seq<Op>, i: int)
    requires last + |ops| <= MAX_SEQUENCE
  {
    DistinctSequences(P) && (0 <= i < |ops| ==> EntryOf(ops[i], last + 1 + i) in P)
  }

  // Every operation has its entry in P.
  ghost predicate Entered(P: iset<Entry>, last: nat, ops: seq<Op>)
    requires last + |ops| <= MAX_SEQUENCE
  {
    forall i :: EnteredAt(P, last, ops, i)
  }

  lemma BatchEntered(P: iset<Entry>, last: nat, ops: seq<Op>)
    requires last + |ops| <= MAX_SEQUENCE && DistinctSequences(P) && BatchEntries(last + 1, ops) <= P
    ensures Entered(P, last, ops)
  {
    forall i ensures EnteredAt(P, last, ops, i) {
      if 0 <= i < |ops| {
        assert InBatch(last + 1, ops, i, EntryOf(ops[i], last + 1 + i));
        assert EntryOf(ops[i], last + 1 + i) in BatchEntries(last + 1, ops);
      }
    }
  }

  lemma AtOperation(P: iset<Entry>, last: nat, ops: seq<Op>, i: nat, u: UserKey)
    requires last + |ops| <= MAX_SEQUENCE && i < |ops| && Entered(P, last, ops)
    ensures Lookup(P, u, last + i + 1)
      == if ops[i].user != u then Lookup(P, u, last + i) else if ops[i].PutOp? then Some(ops[i].v) else None
  {
    assert EnteredAt(P, last, ops, i);
    AtEntry(P, EntryOf(ops[i], last + 1 + i), u);
  }

  /** Amid a batch, its first k operations have taken effect. */
  lemma {:induction false} BatchReads(P: iset<Entry>, last: nat, ops: seq<Op>, k: nat, u: UserKey)
    requires last + |ops| <= MAX_SEQUENCE && k <= |ops| && Entered(P, last, ops)
    ensures Lookup(P, u, last + k) == After(ops[..k], u, Lookup(P, u, last))
  {
    if k > 0 {
      BatchReads(P, last, ops, k - 1, u);
      assert ops[..k][..k - 1] == ops[..k - 1];
      AtOperation(P, last, ops, k - 1, u);
    }
  }

  lemma HistoryGrows(H: iset<Entry>, H': iset<Entry>, last: nat, ops: seq<Op>, u: UserKey)
    requires last + |ops| <= MAX_SEQUENCE && DistinctSequences(H) && Entered(H', last, ops)
    requires H' == H + BatchEntries(last + 1, ops)
    ensures Lookup(H', u, last + |ops|) == After(ops, u, Lookup(H, u, last))
  {
    BatchSequences(last + 1, ops);
    NotYet(H, BatchEntries(last + 1, ops), u, last);
    BatchReads(H', last, ops, |ops|, u);
    assert ops[..|ops|] == ops;
  }

  lemma Written(s: State, s': State, ops: seq<Op>)
    requires Inv(s) && Engine.Write(s, s', ops)
    ensures Inv(s') && DistinctSequences(s.hist) && Entered(s'.hist, s.lastSeq, ops)
  {
    WriteKeeps(s, s', ops);
    BatchEntered(s'.hist, s.lastSeq, ops);
  }

  lemma ExactAtLast(s: State, u: UserKey)
    requires Inv(s)
    ensures Lookup(DbEntries(s), u, s.lastSeq) == Lookup(s.hist, u, s.lastSeq)
  {}

  lemma WriteGrows(s: State, s': State, ops: seq<Op>, u: UserKey)
    requires s.lastSeq + |ops| < MAX_SEQUENCE && s'.lastSeq == s.lastSeq + |ops|
    requires s'.hist == s.hist + BatchEntries(s.lastSeq + 1, ops)
    requires DistinctSequences(s.hist) && Entered(s'.hist, s.lastSeq, ops)
    ensures Lookup(s'.hist, u, s'.lastSeq) == After(ops, u, Lookup(s.hist, u, s.lastSeq))
  {
    HistoryGrows(s.hist, s'.hist, s.lastSeq, ops, u);
  }

  /** A write means its operations: a put is read back, a deleted key is gone,
      and every other key reads as before. */
  lemma WriteMeans(s: State, s': State, ops: seq<Op>, u: UserKey)
    requires Inv(s) && Engine.Write(s, s', ops)
    ensures Lookup(s'.hist, u, s'.lastSeq) == After(ops, u, Lookup(s.hist, u, s.lastSeq))
    ensures Lookup(DbEntries(s'), u, s'.lastSeq) == After(ops, u, Lookup(DbEntries(s), u, s.lastSeq))
  {
    Written(s, s', ops);
    WriteGrows(s, s', ops, u);
    ExactAtLast(s, u);
    ExactAtLast(s', u);
  }

  /** Reads at earlier sequence numbers, and so every snapshot, stay as they were. */
  lemma WriteKeepsOld(s: State, s': State, ops: seq<Op>, u: UserKey, t: nat)
    requires Inv(s) && Engine.Write(s, s', ops) && t <= s.lastSeq
    ensures Lookup(s'.hist, u, t) == Lookup(s.hist, u, t)
  {
    BatchSequences(s.lastSeq + 1, ops);
    OldReadsKeep(s.hist, s'.hist, u, t);
  }

  // ---- whole runs ----

  // Step i writes these operations; a step that is no write has none.
  ghost predicate WroteAt(states: seq<State>, written: seq<seq<Op>>, i: nat)
    requires i < |written| && i + 1 < |states|
  {
    || Engine.Write(states[i], states[i + 1], written[i])
    || (written[i] == [] && states[i + 1].hist == states[i].hist && states[i + 1].lastSeq == states[i].lastSeq)
  }

  ghost predicate Wrote(states: seq<State>, written: seq<seq<Op>>) {
    |written| + 1 == |states| && forall i | 0 <= i < |written| :: WroteAt(states, written, i)
  }

  lemma StepWrites(s: State, s': State) returns (ops: seq<Op>)
    requires Step(s, s')
    ensures Engine.Write(s, s', ops) || (ops == [] && s'.hist == s.hist && s'.lastSeq == s.lastSeq)
  {
    if o :| Engine.Write(s, s', o) {
      ops := o;
    } else {
      ops := [];
    }
  }

  /** Every run writes some operations at each step. */
  lemma {:induction false} RunWrites(states: seq<State>, n: nat) returns (written: seq<seq<Op>>)
    requires Run(states) && n < |states|
    ensures Wrote(states[..n + 1], written)
  {
    if n == 0 {
      written := [];
    } else {
      var before := RunWrites(states, n - 1);
      assert Step(states[n - 1], states[n - 1 + 1]);
      var ops := StepWrites(states[n - 1], states[n]);
      written := before + [ops];
      var upTo := states[..n + 1];
      forall i | 0 <= i < |written| ensures WroteAt(upTo, written, i) {
        assert i < n - 1 ==> WroteAt(states[..n], before, i);
      }
    }
  }

  lemma {:induction false} HistoryMeans(states: seq<State>, written: seq<seq<Op>>, n: nat, u: UserKey)
    requires Run(states) && Wrote(states, written) && n < |states|
    ensures Lookup(states[n].hist, u, states[n].lastSeq) == After(Concat(written[..n]), u, None)
  {
    if n == 0 {
      LookupNone(states[0].hist, u, 0);
    } else {
      HistoryMeans(states, written, n - 1, u);
      RunInv(states, n - 1);
      assert WroteAt(states, written, n - 1);
      if Engine.Write(states[n - 1], states[n], written[n - 1]) {
        WriteMeans(states[n - 1], states[n], written[n - 1], u);
      }
      assert written[..n][..n - 1] == written[..n - 1];
      AfterBoth(Concat(written[..n - 1]), written[n - 1], u, None);
    }
  }

  /** In every run the database, whatever its memtables, levels and compactions,
      answers like the map that all operations so far make of an empty one. */
  lemma RunMeans(states: seq<State>, written: seq<seq<Op>>, n: nat, u: UserKey)
    requires Run(states) && Wrote(states, written) && n < |states|
    ensures Lookup(DbEntries(states[n]), u, states[n].lastSeq) == After(Concat(written[..n]), u, None)
  {
    HistoryMeans(states, written, n, u);
    RunInv(states, n);
  }

  /** And a snapshot like the map as it was when the snapshot was taken. */
  lemma SnapshotMeans(states: seq<State>, written: seq<seq<Op>>, i: nat, j: nat, u: UserKey)
    requires Run(states) && Wrote(states, written) && i <= j < |states|
    requires states[i].lastSeq in states[j].snapshots
    ensures Lookup(DbEntries(states[j]), u, states[i].lastSeq) == After(Concat(written[..i]), u, None)
  {
    RunMeans(states, written, i, u);
    SnapshotsAreStable(states, i, j, u, states[i].lastSeq);
  }
}
