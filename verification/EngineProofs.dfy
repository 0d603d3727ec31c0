/** Every step of the engine keeps its invariant, and so every run does. */
module EngineProofs {
  import opened Options
  import opened Keys
  import opened Versions
  import opened Engine

  // ---- writes ----

  lemma WriteLookup(P: iset<Entry>, H: iset<Entry>, B: iset<Entry>, u: UserKey, t: nat, bound: nat)
    requires DistinctSequences(H + B) && P <= H
    requires forall e | e in H :: e.k.sn <= bound
    requires forall e | e in B :: e.k.sn > bound
    requires Lookup(P, u, t) == Lookup(H, u, t)
    ensures Lookup(P + B, u, t) == Lookup(H + B, u, t)
  {
    if b :| b in B && Visible(b, u, t) {
      forall e ensures IsNewest(P + B, u, t, e) <==> IsNewest(H + B, u, t, e) {
        if IsNewest(P + B, u, t, e) {
          assert b in P + B;
        }
        if IsNewest(H + B, u, t, e) {
          assert b in H + B;
        }
      }
      LookupAgree(P + B, H + B, u, t);
    } else {
      forall e ensures IsNewest(P + B, u, t, e) <==> IsNewest(P, u, t, e) {}
      forall e ensures IsNewest(H + B, u, t, e) <==> IsNewest(H, u, t, e) {}
      LookupAgree(P + B, P, u, t);
      LookupAgree(H + B, H, u, t);
    }
  }

  lemma BatchSequences(first: nat, ops: seq<Op>)
    requires first + |ops| <= MAX_SEQUENCE + 1
    ensures DistinctSequences(BatchEntries(first, ops))
    ensures forall e | e in BatchEntries(first, ops) :: first <= e.k.sn < first + |ops|
  {}

  lemma WriteContents(s: State, s': State, ops: seq<Op>)
    requires History(s) && Write(s, s', ops)
    ensures DbEntries(s') == DbEntries(s) + BatchEntries(s.lastSeq + 1, ops)
    ensures forall e | DbHas(s, e) :: e.k.sn <= s.lastSeq
    ensures History(s')
  {
    BatchSequences(s.lastSeq + 1, ops);
    WriteAdds(s, s', ops);
    assert forall e | DbHas(s', e) :: e in DbEntries(s');
  }

  lemma WriteAdds(s: State, s': State, ops: seq<Op>)
    requires Write(s, s', ops)
    ensures DbEntries(s') == DbEntries(s) + BatchEntries(s.lastSeq + 1, ops)
  {
    forall e ensures DbHas(s', e) <==> DbHas(s, e) || e in BatchEntries(s.lastSeq + 1, ops) {}
  }

  lemma WriteMemOrder(s: State, s': State, ops: seq<Op>)
    requires Inv(s) && Write(s, s', ops)
    ensures MemOrder(s')
  {
    WriteContents(s, s', ops);
    BatchSequences(s.lastSeq + 1, ops);
    assert forall e | s.imm.Some? && e in s.imm.value :: DbHas(s, e);
    forall l, f, x | 0 <= l < NUM_LEVELS && f in s.version[l] && x in f.entries ensures DbHas(s, x) {}
  }

  lemma WriteKeeps(s: State, s': State, ops: seq<Op>)
    requires Inv(s) && Write(s, s', ops)
    ensures Inv(s')
  {
    WriteContents(s, s', ops);
    BatchSequences(s.lastSeq + 1, ops);
    WriteMemOrder(s, s', ops);
    forall u, t: nat | s'.horizon <= t ensures Lookup(DbEntries(s'), u, t) == Lookup(s'.hist, u, t) {
      WriteLookup(DbEntries(s), s.hist, BatchEntries(s.lastSeq + 1, ops), u, t, s.lastSeq);
    }
  }

  // ---- the memtable switch and snapshots ----

  lemma SwitchKeeps(s: State, s': State)
    requires Inv(s) && Switch(s, s')
    ensures Inv(s')
  {
    assert DbEntries(s') == DbEntries(s);
  }

  lemma SnapshotKeeps(s: State, s': State)
    requires Inv(s) && Snapshot(s, s')
    ensures Inv(s')
  {
    assert DbEntries(s') == DbEntries(s);
  }

  lemma ReleaseKeeps(s: State, s': State, i: nat)
    requires Inv(s) && Release(s, s', i)
    ensures Inv(s')
  {
    assert DbEntries(s') == DbEntries(s);
  }

  lemma ReserveKeeps(s: State, s': State)
    requires Inv(s) && Reserve(s, s')
    ensures Inv(s')
  {
    assert DbEntries(s') == DbEntries(s);
  }
}
