/** What holds over whole runs of the engine. */
module EngineRuns {
  import opened Options
  import opened Keys
  import opened Versions
  import opened Engine
  import opened EngineProofs
  import opened FlushProofs
  import opened CompactionProofs

  lemma InitInv(s: State)
    requires Init(s)
    ensures Inv(s)
  {
    forall l | 0 <= l < NUM_LEVELS ensures s.version[l] == [] {}
    assert forall e :: !DbHas(s, e);
    assert DbEntries(s) == s.hist;
  }

  lemma BeginKeeps(s: State, s': State, c: Compaction)
    requires Inv(s) && Begin(s, s', c)
    ensures Inv(s')
  {
    assert DbEntries(s') == DbEntries(s);
    assert BaseStaysBase(c, s.version) by {
      forall e, l, g, x | InputHas(c, e) && BaseFor(c.input, c.level, e.k.user) && c.level + 2 <= l < NUM_LEVELS
        && g in s.version[l] && x in g.entries
        ensures x.k.user != e.k.user
      {
        FileBounds(g, x);
        assert !UserOverlap(g, e.k.user, e.k.user);
      }
    }
  }

  lemma AbandonKeeps(s: State, s': State)
    requires Inv(s) && Abandon(s, s')
    ensures Inv(s')
  {
    assert DbEntries(s') == DbEntries(s);
  }

  lemma StepKeeps(s: State, s': State)
    requires Inv(s) && Step(s, s')
    ensures Inv(s')
  {
    if ops :| Write(s, s', ops) {
      WriteKeeps(s, s', ops);
    } else if Switch(s, s') {
      SwitchKeeps(s, s');
    } else if Snapshot(s, s') {
      SnapshotKeeps(s, s');
    } else if i :| Release(s, s', i) {
      ReleaseKeeps(s, s', i);
    } else if level, size :| Flush(s, s', level, size) {
      FlushKeeps(s, s', level, size);
    } else if c :| Begin(s, s', c) {
      BeginKeeps(s, s', c);
    } else if Reserve(s, s') {
      ReserveKeeps(s, s');
    } else if Abandon(s, s') {
      AbandonKeeps(s, s');
    } else if outs :| Install(s, s', outs) {
      InstallKeeps(s, s', outs);
    } else {
      var c :| Move(s, s', c);
      MoveKeeps(s, s', c);
    }
  }

  lemma {:induction false} RunInv(states: seq<State>, n: nat)
    requires Run(states) && n < |states|
    ensures Inv(states[n])
  {
    if n == 0 {
      InitInv(states[0]);
    } else {
      RunInv(states, n - 1);
      assert Step(states[n - 1], states[n - 1 + 1]);
      StepKeeps(states[n - 1], states[n]);
    }
  }

  /** In every reachable state, a read at the last sequence number or at any
      live snapshot returns the latest write of the key up to then. */
  lemma ReadsAreExact(states: seq<State>, n: nat, u: UserKey, t: Sequence)
    requires Run(states) && n < |states|
    requires t == states[n].lastSeq || t in states[n].snapshots
    ensures Lookup(DbEntries(states[n]), u, t) == Lookup(states[n].hist, u, t)
  {
    RunInv(states, n);
  }

  ghost predicate Grows(s: State, s': State) {
    && s.lastSeq <= s'.lastSeq && s.hist <= s'.hist && s.horizon <= s'.horizon
    && forall e | e in s'.hist && e !in s.hist :: e.k.sn > s.lastSeq
  }

  lemma StepGrows(s: State, s': State)
    requires Step(s, s')
    ensures Grows(s, s')
  {
    if ops :| Write(s, s', ops) {
      BatchSequences(s.lastSeq + 1, ops);
    }
  }

  lemma {:induction false} RunGrows(states: seq<State>, i: nat, j: nat)
    requires Run(states) && i <= j < |states|
    ensures Grows(states[i], states[j])
    decreases j - i
  {
    if i < j {
      RunGrows(states, i, j - 1);
      assert Step(states[j - 1], states[j - 1 + 1]);
      StepGrows(states[j - 1], states[j]);
      GrowsOn(states[i], states[j - 1], states[j]);
    }
  }

  lemma GrowsOn(a: State, b: State, c: State)
    requires Grows(a, b) && Grows(b, c)
    ensures Grows(a, c)
  {}

  lemma OldReadsKeep(H: iset<Entry>, H': iset<Entry>, u: UserKey, t: nat)
    requires DistinctSequences(H) && H <= H'
    requires forall e | e in H' && e !in H :: e.k.sn > t
    ensures Lookup(H', u, t) == Lookup(H, u, t)
  {
    forall e ensures IsNewest(H, u, t, e) <==> IsNewest(H', u, t, e) {}
    LookupAgree(H, H', u, t);
  }

  /** A snapshot is stable: whatever flushes, compactions and writes happen
      between states i and j, reading at a snapshot still live in j gives what
      it gave in i. */
  lemma SnapshotsAreStable(states: seq<State>, i: nat, j: nat, u: UserKey, t: Sequence)
    requires Run(states) && i <= j < |states|
    requires t <= states[i].lastSeq && t in states[j].snapshots
    ensures Lookup(DbEntries(states[j]), u, t) == Lookup(DbEntries(states[i]), u, t)
  {
    RunInv(states, i);
    RunInv(states, j);
    RunGrows(states, i, j);
    OldReadsKeep(states[i].hist, states[j].hist, u, t);
  }

  /** The structural half of the invariant: sorted disjoint levels and newest
      entries on top, in every reachable state. */
  lemma LevelsStayValid(states: seq<State>, n: nat)
    requires Run(states) && n < |states|
    ensures forall l | 1 <= l < NUM_LEVELS :: SortedFiles(states[n].version[l])
    ensures NewestOnTop(states[n].version)
  {
    RunInv(states, n);
  }
}
