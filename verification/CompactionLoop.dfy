/** The loop of DBImpl::DoCompactionWork and the Compaction object's cursors
    (db/db_impl.cc, db/version_set.cc). */
module CompactionLoop {
  import opened Options
  import opened Keys
  import opened Versions
  import opened Engine
  import opened Sequences
  import opened OutputCuts

  /** `input` is what the merging iterator over the input files yields. */
  ghost predicate MergedInput(c: Compaction, input: seq<Entry>) {
    && SortedEntries(input)
    && (forall e :: e in input <==> InputHas(c, e))
    && forall i, j | 0 <= i < j < |input| :: input[i].k.sn != input[j].k.sn
  }

  ghost function KeptOf(c: Compaction, input: seq<Entry>): seq<Entry> {
    if input == [] then [] else
      var last := input[|input| - 1];
      KeptOf(c, input[..|input| - 1]) + if Kept(c, last) then [last] else []
  }

  /** Rule (A) looks only at the previous entry, and that is enough. */
  lemma HiddenByPrevious(c: Compaction, input: seq<Entry>, i: nat)
    requires MergedInput(c, input) && i < |input|
    ensures Hidden(c, input[i]) <==> i > 0 && input[i - 1].k.user == input[i].k.user && input[i - 1].k.sn <= c.snap
  {
    var e := input[i];
    if x :| HiddenBy(c, e, x) {
      var j :| 0 <= j < |input| && input[j] == x;
      KeyOrder(x.k, e.k, x.k);
      BetweenSameUser(input, j, i - 1, i);
    }
    if i > 0 && input[i - 1].k.user == e.k.user && input[i - 1].k.sn <= c.snap {
      assert Less(input[i - 1].k, e.k);
      assert input[i - 1] in input;
      assert HiddenBy(c, e, input[i - 1]);
    }
  }

  lemma BetweenSameUser(input: seq<Entry>, j: nat, m: nat, i: nat)
    requires SortedEntries(input) && j <= m < i < |input| && input[j].k.user == input[i].k.user
    ensures input[m].k.user == input[i].k.user && input[m].k.sn <= input[j].k.sn
  {
    assert j < m ==> Less(input[j].k, input[m].k);
    assert Less(input[m].k, input[i].k);
  }

  lemma KeptMembers(c: Compaction, input: seq<Entry>)
    ensures forall e :: e in KeptOf(c, input) <==> e in input && Kept(c, e)
  {
    if input != [] {
      var n := |input| - 1;
      KeptMembers(c, input[..n]);
      assert input == input[..n] + [input[n]];
    }
  }

  lemma {:induction false} KeptSorted(c: Compaction, input: seq<Entry>)
    requires SortedEntries(input)
    ensures SortedEntries(KeptOf(c, input))
  {
    if input != [] {
      var n := |input| - 1;
      KeptSorted(c, input[..n]);
      KeptMembers(c, input[..n]);
      forall e | e in KeptOf(c, input[..n]) ensures Less(e.k, input[n].k) {
        var i :| 0 <= i < n && input[..n][i] == e;
      }
    }
  }

  class CompactionState {
    const c: Compaction
    const grandparents: seq<File>
    const maxOutputFileSize: nat
    const tableSize: seq<Entry> -> nat

    // Compaction's cursors
    var levelPtrs: seq<nat>
    var grandparentIndex: nat
    var seenKey: bool
    var overlappedBytes: nat

    // the loop's variables; `building` says whether an output is being built
    var currentUserKey: Option<UserKey>
    var lastSequenceForKey: Sequence
    var builder: seq<Entry>
    var building: bool
    var outputs: seq<seq<Entry>>

    constructor (c: Compaction, grandparents: seq<File>, maxOutputFileSize: nat, tableSize: seq<Entry> -> nat)
      ensures Valid() && Done([]) && Cutting([]) && NumOutputs() == 0
      ensures this.c == c && this.grandparents == grandparents && this.maxOutputFileSize == maxOutputFileSize
        && this.tableSize == tableSize
    {
      this.c, this.grandparents, this.maxOutputFileSize, this.tableSize :=
        c, grandparents, maxOutputFileSize, tableSize;
      levelPtrs := [0, 0, 0, 0, 0, 0, 0];
      grandparentIndex, seenKey, overlappedBytes := 0, false, 0;
      currentUserKey, lastSequenceForKey := None, MAX_SEQUENCE;
      builder, building, outputs := [], false, [];
    }

    ghost predicate Valid()
      reads this
    {
      && |levelPtrs| == NUM_LEVELS
      && (forall l | c.level + 2 <= l < NUM_LEVELS :: levelPtrs[l] <= |c.input[l]|)
      && grandparentIndex <= |grandparents|
      && (building <==> builder != [])
      && forall i | 0 <= i < |outputs| :: outputs[i] != []
    }

    // The files the cursors have left behind end before u.
    ghost predicate PtrsPassed(u: UserKey)
      reads this
    {
      Valid() && forall l, j | c.level + 2 <= l < NUM_LEVELS && 0 <= j < levelPtrs[l] :: c.input[l][j].largest.user < u
    }

    /** The loop's state after the prefix `seen` of the input. */
    ghost predicate Done(seen: seq<Entry>)
      reads this
    {
      Concat(outputs) + builder == KeptOf(c, seen) && KeysDone(seen)
    }

    ghost predicate KeysDone(seen: seq<Entry>)
      reads this
    {
      && Valid()
      && (seen == [] ==> currentUserKey == None)
      && (seen != [] ==> currentUserKey == Some(seen[|seen| - 1].k.user) && lastSequenceForKey == seen[|seen| - 1].k.sn)
      && if seen == [] then forall l | c.level + 2 <= l < NUM_LEVELS :: levelPtrs[l] == 0
        else PtrsPassed(seen[|seen| - 1].k.user)
    }

    ghost function Bounds(): Limits {
      Limits(grandparents, maxOutputFileSize, tableSize)
    }

    /** Where the grandparents' cursor stands, and where outputs have been cut. */
    ghost predicate Cutting(seen: seq<Entry>)
      reads this
    {
      && Standing(Bounds(), seen, grandparentIndex, seenKey, overlappedBytes)
      && WellCut(Bounds(), seen, outputs, builder)
    }

    /** IsBaseLevelForKey: moving cursors answer like a full scan, as long as
        keys are asked in ascending order. */
    method IsBaseLevelForKey(u: UserKey) returns (r: bool)
      requires PtrsPassed(u) && AllValid(c.input) && SortedLevels(c.input)
      modifies this`levelPtrs
      ensures PtrsPassed(u) && (r <==> BaseFor(c.input, c.level, u))
    {
      for lvl := c.level + 2 to if c.level + 2 < NUM_LEVELS then NUM_LEVELS else c.level + 2
        invariant PtrsPassed(u)
        invariant forall l, f | c.level + 2 <= l < lvl && l < NUM_LEVELS && f in c.input[l] :: !UserOverlap(f, u, u)
      {
        var files := c.input[lvl];
        while levelPtrs[lvl] < |files|
          invariant PtrsPassed(u)
          decreases |files| - levelPtrs[lvl]
        {
          var f := files[levelPtrs[lvl]];
          if u <= f.largest.user {
            if u >= f.smallest.user {
              assert f in files && UserOverlap(f, u, u);
              return false;
            }
            break;
          }
          levelPtrs := levelPtrs[lvl := levelPtrs[lvl] + 1];
        }
        RestIsAfter(files, levelPtrs[lvl], u);
      }
      r := true;
    }

    /** ShouldStopBefore: adds up the grandparent bytes passed since the current
        output began. */
    method ShouldStopBefore(key: IKey) returns (r: bool)
      requires Valid()
      modifies this`grandparentIndex, this`seenKey, this`overlappedBytes
      ensures Valid() && old(grandparentIndex) <= grandparentIndex && seenKey
      ensures forall j | old(grandparentIndex) <= j < grandparentIndex :: Less(grandparents[j].largest, key)
      ensures grandparentIndex < |grandparents| ==> AtMost(key, grandparents[grandparentIndex].largest)
      ensures var bytes :=
        old(overlappedBytes) + if old(seenKey) then TotalFileSize(grandparents[old(grandparentIndex)..grandparentIndex])
        else 0;
        && (r <==> bytes > 10 * maxOutputFileSize)
        && overlappedBytes == if r then 0 else bytes
    {
      while grandparentIndex < |grandparents| && Less(grandparents[grandparentIndex].largest, key)
        invariant old(grandparentIndex) <= grandparentIndex <= |grandparents| && seenKey == old(seenKey)
        invariant forall j | old(grandparentIndex) <= j < grandparentIndex :: Less(grandparents[j].largest, key)
        invariant overlappedBytes == old(overlappedBytes)
          + if seenKey then TotalFileSize(grandparents[old(grandparentIndex)..grandparentIndex]) else 0
        decreases |grandparents| - grandparentIndex
      {
        TotalSnoc(grandparents, old(grandparentIndex), grandparentIndex);
        if seenKey {
          overlappedBytes := overlappedBytes + grandparents[grandparentIndex].size;
        }
        grandparentIndex := grandparentIndex + 1;
      }
      seenKey := true;
      r := overlappedBytes > 10 * maxOutputFileSize;
      if r {
        overlappedBytes := 0;
      }
    }

    /** After the last key: the output being built is closed as it is. */
    method FinishLast(ghost input: seq<Entry>)
      requires Done(input) && Cutting(input)
      modifies this`outputs, this`builder, this`building
      ensures Valid() && Concat(outputs) == KeptOf(c, input) && |outputs| == old(NumOutputs())
      ensures CutRight(Bounds(), input, outputs)
    {
      EndKeeps(Bounds(), input, outputs, builder);
      if building {
        Finish();
      } else {
        assert Concat(outputs) + builder == Concat(outputs);
      }
    }

    // FinishCompactionOutputFile
    method Finish()
      requires Valid() && building
      modifies this`outputs, this`builder, this`building
      ensures Valid() && !building && Concat(outputs) == old(Concat(outputs) + builder)
      ensures outputs == old(outputs) + [old(builder)]
    {
      outputs := outputs + [builder];
      assert outputs[..|outputs| - 1] == old(outputs);
      builder, building := [], false;
    }

    /** The drop decision for the next key. */
    method Drops(e: Entry, ghost input: seq<Entry>, ghost i: nat) returns (drop: bool)
      requires MergedInput(c, input) && i < |input| && input[i] == e && KeysDone(input[..i])
      requires AllValid(c.input) && SortedLevels(c.input) && c.snap < MAX_SEQUENCE
      modifies this`levelPtrs, this`currentUserKey, this`lastSequenceForKey
      ensures drop <==> !Kept(c, e)
      ensures KeysDone(input[..i + 1])
    {
      if i > 0 {
        assert input[..i][i - 1] == input[i - 1] && Less(input[i - 1].k, input[i].k);
      }
      assert PtrsPassed(e.k.user);
      HiddenByPrevious(c, input, i);
      drop := false;
      if currentUserKey != Some(e.k.user) {
        currentUserKey := Some(e.k.user);
        lastSequenceForKey := MAX_SEQUENCE;
      }
      if lastSequenceForKey <= c.snap {
        drop := true;
      } else if e.k.kind.Deletion? && e.k.sn <= c.snap {
        drop := IsBaseLevelForKey(e.k.user);
      }
      assert InputHas(c, e) by {
        assert e in input;
      }
      lastSequenceForKey := e.k.sn;
    }

    ghost function Written(): seq<Entry>
      reads this
    {
      Concat(outputs) + builder
    }

    function NumOutputs(): nat
      reads this
    {
      |outputs| + if building then 1 else 0
    }

    /** Adds an entry to the output being built, opening one if necessary and
        closing it once it is large enough. */
    method Emit(e: Entry) returns (started: bool)
      requires Valid()
      modifies this`builder, this`building, this`outputs
      ensures Valid() && Written() == old(Written()) + [e]
      ensures NumOutputs() == old(NumOutputs()) + if started then 1 else 0
      ensures if tableSize(old(builder) + [e]) >= maxOutputFileSize
        then outputs == old(outputs) + [old(builder) + [e]] && builder == []
        else outputs == old(outputs) && builder == old(builder) + [e]
    {
      started := !building;
      building := true;
      builder := builder + [e];
      assert Concat(outputs) + builder == old(Written()) + [e];
      if tableSize(builder) >= maxOutputFileSize {
        Finish();
      }
    }

    // What is in the outputs has been seen.
    lemma OutputsWithin(seen: seq<Entry>)
      requires Done(seen)
      ensures Within(outputs, builder, seen)
    {
      KeptMembers(c, seen);
      ConcatMembers(outputs);
      forall k, e | 0 <= k < |outputs| && e in outputs[k] ensures e in seen {
        assert e in Concat(outputs) && e in Concat(outputs) + builder;
      }
      assert forall e | e in builder :: e in Concat(outputs) + builder;
    }

    // ShouldStopBefore, in terms of the stops among the keys.
    method Advance(e: Entry, ghost seen: seq<Entry>) returns (stop: bool)
      requires Valid() && SortedEntries(seen + [e])
      requires Standing(Bounds(), seen, grandparentIndex, seenKey, overlappedBytes)
      modifies this`grandparentIndex, this`seenKey, this`overlappedBytes
      ensures Valid() && Standing(Bounds(), seen + [e], grandparentIndex, seenKey, overlappedBytes)
      ensures stop <==> StopsAt(Bounds(), seen + [e], |seen|)
    {
      ghost var index, key, bytes := grandparentIndex, seenKey, overlappedBytes;
      stop := ShouldStopBefore(e.k);
      StandsNext(Bounds(), seen, e, index, key, bytes, grandparentIndex);
    }

    /** Closes the output being built when the next key stops it. */
    method StopIfDue(e: Entry, ghost seen: seq<Entry>)
      requires Valid() && Cutting(seen) && Within(outputs, builder, seen) && SortedEntries(seen + [e])
      modifies this`grandparentIndex, this`seenKey, this`overlappedBytes, this`outputs, this`builder, this`building
      ensures Valid() && Cutting(seen + [e]) && NumOutputs() == old(NumOutputs()) && Written() == old(Written())
    {
      var stop := Advance(e, seen);
      if stop && building {
        StopKeeps(Bounds(), seen, e, outputs, builder);
        Finish();
      } else {
        PassKeeps(Bounds(), seen, e, outputs, builder);
      }
    }

    // Adds the entry unless it is dropped.
    method KeepUnless(drop: bool, e: Entry, ghost seen: seq<Entry>) returns (started: bool)
      requires KeysDone(seen) && Cutting(seen) && StopsUpTo(Bounds(), seen, e)
      modifies this`outputs, this`builder, this`building
      ensures KeysDone(seen) && Cutting(seen) && Written() == old(Written()) + if drop then [] else [e]
      ensures NumOutputs() == old(NumOutputs()) + if started then 1 else 0
    {
      started := false;
      if !drop {
        if tableSize(builder + [e]) >= maxOutputFileSize {
          FullKeeps(Bounds(), seen, e, outputs, builder);
        } else {
          EntryKeeps(Bounds(), seen, e, outputs, builder);
        }
        started := Emit(e);
      }
    }

    /** One turn of the loop. `started` reports that an output file was opened. */
    method ProcessKey(e: Entry, ghost input: seq<Entry>, ghost i: nat) returns (started: bool)
      requires MergedInput(c, input) && i < |input| && input[i] == e && Done(input[..i]) && Cutting(input[..i])
      requires AllValid(c.input) && SortedLevels(c.input) && c.snap < MAX_SEQUENCE
      modifies this
      ensures Done(input[..i + 1]) && Cutting(input[..i + 1])
      ensures NumOutputs() == old(NumOutputs()) + if started then 1 else 0
    {
      ghost var seen := input[..i + 1];
      NoneLater(input, i);
      OutputsWithin(input[..i]);
      StopIfDue(e, input[..i]);
      var drop := Drops(e, input, i);
      started := KeepUnless(drop, e, seen);
      KeptStep(c, input, i);
    }
  }

  lemma NoneLater(input: seq<Entry>, i: nat)
    requires SortedEntries(input) && i < |input|
    ensures var seen := input[..i + 1];
      seen == input[..i] + [input[i]] && SortedEntries(seen) && forall j | 0 <= j <= i :: AtMost(seen[j].k, input[i].k)
  {
    var seen := input[..i + 1];
    forall j | 0 <= j <= i ensures AtMost(seen[j].k, input[i].k) {
      KeyOrder(input[j].k, input[i].k, input[j].k);
    }
  }

  lemma KeptStep(c: Compaction, input: seq<Entry>, i: nat)
    requires i < |input|
    ensures KeptOf(c, input[..i + 1]) == KeptOf(c, input[..i]) + if Kept(c, input[i]) then [input[i]] else []
  {
    assert input[..i + 1][..i] == input[..i];
  }

  lemma RestIsAfter(files: seq<File>, p: nat, u: UserKey)
    requires SortedFiles(files) && (forall f | f in files :: ValidFile(f)) && p <= |files|
    requires forall j | 0 <= j < p :: files[j].largest.user < u
    requires p < |files| ==> u < files[p].smallest.user
    ensures forall f | f in files :: !UserOverlap(f, u, u)
  {
    forall j | 0 <= j < |files| ensures !UserOverlap(files[j], u, u) {
      if j > p {
        assert FileBefore(files[p], files[j]) && files[p] in files;
        FileBounds(files[p], files[p].entries[0]);
      }
    }
  }

  // ---- the output tables ----

  function TablesOf(outs: seq<seq<Entry>>, numbers: seq<nat>, tableSize: seq<Entry> -> nat): seq<File>
    requires |outs| <= |numbers| && forall i | 0 <= i < |outs| :: outs[i] != []
  {
    seq(|outs|, i requires 0 <= i < |outs| =>
      File(numbers[i], tableSize(outs[i]), outs[i][0].k, outs[i][|outs[i]| - 1].k, outs[i]))
  }

  lemma PartsSorted(outs: seq<seq<Entry>>, i: nat, j: nat)
    requires SortedEntries(Concat(outs)) && i <= j < |outs|
    ensures SortedEntries(outs[i])
    ensures i < j && outs[i] != [] && outs[j] != [] ==> Less(outs[i][|outs[i]| - 1].k, outs[j][0].k)
  {
    var a := ConcatPart(outs, i);
    var whole := Concat(outs);
    assert forall m | 0 <= m < |outs[i]| :: outs[i][m] == whole[a + m];
    if i < j && outs[i] != [] && outs[j] != [] {
      var b := ConcatPart(outs, j);
      ConcatPrefix(outs[..j], i + 1);
      assert outs[..j][..i + 1] == outs[..i + 1] && outs[..i + 1][..i] == outs[..i];
      assert outs[j][0] == whole[b] && outs[i][|outs[i]| - 1] == whole[a + |outs[i]| - 1];
    }
  }

  /** Cutting the kept entries into tables anywhere gives valid outputs. */
  lemma TablesAreOutputs(c: Compaction, input: seq<Entry>, outs: seq<seq<Entry>>, numbers: seq<nat>,
    tableSize: seq<Entry> -> nat)
    requires MergedInput(c, input) && Concat(outs) == KeptOf(c, input)
    requires |outs| <= |numbers| && forall i | 0 <= i < |outs| :: outs[i] != []
    requires forall i, j | 0 <= i < j < |numbers| :: numbers[i] != numbers[j]
    ensures Outputs(c, numbers, TablesOf(outs, numbers, tableSize))
  {
    var tables := TablesOf(outs, numbers, tableSize);
    KeptSorted(c, input);
    KeptMembers(c, input);
    ConcatMembers(outs);
    forall i, j | 0 <= i < j < |tables| ensures FileBefore(tables[i], tables[j]) {
      PartsSorted(outs, i, j);
    }
    forall o | o in tables ensures ValidFile(o) && o.number in numbers {
      var i :| 0 <= i < |tables| && tables[i] == o;
      PartsSorted(outs, i, i);
    }
    forall o, e | o in tables && e in o.entries ensures Kept(c, e) {
      var i :| 0 <= i < |tables| && tables[i] == o;
      assert e in outs[i];
    }
    forall e | Kept(c, e) ensures exists o :: o in tables && e in o.entries {
      assert e in Concat(outs);
      var i :| 0 <= i < |outs| && e in outs[i];
      assert tables[i] in tables;
    }
  }
}
