/** Where recovery cuts a log into tables (DBImpl::RecoverLogFile in db/db_impl.cc). */
module ReplayCuts {
  import opened Options
  import opened Keys
  import opened Engine
  import opened Durability
  import opened Sequences

  // The memtable that some records fill.
  ghost predicate IsMem(mem: seq<Entry>, log: Log) {
    SortedEntries(mem) && forall e :: e in mem <==> e in LogEntries(log)
  }

  ghost predicate Fills(full: seq<Entry> -> bool, log: Log, yes: bool) {
    exists mem :: IsMem(mem, log) && full(mem) == yes
  }

  /** Records that fill a memtable together: no fewer of them, from the first on, do. */
  ghost predicate Group(full: seq<Entry> -> bool, group: Log) {
    group != [] && forall n | 0 < n < |group| :: Fills(full, group[..n], false)
  }

  function NonEmpty(mems: seq<seq<Entry>>): seq<seq<Entry>> {
    if mems == [] then [] else
      var last := mems[|mems| - 1];
      NonEmpty(mems[..|mems| - 1]) + if last == [] then [] else [last]
  }

  /** The log is cut wherever the memtable is full and nowhere else; each memtable with
      an entry becomes a table. */
  ghost predicate CutSo(full: seq<Entry> -> bool, log: Log, groups: seq<Log>, mems: seq<seq<Entry>>) {
    && Concat(groups) == log && |mems| == |groups|
    && (forall g | 0 <= g < |groups| :: Group(full, groups[g]) && IsMem(mems[g], groups[g]))
    && forall g | 0 <= g < |groups| - 1 :: Fills(full, groups[g], true)
  }

  ghost predicate CutWhenFull(full: seq<Entry> -> bool, log: Log, chunks: seq<seq<Entry>>) {
    exists groups, mems :: CutSo(full, log, groups, mems) && chunks == NonEmpty(mems)
  }

  // The groups so far, all full, and the records now in the memtable.
  ghost predicate Cutting(full: seq<Entry> -> bool, log: Log, groups: seq<Log>, mems: seq<seq<Entry>>, open: Log,
    mem: seq<Entry>) {
    && CutSo(full, Concat(groups), groups, mems) && (groups != [] ==> Fills(full, groups[|groups| - 1], true))
    && log == Concat(groups) + open && IsMem(mem, open)
    && forall n | 0 < n <= |open| :: Fills(full, open[..n], false)
  }

  lemma NothingCut(full: seq<Entry> -> bool)
    ensures Cutting(full, [], [], [], [], [])
  {
    assert forall e :: !LogHas([], e);
  }

  lemma MemGrows(mem: seq<Entry>, log: Log, b: Batch, mem': seq<Entry>)
    requires IsMem(mem, log) && Fits(b) && SortedEntries(mem')
    requires forall e :: e in mem' <==> e in mem || e in BatchEntries(b.first, b.ops)
    ensures IsMem(mem', log + [b])
  {
    forall e ensures LogHas(log + [b], e) <==> LogHas(log, e) || e in BatchEntries(b.first, b.ops) {
      if e in BatchEntries(b.first, b.ops) {
        assert b in log + [b];
      }
      if c :| c in log && Fits(c) && e in BatchEntries(c.first, c.ops) {
        assert c in log + [b];
      }
    }
  }

  lemma NonEmptyMore(mems: seq<seq<Entry>>, mem: seq<Entry>)
    ensures NonEmpty(mems + [mem]) == if mem == [] then NonEmpty(mems) else NonEmpty(mems) + [mem]
  {
    assert (mems + [mem])[..|mems|] == mems;
  }

  lemma OneOpen(full: seq<Entry> -> bool, log: Log, groups: seq<Log>, mems: seq<seq<Entry>>, open: Log,
    mem: seq<Entry>, b: Batch, mem': seq<Entry>)
    requires Cutting(full, log, groups, mems, open, mem) && IsMem(mem', open + [b])
    ensures if full(mem') then Cutting(full, log + [b], groups + [open + [b]], mems + [mem'], [], [])
      else Cutting(full, log + [b], groups, mems, open + [b], mem')
  {
    var more := open + [b];
    assert log + [b] == Concat(groups) + more;
    forall n | 0 < n <= |open| ensures Fills(full, more[..n], false) {
      assert more[..n] == open[..n];
    }
    assert more[..|more|] == more;
    if full(mem') {
      var groups' := groups + [more];
      assert groups'[..|groups|] == groups;
      assert Fills(full, more, true);
      assert forall e :: !LogHas([], e);
      assert log + [b] == Concat(groups') + [];
    } else {
      assert Fills(full, more, false);
    }
  }

  /** One record more, whether or not it fills the memtable. */
  lemma CutOne(full: seq<Entry> -> bool, log: Log, i: nat, groups: seq<Log>, mems: seq<seq<Entry>>, open: Log,
    mem: seq<Entry>, filled: seq<Entry>)
    returns (groups': seq<Log>, mems': seq<seq<Entry>>, open': Log)
    requires i < |log| && Fits(log[i]) && Cutting(full, log[..i], groups, mems, open, mem) && SortedEntries(filled)
    requires forall e :: e in filled <==> e in mem || e in BatchEntries(log[i].first, log[i].ops)
    ensures Cutting(full, log[..i + 1], groups', mems', open', if full(filled) then [] else filled)
    ensures NonEmpty(mems') == if full(filled) && filled != [] then NonEmpty(mems) + [filled] else NonEmpty(mems)
  {
    assert log[..i + 1] == log[..i] + [log[i]];
    MemGrows(mem, open, log[i], filled);
    OneOpen(full, log[..i], groups, mems, open, mem, log[i], filled);
    if full(filled) {
      NonEmptyMore(mems, filled);
      groups', mems', open' := groups + [open + [log[i]]], mems + [filled], [];
    } else {
      groups', mems', open' := groups, mems, open + [log[i]];
    }
  }

  lemma HeadIn(mem: seq<Entry>)
    ensures mem == [] || exists e :: e in mem
  {
    assert mem == [] || mem[0] in mem;
  }

  lemma NothingOpen(full: seq<Entry> -> bool, log: Log, groups: seq<Log>, mems: seq<seq<Entry>>, mem: seq<Entry>)
    requires Cutting(full, log, groups, mems, [], mem)
    ensures CutSo(full, log, groups, mems) && mem == []
  {
    assert log == Concat(groups);
    assert forall e :: !LogHas([], e);
    HeadIn(mem);
  }

  lemma SomeOpen(full: seq<Entry> -> bool, log: Log, groups: seq<Log>, mems: seq<seq<Entry>>, open: Log,
    mem: seq<Entry>)
    requires Cutting(full, log, groups, mems, open, mem) && open != []
    ensures CutSo(full, log, groups + [open], mems + [mem])
  {
    var groups' := groups + [open];
    assert groups'[..|groups|] == groups;
  }

  lemma LastOpen(full: seq<Entry> -> bool, log: Log, groups: seq<Log>, mems: seq<seq<Entry>>, open: Log,
    mem: seq<Entry>, chunks: seq<seq<Entry>>)
    requires Cutting(full, log, groups, mems, open, mem) && chunks == NonEmpty(mems)
    ensures CutWhenFull(full, log, if mem == [] then chunks else chunks + [mem])
  {
    if open == [] {
      NothingOpen(full, log, groups, mems, mem);
    } else {
      SomeOpen(full, log, groups, mems, open, mem);
      NonEmptyMore(mems, mem);
    }
  }
}
