/** TwoLevelIterator (table/two_level_iterator.cc): an index iterator whose
    values name blocks, read as one cursor over the concatenated blocks. */
module TwoLevel {
  import opened Options
  import opened Keys
  import opened Cursors
  import opened Sequences

  /** Each index key is at or after its block's keys and before later ones. */
  ghost predicate Separated(index: seq<Entry>, blocks: seq<seq<Entry>>)
    requires |index| == |blocks|
  {
    && SortedEntries(index)
    && (forall i, e | 0 <= i < |blocks| && e in blocks[i] :: AtMost(e.k, index[i].k))
    && forall i, j, e | 0 <= i < j < |blocks| && e in blocks[j] :: Less(index[i].k, e.k)
  }

  ghost function Offset(blocks: seq<seq<Entry>>, i: nat): nat
    requires i <= |blocks|
  {
    |Concat(blocks[..i])|
  }

  lemma OffsetStep(blocks: seq<seq<Entry>>, i: nat)
    requires i < |blocks|
    ensures Offset(blocks, i + 1) == Offset(blocks, i) + |blocks[i]| <= |Concat(blocks)|
    ensures Offset(blocks, 0) == 0 && Offset(blocks, |blocks|) == |Concat(blocks)|
  {
    assert blocks[..i + 1][..i] == blocks[..i];
    ConcatPrefix(blocks, i + 1);
    assert blocks[..|blocks|] == blocks;
  }

  lemma OffsetEnds(blocks: seq<seq<Entry>>)
    ensures Offset(blocks, 0) == 0 && Offset(blocks, |blocks|) == |Concat(blocks)|
  {
    assert blocks[..|blocks|] == blocks;
  }

  lemma EntryAt(blocks: seq<seq<Entry>>, i: nat, p: nat)
    requires i < |blocks| && p < |blocks[i]|
    ensures Offset(blocks, i) + p < |Concat(blocks)| && Concat(blocks)[Offset(blocks, i) + p] == blocks[i][p]
  {
    var at := ConcatPart(blocks, i);
    assert Concat(blocks)[at + p] == Concat(blocks)[at..at + |blocks[i]|][p];
  }

  /** Every position of the concatenation lies in some block. */
  lemma {:induction false} BlockOf(blocks: seq<seq<Entry>>, q: nat) returns (i: nat, p: nat)
    requires q < |Concat(blocks)|
    ensures i < |blocks| && p < |blocks[i]| && q == Offset(blocks, i) + p
  {
    var n := |blocks| - 1;
    if q < |Concat(blocks[..n])| {
      i, p := BlockOf(blocks[..n], q);
      assert blocks[..n][..i] == blocks[..i];
    } else {
      i, p := n, q - |Concat(blocks[..n])|;
    }
  }

  lemma {:induction false} OffsetMonotone(blocks: seq<seq<Entry>>, i: nat, j: nat)
    requires i <= j <= |blocks|
    ensures Offset(blocks, i) <= Offset(blocks, j)
  {
    assert blocks[..j][..i] == blocks[..i];
    ConcatPrefix(blocks[..j], i);
  }

  /** Which side of the target an entry lies on follows from its block. */
  lemma SideOfTarget(index: seq<Entry>, blocks: seq<seq<Entry>>, target: IKey, i: nat, j: nat, e: Entry)
    requires |index| == |blocks| && Separated(index, blocks) && SeeksTo(index, target, i)
    requires j < |blocks| && e in blocks[j]
    ensures j < i ==> Less(e.k, target)
    ensures i < j ==> AtMost(target, e.k)
  {
    if j < i {
      KeyOrder(e.k, index[j].k, target);
      KeyOrder(index[j].k, e.k, target);
    } else if i < j {
      KeyOrder(e.k, target, index[i].k);
      KeyOrder(index[i].k, e.k, target);
    }
  }

  lemma OffsetsOrdered(blocks: seq<seq<Entry>>, i: nat, j: nat)
    requires i < j <= |blocks|
    ensures Offset(blocks, i) + |blocks[i]| <= Offset(blocks, j)
  {
    OffsetStep(blocks, i);
    OffsetMonotone(blocks, i + 1, j);
  }

  /** The index entry the target falls under holds the position to seek to. */
  lemma SeekThroughIndex(index: seq<Entry>, blocks: seq<seq<Entry>>, target: IKey, i: nat, p: nat)
    requires |index| == |blocks| && Separated(index, blocks)
    requires SeeksTo(index, target, i)
    requires i < |blocks| ==> SeeksTo(blocks[i], target, p)
    requires i == |blocks| ==> p == 0
    ensures SeeksTo(Concat(blocks), target, Offset(blocks, i) + p)
  {
    forall q | 0 <= q < |Concat(blocks)|
      ensures q < Offset(blocks, i) + p ==> Less(Concat(blocks)[q].k, target)
      ensures q == Offset(blocks, i) + p ==> AtMost(target, Concat(blocks)[q].k)
    {
      SideOfPosition(index, blocks, target, i, p, q);
    }
    OffsetEnds(blocks);
    if i < |blocks| {
      OffsetStep(blocks, i);
    }
  }

  lemma SideOfPosition(index: seq<Entry>, blocks: seq<seq<Entry>>, target: IKey, i: nat, p: nat, q: nat)
    requires |index| == |blocks| && Separated(index, blocks) && SeeksTo(index, target, i)
    requires i < |blocks| ==> SeeksTo(blocks[i], target, p)
    requires i == |blocks| ==> p == 0
    requires q < |Concat(blocks)|
    ensures q < Offset(blocks, i) + p ==> Less(Concat(blocks)[q].k, target)
    ensures q == Offset(blocks, i) + p ==> AtMost(target, Concat(blocks)[q].k)
  {
    var j, r := BlockOf(blocks, q);
    EntryAt(blocks, j, r);
    SideOfTarget(index, blocks, target, i, j, blocks[j][r]);
    if i < j {
      OffsetsOrdered(blocks, i, j);
    } else if j < i {
      OffsetsOrdered(blocks, j, i);
    }
  }

  class TwoLevelIterator {
    const indexIter: InternalIterator
    const store: map<Bytes, seq<Entry>>
    var dataIter: InternalIterator?
    var dataBlockHandle: Bytes

    ghost function Blocks(): seq<seq<Entry>>
      requires Stored()
    {
      seq(|indexIter.es|, i requires 0 <= i < |indexIter.es| => store[indexIter.es[i].v])
    }

    // What the iterator ranges over.
    ghost function Flat(): seq<Entry>
      requires Stored()
    {
      Concat(Blocks())
    }

    ghost predicate Stored()
    {
      forall i | 0 <= i < |indexIter.es| :: indexIter.es[i].v in store
    }

    /** The open block, if any, is the one the index stands at. */
    ghost predicate Linked()
      reads this, indexIter
    {
      && Stored() && indexIter.pos <= |indexIter.es| && dataIter != indexIter
      && (indexIter.Valid() <==> dataIter != null)
      && (dataIter != null
        ==> dataBlockHandle == indexIter.es[indexIter.pos].v && dataIter.es == store[dataBlockHandle])
    }

    ghost predicate Inv()
      reads this, indexIter, dataIter
    {
      Stored() && dataIter != indexIter && (dataIter != null ==> Linked() && dataIter.Valid())
    }

    ghost function Repr(): set<object>
      reads this
    {
      {this, indexIter} + if dataIter == null then {} else {dataIter}
    }

    predicate Valid()
      reads this, dataIter
    {
      dataIter != null && dataIter.Valid()
    }

    // The place in the concatenation; its length when not valid.
    ghost function Position(): nat
      requires Inv()
      reads this, indexIter, dataIter
    {
      if dataIter == null then |Flat()| else Offset(Blocks(), indexIter.pos) + dataIter.pos
    }

    constructor (indexIter: InternalIterator, store: map<Bytes, seq<Entry>>)
      requires forall i | 0 <= i < |indexIter.es| :: indexIter.es[i].v in store
      ensures Inv() && !Valid() && this.indexIter == indexIter && this.store == store
      ensures fresh(Repr() - {indexIter})
    {
      this.indexIter, this.store, dataIter, dataBlockHandle := indexIter, store, null, "";
    }

    method InitDataBlock()
      requires Stored() && dataIter != indexIter && indexIter.pos <= |indexIter.es|
      requires dataIter != null ==> dataBlockHandle in store && dataIter.es == store[dataBlockHandle]
      modifies this
      ensures Linked() && (dataIter == old(dataIter) || dataIter == null || fresh(dataIter))
    {
      if !indexIter.Valid() {
        dataIter := null;
      } else {
        var handle := indexIter.es[indexIter.pos].v;
        if dataIter == null || handle != dataBlockHandle {
          dataBlockHandle := handle;
          dataIter := new InternalIterator(store[handle]);
        }
      }
    }

    // Standing at, or at the end of the block before, place `at`.
    ghost predicate Toward(at: nat)
      reads this, indexIter, dataIter
    {
      && Linked()
      && (dataIter == null ==> at == |Flat()|)
      && (dataIter != null ==> dataIter.pos <= |dataIter.es| && at == Offset(Blocks(), indexIter.pos) + dataIter.pos)
    }

    method NextBlock(ghost at: nat)
      requires Toward(at) && dataIter != null && !dataIter.Valid()
      modifies Repr()
      ensures Toward(at) && fresh(Repr() - old(Repr())) && indexIter.pos == old(indexIter.pos) + 1
    {
      OffsetStep(Blocks(), indexIter.pos);
      indexIter.Next();
      InitDataBlock();
      if dataIter != null {
        dataIter.SeekToFirst();
      }
    }

    method SkipEmptyDataBlocksForward(ghost at: nat)
      requires Toward(at)
      modifies Repr()
      ensures Inv() && fresh(Repr() - old(Repr()))
      ensures Position() == at
    {
      while dataIter == null || !dataIter.Valid()
        invariant Toward(at) && fresh(Repr() - old(Repr()))
        decreases |indexIter.es| - indexIter.pos
      {
        if !indexIter.Valid() {
          dataIter := null;
          return;
        }
        NextBlock(at);
      }
    }

    method SkipEmptyDataBlocksBackward(ghost hi: nat)
      requires Linked()
      requires dataIter == null ==> hi == 0
      requires dataIter != null ==>
        if dataIter.Valid() then Offset(Blocks(), indexIter.pos) + dataIter.pos == hi - 1
        else Offset(Blocks(), indexIter.pos) == hi
      modifies Repr()
      ensures Inv() && fresh(Repr() - old(Repr()))
      ensures Position() == if hi == 0 then |Flat()| else hi - 1
    {
      OffsetEnds(Blocks());
      while dataIter == null || !dataIter.Valid()
        invariant Linked() && fresh(Repr() - old(Repr()))
        invariant dataIter == null ==> hi == 0
        invariant dataIter != null ==>
          if dataIter.Valid() then Offset(Blocks(), indexIter.pos) + dataIter.pos == hi - 1
          else Offset(Blocks(), indexIter.pos) == hi
        decreases if indexIter.Valid() then indexIter.pos + 1 else 0
      {
        if !indexIter.Valid() {
          dataIter := null;
          return;
        }
        if indexIter.pos > 0 {
          OffsetStep(Blocks(), indexIter.pos - 1);
        }
        indexIter.Prev();
        InitDataBlock();
        if dataIter != null {
          dataIter.SeekToLast();
        }
      }
    }

    method SeekToFirst()
      requires Inv()
      modifies Repr()
      ensures Inv() && fresh(Repr() - old(Repr()))
      ensures Position() == 0
    {
      OffsetEnds(Blocks());
      indexIter.SeekToFirst();
      InitDataBlock();
      if dataIter != null {
        dataIter.SeekToFirst();
      }
      SkipEmptyDataBlocksForward(0);
    }

    method SeekToLast()
      requires Inv()
      modifies Repr()
      ensures Inv() && fresh(Repr() - old(Repr()))
      ensures Position() == if Flat() == [] then |Flat()| else |Flat()| - 1
    {
      OffsetEnds(Blocks());
      indexIter.SeekToLast();
      InitDataBlock();
      if dataIter != null {
        OffsetStep(Blocks(), indexIter.pos);
        dataIter.SeekToLast();
      }
      SkipEmptyDataBlocksBackward(|Flat()|);
    }

    method Seek(target: IKey)
      requires Inv() && Separated(indexIter.es, Blocks())
      modifies Repr()
      ensures Inv() && fresh(Repr() - old(Repr()))
      ensures SeeksTo(Flat(), target, Position())
    {
      indexIter.Seek(target);
      InitDataBlock();
      if dataIter != null {
        dataIter.Seek(target);
      }
      SeekLands(target);
      ghost var at := if dataIter == null then |Flat()| else Offset(Blocks(), indexIter.pos) + dataIter.pos;
      SkipEmptyDataBlocksForward(at);
    }

    lemma SeekLands(target: IKey)
      requires Linked() && Separated(indexIter.es, Blocks()) && SeeksTo(indexIter.es, target, indexIter.pos)
      requires dataIter != null ==> SeeksTo(dataIter.es, target, dataIter.pos)
      ensures SeeksTo(Flat(), target,
        if dataIter == null then |Flat()| else Offset(Blocks(), indexIter.pos) + dataIter.pos)
    {
      OffsetEnds(Blocks());
      if dataIter == null {
        SeekThroughIndex(indexIter.es, Blocks(), target, indexIter.pos, 0);
      } else {
        assert dataIter.es == Blocks()[indexIter.pos];
        SeekThroughIndex(indexIter.es, Blocks(), target, indexIter.pos, dataIter.pos);
      }
    }

    method Next()
      requires Inv() && Valid()
      modifies Repr()
      ensures Inv() && fresh(Repr() - old(Repr()))
      ensures Position() == old(Position()) + 1
    {
      ghost var at := Position() + 1;
      dataIter.Next();
      SkipEmptyDataBlocksForward(at);
    }

    method Prev()
      requires Inv() && Valid()
      modifies Repr()
      ensures Inv() && fresh(Repr() - old(Repr()))
      ensures Position() == if old(Position()) == 0 then |Flat()| else old(Position()) - 1
    {
      ghost var at := Position();
      dataIter.Prev();
      SkipEmptyDataBlocksBackward(at);
    }

    /** The entry presented is the one at the position. */
    lemma HereIsFlat()
      requires Inv() && Valid()
      ensures Position() < |Flat()| && Flat()[Position()] == dataIter.es[dataIter.pos]
    {
      EntryAt(Blocks(), indexIter.pos, dataIter.pos);
    }
  }
}
