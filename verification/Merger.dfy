/** MergingIterator (table/merger.cc): one cursor over the sorted union of its
    children. */
module Merger {
  import opened Options
  import opened Keys
  import opened Cursors

  // ---- bounds on internal keys ----

  /** k is at or after lo (after lo if strict). */
  predicate FromLo(lo: Option<IKey>, strict: bool, k: IKey) {
    lo.Some? ==> Less(lo.value, k) || (!strict && lo.value == k)
  }

  predicate BelowHi(hi: Option<IKey>, k: IKey) {
    hi.Some? ==> Less(k, hi.value)
  }

  /** pos is the first entry of es from lo on. */
  ghost predicate AtCut(es: seq<Entry>, pos: nat, lo: Option<IKey>, strict: bool) {
    && pos <= |es|
    && (forall p | 0 <= p < pos :: !FromLo(lo, strict, es[p].k))
    && forall p | pos <= p < |es| :: FromLo(lo, strict, es[p].k)
  }

  /** pos is the last entry of es below hi; |es| if there is none. */
  ghost predicate AtBackCut(es: seq<Entry>, pos: nat, hi: Option<IKey>) {
    && pos <= |es|
    && (pos < |es| ==> BelowHi(hi, es[pos].k))
    && forall p | 0 <= p < |es| && (pos < |es| ==> pos < p) :: !BelowHi(hi, es[p].k)
  }

  lemma {:induction false} PlaceFor(es: seq<Entry>, target: IKey) returns (pos: nat)
    ensures SeeksTo(es, target, pos)
  {
    if es != [] {
      pos := PlaceFor(es[..|es| - 1], target);
      if pos == |es| - 1 && Less(es[pos].k, target) {
        pos := |es|;
      }
    } else {
      pos := 0;
    }
  }

  lemma SeekIsCut(es: seq<Entry>, target: IKey, pos: nat)
    requires SortedEntries(es) && SeeksTo(es, target, pos)
    ensures AtCut(es, pos, Some(target), false)
  {
    forall p | 0 <= p < |es| ensures p < pos ==> !FromLo(Some(target), false, es[p].k)
      ensures p >= pos ==> FromLo(Some(target), false, es[p].k)
    {
      KeyOrder(es[p].k, target, es[p].k);
      if pos < p {
        KeyOrder(target, es[pos].k, es[p].k);
      }
      KeyOrder(target, es[p].k, target);
    }
  }

  /** Leaving an entry moves the cut past its key. */
  lemma StepIsCut(es: seq<Entry>, pos: nat)
    requires SortedEntries(es) && pos < |es|
    ensures AtCut(es, pos + 1, Some(es[pos].k), true)
  {
    forall p | 0 <= p <= pos ensures !Less(es[pos].k, es[p].k) {
      KeyOrder(es[p].k, es[pos].k, es[p].k);
    }
  }

  lemma StepBackIsCut(es: seq<Entry>, pos: nat)
    requires SortedEntries(es) && pos < |es|
    ensures AtBackCut(es, if pos == 0 then |es| else pos - 1, Some(es[pos].k))
  {
    forall p | pos <= p < |es| ensures !Less(es[p].k, es[pos].k) {
      KeyOrder(es[pos].k, es[p].k, es[pos].k);
    }
  }

  /** Stepping back from a cut, or to the end when nothing follows it. */
  lemma CutToBackCut(es: seq<Entry>, pos: nat, k: IKey)
    requires AtCut(es, pos, Some(k), false)
    ensures AtBackCut(es, if pos == 0 then |es| else pos - 1, Some(k))
  {
    forall p | pos <= p < |es| ensures !Less(es[p].k, k) {
      KeyOrder(k, es[p].k, k);
    }
    if pos > 0 {
      KeyOrder(es[pos - 1].k, k, k);
    }
  }

  /** A child no other key of which equals the smallest key k is cut just past
      k. */
  lemma PastSmallest(es: seq<Entry>, pos: nat, lo: Option<IKey>, strict: bool, k: IKey)
    requires SortedEntries(es) && AtCut(es, pos, lo, strict) && FromLo(lo, strict, k)
    requires pos < |es| ==> AtMost(k, es[pos].k)
    requires forall e | e in es :: e.k != k
    ensures AtCut(es, pos, Some(k), true)
  {
    forall p | 0 <= p < pos ensures !Less(k, es[p].k) {
      assert !FromLo(lo, strict, es[p].k);
      KeyOrder(lo.value, k, es[p].k);
      KeyOrder(k, es[p].k, lo.value);
    }
    forall p | pos <= p < |es| ensures Less(k, es[p].k) {
      assert es[p] in es && es[pos] in es;
      KeyOrder(k, es[pos].k, es[p].k);
    }
  }

  lemma BeforeLargest(es: seq<Entry>, pos: nat, hi: Option<IKey>, k: IKey)
    requires AtBackCut(es, pos, hi) && BelowHi(hi, k)
    requires pos < |es| ==> AtMost(es[pos].k, k) && es[pos].k != k
    ensures AtBackCut(es, pos, Some(k))
  {
    if pos < |es| {
      KeyOrder(es[pos].k, k, k);
    }
    forall p | 0 <= p < |es| && (pos < |es| ==> pos < p) ensures !Less(es[p].k, k) {
      KeyOrder(es[p].k, k, hi.value);
    }
  }

  ghost predicate KeysApart(a: seq<Entry>, b: seq<Entry>) {
    forall e, x | e in a && x in b :: e.k != x.k
  }

  datatype Direction = Forward | Reverse

  class MergingIterator {
    const children: seq<InternalIterator>
    var current: Option<nat>
    var direction: Direction
    ghost const es: seq<Entry>  // the union in order
    ghost var pos: nat          // where a cursor over it stands

    ghost predicate Children()
    {
      && (forall i, j | 0 <= i < j < |children| :: children[i] != children[j])
      && (forall i | 0 <= i < |children| :: SortedEntries(children[i].es))
      && Merges(es)
      && forall i, j {:trigger KeysApart(children[i].es, children[j].es)} | 0 <= i < j < |children| ::
        KeysApart(children[i].es, children[j].es)
    }

    constructor (children: seq<InternalIterator>, ghost es: seq<Entry>)
      requires forall i, j | 0 <= i < j < |children| :: children[i] != children[j]
      requires forall i | 0 <= i < |children| :: SortedEntries(children[i].es) && children[i].pos <= |children[i].es|
      requires forall i, j {:trigger KeysApart(children[i].es, children[j].es)} | 0 <= i < j < |children| ::
        KeysApart(children[i].es, children[j].es)
      requires SortedEntries(es) && forall e :: e in es <==> exists i :: 0 <= i < |children| && e in children[i].es
      ensures Inv() && !Valid() && this.children == children && this.es == es
    {
      this.children, current, direction := children, None, Forward;
      this.es, pos := es, |es|;
    }

    predicate Valid()
      reads this
    {
      current.Some?
    }

    ghost predicate Union(e: Entry)
    {
      exists i :: 0 <= i < |children| && e in children[i].es
    }

    // The current child, if any, shows the entry of the union at pos.
    ghost predicate Standing()
      reads this, children
    {
      && (current.Some? ==> current.value < |children| && children[current.value].Valid())
      && pos <= |es| && Position() == (if pos < |es| then Some(es[pos]) else None)
    }

    // Child i is at its own place next to the current one.
    ghost predicate ChildAt(i: int)
      requires Standing()
      reads this, children
    {
      && Children()
      && (0 <= i < |children| ==> children[i].pos <= |children[i].es|)
      && (0 <= i < |children| && current.Some? && current != Some(i) ==>
        if direction.Forward? then AtCut(children[i].es, children[i].pos, Some(Here().k), true)
        else AtBackCut(children[i].es, children[i].pos, Some(Here().k)))
    }

    ghost predicate Inv()
      reads this, children
    {
      Standing() && forall i :: ChildAt(i)
    }

    lemma Open()
      requires Inv()
      ensures Children() && forall i | 0 <= i < |children| :: children[i].pos <= |children[i].es|
      ensures current.Some? ==> if direction.Forward? then Ahead(Here().k) else Behind(Here().k)
    {
      assert ChildAt(|children|);
      forall i | 0 <= i < |children|
        ensures children[i].pos <= |children[i].es|
        ensures current.Some? && current != Some(i) ==>
          if direction.Forward? then AtCut(children[i].es, children[i].pos, Some(Here().k), true)
          else AtBackCut(children[i].es, children[i].pos, Some(Here().k))
      {
        assert ChildAt(i);
      }
    }

    lemma Close()
      requires Standing() && Children() && forall i | 0 <= i < |children| :: children[i].pos <= |children[i].es|
      requires current.Some? ==> if direction.Forward? then Ahead(Here().k) else Behind(Here().k)
      ensures Inv()
    {}

    // Every child but the current one stands at its first entry after k ...
    ghost predicate Ahead(k: IKey)
      reads this, children
    {
      forall i | 0 <= i < |children| && current != Some(i) :: AtCut(children[i].es, children[i].pos, Some(k), true)
    }

    // ... or at its last entry before k.
    ghost predicate Behind(k: IKey)
      reads this, children
    {
      forall i | 0 <= i < |children| && current != Some(i) :: AtBackCut(children[i].es, children[i].pos, Some(k))
    }

    function Here(): Entry
      requires current.Some? && current.value < |children| && children[current.value].Valid()
      reads this, children
    {
      children[current.value].es[children[current.value].pos]
    }

    // Where the iterator stands in the union.
    ghost function Position(): Option<Entry>
      requires current.Some? ==> current.value < |children| && children[current.value].Valid()
      reads this, children
    {
      if current.Some? then Some(Here()) else None
    }

    ghost predicate LeastFrom(lo: Option<IKey>, strict: bool, r: Option<Entry>)
    {
      && (r.Some? ==> Union(r.value) && FromLo(lo, strict, r.value.k))
      && forall e :: LeastAgainst(lo, strict, r, e)
    }

    ghost predicate LeastAgainst(lo: Option<IKey>, strict: bool, r: Option<Entry>, e: Entry)
    {
      Union(e) && FromLo(lo, strict, e.k) ==> r.Some? && AtMost(r.value.k, e.k)
    }

    ghost predicate GreatestBelow(hi: Option<IKey>, r: Option<Entry>)
    {
      && (r.Some? ==> Union(r.value) && BelowHi(hi, r.value.k))
      && forall e :: GreatestAgainst(hi, r, e)
    }

    ghost predicate GreatestAgainst(hi: Option<IKey>, r: Option<Entry>, e: Entry)
    {
      Union(e) && BelowHi(hi, e.k) ==> r.Some? && AtMost(e.k, r.value.k)
    }

    ghost predicate AllCut(lo: Option<IKey>, strict: bool)
      reads children
    {
      forall i | 0 <= i < |children| :: AtCut(children[i].es, children[i].pos, lo, strict)
    }

    ghost predicate AllBackCut(hi: Option<IKey>)
      reads children
    {
      forall i | 0 <= i < |children| :: AtBackCut(children[i].es, children[i].pos, hi)
    }

    // es lists the union in order.
    ghost predicate Merges(es: seq<Entry>)
    {
      SortedEntries(es) && forall e :: e in es <==> Union(e)
    }

    /** A forward answer is the entry a cursor over the merged sequence stands
        at. */
    lemma ForwardIsCursor(es: seq<Entry>, pos: nat, lo: Option<IKey>, strict: bool, r: Option<Entry>)
      requires Merges(es) && AtCut(es, pos, lo, strict) && LeastFrom(lo, strict, r)
      ensures r == if pos < |es| then Some(es[pos]) else None
    {
      if pos < |es| {
        assert es[pos] in es && LeastAgainst(lo, strict, r, es[pos]) && r.value in es;
        var p :| 0 <= p < |es| && es[p] == r.value;
        assert pos <= p;
      }
    }

    lemma BackwardIsCursor(es: seq<Entry>, pos: nat, hi: Option<IKey>, r: Option<Entry>)
      requires Merges(es) && AtBackCut(es, pos, hi) && GreatestBelow(hi, r)
      ensures r == if pos < |es| then Some(es[pos]) else None
    {
      if pos < |es| {
        assert es[pos] in es && GreatestAgainst(hi, r, es[pos]) && r.value in es;
        var p :| 0 <= p < |es| && es[p] == r.value;
        assert p <= pos;
      }
    }

    lemma OthersApart(c: nat)
      requires Children() && c < |children|
      ensures forall i, e, x | 0 <= i < |children| && i != c && e in children[c].es && x in children[i].es :: e.k != x.k
    {
      forall i, e, x | 0 <= i < |children| && i != c && e in children[c].es && x in children[i].es ensures e.k != x.k {
        if i < c {
          assert KeysApart(children[i].es, children[c].es);
        } else {
          assert KeysApart(children[c].es, children[i].es);
        }
      }
    }

    method FindSmallest(ghost lo: Option<IKey>, ghost strict: bool)
      requires Children() && AllCut(lo, strict)
      modifies this`current
      ensures current.Some? ==> current.value < |children| && children[current.value].Valid()
      ensures LeastFrom(lo, strict, if current.Some? then Some(Here()) else None)
      ensures current.Some? ==> Ahead(Here().k)
    {
      var smallest: Option<nat> := None;
      for i := 0 to |children|
        invariant smallest.None? ==> forall j | 0 <= j < i :: !children[j].Valid()
        invariant smallest.Some? ==> smallest.value < i && children[smallest.value].Valid()
        invariant smallest.Some? ==> forall j | 0 <= j < i && children[j].Valid() ::
          AtMost(children[smallest.value].es[children[smallest.value].pos].k, children[j].es[children[j].pos].k)
      {
        if children[i].Valid() {
          if smallest.None? || Less(children[i].es[children[i].pos].k,
            children[smallest.value].es[children[smallest.value].pos].k) {
            forall j | smallest.Some? && 0 <= j < i && children[j].Valid()
              ensures AtMost(children[i].es[children[i].pos].k, children[j].es[children[j].pos].k) {
              KeyOrder(children[j].es[children[j].pos].k, children[i].es[children[i].pos].k,
                children[smallest.value].es[children[smallest.value].pos].k);
            }
            KeyOrder(children[i].es[children[i].pos].k, children[i].es[children[i].pos].k,
              children[i].es[children[i].pos].k);
            smallest := Some(i);
          }
        }
      }
      current := smallest;
      SmallestIsLeast(lo, strict);
    }

    lemma SmallestIsLeast(lo: Option<IKey>, strict: bool)
      requires Children() && AllCut(lo, strict)
      requires current.None? ==> forall i | 0 <= i < |children| :: !children[i].Valid()
      requires current.Some? ==> current.value < |children| && children[current.value].Valid()
      requires current.Some? ==> forall i | 0 <= i < |children| && children[i].Valid() ::
        AtMost(Here().k, children[i].es[children[i].pos].k)
      ensures LeastFrom(lo, strict, if current.Some? then Some(Here()) else None)
      ensures current.Some? ==> Ahead(Here().k)
    {
      forall e | Union(e) && FromLo(lo, strict, e.k) ensures current.Some? && AtMost(Here().k, e.k) {
        var i :| 0 <= i < |children| && e in children[i].es;
        var p :| 0 <= p < |children[i].es| && children[i].es[p] == e;
        assert AtCut(children[i].es, children[i].pos, lo, strict);
        assert children[i].Valid();
        KeyOrder(e.k, Here().k, children[i].es[children[i].pos].k);
      }
      if current.Some? {
        OthersApart(current.value);
        var c := children[current.value];
        assert AtCut(c.es, c.pos, lo, strict);
        assert Here() in c.es;
        forall i | 0 <= i < |children| && i != current.value
          ensures AtCut(children[i].es, children[i].pos, Some(Here().k), true) {
          assert AtCut(children[i].es, children[i].pos, lo, strict);
          PastSmallest(children[i].es, children[i].pos, lo, strict, Here().k);
        }
      }
    }

    method FindLargest(ghost hi: Option<IKey>)
      requires Children() && AllBackCut(hi)
      modifies this`current
      ensures current.Some? ==> current.value < |children| && children[current.value].Valid()
      ensures GreatestBelow(hi, if current.Some? then Some(Here()) else None)
      ensures current.Some? ==> Behind(Here().k)
    {
      var largest: Option<nat> := None;
      for i := |children| downto 0
        invariant largest.None? ==> forall j | i <= j < |children| :: !children[j].Valid()
        invariant largest.Some? ==> i <= largest.value < |children| && children[largest.value].Valid()
        invariant largest.Some? ==> forall j | i <= j < |children| && children[j].Valid() ::
          AtMost(children[j].es[children[j].pos].k, children[largest.value].es[children[largest.value].pos].k)
      {
        if children[i].Valid() {
          if largest.None? || Less(children[largest.value].es[children[largest.value].pos].k,
            children[i].es[children[i].pos].k) {
            forall j | largest.Some? && i < j < |children| && children[j].Valid()
              ensures AtMost(children[j].es[children[j].pos].k, children[i].es[children[i].pos].k) {
              KeyOrder(children[largest.value].es[children[largest.value].pos].k, children[i].es[children[i].pos].k,
                children[j].es[children[j].pos].k);
            }
            KeyOrder(children[i].es[children[i].pos].k, children[i].es[children[i].pos].k,
              children[i].es[children[i].pos].k);
            largest := Some(i);
          }
        }
      }
      current := largest;
      LargestIsGreatest(hi);
    }

    lemma LargestIsGreatest(hi: Option<IKey>)
      requires Children() && AllBackCut(hi)
      requires current.None? ==> forall i | 0 <= i < |children| :: !children[i].Valid()
      requires current.Some? ==> current.value < |children| && children[current.value].Valid()
      requires current.Some? ==> forall i | 0 <= i < |children| && children[i].Valid() ::
        AtMost(children[i].es[children[i].pos].k, Here().k)
      ensures GreatestBelow(hi, if current.Some? then Some(Here()) else None)
      ensures current.Some? ==> Behind(Here().k)
    {
      forall e | Union(e) && BelowHi(hi, e.k) ensures current.Some? && AtMost(e.k, Here().k) {
        var i :| 0 <= i < |children| && e in children[i].es;
        var p :| 0 <= p < |children[i].es| && children[i].es[p] == e;
        assert AtBackCut(children[i].es, children[i].pos, hi);
        assert children[i].Valid() && p <= children[i].pos;
        KeyOrder(children[i].es[children[i].pos].k, Here().k, e.k);
      }
      if current.Some? {
        OthersApart(current.value);
        var c := children[current.value];
        assert AtBackCut(c.es, c.pos, hi);
        assert Here() in c.es;
        forall i | 0 <= i < |children| && i != current.value
          ensures AtBackCut(children[i].es, children[i].pos, Some(Here().k)) {
          assert AtBackCut(children[i].es, children[i].pos, hi);
          BeforeLargest(children[i].es, children[i].pos, hi, Here().k);
        }
      }
    }

    method SeekToFirst()
      requires Inv()
      modifies this, children
      ensures Inv() && LeastFrom(None, false, Position()) && pos == 0
    {
      Open();
      for i := 0 to |children|
        invariant forall j | 0 <= j < i :: AtCut(children[j].es, children[j].pos, None, false)
      {
        children[i].SeekToFirst();
      }
      FindSmallest(None, false);
      direction := Forward;
      pos := 0;
      ForwardIsCursor(es, pos, None, false, Position());
      Close();
    }

    method SeekToLast()
      requires Inv()
      modifies this, children
      ensures Inv() && GreatestBelow(None, Position())
      ensures pos == if es == [] then |es| else |es| - 1
    {
      Open();
      for i := 0 to |children|
        invariant forall j | 0 <= j < i :: AtBackCut(children[j].es, children[j].pos, None)
      {
        children[i].SeekToLast();
      }
      FindLargest(None);
      direction := Reverse;
      pos := if es == [] then |es| else |es| - 1;
      BackwardIsCursor(es, pos, None, Position());
      Close();
    }

    method Seek(target: IKey)
      requires Inv()
      modifies this, children
      ensures Inv() && LeastFrom(Some(target), false, Position()) && SeeksTo(es, target, pos)
    {
      Open();
      for i := 0 to |children|
        invariant forall j | 0 <= j < i :: AtCut(children[j].es, children[j].pos, Some(target), false)
      {
        children[i].Seek(target);
        SeekIsCut(children[i].es, target, children[i].pos);
      }
      FindSmallest(Some(target), false);
      direction := Forward;
      pos := PlaceFor(es, target);
      SeekIsCut(es, target, pos);
      ForwardIsCursor(es, pos, Some(target), false, Position());
      Close();
    }

    /** Moves every child but the current one past the current key. */
    method TurnForward()
      requires Inv() && current.Some?
      modifies this`direction, children
      ensures current == old(current) && children[current.value].Valid() && Here() == old(Here())
      ensures direction == Forward && Inv()
    {
      Open();
      ghost var k := Here().k;
      for i := 0 to |children|
        invariant children[current.value].Valid()
        invariant children[current.value].pos == old(children[current.value].pos)
        invariant forall j | 0 <= j < i && j != current.value :: AtCut(children[j].es, children[j].pos, Some(k), true)
      {
        if i != current.value {
          assert children[i] != children[current.value];
          assert Here().k == k;
          PassKey(children[i], Here().k);
        }
      }
      direction := Forward;
      Close();
    }

    static method PassKey(child: InternalIterator, k: IKey)
      requires SortedEntries(child.es)
      modifies child
      ensures AtCut(child.es, child.pos, Some(k), true)
    {
      child.Seek(k);
      SeekIsCut(child.es, k, child.pos);
      ghost var p0 := child.pos;
      if child.Valid() && k == child.es[child.pos].k {
        StepIsCut(child.es, child.pos);
        child.Next();
      } else {
        forall p | 0 <= p < child.pos ensures !Less(k, child.es[p].k) {
          KeyOrder(k, child.es[p].k, k);
        }
        forall p | child.pos <= p < |child.es| ensures Less(k, child.es[p].k) {
          KeyOrder(k, child.es[p0].k, child.es[p].k);
          KeyOrder(k, child.es[p].k, k);
        }
      }
    }

    method TurnBack()
      requires Inv() && current.Some?
      modifies this`direction, children
      ensures current == old(current) && children[current.value].Valid() && Here() == old(Here())
      ensures direction == Reverse && Inv()
    {
      Open();
      ghost var k := Here().k;
      for i := 0 to |children|
        invariant children[current.value].Valid()
        invariant children[current.value].pos == old(children[current.value].pos)
        invariant forall j | 0 <= j < i && j != current.value :: AtBackCut(children[j].es, children[j].pos, Some(k))
      {
        if i != current.value {
          assert children[i] != children[current.value];
          assert Here().k == k;
          FallBehind(children[i], Here().k);
        }
      }
      direction := Reverse;
      Close();
    }

    static method FallBehind(child: InternalIterator, k: IKey)
      requires SortedEntries(child.es)
      modifies child
      ensures AtBackCut(child.es, child.pos, Some(k))
    {
      child.Seek(k);
      SeekIsCut(child.es, k, child.pos);
      CutToBackCut(child.es, child.pos, k);
      if child.Valid() {
        child.Prev();
      } else {
        child.SeekToLast();
      }
    }

    method Next()
      requires Inv() && current.Some?
      modifies this, children
      ensures Inv() && LeastFrom(Some(old(Here().k)), true, Position()) && pos == old(pos) + 1
    {
      Open();
      if direction.Reverse? {
        TurnForward();
      }
      Open();
      ghost var k := Here().k;
      StepIsCut(children[current.value].es, children[current.value].pos);
      children[current.value].Next();
      FindSmallest(Some(k), true);
      StepIsCut(es, pos);
      pos := pos + 1;
      ForwardIsCursor(es, pos, Some(k), true, Position());
      Close();
    }

    method Prev()
      requires Inv() && current.Some?
      modifies this, children
      ensures Inv() && GreatestBelow(Some(old(Here().k)), Position())
      ensures pos == if old(pos) == 0 then |es| else old(pos) - 1
    {
      if direction.Forward? {
        TurnBack();
      }
      Open();
      ghost var k := Here().k;
      StepBack();
      StepBackIsCut(es, pos);
      pos := if pos == 0 then |es| else pos - 1;
      BackwardIsCursor(es, pos, Some(k), Position());
      Close();
    }

    /** The current child makes way for the greatest key before its own. */
    method StepBack()
      requires Inv() && current.Some? && direction.Reverse?
      modifies this`current, children
      ensures current.Some? ==> current.value < |children| && children[current.value].Valid() && Behind(Here().k)
      ensures forall i | 0 <= i < |children| :: children[i].pos <= |children[i].es|
      ensures GreatestBelow(Some(old(Here().k)), Position())
    {
      Open();
      ghost var k := Here().k;
      StepBackIsCut(children[current.value].es, children[current.value].pos);
      children[current.value].Prev();
      FindLargest(Some(k));
    }
  }
}
