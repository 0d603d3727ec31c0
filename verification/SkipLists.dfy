/** The skip list (db/skiplist.h): one writer, any number of readers, no locks.

    Keys are the ranks of the entries under the list's comparator. Since no key
    is inserted twice, a node is named by its key. Every load and store of a
    link is one atomic step. */
module SkipLists {
  import opened Options

  type Key = int

  const MAX_HEIGHT: nat := 12

  datatype Node = Head | At(key: Key)

  type Link = Option<Key>

  datatype Memory = Memory(next: map<(Node, nat), Link>, maxHeight: nat)

  type Sets = seq<set<Key>>

  // ---- what a level's links say ----

  predicate After(x: Node, k: Key) {
    x.Head? || x.key < k
  }

  // r is the first key of s after x.
  ghost predicate IsNext(s: set<Key>, x: Node, r: Link) {
    match r
    case None => forall k | k in s :: !After(x, k)
    case Some(n) => n in s && After(x, n) && forall k | k in s && After(x, k) :: n <= k
  }

  predicate OnLevel(s: set<Key>, x: Node) {
    x.Head? || x.key in s
  }

  ghost predicate LevelLinked(m: Memory, s: set<Key>, i: nat) {
    forall x | OnLevel(s, x) :: (x, i) in m.next && IsNext(s, x, m.next[(x, i)])
  }

  /** Every level is a sorted list, and a sublist of the level below. */
  ghost predicate Linked(m: Memory, sets: Sets) {
    && |sets| == MAX_HEIGHT && 1 <= m.maxHeight <= MAX_HEIGHT
    && (forall i | 0 <= i < MAX_HEIGHT :: LevelLinked(m, sets[i], i))
    && (forall i, j | 0 <= i <= j < MAX_HEIGHT :: sets[j] <= sets[i])
    && forall i | m.maxHeight <= i < MAX_HEIGHT :: sets[i] == {}
  }

  // Node::SetNext
  function SetNext(m: Memory, x: Node, i: nat, r: Link): Memory {
    m.(next := m.next[(x, i) := r])
  }

  // ---- searches ----

  datatype Search = GreaterOrEqual(target: Key) | LessThan(target: Key) | Last

  // Is the search still to go past a node with key k?
  predicate GoesPast(q: Search, k: Key) {
    q.Last? || k < q.target
  }

  // A search in progress, standing at x on a level.
  datatype Reader = Reader(q: Search, x: Node, level: nat)

  ghost predicate ReaderOk(sets: Sets, r: Reader)
    requires |sets| == MAX_HEIGHT
  {
    r.level < MAX_HEIGHT && OnLevel(sets[r.level], r.x) && (r.x.At? ==> GoesPast(r.q, r.x.key))
  }

  datatype Found = Going(r: Reader) | Stopped(x: Node, next: Link)

  /** One turn of the loop of FindGreaterOrEqual, FindLessThan or FindLast: load
      a link, then advance, drop a level or stop. */
  function Turn(m: Memory, r: Reader): Found
    requires (r.x, r.level) in m.next
  {
    var next := m.next[(r.x, r.level)];
    if next.Some? && GoesPast(r.q, next.value) then Going(Reader(r.q, At(next.value), r.level))
    else if r.level > 0 then Going(Reader(r.q, r.x, r.level - 1))
    else Stopped(r.x, next)
  }

  /** What a search must answer over a key set: the last node before the target
      and the first key at or after it. */
  ghost predicate Answer(s: set<Key>, q: Search, x: Node, next: Link) {
    && OnLevel(s, x) && (x.At? ==> GoesPast(q, x.key))
    && (forall k | k in s && GoesPast(q, k) :: !After(x, k))
    && (next.Some? ==> next.value in s && !GoesPast(q, next.value))
    && forall k | k in s && !GoesPast(q, k) :: next.Some? && next.value <= k
  }

  /** A turn keeps the reader on a key it may stand at; if it stops, the answer
      is right for the keys of level 0 at that instant. */
  lemma TurnIsRight(m: Memory, sets: Sets, r: Reader)
    requires Linked(m, sets) && ReaderOk(sets, r)
    ensures (r.x, r.level) in m.next
    ensures match Turn(m, r)
      case Going(r') => ReaderOk(sets, r')
      case Stopped(x, next) => Answer(sets[0], r.q, x, next)
  {
    assert LevelLinked(m, sets[r.level], r.level);
    assert r.level > 0 ==> sets[r.level] <= sets[r.level - 1];
  }

  // Readers only ever gain keys.
  ghost predicate Grows(sets: Sets, sets': Sets) {
    |sets| == |sets'| && forall i | 0 <= i < |sets| :: sets[i] <= sets'[i]
  }

  lemma ReaderStays(sets: Sets, sets': Sets, r: Reader)
    requires |sets| == MAX_HEIGHT && Grows(sets, sets') && ReaderOk(sets, r)
    ensures ReaderOk(sets', r)
  {
    assert sets[r.level] <= sets'[r.level];
  }

  // ---- the writer ----

  /** p is the last node of the level before k. */
  ghost predicate IsPrev(s: set<Key>, k: Key, p: Node) {
    OnLevel(s, p) && (p.At? ==> p.key < k) && forall j | j in s && After(p, j) :: k <= j
  }

  /** Linking: the new node is on the levels below i; if `pointed`, its own link
      at level i is already set. */
  datatype Writer = Idle | Linking(key: Key, height: nat, prev: seq<Node>, i: nat, pointed: bool)

  predicate SameLink(m: Memory, x: Node, y: Node, i: nat) {
    (x, i) in m.next && (y, i) in m.next && m.next[(x, i)] == m.next[(y, i)]
  }

  ghost predicate WriterOk(m: Memory, sets: Sets, w: Writer)
    requires |sets| == MAX_HEIGHT
  {
    w.Linking? ==>
      && 1 <= w.height <= MAX_HEIGHT && |w.prev| == MAX_HEIGHT && w.i < w.height <= m.maxHeight
      && (forall j | 0 <= j < MAX_HEIGHT :: w.key in sets[j] <==> j < w.i)
      && (forall j | w.i <= j < w.height :: IsPrev(sets[j], w.key, w.prev[j]))
      && (w.pointed ==> SameLink(m, At(w.key), w.prev[w.i], w.i))
  }

  /** x->NoBarrier_SetNext(i, prev[i]->NoBarrier_Next(i)): nobody can see it. */
  lemma PointKeeps(m: Memory, sets: Sets, w: Writer)
    requires Linked(m, sets) && WriterOk(m, sets, w) && w.Linking? && !w.pointed
    ensures (w.prev[w.i], w.i) in m.next
    ensures var m' := SetNext(m, At(w.key), w.i, m.next[(w.prev[w.i], w.i)]);
      Linked(m', sets) && WriterOk(m', sets, w.(pointed := true))
  {
    var i := w.i;
    assert IsPrev(sets[i], w.key, w.prev[i]) && LevelLinked(m, sets[i], i);
    var m' := SetNext(m, At(w.key), i, m.next[(w.prev[i], i)]);
    forall j | 0 <= j < MAX_HEIGHT ensures LevelLinked(m', sets[j], j) {
      assert LevelLinked(m, sets[j], j);
      forall x | OnLevel(sets[j], x) ensures (x, j) in m'.next && m'.next[(x, j)] == m.next[(x, j)] {
        assert (x, j) != (At(w.key), i);
      }
    }
  }

  function AddAt(sets: Sets, i: nat, k: Key): Sets
    requires i < |sets|
  {
    sets[i := sets[i] + {k}]
  }

  lemma LinkLevel(m: Memory, s: set<Key>, i: nat, k: Key, p: Node)
    requires LevelLinked(m, s, i) && k !in s && IsPrev(s, k, p)
    requires SameLink(m, At(k), p, i)
    ensures LevelLinked(SetNext(m, p, i, Some(k)), s + {k}, i)
  {
    var m' := SetNext(m, p, i, Some(k));
    assert IsNext(s, p, m.next[(p, i)]);
    forall x | OnLevel(s + {k}, x) ensures (x, i) in m'.next && IsNext(s + {k}, x, m'.next[(x, i)]) {
      if x == At(k) {
        assert m'.next[(x, i)] == m.next[(p, i)];
      } else if x != p {
        assert OnLevel(s, x) && IsNext(s, x, m.next[(x, i)]);
      }
    }
  }

  /** prev[i]->SetNext(i, x): the node appears on level i, all at once. */
  lemma LinkKeeps(m: Memory, sets: Sets, w: Writer)
    requires Linked(m, sets) && WriterOk(m, sets, w) && w.Linking? && w.pointed
    ensures var m' := SetNext(m, w.prev[w.i], w.i, Some(w.key)); var sets' := AddAt(sets, w.i, w.key);
      && Linked(m', sets') && Grows(sets, sets')
      && WriterOk(m', sets', if w.i + 1 < w.height then w.(i := w.i + 1, pointed := false) else Idle)
  {
    var i, k := w.i, w.key;
    var m', sets' := SetNext(m, w.prev[i], i, Some(k)), AddAt(sets, i, k);
    assert IsPrev(sets[i], k, w.prev[i]) && LevelLinked(m, sets[i], i);
    LinkLevel(m, sets[i], i, k, w.prev[i]);
    forall j | 0 <= j < MAX_HEIGHT ensures LevelLinked(m', sets'[j], j) {
      if j != i {
        assert LevelLinked(m, sets[j], j);
        assert forall x | OnLevel(sets[j], x) :: (x, j) in m'.next && m'.next[(x, j)] == m.next[(x, j)];
      }
    }
    forall a, b | 0 <= a <= b < MAX_HEIGHT ensures sets'[b] <= sets'[a] {
      assert sets[b] <= sets[a];
      assert b == i && a < i ==> k in sets[a];
    }
  }

  // ---- all together ----

  /** `inserted` holds the keys whose Insert has returned. */
  datatype State = State(m: Memory, sets: Sets, writer: Writer, readers: seq<Reader>, inserted: set<Key>)

  ghost predicate Init(s: State) {
    && |s.sets| == MAX_HEIGHT
      && (forall i | 0 <= i < MAX_HEIGHT :: s.sets[i] == {} && (Head, i) in s.m.next && s.m.next[(Head, i)] == None)
    && s.m.maxHeight == 1 && s.writer == Idle && s.readers == [] && s.inserted == {}
  }

  ghost predicate BeginSearch(s: State, s': State, q: Search) {
    s.m.maxHeight >= 1 && s' == s.(readers := s.readers + [Reader(q, Head, s.m.maxHeight - 1)])
  }

  // Reader n takes one turn; a reader that stops goes away.
  ghost predicate Read(s: State, s': State, n: nat) {
    && n < |s.readers| && (s.readers[n].x, s.readers[n].level) in s.m.next
    && match Turn(s.m, s.readers[n])
       case Going(r) => s' == s.(readers := s.readers[n := r])
       case Stopped(_, _) => s' == s.(readers := s.readers[..n] + s.readers[n + 1..])
  }

  // max_height_.store
  ghost predicate Raise(s: State, s': State, height: nat) {
    s.writer.Idle? && s.m.maxHeight <= height <= MAX_HEIGHT && s' == s.(m := s.m.(maxHeight := height))
  }

  /** Insert has found where the key goes. */
  ghost predicate BeginInsert(s: State, s': State, w: Writer) {
    && s.writer.Idle? && s' == s.(writer := w) && |s.sets| == MAX_HEIGHT
    && w.Linking? && w.i == 0 && !w.pointed && 1 <= w.height <= s.m.maxHeight <= MAX_HEIGHT && |w.prev| == MAX_HEIGHT
    && w.key !in s.sets[0] && forall j | 0 <= j < w.height :: IsPrev(s.sets[j], w.key, w.prev[j])
  }

  ghost predicate Point(s: State, s': State) {
    var w := s.writer;
    && w.Linking? && !w.pointed && w.i < |w.prev| && (w.prev[w.i], w.i) in s.m.next
    && s' == s.(m := SetNext(s.m, At(w.key), w.i, s.m.next[(w.prev[w.i], w.i)]), writer := w.(pointed := true))
  }

  ghost predicate Publish(s: State, s': State) {
    var w := s.writer;
    && w.Linking? && w.pointed && w.i < |w.prev| && w.i < |s.sets|
    && var last := w.i + 1 == w.height;
       s' == s.(m := SetNext(s.m, w.prev[w.i], w.i, Some(w.key)), sets := AddAt(s.sets, w.i, w.key),
                writer := if last then Idle else w.(i := w.i + 1, pointed := false),
                inserted := if last then s.inserted + {w.key} else s.inserted)
  }

  ghost predicate Step(s: State, s': State) {
    || (exists q :: BeginSearch(s, s', q)) || (exists n: nat :: Read(s, s', n))
    || (exists height: nat :: Raise(s, s', height)) || (exists w :: BeginInsert(s, s', w))
    || Point(s, s') || Publish(s, s')
  }

  ghost predicate Run(states: seq<State>) {
    && 0 < |states| && Init(states[0])
    && forall i | 0 <= i < |states| - 1 :: Step(states[i], states[i + 1])
  }

  // The keys on level 0: those inserted, and the one being inserted once linked.
  ghost predicate Counted(s: State)
    requires |s.sets| == MAX_HEIGHT
  {
    s.sets[0] == s.inserted + if s.writer.Linking? && s.writer.i > 0 then {s.writer.key} else {}
  }

  ghost predicate Inv(s: State) {
    && Linked(s.m, s.sets) && WriterOk(s.m, s.sets, s.writer) && Counted(s)
    && forall n | 0 <= n < |s.readers| :: ReaderOk(s.sets, s.readers[n])
  }

  lemma InsertKeeps(s: State, s': State, w: Writer)
    requires Inv(s) && BeginInsert(s, s', w)
    ensures Inv(s')
  {
    forall j | 0 <= j < MAX_HEIGHT ensures w.key !in s.sets[j] {
      assert s.sets[j] <= s.sets[0];
    }
  }

  lemma PublishKeeps(s: State, s': State)
    requires Inv(s) && Publish(s, s')
    ensures Inv(s')
  {
    LinkKeeps(s.m, s.sets, s.writer);
    forall n | 0 <= n < |s.readers| ensures ReaderOk(s'.sets, s.readers[n]) {
      ReaderStays(s.sets, s'.sets, s.readers[n]);
    }
  }

  lemma ReadKeeps(s: State, s': State, n: nat)
    requires Inv(s) && Read(s, s', n)
    ensures Inv(s')
  {
    TurnIsRight(s.m, s.sets, s.readers[n]);
  }

  lemma RaiseKeeps(s: State, s': State, height: nat)
    requires Inv(s) && Raise(s, s', height)
    ensures Inv(s')
  {
    RaiseLinked(s.m, s.sets, height);
  }

  lemma StepKeeps(s: State, s': State)
    requires Inv(s) && Step(s, s')
    ensures Inv(s') && s.inserted <= s'.inserted
  {
    if w :| BeginInsert(s, s', w) {
      InsertKeeps(s, s', w);
    } else if Point(s, s') {
      PointKeeps(s.m, s.sets, s.writer);
    } else if Publish(s, s') {
      PublishKeeps(s, s');
    } else if n: nat :| Read(s, s', n) {
      ReadKeeps(s, s', n);
    } else if h: nat :| Raise(s, s', h) {
      RaiseKeeps(s, s', h);
    }
  }

  lemma {:induction false} RunInv(states: seq<State>)
    requires Run(states)
    ensures forall s | s in states :: Inv(s)
    decreases |states|
  {
    var n := |states| - 1;
    if n > 0 {
      RunInv(states[..n]);
      assert Step(states[n - 1], states[n - 1 + 1]);
      assert states[..n][n - 1] == states[n - 1];
      StepKeeps(states[n - 1], states[n]);
    }
  }

  /** A search that stops at any moment of any run gives the right answer for the
      keys inserted so far, or for those and the one being inserted. */
  lemma SearchesAreRight(states: seq<State>, s: State, n: nat)
    requires Run(states) && s in states && n < |s.readers|
    ensures var r := s.readers[n];
      && (r.x, r.level) in s.m.next
      && (Turn(s.m, r).Stopped? ==>
        var f := Turn(s.m, r);
        || Answer(s.inserted, r.q, f.x, f.next)
        || (s.writer.Linking? && Answer(s.inserted + {s.writer.key}, r.q, f.x, f.next)))
  {
    RunInv(states);
    TurnIsRight(s.m, s.sets, s.readers[n]);
    assert s.inserted + {} == s.inserted;
  }

  // ---- the list itself ----

  class SkipList {
    var m: Memory
    // The keys on each level.
    ghost var sets: Sets

    ghost predicate Valid()
      reads this
    {
      Linked(m, sets)
    }

    ghost function Keys(): set<Key>
      requires Valid()
      reads this
    {
      sets[0]
    }

    constructor ()
      ensures Valid() && Keys() == {}
    {
      m := Memory(map i: nat | 0 <= i < MAX_HEIGHT :: (Head, i) := None, 1);
      sets := seq(MAX_HEIGHT, _ => {});
    }

    // The keys the search may still pass on this level.
    ghost function Left(x: Node, level: nat): nat
      requires Valid() && level < MAX_HEIGHT
      reads this
    {
      |set k | k in sets[level] && After(x, k)|
    }

    lemma LeftShrinks(x: Node, k: Key, level: nat)
      requires Valid() && level < MAX_HEIGHT && k in sets[level] && After(x, k)
      ensures Left(At(k), level) < Left(x, level)
    {
      var a, b := set j | j in sets[level] && After(At(k), j), set j | j in sets[level] && After(x, j);
      assert a <= b - {k} && |b - {k}| == |b| - 1;
      SubsetSize(a, b - {k});
    }

    /** The first node at or after the key, and the last node before it on every
        level in use. */
    method FindGreaterOrEqual(key: Key) returns (next: Link, prev: seq<Node>)
      requires Valid()
      ensures exists x :: Answer(Keys(), GreaterOrEqual(key), x, next)
      ensures |prev| == MAX_HEIGHT && forall j | 0 <= j < m.maxHeight :: IsPrev(sets[j], key, prev[j])
    {
      var x, level := Head, m.maxHeight - 1;
      prev := seq(MAX_HEIGHT, _ => Head);
      while true
        invariant 0 <= level < MAX_HEIGHT && ReaderOk(sets, Reader(GreaterOrEqual(key), x, level))
        invariant |prev| == MAX_HEIGHT && forall j | level < j < m.maxHeight :: IsPrev(sets[j], key, prev[j])
        decreases level, Left(x, level)
      {
        TurnIsRight(m, sets, Reader(GreaterOrEqual(key), x, level));
        assert LevelLinked(m, sets[level], level);
        next := m.next[(x, level)];
        if next.Some? && next.value < key {
          LeftShrinks(x, next.value, level);
          x := At(next.value);
        } else {
          prev := prev[level := x];
          if level == 0 {
            assert Answer(Keys(), GreaterOrEqual(key), x, next);
            return;
          }
          assert sets[level] <= sets[level - 1];
          level := level - 1;
        }
      }
    }

    /** The last node before the key, or the head. */
    method FindLessThan(key: Key) returns (x: Node)
      requires Valid()
      ensures exists next :: Answer(Keys(), LessThan(key), x, next)
    {
      x := Head;
      var level := m.maxHeight - 1;
      while true
        invariant 0 <= level < MAX_HEIGHT && ReaderOk(sets, Reader(LessThan(key), x, level))
        decreases level, Left(x, level)
      {
        TurnIsRight(m, sets, Reader(LessThan(key), x, level));
        assert LevelLinked(m, sets[level], level);
        var next := m.next[(x, level)];
        if next.None? || next.value >= key {
          if level == 0 {
            assert Answer(Keys(), LessThan(key), x, next);
            return;
          }
          assert sets[level] <= sets[level - 1];
          level := level - 1;
        } else {
          LeftShrinks(x, next.value, level);
          x := At(next.value);
        }
      }
    }

    method FindLast() returns (x: Node)
      requires Valid()
      ensures exists next :: Answer(Keys(), Last, x, next)
    {
      x := Head;
      var level := m.maxHeight - 1;
      while true
        invariant 0 <= level < MAX_HEIGHT && ReaderOk(sets, Reader(Last, x, level))
        decreases level, Left(x, level)
      {
        TurnIsRight(m, sets, Reader(Last, x, level));
        assert LevelLinked(m, sets[level], level);
        var next := m.next[(x, level)];
        if next.None? {
          if level == 0 {
            assert Answer(Keys(), Last, x, next);
            return;
          }
          assert sets[level] <= sets[level - 1];
          level := level - 1;
        } else {
          LeftShrinks(x, next.value, level);
          x := At(next.value);
        }
      }
    }

    method Contains(key: Key) returns (found: bool)
      requires Valid()
      ensures found <==> key in Keys()
    {
      var next, _ := FindGreaterOrEqual(key);
      found := next == Some(key);
    }

    /** The key goes onto the levels below its height, lowest level first. */
    method Insert(key: Key, height: nat)
      requires Valid() && key !in Keys() && 1 <= height <= MAX_HEIGHT
      modifies this
      ensures Valid() && Keys() == old(Keys()) + {key}
      ensures forall i | 0 <= i < MAX_HEIGHT :: sets[i] == old(sets)[i] + if i < height then {key} else {}
    {
      forall j | 0 <= j < MAX_HEIGHT ensures key !in sets[j] {
        assert sets[j] <= sets[0];
      }
      var _, prev := FindGreaterOrEqual(key);
      if height > m.maxHeight {
        for i := m.maxHeight to height
          invariant |prev| == MAX_HEIGHT && forall j | 0 <= j < i :: IsPrev(sets[j], key, prev[j])
        {
          prev := prev[i := Head];
        }
        RaiseLinked(m, sets, height);
        m := m.(maxHeight := height);
      }
      for i := 0 to height
        invariant Valid() && height <= m.maxHeight
        invariant i < height ==> WriterOk(m, sets, Linking(key, height, prev, i, false))
        invariant forall j | 0 <= j < MAX_HEIGHT :: sets[j] == old(sets)[j] + if j < i then {key} else {}
      {
        LinkOne(key, height, prev, i);
      }
    }

    /** The two stores that put the new node on level i. */
    method LinkOne(key: Key, height: nat, prev: seq<Node>, i: nat)
      requires Valid() && WriterOk(m, sets, Linking(key, height, prev, i, false))
      modifies this
      ensures Valid() && sets == AddAt(old(sets), i, key) && m.maxHeight == old(m.maxHeight)
      ensures i + 1 < height ==> WriterOk(m, sets, Linking(key, height, prev, i + 1, false))
    {
      ghost var w := Linking(key, height, prev, i, false);
      PointKeeps(m, sets, w);
      m := SetNext(m, At(key), i, m.next[(prev[i], i)]);
      LinkKeeps(m, sets, w.(pointed := true));
      m := SetNext(m, prev[i], i, Some(key));
      sets := AddAt(sets, i, key);
    }
  }

  lemma {:induction false} SubsetSize<T>(a: set<T>, b: set<T>)
    requires a <= b
    ensures |a| <= |b|
  {
    if x :| x in a {
      SubsetSize(a - {x}, b - {x});
    }
  }

  lemma RaiseLinked(m: Memory, sets: Sets, height: nat)
    requires Linked(m, sets) && m.maxHeight <= height <= MAX_HEIGHT
    ensures Linked(m.(maxHeight := height), sets)
  {
    forall i | 0 <= i < MAX_HEIGHT ensures LevelLinked(m.(maxHeight := height), sets[i], i) {
      assert LevelLinked(m, sets[i], i);
    }
  }

  /** SkipList::Iterator. */
  class Iterator {
    const list: SkipList
    var node: Link

    constructor (list: SkipList)
      ensures this.list == list && node == None
    {
      this.list, node := list, None;
    }

    predicate Valid()
      reads this
    {
      node.Some?
    }

    method Next()
      requires Valid() && list.Valid() && node.value in list.Keys()
      modifies this
      ensures IsNext(list.Keys(), At(old(node.value)), node)
    {
      assert LevelLinked(list.m, list.sets[0], 0);
      node := list.m.next[(At(node.value), 0)];
    }

    /** There are no back links: a search finds the key before. */
    method Prev()
      requires Valid() && list.Valid() && node.value in list.Keys()
      modifies this
      ensures node.Some? ==> node.value in list.Keys() && node.value < old(node.value)
      ensures forall k | k in list.Keys() && k < old(node.value) :: node.Some? && k <= node.value
    {
      var x := list.FindLessThan(node.value);
      node := if x.Head? then None else Some(x.key);
    }

    method Seek(target: Key)
      requires list.Valid()
      modifies this
      ensures node.Some? ==> node.value in list.Keys() && node.value >= target
      ensures forall k | k in list.Keys() && k >= target :: node.Some? && node.value <= k
    {
      var next, _ := list.FindGreaterOrEqual(target);
      node := next;
    }

    method SeekToFirst()
      requires list.Valid()
      modifies this
      ensures IsNext(list.Keys(), Head, node)
    {
      assert LevelLinked(list.m, list.sets[0], 0);
      node := list.m.next[(Head, 0)];
    }

    method SeekToLast()
      requires list.Valid()
      modifies this
      ensures node.Some? ==> node.value in list.Keys()
      ensures forall k | k in list.Keys() :: node.Some? && k <= node.value
    {
      var x := list.FindLast();
      node := if x.Head? then None else Some(x.key);
    }
  }
}
