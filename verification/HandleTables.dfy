/** HandleTable (util/cache.cc): a hash table of linked chains that grows to keep
    them short. */
module HandleTables {
  import opened Options

  // Cache keys are only ever compared for equality; a number stands for one.
  type Key = int

  // What the table reads of a cache entry: neither field ever changes.
  datatype Node = Node(id: nat, key: Key, hash: nat)

  predicate PowerOfTwo(n: nat) {
    n == 1 || (n > 1 && n % 2 == 0 && PowerOfTwo(n / 2))
  }

  // hash & (length - 1): the remainder, since the length is a power of two.
  function Bucket(hash: nat, length: nat): (i: nat)
    requires length > 0
    ensures i < length
  {
    if hash < length then hash else Bucket(hash - length, length)
  }

  // The chain of bucket i, of n, holds nodes that hash there, each once.
  ghost predicate ChainOk(chain: seq<Node>, i: nat, n: nat) {
    && n > 0 && (forall x | x in chain :: Bucket(x.hash, n) == i)
    && forall j, k | 0 <= j < k < |chain| :: chain[j] != chain[k]
  }

  ghost predicate Chained(list: seq<seq<Node>>) {
    0 < |list| && forall i | 0 <= i < |list| :: ChainOk(list[i], i, |list|)
  }

  ghost predicate Holds(list: seq<seq<Node>>, n: Node)
    requires 0 < |list|
  {
    n in list[Bucket(n.hash, |list|)]
  }

  ghost predicate Listed(list: seq<seq<Node>>, nodes: set<Node>)
    requires 0 < |list|
  {
    forall n :: n in nodes <==> Holds(list, n)
  }

  ghost predicate KeysDistinct(nodes: set<Node>) {
    forall a, b | a in nodes && b in nodes && a.key == b.key :: a == b
  }

  ghost predicate TableOk(list: seq<seq<Node>>, nodes: set<Node>) {
    Chained(list) && Listed(list, nodes) && KeysDistinct(nodes)
  }

  // ---- links ----

  // Each node's next_hash.
  type NextHash = map<Node, Option<Node>>

  /** An LRUHandle**: a bucket, or a node's next_hash. */
  datatype Slot = Head(i: nat) | After(n: Node)

  /** What points to place p of a chain points to the node there, or nowhere. */
  ghost predicate Pointed(head: Option<Node>, next: NextHash, chain: seq<Node>, p: nat)
    requires p <= |chain|
  {
    && (p > 0 ==> chain[p - 1] in next)
    && (if p == 0 then head else next[chain[p - 1]]) == if p < |chain| then Some(chain[p]) else None
  }

  ghost predicate Runs(head: Option<Node>, next: NextHash, chain: seq<Node>) {
    forall p | 0 <= p <= |chain| :: Pointed(head, next, chain, p)
  }

  /** The links run through the chains. */
  ghost predicate Threaded(heads: seq<Option<Node>>, next: NextHash, list: seq<seq<Node>>) {
    |heads| == |list| && forall i | 0 <= i < |list| :: RunsAt(heads, next, list, i)
  }

  ghost predicate RunsAt(heads: seq<Option<Node>>, next: NextHash, list: seq<seq<Node>>, i: nat)
    requires i < |list| == |heads|
  {
    Runs(heads[i], next, list[i])
  }

  function SlotAt(i: nat, chain: seq<Node>, p: nat): Slot
    requires p <= |chain|
  {
    if p == 0 then Head(i) else After(chain[p - 1])
  }

  lemma SameRuns(head: Option<Node>, next: NextHash, next': NextHash, chain: seq<Node>)
    requires Runs(head, next, chain)
    requires forall x | x in chain && x in next :: x in next' && next'[x] == next[x]
    ensures Runs(head, next', chain)
  {
    forall p | 0 <= p <= |chain| ensures Pointed(head, next', chain, p) {
      assert Pointed(head, next, chain, p);
      assert p > 0 ==> chain[p - 1] in chain;
    }
  }

  // Nodes of different buckets differ.
  lemma OtherBucket(list: seq<seq<Node>>, i: nat, j: nat, x: Node)
    requires Chained(list) && i < |list| && j < |list| && i != j && x in list[i]
    ensures x !in list[j]
  {
    assert ChainOk(list[i], i, |list|) && ChainOk(list[j], j, |list|);
  }

  lemma NotInChains(list: seq<seq<Node>>, nodes: set<Node>, h: Node)
    requires Chained(list) && Listed(list, nodes) && h !in nodes
    ensures forall j | 0 <= j < |list| :: h !in list[j]
  {
    forall j | 0 <= j < |list| ensures h !in list[j] {
      assert ChainOk(list[j], j, |list|) && !Holds(list, h);
    }
  }

  /** New links for one bucket leave the others alone. */
  lemma RelinkOne(heads: seq<Option<Node>>, next: NextHash, list: seq<seq<Node>>, i: nat, head: Option<Node>,
    next': NextHash, chain: seq<Node>)
    requires Threaded(heads, next, list) && i < |list| && Runs(head, next', chain)
    requires forall j, x | 0 <= j < |list| && j != i && x in list[j] && x in next :: x in next' && next'[x] == next[x]
    ensures Threaded(heads[i := head], next', list[i := chain])
  {
    var heads', list' := heads[i := head], list[i := chain];
    forall j | 0 <= j < |list| ensures RunsAt(heads', next', list', j) {
      assert RunsAt(heads, next, list, j);
      if j != i {
        SameRuns(heads[j], next, next', list[j]);
      }
    }
  }

  // The head and the links once the slot of place p is set to v.
  function HeadWith(head: Option<Node>, p: nat, v: Option<Node>): Option<Node> {
    if p == 0 then v else head
  }

  function NextWith(next: NextHash, chain: seq<Node>, p: nat, v: Option<Node>): NextHash
    requires p <= |chain|
  {
    if p == 0 then next else next[chain[p - 1] := v]
  }

  ghost predicate Once(chain: seq<Node>) {
    forall j, k | 0 <= j < k < |chain| :: chain[j] != chain[k]
  }

  /** h takes the place of the p-th node, or joins at the end. */
  function Joining(chain: seq<Node>, p: nat, h: Node): seq<Node>
    requires p <= |chain|
  {
    if p < |chain| then chain[p := h] else chain + [h]
  }

  lemma JoinRuns(head: Option<Node>, next: NextHash, chain: seq<Node>, p: nat, h: Node)
    requires Runs(head, next, chain) && Once(chain) && p <= |chain| && h !in chain
    requires p < |chain| ==> chain[p] in next
    ensures var n := next[h := if p < |chain| then next[chain[p]] else None];
      Runs(HeadWith(head, p, Some(h)), NextWith(n, chain, p, Some(h)), Joining(chain, p, h))
  {
    var n := next[h := if p < |chain| then next[chain[p]] else None];
    var head', next', chain' := HeadWith(head, p, Some(h)), NextWith(n, chain, p, Some(h)), Joining(chain, p, h);
    forall q | 0 <= q <= |chain'| ensures Pointed(head', next', chain', q) {
      if q <= |chain| {
        assert Pointed(head, next, chain, q);
      }
      if q > 0 && q - 1 != p {
        assert chain'[q - 1] == chain[q - 1] && chain[q - 1] in chain;
      }
    }
  }

  lemma LeaveRuns(head: Option<Node>, next: NextHash, chain: seq<Node>, p: nat)
    requires Runs(head, next, chain) && Once(chain) && p < |chain| && chain[p] in next
    ensures Runs(HeadWith(head, p, next[chain[p]]), NextWith(next, chain, p, next[chain[p]]),
      chain[..p] + chain[p + 1..])
  {
    var v := next[chain[p]];
    var head', next', chain' := HeadWith(head, p, v), NextWith(next, chain, p, v), chain[..p] + chain[p + 1..];
    assert Pointed(head, next, chain, p + 1);
    forall q | 0 <= q <= |chain'| ensures Pointed(head', next', chain', q) {
      assert Pointed(head, next, chain, q) && Pointed(head, next, chain, q + 1);
    }
  }

  lemma PushRuns(head: Option<Node>, next: NextHash, chain: seq<Node>, h: Node)
    requires Runs(head, next, chain) && h !in chain
    ensures Runs(Some(h), next[h := head], [h] + chain)
  {
    var next', chain' := next[h := head], [h] + chain;
    forall q | 0 <= q <= |chain'| ensures Pointed(Some(h), next', chain', q) {
      if q > 0 {
        assert Pointed(head, next, chain, q - 1);
        assert q > 1 ==> chain'[q - 1] == chain[q - 2] && chain[q - 2] in chain;
      }
    }
  }

  class HandleTable {
    var length: nat
    var elems: nat
    var heads: seq<Option<Node>>
    var nextHash: NextHash
    // The chains as the links run, and all the nodes.
    ghost var list: seq<seq<Node>>
    ghost var nodes: set<Node>

    ghost predicate Valid()
      reads this
    {
      && length == |list| && PowerOfTwo(length) && length >= 4 && elems == |nodes|
      && TableOk(list, nodes) && Threaded(heads, nextHash, list)
    }

    constructor ()
      ensures Valid() && nodes == {}
    {
      length, elems, heads, nextHash := 4, 0, [None, None, None, None], map[];
      list, nodes := [[], [], [], []], {};
    }

    // Keys determine their hashes.
    ghost predicate Agrees(key: Key, hash: nat)
      reads this
    {
      forall n | n in nodes && n.key == key :: n.hash == hash
    }

    predicate IsSlot(ptr: Slot)
      reads this`heads, this`nextHash
    {
      match ptr
      case Head(i) => i < |heads|
      case After(n) => n in nextHash
    }

    // *ptr
    function Deref(ptr: Slot): Option<Node>
      requires IsSlot(ptr)
      reads this`heads, this`nextHash
    {
      match ptr
      case Head(i) => heads[i]
      case After(n) => nextHash[n]
    }

    // *ptr = v
    method Assign(ptr: Slot, v: Option<Node>)
      requires IsSlot(ptr)
      modifies this`heads, this`nextHash
      ensures heads == if ptr.Head? then old(heads)[ptr.i := v] else old(heads)
      ensures nextHash == if ptr.After? then old(nextHash)[ptr.n := v] else old(nextHash)
    {
      match ptr
      case Head(i) => heads := heads[i := v];
      case After(n) => nextHash := nextHash[n := v];
    }

    // ptr is the slot of place p in bucket i's chain.
    ghost predicate Stands(ptr: Slot, i: nat, p: nat)
      reads this
    {
      && i < |list| == |heads| && p <= |list[i]| && ptr == SlotAt(i, list[i], p) && IsSlot(ptr)
      && Deref(ptr) == if p < |list[i]| then Some(list[i][p]) else None
    }

    lemma StandsAt(i: nat, p: nat)
      requires Threaded(heads, nextHash, list) && i < |list| && p <= |list[i]|
      ensures Stands(SlotAt(i, list[i], p), i, p)
      ensures p < |list[i]| ==> list[i][p] in nextHash
    {
      assert RunsAt(heads, nextHash, list, i) && Pointed(heads[i], nextHash, list[i], p);
      if p < |list[i]| {
        assert Pointed(heads[i], nextHash, list[i], p + 1);
      }
    }

    /** The slot that points to the key's node, or the one at the end of its
        chain. */
    method FindPointer(key: Key, hash: nat) returns (ptr: Slot, ghost p: nat)
      requires Valid()
      ensures IsSlot(ptr) && match Deref(ptr)
        case Some(n) => n in nodes && n.key == key && n.hash == hash
        case None => forall n | n in nodes :: n.key != key || n.hash != hash
      ensures Stands(ptr, Bucket(hash, length), p)
      ensures var i := Bucket(hash, length);
        && (p < |list[i]| ==> list[i][p].key == key && list[i][p].hash == hash && list[i][p] in nodes)
        && (p == |list[i]| ==> forall n | n in nodes :: n.key != key || n.hash != hash)
    {
      ghost var i := Bucket(hash, length);
      ptr, p := Head(Bucket(hash, length)), 0;
      StandsAt(i, 0);
      while Deref(ptr).Some? && (Deref(ptr).value.hash != hash || key != Deref(ptr).value.key)
        invariant Stands(ptr, i, p)
        invariant forall j | 0 <= j < p :: list[i][j].hash != hash || list[i][j].key != key
        decreases |list[i]| - p
      {
        StandsAt(i, p + 1);
        ptr, p := After(Deref(ptr).value), p + 1;
      }
      if p < |list[i]| {
        assert list[i][p] in list[i] && Holds(list, list[i][p]);
      }
    }

    method Lookup(key: Key, hash: nat) returns (r: Option<Node>)
      requires Valid() && Agrees(key, hash)
      ensures match r case Some(n) => n in nodes && n.key == key case None => forall n | n in nodes :: n.key != key
    {
      var ptr;
      ghost var p;
      ptr, p := FindPointer(key, hash);
      r := Deref(ptr);
    }

    method Insert(h: Node) returns (prior: Option<Node>)
      requires Valid() && Agrees(h.key, h.hash) && h !in nodes
      modifies this
      ensures Valid()
      ensures match prior
        case Some(n) => n in old(nodes) && n.key == h.key && nodes == old(nodes) - {n} + {h}
        case None => (forall n | n in old(nodes) :: n.key != h.key) && nodes == old(nodes) + {h}
      ensures old(elems <= length) ==> elems <= length
    {
      var ptr;
      ghost var p;
      ptr, p := FindPointer(h.key, h.hash);
      ghost var i := Bucket(h.hash, length);
      prior := Deref(ptr);
      if prior.Some? {
        Replace(ptr, h, i, p);
      } else {
        Append(ptr, h, i, p);
        if elems > length {
          Resize();
        }
      }
    }

    method Replace(ptr: Slot, h: Node, ghost i: nat, ghost p: nat)
      requires Valid() && Stands(ptr, i, p) && p < |list[i]| && Bucket(h.hash, length) == i && h !in nodes
      requires list[i][p].key == h.key
      modifies this`heads, this`nextHash, this`list, this`nodes
      ensures Valid() && nodes == old(nodes) - {old(list[i][p])} + {h}
    {
      NotInChains(list, nodes, h);
      ReplaceOk(list, nodes, i, p, h);
      ghost var list', nodes' := list[i := Joining(list[i], p, h)], nodes - {list[i][p]} + {h};
      Link(ptr, h, i, p);
      nodes, list := nodes', list';
    }

    method Append(ptr: Slot, h: Node, ghost i: nat, ghost p: nat)
      requires Valid() && Stands(ptr, i, p) && p == |list[i]| && Bucket(h.hash, length) == i && h !in nodes
      requires forall n | n in nodes :: n.key != h.key
      modifies this`heads, this`nextHash, this`list, this`nodes, this`elems
      ensures Valid() && nodes == old(nodes) + {h}
    {
      NotInChains(list, nodes, h);
      AppendOk(list, nodes, i, h);
      ghost var list', nodes' := list[i := Joining(list[i], p, h)], nodes + {h};
      Link(ptr, h, i, p);
      nodes, list := nodes', list';
      elems := elems + 1;
    }

    /** h->next_hash takes over what the node in the slot points to, and the slot
        points to h. */
    method Link(ptr: Slot, h: Node, ghost i: nat, ghost p: nat)
      requires Chained(list) && Threaded(heads, nextHash, list) && Stands(ptr, i, p)
      requires forall j | 0 <= j < |list| :: h !in list[j]
      modifies this`heads, this`nextHash
      ensures Threaded(heads, nextHash, list[i := Joining(list[i], p, h)])
    {
      StandsAt(i, p);
      assert RunsAt(heads, nextHash, list, i) && ChainOk(list[i], i, |list|);
      JoinRuns(heads[i], nextHash, list[i], p, h);
      ghost var hs, n := heads, nextHash;
      var prior := Deref(ptr);
      nextHash := nextHash[h := if prior.None? then None else nextHash[prior.value]];
      Assign(ptr, Some(h));
      forall j, x | 0 <= j < |list| && j != i && x in list[j] && x in n ensures x in nextHash && nextHash[x] == n[x] {
        if p > 0 {
          OtherBucket(list, j, i, x);
          assert list[i][p - 1] in list[i];
        }
      }
      RelinkOne(hs, n, list, i, HeadWith(hs[i], p, Some(h)), nextHash, Joining(list[i], p, h));
      assert heads == hs[i := HeadWith(hs[i], p, Some(h))];
    }

    method Remove(key: Key, hash: nat) returns (r: Option<Node>)
      requires Valid() && Agrees(key, hash)
      modifies this
      ensures Valid()
      ensures match r
        case Some(n) => n in old(nodes) && n.key == key && nodes == old(nodes) - {n}
        case None => (forall n | n in old(nodes) :: n.key != key) && nodes == old(nodes)
    {
      var ptr;
      ghost var p;
      ptr, p := FindPointer(key, hash);
      ghost var i := Bucket(hash, length);
      r := Deref(ptr);
      if r.Some? {
        Unlink(ptr, r.value, i, p);
        RemoveFromChain(list, i, p);
        list := list[i := list[i][..p] + list[i][p + 1..]];
        elems := elems - 1;
        nodes := nodes - {r.value};
      }
    }

    // *ptr = result->next_hash
    method Unlink(ptr: Slot, result: Node, ghost i: nat, ghost p: nat)
      requires Chained(list) && Threaded(heads, nextHash, list) && Stands(ptr, i, p) && Deref(ptr) == Some(result)
      modifies this`heads, this`nextHash
      ensures Threaded(heads, nextHash, list[i := list[i][..p] + list[i][p + 1..]])
    {
      StandsAt(i, p);
      assert RunsAt(heads, nextHash, list, i) && ChainOk(list[i], i, |list|);
      LeaveRuns(heads[i], nextHash, list[i], p);
      ghost var hs, n := heads, nextHash;
      Assign(ptr, nextHash[result]);
      forall j, x | 0 <= j < |list| && j != i && x in list[j] && x in n ensures x in nextHash && nextHash[x] == n[x] {
        if p > 0 {
          OtherBucket(list, j, i, x);
          assert list[i][p - 1] in list[i];
        }
      }
      RelinkOne(hs, n, list, i, HeadWith(hs[i], p, n[result]), nextHash, list[i][..p] + list[i][p + 1..]);
      assert heads == hs[i := HeadWith(hs[i], p, n[result])];
    }

    /** Rehashing keeps every node; there are then as many buckets as nodes, and no more
        than that takes. */
    method Resize()
      requires Valid()
      modifies this
      ensures Valid() && nodes == old(nodes)
      ensures elems <= length && (length > 4 ==> length / 2 < elems)
    {
      var newLength := 4;
      assert PowerOfTwo(2) && PowerOfTwo(4);
      while newLength < elems
        invariant newLength >= 4 && PowerOfTwo(newLength) && (newLength > 4 ==> newLength / 2 < elems)
        decreases elems - newLength
      {
        assert newLength * 2 % 2 == 0 && newLength * 2 / 2 == newLength;
        newLength := newLength * 2;
      }
      var newHeads: seq<Option<Node>> := seq(newLength, _ => None);
      ghost var newList: seq<seq<Node>> := seq(newLength, _ => []);
      ghost var moved: set<Node> := {};
      forall k | 0 <= k < newLength ensures RunsAt(newHeads, nextHash, newList, k) {}
      for i := 0 to length
        invariant heads == old(heads) && list == old(list) && nodes == old(nodes) && length == old(length)
          && elems == old(elems)
        invariant |newList| == newLength && Rehashed(newHeads, newList, old(nextHash), moved)
        invariant forall n :: n in moved <==> n in nodes && Bucket(n.hash, length) < i
      {
        newHeads, newList, moved := MoveChain(newHeads, newList, i, old(nextHash), moved);
      }
      heads, list, length := newHeads, newList, newLength;
      assert moved == nodes;
    }

    /** The new buckets hold what has been moved; nodes not yet moved keep their
        links. */
    ghost predicate Rehashed(newHeads: seq<Option<Node>>, newList: seq<seq<Node>>, oldNext: NextHash, moved: set<Node>)
      reads this`nextHash, this`nodes
    {
      && 0 < |newList| && Chained(newList) && Threaded(newHeads, nextHash, newList) && Listed(newList, moved)
      && forall x | x in nodes && x !in moved && x in oldNext :: x in nextHash && nextHash[x] == oldNext[x]
    }

    /** Moves the nodes of one old bucket. */
    method MoveChain(newHeads: seq<Option<Node>>, ghost newList: seq<seq<Node>>, i: nat, ghost oldNext: NextHash,
      ghost moved: set<Node>)
      returns (newHeads': seq<Option<Node>>, ghost newList': seq<seq<Node>>, ghost moved': set<Node>)
      requires length == |list| && Chained(list) && Listed(list, nodes) && Threaded(heads, oldNext, list) && i < length
      requires Rehashed(newHeads, newList, oldNext, moved)
      requires forall n :: n in moved <==> n in nodes && Bucket(n.hash, length) < i
      modifies this`nextHash
      ensures Rehashed(newHeads', newList', oldNext, moved') && |newList'| == |newList|
      ensures forall n :: n in moved' <==> n in nodes && Bucket(n.hash, length) < i + 1
    {
      newHeads', newList', moved' := newHeads, newList, moved;
      ghost var j := 0;
      assert RunsAt(heads, oldNext, list, i) && Pointed(heads[i], oldNext, list[i], 0);
      var h := heads[i];
      while h != None
        invariant j <= |list[i]| && h == if j < |list[i]| then Some(list[i][j]) else None
        invariant Rehashed(newHeads', newList', oldNext, moved') && |newList'| == |newList| && MovedTo(moved', i, j)
        decreases |list[i]| - j
      {
        h, newHeads', newList', moved' := MoveNext(newHeads', newList', h.value, i, j, oldNext, moved');
        j := j + 1;
      }
      assert list[i][..|list[i]|] == list[i];
      forall n ensures n in moved' <==> n in nodes && Bucket(n.hash, length) < i + 1 {
        if n in nodes && Bucket(n.hash, length) == i {
          assert Holds(list, n);
        }
      }
    }

    // Moved so far: the buckets before the i-th, and its first j nodes.
    ghost predicate MovedTo(moved: set<Node>, i: nat, j: nat)
      requires length == |list| && i < |list| && j <= |list[i]|
      reads this`nodes, this`length, this`list
    {
      forall n :: n in moved <==> n in nodes && (Bucket(n.hash, length) < i || n in list[i][..j])
    }

    lemma NotYetMoved(moved: set<Node>, i: nat, j: nat)
      requires length == |list| && Chained(list) && Listed(list, nodes) && i < length && j < |list[i]|
      requires MovedTo(moved, i, j)
      ensures list[i][j] in nodes && list[i][j] !in moved && MovedTo(moved + {list[i][j]}, i, j + 1)
    {
      assert ChainOk(list[i], i, length) && list[i][j] in list[i] && Holds(list, list[i][j]);
      assert list[i][..j + 1] == list[i][..j] + [list[i][j]];
    }

    method MoveNext(newHeads: seq<Option<Node>>, ghost newList: seq<seq<Node>>, h: Node, ghost i: nat, ghost j: nat,
      ghost oldNext: NextHash, ghost moved: set<Node>)
      returns (next: Option<Node>, newHeads': seq<Option<Node>>, ghost newList': seq<seq<Node>>,
        ghost moved': set<Node>)
      requires length == |list| && Chained(list) && Listed(list, nodes) && Threaded(heads, oldNext, list) && i < length
      requires j < |list[i]| && h == list[i][j]
      requires Rehashed(newHeads, newList, oldNext, moved) && MovedTo(moved, i, j)
      modifies this`nextHash
      ensures next == if j + 1 < |list[i]| then Some(list[i][j + 1]) else None
      ensures Rehashed(newHeads', newList', oldNext, moved') && |newList'| == |newList| && MovedTo(moved', i, j + 1)
    {
      NotYetMoved(moved, i, j);
      assert RunsAt(heads, oldNext, list, i) && Pointed(heads[i], oldNext, list[i], j + 1);
      next := nextHash[h];
      newHeads', newList' := MoveNode(newHeads, newList, h, oldNext, moved);
      moved' := moved + {h};
    }

    method MoveNode(newHeads: seq<Option<Node>>, ghost newList: seq<seq<Node>>, h: Node, ghost oldNext: NextHash,
      ghost moved: set<Node>)
      returns (newHeads': seq<Option<Node>>, ghost newList': seq<seq<Node>>)
      requires Rehashed(newHeads, newList, oldNext, moved) && h in nodes && h !in moved
      modifies this`nextHash
      ensures Rehashed(newHeads', newList', oldNext, moved + {h}) && |newList'| == |newList|
    {
      var k := Bucket(h.hash, |newHeads|);
      ghost var n := nextHash;
      assert RunsAt(newHeads, nextHash, newList, k);
      NotInChains(newList, moved, h);
      PushRuns(newHeads[k], nextHash, newList[k], h);
      PrependToChain(newList, k, h);
      nextHash := nextHash[h := newHeads[k]];
      RelinkOne(newHeads, n, newList, k, Some(h), nextHash, [h] + newList[k]);
      newHeads', newList' := newHeads[k := Some(h)], newList[k := [h] + newList[k]];
    }
  }

  lemma ReplaceListed(list: seq<seq<Node>>, nodes: set<Node>, i: nat, p: nat, h: Node)
    requires Chained(list) && Listed(list, nodes) && i < |list| && p < |list[i]| && Bucket(h.hash, |list|) == i
      && h !in nodes
    ensures list[i][p] in nodes && Listed(list[i := list[i][p := h]], nodes - {list[i][p]} + {h})
  {
    assert Holds(list, list[i][p]);
    ReplaceInChain(list, i, p, h);
  }

  lemma ReplaceOk(list: seq<seq<Node>>, nodes: set<Node>, i: nat, p: nat, h: Node)
    requires TableOk(list, nodes) && i < |list| && p < |list[i]| && Bucket(h.hash, |list|) == i && h !in nodes
      && list[i][p].key == h.key
    ensures list[i][p] in nodes && TableOk(list[i := list[i][p := h]], nodes - {list[i][p]} + {h})
    ensures |nodes - {list[i][p]} + {h}| == |nodes|
  {
    ReplaceListed(list, nodes, i, p, h);
    ReplaceInChain(list, i, p, h);
    Swapped(nodes, list[i][p], h);
  }

  lemma AppendListed(list: seq<seq<Node>>, nodes: set<Node>, i: nat, h: Node)
    requires Chained(list) && Listed(list, nodes) && i < |list| && Bucket(h.hash, |list|) == i && h !in nodes
    ensures Listed(list[i := list[i] + [h]], nodes + {h})
  {
    AppendToChain(list, i, h);
  }

  lemma AppendOk(list: seq<seq<Node>>, nodes: set<Node>, i: nat, h: Node)
    requires TableOk(list, nodes) && i < |list| && Bucket(h.hash, |list|) == i && forall n | n in nodes ::
      n.key != h.key
    ensures TableOk(list[i := list[i] + [h]], nodes + {h}) && |nodes + {h}| == |nodes| + 1
  {
    AppendListed(list, nodes, i, h);
    AppendToChain(list, i, h);
  }

  // Replacing a node by another with its key keeps keys distinct.
  lemma Swapped(nodes: set<Node>, n: Node, h: Node)
    requires n in nodes && h !in nodes && n.key == h.key
    requires KeysDistinct(nodes)
    ensures var r := nodes - {n} + {h}; |r| == |nodes| && KeysDistinct(r)
  {
    assert |nodes - {n}| == |nodes| - 1;
    assert |nodes - {n} + {h}| == |nodes - {n}| + 1;
  }

  lemma ReplaceInChain(list: seq<seq<Node>>, i: nat, p: nat, h: Node)
    requires Chained(list) && i < |list| && p < |list[i]| && Bucket(h.hash, |list|) == i && !Holds(list, h)
    ensures var r := list[i := list[i][p := h]];
      Chained(r) && forall n :: Holds(r, n) <==> (Holds(list, n) && n != list[i][p]) || n == h
  {
    var chain, r := list[i], list[i := list[i][p := h]];
    forall n ensures n in r[i] <==> (n in chain && n != chain[p]) || n == h {
      if n in chain && n != chain[p] {
        var k :| 0 <= k < |chain| && chain[k] == n;
        assert r[i][k] == n;
      }
      assert r[i][p] == h;
    }
    forall n ensures Holds(r, n) <==> (Holds(list, n) && n != chain[p]) || n == h {
      assert chain[p] in list[i];
    }
  }

  lemma AppendToChain(list: seq<seq<Node>>, i: nat, h: Node)
    requires Chained(list) && i < |list| && Bucket(h.hash, |list|) == i && !Holds(list, h)
    ensures var r := list[i := list[i] + [h]]; Chained(r) && forall n :: Holds(r, n) <==> Holds(list, n) || n == h
  {}

  lemma PrependToChain(list: seq<seq<Node>>, i: nat, h: Node)
    requires Chained(list) && i < |list| && Bucket(h.hash, |list|) == i && !Holds(list, h)
    ensures var r := list[i := [h] + list[i]]; Chained(r) && forall n :: Holds(r, n) <==> Holds(list, n) || n == h
  {}

  lemma RemoveFromChain(list: seq<seq<Node>>, i: nat, p: nat)
    requires Chained(list) && i < |list| && p < |list[i]|
    ensures var r := list[i := list[i][..p] + list[i][p + 1..]];
      Chained(r) && forall n :: Holds(r, n) <==> Holds(list, n) && n != list[i][p]
  {
    var chain, r := list[i], list[i := list[i][..p] + list[i][p + 1..]];
    forall n ensures n in r[i] <==> n in chain && n != chain[p] {
      if n in chain && n != chain[p] {
        var k :| 0 <= k < |chain| && chain[k] == n;
        assert k < p ==> r[i][k] == n;
        assert k > p ==> r[i][k - 1] == n;
      }
    }
    assert chain[p] in list[i];
  }
}
