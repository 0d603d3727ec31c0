/** LRUCache (util/cache.cc). */
module LruCaches {
  import opened Options
  import opened Rings
  import opened HandleTables

  // What an entry is; refs and inCache are kept beside it.
  datatype Handle = Handle(key: Key, hash: nat, value: int, charge: nat)

  /** The entries not yet freed, their reference counts, which of them are in the
      cache, and the ids of those passed to their deleters so far. */
  datatype Book = Book(info: map<nat, Handle>, refs: map<nat, nat>, inCache: set<nat>, usage: nat, deleted: seq<nat>,
    nextId: nat)

  function Minus(s: seq<nat>, e: nat): (r: seq<nat>)
    ensures e !in s ==> r == s
  {
    if s == [] then [] else if s[0] == e then s[1..] else [s[0]] + Minus(s[1..], e)
  }

  lemma DistinctTail(s: seq<nat>)
    requires Distinct(s) && s != []
    ensures Distinct(s[1..])
  {
    forall i, j | 0 <= i < j < |s[1..]| ensures Differ(s[1..], i, j) {
      assert Differ(s, i + 1, j + 1);
    }
  }

  lemma {:induction false} MinusAt(s: seq<nat>, i: nat)
    requires Distinct(s) && i < |s|
    ensures Minus(s, s[i]) == Without(s, i)
  {
    if i > 0 {
      Apart(s, 0, i);
      DistinctTail(s);
      MinusAt(s[1..], i - 1);
      assert [s[0]] + Without(s[1..], i - 1) == Without(s, i);
    }
  }

  lemma MinusMembers(s: seq<nat>, e: nat)
    requires Distinct(s)
    ensures Distinct(Minus(s, e)) && forall x :: x in Minus(s, e) <==> x in s && x != e
  {
    if e in s {
      var i :| 0 <= i < |s| && s[i] == e;
      MinusAt(s, i);
      DistinctWithout(s, i);
    }
  }

  function ChargeOf(info: map<nat, Handle>, e: nat): nat {
    if e in info then info[e].charge else 0
  }

  ghost function Sum(f: nat -> nat, s: seq<nat>): nat {
    if s == [] then 0 else f(s[0]) + Sum(f, s[1..])
  }

  ghost function Charge(info: map<nat, Handle>, s: seq<nat>): nat {
    Sum((e: nat) => ChargeOf(info, e), s)
  }

  lemma {:induction false} SumAgrees(f: nat -> nat, g: nat -> nat, s: seq<nat>)
    requires forall x | x in s :: f(x) == g(x)
    ensures Sum(f, s) == Sum(g, s)
  {
    if s != [] {
      SumAgrees(f, g, s[1..]);
    }
  }

  lemma {:induction false} SumMore(f: nat -> nat, s: seq<nat>, e: nat)
    ensures Sum(f, s + [e]) == Sum(f, s) + f(e)
  {
    if s == [] {
      assert s + [e] == [e] && [e][1..] == [];
    } else {
      assert (s + [e])[1..] == s[1..] + [e];
      SumMore(f, s[1..], e);
    }
  }

  lemma {:induction false} SumLess(f: nat -> nat, s: seq<nat>, e: nat)
    requires e in s && Distinct(s)
    ensures Sum(f, Minus(s, e)) == Sum(f, s) - f(e)
  {
    MinusMembers(s, e);
    if s[0] != e {
      DistinctTail(s);
      SumLess(f, s[1..], e);
      assert ([s[0]] + Minus(s[1..], e))[1..] == Minus(s[1..], e);
    }
  }

  lemma ChargeAgrees(a: map<nat, Handle>, b: map<nat, Handle>, s: seq<nat>)
    requires forall x | x in s :: ChargeOf(a, x) == ChargeOf(b, x)
    ensures Charge(a, s) == Charge(b, s)
  {
    SumAgrees((e: nat) => ChargeOf(a, e), (e: nat) => ChargeOf(b, e), s);
  }

  lemma ChargeMore(info: map<nat, Handle>, s: seq<nat>, e: nat)
    ensures Charge(info, s + [e]) == Charge(info, s) + ChargeOf(info, e)
  {
    SumMore((x: nat) => ChargeOf(info, x), s, e);
  }

  lemma ChargeLess(info: map<nat, Handle>, s: seq<nat>, e: nat)
    requires e in s && Distinct(s)
    ensures Charge(info, Minus(s, e)) == Charge(info, s) - ChargeOf(info, e)
  {
    SumLess((x: nat) => ChargeOf(info, x), s, e);
  }

  // ---- when the books are in order ----

  ghost predicate Listed(b: Book, lru: seq<nat>, inUse: seq<nat>) {
    && Distinct(lru) && Distinct(inUse) && (forall x | x in lru :: x !in inUse)
    && (forall x :: x in b.inCache <==> x in lru || x in inUse)
    && (forall x | x in b.inCache :: x in b.refs && (x in lru <==> b.refs[x] == 1))
  }

  /** An entry that was ever made is either counted or was passed to its deleter,
      once; never both. */
  ghost predicate Counted(b: Book) {
    && b.info.Keys == b.refs.Keys
    && (forall x: nat | x < b.nextId :: x in b.refs || x in b.deleted)
    && (forall x | x in b.refs :: 0 < b.refs[x] && x < b.nextId)
    && Distinct(b.deleted) && forall x | x in b.deleted :: x < b.nextId && x !in b.refs
  }

  ghost predicate Keyed(b: Book, hashOf: Key -> nat) {
    && (forall x | x in b.info :: b.info[x].hash == hashOf(b.info[x].key))
    && forall x, y | x in b.inCache && y in b.inCache && x in b.info && y in b.info && b.info[x].key == b.info[y].key ::
      x == y
  }

  // Keys are distinct in the cache, leaving e aside.
  ghost predicate KeyedBut(b: Book, e: nat, hashOf: Key -> nat) {
    && (forall x | x in b.info :: b.info[x].hash == hashOf(b.info[x].key))
    && forall x, y | x in b.inCache && y in b.inCache && x != e && y != e && x in b.info && y in b.info
      && b.info[x].key == b.info[y].key :: x == y
  }

  ghost predicate BookOkBut(b: Book, lru: seq<nat>, inUse: seq<nat>, e: nat, hashOf: Key -> nat) {
    Listed(b, lru, inUse) && Counted(b) && KeyedBut(b, e, hashOf) && Charged(b, lru, inUse)
  }

  ghost predicate Charged(b: Book, lru: seq<nat>, inUse: seq<nat>) {
    b.usage == Charge(b.info, lru) + Charge(b.info, inUse)
  }

  ghost predicate BookOk(b: Book, lru: seq<nat>, inUse: seq<nat>, hashOf: Key -> nat) {
    Listed(b, lru, inUse) && Counted(b) && Keyed(b, hashOf) && Charged(b, lru, inUse)
  }

  // References held by clients of the cache.
  function Clients(b: Book, x: nat): int
    requires x in b.refs
  {
    (b.refs[x] as int) - if x in b.inCache then 1 else 0
  }

  // ---- the counters ----

  function WithRef(b: Book, e: nat): Book
    requires e in b.refs
  {
    b.(refs := b.refs[e := b.refs[e] + 1])
  }

  /** One reference less; the last one passes the entry to its deleter. */
  function WithoutRef(b: Book, e: nat): Book
    requires e in b.refs && b.refs[e] > 0
  {
    if b.refs[e] > 1 then b.(refs := b.refs[e := b.refs[e] - 1])
    else b.(refs := b.refs - {e}, info := b.info - {e}, deleted := b.deleted + [e])
  }

  function OutOfCache(b: Book, e: nat): Book
    requires e in b.info && b.info[e].charge <= b.usage
  {
    b.(inCache := b.inCache - {e}, usage := b.usage - b.info[e].charge)
  }

  lemma RefListed(b: Book, lru: seq<nat>, inUse: seq<nat>, e: nat)
    requires Listed(b, lru, inUse) && e in b.refs && e in lru
    ensures Listed(WithRef(b, e), Minus(lru, e), inUse + [e])
  {
    MinusMembers(lru, e);
    DistinctMore(inUse, e);
  }

  lemma RefCharged(b: Book, lru: seq<nat>, inUse: seq<nat>, e: nat)
    requires Charged(b, lru, inUse) && e in b.refs && e in lru && Distinct(lru)
    ensures Charged(WithRef(b, e), Minus(lru, e), inUse + [e])
  {
    ChargeLess(b.info, lru, e);
    ChargeMore(b.info, inUse, e);
  }

  lemma RefElsewhere(b: Book, lru: seq<nat>, inUse: seq<nat>, e: nat)
    requires Listed(b, lru, inUse) && Charged(b, lru, inUse) && e in b.refs && e !in lru && b.refs[e] > 0
    ensures Listed(WithRef(b, e), lru, inUse) && Charged(WithRef(b, e), lru, inUse)
  {}

  lemma RefCounted(b: Book, e: nat, hashOf: Key -> nat)
    requires Counted(b) && Keyed(b, hashOf) && e in b.refs
    ensures Counted(WithRef(b, e)) && Keyed(WithRef(b, e), hashOf)
  {}

  /** A client's reference takes an entry off the LRU list. */
  lemma RefBook(b: Book, lru: seq<nat>, inUse: seq<nat>, e: nat, hashOf: Key -> nat)
    requires BookOk(b, lru, inUse, hashOf) && e in b.refs
    ensures if e in lru then BookOk(WithRef(b, e), Minus(lru, e), inUse + [e], hashOf)
      else BookOk(WithRef(b, e), lru, inUse, hashOf)
  {
    RefCounted(b, e, hashOf);
    if e in lru {
      RefListed(b, lru, inUse, e);
      RefCharged(b, lru, inUse, e);
    } else {
      RefElsewhere(b, lru, inUse, e);
    }
  }

  /** Releasing a client's reference. */
  lemma UnrefBook(b: Book, lru: seq<nat>, inUse: seq<nat>, e: nat, hashOf: Key -> nat)
    requires BookOk(b, lru, inUse, hashOf) && e in b.refs && Clients(b, e) > 0
    ensures if e in b.inCache && b.refs[e] == 2 then BookOk(WithoutRef(b, e), lru + [e], Minus(inUse, e), hashOf)
      else BookOk(WithoutRef(b, e), lru, inUse, hashOf)
  {
    if e in b.inCache && b.refs[e] == 2 {
      MinusMembers(inUse, e);
      DistinctMore(lru, e);
      ChargeLess(b.info, inUse, e);
      ChargeMore(b.info, lru, e);
    } else if b.refs[e] == 1 {
      DistinctMore(b.deleted, e);
      ChargeAgrees(b.info, b.info - {e}, lru);
      ChargeAgrees(b.info, b.info - {e}, inUse);
    }
  }

  /** FinishErase: out of its list and out of the cache, then one reference
      less. */
  lemma EraseBook(b: Book, lru: seq<nat>, inUse: seq<nat>, e: nat, hashOf: Key -> nat)
    requires BookOkBut(b, lru, inUse, e, hashOf) && e in b.inCache
    ensures b.info[e].charge <= b.usage
    ensures BookOk(WithoutRef(OutOfCache(b, e), e), Minus(lru, e), Minus(inUse, e), hashOf)
  {
    MinusMembers(lru, e);
    MinusMembers(inUse, e);
    if e in lru {
      ChargeLess(b.info, lru, e);
    } else {
      ChargeLess(b.info, inUse, e);
    }
    EraseCharges(b, Minus(lru, e), Minus(inUse, e), e);
    DistinctMore(b.deleted, e);
  }

  lemma EraseCharges(b: Book, lru: seq<nat>, inUse: seq<nat>, e: nat)
    requires Counted(b) && e in b.refs && b.info[e].charge <= b.usage && e !in lru && e !in inUse
    requires b.usage - b.info[e].charge == Charge(b.info, lru) + Charge(b.info, inUse)
    ensures Charged(WithoutRef(OutOfCache(b, e), e), lru, inUse)
  {
    ChargeAgrees(b.info, b.info - {e}, lru);
    ChargeAgrees(b.info, b.info - {e}, inUse);
  }

  // ---- one shard ----

  function Items(s: seq<nat>): seq<Link> {
    seq(|s|, i requires 0 <= i < |s| => Item(s[i]))
  }

  /** Both lists, as the links run. */
  ghost predicate RingsOk(k: Links, lru: seq<nat>, inUse: seq<nat>) {
    Ring(k, [Lru] + Items(lru)) && Ring(k, [InUse] + Items(inUse))
  }

  lemma ItemAt(s: seq<nat>, head: Link, e: nat) returns (i: nat)
    requires e in s && Distinct(s)
    ensures 1 <= i < |[head] + Items(s)| && ([head] + Items(s))[i] == Item(e)
    ensures Without([head] + Items(s), i) == [head] + Items(Minus(s, e))
  {
    var j :| 0 <= j < |s| && s[j] == e;
    MinusAt(s, j);
    i := j + 1;
  }

  lemma RingsApart(lru: seq<nat>, inUse: seq<nat>)
    requires forall x | x in lru :: x !in inUse
    ensures forall a, b | a in [Lru] + Items(lru) && b in [InUse] + Items(inUse) :: a != b
  {
    OnRing(Lru, lru);
    OnRing(InUse, inUse);
  }

  lemma OnRing(head: Link, s: seq<nat>)
    ensures forall a | a in [head] + Items(s) :: a == head || (a.Item? && a.id in s)
  {
    forall a | a in [head] + Items(s) ensures a == head || (a.Item? && a.id in s) {
      if a != head {
        var i :| 0 <= i < |Items(s)| && Items(s)[i] == a;
        assert a == Item(s[i]);
      }
    }
  }

  lemma UnlinkRings(k: Links, lru: seq<nat>, inUse: seq<nat>, e: nat)
    requires RingsOk(k, lru, inUse) && Distinct(lru) && Distinct(inUse) && (forall x | x in lru :: x !in inUse)
    requires e in lru || e in inUse
    ensures Item(e) in k.next && Item(e) in k.prev && RingsOk(Unlinked(k, Item(e)), Minus(lru, e), Minus(inUse, e))
  {
    RingsApart(lru, inUse);
    if e in lru {
      var i := ItemAt(lru, Lru, e);
      UnlinkRing(k, [Lru] + Items(lru), i);
      UnlinkOther(k, [Lru] + Items(lru), i, [InUse] + Items(inUse));
    } else {
      var i := ItemAt(inUse, InUse, e);
      UnlinkRing(k, [InUse] + Items(inUse), i);
      UnlinkOther(k, [InUse] + Items(inUse), i, [Lru] + Items(lru));
    }
  }

  lemma LinkRings(k: Links, lru: seq<nat>, inUse: seq<nat>, e: nat, toLru: bool)
    requires RingsOk(k, lru, inUse) && (forall x | x in lru :: x !in inUse) && e !in lru && e !in inUse
    ensures var head := if toLru then Lru else InUse;
      head in k.prev && RingsOk(Linked(k, head, Item(e)), if toLru then lru + [e] else lru,
        if toLru then inUse else inUse + [e])
  {
    RingsApart(lru, inUse);
    var a, b := [Lru] + Items(lru), [InUse] + Items(inUse);
    if toLru {
      LinkRing(k, a, Item(e));
      LinkOther(k, a, Item(e), b);
      assert [Lru] + Items(lru + [e]) == a + [Item(e)];
    } else {
      LinkRing(k, b, Item(e));
      LinkOther(k, b, Item(e), a);
      assert [InUse] + Items(inUse + [e]) == b + [Item(e)];
    }
  }

  /** The table's nodes are the cached entries. */
  ghost predicate TableMatches(b: Book, nodes: set<Node>) {
    && (forall n | n in nodes ::
      n.id in b.inCache && n.id in b.info && n == Node(n.id, b.info[n.id].key, b.info[n.id].hash))
    && forall x | x in b.inCache && x in b.info :: Node(x, b.info[x].key, b.info[x].hash) in nodes
  }

  lemma TableStays(b: Book, b': Book, nodes: set<Node>)
    requires TableMatches(b, nodes) && b'.inCache == b.inCache
    requires forall x | x in b.inCache :: x in b.info && x in b'.info && b'.info[x] == b.info[x]
    ensures TableMatches(b', nodes)
  {}

  /** The table has every cached entry but e. */
  ghost predicate TableLacks(b: Book, nodes: set<Node>, e: nat) {
    && (forall n | n in nodes ::
      n.id in b.inCache && n.id != e && n.id in b.info && n == Node(n.id, b.info[n.id].key, b.info[n.id].hash))
    && forall x | x in b.inCache && x != e && x in b.info :: Node(x, b.info[x].key, b.info[x].hash) in nodes
  }

  lemma EraseShard(b: Book, k: Links, lru: seq<nat>, inUse: seq<nat>, nodes: set<Node>, hashOf: Key -> nat, e: nat)
    requires BookOkBut(b, lru, inUse, e, hashOf) && RingsOk(k, lru, inUse) && e in b.inCache && TableLacks(b, nodes, e)
    ensures ListsOk(lru, inUse) && (e in lru || e in inUse)
    ensures e in b.refs && e in b.info && b.refs[e] > 0 && b.info[e].charge <= b.usage
    ensures var b' := WithoutRef(OutOfCache(b, e), e);
      BookOk(b', Minus(lru, e), Minus(inUse, e), hashOf) && TableMatches(b', nodes)
  {
    EraseBook(b, lru, inUse, e, hashOf);
  }

  /** A new entry in the cache, with a reference for the cache and one for the
      client. */
  function Added(b: Book, h: Handle): Book {
    b.(info := b.info[b.nextId := h], refs := b.refs[b.nextId := 2], inCache := b.inCache + {b.nextId},
       usage := b.usage + h.charge, nextId := b.nextId + 1)
  }

  // A new entry that only the client refers to.
  function Uncached(b: Book, h: Handle): Book {
    b.(info := b.info[b.nextId := h], refs := b.refs[b.nextId := 1], nextId := b.nextId + 1)
  }

  lemma NewId(b: Book, lru: seq<nat>, inUse: seq<nat>)
    requires Listed(b, lru, inUse) && Counted(b)
    ensures b.nextId !in b.refs && b.nextId !in b.info && b.nextId !in b.inCache && b.nextId !in lru
      && b.nextId !in inUse && b.nextId !in b.deleted
  {}

  lemma AddListed(b: Book, lru: seq<nat>, inUse: seq<nat>, h: Handle)
    requires Listed(b, lru, inUse) && Counted(b) && Charged(b, lru, inUse)
    ensures Listed(Added(b, h), lru, inUse + [b.nextId]) && Counted(Added(b, h))
      && Charged(Added(b, h), lru, inUse + [b.nextId])
  {
    NewId(b, lru, inUse);
    DistinctMore(inUse, b.nextId);
    var info := Added(b, h).info;
    ChargeAgrees(b.info, info, lru);
    ChargeAgrees(b.info, info, inUse);
    ChargeMore(info, inUse, b.nextId);
  }

  lemma AddKeyed(b: Book, h: Handle, hashOf: Key -> nat)
    requires Keyed(b, hashOf) && b.nextId !in b.info && b.nextId !in b.inCache && h.hash == hashOf(h.key)
    ensures (forall x | x in b.inCache && x in b.info :: b.info[x].key != h.key) ==> Keyed(Added(b, h), hashOf)
    ensures forall e | e in b.inCache && e in b.info && b.info[e].key == h.key :: KeyedBut(Added(b, h), e, hashOf)
  {}

  lemma UncachedBook(b: Book, lru: seq<nat>, inUse: seq<nat>, h: Handle, nodes: set<Node>, hashOf: Key -> nat)
    requires BookOk(b, lru, inUse, hashOf) && TableMatches(b, nodes) && h.hash == hashOf(h.key)
    ensures BookOk(Uncached(b, h), lru, inUse, hashOf) && TableMatches(Uncached(b, h), nodes)
  {
    NewId(b, lru, inUse);
    ChargeAgrees(b.info, Uncached(b, h).info, lru);
    ChargeAgrees(b.info, Uncached(b, h).info, inUse);
  }

  lemma AddHeld(b: Book, h: Handle)
    requires b.nextId !in b.refs
    ensures HeldStay(b, Added(b, h))
  {}

  lemma TableAdds(b: Book, h: Handle, nodes: set<Node>, prior: Option<Node>)
    requires TableMatches(b, nodes) && b.nextId !in b.inCache && b.nextId !in b.info
    requires match prior
      case None => true
      case Some(n) => n in nodes && n.key == h.key
    ensures var nodes' :=
      (match prior case None => nodes case Some(n) => nodes - {n}) + {Node(b.nextId, h.key, h.hash)};
      match prior
      case None => TableMatches(Added(b, h), nodes')
      case Some(n) => TableLacks(Added(b, h), nodes', n.id)
  {}

  lemma NewNode(b: Book, nodes: set<Node>, hashOf: Key -> nat, key: Key)
    requires TableMatches(b, nodes) && Keyed(b, hashOf) && b.nextId !in b.inCache
    ensures (forall n | n in nodes && n.key == key :: n.hash == hashOf(key))
      && Node(b.nextId, key, hashOf(key)) !in nodes
  {}

  /** With the new entry in the books, the list and the table, all agrees, but
      for the entry it replaces. */
  lemma JoinShard(b: Book, k: Links, lru: seq<nat>, inUse: seq<nat>, nodes: set<Node>, hashOf: Key -> nat, e: Handle,
    prior: Option<Node>)
    requires BookOk(b, lru, inUse, hashOf) && TableMatches(b, nodes) && RingsOk(k, lru, inUse + [b.nextId])
      && e.hash == hashOf(e.key)
    requires match prior
      case None => forall n | n in nodes :: n.key != e.key
      case Some(n) => n in nodes && n.key == e.key
    ensures var nodes' :=
      (match prior case None => nodes case Some(n) => nodes - {n}) + {Node(b.nextId, e.key, e.hash)};
      match prior
      case None => ShardOk(Added(b, e), k, lru, inUse + [b.nextId], nodes', hashOf)
      case Some(n) =>
        && n.id in b.inCache && n.id != b.nextId && BookOkBut(Added(b, e), lru, inUse + [b.nextId], n.id, hashOf)
        && TableLacks(Added(b, e), nodes', n.id)
  {
    NewId(b, lru, inUse);
    AddListed(b, lru, inUse, e);
    AddKeyed(b, e, hashOf);
    TableAdds(b, e, nodes, prior);
    if prior.None? {
      forall x | x in b.inCache && x in b.info ensures b.info[x].key != e.key {
        assert Node(x, b.info[x].key, b.info[x].hash) in nodes;
      }
    }
  }

  lemma FirstOnLru(k: Links, lru: seq<nat>, inUse: seq<nat>)
    requires RingsOk(k, lru, inUse)
    ensures Lru in k.next && k.next[Lru] == if lru == [] then Lru else Item(lru[0])
  {
    assert Joined(k, [Lru] + Items(lru), 0);
  }

  lemma MinusFirst(s: seq<nat>)
    requires s != []
    ensures Minus(s, s[0]) == s[1..]
  {}

  // What clients hold stays as it is.
  ghost predicate Stays(b: Book, b': Book, x: nat) {
    x in b.refs && x in b.info && Clients(b, x) > 0 ==>
      x in b'.refs && x in b'.info && Clients(b', x) == Clients(b, x) && b'.info[x] == b.info[x]
  }

  ghost predicate HeldStay(b: Book, b': Book) {
    forall x :: Stays(b, b', x)
  }

  lemma HeldTrans(a: Book, b: Book, c: Book)
    requires HeldStay(a, b) && HeldStay(b, c)
    ensures HeldStay(a, c)
  {
    forall x ensures Stays(a, c, x) {
      assert Stays(a, b, x) && Stays(b, c, x);
    }
  }

  lemma Evicted(lru0: seq<nat>, gone: seq<nat>, lru: seq<nat>)
    requires lru != [] && gone + lru == lru0
    ensures (gone + [lru[0]]) + lru[1..] == lru0
  {}

  lemma EraseHeld(b: Book, e: nat)
    requires e in b.inCache && e in b.refs && e in b.info && b.refs[e] > 0 && b.info[e].charge <= b.usage
    ensures HeldStay(b, WithoutRef(OutOfCache(b, e), e))
  {}

  // ---- eviction ----

  // What became of entry x.
  ghost predicate EvictedAt(b0: Book, gone: seq<nat>, b: Book, x: nat) {
    && b.usage + Charge(b0.info, gone) == b0.usage && b.deleted == b0.deleted + gone && b.nextId == b0.nextId
    && (x in b.inCache <==> x in b0.inCache && x !in gone)
    && (x in b.info <==> x in b0.info && x !in gone) && (x in b.info ==> b.info[x] == b0.info[x])
    && (x in b.refs <==> x in b0.refs && x !in gone) && (x in b.refs ==> b.refs[x] == b0.refs[x])
  }

  /** b is b0 without the entries that are gone: they were passed to their deleters
      in this order, and nothing else has changed. */
  ghost predicate EvictedSo(b0: Book, gone: seq<nat>, b: Book) {
    forall x :: EvictedAt(b0, gone, b, x)
  }

  lemma NoneEvicted(b: Book)
    ensures EvictedSo(b, [], b)
  {
    assert b.deleted + [] == b.deleted;
  }

  lemma OneEvicted(b0: Book, gone: seq<nat>, b: Book, e: nat)
    requires EvictedSo(b0, gone, b) && e in b.info && b.info[e].charge <= b.usage && e in b.refs && b.refs[e] == 1
    ensures EvictedSo(b0, gone + [e], WithoutRef(OutOfCache(b, e), e))
  {
    assert EvictedAt(b0, gone, b, e);
    ChargeMore(b0.info, gone, e);
    assert b.deleted + [e] == b0.deleted + (gone + [e]);
    forall x ensures EvictedAt(b0, gone + [e], WithoutRef(OutOfCache(b, e), e), x) {
      assert EvictedAt(b0, gone, b, x);
    }
  }

  /** Without entry m of those gone, and the later ones, the charges did not fit. */
  ghost predicate NeededAt(b0: Book, gone: seq<nat>, capacity: nat, m: int) {
    0 <= m < |gone| ==> b0.usage > capacity + Charge(b0.info, gone[..m])
  }

  ghost predicate Needed(b0: Book, gone: seq<nat>, capacity: nat) {
    forall m :: NeededAt(b0, gone, capacity, m)
  }

  lemma OneNeeded(b0: Book, gone: seq<nat>, capacity: nat, b: Book, e: nat)
    requires Needed(b0, gone, capacity) && EvictedSo(b0, gone, b) && b.usage > capacity
    ensures Needed(b0, gone + [e], capacity)
  {
    var more := gone + [e];
    assert EvictedAt(b0, gone, b, e);
    forall m ensures NeededAt(b0, more, capacity, m) {
      assert NeededAt(b0, gone, capacity, m);
      if 0 <= m < |more| {
        assert more[..m] == gone[..m];
        assert gone[..|gone|] == gone;
      }
    }
  }

  /** Nothing goes when all fits. */
  lemma FitsKeepsAll(b0: Book, gone: seq<nat>, capacity: nat)
    requires Needed(b0, gone, capacity) && b0.usage <= capacity
    ensures gone == []
  {
    assert NeededAt(b0, gone, capacity, 0);
  }

  // Entry x is in the cache under the key ...
  ghost predicate Has(b: Book, x: nat, key: Key) {
    x in b.inCache && x in b.info && b.info[x].key == key
  }

  // ... or no entry is.
  ghost predicate Lacks(b: Book, key: Key) {
    forall x :: !Has(b, x, key)
  }

  /** The books with the new entry in, and without the one it replaces. */
  ghost predicate Inserted(b0: Book, h: Handle, replaced: Option<nat>, b: Book) {
    var with := Added(b0, h);
    match replaced
    case None => b == with && Lacks(b0, h.key)
    case Some(x) =>
      && Has(b0, x, h.key) && x in b0.refs && b0.refs[x] > 0 && x != b0.nextId
      && with.info[x].charge <= with.usage && b == WithoutRef(OutOfCache(with, x), x)
  }

  lemma EmptyRings()
    ensures RingsOk(Links(map[Lru := Lru, InUse := InUse], map[Lru := Lru, InUse := InUse]), [], [])
  {
    assert [Lru] + Items([]) == [Lru] && [InUse] + Items([]) == [InUse];
  }

  ghost predicate ListsOk(lru: seq<nat>, inUse: seq<nat>) {
    Distinct(lru) && Distinct(inUse) && forall x | x in lru :: x !in inUse
  }

  /** Books, links and table of a shard agree. */
  ghost predicate ShardOk(b: Book, k: Links, lru: seq<nat>, inUse: seq<nat>, nodes: set<Node>, hashOf: Key -> nat) {
    BookOk(b, lru, inUse, hashOf) && RingsOk(k, lru, inUse) && TableMatches(b, nodes)
  }

  lemma ShardLists(b: Book, k: Links, lru: seq<nat>, inUse: seq<nat>, nodes: set<Node>, hashOf: Key -> nat)
    requires ShardOk(b, k, lru, inUse, nodes, hashOf)
    ensures ListsOk(lru, inUse) && RingsOk(k, lru, inUse)
    ensures forall x | x in b.refs && x in b.inCache :: if b.refs[x] == 1 then x in lru else x in inUse
    ensures forall x | x in lru :: x in b.inCache && x in b.refs && b.refs[x] == 1
  {}

  lemma RefShard(b: Book, k: Links, lru: seq<nat>, inUse: seq<nat>, nodes: set<Node>, hashOf: Key -> nat, e: nat,
    k': Links)
    requires ShardOk(b, k, lru, inUse, nodes, hashOf) && e in b.refs
    requires if e in lru then RingsOk(k', Minus(lru, e), inUse + [e]) else k' == k
    ensures if e in lru then ShardOk(WithRef(b, e), k', Minus(lru, e), inUse + [e], nodes, hashOf)
      else ShardOk(WithRef(b, e), k', lru, inUse, nodes, hashOf)
  {
    RefBook(b, lru, inUse, e, hashOf);
    TableStays(b, WithRef(b, e), nodes);
  }

  lemma UnrefShard(b: Book, k: Links, lru: seq<nat>, inUse: seq<nat>, nodes: set<Node>, hashOf: Key -> nat, e: nat,
    k': Links)
    requires ShardOk(b, k, lru, inUse, nodes, hashOf) && e in b.refs && Clients(b, e) > 0
    requires if e in b.inCache && b.refs[e] == 2 then RingsOk(k', lru + [e], Minus(inUse, e)) else k' == k
    ensures if e in b.inCache && b.refs[e] == 2
      then ShardOk(WithoutRef(b, e), k', lru + [e], Minus(inUse, e), nodes, hashOf)
      else ShardOk(WithoutRef(b, e), k', lru, inUse, nodes, hashOf)
  {
    UnrefBook(b, lru, inUse, e, hashOf);
    TableStays(b, WithoutRef(b, e), nodes);
  }

  class LRUCache {
    const hashOf: Key -> nat
    const capacity: nat
    const table: HandleTable
    var b: Book
    var links: Links
    ghost var lru: seq<nat>
    ghost var inUse: seq<nat>

    ghost predicate Valid()
      reads this, table
    {
      ShardOk(b, links, lru, inUse, table.nodes, hashOf) && table.Valid()
    }

    constructor (capacity: nat, hashOf: Key -> nat)
      ensures ShardOk(b, links, lru, inUse, table.nodes, hashOf) && table.Valid() && fresh(table)
        && this.capacity == capacity && this.hashOf == hashOf
      ensures b.info == map[] && b.deleted == [] && lru == []
    {
      this.capacity, this.hashOf := capacity, hashOf;
      table := new HandleTable();
      b := Book(map[], map[], {}, 0, [], 0);
      links := Links(map[Lru := Lru, InUse := InUse], map[Lru := Lru, InUse := InUse]);
      lru, inUse := [], [];
      EmptyRings();
    }

    method LRU_Remove(e: nat)
      requires RingsOk(links, lru, inUse) && ListsOk(lru, inUse) && (e in lru || e in inUse)
      modifies this`links, this`lru, this`inUse
      ensures RingsOk(links, lru, inUse) && lru == Minus(old(lru), e) && inUse == Minus(old(inUse), e)
    {
      UnlinkRings(links, lru, inUse, e);
      links := Unlinked(links, Item(e));
      lru, inUse := Minus(lru, e), Minus(inUse, e);
    }

    method LRU_Append(toLru: bool, e: nat)
      requires RingsOk(links, lru, inUse) && (forall x | x in lru :: x !in inUse) && e !in lru && e !in inUse
      modifies this`links, this`lru, this`inUse
      ensures RingsOk(links, lru, inUse)
      ensures lru == (if toLru then old(lru) + [e] else old(lru)) && inUse == if toLru then old(inUse)
        else old(inUse) + [e]
    {
      LinkRings(links, lru, inUse, e, toLru);
      links := Linked(links, if toLru then Lru else InUse, Item(e));
      if toLru {
        lru := lru + [e];
      } else {
        inUse := inUse + [e];
      }
    }

    // From one list to the end of the other.
    method Transfer(toLru: bool, e: nat)
      requires RingsOk(links, lru, inUse) && ListsOk(lru, inUse) && (if toLru then e in inUse else e in lru)
      modifies this`links, this`lru, this`inUse
      ensures RingsOk(links, lru, inUse)
      ensures lru == (if toLru then old(lru) + [e] else Minus(old(lru), e))
        && inUse == if toLru then Minus(old(inUse), e) else old(inUse) + [e]
    {
      MinusMembers(lru, e);
      MinusMembers(inUse, e);
      LRU_Remove(e);
      LRU_Append(toLru, e);
    }

    method Ref(e: nat)
      requires Valid() && e in b.refs
      modifies this`b, this`links, this`lru, this`inUse
      ensures Valid() && b == WithRef(old(b), e) && lru == Minus(old(lru), e)
    {
      ShardLists(b, links, lru, inUse, table.nodes, hashOf);
      ghost var was, k, l, u := b, links, lru, inUse;
      if b.refs[e] == 1 && e in b.inCache {
        Transfer(false, e);
      }
      b := WithRef(b, e);
      RefShard(was, k, l, u, table.nodes, hashOf, e, links);
    }

    /** A client gives its reference back. */
    method Release(e: nat)
      requires Valid() && e in b.refs && Clients(b, e) > 0
      modifies this`b, this`links, this`lru, this`inUse
      ensures Valid() && b == WithoutRef(old(b), e)
      ensures lru == if old(e in b.inCache && b.refs[e] == 2) then old(lru) + [e] else old(lru)
    {
      ShardLists(b, links, lru, inUse, table.nodes, hashOf);
      ghost var was, k, l, u := b, links, lru, inUse;
      if e in b.inCache && b.refs[e] == 2 {
        Transfer(true, e);
      }
      b := WithoutRef(b, e);
      UnrefShard(was, k, l, u, table.nodes, hashOf, e, links);
    }

    method Lookup(key: Key) returns (h: Option<nat>)
      requires Valid()
      modifies this`b, this`links, this`lru, this`inUse
      ensures Valid()
      ensures h.None? ==> b == old(b) && lru == old(lru) && forall x | x in b.inCache ::
        x in b.info && b.info[x].key != key
      ensures h.Some? ==> h.value in old(b).inCache && h.value in old(b).info && old(b).info[h.value].key == key
      ensures h.Some? ==> h.value in old(b).refs && b == WithRef(old(b), h.value) && lru == Minus(old(lru), h.value)
    {
      var n := table.Lookup(key, hashOf(key));
      match n
      case None => h := None;
      case Some(node) =>
        Ref(node.id);
        h := Some(node.id);
    }
 
    /** Takes an entry the table no longer has out of the cache. */
    method FinishErase(e: nat)
      requires table.Valid() && Erasable(e)
      modifies this`b, this`links, this`lru, this`inUse
      ensures Valid() && lru == Minus(old(lru), e) && e in old(b).info && old(b).info[e].charge <= old(b).usage
      ensures e in old(b).refs && old(b).refs[e] > 0 && b == WithoutRef(OutOfCache(old(b), e), e)
    {
      EraseShard(b, links, lru, inUse, table.nodes, hashOf, e);
      LRU_Remove(e);
      b := WithoutRef(OutOfCache(b, e), e);
    }

    // All is in order, but for an entry that has just left the table.
    ghost predicate Erasable(e: nat)
      reads this, table
    {
      BookOkBut(b, lru, inUse, e, hashOf) && RingsOk(links, lru, inUse) && e in b.inCache
        && TableLacks(b, table.nodes, e)
    }

    method Erase(key: Key) returns (e: Option<nat>)
      requires Valid()
      modifies this`b, this`links, this`lru, this`inUse, table
      ensures Valid()
      ensures e.None? ==> b == old(b) && lru == old(lru) && forall x | x in b.inCache ::
        x in b.info && b.info[x].key != key
      ensures e.Some? ==>
        && e.value in old(b).inCache && e.value in old(b).info && old(b).info[e.value].key == key
        && lru == Minus(old(lru), e.value)
      ensures e.Some?
        ==> old(b).info[e.value].charge <= old(b).usage && e.value in old(b).refs && old(b).refs[e.value] > 0
      ensures e.Some? ==> b == WithoutRef(OutOfCache(old(b), e.value), e.value)
    {
      var n := table.Remove(key, hashOf(key));
      match n
      case None => e := None;
      case Some(node) =>
        e := Some(node.id);
        FinishErase(node.id);
    }
 
    /** The oldest entry that no client holds goes. */
    method EvictOldest()
      requires Valid() && lru != []
      modifies this`b, this`links, this`lru, this`inUse, table
      ensures Valid() && lru == old(lru)[1..] && HeldStay(old(b), b) && b.usage <= old(b).usage
        && b.nextId == old(b).nextId
      ensures b.deleted == old(b).deleted + [old(lru)[0]] && b.inCache == old(b).inCache - {old(lru)[0]}
      ensures var e := old(lru)[0];
        && e in old(b).info && old(b).info[e].charge <= old(b).usage && e in old(b).refs && old(b).refs[e] == 1
        && b == WithoutRef(OutOfCache(old(b), e), e)
    {
      FirstOnLru(links, lru, inUse);
      ShardLists(b, links, lru, inUse, table.nodes, hashOf);
      var e := links.next[Lru].id;
      assert e == lru[0] && e in lru;
      ghost var was := b;
      var r := Erase(b.info[e].key);
      assert r == Some(e);
      EraseHeld(was, e);
      MinusFirst(old(lru));
    }

    /** Everything that no client holds goes, oldest first. */
    method Prune()
      requires Valid()
      modifies this`b, this`links, this`lru, this`inUse, table
      ensures Valid() && lru == [] && HeldStay(old(b), b) && EvictedSo(old(b), old(lru), b)
    {
      FirstOnLru(links, lru, inUse);
      ghost var b0, lru0, gone: seq<nat> := b, lru, [];
      NoneEvicted(b);
      while links.next[Lru] != Lru
        invariant Valid() && HeldStay(b0, b) && Lru in links.next && (links.next[Lru] == Lru <==> lru == [])
        invariant gone + lru == lru0 && EvictedSo(b0, gone, b)
        decreases |lru|
      {
        gone := EvictAfter(b0, lru0, gone);
      }
      assert gone + [] == gone;
    }

    /** One turn of the eviction loops. */
    method EvictAfter(ghost b0: Book, ghost lru0: seq<nat>, ghost gone: seq<nat>) returns (ghost gone': seq<nat>)
      requires Valid() && lru != [] && HeldStay(b0, b) && gone + lru == lru0 && EvictedSo(b0, gone, b)
      modifies this`b, this`links, this`lru, this`inUse, table
      ensures Valid() && HeldStay(b0, b) && Lru in links.next && (links.next[Lru] == Lru <==> lru == [])
      ensures gone' == gone + [old(lru)[0]] && gone' + lru == lru0 && EvictedSo(b0, gone', b) && |lru| < |old(lru)|
    {
      gone' := gone + [lru[0]];
      ghost var was := b;
      Evicted(lru0, gone, lru);
      EvictOldest();
      OneEvicted(b0, gone, was, old(lru)[0]);
      FirstOnLru(links, lru, inUse);
      HeldTrans(b0, was, b);
    }

    /** The oldest unheld entries go, as few as make the charges fit. */
    method MakeRoom() returns (ghost gone: seq<nat>)
      requires Valid()
      modifies this`b, this`links, this`lru, this`inUse, table
      ensures Valid() && HeldStay(old(b), b) && (b.usage <= capacity || lru == [])
      ensures gone + lru == old(lru) && EvictedSo(old(b), gone, b) && Needed(old(b), gone, capacity)
    {
      FirstOnLru(links, lru, inUse);
      gone := [];
      NoneEvicted(b);
      while b.usage > capacity && links.next[Lru] != Lru
        invariant Valid() && HeldStay(old(b), b) && Lru in links.next && (links.next[Lru] == Lru <==> lru == [])
        invariant gone + lru == old(lru) && EvictedSo(old(b), gone, b) && Needed(old(b), gone, capacity)
        decreases |lru|
      {
        OneNeeded(old(b), gone, capacity, b, lru[0]);
        gone := EvictAfter(old(b), old(lru), gone);
      }
    }

    /** The entry joins the cache; one with the same key leaves it. */
    method AddToCache(key: Key, value: int, charge: nat) returns (h: nat, ghost replaced: Option<nat>)
      requires Valid()
      modifies this`b, this`links, this`lru, this`inUse, table
      ensures Valid() && h == old(b).nextId && HeldStay(old(b), b)
      ensures Inserted(old(b), Handle(key, hashOf(key), value, charge), replaced, b)
      ensures lru == if replaced.Some? then Minus(old(lru), replaced.value) else old(lru)
    {
      h := b.nextId;
      ghost var was := b;
      NewId(b, lru, inUse);
      var prior := Join(Handle(key, hashOf(key), value, charge));
      AddHeld(was, Handle(key, hashOf(key), value, charge));
      match prior
      case None => replaced := None;
      case Some(n) =>
        replaced := Some(n.id);
        ghost var joined := b;
        EraseShard(b, links, lru, inUse, table.nodes, hashOf, n.id);
        EraseHeld(b, n.id);
        FinishErase(n.id);
        HeldTrans(was, joined, b);
    }

    // Into the books, the in-use list and the table.
    method Join(e: Handle) returns (prior: Option<Node>)
      requires Valid() && e.hash == hashOf(e.key)
      modifies this`b, this`links, this`lru, this`inUse, table
      ensures table.Valid() && b == Added(old(b), e) && lru == old(lru)
      ensures match prior
        case None => Valid() && Lacks(old(b), e.key)
        case Some(n) => Erasable(n.id) && n.id != old(b).nextId && Has(old(b), n.id, e.key)
    {
      NewId(b, lru, inUse);
      ShardLists(b, links, lru, inUse, table.nodes, hashOf);
      NewNode(b, table.nodes, hashOf, e.key);
      ghost var was, u, nodes := b, inUse, table.nodes;
      prior := table.Insert(Node(b.nextId, e.key, e.hash));
      LRU_Append(false, b.nextId);
      b := Added(b, e);
      JoinShard(was, links, lru, u, nodes, hashOf, e, prior);
    }
 
    // Caching is turned off: only the client will hold the entry.
    method AddUncached(key: Key, value: int, charge: nat) returns (h: nat)
      requires Valid()
      modifies this`b
      ensures Valid() && h == old(b).nextId && b == Uncached(old(b), Handle(key, hashOf(key), value, charge))
      ensures HeldStay(old(b), b) && old(b).deleted <= b.deleted
      ensures h in b.refs && h in b.info && b.info[h] == Handle(key, hashOf(key), value, charge) && Clients(b, h) == 1
    {
      h := b.nextId;
      var e := Handle(key, hashOf(key), value, charge);
      NewId(b, lru, inUse);
      UncachedBook(b, lru, inUse, e, table.nodes, hashOf);
      b := Uncached(b, e);
    }

    /** Adds an entry and returns the client's handle to it. It replaces the one with
        its key; then the oldest unheld entries go, as few as make the charges fit. */
    method Insert(key: Key, value: int, charge: nat)
      returns (h: nat, ghost replaced: Option<nat>, ghost with: Book, ghost gone: seq<nat>)
      requires Valid()
      modifies this`b, this`links, this`lru, this`inUse, table
      ensures Valid() && HeldStay(old(b), b)
      ensures h == old(b).nextId && h in b.refs && Clients(b, h) == 1 && h in b.info
        && b.info[h] == Handle(key, hashOf(key), value, charge)
      ensures if capacity > 0 then Inserted(old(b), Handle(key, hashOf(key), value, charge), replaced, with)
        else replaced == None && with == Uncached(old(b), Handle(key, hashOf(key), value, charge))
      ensures gone + lru == if replaced.Some? then Minus(old(lru), replaced.value) else old(lru)
      ensures EvictedSo(with, gone, b) && Needed(with, gone, capacity) && (b.usage <= capacity || lru == [])
    {
      ghost var was := b;
      if capacity > 0 {
        h, replaced := AddToCache(key, value, charge);
      } else {
        h := AddUncached(key, value, charge);
        replaced := None;
      }
      with := b;
      assert HeldStay(was, with) && h in with.refs && Clients(with, h) == 1;
      gone := MakeRoom();
      HeldTrans(was, with, b);
      assert Stays(with, b, h);
    }

    /** When the new entry fits, every other entry stays in the cache. */
    lemma FitsStays(b0: Book, e: Handle, replaced: Option<nat>, with: Book, gone: seq<nat>, b': Book, x: nat)
      requires Inserted(b0, e, replaced, with) && EvictedSo(with, gone, b') && Needed(with, gone, capacity)
      requires b0.usage + e.charge - (if replaced.Some? then b0.info[replaced.value].charge else 0) <= capacity
      ensures x in b0.inCache && replaced != Some(x) ==> x in b'.inCache
    {
      FitsKeepsAll(with, gone, capacity);
      assert EvictedAt(with, gone, b', x);
    }

    /** The destructor, which asks that no client still holds an entry: each deleter
        that has not run yet runs now, oldest entry first, so that in the end every
        deleter has run exactly once. */
    method Destroy()
      requires Valid() && forall x | x in b.refs :: Clients(b, x) == 0
      modifies this`b
      ensures b.refs == map[] && b.deleted == old(b).deleted + lru && b.nextId == old(b).nextId
      ensures forall x: nat | x < b.nextId :: OnceIn(b.deleted, x)
    {
      ShardLists(b, links, lru, inUse, table.nodes, hashOf);
      AllOnLru(b, lru, inUse);
      TearDown();
      assert lru[..|lru|] == lru && b.refs == map[];
      forall x: nat | x < b.nextId ensures OnceIn(b.deleted, x) {
        AllDeleted(b, x);
      }
    }

    method TearDown()
      requires RingsOk(links, lru, inUse) && TornDown(b, lru, b, 0)
      modifies this`b
      ensures TornDown(old(b), lru, b, |lru|)
    {
      FirstOnLru(links, lru, inUse);
      var e := links.next[Lru];
      ghost var i := 0;
      while e != Lru
        invariant i <= |lru| && e == (if i < |lru| then Item(lru[i]) else Lru) && TornDown(old(b), lru, b, i)
        decreases |lru| - i
      {
        NextOnLru(links, lru, inUse, i);
        OneTornDown(old(b), lru, b, i);
        var next := links.next[e];
        b := b.(inCache := b.inCache - {e.id});
        b := WithoutRef(b, e.id);
        e, i := next, i + 1;
      }
    }
  }

  /** The first i entries of the LRU list have been torn down. */
  ghost predicate TornDown(was: Book, lru: seq<nat>, b: Book, i: nat)
    requires i <= |lru|
  {
    && Counted(b) && Distinct(lru) && b.nextId == was.nextId && b.deleted == was.deleted + lru[..i]
    && (forall x :: x in b.refs <==> x in lru[i..]) && forall x | x in b.refs :: b.refs[x] == 1
  }

  // Without clients every entry is on the LRU list.
  lemma AllOnLru(b: Book, lru: seq<nat>, inUse: seq<nat>)
    requires Listed(b, lru, inUse) && Counted(b) && forall x | x in b.refs :: Clients(b, x) == 0
    ensures TornDown(b, lru, b, 0)
  {
    assert b.deleted + lru[..0] == b.deleted && lru[0..] == lru;
    forall x ensures x in b.refs <==> x in lru {
      if x in b.refs {
        assert b.refs[x] == 1 && x in b.inCache;
      }
    }
  }

  lemma NextOnLru(k: Links, lru: seq<nat>, inUse: seq<nat>, i: nat)
    requires RingsOk(k, lru, inUse) && i < |lru|
    ensures Item(lru[i]) in k.next && k.next[Item(lru[i])] == if i + 1 < |lru| then Item(lru[i + 1]) else Lru
  {
    var ring := [Lru] + Items(lru);
    assert Joined(k, ring, i + 1) && ring[i + 1] == Item(lru[i]);
  }

  lemma OneTornDown(was: Book, lru: seq<nat>, b: Book, i: nat)
    requires i < |lru| && TornDown(was, lru, b, i)
    ensures lru[i] in b.refs && b.refs[lru[i]] == 1
    ensures TornDown(was, lru, WithoutRef(b.(inCache := b.inCache - {lru[i]}), lru[i]), i + 1)
  {
    var e := lru[i];
    assert e == lru[i..][0];
    var r := WithoutRef(b.(inCache := b.inCache - {e}), e);
    assert b.deleted + [e] == was.deleted + lru[..i + 1];
    DistinctMore(b.deleted, e);
    forall x ensures x in r.refs <==> x in lru[i + 1..] {
      if x in lru[i + 1..] {
        var j :| i < j < |lru| && lru[j] == x;
        Apart(lru, i, j);
        assert lru[i..][j - i] == x;
      }
      if x in lru[i..] && x != e {
        var j :| i <= j < |lru| && lru[j] == x;
        assert lru[i + 1..][j - i - 1] == x;
      }
    }
  }

  // x occurs exactly once.
  ghost predicate OnceIn(s: seq<nat>, x: nat) {
    exists i :: 0 <= i < |s| && s[i] == x && forall j | 0 <= j < |s| && s[j] == x :: j == i
  }

  /** When nothing is counted any more, every deleter has run exactly once. */
  lemma AllDeleted(b: Book, x: nat)
    requires Counted(b) && b.refs == map[] && x < b.nextId
    ensures OnceIn(b.deleted, x)
  {
    assert x in b.deleted;
    var i :| 0 <= i < |b.deleted| && b.deleted[i] == x;
    forall j | 0 <= j < |b.deleted| && b.deleted[j] == x ensures j == i {
      if j != i {
        Apart(b.deleted, i, j);
      }
    }
  }
}
