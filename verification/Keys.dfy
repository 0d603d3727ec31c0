/** Internal keys and the entries they label (db/dbformat.h, db/dbformat.cc).

    A user key is an integer standing for the key's rank under the user
    comparator: the engine only ever compares user keys, and a run touches
    finitely many of them, so no behaviour is lost. */
module Keys {
  import opened Options

  // Sequence numbers are packed with a one-byte kind into 64 bits.
  const MAX_SEQUENCE: nat := 0xFF_FFFF_FFFF_FFFF

  type UserKey = int
  type Sequence = s: nat | s <= MAX_SEQUENCE
  type Bytes = string

  datatype Kind = Deletion | Put

  datatype IKey = IKey(user: UserKey, sn: Sequence, kind: Kind)

  datatype Entry = Entry(k: IKey, v: Bytes)

  // PackSequenceAndType
  function Tag(k: IKey): nat {
    k.sn * 256 + (match k.kind case Deletion => 0 case Put => 1)
  }

  // InternalKeyComparator::Compare(a, b) < 0
  predicate Less(a: IKey, b: IKey) {
    a.user < b.user || (a.user == b.user && Tag(a) > Tag(b))
  }

  predicate AtMost(a: IKey, b: IKey) {
    !Less(b, a)
  }

  // LookupKey: the first position that can hold an entry of u visible at s.
  function SeekKey(u: UserKey, s: Sequence): IKey {
    IKey(u, s, Put)
  }

  /** The comparator is a strict total order in which the entries of one user
      key run from newest to oldest. */
  lemma KeyOrder(a: IKey, b: IKey, c: IKey)
    ensures !Less(a, a)
    ensures Less(a, b) && Less(b, c) ==> Less(a, c)
    ensures Less(a, b) || Less(b, a) || a == b
    ensures a.user == b.user && a.sn > b.sn ==> Less(a, b)
    ensures a.user == b.user && Less(a, b) ==> a.sn >= b.sn
  {}

  /** An entry of u is at or after the lookup key of (u, s) exactly when it is
      visible at s. */
  lemma SeekKeyBound(u: UserKey, s: Sequence, k: IKey)
    ensures AtMost(SeekKey(u, s), k) <==> (k.user > u || (k.user == u && k.sn <= s))
  {}

  ghost predicate SortedEntries(es: seq<Entry>) {
    forall i, j | 0 <= i < j < |es| :: Less(es[i].k, es[j].k)
  }

  // ---- what a read means ----

  ghost predicate Visible(e: Entry, u: UserKey, s: nat) {
    e.k.user == u && e.k.sn <= s
  }

  /** e is the newest entry of u in P with a sequence number of at most s. */
  ghost predicate IsNewest(P: iset<Entry>, u: UserKey, s: nat, e: Entry) {
    && e in P && Visible(e, u, s)
    && forall x | x in P && Visible(x, u, s) :: x.k.sn <= e.k.sn
  }

  // No two entries carry the same sequence number.
  ghost predicate DistinctSequences(P: iset<Entry>) {
    forall a, b | a in P && b in P && a.k.sn == b.k.sn :: a == b
  }

  /** The value a read of u at sequence number s must return: the newest write
      of u no later than s, unless that write is a deletion. */
  ghost function Lookup(P: iset<Entry>, u: UserKey, s: nat): Option<Bytes> {
    if exists e :: IsNewest(P, u, s, e) && e.k.kind.Put? then
      var e :| IsNewest(P, u, s, e) && e.k.kind.Put?;
      Some(e.v)
    else None
  }

  lemma LookupOf(P: iset<Entry>, u: UserKey, s: nat, e: Entry)
    requires DistinctSequences(P)
    requires IsNewest(P, u, s, e)
    ensures Lookup(P, u, s) == if e.k.kind.Put? then Some(e.v) else None
  {
    forall x | IsNewest(P, u, s, x) ensures x == e {
      assert x.k.sn == e.k.sn;
    }
  }

  lemma LookupNone(P: iset<Entry>, u: UserKey, s: nat)
    requires forall e | e in P :: !Visible(e, u, s)
    ensures Lookup(P, u, s) == None
  {}

  /** Two entry sets answer alike when they have the same newest values. */
  lemma LookupAgree(P: iset<Entry>, Q: iset<Entry>, u: UserKey, s: nat)
    requires DistinctSequences(P)
    requires forall e :: IsNewest(P, u, s, e) && e.k.kind.Put? <==> IsNewest(Q, u, s, e) && e.k.kind.Put?
    ensures Lookup(P, u, s) == Lookup(Q, u, s)
  {
    if e :| IsNewest(P, u, s, e) && e.k.kind.Put? {
      forall x | IsNewest(P, u, s, x) ensures x == e {
        assert x.k.sn == e.k.sn;
      }
      forall x | IsNewest(Q, u, s, x) && x.k.kind.Put? ensures x == e {
        assert IsNewest(P, u, s, x);
      }
    }
  }

  // ---- seeking in a sorted run ----

  /** i is the position an iterator over es takes on Seek(target). */
  ghost predicate SeeksTo(es: seq<Entry>, target: IKey, i: nat) {
    && i <= |es|
    && (forall j | 0 <= j < i :: Less(es[j].k, target))
    && (i < |es| ==> AtMost(target, es[i].k))
  }

  /** Seeking the lookup key of (u, s) lands on the newest entry of u visible
      at s, or on a different user key when there is none. */
  lemma SeekFindsNewest(es: seq<Entry>, u: UserKey, s: Sequence, i: nat)
    requires SortedEntries(es) && SeeksTo(es, SeekKey(u, s), i)
    ensures i < |es| && es[i].k.user == u ==>
      Visible(es[i], u, s) && forall x | x in es && Visible(x, u, s) && x != es[i] ::
        Less(es[i].k, x.k) && x.k.sn <= es[i].k.sn
    ensures i == |es| || es[i].k.user != u ==> forall x | x in es :: !Visible(x, u, s)
  {
    forall x | x in es && Visible(x, u, s)
      ensures i < |es| && es[i].k.user == u && (x == es[i] || Less(es[i].k, x.k))
    {
      var j :| 0 <= j < |es| && es[j] == x;
      SeekKeyBound(u, s, x.k);
      assert j >= i;
      if j > i {
        assert Less(es[i].k, es[j].k);
      }
    }
  }
}
