/** What a client of the database sees (include/leveldb/db.h). */
module Clients {
  import opened Options
  import opened Keys
  import opened Engine
  import opened Meanings
  import opened DbImpl

  // What the latest write of u left.
  ghost function Current(db: DBImpl, u: UserKey): Option<Bytes>
    reads db
  {
    Lookup(db.hist, u, db.lastSequence)
  }

  lemma AfterOne(op: Op, u: UserKey, was: Option<Bytes>)
    ensures After([op], u, was) == if op.user != u then was else if op.PutOp? then Some(op.v) else None
  {
    LastDecides([op], u, was, 0);
  }

  // A batch of one operation.
  method WriteOne(db: DBImpl, op: Op)
    requires db.Valid() && db.lastSequence + 1 < MAX_SEQUENCE
    modifies db
    ensures db.Valid() && db.lastSequence == old(db.lastSequence) + 1 && db.snapshots == old(db.snapshots)
    ensures Current(db, op.user) == if op.PutOp? then Some(op.v) else None
    ensures forall w | w != op.user :: Current(db, w) == old(Current(db, w))
    ensures forall w, t: nat | t <= old(db.lastSequence) :: Lookup(db.hist, w, t) == old(Lookup(db.hist, w, t))
  {
    ghost var s := db.Abs();
    db.Write([op]);
    forall w {
      AfterOne(op, w, Lookup(s.hist, w, s.lastSeq));
    }
  }

  /** DB::Put: the key has the value, and no other key changes. */
  method PutKey(db: DBImpl, u: UserKey, v: Bytes)
    requires db.Valid() && db.lastSequence + 1 < MAX_SEQUENCE
    modifies db
    ensures db.Valid() && db.lastSequence == old(db.lastSequence) + 1 && db.snapshots == old(db.snapshots)
    ensures Current(db, u) == Some(v) && forall w | w != u :: Current(db, w) == old(Current(db, w))
    ensures forall w, t: nat | t <= old(db.lastSequence) :: Lookup(db.hist, w, t) == old(Lookup(db.hist, w, t))
  {
    WriteOne(db, PutOp(u, v));
  }

  /** DB::Delete: the key is gone, and no other key changes. */
  method DeleteKey(db: DBImpl, u: UserKey)
    requires db.Valid() && db.lastSequence + 1 < MAX_SEQUENCE
    modifies db
    ensures db.Valid() && db.lastSequence == old(db.lastSequence) + 1 && db.snapshots == old(db.snapshots)
    ensures Current(db, u) == None && forall w | w != u :: Current(db, w) == old(Current(db, w))
    ensures forall w, t: nat | t <= old(db.lastSequence) :: Lookup(db.hist, w, t) == old(Lookup(db.hist, w, t))
  {
    WriteOne(db, DeleteOp(u));
  }

  /** A batch, and then a read of any key. */
  method WriteThenGet(db: DBImpl, ops: seq<Op>, u: UserKey) returns (value: Option<Bytes>)
    requires db.Valid() && db.lastSequence + |ops| < MAX_SEQUENCE
    modifies db
    ensures db.Valid() && value == After(ops, u, old(Current(db, u)))
  {
    db.Write(ops);
    value := db.Get(u, None);
  }

  /** A put is read back; a later deletion hides it, but not from a snapshot. */
  method PutAndDelete(db: DBImpl, u: UserKey, v: Bytes)
    returns (put: Option<Bytes>, deleted: Option<Bytes>, kept: Option<Bytes>)
    requires db.Valid() && db.lastSequence + 2 < MAX_SEQUENCE
    modifies db
    ensures put == Some(v) && deleted == None && kept == Some(v)
  {
    PutKey(db, u, v);
    put := db.Get(u, None);
    var t := db.GetSnapshot();
    DeleteKey(db, u);
    deleted := db.Get(u, None);
    kept := db.Get(u, Some(t));
  }
}
