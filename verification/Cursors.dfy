/** A plain iterator over sorted entries, as memtables and blocks provide. */
module Cursors {
  import opened Options
  import opened Keys

  /** The internal iterator: a cursor over sorted entries; pos == |es| means not
      valid. */
  class InternalIterator {
    const es: seq<Entry>
    var pos: nat

    constructor (es: seq<Entry>)
      ensures this.es == es && pos == |es|
    {
      this.es, pos := es, |es|;
    }

    predicate Valid()
      reads this
    {
      pos < |es|
    }

    method SeekToFirst()
      modifies this
      ensures pos == 0
    {
      pos := 0;
    }

    method SeekToLast()
      modifies this
      ensures pos == if es == [] then |es| else |es| - 1
    {
      pos := if es == [] then |es| else |es| - 1;
    }

    method Seek(target: IKey)
      modifies this
      ensures SeeksTo(es, target, pos)
    {
      pos := 0;
      while pos < |es| && Less(es[pos].k, target)
        invariant pos <= |es| && forall j | 0 <= j < pos :: Less(es[j].k, target)
      {
        pos := pos + 1;
      }
    }

    method Next()
      requires Valid()
      modifies this
      ensures pos == old(pos) + 1
    {
      pos := pos + 1;
    }

    method Prev()
      requires Valid()
      modifies this
      ensures pos == if old(pos) == 0 then |es| else old(pos) - 1
    {
      pos := if pos == 0 then |es| else pos - 1;
    }
  }
}
