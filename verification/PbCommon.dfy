/** The field iterator that both directions use (nanopb's pb_common.c). */
module PbCommon {
  import opened PbFormat

  // How many required fields come before the i-th.
  function RequiredBefore(fields: seq<Field>, i: nat): (n: nat)
    requires i <= |fields|
    ensures n <= i
  {
    if i == 0 then 0 else RequiredBefore(fields, i - 1) + (if fields[i - 1].ht.Required? then 1 else 0)
  }

  lemma {:induction false} RequiredGrows(fields: seq<Field>, i: nat, j: nat)
    requires i < j <= |fields| && fields[i].ht.Required?
    ensures RequiredBefore(fields, i) < RequiredBefore(fields, j)
  {
    if i + 1 < j {
      RequiredGrows(fields, i, j - 1);
    }
  }

  /** Steps through a description round and round, counting required fields. The
      addresses it also keeps are not part of this model: a slot is named by its
      position. */
  class FieldIter {
    const fields: seq<Field>
    var pos: nat
    var requiredFieldIndex: nat

    ghost predicate Valid()
      reads this
    {
      && (if fields == [] then pos == 0 else pos < |fields|)
      && requiredFieldIndex == RequiredBefore(fields, pos)
    }

    constructor (fields: seq<Field>)
      ensures Valid() && pos == 0 && this.fields == fields
    {
      this.fields, pos, requiredFieldIndex := fields, 0, 0;
    }

    /** False when the description is empty. */
    method Begin() returns (any: bool)
      modifies this
      ensures Valid() && pos == 0 && (any <==> fields != [])
    {
      pos, requiredFieldIndex := 0, 0;
      any := fields != [];
    }

    /** False when it wraps back to the first field. */
    method Next() returns (more: bool)
      requires Valid()
      modifies this
      ensures Valid() && (more <==> old(pos) + 1 < |fields|) && pos == if more then old(pos) + 1 else 0
    {
      if fields == [] {
        return false;
      }
      if pos + 1 == |fields| {
        var _ := Begin();
        return false;
      }
      if fields[pos].ht.Required? {
        requiredFieldIndex := requiredFieldIndex + 1;
      }
      pos := pos + 1;
      return true;
    }

    /** Goes on, around once, to a field with this tag. In an empty description
        there is only the terminator, whose tag is 0. */
    method Find(tag: nat) returns (found: bool)
      requires Valid()
      modifies this
      ensures Valid()
      ensures fields == [] ==> (found <==> tag == 0)
      ensures fields != [] ==> (found <==> exists i | 0 <= i < |fields| :: fields[i].tag == tag)
      ensures fields != [] && found ==> fields[pos].tag == tag
    {
      if fields == [] {
        return tag == 0;
      }
      var start := pos;
      ghost var wrapped := false;
      while true
        invariant Valid() && fields != []
        invariant if wrapped then pos < start else start <= pos
        invariant forall i | start <= i < (if wrapped then |fields| else pos) :: fields[i].tag != tag
        invariant wrapped ==> forall i | 0 <= i < pos :: fields[i].tag != tag
        decreases if wrapped then start - pos else start + |fields| - pos
      {
        if fields[pos].tag == tag {
          return true;
        }
        var more := Next();
        wrapped := wrapped || !more;
        if pos == start {
          return false;
        }
      }
    }
  }
}
