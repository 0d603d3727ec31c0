/** VersionSet::Builder (db/version_set.cc): applies a run of version edits to a
    base version without building the versions in between. */
module Builders {
  import opened Options
  import opened Keys
  import opened Versions
  import opened Sequences

  /** VersionEdit's file changes: deleted (level, number) pairs, then new
      files. */
  datatype Edit = Edit(deleted: set<(nat, nat)>, added: seq<(nat, File)>)

  predicate ValidEdit(e: Edit) {
    && (forall d | d in e.deleted :: d.0 < NUM_LEVELS)
    && forall i | 0 <= i < |e.added| :: e.added[i].0 < NUM_LEVELS
  }

  ghost predicate EditAdds(e: Edit, level: nat, f: File) {
    (level, f) in e.added
  }

  ghost predicate EditAddsNumber(e: Edit, level: nat, n: nat) {
    exists f :: EditAdds(e, level, f) && f.number == n
  }

  // ---- one edit at a time ----

  /** The files of a level after one edit. */
  ghost function ApplyOne(files: iset<File>, level: nat, e: Edit): iset<File> {
    iset f | (f in files && (level, f.number) !in e.deleted) || EditAdds(e, level, f)
  }

  ghost function ApplyAll(files: iset<File>, level: nat, es: seq<Edit>): iset<File> {
    if es == [] then files else ApplyOne(ApplyAll(files, level, es[..|es| - 1]), level, es[|es| - 1])
  }

  // ---- the builder's two sets ----

  ghost function DeletedAfter(deleted: iset<nat>, level: nat, e: Edit): iset<nat> {
    iset n | (n in deleted || (level, n) in e.deleted) && !EditAddsNumber(e, level, n)
  }

  ghost function AddedAfter(added: iset<File>, level: nat, e: Edit): iset<File> {
    iset f | f in added || EditAdds(e, level, f)
  }

  ghost function DeletedAll(level: nat, es: seq<Edit>): iset<nat> {
    if es == [] then iset{} else DeletedAfter(DeletedAll(level, es[..|es| - 1]), level, es[|es| - 1])
  }

  ghost function AddedAll(level: nat, es: seq<Edit>): iset<File> {
    if es == [] then iset{} else AddedAfter(AddedAll(level, es[..|es| - 1]), level, es[|es| - 1])
  }

  ghost function Saved(base: iset<File>, deleted: iset<nat>, added: iset<File>): iset<File> {
    iset f | (f in base || f in added) && f.number !in deleted
  }

  /** No edit adds a number that its level has already seen. */
  ghost predicate AddsAreNew(base: iset<File>, level: nat, es: seq<Edit>) {
    forall i, f, g | 0 <= i < |es| && EditAdds(es[i], level, f) && (g in base || g in AddedAll(level, es[..i])) ::
      f.number != g.number
  }

  /** One Builder over many edits saves what applying them one by one gives. */
  lemma {:induction false} SavedIsFold(base: iset<File>, level: nat, es: seq<Edit>)
    requires AddsAreNew(base, level, es)
    ensures Saved(base, DeletedAll(level, es), AddedAll(level, es)) == ApplyAll(base, level, es)
  {
    if es != [] {
      var n := |es| - 1;
      var pre, e := es[..n], es[n];
      forall i | 0 <= i < |pre| ensures pre[i] == es[i] && pre[..i] == es[..i] {}
      SavedIsFold(base, level, pre);
      var D, A := DeletedAll(level, pre), AddedAll(level, pre);
      forall f ensures f in Saved(base, DeletedAfter(D, level, e), AddedAfter(A, level, e))
        <==> f in ApplyOne(Saved(base, D, A), level, e) {
        assert EditAdds(es[n], level, f) ==> EditAddsNumber(e, level, f.number);
      }
    }
  }

  /** Without that condition the two disagree: a number deleted from the base
      and added back keeps the base file alive. */
  lemma ReaddedNumberDiverges(f: File, g: File)
    requires f != g && f.number == g.number
    ensures var es := [Edit({(1, f.number)}, []), Edit({}, [(1, g)])];
      f in Saved(iset{f}, DeletedAll(1, es), AddedAll(1, es)) && f !in ApplyAll(iset{f}, 1, es)
  {
    var e0, e1 := Edit({(1, f.number)}, []), Edit({}, [(1, g)]);
    var es := [e0, e1];
    assert es[..1] == [e0] && es[..1][..0] == [];
    assert EditAdds(e1, 1, g);
    assert EditAddsNumber(e1, 1, f.number);
    assert ApplyAll(iset{f}, 1, [e0]) == ApplyOne(iset{f}, 1, e0);
    assert !EditAdds(e0, 1, f) && !EditAdds(e1, 1, f);
  }

  // ---- the class ----

  lemma BySmallestTotal(f: File, g: File, h: File)
    ensures !BySmallest(f, f)
    ensures BySmallest(f, g) && BySmallest(g, h) ==> BySmallest(f, h)
    ensures f.number != g.number ==> BySmallest(f, g) || BySmallest(g, f)
    ensures !BySmallest(g, f) && !BySmallest(f, g) ==> f.number == g.number
  {}

  ghost predicate NumbersDiffer(fs: seq<File>, gs: seq<File>) {
    forall f, g | f in fs && g in gs :: f.number != g.number
  }

  ghost predicate AllBelow(fs: seq<File>, gs: seq<File>) {
    forall f, g | f in fs && g in gs :: BySmallest(f, g)
  }

  // MaybeAddFile
  function MaybeAdd(r: seq<File>, deleted: set<nat>, f: File): seq<File> {
    if f.number in deleted then r else r + [f]
  }

  ghost predicate Merged(r: seq<File>, base: seq<File>, added: seq<File>, deleted: set<nat>) {
    SortedBySmallest(r) && forall f :: f in r <==> (f in base || f in added) && f.number !in deleted
  }

  /** One step of the merge: the smallest file not yet seen joins the result. */
  lemma MergeStep(r: seq<File>, base: seq<File>, added: seq<File>, deleted: set<nat>, f: File, base': seq<File>,
    added': seq<File>)
    requires Merged(r, base, added, deleted) && AllBelow(base, [f]) && AllBelow(added, [f])
    requires (base' == base + [f] && added' == added) || (base' == base && added' == added + [f])
    ensures Merged(MaybeAdd(r, deleted, f), base', added', deleted)
  {
    assert f in [f];
    assert forall g | g in r :: BySmallest(g, f);
  }

  lemma SplitAt(fs: seq<File>, i: nat)
    requires SortedBySmallest(fs) && i < |fs|
    ensures fs[..i + 1] == fs[..i] + [fs[i]] && AllBelow(fs[..i], [fs[i]])
    ensures forall g | g in fs[i + 1..] :: BySmallest(fs[i], g)
  {}

  lemma BelowNext(fs: seq<File>, i: nat, g: File)
    requires SortedBySmallest(fs) && i < |fs| && BySmallest(g, fs[i])
    ensures forall h | h in fs[i..] :: BySmallest(g, h)
  {
    forall h | h in fs[i..] ensures BySmallest(g, h) {
      BySmallestTotal(g, fs[i], h);
    }
  }

  /** SaveTo for one level: merges the base files with the added ones, both in
      BySmallestKey order, and leaves out the deleted numbers. */
  method SaveLevel(base: seq<File>, added: seq<File>, deleted: set<nat>) returns (r: seq<File>)
    requires SortedBySmallest(base) && SortedBySmallest(added) && NumbersDiffer(base, added)
    ensures Merged(r, base, added, deleted)
  {
    r := [];
    var b := 0;
    for a := 0 to |added|
      invariant b <= |base| && Merged(r, base[..b], added[..a], deleted)
      invariant a < |added| ==> AllBelow(base[..b], added[a..])
      invariant b < |base| ==> AllBelow(added[..a], base[b..])
    {
      // std::upper_bound: every base file not after added[a].
      while b < |base| && !BySmallest(added[a], base[b])
        invariant b <= |base| && Merged(r, base[..b], added[..a], deleted)
        invariant AllBelow(base[..b], added[a..])
        invariant b < |base| ==> AllBelow(added[..a], base[b..])
      {
        SplitAt(base, b);
        assert base[b] in base && added[a] in added;
        BySmallestTotal(base[b], added[a], base[b]);
        BelowNext(added, a, base[b]);
        assert base[b..][0] == base[b];
        assert AllBelow(added[..a], [base[b]]);
        MergeStep(r, base[..b], added[..a], deleted, base[b], base[..b + 1], added[..a]);
        r := MaybeAdd(r, deleted, base[b]);
        b := b + 1;
      }
      SplitAt(added, a);
      assert added[a..][0] == added[a];
      assert AllBelow(base[..b], [added[a]]);
      MergeStep(r, base[..b], added[..a], deleted, added[a], base[..b], added[..a + 1]);
      r := MaybeAdd(r, deleted, added[a]);
      if b < |base| {
        BelowNext(base, b, added[a]);
      }
      assert forall g | g in added[a + 1..] :: g in added[a..];
    }
    assert added[..|added|] == added;
    while b < |base|
      invariant b <= |base| && Merged(r, base[..b], added, deleted)
      invariant b < |base| ==> AllBelow(added, base[b..])
    {
      SplitAt(base, b);
      assert base[b..][0] == base[b];
      assert AllBelow(added, [base[b]]);
      MergeStep(r, base[..b], added, deleted, base[b], base[..b + 1], added);
      r := MaybeAdd(r, deleted, base[b]);
      b := b + 1;
      assert forall g | b < |base| && g in base[b..] :: g in base[b - 1..];
    }
    assert base[..|base|] == base;
  }

  // std::set::insert with BySmallestKey.
  method InsertAdded(added: seq<File>, f: File) returns (r: seq<File>)
    requires SortedBySmallest(added) && forall g | g in added :: g.number != f.number
    ensures SortedBySmallest(r) && forall g :: g in r <==> g in added || g == f
  {
    var i := 0;
    while i < |added| && BySmallest(added[i], f)
      invariant i <= |added|
      invariant forall j | 0 <= j < i :: BySmallest(added[j], f)
    {
      i := i + 1;
    }
    if i < |added| {
      assert added[i] in added;
      BySmallestTotal(f, added[i], f);
      BelowNext(added, i, f);
      assert forall j | i <= j < |added| :: added[j] in added[i..];
    }
    InsertMembers(added, i, f);
    r := added[..i] + [f] + added[i..];
  }

  ghost function FileISet(fs: seq<File>): iset<File> {
    iset f | f in fs
  }

  ghost function NatISet(s: set<nat>): iset<nat> {
    iset n | n in s
  }

  class Builder {
    const base: Version
    var deletedFiles: seq<set<nat>>
    var addedFiles: seq<seq<File>>
    ghost var edits: seq<Edit>

    /** The two per-level sets are those of the edits applied so far. */
    ghost predicate Valid()
      reads this
    {
      && |deletedFiles| == NUM_LEVELS && |addedFiles| == NUM_LEVELS
      && forall l | 0 <= l < NUM_LEVELS ::
        && SortedBySmallest(addedFiles[l])
        && NatISet(deletedFiles[l]) == DeletedAll(l, edits)
        && FileISet(addedFiles[l]) == AddedAll(l, edits)
    }

    constructor (base: Version)
      ensures Valid() && this.base == base && edits == []
    {
      this.base := base;
      deletedFiles := [{}, {}, {}, {}, {}, {}, {}];
      addedFiles := [[], [], [], [], [], [], []];
      edits := [];
    }

    // The (level, number) pairs added so far were all new.
    ghost predicate Fresh(es: seq<Edit>) {
      forall l | 0 <= l < NUM_LEVELS :: AddsAreNew(FileISet(base[l]), l, es)
    }

    method DeleteFiles(e: Edit)
      requires Valid() && ValidEdit(e)
      modifies this`deletedFiles
      ensures |deletedFiles| == NUM_LEVELS
      ensures forall l | 0 <= l < NUM_LEVELS ::
        NatISet(deletedFiles[l]) == WithDeletions(DeletedAll(l, edits), l, e.deleted)
    {
      var del := e.deleted;
      ghost var done: set<(nat, nat)> := {};
      while del != {}
        invariant del + done == e.deleted && |deletedFiles| == NUM_LEVELS
        invariant forall l | 0 <= l < NUM_LEVELS ::
          NatISet(deletedFiles[l]) == WithDeletions(DeletedAll(l, edits), l, done)
        decreases |del|
      {
        var d :| d in del;
        forall l | 0 <= l < NUM_LEVELS
          ensures NatISet(if l == d.0 then deletedFiles[l] + {d.1} else deletedFiles[l])
            == WithDeletions(DeletedAll(l, edits), l, done + {d})
        {
          DeletionStep(deletedFiles[l], DeletedAll(l, edits), l, done, d);
        }
        deletedFiles := deletedFiles[d.0 := deletedFiles[d.0] + {d.1}];
        done := done + {d};
        del := del - {d};
      }
      assert done == e.deleted;
    }

    method AddFiles(e: Edit, ghost es: seq<Edit>)
      requires |deletedFiles| == NUM_LEVELS && |addedFiles| == NUM_LEVELS
      requires ValidEdit(e) && DistinctAdds(e) && Fresh(es + [e])
      requires forall l | 0 <= l < NUM_LEVELS ::
        SortedBySmallest(addedFiles[l]) && FileISet(addedFiles[l]) == AddedAll(l, es)
      modifies this`deletedFiles, this`addedFiles
      ensures |deletedFiles| == NUM_LEVELS && |addedFiles| == NUM_LEVELS
      ensures forall l | 0 <= l < NUM_LEVELS ::
        SortedBySmallest(addedFiles[l]) && FileISet(addedFiles[l]) == WithFiles(AddedAll(l, es), l, e.added)
      ensures forall l | 0 <= l < NUM_LEVELS ::
        NatISet(deletedFiles[l]) == WithoutNumbers(NatISet(old(deletedFiles[l])), l, e.added)
    {
      for i := 0 to |e.added|
        invariant |deletedFiles| == NUM_LEVELS && |addedFiles| == NUM_LEVELS
        invariant forall l | 0 <= l < NUM_LEVELS ::
          SortedBySmallest(addedFiles[l]) && FileISet(addedFiles[l]) == WithFiles(AddedAll(l, es), l, e.added[..i])
        invariant forall l | 0 <= l < NUM_LEVELS ::
          NatISet(deletedFiles[l]) == WithoutNumbers(NatISet(old(deletedFiles[l])), l, e.added[..i])
      {
        var (level, f) := e.added[i];
        AddIsNew(e, i, FileISet(base[level]), level, es);
        assert e.added[..i + 1] == e.added[..i] + [(level, f)];
        assert forall g | g in addedFiles[level] :: g in FileISet(addedFiles[level]);
        var files := InsertAdded(addedFiles[level], f);
        forall l | 0 <= l < NUM_LEVELS
          ensures FileISet(if l == level then files else addedFiles[l])
            == WithFiles(AddedAll(l, es), l, e.added[..i + 1])
          ensures NatISet(if l == level then deletedFiles[l] - {f.number} else deletedFiles[l])
            == WithoutNumbers(NatISet(old(deletedFiles[l])), l, e.added[..i + 1])
        {
          AdditionStep(addedFiles[l], files, AddedAll(l, es), deletedFiles[l], NatISet(old(deletedFiles[l])), l,
            e.added[..i], level, f);
        }
        deletedFiles := deletedFiles[level := deletedFiles[level] - {f.number}];
        addedFiles := addedFiles[level := files];
      }
      assert e.added[..|e.added|] == e.added;
    }

    /** Apply: deletions first, then additions, which cancel deletions of the
        same number. */
    method Apply(e: Edit)
      requires Valid() && ValidEdit(e) && DistinctAdds(e) && Fresh(edits + [e])
      modifies this
      ensures Valid() && edits == old(edits) + [e]
    {
      DeleteFiles(e);
      AddFiles(e, edits);
      ghost var es := edits;
      edits := edits + [e];
      forall l | 0 <= l < NUM_LEVELS
        ensures NatISet(deletedFiles[l]) == DeletedAll(l, edits) && FileISet(addedFiles[l]) == AddedAll(l, edits)
      {
        assert edits[..|edits| - 1] == es;
        ApplyStep(l, es, e);
      }
    }

    /** SaveTo: in every level, the files that applying the edits one by one
        leaves, in BySmallestKey order. */
    method SaveTo() returns (v: Version)
      requires Valid() && Fresh(edits) && forall l | 0 <= l < NUM_LEVELS :: SortedBySmallest(base[l])
      ensures forall l | 0 <= l < NUM_LEVELS ::
        SortedBySmallest(v[l]) && FileISet(v[l]) == ApplyAll(FileISet(base[l]), l, edits)
    {
      v := [[], [], [], [], [], [], []];
      for level := 0 to NUM_LEVELS
        invariant forall l | 0 <= l < level ::
          SortedBySmallest(v[l]) && FileISet(v[l]) == ApplyAll(FileISet(base[l]), l, edits)
      {
        AddedAreNew(FileISet(base[level]), level, edits);
        assert forall g | g in addedFiles[level] :: g in FileISet(addedFiles[level]);
        assert forall f | f in base[level] :: f in FileISet(base[level]);
        var files := SaveLevel(base[level], addedFiles[level], deletedFiles[level]);
        SavedIsFold(FileISet(base[level]), level, edits);
        assert forall n :: n in deletedFiles[level] <==> n in NatISet(deletedFiles[level]);
        assert FileISet(files) == Saved(FileISet(base[level]), DeletedAll(level, edits), AddedAll(level, edits));
        v := v[level := files];
      }
    }
  }

  ghost predicate DistinctAdds(e: Edit) {
    forall i, j | 0 <= i < j < |e.added| && e.added[i].0 == e.added[j].0 :: e.added[i].1.number != e.added[j].1.number
  }

  ghost function WithDeletions(D: iset<nat>, level: nat, del: set<(nat, nat)>): iset<nat> {
    iset n | n in D || (level, n) in del
  }

  ghost function WithoutNumbers(D: iset<nat>, level: nat, adds: seq<(nat, File)>): iset<nat> {
    iset n | n in D && forall f | (level, f) in adds :: f.number != n
  }

  ghost function WithFiles(A: iset<File>, level: nat, adds: seq<(nat, File)>): iset<File> {
    iset f | f in A || (level, f) in adds
  }

  lemma DeletionStep(s: set<nat>, D: iset<nat>, level: nat, done: set<(nat, nat)>, d: (nat, nat))
    requires NatISet(s) == WithDeletions(D, level, done)
    ensures NatISet(if level == d.0 then s + {d.1} else s) == WithDeletions(D, level, done + {d})
  {
    assert forall n :: n in NatISet(s) <==> n in s;
    forall n ensures n in NatISet(if level == d.0 then s + {d.1} else s) <==> n in WithDeletions(D, level, done + {d}) {
      assert (level, n) == d <==> level == d.0 && n == d.1;
    }
  }

  lemma AdditionStep(s: seq<File>, files: seq<File>, A: iset<File>, d: set<nat>, D: iset<nat>, l: nat,
    adds: seq<(nat, File)>, level: nat, f: File)
    requires FileISet(s) == WithFiles(A, l, adds) && NatISet(d) == WithoutNumbers(D, l, adds)
    requires l == level ==> forall g :: g in files <==> g in s || g == f
    ensures FileISet(if l == level then files else s) == WithFiles(A, l, adds + [(level, f)])
    ensures NatISet(if l == level then d - {f.number} else d) == WithoutNumbers(D, l, adds + [(level, f)])
  {
    assert forall g :: g in FileISet(s) <==> g in s;
    assert forall n :: n in NatISet(d) <==> n in d;
    assert forall g :: (l, g) in adds + [(level, f)] <==> (l, g) in adds || (l == level && g == f);
  }

  lemma ApplyStep(level: nat, es: seq<Edit>, e: Edit)
    ensures DeletedAfter(DeletedAll(level, es), level, e)
      == WithoutNumbers(WithDeletions(DeletedAll(level, es), level, e.deleted), level, e.added)
    ensures AddedAfter(AddedAll(level, es), level, e) == WithFiles(AddedAll(level, es), level, e.added)
  {
    forall n ensures EditAddsNumber(e, level, n) <==> exists f :: (level, f) in e.added && f.number == n {
      if f :| (level, f) in e.added && f.number == n {
        assert EditAdds(e, level, f);
      }
    }
  }

  lemma AddIsNew(e: Edit, i: nat, base: iset<File>, level: nat, edits: seq<Edit>)
    requires DistinctAdds(e) && i < |e.added| && e.added[i].0 == level && AddsAreNew(base, level, edits + [e])
    ensures forall g | g in WithFiles(AddedAll(level, edits), level, e.added[..i]) :: g.number != e.added[i].1.number
  {
    var es := edits + [e];
    assert es[|edits|] == e && es[..|edits|] == edits;
    assert EditAdds(es[|edits|], level, e.added[i].1);
  }

  lemma {:induction false} AddedAreNew(base: iset<File>, level: nat, es: seq<Edit>)
    requires AddsAreNew(base, level, es)
    ensures forall f, g | f in base && g in AddedAll(level, es) :: f.number != g.number
  {
    if es != [] {
      var n := |es| - 1;
      forall i | 0 <= i < n ensures es[..n][i] == es[i] && es[..n][..i] == es[..i] {}
      AddedAreNew(base, level, es[..n]);
      assert forall g | EditAdds(es[n], level, g) :: forall f | f in base :: f.number != g.number;
    }
  }
}
