/** Version::GetOverlappingInputs and AddBoundaryInputs (db/version_set.cc). */
module Overlaps {
  import opened Options
  import opened Keys
  import opened Versions

  /** A user-key range; a missing end is unbounded. */
  datatype Range = Range(lo: Option<UserKey>, hi: Option<UserKey>)
  {
    predicate Meets(f: File) {
      !(lo.Some? && f.largest.user < lo.value) && !(hi.Some? && hi.value < f.smallest.user)
    }

    predicate Contains(f: File) {
      (lo.Some? ==> lo.value <= f.smallest.user) && (hi.Some? ==> f.largest.user <= hi.value)
    }

    predicate Covers(r: Range) {
      && (lo.Some? ==> r.lo.Some? && lo.value <= r.lo.value)
      && (hi.Some? ==> r.hi.Some? && r.hi.value <= hi.value)
    }
  }

  ghost function Meeting(fs: seq<File>, r: Range): seq<File> {
    if fs == [] then [] else
      var last := fs[|fs| - 1];
      Meeting(fs[..|fs| - 1], r) + if r.Meets(last) then [last] else []
  }

  lemma {:induction false} MeetingMembers(fs: seq<File>, r: Range)
    ensures forall f :: f in Meeting(fs, r) <==> f in fs && r.Meets(f)
  {
    if fs != [] {
      var n := |fs| - 1;
      MeetingMembers(fs[..n], r);
      assert fs == fs[..n] + [fs[n]];
    }
  }

  lemma {:induction false} MeetingNoDuplicates(fs: seq<File>, r: Range)
    requires NoDuplicates(fs)
    ensures NoDuplicates(Meeting(fs, r))
  {
    if fs != [] {
      var n := |fs| - 1;
      MeetingNoDuplicates(fs[..n], r);
      MeetingMembers(fs[..n], r);
      forall f | f in fs[..n] ensures f != fs[n] {
        var i :| 0 <= i < n && fs[i] == f;
      }
    }
  }

  /** A wider range meets more files, and the same ones if as many. */
  lemma {:induction false} MeetingGrows(fs: seq<File>, r: Range, w: Range)
    requires w.Covers(r)
    ensures |Meeting(fs, r)| <= |Meeting(fs, w)|
    ensures |Meeting(fs, r)| == |Meeting(fs, w)| ==> Meeting(fs, r) == Meeting(fs, w)
  {
    if fs != [] {
      MeetingGrows(fs[..|fs| - 1], r, w);
    }
  }

  // Every file that meets the range lies inside it.
  ghost predicate Closed(fs: seq<File>, r: Range) {
    forall f | f in fs && r.Meets(f) :: r.Contains(f)
  }

  // ---- termination of the level-0 restart ----

  ghost function Sticking(fs: seq<File>, r: Range): nat {
    if fs == [] then 0 else
      var f := fs[|fs| - 1];
      Sticking(fs[..|fs| - 1], r)
        + (if r.lo.Some? && f.smallest.user < r.lo.value then 1 else 0)
        + (if r.hi.Some? && r.hi.value < f.largest.user then 1 else 0)
  }

  lemma {:induction false} StickingShrinks(fs: seq<File>, r: Range, w: Range)
    requires w.Covers(r)
    ensures Sticking(fs, w) <= Sticking(fs, r)
    ensures (r.lo.Some? && w.lo.Some? && r.hi == w.hi && exists f ::
      f in fs && w.lo.value <= f.smallest.user < r.lo.value) ==> Sticking(fs, w) < Sticking(fs, r)
    ensures (r.hi.Some? && w.hi.Some? && r.lo == w.lo && exists f ::
      f in fs && r.hi.value < f.largest.user <= w.hi.value) ==> Sticking(fs, w) < Sticking(fs, r)
  {
    if fs != [] {
      var n := |fs| - 1;
      StickingShrinks(fs[..n], r, w);
      assert fs == fs[..n] + [fs[n]];
    }
  }

  // ---- gapless sets of files ----

  ghost predicate Clear(S: iset<File>, a: UserKey, b: UserKey) {
    forall f | f in S :: !UserOverlap(f, a, b)
  }

  /** Every range clear of S lies on one side of it. */
  ghost predicate Gapless(S: iset<File>) {
    forall a, b | a <= b && Clear(S, a, b) ::
      (forall f | f in S :: b < f.smallest.user) || (forall f | f in S :: f.largest.user < a)
  }

  // lo and hi are ends of files of S.
  ghost predicate Anchored(S: iset<File>, lo: UserKey, hi: UserKey) {
    (exists f :: f in S && f.smallest.user == lo) && (exists f :: f in S && f.largest.user == hi)
  }

  /** Adding files that meet a range anchored in a gapless set leaves no gap. */
  lemma GaplessGrows(S: iset<File>, T: iset<File>, lo: UserKey, hi: UserKey)
    requires Gapless(S) && Anchored(S, lo, hi)
    requires S <= T && forall f | f in T :: f in S || UserOverlap(f, lo, hi)
    requires forall f | f in T :: f.smallest.user <= f.largest.user
    ensures Gapless(T)
  {
    forall a, b | a <= b && Clear(T, a, b)
      ensures (forall f | f in T :: b < f.smallest.user) || (forall f | f in T :: f.largest.user < a)
    {
      assert Clear(S, a, b);
    }
  }

  lemma GaplessOne(f: File)
    ensures Gapless(iset{f}) && Anchored(iset{f}, f.smallest.user, f.largest.user)
  {
    assert f in iset{f};
  }

  ghost predicate ValidRanges(fs: seq<File>) {
    forall f | f in fs :: f.smallest.user <= f.largest.user
  }

  /** What GetOverlappingInputs leaves in `inputs`: the files meeting a range
      w, which is the requested range above level 0 and the least closed range
      covering it at level 0. */
  ghost predicate Overlapping(fs: seq<File>, level: nat, r: Range, w: Range, inputs: seq<File>) {
    && inputs == Meeting(fs, w) && w.Covers(r)
    && (level > 0 ==> w == r)
    && (level == 0 ==> Closed(fs, w) && forall x | Closed(fs, x) && x.Covers(r) :: x.Covers(w))
  }

  ghost function FilesOf(fs: seq<File>): iset<File> {
    iset f | f in fs
  }

  // The range is anchored in a gapless set.
  ghost predicate Seeded(S: iset<File>, r: Range) {
    && r.lo.Some? && r.hi.Some?
    && Gapless(S) && Anchored(S, r.lo.value, r.hi.value) && forall f | f in S :: f.smallest.user <= f.largest.user
  }

  /** How far the level-0 search has come: w is still below every closed range,
      and anchored in `chain`, files of fs linked to the seed. */
  ghost predicate Progress(fs: seq<File>, r: Range, w: Range, seed: iset<File>, chain: iset<File>) {
    && w.Covers(r)
    && (forall x: Range | Closed(fs, x) && x.Covers(r) :: x.Covers(w))
    && (Seeded(seed, r) ==> seed <= chain && Seeded(chain, w) && forall f | f in chain ::
      f in seed || (f in fs && w.Meets(f)))
  }

  lemma ProgressStep(fs: seq<File>, r: Range, was: Range, w: Range, f: File, seed: iset<File>, chain: iset<File>)
    requires ValidRanges(fs) && f in fs && was.Meets(f) && Progress(fs, r, was, seed, chain)
    requires (was.lo.Some? && f.smallest.user < was.lo.value && w == was.(lo := Some(f.smallest.user)))
      || (was.hi.Some? && was.hi.value < f.largest.user && w == was.(hi := Some(f.largest.user)))
    ensures Progress(fs, r, w, seed, chain + iset{f})
    ensures Sticking(fs, w) < Sticking(fs, was)
  {
    StickingShrinks(fs, was, w);
    forall x: Range | Closed(fs, x) && x.Covers(r) ensures x.Covers(w) {
      assert x.Covers(was) && x.Meets(f) && x.Contains(f);
    }
    if Seeded(seed, r) {
      assert UserOverlap(f, was.lo.value, was.hi.value);
      GaplessGrows(chain, chain + iset{f}, was.lo.value, was.hi.value);
      assert Anchored(chain + iset{f}, w.lo.value, w.hi.value);
    }
  }

  lemma ProgressDone(fs: seq<File>, r: Range, w: Range, seed: iset<File>, chain: iset<File>)
    requires ValidRanges(fs) && Progress(fs, r, w, seed, chain) && Seeded(seed, r)
    ensures Gapless(seed + FilesOf(Meeting(fs, w)))
  {
    MeetingMembers(fs, w);
    var all := seed + FilesOf(Meeting(fs, w));
    assert chain <= all;
    GaplessGrows(chain, all, w.lo.value, w.hi.value);
  }

  method GetOverlappingInputs(fs: seq<File>, level: nat, r: Range, ghost seed: iset<File>)
    returns (inputs: seq<File>, w: Range)
    requires ValidRanges(fs)
    ensures Overlapping(fs, level, r, w, inputs)
    ensures level == 0 && Seeded(seed, r) ==> Gapless(seed + FilesOf(inputs))
  {
    inputs := [];
    w := r;
    var i := 0;
    ghost var chain := seed;
    while i < |fs|
      invariant i <= |fs|
      invariant inputs == Meeting(fs[..i], w) && (level > 0 ==> w == r)
      invariant level == 0 ==> Closed(fs[..i], w) && Progress(fs, r, w, seed, chain)
      decreases Sticking(fs, w), |fs| - i
    {
      var f := fs[i];
      assert fs[..i + 1][..i] == fs[..i] && fs[..i + 1] == fs[..i] + [f];
      i := i + 1;
      if w.lo.Some? && f.largest.user < w.lo.value {
      } else if w.hi.Some? && f.smallest.user > w.hi.value {
      } else {
        inputs := inputs + [f];
        if level == 0 {
          var was := w;
          if w.lo.Some? && f.smallest.user < w.lo.value {
            w := w.(lo := Some(f.smallest.user));
          } else if w.hi.Some? && f.largest.user > w.hi.value {
            w := w.(hi := Some(f.largest.user));
          }
          if w != was {
            ProgressStep(fs, r, was, w, f, seed, chain);
            chain := chain + iset{f};
            inputs := [];
            i := 0;
          }
        }
      }
    }
    assert fs[..i] == fs;
    if level == 0 && Seeded(seed, r) {
      ProgressDone(fs, r, w, seed, chain);
    }
  }
}
