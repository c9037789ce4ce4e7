/** VersionSet::SetupOtherInputs and AddBoundaryInputs: the two input sets of a
    compaction, and the guarantees the merge relies on. */
module CompactionInputs {
  import opened InternalKeys
  import opened Files
  import opened Version
  import opened InputSelection
  import LsmTree

  // ---------- key ranges of file lists ----------

  ghost predicate Bounds(fs: seq<File>, lo: IKey, hi: IKey) {
    && (forall f :: f in fs ==> !Less(f.smallest, lo) && !Less(hi, f.largest))
    && (exists f :: f in fs && f.smallest == lo)
    && (exists f :: f in fs && f.largest == hi)
  }

  /** VersionSet::GetRange */
  method GetRange(inputs: seq<File>) returns (smallest: IKey, largest: IKey)
    requires inputs != []
    ensures Bounds(inputs, smallest, largest)
  {
    smallest, largest := inputs[0].smallest, inputs[0].largest;
    for i := 1 to |inputs|
      invariant Bounds(inputs[..i], smallest, largest)
    {
      var f := inputs[i];
      assert inputs[..i + 1] == inputs[..i] + [f];
      assert f in inputs[..i + 1];
      if Less(f.smallest, smallest) {
        smallest := f.smallest;
      }
      if Less(largest, f.largest) {
        largest := f.largest;
      }
    }
    assert inputs[..|inputs|] == inputs;
  }

  // ---------- boundary files ----------

  /** f continues the user key that key ends with. */
  predicate Continues(f: File, key: IKey) {
    Less(key, f.smallest) && f.smallest.user == key.user
  }

  method FindSmallestBoundaryFile(fs: seq<File>, key: IKey) returns (r: Option<File>)
    ensures r.None? ==> forall f :: f in fs ==> !Continues(f, key)
    ensures r.Some? ==> r.value in fs && Continues(r.value, key)
    ensures r.Some? ==> forall f :: f in fs && Continues(f, key) ==> !Less(f.smallest, r.value.smallest)
  {
    r := None;
    for i := 0 to |fs|
      invariant r.None? ==> forall f :: f in fs[..i] ==> !Continues(f, key)
      invariant r.Some? ==> r.value in fs && Continues(r.value, key)
      invariant r.Some? ==> forall f :: f in fs[..i] && Continues(f, key) ==> !Less(f.smallest, r.value.smallest)
    {
      assert forall f :: f in fs[..i + 1] ==> f in fs[..i] || f == fs[i];
      if Continues(fs[i], key) && (r.None? || Less(fs[i].smallest, r.value.smallest)) {
        r := Some(fs[i]);
      }
    }
    assert fs[..|fs|] == fs;
  }

  /** The chain of boundary files that follows key: each continues the user key the
      one before ends with, and nothing of the level comes in between. */
  ghost predicate Chain(fs: seq<File>, key: IKey, added: seq<File>)
    decreases |added|
  {
    added != [] ==>
      var last := |added| - 1;
      && Chain(fs, key, added[..last])
      && added[last] in fs
      && Continues(added[last], EndOf(key, added[..last]))
      && (forall g :: g in fs && Continues(g, EndOf(key, added[..last])) ==> !Less(g.smallest, added[last].smallest))
  }

  function EndOf(key: IKey, added: seq<File>): IKey {
    if added == [] then key else added[|added| - 1].largest
  }

  /** Files that lie behind key: what the search uses up. */
  ghost function Behind(fs: seq<File>, key: IKey): set<nat> {
    set i | 0 <= i < |fs| && Less(key, fs[i].smallest)
  }

  lemma BehindShrinks(fs: seq<File>, key: IKey, f: File)
    requires f in fs && Less(key, f.smallest) && !Less(f.largest, f.smallest)
    ensures |Behind(fs, f.largest)| < |Behind(fs, key)|
  {
    var i :| 0 <= i < |fs| && fs[i] == f;
    assert i in Behind(fs, key) && i !in Behind(fs, f.largest);
    assert Behind(fs, f.largest) <= Behind(fs, key);
    StrictSubsetIsSmaller(Behind(fs, f.largest), Behind(fs, key));
  }

  /** AddBoundaryInputs: terminates, only appends, and leaves no file of the level
      that continues the user key of the last one taken. */
  method AddBoundaryInputs(fs: seq<File>, files: seq<File>, ghost top: IKey) returns (r: seq<File>, ghost added: seq<File>)
    requires forall f :: f in fs ==> !Less(f.largest, f.smallest)
    requires files != [] ==> exists lo :: Bounds(files, lo, top)
    ensures r == files + added
    ensures files == [] ==> r == []
    ensures Chain(fs, top, added)
    ensures files != [] ==> forall f :: f in fs ==> !Continues(f, EndOf(top, added))
  {
    r, added := files, [];
    if files == [] {
      return;
    }
    var smallest, largestKey := GetRange(files);
    assert largestKey == top;
    var searching := true;
    while searching
      invariant r == files + added && Chain(fs, top, added)
      invariant largestKey == EndOf(top, added)
      invariant !searching ==> forall f :: f in fs ==> !Continues(f, largestKey)
      decreases |Behind(fs, largestKey)|, searching
    {
      var next := FindSmallestBoundaryFile(fs, largestKey);
      if next.Some? {
        BehindShrinks(fs, largestKey, next.value);
        assert (added + [next.value])[..|added|] == added;
        r := r + [next.value];
        added := added + [next.value];
        largestKey := next.value.largest;
      } else {
        searching := false;
      }
    }
  }

  /** The first file behind fs[k - 1], among those that continue its user key, is fs[k]. */
  lemma NextLinkIsNeighbour(fs: seq<File>, k: nat, f: File)
    requires Run(fs) && 0 < k <= |fs| && f in fs && Continues(f, fs[k - 1].largest)
    requires forall g :: g in fs && Continues(g, fs[k - 1].largest) ==> !Less(g.smallest, f.smallest)
    ensures k < |fs| && fs[k] == f
  {
    var m :| 0 <= m < |fs| && fs[m] == f;
    LargestAscend(fs);
    assert FileOk(f);
    EntryInRange(f, f.entries[0]);
    assert m >= k;
    assert fs[k] in fs;
    assert m > k ==> Continues(fs[k], fs[k - 1].largest);
  }

  /** On a sorted level the chain behind files i..j is the slice j..k. */
  lemma {:induction false} ChainIsSlice(fs: seq<File>, i: nat, j: nat, added: seq<File>) returns (k: nat)
    requires Run(fs) && i < j <= |fs|
    requires Chain(fs, fs[j - 1].largest, added)
    ensures j <= k <= |fs| && added == fs[j..k]
    ensures EndOf(fs[j - 1].largest, added) == fs[k - 1].largest
  {
    hide Continues, Run;
    if added == [] {
      return j;
    }
    var last := |added| - 1;
    k := ChainIsSlice(fs, i, j, added[..last]);
    NextLinkIsNeighbour(fs, k, added[last]);
    assert added == added[..last] + [added[last]];
    k := k + 1;
  }

  /** A run of neighbouring files that ends on a user-key boundary. */
  ghost predicate CleanSlice(fs: seq<File>, taken: seq<File>, i: nat, k: nat) {
    && i < k <= |fs| && taken == fs[i..k]
    && (k < |fs| ==> fs[k - 1].largest.user != fs[k].smallest.user)
  }

  lemma BoundariesCloseSlice(fs: seq<File>, i: nat, j: nat, added: seq<File>) returns (k: nat)
    requires Run(fs) && i < j <= |fs|
    requires Chain(fs, fs[j - 1].largest, added)
    requires forall f :: f in fs ==> !Continues(f, EndOf(fs[j - 1].largest, added))
    ensures CleanSlice(fs, fs[i..j] + added, i, k) && j <= k
  {
    k := ChainIsSlice(fs, i, j, added);
    if k < |fs| {
      assert fs[k] in fs;
    }
  }

  lemma TopOfSlice(fs: seq<File>, i: nat, j: nat, lo: IKey, top: IKey)
    requires Run(fs) && i < j <= |fs| && Bounds(fs[i..j], lo, top)
    ensures top == fs[j - 1].largest && lo == fs[i].smallest
  {
    LargestAscend(fs);
    assert fs[i..j][j - 1 - i] == fs[j - 1] && fs[i..j][0] == fs[i];
    assert fs[j - 1] in fs[i..j] && fs[i] in fs[i..j];
    var f :| f in fs[i..j] && f.largest == top;
    var g :| g in fs[i..j] && g.smallest == lo;
  }

  /** On level 0 an overlap-closed set has no boundary files outside. */
  lemma ClosedHasNoBoundary(fs: seq<File>, taken: seq<File>, lo: IKey, top: IKey, f: File)
    requires forall g :: g in fs ==> FileOk(g)
    requires ClosedUnderOverlap(fs, taken) && Bounds(taken, lo, top)
    requires forall g :: g in taken ==> g in fs
    requires f in fs
    ensures !Continues(f, top)
  {
    var g :| g in taken && g.largest == top;
    EntryInRange(f, f.entries[0]);
    EntryInRange(g, g.entries[0]);
    assert UserOverlap(f, g) ==> f in taken;
  }

  // ---------- both input sets ----------

  ghost function Place(level: nat, fs: seq<File>): set<Placed> {
    set f | f in fs :: Placed(level, f)
  }

  lemma PlaceMembers(levels: Levels, level: nat, fs: seq<File>)
    requires level < |levels| && forall f :: f in fs ==> f in levels[level]
    ensures Place(level, fs) <= Slots(levels)
    ensures forall q :: q in Slots(levels) - Place(level, fs) && q.level == level ==> q.file in levels[level] && q.file !in fs
  {
  }

  /** The files of one level, as input selection needs them. */
  ghost predicate LevelOk(level: nat, fs: seq<File>) {
    && (forall f :: f in fs ==> FileOk(f))
    && (level == 0 ==> Distinct(fs))
    && (level > 0 ==> Run(fs))
  }

  /** The upper input set: closed on level 0, a clean run of neighbours below. */
  ghost predicate UpperOk(level: nat, upper: seq<File>, in0: seq<File>, i: nat, k: nat) {
    && in0 != []
    && (forall f :: f in in0 ==> f in upper)
    && (level == 0 ==> ClosedUnderOverlap(upper, in0) && Distinct(in0))
    && (level > 0 ==> CleanSlice(upper, in0, i, k))
  }

  /** The lower input set: the files of the next level in the user-key range of in0. */
  ghost predicate LowerOk(lower: seq<File>, in0: seq<File>, in1: seq<File>) {
    forall lo, hi :: Bounds(in0, lo, hi) ==> in1 == Overlapping(lower, Some(lo.user), Some(hi.user))
  }

  lemma CleanSliceSplitsUsers(fs: seq<File>, taken: seq<File>, i: nat, k: nat, f: File, g: File)
    requires Run(fs) && CleanSlice(fs, taken, i, k)
    requires f in taken && g in fs && g !in taken && Less(f.largest, g.smallest)
    ensures f.largest.user != g.smallest.user
  {
    LargestAscend(fs);
    var n :| 0 <= n < |taken| && taken[n] == f;
    var m :| 0 <= m < |fs| && fs[m] == g;
    assert f == fs[i + n];
    assert forall x :: i <= x < k ==> fs[x] == taken[x - i];
    assert FileOk(fs[i + n]) && FileOk(fs[m]);
    EntryInRange(f, f.entries[0]);
    EntryInRange(g, g.entries[0]);
    assert m >= k;
  }

  lemma OutsideRangeIsToOneSide(levels: Levels, level: nat, in0: seq<File>, in1: seq<File>, lo: IKey, hi: IKey, g: File)
    requires LevelsOk(levels) && level + 1 < NUM_LEVELS
    requires Bounds(in0, lo, hi) && in1 == Overlapping(levels[level + 1], Some(lo.user), Some(hi.user))
    requires g in levels[level + 1] && g !in in1
    ensures LsmTree.LeftOf(g, Place(level, in0), Place(level + 1, in1)) || LsmTree.RightOf(g, Place(level, in0), Place(level + 1, in1))
  {
    var fs := levels[level + 1];
    OverlappingMembers(fs, Some(lo.user), Some(hi.user));
    assert FileOk(g);
    EntryInRange(g, g.entries[0]);
    forall f | f in in1 ensures Apart(f, g) && f.smallest.user <= f.largest.user {
      assert FileOk(f);
      EntryInRange(f, f.entries[0]);
      var a :| 0 <= a < |fs| && fs[a] == f;
      var b :| 0 <= b < |fs| && fs[b] == g;
    }
    if g.largest.user < lo.user {
      assert LsmTree.LeftOf(g, Place(level, in0), Place(level + 1, in1));
    } else {
      assert LsmTree.RightOf(g, Place(level, in0), Place(level + 1, in1));
    }
  }

  lemma UpperLeavesNewer(levels: Levels, level: nat, in0: seq<File>, i: nat, k: nat, p: Placed, q: Placed)
    requires LevelsOk(levels) && level < NUM_LEVELS && UpperOk(level, levels[level], in0, i, k)
    requires p in Place(level, in0) && q in Slots(levels) - Place(level, in0) && q.level == level
    ensures level == 0 ==> !UserOverlap(p.file, q.file)
    ensures level > 0 && Less(p.file.largest, q.file.smallest) ==> p.file.largest.user != q.file.smallest.user
  {
    PlaceMembers(levels, level, in0);
    if level == 0 {
      assert UserOverlap(p.file, q.file) ==> UserOverlap(q.file, p.file);
    } else if Less(p.file.largest, q.file.smallest) {
      CleanSliceSplitsUsers(levels[level], in0, i, k, p.file, q.file);
    }
  }

  lemma InputsAreSelected(levels: Levels, level: nat, in0: seq<File>, in1: seq<File>, i: nat, k: nat, lo: IKey, hi: IKey)
    requires LevelsOk(levels) && level + 1 < NUM_LEVELS
    requires UpperOk(level, levels[level], in0, i, k) && Bounds(in0, lo, hi)
    requires in1 == Overlapping(levels[level + 1], Some(lo.user), Some(hi.user))
    ensures LsmTree.Selected(Slots(levels), level, Place(level, in0), Place(level + 1, in1))
  {
    hide LsmTree.LeftOf, LsmTree.RightOf, UserOverlap, VersionOk, Less;
    OverlappingMembers(levels[level + 1], Some(lo.user), Some(hi.user));
    PlaceMembers(levels, level, in0);
    PlaceMembers(levels, level + 1, in1);
    assert Placed(level, in0[0]) in Place(level, in0);
    var files, p0, p1 := Slots(levels), Place(level, in0), Place(level + 1, in1);
    forall p, q | p in p0 && q in files - p0 && q.level == level
      ensures level == 0 ==> !UserOverlap(p.file, q.file)
      ensures level > 0 && Less(p.file.largest, q.file.smallest) ==> p.file.largest.user != q.file.smallest.user
    {
      UpperLeavesNewer(levels, level, in0, i, k, p, q);
    }
    forall q | q in files - p1 && q.level == level + 1
      ensures LsmTree.LeftOf(q.file, p0, p1) || LsmTree.RightOf(q.file, p0, p1)
    {
      OutsideRangeIsToOneSide(levels, level, in0, in1, lo, hi, q.file);
    }
  }

  lemma BoundsAreUnique(fs: seq<File>, lo: IKey, hi: IKey, lo': IKey, hi': IKey)
    requires Bounds(fs, lo, hi) && Bounds(fs, lo', hi')
    ensures lo == lo' && hi == hi'
  {
  }

  lemma LevelFacts(level: nat, fs: seq<File>)
    requires LevelOk(level, fs)
    ensures forall f :: f in fs ==> f.smallest.user <= f.largest.user && !Less(f.largest, f.smallest)
    ensures level > 0 ==> UsersAscend(fs)
  {
    forall f | f in fs ensures f.smallest.user <= f.largest.user && !Less(f.largest, f.smallest) {
      assert FileOk(f);
      EntryInRange(f, f.entries[0]);
    }
    if level > 0 {
      LargestAscend(fs);
    }
  }

  lemma {:induction false} FirstLinkContinues(fs: seq<File>, key: IKey, added: seq<File>)
    requires Chain(fs, key, added) && forall f :: f in fs ==> !Continues(f, key)
    ensures added == []
  {
    if added != [] {
      FirstLinkContinues(fs, key, added[..|added| - 1]);
    }
  }

  /** closed is taken and behind it the boundary files that continue its last user key, one after the
      other, up to the last; no file else. */
  ghost predicate Closes(fs: seq<File>, taken: seq<File>, closed: seq<File>) {
    exists lo, top, added :: ClosesWith(fs, taken, closed, lo, top, added)
  }

  ghost predicate ClosesWith(fs: seq<File>, taken: seq<File>, closed: seq<File>, lo: IKey, top: IKey, added: seq<File>) {
    && Bounds(taken, lo, top) && closed == taken + added && Chain(fs, top, added)
    && forall f :: f in fs ==> !Continues(f, EndOf(top, added))
  }

  /** met are the files that meet the range, on level 0 with those that overlap them, and no others. */
  ghost predicate MeetingRange(level: nat, fs: seq<File>, lo: UserKey, hi: UserKey, met: seq<File>) {
    && (forall f :: f in met ==> f in fs)
    && (level > 0 ==> met == Overlapping(fs, Some(lo), Some(hi)))
    && (level == 0 ==>
          && (forall f :: f in fs && Meets(f, Some(lo), Some(hi)) ==> f in met)
          && forall C, f :: ClosedFrom(fs, Some(lo), Some(hi), C) && f in met ==> f in C)
  }

  /** wide is the upper set over the whole range of both inputs. */
  ghost predicate Grown(level: nat, upper: seq<File>, in0: seq<File>, in1: seq<File>, wide: seq<File>) {
    exists lo, hi, met :: Bounds(in0 + in1, lo, hi) && MeetingRange(level, upper, lo.user, hi.user, met) && Closes(upper, met, wide)
  }

  /** Upper set: boundary files added to what was picked. */
  method CloseUpper(level: nat, upper: seq<File>, picked: seq<File>, ghost i: nat, ghost j: nat)
      returns (in0: seq<File>, ghost k: nat)
    requires LevelOk(level, upper)
    requires picked != [] && forall f :: f in picked ==> f in upper
    requires level == 0 ==> ClosedUnderOverlap(upper, picked) && Distinct(picked)
    requires level > 0 ==> i < j <= |upper| && picked == upper[i..j]
    ensures UpperOk(level, upper, in0, i, k)
    ensures picked <= in0 && Closes(upper, picked, in0)
  {
    LevelFacts(level, upper);
    var lo, top := GetRange(picked);
    ghost var added;
    in0, added := AddBoundaryInputs(upper, picked, top);
    assert ClosesWith(upper, picked, in0, lo, top, added);
    if level > 0 {
      TopOfSlice(upper, i, j, lo, top);
      k := BoundariesCloseSlice(upper, i, j, added);
    } else {
      k := 0;
      forall f | f in upper ensures !Continues(f, top) {
        ClosedHasNoBoundary(upper, picked, lo, top, f);
      }
      FirstLinkContinues(upper, top, added);
    }
  }

  lemma WiderRangeKeepsUsers(inner: seq<File>, outer: seq<File>, lo: IKey, hi: IKey, lo': IKey, hi': IKey)
    requires forall f :: f in inner ==> f in outer
    requires Bounds(inner, lo, hi) && Bounds(outer, lo', hi')
    ensures lo'.user <= lo.user && hi.user <= hi'.user
  {
  }

  lemma RangeMeetsInputs(in0: seq<File>, in1: seq<File>, lo: IKey, hi: IKey)
    requires in0 != [] && Bounds(in0 + in1, lo, hi)
    requires forall f :: f in in0 ==> f.smallest.user <= f.largest.user
    ensures forall f :: f in in0 ==> Meets(f, Some(lo.user), Some(hi.user))
    ensures lo.user <= hi.user
  {
    assert in0[0] in in0 + in1;
  }

  /** Everything on the level that meets the whole range of the compaction. */
  method ExpandUpper(level: nat, upper: seq<File>, in0: seq<File>, in1: seq<File>)
      returns (expanded: seq<File>, ghost i: nat, ghost k: nat)
    requires LevelOk(level, upper)
    requires in0 != [] && forall f :: f in in0 ==> f in upper
    ensures UpperOk(level, upper, expanded, i, k)
    ensures forall f :: f in in0 ==> f in expanded
    ensures Grown(level, upper, in0, in1, expanded)
  {
    LevelFacts(level, upper);
    var allStart, allLimit := GetRange(in0 + in1);
    RangeMeetsInputs(in0, in1, allStart, allLimit);
    expanded := GetOverlappingInputs(level, upper, Some(allStart.user), Some(allLimit.user));
    assert in0[0] in in0 && in0[0] in expanded;
    ghost var j := 0;
    i := 0;
    if level > 0 {
      i, j := OverlappingIsSlice(upper, Some(allStart.user), Some(allLimit.user));
    }
    ghost var met := expanded;
    assert MeetingRange(level, upper, allStart.user, allLimit.user, met);
    expanded, k := CloseUpper(level, upper, expanded, i, j);
    assert Bounds(in0 + in1, allStart, allLimit) && Closes(upper, met, expanded);
  }

  lemma SameLowerForWider(lower: seq<File>, in0: seq<File>, wide: seq<File>, in1: seq<File>,
                          a: IKey, b: IKey, lo: IKey, hi: IKey)
    requires LowerOk(lower, in0, in1) && Bounds(in0, a, b) && Bounds(wide, lo, hi)
    requires forall f :: f in in0 ==> f in wide
    requires |Overlapping(lower, Some(lo.user), Some(hi.user))| == |in1|
    ensures LowerOk(lower, wide, in1)
  {
    WiderRangeKeepsUsers(in0, wide, a, b, lo, hi);
    OverlappingNested(lower, a.user, b.user, lo.user, hi.user);
    forall lo', hi' | Bounds(wide, lo', hi') ensures in1 == Overlapping(lower, Some(lo'.user), Some(hi'.user)) {
      BoundsAreUnique(wide, lo, hi, lo', hi');
    }
  }

  /** The files of the lower level in the user-key range of in0. */
  method LowerInputs(level: nat, lower: seq<File>, in0: seq<File>) returns (in1: seq<File>, lo: IKey, hi: IKey)
    requires level > 0 && LevelOk(level, lower)
    requires in0 != [] && forall f :: f in in0 ==> f.smallest.user <= f.largest.user
    ensures Bounds(in0, lo, hi) && in1 == Overlapping(lower, Some(lo.user), Some(hi.user))
    ensures LowerOk(lower, in0, in1)
  {
    LevelFacts(level, lower);
    lo, hi := GetRange(in0);
    assert in0[0] in in0;
    in1 := GetOverlappingInputs(level, lower, Some(lo.user), Some(hi.user));
    forall a, b | Bounds(in0, a, b) ensures in1 == Overlapping(lower, Some(a.user), Some(b.user)) {
      BoundsAreUnique(in0, lo, hi, a, b);
    }
  }

  /** Growing the upper set is worth it, not too much, and free: it brings more files, the whole stays
      below the limit, and it meets as many lower files as the base does. */
  ghost predicate MayGrow(lower: seq<File>, base: seq<File>, in1: seq<File>, wide: seq<File>, sizeLimit: nat) {
    && |wide| > |base| && TotalFileSize(in1) + TotalFileSize(wide) < sizeLimit
    && exists lo, hi :: Bounds(wide, lo, hi) && |Overlapping(lower, Some(lo.user), Some(hi.user))| == |in1|
  }

  lemma GrowthDecided(lower: seq<File>, base: seq<File>, in1: seq<File>, wide: seq<File>, sizeLimit: nat, lo: IKey, hi: IKey)
    requires Bounds(wide, lo, hi)
    ensures MayGrow(lower, base, in1, wide, sizeLimit) <==>
            && |wide| > |base| && TotalFileSize(in1) + TotalFileSize(wide) < sizeLimit
            && |Overlapping(lower, Some(lo.user), Some(hi.user))| == |in1|
  {
    hide TotalFileSize, Overlapping, Bounds;
    if MayGrow(lower, base, in1, wide, sizeLimit) {
      var a, b :| Bounds(wide, a, b) && |Overlapping(lower, Some(a.user), Some(b.user))| == |in1|;
      BoundsAreUnique(wide, lo, hi, a, b);
    }
  }

  /** VersionSet::SetupOtherInputs for what PickCompaction or CompactRange picked.
      Growing in0 is accepted only when it meets no further file of the lower level. */
  method SetupOtherInputs(level: nat, upper: seq<File>, lower: seq<File>, picked: seq<File>, sizeLimit: nat,
                          ghost i: nat, ghost j: nat)
      returns (in0: seq<File>, in1: seq<File>, ghost i': nat, ghost k: nat, ghost base: seq<File>, ghost wide: seq<File>)
    requires LevelOk(level, upper) && LevelOk(level + 1, lower)
    requires picked != [] && forall f :: f in picked ==> f in upper
    requires level == 0 ==> ClosedUnderOverlap(upper, picked) && Distinct(picked)
    requires level > 0 ==> i < j <= |upper| && picked == upper[i..j]
    ensures UpperOk(level, upper, in0, i', k) && LowerOk(lower, in0, in1)
    ensures forall f :: f in picked ==> f in in0
    ensures Closes(upper, picked, base) && LowerOk(lower, base, in1)
    ensures in1 != [] ==> Grown(level, upper, base, in1, wide)
    ensures in0 == if in1 != [] && MayGrow(lower, base, in1, wide, sizeLimit) then wide else base
  {
    hide *;
    i' := i;
    in0, k := CloseUpper(level, upper, picked, i, j);
    base, wide := in0, in0;
    UpperFacts(level, upper, in0, i', k);
    var lo, hi;
    in1, lo, hi := LowerInputs(level + 1, lower, in0);
    if in1 != [] {
      ghost var a, c;
      var expanded0;
      expanded0, a, c := ExpandUpper(level, upper, in0, in1);
      UpperFacts(level, upper, expanded0, a, c);
      wide := expanded0;
      GrowthNeeds(lower, base, in1, wide, sizeLimit);
      if |expanded0| > |in0| && TotalFileSize(in1) + TotalFileSize(expanded0) < sizeLimit {
        var expanded1, newStart, newLimit := LowerInputs(level + 1, lower, expanded0);
        GrowthDecided(lower, base, in1, wide, sizeLimit, newStart, newLimit);
        if |expanded1| == |in1| {
          SameLowerForWider(lower, in0, expanded0, in1, lo, hi, newStart, newLimit);
          SameLower(lower, expanded0, expanded1, in1, newStart, newLimit);
          in0, in1, i', k := expanded0, expanded1, a, c;
        }
      }
    }
  }

  lemma UpperFacts(level: nat, upper: seq<File>, in0: seq<File>, i: nat, k: nat)
    requires LevelOk(level, upper) && UpperOk(level, upper, in0, i, k)
    ensures in0 != [] && forall f :: f in in0 ==> f in upper && f.smallest.user <= f.largest.user
  {
    LevelFacts(level, upper);
  }

  lemma GrowthNeeds(lower: seq<File>, base: seq<File>, in1: seq<File>, wide: seq<File>, sizeLimit: nat)
    ensures MayGrow(lower, base, in1, wide, sizeLimit) ==> |wide| > |base| && TotalFileSize(in1) + TotalFileSize(wide) < sizeLimit
  {
  }

  lemma SameLower(lower: seq<File>, wide: seq<File>, expanded: seq<File>, in1: seq<File>, lo: IKey, hi: IKey)
    requires LowerOk(lower, wide, in1) && Bounds(wide, lo, hi) && expanded == Overlapping(lower, Some(lo.user), Some(hi.user))
    ensures expanded == in1
  {
  }
}
