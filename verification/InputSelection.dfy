/** Which files a compaction takes: overlap closure on level 0, boundary files on
    deeper levels, and the attempt to grow the upper input set for free. */
module InputSelection {
  import opened InternalKeys
  import opened Files
  import opened Version

  /** The file's user-key range meets [b, e]; a missing bound is infinite. */
  predicate Meets(f: File, b: Option<UserKey>, e: Option<UserKey>) {
    && (b.Some? ==> f.largest.user >= b.value)
    && (e.Some? ==> f.smallest.user <= e.value)
  }

  function Overlapping(fs: seq<File>, b: Option<UserKey>, e: Option<UserKey>): seq<File> {
    if fs == [] then []
    else
      var n := |fs| - 1;
      Overlapping(fs[..n], b, e) + if Meets(fs[n], b, e) then [fs[n]] else []
  }

  lemma {:induction false} OverlappingMembers(fs: seq<File>, b: Option<UserKey>, e: Option<UserKey>)
    ensures forall f :: f in Overlapping(fs, b, e) <==> f in fs && Meets(f, b, e)
  {
    if fs != [] {
      var n := |fs| - 1;
      OverlappingMembers(fs[..n], b, e);
      assert fs == fs[..n] + [fs[n]];
    }
  }

  ghost predicate UsersAscend(fs: seq<File>) {
    forall i, j :: 0 <= i <= j < |fs| ==>
      fs[i].smallest.user <= fs[j].smallest.user && fs[i].largest.user <= fs[j].largest.user
  }

  lemma OverlappingStep(fs: seq<File>, i: nat, b: Option<UserKey>, e: Option<UserKey>)
    requires i < |fs|
    ensures Overlapping(fs[..i + 1], b, e) == Overlapping(fs[..i], b, e) + if Meets(fs[i], b, e) then [fs[i]] else []
  {
    assert fs[..i + 1][..i] == fs[..i];
  }

  ghost predicate MeetExactly(fs: seq<File>, b: Option<UserKey>, e: Option<UserKey>, i: nat, j: nat) {
    forall k :: 0 <= k < |fs| ==> (Meets(fs[k], b, e) <==> i <= k < j)
  }

  lemma {:induction false} MeetingRange(fs: seq<File>, b: Option<UserKey>, e: Option<UserKey>) returns (i: nat, j: nat)
    requires UsersAscend(fs)
    ensures i <= j <= |fs| && MeetExactly(fs, b, e, i, j)
  {
    i := 0;
    while i < |fs| && !Meets(fs[i], b, e)
      invariant i <= |fs| && forall k :: 0 <= k < i ==> !Meets(fs[k], b, e)
    {
      i := i + 1;
    }
    j := i;
    while j < |fs| && Meets(fs[j], b, e)
      invariant i <= j <= |fs| && forall k :: i <= k < j ==> Meets(fs[k], b, e)
    {
      j := j + 1;
    }
  }

  lemma {:induction false} OverlappingOfRange(fs: seq<File>, b: Option<UserKey>, e: Option<UserKey>, i: nat, j: nat, n: nat)
    requires i <= j <= |fs| && MeetExactly(fs, b, e, i, j) && n <= |fs|
    ensures Overlapping(fs[..n], b, e) == if n <= i then [] else if n <= j then fs[i..n] else fs[i..j]
  {
    if n > 0 {
      OverlappingOfRange(fs, b, e, i, j, n - 1);
      OverlappingStep(fs, n - 1, b, e);
    }
  }

  /** In a sorted level the overlapping files stand next to each other. */
  lemma OverlappingIsSlice(fs: seq<File>, b: Option<UserKey>, e: Option<UserKey>) returns (i: nat, j: nat)
    requires UsersAscend(fs)
    ensures i <= j <= |fs| && Overlapping(fs, b, e) == fs[i..j] && MeetExactly(fs, b, e, i, j)
  {
    i, j := MeetingRange(fs, b, e);
    OverlappingOfRange(fs, b, e, i, j, |fs|);
    assert fs[..|fs|] == fs;
  }

  lemma {:induction false} OverlappingDistinct(fs: seq<File>, b: Option<UserKey>, e: Option<UserKey>)
    requires Distinct(fs)
    ensures Distinct(Overlapping(fs, b, e))
  {
    if fs != [] {
      var n := |fs| - 1;
      OverlappingDistinct(fs[..n], b, e);
      OverlappingMembers(fs[..n], b, e);
      forall f | f in Overlapping(fs[..n], b, e) ensures f.number != fs[n].number {
        var i :| 0 <= i < n && fs[..n][i] == f;
      }
    }
  }

  /** Narrowing the range can only lose files; losing none changes nothing. */
  lemma {:induction false} OverlappingNested(fs: seq<File>, b: UserKey, e: UserKey, b': UserKey, e': UserKey)
    requires b' <= b && e <= e'
    ensures |Overlapping(fs, Some(b), Some(e))| <= |Overlapping(fs, Some(b'), Some(e'))|
    ensures |Overlapping(fs, Some(b), Some(e))| == |Overlapping(fs, Some(b'), Some(e'))|
            ==> Overlapping(fs, Some(b), Some(e)) == Overlapping(fs, Some(b'), Some(e'))
  {
    if fs != [] {
      OverlappingNested(fs[..|fs| - 1], b, e, b', e');
    }
  }

  method SomeFileOverlapsRange(disjointSorted: bool, fs: seq<File>, lo: Option<UserKey>, hi: Option<UserKey>)
      returns (r: bool)
    requires forall f :: f in fs ==> FileOk(f) && f.largest.tag <= Pack(MAX_SEQUENCE, Put)
    requires disjointSorted ==> Run(fs)
    ensures r <==> exists f :: f in fs && Meets(f, lo, hi)
  {
    if !disjointSorted {
      for i := 0 to |fs|
        invariant forall f :: f in fs[..i] ==> !Meets(f, lo, hi)
      {
        if Meets(fs[i], lo, hi) {
          return true;
        }
      }
      assert fs[..|fs|] == fs;
      return false;
    }
    var index := 0;
    if lo.Some? {
      index := FindFile(fs, IKey(lo.value, Pack(MAX_SEQUENCE, Put)));
    }
    LargestAscend(fs);
    forall i | 0 <= i < |fs| ensures lo.Some? ==> (fs[i].largest.user >= lo.value <==> index <= i) {
      assert fs[i] in fs;
    }
    if index >= |fs| {
      return false;
    }
    r := !(hi.Some? && hi.value < fs[index].smallest.user);
    assert fs[index] in fs;
  }

  function TotalFileSize(fs: seq<File>): nat {
    if fs == [] then 0 else fs[0].size + TotalFileSize(fs[1..])
  }

  // ---------- overlap closure on level 0 ----------

  /** C contains every file that meets [b, e] or a file of C. */
  ghost predicate ClosedFrom(fs: seq<File>, b: Option<UserKey>, e: Option<UserKey>, C: set<File>) {
    && (forall f :: f in fs && Meets(f, b, e) ==> f in C)
    && (forall f, g :: f in fs && g in C && UserOverlap(f, g) ==> f in C)
  }

  predicate Within(x: UserKey, b: Option<UserKey>, e: Option<UserKey>) {
    (b.Some? ==> b.value <= x) && (e.Some? ==> x <= e.value)
  }

  /** Every key of the grown range is in the range asked for or in a file of C. */
  ghost predicate CoveredBy(C: set<File>, b: Option<UserKey>, e: Option<UserKey>, ub: Option<UserKey>, ue: Option<UserKey>) {
    forall x {:trigger Within(x, ub, ue)} :: Within(x, ub, ue) ==> Within(x, b, e) || exists g :: g in C && Covers(g, x)
  }

  ghost predicate Needed(fs: seq<File>, b: Option<UserKey>, e: Option<UserKey>, ub: Option<UserKey>, ue: Option<UserKey>) {
    forall C {:trigger ClosedFrom(fs, b, e, C)} :: ClosedFrom(fs, b, e, C) ==> CoveredBy(C, b, e, ub, ue)
  }

  lemma MeetingFileIsNeeded(fs: seq<File>, b: Option<UserKey>, e: Option<UserKey>,
                            ub: Option<UserKey>, ue: Option<UserKey>, C: set<File>, f: File)
    requires ClosedFrom(fs, b, e, C) && CoveredBy(C, b, e, ub, ue)
    requires f in fs && Meets(f, ub, ue) && f.smallest.user <= f.largest.user
    requires ub.Some? && ue.Some? ==> ub.value <= ue.value
    ensures f in C
  {
    var x := if ub.Some? && f.smallest.user < ub.value then ub.value else f.smallest.user;
    assert Within(x, ub, ue) && Covers(f, x);
    if Within(x, b, e) {
      assert Meets(f, b, e);
    } else {
      var g :| g in C && Covers(g, x);
      assert UserOverlap(f, g);
    }
  }

  lemma GrowingIsNeeded(fs: seq<File>, b: Option<UserKey>, e: Option<UserKey>,
                        ub: Option<UserKey>, ue: Option<UserKey>, ub': Option<UserKey>, ue': Option<UserKey>, f: File)
    requires Needed(fs, b, e, ub, ue)
    requires f in fs && Meets(f, ub, ue) && f.smallest.user <= f.largest.user
    requires ub.Some? && ue.Some? ==> ub.value <= ue.value
    requires (ub' == ub && ue' == Some(f.largest.user)) || (ue' == ue && ub' == Some(f.smallest.user))
    ensures Needed(fs, b, e, ub', ue')
  {
    forall C | ClosedFrom(fs, b, e, C) ensures CoveredBy(C, b, e, ub', ue') {
      MeetingFileIsNeeded(fs, b, e, ub, ue, C, f);
      forall x | Within(x, ub', ue') ensures Within(x, b, e) || exists g :: g in C && Covers(g, x) {
        assert Covers(f, x) || Within(x, ub, ue);
      }
    }
  }

  /** Files sticking out of the range: what the restarts of level 0 use up. */
  ghost function Outside(fs: seq<File>, ub: Option<UserKey>, ue: Option<UserKey>): set<(nat, bool)> {
    (set i | 0 <= i < |fs| && ub.Some? && fs[i].smallest.user < ub.value :: (i, true)) +
    (set i | 0 <= i < |fs| && ue.Some? && fs[i].largest.user > ue.value :: (i, false))
  }

  lemma OutsideShrinks(fs: seq<File>, ub: Option<UserKey>, ue: Option<UserKey>, ub': Option<UserKey>, ue': Option<UserKey>, i: nat)
    requires i < |fs|
    requires || (ub.Some? && ub' == Some(fs[i].smallest.user) && ub'.value < ub.value && ue' == ue)
             || (ue.Some? && ue' == Some(fs[i].largest.user) && ue'.value > ue.value && ub' == ub)
    ensures |Outside(fs, ub', ue')| < |Outside(fs, ub, ue)|
  {
    var before, after := Outside(fs, ub, ue), Outside(fs, ub', ue');
    assert after <= before;
    var gone := (i, ue' == ue && ub' != ub);
    assert gone in before && gone !in after;
    StrictSubsetIsSmaller(after, before);
  }

  ghost predicate ClosedUnderOverlap(fs: seq<File>, taken: seq<File>) {
    forall f, g :: f in fs && g in taken && UserOverlap(f, g) ==> f in taken
  }

  /** No file of the range sticks out of it. */
  ghost predicate Inside(fs: seq<File>, ub: Option<UserKey>, ue: Option<UserKey>) {
    forall f :: f in fs && Meets(f, ub, ue) ==> Within(f.smallest.user, ub, None) && Within(f.largest.user, None, ue)
  }

  /** One more file looked at; the range as stretched so far. */
  ghost predicate Scanned(level: nat, fs: seq<File>, i: nat, begin: Option<UserKey>, end: Option<UserKey>,
                          ub: Option<UserKey>, ue: Option<UserKey>, inputs: seq<File>)
    requires i <= |fs|
  {
    && inputs == Overlapping(fs[..i], ub, ue)
    && (level > 0 ==> ub == begin && ue == end)
    && (level == 0 ==> Inside(fs[..i], ub, ue))
  }

  ghost predicate Stretched(begin: Option<UserKey>, end: Option<UserKey>, ub: Option<UserKey>, ue: Option<UserKey>) {
    && (ub.Some? <==> begin.Some?) && (ue.Some? <==> end.Some?)
    && (begin.Some? ==> ub.value <= begin.value) && (end.Some? ==> end.value <= ue.value)
  }

  /** The range after a level-0 file sticks out of it: at most one end moves. */
  function Stretch(f: File, ub: Option<UserKey>, ue: Option<UserKey>): (Option<UserKey>, Option<UserKey>) {
    if ub.Some? && f.smallest.user < ub.value then (Some(f.smallest.user), ue)
    else if ue.Some? && f.largest.user > ue.value then (ub, Some(f.largest.user))
    else (ub, ue)
  }

  lemma ScanStart(level: nat, fs: seq<File>, begin: Option<UserKey>, end: Option<UserKey>,
                  ub: Option<UserKey>, ue: Option<UserKey>)
    requires level > 0 ==> ub == begin && ue == end
    ensures Scanned(level, fs, 0, begin, end, ub, ue, [])
    ensures ub == begin && ue == end ==> Stretched(begin, end, ub, ue) && Needed(fs, begin, end, ub, ue)
  {
    assert fs[..0] == [];
  }

  lemma ScanStep(level: nat, fs: seq<File>, i: nat, begin: Option<UserKey>, end: Option<UserKey>,
                 ub: Option<UserKey>, ue: Option<UserKey>, inputs: seq<File>)
    requires i < |fs| && Scanned(level, fs, i, begin, end, ub, ue, inputs)
    requires level == 0 && Meets(fs[i], ub, ue) ==> Stretch(fs[i], ub, ue) == (ub, ue)
    ensures Scanned(level, fs, i + 1, begin, end, ub, ue, inputs + if Meets(fs[i], ub, ue) then [fs[i]] else [])
  {
    OverlappingStep(fs, i, ub, ue);
    assert forall f :: f in fs[..i + 1] ==> f in fs[..i] || f in [fs[i]];
  }

  lemma ScanEnd(level: nat, fs: seq<File>, begin: Option<UserKey>, end: Option<UserKey>,
                ub: Option<UserKey>, ue: Option<UserKey>, inputs: seq<File>)
    requires forall f :: f in fs ==> f.smallest.user <= f.largest.user
    requires begin.Some? && end.Some? ==> begin.value <= end.value
    requires Scanned(level, fs, |fs|, begin, end, ub, ue, inputs)
    requires Stretched(begin, end, ub, ue) && Needed(fs, begin, end, ub, ue)
    ensures forall f :: f in inputs ==> f in fs
    ensures forall f :: f in fs && Meets(f, begin, end) ==> f in inputs
    ensures level > 0 ==> inputs == Overlapping(fs, begin, end)
    ensures level == 0 ==> ClosedUnderOverlap(fs, inputs)
    ensures Distinct(fs) ==> Distinct(inputs)
    ensures level == 0 ==> forall C, f :: ClosedFrom(fs, begin, end, C) && f in inputs ==> f in C
  {
    assert fs[..|fs|] == fs;
    OverlappingMembers(fs, ub, ue);
    if Distinct(fs) {
      OverlappingDistinct(fs, ub, ue);
    }
    if level == 0 {
      forall C, f | ClosedFrom(fs, begin, end, C) && f in inputs ensures f in C {
        MeetingFileIsNeeded(fs, begin, end, ub, ue, C, f);
      }
    }
  }

  lemma StretchIsNeeded(fs: seq<File>, begin: Option<UserKey>, end: Option<UserKey>,
                        ub: Option<UserKey>, ue: Option<UserKey>, i: nat)
    requires Needed(fs, begin, end, ub, ue) && Stretched(begin, end, ub, ue)
    requires begin.Some? && end.Some? ==> begin.value <= end.value
    requires i < |fs| && Meets(fs[i], ub, ue) && fs[i].smallest.user <= fs[i].largest.user
    requires Stretch(fs[i], ub, ue) != (ub, ue)
    ensures var (ub', ue') := Stretch(fs[i], ub, ue);
            Needed(fs, begin, end, ub', ue') && Stretched(begin, end, ub', ue')
            && |Outside(fs, ub', ue')| < |Outside(fs, ub, ue)|
  {
    var (ub', ue') := Stretch(fs[i], ub, ue);
    GrowingIsNeeded(fs, begin, end, ub, ue, ub', ue', fs[i]);
    OutsideShrinks(fs, ub, ue, ub', ue', i);
  }

  /** Version::GetOverlappingInputs. Below level 0 a single pass; on level 0 the search
      restarts whenever a file stretches the range, and ends with the least set that
      contains the files meeting [begin, end] and is closed under overlap. */
  method GetOverlappingInputs(level: nat, fs: seq<File>, begin: Option<UserKey>, end: Option<UserKey>)
      returns (inputs: seq<File>)
    requires forall f :: f in fs ==> f.smallest.user <= f.largest.user
    requires begin.Some? && end.Some? ==> begin.value <= end.value
    ensures forall f :: f in inputs ==> f in fs
    ensures forall f :: f in fs && Meets(f, begin, end) ==> f in inputs
    ensures level > 0 ==> inputs == Overlapping(fs, begin, end)
    ensures level == 0 ==> ClosedUnderOverlap(fs, inputs)
    ensures Distinct(fs) ==> Distinct(inputs)
    ensures level == 0 ==> forall C, f :: ClosedFrom(fs, begin, end, C) && f in inputs ==> f in C
  {
    hide *;
    var userBegin, userEnd := begin, end;
    inputs := [];
    ScanStart(level, fs, begin, end, begin, end);
    var i := 0;
    while i < |fs|
      invariant 0 <= i <= |fs|
      invariant Scanned(level, fs, i, begin, end, userBegin, userEnd, inputs)
      invariant Stretched(begin, end, userBegin, userEnd)
      invariant Needed(fs, begin, end, userBegin, userEnd)
      decreases |Outside(fs, userBegin, userEnd)|, |fs| - i
    {
      var f := fs[i];
      var stretched := Stretch(f, userBegin, userEnd);
      if level == 0 && Meets(f, userBegin, userEnd) && stretched != (userBegin, userEnd) {
        StretchIsNeeded(fs, begin, end, userBegin, userEnd, i);
        userBegin, userEnd := stretched.0, stretched.1;
        ScanStart(level, fs, begin, end, userBegin, userEnd);
        inputs := [];
        i := 0;
      } else {
        ScanStep(level, fs, i, begin, end, userBegin, userEnd, inputs);
        inputs := inputs + if Meets(f, userBegin, userEnd) then [f] else [];
        i := i + 1;
      }
    }
    ScanEnd(level, fs, begin, end, userBegin, userEnd, inputs);
  }
}
