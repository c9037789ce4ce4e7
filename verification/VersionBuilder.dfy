/** VersionSet::Builder: version edits, accumulated and then merged with a base version,
    and the replay of a manifest. */
module VersionBuilder {
  import opened InternalKeys
  import opened Files
  import opened Version

  // ---------- the order within a level ----------

  /** BySmallestKey */
  predicate FileLess(a: File, b: File) {
    Less(a.smallest, b.smallest) || (a.smallest == b.smallest && a.number < b.number)
  }

  ghost predicate Ordered(fs: seq<File>) {
    forall i, j :: 0 <= i < j < |fs| ==> FileLess(fs[i], fs[j])
  }

  lemma NonEmptyHasMember(fs: seq<File>)
    ensures fs != [] ==> exists f :: f in fs
  {
    if fs != [] {
      assert fs[0] in fs;
    }
  }

  /** An ordered list is determined by the files it holds. */
  lemma {:induction false} OrderedIsUnique(a: seq<File>, b: seq<File>)
    requires Ordered(a) && Ordered(b) && forall f :: f in a <==> f in b
    ensures a == b
  {
    if a == [] {
      NonEmptyHasMember(b);
    } else {
      assert a[0] in b && b != [] && b[0] in a;
      assert a[0] == b[0];
      forall f ensures f in a[1..] <==> f in b[1..] {
        assert f in a[1..] ==> f in a && f != a[0];
        assert f in b[1..] ==> f in b && f != b[0];
        assert f in a && f != a[0] ==> f in a[1..];
        assert f in b && f != b[0] ==> f in b[1..];
      }
      OrderedIsUnique(a[1..], b[1..]);
    }
  }

  /** Ordered files that are pairwise apart form a sorted run. */
  lemma OrderedApartIsRun(fs: seq<File>)
    requires Ordered(fs) && forall f :: f in fs ==> FileOk(f)
    requires forall f, g :: f in fs && g in fs && f != g ==> Apart(f, g)
    ensures Run(fs)
  {
    forall i, j | 0 <= i < j < |fs| ensures Less(fs[i].largest, fs[j].smallest) {
      assert FileOk(fs[i]) && FileOk(fs[j]) && fs[i] != fs[j];
      EntryInRange(fs[i], fs[i].entries[0]);
      EntryInRange(fs[j], fs[j].entries[0]);
      assert Apart(fs[i], fs[j]);
    }
  }

  // ---------- one level of a version edit ----------

  /** What an edit does to one level: numbers removed and files added. */
  datatype LevelEdit = LevelEdit(removed: set<nat>, added: set<File>)

  ghost function Numbers(fs: set<File>): set<nat> {
    set f | f in fs :: f.number
  }

  /** LogAndApply on one level: the new version holds what the old one held or the
      edit adds, except what the edit removes and does not add again. */
  ghost function ApplyOne(fs: set<File>, e: LevelEdit): set<File> {
    set f | f in fs + e.added && f.number !in e.removed - Numbers(e.added)
  }

  ghost function ApplyEach(fs: set<File>, es: seq<LevelEdit>): set<File> {
    if es == [] then fs else ApplyOne(ApplyEach(fs, es[..|es| - 1]), es[|es| - 1])
  }

  /** The state of a Builder on one level after a sequence of edits. */
  ghost function Accumulate(es: seq<LevelEdit>): LevelEdit {
    if es == [] then LevelEdit({}, {})
    else
      var acc, e := Accumulate(es[..|es| - 1]), es[|es| - 1];
      LevelEdit(acc.removed + e.removed - Numbers(e.added), acc.added + e.added)
  }

  ghost function Saved(base: set<File>, acc: LevelEdit): set<File> {
    set f | f in base + acc.added && f.number !in acc.removed
  }

  /** No edit adds a number that an earlier edit already added to the level. */
  ghost predicate NeverReadded(es: seq<LevelEdit>) {
    forall i, j :: 0 <= i < j < |es| ==> Numbers(es[i].added) !! Numbers(es[j].added)
  }

  lemma {:induction false} AccumulatedNumbers(es: seq<LevelEdit>, f: File)
    requires f in Accumulate(es).added
    ensures exists i :: 0 <= i < |es| && f in es[i].added
  {
    if es != [] {
      var n := |es| - 1;
      if f !in es[n].added {
        AccumulatedNumbers(es[..n], f);
        var i :| 0 <= i < n && f in es[..n][i].added;
        assert f in es[i].added;
      }
    }
  }

  /** Replaying all edits through one Builder over the empty version gives the files
      that applying them one version at a time gives. */
  lemma {:induction false} ReplayIsApplyEach(es: seq<LevelEdit>)
    requires NeverReadded(es)
    ensures Saved({}, Accumulate(es)) == ApplyEach({}, es)
  {
    if es != [] {
      var n := |es| - 1;
      var acc, e := Accumulate(es[..n]), es[n];
      ReplayIsApplyEach(es[..n]);
      forall f | f in acc.added ensures f.number !in Numbers(e.added) {
        AccumulatedNumbers(es[..n], f);
        var i :| 0 <= i < n && f in es[..n][i].added;
        assert f.number in Numbers(es[i].added) && Numbers(es[i].added) !! Numbers(es[n].added);
      }
      assert forall f :: f in e.added ==> f.number in Numbers(e.added);
    }
  }

  // ---------- the builder ----------

  /** The files of a list, on their level. */
  function AddedAt(level: nat, fs: seq<File>): seq<(nat, File)> {
    seq(|fs|, i requires 0 <= i < |fs| => (level, fs[i]))
  }

  lemma AddedAtMember(level: nat, fs: seq<File>, l: nat, f: File)
    ensures (l, f) in AddedAt(level, fs) <==> l == level && f in fs
  {
    if l == level && f in fs {
      var i :| 0 <= i < |fs| && fs[i] == f;
      assert AddedAt(level, fs)[i] == (l, f);
    }
  }

  datatype Edit = Edit(removed: seq<(nat, nat)>, added: seq<(nat, File)>)

  ghost function At(e: Edit, level: nat): LevelEdit {
    LevelEdit(set p | p in e.removed && p.0 == level :: p.1, set p | p in e.added && p.0 == level :: p.1)
  }

  ghost predicate LevelsInRange(e: Edit) {
    && (forall p :: p in e.removed ==> p.0 < NUM_LEVELS)
    && (forall p :: p in e.added ==> p.0 < NUM_LEVELS)
  }

  lemma InsertKeepsOrder(fs: seq<File>, at: nat, f: File)
    requires Ordered(fs) && at <= |fs|
    requires forall i :: 0 <= i < at ==> FileLess(fs[i], f)
    requires at < |fs| ==> FileLess(f, fs[at])
    ensures Ordered(fs[..at] + [f] + fs[at..])
    ensures forall g :: g in fs[..at] + [f] + fs[at..] <==> g in fs || g == f
  {
    forall i | at <= i < |fs| ensures FileLess(f, fs[i]) {
      assert i > at ==> FileLess(fs[at], fs[i]);
    }
    assert fs == fs[..at] + fs[at..];
    assert forall g :: g in fs[..at] + [f] + fs[at..] <==> g in fs[..at] || g == f || g in fs[at..];
  }

  /** The std::set of added files holds f already, or one it cannot tell from f. */
  ghost predicate Holds(added: seq<File>, f: File) {
    exists g :: g in added && !FileLess(g, f) && !FileLess(f, g)
  }

  /** Insertion into the std::set of added files. */
  method InsertFile(added: seq<File>, f: File) returns (r: seq<File>)
    requires Ordered(added)
    ensures Ordered(r)
    ensures if Holds(added, f) then r == added else forall g :: g in r <==> g in added || g == f
  {
    hide Ordered;
    var at := 0;
    while at < |added| && FileLess(added[at], f)
      invariant at <= |added| && forall i :: 0 <= i < at ==> FileLess(added[i], f)
    {
      at := at + 1;
    }
    if at < |added| && !FileLess(f, added[at]) {
      assert added[at] in added;
      return added;
    }
    if at < |added| {
      FirstIsLeast(added, at, f);
    }
    InsertKeepsOrder(added, at, f);
    r := added[..at] + [f] + added[at..];
  }

  lemma FirstIsLeast(added: seq<File>, at: nat, f: File)
    requires Ordered(added) && at < |added| && FileLess(f, added[at])
    ensures forall i :: at <= i < |added| ==> FileLess(f, added[i])
  {
    forall i | at <= i < |added| ensures FileLess(f, added[i]) {
      assert i > at ==> FileLess(added[at], added[i]);
    }
  }

  /** std::upper_bound on the base files of a level, from start on. */
  method UpperBound(fs: seq<File>, start: nat, f: File) returns (right: nat)
    requires Ordered(fs) && start <= |fs|
    ensures start <= right <= |fs|
    ensures forall i :: start <= i < right ==> !FileLess(f, fs[i])
    ensures forall i :: right <= i < |fs| ==> FileLess(f, fs[i])
  {
    var left := start;
    right := |fs|;
    while left < right
      invariant start <= left <= right <= |fs|
      invariant forall i :: start <= i < left ==> !FileLess(f, fs[i])
      invariant forall i :: right <= i < |fs| ==> FileLess(f, fs[i])
    {
      var mid := (left + right) / 2;
      if FileLess(f, fs[mid]) {
        right := mid;
      } else {
        left := mid + 1;
      }
    }
  }

  /** out holds, in order, the surviving files among a and b, all before what is still to come. */
  ghost predicate MergedSoFar(out: seq<File>, a: seq<File>, b: seq<File>, removed: set<nat>) {
    && Ordered(out)
    && forall f :: f in out <==> (f in a || f in b) && f.number !in removed
  }

  /** MaybeAddFile for a file behind everything merged so far. */
  method MaybeAddFile(out: seq<File>, f: File, removed: set<nat>, ghost a: seq<File>, ghost b: seq<File>) returns (r: seq<File>)
    requires MergedSoFar(out, a, b, removed)
    requires forall g :: g in a || g in b ==> FileLess(g, f)
    ensures MergedSoFar(r, a + [f], b, removed) && MergedSoFar(r, a, b + [f], removed)
  {
    r := if f.number in removed then out else out + [f];
    assert forall g :: g in out ==> FileLess(g, f);
  }

  /** base[..i] and added[..k] have been merged: what is behind them comes later. */
  ghost predicate Frontier(base: seq<File>, added: seq<File>, i: nat, k: nat) {
    && i <= |base| && k <= |added|
    && (forall m, n :: 0 <= m < i && k <= n < |added| ==> FileLess(base[m], added[n]))
    && (forall m, n :: i <= m < |base| && 0 <= n < k ==> FileLess(added[n], base[m]))
  }

  lemma StepBase(base: seq<File>, added: seq<File>, i: nat, k: nat)
    requires Ordered(base) && Ordered(added) && Frontier(base, added, i, k)
    requires i < |base| && (k < |added| ==> FileLess(base[i], added[k]))
    ensures Frontier(base, added, i + 1, k)
    ensures forall g :: g in base[..i] || g in added[..k] ==> FileLess(g, base[i])
  {
  }

  lemma StepAdded(base: seq<File>, added: seq<File>, i: nat, k: nat)
    requires Ordered(base) && Ordered(added) && Frontier(base, added, i, k)
    requires k < |added| && (i < |base| ==> FileLess(added[k], base[i]))
    ensures Frontier(base, added, i, k + 1)
    ensures forall g :: g in base[..i] || g in added[..k] ==> FileLess(g, added[k])
  {
  }

  lemma MergeStart(base: seq<File>, added: seq<File>, removed: set<nat>)
    ensures MergedSoFar([], base[..0], added[..0], removed) && Frontier(base, added, 0, 0)
  {
  }

  ghost predicate NoTies(base: seq<File>, added: seq<File>) {
    forall f, g :: f in base && g in added ==> FileLess(f, g) || FileLess(g, f)
  }

  /** SaveTo on one level: merges the added files with the base files, dropping the removed ones. */
  method SaveLevel(base: seq<File>, added: seq<File>, removed: set<nat>) returns (out: seq<File>)
    requires Ordered(base) && Ordered(added) && NoTies(base, added)
    ensures Ordered(out)
    ensures forall f :: f in out <==> (f in base || f in added) && f.number !in removed
  {
    hide MergedSoFar, FileLess, Frontier, Ordered;
    out := [];
    var i, k := 0, 0;
    MergeStart(base, added, removed);
    while k < |added|
      invariant i <= |base| && k <= |added|
      invariant MergedSoFar(out, base[..i], added[..k], removed) && Frontier(base, added, i, k)
    {
      var bpos := UpperBound(base, i, added[k]);
      while i < bpos
        invariant i <= bpos
        invariant MergedSoFar(out, base[..i], added[..k], removed) && Frontier(base, added, i, k)
      {
        assert base[i] in base && added[k] in added;
        StepBase(base, added, i, k);
        out := MaybeAddFile(out, base[i], removed, base[..i], added[..k]);
        assert base[..i] + [base[i]] == base[..i + 1];
        i := i + 1;
      }
      StepAdded(base, added, i, k);
      out := MaybeAddFile(out, added[k], removed, base[..i], added[..k]);
      assert added[..k] + [added[k]] == added[..k + 1];
      k := k + 1;
    }
    while i < |base|
      invariant i <= |base|
      invariant MergedSoFar(out, base[..i], added[..k], removed) && Frontier(base, added, i, k)
    {
      StepBase(base, added, i, k);
      out := MaybeAddFile(out, base[i], removed, base[..i], added[..k]);
      assert base[..i] + [base[i]] == base[..i + 1];
      i := i + 1;
    }
    MergeEnd(out, base, added, removed);
  }

  lemma MergeEnd(out: seq<File>, base: seq<File>, added: seq<File>, removed: set<nat>)
    requires MergedSoFar(out, base[..|base|], added[..|added|], removed)
    ensures Ordered(out)
    ensures forall f :: f in out <==> (f in base || f in added) && f.number !in removed
  {
    assert base[..|base|] == base && added[..|added|] == added;
  }

  /** No two added files of an edit share a level and a number. */
  ghost predicate DistinctNumbers(e: Edit) {
    forall p, q :: p in e.added && q in e.added && p.0 == q.0 && p.1.number == q.1.number ==> p == q
  }

  /** No added file has the number of a file there is on its level. */
  ghost predicate NotAdded(e: Edit, levels: Levels) {
    forall p, f :: p in e.added && p.0 < |levels| && f in levels[p.0] ==> p.1.number != f.number
  }

  class Builder {
    const base: Levels
    var removed: seq<set<nat>>
    var added: seq<seq<File>>

    ghost predicate Valid()
      reads this
    {
      && |base| == |removed| == |added| == NUM_LEVELS
      && (forall l :: 0 <= l < NUM_LEVELS ==> Ordered(added[l]))
    }

    /** What has been applied so far, level by level. */
    ghost function Acc(l: nat): LevelEdit
      reads this
      requires Valid() && l < NUM_LEVELS
    {
      LevelEdit(removed[l], set f | f in added[l])
    }

    constructor (base: Levels)
      requires |base| == NUM_LEVELS
      ensures Valid() && this.base == base
      ensures forall l :: 0 <= l < NUM_LEVELS ==> added[l] == [] && Acc(l) == LevelEdit({}, {})
    {
      this.base := base;
      removed := seq(NUM_LEVELS, _ => {});
      added := seq(NUM_LEVELS, _ => []);
    }

    /** Builder::Apply: one edit on top of what is accumulated. */
    method Apply(e: Edit)
      requires Valid() && LevelsInRange(e)
      modifies this
      ensures Valid()
      ensures DistinctNumbers(e) && NotAdded(e, old(added)) ==>
        forall l :: 0 <= l < NUM_LEVELS ==>
          Acc(l) == LevelEdit(old(Acc(l)).removed + At(e, l).removed - Numbers(At(e, l).added), old(Acc(l)).added + At(e, l).added)
    {
      RemoveAll(e);
      AddAll(e);
    }

    method RemoveAll(e: Edit)
      requires Valid() && LevelsInRange(e)
      modifies this`removed
      ensures Valid()
      ensures forall l :: 0 <= l < NUM_LEVELS ==> removed[l] == old(removed)[l] + At(e, l).removed
    {
      for i := 0 to |e.removed|
        invariant Valid()
        invariant forall l :: 0 <= l < NUM_LEVELS ==> removed[l] == old(removed)[l] + At(Edit(e.removed[..i], []), l).removed
      {
        var p := e.removed[i];
        assert p in e.removed;
        assert e.removed[..i + 1] == e.removed[..i] + [p];
        removed := removed[p.0 := removed[p.0] + {p.1}];
      }
      assert e.removed[..|e.removed|] == e.removed;
    }

    method AddAll(e: Edit)
      requires Valid() && LevelsInRange(e)
      modifies this
      ensures Valid()
      ensures forall l :: 0 <= l < NUM_LEVELS ==> removed[l] == old(removed)[l] - Numbers(At(e, l).added)
      ensures DistinctNumbers(e) && NotAdded(e, old(added)) ==>
        forall l, f :: 0 <= l < NUM_LEVELS ==> (f in added[l] <==> f in old(added)[l] || f in At(e, l).added)
    {
      ghost var clean := DistinctNumbers(e) && NotAdded(e, added);
      for i := 0 to |e.added|
        invariant Valid()
        invariant forall l :: 0 <= l < NUM_LEVELS ==> removed[l] == old(removed)[l] - Numbers(At(Edit([], e.added[..i]), l).added)
        invariant clean ==> forall l, f :: 0 <= l < NUM_LEVELS ==> (f in added[l] <==> f in old(added)[l] || (l, f) in e.added[..i])
      {
        var p := e.added[i];
        assert p in e.added;
        assert e.added[..i + 1] == e.added[..i] + [p];
        removed := removed[p.0 := removed[p.0] - {p.1.number}];
        if clean {
          forall g | g in added[p.0] ensures FileLess(g, p.1) || FileLess(p.1, g) || g == p.1 {
            if g in old(added)[p.0] {
              assert g.number != p.1.number;
            } else {
              assert (p.0, g) in e.added;
            }
          }
        }
        var r := InsertFile(added[p.0], p.1);
        added := added[p.0 := r];
      }
      assert e.added[..|e.added|] == e.added;
    }

    /** Builder::SaveTo */
    method SaveTo() returns (levels: Levels)
      requires Valid()
      requires forall l :: 0 <= l < NUM_LEVELS ==> Ordered(base[l]) && NoTies(base[l], added[l])
      ensures |levels| == NUM_LEVELS
      ensures forall l :: 0 <= l < NUM_LEVELS ==> IsSaved(levels[l], base[l], Acc(l))
    {
      levels := [];
      for l := 0 to NUM_LEVELS
        invariant |levels| == l
        invariant forall k :: 0 <= k < l ==> IsSaved(levels[k], base[k], Acc(k))
      {
        var out := SaveLevel(base[l], added[l], removed[l]);
        assert IsSaved(out, base[l], Acc(l));
        levels := levels + [out];
      }
    }
  }

  ghost function FileSet(fs: seq<File>): set<File> {
    set f | f in fs
  }

  ghost predicate IsSaved(out: seq<File>, base: seq<File>, acc: LevelEdit) {
    Ordered(out) && FileSet(out) == Saved(FileSet(base), acc)
  }

  /** The new version of LogAndApply: one edit over the current one. */
  method BuildVersion(current: Levels, e: Edit) returns (levels: Levels)
    requires |current| == NUM_LEVELS && LevelsInRange(e) && DistinctNumbers(e)
    requires forall l :: 0 <= l < NUM_LEVELS ==> Ordered(current[l])
    requires NotAdded(e, current)
    ensures |levels| == NUM_LEVELS
    ensures forall l :: 0 <= l < NUM_LEVELS ==> Ordered(levels[l]) && FileSet(levels[l]) == ApplyOne(FileSet(current[l]), At(e, l))
  {
    var builder := new Builder(current);
    builder.Apply(e);
    forall l | 0 <= l < NUM_LEVELS ensures NoTies(current[l], builder.added[l]) {
      forall f, g | f in current[l] && g in builder.added[l] ensures f.number != g.number {
        assert g in builder.Acc(l).added && g in At(e, l).added;
        assert (l, g) in e.added;
      }
    }
    levels := builder.SaveTo();
    assert forall l :: 0 <= l < NUM_LEVELS ==> IsSaved(levels[l], current[l], builder.Acc(l));
  }

  ghost function OnLevel(edits: seq<Edit>, l: nat): seq<LevelEdit> {
    seq(|edits|, i requires 0 <= i < |edits| => At(edits[i], l))
  }

  ghost predicate ManifestOk(edits: seq<Edit>) {
    && (forall e :: e in edits ==> LevelsInRange(e) && DistinctNumbers(e))
    && (forall l :: 0 <= l < NUM_LEVELS ==> NeverReadded(OnLevel(edits, l)))
  }

  lemma NotYetAdded(edits: seq<Edit>, i: nat, l: nat, f: File, g: File)
    requires i < |edits| && l < NUM_LEVELS && NeverReadded(OnLevel(edits, l))
    requires f in Accumulate(OnLevel(edits[..i], l)).added && (l, g) in edits[i].added
    ensures f.number != g.number
  {
    AccumulatedNumbers(OnLevel(edits[..i], l), f);
    var k :| 0 <= k < i && f in OnLevel(edits[..i], l)[k].added;
    var es := OnLevel(edits, l);
    assert Numbers(es[k].added) !! Numbers(es[i].added);
    assert f.number in Numbers(es[k].added) && g in es[i].added && g.number in Numbers(es[i].added);
  }

  lemma AccumulateStep(edits: seq<Edit>, i: nat, l: nat)
    requires i < |edits|
    ensures Accumulate(OnLevel(edits[..i + 1], l)) ==
            var acc := Accumulate(OnLevel(edits[..i], l));
            LevelEdit(acc.removed + At(edits[i], l).removed - Numbers(At(edits[i], l).added), acc.added + At(edits[i], l).added)
  {
    assert OnLevel(edits[..i + 1], l)[..i] == OnLevel(edits[..i], l);
  }

  /** What one Builder holds after the first i edits of a manifest. */
  ghost predicate Holding(builder: Builder, edits: seq<Edit>, i: nat)
    reads builder
    requires i <= |edits|
  {
    && builder.Valid() && builder.base == seq(NUM_LEVELS, _ => [])
    && (ManifestOk(edits) ==> forall l :: 0 <= l < NUM_LEVELS ==> builder.Acc(l) == Accumulate(OnLevel(edits[..i], l)))
  }

  method StartBuilder(ghost edits: seq<Edit>) returns (builder: Builder)
    ensures fresh(builder) && Holding(builder, edits, 0)
  {
    builder := new Builder(seq(NUM_LEVELS, _ => []));
  }

  /** The next edit of a manifest. Whatever edits come, the builder stays in order. */
  method ApplyNext(builder: Builder, e: Edit, ghost edits: seq<Edit>, ghost i: nat)
    requires i < |edits| && e == edits[i] && LevelsInRange(e) && Holding(builder, edits, i)
    modifies builder
    ensures Holding(builder, edits, i + 1)
  {
    if ManifestOk(edits) {
      forall p, f | p in e.added && f in builder.added[p.0] ensures p.1.number != f.number {
        assert f in builder.Acc(p.0).added;
        NotYetAdded(edits, i, p.0, f, p.1);
      }
    }
    builder.Apply(e);
    if ManifestOk(edits) {
      forall l | 0 <= l < NUM_LEVELS ensures builder.Acc(l) == Accumulate(OnLevel(edits[..i + 1], l)) {
        AccumulateStep(edits, i, l);
      }
    }
  }

  /** The lists are the ones the edits gave when they were applied one version at a time. */
  method FinishBuilder(builder: Builder, ghost edits: seq<Edit>) returns (levels: Levels)
    requires Holding(builder, edits, |edits|)
    ensures |levels| == NUM_LEVELS && forall l :: 0 <= l < NUM_LEVELS ==> Ordered(levels[l])
    ensures ManifestOk(edits) ==>
      forall l :: 0 <= l < NUM_LEVELS ==> FileSet(levels[l]) == ApplyEach({}, OnLevel(edits, l))
  {
    assert edits[..|edits|] == edits;
    levels := builder.SaveTo();
    forall l | 0 <= l < NUM_LEVELS
      ensures Ordered(levels[l]) && (ManifestOk(edits) ==> FileSet(levels[l]) == ApplyEach({}, OnLevel(edits, l)))
    {
      assert IsSaved(levels[l], builder.base[l], builder.Acc(l));
      assert FileSet(builder.base[l]) == {};
      if ManifestOk(edits) {
        ReplayIsApplyEach(OnLevel(edits, l));
      }
    }
  }
}
