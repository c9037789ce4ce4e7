/** VersionSet::MakeInputIterator: the input files of a compaction as children of one
    merging iterator, and the sorted stream it yields. */
module CompactionMerge {
  import opened InternalKeys
  import opened Files
  import opened Version
  import opened MergingIterators
  import opened CompactionLoop
  import opened CompactionInputs

  // ---------- any sorted, distinct children have a merge ----------

  ghost function Merge2(a: seq<Entry>, b: seq<Entry>): seq<Entry> {
    if a == [] then b
    else if b == [] then a
    else if Less(KeyOf(a[0]), KeyOf(b[0])) then [a[0]] + Merge2(a[1..], b)
    else [b[0]] + Merge2(a, b[1..])
  }

  ghost predicate DistinctFrom(a: seq<Entry>, b: seq<Entry>) {
    forall x, y :: x in a && y in b ==> KeyOf(x) != KeyOf(y)
  }

  lemma {:induction false} Merge2Members(a: seq<Entry>, b: seq<Entry>)
    ensures forall e :: e in Merge2(a, b) <==> e in a || e in b
    decreases |a| + |b|
  {
    if a != [] && b != [] {
      assert a == [a[0]] + a[1..] && b == [b[0]] + b[1..];
      if Less(KeyOf(a[0]), KeyOf(b[0])) {
        Merge2Members(a[1..], b);
      } else {
        Merge2Members(a, b[1..]);
      }
    }
  }

  lemma ConsSorted(e: Entry, es: seq<Entry>)
    requires Sorted(es) && forall x :: x in es ==> Less(KeyOf(e), KeyOf(x))
    ensures Sorted([e] + es)
  {
  }

  lemma HeadIsLeast(es: seq<Entry>)
    requires Sorted(es) && es != []
    ensures Sorted(es[1..]) && forall x :: x in es[1..] ==> x in es && Less(KeyOf(es[0]), KeyOf(x))
  {
  }

  lemma {:induction false} Merge2Sorted(a: seq<Entry>, b: seq<Entry>)
    requires Sorted(a) && Sorted(b) && DistinctFrom(a, b)
    ensures Sorted(Merge2(a, b))
    decreases |a| + |b|
  {
    hide Sorted;
    if a != [] && b != [] {
      HeadIsLeast(a);
      HeadIsLeast(b);
      assert a[0] in a && b[0] in b;
      assert a == [a[0]] + a[1..] && b == [b[0]] + b[1..];
      if Less(KeyOf(a[0]), KeyOf(b[0])) {
        Merge2Members(a[1..], b);
        Merge2Sorted(a[1..], b);
        ConsSorted(a[0], Merge2(a[1..], b));
      } else {
        Merge2Members(a, b[1..]);
        Merge2Sorted(a, b[1..]);
        ConsSorted(b[0], Merge2(a, b[1..]));
      }
    }
  }

  ghost function MergeAll(children: seq<Child>): seq<Entry> {
    if children == [] then [] else Merge2(children[0], MergeAll(children[1..]))
  }

  ghost predicate ChildrenOk(children: seq<Child>) {
    (forall c :: 0 <= c < |children| ==> Sorted(children[c])) && DistinctKeys(children)
  }

  ghost predicate InSome(children: seq<Child>, e: Entry) {
    exists c :: 0 <= c < |children| && e in children[c]
  }

  lemma {:induction false} MergeAllMembers(children: seq<Child>)
    ensures forall e :: e in MergeAll(children) <==> InSome(children, e)
  {
    if children != [] {
      MergeAllMembers(children[1..]);
      Merge2Members(children[0], MergeAll(children[1..]));
      forall e ensures e in MergeAll(children) <==> InSome(children, e) {
        if c :| 0 <= c < |children| && e in children[c] {
          assert c > 0 ==> children[c] == children[1..][c - 1];
        }
        if e in MergeAll(children[1..]) {
          var c :| 0 <= c < |children[1..]| && e in children[1..][c];
          assert e in children[c + 1];
        }
      }
    }
  }

  lemma {:induction false} MergeAllSorted(children: seq<Child>)
    requires ChildrenOk(children)
    ensures Sorted(MergeAll(children))
  {
    if children != [] {
      var rest := children[1..];
      assert forall c :: 0 <= c < |rest| ==> rest[c] == children[c + 1];
      MergeAllSorted(rest);
      MergeAllMembers(rest);
      forall x, y | x in children[0] && y in MergeAll(rest) ensures KeyOf(x) != KeyOf(y) {
        var c :| 0 <= c < |rest| && y in rest[c];
        var i :| 0 <= i < |children[0]| && children[0][i] == x;
        var j :| 0 <= j < |children[c + 1]| && children[c + 1][j] == y;
      }
      Merge2Sorted(children[0], MergeAll(rest));
    }
  }

  lemma MergeExists(children: seq<Child>)
    requires ChildrenOk(children)
    ensures IsMerge(children, MergeAll(children))
  {
    MergeAllSorted(children);
    MergeAllMembers(children);
    var merged := MergeAll(children);
    forall c, j | 0 <= c < |children| && 0 <= j < |children[c]| ensures children[c][j] in merged {
      assert children[c][j] in children[c];
    }
    forall p | 0 <= p < |merged| ensures Held(children, merged[p]) {
      assert merged[p] in merged;
      var c :| 0 <= c < |children| && merged[p] in children[c];
      var j :| 0 <= j < |children[c]| && children[c][j] == merged[p];
      assert Holds(children, c, j, merged[p]);
    }
  }

  /** Everything a merging iterator yields from SeekToFirst on. */
  method Drain(children: seq<Child>) returns (input: seq<Entry>)
    requires ChildrenOk(children)
    ensures Sorted(input)
    ensures forall e :: e in input <==> InSome(children, e)
  {
    hide IsMerge, AtSplit, BeforeSplit, Sorted, ChildrenOk;
    ghost var merged := MergeAll(children);
    MergeExists(children);
    MergeAllSorted(children);
    MergeAllMembers(children);
    var it := new MergingIterator(children, merged);
    it.SeekToFirst();
    input := [];
    while it.IsValid()
      invariant it.Inv() && it.merged == merged && fresh(it)
      invariant input == merged[..it.position]
      decreases |merged| - it.position
    {
      input := input + [it.Get()];
      it.Next();
    }
    assert input == merged;
  }

  // ---------- the children of a compaction ----------

  /** The concatenating iterator over a sorted run yields a sorted child. */
  lemma {:induction false} ConcatOfRun(fs: seq<File>)
    requires Run(fs)
    ensures Sorted(Concat(fs))
    ensures forall e :: e in Concat(fs) <==> exists f :: f in fs && e in f.entries
  {
    if fs != [] {
      var n := |fs| - 1;
      ConcatOfRun(fs[..n]);
      assert fs == fs[..n] + [fs[n]];
      assert FileOk(fs[n]);
      forall x, y | x in Concat(fs[..n]) && y in fs[n].entries ensures Less(KeyOf(x), KeyOf(y)) {
        var f :| f in fs[..n] && x in f.entries;
        var i :| 0 <= i < n && fs[..n][i] == f;
        assert Less(fs[i].largest, fs[n].smallest) && FileOk(fs[i]);
        EntryInRange(fs[i], x);
        EntryInRange(fs[n], y);
      }
      AppendSorted(Concat(fs[..n]), fs[n].entries);
    }
  }

  lemma AppendSorted(a: seq<Entry>, b: seq<Entry>)
    requires Sorted(a) && Sorted(b) && forall x, y :: x in a && y in b ==> Less(KeyOf(x), KeyOf(y))
    ensures Sorted(a + b)
  {
    forall i, j | 0 <= i < j < |a + b| ensures Less(KeyOf((a + b)[i]), KeyOf((a + b)[j])) {
      if i < |a| && j >= |a| {
        assert a[i] in a && b[j - |a|] in b;
      }
    }
  }

  /** One child per level-0 file, one concatenating child per deeper level. */
  function InputChildren(level: nat, in0: seq<File>, in1: seq<File>): seq<Child> {
    (if level == 0 then seq(|in0|, i requires 0 <= i < |in0| => in0[i].entries) else [Concat(in0)])
    + [Concat(in1)]
  }

  /** Entries of two different files that are both stored are different keys. */
  lemma StoredKeysDiffer(files: set<Placed>, p: Placed, q: Placed, x: Entry, y: Entry)
    requires Recent(files) && UniqueSequence(EntriesOf(files))
    requires p in files && q in files && (ProbedBefore(p, q) || ProbedBefore(q, p))
    requires x in p.file.entries && y in q.file.entries
    ensures KeyOf(x) != KeyOf(y)
  {
    assert x.user == y.user ==> x.sn != y.sn;
  }

  /** What the inputs of a compaction look like, as lists. */
  ghost predicate InputsOk(levels: Levels, level: nat, in0: seq<File>, in1: seq<File>) {
    && |levels| == NUM_LEVELS && level + 1 < NUM_LEVELS
    && VersionOk(Slots(levels)) && UniqueSequence(EntriesOf(Slots(levels)))
    && Place(level, in0) <= Slots(levels) && Place(level + 1, in1) <= Slots(levels)
    && Run(in1) && (level > 0 ==> Run(in0)) && (level == 0 ==> Distinct(in0))
  }

  /** The list a child is concatenated from. */
  ghost function Source(level: nat, in0: seq<File>, in1: seq<File>, c: nat): seq<File>
    requires c < |InputChildren(level, in0, in1)|
  {
    if c == |InputChildren(level, in0, in1)| - 1 then in1
    else if level == 0 then [in0[c]] else in0
  }

  lemma SourceOfChild(levels: Levels, level: nat, in0: seq<File>, in1: seq<File>, c: nat)
    requires InputsOk(levels, level, in0, in1) && c < |InputChildren(level, in0, in1)|
    ensures Sorted(InputChildren(level, in0, in1)[c])
    ensures forall e :: e in InputChildren(level, in0, in1)[c] <==> exists f :: f in Source(level, in0, in1, c) && e in f.entries
  {
    if c == |InputChildren(level, in0, in1)| - 1 {
      ConcatOfRun(in1);
    } else if level == 0 {
      assert Placed(0, in0[c]) in Place(level, in0);
      assert in0[c] in [in0[c]];
    } else {
      ConcatOfRun(in0);
    }
  }

  lemma ChildKeysDiffer(levels: Levels, level: nat, in0: seq<File>, in1: seq<File>, c: nat, d: nat, x: Entry, y: Entry)
    requires InputsOk(levels, level, in0, in1)
    requires c < d < |InputChildren(level, in0, in1)|
    requires x in InputChildren(level, in0, in1)[c] && y in InputChildren(level, in0, in1)[d]
    ensures KeyOf(x) != KeyOf(y)
  {
    SourceOfChild(levels, level, in0, in1, c);
    SourceOfChild(levels, level, in0, in1, d);
    var f :| f in Source(level, in0, in1, c) && x in f.entries;
    var g :| g in Source(level, in0, in1, d) && y in g.entries;
    assert f in in0 && Placed(level, f) in Place(level, in0);
    if d == |InputChildren(level, in0, in1)| - 1 {
      assert Placed(level + 1, g) in Place(level + 1, in1);
      StoredKeysDiffer(Slots(levels), Placed(level, f), Placed(level + 1, g), x, y);
    } else {
      assert g in in0 && Placed(level, g) in Place(level, in0);
      assert f == in0[c] && g == in0[d] && f.number != g.number;
      StoredKeysDiffer(Slots(levels), Placed(0, f), Placed(0, g), x, y);
    }
  }

  lemma InputChildrenOk(levels: Levels, level: nat, in0: seq<File>, in1: seq<File>)
    requires InputsOk(levels, level, in0, in1)
    ensures ChildrenOk(InputChildren(level, in0, in1))
    ensures forall e :: InSome(InputChildren(level, in0, in1), e) <==> e in EntriesOf(Place(level, in0) + Place(level + 1, in1))
  {
    hide InputsOk, KeyOf, InputChildren;
    var cs := InputChildren(level, in0, in1);
    forall c | 0 <= c < |cs| ensures Sorted(cs[c]) {
      SourceOfChild(levels, level, in0, in1, c);
    }
    forall c, d, i, j | 0 <= c < |cs| && 0 <= d < |cs| && c != d && 0 <= i < |cs[c]| && 0 <= j < |cs[d]|
      ensures KeyOf(cs[c][i]) != KeyOf(cs[d][j])
    {
      assert cs[c][i] in cs[c] && cs[d][j] in cs[d];
      if c < d {
        ChildKeysDiffer(levels, level, in0, in1, c, d, cs[c][i], cs[d][j]);
      } else {
        ChildKeysDiffer(levels, level, in0, in1, d, c, cs[d][j], cs[c][i]);
      }
    }
    forall e ensures InSome(cs, e) <==> e in EntriesOf(Place(level, in0) + Place(level + 1, in1)) {
      ChildrenHoldInputs(levels, level, in0, in1, e);
    }
  }

  lemma ChildrenHoldInputs(levels: Levels, level: nat, in0: seq<File>, in1: seq<File>, e: Entry)
    requires InputsOk(levels, level, in0, in1)
    ensures InSome(InputChildren(level, in0, in1), e) <==> e in EntriesOf(Place(level, in0) + Place(level + 1, in1))
  {
    hide InputsOk;
    var cs := InputChildren(level, in0, in1);
    if c :| 0 <= c < |cs| && e in cs[c] {
      SourceOfChild(levels, level, in0, in1, c);
      var f :| f in Source(level, in0, in1, c) && e in f.entries;
      if c == |cs| - 1 {
        assert Placed(level + 1, f) in Place(level + 1, in1);
      } else {
        assert f in in0 && Placed(level, f) in Place(level, in0);
      }
    }
    if e in EntriesOf(Place(level, in0) + Place(level + 1, in1)) {
      var p :| p in Place(level, in0) + Place(level + 1, in1) && e in p.file.entries;
      var c := |cs| - 1;
      if p !in Place(level + 1, in1) {
        if level == 0 {
          c :| 0 <= c < |in0| && in0[c] == p.file;
        } else {
          c := 0;
        }
      }
      SourceOfChild(levels, level, in0, in1, c);
      assert p.file in Source(level, in0, in1, c);
      assert e in cs[c];
    }
  }

  /** The merged input stream of a compaction: all input entries, in internal-key order. */
  method MakeInput(levels: Levels, level: nat, in0: seq<File>, in1: seq<File>) returns (input: seq<Entry>)
    requires InputsOk(levels, level, in0, in1)
    ensures Sorted(input) && Entries(input) == EntriesOf(Place(level, in0) + Place(level + 1, in1))
    ensures UniqueSequence(Entries(input))
  {
    InputChildrenOk(levels, level, in0, in1);
    input := Drain(InputChildren(level, in0, in1));
    InputsAreStored(levels, level, in0, in1);
  }

  lemma InputsAreStored(levels: Levels, level: nat, in0: seq<File>, in1: seq<File>)
    requires InputsOk(levels, level, in0, in1)
    ensures UniqueSequence(EntriesOf(Place(level, in0) + Place(level + 1, in1)))
  {
    assert EntriesOf(Place(level, in0) + Place(level + 1, in1)) <= EntriesOf(Slots(levels));
  }
}
