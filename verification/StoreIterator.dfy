/** DBImpl::NewInternalIterator and Version::AddIterators: the memtables and all files of a version
    as the children of one merging iterator. */
module StoreIterators {
  import opened InternalKeys
  import opened Files
  import opened Version
  import opened MergingIterators
  import opened CompactionLoop
  import opened CompactionInputs
  import opened CompactionMerge

  /** The children hold exactly these entries, each in one child. */
  ghost predicate Hold(children: seq<Child>, es: set<Entry>) {
    ChildrenOk(children) && forall e :: InSome(children, e) <==> e in es
  }

  lemma NoChildren()
    ensures Hold([], {})
  {
  }

  /** One more child of new entries. */
  lemma OneMoreChild(children: seq<Child>, es: set<Entry>, child: Child)
    requires Hold(children, es) && Sorted(child) && UniqueSequence(es + Entries(child)) && es !! Entries(child)
    ensures Hold(children + [child], es + Entries(child))
  {
    var more := children + [child];
    forall c, d, i, j | 0 <= c < |more| && 0 <= d < |more| && c != d && 0 <= i < |more[c]| && 0 <= j < |more[d]|
      ensures KeyOf(more[c][i]) != KeyOf(more[d][j])
    {
      if c == |children| {
        FromBefore(children, es, d, j);
        DifferentKeys(es, child, children[d][j], child[i]);
      } else if d == |children| {
        FromBefore(children, es, c, i);
        DifferentKeys(es, child, children[c][i], child[j]);
      }
    }
    forall e ensures InSome(more, e) <==> e in es + Entries(child) {
      if e in Entries(child) {
        assert more[|children|] == child;
      }
      if InSome(children, e) {
        var c :| 0 <= c < |children| && e in children[c];
        assert more[c] == children[c];
      }
      if InSome(more, e) {
        var c :| 0 <= c < |more| && e in more[c];
        assert c < |children| ==> e in children[c];
      }
    }
  }

  lemma FromBefore(children: seq<Child>, es: set<Entry>, c: nat, i: nat)
    requires Hold(children, es) && c < |children| && i < |children[c]|
    ensures children[c][i] in es
  {
    assert children[c][i] in children[c];
    assert InSome(children, children[c][i]);
  }

  lemma DifferentKeys(es: set<Entry>, child: Child, x: Entry, y: Entry)
    requires UniqueSequence(es + Entries(child)) && es !! Entries(child) && x in es && y in child
    ensures KeyOf(x) != KeyOf(y)
  {
    assert y in Entries(child);
    assert x != y;
    SameKeySameNumber(x, y);
  }

  lemma SameKeySameNumber(x: Entry, y: Entry)
    ensures KeyOf(x) == KeyOf(y) ==> x.sn == y.sn
  {
  }

  // ---------- the files ----------

  /** The files above level l. */
  ghost function UpTo(levels: Levels, l: nat): set<Placed> {
    set p | p in Slots(levels) && p.level < l
  }

  /** No entry is in two files of which one is probed before the other. */
  lemma ProbedApart(files: set<Placed>, p: Placed, q: Placed)
    requires Recent(files) && p in files && q in files && ProbedBefore(p, q)
    ensures Entries(p.file.entries) !! Entries(q.file.entries)
  {
    assert Newer(p.file, q.file);
    forall e | e in Entries(p.file.entries) ensures e !in Entries(q.file.entries) {
    }
  }

  lemma Level0Step(levels: Levels, i: nat)
    requires LevelsOk(levels) && i < |levels[0]|
    ensures var fs := levels[0];
            && Sorted(fs[i].entries)
            && EntriesOf(Place(0, fs[..i + 1])) == EntriesOf(Place(0, fs[..i])) + Entries(fs[i].entries)
            && EntriesOf(Place(0, fs[..i])) !! Entries(fs[i].entries)
  {
    var fs := levels[0];
    assert Placed(0, fs[i]) in Slots(levels);
    assert fs[..i + 1] == fs[..i] + [fs[i]];
    forall e | e in EntriesOf(Place(0, fs[..i])) ensures e !in Entries(fs[i].entries) {
      var p :| p in Place(0, fs[..i]) && e in p.file.entries;
      var k :| 0 <= k < i && fs[k] == p.file;
      assert fs[k].number != fs[i].number && Placed(0, fs[k]) in Slots(levels);
      if fs[k].number > fs[i].number {
        ProbedApart(Slots(levels), Placed(0, fs[k]), Placed(0, fs[i]));
      } else {
        ProbedApart(Slots(levels), Placed(0, fs[i]), Placed(0, fs[k]));
      }
      assert e in Entries(fs[k].entries);
    }
    forall e ensures e in EntriesOf(Place(0, fs[..i + 1])) <==> e in EntriesOf(Place(0, fs[..i])) + Entries(fs[i].entries) {
      if e in Entries(fs[i].entries) {
        assert Placed(0, fs[i]) in Place(0, fs[..i + 1]);
      }
      if e in EntriesOf(Place(0, fs[..i])) {
        var p :| p in Place(0, fs[..i]) && e in p.file.entries;
        assert p in Place(0, fs[..i + 1]);
      }
    }
  }

  lemma Level0IsDone(levels: Levels)
    requires |levels| == NUM_LEVELS
    ensures Place(0, levels[0][..0]) == {} && EntriesOf(Place(0, levels[0][..0])) == {}
    ensures Place(0, levels[0][..|levels[0]|]) == UpTo(levels, 1) && UpTo(levels, NUM_LEVELS) == Slots(levels)
  {
    assert levels[0][..|levels[0]|] == levels[0];
    forall p ensures p in Place(0, levels[0]) <==> p in UpTo(levels, 1) {
      assert p == Placed(p.level, p.file);
    }
  }

  lemma LevelStep(levels: Levels, l: nat)
    requires LevelsOk(levels) && 0 < l < NUM_LEVELS
    ensures var child := Concat(levels[l]);
            && Sorted(child) && EntriesOf(UpTo(levels, l + 1)) == EntriesOf(UpTo(levels, l)) + Entries(child)
            && EntriesOf(UpTo(levels, l)) !! Entries(child) && (levels[l] == [] ==> Entries(child) == {})
  {
    var child := Concat(levels[l]);
    ConcatOfRun(levels[l]);
    forall e | e in EntriesOf(UpTo(levels, l)) ensures e !in Entries(child) {
      var p :| p in UpTo(levels, l) && e in p.file.entries;
      assert e in Entries(p.file.entries);
      forall f | f in levels[l] ensures e !in f.entries {
        assert Placed(l, f) in Slots(levels);
        ProbedApart(Slots(levels), p, Placed(l, f));
        assert e !in Entries(f.entries);
      }
    }
    forall e ensures e in EntriesOf(UpTo(levels, l + 1)) <==> e in EntriesOf(UpTo(levels, l)) + Entries(child) {
      if e in EntriesOf(UpTo(levels, l + 1)) {
        var p :| p in UpTo(levels, l + 1) && e in p.file.entries;
        assert p.level < l ==> p in UpTo(levels, l);
        assert p.level == l ==> p.file in levels[l];
      }
      if e in Entries(child) {
        var f :| f in levels[l] && e in f.entries;
        assert Placed(l, f) in UpTo(levels, l + 1);
      }
      if e in EntriesOf(UpTo(levels, l)) {
        var p :| p in UpTo(levels, l) && e in p.file.entries;
        assert p in UpTo(levels, l + 1);
      }
    }
  }

  lemma SomeFiles(levels: Levels, ps: set<Placed>)
    requires ps <= Slots(levels)
    ensures EntriesOf(ps) <= EntriesOf(Slots(levels))
  {
  }

  lemma UpToIsStored(levels: Levels, l: nat)
    requires |levels| == NUM_LEVELS
    ensures UpTo(levels, l) <= Slots(levels)
    ensures forall i :: 0 <= i <= |levels[0]| ==> Place(0, levels[0][..i]) <= Slots(levels)
  {
    forall i, p | 0 <= i <= |levels[0]| && p in Place(0, levels[0][..i]) ensures p in Slots(levels) {
      assert p.file in levels[0];
    }
  }

  /** Adding the entries of one more file, or of one more level, to what the children hold. */
  lemma HoldMore(children: seq<Child>, es: set<Entry>, some: set<Entry>, more: set<Entry>, child: Child, files: set<Entry>)
    requires Hold(children, es + some) && Sorted(child) && more == some + Entries(child) && some !! Entries(child)
    requires UniqueSequence(es + files) && es !! files && more <= files
    ensures Hold(children + [child], es + more)
  {
    assert es + some + Entries(child) == es + more;
    OneMoreChild(children, es + some, child);
  }

  /** Version::AddIterators: a child for every level-0 file, a concatenating one for every other
      level that is not empty. */
  method AddIterators(list: seq<Child>, levels: Levels, ghost es: set<Entry>) returns (r: seq<Child>)
    requires Hold(list, es) && LevelsOk(levels)
    requires UniqueSequence(es + EntriesOf(Slots(levels))) && es !! EntriesOf(Slots(levels))
    ensures Hold(r, es + EntriesOf(Slots(levels)))
  {
    hide Hold, LevelsOk, UniqueSequence, EntriesOf, Slots, UpTo, Sorted, Place, Concat;
    var fs := LevelZero(levels);
    ghost var files := EntriesOf(Slots(levels));
    Level0IsDone(levels);
    r := list;
    assert es + {} == es;
    for i := 0 to |fs|
      invariant Hold(r, es + EntriesOf(Place(0, fs[..i])))
    {
      Level0Step(levels, i);
      UpToIsStored(levels, 0);
      SomeFiles(levels, Place(0, fs[..i + 1]));
      HoldMore(r, es, EntriesOf(Place(0, fs[..i])), EntriesOf(Place(0, fs[..i + 1])), fs[i].entries, files);
      r := r + [fs[i].entries];
    }
    for l := 1 to NUM_LEVELS
      invariant Hold(r, es + EntriesOf(UpTo(levels, l)))
    {
      LevelStep(levels, l);
      UpToIsStored(levels, l + 1);
      SomeFiles(levels, UpTo(levels, l + 1));
      if levels[l] != [] {
        HoldMore(r, es, EntriesOf(UpTo(levels, l)), EntriesOf(UpTo(levels, l + 1)), Concat(levels[l]), files);
        r := r + [Concat(levels[l])];
      } else {
        assert EntriesOf(UpTo(levels, l)) + {} == EntriesOf(UpTo(levels, l));
      }
    }
  }

  function LevelZero(levels: Levels): (fs: seq<File>)
    requires LevelsOk(levels)
    ensures |levels| == NUM_LEVELS && fs == levels[0]
  {
    levels[0]
  }

  /** DBImpl::NewInternalIterator: one cursor over everything that is stored. */
  method NewInternalIterator(mem: seq<Entry>, imm: Option<seq<Entry>>, levels: Levels) returns (iter: MergingIterator)
    requires Sorted(mem) && (imm.Some? ==> Sorted(imm.value)) && LevelsOk(levels)
    requires UniqueSequence(Entries(mem) + Waiting(imm) + EntriesOf(Slots(levels)))
    requires Entries(mem) !! Waiting(imm) && Entries(mem) + Waiting(imm) !! EntriesOf(Slots(levels))
    ensures fresh(iter) && iter.Inv() && Sorted(iter.merged)
    ensures Entries(iter.merged) == Entries(mem) + Waiting(imm) + EntriesOf(Slots(levels))
  {
    hide Hold, LevelsOk, EntriesOf, Slots, Sorted, MergeAll, ChildrenOk, IsMerge, InSome;
    NoChildren();
    OneMoreChild([], {}, mem);
    assert [] + [mem] == [mem] && {} + Entries(mem) == Entries(mem);
    var list := [mem];
    if imm.Some? {
      OneMoreChild(list, Entries(mem), imm.value);
      list := list + [imm.value];
    } else {
      assert Entries(mem) + {} == Entries(mem);
    }
    ghost var es := Entries(mem) + Waiting(imm);
    var children := AddIterators(list, levels, es);
    HeldMerge(children, es + EntriesOf(Slots(levels)));
    iter := new MergingIterator(children, MergeAll(children));
  }

  ghost function Waiting(imm: Option<seq<Entry>>): set<Entry> {
    if imm.Some? then Entries(imm.value) else {}
  }

  lemma HeldMerge(children: seq<Child>, es: set<Entry>)
    requires Hold(children, es)
    ensures IsMerge(children, MergeAll(children)) && Sorted(MergeAll(children)) && Entries(MergeAll(children)) == es
  {
    MergeExists(children);
    MergeAllSorted(children);
    MergeAllMembers(children);
    hide MergeAll, IsMerge, Sorted, ChildrenOk;
    forall e ensures e in Entries(MergeAll(children)) <==> e in es {
      assert e in MergeAll(children) <==> InSome(children, e);
    }
  }
}
