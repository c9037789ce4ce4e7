/** VersionSet: every change of the file lists is logged in the manifest before it is installed,
    and Recover reads the lists back from the bytes of the manifest. */
module VersionSets {
  import opened InternalKeys
  import opened Coding
  import opened LogFormat
  import opened Files
  import opened Version
  import opened VersionBuilder
  import opened ManifestRecords
  import E = VersionEdits

  // ---------- what a new record does ----------

  ghost function NumbersOn(levels: Levels): set<(nat, nat)> {
    set l: nat, f | l < |levels| && f in levels[l] :: (l, f.number)
  }

  ghost function AddedBy(e: Edit): set<(nat, nat)> {
    set p | p in e.added :: (p.0, p.1.number)
  }

  lemma AddedSnoc(cs: seq<E.Contents>, c: E.Contents)
    ensures Added(cs + [c]) == Added(cs) + Added([c])
  {
    assert forall x :: x in cs + [c] <==> x in cs || x == c;
  }

  lemma BareImage(fs: seq<File>)
    ensures BareSet(fs) == set f | f in FileSet(fs) :: Bare(f)
  {
  }

  lemma AddedByMetas(S: Spelling, e: Edit, c: E.Contents)
    requires forall p :: p in c.newFiles <==> exists q :: q in e.added && p == (q.0, MetaOf(S, q.1))
    ensures Added([c]) == AddedBy(e)
  {
    forall x ensures x in Added([c]) <==> x in AddedBy(e) {
      if x in AddedBy(e) {
        var q :| q in e.added && x == (q.0, q.1.number);
        assert (q.0, MetaOf(S, q.1)) in c.newFiles && c in [c];
      }
    }
  }

  /** A record that says the same as e, and only adds distinct files. */
  lemma SameDistinct(S: Spelling, e: Edit, c: E.Contents)
    requires DistinctNumbers(e) && EditFits(S, e) && E.PairsAscend(c.deletedFiles)
    requires forall l :: At(BareEdit(S, c), l) == LevelEdit(At(e, l).removed, set f | f in At(e, l).added :: Bare(f))
    ensures DistinctNumbers(BareEdit(S, c)) && LevelsInRange(BareEdit(S, c))
  {
    var b := BareEdit(S, c);
    forall p | p in b.added ensures p.0 < NUM_LEVELS && exists q :: q in e.added && q.0 == p.0 && p.1 == Bare(q.1) {
      assert p.1 in At(b, p.0).added;
      var f :| f in At(e, p.0).added && p.1 == Bare(f);
      assert (p.0, f) in e.added;
    }
    forall p | p in b.removed ensures p.0 < NUM_LEVELS {
      assert p.1 in At(b, p.0).removed;
      assert p in e.removed;
    }
  }

  lemma EditIsNext(S: Spelling, name: Data, cs: seq<E.Contents>, e: Edit, c: E.Contents)
    requires DistinctNumbers(e) && EditFits(S, e) && AddedBy(e) !! Added(cs)
    requires E.RecordOk(c) && c.comparator.None? && AllCounted(c)
    requires forall l :: At(BareEdit(S, c), l) == LevelEdit(At(e, l).removed, set f | f in At(e, l).added :: Bare(f))
    requires forall p :: p in c.newFiles <==> exists q :: q in e.added && p == (q.0, MetaOf(S, q.1))
    ensures NextRecord(S, name, cs, c)
  {
    SameDistinct(S, e, c);
    AddedByMetas(S, e, c);
    assert forall m :: m in c.newFiles ==> (m.0, m.1.number) in Added([c]) by { assert c in [c]; }
    hide E.RecordOk, EditFits, DistinctNumbers, LevelsInRange, MetaOf, At, Bare;
  }

  /** The record of an edit takes the chronicle from the current version to the next. */
  lemma EditStep(S: Spelling, name: Data, cs: seq<E.Contents>, past: seq<Levels>, e: Edit, c: E.Contents, current: Levels, next: Levels)
    requires Chronicle(S, name, cs, past) && cs != [] && past[|past| - 1] == current
    requires DistinctNumbers(e) && EditFits(S, e) && AddedBy(e) !! Added(cs)
    requires E.RecordOk(c) && c.comparator.None? && AllCounted(c)
    requires forall l :: At(BareEdit(S, c), l) == LevelEdit(At(e, l).removed, set f | f in At(e, l).added :: Bare(f))
    requires forall p :: p in c.newFiles <==> exists q :: q in e.added && p == (q.0, MetaOf(S, q.1))
    requires Sound(S, next) && forall l :: 0 <= l < NUM_LEVELS ==> FileSet(next[l]) == ApplyOne(FileSet(current[l]), At(e, l))
    ensures Chronicle(S, name, cs + [c], past + [next]) && Added(cs + [c]) == Added(cs) + AddedBy(e)
  {
    AddedSnoc(cs, c);
    AddedByMetas(S, e, c);
    EditIsNext(S, name, cs, e, c);
    hide Chronicle, Added, E.RecordOk, EditFits, DistinctNumbers, NextRecord, AddedBy, BareSet, FileSet, Sound;
    forall l: nat | l < NUM_LEVELS
      ensures BareSet(next[l]) == ApplyOne(ApplyEach({}, OnLevel(BareEdits(S, cs), l)), At(BareEdit(S, c), l))
    {
      LastReplays(S, name, cs, past);
      BareImage(next[l]);
      BareImage(current[l]);
      BareApplyOne(FileSet(current[l]), At(e, l));
    }
    ChronicleGrows(S, name, cs, past, c, next);
  }

  lemma LastReplays(S: Spelling, name: Data, cs: seq<E.Contents>, past: seq<Levels>)
    requires Chronicle(S, name, cs, past) && cs != []
    ensures |past| == |cs| && Replays(S, cs, past[|past| - 1]) && Sound(S, past[|past| - 1])
  {
    assert cs[..|cs| - 1 + 1] == cs;
    hide Sound, Replays;
  }

  ghost predicate PointersSet(ptrs: seq<Data>) {
    |ptrs| == NUM_LEVELS && forall l :: 0 <= l < NUM_LEVELS ==> ptrs[l] == [] || E.KeyOk(ptrs[l])
  }

  /** A snapshot begins a chronicle with the version there is. */
  lemma SnapshotStep(S: Spelling, name: Data, ptrs: seq<Data>, levels: Levels)
    requires SpellingOk(S) && |name| < LIMIT32 && PointersSet(ptrs)
    requires Sound(S, levels)
    ensures var c := SnapshotRecord(S, name, ptrs, levels);
            && Chronicle(S, name, [c], [levels]) && Added([c]) == NumbersOn(levels) && PointersAfter([c]) == ptrs
  {
    var c := SnapshotRecord(S, name, ptrs, levels);
    var e := Edit([], FilesOfLevels(levels, NUM_LEVELS));
    SnapshotEdit(S, levels, e);
    MetasReadBack(S, e, c, 0);
    AddedByMetas(S, e, c);
    PointerListMembers(ptrs, NUM_LEVELS);
    PointerListTaken(ptrs, NUM_LEVELS);
    assert ptrs[..NUM_LEVELS] + NoPointers()[NUM_LEVELS..] == ptrs;
    assert [c][..0] == [];
    RecordFits(c);
    forall l: nat ensures At(BareEdit(S, c), l) == LevelEdit(At(e, l).removed, set f | f in At(e, l).added :: Bare(f)) {
      MetasReadBack(S, e, c, l);
    }
    SameDistinct(S, e, c);
    SnapshotReplays(S, levels, e, c);
    hide FilesOfLevels, MetasOf, E.RecordOk, Sound, BareSet, DistinctNumbers, SpellingOk, LevelsInRange;
    EmptyChronicle(S, name);
    assert [] + [c] == [c] && [] + [levels] == [levels];
    ChronicleGrows(S, name, [], [], c, levels);
  }

  lemma EmptyChronicle(S: Spelling, name: Data)
    ensures Chronicle(S, name, [], []) && Added([]) == {}
    ensures forall l :: ApplyEach({}, OnLevel(BareEdits(S, []), l)) == {}
  {
  }

  lemma SnapshotReplays(S: Spelling, levels: Levels, e: Edit, c: E.Contents)
    requires |levels| == NUM_LEVELS && e == Edit([], FilesOfLevels(levels, NUM_LEVELS))
    requires forall l :: At(BareEdit(S, c), l) == LevelEdit(At(e, l).removed, set f | f in At(e, l).added :: Bare(f))
    ensures forall l :: 0 <= l < NUM_LEVELS ==> BareSet(levels[l]) == ApplyOne({}, At(BareEdit(S, c), l))
  {
    forall l: nat | l < NUM_LEVELS ensures BareSet(levels[l]) == ApplyOne({}, At(BareEdit(S, c), l)) {
      forall f ensures f in levels[l] <==> f in At(e, l).added {
        FilesOfLevelsMembers(levels, NUM_LEVELS, l, f);
      }
    }
  }

  lemma SnapshotEdit(S: Spelling, levels: Levels, e: Edit)
    requires |levels| == NUM_LEVELS && e == Edit([], FilesOfLevels(levels, NUM_LEVELS))
    requires Sound(S, levels)
    ensures EditFits(S, e) && DistinctNumbers(e) && AddedBy(e) == NumbersOn(levels)
  {
    hide FilesOfLevels;
    forall p ensures p in e.added <==> p.0 < NUM_LEVELS && p.1 in levels[p.0] {
      FilesOfLevelsMembers(levels, NUM_LEVELS, p.0, p.1);
      assert p == (p.0, p.1);
    }
    forall x ensures x in AddedBy(e) <==> x in NumbersOn(levels) {
      if x in NumbersOn(levels) {
        var l: nat, f :| l < |levels| && f in levels[l] && x == (l, f.number);
        assert (l, f) in e.added;
      }
    }
  }

  /** Every file of the current version was added by some record. */
  lemma {:induction false} EachWasAdded(es: seq<LevelEdit>, f: File)
    requires f in ApplyEach({}, es)
    ensures exists i :: 0 <= i < |es| && f in es[i].added
  {
    if es != [] {
      var n := |es| - 1;
      if f !in es[n].added {
        EachWasAdded(es[..n], f);
        var i :| 0 <= i < n && f in es[..n][i].added;
        assert f in es[i].added;
      }
    }
  }

  lemma LiveWasAdded(S: Spelling, cs: seq<E.Contents>, levels: Levels)
    requires Replays(S, cs, levels)
    ensures NumbersOn(levels) <= Added(cs)
  {
    forall l: nat, f | l < |levels| && f in levels[l] ensures (l, f.number) in Added(cs) {
      var es := OnLevel(BareEdits(S, cs), l);
      assert Bare(f) in BareSet(levels[l]);
      EachWasAdded(es, Bare(f));
      var i :| 0 <= i < |es| && Bare(f) in es[i].added;
      assert f.number in Numbers(At(BareEdit(S, cs[i]), l).added);
      AddedByRecord(S, cs[i], l, f.number);
      assert cs[i] in cs;
    }
  }

  lemma NewNumbers(e: Edit, levels: Levels)
    requires AddedBy(e) !! NumbersOn(levels)
    ensures NotAdded(e, levels)
  {
    forall p, f | p in e.added && p.0 < |levels| && f in levels[p.0] ensures p.1.number != f.number {
      assert (p.0, p.1.number) in AddedBy(e) && (p.0, f.number) in NumbersOn(levels);
    }
  }

  /** What the callers of LogAndApply promise: SaveTo asserts that files from level 1 on do not overlap. */
  ghost predicate KeepsApart(current: Levels, e: Edit)
    requires |current| == NUM_LEVELS
  {
    forall l :: 0 < l < NUM_LEVELS ==> PairwiseApart(ApplyOne(FileSet(current[l]), At(e, l)))
  }

  ghost predicate PairwiseApart(fs: set<File>) {
    (forall f :: f in fs ==> FileOk(f)) && forall f, g :: f in fs && g in fs && f != g ==> Apart(f, g)
  }

  /** The new version has the shape of a version again. */
  lemma NextShape(S: Spelling, current: Levels, e: Edit, next: Levels)
    requires |current| == |next| == NUM_LEVELS && KeepsApart(current, e)
    requires Sound(S, current) && EditFits(S, e) && DistinctNumbers(e) && NotAdded(e, current)
    requires forall l :: 0 <= l < NUM_LEVELS ==> Ordered(next[l]) && FileSet(next[l]) == ApplyOne(FileSet(current[l]), At(e, l))
    ensures Sound(S, next)
  {
    hide Ordered, FileFits;
    forall l, f | 0 <= l < NUM_LEVELS && f in next[l] ensures f in current[l] || (l, f) in e.added {
      assert f in FileSet(next[l]);
    }
    forall l | 0 < l < NUM_LEVELS ensures Run(next[l]) {
      assert forall f :: f in next[l] <==> f in FileSet(next[l]);
      assert PairwiseApart(FileSet(next[l]));
      OrderedApartIsRun(next[l]);
    }
  }

  lemma {:induction false} PointersStaySet(ptrs: seq<Data>, ps: seq<(nat, Data)>)
    requires PointersSet(ptrs) && forall p :: p in ps ==> p.0 < NUM_LEVELS && E.KeyOk(p.1)
    ensures PointersSet(SetPointers(ptrs, ps))
  {
    if ps != [] {
      PointersStaySet(ptrs, ps[..|ps| - 1]);
      assert ps[|ps| - 1] in ps;
    }
  }

  lemma LastCounts(cs: seq<E.Contents>, c: E.Contents)
    requires AllCounted(c)
    ensures Latest(cs + [c]) == Counters(c.logNumber, c.prevLogNumber, c.nextFileNumber, c.lastSequence)
    ensures PointersAfter(cs + [c]) == SetPointers(PointersAfter(cs), c.compactPointers)
  {
    assert (cs + [c])[..|cs|] == cs;
  }

  /** Everything LogAndApply keeps, for the record it appends. */
  lemma RecordStep(S: Spelling, name: Data, cs: seq<E.Contents>, past: seq<Levels>, e: Edit, ps: seq<(nat, IKey)>,
                   log: nat, prevLog: nat, nextFile: nat, lastSequence: nat, current: Levels, next: Levels)
    requires SpellingOk(S) && Chronicle(S, name, cs, past) && cs != [] && past[|past| - 1] == current
    requires EditFits(S, e) && DistinctNumbers(e) && PointersFit(S, ps) && AddedBy(e) !! Added(cs)
    requires log < LIMIT64 && prevLog < LIMIT64 && nextFile < LIMIT64 && lastSequence < LIMIT64
    requires Sound(S, next) && forall l :: 0 <= l < NUM_LEVELS ==> FileSet(next[l]) == ApplyOne(FileSet(current[l]), At(e, l))
    requires PointersSet(PointersAfter(cs))
    ensures var c := EditRecord(S, e, ps, log, prevLog, nextFile, lastSequence);
            && Chronicle(S, name, cs + [c], past + [next]) && Added(cs + [c]) == Added(cs) + AddedBy(e)
            && Latest(cs + [c]) == Counters(Some(log), Some(prevLog), Some(nextFile), Some(lastSequence))
            && PointersAfter(cs + [c]) == SetPointers(PointersAfter(cs), KeysOf(S, ps)) && PointersSet(PointersAfter(cs + [c]))
  {
    var c := EditRecord(S, e, ps, log, prevLog, nextFile, lastSequence);
    EditRecordOk(S, e, ps, log, prevLog, nextFile, lastSequence);
    hide Chronicle, E.RecordOk, EditFits, DistinctNumbers, PointersFit, Sound, SetPointers, KeysOf, Gathered, MetasOf, PointersSet, E.KeyOk, BareEdit, ApplyOne, At, Latest, PointersAfter, Added, AddedBy;
    EditStep(S, name, cs, past, e, c, current, next);
    LastCounts(cs, c);
    PointersStaySet(PointersAfter(cs), KeysOf(S, ps));
  }

  /** After record i, n is what the counters of the manifest say, and its next file number is above
      all numbers there have been. */
  ghost predicate CountedAt(cs: seq<E.Contents>, n: Counters, i: nat)
    requires i < |cs|
  {
    Latest(cs[..i + 1]) == n && n.nextFile.Some? && forall x :: x in Added(cs[..i + 1]) ==> x.1 < n.nextFile.value
  }

  /** The snapshot that begins a manifest counts nothing. */
  ghost predicate CountedIs(cs: seq<E.Contents>, counted: seq<Counters>) {
    |counted| == |cs| && forall i: nat :: 0 < i < |cs| ==> CountedAt(cs, counted[i], i)
  }

  lemma CountedGrows(cs: seq<E.Contents>, counted: seq<Counters>, c: E.Contents, n: Counters)
    requires CountedIs(cs, counted) && Latest(cs + [c]) == n && n.nextFile.Some?
    requires forall x :: x in Added(cs + [c]) ==> x.1 < n.nextFile.value
    ensures CountedIs(cs + [c], counted + [n])
  {
    hide Latest, Added;
    var all := cs + [c];
    assert all[..|cs| + 1] == all;
    forall i: nat | 0 < i < |cs| ensures CountedAt(all, (counted + [n])[i], i) {
      assert all[..i + 1] == cs[..i + 1] && CountedAt(cs, counted[i], i);
    }
  }

  lemma SnapshotCountsNothing(S: Spelling, name: Data, ptrs: seq<Data>, levels: Levels)
    requires |levels| == |ptrs| == NUM_LEVELS
    ensures Latest([SnapshotRecord(S, name, ptrs, levels)][..1]) == NO_COUNTERS
  {
    var c := SnapshotRecord(S, name, ptrs, levels);
    assert [c][..1] == [c] && [c][..0] == [];
  }

  lemma OneRecord(cs: seq<E.Contents>, counted: seq<Counters>)
    requires |cs| == |counted| == 1
    ensures CountedIs(cs, counted)
  {
  }

  lemma FirstStays(cs: seq<E.Contents>, c: E.Contents)
    requires cs != []
    ensures (cs + [c])[..1] == cs[..1]
  {
  }

  lemma BytesOfRecord(c: E.Contents)
    ensures RecordBytes(c) == E.AllBytes(E.FieldsOf(c))
  {
  }

  lemma MetasAppend(S: Spelling, a: seq<(nat, File)>, b: seq<(nat, File)>)
    ensures MetasOf(S, a) + MetasOf(S, b) == MetasOf(S, a + b)
  {
    hide MetaOf;
  }

  // ---------- reading the manifest back ----------

  /** The file is what is left of the log of these records, cut anywhere. */
  ghost predicate CutLog(F: Format, S: Spelling, cs: seq<E.Contents>, file: Data) {
    && FormatOk(F) && ManifestOk(BareEdits(S, cs)) && (forall c :: c in cs ==> E.RecordOk(c))
    && IsPrefix(file, Encode(F, 0, Logged(cs)))
  }

  /** The records that lie wholly before the cut. */
  ghost function Survivors(F: Format, cs: seq<E.Contents>, n: nat): seq<E.Contents>
    requires FormatOk(F)
  {
    cs[..Whole(F, 0, Logged(cs), n)]
  }

  /** The files the records amount to, with the entries their tables hold. */
  ghost function Recovered(S: Spelling, cs: seq<E.Contents>, tables: map<nat, seq<Entry>>, l: nat): set<File> {
    set f | f in ApplyEach({}, OnLevel(BareEdits(S, cs), l)) :: Opened(tables, f)
  }

  lemma ManifestPrefix(S: Spelling, cs: seq<E.Contents>, k: nat)
    requires ManifestOk(BareEdits(S, cs)) && k <= |cs|
    ensures ManifestOk(BareEdits(S, cs[..k]))
  {
    forall l: nat | l < NUM_LEVELS ensures NeverReadded(OnLevel(BareEdits(S, cs[..k]), l)) {
      var es, all := OnLevel(BareEdits(S, cs[..k]), l), OnLevel(BareEdits(S, cs), l);
      assert forall i :: 0 <= i < |es| ==> es[i] == all[i];
    }
    forall e | e in BareEdits(S, cs[..k]) ensures e in BareEdits(S, cs) {
      var i :| 0 <= i < k && BareEdits(S, cs[..k])[i] == e;
      assert BareEdits(S, cs)[i] == e;
    }
  }

  lemma SurvivorsParse(F: Format, S: Spelling, cs: seq<E.Contents>, file: Data, records: seq<Data>)
    requires CutLog(F, S, cs, file) && records == Logged(cs)[..Whole(F, 0, Logged(cs), |file|)]
    ensures AllParsed(records) == Survivors(F, cs, |file|) && ManifestOk(BareEdits(S, AllParsed(records)))
    ensures forall i :: 0 <= i < |records| ==> E.DecodeAll(records[i]).1
  {
    var k := Whole(F, 0, Logged(cs), |file|);
    ManifestPrefix(S, cs, k);
    EachParses(cs, records, k);
    hide ManifestOk, E.RecordOk, Whole, Encode, E.DecodeAll, Parsed, RecordBytes, IsPrefix;
  }

  lemma EachParses(cs: seq<E.Contents>, records: seq<Data>, k: nat)
    requires k <= |cs| && records == Logged(cs)[..k] && forall c :: c in cs ==> E.RecordOk(c)
    ensures AllParsed(records) == cs[..k] && forall i :: 0 <= i < |records| ==> E.DecodeAll(records[i]).1
  {
    hide E.RecordOk, E.DecodeAll, Parsed, RecordBytes;
    forall i | 0 <= i < k ensures records[i] == RecordBytes(cs[i]) && Parsed(records[i]) == cs[i] && E.DecodeAll(records[i]).1 {
      assert cs[i] in cs;
      RecordParses(cs[i]);
    }
    assert AllParsed(records) == cs[..k];
  }

  method OpenTables(bare: Levels, tables: map<nat, seq<Entry>>) returns (levels: Levels)
    requires |bare| == NUM_LEVELS && forall l :: 0 <= l < NUM_LEVELS ==> Ordered(bare[l])
    ensures |levels| == NUM_LEVELS && forall l :: 0 <= l < NUM_LEVELS ==> Ordered(levels[l])
    ensures forall l :: 0 <= l < NUM_LEVELS ==> FileSet(levels[l]) == set f | f in FileSet(bare[l]) :: Opened(tables, f)
  {
    levels := [];
    for l := 0 to NUM_LEVELS
      invariant |levels| == l && forall k :: 0 <= k < l ==> Ordered(levels[k])
      invariant forall k :: 0 <= k < l ==> FileSet(levels[k]) == set f | f in FileSet(bare[k]) :: Opened(tables, f)
    {
      var fs := bare[l];
      var withEntries := seq(|fs|, i requires 0 <= i < |fs| => Opened(tables, fs[i]));
      OpenedInOrder(fs, withEntries, tables);
      levels := levels + [withEntries];
    }
  }

  lemma OpenedInOrder(fs: seq<File>, opening: seq<File>, tables: map<nat, seq<Entry>>)
    requires Ordered(fs) && |opening| == |fs| && forall i :: 0 <= i < |fs| ==> opening[i] == Opened(tables, fs[i])
    ensures Ordered(opening) && FileSet(opening) == set f | f in FileSet(fs) :: Opened(tables, f)
  {
    forall f | f in FileSet(fs) ensures Opened(tables, f) in FileSet(opening) {
      var i :| 0 <= i < |fs| && fs[i] == f;
      assert opening[i] in opening;
    }
  }

  /** Where the loop of Recover stands after i records. */
  ghost predicate Reading(name: Data, cs: seq<E.Contents>, i: nat, seen: Counters, ptrs: seq<Data>) {
    i <= |cs| && seen == Latest(cs[..i]) && ptrs == PointersAfter(cs[..i]) && forall c :: c in cs[..i] ==> NameFits(name, c)
  }

  lemma ReadingStep(name: Data, cs: seq<E.Contents>, i: nat, seen: Counters, ptrs: seq<Data>)
    requires Reading(name, cs, i, seen, ptrs) && i < |cs|
    ensures NameFits(name, cs[i]) ==> Reading(name, cs, i + 1, Count(seen, cs[i]), SetPointers(ptrs, cs[i].compactPointers))
    ensures cs[i] in cs
  {
    assert cs[..i + 1][..i] == cs[..i] && cs[..i + 1] == cs[..i] + [cs[i]];
  }

  lemma ReadingStart(name: Data, cs: seq<E.Contents>)
    ensures Reading(name, cs, 0, NO_COUNTERS, NoPointers())
  {
  }

  lemma ParsedIs(d: Data)
    ensures E.TakeAll(E.Cleared(Blank()), E.DecodeAll(d).0) == Parsed(d)
    ensures Blank() == E.Contents(None, None, None, None, None, [], [], [])
  {
  }

  lemma EditAt(S: Spelling, cs: seq<E.Contents>, i: nat)
    requires i < |cs|
    ensures |BareEdits(S, cs)| == |cs| && BareEdits(S, cs)[i] == BareEdit(S, cs[i])
  {
  }

  lemma EditCount(S: Spelling, cs: seq<E.Contents>)
    ensures |BareEdits(S, cs)| == |cs|
  {
  }

  lemma ParsedEach(records: seq<Data>)
    ensures |AllParsed(records)| == |records| && forall i :: 0 <= i < |records| ==> AllParsed(records)[i] == Parsed(records[i])
  {
  }

  lemma Refused(name: Data, cs: seq<E.Contents>, i: nat)
    requires i < |cs|
    ensures !NameFits(name, cs[i]) ==> Verdict(name, cs) == InvalidArgument
  {
    assert cs[i] in cs;
  }

  lemma AllRead(name: Data, cs: seq<E.Contents>, seen: Counters, ptrs: seq<Data>)
    requires Reading(name, cs, |cs|, seen, ptrs)
    ensures seen == Latest(cs) && ptrs == PointersAfter(cs) && Verdict(name, cs) == Complete(seen)
  {
    assert cs[..|cs|] == cs;
  }

  lemma CompleteHasAll(n: Counters)
    requires Complete(n).Ok?
    ensures n.nextFile.Some? && n.log.Some? && n.lastSequence.Some?
  {
  }

  lemma OpenedIsRecovered(S: Spelling, cs: seq<E.Contents>, tables: map<nat, seq<Entry>>, bare: Levels, levels: Levels)
    requires |bare| == |levels| == NUM_LEVELS
    requires ManifestOk(BareEdits(S, cs)) ==>
      forall l :: 0 <= l < NUM_LEVELS ==> FileSet(bare[l]) == ApplyEach({}, OnLevel(BareEdits(S, cs), l))
    requires forall l :: 0 <= l < NUM_LEVELS ==> FileSet(levels[l]) == set f | f in FileSet(bare[l]) :: Opened(tables, f)
    ensures ManifestOk(BareEdits(S, cs)) ==>
      forall l :: 0 <= l < NUM_LEVELS ==> FileSet(levels[l]) == Recovered(S, cs, tables, l)
  {
    hide ManifestOk, ApplyEach, OnLevel, BareEdits, Opened;
  }

  lemma ChronicleFacts(S: Spelling, name: Data, cs: seq<E.Contents>, past: seq<Levels>, current: Levels, begun: bool)
    requires begun ==> Chronicle(S, name, cs, past) && cs != [] && |past| == |cs| && past[|past| - 1] == current
    ensures begun ==> NumbersOn(current) <= Added(cs)
  {
    if begun {
      LastReplays(S, name, cs, past);
      LiveWasAdded(S, cs, current);
    }
  }

  lemma SoundLists(S: Spelling, levels: Levels)
    requires Sound(S, levels)
    ensures |levels| == NUM_LEVELS && forall l :: 0 <= l < NUM_LEVELS ==> Ordered(levels[l])
  {
    hide Ordered, Run;
  }

  lemma FitsInRange(S: Spelling, e: Edit)
    requires EditFits(S, e)
    ensures LevelsInRange(e)
  {
    hide FileFits;
  }

  // ---------- the class ----------

  /** The log file holds these records and nothing else. */
  ghost predicate LogHolds(w: Writer, cs: seq<E.Contents>)
    reads w
  {
    w.Valid() && w.dest == Encode(w.F, 0, Logged(cs)) && w.blockOffset == OffsetAfter(w.F, 0, Logged(cs))
  }

  class VersionSet {
    const S: Spelling
    /** icmp_.user_comparator()->Name() */
    const name: Data
    const descriptorLog: Writer
    /** descriptor_log_ != nullptr */
    var begun: bool
    var current: Levels
    var compactPointer: seq<Data>
    var nextFileNumber: nat
    var manifestFileNumber: nat
    var lastSequence: nat
    var logNumber: nat
    var prevLogNumber: nat
    /** The records of the manifest, and the version that was current and the counters there were
        after each. */
    ghost var records: seq<E.Contents>
    ghost var past: seq<Levels>
    ghost var counted: seq<Counters>

    ghost predicate ValidVersion()
      reads `current, `compactPointer, `logNumber, `prevLogNumber
    {
      && SpellingOk(S) && |name| < LIMIT32
      && Sound(S, current)
      && PointersSet(compactPointer) && logNumber < LIMIT64 && prevLogNumber < LIMIT64
    }

    ghost predicate ValidLog()
      reads `begun, `current, `compactPointer, `logNumber, `prevLogNumber, `records, `past, `counted, descriptorLog
    {
      && LogHolds(descriptorLog, records) && Chronicle(S, name, records, past) && CountedIs(records, counted)
      && (if begun then
            && |records| >= 2 && Latest(records[..1]) == NO_COUNTERS && past[|past| - 1] == current && PointersAfter(records) == compactPointer
            && Latest(records).log == Some(logNumber) && Latest(records).prevLog == Some(prevLogNumber)
          else records == [])
    }

    ghost predicate Valid()
      reads `begun, `current, `compactPointer, `logNumber, `prevLogNumber, `records, `past, `counted, descriptorLog
    {
      ValidVersion() && ValidLog()
    }

    /** The levels and numbers of all files there have been since the manifest was begun. */
    ghost function Ever(): set<(nat, nat)>
      reads `begun, `current, `records
    {
      if begun then Added(records) else NumbersOn(current)
    }

    /** The constructor of VersionSet. */
    constructor (F: Format, S: Spelling, name: Data)
      requires FormatOk(F) && SpellingOk(S) && |name| < LIMIT32
      ensures Valid() && !begun && fresh(descriptorLog) && descriptorLog.F == F && this.S == S && this.name == name
      ensures current == seq(NUM_LEVELS, _ => []) && compactPointer == NoPointers()
      ensures nextFileNumber == 2 && manifestFileNumber == lastSequence == logNumber == prevLogNumber == 0
    {
      this.S, this.name, begun := S, name, false;
      current, compactPointer := seq(NUM_LEVELS, _ => []), NoPointers();
      nextFileNumber, manifestFileNumber, lastSequence, logNumber, prevLogNumber := 2, 0, 0, 0, 0;
      records, past, counted := [], [], [];
      descriptorLog := new Writer(F);
      new;
      EmptyChronicle(S, name);
    }

    /** VersionSet::NewFileNumber */
    method NewFileNumber() returns (n: nat)
      modifies `nextFileNumber
      ensures n == old(nextFileNumber) && nextFileNumber == n + 1
    {
      n := nextFileNumber;
      nextFileNumber := nextFileNumber + 1;
    }

    method MarkFileNumberUsed(number: nat)
      modifies this`nextFileNumber
      ensures nextFileNumber == if old(nextFileNumber) <= number then number + 1 else old(nextFileNumber)
    {
      if nextFileNumber <= number {
        nextFileNumber := number + 1;
      }
    }

    /** log::Writer::AddRecord on the manifest. */
    method Append(record: Data, ghost cs: seq<E.Contents>, ghost c: E.Contents)
      requires LogHolds(descriptorLog, cs) && record == RecordBytes(c)
      modifies descriptorLog
      ensures LogHolds(descriptorLog, cs + [c])
    {
      hide Encode, OffsetAfter, Fragments, EndOffset, RecordBytes;
      EncodeSnoc(descriptorLog.F, 0, Logged(cs), record);
      assert Logged(cs + [c]) == Logged(cs) + [record];
      descriptorLog.AddRecord(record);
    }

    /** AddFile for a list of files with their levels. */
    method AddFiles(edit: E.VersionEdit, ps: seq<(nat, File)>)
      modifies edit`newFiles
      ensures edit.newFiles == old(edit.newFiles) + MetasOf(S, ps)
    {
      for i := 0 to |ps|
        invariant edit.newFiles == old(edit.newFiles) + MetasOf(S, ps[..i])
      {
        edit.AddFile(ps[i].0, MetaOf(S, ps[i].1));
      }
      assert ps[..|ps|] == ps;
    }

    /** The VersionEdit of a snapshot: comparator, compaction pointers and all files. */
    method MakeSnapshot() returns (edit: E.VersionEdit)
      requires |current| == |compactPointer| == NUM_LEVELS
      ensures fresh(edit) && edit.View() == SnapshotRecord(S, name, compactPointer, current)
    {
      hide MetaOf;
      edit := new E.VersionEdit();
      edit.Apply(E.Comparator(name));
      for l := 0 to NUM_LEVELS
        invariant edit.View() == E.Contents(Some(name), None, None, None, None, SetPointerList(compactPointer, l), [], [])
      {
        if compactPointer[l] != [] {
          edit.Apply(E.CompactPointer(l, compactPointer[l]));
        }
        assert SetPointerList(compactPointer, l) + [] == SetPointerList(compactPointer, l);
      }
      ghost var head := edit.View();
      for l := 0 to NUM_LEVELS
        invariant edit.View() == head.(newFiles := MetasOf(S, FilesOfLevels(current, l)))
      {
        AddFiles(edit, AddedAt(l, current[l]));
        MetasAppend(S, FilesOfLevels(current, l), AddedAt(l, current[l]));
      }
    }

    /** WriteSnapshot */
    method WriteSnapshot()
      requires ValidVersion() && LogHolds(descriptorLog, [])
      modifies descriptorLog
      ensures LogHolds(descriptorLog, [SnapshotRecord(S, name, compactPointer, current)])
    {
      var edit := MakeSnapshot();
      hide *;
      ghost var c := edit.View();
      var record := edit.EncodeTo();
      BytesOfRecord(c);
      Append(record, [], c);
      assert [] + [c] == [c];
    }

    /** SetCompactPointer for a list of levels. */
    method SetCompactPointers(edit: E.VersionEdit, ps: seq<(nat, IKey)>)
      modifies edit
      ensures edit.View() == old(edit.View()).(compactPointers := old(edit.compactPointers) + KeysOf(S, ps))
    {
      hide EncodeKey;
      for i := 0 to |ps|
        invariant edit.View() == old(edit.View()).(compactPointers := old(edit.compactPointers) + KeysOf(S, ps[..i]))
      {
        edit.Apply(E.CompactPointer(ps[i].0, EncodeKey(S, ps[i].1)));
        assert KeysOf(S, ps[..i + 1]) == KeysOf(S, ps[..i]) + [(ps[i].0, EncodeKey(S, ps[i].1))];
      }
      assert ps[..|ps|] == ps;
    }

    /** RemoveFile for a list of files. */
    method RemoveFiles(edit: E.VersionEdit, ps: seq<(nat, nat)>)
      requires edit.deletedFiles == []
      modifies edit`deletedFiles
      ensures edit.deletedFiles == Gathered(ps)
    {
      for i := 0 to |ps|
        invariant edit.deletedFiles == Gathered(ps[..i])
      {
        assert ps[..i + 1][..i] == ps[..i];
        edit.RemoveFile(ps[i].0, ps[i].1);
      }
      assert ps[..|ps|] == ps;
    }

    /** The VersionEdit of an edit, with the counters LogAndApply sets. */
    method MakeEdit(e: Edit, pointers: seq<(nat, IKey)>, log: nat, prevLog: nat) returns (edit: E.VersionEdit)
      ensures fresh(edit) && edit.View() == EditRecord(S, e, pointers, log, prevLog, nextFileNumber, lastSequence)
    {
      hide MetasOf, KeysOf, Gathered;
      edit := new E.VersionEdit();
      edit.Apply(E.LogNumber(log));
      edit.Apply(E.PrevLogNumber(prevLog));
      edit.Apply(E.NextFileNumber(nextFileNumber));
      edit.Apply(E.LastSequence(lastSequence));
      SetCompactPointers(edit, pointers);
      RemoveFiles(edit, e.removed);
      AddFiles(edit, e.added);
    }

    /** A new manifest begins with a snapshot. */
    method BeginLog()
      requires ValidVersion() && SpellingOk(S) && |name| < LIMIT32 && PointersSet(compactPointer) && Sound(S, current)
      requires LogHolds(descriptorLog, []) && |current| == NUM_LEVELS
      modifies `records, `past, `counted, descriptorLog
      ensures LogHolds(descriptorLog, records) && Chronicle(S, name, records, past) && CountedIs(records, counted)
      ensures |records| == 1 && past == [current] && Latest(records[..1]) == NO_COUNTERS
      ensures PointersAfter(records) == compactPointer && Added(records) == NumbersOn(current)
    {
      hide *;
      SnapshotStep(S, name, compactPointer, current);
      SnapshotCountsNothing(S, name, compactPointer, current);
      ghost var c := SnapshotRecord(S, name, compactPointer, current);
      OneRecord([c], [NO_COUNTERS]);
      WriteSnapshot();
      records, past, counted := [c], [current], [NO_COUNTERS];
    }

    /** The record of an edit that leads from the current version to next. */
    method WriteEdit(e: Edit, pointers: seq<(nat, IKey)>, log: nat, prevLog: nat, ghost next: Levels)
      requires SpellingOk(S) && LogHolds(descriptorLog, records) && Chronicle(S, name, records, past) && CountedIs(records, counted)
      requires |records| >= 1 && |past| >= 1 && past[|past| - 1] == current && PointersSet(PointersAfter(records))
      requires EditFits(S, e) && DistinctNumbers(e) && PointersFit(S, pointers) && AddedBy(e) !! Added(records)
      requires log < LIMIT64 && prevLog < LIMIT64 && nextFileNumber < LIMIT64 && lastSequence < LIMIT64
      requires forall x :: x in Added(records) || x in AddedBy(e) ==> x.1 < nextFileNumber
      requires Sound(S, next) && |current| == NUM_LEVELS
      requires forall l :: 0 <= l < NUM_LEVELS ==> FileSet(next[l]) == ApplyOne(FileSet(current[l]), At(e, l))
      modifies `records, `past, `counted, descriptorLog
      ensures LogHolds(descriptorLog, records) && Chronicle(S, name, records, past) && CountedIs(records, counted)
      ensures |records| == |old(records)| + 1 && records[..|old(records)|] == old(records) && past == old(past) + [next]
      ensures counted == old(counted) + [Counters(Some(log), Some(prevLog), Some(nextFileNumber), Some(lastSequence))]
      ensures Latest(records) == Counters(Some(log), Some(prevLog), Some(nextFileNumber), Some(lastSequence))
      ensures records[..1] == old(records)[..1] && Added(records) == Added(old(records)) + AddedBy(e)
      ensures PointersAfter(records) == SetPointers(PointersAfter(old(records)), KeysOf(S, pointers)) && PointersSet(PointersAfter(records))
    {
      hide *;
      RecordStep(S, name, records, past, e, pointers, log, prevLog, nextFileNumber, lastSequence, current, next);
      var edit := MakeEdit(e, pointers, log, prevLog);
      ghost var c := edit.View();
      var record := edit.EncodeTo();
      BytesOfRecord(c);
      Append(record, records, c);
      FirstStays(records, c);
      ghost var counters := Counters(Some(log), Some(prevLog), Some(nextFileNumber), Some(lastSequence));
      CountedGrows(records, counted, c, counters);
      records, past, counted := records + [c], past + [next], counted + [counters];
    }

    /** LogAndApply: the edit goes into the manifest, which begins with a snapshot of the version
        before it, and the version it makes is installed. */
    method LogAndApply(e: Edit, pointers: seq<(nat, IKey)>, log: Option<nat>, prevLog: Option<nat>)
      requires Valid() && EditFits(S, e) && DistinctNumbers(e) && PointersFit(S, pointers)
      requires log.Some? ==> logNumber <= log.value < nextFileNumber
      requires CounterFits(prevLog) && nextFileNumber < LIMIT64 && lastSequence < LIMIT64
      requires AddedBy(e) !! Ever() && KeepsApart(current, e)
      requires forall x :: x in Ever() || x in AddedBy(e) ==> x.1 < nextFileNumber
      modifies this`begun, this`current, this`compactPointer, this`logNumber, this`prevLogNumber, this`records, this`past, this`counted, descriptorLog
      ensures Valid() && begun
      ensures forall l :: 0 <= l < NUM_LEVELS ==> FileSet(current[l]) == ApplyOne(FileSet(old(current)[l]), At(e, l))
      ensures Ever() == old(Ever()) + AddedBy(e)
      ensures compactPointer == SetPointers(old(compactPointer), KeysOf(S, pointers))
      ensures logNumber == (if log.Some? then log.value else old(logNumber))
      ensures prevLogNumber == (if prevLog.Some? then prevLog.value else old(prevLogNumber))
      ensures counted != [] && |records| == |past| == |counted| && counted[|counted| - 1] ==
                Counters(Some(logNumber), Some(prevLogNumber), Some(nextFileNumber), Some(lastSequence))
      ensures old(begun) ==> records[..|records| - 1] == old(records) && past[..|past| - 1] == old(past)
                             && counted[..|counted| - 1] == old(counted)
    {
      hide *;
      var log' := if log.Some? then log.value else logNumber;
      var prevLog' := if prevLog.Some? then prevLog.value else prevLogNumber;
      BeforeEdit(e, prevLog);
      var v := BuildVersion(current, e);
      NextShape(S, current, e, v);
      if !begun {
        EmptyLog();
        BeginLog();
      }
      WriteEdit(e, pointers, log', prevLog', v);
      begun, current, logNumber, prevLogNumber := true, v, log', prevLog';
      compactPointer := SetPointers(compactPointer, KeysOf(S, pointers));
      Fold();
      Sizes();
    }

    /** Live files are among those that have been added. */
    lemma LiveAreKnown()
      requires Valid()
      ensures NumbersOn(current) <= Ever() && Sound(S, current)
    {
      Unfold();
      hide *;
      ChronicleFacts(S, name, records, past, current, begun);
    }

    lemma BeforeEdit(e: Edit, prevLog: Option<nat>)
      requires Valid() && EditFits(S, e) && AddedBy(e) !! Ever() && CounterFits(prevLog)
      ensures LevelsInRange(e) && NotAdded(e, current) && |current| == NUM_LEVELS
      ensures forall l :: 0 <= l < NUM_LEVELS ==> Ordered(current[l])
      ensures SpellingOk(S) && |name| < LIMIT32 && Sound(S, current)
      ensures ValidVersion() && PointersSet(compactPointer) && logNumber < LIMIT64 && prevLogNumber < LIMIT64
      ensures LogHolds(descriptorLog, records) && (prevLog.Some? ==> prevLog.value < LIMIT64) && CountedIs(records, counted)
      ensures !begun ==> records == [] && Ever() == NumbersOn(current)
      ensures begun ==> Chronicle(S, name, records, past) && |records| >= 2 && |past| == |records| && past[|past| - 1] == current
                        && PointersAfter(records) == compactPointer && Ever() == Added(records) && Latest(records[..1]) == NO_COUNTERS
    {
      Unfold();
      hide *;
      ChronicleFacts(S, name, records, past, current, begun);
      NewNumbers(e, current);
      SoundLists(S, current);
      FitsInRange(S, e);
    }

    lemma Unfold()
      requires Valid()
      ensures SpellingOk(S) && |name| < LIMIT32 && Sound(S, current) && ValidVersion()
      ensures PointersSet(compactPointer) && logNumber < LIMIT64 && prevLogNumber < LIMIT64
      ensures LogHolds(descriptorLog, records) && Chronicle(S, name, records, past) && CountedIs(records, counted)
      ensures !begun ==> records == [] && Ever() == NumbersOn(current)
      ensures begun ==> |records| >= 2 && |past| == |records| && past[|past| - 1] == current
                        && PointersAfter(records) == compactPointer && Ever() == Added(records) && Latest(records[..1]) == NO_COUNTERS
      ensures begun ==> Latest(records).log == Some(logNumber) && Latest(records).prevLog == Some(prevLogNumber)
    {
      hide Sound, SpellingOk, PointersSet, ManifestOk, RecordsFit, Replays, CountedIs, Added, NumbersOn, PointersAfter, Latest, Encode, OffsetAfter, Logged;
    }

    lemma Fold()
      requires SpellingOk(S) && |name| < LIMIT32 && Sound(S, current)
      requires PointersSet(compactPointer) && logNumber < LIMIT64 && prevLogNumber < LIMIT64
      requires begun && LogHolds(descriptorLog, records) && Chronicle(S, name, records, past) && CountedIs(records, counted)
      requires |records| >= 2 && Latest(records[..1]) == NO_COUNTERS && |past| > 0 && past[|past| - 1] == current && PointersAfter(records) == compactPointer
      requires Latest(records).log == Some(logNumber) && Latest(records).prevLog == Some(prevLogNumber)
      ensures Valid() && Ever() == Added(records)
    {
      hide Chronicle, Sound, LogHolds, PointersSet, Latest, PointersAfter, CountedIs;
    }

    /** One turn of the loop of Recover. */
    method ReadRecord(record: Data, builder: Builder, ghost cs: seq<E.Contents>, ghost i: nat, seen: Counters)
        returns (status: Status, seen': Counters)
      requires i < |cs| && Parsed(record) == cs[i] && Holding(builder, BareEdits(S, cs), i)
      requires Reading(name, cs, i, seen, compactPointer)
      modifies this`compactPointer, builder
      ensures status.Ok? ==> Holding(builder, BareEdits(S, cs), i + 1) && Reading(name, cs, i + 1, seen', compactPointer)
      ensures E.DecodeAll(record).1 && NameFits(name, cs[i]) ==> status.Ok?
      ensures E.DecodeAll(record).1 && !NameFits(name, cs[i]) ==> status.InvalidArgument?
    {
      hide *;
      var edit := new E.VersionEdit();
      ghost var blank := edit.View();
      var ok := edit.DecodeFrom(record);
      ParsedIs(record);
      ReadingStep(name, cs, i, seen, compactPointer);
      ParsedLevelsExist(S, record);
      EditAt(S, cs, i);
      var c := edit.View();
      seen' := Count(seen, c);
      if !ok {
        return Corruption("VersionEdit"), seen';
      }
      if !NameFits(name, c) {
        return InvalidArgument, seen';
      }
      ApplyNext(builder, BareEdit(S, c), BareEdits(S, cs), i);
      compactPointer := SetPointers(compactPointer, c.compactPointers);
      status := Ok;
    }

    /** The loop of Recover: all records through one builder, until one is refused. */
    method ReadRecords(logRecords: seq<Data>, ghost cs: seq<E.Contents>) returns (status: Status, seen: Counters, builder: Builder)
      requires cs == AllParsed(logRecords) && compactPointer == NoPointers()
      modifies this`compactPointer
      ensures fresh(builder)
      ensures status.Ok? ==> Holding(builder, BareEdits(S, cs), |BareEdits(S, cs)|) && seen == Latest(cs)
                             && compactPointer == PointersAfter(cs) && Verdict(name, cs) == Complete(seen)
      ensures !status.Ok? && (forall i :: 0 <= i < |logRecords| ==> E.DecodeAll(logRecords[i]).1) ==>
                status == InvalidArgument && Verdict(name, cs) == InvalidArgument
    {
      hide *;
      ParsedEach(logRecords);
      builder := StartBuilder(BareEdits(S, cs));
      EditCount(S, cs);
      seen := NO_COUNTERS;
      ReadingStart(name, cs);
      status := Ok;
      var i := 0;
      while i < |logRecords| && status.Ok?
        invariant i <= |logRecords|
        invariant status.Ok? ==> Holding(builder, BareEdits(S, cs), i) && Reading(name, cs, i, seen, compactPointer)
        invariant !status.Ok? && (forall i :: 0 <= i < |logRecords| ==> E.DecodeAll(logRecords[i]).1) ==>
                    status == InvalidArgument && Verdict(name, cs) == InvalidArgument
      {
        Refused(name, cs, i);
        status, seen := ReadRecord(logRecords[i], builder, cs, i, seen);
        i := i + 1;
      }
      if status.Ok? {
        AllRead(name, cs, seen, compactPointer);
      }
    }

    /** What Recover has installed. */
    ghost predicate IsRecovered(cs: seq<E.Contents>, tables: map<nat, seq<Entry>>)
      reads this
    {
      && |current| == NUM_LEVELS && compactPointer == PointersAfter(cs)
      && (forall l :: 0 <= l < NUM_LEVELS ==> Ordered(current[l]) && FileSet(current[l]) == Recovered(S, cs, tables, l))
      && Latest(cs).nextFile == Some(manifestFileNumber) && nextFileNumber == manifestFileNumber + 1
      && Latest(cs).lastSequence == Some(lastSequence) && Latest(cs).log == Some(logNumber)
      && prevLogNumber == (if Latest(cs).prevLog.Some? then Latest(cs).prevLog.value else 0)
    }

    /** VersionSet::Recover, on a manifest that may have been cut anywhere. */
    method Recover(file: Data, tables: map<nat, seq<Entry>>, ghost logged: seq<E.Contents>) returns (status: Status)
      requires Valid() && !begun && compactPointer == NoPointers()
      modifies this
      ensures !begun && records == old(records) && past == old(past) && counted == old(counted)
      ensures CutLog(descriptorLog.F, S, logged, file) ==>
        var cs := Survivors(descriptorLog.F, logged, |file|);
        status == Verdict(name, cs) && (status.Ok? ==> IsRecovered(cs, tables))
    {
      hide *;
      FormatHere(logged, file);
      var logRecords, reports := ReadLog(descriptorLog.F, file, Logged(logged));
      ghost var cs := AllParsed(logRecords);
      if CutLog(descriptorLog.F, S, logged, file) {
        SurvivorsParse(descriptorLog.F, S, logged, file, logRecords);
      }
      var seen, builder;
      status, seen, builder := ReadRecords(logRecords, cs);
      if reports > 0 && status.Ok? {
        status := Corruption("log");
      }
      if !status.Ok? {
        return;
      }
      status := Complete(seen);
      Install(seen, builder, status.Ok?, tables, cs);
    }

    /** The end of Recover: the recovered version and counters. */
    method Install(seen: Counters, builder: Builder, complete: bool, tables: map<nat, seq<Entry>>, ghost cs: seq<E.Contents>)
      requires complete == Complete(seen).Ok? && seen == Latest(cs) && compactPointer == PointersAfter(cs)
      requires Holding(builder, BareEdits(S, cs), |BareEdits(S, cs)|)
      modifies this`current, this`manifestFileNumber, this`nextFileNumber, this`lastSequence, this`logNumber, this`prevLogNumber
      ensures complete && ManifestOk(BareEdits(S, cs)) ==> IsRecovered(cs, tables)
    {
      hide ManifestOk, Holding, BareEdits, Latest, PointersAfter, Recovered, Ordered, FileSet, Opened, ApplyEach, OnLevel;
      var prevLog := if seen.prevLog.Some? then seen.prevLog.value else 0;
      MarkFileNumberUsed(prevLog);
      MarkFileNumberUsed(if seen.log.Some? then seen.log.value else 0);
      if !complete {
        return;
      }
      CompleteHasAll(seen);
      var bare := FinishBuilder(builder, BareEdits(S, cs));
      current := OpenTables(bare, tables);
      OpenedIsRecovered(S, cs, tables, bare, current);
      manifestFileNumber, nextFileNumber := seen.nextFile.value, seen.nextFile.value + 1;
      lastSequence, logNumber, prevLogNumber := seen.lastSequence.value, seen.log.value, prevLog;
    }

    /** How many records lie wholly within the first n bytes of the manifest. */
    ghost function Surviving(n: nat): (k: nat)
      requires Valid()
      reads `begun, `current, `compactPointer, `logNumber, `prevLogNumber, `records, `past, `counted, descriptorLog
      ensures k <= |records| == |past|
    {
      Unfold();
      FormatHere([], []);
      |Survivors(descriptorLog.F, records, n)|
    }

    lemma LogIs(n: nat)
      requires Valid()
      ensures FormatOk(descriptorLog.F) && descriptorLog.dest == Encode(descriptorLog.F, 0, Logged(records))
      ensures Survivors(descriptorLog.F, records, n) == records[..Surviving(n)]
      ensures n == |descriptorLog.dest| ==> Surviving(n) == |records|
    {
      hide Encode, Whole, Logged, Chronicle;
      WholeLog(descriptorLog.F, records);
    }

    lemma WholeManifest()
      requires Valid() && begun
      ensures |descriptorLog.dest| >= 0 && Surviving(|descriptorLog.dest|) == |records| >= 2
      ensures past[|records| - 1] == current
    {
      hide Surviving, Chronicle, Encode, Sound;
      Unfold();
      LogIs(|descriptorLog.dest|);
    }

    lemma Sizes()
      requires Valid()
      ensures |records| == |past| == |counted| && (begun ==> counted != [])
    {
      hide LogHolds, RecordsFit, ManifestOk, Sound, Replays;
    }

    lemma EmptyLog()
      requires Valid() && !begun
      ensures records == [] && past == [] && counted == [] && LogHolds(descriptorLog, [])
    {
      hide Sound, Encode;
    }

    lemma FormatHere(cs: seq<E.Contents>, file: Data)
      requires Valid()
      ensures FormatOk(descriptorLog.F)
      ensures CutLog(descriptorLog.F, S, cs, file) ==> IsPrefix(file, Encode(descriptorLog.F, 0, Logged(cs)))
    {
    }
  }

  // ---------- the manifest is the version ----------

  /** The directory holds the tables of these files. */
  ghost predicate TablesAre(levels: Levels, tables: map<nat, seq<Entry>>) {
    forall l, f :: 0 <= l < |levels| && f in levels[l] ==> f.number in tables && tables[f.number] == f.entries
  }

  /** Lists recovered from the records that made a version are that version's lists. */
  lemma RecoveredIsVersion(S: Spelling, cs: seq<E.Contents>, levels: Levels, tables: map<nat, seq<Entry>>, current: Levels)
    requires Replays(S, cs, levels) && Sound(S, levels) && TablesAre(levels, tables) && |current| == NUM_LEVELS
    requires forall l :: 0 <= l < NUM_LEVELS ==> Ordered(current[l]) && FileSet(current[l]) == Recovered(S, cs, tables, l)
    ensures current == levels
  {
    hide ApplyEach, OnLevel, BareEdits, Ordered, Run;
    forall l: nat | l < NUM_LEVELS ensures current[l] == levels[l] {
      forall f ensures f in current[l] <==> f in levels[l] {
        assert f in current[l] <==> f in FileSet(current[l]);
        if f in levels[l] {
          assert Bare(f) in BareSet(levels[l]) && Opened(tables, Bare(f)) == f;
        }
        if f in FileSet(current[l]) {
          var g :| g in BareSet(levels[l]) && Opened(tables, g) == f;
          var h :| h in levels[l] && g == Bare(h);
          assert f == h;
        }
      }
      OrderedIsUnique(current[l], levels[l]);
    }
  }

  lemma {:induction false} PointerIsField(ps: seq<(nat, Data)>, p: (nat, Data))
    requires p in ps
    ensures E.CompactPointer(p.0, p.1) in E.PointerFields(ps)
  {
    var n := |ps| - 1;
    if p != ps[n] {
      assert ps == ps[..n] + [ps[n]];
      PointerIsField(ps[..n], p);
    }
  }

  lemma {:induction false} PointersAfterSet(cs: seq<E.Contents>)
    requires forall c :: c in cs ==> E.RecordOk(c)
    ensures PointersSet(PointersAfter(cs))
  {
    hide E.HeadFields, E.DeletedFields, E.NewFields;
    if cs != [] {
      var c := cs[|cs| - 1];
      assert c in cs;
      PointersAfterSet(cs[..|cs| - 1]);
      forall p | p in c.compactPointers ensures p.0 < NUM_LEVELS && E.KeyOk(p.1) {
        PointerIsField(c.compactPointers, p);
        assert E.FieldOk(E.CompactPointer(p.0, p.1));
      }
      PointersStaySet(PointersAfter(cs[..|cs| - 1]), c.compactPointers);
    }
  }

  lemma LogsFit(c: E.Contents)
    requires E.RecordOk(c) && AllCounted(c)
    ensures c.logNumber.value < LIMIT64 && c.prevLogNumber.value < LIMIT64
  {
    hide E.PointerFields, E.DeletedFields, E.NewFields;
    assert E.LogNumber(c.logNumber.value) in E.FieldsOf(c) && E.PrevLogNumber(c.prevLogNumber.value) in E.FieldsOf(c);
    assert E.FieldOk(E.LogNumber(c.logNumber.value)) && E.FieldOk(E.PrevLogNumber(c.prevLogNumber.value));
  }

  lemma CutCounters(S: Spelling, name: Data, cs: seq<E.Contents>, past: seq<Levels>, k: nat)
    requires Chronicle(S, name, cs, past) && 2 <= k <= |cs|
    ensures AllCounted(cs[k - 1]) && cs[k - 1].logNumber.value < LIMIT64 && cs[k - 1].prevLogNumber.value < LIMIT64
    ensures var c := cs[k - 1];
            Latest(cs[..k]) == Counters(c.logNumber, c.prevLogNumber, c.nextFileNumber, c.lastSequence) && Complete(Latest(cs[..k])) == Ok
  {
    var c := cs[k - 1];
    assert c in cs && AllCounted(c);
    LogsFit(c);
    LastCounts(cs[..k - 1], c);
    assert cs[..k] == cs[..k - 1] + [c];
    hide E.RecordOk, Latest, PointersAfter, PastIs, ManifestOk;
  }

  lemma CutNames(S: Spelling, name: Data, cs: seq<E.Contents>, past: seq<Levels>, k: nat)
    requires Chronicle(S, name, cs, past) && k <= |cs|
    ensures Verdict(name, cs[..k]) == Complete(Latest(cs[..k])) && PointersSet(PointersAfter(cs[..k]))
  {
    assert forall c :: c in cs[..k] ==> c in cs;
    hide E.RecordOk, Latest, PointersAfter, PastIs, ManifestOk, Complete, PointersSet;
    PointersAfterSet(cs[..k]);
  }

  lemma CutPast(S: Spelling, name: Data, cs: seq<E.Contents>, past: seq<Levels>, k: nat)
    requires Chronicle(S, name, cs, past) && 1 <= k <= |cs|
    ensures |past| == |cs| && Replays(S, cs[..k], past[k - 1]) && Sound(S, past[k - 1])
  {
    assert cs[..k - 1 + 1] == cs[..k];
    hide Replays, Sound, ManifestOk, RecordsFit;
  }

  lemma WholeLog(F: Format, cs: seq<E.Contents>)
    requires FormatOk(F)
    ensures Survivors(F, cs, |Encode(F, 0, Logged(cs))|) == cs
  {
    hide Encode, Whole;
    WholeIsWithin(F, 0, Logged(cs), |Encode(F, 0, Logged(cs))|, |cs|);
    assert Logged(cs)[..|cs|] == Logged(cs) && cs[..|cs|] == cs;
  }

  lemma PrefixOfLog(F: Format, S: Spelling, name: Data, cs: seq<E.Contents>, past: seq<Levels>, n: nat)
    requires FormatOk(F) && Chronicle(S, name, cs, past) && n <= |Encode(F, 0, Logged(cs))|
    ensures CutLog(F, S, cs, Encode(F, 0, Logged(cs))[..n])
  {
    hide Encode, ManifestOk, E.RecordOk;
  }

  lemma FewRecords(cs: seq<E.Contents>, k: nat)
    requires k < 2 <= |cs| && Latest(cs[..1]) == NO_COUNTERS
    ensures Latest(cs[..k]) == NO_COUNTERS
  {
    assert cs[..0] == [];
  }

  /** After Recover: the version of k records, as a valid version set. */
  lemma RecoveredIsValid(r: VersionSet, name: Data, cs: seq<E.Contents>, past: seq<Levels>, k: nat, tables: map<nat, seq<Entry>>)
    requires Chronicle(r.S, name, cs, past) && 2 <= k <= |cs| == |past| && TablesAre(past[k - 1], tables)
    requires r.name == name && |name| < LIMIT32 && SpellingOk(r.S) && r.IsRecovered(cs[..k], tables)
    requires !r.begun && r.records == [] && r.past == [] && r.counted == [] && LogHolds(r.descriptorLog, [])
    ensures r.Valid() && r.current == past[k - 1] && r.compactPointer == PointersAfter(cs[..k])
    ensures r.nextFileNumber == r.manifestFileNumber + 1
    ensures Latest(cs[..k]) == Counters(Some(r.logNumber), Some(r.prevLogNumber), Some(r.manifestFileNumber), Some(r.lastSequence))
  {
    CutCounters(r.S, name, cs, past, k);
    CutNames(r.S, name, cs, past, k);
    CutPast(r.S, name, cs, past, k);
    RecoveredIsVersion(r.S, cs[..k], past[k - 1], tables, r.current);
    EmptyChronicle(r.S, name);
    hide Chronicle, Sound, Replays, Latest, PointersAfter, PointersSet, LogHolds, SpellingOk, TablesAre, Recovered, Ordered, FileSet;
  }

  lemma SoundIsRun(S: Spelling, levels: Levels)
    requires Sound(S, levels)
    ensures |levels| == NUM_LEVELS && forall l :: 0 < l < NUM_LEVELS ==> Run(levels[l])
  {
    hide Ordered, Run;
  }

  /** A crash may leave any prefix of the manifest. Recovering from it, with the tables of that
      version still there, gives the version that was current when the last whole record was
      written: the same lists, sorted and disjoint from level 1 on, and the same counters and
      pointers. With less than the snapshot and one edit it is refused. */
  method CrashAndRecover(vs: VersionSet, n: nat, tables: map<nat, seq<Entry>>) returns (status: Status, r: VersionSet)
    requires vs.Valid() && vs.begun && n <= |vs.descriptorLog.dest|
    requires vs.Surviving(n) > 0 ==> TablesAre(vs.past[vs.Surviving(n) - 1], tables)
    ensures fresh(r) && fresh(r.descriptorLog) && r.S == vs.S && r.name == vs.name
    ensures var k := vs.Surviving(n);
            if k < 2 then status == Corruption("no meta-nextfile entry in descriptor")
            else status == Ok && r.Valid() && !r.begun && r.current == vs.past[k - 1]
                 && (forall l :: 0 < l < NUM_LEVELS ==> Run(r.current[l]))
                 && r.compactPointer == PointersAfter(vs.records[..k]) && r.nextFileNumber == r.manifestFileNumber + 1
                 && |vs.counted| >= k && vs.counted[k - 1]
                      == Counters(Some(r.logNumber), Some(r.prevLogNumber), Some(r.manifestFileNumber), Some(r.lastSequence))
                 && (forall x :: x in Added(vs.records[..k]) ==> x.1 < r.nextFileNumber)
    ensures n == |vs.descriptorLog.dest| ==>
      status == Ok && r.current == vs.current && r.compactPointer == vs.compactPointer
      && r.logNumber == vs.logNumber && r.prevLogNumber == vs.prevLogNumber
      && vs.counted != [] && vs.counted[|vs.counted| - 1].lastSequence == Some(r.lastSequence)
      && (forall x :: x in vs.Ever() ==> x.1 < r.nextFileNumber)
  {
    hide *;
    vs.Unfold();
    vs.LogIs(n);
    ghost var k := vs.Surviving(n);
    r := new VersionSet(vs.descriptorLog.F, vs.S, vs.name);
    r.EmptyLog();
    PrefixOfLog(vs.descriptorLog.F, vs.S, vs.name, vs.records, vs.past, n);
    CutNames(vs.S, vs.name, vs.records, vs.past, k);
    status := r.Recover(vs.descriptorLog.dest[..n], tables, vs.records);
    if k < 2 {
      FewRecords(vs.records, k);
      NothingIsMissing(Latest(vs.records[..k]));
    } else {
      CutCounters(vs.S, vs.name, vs.records, vs.past, k);
      NothingIsMissing(Latest(vs.records[..k]));
      RecoveredIsValid(r, vs.name, vs.records, vs.past, k, tables);
      CutPast(vs.S, vs.name, vs.records, vs.past, k);
      SoundIsRun(vs.S, r.current);
      SomeCounters(vs.records, r.logNumber, r.prevLogNumber, r.manifestFileNumber, r.lastSequence, k);
      CountersThen(vs.records, vs.counted, k);
    }
  }

  lemma NothingIsMissing(n: Counters)
    ensures n == NO_COUNTERS ==> Complete(n) == Corruption("no meta-nextfile entry in descriptor")
    ensures n.nextFile.Some? && n.log.Some? && n.lastSequence.Some? ==> Complete(n) == Ok
  {
  }

  lemma CountersThen(cs: seq<E.Contents>, counted: seq<Counters>, k: nat)
    requires CountedIs(cs, counted) && 2 <= k <= |cs|
    ensures |counted| == |cs| && Latest(cs[..k]) == counted[k - 1] && counted[k - 1].nextFile.Some?
    ensures forall x :: x in Added(cs[..k]) ==> x.1 < counted[k - 1].nextFile.value
  {
    assert CountedAt(cs, counted[k - 1], k - 1);
    assert cs[..k - 1 + 1] == cs[..k];
  }

  lemma SomeCounters(cs: seq<E.Contents>, log: nat, prevLog: nat, nextFile: nat, last: nat, k: nat)
    requires k <= |cs| && Latest(cs[..k]) == Counters(Some(log), Some(prevLog), Some(nextFile), Some(last))
    ensures k == |cs| ==> Latest(cs) == Counters(Some(log), Some(prevLog), Some(nextFile), Some(last))
    ensures cs[..|cs|] == cs
  {
    hide Latest;
    assert cs[..|cs|] == cs;
  }

  // ---------- a new database ----------

  function NewDbRecord(name: Data): E.Contents {
    E.Contents(Some(name), Some(0), None, Some(2), Some(0), [], [], [])
  }

  /** DBImpl::NewDB: the first manifest. */
  method NewDB(F: Format, name: Data) returns (file: Data)
    requires FormatOk(F)
    ensures file == Encode(F, 0, Logged([NewDbRecord(name)]))
  {
    hide Encode;
    var edit := new E.VersionEdit();
    edit.Apply(E.Comparator(name));
    edit.Apply(E.LogNumber(0));
    edit.Apply(E.NextFileNumber(2));
    edit.Apply(E.LastSequence(0));
    assert edit.View() == NewDbRecord(name);
    var record := edit.EncodeTo();
    assert Logged([NewDbRecord(name)]) == [record];
    file := WriteLog(F, [record]);
  }

  lemma NewDbEdit(S: Spelling, name: Data)
    ensures BareEdits(S, [NewDbRecord(name)]) == [Edit([], [])]
  {
    assert NewBare(S, []) == [];
    assert BareEdit(S, NewDbRecord(name)) == Edit([], []);
  }

  lemma NewDbRecordIsOk(S: Spelling, name: Data)
    requires |name| < LIMIT32
    ensures var cs := [NewDbRecord(name)];
            && E.RecordOk(cs[0]) && ManifestOk(BareEdits(S, cs)) && PointersAfter(cs) == NoPointers()
            && Latest(cs) == Counters(Some(0), None, Some(2), Some(0)) && Verdict(name, cs) == Ok
  {
    var c := NewDbRecord(name);
    RecordFits(c);
    assert [c][..0] == [];
    NewDbEdit(S, name);
    hide E.RecordOk;
  }

  lemma NothingRecovered(S: Spelling, name: Data, l: nat)
    ensures Recovered(S, [NewDbRecord(name)], map[], l) == {}
  {
    var es := OnLevel(BareEdits(S, [NewDbRecord(name)]), l);
    NewDbEdit(S, name);
    assert es == [At(Edit([], []), l)] && es[..0] == [];
    assert At(Edit([], []), l) == LevelEdit({}, {});
    assert ApplyEach({}, es) == ApplyOne(ApplyEach({}, es[..0]), es[0]) == {};
  }

  lemma NewManifest(F: Format, S: Spelling, name: Data)
    requires FormatOk(F) && |name| < LIMIT32
    ensures var cs := [NewDbRecord(name)];
            CutLog(F, S, cs, Encode(F, 0, Logged(cs))) && Survivors(F, cs, |Encode(F, 0, Logged(cs))|) == cs
  {
    NewDbRecordIsOk(S, name);
    WholeLog(F, [NewDbRecord(name)]);
    hide Encode, E.RecordOk, ManifestOk, Whole;
  }

  lemma {:induction false} NoFiles(S: Spelling, levels: Levels)
    requires |levels| == NUM_LEVELS && forall l :: 0 <= l < NUM_LEVELS ==> FileSet(levels[l]) == {}
    ensures Sound(S, levels) && Slots(levels) == {} && NumbersOn(levels) == {}
  {
    forall l | 0 <= l < NUM_LEVELS ensures levels[l] == [] {
      NonEmptyHasMember(levels[l]);
      assert forall f :: f in levels[l] ==> f in FileSet(levels[l]);
    }
  }

  /** What DBImpl::Recover does first when there is no database: NewDB, then Recover. */
  method CreateNew(F: Format, S: Spelling, name: Data) returns (vs: VersionSet)
    requires FormatOk(F) && SpellingOk(S) && |name| < LIMIT32
    ensures fresh(vs) && fresh(vs.descriptorLog) && vs.Valid() && !vs.begun && vs.S == S && vs.name == name && vs.descriptorLog.F == F
    ensures |vs.current| == NUM_LEVELS && Slots(vs.current) == {} && vs.Ever() == {}
    ensures vs.manifestFileNumber == 2 && vs.nextFileNumber == 3 && vs.lastSequence == vs.logNumber == vs.prevLogNumber == 0
  {
    hide *;
    var file := NewDB(F, name);
    vs := new VersionSet(F, S, name);
    vs.EmptyLog();
    NewManifest(F, S, name);
    NewDbRecordIsOk(S, name);
    var status := vs.Recover(file, map[], [NewDbRecord(name)]);
    ReadyForUse(vs, name);
  }

  lemma ReadyForUse(vs: VersionSet, name: Data)
    requires vs.name == name && |name| < LIMIT32 && SpellingOk(vs.S) && vs.IsRecovered([NewDbRecord(name)], map[])
    requires !vs.begun && vs.records == [] && vs.past == [] && vs.counted == [] && LogHolds(vs.descriptorLog, [])
    requires Latest([NewDbRecord(name)]) == Counters(Some(0), None, Some(2), Some(0)) && PointersAfter([NewDbRecord(name)]) == NoPointers()
    ensures vs.Valid() && |vs.current| == NUM_LEVELS && Slots(vs.current) == {} && vs.Ever() == {}
    ensures vs.manifestFileNumber == 2 && vs.nextFileNumber == 3 && vs.lastSequence == vs.logNumber == vs.prevLogNumber == 0
  {
    forall l: nat | l < NUM_LEVELS ensures FileSet(vs.current[l]) == {} {
      NothingRecovered(vs.S, name, l);
    }
    NoFiles(vs.S, vs.current);
    EmptyChronicle(vs.S, name);
    hide Latest, PointersAfter, Recovered, LogHolds, Chronicle, Sound, SpellingOk, NumbersOn;
  }
}
