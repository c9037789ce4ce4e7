/** db/version_set.cc: the manifest, from the edits to its bytes and back. Pure part: what a
    record says and what a sequence of records amounts to. */
module ManifestRecords {
  import opened InternalKeys
  import opened Coding
  import opened Files
  import opened Version
  import opened VersionBuilder
  import E = VersionEdits

  // ---------- keys and files as bytes ----------

  /** The bytes of an InternalKey: the user key and the packed tag. */
  function EncodeKey(S: Spelling, k: IKey): Data {
    Spelled(S, k.user) + FixedBytes(k.tag, 8)
  }

  function DecodeKey(S: Spelling, d: Data): IKey {
    if |d| < 8 then IKey(Ranked(S, d), 0) else IKey(Ranked(S, d[..|d| - 8]), DecodeFixed(d[|d| - 8..]))
  }

  predicate UserFits(S: Spelling, user: UserKey) {
    |Spelled(S, user)| + 8 < LIMIT32
  }

  predicate KeyFits(S: Spelling, k: IKey) {
    k.tag < LIMIT64 && UserFits(S, k.user)
  }

  lemma KeyReadsBack(S: Spelling, k: IKey)
    requires SpellingOk(S) && KeyFits(S, k)
    ensures DecodeKey(S, EncodeKey(S, k)) == k && E.KeyOk(EncodeKey(S, k))
  {
    var d, n := EncodeKey(S, k), |Spelled(S, k.user)|;
    assert d[..n] == Spelled(S, k.user) && d[n..] == FixedBytes(k.tag, 8);
    Width64();
    FixedRoundTrip(k.tag, 8);
  }

  /** FileMetaData as it is written; the entries are in the table, not in the manifest. */
  function MetaOf(S: Spelling, f: File): E.FileMeta {
    E.FileMeta(f.number, f.size, EncodeKey(S, f.smallest), EncodeKey(S, f.largest))
  }

  function Bare(f: File): File {
    f.(entries := [])
  }

  function Described(S: Spelling, m: E.FileMeta): File {
    File(m.number, m.size, DecodeKey(S, m.smallest), DecodeKey(S, m.largest), [])
  }

  predicate FileFits(S: Spelling, f: File) {
    f.number < LIMIT64 && f.size < LIMIT64 && KeyFits(S, f.smallest) && KeyFits(S, f.largest)
  }

  lemma FileReadsBack(S: Spelling, f: File)
    requires SpellingOk(S) && FileFits(S, f)
    ensures Described(S, MetaOf(S, f)) == Bare(f)
    ensures forall l: nat :: l < NUM_LEVELS ==> E.FieldOk(E.NewFile(l, MetaOf(S, f)))
  {
    KeyReadsBack(S, f.smallest);
    KeyReadsBack(S, f.largest);
    hide EncodeKey, DecodeKey;
  }

  /** A table is opened by its number. */
  function Opened(tables: map<nat, seq<Entry>>, f: File): File {
    f.(entries := if f.number in tables then tables[f.number] else [])
  }

  // ---------- records ----------

  function RecordBytes(c: E.Contents): Data {
    E.AllBytes(E.FieldsOf(c))
  }

  ghost function Logged(cs: seq<E.Contents>): seq<Data> {
    seq(|cs|, i requires 0 <= i < |cs| => RecordBytes(cs[i]))
  }

  function NewBare(S: Spelling, ps: seq<(nat, E.FileMeta)>): seq<(nat, File)> {
    seq(|ps|, i requires 0 <= i < |ps| => (ps[i].0, Described(S, ps[i].1)))
  }

  /** A record as an edit of bare files. */
  function BareEdit(S: Spelling, c: E.Contents): Edit {
    Edit(c.deletedFiles, NewBare(S, c.newFiles))
  }

  ghost function BareEdits(S: Spelling, cs: seq<E.Contents>): seq<Edit> {
    seq(|cs|, i requires 0 <= i < |cs| => BareEdit(S, cs[i]))
  }

  /** The levels and numbers of all files the records add. */
  ghost function Added(cs: seq<E.Contents>): set<(nat, nat)> {
    set c, m | c in cs && m in c.newFiles :: (m.0, m.1.number)
  }

  // ---------- counters and compaction pointers ----------

  datatype Counters = Counters(log: Option<nat>, prevLog: Option<nat>, nextFile: Option<nat>, lastSequence: Option<nat>)

  const NO_COUNTERS := Counters(None, None, None, None)

  function OrElse(a: Option<nat>, b: Option<nat>): Option<nat> {
    if a.Some? then a else b
  }

  function Count(n: Counters, c: E.Contents): Counters {
    Counters(OrElse(c.logNumber, n.log), OrElse(c.prevLogNumber, n.prevLog),
             OrElse(c.nextFileNumber, n.nextFile), OrElse(c.lastSequence, n.lastSequence))
  }

  /** The last value given to each counter. */
  function Latest(cs: seq<E.Contents>): Counters {
    if cs == [] then NO_COUNTERS else Count(Latest(cs[..|cs| - 1]), cs[|cs| - 1])
  }

  function NoPointers(): (r: seq<Data>)
    ensures |r| == NUM_LEVELS
  {
    [[], [], [], [], [], [], []]
  }

  function SetPointers(ptrs: seq<Data>, ps: seq<(nat, Data)>): (r: seq<Data>)
    ensures |r| == |ptrs|
  {
    if ps == [] then ptrs
    else
      var before, last := SetPointers(ptrs, ps[..|ps| - 1]), ps[|ps| - 1];
      if last.0 < |ptrs| then before[last.0 := last.1] else before
  }

  function PointersAfter(cs: seq<E.Contents>): (r: seq<Data>)
    ensures |r| == NUM_LEVELS
  {
    if cs == [] then NoPointers() else SetPointers(PointersAfter(cs[..|cs| - 1]), cs[|cs| - 1].compactPointers)
  }

  predicate NameFits(name: Data, c: E.Contents) {
    c.comparator.Some? ==> c.comparator.value == name
  }

  datatype Status = Ok | InvalidArgument | Corruption(what: string)

  /** Why Recover refuses, or that it does not. */
  function Complete(n: Counters): Status {
    if n.nextFile.None? then Corruption("no meta-nextfile entry in descriptor")
    else if n.log.None? then Corruption("no meta-lognumber entry in descriptor")
    else if n.lastSequence.None? then Corruption("no last-sequence-number entry in descriptor")
    else Ok
  }

  ghost function Verdict(name: Data, cs: seq<E.Contents>): Status {
    if forall c :: c in cs ==> NameFits(name, c) then Complete(Latest(cs)) else InvalidArgument
  }

  lemma {:induction false} CountedBySome(cs: seq<E.Contents>)
    ensures Latest(cs).nextFile.Some? <==> exists c :: c in cs && c.nextFileNumber.Some?
    ensures Latest(cs).log.Some? <==> exists c :: c in cs && c.logNumber.Some?
    ensures Latest(cs).lastSequence.Some? <==> exists c :: c in cs && c.lastSequence.Some?
  {
    if cs != [] {
      var front, last := cs[..|cs| - 1], cs[|cs| - 1];
      CountedBySome(front);
      assert forall c :: c in cs <==> c in front || c == last;
    }
  }

  /** A manifest is accepted if and only if every record that names a comparator names this one and
      each of the three counters is in some record; the comparator is what is complained of first. */
  lemma VerdictIff(name: Data, cs: seq<E.Contents>)
    ensures Verdict(name, cs) == Ok <==>
            && (forall c :: c in cs ==> c.comparator == None || c.comparator == Some(name))
            && (exists c :: c in cs && c.nextFileNumber.Some?)
            && (exists c :: c in cs && c.logNumber.Some?)
            && (exists c :: c in cs && c.lastSequence.Some?)
    ensures Verdict(name, cs) == InvalidArgument <==> exists c :: c in cs && c.comparator.Some? && c.comparator.value != name
  {
    CountedBySome(cs);
    hide Latest;
    if Verdict(name, cs) == InvalidArgument {
      var c :| c in cs && !NameFits(name, c);
    }
  }

  // ---------- replaying bare files ----------

  ghost function BareSet(fs: seq<File>): set<File> {
    set f | f in fs :: Bare(f)
  }

  /** Files enter and leave by their numbers, so their entries play no part. */
  lemma BareApplyOne(fs: set<File>, e: LevelEdit)
    ensures (set f | f in ApplyOne(fs, e) :: Bare(f))
         == ApplyOne(set f | f in fs :: Bare(f), LevelEdit(e.removed, set f | f in e.added :: Bare(f)))
  {
    var bareFs, bareAdded := set f | f in fs :: Bare(f), set f | f in e.added :: Bare(f);
    BareNumbers(e.added);
    forall g ensures g in (set f | f in ApplyOne(fs, e) :: Bare(f)) <==> g in ApplyOne(bareFs, LevelEdit(e.removed, bareAdded)) {
      if g in ApplyOne(bareFs, LevelEdit(e.removed, bareAdded)) {
        var f :| f in fs + e.added && Bare(f) == g;
        assert f in ApplyOne(fs, e);
      }
    }
  }

  lemma BareNumbers(fs: set<File>)
    ensures Numbers(set f | f in fs :: Bare(f)) == Numbers(fs)
  {
    forall n | n in Numbers(fs) ensures n in Numbers(set f | f in fs :: Bare(f)) {
      var f :| f in fs && f.number == n;
      assert Bare(f) in (set f | f in fs :: Bare(f)) && Bare(f).number == n;
    }
  }

  /** The lists are what the records amount to. */
  ghost predicate Replays(S: Spelling, cs: seq<E.Contents>, levels: Levels) {
    && |levels| == NUM_LEVELS
    && forall l :: 0 <= l < NUM_LEVELS ==> BareSet(levels[l]) == ApplyEach({}, OnLevel(BareEdits(S, cs), l))
  }

  /** Lists in order, and sorted and disjoint from level 1 on. */
  ghost predicate Shape(levels: Levels) {
    && |levels| == NUM_LEVELS
    && (forall l :: 0 <= l < NUM_LEVELS ==> Ordered(levels[l]))
    && (forall l :: 0 < l < NUM_LEVELS ==> Run(levels[l]))
  }

  ghost predicate DistinctOnLevels(levels: Levels) {
    forall l, f, g :: 0 <= l < |levels| && f in levels[l] && g in levels[l] && f.number == g.number ==> f == g
  }

  ghost predicate AllFit(S: Spelling, levels: Levels) {
    forall l, f :: 0 <= l < |levels| && f in levels[l] ==> FileFits(S, f)
  }

  ghost predicate Sound(S: Spelling, levels: Levels) {
    Shape(levels) && AllFit(S, levels) && DistinctOnLevels(levels)
  }

  ghost predicate RecordsFit(name: Data, cs: seq<E.Contents>) {
    forall c :: c in cs ==> E.RecordOk(c) && NameFits(name, c)
  }

  /** past[i] is the version there was after record i. */
  ghost predicate PastIs(S: Spelling, cs: seq<E.Contents>, past: seq<Levels>) {
    |past| == |cs| && forall i: nat :: i < |cs| ==> Sound(S, past[i]) && Replays(S, cs[..i + 1], past[i])
  }

  predicate AllCounted(c: E.Contents) {
    c.logNumber.Some? && c.prevLogNumber.Some? && c.nextFileNumber.Some? && c.lastSequence.Some?
  }

  /** The manifest so far: its records, and the version there was after each of them. */
  ghost predicate Chronicle(S: Spelling, name: Data, cs: seq<E.Contents>, past: seq<Levels>) {
    && RecordsFit(name, cs) && ManifestOk(BareEdits(S, cs)) && PastIs(S, cs, past)
    && (forall i :: 0 < i < |cs| ==> AllCounted(cs[i]))
  }

  lemma BareEditsSnoc(S: Spelling, cs: seq<E.Contents>, c: E.Contents, l: nat)
    ensures BareEdits(S, cs + [c]) == BareEdits(S, cs) + [BareEdit(S, c)]
    ensures ApplyEach({}, OnLevel(BareEdits(S, cs + [c]), l)) == ApplyOne(ApplyEach({}, OnLevel(BareEdits(S, cs), l)), At(BareEdit(S, c), l))
  {
    var es := OnLevel(BareEdits(S, cs + [c]), l);
    assert BareEdits(S, cs + [c]) == BareEdits(S, cs) + [BareEdit(S, c)];
    assert es[..|es| - 1] == OnLevel(BareEdits(S, cs), l);
  }

  /** Which files a record adds to a level, by number. */
  lemma AddedByRecord(S: Spelling, c: E.Contents, l: nat, n: nat)
    ensures n in Numbers(At(BareEdit(S, c), l).added) <==> exists m :: m in c.newFiles && m.0 == l && m.1.number == n
  {
    if n in Numbers(At(BareEdit(S, c), l).added) {
      var p :| p in NewBare(S, c.newFiles) && p.0 == l && p.1.number == n;
      var i :| 0 <= i < |c.newFiles| && NewBare(S, c.newFiles)[i] == p;
      assert c.newFiles[i] in c.newFiles;
    }
    if m :| m in c.newFiles && m.0 == l && m.1.number == n {
      var i :| 0 <= i < |c.newFiles| && c.newFiles[i] == m;
      var p := NewBare(S, c.newFiles)[i];
      assert p in NewBare(S, c.newFiles) && p.1 in At(BareEdit(S, c), l).added;
    }
  }

  /** What the next record must be like. */
  ghost predicate NextRecord(S: Spelling, name: Data, cs: seq<E.Contents>, c: E.Contents) {
    && E.RecordOk(c) && NameFits(name, c)
    && LevelsInRange(BareEdit(S, c)) && DistinctNumbers(BareEdit(S, c))
    && (forall m :: m in c.newFiles ==> (m.0, m.1.number) !in Added(cs))
    && (cs != [] ==> AllCounted(c))
  }

  lemma ManifestGrows(S: Spelling, cs: seq<E.Contents>, c: E.Contents)
    requires ManifestOk(BareEdits(S, cs)) && LevelsInRange(BareEdit(S, c)) && DistinctNumbers(BareEdit(S, c))
    requires forall m :: m in c.newFiles ==> (m.0, m.1.number) !in Added(cs)
    ensures ManifestOk(BareEdits(S, cs + [c]))
  {
    var all := cs + [c];
    BareEditsSnoc(S, cs, c, 0);
    forall l: nat | l < NUM_LEVELS ensures NeverReadded(OnLevel(BareEdits(S, all), l)) {
      var es := OnLevel(BareEdits(S, all), l);
      forall i, j | 0 <= i < j < |es| ensures Numbers(es[i].added) !! Numbers(es[j].added) {
        assert es[i] == OnLevel(BareEdits(S, cs), l)[i];
        if j < |cs| {
          assert es[j] == OnLevel(BareEdits(S, cs), l)[j];
        } else {
          forall n | n in Numbers(es[i].added) ensures n !in Numbers(es[j].added) {
            AddedByRecord(S, cs[i], l, n);
            AddedByRecord(S, c, l, n);
            assert cs[i] in cs && (l, n) in Added(cs);
          }
        }
      }
    }
  }

  lemma PastGrows(S: Spelling, cs: seq<E.Contents>, past: seq<Levels>, c: E.Contents, next: Levels)
    requires PastIs(S, cs, past) && Sound(S, next) && Replays(S, cs + [c], next)
    ensures PastIs(S, cs + [c], past + [next])
  {
    hide Sound, Replays;
    var all := cs + [c];
    assert all[..|cs| + 1] == all;
    forall i: nat | i < |cs| ensures Sound(S, (past + [next])[i]) && Replays(S, all[..i + 1], (past + [next])[i]) {
      assert all[..i + 1] == cs[..i + 1];
    }
  }

  lemma ReplayGrows(S: Spelling, cs: seq<E.Contents>, c: E.Contents, next: Levels)
    requires |next| == NUM_LEVELS
    requires forall l :: 0 <= l < NUM_LEVELS ==>
      BareSet(next[l]) == ApplyOne(ApplyEach({}, OnLevel(BareEdits(S, cs), l)), At(BareEdit(S, c), l))
    ensures Replays(S, cs + [c], next)
  {
    hide BareSet, ApplyOne, ApplyEach, At;
    forall l: nat | l < NUM_LEVELS ensures BareSet(next[l]) == ApplyEach({}, OnLevel(BareEdits(S, cs + [c]), l)) {
      BareEditsSnoc(S, cs, c, l);
    }
  }

  lemma ChronicleGrows(S: Spelling, name: Data, cs: seq<E.Contents>, past: seq<Levels>, c: E.Contents, next: Levels)
    requires Chronicle(S, name, cs, past) && NextRecord(S, name, cs, c) && Sound(S, next)
    requires forall l :: 0 <= l < NUM_LEVELS ==>
      BareSet(next[l]) == ApplyOne(ApplyEach({}, OnLevel(BareEdits(S, cs), l)), At(BareEdit(S, c), l))
    ensures Chronicle(S, name, cs + [c], past + [next])
  {
    assert |next| == NUM_LEVELS;
    ManifestGrows(S, cs, c);
    ReplayGrows(S, cs, c, next);
    PastGrows(S, cs, past, c, next);
    hide ManifestOk, E.RecordOk, Sound, Replays, PastIs, NameFits, AllCounted, BareSet, ApplyOne, ApplyEach, OnLevel, At, DistinctNumbers, LevelsInRange;
  }

  // ---------- the records that are written ----------

  /** A std::set of pairs, filled one by one. */
  function Gathered(ps: seq<(nat, nat)>): seq<(nat, nat)> {
    if ps == [] then [] else E.InsertPair(Gathered(ps[..|ps| - 1]), ps[|ps| - 1])
  }

  lemma {:induction false} GatheredOk(ps: seq<(nat, nat)>)
    ensures E.PairsAscend(Gathered(ps)) && forall q :: q in Gathered(ps) <==> q in ps
  {
    if ps != [] {
      var front, last := ps[..|ps| - 1], ps[|ps| - 1];
      GatheredOk(front);
      E.InsertIsInsertion(Gathered(front), last);
      assert ps == front + [last];
    }
  }

  function MetasOf(S: Spelling, ps: seq<(nat, File)>): (r: seq<(nat, E.FileMeta)>)
    ensures |r| == |ps|
  {
    seq(|ps|, i requires 0 <= i < |ps| => (ps[i].0, MetaOf(S, ps[i].1)))
  }

  function KeysOf(S: Spelling, ps: seq<(nat, IKey)>): seq<(nat, Data)> {
    seq(|ps|, i requires 0 <= i < |ps| => (ps[i].0, EncodeKey(S, ps[i].1)))
  }

  /** What LogAndApply writes for an edit. */
  function EditRecord(S: Spelling, e: Edit, pointers: seq<(nat, IKey)>,
                      log: nat, prevLog: nat, nextFile: nat, lastSequence: nat): E.Contents {
    E.Contents(None, Some(log), Some(prevLog), Some(nextFile), Some(lastSequence),
               KeysOf(S, pointers), Gathered(e.removed), MetasOf(S, e.added))
  }

  /** The files of the first n levels, level by level. */
  function FilesOfLevels(levels: Levels, n: nat): seq<(nat, File)>
    requires n <= |levels|
  {
    if n == 0 then [] else FilesOfLevels(levels, n - 1) + AddedAt(n - 1, levels[n - 1])
  }

  function SetPointerList(ptrs: seq<Data>, n: nat): seq<(nat, Data)>
    requires n <= |ptrs|
  {
    if n == 0 then [] else SetPointerList(ptrs, n - 1) + if ptrs[n - 1] == [] then [] else [(n - 1, ptrs[n - 1])]
  }

  /** What WriteSnapshot writes. */
  function SnapshotRecord(S: Spelling, name: Data, ptrs: seq<Data>, levels: Levels): E.Contents
    requires |levels| == |ptrs| == NUM_LEVELS
  {
    E.Contents(Some(name), None, None, None, None, SetPointerList(ptrs, NUM_LEVELS), [], MetasOf(S, FilesOfLevels(levels, NUM_LEVELS)))
  }

  lemma {:induction false} FilesOfLevelsMembers(levels: Levels, n: nat, l: nat, f: File)
    requires n <= |levels|
    ensures (l, f) in FilesOfLevels(levels, n) <==> l < n && f in levels[l]
  {
    if n > 0 {
      FilesOfLevelsMembers(levels, n - 1, l, f);
      AddedAtMember(n - 1, levels[n - 1], l, f);
    }
  }

  lemma NoPointersAreSet()
    ensures forall i :: 0 <= i < NUM_LEVELS ==> NoPointers()[i] == []
  {
  }

  lemma SetPointersSnoc(ptrs: seq<Data>, ps: seq<(nat, Data)>, p: (nat, Data))
    requires p.0 < |ptrs|
    ensures SetPointers(ptrs, ps + [p]) == SetPointers(ptrs, ps)[p.0 := p.1]
  {
    assert (ps + [p])[..|ps|] == ps;
  }

  /** Of the pointers given for a level the last one, at i, counts; without one (i < 0) the level keeps
      its own. */
  lemma {:induction false} LastPointerCounts(ptrs: seq<Data>, ps: seq<(nat, Data)>, l: nat, i: int)
    requires l < |ptrs| && i < |ps| && (i >= 0 ==> ps[i].0 == l)
    requires forall j :: 0 <= j < |ps| && j > i ==> ps[j].0 != l
    ensures SetPointers(ptrs, ps)[l] == if i < 0 then ptrs[l] else ps[i].1
  {
    var n := |ps| - 1;
    if n >= 0 && i < n {
      LastPointerCounts(ptrs, ps[..n], l, i);
    }
  }

  lemma OneMore<T>(a: seq<T>, b: seq<T>, n: nat)
    requires |a| == |b| && 0 < n <= |a|
    ensures a[..n] + b[n..] == (a[..n - 1] + b[n - 1..])[n - 1 := a[n - 1]]
    ensures a[n - 1] == b[n - 1] ==> a[..n] + b[n..] == a[..n - 1] + b[n - 1..]
  {
  }

  lemma {:induction false} PointerListMembers(ptrs: seq<Data>, n: nat)
    requires n <= |ptrs|
    ensures forall p :: p in SetPointerList(ptrs, n) ==> p.0 < n && p.1 == ptrs[p.0] && p.1 != []
  {
    if n > 0 {
      PointerListMembers(ptrs, n - 1);
    }
  }

  lemma {:induction false} PointerListTaken(ptrs: seq<Data>, n: nat)
    requires |ptrs| == NUM_LEVELS && n <= NUM_LEVELS
    ensures SetPointers(NoPointers(), SetPointerList(ptrs, n)) == ptrs[..n] + NoPointers()[n..]
  {
    if n == 0 {
      assert ptrs[..0] + NoPointers()[0..] == NoPointers();
    } else {
      PointerListTaken(ptrs, n - 1);
      NoPointersAreSet();
      OneMore(ptrs, NoPointers(), n);
      hide NoPointers, SetPointers;
      if ptrs[n - 1] == [] {
        assert SetPointerList(ptrs, n) == SetPointerList(ptrs, n - 1);
      } else {
        SetPointersSnoc(NoPointers(), SetPointerList(ptrs, n - 1), (n - 1, ptrs[n - 1]));
      }
    }
  }

  // ---------- their fields fit the format ----------

  lemma {:induction false} PointerFieldsFit(ps: seq<(nat, Data)>)
    requires forall p :: p in ps ==> p.0 < NUM_LEVELS && E.KeyOk(p.1)
    ensures forall f :: f in E.PointerFields(ps) ==> E.FieldOk(f)
  {
    if ps != [] {
      PointerFieldsFit(ps[..|ps| - 1]);
      assert ps[|ps| - 1] in ps;
    }
  }

  lemma {:induction false} DeletedFieldsFit(ps: seq<(nat, nat)>)
    requires forall p :: p in ps ==> p.0 < NUM_LEVELS && p.1 < LIMIT64
    ensures forall f :: f in E.DeletedFields(ps) ==> E.FieldOk(f)
  {
    if ps != [] {
      DeletedFieldsFit(ps[..|ps| - 1]);
      assert ps[|ps| - 1] in ps;
    }
  }

  lemma {:induction false} NewFieldsFit(ps: seq<(nat, E.FileMeta)>)
    requires forall p :: p in ps ==> E.FieldOk(E.NewFile(p.0, p.1))
    ensures forall f :: f in E.NewFields(ps) ==> E.FieldOk(f)
  {
    if ps != [] {
      NewFieldsFit(ps[..|ps| - 1]);
      assert ps[|ps| - 1] in ps;
    }
  }

  predicate CounterFits(n: Option<nat>) {
    n.Some? ==> n.value < LIMIT64
  }

  lemma RecordFits(c: E.Contents)
    requires c.comparator.Some? ==> |c.comparator.value| < LIMIT32
    requires CounterFits(c.logNumber) && CounterFits(c.prevLogNumber) && CounterFits(c.nextFileNumber) && CounterFits(c.lastSequence)
    requires forall p :: p in c.compactPointers ==> p.0 < NUM_LEVELS && E.KeyOk(p.1)
    requires E.PairsAscend(c.deletedFiles) && forall p :: p in c.deletedFiles ==> p.0 < NUM_LEVELS && p.1 < LIMIT64
    requires forall p :: p in c.newFiles ==> E.FieldOk(E.NewFile(p.0, p.1))
    ensures E.RecordOk(c)
  {
    PointerFieldsFit(c.compactPointers);
    DeletedFieldsFit(c.deletedFiles);
    NewFieldsFit(c.newFiles);
    hide E.PointerFields, E.DeletedFields, E.NewFields;
  }

  /** The files of a record, as they read back, are the files it was made of without their entries. */
  lemma MetasReadBack(S: Spelling, e: Edit, c: E.Contents, l: nat)
    requires SpellingOk(S) && c.newFiles == MetasOf(S, e.added)
    requires forall p :: p in e.added ==> p.0 < NUM_LEVELS && FileFits(S, p.1)
    ensures At(BareEdit(S, c), l).added == set f | f in At(e, l).added :: Bare(f)
    ensures forall p :: p in c.newFiles ==> E.FieldOk(E.NewFile(p.0, p.1))
    ensures forall p :: p in c.newFiles <==> exists q :: q in e.added && p == (q.0, MetaOf(S, q.1))
  {
    var bare := NewBare(S, c.newFiles);
    hide FileFits, Described, MetaOf, E.FieldOk;
    forall i | 0 <= i < |e.added|
      ensures bare[i] == (e.added[i].0, Bare(e.added[i].1)) && E.FieldOk(E.NewFile(c.newFiles[i].0, c.newFiles[i].1))
    {
      assert e.added[i] in e.added;
      FileReadsBack(S, e.added[i].1);
    }
    forall f | f in At(e, l).added ensures Bare(f) in At(BareEdit(S, c), l).added {
      var i :| 0 <= i < |e.added| && e.added[i] == (l, f);
      assert bare[i] in bare;
    }
    forall p | p in c.newFiles ensures exists q :: q in e.added && p == (q.0, MetaOf(S, q.1)) {
      var i :| 0 <= i < |c.newFiles| && c.newFiles[i] == p;
      assert e.added[i] in e.added;
    }
    forall q | q in e.added ensures (q.0, MetaOf(S, q.1)) in c.newFiles {
      var i :| 0 <= i < |e.added| && e.added[i] == q;
      assert c.newFiles[i] == (q.0, MetaOf(S, q.1));
    }
  }

  ghost predicate EditFits(S: Spelling, e: Edit) {
    && (forall p :: p in e.removed ==> p.0 < NUM_LEVELS && p.1 < LIMIT64)
    && (forall p :: p in e.added ==> p.0 < NUM_LEVELS && FileFits(S, p.1))
  }

  ghost predicate PointersFit(S: Spelling, ps: seq<(nat, IKey)>) {
    forall p :: p in ps ==> p.0 < NUM_LEVELS && KeyFits(S, p.1)
  }

  /** The record of an edit: it fits the format, and says of every level what the edit says. */
  lemma EditRecordOk(S: Spelling, e: Edit, ps: seq<(nat, IKey)>, log: nat, prevLog: nat, nextFile: nat, lastSequence: nat)
    requires SpellingOk(S) && EditFits(S, e) && PointersFit(S, ps)
    requires log < LIMIT64 && prevLog < LIMIT64 && nextFile < LIMIT64 && lastSequence < LIMIT64
    ensures var c := EditRecord(S, e, ps, log, prevLog, nextFile, lastSequence);
            && E.RecordOk(c)
            && (forall l :: At(BareEdit(S, c), l) == LevelEdit(At(e, l).removed, set f | f in At(e, l).added :: Bare(f)))
            && (forall p :: p in c.newFiles <==> exists q :: q in e.added && p == (q.0, MetaOf(S, q.1)))
            && (forall p :: p in c.compactPointers ==> p.0 < NUM_LEVELS && E.KeyOk(p.1))
  {
    var c := EditRecord(S, e, ps, log, prevLog, nextFile, lastSequence);
    hide E.RecordOk, E.FieldOk, E.KeyOk, FileFits, KeyFits, MetaOf, EncodeKey, Described;
    GatheredOk(e.removed);
    MetasReadBack(S, e, c, 0);
    forall p | p in c.compactPointers ensures p.0 < NUM_LEVELS && E.KeyOk(p.1) {
      var i :| 0 <= i < |ps| && p == KeysOf(S, ps)[i];
      assert ps[i] in ps;
      KeyReadsBack(S, ps[i].1);
    }
    RecordFits(c);
    forall l: nat ensures At(BareEdit(S, c), l) == LevelEdit(At(e, l).removed, set f | f in At(e, l).added :: Bare(f)) {
      MetasReadBack(S, e, c, l);
    }
  }

  // ---------- reading any record ----------

  function Blank(): E.Contents {
    E.Contents(None, None, None, None, None, [], [], [])
  }

  /** What DecodeFrom makes of a record in a new VersionEdit. */
  ghost function Parsed(d: Data): E.Contents {
    E.TakeAll(E.Cleared(Blank()), E.DecodeAll(d).0)
  }

  ghost function AllParsed(records: seq<Data>): seq<E.Contents> {
    seq(|records|, i requires 0 <= i < |records| => Parsed(records[i]))
  }

  lemma RecordParses(c: E.Contents)
    requires E.RecordOk(c)
    ensures E.DecodeAll(RecordBytes(c)).1 && Parsed(RecordBytes(c)) == c
  {
    E.RecordReadsBack(Blank(), c);
    hide E.DecodeAll, E.TakeAll, E.FieldsOf, E.AllBytes, E.RecordOk;
    assert [] + c.compactPointers == c.compactPointers;
  }

  predicate LevelExists(f: E.Field) {
    match f
    case CompactPointer(level, _) => level < NUM_LEVELS
    case DeletedFile(level, _) => level < NUM_LEVELS
    case NewFile(level, _) => level < NUM_LEVELS
    case _ => true
  }

  lemma BodyLevelExists(tag: nat, body: Data)
    ensures E.DecodeBody(tag, body).Some? ==> LevelExists(E.DecodeBody(tag, body).value.0)
  {
    hide Varint32, Varint64, DecodePrefixed;
  }

  lemma {:induction false} DecodedLevelsExist(d: Data)
    ensures forall f :: f in E.DecodeAll(d).0 ==> LevelExists(f)
    decreases |d|
  {
    E.DecodeStep([], d);
    if Varint32(d).Some? {
      var (tag, body) := Varint32(d).value;
      BodyLevelExists(tag, body);
      if E.DecodeBody(tag, body).Some? {
        DecodedLevelsExist(E.DecodeBody(tag, body).value.1);
      }
    }
    hide E.DecodeBody, Varint32, E.DecodeAll;
    assert [] + E.DecodeAll(d).0 == E.DecodeAll(d).0;
  }

  ghost predicate LevelsExist(c: E.Contents) {
    && (forall p :: p in c.compactPointers ==> p.0 < NUM_LEVELS)
    && (forall p :: p in c.deletedFiles ==> p.0 < NUM_LEVELS)
    && (forall p :: p in c.newFiles ==> p.0 < NUM_LEVELS)
  }

  lemma {:induction false} InsertAddsOne(ps: seq<(nat, nat)>, p: (nat, nat))
    ensures forall q :: q in E.InsertPair(ps, p) ==> q in ps || q == p
  {
    if ps != [] {
      InsertAddsOne(ps[..|ps| - 1], p);
    }
  }

  lemma {:induction false} TakenLevelsExist(c: E.Contents, fs: seq<E.Field>)
    requires LevelsExist(c) && forall f :: f in fs ==> LevelExists(f)
    ensures LevelsExist(E.TakeAll(c, fs))
  {
    if fs != [] {
      var front, last := fs[..|fs| - 1], fs[|fs| - 1];
      TakenLevelsExist(c, front);
      assert last in fs && LevelExists(last);
      var before := E.TakeAll(c, front);
      if last.DeletedFile? {
        InsertAddsOne(before.deletedFiles, (last.level, last.n));
      }
      hide E.TakeAll, E.InsertPair;
    }
  }

  /** Whatever the bytes are, the levels of a parsed record exist. */
  lemma ParsedLevelsExist(S: Spelling, d: Data)
    ensures LevelsExist(Parsed(d)) && LevelsInRange(BareEdit(S, Parsed(d)))
  {
    DecodedLevelsExist(d);
    TakenLevelsExist(E.Cleared(Blank()), E.DecodeAll(d).0);
    hide E.DecodeAll, E.TakeAll, LevelExists;
    var c := Parsed(d);
    forall p | p in NewBare(S, c.newFiles) ensures p.0 < NUM_LEVELS {
      var i :| 0 <= i < |c.newFiles| && NewBare(S, c.newFiles)[i] == p;
      assert c.newFiles[i] in c.newFiles;
    }
  }
}
