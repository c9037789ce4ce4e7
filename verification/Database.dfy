/** DBImpl: the concrete store, every method of which is one step of the state
    machine in LsmTree. */
module Database {
  import opened InternalKeys
  import opened Files
  import opened Version
  import opened InputSelection
  import opened CompactionInputs
  import opened CompactionLoop
  import opened CompactionMerge
  import opened Coding
  import opened VersionBuilder
  import opened ManifestRecords
  import opened VersionSets
  import DbIterators
  import LogFormat
  import LsmTree
  import StoreIterators

  const MAX_MEM_COMPACT_LEVEL: nat := 2

  // ---------- lists and sets of files ----------

  /** What the list form of a version adds to the set form. */
  ghost predicate ListsOk(levels: Levels) {
    && |levels| == NUM_LEVELS
    && (forall l :: 0 <= l < NUM_LEVELS ==> Ordered(levels[l]))
  }

  lemma ListsGiveLevels(levels: Levels)
    requires ListsOk(levels) && VersionOk(Slots(levels)) && UniqueSequence(EntriesOf(Slots(levels)))
    ensures LevelsOk(levels)
    ensures forall l :: 0 <= l < NUM_LEVELS ==> LevelOk(l, levels[l])
  {
    FilesAreOk(levels);
    forall l | 0 < l < NUM_LEVELS ensures Run(levels[l]) {
      forall f, g | f in levels[l] && g in levels[l] && f != g ensures Apart(f, g) {
        assert Placed(l, f) in Slots(levels) && Placed(l, g) in Slots(levels);
        assert Apart(Placed(l, f).file, Placed(l, g).file);
      }
      OrderedApartIsRun(levels[l]);
    }
    forall i, j | 0 <= i < j < |levels[0]| ensures levels[0][i].number != levels[0][j].number {
      assert FileLess(levels[0][i], levels[0][j]);
      assert Placed(0, levels[0][i]) in Slots(levels) && Placed(0, levels[0][j]) in Slots(levels);
    }
  }

  /** The edit removes and adds exactly these placed files. */
  ghost predicate EditIs(e: Edit, removed: set<Placed>, added: set<Placed>) {
    && (forall l: nat, n: nat :: (l, n) in e.removed <==> exists p :: p in removed && p.level == l && p.file.number == n)
    && (forall l: nat, f :: (l, f) in e.added <==> Placed(l, f) in added)
  }

  /** The slots of a version that differs by an edit. */
  lemma SlotsAfterEdit(before: Levels, after: Levels, e: Edit, removed: set<Placed>, added: set<Placed>)
    requires |before| == |after| == NUM_LEVELS && LevelsInRange(e)
    requires UniqueNumbers(Slots(before)) && removed <= Slots(before)
    requires forall l :: 0 <= l < NUM_LEVELS ==> FileSet(after[l]) == ApplyOne(FileSet(before[l]), At(e, l))
    requires EditIs(e, removed, added)
    requires forall p, q :: p in added && q in Slots(before) && p.level == q.level ==> p.file.number != q.file.number
    ensures Slots(after) == Slots(before) - removed + added
  {
    forall l: nat, f: File
      ensures Placed(l, f) in Slots(after) <==> Placed(l, f) in Slots(before) - removed + added
    {
      if l < NUM_LEVELS {
        assert f in after[l] <==> f in FileSet(after[l]);
        SlotAfterEdit(before, e, removed, added, l, f);
      } else {
        assert (l, f) !in e.added;
      }
    }
    forall p ensures p in Slots(after) <==> p in Slots(before) - removed + added {
      assert p == Placed(p.level, p.file);
    }
  }

  lemma SlotAfterEdit(before: Levels, e: Edit, removed: set<Placed>, added: set<Placed>, l: nat, f: File)
    requires |before| == NUM_LEVELS && l < NUM_LEVELS
    requires UniqueNumbers(Slots(before)) && removed <= Slots(before)
    requires EditIs(e, removed, added)
    requires forall p, q :: p in added && q in Slots(before) && p.level == q.level ==> p.file.number != q.file.number
    ensures f in ApplyOne(FileSet(before[l]), At(e, l)) <==> Placed(l, f) in Slots(before) - removed + added
  {
    var slot := Placed(l, f);
    assert slot in Slots(before) <==> f in before[l];
    assert f in At(e, l).added <==> slot in added by {
      assert f in At(e, l).added <==> (l, f) in e.added;
    }
    assert f.number in At(e, l).removed <==> (l, f.number) in e.removed;
    if slot in added {
      assert f.number in Numbers(At(e, l).added);
    } else if slot in Slots(before) {
      forall g | g in At(e, l).added ensures g.number != f.number {
        assert (l, g) in e.added && Placed(l, g) in added;
      }
      if slot in removed {
        assert (l, f.number) in e.removed;
      }
    }
  }

  // ---------- logging an edit ----------

  /** File numbers given out so far; a number is only ever added again below the level it is on. */
  ghost predicate NumbersOk(levels: Levels, ever: set<(nat, nat)>, next: nat) {
    && (forall x :: x in ever ==> x.1 < next)
    && (forall p :: p in Slots(levels) ==> p.file.number < next)
    && (forall p, x :: p in Slots(levels) && x in ever && x.1 == p.file.number ==> x.0 <= p.level)
  }

  /** Where files may be added: new numbers anywhere, known ones below all their levels. */
  ghost predicate NewPlaces(added: set<Placed>, ever: set<(nat, nat)>, next: nat) {
    && (forall p :: p in added ==> p.file.number < next)
    && (forall p, x :: p in added && x in ever && x.1 == p.file.number ==> x.0 < p.level)
  }

  ghost predicate PlacedFit(S: Spelling, ps: set<Placed>) {
    forall p :: p in ps ==> p.level < NUM_LEVELS && FileFits(S, p.file)
  }

  lemma EditMembers(e: Edit, removed: set<Placed>, added: set<Placed>)
    requires EditIs(e, removed, added)
    ensures forall p :: p in e.added <==> Placed(p.0, p.1) in added
    ensures forall p :: p in e.removed <==> exists q :: q in removed && q.level == p.0 && q.file.number == p.1
    ensures forall x :: x in AddedBy(e) <==> exists p :: p in added && x == (p.level, p.file.number)
  {
    forall p ensures p in e.added <==> Placed(p.0, p.1) in added {
      assert p == (p.0, p.1);
    }
    forall p ensures p in e.removed <==> exists q :: q in removed && q.level == p.0 && q.file.number == p.1 {
      assert p == (p.0, p.1);
    }
    forall x ensures x in AddedBy(e) <==> exists p :: p in added && x == (p.level, p.file.number) {
      if p :| p in added && x == (p.level, p.file.number) {
        assert p == Placed(p.level, p.file) && (p.level, p.file) in e.added;
      }
    }
  }

  lemma EditFitsHere(S: Spelling, levels: Levels, e: Edit, removed: set<Placed>, added: set<Placed>, ever: set<(nat, nat)>, next: nat)
    requires Sound(S, levels) && EditIs(e, removed, added) && removed <= Slots(levels) && PlacedFit(S, added)
    requires UniqueNumbers(Slots(levels) - removed + added) && NewPlaces(added, ever, next) && NumbersOn(levels) <= ever
    ensures EditFits(S, e) && DistinctNumbers(e) && AddedBy(e) !! ever && LevelsInRange(e)
    ensures forall p, q :: p in added && q in Slots(levels) && p.level == q.level ==> p.file.number != q.file.number
  {
    hide FileFits, Run, Ordered;
    EditMembers(e, removed, added);
    forall p | p in e.removed ensures p.0 < NUM_LEVELS && p.1 < LIMIT64 {
      var q :| q in removed && q.level == p.0 && q.file.number == p.1;
      assert q in Slots(levels) && q.file in levels[q.level];
      assert FileFits(S, q.file);
      FitsWidth(S, q.file);
    }
    forall p, q | p in added && q in Slots(levels) && p.level == q.level ensures p.file.number != q.file.number {
      assert (q.level, q.file.number) in NumbersOn(levels);
    }
  }

  lemma FitsWidth(S: Spelling, f: File)
    requires FileFits(S, f)
    ensures f.number < LIMIT64
  {
  }

  lemma EditKeepsApart(levels: Levels, e: Edit, removed: set<Placed>, added: set<Placed>)
    requires |levels| == NUM_LEVELS && EditIs(e, removed, added) && removed <= Slots(levels) && UniqueNumbers(Slots(levels))
    requires forall p, q :: p in added && q in Slots(levels) && p.level == q.level ==> p.file.number != q.file.number
    requires VersionOk(Slots(levels) - removed + added)
    ensures KeepsApart(levels, e)
  {
    hide EditIs, FileOk, Recent, UniqueNumbers, ApplyOne, FileSet, At;
    var after := Slots(levels) - removed + added;
    forall l: nat | 0 < l < NUM_LEVELS ensures PairwiseApart(ApplyOne(FileSet(levels[l]), At(e, l))) {
      forall f | f in ApplyOne(FileSet(levels[l]), At(e, l)) ensures Placed(l, f) in after && FileOk(f) {
        SlotAfterEdit(levels, e, removed, added, l, f);
        assert FileOk(Placed(l, f).file);
      }
      forall f, g | f in ApplyOne(FileSet(levels[l]), At(e, l)) && g in ApplyOne(FileSet(levels[l]), At(e, l)) && f != g
        ensures Apart(f, g)
      {
        assert Placed(l, f) != Placed(l, g);
        assert Apart(Placed(l, f).file, Placed(l, g).file);
      }
    }
  }

  lemma NumbersAfter(before: Levels, after: Levels, e: Edit, removed: set<Placed>, added: set<Placed>, ever: set<(nat, nat)>, next: nat)
    requires NumbersOk(before, ever, next) && NewPlaces(added, ever, next) && EditIs(e, removed, added)
    requires Slots(after) == Slots(before) - removed + added && UniqueNumbers(Slots(after))
    ensures NumbersOk(after, ever + AddedBy(e), next)
  {
    EditMembers(e, removed, added);
    hide Slots, EditIs;
    forall p, x | p in Slots(after) && x in ever + AddedBy(e) && x.1 == p.file.number ensures x.0 <= p.level {
      if x in AddedBy(e) {
        var q :| q in added && x == (q.level, q.file.number);
        assert q in Slots(after) && q == p;
      }
    }
  }

  lemma NumbersGivenOut(before: Levels, e: Edit, removed: set<Placed>, added: set<Placed>, ever: set<(nat, nat)>, next: nat)
    requires NumbersOk(before, ever, next) && NewPlaces(added, ever, next) && EditIs(e, removed, added)
    ensures forall x :: x in ever || x in AddedBy(e) ==> x.1 < next
  {
    EditMembers(e, removed, added);
    hide EditIs;
  }

  /** The sequence number last written to the manifest covers every entry of every file, and is
      not ahead of the store. */
  ghost predicate SequenceLogged(vs: VersionSet, last: nat)
    reads vs`counted, vs`current
  {
    && vs.counted != [] && vs.counted[|vs.counted| - 1].lastSequence.Some?
    && vs.counted[|vs.counted| - 1].lastSequence.value <= last
    && forall e :: e in EntriesOf(Slots(vs.current)) ==> e.sn <= vs.counted[|vs.counted| - 1].lastSequence.value
  }

  lemma NothingLogged(vs: VersionSet, last: nat)
    requires Slots(vs.current) == {} && vs.counted != [] && vs.counted[|vs.counted| - 1].lastSequence == Some(last)
    ensures SequenceLogged(vs, last)
  {
  }

  /** The files of a store hold writes of its history only. */
  lemma StoredIsLogged(vs: VersionSet, st: LsmTree.State)
    requires LsmTree.Inv(st) && st.files == Slots(vs.current)
    requires vs.counted != [] && vs.counted[|vs.counted| - 1].lastSequence == Some(|st.history|)
    ensures SequenceLogged(vs, |st.history|)
  {
    hide EntriesOf, VersionOk;
    forall e | e in EntriesOf(st.files) ensures e.sn <= |st.history| {
      assert e in st.Stored();
    }
  }

  /** LogAndApply for an edit that leaves a version again: the manifest gets its record, and the
      placed files change by exactly what the edit says. */
  method LogEdit(vs: VersionSet, e: Edit, pointers: seq<(nat, IKey)>, log: Option<nat>, prevLog: Option<nat>,
                 ghost removed: set<Placed>, ghost added: set<Placed>)
    requires vs.Valid() && EditIs(e, removed, added) && removed <= Slots(vs.current)
    requires VersionOk(Slots(vs.current)) && VersionOk(Slots(vs.current) - removed + added)
    requires NumbersOk(vs.current, vs.Ever(), vs.nextFileNumber) && NewPlaces(added, vs.Ever(), vs.nextFileNumber)
    requires PlacedFit(vs.S, added) && PointersFit(vs.S, pointers)
    requires vs.nextFileNumber < LIMIT64 && vs.lastSequence < LIMIT64
    requires (log.Some? ==> vs.logNumber <= log.value < vs.nextFileNumber) && CounterFits(prevLog)
    modifies vs`begun, vs`current, vs`compactPointer, vs`logNumber, vs`prevLogNumber, vs`records, vs`past, vs`counted, vs.descriptorLog
    ensures vs.Valid() && vs.begun && ListsOk(vs.current)
    ensures Slots(vs.current) == old(Slots(vs.current)) - removed + added
    ensures NumbersOk(vs.current, vs.Ever(), vs.nextFileNumber)
    ensures vs.logNumber == if log.Some? then log.value else old(vs.logNumber)
    ensures vs.counted != [] && vs.counted[|vs.counted| - 1].lastSequence == Some(vs.lastSequence)
  {
    hide *;
    ghost var before, ever := vs.current, vs.Ever();
    vs.LiveAreKnown();
    VersionFacts(Slots(before));
    VersionFacts(Slots(before) - removed + added);
    EditFitsHere(vs.S, before, e, removed, added, ever, vs.nextFileNumber);
    SoundLists(vs.S, before);
    EditKeepsApart(before, e, removed, added);
    NumbersGivenOut(before, e, removed, added, ever, vs.nextFileNumber);
    vs.LogAndApply(e, pointers, log, prevLog);
    vs.LiveAreKnown();
    SoundLists(vs.S, vs.current);
    InOrder(vs.current);
    SlotsAfterEdit(before, vs.current, e, removed, added);
    NumbersAfter(before, vs.current, e, removed, added, ever, vs.nextFileNumber);
  }

  lemma VersionFacts(ps: set<Placed>)
    requires VersionOk(ps)
    ensures UniqueNumbers(ps)
  {
  }

  lemma InOrder(levels: Levels)
    requires |levels| == NUM_LEVELS && forall l :: 0 <= l < NUM_LEVELS ==> Ordered(levels[l])
    ensures ListsOk(levels)
  {
    hide Ordered;
  }

  // ---------- flushing a memtable ----------

  ghost predicate TagsBounded(levels: Levels) {
    forall l, f :: 0 <= l < |levels| && f in levels[l] ==> f.largest.tag <= Pack(MAX_SEQUENCE, Put)
  }

  ghost predicate OverlapInLevel(fs: seq<File>, lo: UserKey, hi: UserKey) {
    exists f :: f in fs && Meets(f, Some(lo), Some(hi))
  }

  /** Version::PickLevelForMemTableOutput: as deep as kMaxMemCompactLevel while the
      next level is free of overlap and little is overlapped two levels down. */
  method PickLevelForMemTableOutput(levels: Levels, lo: UserKey, hi: UserKey, grandParentLimit: nat) returns (level: nat)
    requires |levels| == NUM_LEVELS && TagsBounded(levels) && lo <= hi
    requires forall l :: 0 <= l < NUM_LEVELS ==> LevelOk(l, levels[l])
    ensures level <= MAX_MEM_COMPACT_LEVEL
    ensures level > 0 ==> forall k :: 0 <= k <= level ==> !OverlapInLevel(levels[k], lo, hi)
    ensures level < MAX_MEM_COMPACT_LEVEL ==>
              || OverlapInLevel(levels[level], lo, hi) || OverlapInLevel(levels[level + 1], lo, hi)
              || TotalFileSize(Overlapping(levels[level + 2], Some(lo), Some(hi))) > grandParentLimit
  {
    level := 0;
    var overlap := SomeFileOverlapsRange(false, levels[0], Some(lo), Some(hi));
    if !overlap {
      while level < MAX_MEM_COMPACT_LEVEL
        invariant level <= MAX_MEM_COMPACT_LEVEL
        invariant forall k :: 0 <= k <= level ==> !OverlapInLevel(levels[k], lo, hi)
      {
        overlap := SomeFileOverlapsRange(true, levels[level + 1], Some(lo), Some(hi));
        if overlap {
          break;
        }
        LevelFacts(level + 2, levels[level + 2]);
        var overlaps := GetOverlappingInputs(level + 2, levels[level + 2], Some(lo), Some(hi));
        if TotalFileSize(overlaps) > grandParentLimit {
          break;
        }
        level := level + 1;
      }
    }
  }

  lemma PickedPlaceIsFree(levels: Levels, level: nat, f: File)
    requires |levels| == NUM_LEVELS && level <= MAX_MEM_COMPACT_LEVEL
    requires level > 0 ==> forall k :: 0 <= k <= level ==> !OverlapInLevel(levels[k], f.smallest.user, f.largest.user)
    ensures LsmTree.FlushPlace(Slots(levels), level, f)
  {
    if level > 0 {
      forall p | p in Slots(levels) && p.level <= level ensures !UserOverlap(p.file, f) {
        assert p.file in levels[p.level] && !OverlapInLevel(levels[p.level], f.smallest.user, f.largest.user);
        assert !Meets(p.file, Some(f.smallest.user), Some(f.largest.user));
      }
    }
  }

  // ---------- memtables ----------

  /** MemTable::Add: the skiplist keeps the entries in internal-key order. */
  function InsertEntry(mem: seq<Entry>, e: Entry): seq<Entry> {
    var i := SeekIndex(mem, KeyOf(e));
    mem[..i] + [e] + mem[i..]
  }

  lemma SortedInsert(es: seq<Entry>, i: nat, e: Entry)
    requires Sorted(es) && i <= |es|
    requires forall j :: 0 <= j < i ==> Less(KeyOf(es[j]), KeyOf(e))
    requires forall j :: i <= j < |es| ==> Less(KeyOf(e), KeyOf(es[j]))
    ensures Sorted(es[..i] + [e] + es[i..])
  {
    hide KeyOf, Less;
  }

  lemma InsertEntrySorted(mem: seq<Entry>, e: Entry)
    requires Sorted(mem) && forall x :: x in mem ==> x.sn != e.sn
    ensures Sorted(InsertEntry(mem, e)) && Entries(InsertEntry(mem, e)) == Entries(mem) + {e}
  {
    hide SeekIndex;
    var i := SeekIndex(mem, KeyOf(e));
    forall j | i <= j < |mem| ensures Less(KeyOf(e), KeyOf(mem[j])) {
      assert mem[j] in mem && mem[i] in mem;
      assert j > i ==> Less(KeyOf(mem[i]), KeyOf(mem[j]));
    }
    SortedInsert(mem, i, e);
    assert mem == mem[..i] + mem[i..];
    assert forall x :: x in InsertEntry(mem, e) <==> x in mem[..i] || x == e || x in mem[i..];
  }

  /** A hit in a newer layer is a hit in all layers together. */
  lemma NewerLayerDecides(newer: set<Entry>, older: set<Entry>, user: UserKey, s: nat, r: Option<Entry>)
    requires Finds(newer, user, s, r) && LsmTree.AllNewer(newer, older)
    ensures r.Some? ==> Finds(newer + older, user, s, r)
    ensures r.None? ==> forall q :: Finds(older, user, s, q) ==> Finds(newer + older, user, s, q)
  {
  }

  function ValueOf(r: Option<Entry>): Option<Data> {
    if r.Some? && r.value.kind.Put? then Some(r.value.value) else None
  }

  lemma FoundIsAnswer(es: set<Entry>, user: UserKey, s: nat, r: Option<Entry>)
    requires UniqueSequence(es) && Finds(es, user, s, r)
    ensures ValueOf(r) == Answer(es, user, s)
  {
    if r.Some? {
      AnswerOfNewest(es, user, s, r.value);
    } else {
      AnswerOfNone(es, user, s);
    }
  }

  // ---------- compaction outputs ----------

  lemma OutputsHoldKept(level: nat, outs: seq<File>, input: seq<Entry>, kept: set<Entry>)
    requires Run(outs)
    requires Concat(outs) == KeepSeq(input, kept, |input|) && kept <= Entries(input)
    ensures EntriesOf(Place(level, outs)) == kept
  {
    hide FileOk;
    ConcatOfRun(outs);
    KeepSeqMembers(input, kept, |input|);
    assert input[..|input|] == input;
    forall e ensures e in EntriesOf(Place(level, outs)) <==> e in kept {
      if e in EntriesOf(Place(level, outs)) {
        var p :| p in Place(level, outs) && e in p.file.entries;
        assert e in Concat(outs);
      }
      if e in kept {
        assert e in Concat(outs);
        var f :| f in outs && e in f.entries;
        assert Placed(level, f) in Place(level, outs);
      }
    }
  }

  lemma OutputsAreRewritten(levels: Levels, level: nat, outs: seq<File>, first: nat, input: seq<Entry>, kept: set<Entry>)
    requires OutputsOk(outs, first) && Run(outs)
    requires Concat(outs) == KeepSeq(input, kept, |input|) && kept <= Entries(input)
    requires forall p :: p in Slots(levels) ==> p.file.number < first
    ensures LsmTree.Rewritten(Place(level + 1, outs), level, kept, Slots(levels))
  {
    hide FileOk, KeepSeq, Concat, EntriesOf;
    OutputsHoldKept(level + 1, outs, input, kept);
    forall p, q | p in Place(level + 1, outs) && q in Place(level + 1, outs) && p != q
      ensures Apart(p.file, q.file) && p.file.number != q.file.number
    {
      var i :| 0 <= i < |outs| && outs[i] == p.file;
      var j :| 0 <= j < |outs| && outs[j] == q.file;
    }
    forall p, q | p in Place(level + 1, outs) && q in Slots(levels) ensures p.file.number != q.file.number {
      var i :| 0 <= i < |outs| && outs[i] == p.file;
    }
  }

  lemma StillLogged(vs: VersionSet, last: nat, later: nat)
    requires SequenceLogged(vs, last) && last <= later
    ensures SequenceLogged(vs, later)
  {
  }

  lemma HistoryStays(st: LsmTree.State, l: LsmTree.Label)
    requires LsmTree.Enabled(st, l) && !l.DoWrite?
    ensures LsmTree.Apply(st, l).history == st.history
  {
    hide LsmTree.Selected, LsmTree.Rewritten, LsmTree.FlushPlace;
  }

  /** A recovered store gives out no number of a live file or a stored entry again. */
  lemma RecoveredCounters(vs: VersionSet, r: VersionSet, last: nat)
    requires SequenceLogged(vs, last) && r.current == vs.current && vs.Valid() && NumbersOn(vs.current) <= vs.Ever()
    requires vs.counted[|vs.counted| - 1].lastSequence == Some(r.lastSequence)
    requires forall x :: x in vs.Ever() ==> x.1 < r.nextFileNumber
    ensures r.lastSequence <= last
    ensures forall p :: p in Slots(r.current) ==> p.file.number < r.nextFileNumber
    ensures forall e :: e in EntriesOf(Slots(r.current)) ==> e.sn <= r.lastSequence
  {
    hide EntriesOf, vs.Valid, vs.Ever;
    forall p | p in Slots(r.current) ensures p.file.number < r.nextFileNumber {
      assert (p.level, p.file.number) in NumbersOn(vs.current);
    }
  }

  // ---------- the store ----------

  class DBImpl {
    var mem: seq<Entry>
    var imm: Option<seq<Entry>>
    const versions: VersionSet
    var logfileNumber: nat
    var snapshots: seq<nat>
    ghost var history: seq<Entry>
    /** No compaction so far has dropped a tombstone that still hid a stored value. */
    ghost var lossless: bool

    ghost function Abs(): LsmTree.State
      reads `mem, `imm, `snapshots, `history, versions`current
    {
      LsmTree.State(Entries(mem), if imm.Some? then Some(Entries(imm.value)) else None, Slots(versions.current), snapshots, history)
    }

    ghost predicate Valid()
      reads this, versions, versions.descriptorLog
    {
      && LsmTree.Inv(Abs())
      && versions.Valid() && versions.begun
      && versions.lastSequence == |history|
      && Sorted(mem) && (imm.Some? ==> Sorted(imm.value))
      && ListsOk(versions.current)
      && NumbersOk(versions.current, versions.Ever(), versions.nextFileNumber)
      && versions.logNumber <= logfileNumber < versions.nextFileNumber
      && UsersFit(versions.S, history) && SequenceLogged(versions, |history|)
      && (lossless ==> LsmTree.Exact(Abs()))
    }

    /** DB::Open on a new database: the first manifest is written and recovered from, a log is
        begun, and a manifest of this run is begun with a first edit. */
    constructor (F: LogFormat.Format, S: Spelling, name: Data)
      requires LogFormat.FormatOk(F) && SpellingOk(S) && |name| < LIMIT32
      ensures Valid() && lossless && Abs() == LsmTree.EMPTY
      ensures fresh(versions) && fresh(versions.descriptorLog) && versions.S == S && versions.nextFileNumber == 4
    {
      hide *;
      var vs := CreateNew(F, S, name);
      mem, imm, snapshots := [], None, [];
      history, lossless := [], true;
      logfileNumber := 0;
      versions := vs;
      new;
      BeginManifest();
    }

    /** The log and the first edit of a new database. */
    method BeginManifest()
      requires mem == [] && imm == None && snapshots == [] && history == []
      requires versions.Valid() && |versions.current| == NUM_LEVELS && Slots(versions.current) == {} && versions.Ever() == {}
      requires versions.lastSequence == versions.logNumber == 0 && versions.nextFileNumber == 3
      modifies `logfileNumber, versions, versions.descriptorLog
      ensures Valid() && Abs() == LsmTree.EMPTY && versions.nextFileNumber == 4
    {
      hide *;
      logfileNumber := versions.NewFileNumber();
      NothingYet(versions);
      NoEdit();
      NoPointersFit(versions.S);
      CountersFit();
      NothingRemoved({}, {});
      WidthFits();
      LogEdit(versions, Edit([], []), [], Some(logfileNumber), Some(0), {}, {});
      AbsIs();
      EmptyIsSorted();
      NothingLogged(versions, 0);
      EmptyState(Abs());
      EmptyUsersFit(versions.S);
      Fold();
    }

    /** One taken step: what every method below reports. */
    static ghost predicate Stepped(before: LsmTree.State, l: LsmTree.Label, after: LsmTree.State) {
      LsmTree.Enabled(before, l) && after == LsmTree.Apply(before, l)
    }

    /** Write, with the whole group as one batch: the batch goes into the memtable entry
        by entry, and only then is the last sequence published. */
    method Write(ops: seq<Op>) returns (ghost l: LsmTree.Label)
      requires Valid() && versions.lastSequence + |ops| < MAX_SEQUENCE
      requires forall op :: op in ops ==> UserFits(versions.S, op.user)
      modifies this, versions`lastSequence
      ensures l == LsmTree.DoWrite(ops) && Stepped(old(Abs()), l, Abs())
      ensures Valid() && lossless == old(lossless)
    {
      hide *;
      l := LsmTree.DoWrite(ops);
      AbsIs();
      Unfold();
      WriteIsEnabled(Abs(), ops);
      StepKeepsValid(l);
      MemIsOlder();
      ghost var before := Abs();
      mem := InsertInto(ops, mem, versions.lastSequence + 1);
      UsersStillFit(versions.S, history, ops);
      StillLogged(versions, |history|, |history| + |ops|);
      versions.lastSequence := versions.lastSequence + |ops|;
      history := history + NumberOps(ops, |history| + 1);
      AbsIs();
      WrittenState(before, ops, Abs());
      Fold();
    }

    lemma MemIsOlder()
      requires Valid()
      ensures forall x :: x in mem ==> x.sn <= versions.lastSequence
    {
      assert forall x :: x in mem ==> x in Abs().Stored();
    }

    /** The state machine's theorems, for the state this store is in. */
    lemma StepKeepsValid(l: LsmTree.Label)
      requires Valid() && LsmTree.Enabled(Abs(), l)
      ensures LsmTree.Inv(LsmTree.Apply(Abs(), l))
      ensures lossless && LsmTree.Lossless(Abs(), l) ==> LsmTree.Exact(LsmTree.Apply(Abs(), l))
    {
      LsmTree.StepKeepsInv(Abs(), l);
      if lossless && LsmTree.Lossless(Abs(), l) {
        LsmTree.StepKeepsExact(Abs(), l);
      }
    }

    /** The memtable switch inside MakeRoomForWrite: a new log and a new memtable. */
    method SwitchMemTable() returns (ghost l: LsmTree.Label)
      requires Valid() && imm.None?
      modifies this, versions`nextFileNumber
      ensures l == LsmTree.DoSwitch && Stepped(old(Abs()), l, Abs())
      ensures Valid() && lossless == old(lossless)
    {
      hide *;
      l := LsmTree.DoSwitch;
      AbsIs();
      Unfold();
      SwitchIsEnabled(Abs());
      StepKeepsValid(l);
      ghost var before := Abs();
      logfileNumber := versions.NewFileNumber();
      imm := Some(mem);
      mem := [];
      AbsIs();
      SwitchedState(before, Abs());
      NumbersStay(versions.current, versions.Ever(), logfileNumber, versions.nextFileNumber);
      EmptyIsSorted();
      Fold();
    }

    method GetSnapshot() returns (s: nat, ghost l: LsmTree.Label)
      requires Valid()
      modifies this
      ensures l == LsmTree.DoSnapshot && Stepped(old(Abs()), l, Abs())
      ensures Valid() && lossless == old(lossless) && s == versions.lastSequence && s in snapshots
    {
      hide *;
      l := LsmTree.DoSnapshot;
      AbsIs();
      Unfold();
      SnapshotIsEnabled(Abs(), 0);
      StepKeepsValid(l);
      ghost var before := Abs();
      s := versions.lastSequence;
      snapshots := snapshots + [s];
      AbsIs();
      SnapshotState(before, 0, Abs());
      Fold();
    }

    method ReleaseSnapshot(i: nat) returns (ghost l: LsmTree.Label)
      requires Valid() && i < |snapshots|
      modifies this
      ensures l == LsmTree.DoRelease(i) && Stepped(old(Abs()), l, Abs())
      ensures Valid() && lossless == old(lossless)
    {
      hide *;
      l := LsmTree.DoRelease(i);
      AbsIs();
      Unfold();
      SnapshotIsEnabled(Abs(), i);
      StepKeepsValid(l);
      ghost var before := Abs();
      snapshots := snapshots[..i] + snapshots[i + 1..];
      AbsIs();
      SnapshotState(before, i, Abs());
      Fold();
    }

    // ---------- steps that go into the manifest ----------

    lemma AbsIs()
      ensures Abs() == LsmTree.State(Entries(mem), if imm.Some? then Some(Entries(imm.value)) else None, Slots(versions.current), snapshots, history)
    {
    }

    lemma Unfold()
      requires Valid()
      ensures LsmTree.Inv(Abs()) && VersionOk(Slots(versions.current)) && UniqueNumbers(Slots(versions.current))
      ensures versions.Valid() && versions.begun && ListsOk(versions.current) && |versions.current| == NUM_LEVELS
      ensures NumbersOk(versions.current, versions.Ever(), versions.nextFileNumber)
      ensures versions.logNumber <= logfileNumber < versions.nextFileNumber && UsersFit(versions.S, history)
      ensures SequenceLogged(versions, |history|)
      ensures Sorted(mem) && (imm.Some? ==> Sorted(imm.value)) && versions.lastSequence == |history| < MAX_SEQUENCE
      ensures forall e :: e in history ==> e.sn < MAX_SEQUENCE
      ensures forall e :: e in mem || (imm.Some? && e in imm.value) || e in EntriesOf(Slots(versions.current)) ==> e in history
      ensures Abs().files == Slots(versions.current) && Abs().history == history && (lossless ==> LsmTree.Exact(Abs()))
    {
      hide LsmTree.Exact, ListsOk, NumbersOk, UsersFit, Sorted, SequenceLogged, WellFormed, UniqueNumbers, DisjointLevels, Recent, Slots, EntriesOf, LsmTree.AllNewer;
      assert forall e :: e in mem || (imm.Some? && e in imm.value) || e in EntriesOf(Slots(versions.current)) ==> e in Abs().Stored();
      assert |versions.current| == NUM_LEVELS by { SizeOfLists(versions.current); }
    }

    lemma Fold()
      requires LsmTree.Inv(Abs()) && (lossless ==> LsmTree.Exact(Abs()))
      requires versions.Valid() && versions.begun && ListsOk(versions.current)
      requires NumbersOk(versions.current, versions.Ever(), versions.nextFileNumber)
      requires versions.logNumber <= logfileNumber < versions.nextFileNumber && UsersFit(versions.S, history)
      requires SequenceLogged(versions, |history|)
      requires Sorted(mem) && (imm.Some? ==> Sorted(imm.value)) && versions.lastSequence == |history|
      ensures Valid()
    {
      hide LsmTree.Inv, LsmTree.Exact, ListsOk, NumbersOk, UsersFit, Sorted, SequenceLogged;
    }

    /** Logs and installs the edit of a step. */
    method TakeStep(ghost l: LsmTree.Label, e: Edit, pointers: seq<(nat, IKey)>, log: Option<nat>, prevLog: Option<nat>,
                    ghost removed: set<Placed>, ghost added: set<Placed>)
      requires Valid() && LsmTree.Enabled(Abs(), l) && EditIs(e, removed, added) && removed <= Slots(versions.current)
      requires LsmTree.Apply(Abs(), l).files == Slots(versions.current) - removed + added
      requires NewPlaces(added, versions.Ever(), versions.nextFileNumber) && PlacedFit(versions.S, added)
      requires PointersFit(versions.S, pointers) && CounterFits(prevLog) && (log.Some? ==> log.value == logfileNumber)
      requires versions.nextFileNumber < LIMIT64
      modifies versions`begun, versions`current, versions`compactPointer, versions`logNumber, versions`prevLogNumber,
               versions`records, versions`past, versions`counted, versions.descriptorLog
      ensures versions.Valid() && versions.begun && ListsOk(versions.current)
      ensures NumbersOk(versions.current, versions.Ever(), versions.nextFileNumber) && versions.logNumber <= logfileNumber
      ensures Slots(versions.current) == LsmTree.Apply(old(Abs()), l).files
      ensures !l.DoWrite? ==> SequenceLogged(versions, |history|)
      ensures LsmTree.Inv(LsmTree.Apply(old(Abs()), l))
      ensures lossless && LsmTree.Lossless(old(Abs()), l) ==> LsmTree.Exact(LsmTree.Apply(old(Abs()), l))
    {
      hide *;
      Unfold();
      StepKeepsValid(l);
      InvVersion(LsmTree.Apply(Abs(), l));
      SequenceFits(versions.lastSequence);
      LogEdit(versions, e, pointers, log, prevLog, removed, added);
      if !l.DoWrite? {
        HistoryStays(old(Abs()), l);
        StoredIsLogged(versions, LsmTree.Apply(old(Abs()), l));
      }
    }

    /** CompactMemTable: the immutable memtable becomes a table on the level picked for it, and
        the logs before the current one are not needed any more. */
    method CompactMemTable(size: nat, grandParentLimit: nat) returns (ghost l: LsmTree.Label)
      requires Valid() && imm.Some? && size < LIMIT64 && versions.nextFileNumber + 1 < LIMIT64
      modifies this, versions, versions.descriptorLog
      ensures (l.DoFlush? || l.DoFlushNothing?) && Stepped(old(Abs()), l, Abs())
      ensures Valid() && lossless == old(lossless) && imm.None?
    {
      hide *;
      AbsIs();
      EmptyIsSorted();
      ghost var before := Abs();
      var e: Edit, level, f;
      ghost var added;
      if imm.value == [] {
        e, l, added := Edit([], []), LsmTree.DoFlushNothing, {};
        NothingToFlush(before);
        NoEdit();
      } else {
        level, f := WriteLevel0Table(size, grandParentLimit);
        e, l, added := Edit([], [(level, f)]), LsmTree.DoFlush(level, f), {Placed(level, f)};
        FlushFiles(before, level, f);
        FlushEdit(level, f);
      }
      NoPointersFit(versions.S);
      CountersFit();
      FlushIsLossless(before, l);
      NothingRemoved(Slots(versions.current), added);
      Unfold();
      TakeStep(l, e, [], Some(logfileNumber), Some(0), {}, added);
      imm := None;
      AbsIs();
      FlushedState(before, l, Abs());
      Fold();
    }

    /** The table for the immutable memtable and the level it goes to. */
    method WriteLevel0Table(size: nat, grandParentLimit: nat) returns (level: nat, f: File)
      requires Valid() && imm.Some? && imm.value != [] && size < LIMIT64 && versions.nextFileNumber + 1 < LIMIT64
      modifies versions`nextFileNumber
      ensures Valid() && level < NUM_LEVELS && f.number < versions.nextFileNumber == old(versions.nextFileNumber) + 1
      ensures LsmTree.Enabled(Abs(), LsmTree.DoFlush(level, f)) && PlacedFit(versions.S, {Placed(level, f)})
      ensures NewPlaces({Placed(level, f)}, versions.Ever(), versions.nextFileNumber)
    {
      hide *;
      Unfold();
      ListsGiveLevelsHere();
      ghost var next := versions.nextFileNumber;
      var number := versions.NewFileNumber();
      f := TableOf(number, size, imm.value);
      TagsAreBounded(Abs(), versions.current);
      TableIsOk(number, size, imm.value);
      level := PickLevelForMemTableOutput(versions.current, f.smallest.user, f.largest.user, grandParentLimit);
      PickedPlaceIsFree(versions.current, level, f);
      AbsIs();
      InputsBelow(versions.current, versions.Ever(), next);
      TableFits(versions.S, history, f);
      OnePlaced(versions.S, level, f);
      FlushAllowed(Abs(), level, f, next);
      NumbersLater(versions.current, versions.Ever(), next, level, f);
      Fold();
    }

    lemma ListsGiveLevelsHere()
      requires Valid()
      ensures UniqueNumbers(Slots(versions.current)) && |versions.current| == NUM_LEVELS
      ensures LevelsOk(versions.current) && forall l :: 0 <= l < NUM_LEVELS ==> LevelOk(l, versions.current[l])
    {
      LsmTree.StoredIsUnique(Abs());
      ListsGiveLevels(versions.current);
    }

    /** Moving a file whose key range is free on the next level. */
    method TrivialMove(level: nat, f: File) returns (ghost l: LsmTree.Label)
      requires Valid() && level + 1 < NUM_LEVELS && Placed(level, f) in Slots(versions.current)
      requires LsmTree.Selected(Slots(versions.current), level, {Placed(level, f)}, {}) && versions.nextFileNumber < LIMIT64
      modifies versions, versions.descriptorLog
      ensures l == LsmTree.DoMove(level, f) && Stepped(old(Abs()), l, Abs())
      ensures Valid() && lossless == old(lossless)
    {
      hide *;
      ghost var before := Abs();
      l := LsmTree.DoMove(level, f);
      Unfold();
      versions.LiveAreKnown();
      MoveFiles(before, level, f);
      MoveEdit(level, f);
      CountersFit();
      FlushIsLossless(before, l);
      AbsIs();
      MovedPlace(versions.S, versions.current, versions.Ever(), versions.nextFileNumber, level, f);
      TakeStep(l, Edit([(level, f.number)], [(level + 1, f)]), [(level, f.largest)], None, None, {Placed(level, f)}, {Placed(level + 1, f)});
      AbsIs();
      SameState(before, l, Abs());
      Fold();
    }

    /** The merging compaction proper, on selected inputs. The edit carries the compaction pointer
        that SetupOtherInputs has put into it. */
    method Compact(level: nat, in0: seq<File>, in1: seq<File>) returns (ghost l: LsmTree.Label)
      requires Valid() && level + 1 < NUM_LEVELS && in0 != []
      requires LsmTree.Selected(Slots(versions.current), level, Place(level, in0), Place(level + 1, in1))
      requires InputsOk(versions.current, level, in0, in1) && versions.nextFileNumber + versions.lastSequence < LIMIT64
      modifies this`lossless, versions, versions.descriptorLog
      ensures l.DoCompact? && l.from == level && l.in0 == Place(level, in0) && l.in1 == Place(level + 1, in1)
      ensures Stepped(old(Abs()), l, Abs()) && Valid()
      ensures lossless <==> old(lossless) && LsmTree.Lossless(old(Abs()), l)
    {
      hide *;
      AbsIs();
      CountersFit();
      ghost var before, removed := Abs(), Place(level, in0) + Place(level + 1, in1);
      Unfold();
      versions.LiveAreKnown();
      ListsGiveLevelsHere();
      SequenceRoom();
      SelectedAreStored(Slots(versions.current), level, Place(level, in0), Place(level + 1, in1));
      var smallestSnapshot := if snapshots == [] then versions.lastSequence else snapshots[0];
      var first := versions.nextFileNumber;
      InputsBelow(versions.current, versions.Ever(), first);
      var outs := MergeAndRewrite(versions.current, level, in0, in1, smallestSnapshot, first, history);
      ghost var added := Place(level + 1, outs);
      // one NewFileNumber for each output
      versions.nextFileNumber := first + |outs|;
      l := LsmTree.DoCompact(level, Place(level, in0), Place(level + 1, in1), added);
      CompactFiles(before, l);
      InstallEditIs(level, in0, in1, outs);
      OutputsFit(versions.S, history, level, outs, first, versions.Ever());
      NumbersStay(versions.current, versions.Ever(), first, versions.nextFileNumber);
      var smallest, largest := GetRange(in0);
      PointerFits(versions.S, versions.current, level, in0, smallest, largest);
      Fold();
      TakeStep(l, InstallEdit(level, in0, in1, outs), [(level, largest)], None, None, removed, added);
      AbsIs();
      lossless := lossless && LsmTree.Lossless(before, l);
      SameState(before, l, Abs());
      Fold();
    }

    lemma SequenceRoom()
      requires Valid()
      ensures Abs().SmallestSnapshot() < MAX_SEQUENCE
      ensures Abs().SmallestSnapshot() == if snapshots == [] then versions.lastSequence else snapshots[0]
    {
    }

    /** BackgroundCompaction: an immutable memtable is flushed first and nothing else is done.
        Otherwise inputs are picked and completed, then moved or merged. The label says which step
        of the state machine was taken; none when there was nothing to pick. */
    method BackgroundCompaction(level: nat, choice: Choice, isManual: bool, sizeLimit: nat, tableSize: nat, grandParentLimit: nat)
        returns (ghost l: Option<LsmTree.Label>)
      requires Valid() && level + 1 < NUM_LEVELS && tableSize < LIMIT64
      requires versions.nextFileNumber + versions.lastSequence + 1 < LIMIT64
      requires choice.PickRange? && choice.begin.Some? && choice.end.Some? ==> choice.begin.value <= choice.end.value
      modifies this, versions, versions.descriptorLog
      ensures Valid()
      ensures old(imm).Some? ==> l.Some? && (l.value.DoFlush? || l.value.DoFlushNothing?) && imm.None?
      ensures old(imm).None? && l.Some? ==> l.value.DoMove? || l.value.DoCompact?
      ensures isManual && old(imm).None? && l.Some? ==> l.value.DoCompact?
      ensures l.None? ==> Abs() == old(Abs()) && lossless == old(lossless)
      ensures l.Some? ==> Stepped(old(Abs()), l.value, Abs())
      ensures l.Some? ==> (lossless <==> old(lossless) && LsmTree.Lossless(old(Abs()), l.value))
      ensures l.Some? && l.value.DoCompact? && LsmTree.BoundaryClean(old(Slots(versions.current)), level, l.value.in1)
              ==> lossless == old(lossless)
    {
      hide *;
      ghost var step;
      if imm.Some? {
        step := CompactMemTable(tableSize, grandParentLimit);
        l := Some(step);
        FlushIsLossless(old(Abs()), step);
        return;
      }
      ListsGiveLevelsHere();
      Unfold();
      ghost var i, j, k;
      var picked;
      LevelFacts(level, versions.current[level]);
      picked, i, j := PickInputs(level, versions.current[level], choice);
      if picked == [] {
        return None;
      }
      var in0, in1;
      ghost var base, wide;
      in0, in1, i, k, base, wide := SetupOtherInputs(level, versions.current[level], versions.current[level + 1], picked, sizeLimit, i, j);
      SelectedInputs(versions.current, level, in0, in1, i, k);
      NoneLost(picked, in0);
      var littleBelow: bool := *;
      if !isManual && |in0| == 1 && |in1| == 0 && littleBelow {
        OneInput(versions.current, level, in0, in1);
        SelectedAreStored(Slots(versions.current), level, Place(level, in0), Place(level + 1, in1));
        step := TrivialMove(level, in0[0]);
        FlushIsLossless(old(Abs()), step);
      } else {
        CleanIsLossless(level, Place(level, in0), Place(level + 1, in1));
        step := Compact(level, in0, in1);
        LosslessMeans(old(Abs()), step);
      }
      l := Some(step);
    }

    lemma CleanIsLossless(level: nat, in0: set<Placed>, in1: set<Placed>)
      requires Valid() && LsmTree.Selected(Slots(versions.current), level, in0, in1)
      ensures LsmTree.BoundaryClean(Slots(versions.current), level, in1) ==> !LsmTree.BoundaryHides(Abs(), level, in0, in1)
    {
      if LsmTree.BoundaryClean(Slots(versions.current), level, in1) {
        LsmTree.CleanBoundaryLosesNothing(Abs(), level, in0, in1);
      }
    }

    /** What a crash leaves of the manifest, with the tables of the live files: the whole manifest
        gives back exactly the files there are, in lists sorted and disjoint from level 1 on. */
    method RecoverFiles(tables: map<nat, seq<Entry>>) returns (status: Status, vs: VersionSet)
      requires Valid() && TablesAre(versions.current, tables)
      ensures status == Ok && vs.Valid() && vs.current == versions.current && vs.logNumber == versions.logNumber
      ensures LevelsOk(vs.current)
      ensures vs.lastSequence <= versions.lastSequence
      ensures forall p :: p in Slots(vs.current) ==> p.file.number < vs.nextFileNumber
      ensures forall e :: e in EntriesOf(Slots(vs.current)) ==> e.sn <= vs.lastSequence
    {
      hide *;
      Unfold();
      ListsGiveLevelsHere();
      versions.WholeManifest();
      versions.LiveAreKnown();
      ghost var last := |history|;
      assert versions.lastSequence == last;
      status, vs := CrashAndRecover(versions, |versions.descriptorLog.dest|, tables);
      RecoveredCounters(versions, vs, last);
    }

    /** DBImpl::NewIterator: a user-key cursor over the merging iterator of the memtables and all
        files. What it shows at a live snapshot is exactly the map that replaying the history up to
        there leaves, in the order of its keys. */
    method NewIterator(snapshot: Option<nat>) returns (it: DbIterators.DBIter)
      requires Valid() && (snapshot.Some? ==> snapshot.value in snapshots)
      ensures fresh(it) && fresh(it.iter) && it.Inv() && !it.valid && Entries(it.es) == Abs().Stored()
      ensures it.sequence == if snapshot.Some? then snapshot.value else versions.lastSequence
      ensures lossless ==> it.sequence <= |history| && DbIterators.ShowsMap(it.es, it.sequence, Replay(history[..it.sequence]))
    {
      hide *;
      AbsIs();
      Unfold();
      ListsGiveLevelsHere();
      LayersApart();
      var s := if snapshot.Some? then snapshot.value else versions.lastSequence;
      var iter := StoreIterators.NewInternalIterator(mem, imm, versions.current);
      it := new DbIterators.DBIter(iter, s);
      if lossless {
        ShowsHistory(it.es, s);
      }
    }

    lemma ShowsHistory(es: seq<Entry>, s: nat)
      requires Valid() && lossless && (s in snapshots || s == versions.lastSequence)
      requires Sorted(es) && UniqueSequence(Entries(es)) && Entries(es) == Abs().Stored()
      ensures s <= |history| && DbIterators.ShowsMap(es, s, Replay(history[..s]))
    {
      ReadersAnswer(s);
      hide *;
      forall user ensures Answer(Entries(es), user, s) == Lookup(Replay(history[..s]), user) {
        assert Answer(Abs().Stored(), user, s) == Lookup(Replay(history[..s]), user);
      }
      DbIterators.AnswersShowMap(es, s, Replay(history[..s]));
    }

    lemma LayersApart()
      requires Valid()
      ensures var waiting, files := StoreIterators.Waiting(imm), EntriesOf(Slots(versions.current));
              && Abs().Stored() == Entries(mem) + waiting + files && UniqueSequence(Entries(mem) + waiting + files)
              && Entries(mem) !! waiting && Entries(mem) + waiting !! files
    {
      LsmTree.StoredIsUnique(Abs());
      NewerIsApart(Entries(mem), Abs().ImmEntries());
      NewerIsApart(Entries(mem), EntriesOf(Slots(versions.current)));
      NewerIsApart(Abs().ImmEntries(), EntriesOf(Slots(versions.current)));
    }

    lemma ReadersAnswer(s: nat)
      requires Valid() && lossless && (s in snapshots || s == versions.lastSequence)
      ensures s <= |history|
      ensures forall user {:trigger Answer(Abs().Stored(), user, s)} :: Answer(Abs().Stored(), user, s) == Lookup(Replay(history[..s]), user)
    {
      assert Abs().SmallestSnapshot() <= s <= |history|;
      forall user ensures Answer(Abs().Stored(), user, s) == Lookup(Replay(history[..s]), user) {
        AnswerIsReplay(history, user, s);
      }
    }

    /** DBImpl::Get: memtable, then immutable memtable, then the files. */
    method Get(user: UserKey, snapshot: Option<nat>) returns (r: Option<Data>)
      requires Valid() && (snapshot.Some? ==> snapshot.value in snapshots)
      ensures var s := if snapshot.Some? then snapshot.value else versions.lastSequence;
              && r == Answer(Abs().Stored(), user, s)
              && (lossless ==> s <= |history| && r == Lookup(Replay(history[..s]), user))
    {
      var s := if snapshot.Some? then snapshot.value else versions.lastSequence;
      LsmTree.StoredIsUnique(Abs());
      ghost var immEntries, fileEntries := Abs().ImmEntries(), EntriesOf(Slots(versions.current));
      ghost var older := immEntries + fileEntries;
      var inMem := SeekGet(mem, user, s);
      var hit := inMem;
      SeekGetFinds(mem, user, s);
      NewerLayerDecides(Entries(mem), older, user, s, inMem);
      if inMem.None? {
        var inImm := None;
        if imm.Some? {
          inImm := SeekGet(imm.value, user, s);
          SeekGetFinds(imm.value, user, s);
        }
        NewerLayerDecides(immEntries, fileEntries, user, s, inImm);
        hit := inImm;
        if inImm.None? {
          ListsGiveLevelsHere();
          hit := Version.Get(versions.current, user, s);
        }
      }
      assert Abs().Stored() == Entries(mem) + older;
      FoundIsAnswer(Abs().Stored(), user, s, hit);
      r := ValueOf(hit);
      if lossless {
        AnswerIsReplay(history, user, s);
      }
    }
  }

  lemma NewerIsApart(a: set<Entry>, b: set<Entry>)
    requires LsmTree.AllNewer(a, b)
    ensures a !! b
  {
    forall e | e in a ensures e !in b {
    }
  }

  // ---------- what the steps need ----------

  ghost predicate UsersFit(S: Spelling, history: seq<Entry>) {
    forall e :: e in history ==> UserFits(S, e.user)
  }

  lemma UsersStillFit(S: Spelling, history: seq<Entry>, ops: seq<Op>)
    requires UsersFit(S, history) && forall op :: op in ops ==> UserFits(S, op.user)
    ensures UsersFit(S, history + NumberOps(ops, |history| + 1))
  {
    var es := NumberOps(ops, |history| + 1);
    forall e | e in es ensures UserFits(S, e.user) {
      var i :| 0 <= i < |es| && es[i] == e;
      assert ops[i] in ops;
    }
  }

  /** A table of entries that have been written can be described in the manifest. */
  lemma TableFits(S: Spelling, history: seq<Entry>, f: File)
    requires FileOk(f) && f.number < LIMIT64 && f.size < LIMIT64 && UsersFit(S, history)
    requires forall e :: e in f.entries ==> e in history && e.sn < MAX_SEQUENCE
    ensures FileFits(S, f)
  {
    assert f.entries[0] in f.entries && f.entries[|f.entries| - 1] in f.entries;
  }

  lemma OutputsFit(S: Spelling, history: seq<Entry>, level: nat, outs: seq<File>, first: nat, ever: set<(nat, nat)>)
    requires OutputsOk(outs, first) && level + 1 < NUM_LEVELS && UsersFit(S, history) && first + |outs| <= LIMIT64
    requires forall f, e :: f in outs && e in f.entries ==> e in history
    requires forall e :: e in history ==> e.sn < MAX_SEQUENCE
    requires forall x :: x in ever ==> x.1 < first
    ensures PlacedFit(S, Place(level + 1, outs)) && NewPlaces(Place(level + 1, outs), ever, first + |outs|)
  {
    hide FileOk, FileFits, UsersFit;
    forall p | p in Place(level + 1, outs) ensures p.level == level + 1 && first <= p.file.number < first + |outs| && FileFits(S, p.file) {
      var i :| 0 <= i < |outs| && outs[i] == p.file;
      TableFits(S, history, p.file);
    }
  }

  lemma NumbersLater(levels: Levels, ever: set<(nat, nat)>, n: nat, level: nat, f: File)
    requires NumbersOk(levels, ever, n) && f.number == n
    ensures NumbersOk(levels, ever, n + 1) && NewPlaces({Placed(level, f)}, ever, n + 1)
  {
    hide Slots;
  }

  lemma NumbersStay(levels: Levels, ever: set<(nat, nat)>, n: nat, m: nat)
    requires NumbersOk(levels, ever, n) && n <= m
    ensures NumbersOk(levels, ever, m)
  {
    hide Slots;
  }

  lemma InputsBelow(levels: Levels, ever: set<(nat, nat)>, n: nat)
    requires NumbersOk(levels, ever, n)
    ensures forall p :: p in Slots(levels) ==> p.file.number < n
    ensures forall x :: x in ever ==> x.1 < n
  {
    hide Slots;
    forall x | x in ever ensures x.1 < n {
    }
  }

  lemma MovedPlace(S: Spelling, levels: Levels, ever: set<(nat, nat)>, next: nat, level: nat, f: File)
    requires Sound(S, levels) && NumbersOk(levels, ever, next) && level + 1 < NUM_LEVELS && Placed(level, f) in Slots(levels)
    ensures PlacedFit(S, {Placed(level + 1, f)}) && NewPlaces({Placed(level + 1, f)}, ever, next)
    ensures PointersFit(S, [(level, f.largest)])
  {
    SlotFits(S, levels, Placed(level, f));
    OnePointerFits(S, level, f.largest);
    hide Slots, FileFits;
    forall x | x in ever && x.1 == f.number ensures x.0 < level + 1 {
      assert x.1 == Placed(level, f).file.number;
    }
  }

  lemma SlotFits(S: Spelling, levels: Levels, p: Placed)
    requires Sound(S, levels) && p in Slots(levels)
    ensures FileFits(S, p.file) && KeyFits(S, p.file.largest)
  {
    var l, f :| 0 <= l < |levels| && f in levels[l] && p == Placed(l, f);
    assert FileFits(S, f);
  }

  lemma OnePlaced(S: Spelling, level: nat, f: File)
    requires level < NUM_LEVELS && FileFits(S, f)
    ensures PlacedFit(S, {Placed(level, f)})
  {
    hide FileFits;
  }

  lemma OnePointerFits(S: Spelling, level: nat, key: IKey)
    requires level < NUM_LEVELS && KeyFits(S, key)
    ensures PointersFit(S, [(level, key)])
  {
    var ps := [(level, key)];
    forall p | p in ps ensures p.0 < NUM_LEVELS && KeyFits(S, p.1) {
      assert p == ps[0];
    }
  }

  lemma PointerFits(S: Spelling, levels: Levels, level: nat, in0: seq<File>, smallest: IKey, largest: IKey)
    requires Sound(S, levels) && level + 1 < NUM_LEVELS && Place(level, in0) <= Slots(levels) && Bounds(in0, smallest, largest)
    ensures PointersFit(S, [(level, largest)])
  {
    var f :| f in in0 && f.largest == largest;
    assert Placed(level, f) in Place(level, in0);
    SlotFits(S, levels, Placed(level, f));
    OnePointerFits(S, level, largest);
  }

  lemma NoPointersFit(S: Spelling)
    ensures PointersFit(S, []) && PlacedFit(S, {}) && forall ever, next :: NewPlaces({}, ever, next)
  {
    var none: seq<(nat, IKey)> := [];
    assert PointersFit(S, none);
  }

  lemma NoEdit()
    ensures EditIs(Edit([], []), {}, {})
  {
    var e := Edit([], []);
    assert forall l: nat, n: nat :: (l, n) !in e.removed;
    assert forall l: nat, f: File :: (l, f) !in e.added && Placed(l, f) !in {};
  }

  lemma FlushEdit(level: nat, f: File)
    ensures EditIs(Edit([], [(level, f)]), {}, {Placed(level, f)})
  {
    var e := Edit([], [(level, f)]);
    assert forall l: nat, n: nat :: (l, n) !in e.removed;
    forall l: nat, g: File ensures (l, g) in e.added <==> Placed(l, g) in {Placed(level, f)} {
      assert (l, g) == (level, f) <==> Placed(l, g) == Placed(level, f);
    }
  }

  lemma MoveEdit(level: nat, f: File)
    ensures EditIs(Edit([(level, f.number)], [(level + 1, f)]), {Placed(level, f)}, {Placed(level + 1, f)})
  {
    var e, removed := Edit([(level, f.number)], [(level + 1, f)]), {Placed(level, f)};
    forall l: nat, n: nat ensures (l, n) in e.removed <==> exists p :: p in removed && p.level == l && p.file.number == n {
      assert Placed(level, f) in removed;
    }
    forall l: nat, g: File ensures (l, g) in e.added <==> Placed(l, g) in {Placed(level + 1, f)} {
      assert (l, g) == (level + 1, f) <==> Placed(l, g) == Placed(level + 1, f);
    }
  }

  lemma NothingRemoved(files: set<Placed>, added: set<Placed>)
    ensures {} <= files && files - {} + added == files + added && files + {} == files
  {
  }

  lemma SequenceFits(n: nat)
    requires n < MAX_SEQUENCE
    ensures n < LIMIT64
  {
  }

  lemma InvVersion(st: LsmTree.State)
    requires LsmTree.Inv(st)
    ensures VersionOk(st.files)
  {
    hide VersionOk;
  }

  // ---------- the steps of the state machine ----------

  lemma WriteIsEnabled(st: LsmTree.State, ops: seq<Op>)
    requires |st.history| + |ops| < MAX_SEQUENCE
    ensures LsmTree.Enabled(st, LsmTree.DoWrite(ops)) && LsmTree.Lossless(st, LsmTree.DoWrite(ops))
  {
  }

  lemma WrittenState(before: LsmTree.State, ops: seq<Op>, after: LsmTree.State)
    requires |before.history| + |ops| < MAX_SEQUENCE
    requires var es := NumberOps(ops, |before.history| + 1);
             after == before.(mem := before.mem + Entries(es), history := before.history + es)
    ensures after == LsmTree.Apply(before, LsmTree.DoWrite(ops)) && DBImpl.Stepped(before, LsmTree.DoWrite(ops), after)
    ensures |after.history| == |before.history| + |ops|
  {
  }

  lemma SwitchIsEnabled(st: LsmTree.State)
    requires st.imm.None?
    ensures LsmTree.Enabled(st, LsmTree.DoSwitch) && LsmTree.Lossless(st, LsmTree.DoSwitch)
  {
  }

  lemma SwitchedState(before: LsmTree.State, after: LsmTree.State)
    requires before.imm.None? && after == before.(mem := Entries([]), imm := Some(before.mem))
    ensures after == LsmTree.Apply(before, LsmTree.DoSwitch) && DBImpl.Stepped(before, LsmTree.DoSwitch, after)
  {
  }

  lemma SnapshotIsEnabled(st: LsmTree.State, i: nat)
    ensures LsmTree.Enabled(st, LsmTree.DoSnapshot) && LsmTree.Lossless(st, LsmTree.DoSnapshot)
    ensures i < |st.snapshots| ==> LsmTree.Enabled(st, LsmTree.DoRelease(i)) && LsmTree.Lossless(st, LsmTree.DoRelease(i))
  {
  }

  lemma SnapshotState(before: LsmTree.State, i: nat, after: LsmTree.State)
    ensures after == before.(snapshots := before.snapshots + [|before.history|]) ==>
      after == LsmTree.Apply(before, LsmTree.DoSnapshot) && DBImpl.Stepped(before, LsmTree.DoSnapshot, after)
    ensures i < |before.snapshots| && after == before.(snapshots := before.snapshots[..i] + before.snapshots[i + 1..]) ==>
      after == LsmTree.Apply(before, LsmTree.DoRelease(i)) && DBImpl.Stepped(before, LsmTree.DoRelease(i), after)
  {
  }

  lemma EmptyUsersFit(S: Spelling)
    ensures UsersFit(S, [])
  {
  }

  lemma WidthFits()
    ensures 4 < LIMIT64
  {
  }

  lemma EmptyIsSorted()
    ensures Sorted([]) && Entries([]) == {}
  {
  }

  lemma NothingToFlush(st: LsmTree.State)
    requires st.imm == Some({})
    ensures LsmTree.Enabled(st, LsmTree.DoFlushNothing) && LsmTree.Apply(st, LsmTree.DoFlushNothing).files == st.files
  {
  }

  lemma FlushAllowed(st: LsmTree.State, level: nat, f: File, n: nat)
    requires st.imm == Some(Entries(f.entries)) && FileOk(f) && LsmTree.FlushPlace(st.files, level, f)
    requires f.number == n && forall p :: p in st.files ==> p.file.number < n
    ensures LsmTree.Enabled(st, LsmTree.DoFlush(level, f)) && level < NUM_LEVELS
  {
    hide FileOk;
  }

  lemma FlushFiles(st: LsmTree.State, level: nat, f: File)
    requires LsmTree.Enabled(st, LsmTree.DoFlush(level, f))
    ensures LsmTree.Apply(st, LsmTree.DoFlush(level, f)).files == st.files + {Placed(level, f)}
  {
  }

  lemma MoveFiles(st: LsmTree.State, level: nat, f: File)
    requires Placed(level, f) in st.files && LsmTree.Selected(st.files, level, {Placed(level, f)}, {})
    ensures LsmTree.Enabled(st, LsmTree.DoMove(level, f)) && {Placed(level, f)} <= st.files
    ensures LsmTree.Apply(st, LsmTree.DoMove(level, f)).files == st.files - {Placed(level, f)} + {Placed(level + 1, f)}
  {
    hide LsmTree.Selected;
  }

  lemma CompactFiles(st: LsmTree.State, l: LsmTree.Label)
    requires l.DoCompact? && LsmTree.Selected(st.files, l.from, l.in0, l.in1)
    requires LsmTree.Rewritten(l.outs, l.from, LsmTree.Kept(st.files, l.from, st.SmallestSnapshot(), EntriesOf(l.in0 + l.in1)), st.files)
    ensures LsmTree.Enabled(st, l) && l.in0 + l.in1 <= st.files
    ensures LsmTree.Apply(st, l).files == st.files - (l.in0 + l.in1) + l.outs
  {
    SelectedAreStored(st.files, l.from, l.in0, l.in1);
    hide LsmTree.Selected, LsmTree.Rewritten, LsmTree.Kept;
  }

  lemma FlushedState(before: LsmTree.State, l: LsmTree.Label, after: LsmTree.State)
    requires (l.DoFlush? || l.DoFlushNothing?) && LsmTree.Enabled(before, l)
    requires after == before.(imm := None, files := LsmTree.Apply(before, l).files)
    ensures after == LsmTree.Apply(before, l) && DBImpl.Stepped(before, l, after)
  {
  }

  lemma SameState(before: LsmTree.State, l: LsmTree.Label, after: LsmTree.State)
    requires (l.DoMove? || l.DoCompact?) && LsmTree.Enabled(before, l)
    requires after == before.(files := LsmTree.Apply(before, l).files)
    ensures after == LsmTree.Apply(before, l) && DBImpl.Stepped(before, l, after)
  {
  }

  lemma FlushIsLossless(st: LsmTree.State, l: LsmTree.Label)
    requires !l.DoCompact?
    ensures LsmTree.Lossless(st, l)
  {
  }

  lemma LosslessMeans(st: LsmTree.State, l: LsmTree.Label)
    requires l.DoCompact?
    ensures LsmTree.Lossless(st, l) <==> !LsmTree.BoundaryHides(st, l.from, l.in0, l.in1)
  {
    hide LsmTree.BoundaryHides;
  }

  lemma NoneLost(picked: seq<File>, in0: seq<File>)
    requires picked != [] && forall f :: f in picked ==> f in in0
    ensures in0 != []
  {
    assert picked[0] in picked;
  }

  lemma OneInput(levels: Levels, level: nat, in0: seq<File>, in1: seq<File>)
    requires |in0| == 1 && |in1| == 0
    ensures Place(level, in0) == {Placed(level, in0[0])} && Place(level + 1, in1) == {}
  {
    OneFile(level, in0[0]);
    assert in0 == [in0[0]];
  }

  lemma SizeOfLists(levels: Levels)
    requires ListsOk(levels)
    ensures |levels| == NUM_LEVELS
  {
  }

  lemma CountersFit()
    ensures CounterFits(Some(0)) && CounterFits(None)
  {
  }

  lemma NothingYet(vs: VersionSet)
    requires |vs.current| == NUM_LEVELS && Slots(vs.current) == {} && vs.Ever() == {}
    ensures VersionOk(Slots(vs.current)) && VersionOk(Slots(vs.current) - {} + {})
    ensures NumbersOk(vs.current, vs.Ever(), vs.nextFileNumber) && {} <= Slots(vs.current)
  {
  }

  lemma EmptyState(st: LsmTree.State)
    requires st == LsmTree.State({}, None, {}, [], [])
    ensures st == LsmTree.EMPTY && LsmTree.Inv(st) && LsmTree.Exact(st)
  {
    EmptyIsExact();
  }

  // ---------- background work ----------

  lemma TagsAreBounded(st: LsmTree.State, levels: Levels)
    requires LsmTree.Inv(st) && st.files == Slots(levels)
    ensures TagsBounded(levels)
  {
    forall l, f | 0 <= l < |levels| && f in levels[l] ensures f.largest.tag <= Pack(MAX_SEQUENCE, Put) {
      var p := Placed(l, f);
      assert p in st.files && FileOk(p.file);
      var e := f.entries[|f.entries| - 1];
      assert e in p.file.entries && e in EntriesOf(st.files);
      assert e in st.Stored() && e in Entries(st.history);
    }
  }

  /** The table BuildTable writes for a non-empty memtable. */
  function TableOf(number: nat, size: nat, es: seq<Entry>): File
    requires es != []
  {
    File(number, size, KeyOf(es[0]), KeyOf(es[|es| - 1]), es)
  }

  lemma TableIsOk(number: nat, size: nat, es: seq<Entry>)
    requires es != [] && Sorted(es)
    ensures var f := TableOf(number, size, es);
            FileOk(f) && f.smallest.user <= f.largest.user && f.number == number && f.size == size && f.entries == es
  {
    EntryInRange(TableOf(number, size, es), es[0]);
  }

  datatype Choice =
    | PickFile(index: nat)
    | PickRange(begin: Option<UserKey>, end: Option<UserKey>, take: nat)

  /** What PickCompaction or CompactRange starts from: one file, closed under overlap on
      level 0, or a range, on deeper levels cut short after some files. */
  method PickInputs(level: nat, fs: seq<File>, choice: Choice) returns (picked: seq<File>, ghost i: nat, ghost j: nat)
    requires LevelOk(level, fs)
    requires choice.PickRange? && choice.begin.Some? && choice.end.Some? ==> choice.begin.value <= choice.end.value
    ensures forall f :: f in picked ==> f in fs
    ensures level == 0 ==> ClosedUnderOverlap(fs, picked) && Distinct(picked)
    ensures picked != [] && level > 0 ==> i < j <= |fs| && picked == fs[i..j]
    ensures choice.PickFile? && level > 0 ==> picked == if choice.index < |fs| then [fs[choice.index]] else []
    ensures choice.PickFile? && level == 0 ==> if choice.index < |fs| then fs[choice.index] in picked else picked == []
    ensures choice.PickRange? && level > 0 ==> picked <= Overlapping(fs, choice.begin, choice.end)
    ensures choice.PickRange? && level == 0 ==> forall f :: f in fs && Meets(f, choice.begin, choice.end) ==> f in picked
  {
    LevelFacts(level, fs);
    i, j := 0, 0;
    match choice
    case PickFile(index) =>
      if index >= |fs| {
        return [], 0, 0;
      }
      if level == 0 {
        picked := GetOverlappingInputs(0, fs, Some(fs[index].smallest.user), Some(fs[index].largest.user));
      } else {
        picked, i, j := [fs[index]], index, index + 1;
      }
    case PickRange(begin, end, take) =>
      picked := GetOverlappingInputs(level, fs, begin, end);
      if level > 0 {
        i, j := OverlappingIsSlice(fs, begin, end);
        if take < |picked| {
          picked, j := picked[..take], i + take;
        }
      }
  }

  lemma {:induction false} BoundsExist(fs: seq<File>) returns (lo: IKey, hi: IKey)
    requires fs != []
    ensures Bounds(fs, lo, hi)
  {
    var n := |fs| - 1;
    var f := fs[n];
    if n == 0 {
      assert f in fs;
      return f.smallest, f.largest;
    }
    lo, hi := BoundsExist(fs[..n]);
    assert fs == fs[..n] + [f];
    assert f in fs;
    lo := if Less(f.smallest, lo) then f.smallest else lo;
    hi := if Less(hi, f.largest) then f.largest else hi;
  }

  lemma SelectedInputs(levels: Levels, level: nat, in0: seq<File>, in1: seq<File>, i: nat, k: nat)
    requires LevelsOk(levels) && level + 1 < NUM_LEVELS
    requires UpperOk(level, levels[level], in0, i, k) && LowerOk(levels[level + 1], in0, in1)
    ensures LsmTree.Selected(Slots(levels), level, Place(level, in0), Place(level + 1, in1))
    ensures InputsOk(levels, level, in0, in1)
  {
    hide LsmTree.Selected, VersionOk, Bounds, ClosedUnderOverlap;
    var lo, hi := BoundsExist(in0);
    InputsAreSelected(levels, level, in0, in1, i, k, lo, hi);
    SelectedAreStored(Slots(levels), level, Place(level, in0), Place(level + 1, in1));
    LargestAscend(levels[level + 1]);
    var a, b := OverlappingIsSlice(levels[level + 1], Some(lo.user), Some(hi.user));
    SliceIsRun(levels[level + 1], a, b);
    if level > 0 {
      SliceIsRun(levels[level], i, k);
    }
  }

  /** Merges the inputs, drops what no reader can see, and cuts the rest into fresh files. */
  method MergeAndRewrite(levels: Levels, level: nat, in0: seq<File>, in1: seq<File>, smallestSnapshot: nat, first: nat,
                         ghost history: seq<Entry>)
      returns (outs: seq<File>)
    requires LevelsOk(levels) && InputsOk(levels, level, in0, in1)
    requires smallestSnapshot < MAX_SEQUENCE
    requires forall p :: p in Slots(levels) ==> p.file.number < first
    requires forall e :: e in EntriesOf(Slots(levels)) ==> e in history
    ensures LsmTree.Rewritten(Place(level + 1, outs), level,
              LsmTree.Kept(Slots(levels), level, smallestSnapshot, EntriesOf(Place(level, in0) + Place(level + 1, in1))),
              Slots(levels))
    ensures OutputsOk(outs, first) && |outs| <= |history| && forall f, e :: f in outs && e in f.entries ==> e in history
  {
    hide LsmTree.Rewritten, LsmTree.Kept, VersionOk, FileOk, Concat, KeepSeq, Run, Sorted;
    var input := MakeInput(levels, level, in0, in1);
    outs := DoCompactionWork(levels, level, input, smallestSnapshot, first);
    ghost var kept := LsmTree.Kept(Slots(levels), level, smallestSnapshot, Entries(input));
    LsmTree.KeptIsSubset(Slots(levels), level, smallestSnapshot, Entries(input));
    OutputsAreRewritten(levels, level, outs, first, input, kept);
    InputsAreWritten(levels, level, in0, in1, history, input);
    OutputsAreFew(outs, first);
    KeepSeqIsShort(input, kept, |input|);
    OutputsAreInputs(outs, first, input, kept);
  }

  lemma InputsAreWritten(levels: Levels, level: nat, in0: seq<File>, in1: seq<File>, history: seq<Entry>, input: seq<Entry>)
    requires InputsOk(levels, level, in0, in1) && Sorted(input)
    requires Entries(input) == EntriesOf(Place(level, in0) + Place(level + 1, in1))
    requires forall e :: e in EntriesOf(Slots(levels)) ==> e in history
    ensures |input| <= |history| && forall e :: e in input ==> e in history
  {
    hide VersionOk, FileOk;
    assert forall e :: e in EntriesOf(Place(level, in0) + Place(level + 1, in1)) ==> e in EntriesOf(Slots(levels));
    assert forall e :: e in input ==> e in Entries(input);
    SortedCount(input);
    EntriesCount(history);
    assert Entries(input) <= Entries(history);
    SubsetIsNoLarger(Entries(input), Entries(history));
  }

  lemma {:induction false} SortedCount(es: seq<Entry>)
    requires Sorted(es)
    ensures |Entries(es)| == |es|
  {
    if es != [] {
      var front, last := es[..|es| - 1], es[|es| - 1];
      SortedCount(front);
      assert es == front + [last];
      assert Entries(es) == Entries(front) + {last};
      forall i | 0 <= i < |front| ensures front[i] != last {
        assert Less(KeyOf(es[i]), KeyOf(es[|es| - 1]));
      }
    }
  }

  lemma {:induction false} EntriesCount(es: seq<Entry>)
    ensures |Entries(es)| <= |es|
  {
    if es != [] {
      var front, last := es[..|es| - 1], es[|es| - 1];
      EntriesCount(front);
      assert es == front + [last];
      assert Entries(es) == Entries(front) + {last};
    }
  }

  lemma OutputsAreInputs(outs: seq<File>, first: nat, input: seq<Entry>, kept: set<Entry>)
    requires OutputsOk(outs, first) && Sorted(input) && Concat(outs) == KeepSeq(input, kept, |input|)
    ensures forall f, e :: f in outs && e in f.entries ==> e in input
  {
    KeepSeqSorted(input, kept, |input|);
    PiecesAreRun(outs, first);
    KeepSeqMembers(input, kept, |input|);
    assert input[..|input|] == input;
  }

  /** (level, number) of the files of a list. */
  function NumbersAt(level: nat, fs: seq<File>): seq<(nat, nat)> {
    seq(|fs|, i requires 0 <= i < |fs| => (level, fs[i].number))
  }

  lemma NumbersAtMembers(level: nat, fs: seq<File>, l: nat, n: nat)
    ensures (l, n) in NumbersAt(level, fs) <==> exists p :: p in Place(level, fs) && p.level == l && p.file.number == n
  {
    if (l, n) in NumbersAt(level, fs) {
      var i :| 0 <= i < |fs| && NumbersAt(level, fs)[i] == (l, n);
      assert Placed(level, fs[i]) in Place(level, fs);
    }
    if p :| p in Place(level, fs) && p.level == l && p.file.number == n {
      var i :| 0 <= i < |fs| && fs[i] == p.file;
      assert NumbersAt(level, fs)[i] == (l, n);
    }
  }

  /** AddInputDeletions, then the outputs added on level + 1. */
  function InstallEdit(level: nat, in0: seq<File>, in1: seq<File>, outs: seq<File>): Edit {
    Edit(NumbersAt(level, in0) + NumbersAt(level + 1, in1), AddedAt(level + 1, outs))
  }

  lemma InstallEditIs(level: nat, in0: seq<File>, in1: seq<File>, outs: seq<File>)
    ensures EditIs(InstallEdit(level, in0, in1, outs), Place(level, in0) + Place(level + 1, in1), Place(level + 1, outs))
  {
    var e := InstallEdit(level, in0, in1, outs);
    var removed := Place(level, in0) + Place(level + 1, in1);
    forall l: nat, n: nat ensures (l, n) in e.removed <==> exists p :: p in removed && p.level == l && p.file.number == n {
      NumbersAtMembers(level, in0, l, n);
      NumbersAtMembers(level + 1, in1, l, n);
    }
    forall l: nat, f ensures (l, f) in e.added <==> Placed(l, f) in Place(level + 1, outs) {
      AddedAtMember(level + 1, outs, l, f);
    }
  }

  lemma OneFile(level: nat, f: File)
    ensures Place(level, [f]) == {Placed(level, f)} && Place(level, []) == {}
  {
  }

  lemma SelectedAreStored(files: set<Placed>, level: nat, in0: set<Placed>, in1: set<Placed>)
    requires LsmTree.Selected(files, level, in0, in1)
    ensures in0 <= files && in1 <= files
  {
  }

  lemma SliceIsRun(fs: seq<File>, i: nat, j: nat)
    requires Run(fs) && i <= j <= |fs|
    ensures Run(fs[i..j])
  {
    assert forall f :: f in fs[i..j] ==> f in fs;
  }

  /** WriteBatchInternal::InsertInto: one memtable entry per operation, numbered from first. */
  method InsertInto(ops: seq<Op>, mem: seq<Entry>, first: nat) returns (m: seq<Entry>)
    requires Sorted(mem) && forall x :: x in mem ==> x.sn < first
    ensures Sorted(m) && Entries(m) == Entries(mem) + Entries(NumberOps(ops, first))
  {
    hide Sorted, InsertEntry;
    m := mem;
    ghost var es := NumberOps(ops, first);
    for i := 0 to |ops|
      invariant Sorted(m) && Entries(m) == Entries(mem) + Entries(es[..i])
    {
      var e := Entry(ops[i].user, first + i, ops[i].kind, ops[i].value);
      assert es[..i + 1] == es[..i] + [e];
      forall x | x in m ensures x.sn < first + i {
        assert x in Entries(m);
      }
      InsertEntrySorted(m, e);
      m := InsertEntry(m, e);
    }
    assert es[..|ops|] == es;
  }

  lemma EmptyIsExact()
    ensures LsmTree.Inv(LsmTree.EMPTY) && LsmTree.Exact(LsmTree.EMPTY)
  {
    assert LsmTree.EMPTY.Stored() == Entries([]);
  }
}
