/** The storage engine as a state machine: memtable, immutable memtable, placed
    files and snapshots, against the plain history of writes. */
module LsmTree {
  import opened InternalKeys
  import opened Files

  datatype State = State(
    mem: set<Entry>,
    imm: Option<set<Entry>>,
    files: set<Placed>,
    snapshots: seq<nat>,
    history: seq<Entry>)
  {
    ghost function ImmEntries(): set<Entry> {
      if imm.Some? then imm.value else {}
    }

    ghost function Stored(): set<Entry> {
      mem + ImmEntries() + EntriesOf(files)
    }

    function LastSequence(): nat {
      |history|
    }

    /** What a compaction may take as its oldest reader. */
    function SmallestSnapshot(): nat {
      if snapshots == [] then LastSequence() else snapshots[0]
    }
  }

  const EMPTY := State({}, None, {}, [], [])

  // ---------- invariant ----------

  ghost predicate AllNewer(a: set<Entry>, b: set<Entry>) {
    forall x, y :: x in a && y in b && x.user == y.user ==> x.sn > y.sn
  }

  ghost predicate Inv(st: State) {
    && Numbered(st.history)
    && |st.history| < MAX_SEQUENCE
    && st.Stored() <= Entries(st.history)
    && VersionOk(st.files)
    && AllNewer(st.mem, st.ImmEntries())
    && AllNewer(st.mem, EntriesOf(st.files))
    && AllNewer(st.ImmEntries(), EntriesOf(st.files))
    && (forall i, j :: 0 <= i <= j < |st.snapshots| ==> st.snapshots[i] <= st.snapshots[j] <= st.LastSequence())
  }

  /** Reads at every sequence a live reader can use agree with the history. */
  ghost predicate Exact(st: State) {
    forall user, s {:trigger Answer(st.Stored(), user, s)} :: st.SmallestSnapshot() <= s ==>
      Answer(st.Stored(), user, s) == Answer(Entries(st.history), user, s)
  }

  lemma StoredIsUnique(st: State)
    requires Inv(st)
    ensures UniqueSequence(st.Stored()) && UniqueSequence(Entries(st.history))
  {
  }

  // ---------- writes ----------

  ghost function Write(st: State, ops: seq<Op>): State {
    var es := NumberOps(ops, st.LastSequence() + 1);
    st.(mem := st.mem + Entries(es), history := st.history + es)
  }

  // ---------- compaction ----------

  /** Hidden by a newer entry that every remaining reader already sees (rule A). */
  ghost predicate Hidden(ins: set<Entry>, T: nat, e: Entry) {
    exists o :: o in ins && o.user == e.user && e.sn < o.sn <= T
  }

  /** No file two or more levels down can hold the user key. */
  ghost predicate IsBaseLevel(files: set<Placed>, level: nat, user: UserKey) {
    forall p :: p in files && p.level >= level + 2 ==> !Covers(p.file, user)
  }

  ghost predicate Obsolete(files: set<Placed>, level: nat, T: nat, e: Entry) {
    e.kind.Deletion? && e.sn <= T && IsBaseLevel(files, level, e.user)
  }

  /** The entries the compaction loop writes out again. */
  ghost function Kept(files: set<Placed>, level: nat, T: nat, ins: set<Entry>): set<Entry> {
    set e | e in ins && !Hidden(ins, T, e) && !Obsolete(files, level, T, e)
  }

  /** Some reader at s, no older than T, is answered by e as far as ins go. */
  ghost predicate Seen(ins: set<Entry>, T: nat, e: Entry) {
    exists s {:trigger IsNewest(ins, e.user, s, e)} :: s >= T && IsNewest(ins, e.user, s, e)
  }

  /** The two drop rules in terms of readers: an entry is written out again if and only if some reader,
      the oldest or a later one, is answered by it, and it is not a deletion that all of them see and
      that no deeper file can need. */
  lemma KeptIffNeeded(files: set<Placed>, level: nat, T: nat, ins: set<Entry>, e: Entry)
    requires UniqueSequence(ins)
    ensures e in Kept(files, level, T, ins) <==>
            && e in ins && Seen(ins, T, e)
            && (e.kind.Deletion? && e.sn <= T ==> exists p :: p in files && p.level >= level + 2 && Covers(p.file, e.user))
  {
    if e in ins && !Hidden(ins, T, e) {
      assert IsNewest(ins, e.user, if e.sn <= T then T else e.sn, e);
    }
  }

  /** The sequence number a compaction goes by is that of a reader there may be, and no reader is older. */
  lemma OldestReader(st: State)
    requires Inv(st)
    ensures st.SmallestSnapshot() in st.snapshots || st.SmallestSnapshot() == st.LastSequence()
    ensures st.SmallestSnapshot() <= st.LastSequence() && forall s :: s in st.snapshots ==> st.SmallestSnapshot() <= s
  {
    forall s | s in st.snapshots ensures st.SmallestSnapshot() <= s {
      var i :| 0 <= i < |st.snapshots| && st.snapshots[i] == s;
    }
  }

  /** What input selection guarantees about the two input sets. */
  ghost predicate Selected(files: set<Placed>, level: nat, in0: set<Placed>, in1: set<Placed>) {
    && level + 1 < NUM_LEVELS
    && in0 != {} && in0 <= files && in1 <= files
    && (forall p :: p in in0 ==> p.level == level)
    && (forall p :: p in in1 ==> p.level == level + 1)
    // nothing left behind on the level is as old as a moved version of the same key
    && (level == 0 ==> forall p, q :: p in in0 && q in files - in0 && q.level == 0 ==> !UserOverlap(p.file, q.file))
    && (level > 0 ==>
          forall p, q :: p in in0 && q in files - in0 && q.level == level && Less(p.file.largest, q.file.smallest)
            ==> p.file.largest.user != q.file.smallest.user)
    // a file left on level + 1 lies entirely to one side of everything taken
    && (forall q :: q in files - in1 && q.level == level + 1 ==> LeftOf(q.file, in0, in1) || RightOf(q.file, in0, in1))
  }

  ghost predicate LeftOf(f: File, in0: set<Placed>, in1: set<Placed>) {
    && (forall p :: p in in0 ==> f.largest.user < p.file.smallest.user)
    && (forall p :: p in in1 ==> Less(f.largest, p.file.smallest))
  }

  ghost predicate RightOf(f: File, in0: set<Placed>, in1: set<Placed>) {
    && (forall p :: p in in0 ==> p.file.largest.user < f.smallest.user)
    && (forall p :: p in in1 ==> Less(p.file.largest, f.smallest))
  }

  /** outs hold exactly the kept entries, in fresh well-formed disjoint files. */
  ghost predicate Rewritten(outs: set<Placed>, level: nat, kept: set<Entry>, files: set<Placed>) {
    && EntriesOf(outs) == kept
    && (forall p :: p in outs ==> p.level == level + 1 && FileOk(p.file))
    && (forall p, q :: p in outs && q in outs && p != q ==> Apart(p.file, q.file) && p.file.number != q.file.number)
    && (forall p, q :: p in outs && q in files ==> p.file.number != q.file.number)
  }

  ghost function Install(st: State, in0: set<Placed>, in1: set<Placed>, outs: set<Placed>): State {
    st.(files := st.files - in0 - in1 + outs)
  }

  ghost predicate Compaction(st: State, level: nat, in0: set<Placed>, in1: set<Placed>, outs: set<Placed>) {
    && Selected(st.files, level, in0, in1)
    && Rewritten(outs, level, Kept(st.files, level, st.SmallestSnapshot(), EntriesOf(in0 + in1)), st.files)
  }

  /** A deletion the loop drops as obsolete is, at some key, all that hides a
      value still stored elsewhere. */
  ghost predicate LosesTombstone(st: State, level: nat, in0: set<Placed>, in1: set<Placed>) {
    exists user, d ::
      && IsNewest(st.Stored(), user, st.SmallestSnapshot(), d)
      && d in EntriesOf(in0 + in1) && Obsolete(st.files, level, st.SmallestSnapshot(), d)
      && Answer(Left(st, in0, in1), user, st.SmallestSnapshot()).Some?
  }

  /** What is stored outside the compaction inputs. */
  ghost function Left(st: State, in0: set<Placed>, in1: set<Placed>): set<Entry> {
    st.mem + st.ImmEntries() + EntriesOf(st.files - in0 - in1)
  }

  /** No file left on level + 1 continues the last user key of a chosen file to its left. */
  ghost predicate BoundaryClean(files: set<Placed>, level: nat, in1: set<Placed>) {
    forall p, q :: p in in1 && q in files - in1 && q.level == level + 1 && Less(p.file.largest, q.file.smallest)
      ==> p.file.largest.user != q.file.smallest.user
  }

  // ---------- flush ----------

  /** The place PickLevelForMemTableOutput finds: level 0, or a level such that no
      file down to it meets the user keys of f. */
  ghost predicate FlushPlace(files: set<Placed>, level: nat, f: File) {
    && level < NUM_LEVELS
    && (level > 0 ==> forall p :: p in files && p.level <= level ==> !UserOverlap(p.file, f))
  }

  ghost predicate FreshNumber(files: set<Placed>, n: nat) {
    forall p :: p in files ==> p.file.number < n
  }

  ghost function Flush(st: State, level: nat, f: File): State {
    st.(imm := None, files := st.files + {Placed(level, f)})
  }

  // ---------- steps ----------

  datatype Label =
    | DoWrite(ops: seq<Op>)
    | DoSwitch
    | DoFlush(level: nat, f: File)
    | DoFlushNothing
    | DoMove(level: nat, f: File)
    | DoCompact(from: nat, in0: set<Placed>, in1: set<Placed>, outs: set<Placed>)
    | DoSnapshot
    | DoRelease(index: nat)

  ghost predicate Enabled(st: State, l: Label) {
    match l
    case DoWrite(ops) => st.LastSequence() + |ops| < MAX_SEQUENCE
    case DoSwitch => st.imm.None?
    case DoFlush(level, f) =>
      st.imm.Some? && FileOk(f) && Entries(f.entries) == st.imm.value && FlushPlace(st.files, level, f) && FreshNumber(st.files, f.number)
    case DoFlushNothing => st.imm == Some({})
    case DoMove(level, f) => Placed(level, f) in st.files && Selected(st.files, level, {Placed(level, f)}, {})
    case DoCompact(level, in0, in1, outs) => Compaction(st, level, in0, in1, outs)
    case DoSnapshot => true
    case DoRelease(i) => i < |st.snapshots|
  }

  ghost function Apply(st: State, l: Label): State
    requires Enabled(st, l)
  {
    match l
    case DoWrite(ops) => Write(st, ops)
    case DoSwitch => st.(mem := {}, imm := Some(st.mem))
    case DoFlush(level, f) => Flush(st, level, f)
    case DoFlushNothing => st.(imm := None)
    case DoMove(level, f) => st.(files := st.files - {Placed(level, f)} + {Placed(level + 1, f)})
    case DoCompact(level, in0, in1, outs) => Install(st, in0, in1, outs)
    case DoSnapshot => st.(snapshots := st.snapshots + [st.LastSequence()])
    case DoRelease(i) => st.(snapshots := st.snapshots[..i] + st.snapshots[i + 1..])
  }

  // ---------- the structural invariant is kept ----------

  lemma SplitEntries(a: set<Placed>, b: set<Placed>)
    ensures EntriesOf(a + b) == EntriesOf(a) + EntriesOf(b)
  {
  }

  lemma EntriesOfOne(p: Placed)
    ensures EntriesOf({p}) == Entries(p.file.entries)
  {
  }

  lemma WriteKeepsInv(st: State, ops: seq<Op>)
    requires Inv(st) && Enabled(st, DoWrite(ops))
    ensures Inv(Write(st, ops))
  {
    var es := NumberOps(ops, st.LastSequence() + 1);
    var st' := Write(st, ops);
    assert forall e :: e in st.history + es ==> e in st.history || e in es;
    assert forall x :: x in Entries(es) ==> x.sn > st.LastSequence();
    assert forall x :: x in Entries(st.history) ==> x.sn <= st.LastSequence();
    assert Entries(st'.history) == Entries(st.history) + Entries(es);
  }

  lemma FlushKeepsVersion(files: set<Placed>, level: nat, f: File)
    requires VersionOk(files) && FileOk(f) && FlushPlace(files, level, f) && FreshNumber(files, f.number)
    requires AllNewer(Entries(f.entries), EntriesOf(files))
    ensures VersionOk(files + {Placed(level, f)})
  {
    var p := Placed(level, f);
    forall q | q in files
      ensures ProbedBefore(p, q) ==> Newer(f, q.file)
      ensures ProbedBefore(q, p) ==> Newer(q.file, f)
      ensures q.level == level && level > 0 ==> Apart(f, q.file)
    {
      if level > 0 && q.level <= level {
        NoOverlapNewer(q.file, f);
        NoOverlapApart(q.file, f);
      } else {
        forall x, y | x in f.entries && y in q.file.entries && x.user == y.user ensures x.sn > y.sn {
          assert y in EntriesOf(files);
        }
      }
    }
    RecentAfter(files, {}, {p});
    DisjointAfter(files, {}, {p});
    assert files - {} + {p} == files + {p};
  }

  lemma FlushStores(st: State, level: nat, f: File)
    requires st.imm == Some(Entries(f.entries))
    ensures EntriesOf(Flush(st, level, f).files) == EntriesOf(st.files) + st.imm.value
    ensures Flush(st, level, f).Stored() == st.Stored()
  {
    SplitEntries(st.files, {Placed(level, f)});
    EntriesOfOne(Placed(level, f));
    hide EntriesOf, Entries;
  }

  lemma FlushKeepsInv(st: State, level: nat, f: File)
    requires Inv(st) && Enabled(st, DoFlush(level, f))
    ensures Inv(Flush(st, level, f))
    ensures Flush(st, level, f).Stored() == st.Stored()
  {
    FlushStores(st, level, f);
    NewerThanBoth(st.mem, st.imm.value, EntriesOf(st.files));
    NewerThanBoth({}, {}, EntriesOf(st.files) + st.imm.value);
    NewerThanBoth(st.mem, {}, {});
    hide EntriesOf, Entries, FlushPlace, FileOk, FreshNumber, Numbered, VersionOk, AllNewer;
    FlushKeepsVersion(st.files, level, f);
  }

  lemma NewerThanBoth(a: set<Entry>, b: set<Entry>, c: set<Entry>)
    ensures AllNewer(a, b) && AllNewer(a, c) ==> AllNewer(a, c + b)
    ensures AllNewer(a, {}) && AllNewer({}, c)
  {
  }

  /** Within one sorted level, the file further left holds the newer versions of a shared user key. */
  lemma LeftNeighbourNewer(a: File, b: File)
    requires FileOk(a) && FileOk(b) && Less(a.largest, b.smallest)
    requires forall x, y :: x in a.entries && y in b.entries && x.sn == y.sn ==> x == y
    ensures Newer(a, b)
  {
    forall x, y | x in a.entries && y in b.entries && x.user == y.user ensures x.sn > y.sn {
      EntryInRange(a, x);
      EntryInRange(b, y);
    }
  }

  /** Everything a compaction leaves on its level or above is newer than what it takes. */
  lemma LeftAboveIsNewer(files: set<Placed>, level: nat, in0: set<Placed>, in1: set<Placed>, p: Placed, q: Placed)
    requires VersionOk(files) && UniqueSequence(EntriesOf(files)) && Selected(files, level, in0, in1)
    requires p in in0 + in1 && q in files - in0 - in1 && q.level <= level
    ensures Newer(q.file, p.file)
  {
    if q.level == level && p in in0 {
      if !UserOverlap(p.file, q.file) {
        NoOverlapNewer(p.file, q.file);
      } else {
        assert Less(q.file.largest, p.file.smallest) by {
          EntryInRange(p.file, p.file.entries[0]);
          EntryInRange(q.file, q.file.entries[0]);
        }
        assert forall x, y :: x in q.file.entries && y in p.file.entries ==> x in EntriesOf(files) && y in EntriesOf(files);
        LeftNeighbourNewer(q.file, p.file);
      }
    } else {
      assert ProbedBefore(q, p);
    }
  }

  lemma LeftBelowIsOlder(files: set<Placed>, level: nat, in0: set<Placed>, in1: set<Placed>, p: Placed, q: Placed)
    requires Recent(files) && Selected(files, level, in0, in1)
    requires p in in0 + in1 && q in files - in0 - in1 && q.level >= level + 2
    ensures Newer(p.file, q.file)
  {
    assert ProbedBefore(p, q);
  }

  lemma InputOfEntry(ps: set<Placed>, e: Entry) returns (p: Placed)
    requires e in EntriesOf(ps)
    ensures p in ps && e in p.file.entries
  {
    p :| p in ps && e in p.file.entries;
  }

  /** A file left on level + 1 is clear of every output. */
  lemma OutputApart(files: set<Placed>, level: nat, in0: set<Placed>, in1: set<Placed>, o: File, q: Placed)
    requires WellFormed(files) && Selected(files, level, in0, in1)
    requires FileOk(o) && Entries(o.entries) <= EntriesOf(in0 + in1)
    requires q in files - in0 - in1 && q.level == level + 1
    ensures Apart(o, q.file)
  {
    var first, last := o.entries[0], o.entries[|o.entries| - 1];
    var p := InputOfEntry(in0 + in1, first);
    var r := InputOfEntry(in0 + in1, last);
    EntryInRange(p.file, first);
    EntryInRange(r.file, last);
    assert LeftOf(q.file, in0, in1) || RightOf(q.file, in0, in1);
  }

  lemma OutputVersusRest(files: set<Placed>, level: nat, in0: set<Placed>, in1: set<Placed>, o: File, q: Placed)
    requires VersionOk(files) && UniqueSequence(EntriesOf(files)) && Selected(files, level, in0, in1)
    requires Entries(o.entries) <= EntriesOf(in0 + in1)
    requires q in files - in0 - in1
    ensures q.level <= level ==> Newer(q.file, o)
    ensures q.level >= level + 2 ==> Newer(o, q.file)
  {
    forall x, y | x in o.entries && y in q.file.entries && x.user == y.user
      ensures q.level <= level ==> y.sn > x.sn
      ensures q.level >= level + 2 ==> x.sn > y.sn
    {
      assert x in Entries(o.entries);
      var p := InputOfEntry(in0 + in1, x);
      if q.level <= level {
        LeftAboveIsNewer(files, level, in0, in1, p, q);
      } else if q.level >= level + 2 {
        LeftBelowIsOlder(files, level, in0, in1, p, q);
      }
    }
  }

  lemma CompactionKeepsVersion(files: set<Placed>, level: nat, in0: set<Placed>, in1: set<Placed>, outs: set<Placed>, kept: set<Entry>)
    requires VersionOk(files) && UniqueSequence(EntriesOf(files)) && Selected(files, level, in0, in1)
    requires Rewritten(outs, level, kept, files) && kept <= EntriesOf(in0 + in1)
    ensures VersionOk(files - in0 - in1 + outs)
  {
    forall o, q | o in outs && q in files - (in0 + in1)
      ensures ProbedBefore(o, q) ==> Newer(o.file, q.file)
      ensures ProbedBefore(q, o) ==> Newer(q.file, o.file)
      ensures o.level == q.level ==> Apart(o.file, q.file)
    {
      assert Entries(o.file.entries) <= EntriesOf(outs);
      OutputVersusRest(files, level, in0, in1, o.file, q);
      if q.level == level + 1 {
        OutputApart(files, level, in0, in1, o.file, q);
      }
    }
    RecentAfter(files, in0 + in1, outs);
    DisjointAfter(files, in0 + in1, outs);
    assert files - (in0 + in1) == files - in0 - in1;
  }

  /** The entries stored outside the inputs and those inside make up the store. */
  lemma StoredSplits(st: State, in0: set<Placed>, in1: set<Placed>)
    requires in0 <= st.files && in1 <= st.files
    ensures st.Stored() == Left(st, in0, in1) + EntriesOf(in0 + in1)
  {
    assert st.files == (st.files - in0 - in1) + (in0 + in1);
    SplitEntries(st.files - in0 - in1, in0 + in1);
  }

  /** Replacing the files by well-formed ones that hold no new entries keeps the invariant. */
  lemma FewerEntriesKeepInv(st: State, files: set<Placed>)
    requires Inv(st) && VersionOk(files) && EntriesOf(files) <= EntriesOf(st.files)
    ensures Inv(st.(files := files))
  {
    assert st.(files := files).ImmEntries() == st.ImmEntries();
    assert st.(files := files).Stored() <= st.Stored();
  }

  lemma InstallStores(st: State, in0: set<Placed>, in1: set<Placed>, outs: set<Placed>)
    ensures Install(st, in0, in1, outs).Stored() == Left(st, in0, in1) + EntriesOf(outs)
  {
    SplitEntries(st.files - in0 - in1, outs);
  }

  lemma InstallAddsNothing(files: set<Placed>, in0: set<Placed>, in1: set<Placed>, outs: set<Placed>)
    requires in0 <= files && in1 <= files && EntriesOf(outs) <= EntriesOf(in0 + in1)
    ensures EntriesOf(files - in0 - in1 + outs) <= EntriesOf(files)
  {
    assert files == (files - in0 - in1) + (in0 + in1);
    SplitEntries(files - in0 - in1, in0 + in1);
    SplitEntries(files - in0 - in1, outs);
  }

  lemma KeptIsSubset(files: set<Placed>, level: nat, T: nat, ins: set<Entry>)
    ensures Kept(files, level, T, ins) <= ins
  {
  }

  lemma CompactionKeepsInv(st: State, level: nat, in0: set<Placed>, in1: set<Placed>, outs: set<Placed>)
    requires Inv(st) && Compaction(st, level, in0, in1, outs)
    ensures Inv(Install(st, in0, in1, outs))
  {
    var kept := Kept(st.files, level, st.SmallestSnapshot(), EntriesOf(in0 + in1));
    KeptIsSubset(st.files, level, st.SmallestSnapshot(), EntriesOf(in0 + in1));
    InstallAddsNothing(st.files, in0, in1, outs);
    assert UniqueSequence(EntriesOf(st.files)) by { StoredIsUnique(st); }
    CompactionKeepsVersion(st.files, level, in0, in1, outs, kept);
    FewerEntriesKeepInv(st, st.files - in0 - in1 + outs);
  }

  lemma MoveKeepsVersion(files: set<Placed>, level: nat, f: File)
    requires VersionOk(files) && UniqueSequence(EntriesOf(files))
    requires Placed(level, f) in files && Selected(files, level, {Placed(level, f)}, {})
    ensures VersionOk(files - {Placed(level, f)} + {Placed(level + 1, f)})
  {
    var p, p' := Placed(level, f), Placed(level + 1, f);
    EntriesOfOne(p);
    assert {p} + {} == {p} && files - {p} - {} == files - {p};
    forall q | q in files - {p}
      ensures ProbedBefore(p', q) ==> Newer(f, q.file)
      ensures ProbedBefore(q, p') ==> Newer(q.file, f)
      ensures p'.level == q.level ==> Apart(f, q.file)
    {
      OutputVersusRest(files, level, {p}, {}, f, q);
      if q.level == level + 1 {
        OutputApart(files, level, {p}, {}, f, q);
      }
    }
    RecentAfter(files, {p}, {p'});
    DisjointAfter(files, {p}, {p'});
  }

  lemma MoveKeepsInv(st: State, level: nat, f: File)
    requires Inv(st) && Enabled(st, DoMove(level, f))
    ensures Inv(Apply(st, DoMove(level, f)))
    ensures Apply(st, DoMove(level, f)).Stored() == st.Stored()
  {
    MoveKeepsVersion(st.files, level, f);
    MovedEntries(st.files, level, f);
    hide VersionOk, EntriesOf, UniqueSequence, Selected, Numbered, AllNewer;
    FewerEntriesKeepInv(st, st.files - {Placed(level, f)} + {Placed(level + 1, f)});
  }

  lemma MovedEntries(files: set<Placed>, level: nat, f: File)
    requires Placed(level, f) in files
    ensures EntriesOf(files - {Placed(level, f)} + {Placed(level + 1, f)}) == EntriesOf(files)
  {
    var p, p' := Placed(level, f), Placed(level + 1, f);
    SplitEntries(files - {p}, {p});
    SplitEntries(files - {p}, {p'});
    EntriesOfOne(p);
    EntriesOfOne(p');
    assert files == files - {p} + {p};
  }

  // ---------- what a compaction may drop ----------

  /** A dropped tombstone that was the newest entry at s uncovers whatever is left of its key. */
  lemma DroppedTombstoneUncovers(files: set<Placed>, level: nat, T: nat, ins: set<Entry>, rest: set<Entry>,
                                 user: UserKey, s: nat, d: Entry)
    requires UniqueSequence(rest + ins) && T <= s
    requires IsNewest(rest + ins, user, s, d) && d in ins && Obsolete(files, level, T, d)
    ensures Answer(rest + ins, user, s) == None
    ensures Answer(rest + Kept(files, level, T, ins), user, s) == Answer(rest, user, T)
  {
    AnswerOfNewest(rest + ins, user, s, d);
    var after := rest + Kept(files, level, T, ins);
    forall x | x in ins && x.user == user && x.sn <= s ensures Hidden(ins, T, x) || x == d {}
    forall x | x in rest && x.user == user && x.sn <= s ensures x.sn <= T {}
    forall x ensures IsNewest(after, user, s, x) <==> IsNewest(rest, user, T, x) {}
    SameNewestSameAnswer(after, rest, user, s, T);
  }

  /** In every other case the newest entry at s survives. */
  lemma KeptAnswersAlike(files: set<Placed>, level: nat, T: nat, ins: set<Entry>, rest: set<Entry>, user: UserKey, s: nat)
    requires UniqueSequence(rest + ins) && T <= s
    requires forall d :: IsNewest(rest + ins, user, s, d) && d in ins ==> !Obsolete(files, level, T, d)
    ensures Answer(rest + Kept(files, level, T, ins), user, s) == Answer(rest + ins, user, s)
  {
    var after := rest + Kept(files, level, T, ins);
    NewestOrNone(rest + ins, user, s);
    if e :| IsNewest(rest + ins, user, s, e) {
      assert !Hidden(ins, T, e);
      assert IsNewest(after, user, s, e);
      AnswerOfNewest(after, user, s, e);
      AnswerOfNewest(rest + ins, user, s, e);
    }
  }

  ghost predicate SameAnswersFrom(T: nat, a: set<Entry>, b: set<Entry>) {
    forall user, s {:trigger Answer(a, user, s)} :: T <= s ==> Answer(a, user, s) == Answer(b, user, s)
  }

  /** A compaction changes no answer at any sequence a reader may still use,
      exactly when it drops no tombstone that still hides a stored value. */
  lemma CompactionKeepsAnswersUnlessLost(st: State, level: nat, in0: set<Placed>, in1: set<Placed>, outs: set<Placed>)
    requires Inv(st) && Compaction(st, level, in0, in1, outs)
    ensures SameAnswersFrom(st.SmallestSnapshot(), Install(st, in0, in1, outs).Stored(), st.Stored())
            <==> !LosesTombstone(st, level, in0, in1)
  {
    var T, ins, rest := st.SmallestSnapshot(), EntriesOf(in0 + in1), Left(st, in0, in1);
    var kept := Kept(st.files, level, T, ins);
    StoredSplits(st, in0, in1);
    InstallStores(st, in0, in1, outs);
    assert UniqueSequence(rest + ins) by { StoredIsUnique(st); }
    if LosesTombstone(st, level, in0, in1) {
      var user, d :| IsNewest(st.Stored(), user, T, d) && d in ins && Obsolete(st.files, level, T, d)
                     && Answer(rest, user, T).Some?;
      DroppedTombstoneUncovers(st.files, level, T, ins, rest, user, T, d);
      assert Answer(rest + kept, user, T) != Answer(rest + ins, user, T);
    } else {
      forall user, s | T <= s ensures Answer(rest + kept, user, s) == Answer(rest + ins, user, s) {
        if d :| IsNewest(rest + ins, user, s, d) && d in ins && Obsolete(st.files, level, T, d) {
          DroppedTombstoneUncovers(st.files, level, T, ins, rest, user, s, d);
          assert IsNewest(st.Stored(), user, T, d);
        } else {
          KeptAnswersAlike(st.files, level, T, ins, rest, user, s);
        }
      }
    }
  }

  /** A clean right boundary on level + 1 is enough: then nothing older than a
      dropped tombstone is left anywhere. */
  lemma CleanBoundaryLosesNothing(st: State, level: nat, in0: set<Placed>, in1: set<Placed>)
    requires Inv(st) && Selected(st.files, level, in0, in1) && BoundaryClean(st.files, level, in1)
    ensures !LosesTombstone(st, level, in0, in1) && !BoundaryHides(st, level, in0, in1)
  {
    var T := st.SmallestSnapshot();
    forall user, d | IsNewest(st.Stored(), user, T, d) && d in EntriesOf(in0 + in1) && Obsolete(st.files, level, T, d)
      ensures Answer(Left(st, in0, in1), user, T) == None
    {
      StoredSplits(st, in0, in1);
      forall e | e in Left(st, in0, in1) && e.user == user ensures e.sn > T {
        NothingOlderLeft(st, level, in0, in1, d, e);
      }
      AnswerOfNone(Left(st, in0, in1), user, T);
    }
  }

  lemma NothingOlderLeft(st: State, level: nat, in0: set<Placed>, in1: set<Placed>, d: Entry, e: Entry)
    requires Inv(st) && Selected(st.files, level, in0, in1) && BoundaryClean(st.files, level, in1)
    requires d in EntriesOf(in0 + in1) && IsBaseLevel(st.files, level, d.user)
    requires e in Left(st, in0, in1) && e.user == d.user
    ensures e.sn > d.sn
  {
    var p := InputOfEntry(in0 + in1, d);
    assert d in EntriesOf(st.files);
    if e !in st.mem && e !in st.ImmEntries() {
      var q := InputOfEntry(st.files - in0 - in1, e);
      assert UniqueSequence(EntriesOf(st.files)) by { StoredIsUnique(st); }
      NothingOlderInFile(st.files, level, in0, in1, p, d, q, e);
    }
  }

  lemma NothingOlderInFile(files: set<Placed>, level: nat, in0: set<Placed>, in1: set<Placed>,
                           p: Placed, d: Entry, q: Placed, e: Entry)
    requires VersionOk(files) && UniqueSequence(EntriesOf(files))
    requires Selected(files, level, in0, in1) && BoundaryClean(files, level, in1)
    requires p in in0 + in1 && d in p.file.entries
    requires q in files - in0 - in1 && e in q.file.entries && e.user == d.user
    requires IsBaseLevel(files, level, d.user)
    ensures e.sn > d.sn
  {
    EntryInRange(p.file, d);
    EntryInRange(q.file, e);
    if q.level <= level {
      LeftAboveIsNewer(files, level, in0, in1, p, q);
    } else if q.level == level + 1 {
      assert LeftOf(q.file, in0, in1) || RightOf(q.file, in0, in1);
      assert forall x, y :: x in q.file.entries && y in p.file.entries ==> x in EntriesOf(files) && y in EntriesOf(files);
      LeftNeighbourNewer(q.file, p.file);
    }
  }

  // ---------- when exactly a tombstone is lost ----------

  /** q is the nearest file left on level + 1 to the right of p. */
  ghost predicate NextRight(files: set<Placed>, level: nat, in1: set<Placed>, p: Placed, q: Placed) {
    && q in files - in1 && q.level == level + 1 && Less(p.file.largest, q.file.smallest)
    && forall r :: r in files - in1 && r.level == level + 1 && Less(p.file.largest, r.file.smallest) && r != q ==>
         Less(q.file.largest, r.file.smallest)
  }

  /** d, the newest entry of its key for the oldest reader, is dropped as obsolete although p, a chosen
      file of level + 1, ends with its key and q, the next file left there, begins with a value of it. */
  ghost predicate HidesAt(st: State, level: nat, in0: set<Placed>, in1: set<Placed>, d: Entry, p: Placed, q: Placed) {
    && IsNewest(st.Stored(), d.user, st.SmallestSnapshot(), d)
    && d in EntriesOf(in0 + in1) && Obsolete(st.files, level, st.SmallestSnapshot(), d)
    && p in in1 && NextRight(st.files, level, in1, p, q)
    && p.file.largest.user == d.user == q.file.smallest.user
    && q.file.entries != [] && q.file.entries[0].kind.Put?
  }

  ghost predicate BoundaryHides(st: State, level: nat, in0: set<Placed>, in1: set<Placed>) {
    exists d, p, q :: HidesAt(st, level, in0, in1, d, p, q)
  }

  lemma {:induction false} LeftmostExists(ps: set<Placed>) returns (q: Placed)
    requires ps != {} && forall p :: p in ps ==> FileOk(p.file)
    requires forall p, r :: p in ps && r in ps && p != r ==> Apart(p.file, r.file)
    ensures q in ps && forall r :: r in ps && r != q ==> Less(q.file.largest, r.file.smallest)
    decreases |ps|
  {
    var x :| x in ps;
    q := x;
    if ps - {x} == {} {
      assert forall r :: r in ps ==> r == x || r in ps - {x};
    } else {
      var y := LeftmostExists(ps - {x});
      if !Less(x.file.largest, y.file.smallest) {
        q := y;
      }
      assert Apart(x.file, y.file) && FileOk(y.file);
      EntryInRange(y.file, y.file.entries[0]);
      forall r | r in ps && r != q ensures Less(q.file.largest, r.file.smallest) {
        if q == x && r != y {
          assert r in ps - {x} && Less(y.file.largest, r.file.smallest);
        }
      }
    }
  }

  lemma OlderIsOneBelow(files: set<Placed>, level: nat, in0: set<Placed>, in1: set<Placed>, p: Placed, q: Placed, d: Entry, e: Entry)
    requires VersionOk(files) && UniqueSequence(EntriesOf(files)) && Selected(files, level, in0, in1)
    requires p in in0 + in1 && d in p.file.entries && IsBaseLevel(files, level, d.user)
    requires q in files - in0 - in1 && e in q.file.entries && e.user == d.user && e.sn <= d.sn
    ensures q.level == level + 1 && FileOk(p.file) && FileOk(q.file)
  {
    assert p in files && FileOk(q.file);
    EntryInRange(q.file, e);
    if q.level <= level {
      LeftAboveIsNewer(files, level, in0, in1, p, q);
      hide VersionOk, Selected, UniqueSequence;
    }
  }

  lemma UniqueBetween(files: set<Placed>, p: Placed, q: Placed)
    requires UniqueSequence(EntriesOf(files)) && p in files && q in files
    ensures forall x, y :: x in p.file.entries && y in q.file.entries && x.sn == y.sn ==> x == y
  {
    assert forall x, y :: x in p.file.entries && y in q.file.entries ==> x in EntriesOf(files) && y in EntriesOf(files);
  }

  /** What is left of a base-level key and is not newer than a chosen entry stands right of a chosen
      file of level + 1 that ends with the key. */
  lemma OlderIsRight(files: set<Placed>, level: nat, in0: set<Placed>, in1: set<Placed>, d: Entry, e: Entry)
      returns (p: Placed, q: Placed)
    requires VersionOk(files) && UniqueSequence(EntriesOf(files)) && Selected(files, level, in0, in1)
    requires d in EntriesOf(in0 + in1) && IsBaseLevel(files, level, d.user)
    requires e in EntriesOf(files - in0 - in1) && e.user == d.user && e.sn <= d.sn
    ensures p in in1 && d in p.file.entries && p.file.largest.user == d.user
    ensures q in files - in0 - in1 && q.level == level + 1 && e in q.file.entries && q.file.smallest.user == d.user
    ensures RightOf(q.file, in0, in1) && Less(p.file.largest, q.file.smallest)
  {
    p := InputOfEntry(in0 + in1, d);
    q := InputOfEntry(files - in0 - in1, e);
    OlderIsOneBelow(files, level, in0, in1, p, q, d, e);
    EntryInRange(p.file, d);
    EntryInRange(q.file, e);
    assert LeftOf(q.file, in0, in1) || RightOf(q.file, in0, in1);
    assert p in files;
    UniqueBetween(files, q, p);
    hide VersionOk, Selected, UniqueSequence, IsBaseLevel, FileOk, EntriesOf;
    if p in in1 && Less(q.file.largest, p.file.smallest) {
      LeftNeighbourNewer(q.file, p.file);
    }
  }

  /** The first entry of the next file is then the newest of the key that is left. */
  lemma NextIsNewest(files: set<Placed>, level: nat, in0: set<Placed>, in1: set<Placed>, d: Entry, p: Placed, q: Placed, e: Entry)
    requires VersionOk(files) && UniqueSequence(EntriesOf(files)) && Selected(files, level, in0, in1)
    requires d in EntriesOf(in0 + in1) && IsBaseLevel(files, level, d.user)
    requires p in in1 && NextRight(files, level, in1, p, q) && p.file.largest.user == d.user == q.file.smallest.user
    requires e in EntriesOf(files - in0 - in1) && e.user == d.user && e.sn <= d.sn
    ensures e.sn <= q.file.entries[0].sn
  {
    var p', r := OlderIsRight(files, level, in0, in1, d, e);
    var first := q.file.entries[0];
    assert FileOk(q.file) && first in q.file.entries;
    EntryInRange(r.file, e);
    assert Less(p.file.largest, r.file.smallest);
    EntryInRange(q.file, first);
    if r == q {
      var i :| 0 <= i < |q.file.entries| && q.file.entries[i] == e;
    } else {
      EntryInRange(q.file, q.file.entries[|q.file.entries| - 1]);
    }
  }

  /** A file right of a chosen one is right of everything chosen. */
  lemma NextIsRightOfAll(files: set<Placed>, level: nat, in0: set<Placed>, in1: set<Placed>, p: Placed, q: Placed)
    requires WellFormed(files) && Selected(files, level, in0, in1) && p in in1 && NextRight(files, level, in1, p, q)
    ensures q in files - in0 - in1 && FileOk(q.file) && RightOf(q.file, in0, in1)
  {
    assert FileOk(q.file) && FileOk(p.file);
    EntryInRange(p.file, p.file.entries[0]);
    EntryInRange(q.file, q.file.entries[0]);
    assert LeftOf(q.file, in0, in1) || RightOf(q.file, in0, in1);
  }

  /** The first entry of the next file is older than the dropped tombstone. */
  lemma NextIsOlder(files: set<Placed>, level: nat, in0: set<Placed>, in1: set<Placed>, d: Entry, p: Placed, q: Placed)
    requires VersionOk(files) && UniqueSequence(EntriesOf(files)) && Selected(files, level, in0, in1)
    requires d in EntriesOf(in0 + in1)
    requires p in in1 && NextRight(files, level, in1, p, q) && p.file.largest.user == d.user == q.file.smallest.user
    ensures q in files - in0 - in1 && FileOk(q.file) && q.file.entries[0].user == d.user && q.file.entries[0].sn < d.sn
  {
    NextIsRightOfAll(files, level, in0, in1, p, q);
    var first := q.file.entries[0];
    var c := InputOfEntry(in0 + in1, d);
    assert c in files && FileOk(c.file) && first in q.file.entries;
    UniqueBetween(files, c, q);
    hide VersionOk, Selected, UniqueSequence, EntriesOf, NextRight, FileOk;
    EntryInRange(c.file, d);
    EntryInRange(q.file, first);
    FirstIsSmallest(q.file);
  }

  lemma FirstIsSmallest(f: File)
    requires FileOk(f)
    ensures f.entries != [] && f.smallest == KeyOf(f.entries[0])
  {
  }

  /** There is a next file on level + 1, and it begins with the key. */
  lemma NextRightExists(files: set<Placed>, level: nat, in0: set<Placed>, in1: set<Placed>, p: Placed, r: Placed, user: UserKey)
      returns (q: Placed)
    requires VersionOk(files) && p in in1 && r in files - in1 && r.level == level + 1 && Less(p.file.largest, r.file.smallest)
    requires p.file.largest.user == user == r.file.smallest.user
    ensures NextRight(files, level, in1, p, q) && q.file.smallest.user == user
  {
    var right := set q | q in files - in1 && q.level == level + 1 && Less(p.file.largest, q.file.smallest);
    assert r in right;
    q := LeftmostExists(right);
    assert FileOk(q.file);
    EntryInRange(q.file, q.file.entries[0]);
  }

  /** The boundary behind which a value that is left stands. */
  lemma BoundaryOf(files: set<Placed>, level: nat, in0: set<Placed>, in1: set<Placed>, d: Entry, e: Entry)
      returns (p: Placed, q: Placed)
    requires VersionOk(files) && UniqueSequence(EntriesOf(files)) && Selected(files, level, in0, in1)
    requires d in EntriesOf(in0 + in1) && IsBaseLevel(files, level, d.user)
    requires e in EntriesOf(files - in0 - in1) && e.user == d.user && e.sn <= d.sn
    ensures p in in1 && NextRight(files, level, in1, p, q) && p.file.largest.user == d.user == q.file.smallest.user
    ensures q in files - in0 - in1 && q.file.entries != [] && q.file.entries[0].user == d.user
    ensures e.sn <= q.file.entries[0].sn < d.sn
  {
    var r;
    p, r := OlderIsRight(files, level, in0, in1, d, e);
    hide IsBaseLevel, UniqueSequence, EntriesOf, VersionOk, RightOf;
    EnclosedIn1(files, level, in0, in1, r);
    q := NextRightExists(files, level, in0, in1, p, r, d.user);
    NextIsOlder(files, level, in0, in1, d, p, q);
    NextIsNewest(files, level, in0, in1, d, p, q, e);
    FirstIsSmallest(q.file);
  }

  lemma EnclosedIn1(files: set<Placed>, level: nat, in0: set<Placed>, in1: set<Placed>, r: Placed)
    requires r in files - in0 - in1
    ensures r in files - in1
  {
  }

  lemma LossIsAtBoundary(st: State, level: nat, in0: set<Placed>, in1: set<Placed>, d: Entry)
    requires Inv(st) && Selected(st.files, level, in0, in1)
    requires IsNewest(st.Stored(), d.user, st.SmallestSnapshot(), d)
    requires d in EntriesOf(in0 + in1) && Obsolete(st.files, level, st.SmallestSnapshot(), d)
    requires Answer(Left(st, in0, in1), d.user, st.SmallestSnapshot()).Some?
    ensures BoundaryHides(st, level, in0, in1)
  {
    var T, left := st.SmallestSnapshot(), Left(st, in0, in1);
    var e :| IsNewest(left, d.user, T, e) && e.kind.Put?;
    LeftIsStored(st, in0, in1, d, e);
    LeftIsInFiles(st, in0, in1, d, e);
    var p, q := BoundaryOf(st.files, level, in0, in1, d, e);
    FirstIsLeft(st, in0, in1, q);
    hide Selected, VersionOk, EntriesOf, Inv, NextRight, Left;
    assert q.file.entries[0] == e;
    assert HidesAt(st, level, in0, in1, d, p, q);
  }

  lemma FirstIsLeft(st: State, in0: set<Placed>, in1: set<Placed>, q: Placed)
    requires q in st.files - in0 - in1 && q.file.entries != []
    ensures q.file.entries[0] in Left(st, in0, in1)
  {
    assert q.file.entries[0] in q.file.entries;
  }

  lemma LeftIsStored(st: State, in0: set<Placed>, in1: set<Placed>, d: Entry, e: Entry)
    requires Inv(st) && in0 <= st.files && in1 <= st.files && e in Left(st, in0, in1) && e.user == d.user
    requires IsNewest(st.Stored(), d.user, st.SmallestSnapshot(), d) && e.sn <= st.SmallestSnapshot()
    ensures e.sn <= d.sn && UniqueSequence(Left(st, in0, in1)) && UniqueSequence(EntriesOf(st.files))
  {
    StoredIsUnique(st);
    assert Left(st, in0, in1) <= st.Stored() && EntriesOf(st.files) <= st.Stored();
  }

  /** What is left and not newer than a chosen entry is in a file. */
  lemma LeftIsInFiles(st: State, in0: set<Placed>, in1: set<Placed>, d: Entry, e: Entry)
    requires Inv(st) && in0 <= st.files && in1 <= st.files && d in EntriesOf(in0 + in1)
    requires e in Left(st, in0, in1) && e.user == d.user && e.sn <= d.sn
    ensures e in EntriesOf(st.files - in0 - in1)
  {
    assert d in EntriesOf(st.files);
  }

  lemma BoundaryIsLoss(st: State, level: nat, in0: set<Placed>, in1: set<Placed>, d: Entry, p: Placed, q: Placed)
    requires Inv(st) && Selected(st.files, level, in0, in1) && HidesAt(st, level, in0, in1, d, p, q)
    ensures LosesTombstone(st, level, in0, in1)
  {
    var T, files, left := st.SmallestSnapshot(), st.files, Left(st, in0, in1);
    var first := q.file.entries[0];
    StoredSplits(st, in0, in1);
    StoredIsUnique(st);
    NextIsOlder(files, level, in0, in1, d, p, q);
    assert first in q.file.entries && first in EntriesOf(files - in0 - in1);
    forall e | e in left && e.user == d.user && e.sn <= T ensures e.sn <= first.sn {
      assert e in st.Stored() && e.sn <= d.sn;
      LeftIsInFiles(st, in0, in1, d, e);
      NextIsNewest(files, level, in0, in1, d, p, q, e);
    }
    assert IsNewest(left, d.user, T, first);
    assert UniqueSequence(left) by {
      assert left <= st.Stored();
    }
    AnswerOfNewest(left, d.user, T, first);
  }

  /** A compaction loses a tombstone exactly when it hides a value across the right boundary of the
      chosen files of level + 1. */
  lemma LosesAtBoundaryIff(st: State, level: nat, in0: set<Placed>, in1: set<Placed>)
    requires Inv(st) && Selected(st.files, level, in0, in1)
    ensures LosesTombstone(st, level, in0, in1) <==> BoundaryHides(st, level, in0, in1)
  {
    hide Inv, Selected, IsNewest, HidesAt, Left, EntriesOf, Answer, Obsolete;
    if LosesTombstone(st, level, in0, in1) {
      var user, d :| IsNewest(st.Stored(), user, st.SmallestSnapshot(), d)
                     && d in EntriesOf(in0 + in1) && Obsolete(st.files, level, st.SmallestSnapshot(), d)
                     && Answer(Left(st, in0, in1), user, st.SmallestSnapshot()).Some?;
      NewestIsOfKey(st.Stored(), user, st.SmallestSnapshot(), d);
      LossIsAtBoundary(st, level, in0, in1, d);
    }
    if BoundaryHides(st, level, in0, in1) {
      var d, p, q :| HidesAt(st, level, in0, in1, d, p, q);
      BoundaryIsLoss(st, level, in0, in1, d, p, q);
    }
  }

  /** So answers are kept exactly when no file boundary on level + 1 separates a dropped tombstone
      from the value it hides. */
  lemma CompactionKeepsAnswersIff(st: State, level: nat, in0: set<Placed>, in1: set<Placed>, outs: set<Placed>)
    requires Inv(st) && Compaction(st, level, in0, in1, outs)
    ensures SameAnswersFrom(st.SmallestSnapshot(), Install(st, in0, in1, outs).Stored(), st.Stored())
            <==> !BoundaryHides(st, level, in0, in1)
  {
    hide SameAnswersFrom, LosesTombstone, BoundaryHides, Inv, Selected, Rewritten, Kept;
    CompactionKeepsAnswersUnlessLost(st, level, in0, in1, outs);
    LosesAtBoundaryIff(st, level, in0, in1);
  }

  lemma NewestIsOfKey(es: set<Entry>, user: UserKey, s: nat, e: Entry)
    requires IsNewest(es, user, s, e)
    ensures e.user == user
  {
  }

  // ---------- reads agree with the history over every run ----------

  lemma AddToBoth(a: set<Entry>, b: set<Entry>, es: set<Entry>, user: UserKey, s: nat)
    requires UniqueSequence(a + es) && UniqueSequence(b + es)
    requires forall x, y :: x in es && y in a + b ==> x.sn > y.sn
    requires Answer(a, user, s) == Answer(b, user, s)
    ensures Answer(a + es, user, s) == Answer(b + es, user, s)
  {
    NewestOrNone(es, user, s);
    if e :| IsNewest(es, user, s, e) {
      AnswerOfNewest(a + es, user, s, e);
      AnswerOfNewest(b + es, user, s, e);
    } else {
      SameNewestSameAnswer(a + es, a, user, s, s);
      SameNewestSameAnswer(b + es, b, user, s, s);
    }
  }

  lemma WriteAddsToBoth(st: State, ops: seq<Op>)
    requires Inv(st)
    ensures var es := Entries(NumberOps(ops, st.LastSequence() + 1));
            && Write(st, ops).Stored() == st.Stored() + es
            && Entries(Write(st, ops).history) == Entries(st.history) + es
            && (forall x, y :: x in es && y in st.Stored() + Entries(st.history) ==> x.sn > y.sn)
  {
    var es := NumberOps(ops, st.LastSequence() + 1);
    assert forall e :: e in st.history + es ==> e in st.history || e in es;
    assert forall y :: y in Entries(st.history) ==> y.sn <= st.LastSequence();
    assert st.Stored() + Entries(st.history) == Entries(st.history);
  }

  lemma WriteKeepsExact(st: State, ops: seq<Op>)
    requires Inv(st) && Exact(st) && Enabled(st, DoWrite(ops))
    ensures Exact(Write(st, ops))
  {
    var st', es := Write(st, ops), Entries(NumberOps(ops, st.LastSequence() + 1));
    assert UniqueSequence(st'.Stored()) && UniqueSequence(Entries(st'.history)) by {
      WriteKeepsInv(st, ops);
      StoredIsUnique(st');
    }
    WriteAddsToBoth(st, ops);
    forall user, s | st'.SmallestSnapshot() <= s
      ensures Answer(st'.Stored(), user, s) == Answer(Entries(st'.history), user, s)
    {
      AddToBoth(st.Stored(), Entries(st.history), es, user, s);
    }
  }

  /** No tombstone that a step drops hides a value across a file boundary. */
  ghost predicate Lossless(st: State, l: Label) {
    l.DoCompact? ==> !BoundaryHides(st, l.from, l.in0, l.in1)
  }

  lemma StepKeepsInv(st: State, l: Label)
    requires Inv(st) && Enabled(st, l)
    ensures Inv(Apply(st, l))
  {
    match l
    case DoWrite(ops) => WriteKeepsInv(st, ops);
    case DoFlush(level, f) => FlushKeepsInv(st, level, f);
    case DoMove(level, f) => MoveKeepsInv(st, level, f);
    case DoCompact(level, in0, in1, outs) => CompactionKeepsInv(st, level, in0, in1, outs);
    case _ =>
  }

  lemma StepKeepsExact(st: State, l: Label)
    requires Inv(st) && Exact(st) && Enabled(st, l) && Lossless(st, l)
    ensures Exact(Apply(st, l))
  {
    match l
    case DoWrite(ops) => WriteKeepsExact(st, ops);
    case DoSwitch => assert Apply(st, l).Stored() == st.Stored();
    case DoFlush(level, f) => FlushKeepsInv(st, level, f);
    case DoFlushNothing => assert Apply(st, l).Stored() == st.Stored();
    case DoMove(level, f) => MoveKeepsInv(st, level, f);
    case DoCompact(level, in0, in1, outs) => CompactionKeepsAnswersIff(st, level, in0, in1, outs);
    case DoSnapshot => assert Apply(st, l).Stored() == st.Stored();
    case DoRelease(i) => assert Apply(st, l).Stored() == st.Stored();
  }

  /** A run: every label enabled in the state it is taken in. */
  ghost predicate Run(st: State, ls: seq<Label>)
    decreases |ls|
  {
    ls == [] || (Enabled(st, ls[0]) && Run(Apply(st, ls[0]), ls[1..]))
  }

  ghost predicate LosslessRun(st: State, ls: seq<Label>)
    requires Run(st, ls)
    decreases |ls|
  {
    ls == [] || (Lossless(st, ls[0]) && LosslessRun(Apply(st, ls[0]), ls[1..]))
  }

  ghost function After(st: State, ls: seq<Label>): State
    requires Run(st, ls)
    decreases |ls|
  {
    if ls == [] then st else After(Apply(st, ls[0]), ls[1..])
  }

  lemma {:induction false} RunKeepsInvAndExact(st: State, ls: seq<Label>)
    requires Run(st, ls) && Inv(st)
    ensures Inv(After(st, ls))
    ensures Exact(st) && LosslessRun(st, ls) ==> Exact(After(st, ls))
    decreases |ls|
  {
    if ls != [] {
      StepKeepsInv(st, ls[0]);
      if Exact(st) && Lossless(st, ls[0]) {
        StepKeepsExact(st, ls[0]);
      }
      RunKeepsInvAndExact(Apply(st, ls[0]), ls[1..]);
    }
  }

  /** The main theorem: after any run from the empty store, whatever is stored
      answers every live reader as the plain replay of the first s writes does. */
  lemma EveryRunReadsHistory(ls: seq<Label>, user: UserKey, s: nat)
    requires Run(EMPTY, ls) && LosslessRun(EMPTY, ls)
    requires s in After(EMPTY, ls).snapshots || s == After(EMPTY, ls).LastSequence()
    ensures s <= After(EMPTY, ls).LastSequence()
    ensures Answer(After(EMPTY, ls).Stored(), user, s) == Lookup(Replay(After(EMPTY, ls).history[..s]), user)
  {
    var st := After(EMPTY, ls);
    assert EMPTY.Stored() == Entries([]);
    RunKeepsInvAndExact(EMPTY, ls);
    assert st.SmallestSnapshot() <= s <= |st.history|;
    AnswerIsReplay(st.history, user, s);
  }
}
