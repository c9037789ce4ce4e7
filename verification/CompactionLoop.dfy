/** DBImpl::DoCompactionWork: one pass over the merged inputs that drops what no
    reader can see and cuts the rest into output files. */
module CompactionLoop {
  import opened InternalKeys
  import opened Coding
  import opened Files
  import opened Version
  import opened CompactionInputs
  import LsmTree

  /** A stateless scan: no file two or more levels down covers the user key. */
  ghost predicate BaseLevel(levels: Levels, level: nat, user: UserKey) {
    forall l, f :: level + 2 <= l < |levels| && f in levels[l] ==> !Covers(f, user)
  }

  lemma BaseLevelOfSlots(levels: Levels, level: nat, user: UserKey)
    ensures BaseLevel(levels, level, user) <==> LsmTree.IsBaseLevel(Slots(levels), level, user)
  {
    forall l, f | level + 2 <= l < |levels| && f in levels[l] ensures Placed(l, f) in Slots(levels) {}
    if LsmTree.IsBaseLevel(Slots(levels), level, user) {
      forall l, f | level + 2 <= l < |levels| && f in levels[l] ensures !Covers(f, user) {
        assert Placed(l, f) in Slots(levels);
      }
    }
  }

  /** The per-level pointers of a Compaction, which only ever move forward. */
  class LevelPointers {
    const levels: Levels
    const level: nat
    const levelPtrs: array<nat>
    ghost var lastUser: Option<UserKey>

    ghost predicate Valid()
      reads this, levelPtrs
    {
      && levelPtrs.Length == |levels| == NUM_LEVELS && level + 1 < NUM_LEVELS
      && (forall l :: 0 < l < |levels| ==> Run(levels[l]))
      && (forall l :: 0 <= l < |levels| ==> levelPtrs[l] <= |levels[l]|)
      && (forall l, i :: 0 <= l < |levels| && 0 <= i < levelPtrs[l] ==> Passed(levels[l][i], lastUser))
    }

    static predicate Passed(f: File, user: Option<UserKey>) {
      user.Some? && f.largest.user < user.value
    }

    constructor (levels: Levels, level: nat)
      requires |levels| == NUM_LEVELS && forall l :: 0 < l < |levels| ==> Run(levels[l])
      requires level + 1 < NUM_LEVELS
      ensures Valid() && fresh(this) && fresh(levelPtrs)
      ensures this.levels == levels && this.level == level && lastUser == None
    {
      this.levels, this.level := levels, level;
      levelPtrs := new nat[NUM_LEVELS](_ => 0);
      lastUser := None;
    }

    /** Moves the pointer of level l up to the first file that does not end before user. */
    method Advance(l: nat, user: UserKey) returns (covered: bool)
      requires Valid() && 0 < l < NUM_LEVELS
      requires lastUser == Some(user)
      modifies levelPtrs
      ensures Valid()
      ensures covered <==> exists f :: f in levels[l] && Covers(f, user)
      ensures old(levelPtrs[l]) <= levelPtrs[l] <= |levels[l]|
      ensures levelPtrs[l] < |levels[l]| ==> user <= levels[l][levelPtrs[l]].largest.user
      ensures forall i :: 0 <= i < levelPtrs[l] ==> levels[l][i].largest.user < user
      ensures forall k :: 0 <= k < NUM_LEVELS && k != l ==> levelPtrs[k] == old(levelPtrs[k])
    {
      var fs := levels[l];
      while levelPtrs[l] < |fs|
        invariant Valid() && old(levelPtrs[l]) <= levelPtrs[l]
        invariant forall k :: 0 <= k < NUM_LEVELS && k != l ==> levelPtrs[k] == old(levelPtrs[k])
        decreases |fs| - levelPtrs[l]
      {
        var f := fs[levelPtrs[l]];
        if user <= f.largest.user {
          LargestAscend(fs);
          forall g | g in fs && Covers(g, user) ensures f.smallest.user <= user {
            var i :| 0 <= i < |fs| && fs[i] == g;
            assert !Passed(fs[i], lastUser);
          }
          assert f in levels[l];
          covered := user >= f.smallest.user;
          return;
        }
        levelPtrs[l] := levelPtrs[l] + 1;
      }
      return false;
    }

    /** Compaction::IsBaseLevelForKey, asked with non-decreasing user keys. */
    method IsBaseLevelForKey(user: UserKey) returns (r: bool)
      requires Valid()
      requires lastUser.Some? ==> lastUser.value <= user
      modifies this`lastUser, levelPtrs
      ensures Valid() && lastUser == Some(user)
      ensures r <==> BaseLevel(levels, level, user)
    {
      lastUser := Some(user);
      for l := level + 2 to NUM_LEVELS
        invariant Valid() && lastUser == Some(user)
        invariant forall k, f :: level + 2 <= k < l && f in levels[k] ==> !Covers(f, user)
      {
        var covered := Advance(l, user);
        if covered {
          return false;
        }
      }
      return true;
    }
  }

  // ---------- the drop rules over the merged inputs ----------

  /** The entries of the first n inputs that belong to kept, in order. */
  ghost function KeepSeq(input: seq<Entry>, kept: set<Entry>, n: nat): seq<Entry>
    requires n <= |input|
  {
    if n == 0 then []
    else KeepSeq(input, kept, n - 1) + if input[n - 1] in kept then [input[n - 1]] else []
  }

  lemma {:induction false} KeepSeqMembers(input: seq<Entry>, kept: set<Entry>, n: nat)
    requires n <= |input|
    ensures forall e :: e in KeepSeq(input, kept, n) <==> e in input[..n] && e in kept
  {
    if n > 0 {
      KeepSeqMembers(input, kept, n - 1);
      assert input[..n] == input[..n - 1] + [input[n - 1]];
    }
  }

  lemma SortedAppend(es: seq<Entry>, e: Entry)
    requires Sorted(es) && forall x :: x in es ==> Less(KeyOf(x), KeyOf(e))
    ensures Sorted(es + [e])
  {
  }

  lemma {:induction false} KeepSeqSorted(input: seq<Entry>, kept: set<Entry>, n: nat)
    requires Sorted(input) && n <= |input|
    ensures Sorted(KeepSeq(input, kept, n))
    ensures n < |input| ==> forall e :: e in KeepSeq(input, kept, n) ==> Less(KeyOf(e), KeyOf(input[n]))
  {
    if n > 0 {
      KeepSeqSorted(input, kept, n - 1);
      SortedAppend(KeepSeq(input, kept, n - 1), input[n - 1]);
      assert n < |input| ==> Less(KeyOf(input[n - 1]), KeyOf(input[n]));
    }
  }

  /** Rule A looks only at the entry just before: that decides whether any newer
      version of the user key is already visible to every reader. */
  lemma PreviousDecidesHidden(input: seq<Entry>, T: nat, i: nat)
    requires Sorted(input) && UniqueSequence(Entries(input)) && i < |input|
    ensures LsmTree.Hidden(Entries(input), T, input[i])
            <==> i > 0 && input[i - 1].user == input[i].user && input[i - 1].sn <= T
  {
    var e := input[i];
    if i > 0 && input[i - 1].user == e.user && input[i - 1].sn <= T {
      assert input[i - 1] in Entries(input) && Less(KeyOf(input[i - 1]), KeyOf(e));
      assert input[i - 1] != e;
    }
    if o :| o in Entries(input) && o.user == e.user && e.sn < o.sn <= T {
      var j :| 0 <= j < |input| && input[j] == o;
      assert j < i;
      assert j <= i - 1 && (j < i - 1 ==> Less(KeyOf(o), KeyOf(input[i - 1])));
    }
  }

  /** The loop's running state after n inputs. */
  ghost predicate Tracks(input: seq<Entry>, n: nat, current: Option<UserKey>, last: nat) {
    if n == 0 then current.None? && last == MAX_SEQUENCE
    else n <= |input| && current == Some(input[n - 1].user) && last == input[n - 1].sn
  }

  function Concat(outs: seq<File>): seq<Entry> {
    if outs == [] then [] else Concat(outs[..|outs| - 1]) + outs[|outs| - 1].entries
  }

  /** The output files so far: well formed, numbered in a row. */
  ghost predicate OutputsOk(outs: seq<File>, first: nat) {
    forall i :: 0 <= i < |outs| ==> FileOk(outs[i]) && outs[i].number == first + i && outs[i].size < LIMIT64
  }

  /** No output is empty. */
  lemma {:induction false} OutputsAreFew(outs: seq<File>, first: nat)
    requires OutputsOk(outs, first)
    ensures |outs| <= |Concat(outs)|
  {
    hide FileOk;
    if outs != [] {
      OutputsAreFew(outs[..|outs| - 1], first);
      assert FileOk(outs[|outs| - 1]);
      NoEmptyFile(outs[|outs| - 1]);
    }
  }

  lemma NoEmptyFile(f: File)
    requires FileOk(f)
    ensures |f.entries| >= 1
  {
  }

  lemma {:induction false} KeepSeqIsShort(input: seq<Entry>, kept: set<Entry>, n: nat)
    requires n <= |input|
    ensures |KeepSeq(input, kept, n)| <= n
  {
    if n > 0 {
      KeepSeqIsShort(input, kept, n - 1);
    }
  }

  lemma {:induction false} PiecesAreRun(outs: seq<File>, first: nat)
    requires OutputsOk(outs, first) && Sorted(Concat(outs))
    ensures Run(outs)
    ensures forall f, e :: f in outs && e in f.entries ==> e in Concat(outs)
    ensures forall e :: e in Concat(outs) ==> exists f :: f in outs && e in f.entries
  {
    if outs != [] {
      var n := |outs| - 1;
      var prefix, f := outs[..n], outs[n];
      assert Concat(outs) == Concat(prefix) + f.entries;
      assert Concat(prefix) == Concat(outs)[..|Concat(prefix)|];
      PiecesAreRun(prefix, first);
      assert outs == prefix + [f];
      assert FileOk(outs[n]);
      forall i | 0 <= i < n ensures Less(outs[i].largest, f.smallest) {
        assert prefix[i] in prefix && FileOk(outs[i]);
        var e := prefix[i].entries[|prefix[i].entries| - 1];
        assert e in Concat(prefix);
        var j :| 0 <= j < |Concat(prefix)| && Concat(prefix)[j] == e;
        assert Concat(outs)[|Concat(prefix)|] == f.entries[0];
      }
    }
  }

  class Output {
    var outs: seq<File>
    var builder: seq<Entry>
    var smallest: IKey
    var largest: IKey
    const first: nat

    ghost predicate Valid()
      reads this
    {
      && OutputsOk(outs, first)
      && (builder != [] ==> smallest == KeyOf(builder[0]) && largest == KeyOf(builder[|builder| - 1]))
    }

    ghost function Written(): seq<Entry>
      reads this
    {
      Concat(outs) + builder
    }

    constructor (first: nat)
      ensures Valid() && Written() == [] && this.first == first
    {
      outs, builder, this.first := [], [], first;
      smallest, largest := IKey(0, 0), IKey(0, 0);
    }

    /** OpenCompactionOutputFile on demand, then TableBuilder::Add. */
    method Add(e: Entry)
      requires Valid()
      modifies this
      ensures Valid() && builder == old(builder) + [e] && outs == old(outs)
    {
      if builder == [] {
        smallest := KeyOf(e);
      }
      largest := KeyOf(e);
      builder := builder + [e];
    }

    /** FinishCompactionOutputFile when asked and an output is open; the number of
        bytes written is up to the table format. */
    method FinishIf(asked: bool, size: nat)
      requires Valid() && Sorted(builder) && size < LIMIT64
      modifies this
      ensures Valid() && (asked ==> builder == [])
      ensures builder == [] || builder == old(builder)
      ensures Written() == old(Written())
    {
      if asked && builder != [] {
        var f := File(first + |outs|, size, smallest, largest, builder);
        assert (outs + [f])[..|outs|] == outs;
        assert Concat(outs + [f]) + [] == Concat(outs) + builder;
        outs, builder := outs + [f], [];
      }
    }
  }

  /** An entry is needed when some reader from T on is answered by it, unless it is a deletion that all
      of them see and no file two or more levels down can hold its key. */
  ghost predicate Needed(levels: Levels, level: nat, T: nat, input: seq<Entry>, e: Entry) {
    && e in input && LsmTree.Seen(Entries(input), T, e)
    && (e.kind.Deletion? && e.sn <= T ==> exists l, f :: level + 2 <= l < |levels| && f in levels[l] && Covers(f, e.user))
  }

  lemma KeptIsNeeded(levels: Levels, level: nat, T: nat, input: seq<Entry>, e: Entry)
    requires UniqueSequence(Entries(input))
    ensures e in LsmTree.Kept(Slots(levels), level, T, Entries(input)) <==> Needed(levels, level, T, input, e)
  {
    hide LsmTree.Kept, LsmTree.Seen;
    LsmTree.KeptIffNeeded(Slots(levels), level, T, Entries(input), e);
    BaseLevelOfSlots(levels, level, e.user);
  }

  lemma WrittenIffNeeded(levels: Levels, level: nat, T: nat, input: seq<Entry>)
    requires UniqueSequence(Entries(input)) && Sorted(input)
    ensures var out := KeepSeq(input, LsmTree.Kept(Slots(levels), level, T, Entries(input)), |input|);
            Sorted(out) && forall e :: e in out <==> Needed(levels, level, T, input, e)
  {
    var kept := LsmTree.Kept(Slots(levels), level, T, Entries(input));
    KeepSeqSorted(input, kept, |input|);
    KeepSeqMembers(input, kept, |input|);
    assert input[..|input|] == input;
    hide LsmTree.Kept, LsmTree.Seen, KeepSeq, Sorted;
    forall e ensures e in kept <==> Needed(levels, level, T, input, e) {
      KeptIsNeeded(levels, level, T, input, e);
    }
  }

  /** The two drop rules for one entry, given what the loop remembers of its user key. */
  method DropEntry(pointers: LevelPointers, ikey: Entry, lastSequenceForKey: nat, smallestSnapshot: nat,
                   ghost input: seq<Entry>, ghost i: nat)
      returns (drop: bool)
    requires pointers.Valid() && pointers.level + 1 < NUM_LEVELS
    requires pointers.lastUser.Some? ==> pointers.lastUser.value <= ikey.user
    requires Sorted(input) && UniqueSequence(Entries(input)) && i < |input| && ikey == input[i]
    requires smallestSnapshot < MAX_SEQUENCE
    requires lastSequenceForKey == if i > 0 && input[i - 1].user == ikey.user then input[i - 1].sn else MAX_SEQUENCE
    modifies pointers`lastUser, pointers.levelPtrs
    ensures pointers.Valid()
    ensures pointers.lastUser == old(pointers.lastUser) || pointers.lastUser == Some(ikey.user)
    ensures drop <==> ikey !in LsmTree.Kept(Slots(pointers.levels), pointers.level, smallestSnapshot, Entries(input))
    ensures drop <==> !Needed(pointers.levels, pointers.level, smallestSnapshot, input, ikey)
  {
    KeptIsNeeded(pointers.levels, pointers.level, smallestSnapshot, input, ikey);
    hide Needed;
    PreviousDecidesHidden(input, smallestSnapshot, i);
    BaseLevelOfSlots(pointers.levels, pointers.level, ikey.user);
    drop := false;
    if lastSequenceForKey <= smallestSnapshot {
      drop := true;
    } else if ikey.kind.Deletion? && ikey.sn <= smallestSnapshot {
      drop := pointers.IsBaseLevelForKey(ikey.user);
    }
  }

  /** The first n inputs are dealt with: those in kept are written, in order. */
  ghost predicate Progress(output: Output, input: seq<Entry>, kept: set<Entry>, n: nat)
    reads output
  {
    && n <= |input| && output.Valid() && Sorted(output.builder)
    && output.Written() == KeepSeq(input, kept, n)
  }

  /** One step of the output side: perhaps close the file, then write the entry
      unless it is dropped, then perhaps close the file behind it. */
  method WriteUnlessDropped(output: Output, input: seq<Entry>, i: nat, drop: bool, ghost kept: set<Entry>)
    requires Sorted(input) && i < |input| && Progress(output, input, kept, i)
    requires drop <==> input[i] !in kept
    modifies output
    ensures Progress(output, input, kept, i + 1)
  {
    KeepSeqSorted(input, kept, i + 1);
    var shouldStopBefore: bool := *;
    var size: nat :| size < LIMIT64;
    output.FinishIf(shouldStopBefore, size);
    if !drop {
      assert output.Written() + [input[i]] == Concat(output.outs) + (output.builder + [input[i]]);
      SuffixSorted(Concat(output.outs), output.builder + [input[i]]);
      output.Add(input[i]);
      var bigEnough: bool := *;
      var written: nat :| written < LIMIT64;
      output.FinishIf(bigEnough, written);
    }
  }

  lemma SuffixSorted(a: seq<Entry>, b: seq<Entry>)
    requires Sorted(a + b)
    ensures Sorted(b)
  {
    forall i, j | 0 <= i < j < |b| ensures Less(KeyOf(b[i]), KeyOf(b[j])) {
      assert (a + b)[|a| + i] == b[i] && (a + b)[|a| + j] == b[j];
    }
  }

  ghost predicate AskedBefore(pointers: LevelPointers, input: seq<Entry>, n: nat)
    reads pointers, pointers.levelPtrs
  {
    && n <= |input| && pointers.Valid()
    && (pointers.lastUser.Some? ==> n > 0 && pointers.lastUser.value <= input[n - 1].user)
  }

  /** The drop decision for the i-th input, and what the loop remembers after it. */
  method Decide(pointers: LevelPointers, input: seq<Entry>, i: nat, current: Option<UserKey>, last: nat, smallestSnapshot: nat)
      returns (drop: bool, current': Option<UserKey>, last': nat)
    requires Sorted(input) && UniqueSequence(Entries(input)) && i < |input| && smallestSnapshot < MAX_SEQUENCE
    requires AskedBefore(pointers, input, i) && Tracks(input, i, current, last)
    modifies pointers`lastUser, pointers.levelPtrs
    ensures AskedBefore(pointers, input, i + 1) && Tracks(input, i + 1, current', last')
    ensures drop <==> input[i] !in LsmTree.Kept(Slots(pointers.levels), pointers.level, smallestSnapshot, Entries(input))
  {
    var ikey := input[i];
    assert i > 0 ==> Less(KeyOf(input[i - 1]), KeyOf(ikey));
    current', last' := current, last;
    if current' != Some(ikey.user) {
      current' := Some(ikey.user);
      last' := MAX_SEQUENCE;
    }
    drop := DropEntry(pointers, ikey, last', smallestSnapshot, input, i);
    last' := ikey.sn;
  }

  lemma TracksNothing(input: seq<Entry>)
    ensures Tracks(input, 0, None, MAX_SEQUENCE)
  {
  }

  method CompactionPass(pointers: LevelPointers, output: Output, input: seq<Entry>, smallestSnapshot: nat, ghost kept: set<Entry>)
    requires Sorted(input) && UniqueSequence(Entries(input)) && smallestSnapshot < MAX_SEQUENCE
    requires AskedBefore(pointers, input, 0) && Progress(output, input, kept, 0)
    requires kept == LsmTree.Kept(Slots(pointers.levels), pointers.level, smallestSnapshot, Entries(input))
    modifies pointers`lastUser, pointers.levelPtrs, output
    ensures Progress(output, input, kept, |input|)
  {
    hide *;
    var currentUserKey: Option<UserKey> := None;
    var lastSequenceForKey: nat := MAX_SEQUENCE;
    TracksNothing(input);
    var i := 0;
    while i < |input|
      invariant 0 <= i <= |input|
      invariant AskedBefore(pointers, input, i) && Tracks(input, i, currentUserKey, lastSequenceForKey)
      invariant Progress(output, input, kept, i)
    {
      var drop;
      drop, currentUserKey, lastSequenceForKey :=
        Decide(pointers, input, i, currentUserKey, lastSequenceForKey, smallestSnapshot);
      WriteUnlessDropped(output, input, i, drop, kept);
      i := i + 1;
    }
  }

  /** DoCompactionWork over the merged inputs. Whether ShouldStopBefore or the file
      size cuts an output is left open, so the outputs may be cut anywhere, also
      between two versions of one user key. */
  method DoCompactionWork(levels: Levels, level: nat, input: seq<Entry>, smallestSnapshot: nat, firstNumber: nat)
      returns (outs: seq<File>)
    requires |levels| == NUM_LEVELS && level + 1 < NUM_LEVELS && forall l :: 0 < l < |levels| ==> Run(levels[l])
    requires Sorted(input) && UniqueSequence(Entries(input))
    requires smallestSnapshot < MAX_SEQUENCE
    ensures OutputsOk(outs, firstNumber) && Run(outs)
    ensures Concat(outs) == KeepSeq(input, LsmTree.Kept(Slots(levels), level, smallestSnapshot, Entries(input)), |input|)
    ensures Sorted(Concat(outs))
    ensures forall e :: e in Concat(outs) <==> Needed(levels, level, smallestSnapshot, input, e)
  {
    WrittenIffNeeded(levels, level, smallestSnapshot, input);
    ghost var kept := LsmTree.Kept(Slots(levels), level, smallestSnapshot, Entries(input));
    var pointers := new LevelPointers(levels, level);
    var output := new Output(firstNumber);
    CompactionPass(pointers, output, input, smallestSnapshot, kept);
    CloseLast(output, input, kept);
    outs := output.outs;
  }

  method CloseLast(output: Output, ghost input: seq<Entry>, ghost kept: set<Entry>)
    requires Sorted(input) && Progress(output, input, kept, |input|)
    modifies output
    ensures OutputsOk(output.outs, output.first) && Run(output.outs)
    ensures Concat(output.outs) == KeepSeq(input, kept, |input|)
  {
    var written: nat :| written < LIMIT64;
    KeepSeqSorted(input, kept, |input|);
    output.FinishIf(true, written);
    assert Concat(output.outs) + [] == Concat(output.outs);
    PiecesAreRun(output.outs, output.first);
  }
}
