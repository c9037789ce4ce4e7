/** Which runs of the store read like the history of writes: exactly those in which no compaction
    drops a tombstone that hides a value across a file boundary; and that is so whenever every
    compaction stops at a clean boundary. */
module LsmRuns {
  import opened InternalKeys
  import opened Files
  import opened LsmTree

  /** Every live snapshot and the newest state answer as replaying the writes up to there does. */
  ghost predicate ReadsHistory(st: State) {
    forall user, s: nat {:trigger Answer(st.Stored(), user, s)} ::
      s <= st.LastSequence() && (s in st.snapshots || s == st.LastSequence()) ==>
        Answer(st.Stored(), user, s) == Lookup(Replay(st.history[..s]), user)
  }

  ghost predicate AlwaysReadsHistory(st: State, ls: seq<Label>)
    requires Run(st, ls)
    decreases |ls|
  {
    ReadsHistory(st) && (ls == [] || AlwaysReadsHistory(Apply(st, ls[0]), ls[1..]))
  }

  lemma ExactReadsHistory(st: State)
    requires Inv(st) && Exact(st)
    ensures ReadsHistory(st)
  {
    forall user, s: nat | s <= st.LastSequence() && (s in st.snapshots || s == st.LastSequence())
      ensures Answer(st.Stored(), user, s) == Lookup(Replay(st.history[..s]), user)
    {
      assert st.SmallestSnapshot() <= s;
      AnswerIsReplay(st.history, user, s);
    }
  }

  /** A lost tombstone is not a theoretical loss: the oldest live reader sees the old value. */
  lemma LossIsRead(st: State, level: nat, in0: set<Placed>, in1: set<Placed>, outs: set<Placed>)
    requires Inv(st) && Exact(st) && Compaction(st, level, in0, in1, outs) && BoundaryHides(st, level, in0, in1)
    ensures !ReadsHistory(Install(st, in0, in1, outs))
  {
    LosesAtBoundaryIff(st, level, in0, in1);
    UncoveredIsRead(st, level, in0, in1, outs);
  }

  lemma UncoveredIsRead(st: State, level: nat, in0: set<Placed>, in1: set<Placed>, outs: set<Placed>)
    requires Inv(st) && Exact(st) && Compaction(st, level, in0, in1, outs) && LosesTombstone(st, level, in0, in1)
    ensures !ReadsHistory(Install(st, in0, in1, outs))
  {
    var T, ins, rest := st.SmallestSnapshot(), EntriesOf(in0 + in1), Left(st, in0, in1);
    var after := Install(st, in0, in1, outs);
    StoredSplits(st, in0, in1);
    InstallStores(st, in0, in1, outs);
    assert UniqueSequence(rest + ins) by { StoredIsUnique(st); }
    var user, d :| IsNewest(st.Stored(), user, T, d) && d in ins && Obsolete(st.files, level, T, d) && Answer(rest, user, T).Some?;
    DroppedTombstoneUncovers(st.files, level, T, ins, rest, user, T, d);
    AnswerIsReplay(st.history, user, T);
    assert Answer(after.Stored(), user, T) != Answer(st.Stored(), user, T);
    assert Answer(st.Stored(), user, T) == Lookup(Replay(after.history[..T]), user);
    assert T in after.snapshots || T == after.LastSequence();
  }

  lemma {:induction false} ReadsExactlyIfLossless(st: State, ls: seq<Label>)
    requires Inv(st) && Exact(st) && Run(st, ls)
    ensures AlwaysReadsHistory(st, ls) <==> LosslessRun(st, ls)
    decreases |ls|
  {
    ExactReadsHistory(st);
    if ls != [] {
      var next := Apply(st, ls[0]);
      StepKeepsInv(st, ls[0]);
      if Lossless(st, ls[0]) {
        StepKeepsExact(st, ls[0]);
        ReadsExactlyIfLossless(next, ls[1..]);
      } else {
        LossIsRead(st, ls[0].from, ls[0].in0, ls[0].in1, ls[0].outs);
        assert !ReadsHistory(next);
      }
    }
  }

  /** A run from the empty store reads like its history at every moment, for every live reader,
      if and only if none of its compactions drops a tombstone that hides a value across the
      boundary of two files. */
  lemma RunReadsHistoryIff(ls: seq<Label>)
    requires Run(EMPTY, ls)
    ensures AlwaysReadsHistory(EMPTY, ls) <==> LosslessRun(EMPTY, ls)
  {
    assert EMPTY.Stored() == Entries([]);
    ReadsExactlyIfLossless(EMPTY, ls);
  }

  // ---------- a condition on file ranges alone ----------

  /** No compaction of the run leaves a file on the output level that continues the last user key
      of a chosen one. */
  ghost predicate CleanRun(st: State, ls: seq<Label>)
    requires Run(st, ls)
    decreases |ls|
  {
    ls == [] ||
    ((ls[0].DoCompact? ==> BoundaryClean(st.files, ls[0].from, ls[0].in1)) && CleanRun(Apply(st, ls[0]), ls[1..]))
  }

  lemma {:induction false} CleanIsLossless(st: State, ls: seq<Label>)
    requires Inv(st) && Run(st, ls) && CleanRun(st, ls)
    ensures LosslessRun(st, ls)
    decreases |ls|
  {
    if ls != [] {
      StepKeepsInv(st, ls[0]);
      if ls[0].DoCompact? {
        CleanBoundaryLosesNothing(st, ls[0].from, ls[0].in0, ls[0].in1);
      }
      CleanIsLossless(Apply(st, ls[0]), ls[1..]);
    }
  }

  lemma CleanRunReadsHistory(ls: seq<Label>)
    requires Run(EMPTY, ls) && CleanRun(EMPTY, ls)
    ensures AlwaysReadsHistory(EMPTY, ls)
  {
    assert EMPTY.Stored() == Entries([]);
    CleanIsLossless(EMPTY, ls);
    RunReadsHistoryIff(ls);
  }
}
