/** A concrete store on which the compaction loop, fed with exactly the inputs that
    input selection takes, brings a deleted value back. */
module LostTombstone {
  import opened InternalKeys
  import opened Files
  import opened LsmTree

  const OLD_PUT := Entry(2, 1, Put, [])
  const TOMBSTONE := Entry(2, 2, Deletion, [])
  const OVERWRITTEN := Entry(1, 3, Put, [])
  const NEWEST := Entry(1, 4, Put, [])

  const UPPER_FILE := File(12, 1, KeyOf(NEWEST), KeyOf(NEWEST), [NEWEST])
  const LEFT_FILE := File(10, 1, KeyOf(OVERWRITTEN), KeyOf(TOMBSTONE), [OVERWRITTEN, TOMBSTONE])
  const RIGHT_FILE := File(11, 1, KeyOf(OLD_PUT), KeyOf(OLD_PUT), [OLD_PUT])
  const OUTPUT_FILE := File(13, 1, KeyOf(NEWEST), KeyOf(NEWEST), [NEWEST])

  const UPPER := Placed(2, UPPER_FILE)
  const LEFT_PART := Placed(3, LEFT_FILE)
  const RIGHT_PART := Placed(3, RIGHT_FILE)
  const OUTPUT := Placed(3, OUTPUT_FILE)

  /** Level 3 was cut between the tombstone and the value of key 2, as an earlier
      compaction may do while a snapshot needs both; the snapshot is gone since. */
  const CUT_FILES := {UPPER, LEFT_PART, RIGHT_PART}
  const CUT_HISTORY := [OLD_PUT, TOMBSTONE, OVERWRITTEN, NEWEST]
  const CUT := State({}, None, CUT_FILES, [], CUT_HISTORY)
  const IN0 := {UPPER}
  const IN1 := {LEFT_PART}
  const INS := {NEWEST, OVERWRITTEN, TOMBSTONE}
  const EVERYTHING := {NEWEST, OVERWRITTEN, TOMBSTONE, OLD_PUT}

  lemma Holdings()
    ensures Entries(UPPER_FILE.entries) == {NEWEST} && Entries(LEFT_FILE.entries) == {OVERWRITTEN, TOMBSTONE}
    ensures Entries(RIGHT_FILE.entries) == {OLD_PUT} && Entries(OUTPUT_FILE.entries) == {NEWEST}
    ensures Entries(CUT_HISTORY) == EVERYTHING
  {
    assert LEFT_FILE.entries[0] == OVERWRITTEN && LEFT_FILE.entries[1] == TOMBSTONE;
    assert CUT_HISTORY[0] == OLD_PUT && CUT_HISTORY[1] == TOMBSTONE && CUT_HISTORY[2] == OVERWRITTEN && CUT_HISTORY[3] == NEWEST;
  }

  lemma StoredEntries()
    ensures EntriesOf(IN0 + IN1) == INS && EntriesOf({OUTPUT}) == {NEWEST}
    ensures EntriesOf(CUT_FILES - IN0 - IN1) == {OLD_PUT} && EntriesOf(CUT_FILES) == EVERYTHING
  {
    hide EntriesOf, Entries;
    Holdings();
    EntriesOfOne(UPPER);
    EntriesOfOne(LEFT_PART);
    EntriesOfOne(RIGHT_PART);
    EntriesOfOne(OUTPUT);
    SplitEntries(IN0, IN1);
    assert CUT_FILES - IN0 - IN1 == {RIGHT_PART};
    assert CUT_FILES == (IN0 + IN1) + {RIGHT_PART};
    SplitEntries(IN0 + IN1, {RIGHT_PART});
  }

  lemma FilesOk()
    ensures FileOk(UPPER_FILE) && FileOk(LEFT_FILE) && FileOk(RIGHT_FILE) && FileOk(OUTPUT_FILE)
  {
  }

  lemma UpperIsNewer()
    ensures Newer(UPPER_FILE, LEFT_FILE) && Newer(UPPER_FILE, RIGHT_FILE)
  {
  }

  lemma CutVersionOk()
    ensures VersionOk(CUT_FILES)
  {
    hide FileOk, Newer;
    FilesOk();
    UpperIsNewer();
  }

  lemma CutSelected()
    ensures Selected(CUT_FILES, 2, IN0, IN1)
  {
    assert CUT_FILES - IN0 == {LEFT_PART, RIGHT_PART};
    assert CUT_FILES - IN1 == {UPPER, RIGHT_PART};
    assert RightOf(RIGHT_FILE, IN0, IN1);
  }

  lemma CutInv()
    ensures Inv(CUT) && Exact(CUT) && CUT.Stored() == EVERYTHING && Left(CUT, IN0, IN1) == {OLD_PUT}
  {
    hide VersionOk, EntriesOf, Entries;
    CutVersionOk();
    Holdings();
    StoredEntries();
  }

  lemma CutKept()
    ensures Kept(CUT_FILES, 2, 4, INS) == {NEWEST}
    ensures Obsolete(CUT_FILES, 2, 4, TOMBSTONE)
  {
    assert Hidden(INS, 4, OVERWRITTEN);
    assert IsBaseLevel(CUT_FILES, 2, 2);
  }

  lemma CutRewritten()
    ensures Rewritten({OUTPUT}, 2, {NEWEST}, CUT_FILES)
  {
    hide EntriesOf, FileOk;
    FilesOk();
    StoredEntries();
  }

  /** The inputs are the ones input selection takes, every invariant holds and every
      read is exact before the compaction; after it key 2 has its deleted value back. */
  lemma TombstoneCanBeLost()
    ensures Inv(CUT) && Exact(CUT) && CUT.SmallestSnapshot() == 4
    ensures Compaction(CUT, 2, IN0, IN1, {OUTPUT}) && LosesTombstone(CUT, 2, IN0, IN1) && BoundaryHides(CUT, 2, IN0, IN1)
    ensures Answer(CUT.Stored(), 2, 4) == None
    ensures Answer(Install(CUT, IN0, IN1, {OUTPUT}).Stored(), 2, 4) == Some([])
  {
    hide Inv, Exact, Kept, Obsolete, Selected, Rewritten, EntriesOf, Install, Left, Answer;
    CutInv();
    CutKept();
    CutSelected();
    CutRewritten();
    StoredEntries();
    assert IsNewest(EVERYTHING, 2, 4, TOMBSTONE);
    AnswerOfNewest(EVERYTHING, 2, 4, TOMBSTONE);
    AnswerOfNewest({OLD_PUT}, 2, 4, OLD_PUT);
    InstallStores(CUT, IN0, IN1, {OUTPUT});
    AnswerOfNewest({OLD_PUT} + {NEWEST}, 2, 4, OLD_PUT);
    LosesAtBoundaryIff(CUT, 2, IN0, IN1);
  }
}
