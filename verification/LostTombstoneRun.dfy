/** The store of LostTombstone is not an arbitrary one: a run of ten steps leads to it from the
    empty store, flushing where PickLevelForMemTableOutput puts a file that meets no other, and
    one more compaction brings the deleted value back. */
module LostTombstoneRun {
  import opened InternalKeys
  import opened Files
  import opened LsmTree
  import opened LostTombstone

  const FLUSHED_FILE := File(9, 1, KeyOf(OVERWRITTEN), KeyOf(OLD_PUT), [OVERWRITTEN, TOMBSTONE, OLD_PUT])
  const FLUSHED := Placed(2, FLUSHED_FILE)
  const THREE := {OVERWRITTEN, TOMBSTONE, OLD_PUT}
  const THREE_WRITES := [OLD_PUT, TOMBSTONE, OVERWRITTEN]

  const PUT_TWO := DoWrite([Op(2, Put, [])])
  const DELETE_TWO := DoWrite([Op(2, Deletion, []), Op(1, Put, [])])
  const FLUSH_THREE := DoFlush(2, FLUSHED_FILE)
  /** A range compacted by hand, as a lone file is otherwise moved. While the snapshot needs both,
      the deletion and the value it hides are kept, and the output is cut between them. */
  const CUT_IN_TWO := DoCompact(2, {FLUSHED}, {}, {LEFT_PART, RIGHT_PART})
  const PUT_ONE := DoWrite([Op(1, Put, [])])
  const FLUSH_NEWEST := DoFlush(2, UPPER_FILE)
  const LOSS := DoCompact(2, IN0, IN1, {OUTPUT})

  const AFTER_PUT := State({OLD_PUT}, None, {}, [], [OLD_PUT])
  const HELD := State({OLD_PUT}, None, {}, [1], [OLD_PUT])
  const DELETED := State(THREE, None, {}, [1], THREE_WRITES)
  const SWITCHED := State({}, Some(THREE), {}, [1], THREE_WRITES)
  const ON_LEVEL2 := State({}, None, {FLUSHED}, [1], THREE_WRITES)
  const ON_LEVEL3 := State({}, None, {LEFT_PART, RIGHT_PART}, [1], THREE_WRITES)
  const RELEASED := State({}, None, {LEFT_PART, RIGHT_PART}, [], THREE_WRITES)
  const REWROTE := State({NEWEST}, None, {LEFT_PART, RIGHT_PART}, [], CUT_HISTORY)
  const WAITING := State({}, Some({NEWEST}), {LEFT_PART, RIGHT_PART}, [], CUT_HISTORY)

  lemma Writes()
    ensures Enabled(EMPTY, PUT_TWO) && Apply(EMPTY, PUT_TWO) == AFTER_PUT
    ensures Enabled(HELD, DELETE_TWO) && Apply(HELD, DELETE_TWO) == DELETED
    ensures Enabled(RELEASED, PUT_ONE) && Apply(RELEASED, PUT_ONE) == REWROTE
  {
    WriteIs(EMPTY, PUT_TWO.ops, [OLD_PUT]);
    WriteIs(HELD, DELETE_TWO.ops, [TOMBSTONE, OVERWRITTEN]);
    WriteIs(RELEASED, PUT_ONE.ops, [NEWEST]);
    assert [OLD_PUT] + [TOMBSTONE, OVERWRITTEN] == THREE_WRITES && THREE_WRITES + [NEWEST] == CUT_HISTORY;
    assert Entries([OLD_PUT]) == {OLD_PUT} && Entries([NEWEST]) == {NEWEST};
    assert Entries([TOMBSTONE, OVERWRITTEN]) == {TOMBSTONE, OVERWRITTEN} by {
      assert [TOMBSTONE, OVERWRITTEN][0] == TOMBSTONE && [TOMBSTONE, OVERWRITTEN][1] == OVERWRITTEN;
    }
    hide Entries;
  }

  lemma WriteIs(st: State, ops: seq<Op>, es: seq<Entry>)
    requires |es| == |ops|
    requires forall i :: 0 <= i < |ops| ==> es[i] == Entry(ops[i].user, st.LastSequence() + 1 + i, ops[i].kind, ops[i].value)
    ensures Write(st, ops) == st.(mem := st.mem + Entries(es), history := st.history + es)
  {
    assert NumberOps(ops, st.LastSequence() + 1) == es;
  }

  lemma Flushes()
    ensures Enabled(SWITCHED, FLUSH_THREE) && Apply(SWITCHED, FLUSH_THREE) == ON_LEVEL2
    ensures Enabled(WAITING, FLUSH_NEWEST) && Apply(WAITING, FLUSH_NEWEST) == CUT
  {
    assert FLUSHED_FILE.entries[0] == OVERWRITTEN && FLUSHED_FILE.entries[1] == TOMBSTONE && FLUSHED_FILE.entries[2] == OLD_PUT;
    assert Entries(FLUSHED_FILE.entries) == THREE;
    Holdings();
    FilesOk();
    assert FileOk(FLUSHED_FILE);
    assert {LEFT_PART, RIGHT_PART} + {UPPER} == CUT_FILES;
    hide Entries, FileOk;
  }

  lemma FlushedEntries()
    ensures Entries(FLUSHED_FILE.entries) == THREE && EntriesOf({FLUSHED}) == THREE
    ensures EntriesOf({LEFT_PART, RIGHT_PART}) == THREE
  {
    assert FLUSHED_FILE.entries[0] == OVERWRITTEN && FLUSHED_FILE.entries[1] == TOMBSTONE && FLUSHED_FILE.entries[2] == OLD_PUT;
    assert Entries(FLUSHED_FILE.entries) == THREE;
    Holdings();
    EntriesOfOne(FLUSHED);
    EntriesOfOne(LEFT_PART);
    EntriesOfOne(RIGHT_PART);
    SplitEntries({LEFT_PART}, {RIGHT_PART});
    assert {LEFT_PART} + {RIGHT_PART} == {LEFT_PART, RIGHT_PART};
    hide Entries, EntriesOf;
  }

  lemma CutsInTwo()
    ensures Enabled(ON_LEVEL2, CUT_IN_TWO) && Apply(ON_LEVEL2, CUT_IN_TWO) == ON_LEVEL3
  {
    FlushedEntries();
    assert {FLUSHED} + {} == {FLUSHED};
    assert Kept({FLUSHED}, 2, 1, THREE) == THREE;
    FilesOk();
    assert Apart(LEFT_FILE, RIGHT_FILE);
    assert {FLUSHED} - {FLUSHED} - {} + {LEFT_PART, RIGHT_PART} == {LEFT_PART, RIGHT_PART};
    hide Entries, EntriesOf, FileOk, Kept;
  }

  lemma Others()
    ensures Enabled(AFTER_PUT, DoSnapshot) && Apply(AFTER_PUT, DoSnapshot) == HELD
    ensures Enabled(DELETED, DoSwitch) && Apply(DELETED, DoSwitch) == SWITCHED
    ensures Enabled(ON_LEVEL3, DoRelease(0)) && Apply(ON_LEVEL3, DoRelease(0)) == RELEASED
    ensures Enabled(REWROTE, DoSwitch) && Apply(REWROTE, DoSwitch) == WAITING
  {
  }

  lemma Then(st: State, l: Label, ls: seq<Label>)
    requires Enabled(st, l) && Run(Apply(st, l), ls)
    ensures Run(st, [l] + ls) && After(st, [l] + ls) == After(Apply(st, l), ls)
  {
    assert ([l] + ls)[0] == l && ([l] + ls)[1..] == ls;
  }

  /** From the empty store to the one with the cut. */
  lemma CutIsReached() returns (ls: seq<Label>)
    ensures Run(EMPTY, ls) && After(EMPTY, ls) == CUT
  {
    Writes();
    Flushes();
    CutsInTwo();
    Others();
    hide Enabled, Apply;
    ls := [];
    Then(WAITING, FLUSH_NEWEST, ls); ls := [FLUSH_NEWEST] + ls;
    Then(REWROTE, DoSwitch, ls); ls := [DoSwitch] + ls;
    Then(RELEASED, PUT_ONE, ls); ls := [PUT_ONE] + ls;
    Then(ON_LEVEL3, DoRelease(0), ls); ls := [DoRelease(0)] + ls;
    Then(ON_LEVEL2, CUT_IN_TWO, ls); ls := [CUT_IN_TWO] + ls;
    Then(SWITCHED, FLUSH_THREE, ls); ls := [FLUSH_THREE] + ls;
    Then(DELETED, DoSwitch, ls); ls := [DoSwitch] + ls;
    Then(HELD, DELETE_TWO, ls); ls := [DELETE_TWO] + ls;
    Then(AFTER_PUT, DoSnapshot, ls); ls := [DoSnapshot] + ls;
    Then(EMPTY, PUT_TWO, ls); ls := [PUT_TWO] + ls;
  }

  lemma {:induction false} Append(st: State, ls: seq<Label>, l: Label)
    requires Run(st, ls) && Enabled(After(st, ls), l)
    ensures Run(st, ls + [l]) && After(st, ls + [l]) == Apply(After(st, ls), l)
    decreases |ls|
  {
    if ls == [] {
      assert ls + [l] == [l];
    } else {
      assert (ls + [l])[0] == ls[0] && (ls + [l])[1..] == ls[1..] + [l];
      Append(Apply(st, ls[0]), ls[1..], l);
    }
  }

  /** Key 2 was written once and deleted afterwards; after this run reading it finds the value. */
  lemma DeletedKeyComesBack() returns (ls: seq<Label>)
    ensures Run(EMPTY, ls) && After(EMPTY, ls).history == CUT_HISTORY
    ensures Lookup(Replay(CUT_HISTORY), 2) == None
    ensures Answer(After(EMPTY, ls).Stored(), 2, After(EMPTY, ls).LastSequence()) == Some([])
  {
    var before := CutIsReached();
    TombstoneCanBeLost();
    hide Compaction, Answer, LosesTombstone;
    Append(EMPTY, before, LOSS);
    ls := before + [LOSS];
    AnswerIsReplay(CUT_HISTORY, 2, 4);
    assert CUT_HISTORY[..4] == CUT_HISTORY;
    Holdings();
    assert CUT.Stored() == Entries(CUT_HISTORY) by { CutInv(); }
  }
}
