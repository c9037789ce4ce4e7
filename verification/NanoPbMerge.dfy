/** pb_decode_noinit: decoding into a struct that already holds a message updates just the fields
    that are in the new one. */
module NanoPbMerge {
  import opened InternalKeys
  import opened Coding
  import opened NanoPbFormat
  import opened NanoPbDecoding
  import opened NanoPbRoundTrip
  import opened NanoPbNormal

  // ---------- what the struct holds afterwards ----------

  /** Field i of the new message is on the wire. */
  predicate Sent(fs: seq<Field>, slots: seq<Slot>, i: nat)
    requires StructOk(fs, slots) && i < |fs|
  {
    EncSlot(fs, i, slots[i]) != []
  }

  /** A member of the same oneof as field j, among the first n fields, is set in the new message. */
  predicate Replaced(fs: seq<Field>, slots: seq<Slot>, j: nat, n: nat)
    requires |slots| == |fs| && j < |fs| && n <= |fs|
  {
    fs[j].rule.OneOf? && exists i: nat :: i < n && i != j && fs[i].rule == fs[j].rule && IsSet(slots[i])
  }

  /** A nested message is merged, anything else replaced. */
  function MergeVal(k: FieldType, was: Val, v: Val): Val
    requires KindOk(k) && ValOk(k, was) && ValOk(k, v)
    decreases KindDepth(k), 0
  {
    match k
    case Message(sub) => Struct(Merge(sub, was.slots, v.slots))
    case _ => v
  }

  /** Field i after the first n fields of the new message. */
  function MergeSlot(fs: seq<Field>, cur: seq<Slot>, slots: seq<Slot>, i: nat, n: nat): Slot
    requires FieldsOk(fs) && StructOk(fs, cur) && StructOk(fs, slots) && i < |fs| && n <= |fs|
    decreases Depth(fs), 1
  {
    DeeperThanFields(fs, i);
    FieldFits(fs, i);
    DefaultValOk(fs[i]);
    SlotFits(fs, cur, i);
    SlotFits(fs, slots, i);
    var f, c, s := fs[i], cur[i], slots[i];
    if i < n && Sent(fs, slots, i) then
      match f.rule
      case Required => Single(MergeVal(f.kind, c.v, s.v))
      case Implicit => Single(MergeVal(f.kind, c.v, s.v))
      case Optional => Maybe(true, MergeVal(f.kind, c.v, s.v))
      case OneOf(_) => Maybe(true, MergeVal(f.kind, if c.has then c.v else DefaultOf(f), s.v))
      case Repeated(_) => Many(c.items + NormalItems(f.kind, s.items))
      case FixedCount(_) => Many(NormalItems(f.kind, s.items))
    else if Replaced(fs, slots, i, n) then DefaultSlot(f)
    else c
  }

  function MergeUpTo(fs: seq<Field>, cur: seq<Slot>, slots: seq<Slot>, n: nat): (r: seq<Slot>)
    requires FieldsOk(fs) && StructOk(fs, cur) && StructOk(fs, slots) && n <= |fs|
    ensures |r| == |fs|
    decreases Depth(fs), 2
  {
    seq(|fs|, i requires 0 <= i < |fs| => MergeSlot(fs, cur, slots, i, n))
  }

  function Merge(fs: seq<Field>, cur: seq<Slot>, slots: seq<Slot>): (r: seq<Slot>)
    requires FieldsOk(fs) && StructOk(fs, cur) && StructOk(fs, slots)
    ensures |r| == |fs|
    decreases Depth(fs), 3
  {
    MergeUpTo(fs, cur, slots, |fs|)
  }

  /** Arrays have room for the items there are and the new ones, also in nested messages. */
  predicate RoomForVal(k: FieldType, was: Val, v: Val)
    requires KindOk(k) && ValOk(k, was) && ValOk(k, v)
    decreases KindDepth(k), 0
  {
    match k
    case Message(sub) => RoomFor(sub, was.slots, v.slots)
    case _ => true
  }

  predicate RoomForSlot(fs: seq<Field>, cur: seq<Slot>, slots: seq<Slot>, i: nat)
    requires FieldsOk(fs) && StructOk(fs, cur) && StructOk(fs, slots) && i < |fs|
    decreases Depth(fs), 1
  {
    DeeperThanFields(fs, i);
    FieldFits(fs, i);
    DefaultValOk(fs[i]);
    SlotFits(fs, cur, i);
    SlotFits(fs, slots, i);
    var f, c, s := fs[i], cur[i], slots[i];
    match f.rule
    case Required => RoomForVal(f.kind, c.v, s.v)
    case Implicit => Sent(fs, slots, i) ==> RoomForVal(f.kind, c.v, s.v)
    case Optional => s.has ==> RoomForVal(f.kind, c.v, s.v)
    case OneOf(_) => s.has ==> RoomForVal(f.kind, if c.has then c.v else DefaultOf(f), s.v)
    case Repeated(max) => |c.items| + |s.items| <= max
    case FixedCount(_) => true
  }

  predicate RoomFor(fs: seq<Field>, cur: seq<Slot>, slots: seq<Slot>)
    requires FieldsOk(fs) && StructOk(fs, cur) && StructOk(fs, slots)
    decreases Depth(fs), 2
  {
    forall i: nat :: i < |fs| ==> RoomForSlot(fs, cur, slots, i)
  }

  // ---------- one field after the other ----------

  /** The state after the first n fields. */
  function MergeState(fs: seq<Field>, cur: seq<Slot>, slots: seq<Slot>, n: nat): (st: DState)
    requires FieldsOk(fs) && StructOk(fs, cur) && StructOk(fs, slots) && n <= |fs|
    ensures |st.slots| == |fs|
  {
    StateAt(fs, slots, {}, n).(slots := MergeUpTo(fs, cur, slots, n))
  }

  lemma {:induction false} ValMerges(k: FieldType, v: Val, was: Val, rest: Data)
    requires KindOk(k) && ValOk(k, v) && ValOk(k, was) && RoomForVal(k, was, v) && |EncVal(k, v)| < LIMIT32
    ensures DecVal(k, was, false, EncVal(k, v) + rest) == Some((MergeVal(k, was, v), rest))
    decreases KindDepth(k), 0, 0
  {
    if k.Message? {
      var body := Encode(k.fields, v.slots);
      PrefixedReadsBack(body, rest);
      OldSize(k.fields, was.slots);
      StructMerges(k.fields, was.slots, v.slots);
      hide Encode, DecStruct, Defaults, Merge, Prefixed, Substream, FieldsOk, StructOk, RoomFor;
    } else {
      ScalarReadsBack(k, v, was, false, rest);
    }
  }

  lemma {:induction false} OldSize(fs: seq<Field>, slots: seq<Slot>)
    requires StructOk(fs, slots)
    ensures |slots| == |fs|
  {
  }

  /** A field that is not sent changes nothing. */
  lemma {:induction false} NotSentStep(fs: seq<Field>, cur: seq<Slot>, slots: seq<Slot>, i: nat)
    requires FieldsOk(fs) && StructOk(fs, cur) && StructOk(fs, slots) && i < |fs| && !Sent(fs, slots, i)
    ensures MergeState(fs, cur, slots, i + 1) == MergeState(fs, cur, slots, i)
  {
    hide *;
    EncFromStep(fs, slots, i);
    SentIs(fs, slots, i);
    AbsentStep(fs, slots, {}, i);
    NotSet(fs, i, slots[i]);
    NotSentSlots(fs, cur, slots, i);
    MergeStateIs(fs, cur, slots, i);
    MergeStateIs(fs, cur, slots, i + 1);
  }

  lemma {:induction false} MergeStateIs(fs: seq<Field>, cur: seq<Slot>, slots: seq<Slot>, n: nat)
    requires FieldsOk(fs) && StructOk(fs, cur) && StructOk(fs, slots) && n <= |fs|
    ensures MergeState(fs, cur, slots, n) == StateAt(fs, slots, {}, n).(slots := MergeUpTo(fs, cur, slots, n))
  {
    hide FieldsOk, StructOk, StateAt, MergeUpTo;
  }

  lemma {:induction false} NotSentSlots(fs: seq<Field>, cur: seq<Slot>, slots: seq<Slot>, i: nat)
    requires FieldsOk(fs) && StructOk(fs, cur) && StructOk(fs, slots) && i < |fs| == |slots| && !Sent(fs, slots, i)
    requires fs[i].rule.OneOf? ==> !IsSet(slots[i])
    ensures MergeUpTo(fs, cur, slots, i + 1) == MergeUpTo(fs, cur, slots, i)
  {
    hide EncSlot, SlotOk, FieldsOk, StructOk, Sent;
    forall j: nat | j < |fs| ensures MergeSlot(fs, cur, slots, j, i + 1) == MergeSlot(fs, cur, slots, j, i) {
      NotSentSlot(fs, cur, slots, i, j);
    }
  }

  lemma {:induction false} NotSentSlot(fs: seq<Field>, cur: seq<Slot>, slots: seq<Slot>, i: nat, j: nat)
    requires FieldsOk(fs) && StructOk(fs, cur) && StructOk(fs, slots) && i < |fs| == |slots| && j < |fs| && !Sent(fs, slots, i)
    requires fs[i].rule.OneOf? ==> !IsSet(slots[i])
    ensures MergeSlot(fs, cur, slots, j, i + 1) == MergeSlot(fs, cur, slots, j, i)
  {
    assert Replaced(fs, slots, j, i + 1) == Replaced(fs, slots, j, i);
    hide EncSlot, SlotOk, FieldsOk, StructOk, Sent, MergeVal, DefaultOf, DefaultSlot, NormalItems, Replaced;
  }

  lemma {:induction false} NotSet(fs: seq<Field>, i: nat, s: Slot)
    requires i < |fs| && SlotOk(fs, i, s) && EncSlot(fs, i, s) == []
    ensures fs[i].rule.OneOf? ==> !IsSet(s)
  {
    NothingWritten(fs, i, s);
    hide EncVal, ValOk, EncArray;
  }

  /** What was there is still there when field i comes, but for a oneof. */
  lemma {:induction false} StillThere(fs: seq<Field>, cur: seq<Slot>, slots: seq<Slot>, i: nat)
    requires FieldsOk(fs) && StructOk(fs, cur) && StructOk(fs, slots) && i < |fs|
    ensures !Replaced(fs, slots, i, i) ==> MergeUpTo(fs, cur, slots, i)[i] == cur[i]
    ensures IsSet(slots[i]) ==> !Replaced(fs, slots, i, |fs|)
    ensures fs[i].rule.OneOf? || !Replaced(fs, slots, i, i)
  {
    if IsSet(slots[i]) && fs[i].rule.OneOf? {
      forall j: nat | j < |fs| && j != i && fs[j].rule == fs[i].rule ensures !IsSet(slots[j]) {
        assert OneOfOk(fs, slots, if i < j then i else j, if i < j then j else i);
      }
    }
    hide SlotOk, FieldsOk;
  }

  /** A field that holds one value takes its place. */
  lemma {:induction false} OneMergeStep(fs: seq<Field>, cur: seq<Slot>, slots: seq<Slot>, i: nat, v: Val, was: Val)
    requires FieldsOk(fs) && StructOk(fs, cur) && StructOk(fs, slots) && i < |fs| && Sent(fs, slots, i)
    requires !fs[i].rule.Repeated? && !fs[i].rule.FixedCount? && KindOk(fs[i].kind) && ValOk(fs[i].kind, v) && ValOk(fs[i].kind, was)
    requires SlotOk(fs, i, slots[i]) && slots[i].v == v && was == StartVal(fs[i], cur[i]) && !cur[i].Many?
    requires fs[i].rule.OneOf? || fs[i].rule.Optional? ==> slots[i].has
    ensures var st, f := MergeState(fs, cur, slots, i), fs[i];
            st.(slots := StoreVal(fs, st.slots, i, MergeVal(f.kind, was, v)), seen := st.seen + (if f.rule.Required? then {i} else {}))
            == MergeState(fs, cur, slots, i + 1)
  {
    DeeperThanFields(fs, i);
    var st, f := MergeState(fs, cur, slots, i), fs[i];
    var after := StoreVal(fs, st.slots, i, MergeVal(f.kind, was, v));
    SlotFits(fs, cur, i);
    StillThere(fs, cur, slots, i);
    OneValueState(fs, slots, i, v);
    hide EncSlot, StructOk, FieldsOk, MergeVal, DefaultSlot, NormalItems, ValOk, KindOk, StateAt;
    forall j: nat | j < |fs| ensures after[j] == MergeUpTo(fs, cur, slots, i + 1)[j] {
      if j != i {
        OtherMerged(fs, cur, slots, i, j);
      }
    }
    assert after == MergeUpTo(fs, cur, slots, i + 1);
  }

  /** The required fields seen, and the fixed-count array being filled, are as in any decoding. */
  lemma {:induction false} OneValueState(fs: seq<Field>, slots: seq<Slot>, i: nat, v: Val)
    requires StructOk(fs, slots) && i < |fs| && ValOk(fs[i].kind, v) && SlotOk(fs, i, slots[i]) && !slots[i].Many? && slots[i].v == v
    requires !fs[i].rule.Repeated? && !fs[i].rule.FixedCount?
    requires fs[i].rule.OneOf? || fs[i].rule.Optional? ==> slots[i].has
    ensures StateAt(fs, slots, {}, i + 1).seen == StateAt(fs, slots, {}, i).seen + (if fs[i].rule.Required? then {i} else {})
    ensures StateAt(fs, slots, {}, i + 1).fixed == StateAt(fs, slots, {}, i).fixed
    ensures StateAt(fs, slots, {}, i + 1).fixedSize == StateAt(fs, slots, {}, i).fixedSize
  {
    hide StructOk, SlotOk, ValOk, SlotsUpTo;
  }

  /** What becomes of field j when field i is stored. */
  lemma {:induction false} OtherMerged(fs: seq<Field>, cur: seq<Slot>, slots: seq<Slot>, i: nat, j: nat)
    requires FieldsOk(fs) && StructOk(fs, cur) && StructOk(fs, slots) && i < |fs| && j < |fs| && i != j
    requires Sent(fs, slots, i) && (fs[i].rule.OneOf? ==> IsSet(slots[i]))
    ensures MergeSlot(fs, cur, slots, j, i + 1) ==
            if fs[i].rule.OneOf? && fs[j].rule == fs[i].rule then DefaultSlot(fs[j]) else MergeSlot(fs, cur, slots, j, i)
  {
    if fs[i].rule.OneOf? && fs[j].rule == fs[i].rule {
      assert Replaced(fs, slots, j, i + 1);
      assert OneOfOk(fs, slots, if i < j then i else j, if i < j then j else i);
      SlotFits(fs, slots, i);
      SlotFits(fs, slots, j);
      UnsetIsNotSent(fs, slots, j);
    } else {
      assert Replaced(fs, slots, j, i + 1) == Replaced(fs, slots, j, i);
    }
    hide StructOk, FieldsOk, SlotOk, EncSlot, MergeVal, NormalItems, DefaultSlot;
  }

  lemma {:induction false} UnsetIsNotSent(fs: seq<Field>, slots: seq<Slot>, j: nat)
    requires StructOk(fs, slots) && j < |fs| && SlotOk(fs, j, slots[j]) && fs[j].rule.OneOf? && !IsSet(slots[j])
    ensures !Sent(fs, slots, j)
  {
    hide StructOk, EncVal;
  }

  // ---------- arrays ----------

  /** Repeated fields grow, arrays of fixed length are written over, item by item. */
  function MergedItems(rule: Rule, c: seq<Val>, all: seq<Val>, k: nat): seq<Val>
    requires k <= |all| && (!rule.Repeated? ==> |c| == |all|)
  {
    if rule.Repeated? then c + all[..k] else all[..k] + c[k..]
  }

  function Base(rule: Rule, c: seq<Val>): nat {
    if rule.Repeated? then |c| else 0
  }

  lemma {:induction false} PutMerged(rule: Rule, c: seq<Val>, all: seq<Val>, k: nat)
    requires k < |all| && (!rule.Repeated? ==> |c| == |all|)
    ensures PutItem(MergedItems(rule, c, all, k), Base(rule, c) + k, all[k]) == MergedItems(rule, c, all, k + 1)
  {
    assert all[..k + 1] == all[..k] + [all[k]];
  }

  /** The array of the struct and the new items, as the rule of the field has them. */
  ghost predicate ArrayFits(f: Field, c: seq<Val>, items: seq<Val>) {
    && KindOk(f.kind) && AllOk(f.kind, items)
    && (f.rule.Repeated? || f.rule.FixedCount?)
    && (f.rule.Repeated? ==> |c| + |items| <= f.rule.max)
    && (f.rule.FixedCount? ==> |c| == |items| == f.rule.n)
  }

  lemma {:induction false} PackedMerges(f: Field, c: seq<Val>, items: seq<Val>, k: nat)
    requires ArrayFits(f, c, items) && Packable(f.kind) && k <= |items|
    ensures DecPacked(f.kind, MergedItems(f.rule, c, NormalItems(f.kind, items), k), Base(f.rule, c) + k, RoomOf(f), EncPacked(f.kind, items[k..]))
         == Some(Filled(MergedItems(f.rule, c, NormalItems(f.kind, items), |items|), Base(f.rule, c) + |items|))
    decreases |items| - k
  {
    if k < |items| {
      var all, rest := NormalItems(f.kind, items), EncPacked(f.kind, items[k + 1..]);
      assert items[k..][1..] == items[k + 1..] && items[k..][0] == items[k] && ValOk(f.kind, items[k]);
      ScalarReadsBack(f.kind, items[k], ZeroVal(f.kind), true, rest);
      PutMerged(f.rule, c, all, k);
      PackedMerges(f, c, items, k + 1);
      NotEmpty(f.kind, items[k]);
      hide DecVal, EncVal, MergedItems, PutItem, ValOk, KindOk;
    }
  }

  /** The state when k items of the array of field i have been decoded. */
  function ArrayMergeState(fs: seq<Field>, st: DState, i: nat, c: seq<Val>, all: seq<Val>, k: nat): (r: DState)
    requires i < |fs| == |st.slots| && k <= |all| && (!fs[i].rule.Repeated? ==> |c| == |all|)
    ensures |r.slots| == |fs|
  {
    var filled := st.(slots := st.slots[i := Many(MergedItems(fs[i].rule, c, all, k))]);
    if fs[i].rule.FixedCount? && k > 0 then filled.(fixed := Some(i), fixedSize := k) else filled
  }

  lemma {:induction false} ArrayMergeField(fs: seq<Field>, st: DState, i: nat, c: seq<Val>, items: seq<Val>, k: nat, to: nat,
                                           wireType: nat, input: Data, rest: Data)
    requires FieldsOk(fs) && i < |fs| == |st.slots| && ArrayFits(fs[i], c, items) && k < to <= |items|
    requires fs[i].rule.FixedCount? ==> st.fixed != Some(i) && FixedDone(fs, st)
    requires var all := NormalItems(fs[i].kind, items);
             DecArray(fs[i].kind, MergedItems(fs[i].rule, c, all, k), Base(fs[i].rule, c) + k, RoomOf(fs[i]), wireType, input)
             == Some((Filled(MergedItems(fs[i].rule, c, all, to), Base(fs[i].rule, c) + to), rest))
    ensures var all := NormalItems(fs[i].kind, items);
            DecField(fs, ArrayMergeState(fs, st, i, c, all, k), i, wireType, input)
            == Some((ArrayMergeState(fs, st, i, c, all, to), rest))
  {
    var all := NormalItems(fs[i].kind, items);
    var before := ArrayMergeState(fs, st, i, c, all, k);
    var x, y := MergedItems(fs[i].rule, c, all, k), MergedItems(fs[i].rule, c, all, to);
    assert before.slots[i] == Many(x);
    assert before.slots[i := Many(y)] == st.slots[i := Many(y)];
    assert |x| == |c| + (if fs[i].rule.Repeated? then k else 0);
    hide DecArray, MergedItems, FieldsOk, NormalItems, AllOk;
  }

  lemma {:induction false} EachMerges(fs: seq<Field>, st: DState, i: nat, c: seq<Val>, items: seq<Val>, k: nat, rest: Data)
    requires FieldsOk(fs) && i < |fs| == |st.slots| && ArrayFits(fs[i], c, items) && k <= |items| && !Packable(fs[i].kind)
    requires fs[i].rule.FixedCount? ==> st.fixed != Some(i) && FixedDone(fs, st)
    requires |EncEach(fs[i].tag, fs[i].kind, items[k..])| < LIMIT32
    ensures var all := NormalItems(fs[i].kind, items);
            Agree(fs, ArrayMergeState(fs, st, i, c, all, k), EncEach(fs[i].tag, fs[i].kind, items[k..]) + rest,
                  ArrayMergeState(fs, st, i, c, all, |items|), rest)
    decreases |items| - k
  {
    var f, all := fs[i], NormalItems(fs[i].kind, items);
    if k < |items| {
      assert items[k..][1..] == items[k + 1..] && items[k..][0] == items[k] && ValOk(f.kind, items[k]);
      var v, tail, wt := items[k], EncEach(f.tag, f.kind, items[k + 1..]) + rest, WireType(f.kind);
      EachParts(TagBytes(f.tag, wt), EncVal(f.kind, v), EncEach(f.tag, f.kind, items[k + 1..]), rest);
      ValReadsBack(f.kind, v, ZeroVal(f.kind), true, tail);
      PutMerged(f.rule, c, all, k);
      hide DecLoop, DecVal, EncVal, TagBytes, MergedItems, PutItem, ValOk, KindOk, FieldsOk, NormalVal, DecField;
      ArrayMergeField(fs, st, i, c, items, k, k + 1, wt, EncVal(f.kind, v) + tail, tail);
      TagLeadsToField(fs, ArrayMergeState(fs, st, i, c, all, k), i, wt, EncVal(f.kind, v) + tail);
      EachMerges(fs, st, i, c, items, k + 1, rest);
    } else {
      assert items[k..] == [] && [] + rest == rest;
    }
  }

  lemma {:induction false} ArrayMerges(fs: seq<Field>, st: DState, i: nat, c: seq<Val>, items: seq<Val>, rest: Data)
    requires FieldsOk(fs) && i < |fs| == |st.slots| && ArrayFits(fs[i], c, items) && items != []
    requires fs[i].rule.FixedCount? ==> st.fixed != Some(i) && FixedDone(fs, st)
    requires |EncArray(fs[i].tag, fs[i].kind, items)| < LIMIT32
    ensures var all := NormalItems(fs[i].kind, items);
            Agree(fs, ArrayMergeState(fs, st, i, c, all, 0), EncArray(fs[i].tag, fs[i].kind, items) + rest,
                  ArrayMergeState(fs, st, i, c, all, |items|), rest)
  {
    var f, all := fs[i], NormalItems(fs[i].kind, items);
    assert items[0..] == items;
    if Packable(f.kind) {
      var body := EncPacked(f.kind, items);
      PackedParts(f.tag, body, rest);
      PackedMerges(f, c, items, 0);
      PrefixedReadsBack(body, rest);
      hide DecLoop, EncPacked, DecPacked, TagBytes, Prefixed, Substream, FieldsOk, KindOk, ValOk, MergedItems, DecField;
      ArrayMergeField(fs, st, i, c, items, 0, |items|, 2, Prefixed(body) + rest, rest);
      TagLeadsToField(fs, ArrayMergeState(fs, st, i, c, all, 0), i, 2, Prefixed(body) + rest);
    } else {
      EachMerges(fs, st, i, c, items, 0, rest);
    }
  }

  /** The array of field i is filled between the states before and after it. */
  lemma {:induction false} ArrayMergeStep(fs: seq<Field>, cur: seq<Slot>, slots: seq<Slot>, i: nat)
    requires FieldsOk(fs) && StructOk(fs, cur) && StructOk(fs, slots) && i < |fs| && Sent(fs, slots, i)
    requires SlotOk(fs, i, slots[i]) && SlotOk(fs, i, cur[i]) && slots[i].Many? && cur[i].Many? && slots[i].items != []
    requires fs[i].rule.Repeated? || fs[i].rule.FixedCount?
    ensures (forall v :: v in slots[i].items ==> ValOk(fs[i].kind, v)) && (fs[i].rule.FixedCount? ==> |cur[i].items| == |slots[i].items|)
    ensures var st, all := MergeState(fs, cur, slots, i), NormalItems(fs[i].kind, slots[i].items);
            && ArrayMergeState(fs, st, i, cur[i].items, all, 0) == st
            && ArrayMergeState(fs, st, i, cur[i].items, all, |all|) == MergeState(fs, cur, slots, i + 1)
            && (fs[i].rule.FixedCount? ==> st.fixed != Some(i) && FixedDone(fs, st))
  {
    DeeperThanFields(fs, i);
    var st, all := MergeState(fs, cur, slots, i), NormalItems(fs[i].kind, slots[i].items);
    var c := cur[i].items;
    MergedWhole(fs[i].rule, c, all);
    ArrayStored(fs, cur, slots, i);
    FixedStep(fs, slots, i);
    hide EncSlot, StructOk, FieldsOk, MergeUpTo, DefaultSlot, NormalItems, ValOk, SlotOk, MergedItems, FixedDone, StateAt, Sent;
    assert st.slots[i] == Many(c) && st.slots[i := Many(c)] == st.slots;
  }

  lemma {:induction false} MergedWhole(rule: Rule, c: seq<Val>, all: seq<Val>)
    requires !rule.Repeated? ==> |c| == |all|
    ensures MergedItems(rule, c, all, 0) == c
    ensures MergedItems(rule, c, all, |all|) == if rule.Repeated? then c + all else all
  {
  }

  /** The slots when the array of field i is in them. */
  lemma {:induction false} ArrayStored(fs: seq<Field>, cur: seq<Slot>, slots: seq<Slot>, i: nat)
    requires FieldsOk(fs) && StructOk(fs, cur) && StructOk(fs, slots) && i < |fs| && |cur| == |slots| == |fs| && Sent(fs, slots, i)
    requires SlotOk(fs, i, slots[i]) && SlotOk(fs, i, cur[i]) && (fs[i].rule.Repeated? || fs[i].rule.FixedCount?)
    ensures MergeUpTo(fs, cur, slots, i)[i] == cur[i]
    ensures MergeUpTo(fs, cur, slots, i)[i := MergeSlot(fs, cur, slots, i, i + 1)] == MergeUpTo(fs, cur, slots, i + 1)
  {
    StillThere(fs, cur, slots, i);
    hide EncSlot, StructOk, FieldsOk, SlotOk, MergeSlot, Sent;
    var before, after := MergeUpTo(fs, cur, slots, i), MergeUpTo(fs, cur, slots, i + 1);
    forall j: nat | j < |fs| && j != i ensures before[j] == after[j] {
      OtherMerged(fs, cur, slots, i, j);
    }
  }

  lemma {:induction false} FixedStep(fs: seq<Field>, slots: seq<Slot>, i: nat)
    requires StructOk(fs, slots) && i < |fs| == |slots| && SlotOk(fs, i, slots[i]) && slots[i].Many? && slots[i].items != []
    requires fs[i].rule.Repeated? || fs[i].rule.FixedCount?
    ensures var a, b := StateAt(fs, slots, {}, i), StateAt(fs, slots, {}, i + 1);
            && b.seen == a.seen && FixedDone(fs, a)
            && (fs[i].rule.FixedCount? ==> a.fixed != Some(i) && b.fixed == Some(i) && b.fixedSize == |slots[i].items|)
            && (fs[i].rule.Repeated? ==> b.fixed == a.fixed && b.fixedSize == a.fixedSize)
  {
    DeeperThanFields(fs, i);
    hide StructOk, ValOk, SlotsUpTo;
  }

  // ---------- the whole message ----------

  lemma {:induction false} FieldMerges(fs: seq<Field>, cur: seq<Slot>, slots: seq<Slot>, i: nat, rest: Data)
    requires FieldsOk(fs) && StructOk(fs, cur) && StructOk(fs, slots) && i < |fs| && |slots| == |cur| == |fs|
    requires SlotOk(fs, i, slots[i]) && SlotOk(fs, i, cur[i]) && RoomForSlot(fs, cur, slots, i) && |EncSlot(fs, i, slots[i])| < LIMIT32
    ensures Agree(fs, MergeState(fs, cur, slots, i), EncSlot(fs, i, slots[i]) + rest, MergeState(fs, cur, slots, i + 1), rest)
    decreases Depth(fs), 3, 0
  {
    hide *;
    SentIs(fs, slots, i);
    if !Sent(fs, slots, i) {
      NotSentStep(fs, cur, slots, i);
      assert [] + rest == rest;
      AgreeWith(fs, MergeState(fs, cur, slots, i), rest, MergeState(fs, cur, slots, i + 1), rest);
    } else if slots[i].Many? {
      ManyIsArray(fs, i, slots[i]);
      ArrayRoom(fs, cur, slots, i);
      ArrayMergeStep(fs, cur, slots, i);
      ArrayMerges(fs, MergeState(fs, cur, slots, i), i, cur[i].items, slots[i].items, rest);
    } else {
      OneValueMerges(fs, cur, slots, i, rest);
    }
  }

  lemma {:induction false} SentIs(fs: seq<Field>, slots: seq<Slot>, i: nat)
    requires StructOk(fs, slots) && i < |fs| == |slots|
    ensures Sent(fs, slots, i) <==> EncSlot(fs, i, slots[i]) != []
  {
    hide EncSlot, StructOk;
  }

  lemma {:induction false} ArrayRoom(fs: seq<Field>, cur: seq<Slot>, slots: seq<Slot>, i: nat)
    requires FieldsOk(fs) && StructOk(fs, cur) && StructOk(fs, slots) && i < |fs| && |slots| == |cur| == |fs|
    requires SlotOk(fs, i, slots[i]) && SlotOk(fs, i, cur[i]) && RoomForSlot(fs, cur, slots, i) && slots[i].Many?
    ensures cur[i].Many? && ArrayFits(fs[i], cur[i].items, slots[i].items) && (fs[i].rule.Repeated? || fs[i].rule.FixedCount?)
  {
    DeeperThanFields(fs, i);
    FieldFits(fs, i);
    hide ValOk, KindOk, FieldsOk, StructOk, RoomForVal;
  }

  lemma {:induction false} OneValueMerges(fs: seq<Field>, cur: seq<Slot>, slots: seq<Slot>, i: nat, rest: Data)
    requires FieldsOk(fs) && StructOk(fs, cur) && StructOk(fs, slots) && i < |fs| && |slots| == |cur| == |fs|
    requires SlotOk(fs, i, slots[i]) && SlotOk(fs, i, cur[i]) && RoomForSlot(fs, cur, slots, i) && |EncSlot(fs, i, slots[i])| < LIMIT32
    requires !slots[i].Many? && Sent(fs, slots, i)
    ensures Agree(fs, MergeState(fs, cur, slots, i), EncSlot(fs, i, slots[i]) + rest, MergeState(fs, cur, slots, i + 1), rest)
    decreases Depth(fs), 2, 0
  {
    DeeperThanFields(fs, i);
    FieldFits(fs, i);
    var f, v, st := fs[i], slots[i].v, MergeState(fs, cur, slots, i);
    var wt, was := WireType(f.kind), StartVal(f, cur[i]);
    OneValueIs(fs, cur, slots, i);
    StartIs(fs, cur, slots, i);
    ValueParts(TagBytes(f.tag, wt), EncVal(f.kind, v), rest);
    ValMerges(f.kind, v, was, rest);
    OneMergeStep(fs, cur, slots, i, v, was);
    hide MergeState, EncVal, TagBytes, DefaultOf, FieldsOk, StructOk, DecLoop, DecVal, MergeVal, StoreVal, EncSlot, StartVal, SlotOk, RoomForSlot, RoomForVal, Sent, KindOk, ValOk, FieldOk;
    assert DecField(fs, st, i, wt, EncVal(f.kind, v) + rest) == Some((MergeState(fs, cur, slots, i + 1), rest));
    TagLeadsToField(fs, st, i, wt, EncVal(f.kind, v) + rest);
  }

  lemma {:induction false} OneValueIs(fs: seq<Field>, cur: seq<Slot>, slots: seq<Slot>, i: nat)
    requires FieldsOk(fs) && StructOk(fs, cur) && StructOk(fs, slots) && i < |fs| && |slots| == |cur| == |fs|
    requires SlotOk(fs, i, slots[i]) && SlotOk(fs, i, cur[i]) && RoomForSlot(fs, cur, slots, i) && !slots[i].Many? && Sent(fs, slots, i)
    ensures var f := fs[i];
            && !f.rule.Repeated? && !f.rule.FixedCount? && !cur[i].Many? && KindOk(f.kind)
            && ValOk(f.kind, slots[i].v) && ValOk(f.kind, StartVal(f, cur[i]))
            && (f.rule.OneOf? || f.rule.Optional? ==> slots[i].has)
            && EncSlot(fs, i, slots[i]) == TagBytes(f.tag, WireType(f.kind)) + EncVal(f.kind, slots[i].v)
            && RoomForVal(f.kind, StartVal(f, cur[i]), slots[i].v)
  {
    DeeperThanFields(fs, i);
    FieldFits(fs, i);
    DefaultValOk(fs[i]);
    hide ValOk, KindOk, FieldsOk, StructOk, RoomForVal, EncVal, TagBytes, IsZero, DefaultOf;
  }

  /** A sent field that holds one value goes on from what was in the struct at the beginning. */
  lemma {:induction false} StartIs(fs: seq<Field>, cur: seq<Slot>, slots: seq<Slot>, i: nat)
    requires FieldsOk(fs) && StructOk(fs, cur) && StructOk(fs, slots) && i < |fs| && |slots| == |cur| == |fs|
    requires fs[i].rule.OneOf? ==> IsSet(slots[i])
    ensures MergeState(fs, cur, slots, i).slots[i] == cur[i]
  {
    StillThere(fs, cur, slots, i);
    hide StructOk, FieldsOk, MergeUpTo;
  }

  lemma {:induction false} FromMerges(fs: seq<Field>, cur: seq<Slot>, slots: seq<Slot>, i: nat)
    requires FieldsOk(fs) && StructOk(fs, cur) && StructOk(fs, slots) && RoomFor(fs, cur, slots) && i <= |fs|
    requires |EncFrom(fs, slots, i)| < LIMIT32
    ensures Ends(fs, MergeState(fs, cur, slots, i), EncFrom(fs, slots, i), MergeState(fs, cur, slots, |fs|))
    decreases Depth(fs), 4, |fs| - i
  {
    hide *;
    EncFromStep(fs, slots, i);
    if i < |fs| {
      OldSize(fs, cur);
      SlotFits(fs, slots, i);
      SlotFits(fs, cur, i);
      RoomHere(fs, cur, slots, i);
      var tail := EncFrom(fs, slots, i + 1);
      FieldMerges(fs, cur, slots, i, tail);
      FromMerges(fs, cur, slots, i + 1);
      EndsBefore(fs, MergeState(fs, cur, slots, i), EncFrom(fs, slots, i), MergeState(fs, cur, slots, i + 1), tail, MergeState(fs, cur, slots, |fs|));
    } else {
      EndsHere(fs, MergeState(fs, cur, slots, i));
    }
  }

  lemma {:induction false} RoomHere(fs: seq<Field>, cur: seq<Slot>, slots: seq<Slot>, i: nat)
    requires FieldsOk(fs) && StructOk(fs, cur) && StructOk(fs, slots) && RoomFor(fs, cur, slots) && i < |fs|
    ensures RoomForSlot(fs, cur, slots, i)
  {
    hide RoomForSlot, FieldsOk, StructOk;
  }

  lemma {:induction false} MergeStartsAndEnds(fs: seq<Field>, cur: seq<Slot>, slots: seq<Slot>)
    requires FieldsOk(fs) && StructOk(fs, cur) && StructOk(fs, slots)
    ensures MergeState(fs, cur, slots, 0) == DState(cur, {}, None, 0)
    ensures var st := MergeState(fs, cur, slots, |fs|);
            st.slots == Merge(fs, cur, slots) && FixedDone(fs, st) && RequiredSeen(fs, st.seen)
  {
    StartsAndEnds(fs, slots, {});
    assert MergeUpTo(fs, cur, slots, 0) == cur;
    hide FieldsOk, StructOk, RequiredBefore, MergeUpTo, NormalWithout;
  }

  /** For every descriptor, every message in the struct and every new one with room for its arrays:
      decoding the new one into the struct updates the fields that are in it, nested messages likewise,
      appends to repeated fields, and leaves all others. */
  lemma {:induction false} StructMerges(fs: seq<Field>, cur: seq<Slot>, slots: seq<Slot>)
    requires FieldsOk(fs) && StructOk(fs, cur) && StructOk(fs, slots) && RoomFor(fs, cur, slots) && |Encode(fs, slots)| < LIMIT32
    ensures |cur| == |fs| && DecStruct(fs, cur, Encode(fs, slots)) == Some(Merge(fs, cur, slots))
    decreases Depth(fs), 5, 0
  {
    OldSize(fs, cur);
    FromMerges(fs, cur, slots, 0);
    MergeStartsAndEnds(fs, cur, slots);
    hide FieldsOk, StructOk, EncFrom, MergeState, DecLoop, Merge, FixedDone, RequiredSeen, RoomFor;
  }

  lemma {:induction false} ValOfSlot(fs: seq<Field>, i: nat, s: Slot)
    requires i < |fs| && SlotOk(fs, i, s) && !s.Many?
    ensures ValOk(fs[i].kind, s.v)
  {
    DeeperThanFields(fs, i);
    hide ValOk;
  }

  lemma {:induction false} DefaultHasRoom(f: Field, v: Val)
    requires FieldOk(f) && ValOk(f.kind, v)
    ensures ValOk(f.kind, DefaultOf(f)) && RoomForVal(f.kind, DefaultOf(f), v)
    decreases KindDepth(f.kind), 1
  {
    DefaultValOk(f);
    if f.kind.Message? {
      DefaultsHaveRoom(f.kind.fields, v.slots);
    }
  }

  lemma {:induction false} DefaultsHaveRoom(fs: seq<Field>, slots: seq<Slot>)
    requires FieldsOk(fs) && StructOk(fs, slots)
    ensures StructOk(fs, Defaults(fs)) && RoomFor(fs, Defaults(fs), slots)
    decreases Depth(fs), 2
  {
    DefaultsOk(fs);
    forall i: nat | i < |fs| ensures RoomForSlot(fs, Defaults(fs), slots, i) {
      DeeperThanFields(fs, i);
      FieldFits(fs, i);
      SlotFits(fs, slots, i);
      SlotFits(fs, Defaults(fs), i);
      assert Defaults(fs)[i] == DefaultSlot(fs[i]);
      if !slots[i].Many? {
        ValOfSlot(fs, i, slots[i]);
        DefaultHasRoom(fs[i], slots[i].v);
      }
      hide StructOk, FieldsOk, EncSlot, RoomForVal;
    }
  }

  /** Merging into a struct of defaults is what pb_decode does. */
  lemma {:induction false} MergeIntoDefaults(fs: seq<Field>, slots: seq<Slot>)
    requires FieldsOk(fs) && StructOk(fs, slots) && |Encode(fs, slots)| < LIMIT32
    ensures StructOk(fs, Defaults(fs)) && Merge(fs, Defaults(fs), slots) == Normal(fs, slots)
  {
    DefaultsHaveRoom(fs, slots);
    hide *;
    StructMerges(fs, Defaults(fs), slots);
    StructReadsBack(fs, slots);
  }
}
