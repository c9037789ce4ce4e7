/** pb_encode.c and pb_decode.c: what decoding restores is the same message. It is again one the
    descriptor allows, and it is encoded to the very same bytes. */
module NanoPbNormal {
  import opened InternalKeys
  import opened Coding
  import opened NanoPbFormat
  import opened NanoPbDecoding
  import opened NanoPbRoundTrip

  lemma {:induction false} DefaultValOk(f: Field)
    requires FieldOk(f)
    ensures ValOk(f.kind, DefaultOf(f))
    decreases KindDepth(f.kind), 1
  {
    if f.kind.Message? {
      DefaultsOk(f.kind.fields);
    }
  }

  /** A struct set to its defaults is one the descriptor allows. */
  lemma {:induction false} DefaultsOk(fs: seq<Field>)
    requires FieldsOk(fs)
    ensures StructOk(fs, Defaults(fs))
    decreases Depth(fs), 2
  {
    forall i: nat | i < |fs| ensures SlotOk(fs, i, Defaults(fs)[i]) {
      DeeperThanFields(fs, i);
      assert FieldOk(fs[i]);
      DefaultValOk(fs[i]);
    }
  }

  lemma {:induction false} SameVal(k: FieldType, v: Val)
    requires KindOk(k) && ValOk(k, v)
    ensures ValOk(k, NormalVal(k, v)) && EncVal(k, NormalVal(k, v)) == EncVal(k, v)
    ensures IsZero(k, NormalVal(k, v)) == IsZero(k, v)
    decreases KindDepth(k), 1, 0
  {
    if k.Message? {
      SameStruct(k.fields, v.slots);
    }
  }

  lemma {:induction false} SameItems(tag: nat, k: FieldType, items: seq<Val>)
    requires KindOk(k) && forall v :: v in items ==> ValOk(k, v)
    ensures forall v :: v in NormalItems(k, items) ==> ValOk(k, v)
    ensures EncPacked(k, NormalItems(k, items)) == EncPacked(k, items)
    ensures EncEach(tag, k, NormalItems(k, items)) == EncEach(tag, k, items)
    decreases KindDepth(k), 2, |items|
  {
    if items != [] {
      SameVal(k, items[0]);
      SameItems(tag, k, items[1..]);
      assert NormalItems(k, items)[1..] == NormalItems(k, items[1..]);
      hide EncVal, ValOk, NormalVal;
    }
  }

  lemma {:induction false} SameSlot(fs: seq<Field>, i: nat, s: Slot)
    requires FieldsOk(fs) && i < |fs| && SlotOk(fs, i, s)
    ensures SlotOk(fs, i, NormalSlot(fs, i, s)) && EncSlot(fs, i, NormalSlot(fs, i, s)) == EncSlot(fs, i, s)
    ensures SlotIsZero(fs, i, NormalSlot(fs, i, s)) == SlotIsZero(fs, i, s)
    decreases Depth(fs), 3, 0
  {
    DeeperThanFields(fs, i);
    var f := fs[i];
    assert FieldOk(f);
    DefaultValOk(f);
    if s.Many? {
      SameItems(f.tag, f.kind, s.items);
    } else {
      SameVal(f.kind, s.v);
    }
    hide FieldsOk, ValOk, EncVal, EncPacked, EncEach, NormalVal, NormalItems, IsZero, DefaultOf;
  }

  lemma {:induction false} SameFrom(fs: seq<Field>, slots: seq<Slot>, i: nat)
    requires StructOk(fs, slots) && StructOk(fs, Normal(fs, slots)) && i <= |fs|
    requires forall j: nat :: j < |fs| ==> EncSlot(fs, j, Normal(fs, slots)[j]) == EncSlot(fs, j, slots[j])
    ensures EncFrom(fs, Normal(fs, slots), i) == EncFrom(fs, slots, i)
    decreases |fs| - i
  {
    if i < |fs| {
      SameFrom(fs, slots, i + 1);
    }
  }

  lemma {:induction false} SameStruct(fs: seq<Field>, slots: seq<Slot>)
    requires FieldsOk(fs) && StructOk(fs, slots)
    ensures StructOk(fs, Normal(fs, slots)) && Encode(fs, Normal(fs, slots)) == Encode(fs, slots)
    ensures StructIsZero(fs, Normal(fs, slots)) == StructIsZero(fs, slots)
    decreases Depth(fs), 4, 0
  {
    var restored := Normal(fs, slots);
    forall i: nat | i < |fs|
      ensures SlotOk(fs, i, restored[i]) && EncSlot(fs, i, restored[i]) == EncSlot(fs, i, slots[i])
      ensures SlotIsZero(fs, i, restored[i]) == SlotIsZero(fs, i, slots[i])
    {
      SameSlot(fs, i, slots[i]);
    }
    forall i: nat, j: nat | i < j < |fs| ensures OneOfOk(fs, restored, i, j) {
      assert OneOfOk(fs, slots, i, j) && SlotOk(fs, i, slots[i]) && SlotOk(fs, j, slots[j]);
    }
    SameFrom(fs, slots, 0);
  }

  /** Decoding what was encoded and encoding it again gives the same bytes. */
  lemma {:induction false} ReencodesTheSame(fs: seq<Field>, slots: seq<Slot>)
    requires FieldsOk(fs) && StructOk(fs, slots) && |Encode(fs, slots)| < LIMIT32
    ensures var r := NanoPbDecoding.Decode(fs, Encode(fs, slots));
            r.Some? && StructOk(fs, r.value) && Encode(fs, r.value) == Encode(fs, slots)
  {
    MessageRoundTrip(fs, slots);
    SameStruct(fs, slots);
    hide FieldsOk, StructOk, Encode, NanoPbDecoding.Decode, Normal;
  }

  // ---------- what is left out ----------

  lemma {:induction false} NothingFrom(fs: seq<Field>, slots: seq<Slot>, i: nat)
    requires StructOk(fs, slots) && i <= |fs|
    ensures EncFrom(fs, slots, i) == [] <==> forall j: nat :: i <= j < |fs| ==> EncSlot(fs, j, slots[j]) == []
    decreases |fs| - i
  {
    hide EncSlot, SlotOk;
    if i < |fs| {
      NothingFrom(fs, slots, i + 1);
    }
  }

  lemma {:induction false} ZeroSlotIff(fs: seq<Field>, i: nat, s: Slot)
    requires i < |fs| && SlotOk(fs, i, s)
    ensures SlotIsZero(fs, i, s) <==> EncSlot(fs, i, s) == [] && !fs[i].rule.FixedCount?
  {
    DeeperThanFields(fs, i);
    if EncSlot(fs, i, s) == [] {
      NothingWritten(fs, i, s);
    }
    if s.Many? {
      ArrayWritten(fs[i].tag, fs[i].kind, s.items);
    }
    hide EncVal, ValOk, IsZero, EncEach, EncPacked;
    assert |TagBytes(fs[i].tag, WireType(fs[i].kind))| >= 1;
  }

  /** A message counts as zero if and only if nothing of it would be written, and no field of it is an
      array of fixed length. */
  lemma {:induction false} ZeroStructIff(fs: seq<Field>, slots: seq<Slot>)
    requires StructOk(fs, slots)
    ensures StructIsZero(fs, slots) <==> Encode(fs, slots) == [] && forall f :: f in fs ==> !f.rule.FixedCount?
  {
    NothingFrom(fs, slots, 0);
    forall i: nat | i < |fs| ensures SlotIsZero(fs, i, slots[i]) <==> EncSlot(fs, i, slots[i]) == [] && !fs[i].rule.FixedCount? {
      SlotFits(fs, slots, i);
      ZeroSlotIff(fs, i, slots[i]);
    }
    hide EncSlot, SlotIsZero, SlotOk;
    if forall f :: f in fs ==> !f.rule.FixedCount? {
      assert forall i: nat :: i < |fs| ==> fs[i] in fs;
    }
  }

  /** A field without presence is left out if and only if it holds the zero of its kind: an empty text,
      no bytes, the number 0, a message of which nothing would be written. */
  lemma {:induction false} LeftOutIff(fs: seq<Field>, i: nat, v: Val)
    requires i < |fs| && fs[i].rule.Implicit? && SlotOk(fs, i, Single(v))
    ensures EncSlot(fs, i, Single(v)) == [] <==>
            match fs[i].kind
            case Message(sub) => v.Struct? && StructOk(sub, v.slots) && Encode(sub, v.slots) == [] && forall f :: f in sub ==> !f.rule.FixedCount?
            case FixedLength(n) => n == 0
            case Bool => v == Flag(false)
            case Bytes(_) => v == Blob([])
            case Text(_) => v == Blob([])
            case _ => v == Num(0)
  {
    DeeperThanFields(fs, i);
    if EncSlot(fs, i, Single(v)) == [] {
      NothingWritten(fs, i, Single(v));
    }
    if fs[i].kind.Message? {
      ZeroStructIff(fs[i].kind.fields, v.slots);
      hide Encode, StructIsZero;
    }
    hide EncVal;
    assert |TagBytes(fs[i].tag, WireType(fs[i].kind))| >= 1;
  }
}
