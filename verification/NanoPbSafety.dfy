/** pb_decode.c on any bytes at all: what is accepted fits the struct. No array is filled beyond its
    room, no number stands outside its width, no text lacks its terminator, and of a oneof at most
    one member is set. */
module NanoPbSafety {
  import opened InternalKeys
  import opened Coding
  import opened NanoPbFormat
  import opened NanoPbDecoding
  import opened NanoPbNormal

  lemma {:induction false} CStringFits(d: Data)
    ensures |CString(d)| <= |d| && 0 !in CString(d)
  {
    if d != [] && d[0] != 0 {
      CStringFits(d[1..]);
    }
  }

  lemma {:induction false} FixedFits(d: Data)
    ensures DecodeFixed(d) < Pow(256, |d|)
  {
    if d != [] {
      FixedFits(d[1..]);
    }
  }

  lemma {:induction false} DecodedNumberFits(k: FieldType, input: Data)
    requires KindOk(k)
    ensures DecNumber(k, input).Some? ==> ValOk(k, DecNumber(k, input).value.0)
  {
    Width32();
    Width64();
    if k.Fixed32? && |input| >= 4 {
      FixedFits(input[..4]);
    } else if k.Fixed64? && |input| >= 8 {
      FixedFits(input[..8]);
    }
    hide Pow, DecodeFixed, Varint64, Signed, UnZigZag;
  }

  lemma {:induction false} DecodedBlobFits(k: FieldType, input: Data)
    ensures DecBlob(k, input).Some? ==> ValOk(k, DecBlob(k, input).value.0)
  {
    match ReadVarint32(input)
    case None =>
    case Some((size, rest)) =>
      if size <= |rest| {
        CStringFits(rest[..size]);
      }
  }

  /** Whatever a field decoder accepts is a value of its kind. */
  lemma {:induction false} DecodedValFits(k: FieldType, current: Val, init: bool, input: Data)
    requires KindOk(k) && (k.Message? && !init ==> ValOk(k, current))
    ensures DecVal(k, current, init, input).Some? ==> ValOk(k, DecVal(k, current, init, input).value.0)
    decreases KindDepth(k), 0, |input|
  {
    match k
    case Bool =>
    case Message(sub) =>
      var s := Substream(input);
      if s.Some? {
        DefaultsOk(sub);
        var start := if !init && current.Struct? && |current.slots| == |sub| then current.slots else Defaults(sub);
        DecodedStructFits(sub, start, s.value.0);
      }
      hide DecStruct, StructOk, Defaults, FieldsOk, Substream;
    case Bytes(_) => DecodedBlobFits(k, input);
    case Text(_) => DecodedBlobFits(k, input);
    case FixedLength(_) => DecodedBlobFits(k, input);
    case _ => DecodedNumberFits(k, input);
  }

  lemma {:induction false} PutItemFits(k: FieldType, items: seq<Val>, at: nat, max: nat, v: Val)
    requires AllOk(k, items) && ValOk(k, v) && at <= |items| <= max && at < max
    ensures AllOk(k, PutItem(items, at, v)) && at + 1 <= |PutItem(items, at, v)| <= max
    ensures |items| <= |PutItem(items, at, v)|
  {
    hide ValOk;
  }

  lemma {:induction false} DecodedPackedFits(k: FieldType, items: seq<Val>, at: nat, max: nat, body: Data)
    requires KindOk(k) && AllOk(k, items) && at <= |items| <= max
    ensures var r := DecPacked(k, items, at, max, body);
            r.Some? ==> AllOk(k, r.value.items) && |items| <= |r.value.items| <= max && r.value.at <= |r.value.items|
    decreases KindDepth(k), 1, |body|
  {
    if body != [] && at < max {
      DecodedValFits(k, ZeroVal(k), true, body);
      hide DecVal, ValOk;
      match DecVal(k, ZeroVal(k), true, body)
      case None =>
      case Some((v, rest)) =>
        PutItemFits(k, items, at, max, v);
        DecodedPackedFits(k, PutItem(items, at, v), at + 1, max, rest);
    }
  }

  lemma {:induction false} DecodedArrayFits(k: FieldType, items: seq<Val>, at: nat, max: nat, wireType: nat, input: Data)
    requires KindOk(k) && AllOk(k, items) && at <= |items| <= max
    ensures var r := DecArray(k, items, at, max, wireType, input);
            r.Some? ==> AllOk(k, r.value.0.items) && |items| <= |r.value.0.items| <= max && r.value.0.at <= |r.value.0.items|
    decreases KindDepth(k), 2, |input|
  {
    if wireType == 2 && Packable(k) {
      match Substream(input)
      case None =>
      case Some((body, rest)) => DecodedPackedFits(k, items, at, max, body);
    } else if at < max {
      DecodedValFits(k, ZeroVal(k), true, input);
      hide DecVal, ValOk;
      match DecVal(k, ZeroVal(k), true, input)
      case None =>
      case Some((v, rest)) => PutItemFits(k, items, at, max, v);
    }
  }

  /** A struct that fits, and a position within the fixed-count array being filled. */
  ghost predicate StateOk(fs: seq<Field>, st: DState) {
    && StructOk(fs, st.slots)
    && (st.fixed.Some? && st.fixed.value < |fs| && fs[st.fixed.value].rule.FixedCount? ==> st.fixedSize <= fs[st.fixed.value].rule.n)
  }

  lemma {:induction false} SlotReplaced(fs: seq<Field>, slots: seq<Slot>, i: nat, s: Slot)
    requires StructOk(fs, slots) && i < |fs| && SlotOk(fs, i, s) && !fs[i].rule.OneOf?
    ensures StructOk(fs, slots[i := s])
  {
    var after := slots[i := s];
    forall j: nat | j < |fs| ensures SlotOk(fs, j, after[j]) {
      assert SlotOk(fs, j, slots[j]);
    }
    forall a: nat, b: nat | a < b < |fs| ensures OneOfOk(fs, after, a, b) {
      assert OneOfOk(fs, slots, a, b);
    }
  }

  lemma {:induction false} DefaultSlotFits(fs: seq<Field>, i: nat)
    requires FieldsOk(fs) && i < |fs|
    ensures SlotOk(fs, i, DefaultSlot(fs[i])) && (fs[i].rule.OneOf? ==> !DefaultSlot(fs[i]).has)
  {
    DefaultsOk(fs);
    DeeperThanFields(fs, i);
    assert Defaults(fs)[i] == DefaultSlot(fs[i]);
    assert SlotOk(fs, i, Defaults(fs)[i]);
  }

  /** Choosing a member of a oneof leaves it the only one. */
  lemma {:induction false} ChosenFits(fs: seq<Field>, slots: seq<Slot>, i: nat, v: Val)
    requires FieldsOk(fs) && StructOk(fs, slots) && i < |fs| && fs[i].rule.OneOf? && SlotOk(fs, i, Maybe(true, v))
    ensures StructOk(fs, Choose(fs, slots, i, v))
  {
    var after := Choose(fs, slots, i, v);
    forall j: nat | j < |fs|
      ensures SlotOk(fs, j, after[j])
      ensures j != i && fs[j].rule == fs[i].rule ==> after[j].Maybe? && !after[j].has
    {
      assert SlotOk(fs, j, slots[j]);
      DefaultSlotFits(fs, j);
    }
    forall a: nat, b: nat | a < b < |fs| ensures OneOfOk(fs, after, a, b) {
      assert OneOfOk(fs, slots, a, b);
    }
  }

  lemma {:induction false} StoredFits(fs: seq<Field>, slots: seq<Slot>, i: nat, v: Val)
    requires FieldsOk(fs) && StructOk(fs, slots) && i < |fs| && ValOk(fs[i].kind, v)
    requires !fs[i].rule.Repeated? && !fs[i].rule.FixedCount?
    ensures StructOk(fs, StoreVal(fs, slots, i, v))
  {
    DeeperThanFields(fs, i);
    hide StructOk, FieldsOk, ValOk;
    if fs[i].rule.OneOf? {
      ChosenFits(fs, slots, i, v);
    } else if fs[i].rule.Optional? {
      SlotReplaced(fs, slots, i, Maybe(true, v));
    } else {
      SlotReplaced(fs, slots, i, Single(v));
    }
  }

  lemma {:induction false} DecodedFieldFits(fs: seq<Field>, st: DState, i: nat, wireType: nat, input: Data)
    requires FieldsOk(fs) && i < |fs| && StateOk(fs, st)
    ensures DecField(fs, st, i, wireType, input).Some? ==> StateOk(fs, DecField(fs, st, i, wireType, input).value.0)
    decreases Depth(fs), 3, |input|
  {
    DeeperThanFields(fs, i);
    var f, s := fs[i], st.slots[i];
    assert FieldOk(f) && SlotOk(fs, i, s) && KindOk(f.kind);
    match f.rule
    case Repeated(max) =>
      var items := OldItems(s);
      DecodedArrayFits(f.kind, items, |items|, max, wireType, input);
      ArrayStored(fs, st, i, DecArray(f.kind, items, |items|, max, wireType, input));
    case FixedCount(n) =>
      var items, at := OldItems(s), if st.fixed == Some(i) then st.fixedSize else 0;
      DecodedArrayFits(f.kind, items, at, n, wireType, input);
      ArrayStored(fs, st, i, DecArray(f.kind, items, at, n, wireType, input));
    case _ =>
      StartFits(fs, i, s);
      DecodedValFits(f.kind, StartVal(f, s), false, input);
      hide DecVal, StructOk, FieldsOk, ValOk, StartVal, StoreVal;
      match DecVal(f.kind, StartVal(f, s), false, input)
      case None =>
      case Some((v, rest)) => StoredFits(fs, st.slots, i, v);
  }

  lemma {:induction false} StartFits(fs: seq<Field>, i: nat, s: Slot)
    requires FieldsOk(fs) && i < |fs| && SlotOk(fs, i, s) && !fs[i].rule.Repeated? && !fs[i].rule.FixedCount?
    ensures ValOk(fs[i].kind, StartVal(fs[i], s))
  {
    DeeperThanFields(fs, i);
    assert FieldOk(fs[i]);
    DefaultValOk(fs[i]);
    hide ValOk, DefaultOf;
  }

  lemma {:induction false} ArrayStored(fs: seq<Field>, st: DState, i: nat, r: Option<(Filled, Data)>)
    requires FieldsOk(fs) && i < |fs| && StateOk(fs, st) && (fs[i].rule.Repeated? || fs[i].rule.FixedCount?)
    requires r.Some? ==> AllOk(fs[i].kind, r.value.0.items) && r.value.0.at <= |r.value.0.items|
    requires r.Some? && fs[i].rule.Repeated? ==> |r.value.0.items| <= fs[i].rule.max
    requires r.Some? && fs[i].rule.FixedCount? ==> |r.value.0.items| == fs[i].rule.n
    ensures r.Some? ==> StructOk(fs, st.slots[i := Many(r.value.0.items)])
  {
    DeeperThanFields(fs, i);
    if r.Some? {
      hide ValOk, FieldsOk, StructOk;
      SlotReplaced(fs, st.slots, i, Many(r.value.0.items));
    }
  }

  lemma {:induction false} DecodedLoopFits(fs: seq<Field>, st: DState, input: Data)
    requires FieldsOk(fs) && StateOk(fs, st)
    ensures DecLoop(fs, st, input).Some? ==> StateOk(fs, DecLoop(fs, st, input).value)
    decreases Depth(fs), 4, |input|
  {
    ReadVarint32Shrinks(input);
    match ReadVarint32(input)
    case None =>
    case Some((temp, rest)) =>
      var i := Find(fs, temp / 8);
      if i == |fs| {
        SkipShrinks(temp % 8, rest);
        var r := Skip(temp % 8, rest);
        if r.Some? {
          DecodedLoopFits(fs, st, r.value);
        }
      } else {
        var r := DecField(fs, st, i, temp % 8, rest);
        if r.Some? {
          DecodedFieldFits(fs, st, i, temp % 8, rest);
          DecodedLoopFits(fs, r.value.0, r.value.1);
        }
      }
      hide DecField, Skip, Find, ReadVarint32, FieldsOk, StateOk;
  }

  lemma {:induction false} DecodedStructFits(fs: seq<Field>, slots: seq<Slot>, input: Data)
    requires FieldsOk(fs) && StructOk(fs, slots)
    ensures DecStruct(fs, slots, input).Some? ==> StructOk(fs, DecStruct(fs, slots, input).value)
    decreases Depth(fs), 5, |input|
  {
    DecodedLoopFits(fs, DState(slots, {}, None, 0), input);
    hide DecLoop, FixedDone, RequiredSeen, FieldsOk;
  }

  /** Whatever the bytes, damaged or hostile, a message that is accepted is one the descriptor allows:
      it can be kept in the struct and encoded again. */
  lemma {:induction false} AcceptedFits(fs: seq<Field>, input: Data)
    requires FieldsOk(fs)
    ensures var r := NanoPbDecoding.Decode(fs, input);
            r.Some? ==> StructOk(fs, r.value)
  {
    DefaultsOk(fs);
    DecodedStructFits(fs, Defaults(fs), input);
  }

  // ---------- numbers that do not fit ----------

  /** u is what is left of a number from bit 35 on; m is what its bits are worth. */
  lemma {:induction false} HighBitsRefused(u: nat, bitpos: nat, result: nat, rest: Data)
    requires bitpos == 35 || bitpos == 42 || bitpos == 49 || bitpos == 56
    requires 0 < u && (bitpos == 35 ==> u < 0x1000_0000) && (bitpos == 42 ==> u < 0x20_0000) && (bitpos == 49 ==> u < 0x4000) && (bitpos == 56 ==> u < 0x80)
    ensures MoreVarint32(VarintBytes(u) + rest, bitpos, result) == None
    decreases u
  {
    var input := VarintBytes(u) + rest;
    if u < 0x80 {
      assert input[0] == u;
    } else {
      assert input[0] == u % 0x80 + 0x80 && input[1..] == VarintBytes(u / 0x80) + rest;
      HighBitsRefused(u / 0x80, bitpos + 7, result, rest);
      hide Pow2;
    }
  }

  lemma {:induction false} OneGroup(v: nat, rest: Data)
    requires v >= 0x80
    ensures VarintBytes(v) + rest != [] && (VarintBytes(v) + rest)[0] == v % 0x80 + 0x80
    ensures (VarintBytes(v) + rest)[1..] == VarintBytes(v / 0x80) + rest
  {
  }

  lemma {:induction false} NextGroup(input: Data, bitpos: nat, result: nat)
    requires input != [] && input[0] >= 0x80 && bitpos < 32
    ensures MoreVarint32(input, bitpos, result)
         == MoreVarint32(input[1..], bitpos + 7, (result + (input[0] % 0x80) * Pow2(bitpos)) % LIMIT32)
  {
    hide Pow2;
  }

  /** v is what is left from bit bitpos on of a number with bits above the 32nd. */
  lemma {:induction false} LowBitsRefused(v: nat, bitpos: nat, result: nat, rest: Data)
    requires bitpos == 7 || bitpos == 14 || bitpos == 21 || bitpos == 28
    requires bitpos == 7 ==> 0x200_0000 <= v < 0x100_0000_0000_0000
    requires bitpos == 14 ==> 0x4_0000 <= v < 0x2_0000_0000_0000
    requires bitpos == 21 ==> 0x800 <= v < 0x400_0000_0000
    requires bitpos == 28 ==> 0x10 <= v < 0x8_0000_0000
    ensures MoreVarint32(VarintBytes(v) + rest, bitpos, result) == None
    decreases v
  {
    var input := VarintBytes(v) + rest;
    if v < 0x80 {
      assert input[0] == v && v / 0x10 % 8 != 0;
    } else {
      OneGroup(v, rest);
      NextGroup(input, bitpos, result);
      hide Pow2, VarintBytes, MoreVarint32;
      var result' := (result + (input[0] % 0x80) * Pow2(bitpos)) % LIMIT32;
      if bitpos < 28 {
        LowBitsRefused(v / 0x80, bitpos + 7, result', rest);
      } else {
        HighBitsRefused(v / 0x80, 35, result', rest);
      }
    }
  }

  /** A number of 33 to 63 bits is refused where 32 bits are wanted: tags, lengths and bools. */
  lemma {:induction false} TooBigIsRefused(v: nat, rest: Data)
    requires LIMIT32 <= v < 0x8000_0000_0000_0000
    ensures ReadVarint32(VarintBytes(v) + rest) == None
  {
    OneGroup(v, rest);
    hide VarintBytes, MoreVarint32;
    LowBitsRefused(v / 0x80, 7, v % 0x80, rest);
  }
}
