/** pb_decode.c: a message is read by a program that knows only some of its fields. The others
    are passed over, whatever they hold. */
module NanoPbUnknown {
  import opened InternalKeys
  import opened Coding
  import opened NanoPbFormat
  import opened NanoPbDecoding
  import opened NanoPbRoundTrip

  // ---------- values passed over by their wire type ----------

  lemma {:induction false} SkipsVarint(v: nat, rest: Data)
    ensures SkipVarint(VarintBytes(v) + rest) == Some(rest)
    decreases v
  {
    if v < 0x80 {
      assert VarintBytes(v) + rest == [v] + rest;
    } else {
      SkipsVarint(v / 0x80, rest);
      assert VarintBytes(v) + rest == [v % 0x80 + 0x80] + (VarintBytes(v / 0x80) + rest);
    }
  }

  lemma {:induction false} SkipsFixed(v: nat, n: nat, rest: Data)
    ensures SkipBytes(FixedBytes(v, n) + rest, n) == Some(rest)
  {
    assert (FixedBytes(v, n) + rest)[n..] == rest;
  }

  /** What any field holds is passed over exactly, by its wire type alone. */
  lemma {:induction false} SkipsValue(k: FieldType, v: Val, rest: Data)
    requires ValOk(k, v) && |EncVal(k, v)| < LIMIT32
    ensures Skip(WireType(k), EncVal(k, v) + rest) == Some(rest)
  {
    match k
    case Bool => SkipsVarint(if v.b then 1 else 0, rest);
    case Varint(_) => SkipsVarint(v.n % LIMIT64, rest);
    case UVarint(_) => SkipsVarint(v.n, rest);
    case SVarint(_) => SkipsVarint(ZigZag(v.n), rest);
    case Fixed32 => SkipsFixed(v.n, 4, rest);
    case Fixed64 => SkipsFixed(v.n, 8, rest);
    case Bytes(_) => SkipsPrefixed(v.d, rest);
    case Text(_) => SkipsPrefixed(v.d, rest);
    case FixedLength(_) => SkipsPrefixed(v.d, rest);
    case Message(sub) => SkipsPrefixed(Encode(sub, v.slots), rest);
  }

  /** So is a packed array, whose wire type is that of byte strings. */
  lemma {:induction false} SkipsPrefixed(d: Data, rest: Data)
    requires |Prefixed(d)| < LIMIT32
    ensures Skip(2, Prefixed(d) + rest) == Some(rest)
  {
    PrefixedReadsBack(d, rest);
  }

  // ---------- fields without a place in the struct ----------

  /** A tag that leads nowhere costs its field only. */
  lemma {:induction false} UnknownTag(gs: seq<Field>, st: DState, tag: nat, wireType: nat, body: Data, rest: Data)
    requires FieldsOk(gs) && |gs| == |st.slots| && 0 < tag <= TAG_MAX && wireType < 8
    requires (forall g :: g in gs ==> g.tag != tag) && Skip(wireType, body) == Some(rest)
    ensures DecLoop(gs, st, TagBytes(tag, wireType) + body) == DecLoop(gs, st, rest)
  {
    NotFound(gs, tag);
    TagReadsBack(tag, wireType, body);
    hide DecField, ReadVarint32, TagBytes, Find, Skip, FieldsOk;
  }

  lemma {:induction false} NotFound(gs: seq<Field>, tag: nat)
    requires forall g :: g in gs ==> g.tag != tag
    ensures Find(gs, tag) == |gs|
  {
    if gs != [] {
      assert gs[0] in gs;
      NotFound(gs[1..], tag);
    }
  }

  lemma {:induction false} TagReadsBack(tag: nat, wireType: nat, body: Data)
    requires 0 < tag <= TAG_MAX && wireType < 8
    ensures TagBytes(tag, wireType) + body != []
    ensures exists temp: nat :: ReadVarint32(TagBytes(tag, wireType) + body) == Some((temp, body)) && temp != 0 && temp / 8 == tag && temp % 8 == wireType
  {
    var temp := 8 * tag + wireType;
    assert 0 < temp < LIMIT32 && temp / 8 == tag && temp % 8 == wireType;
    Reads32Back(temp, body);
    hide VarintBytes, ReadVarint32;
  }

  lemma {:induction false} EachIsSkipped(gs: seq<Field>, st: DState, tag: nat, k: FieldType, items: seq<Val>, rest: Data)
    requires FieldsOk(gs) && |gs| == |st.slots| && 0 < tag <= TAG_MAX && forall g :: g in gs ==> g.tag != tag
    requires (forall v :: v in items ==> ValOk(k, v)) && |EncEach(tag, k, items)| < LIMIT32
    ensures DecLoop(gs, st, EncEach(tag, k, items) + rest) == DecLoop(gs, st, rest)
    decreases |items|
  {
    if items == [] {
      assert [] + rest == rest;
    } else {
      var tail := EncEach(tag, k, items[1..]);
      EachParts(TagBytes(tag, WireType(k)), EncVal(k, items[0]), tail, rest);
      SkipsValue(k, items[0], tail + rest);
      hide DecLoop, EncVal, TagBytes, Skip, ValOk, FieldsOk;
      UnknownTag(gs, st, tag, WireType(k), EncVal(k, items[0]) + (tail + rest), tail + rest);
      EachIsSkipped(gs, st, tag, k, items[1..], rest);
    }
  }

  lemma {:induction false} ArrayIsSkipped(gs: seq<Field>, st: DState, tag: nat, k: FieldType, items: seq<Val>, rest: Data)
    requires FieldsOk(gs) && |gs| == |st.slots| && 0 < tag <= TAG_MAX && forall g :: g in gs ==> g.tag != tag
    requires (forall v :: v in items ==> ValOk(k, v)) && |EncArray(tag, k, items)| < LIMIT32
    ensures DecLoop(gs, st, EncArray(tag, k, items) + rest) == DecLoop(gs, st, rest)
  {
    if items == [] {
      assert [] + rest == rest;
    } else if Packable(k) {
      var body := EncPacked(k, items);
      PackedParts(tag, body, rest);
      assert |Prefixed(body)| <= |TagBytes(tag, 2) + Prefixed(body)|;
      SkipsPrefixed(body, rest);
      hide DecLoop, TagBytes, Prefixed, Skip, ValOk, FieldsOk, EncPacked;
      UnknownTag(gs, st, tag, 2, Prefixed(body) + rest, rest);
    } else {
      EachIsSkipped(gs, st, tag, k, items, rest);
    }
  }

  /** Whatever is written for a field, a reader without it goes on as if nothing had been written. */
  lemma {:induction false} FieldIsSkipped(gs: seq<Field>, st: DState, fs: seq<Field>, i: nat, s: Slot, rest: Data)
    requires FieldsOk(gs) && |gs| == |st.slots| && i < |fs| && FieldOk(fs[i]) && SlotOk(fs, i, s)
    requires (forall g :: g in gs ==> g.tag != fs[i].tag) && |EncSlot(fs, i, s)| < LIMIT32
    ensures DecLoop(gs, st, EncSlot(fs, i, s) + rest) == DecLoop(gs, st, rest)
  {
    DeeperThanFields(fs, i);
    var f := fs[i];
    if s.Many? {
      ArrayIsSkipped(gs, st, f.tag, f.kind, s.items, rest);
    } else if EncSlot(fs, i, s) == [] {
      assert [] + rest == rest;
    } else {
      var tag, body := TagBytes(f.tag, WireType(f.kind)), EncVal(f.kind, s.v);
      assert EncSlot(fs, i, s) == tag + body;
      ValueParts(tag, body, rest);
      SkipsValue(f.kind, s.v, rest);
      hide DecLoop, EncVal, TagBytes, Skip, ValOk, FieldsOk, EncSlot;
      UnknownTag(gs, st, f.tag, WireType(f.kind), body + rest, rest);
    }
  }

  // ---------- some of the fields ----------

  function Count(keep: seq<bool>, n: nat): (r: nat)
    requires n <= |keep|
    ensures r <= n
  {
    if n == 0 then 0 else Count(keep, n - 1) + if keep[n - 1] then 1 else 0
  }

  /** The members of xs that are kept, in their order. */
  function Pick<T>(xs: seq<T>, keep: seq<bool>): (r: seq<T>)
    requires |xs| == |keep|
    ensures |r| == Count(keep, |keep|)
    decreases |xs|
  {
    PickCount(keep, |keep|);
    if xs == [] then []
    else
      var n := |xs| - 1;
      CountOfPrefix(keep, n);
      Pick(xs[..n], keep[..n]) + if keep[n] then [xs[n]] else []
  }

  lemma {:induction false} PickCount(keep: seq<bool>, n: nat)
    requires 0 < n <= |keep| || n == 0
    ensures n > 0 ==> Count(keep, n) == Count(keep, n - 1) + if keep[n - 1] then 1 else 0
  {
  }

  lemma {:induction false} CountOfPrefix(keep: seq<bool>, n: nat)
    requires n <= |keep|
    ensures Count(keep[..n], n) == Count(keep, n)
  {
    CountOfLonger(keep, n, n);
  }

  lemma {:induction false} CountOfLonger(keep: seq<bool>, m: nat, n: nat)
    requires n <= m <= |keep|
    ensures Count(keep[..m], n) == Count(keep, n)
  {
    if n > 0 {
      CountOfLonger(keep, m, n - 1);
    }
  }

  lemma {:induction false} CountGrows(keep: seq<bool>, i: nat, n: nat)
    requires i <= n <= |keep|
    ensures Count(keep, i) <= Count(keep, n) && (i < n && keep[i] ==> Count(keep, i) < Count(keep, n))
  {
    if i < n {
      CountGrows(keep, i, n - 1);
    }
  }

  /** Where a kept member stands. */
  lemma {:induction false} PickedAt<T>(xs: seq<T>, keep: seq<bool>, i: nat)
    requires |xs| == |keep| && i < |xs| && keep[i]
    ensures Count(keep, i) < |Pick(xs, keep)| && Pick(xs, keep)[Count(keep, i)] == xs[i]
    decreases |xs|
  {
    var n := |xs| - 1;
    CountGrows(keep, i, |keep|);
    CountOfPrefix(keep, n);
    if i < n {
      PickedAt(xs[..n], keep[..n], i);
      CountOfLonger(keep, n, i);
    }
  }

  /** Where a member that is picked comes from. */
  lemma {:induction false} PickedFrom<T>(xs: seq<T>, keep: seq<bool>, j: nat) returns (i: nat)
    requires |xs| == |keep| && j < |Pick(xs, keep)|
    ensures i < |xs| && keep[i] && Count(keep, i) == j && Pick(xs, keep)[j] == xs[i]
    decreases |xs|
  {
    var n := |xs| - 1;
    CountOfPrefix(keep, n);
    if j < Count(keep, n) {
      i := PickedFrom(xs[..n], keep[..n], j);
      CountOfLonger(keep, n, i);
    } else {
      i := n;
    }
  }

  // ---------- what the reader makes of the message ----------

  /** The fields a reader knows are a descriptor, what it restores is a message of it. */
  lemma {:induction false} PickedOk(fs: seq<Field>, slots: seq<Slot>, keep: seq<bool>)
    requires FieldsOk(fs) && StructOk(fs, slots) && |keep| == |fs|
    ensures FieldsOk(Pick(fs, keep)) && StructOk(Pick(fs, keep), Pick(slots, keep))
  {
    var gs, picked := Pick(fs, keep), Pick(slots, keep);
    forall j: nat | j < |gs| ensures FieldOk(gs[j]) && (DeeperThanFields(gs, j); SlotOk(gs, j, picked[j])) {
      PlaceOk(fs, slots, keep, j);
    }
    forall a: nat, b: nat | a < b < |gs| ensures gs[a].tag != gs[b].tag && OneOfOk(gs, picked, a, b) {
      var i := PickedFrom(fs, keep, a);
      var j := PickedFrom(fs, keep, b);
      PickedAt(slots, keep, i);
      PickedAt(slots, keep, j);
      if j <= i {
        CountGrows(keep, j, i);
      }
      assert OneOfOk(fs, slots, i, j);
    }
  }

  lemma {:induction false} PlaceOk(fs: seq<Field>, slots: seq<Slot>, keep: seq<bool>, j: nat)
    requires FieldsOk(fs) && StructOk(fs, slots) && |keep| == |fs| && j < |Pick(fs, keep)|
    ensures FieldOk(Pick(fs, keep)[j]) && SlotOk(Pick(fs, keep), j, Pick(slots, keep)[j])
  {
    var i := PickedFrom(fs, keep, j);
    PickedAt(slots, keep, i);
    assert FieldOk(fs[i]) && SlotOk(fs, i, slots[i]);
    SameFieldSameSlot(fs, i, Pick(fs, keep), j, slots[i]);
  }

  /** Only the field itself decides what its slot may hold, is written as and becomes. */
  lemma {:induction false} SameFieldSameSlot(fs: seq<Field>, i: nat, gs: seq<Field>, j: nat, s: Slot)
    requires i < |fs| && j < |gs| && fs[i] == gs[j] && SlotOk(fs, i, s)
    ensures SlotOk(gs, j, s) && EncSlot(gs, j, s) == EncSlot(fs, i, s) && NormalSlot(gs, j, s) == NormalSlot(fs, i, s)
  {
    DeeperThanFields(fs, i);
    DeeperThanFields(gs, j);
    hide EncVal, ValOk, NormalVal, EncArray, TagBytes, DefaultOf, IsZero, NormalItems;
  }

  lemma {:induction false} NormalPicked(fs: seq<Field>, slots: seq<Slot>, keep: seq<bool>)
    requires FieldsOk(fs) && StructOk(fs, slots) && |keep| == |fs|
    requires StructOk(Pick(fs, keep), Pick(slots, keep))
    ensures Normal(Pick(fs, keep), Pick(slots, keep)) == Pick(Normal(fs, slots), keep)
  {
    var gs, picked := Pick(fs, keep), Pick(slots, keep);
    forall j: nat | j < |gs| ensures Normal(gs, picked)[j] == Pick(Normal(fs, slots), keep)[j] {
      var i := PickedFrom(fs, keep, j);
      PickedAt(slots, keep, i);
      PickedAt(Normal(fs, slots), keep, i);
      assert SlotOk(fs, i, slots[i]);
      SameFieldSameSlot(fs, i, gs, j, slots[i]);
    }
  }

  lemma {:induction false} NotKept(fs: seq<Field>, keep: seq<bool>, i: nat)
    requires FieldsOk(fs) && |keep| == |fs| && i < |fs| && !keep[i]
    ensures forall g :: g in Pick(fs, keep) ==> g.tag != fs[i].tag
  {
    var gs := Pick(fs, keep);
    forall g | g in gs ensures g.tag != fs[i].tag {
      var j: nat :| j < |gs| && gs[j] == g;
      var k := PickedFrom(fs, keep, j);
      assert k != i && fs[k] == g;
    }
  }

  /** gs and picked are the kept fields and what they hold. */
  ghost predicate KeptAre(fs: seq<Field>, slots: seq<Slot>, keep: seq<bool>, gs: seq<Field>, picked: seq<Slot>) {
    && |fs| == |slots| == |keep| && |gs| == |picked| == Count(keep, |keep|)
    && (forall i: nat {:trigger keep[i]} :: i < |fs| && keep[i] ==>
          Count(keep, i) < |gs| && gs[Count(keep, i)] == fs[i] && picked[Count(keep, i)] == slots[i])
    && (forall i: nat, g {:trigger keep[i], g in gs} :: i < |fs| && !keep[i] && g in gs ==> g.tag != fs[i].tag)
  }

  lemma {:induction false} PickedAre(fs: seq<Field>, slots: seq<Slot>, keep: seq<bool>)
    requires FieldsOk(fs) && |fs| == |slots| == |keep|
    ensures KeptAre(fs, slots, keep, Pick(fs, keep), Pick(slots, keep))
  {
    hide FieldsOk, Pick;
    forall i: nat | i < |fs| && keep[i]
      ensures Count(keep, i) < |Pick(fs, keep)|
      ensures Pick(fs, keep)[Count(keep, i)] == fs[i] && Pick(slots, keep)[Count(keep, i)] == slots[i]
    {
      PickedAt(fs, keep, i);
      PickedAt(slots, keep, i);
    }
    forall i: nat, g | i < |fs| && !keep[i] && g in Pick(fs, keep) ensures g.tag != fs[i].tag {
      NotKept(fs, keep, i);
    }
  }

  lemma {:induction false} KeptFieldIsRead(fs: seq<Field>, slots: seq<Slot>, keep: seq<bool>, gs: seq<Field>, picked: seq<Slot>, i: nat, j: nat, rest: Data)
    requires KeptAre(fs, slots, keep, gs, picked) && i < |fs| && keep[i] && j == Count(keep, i)
    requires FieldsOk(gs) && StructOk(gs, picked) && SlotOk(fs, i, slots[i]) && |EncSlot(fs, i, slots[i])| < LIMIT32
    ensures j + 1 <= |gs| && Count(keep, i + 1) == j + 1
    ensures Agree(gs, StateAt(gs, picked, {}, j), EncSlot(fs, i, slots[i]) + rest, StateAt(gs, picked, {}, j + 1), rest)
  {
    hide FieldsOk, StructOk, SlotOk, EncSlot, StateAt, Agree, NormalSlot;
    SameFieldSameSlot(fs, i, gs, j, slots[i]);
    FieldReadsBack(gs, picked, {}, j, rest);
  }

  lemma {:induction false} NotAmong(fs: seq<Field>, slots: seq<Slot>, keep: seq<bool>, gs: seq<Field>, picked: seq<Slot>, i: nat)
    requires KeptAre(fs, slots, keep, gs, picked) && i < |fs| && !keep[i]
    ensures (forall g :: g in gs ==> g.tag != fs[i].tag) && Count(keep, i + 1) == Count(keep, i)
  {
  }

  /** The fields from i on, read by one who has met the kept ones before. */
  lemma {:induction false} PickedFromHere(fs: seq<Field>, slots: seq<Slot>, keep: seq<bool>, gs: seq<Field>, picked: seq<Slot>, i: nat, j: nat)
    requires FieldsOk(fs) && StructOk(fs, slots) && i <= |fs| && |EncFrom(fs, slots, i)| < LIMIT32
    requires KeptAre(fs, slots, keep, gs, picked) && |keep| == |fs| && FieldsOk(gs) && StructOk(gs, picked)
    requires j == Count(keep, i) <= |gs| == Count(keep, |keep|)
    ensures Ends(gs, StateAt(gs, picked, {}, j), EncFrom(fs, slots, i), StateAt(gs, picked, {}, |gs|))
    decreases |fs| - i
  {
    hide *;
    EncFromStep(fs, slots, i);
    if i < |fs| {
      SlotFits(fs, slots, i);
      FieldFits(fs, i);
      var tail, j' := EncFrom(fs, slots, i + 1), Count(keep, i + 1);
      if keep[i] {
        KeptFieldIsRead(fs, slots, keep, gs, picked, i, j, tail);
      } else {
        NotAmong(fs, slots, keep, gs, picked, i);
        OtherFieldIsSkipped(gs, StateAt(gs, picked, {}, j), fs, i, slots[i], tail);
      }
      PickedFromHere(fs, slots, keep, gs, picked, i + 1, j');
      EndsBefore(gs, StateAt(gs, picked, {}, j), EncFrom(fs, slots, i), StateAt(gs, picked, {}, j'), tail, StateAt(gs, picked, {}, |gs|));
    } else {
      EndsHere(gs, StateAt(gs, picked, {}, j));
    }
  }

  lemma {:induction false} OtherFieldIsSkipped(gs: seq<Field>, st: DState, fs: seq<Field>, i: nat, s: Slot, rest: Data)
    requires FieldsOk(gs) && |gs| == |st.slots| && i < |fs| && FieldOk(fs[i]) && SlotOk(fs, i, s)
    requires (forall g :: g in gs ==> g.tag != fs[i].tag) && |EncSlot(fs, i, s)| < LIMIT32
    ensures Agree(gs, st, EncSlot(fs, i, s) + rest, st, rest)
  {
    FieldIsSkipped(gs, st, fs, i, s, rest);
    hide FieldsOk, FieldOk, SlotOk, EncSlot;
  }

  /** For every descriptor, every message it allows and every choice of its fields: a program that
      knows only these restores them as they were, whatever the others hold. */
  lemma {:induction false} UnknownFieldsAreSkipped(fs: seq<Field>, slots: seq<Slot>, keep: seq<bool>)
    requires FieldsOk(fs) && StructOk(fs, slots) && |keep| == |fs| && |Encode(fs, slots)| < LIMIT32
    ensures FieldsOk(Pick(fs, keep))
    ensures NanoPbDecoding.Decode(Pick(fs, keep), Encode(fs, slots)) == Some(Pick(Normal(fs, slots), keep))
  {
    var gs, picked := Pick(fs, keep), Pick(slots, keep);
    PickedOk(fs, slots, keep);
    PickedAre(fs, slots, keep);
    NormalPicked(fs, slots, keep);
    hide FieldsOk, StructOk, EncFrom, StateAt, DecLoop, Normal, Defaults, FixedDone, RequiredSeen, Pick, NormalWithout, RequiredBefore, KeptAre;
    PickedFromHere(fs, slots, keep, gs, picked, 0, 0);
    StartsAndEnds(gs, picked, {});
  }
}
