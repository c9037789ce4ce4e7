/** What pb_encode writes, pb_decode restores, up to the contents of absent fields. */
module NanoPbRoundTrip {
  import opened InternalKeys
  import opened Coding
  import opened NanoPbFormat
  import opened NanoPbDecoding

  // ---------- numbers ----------

  lemma {:induction false} Powers()
    ensures Pow2(0) == 1 && Pow2(7) == 0x80 && Pow2(14) == 0x4000 && Pow2(21) == 0x20_0000 && Pow2(28) == 0x1000_0000
    ensures Pow2(4) == 0x10 && Pow2(11) == 0x800 && Pow2(18) == 0x4_0000 && Pow2(25) == 0x200_0000
  {
    assert Pow2(4) == 16 by {
      assert Pow2(4) == 2 * Pow2(3) && Pow2(3) == 2 * Pow2(2) && Pow2(2) == 2 * Pow2(1) && Pow2(1) == 2 * Pow2(0);
    }
    assert Pow2(7) == 2 * Pow2(6) && Pow2(6) == 2 * Pow2(5) && Pow2(5) == 2 * Pow2(4);
    assert Pow2(11) == 2 * Pow2(10) && Pow2(10) == 2 * Pow2(9) && Pow2(9) == 2 * Pow2(8) && Pow2(8) == 2 * Pow2(7);
    assert Pow2(14) == 2 * Pow2(13) && Pow2(13) == 2 * Pow2(12) && Pow2(12) == 2 * Pow2(11);
    assert Pow2(18) == 2 * Pow2(17) && Pow2(17) == 2 * Pow2(16) && Pow2(16) == 2 * Pow2(15) && Pow2(15) == 2 * Pow2(14);
    assert Pow2(21) == 2 * Pow2(20) && Pow2(20) == 2 * Pow2(19) && Pow2(19) == 2 * Pow2(18);
    assert Pow2(25) == 2 * Pow2(24) && Pow2(24) == 2 * Pow2(23) && Pow2(23) == 2 * Pow2(22) && Pow2(22) == 2 * Pow2(21);
    assert Pow2(28) == 2 * Pow2(27) && Pow2(27) == 2 * Pow2(26) && Pow2(26) == 2 * Pow2(25);
  }

  /** One more byte of a number, its lowest bit worth m. */
  lemma {:induction false} OneMoreByte(b: Byte, tail: Data, bitpos: nat, m: nat, result: nat)
    requires bitpos <= 28 && Pow2(bitpos) == m && result + (b % 0x80) * m < LIMIT32
    ensures b >= 0x80 ==> MoreVarint32([b] + tail, bitpos, result) == MoreVarint32(tail, bitpos + 7, result + (b % 0x80) * m)
    ensures b < 0x80 && (bitpos < 28 || b < 0x10) ==> MoreVarint32([b] + tail, bitpos, result) == Some((result + b * m, tail))
  {
    hide Pow2;
    var input := [b] + tail;
    assert input[1..] == tail && input[0] == b;
    assert (result + (b % 0x80) * Pow2(bitpos)) % LIMIT32 == result + (b % 0x80) * m;
  }

  /** The later bytes of a number that fits 32 bits add up to it: so many bits are left. */
  lemma {:induction false} MoreReadsBack(v: nat, bitpos: nat, m: nat, result: nat, rest: Data)
    requires (bitpos == 7 && m == 0x80) || (bitpos == 14 && m == 0x4000) || (bitpos == 21 && m == 0x20_0000) || (bitpos == 28 && m == 0x1000_0000)
    requires v * m + result < LIMIT32 && result < m
    ensures MoreVarint32(VarintBytes(v) + rest, bitpos, result) == Some((result + v * m, rest))
    decreases v
  {
    Powers();
    hide MoreVarint32, Pow2;
    if v < 0x80 {
      OneMoreByte(v, rest, bitpos, m, result);
      assert VarintBytes(v) + rest == [v] + rest;
    } else {
      var low, high := v % 0x80, v / 0x80;
      assert VarintBytes(v) + rest == [low + 0x80] + (VarintBytes(high) + rest);
      Split(v, low, high, m);
      OneMoreByte(low + 0x80, VarintBytes(high) + rest, bitpos, m, result);
      MoreReadsBack(high, bitpos + 7, m * 0x80, result + low * m, rest);
    }
  }

  lemma {:induction false} Split(v: nat, low: nat, high: nat, m: nat)
    requires m == 0x80 || m == 0x4000 || m == 0x20_0000 || m == 0x1000_0000
    requires v == low + 0x80 * high && low < 0x80
    ensures v * m == low * m + high * (m * 0x80) && low * m <= 0x7F * m
    ensures high > 0 ==> high * (m * 0x80) >= m * 0x80
  {
    if m == 0x80 {
    } else if m == 0x4000 {
    } else if m == 0x20_0000 {
    } else {
    }
  }

  lemma {:induction false} Reads32Back(v: nat, rest: Data)
    requires v < LIMIT32
    ensures ReadVarint32(VarintBytes(v) + rest) == Some((v, rest))
  {
    var input := VarintBytes(v) + rest;
    if v < 0x80 {
      assert input[1..] == rest;
    } else {
      assert input[0] == v % 0x80 + 0x80 && input[1..] == VarintBytes(v / 0x80) + rest;
      MoreReadsBack(v / 0x80, 7, 0x80, v % 0x80, rest);
    }
  }

  lemma {:induction false} ZigZagInverse(n: int)
    requires -0x8000_0000_0000_0000 <= n < 0x8000_0000_0000_0000
    ensures ZigZag(n) < LIMIT64 && UnZigZag(ZigZag(n)) == n
  {
    if n < 0 {
      assert (2 * n) % LIMIT64 == 2 * n + LIMIT64;
    }
  }

  lemma {:induction false} SignedInverse(n: int, w: nat)
    requires IsWidth(w) && -Half(w) <= n < Half(w)
    ensures Signed(n % LIMIT64, w) == n
  {
    if n < 0 {
      assert n % LIMIT64 == n + LIMIT64;
      if w != 8 {
        assert (n + LIMIT64) % LIMIT32 == n + LIMIT32;
      }
    }
  }

  lemma {:induction false} NumberReadsBack(k: FieldType, v: Val, rest: Data)
    requires KindOk(k) && ValOk(k, v) && (k.Varint? || k.UVarint? || k.SVarint? || k.Fixed32? || k.Fixed64?)
    ensures DecNumber(k, EncVal(k, v) + rest) == Some((v, rest))
  {
    match k
    case Varint(w) =>
      SignedInverse(v.n, w);
      Varint64ReadsBack(v.n % LIMIT64, rest);
    case UVarint(w) => Varint64ReadsBack(v.n, rest);
    case SVarint(w) =>
      ZigZagInverse(v.n);
      Varint64ReadsBack(ZigZag(v.n), rest);
    case Fixed32 => FixedReadsBack(v.n, 4, rest);
    case Fixed64 => FixedReadsBack(v.n, 8, rest);
  }

  lemma {:induction false} FixedReadsBack(v: nat, n: nat, rest: Data)
    requires (n == 4 && v < LIMIT32) || (n == 8 && v < LIMIT64)
    ensures |FixedBytes(v, n) + rest| >= n
    ensures DecodeFixed((FixedBytes(v, n) + rest)[..n]) == v && (FixedBytes(v, n) + rest)[n..] == rest
  {
    Width32();
    Width64();
    FixedRoundTrip(v, n);
    assert (FixedBytes(v, n) + rest)[..n] == FixedBytes(v, n);
    hide FixedBytes;
  }

  lemma {:induction false} NoZeroCString(d: Data)
    requires 0 !in d
    ensures CString(d) == d
  {
    if d != [] {
      NoZeroCString(d[1..]);
      assert d == [d[0]] + d[1..];
    }
  }

  lemma {:induction false} PrefixedReadsBack(d: Data, rest: Data)
    requires |d| < LIMIT32
    ensures ReadVarint32(Prefixed(d) + rest) == Some((|d|, d + rest)) && (d + rest)[..|d|] == d && (d + rest)[|d|..] == rest
    ensures Substream(Prefixed(d) + rest) == Some((d, rest))
  {
    Reads32Back(|d|, d + rest);
    hide VarintBytes, ReadVarint32;
    assert Prefixed(d) + rest == VarintBytes(|d|) + (d + rest);
  }

  lemma {:induction false} BlobReadsBack(k: FieldType, v: Val, rest: Data)
    requires KindOk(k) && ValOk(k, v) && (k.Bytes? || k.Text? || k.FixedLength?)
    ensures DecBlob(k, EncVal(k, v) + rest) == Some((v, rest))
  {
    PrefixedReadsBack(v.d, rest);
    hide Prefixed, ReadVarint32;
    match k
    case Bytes(_) =>
    case Text(_) => NoZeroCString(v.d);
    case FixedLength(n) =>
      if n == 0 {
        assert v.d == seq(n, _ => 0) && v.d + rest == rest;
      }
  }

  // ---------- what a message becomes ----------

  /** The same message with absent fields at their defaults. */
  function NormalVal(k: FieldType, v: Val): Val
    requires ValOk(k, v)
    decreases KindDepth(k), 0, 1
  {
    match k
    case Message(sub) => Struct(Normal(sub, v.slots))
    case _ => v
  }

  function NormalItems(k: FieldType, items: seq<Val>): (r: seq<Val>)
    requires forall v :: v in items ==> ValOk(k, v)
    ensures |r| == |items|
    decreases KindDepth(k), 0, 2
  {
    seq(|items|, i requires 0 <= i < |items| => NormalVal(k, items[i]))
  }

  function NormalSlot(fs: seq<Field>, i: nat, s: Slot): Slot
    requires i < |fs| && SlotOk(fs, i, s)
    decreases Depth(fs), 1, 0
  {
    DeeperThanFields(fs, i);
    var f := fs[i];
    match f.rule
    case Required => Single(NormalVal(f.kind, s.v))
    case Implicit => Single(NormalVal(f.kind, s.v))
    case Optional => if s.has then Maybe(true, NormalVal(f.kind, s.v)) else Maybe(false, DefaultOf(f))
    case OneOf(_) => if s.has then Maybe(true, NormalVal(f.kind, s.v)) else Maybe(false, DefaultOf(f))
    case Repeated(_) => Many(NormalItems(f.kind, s.items))
    case FixedCount(_) => Many(NormalItems(f.kind, s.items))
  }

  function Normal(fs: seq<Field>, slots: seq<Slot>): (r: seq<Slot>)
    requires StructOk(fs, slots)
    ensures |r| == |fs|
    decreases Depth(fs), 2, 0
  {
    seq(|fs|, i requires 0 <= i < |fs| => NormalSlot(fs, i, slots[i]))
  }

  /** A field left out because it is zero has its default. */
  lemma {:induction false} ZeroIsDefault(f: Field, v: Val)
    requires FieldOk(f) && f.rule.Implicit? && ValOk(f.kind, v) && IsZero(f.kind, v)
    ensures NormalVal(f.kind, v) == DefaultOf(f)
    decreases KindDepth(f.kind), 1
  {
    match f.kind
    case Message(sub) => ZeroStructIsDefault(sub, v.slots);
    case FixedLength(n) =>
      assert v.d == seq(n, _ => 0);
    case _ =>
  }

  lemma {:induction false} ZeroStructIsDefault(fs: seq<Field>, slots: seq<Slot>)
    requires FieldsOk(fs) && StructOk(fs, slots) && StructIsZero(fs, slots)
    ensures Normal(fs, slots) == Defaults(fs)
    decreases Depth(fs), 2
  {
    forall i: nat | i < |fs| ensures NormalSlot(fs, i, slots[i]) == DefaultSlot(fs[i]) {
      DeeperThanFields(fs, i);
      assert SlotOk(fs, i, slots[i]) && SlotIsZero(fs, i, slots[i]) && FieldOk(fs[i]);
      if fs[i].rule.Implicit? {
        ZeroIsDefault(fs[i], slots[i].v);
      }
    }
  }

  // ---------- decoding what was encoded ----------

  /** A message is decoded into a struct that holds its defaults. */
  predicate StartsFresh(k: FieldType, current: Val, init: bool) {
    match k
    case Message(sub) => init || current == Struct(Defaults(sub))
    case _ => true
  }

  lemma {:induction false} ScalarReadsBack(k: FieldType, v: Val, current: Val, init: bool, rest: Data)
    requires KindOk(k) && ValOk(k, v) && !k.Message?
    ensures DecVal(k, current, init, EncVal(k, v) + rest) == Some((v, rest))
  {
    match k
    case Bool => Reads32Back(if v.b then 1 else 0, rest);
    case Bytes(_) => BlobReadsBack(k, v, rest);
    case Text(_) => BlobReadsBack(k, v, rest);
    case FixedLength(_) => BlobReadsBack(k, v, rest);
    case _ => NumberReadsBack(k, v, rest);
  }

  /** Every value reads back, nested messages included. */
  lemma {:induction false} ValReadsBack(k: FieldType, v: Val, current: Val, init: bool, rest: Data)
    requires KindOk(k) && ValOk(k, v) && StartsFresh(k, current, init) && |EncVal(k, v)| < LIMIT32
    ensures DecVal(k, current, init, EncVal(k, v) + rest) == Some((NormalVal(k, v), rest))
    decreases KindDepth(k), 0, 0
  {
    if k.Message? {
      var body := Encode(k.fields, v.slots);
      PrefixedReadsBack(body, rest);
      StructReadsBack(k.fields, v.slots);
      hide Encode, DecStruct, Defaults, Normal, Prefixed, Substream, FieldsOk, StructOk;
    } else {
      ScalarReadsBack(k, v, current, init, rest);
    }
  }

  /** The struct when the first i fields have been decoded, those in lost having been left out. */
  function SlotsUpTo(fs: seq<Field>, slots: seq<Slot>, lost: set<nat>, i: nat): (r: seq<Slot>)
    requires StructOk(fs, slots)
    ensures |r| == |fs|
  {
    seq(|fs|, j requires 0 <= j < |fs| => if j < i && j !in lost then NormalSlot(fs, j, slots[j]) else DefaultSlot(fs[j]))
  }

  /** The last fixed-count array before field i that has items. */
  function LastFixed(fs: seq<Field>, lost: set<nat>, i: nat): (r: Option<nat>)
    requires i <= |fs|
    ensures r.Some? ==> r.value < i && fs[r.value].rule.FixedCount?
  {
    if i == 0 then None
    else if fs[i - 1].rule.FixedCount? && fs[i - 1].rule.n > 0 && i - 1 !in lost then Some(i - 1)
    else LastFixed(fs, lost, i - 1)
  }

  function StateAt(fs: seq<Field>, slots: seq<Slot>, lost: set<nat>, i: nat): (st: DState)
    requires StructOk(fs, slots) && i <= |fs|
    ensures |st.slots| == |fs|
  {
    var fixed := LastFixed(fs, lost, i);
    DState(SlotsUpTo(fs, slots, lost, i), set j: nat | j < i && j !in lost && fs[j].rule.Required? :: j, fixed,
           if fixed.Some? then fs[fixed.value].rule.n else 0)
  }

  /** A tag leads to its field. */
  lemma {:induction false} TagLeadsToField(fs: seq<Field>, st: DState, i: nat, wireType: nat, body: Data)
    requires FieldsOk(fs) && i < |fs| == |st.slots| && wireType < 8
    ensures DecLoop(fs, st, TagBytes(fs[i].tag, wireType) + body) ==
            match DecField(fs, st, i, wireType, body)
            case None => None
            case Some((st', rest)) => DecLoop(fs, st', rest)
  {
    var temp := 8 * fs[i].tag + wireType;
    assert FieldOk(fs[i]) && 0 < temp < LIMIT32 && temp / 8 == fs[i].tag && temp % 8 == wireType;
    Reads32Back(temp, body);
    var j := Find(fs, fs[i].tag);
    assert j == i;
    hide DecField, ReadVarint32, VarintBytes, Find, Skip;
    assert TagBytes(fs[i].tag, wireType) + body != [];
  }

  /** What a field that holds one value does to the state. */
  lemma {:induction false} OneValueStep(fs: seq<Field>, slots: seq<Slot>, lost: set<nat>, i: nat, v: Val)
    requires i !in lost && StructOk(fs, slots) && i < |fs| && ValOk(fs[i].kind, v)
    requires fs[i].rule.Required? || fs[i].rule.Implicit? ==> slots[i] == Single(v)
    requires fs[i].rule.Optional? || fs[i].rule.OneOf? ==> slots[i] == Maybe(true, v)
    requires !fs[i].rule.Repeated? && !fs[i].rule.FixedCount?
    ensures var st, f := StateAt(fs, slots, lost, i), fs[i];
            st.(slots := StoreVal(fs, st.slots, i, NormalVal(f.kind, v)), seen := st.seen + (if f.rule.Required? then {i} else {}))
            == StateAt(fs, slots, lost, i + 1)
  {
    var st, f := StateAt(fs, slots, lost, i), fs[i];
    DeeperThanFields(fs, i);
    assert SlotOk(fs, i, slots[i]);
    var after := StoreVal(fs, st.slots, i, NormalVal(f.kind, v));
    forall j: nat | j < |fs| ensures after[j] == SlotsUpTo(fs, slots, lost, i + 1)[j] {
      if f.rule.OneOf? && j < i && fs[j].rule == f.rule {
        assert OneOfOk(fs, slots, j, i) && SlotOk(fs, j, slots[j]);
      }
    }
    assert after == SlotsUpTo(fs, slots, lost, i + 1);
  }

  lemma {:induction false} AbsentIsDefault(fs: seq<Field>, i: nat, s: Slot)
    requires FieldsOk(fs) && i < |fs| && SlotOk(fs, i, s) && EncSlot(fs, i, s) == []
    ensures NormalSlot(fs, i, s) == DefaultSlot(fs[i]) && !fs[i].rule.Required?
    ensures fs[i].rule.FixedCount? ==> fs[i].rule.n == 0
  {
    DeeperThanFields(fs, i);
    assert FieldOk(fs[i]);
    NothingWritten(fs, i, s);
    if fs[i].rule.Implicit? {
      ZeroIsDefault(fs[i], s.v);
    }
    hide EncVal, EncArray, ValOk, FieldsOk, EncSlot, TagBytes, IsZero, DefaultOf, NormalVal;
  }

  /** A field that writes nothing leaves its default. */
  lemma {:induction false} AbsentStep(fs: seq<Field>, slots: seq<Slot>, lost: set<nat>, i: nat)
    requires FieldsOk(fs) && StructOk(fs, slots) && i < |fs| && SlotOk(fs, i, slots[i]) && EncSlot(fs, i, slots[i]) == []
    ensures StateAt(fs, slots, lost, i + 1) == StateAt(fs, slots, lost, i)
  {
    AbsentIsDefault(fs, i, slots[i]);
    hide FieldsOk, SlotOk, EncSlot, NormalSlot, DefaultSlot;
    SameSlotsUpTo(fs, slots, lost, i);
  }

  lemma {:induction false} SameSlotsUpTo(fs: seq<Field>, slots: seq<Slot>, lost: set<nat>, i: nat)
    requires StructOk(fs, slots) && i < |fs| && (i in lost || NormalSlot(fs, i, slots[i]) == DefaultSlot(fs[i]))
    ensures SlotsUpTo(fs, slots, lost, i + 1) == SlotsUpTo(fs, slots, lost, i)
  {
    hide SlotOk, NormalSlot, DefaultSlot, OneOfOk;
  }

  lemma {:induction false} NothingWritten(fs: seq<Field>, i: nat, s: Slot)
    requires i < |fs| && SlotOk(fs, i, s) && EncSlot(fs, i, s) == []
    ensures match fs[i].rule
            case Required => false
            case Implicit => IsZero(fs[i].kind, s.v)
            case Optional => !s.has
            case OneOf(_) => !s.has
            case Repeated(_) => s.items == []
            case FixedCount(_) => s.items == []
  {
    DeeperThanFields(fs, i);
    hide EncVal, VarintBytes, IsZero, EncArray;
    assert |TagBytes(fs[i].tag, WireType(fs[i].kind))| >= 1;
    if s.Many? {
      ArrayWritten(fs[i].tag, fs[i].kind, s.items);
    }
  }

  lemma {:induction false} ArrayWritten(tag: nat, k: FieldType, items: seq<Val>)
    requires forall v :: v in items ==> ValOk(k, v)
    ensures items != [] ==> EncArray(tag, k, items) != []
  {
    hide EncVal, VarintBytes, EncPacked;
    assert |TagBytes(tag, 2)| >= 1 && |TagBytes(tag, WireType(k))| >= 1;
  }

  // ---------- arrays ----------

  /** The array of field i when the first k items have been decoded. */
  function ItemsAfter(fs: seq<Field>, i: nat, items: seq<Val>, k: nat): (r: seq<Val>)
    requires i < |fs| && SlotOk(fs, i, Many(items)) && k <= |items|
    ensures fs[i].rule.Repeated? ==> |r| == k
    ensures fs[i].rule.FixedCount? ==> |r| == fs[i].rule.n == |items|
  {
    NormalItems(fs[i].kind, items)[..k] + if fs[i].rule.FixedCount? then seq(|items| - k, _ => DefaultOf(fs[i])) else []
  }

  function ArrayState(fs: seq<Field>, slots: seq<Slot>, lost: set<nat>, i: nat, k: nat): (st: DState)
    requires StructOk(fs, slots) && i < |fs| && slots[i].Many? && SlotOk(fs, i, slots[i]) && k <= |slots[i].items|
    ensures |st.slots| == |fs|
  {
    var st := StateAt(fs, slots, lost, i);
    var filled := st.(slots := st.slots[i := Many(ItemsAfter(fs, i, slots[i].items, k))]);
    if fs[i].rule.FixedCount? && k > 0 then filled.(fixed := Some(i), fixedSize := k) else filled
  }

  lemma {:induction false} ArrayEnds(fs: seq<Field>, slots: seq<Slot>, lost: set<nat>, i: nat)
    requires i !in lost && StructOk(fs, slots) && i < |fs| && slots[i].Many? && SlotOk(fs, i, slots[i])
    ensures ArrayState(fs, slots, lost, i, 0) == StateAt(fs, slots, lost, i)
    ensures ArrayState(fs, slots, lost, i, |slots[i].items|) == StateAt(fs, slots, lost, i + 1)
  {
    DeeperThanFields(fs, i);
    var items := slots[i].items;
    assert ItemsAfter(fs, i, items, |items|) == NormalItems(fs[i].kind, items);
    assert ItemsAfter(fs, i, items, 0) == DefaultSlot(fs[i]).items;
    var before, after := StateAt(fs, slots, lost, i), StateAt(fs, slots, lost, i + 1);
    assert before.slots[i] == DefaultSlot(fs[i]);
    assert before.slots[i := Many(ItemsAfter(fs, i, items, 0))] == before.slots;
    assert before.slots[i := NormalSlot(fs, i, slots[i])] == after.slots;
    assert before.seen == after.seen;
  }

  lemma {:induction false} ItemsStep(fs: seq<Field>, i: nat, items: seq<Val>, k: nat)
    requires i < |fs| && SlotOk(fs, i, Many(items)) && k < |items|
    ensures PutItem(ItemsAfter(fs, i, items, k), k, NormalVal(fs[i].kind, items[k])) == ItemsAfter(fs, i, items, k + 1)
  {
    DeeperThanFields(fs, i);
    var all := NormalItems(fs[i].kind, items);
    assert all[..k + 1] == all[..k] + [all[k]] && all[k] == NormalVal(fs[i].kind, items[k]);
  }

  /** The items of a packed array read back. */
  lemma {:induction false} PackedReadsBack(fs: seq<Field>, i: nat, items: seq<Val>, k: nat, max: nat)
    requires i < |fs| && SlotOk(fs, i, Many(items)) && k <= |items| <= max && KindOk(fs[i].kind) && Packable(fs[i].kind)
    ensures DecPacked(fs[i].kind, ItemsAfter(fs, i, items, k), k, max, EncPacked(fs[i].kind, items[k..]))
         == Some(Filled(ItemsAfter(fs, i, items, |items|), |items|))
    decreases |items| - k
  {
    DeeperThanFields(fs, i);
    var kind := fs[i].kind;
    if k < |items| {
      var rest := EncPacked(kind, items[k + 1..]);
      assert items[k..][1..] == items[k + 1..] && items[k..][0] == items[k];
      ScalarReadsBack(kind, items[k], ZeroVal(kind), true, rest);
      ItemsStep(fs, i, items, k);
      PackedReadsBack(fs, i, items, k + 1, max);
      NotEmpty(kind, items[k]);
      hide DecVal, EncVal, ItemsAfter, PutItem;
    }
  }

  lemma {:induction false} NotEmpty(k: FieldType, v: Val)
    requires ValOk(k, v) && Packable(k)
    ensures EncVal(k, v) != []
  {
  }

  function RoomOf(f: Field): nat {
    match f.rule
    case Repeated(max) => max
    case FixedCount(n) => n
    case _ => 0
  }

  /** decode_static_field on an array: where the filling goes on. */
  lemma {:induction false} ArrayField(fs: seq<Field>, slots: seq<Slot>, lost: set<nat>, i: nat, k: nat, to: nat, wireType: nat, input: Data, rest: Data)
    requires i !in lost && FieldsOk(fs) && StructOk(fs, slots) && i < |fs| && slots[i].Many? && SlotOk(fs, i, slots[i]) && k < to <= |slots[i].items|
    requires KindOk(fs[i].kind)
    requires DecArray(fs[i].kind, ItemsAfter(fs, i, slots[i].items, k), k, RoomOf(fs[i]), wireType, input)
          == Some((Filled(ItemsAfter(fs, i, slots[i].items, to), to), rest))
    ensures DecField(fs, ArrayState(fs, slots, lost, i, k), i, wireType, input) == Some((ArrayState(fs, slots, lost, i, to), rest))
  {
    var st, items := ArrayState(fs, slots, lost, i, k), slots[i].items;
    var before := StateAt(fs, slots, lost, i);
    assert st.slots[i] == Many(ItemsAfter(fs, i, items, k));
    assert st.slots[i := Many(ItemsAfter(fs, i, items, to))] == before.slots[i := Many(ItemsAfter(fs, i, items, to))];
    hide DecArray, ItemsAfter, StructOk, SlotsUpTo, FieldsOk;
    if fs[i].rule.FixedCount? && k == 0 {
      assert before.fixed != Some(i) && FixedDone(fs, before);
    }
  }

  /** The items of an unpacked array read back, one tag each. */
  lemma {:induction false} EachReadsBack(fs: seq<Field>, slots: seq<Slot>, lost: set<nat>, i: nat, k: nat, rest: Data)
    requires i !in lost && FieldsOk(fs) && StructOk(fs, slots) && i < |fs| && slots[i].Many? && SlotOk(fs, i, slots[i]) && k <= |slots[i].items|
    requires !Packable(fs[i].kind) && |EncEach(fs[i].tag, fs[i].kind, slots[i].items[k..])| < LIMIT32
    ensures DecLoop(fs, ArrayState(fs, slots, lost, i, k), EncEach(fs[i].tag, fs[i].kind, slots[i].items[k..]) + rest)
         == DecLoop(fs, ArrayState(fs, slots, lost, i, |slots[i].items|), rest)
    decreases Depth(fs), 1, |slots[i].items| - k
  {
    DeeperThanFields(fs, i);
    var f, items := fs[i], slots[i].items;
    if k < |items| {
      assert FieldOk(f);
      assert items[k..][1..] == items[k + 1..] && items[k..][0] == items[k];
      var tail := EncEach(f.tag, f.kind, items[k + 1..]) + rest;
      var wt := WireType(f.kind);
      EachParts(TagBytes(f.tag, wt), EncVal(f.kind, items[k]), EncEach(f.tag, f.kind, items[k + 1..]), rest);
      ValReadsBack(f.kind, items[k], ZeroVal(f.kind), true, tail);
      ItemsStep(fs, i, items, k);
      ArrayField(fs, slots, lost, i, k, k + 1, wt, EncVal(f.kind, items[k]) + tail, tail);
      TagLeadsToField(fs, ArrayState(fs, slots, lost, i, k), i, wt, EncVal(f.kind, items[k]) + tail);
      EachReadsBack(fs, slots, lost, i, k + 1, rest);
      hide DecLoop, ArrayState, EncVal, TagBytes, DecArray;
    } else {
      assert items[k..] == [] && [] + rest == rest;
    }
  }

  lemma {:induction false} EachParts(a: Data, b: Data, c: Data, d: Data)
    ensures a + b + c + d == a + (b + (c + d)) && |b| <= |a + b + c| && |c| <= |a + b + c|
  {
  }

  /** A whole array reads back. */
  lemma {:induction false} ArrayReadsBack(fs: seq<Field>, slots: seq<Slot>, lost: set<nat>, i: nat, rest: Data)
    requires i !in lost && FieldsOk(fs) && StructOk(fs, slots) && i < |fs| && slots[i].Many? && SlotOk(fs, i, slots[i])
    requires slots[i].items != [] && |EncArray(fs[i].tag, fs[i].kind, slots[i].items)| < LIMIT32
    ensures DecLoop(fs, StateAt(fs, slots, lost, i), EncArray(fs[i].tag, fs[i].kind, slots[i].items) + rest)
         == DecLoop(fs, StateAt(fs, slots, lost, i + 1), rest)
    decreases Depth(fs), 2, 0
  {
    DeeperThanFields(fs, i);
    var f, items := fs[i], slots[i].items;
    assert FieldOk(f);
    ArrayEnds(fs, slots, lost, i);
    assert items[0..] == items;
    if Packable(f.kind) {
      var body := EncPacked(f.kind, items);
      PackedParts(f.tag, body, rest);
      PackedReadsBack(fs, i, items, 0, RoomOf(f));
      PrefixedReadsBack(body, rest);
      hide DecLoop, ArrayState, StateAt, ItemsAfter, EncPacked, DecPacked, TagBytes, Prefixed, Substream, FieldsOk, StructOk;
      ArrayField(fs, slots, lost, i, 0, |items|, 2, Prefixed(body) + rest, rest);
      TagLeadsToField(fs, ArrayState(fs, slots, lost, i, 0), i, 2, Prefixed(body) + rest);
    } else {
      EachReadsBack(fs, slots, lost, i, 0, rest);
    }
  }

  lemma {:induction false} PackedParts(tag: nat, body: Data, rest: Data)
    ensures TagBytes(tag, 2) + Prefixed(body) + rest == TagBytes(tag, 2) + (Prefixed(body) + rest)
    ensures |body| <= |TagBytes(tag, 2) + Prefixed(body)|
  {
  }

  /** From state a the input x leads to where y leads from state b. */
  ghost predicate Agree(fs: seq<Field>, a: DState, x: Data, b: DState, y: Data) {
    FieldsOk(fs) && |a.slots| == |b.slots| == |fs| && DecLoop(fs, a, x) == DecLoop(fs, b, y)
  }

  /** From state a the input x leads to state b and ends there. */
  ghost predicate Ends(fs: seq<Field>, a: DState, x: Data, b: DState) {
    FieldsOk(fs) && |a.slots| == |fs| && DecLoop(fs, a, x) == Some(b)
  }

  lemma {:induction false} EndsBefore(fs: seq<Field>, a: DState, x: Data, b: DState, y: Data, c: DState)
    requires Agree(fs, a, x, b, y) && Ends(fs, b, y, c)
    ensures Ends(fs, a, x, c)
  {
  }

  lemma {:induction false} EndsHere(fs: seq<Field>, a: DState)
    requires FieldsOk(fs) && |a.slots| == |fs|
    ensures Ends(fs, a, [], a)
  {
  }

  /** Every field reads back, and brings the state one field on. */
  lemma {:induction false} FieldReadsBack(fs: seq<Field>, slots: seq<Slot>, lost: set<nat>, i: nat, rest: Data)
    requires i !in lost && FieldsOk(fs) && StructOk(fs, slots) && i < |fs| && SlotOk(fs, i, slots[i]) && |EncSlot(fs, i, slots[i])| < LIMIT32
    ensures Agree(fs, StateAt(fs, slots, lost, i), EncSlot(fs, i, slots[i]) + rest, StateAt(fs, slots, lost, i + 1), rest)
    decreases Depth(fs), 3, 0
  {
    hide *;
    EncFromStep(fs, slots, i);
    if EncSlot(fs, i, slots[i]) == [] {
      AbsentStep(fs, slots, lost, i);
      assert [] + rest == rest;
      AgreeWith(fs, StateAt(fs, slots, lost, i), rest, StateAt(fs, slots, lost, i + 1), rest);
    } else if slots[i].Many? {
      ManyIsArray(fs, i, slots[i]);
      ArrayReadsBack(fs, slots, lost, i, rest);
      AgreeWith(fs, StateAt(fs, slots, lost, i), EncSlot(fs, i, slots[i]) + rest, StateAt(fs, slots, lost, i + 1), rest);
    } else {
      OneValueReadsBack(fs, slots, lost, i, rest);
      AgreeWith(fs, StateAt(fs, slots, lost, i), EncSlot(fs, i, slots[i]) + rest, StateAt(fs, slots, lost, i + 1), rest);
    }
  }

  lemma {:induction false} AgreeWith(fs: seq<Field>, a: DState, x: Data, b: DState, y: Data)
    requires FieldsOk(fs) && |a.slots| == |b.slots| == |fs| && DecLoop(fs, a, x) == DecLoop(fs, b, y)
    ensures Agree(fs, a, x, b, y)
  {
  }

  lemma {:induction false} ManyIsArray(fs: seq<Field>, i: nat, s: Slot)
    requires i < |fs| && s.Many? && SlotOk(fs, i, s) && EncSlot(fs, i, s) != []
    ensures (forall v :: v in s.items ==> ValOk(fs[i].kind, v)) && s.items != []
    ensures EncSlot(fs, i, s) == EncArray(fs[i].tag, fs[i].kind, s.items)
  {
    DeeperThanFields(fs, i);
    hide ValOk, EncVal;
  }

  lemma {:induction false} OneValueReadsBack(fs: seq<Field>, slots: seq<Slot>, lost: set<nat>, i: nat, rest: Data)
    requires i !in lost && FieldsOk(fs) && StructOk(fs, slots) && i < |fs| && SlotOk(fs, i, slots[i]) && !slots[i].Many?
    requires EncSlot(fs, i, slots[i]) != [] && |EncSlot(fs, i, slots[i])| < LIMIT32
    ensures DecLoop(fs, StateAt(fs, slots, lost, i), EncSlot(fs, i, slots[i]) + rest) == DecLoop(fs, StateAt(fs, slots, lost, i + 1), rest)
    decreases Depth(fs), 2, 0
  {
    DeeperThanFields(fs, i);
    var f, v, st := fs[i], slots[i].v, StateAt(fs, slots, lost, i);
    var wt := WireType(f.kind);
    assert FieldOk(f) && st.slots[i] == DefaultSlot(f);
    assert EncSlot(fs, i, slots[i]) == TagBytes(f.tag, wt) + EncVal(f.kind, v);
    ValueParts(TagBytes(f.tag, wt), EncVal(f.kind, v), rest);
    ValReadsBack(f.kind, v, DefaultOf(f), false, rest);
    OneValueStep(fs, slots, lost, i, v);
    assert StartVal(f, st.slots[i]) == DefaultOf(f);
    hide StateAt, EncVal, TagBytes, DefaultOf, FieldsOk, StructOk, DecLoop, DecVal, NormalVal, StoreVal, EncSlot, DefaultSlot;
    assert DecField(fs, st, i, wt, EncVal(f.kind, v) + rest) == Some((StateAt(fs, slots, lost, i + 1), rest));
    TagLeadsToField(fs, st, i, wt, EncVal(f.kind, v) + rest);
  }

  lemma {:induction false} ValueParts(a: Data, b: Data, c: Data)
    ensures a + b + c == a + (b + c) && |b| <= |a + b|
  {
  }

  lemma {:induction false} FromReadsBack(fs: seq<Field>, slots: seq<Slot>, i: nat)
    requires FieldsOk(fs) && StructOk(fs, slots) && i <= |fs| && |EncFrom(fs, slots, i)| < LIMIT32
    ensures Ends(fs, StateAt(fs, slots, {}, i), EncFrom(fs, slots, i), StateAt(fs, slots, {}, |fs|))
    decreases Depth(fs), 4, |fs| - i
  {
    hide *;
    EncFromStep(fs, slots, i);
    if i < |fs| {
      SlotFits(fs, slots, i);
      var tail := EncFrom(fs, slots, i + 1);
      FieldReadsBack(fs, slots, {}, i, tail);
      FromReadsBack(fs, slots, i + 1);
      EndsBefore(fs, StateAt(fs, slots, {}, i), EncFrom(fs, slots, i), StateAt(fs, slots, {}, i + 1), tail, StateAt(fs, slots, {}, |fs|));
    } else {
      EndsHere(fs, StateAt(fs, slots, {}, i));
    }
  }

  lemma {:induction false} EncFromStep(fs: seq<Field>, slots: seq<Slot>, i: nat)
    requires StructOk(fs, slots) && i <= |fs|
    ensures |slots| == |fs|
    ensures i == |fs| ==> EncFrom(fs, slots, i) == []
    ensures i < |fs| ==> SlotOk(fs, i, slots[i]) && EncFrom(fs, slots, i) == EncSlot(fs, i, slots[i]) + EncFrom(fs, slots, i + 1)
  {
    hide SlotOk, EncSlot;
  }

  lemma {:induction false} SlotFits(fs: seq<Field>, slots: seq<Slot>, i: nat)
    requires StructOk(fs, slots) && i < |fs|
    ensures SlotOk(fs, i, slots[i])
  {
    hide SlotOk;
  }

  lemma {:induction false} FieldFits(fs: seq<Field>, i: nat)
    requires FieldsOk(fs) && i < |fs|
    ensures FieldOk(fs[i])
  {
    hide FieldOk;
  }

  /** The message as it is when the fields in lost have never been there. */
  function NormalWithout(fs: seq<Field>, slots: seq<Slot>, lost: set<nat>): (r: seq<Slot>)
    requires StructOk(fs, slots)
    ensures |r| == |fs|
  {
    seq(|fs|, i requires 0 <= i < |fs| => if i in lost then DefaultSlot(fs[i]) else NormalSlot(fs, i, slots[i]))
  }

  lemma {:induction false} StartsAndEnds(fs: seq<Field>, slots: seq<Slot>, lost: set<nat>)
    requires FieldsOk(fs) && StructOk(fs, slots)
    ensures StateAt(fs, slots, lost, 0) == DState(Defaults(fs), {}, None, 0)
    ensures var st := StateAt(fs, slots, lost, |fs|);
            && st.slots == NormalWithout(fs, slots, lost) && FixedDone(fs, st)
            && (RequiredSeen(fs, st.seen) <==>
                  forall i: nat :: i < |fs| && i in lost && fs[i].rule.Required? ==> RequiredBefore(fs, i) >= MAX_REQUIRED)
    ensures lost == {} ==> NormalWithout(fs, slots, lost) == Normal(fs, slots)
  {
    assert SlotsUpTo(fs, slots, lost, 0) == Defaults(fs);
    assert SlotsUpTo(fs, slots, lost, |fs|) == NormalWithout(fs, slots, lost);
    assert lost == {} ==> NormalWithout(fs, slots, lost) == Normal(fs, slots);
    hide FieldsOk, StructOk, DefaultSlot, NormalSlot, RequiredBefore;
  }

  lemma {:induction false} StructReadsBack(fs: seq<Field>, slots: seq<Slot>)
    requires FieldsOk(fs) && StructOk(fs, slots) && |Encode(fs, slots)| < LIMIT32
    ensures DecStruct(fs, Defaults(fs), Encode(fs, slots)) == Some(Normal(fs, slots))
    decreases Depth(fs), 5, 0
  {
    FromReadsBack(fs, slots, 0);
    StartsAndEnds(fs, slots, {});
    hide FieldsOk, StructOk, EncFrom, StateAt, DecLoop, Normal, Defaults, FixedDone, RequiredSeen, NormalWithout, RequiredBefore;
  }

  /** For every descriptor and every message it allows: pb_decode of what pb_encode wrote
      restores the message, absent fields at their defaults. */
  lemma {:induction false} MessageRoundTrip(fs: seq<Field>, slots: seq<Slot>)
    requires FieldsOk(fs) && StructOk(fs, slots) && |Encode(fs, slots)| < LIMIT32
    ensures NanoPbDecoding.Decode(fs, Encode(fs, slots)) == Some(Normal(fs, slots))
  {
    StructReadsBack(fs, slots);
  }

  // ---------- up to a zero byte ----------

  lemma {:induction false} AgreeOn(fs: seq<Field>, a: DState, x: Data, b: DState, y: Data, c: DState, z: Data)
    requires Agree(fs, a, x, b, y) && Agree(fs, b, y, c, z)
    ensures Agree(fs, a, x, c, z)
  {
  }

  lemma {:induction false} FromReadsOn(fs: seq<Field>, slots: seq<Slot>, i: nat, rest: Data)
    requires FieldsOk(fs) && StructOk(fs, slots) && i <= |fs| && |EncFrom(fs, slots, i)| < LIMIT32
    ensures Agree(fs, StateAt(fs, slots, {}, i), EncFrom(fs, slots, i) + rest, StateAt(fs, slots, {}, |fs|), rest)
    decreases |fs| - i
  {
    hide *;
    EncFromStep(fs, slots, i);
    if i < |fs| {
      SlotFits(fs, slots, i);
      var tail := EncFrom(fs, slots, i + 1);
      assert EncSlot(fs, i, slots[i]) + tail + rest == EncSlot(fs, i, slots[i]) + (tail + rest);
      FieldReadsBack(fs, slots, {}, i, tail + rest);
      FromReadsOn(fs, slots, i + 1, rest);
      AgreeOn(fs, StateAt(fs, slots, {}, i), EncFrom(fs, slots, i) + rest, StateAt(fs, slots, {}, i + 1), tail + rest,
              StateAt(fs, slots, {}, |fs|), rest);
    } else {
      assert [] + rest == rest;
      AgreeWith(fs, StateAt(fs, slots, {}, i), rest, StateAt(fs, slots, {}, i), rest);
    }
  }

  lemma {:induction false} ZeroEnds(fs: seq<Field>, a: DState, x: Data, b: DState, junk: Data)
    requires Agree(fs, a, x, b, [0] + junk)
    ensures |a.slots| == |fs| && FieldsOk(fs) && DecLoop(fs, a, x) == Some(b)
  {
    assert ReadVarint32([0] + junk) == Some((0, ([0] + junk)[1..]));
  }

  /** A zero byte ends a message; what is behind it is not looked at. */
  lemma {:induction false} ZeroEndsMessage(fs: seq<Field>, slots: seq<Slot>, junk: Data)
    requires FieldsOk(fs) && StructOk(fs, slots) && |Encode(fs, slots)| < LIMIT32
    ensures NanoPbDecoding.Decode(fs, Encode(fs, slots) + [0] + junk) == Some(Normal(fs, slots))
  {
    var x := Encode(fs, slots) + ([0] + junk);
    assert Encode(fs, slots) + [0] + junk == x && Encode(fs, slots) == EncFrom(fs, slots, 0);
    FromReadsOn(fs, slots, 0, [0] + junk);
    ZeroEnds(fs, StateAt(fs, slots, {}, 0), x, StateAt(fs, slots, {}, |fs|), junk);
    StartsAndEnds(fs, slots, {});
    hide FieldsOk, StructOk, EncFrom, StateAt, DecLoop, Normal, Defaults, FixedDone, RequiredSeen, NormalWithout, RequiredBefore, Agree;
  }
}
