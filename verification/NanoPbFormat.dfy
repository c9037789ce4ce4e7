/** ios/Pods/nanopb: messages described by descriptors, as they stand in memory and on the
    wire. Static allocation only. */
module NanoPbFormat {
  import opened InternalKeys
  import opened Coding

  /** PB_LTYPE: what a field holds. Integers are 1, 2, 4 or 8 bytes wide; bytes and strings
      have room for max bytes, the string's terminator included. */
  datatype FieldType =
    | Bool
    | Varint(width: nat)
    | UVarint(width: nat)
    | SVarint(width: nat)
    | Fixed32
    | Fixed64
    | Bytes(max: nat)
    | Text(max: nat)
    | Message(fields: seq<Field>)
    | FixedLength(n: nat)

  /** PB_HTYPE: how often. Optional has a has_ flag, Implicit has none; of the members of a
      oneof at most one is set. */
  datatype Rule = Required | Optional | Implicit | Repeated(max: nat) | FixedCount(n: nat) | OneOf(group: nat)

  datatype Field = Field(tag: nat, kind: FieldType, rule: Rule, dflt: Val)

  /** Struct holds one slot for every field. */
  datatype Val = Num(n: int) | Flag(b: bool) | Blob(d: Data) | Struct(slots: seq<Slot>)

  datatype Slot = Single(v: Val) | Maybe(has: bool, v: Val) | Many(items: seq<Val>)

  /** PB_SIZE_MAX under PB_FIELD_32BIT, and the largest field number. */
  const SIZE_MAX: nat := 0xFFFF_FFFF
  const TAG_MAX: nat := 0x1FFF_FFFF

  predicate IsWidth(w: nat) {
    w == 1 || w == 2 || w == 4 || w == 8
  }

  function Half(w: nat): int
    requires IsWidth(w)
  {
    if w == 1 then 0x80 else if w == 2 then 0x8000 else if w == 4 then 0x8000_0000 else 0x8000_0000_0000_0000
  }

  predicate Packable(k: FieldType) {
    k.Bool? || k.Varint? || k.UVarint? || k.SVarint? || k.Fixed32? || k.Fixed64?
  }

  // ---------- nesting ----------

  function Depth(fs: seq<Field>): nat
    decreases fs, 0
  {
    if fs == [] then 0
    else
      var first, rest := FieldDepth(fs[0]), Depth(fs[1..]);
      if first > rest then first else rest
  }

  function FieldDepth(f: Field): nat
    decreases f, 1
  {
    match f.kind
    case Message(sub) => 1 + Depth(sub)
    case _ => 0
  }

  function KindDepth(k: FieldType): nat {
    match k
    case Message(sub) => 1 + Depth(sub)
    case _ => 0
  }

  lemma {:induction false} DeeperThanFields(fs: seq<Field>, i: nat)
    requires i < |fs|
    ensures KindDepth(fs[i].kind) <= Depth(fs)
    decreases |fs|
  {
    if i > 0 {
      DeeperThanFields(fs[1..], i - 1);
    }
  }

  // ---------- what a struct may hold ----------

  predicate ValOk(k: FieldType, v: Val)
    decreases KindDepth(k), 0, 1
  {
    match k
    case Bool => v.Flag?
    case Varint(w) => v.Num? && IsWidth(w) && -Half(w) <= v.n < Half(w)
    case UVarint(w) => v.Num? && IsWidth(w) && 0 <= v.n < 2 * Half(w)
    case SVarint(w) => v.Num? && IsWidth(w) && -Half(w) <= v.n < Half(w)
    case Fixed32 => v.Num? && 0 <= v.n < LIMIT32
    case Fixed64 => v.Num? && 0 <= v.n < LIMIT64
    case Bytes(max) => v.Blob? && |v.d| <= max
    case Text(max) => v.Blob? && |v.d| < max && 0 !in v.d
    case Message(fs) => v.Struct? && StructOk(fs, v.slots)
    case FixedLength(n) => v.Blob? && |v.d| == n
  }

  predicate StructOk(fs: seq<Field>, slots: seq<Slot>)
    decreases Depth(fs), 1, 0
  {
    && |slots| == |fs|
    && (forall i: nat :: i < |fs| ==> (DeeperThanFields(fs, i); SlotOk(fs, i, slots[i])))
    && (forall i: nat, j: nat :: i < j < |fs| ==> OneOfOk(fs, slots, i, j))
  }

  predicate SlotOk(fs: seq<Field>, i: nat, s: Slot)
    requires i < |fs|
    decreases Depth(fs), 0, 2
  {
    DeeperThanFields(fs, i);
    var f := fs[i];
    match f.rule
    case Required => s.Single? && ValOk(f.kind, s.v)
    case Implicit => s.Single? && ValOk(f.kind, s.v)
    case Optional => s.Maybe? && ValOk(f.kind, s.v)
    case OneOf(_) => s.Maybe? && ValOk(f.kind, s.v)
    case Repeated(max) => s.Many? && |s.items| <= max && forall v :: v in s.items ==> ValOk(f.kind, v)
    case FixedCount(n) => s.Many? && |s.items| == n && forall v :: v in s.items ==> ValOk(f.kind, v)
  }

  /** A oneof has one selector. */
  predicate OneOfOk(fs: seq<Field>, slots: seq<Slot>, i: nat, j: nat)
    requires i < |fs| == |slots| && j < |fs|
  {
    fs[i].rule.OneOf? && fs[i].rule == fs[j].rule && slots[i].Maybe? && slots[j].Maybe? ==> !(slots[i].has && slots[j].has)
  }

  ghost predicate AllOk(k: FieldType, items: seq<Val>) {
    forall v :: v in items ==> ValOk(k, v)
  }

  // ---------- descriptors ----------

  function ZeroVal(k: FieldType): Val {
    match k
    case Bool => Flag(false)
    case Varint(_) => Num(0)
    case UVarint(_) => Num(0)
    case SVarint(_) => Num(0)
    case Fixed32 => Num(0)
    case Fixed64 => Num(0)
    case Bytes(_) => Blob([])
    case Text(_) => Blob([])
    case FixedLength(n) => Blob(seq(n, _ => 0))
    case Message(_) => Struct([])
  }

  /** pb_field_set_to_default: what a field without data holds. */
  function DefaultOf(f: Field): Val
    decreases KindDepth(f.kind), 2
  {
    match f.kind
    case Message(sub) => Struct(Defaults(sub))
    case _ => f.dflt
  }

  function DefaultSlot(f: Field): Slot
    decreases KindDepth(f.kind), 3
  {
    match f.rule
    case Required => Single(DefaultOf(f))
    case Implicit => Single(DefaultOf(f))
    case Optional => Maybe(false, DefaultOf(f))
    case OneOf(_) => Maybe(false, DefaultOf(f))
    case Repeated(_) => Many([])
    case FixedCount(n) => Many(seq(n, _ => DefaultOf(f)))
  }

  /** pb_message_set_to_defaults */
  function Defaults(fs: seq<Field>): (slots: seq<Slot>)
    ensures |slots| == |fs|
    decreases Depth(fs), 4
  {
    seq(|fs|, i requires 0 <= i < |fs| => (DeeperThanFields(fs, i); DefaultSlot(fs[i])))
  }

  /** What the generator promises of a descriptor. */
  predicate KindOk(k: FieldType)
    decreases KindDepth(k), 0
  {
    match k
    case Varint(w) => IsWidth(w)
    case UVarint(w) => IsWidth(w)
    case SVarint(w) => IsWidth(w)
    case Bytes(max) => max <= SIZE_MAX
    case Text(max) => 0 < max <= SIZE_MAX
    case FixedLength(n) => n <= SIZE_MAX
    case Message(sub) => FieldsOk(sub)
    case _ => true
  }

  predicate FieldOk(f: Field)
    decreases KindDepth(f.kind), 1
  {
    && 0 < f.tag <= TAG_MAX && KindOk(f.kind)
    && (!f.kind.Message? ==> ValOk(f.kind, f.dflt))
    && (!f.kind.Message? && f.rule.Implicit? ==> f.dflt == ZeroVal(f.kind))
  }

  predicate FieldsOk(fs: seq<Field>)
    decreases Depth(fs), 2
  {
    && (forall i: nat :: i < |fs| ==> (DeeperThanFields(fs, i); FieldOk(fs[i])))
    && (forall i: nat, j: nat :: i < j < |fs| ==> fs[i].tag != fs[j].tag)
  }

  // ---------- encoding ----------

  function WireType(k: FieldType): (t: nat)
    ensures t <= 5
  {
    match k
    case Bool => 0
    case Varint(_) => 0
    case UVarint(_) => 0
    case SVarint(_) => 0
    case Fixed32 => 5
    case Fixed64 => 1
    case _ => 2
  }

  function TagBytes(tag: nat, wireType: nat): Data {
    VarintBytes(8 * tag + wireType)
  }

  /** ~((uint64_t)value << 1) for negative values, value << 1 for others. */
  function ZigZag(n: int): nat {
    if n < 0 then LIMIT64 - 1 - (2 * n) % LIMIT64 else (2 * n) % LIMIT64
  }

  function Prefixed(d: Data): Data {
    VarintBytes(|d|) + d
  }

  function EncVal(k: FieldType, v: Val): Data
    requires ValOk(k, v)
    decreases KindDepth(k), 0, 1
  {
    match k
    case Bool => VarintBytes(if v.b then 1 else 0)
    case Varint(_) => VarintBytes(v.n % LIMIT64)
    case UVarint(_) => VarintBytes(v.n)
    case SVarint(_) => VarintBytes(ZigZag(v.n))
    case Fixed32 => FixedBytes(v.n, 4)
    case Fixed64 => FixedBytes(v.n, 8)
    case Bytes(_) => Prefixed(v.d)
    case Text(_) => Prefixed(v.d)
    case FixedLength(_) => Prefixed(v.d)
    case Message(fs) => Prefixed(Encode(fs, v.slots))
  }

  function Encode(fs: seq<Field>, slots: seq<Slot>): Data
    requires StructOk(fs, slots)
    decreases Depth(fs), 3, 0
  {
    EncFrom(fs, slots, 0)
  }

  function EncFrom(fs: seq<Field>, slots: seq<Slot>, i: nat): Data
    requires StructOk(fs, slots) && i <= |fs|
    decreases Depth(fs), 2, |fs| - i
  {
    if i == |fs| then [] else EncSlot(fs, i, slots[i]) + EncFrom(fs, slots, i + 1)
  }

  /** encode_basic_field */
  function EncSlot(fs: seq<Field>, i: nat, s: Slot): Data
    requires i < |fs| && SlotOk(fs, i, s)
    decreases Depth(fs), 1, 0
  {
    DeeperThanFields(fs, i);
    var f := fs[i];
    match f.rule
    case Required => TagBytes(f.tag, WireType(f.kind)) + EncVal(f.kind, s.v)
    case Implicit => if IsZero(f.kind, s.v) then [] else TagBytes(f.tag, WireType(f.kind)) + EncVal(f.kind, s.v)
    case Optional => if s.has then TagBytes(f.tag, WireType(f.kind)) + EncVal(f.kind, s.v) else []
    case OneOf(_) => if s.has then TagBytes(f.tag, WireType(f.kind)) + EncVal(f.kind, s.v) else []
    case Repeated(_) => EncArray(f.tag, f.kind, s.items)
    case FixedCount(_) => EncArray(f.tag, f.kind, s.items)
  }

  /** encode_array: packed where the kind allows it. */
  function EncArray(tag: nat, k: FieldType, items: seq<Val>): Data
    requires forall v :: v in items ==> ValOk(k, v)
    decreases KindDepth(k), 0, 3
  {
    if items == [] then []
    else if Packable(k) then TagBytes(tag, 2) + Prefixed(EncPacked(k, items))
    else EncEach(tag, k, items)
  }

  function EncPacked(k: FieldType, items: seq<Val>): Data
    requires forall v :: v in items ==> ValOk(k, v)
    decreases KindDepth(k), 0, 2, |items|
  {
    if items == [] then [] else EncVal(k, items[0]) + EncPacked(k, items[1..])
  }

  function EncEach(tag: nat, k: FieldType, items: seq<Val>): Data
    requires forall v :: v in items ==> ValOk(k, v)
    decreases KindDepth(k), 0, 2, |items|
  {
    if items == [] then [] else TagBytes(tag, WireType(k)) + EncVal(k, items[0]) + EncEach(tag, k, items[1..])
  }

  /** pb_check_proto3_default_value */
  predicate IsZero(k: FieldType, v: Val)
    requires ValOk(k, v)
    decreases KindDepth(k), 0, 1
  {
    match k
    case Bool => !v.b
    case Bytes(_) => v.d == []
    case Text(_) => v.d == []
    case FixedLength(n) => n == 0
    case Message(fs) => StructIsZero(fs, v.slots)
    case _ => v.n == 0
  }

  predicate StructIsZero(fs: seq<Field>, slots: seq<Slot>)
    requires StructOk(fs, slots)
    decreases Depth(fs), 2, 0
  {
    forall i: nat :: i < |fs| ==> SlotIsZero(fs, i, slots[i])
  }

  predicate SlotIsZero(fs: seq<Field>, i: nat, s: Slot)
    requires i < |fs| && SlotOk(fs, i, s)
    decreases Depth(fs), 1, 0
  {
    DeeperThanFields(fs, i);
    match fs[i].rule
    case Required => false
    case FixedCount(_) => false
    case Repeated(_) => s.items == []
    case OneOf(_) => !s.has
    case Optional => !s.has
    case Implicit => IsZero(fs[i].kind, s.v)
  }

  // ---------- decoding ----------

  function Pow2(n: nat): nat {
    if n == 0 then 1 else 2 * Pow2(n - 1)
  }

  /** pb_decode_varint32_eof, with its checks for numbers that do not fit. */
  function ReadVarint32(input: Data): Option<(nat, Data)> {
    if input == [] then None
    else if input[0] < 0x80 then Some((input[0], input[1..]))
    else MoreVarint32(input[1..], 7, input[0] - 0x80)
  }

  function MoreVarint32(input: Data, bitpos: nat, result: nat): Option<(nat, Data)> {
    if input == [] then None
    else
      var byte := input[0];
      var signExtension := if bitpos < 63 then 0xFF else 0x01;
      if bitpos >= 32 && byte % 0x80 != 0 && (result < 0x8000_0000 || byte != signExtension) then None
      else
        var result' := if bitpos >= 32 then result else (result + (byte % 0x80) * Pow2(bitpos)) % LIMIT32;
        if byte >= 0x80 then MoreVarint32(input[1..], bitpos + 7, result')
        else if bitpos + 7 == 35 && byte / 0x10 % 8 != 0 then None
        else Some((result', input[1..]))
  }

  lemma {:induction false} MoreVarint32Shrinks(input: Data, bitpos: nat, result: nat)
    ensures MoreVarint32(input, bitpos, result).Some? ==> |MoreVarint32(input, bitpos, result).value.1| < |input|
    decreases |input|
  {
    if input != [] && input[0] >= 0x80 {
      var result' := if bitpos >= 32 then result else (result + (input[0] % 0x80) * Pow2(bitpos)) % LIMIT32;
      MoreVarint32Shrinks(input[1..], bitpos + 7, result');
    }
  }

  lemma {:induction false} ReadVarint32Shrinks(input: Data)
    ensures ReadVarint32(input).Some? ==> |ReadVarint32(input).value.1| < |input|
  {
    if input != [] && input[0] >= 0x80 {
      MoreVarint32Shrinks(input[1..], 7, input[0] - 0x80);
    }
  }

  /** pb_make_string_substream: the bytes of the substream and what is behind them. */
  function Substream(input: Data): (r: Option<(Data, Data)>)
    ensures r.Some? ==> |r.value.0| + |r.value.1| < |input|
  {
    ReadVarint32Shrinks(input);
    match ReadVarint32(input)
    case None => None
    case Some((size, rest)) => if |rest| < size then None else Some((rest[..size], rest[size..]))
  }

  /** The bytes up to the first zero, as a C string. */
  function CString(d: Data): Data {
    if d == [] || d[0] == 0 then [] else [d[0]] + CString(d[1..])
  }

  function UnZigZag(u: nat): int {
    if u % 2 == 1 then -(u / 2) - 1 else u / 2
  }

  /** The 64-bit number as a signed one of the field's width: narrower fields take the low
      32 bits. */
  function Signed(u: nat, w: nat): int {
    if w == 8 then (if u >= 0x8000_0000_0000_0000 then u - LIMIT64 else u)
    else
      var low := u % LIMIT32;
      if low >= 0x8000_0000 then low - LIMIT32 else low
  }

  function InRange(n: int, lo: int, hi: int, rest: Data): Option<(Val, Data)> {
    if lo <= n < hi then Some((Num(n), rest)) else None
  }

  function DecNumber(k: FieldType, input: Data): (r: Option<(Val, Data)>)
    requires KindOk(k)
    ensures r.Some? ==> |r.value.1| < |input|
  {
    VarintShrinks(input, 10);
    if k.Fixed32? then
      if |input| < 4 then None else Some((Num(DecodeFixed(input[..4])), input[4..]))
    else if k.Fixed64? then
      if |input| < 8 then None else Some((Num(DecodeFixed(input[..8])), input[8..]))
    else
      match Varint64(input)
      case None => None
      case Some((u, rest)) =>
        match k
        case Varint(w) => InRange(Signed(u, w), -Half(w), Half(w), rest)
        case UVarint(w) => InRange(u, 0, 2 * Half(w), rest)
        case SVarint(w) => InRange(UnZigZag(u), -Half(w), Half(w), rest)
        case _ => None
  }

  function DecBlob(k: FieldType, input: Data): (r: Option<(Val, Data)>)
    ensures r.Some? ==> |r.value.1| < |input|
  {
    ReadVarint32Shrinks(input);
    match ReadVarint32(input)
    case None => None
    case Some((size, rest)) =>
      match k
      case Bytes(max) => if size > SIZE_MAX || size > max || |rest| < size then None else Some((Blob(rest[..size]), rest[size..]))
      case Text(max) => if size + 1 > max || |rest| < size then None else Some((Blob(CString(rest[..size])), rest[size..]))
      case FixedLength(n) =>
        if size == 0 then Some((Blob(seq(n, _ => 0)), rest))
        else if size > SIZE_MAX || size != n || |rest| < n then None
        else Some((Blob(rest[..n]), rest[n..]))
      case _ => None
  }
}
