/** pb_decode.c: fields in whatever order they come, found by their tags. */
module NanoPbDecoding {
  import opened InternalKeys
  import opened Coding
  import opened NanoPbFormat

  /** The struct so far, the required fields seen, and which fixed-count array is being
      filled and how far. */
  datatype DState = DState(slots: seq<Slot>, seen: set<nat>, fixed: Option<nat>, fixedSize: nat)

  /** pb_field_iter_find: the field with the tag; |fs| when there is none. */
  function Find(fs: seq<Field>, tag: nat): (i: nat)
    ensures i <= |fs| && (i < |fs| ==> fs[i].tag == tag)
    ensures forall j :: 0 <= j < i ==> fs[j].tag != tag
  {
    if fs == [] || fs[0].tag == tag then 0 else 1 + Find(fs[1..], tag)
  }

  function SkipVarint(input: Data): Option<Data> {
    if input == [] then None else if input[0] < 0x80 then Some(input[1..]) else SkipVarint(input[1..])
  }

  function SkipBytes(input: Data, n: nat): Option<Data> {
    if |input| < n then None else Some(input[n..])
  }

  /** pb_skip_field */
  function Skip(wireType: nat, input: Data): Option<Data> {
    match wireType
    case 0 => SkipVarint(input)
    case 1 => SkipBytes(input, 8)
    case 5 => SkipBytes(input, 4)
    case 2 => (match Substream(input) case None => None case Some((_, rest)) => Some(rest))
    case _ => None
  }

  lemma {:induction false} SkipVarintShrinks(input: Data)
    ensures SkipVarint(input).Some? ==> |SkipVarint(input).value| <= |input|
  {
    if input != [] && input[0] >= 0x80 {
      SkipVarintShrinks(input[1..]);
    }
  }

  lemma {:induction false} SkipShrinks(wireType: nat, input: Data)
    ensures Skip(wireType, input).Some? ==> |Skip(wireType, input).value| <= |input|
  {
    SkipVarintShrinks(input);
  }

  function OldVal(f: Field, s: Slot): Val {
    match s
    case Single(v) => v
    case Maybe(_, v) => v
    case Many(_) => DefaultOf(f)
  }

  function OldItems(s: Slot): seq<Val> {
    if s.Many? then s.items else []
  }

  /** Choosing a member of a oneof unsets the others. */
  function Choose(fs: seq<Field>, slots: seq<Slot>, i: nat, v: Val): (r: seq<Slot>)
    requires i < |fs| == |slots|
    ensures |r| == |fs|
  {
    seq(|fs|, j requires 0 <= j < |fs| == |slots| =>
          if j == i then Maybe(true, v)
          else if fs[j].rule == fs[i].rule then DefaultSlot(fs[j])
          else slots[j])
  }

  predicate IsSet(s: Slot) {
    match s
    case Maybe(has, _) => has
    case _ => false
  }

  /** A member of a oneof that was not chosen before starts from its defaults. */
  function StartVal(f: Field, s: Slot): Val {
    if f.rule.OneOf? && !IsSet(s) then DefaultOf(f) else OldVal(f, s)
  }

  function StoreVal(fs: seq<Field>, slots: seq<Slot>, i: nat, v: Val): (r: seq<Slot>)
    requires i < |fs| == |slots|
    ensures |r| == |fs|
  {
    if fs[i].rule.OneOf? then Choose(fs, slots, i, v)
    else if fs[i].rule.Optional? then slots[i := Maybe(true, v)]
    else slots[i := Single(v)]
  }

  /** An array, and how far it has been filled. */
  datatype Filled = Filled(items: seq<Val>, at: nat)

  /** Writing item at of an array. */
  function PutItem(items: seq<Val>, at: nat, v: Val): seq<Val> {
    if at < |items| then items[at := v] else items + [v]
  }

  /** The field decoders. A message in an array starts from its defaults, any other goes on
      from what is there. */
  function DecVal(k: FieldType, current: Val, init: bool, input: Data): (r: Option<(Val, Data)>)
    requires KindOk(k)
    ensures r.Some? ==> |r.value.1| < |input|
    decreases KindDepth(k), 0, |input|
  {
    ReadVarint32Shrinks(input);
    match k
    case Bool => (match ReadVarint32(input) case None => None case Some((v, rest)) => Some((Flag(v != 0), rest)))
    case Message(sub) =>
      (match Substream(input)
       case None => None
       case Some((body, rest)) =>
         var start := if !init && current.Struct? && |current.slots| == |sub| then current.slots else Defaults(sub);
         match DecStruct(sub, start, body)
         case None => None
         case Some(slots) => Some((Struct(slots), rest)))
    case Bytes(_) => DecBlob(k, input)
    case Text(_) => DecBlob(k, input)
    case FixedLength(_) => DecBlob(k, input)
    case _ => DecNumber(k, input)
  }

  /** The items of a packed array, while there is room. */
  function DecPacked(k: FieldType, items: seq<Val>, at: nat, max: nat, body: Data): Option<Filled>
    requires KindOk(k)
    decreases KindDepth(k), 1, |body|
  {
    if body == [] then Some(Filled(items, at))
    else if at >= max then None
    else
      match DecVal(k, ZeroVal(k), true, body)
      case None => None
      case Some((v, rest)) => DecPacked(k, PutItem(items, at, v), at + 1, max, rest)
  }

  /** Repeated fields and fixed-count arrays: packed or one item, from position at on. */
  function DecArray(k: FieldType, items: seq<Val>, at: nat, max: nat, wireType: nat, input: Data): (r: Option<(Filled, Data)>)
    requires KindOk(k)
    ensures r.Some? ==> |r.value.1| < |input|
    decreases KindDepth(k), 2, |input|
  {
    if wireType == 2 && Packable(k) then
      match Substream(input)
      case None => None
      case Some((body, rest)) =>
        match DecPacked(k, items, at, max, body)
        case None => None
        case Some(r) => Some((r, rest))
    else if at >= max then None
    else
      match DecVal(k, ZeroVal(k), true, input)
      case None => None
      case Some((v, rest)) => Some((Filled(PutItem(items, at, v), at + 1), rest))
  }

  /** An array of fixed length has been filled. */
  predicate FixedDone(fs: seq<Field>, st: DState) {
    st.fixed.Some? && st.fixed.value < |fs| && fs[st.fixed.value].rule.FixedCount? ==> st.fixedSize == fs[st.fixed.value].rule.n
  }

  /** decode_static_field for field i. */
  function DecField(fs: seq<Field>, st: DState, i: nat, wireType: nat, input: Data): (r: Option<(DState, Data)>)
    requires FieldsOk(fs) && i < |fs| == |st.slots|
    ensures r.Some? ==> |r.value.1| < |input| && |r.value.0.slots| == |fs|
    decreases Depth(fs), 3, |input|
  {
    DeeperThanFields(fs, i);
    assert FieldOk(fs[i]);
    var f, s := fs[i], st.slots[i];
    match f.rule
    case Repeated(max) =>
      (match DecArray(f.kind, OldItems(s), |OldItems(s)|, max, wireType, input)
       case None => None
       case Some((Filled(items, _), rest)) => Some((st.(slots := st.slots[i := Many(items)]), rest)))
    case FixedCount(n) =>
      if st.fixed != Some(i) && !FixedDone(fs, st) then None
      else
        var at := if st.fixed == Some(i) then st.fixedSize else 0;
        (match DecArray(f.kind, OldItems(s), at, n, wireType, input)
         case None => None
         case Some((Filled(items, at'), rest)) =>
           Some((st.(slots := st.slots[i := Many(items)], fixed := Some(i), fixedSize := at'), rest)))
    case _ =>
      match DecVal(f.kind, StartVal(f, s), false, input)
      case None => None
      case Some((v, rest)) =>
        Some((st.(slots := StoreVal(fs, st.slots, i, v), seen := st.seen + (if f.rule.Required? then {i} else {})), rest))
  }

  /** The loop of pb_decode_noinit; a zero tag ends the message. */
  function DecLoop(fs: seq<Field>, st: DState, input: Data): (r: Option<DState>)
    requires FieldsOk(fs) && |fs| == |st.slots|
    ensures r.Some? ==> |r.value.slots| == |fs|
    decreases Depth(fs), 4, |input|
  {
    if input == [] then Some(st)
    else
      ReadVarint32Shrinks(input);
      match ReadVarint32(input)
      case None => None
      case Some((temp, rest)) =>
        if temp == 0 then Some(st)
        else
          var i := Find(fs, temp / 8);
          if i == |fs| then
            SkipShrinks(temp % 8, rest);
            match Skip(temp % 8, rest)
            case None => None
            case Some(rest') => DecLoop(fs, st, rest')
          else
            match DecField(fs, st, i, temp % 8, rest)
            case None => None
            case Some((st', rest')) => DecLoop(fs, st', rest')
  }

  /** How many required fields come before field i. */
  function RequiredBefore(fs: seq<Field>, i: nat): nat
    requires i <= |fs|
  {
    if i == 0 then 0 else RequiredBefore(fs, i - 1) + if fs[i - 1].rule.Required? then 1 else 0
  }

  /** PB_MAX_REQUIRED_FIELDS */
  const MAX_REQUIRED: nat := 64

  predicate RequiredSeen(fs: seq<Field>, seen: set<nat>) {
    forall i: nat :: i < |fs| && fs[i].rule.Required? && RequiredBefore(fs, i) < MAX_REQUIRED ==> i in seen
  }

  /** pb_decode_noinit */
  function DecStruct(fs: seq<Field>, slots: seq<Slot>, input: Data): (r: Option<seq<Slot>>)
    requires FieldsOk(fs) && |fs| == |slots|
    ensures r.Some? ==> |r.value| == |fs|
    decreases Depth(fs), 5, |input|
  {
    match DecLoop(fs, DState(slots, {}, None, 0), input)
    case None => None
    case Some(st) => if FixedDone(fs, st) && RequiredSeen(fs, st.seen) then Some(st.slots) else None
  }

  /** pb_decode */
  function Decode(fs: seq<Field>, input: Data): Option<seq<Slot>>
    requires FieldsOk(fs)
  {
    DecStruct(fs, Defaults(fs), input)
  }
}
