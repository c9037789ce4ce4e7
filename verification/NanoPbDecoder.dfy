/** pb_decode.c and pb_common.c: the decoder proper, reading a stream and walking a
    descriptor with an iterator that never starts over. */
module NanoPbDecoder {
  import opened InternalKeys
  import opened Coding
  import opened NanoPbFormat
  import opened NanoPbDecoding

  // ---------- pb_field_iter_t ----------

  class FieldIter {
    const fields: seq<Field>
    var pos: nat
    /** required_field_index */
    var required: nat

    predicate Valid()
      reads this
    {
      (if fields == [] then pos == 0 else pos < |fields|) && required == RequiredBefore(fields, pos)
    }

    /** pb_field_iter_begin */
    constructor (fields: seq<Field>)
      ensures Valid() && this.fields == fields && pos == 0
    {
      this.fields := fields;
      pos, required := 0, 0;
    }

    /** pb_field_iter_next: false when it wraps back to the first field. */
    method Next() returns (more: bool)
      requires Valid()
      modifies this
      ensures Valid() && (more <==> old(pos) + 1 < |fields|) && pos == if more then old(pos) + 1 else 0
    {
      if fields == [] {
        return false;
      }
      if pos + 1 == |fields| {
        pos, required := 0, 0;
        return false;
      }
      if fields[pos].rule.Required? {
        required := required + 1;
      }
      pos := pos + 1;
      more := true;
    }

    /** pb_field_iter_find: once around, from wherever the last search ended. */
    method FindTag(tag: nat) returns (found: bool)
      requires Valid()
      modifies this
      ensures Valid()
      ensures found ==> pos < |fields| && fields[pos].tag == tag
      ensures !found ==> pos == old(pos) && forall i :: 0 <= i < |fields| ==> fields[i].tag != tag
    {
      var start := pos;
      ghost var wrapped := false;
      if fields == [] {
        return false;
      }
      while true
        invariant Valid() && fields != []
        invariant if wrapped then pos < start else start <= pos
        invariant forall i :: 0 <= i < |fields| && (if wrapped then i < pos || start <= i else start <= i < pos) ==> fields[i].tag != tag
        decreases if wrapped then start - pos else |fields| - pos + start
      {
        if fields[pos].tag == tag {
          return true;
        }
        var more := Next();
        wrapped := wrapped || !more;
        if pos == start {
          return false;
        }
      }
    }
  }

  lemma {:induction false} FindAgrees(fs: seq<Field>, tag: nat, i: nat)
    requires FieldsOk(fs) && i < |fs| && fs[i].tag == tag
    ensures Find(fs, tag) == i
  {
    assert forall j :: 0 <= j < i ==> fs[j].tag != fs[i].tag;
  }

  // ---------- pb_istream_t ----------

  function TakeBytes(input: Data, n: nat): Option<(Data, Data)> {
    if |input| < n then None else Some((input[..n], input[n..]))
  }

  function TakeByte(input: Data): Option<(Byte, Data)> {
    if input == [] then None else Some((input[0], input[1..]))
  }

  lemma {:induction false} Pow2Step(n: nat)
    ensures Pow2(n + 7) == 128 * Pow2(n)
  {
    assert Pow2(n + 7) == 2 * Pow2(n + 6) && Pow2(n + 6) == 2 * Pow2(n + 5) && Pow2(n + 5) == 2 * Pow2(n + 4);
    assert Pow2(n + 4) == 2 * Pow2(n + 3) && Pow2(n + 3) == 2 * Pow2(n + 2) && Pow2(n + 2) == 2 * Pow2(n + 1);
  }

  /** (uint64_t)(byte & 0x7F) << bitpos */
  function Shifted(byte: Byte, bitpos: nat): nat {
    Pow2(bitpos) * (byte % 0x80)
  }

  lemma {:induction false} OneMoreByte(full: nat, bitpos: nat, input: Data, left: nat)
    requires left > 0 && input != []
    ensures (full % LIMIT64 + Shifted(input[0], bitpos)) % LIMIT64 == (full + Shifted(input[0], bitpos)) % LIMIT64
    ensures Accumulated(full, Pow2(bitpos), DecodeVarint(input, left))
         == if input[0] >= 0x80
            then Accumulated(full + Shifted(input[0], bitpos), Pow2(bitpos + 7), DecodeVarint(input[1..], left - 1))
            else Some((full + Shifted(input[0], bitpos), input[1..]))
  {
    Pow2Step(bitpos);
    AccumulateEnd(full, Pow2(bitpos), input, left);
    if input[0] >= 0x80 {
      AccumulateByte(full, Pow2(bitpos), input, left);
    }
    WrapAdd(full, Shifted(input[0], bitpos));
    assert Pow2(bitpos + 7) == Pow2(bitpos) * 128;
    hide DecodeVarint, Accumulated, Pow2;
  }

  lemma {:induction false} WrapAdd(full: nat, more: nat)
    ensures (full % LIMIT64 + more) % LIMIT64 == (full + more) % LIMIT64
  {
    assert full + more == full % LIMIT64 + more + LIMIT64 * (full / LIMIT64);
  }

  class IStream {
    const source: Data
    var at: nat
    var bytesLeft: nat

    predicate Valid()
      reads this
    {
      at + bytesLeft <= |source|
    }

    function Rest(): Data
      requires Valid()
      reads this
    {
      source[at..at + bytesLeft]
    }

    /** pb_istream_from_buffer, and the substreams, which share the buffer. */
    constructor (source: Data, at: nat, bytesLeft: nat)
      requires at + bytesLeft <= |source|
      ensures Valid() && this.source == source && this.at == at && this.bytesLeft == bytesLeft
    {
      this.source, this.at, this.bytesLeft := source, at, bytesLeft;
    }

    /** The stream has moved towards its end, which stays. */
    twostate predicate Advanced()
      reads this
    {
      old(Valid()) && Valid() && at + bytesLeft == old(at + bytesLeft) && bytesLeft <= old(bytesLeft)
    }

    /** The stream gave what the reading function gives, or both fail. */
    twostate predicate Gave<T>(new r: Option<(T, Data)>, ok: bool, value: T)
      reads this
    {
      Advanced() && (ok <==> r.Some?) && (ok ==> r == Some((value, Rest())))
    }

    twostate predicate Skipped(new r: Option<Data>, ok: bool)
      reads this
    {
      Advanced() && (ok <==> r.Some?) && (ok ==> r == Some(Rest()))
    }

    /** pb_readbyte */
    method ReadByte() returns (ok: bool, byte: Byte)
      requires Valid()
      modifies this
      ensures Gave(TakeByte(old(Rest())), ok, byte)
      ensures ok ==> bytesLeft < old(bytesLeft)
    {
      if bytesLeft == 0 {
        return false, 0;
      }
      byte := source[at];
      at, bytesLeft := at + 1, bytesLeft - 1;
      ok := true;
    }

    /** pb_read */
    method Read(count: nat) returns (ok: bool, buf: Data)
      requires Valid()
      modifies this
      ensures Gave(TakeBytes(old(Rest()), count), ok, buf)
    {
      if count == 0 {
        return true, [];
      }
      if bytesLeft < count {
        return false, [];
      }
      buf := source[at..at + count];
      SplitSlice(source, at, at + count, at + bytesLeft);
      at, bytesLeft := at + count, bytesLeft - count;
      ok := true;
    }

    /** pb_decode_varint32_eof */
    method DecodeVarint32() returns (ok: bool, value: nat, eof: bool)
      requires Valid()
      modifies this
      ensures Gave(ReadVarint32(old(Rest())), ok, value)
      ensures eof <==> old(bytesLeft) == 0
    {
      hide MoreVarint32, Pow2;
      eof := bytesLeft == 0;
      var byte: Byte;
      ok, byte := ReadByte();
      value := byte;
      if !ok || byte < 0x80 {
        return;
      }
      var bitpos: nat, result: nat := 7, byte - 0x80;
      while byte >= 0x80
        invariant Advanced()
        invariant byte >= 0x80 ==> MoreVarint32(Rest(), bitpos, result) == ReadVarint32(old(Rest()))
        invariant byte < 0x80 ==>
          ReadVarint32(old(Rest())) == if bitpos == 35 && byte / 0x10 % 8 != 0 then None else Some((result, Rest()))
        decreases bytesLeft, byte
      {
        ghost var was := Rest();
        MoreUnfold(was, bitpos, result);
        ok, byte := ReadByte();
        if !ok {
          return;
        }
        if bitpos >= 32 {
          // trailing 0x80 bytes, or 0xFF for negative numbers
          var signExtension := if bitpos < 63 then 0xFF else 0x01;
          if byte % 0x80 != 0 && (result < 0x8000_0000 || byte != signExtension) {
            return false, 0, eof;
          }
        } else {
          result := (result + (byte % 0x80) * Pow2(bitpos)) % LIMIT32;
        }
        bitpos := bitpos + 7;
      }
      if bitpos == 35 && byte / 0x10 % 8 != 0 {
        return false, 0, eof;
      }
      ok, value := true, result;
    }

    /** pb_decode_varint */
    method DecodeVarint64() returns (ok: bool, value: nat)
      requires Valid()
      modifies this
      ensures Gave(Varint64(old(Rest())), ok, value)
    {
      hide DecodeVarint, Accumulated, Pow2, Shifted;
      var bitpos: nat, result: nat, byte: Byte := 0, 0, 0x80;
      ghost var full: nat, left: nat := 0, 10;
      AccumulateEnd(0, 1, Rest(), 10);
      Pow2Zero();
      while byte >= 0x80
        invariant Advanced() && bitpos == 7 * (10 - left) && result == full % LIMIT64
        invariant byte >= 0x80 ==> Accumulated(full, Pow2(bitpos), DecodeVarint(Rest(), left)) == DecodeVarint(old(Rest()), 10)
        invariant byte < 0x80 ==> DecodeVarint(old(Rest()), 10) == Some((full, Rest()))
        decreases left, byte
      {
        AccumulateEnd(full, Pow2(bitpos), Rest(), left);
        if bitpos >= 64 {
          return false, 0;
        }
        ghost var was := Rest();
        ok, byte := ReadByte();
        if !ok {
          return false, 0;
        }
        OneMoreByte(full, bitpos, was, left);
        result := (result + Shifted(byte, bitpos)) % LIMIT64;
        full := full + Shifted(byte, bitpos);
        bitpos, left := bitpos + 7, left - 1;
      }
      ok, value := true, result;
    }

    /** pb_skip_varint */
    method SkipVarintBytes() returns (ok: bool)
      requires Valid()
      modifies this
      ensures Skipped(SkipVarint(old(Rest())), ok)
    {
      var byte: Byte := 0x80;
      while byte >= 0x80
        invariant Advanced()
        invariant byte >= 0x80 ==> SkipVarint(Rest()) == SkipVarint(old(Rest()))
        invariant byte < 0x80 ==> SkipVarint(old(Rest())) == Some(Rest())
        decreases bytesLeft, byte
      {
        ok, byte := ReadByte();
        if !ok {
          return;
        }
      }
      ok := true;
    }

    /** pb_skip_field */
    method SkipField(wireType: nat) returns (ok: bool)
      requires Valid()
      modifies this
      ensures Skipped(Skip(wireType, old(Rest())), ok)
    {
      hide ReadVarint32, SkipVarint;
      var skipped;
      if wireType == 0 {
        ok := SkipVarintBytes();
      } else if wireType == 1 {
        ok, skipped := Read(8);
      } else if wireType == 2 {
        var length, eof;
        ok, length, eof := DecodeVarint32();
        if ok {
          ok, skipped := Read(length);
        }
      } else if wireType == 5 {
        ok, skipped := Read(4);
      } else {
        ok := false;
      }
    }

    /** pb_decode_tag: the end is either no more bytes or a zero tag. */
    method DecodeTag() returns (ok: bool, wireType: nat, tag: nat, eof: bool)
      requires Valid()
      modifies this
      ensures Advanced()
      ensures ok ==> ReadVarint32(old(Rest())) == Some((8 * tag + wireType, Rest())) && 8 * tag + wireType != 0 && wireType < 8
      ensures ok ==> bytesLeft < old(bytesLeft)
      ensures !ok && !eof ==> ReadVarint32(old(Rest())) == None
      ensures !ok && eof ==> old(Rest()) == [] || (ReadVarint32(old(Rest())).Some? && ReadVarint32(old(Rest())).value.0 == 0)
    {
      hide ReadVarint32;
      ReadVarint32Shrinks(Rest());
      var temp;
      ok, temp, eof := DecodeVarint32();
      if !ok {
        return false, 0, 0, eof;
      }
      if temp == 0 {
        return false, 0, 0, true;
      }
      wireType, tag := temp % 8, temp / 8;
    }

    /** pb_make_string_substream: the parent gives up the bytes at once but stays where it is
        until the substream is closed. */
    method MakeSubstream() returns (ok: bool, sub: IStream?)
      requires Valid()
      modifies this
      ensures Valid() && (ok <==> Substream(old(Rest())).Some?)
      ensures !ok ==> Advanced()
      ensures ok ==> sub != null && fresh(sub) && sub.Valid() && sub.source == source && sub.at == at
      ensures ok ==> at >= old(at) && at + sub.bytesLeft + bytesLeft == old(at + bytesLeft)
      ensures ok ==> Substream(old(Rest())) == Some((sub.Rest(), source[at + sub.bytesLeft..at + sub.bytesLeft + bytesLeft]))
    {
      hide ReadVarint32;
      sub := null;
      var size, eof;
      ok, size, eof := DecodeVarint32();
      if !ok {
        return;
      }
      if bytesLeft < size {
        return false, null;
      }
      SplitSlice(source, at, at + size, at + bytesLeft);
      sub := new IStream(source, at, size);
      bytesLeft := bytesLeft - size;
    }

    /** pb_close_string_substream */
    method CloseSubstream(sub: IStream)
      requires sub != this && sub.Valid() && sub.source == source && sub.at + sub.bytesLeft + bytesLeft <= |source|
      modifies this, sub
      ensures Valid() && at == old(sub.at + sub.bytesLeft) && bytesLeft == old(bytesLeft)
    {
      if sub.bytesLeft > 0 {
        assert |sub.Rest()| == sub.bytesLeft;
        var ok, skipped := sub.Read(sub.bytesLeft);
        assert |sub.Rest()| == 0;
      }
      at := sub.at;
    }

    /** pb_dec_varint, pb_dec_uvarint, pb_dec_svarint, pb_dec_fixed32 and pb_dec_fixed64 */
    method DecodeNumber(k: FieldType) returns (ok: bool, v: Val)
      requires Valid() && KindOk(k)
      modifies this
      ensures Gave(DecNumber(k, old(Rest())), ok, v)
    {
      hide DecNumber, Varint64, DecodeFixed, Signed, UnZigZag, Half;
      NumberUnfold(k, Rest());
      v := Num(0);
      var bytes, u;
      if k.Fixed32? {
        ok, bytes := Read(4);
        v := Num(DecodeFixed(bytes));
      } else if k.Fixed64? {
        ok, bytes := Read(8);
        v := Num(DecodeFixed(bytes));
      } else {
        ok, u := DecodeVarint64();
        if !ok {
          return;
        }
        match k
        case Varint(w) => v := Num(Signed(u, w)); ok := -Half(w) <= v.n < Half(w);
        case UVarint(w) => v := Num(u); ok := v.n < 2 * Half(w);
        case SVarint(w) => v := Num(UnZigZag(u)); ok := -Half(w) <= v.n < Half(w);
        case _ => ok := false;
      }
    }

    /** pb_dec_bytes, pb_dec_string and pb_dec_fixed_length_bytes */
    method DecodeBlob(k: FieldType) returns (ok: bool, v: Val)
      requires Valid()
      modifies this
      ensures Gave(DecBlob(k, old(Rest())), ok, v)
    {
      hide ReadVarint32, CString;
      v := Blob([]);
      var size, eof, buf;
      ok, size, eof := DecodeVarint32();
      if !ok {
        return;
      }
      match k
      case Bytes(max) =>
        if size > SIZE_MAX || size > max {
          return false, v;
        }
        ok, buf := Read(size);
        v := Blob(buf);
      case Text(max) =>
        if size + 1 > max {
          return false, v;
        }
        ok, buf := Read(size);
        v := Blob(CString(buf));
      case FixedLength(n) =>
        if size > SIZE_MAX {
          return false, v;
        }
        if size == 0 {
          return true, Blob(seq(n, _ => 0));
        }
        if size != n {
          return false, v;
        }
        ok, buf := Read(n);
        v := Blob(buf);
      case _ => ok := false;
    }

    /** PB_DECODERS */
    method DecodeVal(k: FieldType, current: Val, init: bool) returns (ok: bool, v: Val)
      requires Valid() && KindOk(k)
      modifies this
      ensures Gave(DecVal(k, current, init, old(Rest())), ok, v)
      decreases KindDepth(k), 1
    {
      hide ReadVarint32, DecNumber, DecBlob, DecStruct, Substream;
      match k
      case Bool =>
        var n, eof;
        ok, n, eof := DecodeVarint32();
        v := Flag(n != 0);
      case Message(sub) =>
        var start := if !init && current.Struct? && |current.slots| == |sub| then current.slots else Defaults(sub);
        var slots;
        ok, slots := DecodeSubmessage(sub, start);
        v := Struct(slots);
      case Bytes(_) => ok, v := DecodeBlob(k);
      case Text(_) => ok, v := DecodeBlob(k);
      case FixedLength(_) => ok, v := DecodeBlob(k);
      case _ => ok, v := DecodeNumber(k);
    }

    /** pb_dec_submessage */
    method DecodeSubmessage(fs: seq<Field>, start: seq<Slot>) returns (ok: bool, slots: seq<Slot>)
      requires Valid() && FieldsOk(fs) && |fs| == |start|
      modifies this
      ensures Gave(DecBody(fs, start, Substream(old(Rest()))), ok, slots)
      decreases Depth(fs), 9
    {
      hide Substream, DecStruct;
      slots := start;
      var sub;
      ok, sub := MakeSubstream();
      if !ok {
        return;
      }
      ok, slots := sub.DecodeNoInit(fs, start);
      CloseSubstream(sub);
    }

    /** The loop over a packed array, while there are bytes and there is room. */
    method DecodeItems(k: FieldType, items: seq<Val>, at: nat, max: nat) returns (ok: bool, filled: Filled)
      requires Valid() && KindOk(k)
      modifies this
      ensures Advanced()
      ensures ok <==> DecPacked(k, items, at, max, old(Rest())).Some?
      ensures ok ==> DecPacked(k, items, at, max, old(Rest())) == Some(filled)
      decreases KindDepth(k), 2
    {
      hide DecPacked, DecVal;
      filled := Filled(items, at);
      while bytesLeft > 0 && filled.at < max
        invariant Advanced()
        invariant DecPacked(k, filled.items, filled.at, max, Rest()) == DecPacked(k, items, at, max, old(Rest()))
        decreases bytesLeft
      {
        PackedUnfold(k, filled.items, filled.at, max, Rest());
        var v;
        ok, v := DecodeVal(k, ZeroVal(k), true);
        if !ok {
          return;
        }
        filled := Filled(PutItem(filled.items, filled.at, v), filled.at + 1);
      }
      PackedUnfold(k, filled.items, filled.at, max, Rest());
      ok := bytesLeft == 0;
    }

    /** decode_static_field, PB_HTYPE_REPEATED: packed, or one item. */
    method DecodeArray(k: FieldType, items: seq<Val>, at: nat, max: nat, wireType: nat) returns (ok: bool, filled: Filled)
      requires Valid() && KindOk(k)
      modifies this
      ensures Gave(DecArray(k, items, at, max, wireType, old(Rest())), ok, filled)
      decreases KindDepth(k), 3
    {
      hide Substream, DecPacked, DecVal;
      filled := Filled(items, at);
      if wireType == 2 && Packable(k) {
        var sub;
        ok, sub := MakeSubstream();
        if !ok {
          return;
        }
        ok, filled := sub.DecodeItems(k, items, at, max);
        CloseSubstream(sub);
      } else if at >= max {
        ok := false;
      } else {
        var v;
        ok, v := DecodeVal(k, ZeroVal(k), true);
        filled := Filled(PutItem(items, at, v), at + 1);
      }
    }

    /** decode_static_field, on field i. A fixed-count array goes on at fixedSize. */
    method DecodeStaticField(fs: seq<Field>, i: nat, wireType: nat, slots: seq<Slot>, fixedSize: nat, ghost st: DState)
      returns (ok: bool, slots': seq<Slot>, fixedSize': nat)
      requires Valid() && FieldsOk(fs) && i < |fs| == |slots|
      requires st.slots == slots && st.fixedSize == fixedSize && (fs[i].rule.FixedCount? ==> st.fixed == Some(i))
      modifies this
      ensures Gave(DecField(fs, st, i, wireType, old(Rest())), ok, DState(slots', SeenAfter(fs, st, i), st.fixed, fixedSize'))
      decreases Depth(fs), 4
    {
      DeeperThanFields(fs, i);
      assert FieldOk(fs[i]);
      hide DecArray, DecVal, FieldsOk, StoreVal;
      var f := fs[i];
      slots', fixedSize' := slots, fixedSize;
      assert st.seen + {} == st.seen;
      var filled, v;
      match f.rule
      case Repeated(max) =>
        ok, filled := DecodeArray(f.kind, OldItems(slots[i]), |OldItems(slots[i])|, max, wireType);
        slots' := slots[i := Many(filled.items)];
      case FixedCount(n) =>
        ok, filled := DecodeArray(f.kind, OldItems(slots[i]), fixedSize, n, wireType);
        slots', fixedSize' := slots[i := Many(filled.items)], filled.at;
      case _ =>
        ok, v := DecodeVal(f.kind, StartVal(f, slots[i]), false);
        slots' := StoreVal(fs, slots, i, v);
    }

    /** The loop of pb_decode_noinit: fields in whatever order they come. */
    method DecodeFields(fs: seq<Field>, dest: seq<Slot>, iter: FieldIter, seen: array<bool>)
      returns (ok: bool, slots: seq<Slot>, fixedField: Option<nat>, fixedSize: nat, ghost st: DState)
      requires Valid() && FieldsOk(fs) && |fs| == |dest| && iter.Valid() && iter.fields == fs
      requires seen.Length == MAX_REQUIRED && BitsAre(fs, seen[..], {})
      modifies this, iter, seen
      ensures Advanced() && iter.Valid()
      ensures ok <==> DecLoop(fs, DState(dest, {}, None, 0), old(Rest())).Some?
      ensures ok ==> DecLoop(fs, DState(dest, {}, None, 0), old(Rest())) == Some(st)
      ensures ok ==> st == DState(slots, st.seen, fixedField, fixedSize) && BitsAre(fs, seen[..], st.seen) && IsFixed(fs, fixedField)
      decreases Depth(fs), 5
    {
      hide DecLoop, DecField, BitsAre, FieldsOk, ReadVarint32, Skip, RequiredBefore, FixedDone, StoreVal;
      slots, fixedField, fixedSize, st := dest, None, 0, DState(dest, {}, None, 0);
      while bytesLeft > 0
        invariant Advanced() && iter.Valid() && |slots| == |fs|
        invariant st == DState(slots, st.seen, fixedField, fixedSize) && BitsAre(fs, seen[..], st.seen) && IsFixed(fs, fixedField)
        invariant DecLoop(fs, st, Rest()) == DecLoop(fs, DState(dest, {}, None, 0), old(Rest()))
        decreases bytesLeft
      {
        ghost var was := Rest();
        var wireType, tag, eof;
        ok, wireType, tag, eof := DecodeTag();
        LoopEnds(fs, st, was);
        if !ok {
          ok := eof;
          return;
        }
        ghost var here := Rest();
        var found := iter.FindTag(tag);
        if !found {
          LoopSkips(fs, st, was, tag, wireType, here);
          ok := SkipField(wireType);
          if !ok {
            return;
          }
          continue;
        }
        LoopField(fs, st, was, tag, wireType, here, iter.pos);
        if fs[iter.pos].rule.FixedCount? && fixedField != Some(iter.pos) {
          NewFixed(fs, st, iter.pos, wireType, here);
          if fixedField.Some? && fixedSize != fs[fixedField.value].rule.n {
            return false, slots, fixedField, fixedSize, st;
          }
          fixedField, fixedSize := Some(iter.pos), 0;
          st := st.(fixed := fixedField, fixedSize := 0);
        }
        if fs[iter.pos].rule.Required? {
          BitSet(fs, seen[..], st.seen, iter.pos);
          if iter.required < MAX_REQUIRED {
            seen[iter.required] := true;
          }
        }
        ok, slots, fixedSize := DecodeStaticField(fs, iter.pos, wireType, slots, fixedSize, st);
        if !ok {
          return;
        }
        st := DState(slots, SeenAfter(fs, st, iter.pos), fixedField, fixedSize);
      }
      LoopEnds(fs, st, Rest());
      ok := true;
    }

    /** pb_decode_noinit: the fields, then the checks that nothing is missing. */
    method DecodeNoInit(fs: seq<Field>, dest: seq<Slot>) returns (ok: bool, slots: seq<Slot>)
      requires Valid() && FieldsOk(fs) && |fs| == |dest|
      modifies this
      ensures Advanced()
      ensures ok <==> DecStruct(fs, dest, old(Rest())).Some?
      ensures ok ==> DecStruct(fs, dest, old(Rest())) == Some(slots)
      decreases Depth(fs), 8
    {
      hide DecLoop, BitsAre, RequiredSeen, FieldsOk;
      var iter := new FieldIter(fs);
      var seen := new bool[MAX_REQUIRED](_ => false);
      var fixedField, fixedSize;
      ghost var st;
      NoBits(fs, seen[..]);
      ok, slots, fixedField, fixedSize, st := DecodeFields(fs, dest, iter, seen);
      if !ok {
        return;
      }
      if fixedField.Some? && fixedSize != fs[fixedField.value].rule.n {
        return false, slots;
      }
      ok := CheckRequired(iter, seen, st.seen);
    }

    /** pb_decode */
    method Decode(fs: seq<Field>) returns (ok: bool, slots: seq<Slot>)
      requires Valid() && FieldsOk(fs)
      modifies this
      ensures Advanced()
      ensures ok <==> NanoPbDecoding.Decode(fs, old(Rest())).Some?
      ensures ok ==> NanoPbDecoding.Decode(fs, old(Rest())) == Some(slots)
    {
      ok, slots := DecodeNoInit(fs, Defaults(fs));
    }
  }

  // ---------- the required fields ----------

  /** The bit of every required field that has one says whether the field was seen. */
  predicate BitsAre(fs: seq<Field>, bits: seq<bool>, seen: set<nat>) {
    && |bits| == MAX_REQUIRED
    && forall i: nat :: i < |fs| && fs[i].rule.Required? && RequiredBefore(fs, i) < MAX_REQUIRED ==>
         (bits[RequiredBefore(fs, i)] <==> i in seen)
  }

  predicate IsFixed(fs: seq<Field>, fixed: Option<nat>) {
    fixed.Some? ==> fixed.value < |fs| && fs[fixed.value].rule.FixedCount?
  }

  lemma {:induction false} NoBits(fs: seq<Field>, bits: seq<bool>)
    requires |bits| == MAX_REQUIRED && forall k :: 0 <= k < |bits| ==> !bits[k]
    ensures BitsAre(fs, bits, {})
  {
  }

  lemma {:induction false} RequiredGrows(fs: seq<Field>, i: nat, j: nat)
    requires i < j <= |fs|
    ensures RequiredBefore(fs, i) <= RequiredBefore(fs, j)
    ensures fs[i].rule.Required? ==> RequiredBefore(fs, i) < RequiredBefore(fs, j)
  {
    if i + 1 < j {
      RequiredGrows(fs, i, j - 1);
    }
  }

  /** Every index below the count belongs to a required field. */
  lemma {:induction false} RequiredAt(fs: seq<Field>, n: nat, r: nat) returns (i: nat)
    requires n <= |fs| && r < RequiredBefore(fs, n)
    ensures i < n && fs[i].rule.Required? && RequiredBefore(fs, i) == r
  {
    if fs[n - 1].rule.Required? && RequiredBefore(fs, n - 1) == r {
      i := n - 1;
    } else {
      i := RequiredAt(fs, n - 1, r);
    }
  }

  /** Seeing field i sets its bit and no other field's. */
  lemma {:induction false} BitSet(fs: seq<Field>, bits: seq<bool>, seen: set<nat>, i: nat)
    requires BitsAre(fs, bits, seen) && i < |fs| && fs[i].rule.Required?
    ensures RequiredBefore(fs, i) < MAX_REQUIRED ==> BitsAre(fs, bits[RequiredBefore(fs, i) := true], seen + {i})
    ensures RequiredBefore(fs, i) >= MAX_REQUIRED ==> BitsAre(fs, bits, seen + {i})
  {
    forall j: nat | j < |fs| && j != i && fs[j].rule.Required?
      ensures RequiredBefore(fs, j) != RequiredBefore(fs, i)
    {
      if i < j {
        RequiredGrows(fs, i, j);
      } else {
        RequiredGrows(fs, j, i);
      }
    }
  }

  /** The checks at the end of pb_decode_noinit: the iterator is moved on to the last field to
      count the required ones, and their bits must be set. */
  method CheckRequired(iter: FieldIter, bits: array<bool>, ghost seen: set<nat>) returns (ok: bool)
    requires iter.Valid() && BitsAre(iter.fields, bits[..], seen)
    modifies iter
    ensures ok <==> RequiredSeen(iter.fields, seen)
  {
    var fs := iter.fields;
    var count, last := iter.required, fs != [] && fs[iter.pos].rule.Required?;
    var more := iter.Next();
    while more
      invariant iter.Valid()
      invariant more ==> iter.pos > 0 && count == RequiredBefore(fs, iter.pos - 1) && last == fs[iter.pos - 1].rule.Required?
      invariant !more && fs != [] ==> count == RequiredBefore(fs, |fs| - 1) && last == fs[|fs| - 1].rule.Required?
      invariant !more && fs == [] ==> count == 0 && !last
      decreases if more then |fs| - iter.pos else 0
    {
      count, last := iter.required, fs[iter.pos].rule.Required?;
      more := iter.Next();
    }
    if last {
      count := count + 1;
    }
    assert count == RequiredBefore(fs, |fs|);
    if count > MAX_REQUIRED {
      count := MAX_REQUIRED;
    }
    var i := 0;
    while i < count
      invariant 0 <= i <= count
      invariant forall k :: 0 <= k < i ==> bits[k]
    {
      if !bits[i] {
        ghost var field := RequiredAt(fs, |fs|, i);
        assert bits[..][i] == bits[i];
        assert field !in seen;
        return false;
      }
      i := i + 1;
    }
    forall j: nat | j < |fs| && fs[j].rule.Required? && RequiredBefore(fs, j) < MAX_REQUIRED
      ensures j in seen
    {
      RequiredGrows(fs, j, |fs|);
      assert bits[..][RequiredBefore(fs, j)];
    }
    ok := true;
  }

  // ---------- one turn of the loop ----------

  lemma {:induction false} LoopEnds(fs: seq<Field>, st: DState, input: Data)
    requires FieldsOk(fs) && |fs| == |st.slots|
    ensures input == [] ==> DecLoop(fs, st, input) == Some(st)
    ensures input != [] && ReadVarint32(input).None? ==> DecLoop(fs, st, input) == None
    ensures input != [] && ReadVarint32(input).Some? && ReadVarint32(input).value.0 == 0 ==> DecLoop(fs, st, input) == Some(st)
  {
    hide ReadVarint32, DecField, Skip, FieldsOk;
  }

  lemma {:induction false} LoopSkips(fs: seq<Field>, st: DState, input: Data, tag: nat, wireType: nat, rest: Data)
    requires FieldsOk(fs) && |fs| == |st.slots| && input != [] && wireType < 8
    requires ReadVarint32(input) == Some((8 * tag + wireType, rest)) && 8 * tag + wireType != 0
    requires forall i :: 0 <= i < |fs| ==> fs[i].tag != tag
    ensures DecLoop(fs, st, input) == match Skip(wireType, rest) case None => None case Some(rest') => DecLoop(fs, st, rest')
  {
    hide ReadVarint32, DecField, Skip, FieldsOk;
    assert (8 * tag + wireType) / 8 == tag && (8 * tag + wireType) % 8 == wireType;
    assert Find(fs, tag) == |fs|;
  }

  lemma {:induction false} LoopField(fs: seq<Field>, st: DState, input: Data, tag: nat, wireType: nat, rest: Data, i: nat)
    requires FieldsOk(fs) && |fs| == |st.slots| && input != [] && wireType < 8
    requires ReadVarint32(input) == Some((8 * tag + wireType, rest)) && 8 * tag + wireType != 0
    requires i < |fs| && fs[i].tag == tag
    ensures DecLoop(fs, st, input)
         == match DecField(fs, st, i, wireType, rest) case None => None case Some((st', rest')) => DecLoop(fs, st', rest')
  {
    FindAgrees(fs, tag, i);
    hide ReadVarint32, DecField, Skip, FieldsOk;
    assert (8 * tag + wireType) / 8 == tag && (8 * tag + wireType) % 8 == wireType;
  }

  /** Another fixed-count array begins: the one before it must be complete. */
  lemma {:induction false} NewFixed(fs: seq<Field>, st: DState, i: nat, wireType: nat, input: Data)
    requires FieldsOk(fs) && i < |fs| == |st.slots| && fs[i].rule.FixedCount? && st.fixed != Some(i) && IsFixed(fs, st.fixed)
    ensures if st.fixed.Some? && st.fixedSize != fs[st.fixed.value].rule.n then DecField(fs, st, i, wireType, input) == None
            else DecField(fs, st, i, wireType, input) == DecField(fs, st.(fixed := Some(i), fixedSize := 0), i, wireType, input)
  {
    DeeperThanFields(fs, i);
    assert FieldOk(fs[i]);
    hide FieldsOk, DecArray, DecVal;
  }

  lemma {:induction false} Pow2Zero()
    ensures Pow2(0) == 1
  {
  }

  lemma {:induction false} MoreUnfold(input: Data, bitpos: nat, result: nat)
    ensures input == [] ==> MoreVarint32(input, bitpos, result) == None
    ensures input != [] ==>
      var byte := input[0];
      var result' := if bitpos >= 32 then result else (result + (byte % 0x80) * Pow2(bitpos)) % LIMIT32;
      MoreVarint32(input, bitpos, result)
      == if bitpos >= 32 && byte % 0x80 != 0 && (result < 0x8000_0000 || byte != if bitpos < 63 then 0xFF else 0x01) then None
         else if byte >= 0x80 then MoreVarint32(input[1..], bitpos + 7, result')
         else if bitpos + 7 == 35 && byte / 0x10 % 8 != 0 then None
         else Some((result', input[1..]))
  {
    hide Pow2;
  }

  lemma {:induction false} NumberUnfold(k: FieldType, input: Data)
    requires KindOk(k)
    ensures k.Fixed32? ==> DecNumber(k, input) == Fixed(TakeBytes(input, 4))
    ensures k.Fixed64? ==> DecNumber(k, input) == Fixed(TakeBytes(input, 8))
    ensures !k.Fixed32? && !k.Fixed64? ==> DecNumber(k, input) == Checked(k, Varint64(input))
  {
    hide Varint64, DecodeFixed, Signed, UnZigZag, Half;
  }

  function Fixed(r: Option<(Data, Data)>): Option<(Val, Data)> {
    match r
    case None => None
    case Some((bytes, rest)) => Some((Num(DecodeFixed(bytes)), rest))
  }

  function Checked(k: FieldType, r: Option<(nat, Data)>): Option<(Val, Data)>
    requires KindOk(k)
  {
    match r
    case None => None
    case Some((u, rest)) =>
      match k
      case Varint(w) => InRange(Signed(u, w), -Half(w), Half(w), rest)
      case UVarint(w) => InRange(u, 0, 2 * Half(w), rest)
      case SVarint(w) => InRange(UnZigZag(u), -Half(w), Half(w), rest)
      case _ => None
  }

  /** The message in a substream; what is behind it is the rest. */
  function DecBody(fs: seq<Field>, start: seq<Slot>, r: Option<(Data, Data)>): Option<(seq<Slot>, Data)>
    requires FieldsOk(fs) && |fs| == |start|
  {
    match r
    case None => None
    case Some((body, rest)) => (match DecStruct(fs, start, body) case None => None case Some(slots) => Some((slots, rest)))
  }

  ghost function SeenAfter(fs: seq<Field>, st: DState, i: nat): set<nat>
    requires i < |fs|
  {
    if fs[i].rule.Required? then st.seen + {i} else st.seen
  }

  lemma {:induction false} PackedUnfold(k: FieldType, items: seq<Val>, at: nat, max: nat, body: Data)
    requires KindOk(k)
    ensures body == [] ==> DecPacked(k, items, at, max, body) == Some(Filled(items, at))
    ensures body != [] && at >= max ==> DecPacked(k, items, at, max, body) == None
    ensures body != [] && at < max ==>
      DecPacked(k, items, at, max, body)
      == match DecVal(k, ZeroVal(k), true, body)
         case None => None
         case Some((v, rest)) => DecPacked(k, PutItem(items, at, v), at + 1, max, rest)
  {
    hide DecVal;
  }
}
