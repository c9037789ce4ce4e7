/** pb_encode.c: the encoder proper. A stream either takes bytes up to a limit or only
    counts them; submessages are counted first and written then. */
module NanoPbEncoder {
  import opened InternalKeys
  import opened Coding
  import opened NanoPbFormat

  class OStream {
    /** callback == NULL */
    const sizing: bool
    const maxSize: nat
    var bytes: Data
    var bytesWritten: nat

    predicate Valid()
      reads this
    {
      !sizing ==> bytesWritten <= maxSize && |bytes| == bytesWritten
    }

    predicate Fits(n: nat)
      reads this
    {
      sizing || bytesWritten + n <= maxSize
    }

    /** pb_ostream_from_buffer, or PB_OSTREAM_SIZING */
    constructor (sizing: bool, maxSize: nat)
      ensures Valid() && bytes == [] && bytesWritten == 0 && this.sizing == sizing && this.maxSize == maxSize
    {
      this.sizing, this.maxSize := sizing, maxSize;
      bytes, bytesWritten := [], 0;
    }

    /** The stream has taken exactly d, or it was too full for it. */
    twostate predicate Took(d: Data, ok: bool)
      reads this
    {
      && Valid() && ok == old(Fits(|d|))
      && (ok ==> bytesWritten == old(bytesWritten) + |d| && (!sizing ==> bytes == old(bytes) + d))
    }

    /** pb_write */
    method Write(buf: Data) returns (ok: bool)
      requires Valid()
      modifies this
      ensures Took(buf, ok)
    {
      if |buf| > 0 && !sizing {
        if bytesWritten + |buf| > maxSize {
          return false;
        }
        bytes := bytes + buf;
      }
      bytesWritten := bytesWritten + |buf|;
      ok := true;
    }

    /** pb_write(stream, NULL, size) on a stream that only counts. */
    method Count(size: nat)
      requires Valid() && sizing
      modifies this
      ensures Valid() && bytesWritten == old(bytesWritten) + size
    {
      bytesWritten := bytesWritten + size;
    }

    /** pb_encode_varint */
    method EncodeVarint(value: nat) returns (ok: bool)
      requires Valid()
      modifies this
      ensures Took(VarintBytes(value), ok)
    {
      if value <= 0x7F {
        ok := Write([value]);
        return;
      }
      var buffer: Data := [];
      var left: nat := value;
      while left > 0
        invariant left > 0 ==> buffer + VarintBytes(left) == VarintBytes(value)
        invariant left == 0 ==> buffer != [] && buffer[|buffer| - 1] >= 0x80
        invariant left == 0 ==> buffer[|buffer| - 1 := buffer[|buffer| - 1] - 0x80] == VarintBytes(value)
      {
        var byte: Byte := left % 0x80 + 0x80;
        assert left >= 0x80 ==> VarintBytes(left) == [byte] + VarintBytes(left / 0x80);
        assert left >= 0x80 ==> buffer + VarintBytes(left) == (buffer + [byte]) + VarintBytes(left / 0x80);
        assert left < 0x80 ==> (buffer + [byte])[|buffer| := byte - 0x80] == buffer + [left];
        buffer, left := buffer + [byte], left / 0x80;
      }
      buffer := buffer[|buffer| - 1 := buffer[|buffer| - 1] - 0x80];
      ok := Write(buffer);
    }

    /** pb_encode_tag */
    method EncodeTag(wireType: nat, tag: nat) returns (ok: bool)
      requires Valid()
      modifies this
      ensures Took(TagBytes(tag, wireType), ok)
    {
      ok := EncodeVarint(8 * tag + wireType);
    }

    /** pb_encode_string */
    method EncodeString(buffer: Data) returns (ok: bool)
      requires Valid()
      modifies this
      ensures Took(Prefixed(buffer), ok)
    {
      ok := EncodeVarint(|buffer|);
      if ok {
        ok := Write(buffer);
      }
    }

    /** PB_ENCODERS */
    method EncodeVal(k: FieldType, v: Val) returns (ok: bool)
      requires Valid() && ValOk(k, v)
      modifies this
      ensures Took(EncVal(k, v), ok)
      decreases KindDepth(k), 0, 1
    {
      match k
      case Bool => ok := EncodeVarint(if v.b then 1 else 0);
      case Varint(_) => ok := EncodeVarint(v.n % LIMIT64);
      case UVarint(_) => ok := EncodeVarint(v.n);
      case SVarint(_) => ok := EncodeVarint(ZigZag(v.n));
      case Fixed32 => ok := Write(FixedBytes(v.n, 4));
      case Fixed64 => ok := Write(FixedBytes(v.n, 8));
      case Message(fs) => ok := EncodeSubmessage(fs, v.slots);
      case _ => ok := EncodeString(v.d);
    }

    /** pb_encode_submessage: the sizing pass counts exactly the bytes the writing pass
        emits, so "submsg size changed" is never reached. */
    method EncodeSubmessage(fs: seq<Field>, slots: seq<Slot>) returns (ok: bool)
      requires Valid() && StructOk(fs, slots)
      modifies this
      ensures Took(Prefixed(Encode(fs, slots)), ok)
      decreases Depth(fs), 5, 0
    {
      var counter := new OStream(true, 0);
      ok := counter.EncodeMessage(fs, slots);
      var size := counter.bytesWritten;
      ok := EncodeVarint(size);
      if !ok {
        return;
      }
      if sizing {
        Count(size);
        return true;
      }
      if bytesWritten + size > maxSize {
        return false;
      }
      var substream := new OStream(false, size);
      var status := substream.EncodeMessage(fs, slots);
      bytesWritten, bytes := bytesWritten + substream.bytesWritten, bytes + substream.bytes;
      assert substream.bytesWritten == size && status;
      ok := true;
    }

    /** pb_encode */
    method EncodeMessage(fs: seq<Field>, slots: seq<Slot>) returns (ok: bool)
      requires Valid() && StructOk(fs, slots)
      modifies this
      ensures Took(Encode(fs, slots), ok)
      decreases Depth(fs), 4, 0
    {
      ghost var done: Data := [];
      var i := 0;
      assert done + EncFrom(fs, slots, 0) == Encode(fs, slots);
      while i < |fs|
        invariant 0 <= i <= |fs| && done + EncFrom(fs, slots, i) == Encode(fs, slots)
        invariant Valid() && bytesWritten == old(bytesWritten) + |done| && (!sizing ==> bytes == old(bytes) + done)
      {
        assert SlotOk(fs, i, slots[i]);
        hide StructOk, SlotOk, EncSlot;
        ok := EncodeField(fs, i, slots[i]);
        assert |done + EncSlot(fs, i, slots[i])| <= |Encode(fs, slots)|;
        if !ok {
          return;
        }
        assert done + EncSlot(fs, i, slots[i]) + EncFrom(fs, slots, i + 1) == done + EncFrom(fs, slots, i);
        done := done + EncSlot(fs, i, slots[i]);
        i := i + 1;
      }
      assert done == Encode(fs, slots);
      ok := true;
    }

    /** encode_basic_field */
    method EncodeField(fs: seq<Field>, i: nat, s: Slot) returns (ok: bool)
      requires Valid() && i < |fs| && SlotOk(fs, i, s)
      modifies this
      ensures Took(EncSlot(fs, i, s), ok)
      decreases Depth(fs), 3, 0
    {
      DeeperThanFields(fs, i);
      var f := fs[i];
      match f.rule
      case Required => ok := EncodeTagged(f.tag, f.kind, s.v);
      case Implicit =>
        if IsZero(f.kind, s.v) {
          return true;
        }
        ok := EncodeTagged(f.tag, f.kind, s.v);
      case Optional =>
        if !s.has {
          return true;
        }
        ok := EncodeTagged(f.tag, f.kind, s.v);
      case OneOf(_) =>
        if !s.has {
          return true;
        }
        ok := EncodeTagged(f.tag, f.kind, s.v);
      case Repeated(_) => ok := EncodeArray(f.tag, f.kind, s.items);
      case FixedCount(_) => ok := EncodeArray(f.tag, f.kind, s.items);
    }

    /** pb_encode_tag_for_field and the field's encoder. */
    method EncodeTagged(tag: nat, k: FieldType, v: Val) returns (ok: bool)
      requires Valid() && ValOk(k, v)
      modifies this
      ensures Took(TagBytes(tag, WireType(k)) + EncVal(k, v), ok)
      decreases KindDepth(k), 1, 0
    {
      hide EncVal, TagBytes, ValOk;
      ok := EncodeTag(WireType(k), tag);
      if ok {
        ok := EncodeVal(k, v);
      }
    }

    /** encode_array: a packed array is sized first, a fixed width being known. */
    method EncodeArray(tag: nat, k: FieldType, items: seq<Val>) returns (ok: bool)
      requires Valid() && forall v :: v in items ==> ValOk(k, v)
      modifies this
      ensures Took(EncArray(tag, k, items), ok)
      decreases KindDepth(k), 2, 0
    {
      hide EncEach, EncPacked, EncVal, ValOk, TagBytes;
      if items == [] {
        return true;
      }
      if !Packable(k) {
        ok := EncodeEach(tag, k, items);
        return;
      }
      ok := EncodeTag(2, tag);
      if !ok {
        return;
      }
      var size := SizePacked(k, items);
      ok := EncodeVarint(size);
      if !ok {
        return;
      }
      if sizing {
        Count(size);
        return true;
      }
      ok := EncodeItems(k, items);
    }

    static method SizePacked(k: FieldType, items: seq<Val>) returns (size: nat)
      requires Packable(k) && forall v :: v in items ==> ValOk(k, v)
      ensures size == |EncPacked(k, items)|
      decreases KindDepth(k), 1, 1
    {
      FixedSizes(k, items);
      if k.Fixed32? {
        size := 4 * |items|;
      } else if k.Fixed64? {
        size := 8 * |items|;
      } else {
        var counter := new OStream(true, 0);
        var ok := counter.EncodeItems(k, items);
        size := counter.bytesWritten;
      }
    }

    /** The loop over the items of a packed array. */
    method EncodeItems(k: FieldType, items: seq<Val>) returns (ok: bool)
      requires Valid() && forall v :: v in items ==> ValOk(k, v)
      modifies this
      ensures Took(EncPacked(k, items), ok)
      decreases KindDepth(k), 1, 0
    {
      hide EncPacked, EncVal, ValOk;
      ghost var done: Data := [];
      var i := 0;
      assert items[0..] == items && done + EncPacked(k, items) == EncPacked(k, items);
      while i < |items|
        invariant 0 <= i <= |items| && done + EncPacked(k, items[i..]) == EncPacked(k, items)
        invariant Valid() && bytesWritten == old(bytesWritten) + |done| && (!sizing ==> bytes == old(bytes) + done)
      {
        PackedStep(k, items, i, done);
        ok := EncodeVal(k, items[i]);
        if !ok {
          return;
        }
        done := done + EncVal(k, items[i]);
        i := i + 1;
      }
      PackedEnds(k, items[i..]);
      ok := true;
    }

    /** The loop over the items of an unpacked array. */
    method EncodeEach(tag: nat, k: FieldType, items: seq<Val>) returns (ok: bool)
      requires Valid() && forall v :: v in items ==> ValOk(k, v)
      modifies this
      ensures Took(EncEach(tag, k, items), ok)
      decreases KindDepth(k), 1, 1
    {
      hide EncEach, EncVal, ValOk, TagBytes;
      ghost var done: Data := [];
      var i := 0;
      assert items[0..] == items && done + EncEach(tag, k, items) == EncEach(tag, k, items);
      while i < |items|
        invariant 0 <= i <= |items| && done + EncEach(tag, k, items[i..]) == EncEach(tag, k, items)
        invariant Valid() && bytesWritten == old(bytesWritten) + |done| && (!sizing ==> bytes == old(bytes) + done)
      {
        EachStep(tag, k, items, i, done);
        ok := EncodeTagged(tag, k, items[i]);
        if !ok {
          return;
        }
        done := done + (TagBytes(tag, WireType(k)) + EncVal(k, items[i]));
        i := i + 1;
      }
      EachEnds(tag, k, items[i..]);
      ok := true;
    }
  }

  lemma {:induction false} PackedStep(k: FieldType, items: seq<Val>, i: nat, done: Data)
    requires i < |items| && forall v :: v in items ==> ValOk(k, v)
    ensures items[i] in items
    ensures done + EncPacked(k, items[i..]) == done + EncVal(k, items[i]) + EncPacked(k, items[i + 1..])
  {
    hide EncVal, ValOk;
    assert items[i..][0] == items[i] && items[i..][1..] == items[i + 1..];
  }

  lemma {:induction false} PackedEnds(k: FieldType, items: seq<Val>)
    requires items == []
    ensures EncPacked(k, items) == []
  {
  }

  lemma {:induction false} EachStep(tag: nat, k: FieldType, items: seq<Val>, i: nat, done: Data)
    requires i < |items| && forall v :: v in items ==> ValOk(k, v)
    ensures items[i] in items
    ensures done + EncEach(tag, k, items[i..])
         == done + (TagBytes(tag, WireType(k)) + EncVal(k, items[i])) + EncEach(tag, k, items[i + 1..])
  {
    hide EncVal, TagBytes, ValOk;
    assert items[i..][0] == items[i] && items[i..][1..] == items[i + 1..];
  }

  lemma {:induction false} EachEnds(tag: nat, k: FieldType, items: seq<Val>)
    requires items == []
    ensures EncEach(tag, k, items) == []
  {
  }

  lemma {:induction false} FixedSizes(k: FieldType, items: seq<Val>)
    requires forall v :: v in items ==> ValOk(k, v)
    ensures k.Fixed32? ==> |EncPacked(k, items)| == 4 * |items|
    ensures k.Fixed64? ==> |EncPacked(k, items)| == 8 * |items|
    decreases |items|
  {
    if items != [] {
      FixedSizes(k, items[1..]);
    }
  }

  /** pb_get_encoded_size: the number of bytes pb_encode emits. */
  method GetEncodedSize(fs: seq<Field>, slots: seq<Slot>) returns (size: nat)
    requires StructOk(fs, slots)
    ensures size == |Encode(fs, slots)|
  {
    var stream := new OStream(true, 0);
    var ok := stream.EncodeMessage(fs, slots);
    size := stream.bytesWritten;
  }
}
