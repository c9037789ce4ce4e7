/** d1_both.cc: handshake fragments on the wire, and one message being put together
    from them. */
module DtlsFragments {
  import opened InternalKeys

  /** DTLS1_HM_HEADER_LENGTH */
  const HEADER_LENGTH: nat := 12

  /** A fragment: bytes off, off + |body| of message num, which is msgLen bytes long. */
  datatype Fragment = Fragment(typ: nat, msgLen: nat, num: nat, off: nat, body: Data)

  /** The fields fit their widths on the wire: 8, 24, 16, 24 and 24 bits. */
  predicate Fits(f: Fragment) {
    f.typ < 0x100 && f.msgLen < 0x100_0000 && f.num < 0x1_0000 && f.off < 0x100_0000 && |f.body| < 0x100_0000
  }

  function U8(v: nat): (r: Data)
    requires v < 0x100
    ensures |r| == 1
  {
    [v]
  }

  function U16(v: nat): (r: Data)
    requires v < 0x1_0000
    ensures |r| == 2
  {
    [v / 0x100, v % 0x100]
  }

  function U24(v: nat): (r: Data)
    requires v < 0x100_0000
    ensures |r| == 3
  {
    [v / 0x1_0000, v / 0x100 % 0x100, v % 0x100]
  }

  function GetU16(s: Data): nat
    requires |s| >= 2
  {
    s[0] as int * 0x100 + s[1]
  }

  function GetU24(s: Data): nat
    requires |s| >= 3
  {
    s[0] as int * 0x1_0000 + s[1] as int * 0x100 + s[2]
  }

  function Header(typ: nat, msgLen: nat, num: nat, off: nat, fragLen: nat): (r: Data)
    requires typ < 0x100 && msgLen < 0x100_0000 && num < 0x1_0000 && off < 0x100_0000 && fragLen < 0x100_0000
    ensures |r| == HEADER_LENGTH
  {
    U8(typ) + U24(msgLen) + U16(num) + U24(off) + U24(fragLen)
  }

  function Serialize(f: Fragment): Data
    requires Fits(f)
  {
    Header(f.typ, f.msgLen, f.num, f.off, |f.body|) + f.body
  }

  /** dtls1_parse_fragment: the first fragment of s and what follows it. */
  function ParseFragment(s: Data): (r: Option<(Fragment, Data)>)
    ensures r.Some? ==> |r.value.1| < |s|
  {
    if |s| < HEADER_LENGTH then None
    else
      var fragLen := GetU24(s[9..]);
      var rest := s[HEADER_LENGTH..];
      if |rest| < fragLen then None
      else Some((Fragment(s[0], GetU24(s[1..]), GetU16(s[4..]), GetU24(s[6..]), rest[..fragLen]), rest[fragLen..]))
  }

  lemma HeaderFields(typ: nat, msgLen: nat, num: nat, off: nat, fragLen: nat)
    requires typ < 0x100 && msgLen < 0x100_0000 && num < 0x1_0000 && off < 0x100_0000 && fragLen < 0x100_0000
    ensures var h := Header(typ, msgLen, num, off, fragLen);
            && h[0] == typ && GetU24(h[1..]) == msgLen && GetU16(h[4..]) == num
            && GetU24(h[6..]) == off && GetU24(h[9..]) == fragLen
  {
  }

  lemma ParseReadsBack(f: Fragment, rest: Data)
    requires Fits(f)
    ensures ParseFragment(Serialize(f) + rest) == Some((f, rest))
  {
    var h := Header(f.typ, f.msgLen, f.num, f.off, |f.body|);
    HeaderFields(f.typ, f.msgLen, f.num, f.off, |f.body|);
    hide Header;
    var s := Serialize(f) + rest;
    assert s[..HEADER_LENGTH] == h && s[HEADER_LENGTH..] == f.body + rest;
    assert forall i :: 0 <= i < HEADER_LENGTH ==> s[i] == h[i];
  }

  lemma U24ReadsBack(s: Data)
    requires |s| == 3
    ensures GetU24(s) < 0x100_0000 && U24(GetU24(s)) == s
  {
    Digits(s[0], s[1], s[2]);
  }

  lemma Digits(a: Byte, b: Byte, c: Byte)
    ensures var v := a as int * 0x1_0000 + b as int * 0x100 + c;
            v / 0x1_0000 == a && v / 0x100 % 0x100 == b && v % 0x100 == c
  {
    var v := a as int * 0x1_0000 + b as int * 0x100 + c;
    assert v / 0x100 == a as int * 0x100 + b;
  }

  /** Nothing else parses: the format has one encoding per fragment. */
  lemma ParsedIsSerialized(s: Data)
    requires ParseFragment(s).Some?
    ensures var (f, rest) := ParseFragment(s).value;
            Fits(f) && s == Serialize(f) + rest
  {
    var (f, rest) := ParseFragment(s).value;
    U24ReadsBack(s[1..4]);
    U24ReadsBack(s[6..9]);
    U24ReadsBack(s[9..12]);
    assert U16(f.num) == s[4..6];
    assert s[..12] == s[..1] + s[1..4] + s[4..6] + s[6..9] + s[9..12];
    assert s == s[..12] + s[12..];
  }

  // ---------- the reassembly bitmap ----------

  function Bit(b: bv8, k: nat): bool
    requires k < 8
  {
    (b >> k) & 1 == 1
  }

  /** bit_range, computed in 32 bits and cut to 8. */
  function BitRange(start: nat, end: nat): bv8
    requires start <= 8 && end <= 8
  {
    var one: bv32 := 1;
    ((!((one << start) - 1) & ((one << end) - 1)) & 0xFF) as bv8
  }

  lemma BitRangeBits(start: nat, end: nat, k: nat)
    requires start <= 8 && end <= 8 && k < 8
    ensures Bit(BitRange(start, end), k) <==> start <= k < end
  {
  }

  lemma OrBits(a: bv8, b: bv8, k: nat)
    requires k < 8
    ensures Bit(a | b, k) <==> Bit(a, k) || Bit(b, k)
  {
  }

  lemma SameBits(a: bv8, b: bv8)
    requires forall k: nat :: k < 8 ==> (Bit(a, k) <==> Bit(b, k))
    ensures a == b
  {
    assert Bit(a, 0) == Bit(b, 0) && Bit(a, 1) == Bit(b, 1) && Bit(a, 2) == Bit(b, 2) && Bit(a, 3) == Bit(b, 3);
    assert Bit(a, 4) == Bit(b, 4) && Bit(a, 5) == Bit(b, 5) && Bit(a, 6) == Bit(b, 6) && Bit(a, 7) == Bit(b, 7);
  }

  /** Bit i of a bitmap. */
  predicate Has(bits: seq<bv8>, i: nat)
    requires i < 8 * |bits|
  {
    Bit(bits[i / 8], i % 8)
  }

  lemma FullRange()
    ensures BitRange(0, 8) == 0xFF
  {
  }

  /** Byte j of a bitmap, a before, once start, end has been marked. */
  function MarkedByte(a: bv8, start: nat, end: nat, j: nat): bv8 {
    var first, last := start / 8, end / 8;
    if j < first || j > last then a
    else if first == last then a | BitRange(start % 8, end % 8)
    else if j == first then a | BitRange(start % 8, 8)
    else if j < last then 0xFF
    else if end % 8 == 0 then a
    else a | BitRange(0, end % 8)
  }

  /** The three parts of dtls1_hm_fragment_mark that write the bitmap. */
  method MarkBytes(bits: array<bv8>, start: nat, end: nat)
    requires start < end <= 8 * bits.Length
    modifies bits
    ensures forall j: nat :: j < bits.Length ==> bits[j] == MarkedByte(old(bits[j]), start, end, j)
  {
    hide BitRange;
    var first, last := start / 8, end / 8;
    if first == last {
      bits[first] := bits[first] | BitRange(start % 8, end % 8);
    } else {
      bits[first] := bits[first] | BitRange(start % 8, 8);
      var i := first + 1;
      while i < last
        invariant first < i <= last
        invariant forall j: nat :: j < bits.Length ==>
          bits[j] == if first < j < i then 0xFF
                     else if j == first then old(bits[j]) | BitRange(start % 8, 8)
                     else old(bits[j])
      {
        bits[i] := 0xFF;
        i := i + 1;
      }
      if end % 8 != 0 {
        bits[last] := bits[last] | BitRange(0, end % 8);
      }
    }
  }

  lemma RangeAdds(a: bv8, start: nat, end: nat, k: nat)
    requires start <= 8 && end <= 8 && k < 8
    ensures Bit(a | BitRange(start, end), k) <==> Bit(a, k) || start <= k < end
  {
    BitRangeBits(start, end, k);
    OrBits(a, BitRange(start, end), k);
  }

  /** The bits this sets in byte j are those of the range. */
  lemma ByteBits(a: bv8, start: nat, end: nat, j: nat, k: nat)
    requires start < end && k < 8
    ensures Bit(MarkedByte(a, start, end, j), k) <==> Bit(a, k) || start <= 8 * j + k < end
  {
    FullRange();
    BitRangeBits(0, 8, k);
    hide Bit, BitRange;
    var first, last := start / 8, end / 8;
    var from, to := start - 8 * first, end - 8 * last;
    if j < first || j > last {
    } else if first == last {
      RangeAdds(a, from, to, k);
    } else if j == first {
      RangeAdds(a, from, 8, k);
    } else if j == last {
      RangeAdds(a, 0, to, k);
    }
  }

  lemma MarkedBits(before: seq<bv8>, after: seq<bv8>, start: nat, end: nat, i: nat)
    requires |before| == |after| && start < end && i < 8 * |before|
    requires forall j: nat :: j < |before| ==> after[j] == MarkedByte(before[j], start, end, j)
    ensures Has(after, i) <==> Has(before, i) || start <= i < end
  {
    ByteBits(before[i / 8], start, end, i / 8, i % 8);
    hide Bit, MarkedByte;
  }

  /** The bitmap has one bit per byte of the message, and none beyond. */
  ghost predicate BitmapOk(bits: seq<bv8>, msgLen: nat) {
    && |bits| == (msgLen + 7) / 8
    && forall i: nat :: msgLen <= i < 8 * |bits| ==> !Has(bits, i)
  }

  lemma FullByte(bits: seq<bv8>, j: nat)
    requires j < |bits|
    ensures bits[j] == 0xFF <==> forall i: nat :: 8 * j <= i < 8 * j + 8 ==> Has(bits, i)
  {
    FullRange();
    forall k: nat | k < 8 ensures Bit(0xFF, k) {
      BitRangeBits(0, 8, k);
    }
    hide Bit, BitRange;
    if forall i: nat :: 8 * j <= i < 8 * j + 8 ==> Has(bits, i) {
      forall k: nat | k < 8 ensures Bit(bits[j], k) {
        assert Has(bits, 8 * j + k);
      }
      SameBits(bits[j], 0xFF);
    }
  }

  lemma LastByte(bits: seq<bv8>, msgLen: nat)
    requires BitmapOk(bits, msgLen) && msgLen % 8 != 0
    ensures bits[msgLen / 8] == BitRange(0, msgLen % 8)
       <==> forall i: nat :: 8 * (msgLen / 8) <= i < msgLen ==> Has(bits, i)
  {
    var j, m := msgLen / 8, msgLen % 8;
    forall k: nat | k < 8
      ensures Bit(BitRange(0, m), k) <==> k < m
      ensures Has(bits, 8 * j + k) == Bit(bits[j], k)
    {
      BitRangeBits(0, m, k);
    }
    hide BitRange, Bit;
    if forall i: nat :: 8 * j <= i < msgLen ==> Has(bits, i) {
      forall k: nat | k < 8 ensures Bit(bits[j], k) <==> Bit(BitRange(0, m), k) {
        assert Has(bits, 8 * j + k) <==> k < m;
      }
      SameBits(bits[j], BitRange(0, m));
    } else {
      var i: nat :| 8 * j <= i < msgLen && !Has(bits, i);
      assert !Bit(bits[j], i - 8 * j);
    }
  }

  /** The completeness test at the end of dtls1_hm_fragment_mark. */
  method AllMarked(bits: array<bv8>, msgLen: nat) returns (complete: bool)
    requires BitmapOk(bits[..], msgLen)
    ensures complete <==> forall i: nat :: i < msgLen ==> Has(bits[..], i)
  {
    hide Has;
    var j := 0;
    while j < msgLen / 8
      invariant 0 <= j <= msgLen / 8
      invariant forall i: nat :: i < 8 * j ==> Has(bits[..], i)
    {
      FullByte(bits[..], j);
      if bits[j] != 0xFF {
        return false;
      }
      j := j + 1;
    }
    if msgLen % 8 != 0 {
      LastByte(bits[..], msgLen);
      if bits[msgLen / 8] != BitRange(0, msgLen % 8) {
        return false;
      }
    }
    return true;
  }

  predicate AllSet(bits: seq<bv8>, n: nat)
    requires n <= 8 * |bits|
  {
    forall i: nat :: i < n ==> Has(bits, i)
  }

  // ---------- one message being put together ----------

  /** What is known of a message: its type and the bytes received so far. */
  datatype Partial = Partial(typ: nat, cells: seq<Option<Byte>>)

  predicate Complete(p: Partial) {
    forall c :: c in p.cells ==> c.Some?
  }

  function Overlay(p: Partial, off: nat, body: Data): Partial
    requires off + |body| <= |p.cells|
  {
    p.(cells := seq(|p.cells|, i requires 0 <= i < |p.cells| =>
                      if off <= i < off + |body| then Some(body[i - off]) else p.cells[i]))
  }

  function Blank(typ: nat, msgLen: nat): Partial {
    Partial(typ, seq(msgLen, i => None))
  }

  class HmFragment {
    const typ: nat
    const num: nat
    const msgLen: nat
    const data: array<Byte>
    var reassembly: array?<bv8>

    ghost predicate Valid()
      reads this, data, reassembly
    {
      && typ < 0x100 && num < 0x1_0000 && msgLen < 0x100_0000
      && data.Length == HEADER_LENGTH + msgLen
      && data[..HEADER_LENGTH] == Header(typ, msgLen, num, 0, msgLen)
      && (reassembly != null ==>
            && BitmapOk(reassembly[..], msgLen)
            && !AllSet(reassembly[..], msgLen))
    }

    ghost predicate Marked(i: nat)
      requires Valid() && i < msgLen
      reads this, data, reassembly
    {
      reassembly == null || Has(reassembly[..], i)
    }

    /** Bytes that have not arrived hold whatever malloc left there. */
    ghost function View(): (p: Partial)
      requires Valid()
      reads this, data, reassembly
      ensures p.typ == typ && |p.cells| == msgLen
      ensures Complete(p) <==> reassembly == null
    {
      var p := Partial(typ, seq(msgLen, i requires Valid() && 0 <= i < msgLen reads this, data, reassembly =>
                                  if Marked(i) then Some(data[HEADER_LENGTH + i]) else None));
      assert reassembly != null ==>
          exists i: nat :: i < msgLen && !Has(reassembly[..], i) && p.cells[i].None? && p.cells[i] in p.cells;
      p
    }

    /** dtls1_hm_fragment_new */
    constructor (typ: nat, num: nat, msgLen: nat)
      requires typ < 0x100 && num < 0x1_0000 && msgLen < 0x100_0000
      ensures Valid() && View() == Blank(typ, msgLen)
      ensures this.typ == typ && this.num == num && this.msgLen == msgLen
      ensures fresh(data) && (reassembly != null ==> fresh(reassembly))
    {
      this.typ, this.num, this.msgLen := typ, num, msgLen;
      var bytes := new Byte[HEADER_LENGTH + msgLen];
      var header := Header(typ, msgLen, num, 0, msgLen);
      forall i | 0 <= i < HEADER_LENGTH {
        bytes[i] := header[i];
      }
      data := bytes;
      var bits: array?<bv8> := null;
      if msgLen > 0 {
        bits := new bv8[(msgLen + 7) / 8](_ => 0);
      }
      reassembly := bits;
      new;
      if reassembly != null {
        assert forall i: nat :: i < 8 * reassembly.Length ==> !Has(reassembly[..], i) by {
          assert forall k: nat :: k < 8 ==> !Bit(0, k);
        }
        assert !Has(reassembly[..], 0);
      }
      assert View().cells == Blank(typ, msgLen).cells;
    }

    /** dtls1_hm_fragment_mark: the bitmap is dropped exactly when the ranges marked so far
        cover the whole message. */
    method Mark(start: nat, end: nat)
      requires Valid() && reassembly != null && start <= end <= msgLen
      modifies this`reassembly, reassembly
      ensures Valid() && (reassembly == null || reassembly == old(reassembly))
      ensures forall i: nat :: i < msgLen ==> (Marked(i) <==> old(Marked(i)) || start <= i < end)
      ensures reassembly == null <==> forall i: nat :: i < msgLen ==> old(Marked(i)) || start <= i < end
    {
      ghost var i: nat :| i < msgLen && !Has(reassembly[..], i);
      if start == end {
        assert !old(Marked(i));
        return;
      }
      var bits := reassembly;
      ghost var before := bits[..];
      MarkBytes(bits, start, end);
      ghost var after := bits[..];
      forall i: nat | i < 8 * |before| ensures Has(after, i) <==> Has(before, i) || start <= i < end {
        MarkedBits(before, after, start, end, i);
      }
      hide Has;
      var complete := AllMarked(bits, msgLen);
      if complete {
        reassembly := null;
      } else {
        i :| i < msgLen && !Has(after, i);
        assert !old(Marked(i)) && !(start <= i < end);
      }
    }

    /** The part of dtls1_open_handshake that copies a fragment of this message in. */
    method Receive(off: nat, body: Data)
      requires Valid() && reassembly != null && off + |body| <= msgLen
      modifies this`reassembly, data, reassembly
      ensures Valid() && (reassembly == null || reassembly == old(reassembly))
      ensures View() == Overlay(old(View()), off, body)
    {
      forall i | 0 <= i < |body| {
        data[HEADER_LENGTH + off + i] := body[i];
      }
      assert data[..HEADER_LENGTH] == old(data[..HEADER_LENGTH]);
      assert reassembly[..] == old(reassembly[..]);
      Mark(off, off + |body|);
      assert View().cells == Overlay(old(View()), off, body).cells;
    }
  }
}
