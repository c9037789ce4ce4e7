/** util/coding.cc: little-endian fixed-width integers, varints and length-prefixed slices. */
module Coding {
  import opened InternalKeys

  function Pow(b: nat, n: nat): (p: nat)
    requires b > 0
    ensures p > 0
  {
    if n == 0 then 1 else b * Pow(b, n - 1)
  }

  lemma Width32()
    ensures Pow(256, 4) == 0x1_0000_0000 && Pow(128, 5) == 0x8_0000_0000
  {
    assert Pow(256, 4) == 256 * Pow(256, 3) && Pow(256, 3) == 256 * Pow(256, 2) && Pow(256, 2) == 256 * Pow(256, 1);
    assert Pow(128, 5) == 128 * Pow(128, 4) && Pow(128, 4) == 128 * Pow(128, 3) && Pow(128, 3) == 128 * Pow(128, 2);
    assert Pow(256, 1) == 256 * Pow(256, 0) && Pow(128, 2) == 128 * Pow(128, 1) && Pow(128, 1) == 128 * Pow(128, 0);
  }

  lemma Width64()
    ensures Pow(256, 8) == 0x1_0000_0000_0000_0000
  {
    Width32();
    assert Pow(256, 8) == 256 * Pow(256, 7) && Pow(256, 7) == 256 * Pow(256, 6);
    assert Pow(256, 6) == 256 * Pow(256, 5) && Pow(256, 5) == 256 * Pow(256, 4);
  }

  lemma SplitSlice(d: Data, from: nat, mid: nat, to: nat)
    requires from <= mid <= to <= |d|
    ensures d[from..to][..mid - from] == d[from..mid] && d[from..to][mid - from..] == d[mid..to]
    ensures d[from..to] == d[from..mid] + d[mid..to] && d[..to][from..mid] == d[from..mid]
  {
  }

  // ---------- fixed width ----------

  /** EncodeFixed32 and EncodeFixed64: the n low bytes of v, lowest first. */
  function FixedBytes(v: nat, n: nat): (r: Data)
    ensures |r| == n
  {
    if n == 0 then [] else [v % 256] + FixedBytes(v / 256, n - 1)
  }

  function DecodeFixed(bytes: Data): nat {
    if bytes == [] then 0 else bytes[0] + 256 * DecodeFixed(bytes[1..])
  }

  lemma {:induction false} FixedRoundTrip(v: nat, n: nat)
    requires v < Pow(256, n)
    ensures DecodeFixed(FixedBytes(v, n)) == v
  {
    if n > 0 {
      assert v / 256 < Pow(256, n - 1);
      FixedRoundTrip(v / 256, n - 1);
    }
  }

  // ---------- varints ----------

  /** The bytes EncodeVarint32 and EncodeVarint64 write. */
  function VarintBytes(v: nat): (r: Data)
    ensures |r| >= 1
  {
    if v < 128 then [v] else [v % 128 + 128] + VarintBytes(v / 128)
  }

  /** At most n bytes, the last one below 128: the value and what follows. */
  function DecodeVarint(input: Data, n: nat): Option<(nat, Data)> {
    if n == 0 || input == [] then None
    else if input[0] < 128 then Some((input[0], input[1..]))
    else
      match DecodeVarint(input[1..], n - 1)
      case None => None
      case Some((v, rest)) => Some((input[0] - 128 + 128 * v, rest))
  }

  lemma {:induction false} VarintRoundTrip(v: nat, n: nat, rest: Data)
    requires n > 0 && v < Pow(128, n)
    ensures DecodeVarint(VarintBytes(v) + rest, n) == Some((v, rest))
  {
    var bytes := VarintBytes(v) + rest;
    if v < 128 {
      assert bytes[1..] == rest;
    } else {
      assert v / 128 < Pow(128, n - 1);
      VarintRoundTrip(v / 128, n - 1, rest);
      assert bytes[1..] == VarintBytes(v / 128) + rest;
    }
  }

  method EncodeVarint64(v: nat) returns (dst: Data)
    ensures dst == VarintBytes(v)
  {
    dst := [];
    var left := v;
    while left >= 128
      invariant dst + VarintBytes(left) == VarintBytes(v)
    {
      assert VarintBytes(left) == [left % 128 + 128] + VarintBytes(left / 128);
      assert dst + VarintBytes(left) == (dst + [left % 128 + 128]) + VarintBytes(left / 128);
      dst := dst + [left % 128 + 128];
      left := left / 128;
    }
    dst := dst + [left];
  }

  /** How the loop's accumulator and what is still to be read make up the result. */
  ghost function Accumulated(result: nat, scale: nat, rest: Option<(nat, Data)>): Option<(nat, Data)> {
    match rest
    case None => None
    case Some((v, r)) => Some((result + scale * v, r))
  }

  lemma AccumulateByte(result: nat, scale: nat, input: Data, n: nat)
    requires n > 0 && input != [] && input[0] >= 128
    ensures Accumulated(result, scale, DecodeVarint(input, n))
            == Accumulated(result + scale * (input[0] - 128), scale * 128, DecodeVarint(input[1..], n - 1))
  {
    match DecodeVarint(input[1..], n - 1)
    case None =>
    case Some((v, r)) =>
      assert scale * (input[0] - 128 + 128 * v) == scale * (input[0] - 128) + scale * 128 * v;
  }

  lemma AccumulateEnd(result: nat, scale: nat, input: Data, n: nat)
    ensures n == 0 || input == [] ==> Accumulated(result, scale, DecodeVarint(input, n)).None?
    ensures n > 0 && input != [] && input[0] < 128 ==>
      Accumulated(result, scale, DecodeVarint(input, n)) == Some((result + scale * input[0], input[1..]))
    ensures Accumulated(0, 1, DecodeVarint(input, n)) == DecodeVarint(input, n)
  {
  }

  /** GetVarint32Ptr and GetVarint64Ptr: at most n bytes, accumulated modulo the width. */
  method GetVarint(input: Data, n: nat, width: nat) returns (r: Option<(nat, Data)>)
    requires width > 0
    ensures r == match DecodeVarint(input, n) case None => None case Some((v, rest)) => Some((v % width, rest))
  {
    hide DecodeVarint, Accumulated;
    var result: nat, scale: nat, left: nat, p := 0, 1, n, input;
    AccumulateEnd(0, 1, input, n);
    while left > 0 && p != [] && p[0] >= 128
      invariant Accumulated(result, scale, DecodeVarint(p, left)) == DecodeVarint(input, n)
      decreases left
    {
      AccumulateByte(result, scale, p, left);
      result := result + scale * (p[0] - 128);
      p, left, scale := p[1..], left - 1, scale * 128;
    }
    AccumulateEnd(result, scale, p, left);
    if left == 0 || p == [] {
      return None;
    }
    r := Some(((result + scale * p[0]) % width, p[1..]));
  }

  const LIMIT32: nat := 0x1_0000_0000
  const LIMIT64: nat := 0x1_0000_0000_0000_0000

  /** GetVarint32 and GetVarint64, as functions. */
  function Varint32(input: Data): Option<(nat, Data)> {
    match DecodeVarint(input, 5)
    case None => None
    case Some((v, rest)) => Some((v % LIMIT32, rest))
  }

  function Varint64(input: Data): Option<(nat, Data)> {
    match DecodeVarint(input, 10)
    case None => None
    case Some((v, rest)) => Some((v % LIMIT64, rest))
  }

  lemma Width10()
    ensures Pow(128, 10) >= LIMIT64
  {
    Width32();
    assert Pow(128, 10) == 128 * Pow(128, 9) && Pow(128, 9) == 128 * Pow(128, 8);
    assert Pow(128, 8) == 128 * Pow(128, 7) && Pow(128, 7) == 128 * Pow(128, 6) && Pow(128, 6) == 128 * Pow(128, 5);
  }

  lemma Varint32ReadsBack(v: nat, rest: Data)
    requires v < LIMIT32
    ensures Varint32(VarintBytes(v) + rest) == Some((v, rest))
  {
    Width32();
    VarintRoundTrip(v, 5, rest);
    hide DecodeVarint, VarintBytes, Pow;
  }

  lemma Varint64ReadsBack(v: nat, rest: Data)
    requires v < LIMIT64
    ensures Varint64(VarintBytes(v) + rest) == Some((v, rest))
  {
    Width10();
    VarintRoundTrip(v, 10, rest);
    hide DecodeVarint, VarintBytes, Pow;
  }

  lemma {:induction false} VarintShrinks(input: Data, n: nat)
    ensures DecodeVarint(input, n).Some? ==> |DecodeVarint(input, n).value.1| < |input|
  {
    if n > 0 && input != [] && input[0] >= 128 {
      VarintShrinks(input[1..], n - 1);
    }
  }

  // ---------- length-prefixed slices ----------

  function PrefixedBytes(s: Data): Data {
    VarintBytes(|s|) + s
  }

  /** GetLengthPrefixedSlice */
  function DecodePrefixed(input: Data): Option<(Data, Data)> {
    match DecodeVarint(input, 5)
    case None => None
    case Some((v, rest)) =>
      var len := v % LIMIT32;
      if len <= |rest| then Some((rest[..len], rest[len..])) else None
  }

  lemma PrefixedRoundTrip(s: Data, rest: Data)
    requires |s| < LIMIT32
    ensures DecodePrefixed(PrefixedBytes(s) + rest) == Some((s, rest))
  {
    Width32();
    VarintRoundTrip(|s|, 5, s + rest);
    assert PrefixedBytes(s) + rest == VarintBytes(|s|) + (s + rest);
  }
}
