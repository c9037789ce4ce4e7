/** The layout of a table block: prefix-compressed entries, then the offsets of the restart
    points, then their number. */
module BlockFormat {
  import opened InternalKeys
  import opened Coding

  datatype Pair = Pair(key: Data, value: Data)

  /** One entry that takes its first shared bytes from the key before. */
  function EntryBytes(shared: nat, e: Pair): (r: Data)
    requires shared <= |e.key|
    ensures |r| >= 3
  {
    VarintBytes(shared) + VarintBytes(|e.key| - shared) + VarintBytes(|e.value|) + e.key[shared..] + e.value
  }

  /** What the sharing of entry k has to be: a common prefix with the entry before. */
  predicate ShareOk(es: seq<Pair>, sh: seq<nat>, k: nat)
    requires k < |es| == |sh|
  {
    && sh[k] <= |es[k].key|
    && (k == 0 ==> sh[k] == 0)
    && (k > 0 ==> sh[k] <= |es[k - 1].key| && es[k - 1].key[..sh[k]] == es[k].key[..sh[k]])
  }

  ghost predicate SharesOk(es: seq<Pair>, sh: seq<nat>) {
    |es| == |sh| && forall k: nat :: k < |es| ==> ShareOk(es, sh, k)
  }

  lemma SharesOfPrefix(es: seq<Pair>, sh: seq<nat>, n: nat)
    requires SharesOk(es, sh) && n <= |es|
    ensures SharesOk(es[..n], sh[..n])
  {
    forall k: nat | k < n ensures ShareOk(es[..n], sh[..n], k) {
      assert ShareOk(es, sh, k);
    }
  }

  /** The entries of a block, one after the other. */
  ghost function Encode(es: seq<Pair>, sh: seq<nat>): Data
    requires SharesOk(es, sh)
  {
    if es == [] then []
    else
      var n := |es| - 1;
      SharesOfPrefix(es, sh, n);
      assert ShareOk(es, sh, n);
      Encode(es[..n], sh[..n]) + EntryBytes(sh[n], es[n])
  }

  /** The offset of entry k; that of entry |es| is where the entries end. */
  ghost function Offset(es: seq<Pair>, sh: seq<nat>, k: nat): nat
    requires SharesOk(es, sh) && k <= |es|
  {
    SharesOfPrefix(es, sh, k);
    |Encode(es[..k], sh[..k])|
  }

  lemma WholeOffset(es: seq<Pair>, sh: seq<nat>)
    requires SharesOk(es, sh)
    ensures Offset(es, sh, |es|) == |Encode(es, sh)| && Offset(es, sh, 0) == 0
  {
    assert es[..|es|] == es && sh[..|sh|] == sh;
  }

  lemma OffsetStep(es: seq<Pair>, sh: seq<nat>, k: nat)
    requires SharesOk(es, sh) && k < |es|
    ensures sh[k] <= |es[k].key|
    ensures Offset(es, sh, k + 1) == Offset(es, sh, k) + |EntryBytes(sh[k], es[k])|
  {
    SharesOfPrefix(es, sh, k + 1);
    assert ShareOk(es, sh, k);
    assert es[..k + 1][..k] == es[..k] && sh[..k + 1][..k] == sh[..k];
  }

  lemma LastEntryAt(es: seq<Pair>, sh: seq<nat>)
    requires SharesOk(es, sh) && es != []
    ensures var n := |es| - 1;
            && SharesOk(es[..n], sh[..n]) && sh[n] <= |es[n].key|
            && Encode(es, sh) == Encode(es[..n], sh[..n]) + EntryBytes(sh[n], es[n])
            && Offset(es, sh, n) == |Encode(es[..n], sh[..n])|
            && Offset(es, sh, n + 1) == |Encode(es, sh)|
  {
    var n := |es| - 1;
    SharesOfPrefix(es, sh, n);
    assert ShareOk(es, sh, n);
    WholeOffset(es, sh);
  }

  /** Entry k stands at its offset. */
  lemma {:induction false} EntryAt(es: seq<Pair>, sh: seq<nat>, k: nat)
    requires SharesOk(es, sh) && k < |es|
    ensures Offset(es, sh, k) < Offset(es, sh, k + 1) <= |Encode(es, sh)| && sh[k] <= |es[k].key|
    ensures Encode(es, sh)[Offset(es, sh, k)..Offset(es, sh, k + 1)] == EntryBytes(sh[k], es[k])
  {
    LastEntryAt(es, sh);
    hide Encode, EntryBytes, Offset, SharesOk, ShareOk;
    var n := |es| - 1;
    if k < n {
      EntryAt(es[..n], sh[..n], k);
      SameOffset(es, sh, n, k);
      SameOffset(es, sh, n, k + 1);
      SliceOfFront(Encode(es[..n], sh[..n]), EntryBytes(sh[n], es[n]), Offset(es, sh, k), Offset(es, sh, k + 1));
    }
  }

  lemma SliceOfFront(a: Data, b: Data, x: nat, y: nat)
    requires x <= y <= |a|
    ensures (a + b)[x..y] == a[x..y]
  {
  }

  lemma SameOffset(es: seq<Pair>, sh: seq<nat>, n: nat, k: nat)
    requires SharesOk(es, sh) && k <= n <= |es|
    ensures SharesOk(es[..n], sh[..n]) && Offset(es[..n], sh[..n], k) == Offset(es, sh, k)
  {
    SharesOfPrefix(es, sh, n);
    assert es[..n][..k] == es[..k] && sh[..n][..k] == sh[..k];
  }

  lemma {:induction false} OffsetsAscend(es: seq<Pair>, sh: seq<nat>, i: nat, k: nat)
    requires SharesOk(es, sh) && i < k <= |es|
    ensures Offset(es, sh, i) + 3 <= Offset(es, sh, k)
    ensures Offset(es, sh, k) <= |Encode(es, sh)|
  {
    OffsetStep(es, sh, k - 1);
    EntryAt(es, sh, k - 1);
    hide Encode, Offset, SharesOk, EntryBytes;
    if i < k - 1 {
      OffsetsAscend(es, sh, i, k - 1);
    }
  }

  /** A key is no longer than the block up to the end of its entry. */
  lemma {:induction false} KeyWithin(es: seq<Pair>, sh: seq<nat>, k: nat)
    requires SharesOk(es, sh) && k < |es|
    ensures |es[k].key| <= Offset(es, sh, k + 1)
  {
    OffsetStep(es, sh, k);
    assert ShareOk(es, sh, k);
    hide Offset;
    if k > 0 {
      KeyWithin(es, sh, k - 1);
    }
  }

  lemma EncodeSnoc(es: seq<Pair>, sh: seq<nat>, e: Pair, shared: nat)
    requires SharesOk(es, sh) && shared <= |e.key|
    requires es == [] ==> shared == 0
    requires es != [] ==> shared <= |es[|es| - 1].key| && es[|es| - 1].key[..shared] == e.key[..shared]
    ensures SharesOk(es + [e], sh + [shared])
    ensures Encode(es + [e], sh + [shared]) == Encode(es, sh) + EntryBytes(shared, e)
  {
    var es', sh' := es + [e], sh + [shared];
    forall k: nat | k < |es'| ensures ShareOk(es', sh', k) {
      if k < |es| {
        assert ShareOk(es, sh, k);
      }
    }
    assert es'[..|es|] == es && sh'[..|es|] == sh;
  }

  // ---------- restart points ----------

  /** Restart points are entries that share nothing; the first entry is one, and between
      two of them lie interval entries. */
  ghost predicate RestartsOk(es: seq<Pair>, sh: seq<nat>, rs: seq<nat>, interval: nat)
    requires SharesOk(es, sh)
  {
    && rs != [] && rs[0] == 0
    && (forall i :: 0 <= i < |rs| - 1 ==> rs[i + 1] == rs[i] + interval)
    && RestartsWithin(rs, |es|)
    && (forall i :: 0 <= i < |rs| && rs[i] < |es| ==> sh[rs[i]] == 0)
    && (es != [] ==> rs[|rs| - 1] < |es|)
    && |es| <= rs[|rs| - 1] + interval
  }

  predicate RestartsWithin(rs: seq<nat>, n: nat) {
    forall i :: 0 <= i < |rs| ==> rs[i] <= n
  }

  ghost function RestartOffsets(es: seq<Pair>, sh: seq<nat>, rs: seq<nat>): (r: seq<nat>)
    requires SharesOk(es, sh) && RestartsWithin(rs, |es|)
    ensures |r| == |rs|
  {
    seq(|rs|, i requires SharesOk(es, sh) && 0 <= i < |rs| && rs[i] <= |es| => Offset(es, sh, rs[i]))
  }

  lemma {:induction false} RestartsAscend(rs: seq<nat>, interval: nat, i: nat, k: nat)
    requires interval >= 1 && i < k < |rs| && forall j :: 0 <= j < |rs| - 1 ==> rs[j + 1] == rs[j] + interval
    ensures rs[i] < rs[k]
  {
    assert rs[k] == rs[k - 1] + interval;
    if i < k - 1 {
      RestartsAscend(rs, interval, i, k - 1);
    }
  }

  function FixedList(offsets: seq<nat>): (r: Data)
    ensures |r| == 4 * |offsets|
  {
    if offsets == [] then [] else FixedList(offsets[..|offsets| - 1]) + FixedBytes(offsets[|offsets| - 1], 4)
  }

  /** A finished block. */
  ghost function BlockBytes(es: seq<Pair>, sh: seq<nat>, rs: seq<nat>): Data
    requires SharesOk(es, sh) && RestartsWithin(rs, |es|)
  {
    Encode(es, sh) + FixedList(RestartOffsets(es, sh, rs)) + FixedBytes(|rs|, 4)
  }

  lemma {:induction false} FixedListAt(offsets: seq<nat>, i: nat)
    requires i < |offsets| && offsets[i] < LIMIT32
    ensures DecodeFixed(FixedList(offsets)[4 * i..4 * i + 4]) == offsets[i]
  {
    var n := |offsets| - 1;
    var front := FixedList(offsets[..n]);
    if i < n {
      FixedListAt(offsets[..n], i);
      assert FixedList(offsets)[4 * i..4 * i + 4] == front[4 * i..4 * i + 4];
    } else {
      Width32();
      FixedRoundTrip(offsets[n], 4);
      assert FixedList(offsets)[4 * i..4 * i + 4] == FixedBytes(offsets[n], 4);
    }
  }

  /** The i-th restart point, for entries that end at end. */
  function RestartPoint(data: Data, end: nat, i: nat): nat
    requires end + 4 * i + 4 <= |data|
  {
    DecodeFixed(data[end + 4 * i..end + 4 * i + 4])
  }

  function NumRestarts(data: Data): nat
    requires |data| >= 4
  {
    DecodeFixed(data[|data| - 4..])
  }

  /** Entries, restart points and their number can all be found again in the bytes. */
  lemma BlockParts(es: seq<Pair>, sh: seq<nat>, rs: seq<nat>)
    requires SharesOk(es, sh) && RestartsWithin(rs, |es|)
    requires |BlockBytes(es, sh, rs)| < LIMIT32
    ensures |BlockBytes(es, sh, rs)| == |Encode(es, sh)| + 4 * |rs| + 4
    ensures BlockBytes(es, sh, rs)[..|Encode(es, sh)|] == Encode(es, sh)
    ensures NumRestarts(BlockBytes(es, sh, rs)) == |rs|
  {
    CountReadsBack(|rs|);
    ThreeParts(Encode(es, sh), FixedList(RestartOffsets(es, sh, rs)), FixedBytes(|rs|, 4));
    hide Encode, FixedList, FixedBytes, DecodeFixed, SharesOk;
  }

  lemma RestartReadsBack(es: seq<Pair>, sh: seq<nat>, rs: seq<nat>, i: nat)
    requires SharesOk(es, sh) && RestartsWithin(rs, |es|)
    requires |BlockBytes(es, sh, rs)| < LIMIT32 && i < |rs|
    ensures |BlockBytes(es, sh, rs)| == |Encode(es, sh)| + 4 * |rs| + 4
    ensures RestartPoint(BlockBytes(es, sh, rs), |Encode(es, sh)|, i) == Offset(es, sh, rs[i])
  {
    var offsets := RestartOffsets(es, sh, rs);
    ThreeParts(Encode(es, sh), FixedList(offsets), FixedBytes(|rs|, 4));
    OffsetInBlock(es, sh, rs[i]);
    hide Encode, FixedList, FixedBytes, DecodeFixed, SharesOk, Pow, Offset;
    FixedListAt(offsets, i);
  }

  lemma CountReadsBack(n: nat)
    requires n < LIMIT32
    ensures DecodeFixed(FixedBytes(n, 4)) == n
  {
    Width32();
    FixedRoundTrip(n, 4);
  }

  lemma ThreeParts(a: Data, b: Data, c: Data)
    ensures (a + b + c)[..|a|] == a && (a + b + c)[|a| + |b|..] == c
    ensures forall x: nat, y: nat :: x <= y <= |b| ==> (a + b + c)[|a| + x..|a| + y] == b[x..y]
  {
  }

  lemma OffsetInBlock(es: seq<Pair>, sh: seq<nat>, k: nat)
    requires SharesOk(es, sh) && k <= |es|
    ensures Offset(es, sh, k) <= |Encode(es, sh)|
  {
    if k > 0 {
      OffsetsAscend(es, sh, 0, k);
    }
  }

  // ---------- decoding ----------

  /** The three lengths of an entry and what follows them. */
  datatype EntryHead = EntryHead(shared: nat, nonShared: nat, valueLength: nat, rest: Data)

  /** The lengths are 32 bits wide, and so is their sum. */
  function DecodeHead(input: Data): Option<EntryHead> {
    if |input| < 3 then None
    else
      match Varint32(input)
      case None => None
      case Some((shared, r1)) =>
        match Varint32(r1)
        case None => None
        case Some((nonShared, r2)) =>
          match Varint32(r2)
          case None => None
          case Some((valueLength, rest)) =>
            if |rest| % LIMIT32 < (nonShared + valueLength) % LIMIT32 then None
            else Some(EntryHead(shared, nonShared, valueLength, rest))
  }

  lemma OneByteVarint(input: Data)
    requires input != [] && input[0] < 128
    ensures Varint32(input) == Some((input[0], input[1..]))
  {
  }

  /** DecodeEntry: three varints, with a fast path when each is one byte. */
  method DecodeEntry(input: Data) returns (r: Option<EntryHead>)
    ensures r == DecodeHead(input)
  {
    hide DecodeVarint;
    if |input| < 3 {
      return None;
    }
    var shared: nat, nonShared: nat, valueLength: nat, rest := input[0], input[1], input[2], input[3..];
    if input[0] < 128 && input[1] < 128 && input[2] < 128 {
      OneByteVarint(input);
      OneByteVarint(input[1..]);
      OneByteVarint(input[2..]);
      assert input[1..][1..] == input[2..] && input[2..][1..] == rest;
    } else {
      var a := GetVarint(input, 5, LIMIT32);
      if a.None? {
        return None;
      }
      var b := GetVarint(a.value.1, 5, LIMIT32);
      if b.None? {
        return None;
      }
      var c := GetVarint(b.value.1, 5, LIMIT32);
      if c.None? {
        return None;
      }
      shared, nonShared, valueLength, rest := a.value.0, b.value.0, c.value.0, c.value.1;
    }
    if |rest| % LIMIT32 < (nonShared + valueLength) % LIMIT32 {
      return None;
    }
    r := Some(EntryHead(shared, nonShared, valueLength, rest));
  }

  /** An entry of a block decodes, whatever follows it. */
  lemma HeadReadsBack(shared: nat, e: Pair, rest: Data)
    requires shared <= |e.key| < LIMIT32 && |e.key| - shared + |e.value| + |rest| < LIMIT32
    ensures DecodeHead(EntryBytes(shared, e) + rest)
         == Some(EntryHead(shared, |e.key| - shared, |e.value|, e.key[shared..] + e.value + rest))
  {
    hide Varint32, VarintBytes;
    var r3 := e.key[shared..] + e.value + rest;
    var r2 := VarintBytes(|e.value|) + r3;
    var r1 := VarintBytes(|e.key| - shared) + r2;
    Varint32ReadsBack(shared, r1);
    Varint32ReadsBack(|e.key| - shared, r2);
    Varint32ReadsBack(|e.value|, r3);
    SixParts(VarintBytes(shared), VarintBytes(|e.key| - shared), VarintBytes(|e.value|), e.key[shared..], e.value, rest);
    assert |EntryBytes(shared, e) + rest| >= 3;
  }

  lemma SixParts(a: Data, b: Data, c: Data, d: Data, e: Data, f: Data)
    ensures a + b + c + d + e + f == a + (b + (c + (d + e + f)))
  {
  }
}
