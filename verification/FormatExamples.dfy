/** One small example of each format, byte for byte: a writer and a reader that agree with each other
    must also agree with the files and messages of others. */
module FormatExamples {
  import opened InternalKeys
  import opened Coding
  import LogFormat
  import WriteAheadLog
  import VersionEdits
  import ManifestRecords
  import BlockFormat
  import DtlsFragments
  import NanoPbFormat

  lemma {:induction false} Zeros()
    ensures FixedBytes(0, 0) == [] && FixedBytes(0, 1) == [0] && FixedBytes(0, 3) == [0, 0, 0]
    ensures FixedBytes(0, 6) == [0, 0, 0, 0, 0, 0] && FixedBytes(0, 7) == [0, 0, 0, 0, 0, 0, 0]
  {
    assert FixedBytes(0, 1) == [0] + FixedBytes(0, 0);
    assert FixedBytes(0, 2) == [0] + FixedBytes(0, 1);
    assert FixedBytes(0, 3) == [0] + FixedBytes(0, 2);
    assert FixedBytes(0, 4) == [0] + FixedBytes(0, 3);
    assert FixedBytes(0, 5) == [0] + FixedBytes(0, 4);
    assert FixedBytes(0, 6) == [0] + FixedBytes(0, 5);
    assert FixedBytes(0, 7) == [0] + FixedBytes(0, 6);
  }

  lemma {:induction false} FixedOf(n: nat)
    requires n < 0x100
    ensures FixedBytes(n, 1) == [n] && FixedBytes(n, 2) == [n, 0] && FixedBytes(n, 4) == [n, 0, 0, 0]
    ensures FixedBytes(n, 7) == [n, 0, 0, 0, 0, 0, 0] && FixedBytes(n, 8) == [n, 0, 0, 0, 0, 0, 0, 0]
  {
    Zeros();
    assert n % 0x100 == n && n / 0x100 == 0;
    assert FixedBytes(n, 1) == [n] + FixedBytes(0, 0);
    assert FixedBytes(n, 2) == [n] + FixedBytes(0, 1);
    assert FixedBytes(n, 4) == [n] + FixedBytes(0, 3);
    assert FixedBytes(n, 7) == [n] + FixedBytes(0, 6);
    assert FixedBytes(n, 8) == [n] + FixedBytes(0, 7);
  }

  lemma {:induction false} FixedStep(v: nat, n: nat)
    requires n > 0
    ensures FixedBytes(v, n) == [v % 0x100] + FixedBytes(v / 0x100, n - 1)
  {
  }

  /** 300 in two groups of seven bits, the lower one first. */
  lemma {:induction false} VarintExample()
    ensures VarintBytes(1) == [1] && VarintBytes(150) == [0x96, 0x01] && VarintBytes(300) == [0xAC, 0x02]
    ensures VarintBytes(16384) == [0x80, 0x80, 0x01]
  {
    assert VarintBytes(16384) == [0x80] + VarintBytes(128) && VarintBytes(128) == [0x80] + VarintBytes(1);
  }

  /** Physical records are checksum, length, type and payload; the types are 1 for a whole record and
      2, 3, 4 for its first, middle and last fragments. Blocks here have room for three bytes each. */
  lemma {:induction false} LogExample(F: LogFormat.Format)
    requires LogFormat.FormatOk(F) && F.blockSize == 10
    ensures LogFormat.Encode(F, 0, [[7, 8]]) == F.crc([1, 7, 8]) + [2, 0, 1] + [7, 8]
    ensures LogFormat.Encode(F, 0, [[1, 2, 3, 4, 5, 6, 7]])
         == (F.crc([2, 1, 2, 3]) + [3, 0, 2] + [1, 2, 3]) + ((F.crc([3, 4, 5, 6]) + [3, 0, 3] + [4, 5, 6]) + (F.crc([4, 7]) + [1, 0, 4] + [7]))
  {
    var whole: Data, a: Data, b: Data, c: Data := [7, 8], [1, 2, 3, 4, 5, 6, 7], [4, 5, 6, 7], [7];
    assert a[3..] == b && b[3..] == c && a[..3] == [1, 2, 3] && b[..3] == [4, 5, 6];
    assert [1] + whole == [1, 7, 8] && [2] + a[..3] == [2, 1, 2, 3] && [3] + b[..3] == [3, 4, 5, 6] && [4] + c == [4, 7];
    PieceExample(F, 0, true, whole);
    PieceExample(F, 0, true, a);
    PieceExample(F, 10, false, b);
    PieceExample(F, 10, false, c);
    assert LogFormat.Piece(F, 0, true, whole) == F.crc([1, 7, 8]) + [2, 0, 1] + [7, 8];
    assert LogFormat.Piece(F, 0, true, a) == F.crc([2, 1, 2, 3]) + [3, 0, 2] + [1, 2, 3];
    assert LogFormat.Piece(F, 10, false, b) == F.crc([3, 4, 5, 6]) + [3, 0, 3] + [4, 5, 6];
    assert LogFormat.Piece(F, 10, false, c) == F.crc([4, 7]) + [1, 0, 4] + [7];
    hide LogFormat.Piece, LogFormat.FormatOk;
    assert LogFormat.Fragments(F, 10, false, c) == LogFormat.Piece(F, 10, false, c);
    assert LogFormat.Fragments(F, 10, false, b) == LogFormat.Piece(F, 10, false, b) + LogFormat.Fragments(F, 10, false, c);
    assert LogFormat.Fragments(F, 0, true, a) == LogFormat.Piece(F, 0, true, a) + LogFormat.Fragments(F, 10, false, b);
    assert LogFormat.Fragments(F, 0, true, whole) == LogFormat.Piece(F, 0, true, whole);
    OneRecordLog(F, whole);
    OneRecordLog(F, a);
  }

  lemma {:induction false} OneRecordLog(F: LogFormat.Format, data: Data)
    requires LogFormat.FormatOk(F)
    ensures LogFormat.Encode(F, 0, [data]) == LogFormat.Fragments(F, 0, true, data)
  {
    var records: seq<Data> := [data];
    assert LogFormat.Encode(F, LogFormat.EndOffset(F, 0, data), records[1..]) == [];
  }

  lemma {:induction false} PieceExample(F: LogFormat.Format, off: nat, begin: bool, data: Data)
    requires LogFormat.FormatOk(F) && F.blockSize == 10 && (off == 0 || off == 10)
    ensures LogFormat.FragmentLength(F, off, data) == (if |data| <= 3 then |data| else 3) && LogFormat.HeaderOffset(F, off) == 0
    ensures LogFormat.Piece(F, off, begin, data) ==
            var n := if |data| <= 3 then |data| else 3;
            var code := if n == |data| then (if begin then 1 else 4) else (if begin then 2 else 3);
            var body := if n == |data| then data else data[..3];
            F.crc([code] + body) + [n, 0, code] + body
  {
    assert data[..|data|] == data;
  }

  /** Sequence 5, two operations: put k = v, delete k. */
  lemma {:induction false} BatchExample()
    ensures WriteAheadLog.BatchBytes(WriteAheadLog.Batch(5, [WriteAheadLog.BatchOp(Put, [107], [118]), WriteAheadLog.BatchOp(Deletion, [107], [])]))
         == [5, 0, 0, 0, 0, 0, 0, 0] + [2, 0, 0, 0] + [1, 1, 107, 1, 118] + [0, 1, 107]
  {
    FixedOf(5);
    FixedOf(2);
    var put, del := WriteAheadLog.BatchOp(Put, [107], [118]), WriteAheadLog.BatchOp(Deletion, [107], []);
    assert WriteAheadLog.OpBytes(put) == [1, 1, 107, 1, 118] && WriteAheadLog.OpBytes(del) == [0, 1, 107];
    assert [put, del][1..] == [del] && [del][1..] == [];
    assert WriteAheadLog.OpsBytes([put, del]) == [1, 1, 107, 1, 118] + WriteAheadLog.OpsBytes([del]);
    assert WriteAheadLog.OpsBytes([del]) == [0, 1, 107] + WriteAheadLog.OpsBytes([]);
  }

  /** User key, then type and sequence number in eight bytes. */
  lemma {:induction false} InternalKeyExample(S: Spelling, user: UserKey)
    requires Spelled(S, user) == [107]
    ensures ManifestRecords.EncodeKey(S, IKey(user, Pack(5, Put))) == [107, 1, 5, 0, 0, 0, 0, 0, 0]
    ensures ManifestRecords.EncodeKey(S, IKey(user, Pack(5, Deletion))) == [107, 0, 5, 0, 0, 0, 0, 0, 0]
  {
    FixedOf(5);
    FixedStep(1281, 8);
    FixedStep(1280, 8);
    hide FixedBytes;
    assert 1281 / 0x100 == 5 && 1281 % 0x100 == 1 && 1280 / 0x100 == 5 && 1280 % 0x100 == 0;
  }

  /** Each field of a manifest record behind its number. */
  lemma {:induction false} VersionEditExample()
    ensures VersionEdits.FieldBytes(VersionEdits.Comparator([99])) == [1, 1, 99]
    ensures VersionEdits.FieldBytes(VersionEdits.LogNumber(10)) == [2, 10]
    ensures VersionEdits.FieldBytes(VersionEdits.NextFileNumber(11)) == [3, 11]
    ensures VersionEdits.FieldBytes(VersionEdits.LastSequence(12)) == [4, 12]
    ensures VersionEdits.FieldBytes(VersionEdits.CompactPointer(2, [107])) == [5, 2, 1, 107]
    ensures VersionEdits.FieldBytes(VersionEdits.DeletedFile(2, 13)) == [6, 2, 13]
    ensures VersionEdits.FieldBytes(VersionEdits.NewFile(3, VersionEdits.FileMeta(14, 15, [107], [108]))) == [7, 3, 14, 15, 1, 107, 1, 108]
    ensures VersionEdits.FieldBytes(VersionEdits.PrevLogNumber(16)) == [9, 16]
  {
  }

  /** Two entries of a block; the second shares one byte of its key with the first. */
  lemma {:induction false} BlockEntryExample()
    ensures BlockFormat.EntryBytes(0, BlockFormat.Pair([97, 98], [120])) == [0, 2, 1, 97, 98, 120]
    ensures BlockFormat.EntryBytes(1, BlockFormat.Pair([97, 99], [121])) == [1, 1, 1, 99, 121]
  {
  }

  /** Section 4.2.2 of RFC 6347: type 1, three bytes long, message 2, one byte from offset 1 on. */
  lemma {:induction false} FragmentExample()
    ensures DtlsFragments.Serialize(DtlsFragments.Fragment(1, 3, 2, 1, [9])) == [1, 0, 0, 3, 0, 2, 0, 0, 1, 0, 0, 1, 9]
  {
  }

  /** Field 1 holding 150, field 2 holding a text, field 3 a message with the first, field 4 packed. */
  lemma {:induction false} MessageExample()
    ensures NanoPbFormat.TagBytes(1, NanoPbFormat.WireType(NanoPbFormat.Varint(4)))
            + NanoPbFormat.EncVal(NanoPbFormat.Varint(4), NanoPbFormat.Num(150)) == [0x08, 0x96, 0x01]
    ensures NanoPbFormat.TagBytes(2, NanoPbFormat.WireType(NanoPbFormat.Text(8)))
            + NanoPbFormat.EncVal(NanoPbFormat.Text(8), NanoPbFormat.Blob([116, 101, 115, 116])) == [0x12, 0x04, 116, 101, 115, 116]
    ensures NanoPbFormat.TagBytes(5, NanoPbFormat.WireType(NanoPbFormat.Fixed32)) == [0x2D]
    ensures NanoPbFormat.TagBytes(5, NanoPbFormat.WireType(NanoPbFormat.Fixed64)) == [0x29]
    ensures NanoPbFormat.ZigZag(0) == 0 && NanoPbFormat.ZigZag(-1) == 1 && NanoPbFormat.ZigZag(1) == 2 && NanoPbFormat.ZigZag(-2) == 3
    ensures NanoPbFormat.ZigZag(2147483647) == 4294967294 && NanoPbFormat.ZigZag(-2147483648) == 4294967295
  {
    VarintExample();
  }
}
