/** The record-oriented log: db/log_writer.cc and db/log_reader.cc over a file that may
    end anywhere. */
module LogFormat {
  import opened InternalKeys

  const HEADER_SIZE: nat := 7

  datatype RecordType = Full | First | Middle | Last

  function Code(t: RecordType): Byte {
    match t
    case Full => 1
    case First => 2
    case Middle => 3
    case Last => 4
  }

  /** The block size and the (masked) checksum are parameters of the format. */
  datatype Format = Format(blockSize: nat, crc: Data -> Data)

  ghost predicate FormatOk(F: Format) {
    && HEADER_SIZE < F.blockSize <= HEADER_SIZE + 0xFFFF
    && forall d :: |F.crc(d)| == 4
  }

  /** One physical record: checksum of type and payload, length, type, payload. */
  function Physical(F: Format, t: RecordType, payload: Data): Data
    requires |payload| <= 0xFFFF
  {
    F.crc([Code(t)] + payload) + [|payload| % 256, |payload| / 256, Code(t)] + payload
  }

  function Zeros(n: nat): (z: Data)
    ensures |z| == n && forall i :: 0 <= i < n ==> z[i] == 0
  {
    seq(n, _ => 0)
  }

  function TypeOf(begin: bool, end: bool): RecordType {
    if begin && end then Full else if begin then First else if end then Last else Middle
  }

  /** How far a block offset is from offering room for payload: what the fragmenting
      loop uses up when it writes an empty fragment. */
  function Distance(F: Format, off: nat): nat
    requires off <= F.blockSize
  {
    var leftover := F.blockSize - off;
    if leftover > HEADER_SIZE then 0 else if leftover < HEADER_SIZE then 1 else 2
  }

  /** Bytes of the trailer skipped before a header is written at off, and where it goes. */
  function TrailerLength(F: Format, off: nat): nat
    requires off <= F.blockSize
  {
    if F.blockSize - off < HEADER_SIZE then F.blockSize - off else 0
  }

  function HeaderOffset(F: Format, off: nat): (o: nat)
    requires FormatOk(F) && off <= F.blockSize
    ensures o + HEADER_SIZE <= F.blockSize
  {
    if F.blockSize - off < HEADER_SIZE then 0 else off
  }

  function FragmentLength(F: Format, off: nat, data: Data): (n: nat)
    requires FormatOk(F) && off <= F.blockSize
    ensures n <= |data| && n <= 0xFFFF && HeaderOffset(F, off) + HEADER_SIZE + n <= F.blockSize
  {
    var avail := F.blockSize - HeaderOffset(F, off) - HEADER_SIZE;
    if |data| < avail then |data| else avail
  }

  /** One turn of the fragmenting loop: the trailer, if any, and one physical record. */
  function Piece(F: Format, off: nat, begin: bool, data: Data): Data
    requires FormatOk(F) && off <= F.blockSize
  {
    var n := FragmentLength(F, off, data);
    Zeros(TrailerLength(F, off)) + Physical(F, TypeOf(begin, n == |data|), data[..n])
  }

  /** What is written, from block offset off on, for the rest of a record. */
  function Fragments(F: Format, off: nat, begin: bool, data: Data): Data
    requires FormatOk(F) && off <= F.blockSize
    decreases |data|, Distance(F, off)
  {
    var n := FragmentLength(F, off, data);
    if n == |data| then Piece(F, off, begin, data)
    else Piece(F, off, begin, data) + Fragments(F, HeaderOffset(F, off) + HEADER_SIZE + n, false, data[n..])
  }

  /** The block offset after it. */
  function EndOffset(F: Format, off: nat, data: Data): (o: nat)
    requires FormatOk(F) && off <= F.blockSize
    ensures o <= F.blockSize
    decreases |data|, Distance(F, off)
  {
    var n := FragmentLength(F, off, data);
    var next := HeaderOffset(F, off) + HEADER_SIZE + n;
    if n == |data| then next else EndOffset(F, next, data[n..])
  }

  /** A whole log: the records one after the other. */
  function Encode(F: Format, off: nat, records: seq<Data>): Data
    requires FormatOk(F) && off <= F.blockSize
    decreases |records|
  {
    if records == [] then []
    else Fragments(F, off, true, records[0]) + Encode(F, EndOffset(F, off, records[0]), records[1..])
  }

  class Writer {
    const F: Format
    var dest: Data
    var blockOffset: nat

    ghost predicate Valid()
      reads this
    {
      FormatOk(F) && blockOffset <= F.blockSize
    }

    constructor (F: Format)
      requires FormatOk(F)
      ensures Valid() && this.F == F && dest == [] && blockOffset == 0
    {
      this.F, dest, blockOffset := F, [], 0;
    }

    method EmitPhysicalRecord(t: RecordType, payload: Data)
      requires Valid() && |payload| <= 0xFFFF && blockOffset + HEADER_SIZE + |payload| <= F.blockSize
      modifies this
      ensures Valid() && blockOffset == old(blockOffset) + HEADER_SIZE + |payload|
      ensures dest == old(dest) + Physical(F, t, payload)
    {
      var header := [|payload| % 256, |payload| / 256, Code(t)];
      var crc := F.crc([Code(t)] + payload);
      dest := dest + crc + header;
      dest := dest + payload;
      blockOffset := blockOffset + HEADER_SIZE + |payload|;
    }

    /** One turn of the loop in AddRecord. */
    method WriteFragment(left: Data, begin: bool) returns (n: nat)
      requires Valid()
      modifies this
      ensures n == FragmentLength(F, old(blockOffset), left)
      ensures Valid() && blockOffset == HeaderOffset(F, old(blockOffset)) + HEADER_SIZE + n
      ensures dest == old(dest) + Piece(F, old(blockOffset), begin, left)
    {
      var leftover := F.blockSize - blockOffset;
      ghost var trailer := Zeros(TrailerLength(F, blockOffset));
      if leftover < HEADER_SIZE {
        dest := dest + Zeros(leftover);
        blockOffset := 0;
      }
      assert dest == old(dest) + trailer;
      var avail := F.blockSize - blockOffset - HEADER_SIZE;
      n := if |left| < avail then |left| else avail;
      var t := TypeOf(begin, |left| == n);
      EmitPhysicalRecord(t, left[..n]);
      assert dest == old(dest) + (trailer + Physical(F, t, left[..n]));
    }

    /** Terminates although a fragment may be empty: then the next block has room. */
    method AddRecord(slice: Data)
      requires Valid()
      modifies this
      ensures Valid() && blockOffset == EndOffset(F, old(blockOffset), slice)
      ensures dest == old(dest) + Fragments(F, old(blockOffset), true, slice)
    {
      hide Piece, Physical;
      var left, begin, more := slice, true, true;
      while more
        invariant Valid()
        invariant more ==> EndOffset(F, blockOffset, left) == EndOffset(F, old(blockOffset), slice)
        invariant more ==> dest + Fragments(F, blockOffset, begin, left) == old(dest) + Fragments(F, old(blockOffset), true, slice)
        invariant !more ==> blockOffset == EndOffset(F, old(blockOffset), slice)
        invariant !more ==> dest == old(dest) + Fragments(F, old(blockOffset), true, slice)
        decreases more, |left|, Distance(F, blockOffset)
      {
        ghost var off, before, piece := blockOffset, dest, Piece(F, blockOffset, begin, left);
        ghost var all := Fragments(F, off, begin, left);
        var n := WriteFragment(left, begin);
        ghost var rest := if n == |left| then [] else Fragments(F, blockOffset, false, left[n..]);
        assert all == piece + rest && before + all == (before + piece) + rest;
        left := left[n..];
        begin := false;
        more := |left| > 0;
      }
    }
  }

  // ---------- reading ----------

  datatype PhysicalResult = Record(code: Byte, fragment: Data) | Eof | BadRecord

  /** The reader stands at block offset off, and tail is what is left of the file. */
  ghost predicate StandsAt(F: Format, buffer: Data, rest: Data, eof: bool, off: nat, tail: Data) {
    && off <= F.blockSize && tail == buffer + rest
    && (|tail| >= F.blockSize - off ==> |buffer| == F.blockSize - off && !eof)
    && (|tail| < F.blockSize - off ==> rest == [] && eof)
  }

  /** SequentialFile::Read of one block. */
  function ReadBlock(F: Format, rest: Data): Data {
    if |rest| < F.blockSize then rest else rest[..F.blockSize]
  }

  lemma AtBlockStart(F: Format, buffer: Data, rest: Data, off: nat, tail: Data)
    requires FormatOk(F) && StandsAt(F, buffer, rest, false, off, tail) && |buffer| == F.blockSize - off
    ensures var block := ReadBlock(F, rest);
            StandsAt(F, block, rest[|block|..], |block| < F.blockSize, 0, tail[F.blockSize - off..])
  {
    var block := ReadBlock(F, rest);
    assert tail[|buffer|..] == rest && rest == block + rest[|block|..];
  }

  class Reader {
    const F: Format
    var rest: Data
    var buffer: Data
    var eof: bool
    /** How often a corruption was reported. */
    var reports: nat

    ghost predicate Stands(off: nat, tail: Data)
      reads this
    {
      StandsAt(F, buffer, rest, eof, off, tail)
    }

    constructor (F: Format, file: Data)
      requires FormatOk(F)
      ensures this.F == F && reports == 0 && Stands(F.blockSize, file)
    {
      this.F, rest, buffer, eof, reports := F, file, [], false, 0;
    }

    /** Reads blocks until a header is in the buffer; false at the end of the file. */
    method FillHeader(ghost off: nat, ghost tail: Data) returns (ok: bool)
      requires FormatOk(F)
      modifies this`rest, this`buffer, this`eof
      ensures ok ==> |buffer| >= HEADER_SIZE && |buffer| + |rest| <= old(|buffer| + |rest|)
      ensures old(Stands(off, tail)) ==>
        if ok then |tail| >= TrailerLength(F, off) && Stands(HeaderOffset(F, off), tail[TrailerLength(F, off)..])
        else |tail| < TrailerLength(F, off) + HEADER_SIZE
    {
      while |buffer| < HEADER_SIZE
        invariant |buffer| + |rest| <= old(|buffer| + |rest|)
        invariant old(Stands(off, tail)) ==>
          || (Stands(off, tail) && off <= F.blockSize)
          || (F.blockSize - off < HEADER_SIZE && |tail| >= F.blockSize - off && Stands(0, tail[F.blockSize - off..]))
        decreases |rest|, !eof
      {
        if eof {
          buffer := [];
          return false;
        }
        if old(Stands(off, tail)) && Stands(off, tail) {
          AtBlockStart(F, buffer, rest, off, tail);
        }
        var block := ReadBlock(F, rest);
        rest := rest[|block|..];
        buffer := block;
        eof := |block| < F.blockSize;
      }
      return true;
    }

    /** The second half of ReadPhysicalRecord: a header is in the buffer. */
    method ParseRecord(ghost here: nat, ghost left: Data, ghost t: RecordType, ghost payload: Data) returns (r: PhysicalResult)
      requires FormatOk(F) && |buffer| >= HEADER_SIZE
      modifies this`buffer, this`reports
      ensures r.Eof? || |buffer| < old(|buffer|)
      ensures old(Stands(here, left)) && PhysicalAt(F, here, left, t, payload) ==>
        var size := HEADER_SIZE + |payload|;
        && reports == old(reports)
        && (|left| < size ==> r.Eof?)
        && (|left| >= size ==> r == Record(Code(t), payload) && Stands(here + size, left[size..]))
    {
      hide Physical, StandsAt, PhysicalAt;
      if Stands(here, left) {
        BufferIsLeft(F, buffer, rest, eof, here, left);
        if PhysicalAt(F, here, left, t, payload) {
          HeaderFields(F, buffer, rest, eof, here, left, t, payload);
        }
      }
      var code := buffer[6];
      var length := LengthField(buffer[4], buffer[5]);
      if HEADER_SIZE + length > |buffer| {
        buffer := [];
        if !eof {
          reports := reports + 1;
          return BadRecord;
        }
        return Eof;
      }
      if code == 0 && length == 0 {
        buffer := [];
        return BadRecord;
      }
      if F.crc(buffer[6..HEADER_SIZE + length]) != buffer[..4] {
        buffer := [];
        reports := reports + 1;
        return BadRecord;
      }
      r := Record(code, buffer[HEADER_SIZE..HEADER_SIZE + length]);
      if Stands(here, left) && PhysicalAt(F, here, left, t, payload) {
        ConsumeRecord(F, buffer, rest, eof, here, left, HEADER_SIZE + length);
      }
      buffer := buffer[HEADER_SIZE + length..];
    }

    /** Reader::ReadPhysicalRecord. Where the writer has put a physical record, it is
        returned if all of it is left in the file; otherwise the end of the file is
        reported. Neither counts as a corruption. */
    method ReadPhysicalRecord(ghost off: nat, ghost tail: Data, ghost t: RecordType, ghost payload: Data)
        returns (r: PhysicalResult)
      requires FormatOk(F)
      modifies this
      ensures r.Eof? || |buffer| + |rest| < old(|buffer| + |rest|)
      ensures old(Stands(off, tail)) && HoldsPhysical(F, off, tail, t, payload) ==>
        var size := TrailerLength(F, off) + HEADER_SIZE + |payload|;
        && reports == old(reports)
        && (|tail| < size ==> r.Eof?)
        && (|tail| >= size ==> r == Record(Code(t), payload) && Stands(HeaderOffset(F, off) + HEADER_SIZE + |payload|, tail[size..]))
    {
      hide Physical, StandsAt, PhysicalAt;
      var ok := FillHeader(off, tail);
      if !ok {
        return Eof;
      }
      ghost var here, left := 0, [];
      if old(Stands(off, tail)) {
        StandsInBlock(F, old(buffer), old(rest), old(eof), off, tail);
        here, left := HeaderOffset(F, off), tail[TrailerLength(F, off)..];
        if HoldsPhysical(F, off, tail, t, payload) {
          PastTrailer(F, off, tail, t, payload);
          ghost var n, size := TrailerLength(F, off), HEADER_SIZE + |payload|;
          assert |left| >= size ==> tail[n + size..] == left[size..];
        }
      }
      r := ParseRecord(here, left, t, payload);
    }

    /** Reader::ReadRecord. From a place where the writer began a record: the record, if
        all of it is left in the file, and otherwise the end of the file. Nothing is
        reported as corrupted either way. */
    method ReadRecord(ghost off: nat, ghost tail: Data, ghost data: Data, ghost next: Data) returns (r: Option<Data>)
      requires FormatOk(F)
      modifies this
      ensures r.None? || |buffer| + |rest| < old(|buffer| + |rest|)
      ensures old(Stands(off, tail)) && HoldsRest(F, off, tail, true, data, next) ==>
        var size := |Fragments(F, off, true, data)|;
        && reports == old(reports)
        && (|tail| < size ==> r.None?)
        && (|tail| >= size ==> r == Some(data) && Stands(EndOffset(F, off, data), tail[size..]))
    {
      hide StandsAt, HoldsRest, HoldsPhysical, Following, Fragments, EndOffset, Piece;
      var scratch: Data, inFragment := [], false;
      ghost var known := Stands(off, tail) && HoldsRest(F, off, tail, true, data, next);
      ghost var o: nat, left: Data, d: Data := off, tail, data;
      if known {
        FollowingStart(F, off, tail, data, next);
      }
      while true
        invariant |buffer| + |rest| <= old(|buffer| + |rest|)
        invariant inFragment ==> |buffer| + |rest| < old(|buffer| + |rest|)
        invariant known ==> reports == old(reports) && Stands(o, left)
        invariant known ==> Following(F, off, tail, data, next, o, left, d, inFragment, scratch)
        decreases |buffer| + |rest|
      {
        ghost var t, payload := Full, [];
        if known {
          FollowingStep(F, off, tail, data, next, o, left, d, inFragment, scratch);
          payload := d[..FragmentLength(F, o, d)];
          t := TypeOf(!inFragment, |payload| == |d|);
          assert [] + payload == payload;
        }
        var record := ReadPhysicalRecord(o, left, t, payload);
        if record.Eof? {
          return None;
        }
        if known {
          o, left, d := HeaderOffset(F, o) + HEADER_SIZE + |payload|,
                        left[TrailerLength(F, o) + HEADER_SIZE + |payload|..], d[|payload|..];
        }
        if record.BadRecord? {
          if inFragment {
            reports := reports + 1;
            inFragment, scratch := false, [];
          }
        } else if record.code == Code(Full) {
          if inFragment && scratch != [] {
            reports := reports + 1;
          }
          return Some(record.fragment);
        } else if record.code == Code(First) {
          if inFragment && scratch != [] {
            reports := reports + 1;
          }
          scratch, inFragment := record.fragment, true;
        } else if record.code == Code(Middle) {
          if !inFragment {
            reports := reports + 1;
          } else {
            scratch := scratch + record.fragment;
          }
        } else if record.code == Code(Last) {
          if !inFragment {
            reports := reports + 1;
          } else {
            return Some(scratch + record.fragment);
          }
        } else {
          reports := reports + 1;
          inFragment, scratch := false, [];
        }
      }
    }
  }

  /** Inside the fragments of one record: scratch has been read and d is still to come,
      in left, at block offset o. */
  ghost predicate Following(F: Format, off: nat, tail: Data, data: Data, next: Data,
                            o: nat, left: Data, d: Data, inFragment: bool, scratch: Data)
    requires FormatOk(F)
  {
    && off <= F.blockSize && HoldsRest(F, o, left, !inFragment, d, next)
    && scratch + d == data && (!inFragment ==> scratch == [])
    && EndOffset(F, o, d) == EndOffset(F, off, data)
    && Consumed(tail, left, |Fragments(F, off, true, data)|, |Fragments(F, o, !inFragment, d)|)
  }

  lemma FollowingStart(F: Format, off: nat, tail: Data, data: Data, next: Data)
    requires FormatOk(F) && HoldsRest(F, off, tail, true, data, next)
    ensures Following(F, off, tail, data, next, off, tail, data, false, [])
  {
  }

  lemma FollowingStep(F: Format, off: nat, tail: Data, data: Data, next: Data,
                      o: nat, left: Data, d: Data, inFragment: bool, scratch: Data)
    requires FormatOk(F) && Following(F, off, tail, data, next, o, left, d, inFragment, scratch)
    ensures off <= F.blockSize && o <= F.blockSize && (!inFragment ==> scratch == [])
    ensures var n := FragmentLength(F, o, d);
            var size := TrailerLength(F, o) + HEADER_SIZE + n;
            var whole := |Fragments(F, off, true, data)|;
            && HoldsPhysical(F, o, left, TypeOf(!inFragment, n == |d|), d[..n])
            && (|left| < size ==> |tail| < whole)
            && (|left| >= size && n == |d| ==>
                  |tail| >= whole && scratch + d[..n] == data && left[size..] == tail[whole..]
                  && EndOffset(F, off, data) == HeaderOffset(F, o) + HEADER_SIZE + n)
            && (|left| >= size && n < |d| ==>
                  Following(F, off, tail, data, next, HeaderOffset(F, o) + HEADER_SIZE + n, left[size..], d[n..], true, scratch + d[..n]))
  {
    hide HoldsPhysical, Fragments, EndOffset, Piece, IsPrefix;
    var n := FragmentLength(F, o, d);
    NextPiece(F, o, left, !inFragment, d, next);
    assert (scratch + d[..n]) + d[n..] == scratch + d;
    var whole := |Fragments(F, off, true, data)|;
    var part := |Fragments(F, o, !inFragment, d)|;
    var size := TrailerLength(F, o) + HEADER_SIZE + n;
    if |left| >= size {
      assert left[size..] == tail[whole - part + size..];
    }
  }

  /** left is what remains of tail after as many bytes as whole is longer than part. */
  ghost predicate Consumed(tail: Data, left: Data, whole: nat, part: nat) {
    && whole >= part && |left| + (whole - part) == |tail|
    && left == tail[whole - part..]
  }

  /** What is left of the file begins, as far as it goes, with the rest of this record. */
  ghost predicate HoldsRest(F: Format, off: nat, tail: Data, begin: bool, data: Data, next: Data)
    requires FormatOk(F)
  {
    off <= F.blockSize && IsPrefix(tail, Fragments(F, off, begin, data) + next)
  }

  lemma PrefixDrop(a: Data, x: Data, y: Data)
    requires IsPrefix(a, x + y) && |a| >= |x|
    ensures IsPrefix(a[|x|..], y)
  {
    assert (x + y)[|x|..] == y;
    assert a[|x|..] == (x + y)[|x|..|a|];
  }

  lemma PieceLength(F: Format, off: nat, begin: bool, data: Data)
    requires FormatOk(F) && off <= F.blockSize
    ensures |Piece(F, off, begin, data)| == TrailerLength(F, off) + HEADER_SIZE + FragmentLength(F, off, data)
  {
  }

  /** One turn of ReadRecord against one turn of AddRecord. */
  lemma NextPiece(F: Format, off: nat, tail: Data, begin: bool, data: Data, next: Data)
    requires FormatOk(F) && HoldsRest(F, off, tail, begin, data, next)
    ensures var n := FragmentLength(F, off, data);
            var size := |Piece(F, off, begin, data)|;
            && size == TrailerLength(F, off) + HEADER_SIZE + n
            && HoldsPhysical(F, off, tail, TypeOf(begin, n == |data|), data[..n])
            && (n == |data| ==> |Fragments(F, off, begin, data)| == size && EndOffset(F, off, data) == HeaderOffset(F, off) + HEADER_SIZE + n)
            && (n < |data| ==>
                  var o := HeaderOffset(F, off) + HEADER_SIZE + n;
                  && |Fragments(F, off, begin, data)| == size + |Fragments(F, o, false, data[n..])|
                  && EndOffset(F, off, data) == EndOffset(F, o, data[n..])
                  && (|tail| >= size ==> HoldsRest(F, o, tail[size..], false, data[n..], next)))
  {
    hide IsPrefix, Physical;
    PieceLength(F, off, begin, data);
    var n := FragmentLength(F, off, data);
    var piece := Piece(F, off, begin, data);
    var o := HeaderOffset(F, off) + HEADER_SIZE + n;
    var rest := if n == |data| then [] else Fragments(F, o, false, data[n..]);
    var t, record := TypeOf(begin, n == |data|), Physical(F, TypeOf(begin, n == |data|), data[..n]);
    assert Fragments(F, off, begin, data) + next == piece + (rest + next);
    assert piece + (rest + next) == Zeros(TrailerLength(F, off)) + record + (rest + next);
    assert HoldsPhysical(F, off, tail, t, data[..n]);
    if |tail| >= |piece| && n < |data| {
      PrefixDrop(tail, piece, rest + next);
    }
  }

  /** What is left of the file begins, as far as it goes, with this physical record ... */
  ghost predicate PhysicalAt(F: Format, here: nat, left: Data, t: RecordType, payload: Data) {
    && |payload| <= 0xFFFF && here + HEADER_SIZE + |payload| <= F.blockSize
    && exists next :: IsPrefix(left, Physical(F, t, payload) + next)
  }

  ghost predicate IsPrefix(a: Data, b: Data) {
    |a| <= |b| && a == b[..|a|]
  }

  /** ... behind the trailer of the block, if the block has no room for a header. */
  ghost predicate HoldsPhysical(F: Format, off: nat, tail: Data, t: RecordType, payload: Data)
    requires FormatOk(F)
  {
    && off <= F.blockSize && |payload| <= 0xFFFF
    && HeaderOffset(F, off) + HEADER_SIZE + |payload| <= F.blockSize
    && exists next :: IsPrefix(tail, Zeros(TrailerLength(F, off)) + Physical(F, t, payload) + next)
  }

  function LengthField(low: nat, high: nat): nat {
    low + 256 * high
  }

  lemma StandsInBlock(F: Format, buffer: Data, rest: Data, eof: bool, off: nat, tail: Data)
    requires StandsAt(F, buffer, rest, eof, off, tail)
    ensures off <= F.blockSize
  {
  }

  lemma PastTrailer(F: Format, off: nat, tail: Data, t: RecordType, payload: Data)
    requires FormatOk(F) && HoldsPhysical(F, off, tail, t, payload) && |tail| >= TrailerLength(F, off)
    ensures PhysicalAt(F, HeaderOffset(F, off), tail[TrailerLength(F, off)..], t, payload)
  {
    var n, record := TrailerLength(F, off), Physical(F, t, payload);
    var next :| IsPrefix(tail, Zeros(n) + record + next);
    assert (Zeros(n) + record + next)[n..] == record + next;
    assert tail[n..] == (Zeros(n) + record + next)[n..|tail|];
    assert IsPrefix(tail[n..], record + next);
  }

  lemma BufferIsLeft(F: Format, buffer: Data, rest: Data, eof: bool, here: nat, left: Data)
    requires StandsAt(F, buffer, rest, eof, here, left)
    ensures left == buffer + rest && |buffer| <= |left|
    ensures here + |left| >= F.blockSize ==> !eof && |buffer| == F.blockSize - here
    ensures here + |left| < F.blockSize ==> eof && buffer == left
  {
  }

  /** The header decodes to what was encoded, and the checksum matches when all is there. */
  lemma HeaderFields(F: Format, buffer: Data, rest: Data, eof: bool, here: nat, left: Data, t: RecordType, payload: Data)
    requires FormatOk(F) && StandsAt(F, buffer, rest, eof, here, left) && |buffer| >= HEADER_SIZE
    requires PhysicalAt(F, here, left, t, payload)
    ensures |payload| <= 0xFFFF && here + HEADER_SIZE + |payload| <= F.blockSize
    ensures buffer[6] == Code(t) && LengthField(buffer[4], buffer[5]) == |payload|
    ensures HEADER_SIZE + |payload| > |buffer| ==> eof && |left| < HEADER_SIZE + |payload|
    ensures HEADER_SIZE + |payload| <= |buffer| ==>
      && buffer[..4] == F.crc(buffer[6..HEADER_SIZE + |payload|])
      && buffer[HEADER_SIZE..HEADER_SIZE + |payload|] == payload
  {
    var next :| IsPrefix(left, Physical(F, t, payload) + next);
    var crc := F.crc([Code(t)] + payload);
    var whole := Physical(F, t, payload) + next;
    assert forall i :: 0 <= i < |buffer| ==> buffer[i] == whole[i];
    assert |crc| == 4 && forall i :: 0 <= i < 4 ==> whole[i] == crc[i];
    assert whole[4] == |payload| % 256 && whole[5] == |payload| / 256 && whole[6] == Code(t);
    if HEADER_SIZE + |payload| <= |buffer| {
      forall i | 0 <= i < |payload| ensures buffer[HEADER_SIZE + i] == payload[i] {
        assert whole[HEADER_SIZE + i] == payload[i];
      }
      assert buffer[6..HEADER_SIZE + |payload|] == [Code(t)] + payload;
      assert buffer[..4] == crc;
    }
  }

  lemma ConsumeRecord(F: Format, buffer: Data, rest: Data, eof: bool, here: nat, left: Data, n: nat)
    requires StandsAt(F, buffer, rest, eof, here, left) && n <= |buffer| && here + n <= F.blockSize
    ensures StandsAt(F, buffer[n..], rest, eof, here + n, left[n..])
  {
    assert left[n..] == buffer[n..] + rest;
  }

  // ---------- whole logs ----------

  function OffsetAfter(F: Format, off: nat, records: seq<Data>): (o: nat)
    requires FormatOk(F) && off <= F.blockSize
    ensures o <= F.blockSize
    decreases |records|
  {
    if records == [] then off else OffsetAfter(F, EndOffset(F, off, records[0]), records[1..])
  }

  lemma {:induction false} EncodeSnoc(F: Format, off: nat, records: seq<Data>, r: Data)
    requires FormatOk(F) && off <= F.blockSize
    ensures Encode(F, off, records + [r]) == Encode(F, off, records) + Fragments(F, OffsetAfter(F, off, records), true, r)
    ensures OffsetAfter(F, off, records + [r]) == EndOffset(F, OffsetAfter(F, off, records), r)
    decreases |records|
  {
    hide Fragments, EndOffset;
    if records == [] {
      assert [r][1..] == [];
      assert Encode(F, off, [r]) == Fragments(F, off, true, r) + [];
    } else {
      var o := EndOffset(F, off, records[0]);
      EncodeSnoc(F, o, records[1..], r);
      assert (records + [r])[1..] == records[1..] + [r];
      assert (records + [r])[0] == records[0];
    }
  }

  /** Appending records one by one writes the encoding of the sequence. */
  method WriteLog(F: Format, records: seq<Data>) returns (file: Data)
    requires FormatOk(F)
    ensures file == Encode(F, 0, records)
  {
    hide Fragments, EndOffset;
    var w := new Writer(F);
    for i := 0 to |records|
      invariant w.Valid() && w.F == F && fresh(w)
      invariant w.dest == Encode(F, 0, records[..i]) && w.blockOffset == OffsetAfter(F, 0, records[..i])
    {
      EncodeSnoc(F, 0, records[..i], records[i]);
      assert records[..i + 1] == records[..i] + [records[i]];
      w.AddRecord(records[i]);
    }
    assert records[..|records|] == records;
    file := w.dest;
  }

  /** How many leading records lie wholly within the first n bytes. */
  function Whole(F: Format, off: nat, records: seq<Data>, n: nat): (k: nat)
    requires FormatOk(F) && off <= F.blockSize
    ensures k <= |records|
    decreases |records|
  {
    if records == [] || |Fragments(F, off, true, records[0])| > n then 0
    else 1 + Whole(F, EndOffset(F, off, records[0]), records[1..], n - |Fragments(F, off, true, records[0])|)
  }

  /** Whole counts exactly the records whose encoding ends within n bytes. */
  lemma {:induction false} WholeIsWithin(F: Format, off: nat, records: seq<Data>, n: nat, k: nat)
    requires FormatOk(F) && off <= F.blockSize && k <= |records|
    ensures k <= Whole(F, off, records, n) <==> |Encode(F, off, records[..k])| <= n
    decreases |records|
  {
    hide Fragments, EndOffset;
    if k > 0 {
      var size := |Fragments(F, off, true, records[0])|;
      assert records[..k][1..] == records[1..][..k - 1];
      if size <= n {
        WholeIsWithin(F, EndOffset(F, off, records[0]), records[1..], n - size, k - 1);
      }
    }
  }

  lemma SameFromBlockEnd(F: Format, records: seq<Data>, n: nat)
    requires FormatOk(F)
    ensures Encode(F, F.blockSize, records) == Encode(F, 0, records)
    ensures Whole(F, F.blockSize, records, n) == Whole(F, 0, records, n)
  {
    if records != [] {
      var d := records[0];
      assert Piece(F, F.blockSize, true, d) == Piece(F, 0, true, d);
      assert Fragments(F, F.blockSize, true, d) == Fragments(F, 0, true, d);
      assert EndOffset(F, F.blockSize, d) == EndOffset(F, 0, d);
    }
  }

  lemma FragmentsNotEmpty(F: Format, off: nat, begin: bool, data: Data)
    requires FormatOk(F) && off <= F.blockSize
    ensures |Fragments(F, off, begin, data)| > 0
  {
    assert |Piece(F, off, begin, data)| >= 3;
  }

  /** The next record the reader can expect, or an impossible one at the end of the log. */
  lemma ExpectNext(F: Format, off: nat, tail: Data, records: seq<Data>)
    requires FormatOk(F) && off <= F.blockSize && IsPrefix(tail, Encode(F, off, records))
    ensures records == [] ==> tail == [] && HoldsRest(F, off, tail, true, [], []) && Whole(F, off, records, |tail|) == 0
                              && |tail| < |Fragments(F, off, true, [])|
    ensures records != [] ==>
      var o := EndOffset(F, off, records[0]);
      var size := |Fragments(F, off, true, records[0])|;
      && HoldsRest(F, off, tail, true, records[0], Encode(F, o, records[1..]))
      && (|tail| < size ==> Whole(F, off, records, |tail|) == 0)
      && (|tail| >= size ==>
            && IsPrefix(tail[size..], Encode(F, o, records[1..]))
            && Whole(F, off, records, |tail|) == 1 + Whole(F, o, records[1..], |tail[size..]|))
  {
    hide Fragments, EndOffset;
    if records == [] {
      FragmentsNotEmpty(F, off, true, []);
    } else if |tail| >= |Fragments(F, off, true, records[0])| {
      PrefixDrop(tail, Fragments(F, off, true, records[0]), Encode(F, EndOffset(F, off, records[0]), records[1..]));
    }
  }

  /** Reading a log that was cut anywhere: exactly the records that are wholly there,
      in order, and no corruption is reported. */
  method ReadLog(F: Format, file: Data, ghost records: seq<Data>) returns (rs: seq<Data>, reports: nat)
    requires FormatOk(F)
    ensures IsPrefix(file, Encode(F, 0, records)) ==> rs == records[..Whole(F, 0, records, |file|)] && reports == 0
  {
    hide Fragments, EndOffset, Encode, Whole, HoldsRest, StandsAt, IsPrefix;
    var reader := new Reader(F, file);
    ghost var known := IsPrefix(file, Encode(F, 0, records));
    SameFromBlockEnd(F, records, |file|);
    ghost var off: nat, tail: Data, left: seq<Data> := F.blockSize, file, records;
    ghost var k := Whole(F, 0, records, |file|);
    rs := [];
    while true
      invariant reader.F == F && fresh(reader)
      invariant known ==> off <= F.blockSize && reader.Stands(off, tail) && reader.reports == 0
      invariant known ==> IsPrefix(tail, Encode(F, off, left))
      invariant known ==> |rs| <= k && rs == records[..|rs|] && left == records[|rs|..]
      invariant known ==> k == |rs| + Whole(F, off, left, |tail|)
      decreases |reader.buffer| + |reader.rest|
    {
      ghost var data, next := [], [];
      if known {
        ExpectNext(F, off, tail, left);
        if left != [] {
          data, next := left[0], Encode(F, EndOffset(F, off, left[0]), left[1..]);
        }
      }
      var r := reader.ReadRecord(off, tail, data, next);
      if r.None? {
        break;
      }
      rs := rs + [r.value];
      if known {
        off, tail, left := EndOffset(F, off, data), tail[|Fragments(F, off, true, data)|..], left[1..];
      }
    }
    reports := reader.reports;
  }
}
