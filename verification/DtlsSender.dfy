/** d1_both.cc: the sending side. A flight is cut into records that fit the MTU. */
module DtlsSenders {
  import opened InternalKeys
  import opened DtlsFragments
  import opened DtlsReceivers
  import opened DtlsDelivery

  /** A message of the flight, stored as one unfragmented fragment, or a ChangeCipherSpec. */
  datatype Outgoing = Outgoing(data: Data, isCcs: bool)

  /** What is given to the record layer to be sealed. */
  datatype Record = Record(typ: RecordType, payload: Data)

  datatype SealResult = SealError | SealNoProgress | SealPartial | SealSuccess

  /** outgoing_written and outgoing_offset */
  datatype Cursor = Cursor(written: nat, offset: nat)

  predicate IsWhole(data: Data) {
    && ParseFragment(data).Some?
    && var (f, rest) := ParseFragment(data).value;
       f.off == 0 && |f.body| == f.msgLen && rest == []
  }

  function WholeOf(data: Data): Fragment
    requires IsWhole(data)
  {
    ParseFragment(data).value.0
  }

  predicate Sendable(m: Outgoing) {
    m.isCcs || IsWhole(m.data)
  }

  function Piece(f: Fragment, off: nat, n: nat): Fragment
    requires off + n <= |f.body|
  {
    f.(off := off, body := f.body[off..off + n])
  }

  predicate CursorOk(messages: seq<Outgoing>, c: Cursor) {
    && c.written <= |messages|
    && (c.written == |messages| || messages[c.written].isCcs ==> c.offset == 0)
    && (c.written < |messages| && !messages[c.written].isCcs && IsWhole(messages[c.written].data) ==>
          c.offset == 0 || c.offset < |WholeOf(messages[c.written].data).body|)
  }

  /** r is a next record for the flight at c: some of what is left of the message, and at
      least one byte unless nothing is left. */
  predicate Emits(messages: seq<Outgoing>, c: Cursor, r: Record) {
    && c.written < |messages| && CursorOk(messages, c)
    && var m := messages[c.written];
       if m.isCcs then r == Record(ChangeCipherSpec, [1])
       else
         && IsWhole(m.data) && |r.payload| >= HEADER_LENGTH
         && var f, n := WholeOf(m.data), |r.payload| - HEADER_LENGTH;
            && c.offset + n <= |f.body| && (n > 0 || |f.body| == 0) && Fits(Piece(f, c.offset, n))
            && r == Record(Handshake, Serialize(Piece(f, c.offset, n)))
  }

  function Beyond(messages: seq<Outgoing>, c: Cursor, r: Record): (next: Cursor)
    requires Emits(messages, c, r)
    ensures CursorOk(messages, next)
  {
    var m := messages[c.written];
    if m.isCcs then Cursor(c.written + 1, 0)
    else
      var n := |r.payload| - HEADER_LENGTH;
      if c.offset + n == |WholeOf(m.data).body| then Cursor(c.written + 1, 0) else Cursor(c.written, c.offset + n)
  }

  function PieceRecord(f: Fragment, off: nat, n: nat): Record
    requires off + n <= |f.body| && Fits(f)
  {
    Record(Handshake, Serialize(Piece(f, off, n)))
  }

  lemma PieceEmits(messages: seq<Outgoing>, c: Cursor, n: nat)
    requires CursorOk(messages, c) && c.written < |messages|
    requires !messages[c.written].isCcs && IsWhole(messages[c.written].data)
    requires c.offset + n <= |WholeOf(messages[c.written].data).body|
    requires n > 0 || c.offset == |WholeOf(messages[c.written].data).body|
    ensures var f := WholeOf(messages[c.written].data);
            && Fits(f)
            && var r := PieceRecord(f, c.offset, n);
               && |r.payload| == HEADER_LENGTH + n && Emits(messages, c, r)
               && Beyond(messages, c, r)
                  == if c.offset + n == |f.body| then Cursor(c.written + 1, 0) else Cursor(c.written, c.offset + n)
  {
    ParsedIsSerialized(messages[c.written].data);
    var f := WholeOf(messages[c.written].data);
    assert |Piece(f, c.offset, n).body| == n;
    hide ParseFragment, Header;
  }

  lemma CcsEmits(messages: seq<Outgoing>, c: Cursor)
    requires CursorOk(messages, c) && c.written < |messages| && messages[c.written].isCcs
    ensures Emits(messages, c, Record(ChangeCipherSpec, [1]))
    ensures c.offset == 0 && Beyond(messages, c, Record(ChangeCipherSpec, [1])) == Cursor(c.written + 1, 0)
  {
  }

  /** The records rs take the flight from one cursor to another without a gap. */
  predicate Advances(messages: seq<Outgoing>, from: Cursor, rs: seq<Record>, to: Cursor)
    decreases |rs|
  {
    if rs == [] then from == to
    else Emits(messages, from, rs[0]) && Advances(messages, Beyond(messages, from, rs[0]), rs[1..], to)
  }

  lemma {:induction false} AdvancesOn(messages: seq<Outgoing>, a: Cursor, xs: seq<Record>, b: Cursor, ys: seq<Record>, c: Cursor)
    requires Advances(messages, a, xs, b) && Advances(messages, b, ys, c)
    ensures Advances(messages, a, xs + ys, c)
    decreases |xs|
  {
    if xs == [] {
      assert xs + ys == ys;
    } else {
      AdvancesOn(messages, Beyond(messages, a, xs[0]), xs[1..], b, ys, c);
      assert (xs + ys)[1..] == xs[1..] + ys;
    }
  }

  lemma OneRecordAdvances(messages: seq<Outgoing>, c: Cursor, r: Record)
    requires Emits(messages, c, r)
    ensures Advances(messages, c, [r], Beyond(messages, c, r))
  {
    assert [r][1..] == [];
  }

  function SizeOf(packet: seq<Record>, overhead: nat): nat {
    if packet == [] then 0 else SizeOf(packet[..|packet| - 1], overhead) + |packet[|packet| - 1].payload| + overhead
  }

  lemma OneMore(messages: seq<Outgoing>, from: Cursor, packet: seq<Record>, at: Cursor, r: Record, overhead: nat)
    requires Advances(messages, from, packet, at) && Emits(messages, at, r)
    ensures Advances(messages, from, packet + [r], Beyond(messages, at, r))
    ensures SizeOf(packet + [r], overhead) == SizeOf(packet, overhead) + |r.payload| + overhead
  {
    OneRecordAdvances(messages, at, r);
    AdvancesOn(messages, from, packet, at, [r], Beyond(messages, at, r));
    assert (packet + [r])[..|packet|] == packet;
  }

  /** The room a message needs so that any of it can be sent. */
  function Room(m: Outgoing, overhead: nat): (r: nat)
    ensures r > overhead
  {
    (if m.isCcs then 1 else HEADER_LENGTH + 1) + overhead
  }

  function Flat(packets: seq<seq<Record>>): seq<Record> {
    if packets == [] then [] else Flat(packets[..|packets| - 1]) + packets[|packets| - 1]
  }

  /** What is left to send, for termination. */
  function Left(messages: seq<Outgoing>, c: Cursor): int {
    if c.written < |messages| && IsWhole(messages[c.written].data)
    then |WholeOf(messages[c.written].data).body| - c.offset
    else 0
  }

  class Sender {
    /** dtls_max_seal_overhead and dtls_seal_prefix_len: sealing adds overhead bytes, prefix
        of them in front. */
    const overhead: nat
    const prefix: nat
    var messages: seq<Outgoing>
    var complete: bool
    var cursor: Cursor
    var writeSeq: nat

    ghost predicate Valid()
      reads this
    {
      && prefix <= overhead && writeSeq < 0x1_0000
      && |messages| <= MAX_FLIGHT && CursorOk(messages, cursor)
    }

    ghost predicate AllSendable()
      reads this
    {
      forall m :: m in messages ==> Sendable(m)
    }

    constructor (overhead: nat, prefix: nat)
      requires prefix <= overhead
      ensures Valid() && messages == [] && writeSeq == 0 && !complete && cursor == Cursor(0, 0)
      ensures this.overhead == overhead
    {
      this.overhead, this.prefix := overhead, prefix;
      messages, complete, cursor, writeSeq := [], false, Cursor(0, 0), 0;
    }

    /** dtls1_init_message and dtls1_finish_message: the total length, left out at first, is
        copied from the fragment length. */
    method FinishMessage(typ: nat, body: Data) returns (data: Data)
      requires Valid() && typ < 0x100 && |body| < 0x100_0000
      ensures data == Serialize(Fragment(typ, |body|, writeSeq, 0, body))
      ensures IsWhole(data) && WholeOf(data) == Fragment(typ, |body|, writeSeq, 0, body)
    {
      data := U8(typ) + U24(0) + U16(writeSeq) + U24(0) + U24(|body|) + body;
      data := data[..1] + data[HEADER_LENGTH - 3..HEADER_LENGTH] + data[4..];
      ParseReadsBack(Fragment(typ, |body|, writeSeq, 0, body), []);
      assert data == Serialize(Fragment(typ, |body|, writeSeq, 0, body)) + [];
    }

    /** add_outgoing: a message added after the flight was flushed begins a new flight. */
    method AddOutgoing(isCcs: bool, data: Data) returns (ok: bool)
      requires Valid()
      modifies this
      ensures Valid() && !complete
      ensures var flight := if old(complete) then [] else old(messages);
              && ok == (|flight| < MAX_FLIGHT && |data| <= 0xFFFF_FFFF)
              && messages == (if ok then flight + [Outgoing(data, isCcs)] else flight)
              && writeSeq == (if ok && !isCcs then Next16(old(writeSeq)) else old(writeSeq))
              && (old(complete) ==> cursor == Cursor(0, 0))
              && (!old(complete) ==> cursor == old(cursor))
    {
      if complete {
        messages, complete, cursor := [], false, Cursor(0, 0);
      }
      if |messages| >= MAX_FLIGHT || |data| > 0xFFFF_FFFF {
        return false;
      }
      if !isCcs {
        writeSeq := Next16(writeSeq);
      }
      messages := messages + [Outgoing(data, isCcs)];
      ok := true;
    }

    /** seal_next_message */
    method SealNextMessage(maxOut: nat) returns (ret: SealResult, record: Record, len: nat)
      requires Valid() && cursor.written < |messages|
      modifies this`cursor
      ensures cursor.written == old(cursor).written
      ensures var m := messages[cursor.written];
              && (ret == SealError <==> !Sendable(m))
              && (ret == SealNoProgress <==> Sendable(m) && maxOut < Room(m, overhead))
              && Room(m, overhead) == (if m.isCcs then 1 else 13) + overhead
      ensures ret == SealError || ret == SealNoProgress ==> cursor == old(cursor)
      ensures ret == SealPartial || ret == SealSuccess ==>
        && Emits(messages, old(cursor), record) && len == |record.payload| + overhead <= maxOut
        && Beyond(messages, old(cursor), record)
           == (if ret == SealSuccess then Cursor(cursor.written + 1, cursor.offset) else cursor)
      ensures ret == SealPartial ==> len == maxOut
    {
      hide Emits, Beyond, ParseFragment, IsWhole, WholeOf, PieceRecord;
      record, len := Record(Other, []), 0;
      var m := messages[cursor.written];
      if m.isCcs {
        CcsEmits(messages, cursor);
        if maxOut < 1 + overhead {
          return SealNoProgress, record, len;
        }
        return SealSuccess, Record(ChangeCipherSpec, [1]), 1 + overhead;
      }
      if !IsWhole(m.data) {
        return SealError, record, len;
      }
      var hdr := WholeOf(m.data);
      if maxOut < HEADER_LENGTH + 1 + overhead || maxOut < prefix {
        return SealNoProgress, record, len;
      }
      var left := |hdr.body| - cursor.offset;
      var todo := left;
      if todo > maxOut - HEADER_LENGTH - overhead {
        todo := maxOut - HEADER_LENGTH - overhead;
      }
      PieceEmits(messages, cursor, todo);
      record := PieceRecord(hdr, cursor.offset, todo);
      len := HEADER_LENGTH + todo + overhead;
      if todo == left {
        cursor := cursor.(offset := 0);
        ret := SealSuccess;
      } else {
        cursor := cursor.(offset := cursor.offset + todo);
        ret := SealPartial;
      }
    }

    /** seal_next_packet: as much of the flight as fits. */
    method SealNextPacket(maxOut: nat) returns (ok: bool, packet: seq<Record>)
      requires Valid() && cursor.written < |messages|
      modifies this`cursor
      ensures Valid()
      ensures ok ==> packet != [] && Advances(messages, old(cursor), packet, cursor) && SizeOf(packet, overhead) <= maxOut
      ensures ok && cursor.written < |messages| ==> Room(messages[cursor.written], overhead) > maxOut - SizeOf(packet, overhead)
      ensures AllSendable() ==> (ok <==> maxOut >= Room(messages[old(cursor).written], overhead))
      ensures AllSendable() && !ok ==> cursor == old(cursor)
    {
      packet := [];
      NothingSealed(cursor, maxOut);
      hide *;
      var left, full := maxOut, false;
      ghost var from := cursor;
      while !full && cursor.written < |messages|
        invariant Sealed(from, packet, left, maxOut, full)
        decreases !full, |messages| - cursor.written
      {
        var failed;
        failed, packet, left, full := SealOneMore(from, packet, left, maxOut);
        if failed {
          return false, [];
        }
      }
      ok := packet != [];
      PacketSealed(from, packet, left, maxOut, full);
    }

    /** The packet so far carries the flight from where it stood to where it now stands; when it is
        full, what comes next has no room in it. */
    ghost predicate Sealed(from: Cursor, packet: seq<Record>, left: int, maxOut: nat, full: bool)
      reads this
    {
      && Valid() && from.written < |messages|
      && Advances(messages, from, packet, cursor) && 0 <= left == maxOut - SizeOf(packet, overhead)
      && (packet == [] ==> cursor == from)
      && (full && cursor.written < |messages| ==> Room(messages[cursor.written], overhead) > left)
      && (packet == [] && full ==> maxOut < Room(messages[from.written], overhead))
      && (packet != [] ==> maxOut >= Room(messages[from.written], overhead))
    }

    lemma NothingSealed(from: Cursor, maxOut: nat)
      requires Valid() && from == cursor && cursor.written < |messages|
      ensures Sealed(from, [], maxOut, maxOut, false)
    {
      hide Emits, Beyond, CursorOk, Room;
    }

    lemma PacketSealed(from: Cursor, packet: seq<Record>, left: int, maxOut: nat, full: bool)
      requires Sealed(from, packet, left, maxOut, full) && (full || cursor.written >= |messages|)
      ensures Valid() && from.written < |messages| && Advances(messages, from, packet, cursor) && SizeOf(packet, overhead) <= maxOut
      ensures packet != [] && cursor.written < |messages| ==> Room(messages[cursor.written], overhead) > maxOut - SizeOf(packet, overhead)
      ensures packet != [] <==> maxOut >= Room(messages[from.written], overhead)
      ensures packet == [] ==> cursor == from
    {
      hide Emits, Beyond, CursorOk, Room, Advances, SizeOf;
    }

    /** One turn of the loop of seal_next_packet. */
    method SealOneMore(ghost from: Cursor, packet: seq<Record>, left: int, ghost maxOut: nat)
        returns (failed: bool, packet': seq<Record>, left': int, full: bool)
      requires Sealed(from, packet, left, maxOut, false) && cursor.written < |messages|
      modifies this`cursor
      ensures failed ==> !AllSendable() && Valid()
      ensures !failed ==> Sealed(from, packet', left', maxOut, full) && (full || cursor.written == old(cursor).written + 1)
    {
      hide *;
      SealedSoFar(from, packet, left, maxOut);
      var at := cursor;
      var ret, record, len := SealNextMessage(left);
      packet', left', full, failed := packet, left, ret == SealNoProgress || ret == SealPartial, ret == SealError;
      if ret == SealPartial || ret == SealSuccess {
        OneMore(messages, from, packet, at, record, overhead);
        packet', left' := packet + [record], left - len;
        if ret == SealSuccess {
          cursor := cursor.(written := cursor.written + 1);
        }
        StillSealed(from, packet', left', maxOut, full);
      } else if ret == SealNoProgress {
        SealedFull(from, packet, left, maxOut);
      } else {
        NotAllSendable(messages[cursor.written]);
      }
    }

    lemma SealedSoFar(from: Cursor, packet: seq<Record>, left: int, maxOut: nat)
      requires Sealed(from, packet, left, maxOut, false)
      ensures Valid() && left >= 0 && from.written < |messages| && |messages| <= MAX_FLIGHT && prefix <= overhead && writeSeq < 0x1_0000
      ensures Advances(messages, from, packet, cursor) && left == maxOut - SizeOf(packet, overhead)
      ensures packet == [] ==> cursor == from && left == maxOut
      ensures packet != [] ==> maxOut >= Room(messages[from.written], overhead)
    {
      assert SizeOf([], overhead) == 0;
      hide Emits, Beyond, CursorOk, Room, Advances, SizeOf;
    }

    lemma StillSealed(from: Cursor, packet: seq<Record>, left: int, maxOut: nat, full: bool)
      requires CursorOk(messages, cursor) && |messages| <= MAX_FLIGHT && prefix <= overhead && writeSeq < 0x1_0000
      requires from.written < |messages| && packet != [] && maxOut >= Room(messages[from.written], overhead)
      requires Advances(messages, from, packet, cursor) && 0 <= left == maxOut - SizeOf(packet, overhead)
      requires full ==> left == 0
      ensures Sealed(from, packet, left, maxOut, full)
    {
      hide Emits, Beyond, CursorOk, Room, Advances, SizeOf;
    }

    lemma SealedFull(from: Cursor, packet: seq<Record>, left: int, maxOut: nat)
      requires Sealed(from, packet, left, maxOut, false) && cursor.written < |messages|
      requires left < Room(messages[cursor.written], overhead)
      ensures Sealed(from, packet, left, maxOut, true)
    {
      assert SizeOf([], overhead) == 0;
      hide Emits, Beyond, CursorOk, Room, Advances, SizeOf;
    }

    lemma NotAllSendable(m: Outgoing)
      requires m in messages && !Sendable(m)
      ensures !AllSendable()
    {
    }

    /** send_flight, over a channel that takes some packets and then blocks: the packets
        taken carry the flight without a gap from where it stood to where it now stands. */
    method SendFlight(mtu: nat, accepts: nat) returns (result: int, packets: seq<seq<Record>>)
      requires Valid() && AllSendable()
      modifies this`cursor
      ensures Valid() && Advances(messages, old(cursor), Flat(packets), cursor)
      ensures forall p :: p in packets ==> p != [] && SizeOf(p, overhead) <= mtu
      ensures result == 1 <==> cursor.written == |messages|
      ensures result == 0 ==> |packets| == accepts
      ensures result == -1 <==> cursor.written < |messages| && mtu < Room(messages[cursor.written], overhead)
      ensures result == 1 || result == 0 || result == -1
    {
      hide Emits, Beyond, Sendable, SizeOf, Room, IsWhole;
      packets := [];
      while cursor.written < |messages|
        invariant Valid() && Advances(messages, old(cursor), Flat(packets), cursor)
        invariant forall p :: p in packets ==> p != [] && SizeOf(p, overhead) <= mtu
        invariant |packets| <= accepts
        decreases |messages| - cursor.written, Left(messages, cursor)
      {
        var before := cursor;
        var ok, packet := SealNextPacket(mtu);
        if !ok {
          return -1, packets;
        }
        if |packets| == accepts {
          cursor := before;
          return 0, packets;
        }
        AdvancesOn(messages, old(cursor), Flat(packets), before, packet, cursor);
        ProgressIsMade(messages, before, packet, cursor);
        packets := packets + [packet];
        assert packets[..|packets| - 1] + [packet] == packets;
      }
      result := 1;
    }

    /** dtls1_retransmit_outgoing_messages rewinds to the start of the flight. */
    method Retransmit(mtu: nat, accepts: nat) returns (result: int, packets: seq<seq<Record>>)
      requires Valid() && AllSendable()
      modifies this`cursor
      ensures Valid() && Advances(messages, Cursor(0, 0), Flat(packets), cursor)
      ensures forall p :: p in packets ==> p != [] && SizeOf(p, overhead) <= mtu
      ensures result == 1 <==> cursor.written == |messages|
    {
      cursor := Cursor(0, 0);
      result, packets := SendFlight(mtu, accepts);
    }
  }

  /** Every record brings the end of the flight nearer. */
  lemma {:induction false} ProgressIsMade(messages: seq<Outgoing>, from: Cursor, rs: seq<Record>, to: Cursor)
    requires rs != [] && CursorOk(messages, from) && Advances(messages, from, rs, to)
    ensures CursorOk(messages, to)
    ensures to.written > from.written || (to.written == from.written < |messages| && 0 <= Left(messages, to) < Left(messages, from))
    decreases |rs|
  {
    var next := Beyond(messages, from, rs[0]);
    OneRecordProgress(messages, from, rs[0]);
    if rs[1..] != [] {
      hide Emits, Beyond, Left, CursorOk;
      ProgressIsMade(messages, next, rs[1..], to);
    }
  }

  lemma OneRecordProgress(messages: seq<Outgoing>, from: Cursor, r: Record)
    requires Emits(messages, from, r)
    ensures var to := Beyond(messages, from, r);
            to.written > from.written || (to.written == from.written < |messages| && 0 <= Left(messages, to) < Left(messages, from))
  {
    hide ParseFragment, Serialize;
  }

  // ---------- a whole pass reaches the other side ----------

  /** What is written of each message of the flight is message k of msgs, numbered from
      base; ChangeCipherSpec takes no number. */
  ghost predicate Holds(messages: seq<Outgoing>, base: nat, msgs: seq<Message>) {
    && (forall m :: m in messages && !m.isCcs ==> IsWhole(m.data) && CutFrom(base, msgs, WholeOf(m.data)))
    && (forall num: nat :: base <= num < base + |msgs| ==> Written(messages, num))
  }

  ghost predicate Written(messages: seq<Outgoing>, num: nat) {
    exists w: nat :: StandsAt(messages, w, num)
  }

  predicate StandsAt(messages: seq<Outgoing>, w: nat, num: nat) {
    && w < |messages| && !messages[w].isCcs && IsWhole(messages[w].data)
    && WholeOf(messages[w].data).num == num
  }

  /** Adding the next message, under the sender's own number, to a flight. */
  lemma HoldsMore(messages: seq<Outgoing>, base: nat, msgs: seq<Message>, data: Data, m: Message)
    requires Holds(messages, base, msgs)
    requires IsWhole(data) && WholeOf(data) == Fragment(m.typ, |m.body|, base + |msgs|, 0, m.body)
    ensures Holds(messages + [Outgoing(data, false)], base, msgs + [m])
  {
    var after := messages + [Outgoing(data, false)];
    hide IsWhole, WholeOf;
    assert (msgs + [m])[|msgs|] == m && m.body[0..|m.body|] == m.body;
    forall num: nat | base <= num < base + |msgs| + 1 ensures Written(after, num) {
      if num < base + |msgs| {
        assert Written(messages, num);
        var w: nat :| StandsAt(messages, w, num);
        assert StandsAt(after, w, num);
      } else {
        assert StandsAt(after, |messages|, num);
      }
    }
    forall x | x in after && !x.isCcs ensures IsWhole(x.data) && CutFrom(base, msgs + [m], WholeOf(x.data)) {
      if x in messages {
        assert forall k: nat :: k < |msgs| ==> (msgs + [m])[k] == msgs[k];
      }
    }
  }

  function FragmentOf(r: Record): Option<Fragment> {
    if r.typ == Handshake && ParseFragment(r.payload).Some? then Some(ParseFragment(r.payload).value.0) else None
  }

  /** What arrives when the record does. */
  predicate Brings(r: Record, num: nat, i: nat) {
    FragmentOf(r).Some? && DtlsDelivery.Carries(Deliver(FragmentOf(r).value, false), num, i)
  }

  lemma EmittedFragment(messages: seq<Outgoing>, c: Cursor, r: Record)
    requires Emits(messages, c, r) && !messages[c.written].isCcs
    ensures FragmentOf(r) == Some(Piece(WholeOf(messages[c.written].data), c.offset, |r.payload| - HEADER_LENGTH))
    ensures ParseFragment(r.payload) == Some((FragmentOf(r).value, []))
  {
    var f := Piece(WholeOf(messages[c.written].data), c.offset, |r.payload| - HEADER_LENGTH);
    ParseReadsBack(f, []);
    assert Serialize(f) + [] == Serialize(f);
    hide Serialize, ParseFragment;
  }

  /** Whatever the MTU, every record parses back to a cut of one of the messages. */
  lemma EmittedIsCut(messages: seq<Outgoing>, c: Cursor, r: Record, base: nat, msgs: seq<Message>)
    requires Emits(messages, c, r) && !messages[c.written].isCcs && Holds(messages, base, msgs)
    ensures FragmentOf(r).Some? && CutFrom(base, msgs, FragmentOf(r).value)
  {
    EmittedFragment(messages, c, r);
    var whole := WholeOf(messages[c.written].data);
    assert messages[c.written] in messages;
    hide ParseFragment, FragmentOf, IsWhole, WholeOf, Serialize;
    var all := msgs[whole.num - base].body;
    assert whole.body == all[0..|all|] == all by {
      WholeIsMessage(messages, base, msgs, c.written);
    }
  }

  lemma WholeIsMessage(messages: seq<Outgoing>, base: nat, msgs: seq<Message>, w: nat)
    requires Holds(messages, base, msgs) && w < |messages| && !messages[w].isCcs
    ensures IsWhole(messages[w].data)
    ensures var f := WholeOf(messages[w].data);
            base <= f.num < base + |msgs| && f.body == msgs[f.num - base].body
  {
    assert messages[w] in messages;
    var f := WholeOf(messages[w].data);
    assert f.off == 0 && |f.body| == f.msgLen;
  }

  /** Byte i of the message at w lies between the two cursors. */
  predicate Between(from: Cursor, w: nat, i: nat, to: Cursor) {
    && (from.written < w || (from.written == w && from.offset <= i))
    && (w < to.written || (w == to.written && i < to.offset))
  }

  /** A pass without a gap brings every byte it passed over. */
  lemma {:induction false} PassBringsAll(messages: seq<Outgoing>, from: Cursor, rs: seq<Record>, to: Cursor, w: nat, i: nat)
    requires Advances(messages, from, rs, to) && Between(from, w, i, to)
    requires w < |messages| && !messages[w].isCcs && IsWhole(messages[w].data) && i < |WholeOf(messages[w].data).body|
    ensures exists r :: r in rs && Brings(r, WholeOf(messages[w].data).num, i)
    decreases |rs|
  {
    var next := Beyond(messages, from, rs[0]);
    if Between(from, w, i, next) {
      EmittedFragment(messages, from, rs[0]);
      hide FragmentOf, ParseFragment, Serialize, Advances, IsWhole, WholeOf;
      assert rs[0] in rs && Brings(rs[0], WholeOf(messages[w].data).num, i);
    } else {
      hide Emits, Beyond, IsWhole, WholeOf, Brings;
      assert Between(next, w, i, to);
      PassBringsAll(messages, next, rs[1..], to, w, i);
      var r :| r in rs[1..] && Brings(r, WholeOf(messages[w].data).num, i);
      assert r in rs;
    }
  }

  /** Also an empty message is sent. */
  lemma {:induction false} PassTouchesAll(messages: seq<Outgoing>, from: Cursor, rs: seq<Record>, to: Cursor, w: nat)
    requires Advances(messages, from, rs, to) && from.written <= w < to.written
    requires w < |messages| && !messages[w].isCcs && IsWhole(messages[w].data)
    ensures exists r :: r in rs && Names(r, WholeOf(messages[w].data).num)
    decreases |rs|
  {
    var next := Beyond(messages, from, rs[0]);
    if from.written == w {
      EmittedFragment(messages, from, rs[0]);
      hide FragmentOf, ParseFragment, Serialize, Advances, IsWhole, WholeOf;
      assert rs[0] in rs && Names(rs[0], WholeOf(messages[w].data).num);
    } else {
      hide IsWhole, WholeOf, Names;
      PassTouchesAll(messages, next, rs[1..], to, w);
      var r :| r in rs[1..] && Names(r, WholeOf(messages[w].data).num);
      assert r in rs;
    }
  }

  predicate Names(r: Record, num: nat) {
    FragmentOf(r).Some? && FragmentOf(r).value.num == num
  }

  /** The fragment has arrived, in one epoch or the other. */
  ghost predicate Arrived(events: seq<Event>, f: Fragment) {
    Deliver(f, false) in events || Deliver(f, true) in events
  }

  /** Every fragment of a whole pass has been delivered at least once. */
  ghost predicate PassDelivered(rs: seq<Record>, events: seq<Event>) {
    forall r :: r in rs && FragmentOf(r).Some? ==> Arrived(events, FragmentOf(r).value)
  }

  lemma MessageArrives(messages: seq<Outgoing>, rs: seq<Record>, events: seq<Event>, w: nat, m: Message)
    requires w < |messages| && !messages[w].isCcs && IsWhole(messages[w].data) && WholeOf(messages[w].data).body == m.body
    requires Advances(messages, Cursor(0, 0), rs, Cursor(|messages|, 0)) && PassDelivered(rs, events)
    ensures AllArrived(events, WholeOf(messages[w].data).num, m)
  {
    var num, end := WholeOf(messages[w].data).num, Cursor(|messages|, 0);
    PassTouchesAll(messages, Cursor(0, 0), rs, end, w);
    var t :| t in rs && Names(t, num);
    assert Arrived(events, FragmentOf(t).value);
    hide FragmentOf, IsWhole, WholeOf, Advances;
    forall i: nat | i < |m.body| ensures Covered(events, num, i) {
      PassBringsAll(messages, Cursor(0, 0), rs, end, w, i);
      var r :| r in rs && Brings(r, num, i);
      assert Arrived(events, FragmentOf(r).value);
      assert DtlsDelivery.Carries(Deliver(FragmentOf(r).value, false), num, i) && DtlsDelivery.Carries(Deliver(FragmentOf(r).value, true), num, i);
    }
  }

  lemma PassArrives(messages: seq<Outgoing>, base: nat, msgs: seq<Message>, rs: seq<Record>, events: seq<Event>, num: nat)
    requires Holds(messages, base, msgs) && base <= num < base + |msgs|
    requires Advances(messages, Cursor(0, 0), rs, Cursor(|messages|, 0)) && PassDelivered(rs, events)
    ensures AllArrived(events, num, msgs[num - base])
  {
    hide Advances, PassDelivered, IsWhole, WholeOf, AllArrived;
    assert Written(messages, num);
    var w: nat :| StandsAt(messages, w, num);
    WholeIsMessage(messages, base, msgs, w);
    MessageArrives(messages, rs, events, w, msgs[num - base]);
  }

  /** End to end: once every record of one whole pass has arrived, in whatever order and
      among whatever duplicates and cuts of other passes, the receiver can read on to the
      end of the flight, and what it reads is the flight. */
  lemma FlightArrives(messages: seq<Outgoing>, base: nat, msgs: seq<Message>, maxLen: nat, rs: seq<Record>, events: seq<Event>)
    requires Holds(messages, base, msgs) && FlightOk(base, msgs, maxLen)
    requires Advances(messages, Cursor(0, 0), rs, Cursor(|messages|, 0)) && PassDelivered(rs, events)
    requires Run(base, msgs, maxLen, events)
    ensures var inbox := After(Inbox(base, map[]), maxLen, events);
            && base <= inbox.readSeq <= base + |msgs|
            && Output(base, msgs, maxLen, events) == msgs[..inbox.readSeq - base]
            && (CurrentComplete(inbox) <==> inbox.readSeq < base + |msgs|)
  {
    hide *;
    FlightIsRead(base, msgs, maxLen, events);
    var inbox := After(Inbox(base, map[]), maxLen, events);
    if inbox.readSeq < base + |msgs| {
      PassArrives(messages, base, msgs, rs, events, inbox.readSeq);
    }
  }
}
