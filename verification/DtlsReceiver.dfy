/** d1_both.cc: the receiving side. The ring of slots behaves as a map from sequence
    numbers to messages being put together. */
module DtlsReceivers {
  import opened InternalKeys
  import opened DtlsFragments

  /** SSL_MAX_HANDSHAKE_FLIGHT */
  const MAX_FLIGHT: nat := 7

  datatype Alert = DecodeError | IllegalParameter | UnexpectedMessage | InternalError

  /** What a receiver knows: the next message to read and what has come in of it and of
      the messages behind it. */
  datatype Inbox = Inbox(readSeq: nat, pending: map<nat, Partial>)

  datatype Outcome = Outcome(inbox: Inbox, alert: Option<Alert>)

  predicate WellFormed(f: Fragment, maxLen: nat) {
    f.off + |f.body| <= f.msgLen <= maxLen
  }

  function KnownMessage(inbox: Inbox, f: Fragment): Partial {
    if f.num in inbox.pending then inbox.pending[f.num] else Blank(f.typ, f.msgLen)
  }

  predicate Mismatch(known: Partial, f: Fragment) {
    known.typ != f.typ || |known.cells| != f.msgLen
  }

  /** One fragment. */
  function AcceptOne(inbox: Inbox, maxLen: nat, encrypted: bool, f: Fragment): Outcome {
    if !WellFormed(f, maxLen) then Outcome(inbox, Some(IllegalParameter))
    else if encrypted && f.num != inbox.readSeq then Outcome(inbox, Some(UnexpectedMessage))
    else if f.num < inbox.readSeq || f.num > inbox.readSeq + MAX_FLIGHT then Outcome(inbox, None)
    else if f.num == inbox.readSeq + MAX_FLIGHT then Outcome(inbox, Some(InternalError))
    else
      var known := KnownMessage(inbox, f);
      if Mismatch(known, f) then Outcome(inbox, Some(IllegalParameter))
      else if Complete(known) then Outcome(inbox.(pending := inbox.pending[f.num := known]), None)
      else Outcome(inbox.(pending := inbox.pending[f.num := Overlay(known, f.off, f.body)]), None)
  }

  lemma PutTwice<K, V>(m: map<K, V>, k: K, v: V, w: V)
    ensures m[k := v][k := w] == m[k := w]
  {
  }

  lemma NoMismatch(known: Partial, f: Fragment)
    requires !Mismatch(known, f)
    ensures |known.cells| == f.msgLen
  {
  }

  lemma AcceptCases(inbox: Inbox, maxLen: nat, encrypted: bool, f: Fragment)
    ensures var r := AcceptOne(inbox, maxLen, encrypted, f);
            var known := KnownMessage(inbox, f);
            if f.off > f.msgLen || f.off + |f.body| > f.msgLen || f.msgLen > maxLen then r == Outcome(inbox, Some(IllegalParameter))
            else if encrypted && f.num != inbox.readSeq then r == Outcome(inbox, Some(UnexpectedMessage))
            else if f.num < inbox.readSeq || f.num > inbox.readSeq + MAX_FLIGHT then r == Outcome(inbox, None)
            else if f.num == inbox.readSeq + MAX_FLIGHT then r == Outcome(inbox, Some(InternalError))
            else if Mismatch(known, f) then r == Outcome(inbox, Some(IllegalParameter))
            else && |known.cells| == f.msgLen
                 && r == Outcome(Inbox(inbox.readSeq, inbox.pending[f.num := if Complete(known) then known else Overlay(known, f.off, f.body)]), None)
  {
  }

  /** The fragments of a record, up to the first one that is refused. */
  function AcceptRecord(inbox: Inbox, maxLen: nat, encrypted: bool, record: Data): Outcome
    decreases |record|
  {
    if record == [] then Outcome(inbox, None)
    else match ParseFragment(record)
         case None => Outcome(inbox, Some(DecodeError))
         case Some((f, rest)) =>
           var first := AcceptOne(inbox, maxLen, encrypted, f);
           if first.alert.Some? then first else AcceptRecord(first.inbox, maxLen, encrypted, rest)
  }

  predicate CurrentComplete(inbox: Inbox) {
    inbox.readSeq in inbox.pending && Complete(inbox.pending[inbox.readSeq])
  }

  /** handshake_read_seq has 16 bits. */
  function Next16(n: nat): nat {
    (n + 1) % 0x1_0000
  }

  function NextInbox(inbox: Inbox): Inbox {
    Inbox(Next16(inbox.readSeq), inbox.pending - {inbox.readSeq})
  }

  datatype RecordType = ApplicationData | ChangeCipherSpec | Handshake | Other

  datatype OpenResult = Success | Discard | Refused(alert: Alert)

  function BytesOf(p: Partial): Data
    requires Complete(p)
  {
    seq(|p.cells|, i requires 0 <= i < |p.cells| => (assert p.cells[i] in p.cells; p.cells[i].value))
  }

  // ---------- the ring ----------

  datatype Slot = Empty | Held(num: nat, message: Partial)

  /** Message n can only be in slot n % MAX_FLIGHT, and only while it is in the window. */
  predicate RingOk(readSeq: nat, slots: seq<Slot>) {
    && readSeq < 0x1_0000 && |slots| == MAX_FLIGHT
    && forall i: nat :: i < MAX_FLIGHT ==> SlotOk(readSeq, slots[i], i)
  }

  predicate SlotOk(readSeq: nat, slot: Slot, i: nat) {
    slot.Held? ==> slot.num % MAX_FLIGHT == i && readSeq <= slot.num < readSeq + MAX_FLIGHT && slot.num < 0x1_0000
  }

  function AsInbox(readSeq: nat, slots: seq<Slot>): Inbox
    requires |slots| == MAX_FLIGHT
  {
    Inbox(readSeq, map n: nat | readSeq <= n < readSeq + MAX_FLIGHT && slots[n % MAX_FLIGHT].Held? :: slots[n % MAX_FLIGHT].message)
  }

  lemma SameSlotSameMessage(readSeq: nat, m: nat, n: nat)
    requires readSeq <= m < readSeq + MAX_FLIGHT && readSeq <= n < readSeq + MAX_FLIGHT
    requires m % MAX_FLIGHT == n % MAX_FLIGHT
    ensures m == n
  {
  }

  /** The slot of a message in the window is empty or holds that message. */
  lemma SlotOfMessage(readSeq: nat, slots: seq<Slot>, n: nat)
    requires RingOk(readSeq, slots) && readSeq <= n < readSeq + MAX_FLIGHT
    ensures slots[n % MAX_FLIGHT].Held? ==> slots[n % MAX_FLIGHT].num == n
  {
    assert SlotOk(readSeq, slots[n % MAX_FLIGHT], n % MAX_FLIGHT);
  }

  lemma KnownIsInSlot(readSeq: nat, slots: seq<Slot>, f: Fragment)
    requires |slots| == MAX_FLIGHT && readSeq <= f.num < readSeq + MAX_FLIGHT
    ensures KnownMessage(AsInbox(readSeq, slots), f)
         == if slots[f.num % MAX_FLIGHT].Held? then slots[f.num % MAX_FLIGHT].message else Blank(f.typ, f.msgLen)
  {
  }

  /** Writing a message into its slot writes it into the inbox. */
  lemma PutIntoSlot(readSeq: nat, slots: seq<Slot>, n: nat, p: Partial)
    requires RingOk(readSeq, slots) && readSeq <= n < readSeq + MAX_FLIGHT && n < 0x1_0000
    ensures RingOk(readSeq, slots[n % MAX_FLIGHT := Held(n, p)])
    ensures AsInbox(readSeq, slots[n % MAX_FLIGHT := Held(n, p)])
         == Inbox(readSeq, AsInbox(readSeq, slots).pending[n := p])
  {
    var after := slots[n % MAX_FLIGHT := Held(n, p)];
    forall i: nat | i < MAX_FLIGHT ensures SlotOk(readSeq, after[i], i) {
      assert SlotOk(readSeq, slots[i], i);
    }
    forall m: nat | readSeq <= m < readSeq + MAX_FLIGHT && m != n ensures after[m % MAX_FLIGHT] == slots[m % MAX_FLIGHT] {
      if m % MAX_FLIGHT == n % MAX_FLIGHT {
        SameSlotSameMessage(readSeq, m, n);
      }
    }
  }

  lemma AdvancedRingOk(readSeq: nat, slots: seq<Slot>)
    requires RingOk(readSeq, slots)
    ensures RingOk(Next16(readSeq), slots[readSeq % MAX_FLIGHT := Empty])
  {
    var next, after := Next16(readSeq), slots[readSeq % MAX_FLIGHT := Empty];
    forall i: nat | i < MAX_FLIGHT ensures SlotOk(next, after[i], i) {
      assert SlotOk(readSeq, slots[i], i);
    }
  }

  lemma OthersKeepSlots(readSeq: nat, slots: seq<Slot>)
    requires |slots| == MAX_FLIGHT
    ensures forall m: nat :: readSeq < m < readSeq + MAX_FLIGHT ==>
              slots[readSeq % MAX_FLIGHT := Empty][m % MAX_FLIGHT] == slots[m % MAX_FLIGHT]
    ensures slots[readSeq % MAX_FLIGHT := Empty][(readSeq + MAX_FLIGHT) % MAX_FLIGHT] == Empty
  {
    forall m: nat | readSeq < m < readSeq + MAX_FLIGHT
      ensures slots[readSeq % MAX_FLIGHT := Empty][m % MAX_FLIGHT] == slots[m % MAX_FLIGHT]
    {
      if m % MAX_FLIGHT == readSeq % MAX_FLIGHT {
        SameSlotSameMessage(readSeq, m, readSeq);
      }
    }
  }

  lemma AdvancedInbox(readSeq: nat, slots: seq<Slot>)
    requires |slots| == MAX_FLIGHT && readSeq < 0xFFFF
    ensures AsInbox(readSeq + 1, slots[readSeq % MAX_FLIGHT := Empty]) == NextInbox(AsInbox(readSeq, slots))
  {
    OthersKeepSlots(readSeq, slots);
    var before, after := AsInbox(readSeq, slots), AsInbox(readSeq + 1, slots[readSeq % MAX_FLIGHT := Empty]);
    forall m: nat
      ensures m in after.pending <==> m in before.pending && m != readSeq
      ensures m in after.pending ==> after.pending[m] == before.pending[m]
    {
      if m < readSeq + MAX_FLIGHT {
      } else if m == readSeq + MAX_FLIGHT {
      }
    }
    assert after.pending == before.pending - {readSeq};
  }

  /** Emptying the slot of the message just read moves the window on, also where the
      16-bit number starts over: then nothing is left in any slot. */
  lemma AdvanceRing(readSeq: nat, slots: seq<Slot>)
    requires RingOk(readSeq, slots)
    ensures RingOk(Next16(readSeq), slots[readSeq % MAX_FLIGHT := Empty])
    ensures AsInbox(Next16(readSeq), slots[readSeq % MAX_FLIGHT := Empty]) == NextInbox(AsInbox(readSeq, slots))
  {
    AdvancedRingOk(readSeq, slots);
    if readSeq < 0xFFFF {
      AdvancedInbox(readSeq, slots);
    } else {
      WrappedIsEmpty(slots, slots[readSeq % MAX_FLIGHT := Empty]);
      assert AsInbox(0, slots[readSeq % MAX_FLIGHT := Empty]).pending == NextInbox(AsInbox(readSeq, slots)).pending;
    }
  }

  lemma WrappedIsEmpty(slots: seq<Slot>, after: seq<Slot>)
    requires RingOk(0xFFFF, slots) && after == slots[0xFFFF % MAX_FLIGHT := Empty]
    ensures forall i: nat :: i < MAX_FLIGHT ==> after[i] == Empty
    ensures AsInbox(0xFFFF, slots).pending.Keys <= {0xFFFF}
  {
    forall i: nat | i < MAX_FLIGHT ensures slots[i].Held? ==> slots[i].num == 0xFFFF && i == 0xFFFF % MAX_FLIGHT {
      assert SlotOk(0xFFFF, slots[i], i);
    }
    forall n | n in AsInbox(0xFFFF, slots).pending ensures n == 0xFFFF {
      SlotOfMessage(0xFFFF, slots, n);
    }
  }

  ghost function Parts(f: HmFragment): set<object>
    reads f
  {
    {f, f.data} + (if f.reassembly == null then {} else {f.reassembly})
  }

  class Receiver {
    const maxLen: nat
    /** r_epoch == 1 */
    var encrypted: bool
    var readSeq: nat
    var hasMessage: bool
    var hasChangeCipherSpec: bool
    const incoming: array<HmFragment?>
    ghost var Repr: set<object>

    ghost predicate Owned(i: nat)
      requires i < incoming.Length
      reads this`Repr, incoming, Repr
    {
      incoming[i] != null ==> incoming[i] in Repr && Parts(incoming[i]) <= Repr && incoming[i].Valid()
    }

    ghost predicate Apart(i: nat, j: nat)
      requires i < incoming.Length && j < incoming.Length
      reads this`Repr, incoming, Repr
    {
      incoming[i] != null && incoming[j] != null ==>
        incoming[i] in Repr && incoming[j] in Repr && Parts(incoming[i]) !! Parts(incoming[j])
    }

    ghost predicate Structure()
      reads this`Repr, incoming, Repr
    {
      && incoming.Length == MAX_FLIGHT && this !in Repr && incoming !in Repr
      && (forall i: nat :: i < MAX_FLIGHT ==> Owned(i))
      && (forall i: nat, j: nat :: i < MAX_FLIGHT && j < MAX_FLIGHT && i != j ==> Apart(i, j))
    }

    ghost function SlotAt(i: nat): Slot
      requires i < incoming.Length && Owned(i)
      reads this`Repr, incoming, Repr
    {
      if incoming[i] == null then Empty else Held(incoming[i].num, incoming[i].View())
    }

    ghost function Slots(): (r: seq<Slot>)
      requires Structure()
      reads this`Repr, incoming, Repr
      ensures |r| == MAX_FLIGHT && forall i: nat :: i < MAX_FLIGHT ==> r[i] == SlotAt(i)
    {
      [SlotAt(0), SlotAt(1), SlotAt(2), SlotAt(3), SlotAt(4), SlotAt(5), SlotAt(6)]
    }

    ghost predicate Valid()
      reads this`Repr, this`readSeq, incoming, Repr
    {
      Structure() && RingOk(readSeq, Slots())
    }

    ghost function View(): Inbox
      requires Valid()
      reads this`Repr, this`readSeq, incoming, Repr
    {
      AsInbox(readSeq, Slots())
    }

    constructor (maxLen: nat, encrypted: bool, readSeq: nat)
      requires readSeq < 0x1_0000
      ensures Valid() && View() == Inbox(readSeq, map[]) && !hasMessage
      ensures this.maxLen == maxLen && this.encrypted == encrypted
      ensures fresh(incoming) && fresh(Repr)
    {
      this.maxLen, this.encrypted, this.readSeq := maxLen, encrypted, readSeq;
      hasMessage, hasChangeCipherSpec := false, false;
      incoming := new HmFragment?[MAX_FLIGHT](_ => null);
      Repr := {};
    }

    /** Puts a new, blank message into an empty slot. */
    method NewFragment(f: Fragment) returns (frag: HmFragment)
      requires Structure() && Fits(f) && incoming[f.num % MAX_FLIGHT] == null
      modifies this`Repr, incoming
      ensures Structure() && fresh(Repr - old(Repr)) && old(Repr) <= Repr
      ensures frag == incoming[f.num % MAX_FLIGHT]
      ensures Slots() == old(Slots())[f.num % MAX_FLIGHT := Held(f.num, Blank(f.typ, f.msgLen))]
    {
      var idx := f.num % MAX_FLIGHT;
      frag := new HmFragment(f.typ, f.num, f.msgLen);
      incoming[idx] := frag;
      Repr := Repr + Parts(frag);
      forall i: nat | i < MAX_FLIGHT && i != idx
        ensures Owned(i) && SlotAt(i) == old(SlotAt(i)) && Apart(i, idx) && Apart(idx, i)
      {
        assert old(Owned(i));
      }
      forall i: nat, j: nat | i < MAX_FLIGHT && j < MAX_FLIGHT && i != j ensures Apart(i, j) {
        assert old(Apart(i, j));
      }
    }

    /** Copies part of a message into its slot. */
    method ReceiveAt(idx: nat, off: nat, body: Data)
      requires Structure() && idx < MAX_FLIGHT && incoming[idx] != null && incoming[idx].reassembly != null
      requires off + |body| <= incoming[idx].msgLen
      modifies Repr
      ensures Structure()
      ensures Slots() == old(Slots())[idx := Held(incoming[idx].num, Overlay(old(Slots())[idx].message, off, body))]
    {
      assert Owned(idx);
      incoming[idx].Receive(off, body);
      forall i: nat | i < MAX_FLIGHT && i != idx
        ensures Owned(i) && SlotAt(i) == old(SlotAt(i)) && Apart(i, idx) && Apart(idx, i)
      {
        assert old(Owned(i)) && old(Apart(i, idx)) && old(Apart(idx, i));
      }
      forall i: nat, j: nat | i < MAX_FLIGHT && j < MAX_FLIGHT && i != j ensures Apart(i, j) {
        assert old(Apart(i, j));
      }
    }

    /** dtls1_get_incoming_message */
    method GetIncomingMessage(f: Fragment) returns (frag: HmFragment?, alert: Option<Alert>)
      requires Valid() && Fits(f)
      modifies this`Repr, incoming
      ensures Valid() && fresh(Repr - old(Repr))
      ensures frag == null <==> alert.Some?
      ensures f.num < readSeq || f.num >= readSeq + MAX_FLIGHT ==>
        alert == Some(InternalError) && View() == old(View())
      ensures readSeq <= f.num < readSeq + MAX_FLIGHT ==>
        var known := KnownMessage(old(View()), f);
        if Mismatch(known, f)
        then alert == Some(IllegalParameter) && View() == old(View())
        else && frag != null && frag == incoming[f.num % MAX_FLIGHT]
             && Slots()[f.num % MAX_FLIGHT] == Held(f.num, known)
             && View() == Inbox(readSeq, old(View()).pending[f.num := known])
    {
      if f.num < readSeq || f.num - readSeq >= MAX_FLIGHT {
        return null, Some(InternalError);
      }
      var idx := f.num % MAX_FLIGHT;
      SlotOfMessage(readSeq, Slots(), f.num);
      ghost var slots := Slots();
      assert Owned(idx) && slots[idx] == SlotAt(idx);
      hide RingOk, AsInbox, Structure;
      frag := incoming[idx];
      KnownIsInSlot(readSeq, slots, f);
      PutIntoSlot(readSeq, slots, f.num, KnownMessage(View(), f));
      if frag == null {
        frag := NewFragment(f);
        return frag, None;
      }
      if frag.typ != f.typ || frag.msgLen != f.msgLen {
        return null, Some(IllegalParameter);
      }
      assert slots == slots[idx := Held(f.num, KnownMessage(View(), f))];
      alert := None;
    }

    /** The end of a turn: the message's slot is filled in unless it is complete. */
    method StoreFragment(frag: HmFragment, f: Fragment, ghost known: Partial)
      requires Valid() && readSeq <= f.num < readSeq + MAX_FLIGHT && f.num < 0x1_0000
      requires frag == incoming[f.num % MAX_FLIGHT] && Slots()[f.num % MAX_FLIGHT] == Held(f.num, known)
      requires f.off + |f.body| <= |known.cells|
      modifies Repr
      ensures Valid() && Repr == old(Repr) && encrypted == old(encrypted)
      ensures View() == if Complete(known) then old(View())
                        else Inbox(readSeq, old(View()).pending[f.num := Overlay(known, f.off, f.body)])
    {
      var idx := f.num % MAX_FLIGHT;
      ghost var slots := Slots();
      assert Owned(idx) && slots[idx] == SlotAt(idx);
      hide RingOk, AsInbox, Complete, Owned, Apart;
      if frag.reassembly != null {
        ReceiveAt(idx, f.off, f.body);
        PutIntoSlot(readSeq, slots, f.num, Overlay(known, f.off, f.body));
      }
    }

    /** One turn of the loop in dtls1_open_handshake. */
    method AcceptFragment(f: Fragment) returns (alert: Option<Alert>)
      requires Valid() && Fits(f)
      modifies this`Repr, incoming, Repr
      ensures Valid() && fresh(Repr - old(Repr))
      ensures Outcome(View(), alert) == AcceptOne(old(View()), maxLen, encrypted, f)
    {
      ghost var inbox := View();
      assert inbox.readSeq == readSeq && f.num < 0x1_0000;
      hide *;
      if f.off > f.msgLen || f.off + |f.body| > f.msgLen || f.msgLen > maxLen {
        alert := Some(IllegalParameter);
      } else if encrypted && f.num != readSeq {
        alert := Some(UnexpectedMessage);
      } else if f.num < readSeq || f.num > readSeq + MAX_FLIGHT {
        alert := None;
      } else {
        ghost var known := KnownMessage(inbox, f);
        var frag;
        frag, alert := GetIncomingMessage(f);
        if frag != null {
          NoMismatch(known, f);
          PutTwice(inbox.pending, f.num, known, Overlay(known, f.off, f.body));
          StoreFragment(frag, f, known);
        }
      }
      AcceptCases(inbox, maxLen, encrypted, f);
    }

    /** dtls1_open_handshake on the record the record layer delivered. */
    method OpenHandshake(typ: RecordType, record: Data, nullCipher: bool) returns (result: OpenResult)
      requires Valid()
      modifies this`Repr, this`hasChangeCipherSpec, incoming, Repr
      ensures Valid() && fresh(Repr - old(Repr))
      ensures typ != Handshake ==> View() == old(View())
      ensures typ != Handshake ==> (result == Success <==> typ == ChangeCipherSpec && nullCipher && record == [1])
      ensures typ != Handshake ==> (result == Discard <==> typ == ApplicationData && !nullCipher)
      ensures typ == ChangeCipherSpec && nullCipher && record != [1] ==> result == Refused(IllegalParameter)
      ensures typ == Other || (typ == ApplicationData && nullCipher) || (typ == ChangeCipherSpec && !nullCipher) ==>
                result == Refused(UnexpectedMessage)
      ensures typ == Handshake ==>
        var outcome := AcceptRecord(old(View()), maxLen, encrypted, record);
        View() == outcome.inbox && result == if outcome.alert.Some? then Refused(outcome.alert.value) else Success
      ensures hasChangeCipherSpec <==>
        old(hasChangeCipherSpec) || (typ == ChangeCipherSpec && nullCipher && record == [1])
    {
      match typ {
        case ApplicationData =>
          return if nullCipher then Refused(UnexpectedMessage) else Discard;
        case ChangeCipherSpec =>
          if !nullCipher {
            return Refused(UnexpectedMessage);
          }
          if record != [1] {
            return Refused(IllegalParameter);
          }
          hasChangeCipherSpec := true;
          return Success;
        case Other =>
          return Refused(UnexpectedMessage);
        case Handshake =>
      }
      hide AcceptOne, ParseFragment, Owned, Apart, RingOk, AsInbox;
      ghost var total := AcceptRecord(View(), maxLen, encrypted, record);
      var cbs := record;
      while cbs != []
        invariant Valid() && fresh(Repr - old(Repr)) && hasChangeCipherSpec == old(hasChangeCipherSpec)
        invariant AcceptRecord(View(), maxLen, encrypted, cbs) == total
        decreases |cbs|
      {
        var parsed := ParseFragment(cbs);
        if parsed.None? {
          return Refused(DecodeError);
        }
        ParsedIsSerialized(cbs);
        var (f, rest) := parsed.value;
        var alert := AcceptFragment(f);
        if alert.Some? {
          return Refused(alert.value);
        }
        cbs := rest;
      }
      result := Success;
    }

    /** dtls1_get_message: type, body and the whole message with its header. */
    method GetMessage() returns (message: Option<(nat, Data, Data)>)
      requires Valid()
      modifies this`hasMessage
      ensures Valid() && View() == old(View())
      ensures hasMessage <==> old(hasMessage) || message.Some?
      ensures message.Some? <==> CurrentComplete(View())
      ensures message.Some? ==>
        var p := View().pending[readSeq];
        && message.value.0 == p.typ && message.value.1 == BytesOf(p)
        && p.typ < 0x100 && |p.cells| < 0x100_0000
        && message.value.2 == Serialize(Fragment(p.typ, |p.cells|, readSeq, 0, BytesOf(p)))
    {
      var idx := readSeq % MAX_FLIGHT;
      assert Owned(idx) && Slots()[idx] == SlotAt(idx);
      hide Structure, RingOk;
      SlotOfMessage(readSeq, Slots(), readSeq);
      var frag := incoming[idx];
      if frag == null || frag.reassembly != null {
        return None;
      }
      var body := frag.data[HEADER_LENGTH..];
      assert body == BytesOf(frag.View());
      hasMessage := true;
      assert frag.data[..] == frag.data[..HEADER_LENGTH] + body;
      message := Some((frag.typ, body, frag.data[..]));
    }

    method ClearSlot(idx: nat)
      requires Structure() && idx < MAX_FLIGHT
      modifies incoming
      ensures Structure() && Slots() == old(Slots())[idx := Empty]
    {
      incoming[idx] := null;
      forall i: nat | i < MAX_FLIGHT && i != idx ensures Owned(i) && SlotAt(i) == old(SlotAt(i)) {
        assert old(Owned(i));
      }
      forall i: nat, j: nat | i < MAX_FLIGHT && j < MAX_FLIGHT && i != j ensures Apart(i, j) {
        assert old(Apart(i, j));
      }
    }

    lemma RingIsView()
      ensures Valid() <==> Structure() && RingOk(readSeq, Slots())
      ensures Valid() ==> View() == AsInbox(readSeq, Slots())
    {
      hide Structure, RingOk, AsInbox;
    }

    /** dtls1_next_message */
    method NextMessage()
      requires Valid() && hasMessage && CurrentComplete(View())
      modifies this`readSeq, this`hasMessage, incoming
      ensures Valid() && View() == NextInbox(old(View())) && !hasMessage
    {
      RingIsView();
      var idx := readSeq % MAX_FLIGHT;
      hide *;
      AdvanceRing(readSeq, Slots());
      ClearSlot(idx);
      readSeq := Next16(readSeq);
      hasMessage := false;
      RingIsView();
    }
  }
}
