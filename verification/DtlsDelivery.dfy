/** Section 4.2.3 of RFC 6347: whatever the network does to the fragments of a flight, the
    messages are read whole and in order. */
module DtlsDelivery {
  import opened InternalKeys
  import opened DtlsFragments
  import opened DtlsReceivers

  datatype Message = Message(typ: nat, body: Data)

  /** The messages of a flight are numbered from base. */
  ghost predicate FlightOk(base: nat, msgs: seq<Message>, maxLen: nat) {
    && |msgs| <= MAX_FLIGHT && base + |msgs| < 0x1_0000
    && forall m :: m in msgs ==> |m.body| <= maxLen
  }

  /** f carries part of one of the messages, cut anywhere. */
  predicate CutFrom(base: nat, msgs: seq<Message>, f: Fragment) {
    && base <= f.num < base + |msgs|
    && var m := msgs[f.num - base];
       f.typ == m.typ && f.msgLen == |m.body|
       && f.off + |f.body| <= |m.body| && f.body == m.body[f.off..f.off + |f.body|]
  }

  /** A fragment arrives, in the clear or in the encrypted epoch; or a message is read. */
  datatype Event = Deliver(f: Fragment, encrypted: bool) | Read

  function Handle(inbox: Inbox, maxLen: nat, e: Event): Inbox {
    match e
    case Deliver(f, encrypted) => AcceptOne(inbox, maxLen, encrypted, f).inbox
    case Read => NextInbox(inbox)
  }

  function After(start: Inbox, maxLen: nat, events: seq<Event>): Inbox {
    if events == [] then start
    else Handle(After(start, maxLen, events[..|events| - 1]), maxLen, events[|events| - 1])
  }

  /** Only fragments of the flight arrive, lost, repeated, overlapping and reordered as may be, in
      whatever epoch each; none has been refused so far; and a message is only read when it is
      complete. */
  ghost predicate Run(base: nat, msgs: seq<Message>, maxLen: nat, events: seq<Event>) {
    events == [] ||
    var before, e := events[..|events| - 1], events[|events| - 1];
    && Run(base, msgs, maxLen, before)
    && match e
       case Deliver(f, encrypted) =>
         CutFrom(base, msgs, f) && AcceptOne(After(Inbox(base, map[]), maxLen, before), maxLen, encrypted, f).alert.None?
       case Read => CurrentComplete(After(Inbox(base, map[]), maxLen, before))
  }

  /** The messages handed out by dtls1_get_message before each dtls1_next_message. */
  ghost function Output(base: nat, msgs: seq<Message>, maxLen: nat, events: seq<Event>): seq<Message>
    requires Run(base, msgs, maxLen, events)
  {
    if events == [] then []
    else
      var before := events[..|events| - 1];
      var inbox := After(Inbox(base, map[]), maxLen, before);
      Output(base, msgs, maxLen, before) +
      if events[|events| - 1].Read? then [Message(inbox.pending[inbox.readSeq].typ, BytesOf(inbox.pending[inbox.readSeq]))]
      else []
  }

  predicate Carries(e: Event, n: nat, i: nat) {
    e.Deliver? && e.f.num == n && e.f.off <= i < e.f.off + |e.f.body|
  }

  /** Byte i of message n has arrived. */
  ghost predicate Covered(events: seq<Event>, n: nat, i: nat) {
    exists e :: e in events && Carries(e, n, i)
  }

  /** Some fragment of message n, maybe empty, has arrived. */
  ghost predicate Touched(events: seq<Event>, n: nat) {
    exists e :: e in events && e.Deliver? && e.f.num == n
  }

  ghost predicate AllArrived(events: seq<Event>, n: nat, m: Message) {
    Touched(events, n) && forall i: nat :: i < |m.body| ==> Covered(events, n, i)
  }

  ghost function Known(m: Message, events: seq<Event>, n: nat): (p: Partial)
    ensures p.typ == m.typ && |p.cells| == |m.body|
  {
    Partial(m.typ, seq(|m.body|, i requires 0 <= i < |m.body| => if Covered(events, n, i) then Some(m.body[i]) else None))
  }

  /** Of every message not yet read the inbox holds just the bytes that have arrived. */
  ghost predicate Faithful(base: nat, msgs: seq<Message>, inbox: Inbox, events: seq<Event>) {
    && base <= inbox.readSeq <= base + |msgs|
    && (forall n :: n in inbox.pending ==> inbox.readSeq <= n < base + |msgs|)
    && (forall n: nat :: inbox.readSeq <= n < base + |msgs| ==>
          && (n in inbox.pending <==> Touched(events, n))
          && (n in inbox.pending ==> inbox.pending[n] == Known(msgs[n - base], events, n)))
  }

  lemma CoveredByMore(events: seq<Event>, e: Event, n: nat, i: nat)
    ensures Covered(events + [e], n, i) <==> Covered(events, n, i) || Carries(e, n, i)
    ensures Touched(events + [e], n) <==> Touched(events, n) || (e.Deliver? && e.f.num == n)
  {
    forall x ensures x in events + [e] <==> x in events || x == e {
    }
  }

  lemma KnownByMore(m: Message, events: seq<Event>, e: Event, n: nat)
    requires !(e.Deliver? && e.f.num == n)
    ensures Known(m, events + [e], n) == Known(m, events, n)
  {
    forall i: nat | i < |m.body| ensures Covered(events + [e], n, i) <==> Covered(events, n, i) {
      CoveredByMore(events, e, n, i);
    }
  }

  /** Overlaying a fragment is learning its bytes; a complete message has nothing to learn. */
  lemma KnownOverlaid(base: nat, msgs: seq<Message>, events: seq<Event>, f: Fragment, encrypted: bool)
    requires CutFrom(base, msgs, f)
    ensures var m := msgs[f.num - base];
            var known := Known(m, events, f.num);
            && Known(m, events + [Deliver(f, encrypted)], f.num) == Overlay(known, f.off, f.body)
            && (Complete(known) ==> Known(m, events + [Deliver(f, encrypted)], f.num) == known)
            && (!Touched(events, f.num) ==> known == Blank(f.typ, f.msgLen))
  {
    var m := msgs[f.num - base];
    var known, after := Known(m, events, f.num), Known(m, events + [Deliver(f, encrypted)], f.num);
    forall i: nat | i < |m.body|
      ensures after.cells[i] == Overlay(known, f.off, f.body).cells[i]
      ensures Complete(known) ==> after.cells[i] == known.cells[i]
      ensures !Touched(events, f.num) ==> known.cells[i].None?
    {
      CoveredByMore(events, Deliver(f, encrypted), f.num, i);
      assert known.cells[i] in known.cells;
    }
  }

  /** A fragment of the flight is refused exactly when it comes in the encrypted epoch and is not of
      the message to be read next. */
  lemma RefusedIff(base: nat, msgs: seq<Message>, maxLen: nat, inbox: Inbox, events: seq<Event>, f: Fragment, encrypted: bool)
    requires FlightOk(base, msgs, maxLen) && Faithful(base, msgs, inbox, events) && CutFrom(base, msgs, f)
    ensures AcceptOne(inbox, maxLen, encrypted, f).alert
         == if encrypted && f.num != inbox.readSeq then Some(UnexpectedMessage) else None
  {
    AcceptCases(inbox, maxLen, encrypted, f);
    assert msgs[f.num - base] in msgs;
    hide AcceptOne, Overlay, Complete, Touched, Blank;
  }

  /** Each one that is not refused keeps the inbox faithful. */
  lemma DeliverKeepsFaithful(base: nat, msgs: seq<Message>, maxLen: nat, inbox: Inbox, events: seq<Event>, f: Fragment, encrypted: bool)
    requires FlightOk(base, msgs, maxLen) && Faithful(base, msgs, inbox, events) && CutFrom(base, msgs, f)
    requires AcceptOne(inbox, maxLen, encrypted, f).alert.None?
    ensures Faithful(base, msgs, AcceptOne(inbox, maxLen, encrypted, f).inbox, events + [Deliver(f, encrypted)])
  {
    var e, after := Deliver(f, encrypted), AcceptOne(inbox, maxLen, encrypted, f).inbox;
    AcceptCases(inbox, maxLen, encrypted, f);
    KnownOverlaid(base, msgs, events, f, encrypted);
    CoveredByMore(events, e, f.num, 0);
    assert msgs[f.num - base] in msgs;
    hide AcceptOne, Known, Overlay, Complete, Touched, Blank;
    forall n: nat | inbox.readSeq <= n < base + |msgs| && n != f.num
      ensures n in after.pending <==> Touched(events + [e], n)
      ensures n in after.pending ==> after.pending[n] == Known(msgs[n - base], events + [e], n)
    {
      CoveredByMore(events, e, n, 0);
      KnownByMore(msgs[n - base], events, e, n);
    }
  }

  lemma ReadKeepsFaithful(base: nat, msgs: seq<Message>, maxLen: nat, inbox: Inbox, events: seq<Event>)
    requires FlightOk(base, msgs, maxLen) && Faithful(base, msgs, inbox, events) && CurrentComplete(inbox)
    ensures Faithful(base, msgs, NextInbox(inbox), events + [Read])
    ensures NextInbox(inbox).readSeq == inbox.readSeq + 1
  {
    var after := NextInbox(inbox);
    hide Touched, Known, Complete;
    forall n: nat | after.readSeq <= n < base + |msgs|
      ensures n in after.pending <==> Touched(events + [Read], n)
      ensures n in after.pending ==> after.pending[n] == Known(msgs[n - base], events + [Read], n)
    {
      CoveredByMore(events, Read, n, 0);
      KnownByMore(msgs[n - base], events, Read, n);
    }
  }

  lemma {:induction false} RunIsFaithful(base: nat, msgs: seq<Message>, maxLen: nat, events: seq<Event>)
    requires FlightOk(base, msgs, maxLen) && Run(base, msgs, maxLen, events)
    ensures Faithful(base, msgs, After(Inbox(base, map[]), maxLen, events), events)
  {
    hide Faithful, FlightOk, AcceptOne, CutFrom;
    if events == [] {
      StartIsFaithful(base, msgs);
    } else {
      var before, e := events[..|events| - 1], events[|events| - 1];
      RunIsFaithful(base, msgs, maxLen, before);
      var inbox := After(Inbox(base, map[]), maxLen, before);
      assert events == before + [e];
      match e
      case Deliver(f, encrypted) => DeliverKeepsFaithful(base, msgs, maxLen, inbox, before, f, encrypted);
      case Read => ReadKeepsFaithful(base, msgs, maxLen, inbox, before);
    }
  }

  lemma StartIsFaithful(base: nat, msgs: seq<Message>)
    ensures Faithful(base, msgs, Inbox(base, map[]), [])
  {
  }

  lemma CompleteIsCovered(m: Message, events: seq<Event>, n: nat)
    ensures Complete(Known(m, events, n)) <==> forall i: nat :: i < |m.body| ==> Covered(events, n, i)
    ensures Complete(Known(m, events, n)) ==> BytesOf(Known(m, events, n)) == m.body
  {
    var p := Known(m, events, n);
    hide Covered;
    forall i: nat | i < |m.body|
      ensures p.cells[i] in p.cells && (p.cells[i].Some? <==> Covered(events, n, i))
    {
    }
    if forall i: nat :: i < |m.body| ==> Covered(events, n, i) {
      forall c | c in p.cells ensures c.Some? {
        var i: nat :| i < |m.body| && p.cells[i] == c;
      }
    }
  }

  /** dtls1_get_message returns the next message of the flight exactly when every byte of
      it has arrived, and then byte for byte. */
  lemma CurrentIsExact(base: nat, msgs: seq<Message>, inbox: Inbox, events: seq<Event>)
    requires Faithful(base, msgs, inbox, events)
    ensures CurrentComplete(inbox)
       <==> inbox.readSeq < base + |msgs| && AllArrived(events, inbox.readSeq, msgs[inbox.readSeq - base])
    ensures CurrentComplete(inbox) ==>
      var p, m := inbox.pending[inbox.readSeq], msgs[inbox.readSeq - base];
      p.typ == m.typ && BytesOf(p) == m.body
  {
    if inbox.readSeq < base + |msgs| {
      CompleteIsCovered(msgs[inbox.readSeq - base], events, inbox.readSeq);
      hide Complete, Known, Touched, Covered;
    }
  }

  /** Over every run, the next fragment of the flight ends the run with an alert exactly when it
      comes in the encrypted epoch and is not of the next message. */
  lemma RunGoesOnIff(base: nat, msgs: seq<Message>, maxLen: nat, events: seq<Event>, f: Fragment, encrypted: bool)
    requires FlightOk(base, msgs, maxLen) && Run(base, msgs, maxLen, events) && CutFrom(base, msgs, f)
    ensures Run(base, msgs, maxLen, events + [Deliver(f, encrypted)])
       <==> !encrypted || f.num == After(Inbox(base, map[]), maxLen, events).readSeq
  {
    var more := events + [Deliver(f, encrypted)];
    assert more[..|more| - 1] == events;
    RunIsFaithful(base, msgs, maxLen, events);
    RefusedIff(base, msgs, maxLen, After(Inbox(base, map[]), maxLen, events), events, f, encrypted);
    hide AcceptOne, CutFrom, Faithful, FlightOk, After;
  }

  /** Section 4.2.3 of RFC 6347, over every run: the messages read are the first messages
      of the flight, byte for byte and in order, and the next one can be read exactly when
      all of it has arrived. */
  lemma {:induction false} FlightIsRead(base: nat, msgs: seq<Message>, maxLen: nat, events: seq<Event>)
    requires FlightOk(base, msgs, maxLen) && Run(base, msgs, maxLen, events)
    ensures var inbox := After(Inbox(base, map[]), maxLen, events);
            && base <= inbox.readSeq <= base + |msgs|
            && Output(base, msgs, maxLen, events) == msgs[..inbox.readSeq - base]
            && (CurrentComplete(inbox)
                <==> inbox.readSeq < base + |msgs| && AllArrived(events, inbox.readSeq, msgs[inbox.readSeq - base]))
  {
    RunIsFaithful(base, msgs, maxLen, events);
    CurrentIsExact(base, msgs, After(Inbox(base, map[]), maxLen, events), events);
    OutputIsPrefix(base, msgs, maxLen, events);
  }

  lemma {:induction false} OutputIsPrefix(base: nat, msgs: seq<Message>, maxLen: nat, events: seq<Event>)
    requires FlightOk(base, msgs, maxLen) && Run(base, msgs, maxLen, events)
    ensures base <= After(Inbox(base, map[]), maxLen, events).readSeq <= base + |msgs|
    ensures Output(base, msgs, maxLen, events) == msgs[..After(Inbox(base, map[]), maxLen, events).readSeq - base]
  {
    RunIsFaithful(base, msgs, maxLen, events);
    if events != [] {
      var before, e := events[..|events| - 1], events[|events| - 1];
      var inbox := After(Inbox(base, map[]), maxLen, before);
      OutputIsPrefix(base, msgs, maxLen, before);
      RunIsFaithful(base, msgs, maxLen, before);
      if e.Read? {
        CurrentIsExact(base, msgs, inbox, before);
        ReadKeepsFaithful(base, msgs, maxLen, inbox, before);
        var k := inbox.readSeq - base;
        assert msgs[..k + 1] == msgs[..k] + [msgs[k]];
        hide *;
      } else {
        hide Faithful, FlightOk, Complete;
        AcceptCases(inbox, maxLen, e.encrypted, e.f);
      }
    }
  }

  /** The window check of dtls1_open_handshake lets one number too many through: a fragment
      is answered with a fatal internal error exactly when it belongs to the message right
      behind the window, though one further on is ignored. */
  lemma WindowEdge(inbox: Inbox, maxLen: nat, f: Fragment)
    requires WellFormed(f, maxLen)
    ensures AcceptOne(inbox, maxLen, false, f).alert == Some(InternalError) <==> f.num == inbox.readSeq + MAX_FLIGHT
    ensures f.num > inbox.readSeq + MAX_FLIGHT ==> AcceptOne(inbox, maxLen, false, f) == Outcome(inbox, None)
  {
  }
}
