/** d1_both.cc against any sender at all: whatever fragments come, forged, contradictory or from
    other flights, a message that is read is put together from fragments that agree on what it is. */
module DtlsIntegrity {
  import opened InternalKeys
  import opened DtlsFragments
  import opened DtlsReceivers
  import opened DtlsDelivery

  /** Any fragments whatever, none refused so far, since a refusal ends the connection. */
  ghost predicate AnyRun(start: Inbox, maxLen: nat, events: seq<Event>) {
    events == [] ||
    var before, e := events[..|events| - 1], events[|events| - 1];
    && AnyRun(start, maxLen, before)
    && match e
       case Deliver(f, encrypted) => AcceptOne(After(start, maxLen, before), maxLen, encrypted, f).alert.None?
       case Read => CurrentComplete(After(start, maxLen, before))
  }

  predicate InWindow(inbox: Inbox, f: Fragment) {
    inbox.readSeq <= f.num < inbox.readSeq + MAX_FLIGHT
  }

  /** The fragments that came for messages that have not been read yet, when these were in the window. */
  ghost function Taken(start: Inbox, maxLen: nat, events: seq<Event>): set<Fragment> {
    if events == [] then {}
    else
      var before, e := events[..|events| - 1], events[|events| - 1];
      var inbox, taken := After(start, maxLen, before), Taken(start, maxLen, before);
      match e
      case Deliver(f, _) => if InWindow(inbox, f) then taken + {f} else taken
      case Read => set f | f in taken && f.num != inbox.readSeq
  }

  predicate Brings(f: Fragment, n: nat, i: nat, b: Byte) {
    f.num == n && f.off <= i < f.off + |f.body| && f.body[i - f.off] == b
  }

  /** Every fragment taken fits the message it is for, every byte known came in one of them, and no
      byte that came is missing. */
  ghost predicate Honest(inbox: Inbox, maxLen: nat, taken: set<Fragment>) {
    && (forall f :: f in taken ==> f.num in inbox.pending && AgreesWith(inbox.pending[f.num], f))
    && (forall n :: n in inbox.pending ==> KnownFrom(inbox.pending[n], n, taken) && |inbox.pending[n].cells| <= maxLen)
  }

  ghost predicate AgreesWith(p: Partial, f: Fragment) {
    && f.typ == p.typ && f.msgLen == |p.cells| && f.off + |f.body| <= |p.cells|
    && forall i: nat :: f.off <= i < f.off + |f.body| ==> p.cells[i].Some?
  }

  ghost predicate KnownFrom(p: Partial, n: nat, taken: set<Fragment>) {
    && (exists f :: f in taken && f.num == n)
    && forall i: nat :: i < |p.cells| && p.cells[i].Some? ==> exists f :: f in taken && Brings(f, n, i, p.cells[i].value)
  }

  lemma {:induction false} MoreTaken(p: Partial, n: nat, taken: set<Fragment>, f: Fragment)
    requires KnownFrom(p, n, taken)
    ensures KnownFrom(p, n, taken + {f})
  {
    forall i: nat | i < |p.cells| && p.cells[i].Some? ensures exists g :: g in taken + {f} && Brings(g, n, i, p.cells[i].value) {
      var g :| g in taken && Brings(g, n, i, p.cells[i].value);
      assert g in taken + {f};
    }
    var g :| g in taken && g.num == n;
    assert g in taken + {f};
  }

  /** Overlaying a fragment that fits: its bytes are known from it, the others as before. */
  lemma {:induction false} OverlaidIsKnown(p: Partial, f: Fragment, taken: set<Fragment>)
    requires f.off + |f.body| <= |p.cells| && (KnownFrom(p, f.num, taken) || p == Blank(f.typ, f.msgLen))
    ensures KnownFrom(Overlay(p, f.off, f.body), f.num, taken + {f})
  {
    var after := Overlay(p, f.off, f.body);
    assert f in taken + {f};
    forall i: nat | i < |after.cells| && after.cells[i].Some?
      ensures exists g :: g in taken + {f} && Brings(g, f.num, i, after.cells[i].value)
    {
      if f.off <= i < f.off + |f.body| {
        assert Brings(f, f.num, i, after.cells[i].value);
      } else {
        assert p.cells[i] == after.cells[i];
        var g :| g in taken && Brings(g, f.num, i, p.cells[i].value);
        assert g in taken + {f};
      }
    }
  }

  lemma {:induction false} StillAgrees(p: Partial, g: Fragment, off: nat, body: Data)
    requires AgreesWith(p, g) && off + |body| <= |p.cells|
    ensures AgreesWith(Overlay(p, off, body), g)
  {
  }

  lemma {:induction false} CompleteAgrees(p: Partial, f: Fragment)
    requires !Mismatch(p, f) && f.off + |f.body| <= f.msgLen
    ensures Complete(p) ==> AgreesWith(p, f)
    ensures AgreesWith(Overlay(p, f.off, f.body), f)
  {
    if Complete(p) {
      forall i: nat | f.off <= i < f.off + |f.body| ensures p.cells[i].Some? {
        assert p.cells[i] in p.cells;
      }
    }
  }

  /** A fragment that is not refused keeps the inbox honest. */
  lemma {:induction false} DeliverKeepsHonest(inbox: Inbox, maxLen: nat, encrypted: bool, f: Fragment, taken: set<Fragment>)
    requires Honest(inbox, maxLen, taken) && AcceptOne(inbox, maxLen, encrypted, f).alert.None?
    ensures Honest(AcceptOne(inbox, maxLen, encrypted, f).inbox, maxLen, if InWindow(inbox, f) then taken + {f} else taken)
  {
    AcceptCases(inbox, maxLen, encrypted, f);
    var after := AcceptOne(inbox, maxLen, encrypted, f).inbox;
    if InWindow(inbox, f) {
      var known := KnownMessage(inbox, f);
      var q := if Complete(known) then known else Overlay(known, f.off, f.body);
      assert !Mismatch(known, f) && after == Inbox(inbox.readSeq, inbox.pending[f.num := q]);
      CompleteAgrees(known, f);
      hide AcceptOne, Complete, Overlay, Mismatch, Blank;
      forall g | g in taken + {f} ensures g.num in after.pending && AgreesWith(after.pending[g.num], g) {
        if g in taken && g.num == f.num {
          StillAgrees(known, g, f.off, f.body);
        }
      }
      forall n | n in after.pending ensures KnownFrom(after.pending[n], n, taken + {f}) && |after.pending[n].cells| <= maxLen {
        if n != f.num {
          MoreTaken(inbox.pending[n], n, taken, f);
        } else {
          QIsKnown(inbox, maxLen, f, taken);
          OverlaySize(known, f);
        }
      }
    }
  }

  lemma {:induction false} OverlaySize(p: Partial, f: Fragment)
    requires f.off + |f.body| <= |p.cells|
    ensures |Overlay(p, f.off, f.body).cells| == |p.cells|
  {
  }

  lemma {:induction false} QIsKnown(inbox: Inbox, maxLen: nat, f: Fragment, taken: set<Fragment>)
    requires Honest(inbox, maxLen, taken) && !Mismatch(KnownMessage(inbox, f), f) && f.off + |f.body| <= f.msgLen
    ensures var known := KnownMessage(inbox, f);
            KnownFrom(if Complete(known) then known else Overlay(known, f.off, f.body), f.num, taken + {f})
  {
    var known := KnownMessage(inbox, f);
    OverlaidIsKnown(known, f, taken);
    if Complete(known) {
      if f.num in inbox.pending {
        MoreTaken(known, f.num, taken, f);
      } else {
        EmptyIsKnown(known, f, taken);
      }
    }
  }

  lemma {:induction false} EmptyIsKnown(p: Partial, f: Fragment, taken: set<Fragment>)
    requires p == Blank(f.typ, f.msgLen) && Complete(p)
    ensures KnownFrom(p, f.num, taken + {f})
  {
    assert f in taken + {f};
    forall i: nat | i < |p.cells| ensures p.cells[i].None? && p.cells[i] in p.cells {
    }
  }

  lemma {:induction false} ReadKeepsHonest(inbox: Inbox, maxLen: nat, taken: set<Fragment>)
    requires Honest(inbox, maxLen, taken)
    ensures Honest(NextInbox(inbox), maxLen, set f | f in taken && f.num != inbox.readSeq)
  {
    var after, left := NextInbox(inbox), set f | f in taken && f.num != inbox.readSeq;
    forall n | n in after.pending ensures KnownFrom(after.pending[n], n, left) && |after.pending[n].cells| <= maxLen {
      var p := inbox.pending[n];
      assert KnownFrom(p, n, taken);
      var g :| g in taken && g.num == n;
      assert g in left;
      forall i: nat | i < |p.cells| && p.cells[i].Some? ensures exists f :: f in left && Brings(f, n, i, p.cells[i].value) {
        var f :| f in taken && Brings(f, n, i, p.cells[i].value);
        assert f in left;
      }
    }
  }

  lemma {:induction false} AnyRunIsHonest(readSeq: nat, maxLen: nat, events: seq<Event>)
    requires AnyRun(Inbox(readSeq, map[]), maxLen, events)
    ensures Honest(After(Inbox(readSeq, map[]), maxLen, events), maxLen, Taken(Inbox(readSeq, map[]), maxLen, events))
    decreases |events|
  {
    if events != [] {
      var start := Inbox(readSeq, map[]);
      var before := events[..|events| - 1];
      var inbox, taken := After(start, maxLen, before), Taken(start, maxLen, before);
      AnyRunIsHonest(readSeq, maxLen, before);
      hide Honest, AcceptOne, NextInbox, CurrentComplete;
      match events[|events| - 1]
      case Deliver(f, encrypted) => DeliverKeepsHonest(inbox, maxLen, encrypted, f, taken);
      case Read => ReadKeepsHonest(inbox, maxLen, taken);
    }
  }

  /** Over every run of any fragments: the message that can be read has the type and the length that all
      fragments taken for its number have, and each of its bytes was brought by one of them. */
  lemma {:induction false} ReadIsPutTogether(readSeq: nat, maxLen: nat, events: seq<Event>)
    requires AnyRun(Inbox(readSeq, map[]), maxLen, events)
    ensures var inbox, taken := After(Inbox(readSeq, map[]), maxLen, events), Taken(Inbox(readSeq, map[]), maxLen, events);
            CurrentComplete(inbox) ==>
              var p := inbox.pending[inbox.readSeq];
              && |BytesOf(p)| <= maxLen && (exists f :: f in taken && f.num == inbox.readSeq)
              && (forall f :: f in taken && f.num == inbox.readSeq ==> f.typ == p.typ && f.msgLen == |BytesOf(p)|)
              && (forall i: nat :: i < |BytesOf(p)| ==> exists f :: f in taken && Brings(f, inbox.readSeq, i, BytesOf(p)[i]))
  {
    AnyRunIsHonest(readSeq, maxLen, events);
    var inbox, taken := After(Inbox(readSeq, map[]), maxLen, events), Taken(Inbox(readSeq, map[]), maxLen, events);
    if CurrentComplete(inbox) {
      var p := inbox.pending[inbox.readSeq];
      assert KnownFrom(p, inbox.readSeq, taken);
      forall i: nat | i < |p.cells| ensures p.cells[i].Some? && BytesOf(p)[i] == p.cells[i].value {
        assert p.cells[i] in p.cells;
      }
    }
  }
}
