/** pb_decode.c: a message from a program that does not write all fields. What is missing is left at
    its default; a message without one of the first 64 required fields is refused. */
module NanoPbMissing {
  import opened InternalKeys
  import opened Coding
  import opened NanoPbFormat
  import opened NanoPbDecoding
  import opened NanoPbRoundTrip

  /** The fields from i on, but for those in lost. */
  function EncSent(fs: seq<Field>, slots: seq<Slot>, lost: set<nat>, i: nat): Data
    requires StructOk(fs, slots) && i <= |fs|
    decreases |fs| - i
  {
    if i == |fs| then []
    else (if i in lost then [] else EncSlot(fs, i, slots[i])) + EncSent(fs, slots, lost, i + 1)
  }

  /** A field that is left out leaves everything as it is. */
  lemma {:induction false} LostStep(fs: seq<Field>, slots: seq<Slot>, lost: set<nat>, i: nat)
    requires StructOk(fs, slots) && i < |fs| && i in lost
    ensures StateAt(fs, slots, lost, i + 1) == StateAt(fs, slots, lost, i)
  {
    SameSlotsUpTo(fs, slots, lost, i);
  }

  lemma {:induction false} EncSentStep(fs: seq<Field>, slots: seq<Slot>, lost: set<nat>, i: nat)
    requires StructOk(fs, slots) && i <= |fs|
    ensures |slots| == |fs|
    ensures i == |fs| ==> EncSent(fs, slots, lost, i) == []
    ensures i < |fs| ==> SlotOk(fs, i, slots[i])
    ensures i < |fs| && i in lost ==> EncSent(fs, slots, lost, i) == [] + EncSent(fs, slots, lost, i + 1)
    ensures i < |fs| && i !in lost ==> EncSent(fs, slots, lost, i) == EncSlot(fs, i, slots[i]) + EncSent(fs, slots, lost, i + 1)
  {
    hide SlotOk, EncSlot;
  }

  lemma {:induction false} SentReadsBack(fs: seq<Field>, slots: seq<Slot>, lost: set<nat>, i: nat)
    requires FieldsOk(fs) && StructOk(fs, slots) && i <= |fs| && |EncSent(fs, slots, lost, i)| < LIMIT32
    ensures Ends(fs, StateAt(fs, slots, lost, i), EncSent(fs, slots, lost, i), StateAt(fs, slots, lost, |fs|))
    decreases |fs| - i
  {
    hide *;
    EncSentStep(fs, slots, lost, i);
    if i < |fs| {
      SlotFits(fs, slots, i);
      var tail := EncSent(fs, slots, lost, i + 1);
      SentReadsBack(fs, slots, lost, i + 1);
      if i in lost {
        LostStep(fs, slots, lost, i);
        assert [] + tail == tail;
      } else {
        FieldReadsBack(fs, slots, lost, i, tail);
        EndsBefore(fs, StateAt(fs, slots, lost, i), EncSent(fs, slots, lost, i), StateAt(fs, slots, lost, i + 1), tail, StateAt(fs, slots, lost, |fs|));
      }
    } else {
      EndsHere(fs, StateAt(fs, slots, lost, i));
    }
  }

  /** For every descriptor, every message and every choice of fields that are not sent: the message is
      accepted if and only if none of the first 64 required fields is among them, and then these are at
      their defaults and all others as they were. */
  lemma {:induction false} MissingFields(fs: seq<Field>, slots: seq<Slot>, lost: set<nat>)
    requires FieldsOk(fs) && StructOk(fs, slots) && |EncSent(fs, slots, lost, 0)| < LIMIT32
    ensures NanoPbDecoding.Decode(fs, EncSent(fs, slots, lost, 0)) ==
            if exists i: nat :: i < |fs| && i in lost && fs[i].rule.Required? && RequiredBefore(fs, i) < 64
            then None
            else Some(NormalWithout(fs, slots, lost))
  {
    SentReadsBack(fs, slots, lost, 0);
    StartsAndEnds(fs, slots, lost);
    hide FieldsOk, StructOk, EncSent, StateAt, DecLoop, NormalWithout, Defaults, FixedDone, RequiredSeen, RequiredBefore;
  }
}
