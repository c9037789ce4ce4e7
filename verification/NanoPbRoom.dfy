/** pb_decode.c: arrays from a program that writes more or fewer items than there is room for. */
module NanoPbRoom {
  import opened InternalKeys
  import opened Coding
  import opened NanoPbFormat
  import opened NanoPbDecoding
  import opened NanoPbRoundTrip

  /** A packed array is read to its end if there is room for all its items, and refused if not. */
  lemma {:induction false} PackedRoom(k: FieldType, filled: seq<Val>, at: nat, max: nat, items: seq<Val>)
    requires KindOk(k) && Packable(k) && AllOk(k, items)
    ensures var r := DecPacked(k, filled, at, max, EncPacked(k, items));
            if items == [] || at + |items| <= max then r.Some? && r.value.at == at + |items| else r == None
    decreases |items|
  {
    if items != [] {
      var v, rest := items[0], EncPacked(k, items[1..]);
      assert ValOk(k, v);
      NotEmpty(k, v);
      ScalarReadsBack(k, v, ZeroVal(k), true, rest);
      PackedRoom(k, PutItem(filled, at, v), at + 1, max, items[1..]);
      hide DecVal, EncVal, ValOk, PutItem;
    }
  }

  /** The one field is an array that may be filled from place at on. */
  ghost predicate Filling(f: Field, st: DState, at: nat) {
    && FieldsOk([f]) && KindOk(f.kind) && |st.slots| == 1 && st.seen == {}
    && (f.rule.Repeated? ==> st.fixed == None && |OldItems(st.slots[0])| == at)
    && (f.rule.FixedCount? ==> if st.fixed == None then at == 0 else st.fixed == Some(0) && st.fixedSize == at)
    && (f.rule.Repeated? || f.rule.FixedCount?)
  }

  /** The array has these items and goes on at place at. */
  function WithItems(f: Field, st: DState, items: seq<Val>, at: nat): DState {
    if f.rule.Repeated? then st.(slots := [Many(items)]) else st.(slots := [Many(items)], fixed := Some(0), fixedSize := at)
  }

  lemma {:induction false} ItemRoom(f: Field, st: DState, at: nat, wireType: nat, input: Data)
    requires Filling(f, st, at)
    ensures DecField([f], st, 0, wireType, input) ==
            match DecArray(f.kind, OldItems(st.slots[0]), at, RoomOf(f), wireType, input)
            case None => None
            case Some((Filled(items, at'), rest)) =>
              Some((WithItems(f, st, items, at'), rest))
  {
    assert [f][0] == f && forall s :: st.slots[0 := s] == [s];
    hide DecArray, FieldsOk, KindOk;
  }

  lemma {:induction false} StillFilling(f: Field, st: DState, items: seq<Val>, at: nat)
    requires Filling(f, st, at)
    requires f.rule.Repeated? ==> |items| == at + 1
    ensures Filling(f, WithItems(f, st, items, at + 1), at + 1)
  {
    hide FieldsOk, KindOk;
  }

  /** Items with a tag each are read while there is room, and refused behind it. */
  lemma {:induction false} EachRoom(f: Field, st: DState, at: nat, items: seq<Val>)
    requires Filling(f, st, at) && !Packable(f.kind) && AllOk(f.kind, items) && |EncEach(f.tag, f.kind, items)| < LIMIT32
    ensures Fares(f, st, at, items)
    decreases |items|
  {
    hide *;
    if items == [] {
      NothingFares(f, st, at);
    } else {
      FirstItem(f, items);
      FillingFacts(f, st, at);
      var v, tail, wt := items[0], EncEach(f.tag, f.kind, items[1..]), WireType(f.kind);
      var filled, input := OldItems(st.slots[0]), EncVal(f.kind, items[0]) + EncEach(f.tag, f.kind, items[1..]);
      assert [f][0] == f;
      ValReadsBack(f.kind, v, ZeroVal(f.kind), true, tail);
      TagLeadsToField([f], st, 0, wt, input);
      ItemRoom(f, st, at, wt, input);
      OneItem(f.kind, filled, at, RoomOf(f), wt, input);
      if at < RoomOf(f) {
        var items' := PutItem(filled, at, NormalVal(f.kind, v));
        ItemPut(f, st, at, NormalVal(f.kind, v));
        StillFilling(f, st, items', at);
        EachRoom(f, WithItems(f, st, items', at + 1), at + 1, items[1..]);
        NextFares(f, st, at, items, WithItems(f, st, items', at + 1));
      } else {
        NoRoomFares(f, st, at, items);
      }
    }
  }

  /** The items are read to their end if there is room for all of them, and refused if not. */
  ghost predicate Fares(f: Field, st: DState, at: nat, items: seq<Val>) {
    && FieldsOk([f]) && |st.slots| == 1 && AllOk(f.kind, items)
    && var r := DecLoop([f], st, EncEach(f.tag, f.kind, items));
       if items == [] || at + |items| <= RoomOf(f) then r.Some? && Filling(f, r.value, at + |items|) else r == None
  }

  lemma {:induction false} NextFares(f: Field, st: DState, at: nat, items: seq<Val>, next: DState)
    requires FieldsOk([f]) && |st.slots| == |next.slots| == 1 && AllOk(f.kind, items) && items != [] && at < RoomOf(f)
    requires Fares(f, next, at + 1, items[1..])
    requires DecLoop([f], st, EncEach(f.tag, f.kind, items)) == DecLoop([f], next, EncEach(f.tag, f.kind, items[1..]))
    ensures Fares(f, st, at, items)
  {
    hide FieldsOk, DecLoop, EncEach, Filling, AllOk;
  }

  lemma {:induction false} NoRoomFares(f: Field, st: DState, at: nat, items: seq<Val>)
    requires FieldsOk([f]) && |st.slots| == 1 && AllOk(f.kind, items) && items != [] && at >= RoomOf(f)
    requires DecLoop([f], st, EncEach(f.tag, f.kind, items)) == None
    ensures Fares(f, st, at, items)
  {
    hide FieldsOk, DecLoop, EncEach, Filling, AllOk;
  }

  lemma {:induction false} FillingFacts(f: Field, st: DState, at: nat)
    requires Filling(f, st, at)
    ensures FieldsOk([f]) && KindOk(f.kind) && |st.slots| == 1
  {
    hide FieldsOk, KindOk;
  }

  lemma {:induction false} NothingFares(f: Field, st: DState, at: nat)
    requires Filling(f, st, at)
    ensures Fares(f, st, at, [])
  {
    hide FieldsOk, KindOk, ValOk, EncVal;
  }

  lemma {:induction false} ItemPut(f: Field, st: DState, at: nat, v: Val)
    requires Filling(f, st, at)
    ensures f.rule.Repeated? ==> |PutItem(OldItems(st.slots[0]), at, v)| == at + 1
  {
    hide FieldsOk, KindOk;
  }

  lemma {:induction false} FirstItem(f: Field, items: seq<Val>)
    requires items != [] && AllOk(f.kind, items) && |EncEach(f.tag, f.kind, items)| < LIMIT32
    ensures ValOk(f.kind, items[0]) && AllOk(f.kind, items[1..]) && forall v :: v in items[1..] ==> ValOk(f.kind, v)
    ensures forall v :: v in items ==> ValOk(f.kind, v)
    ensures StartsFresh(f.kind, ZeroVal(f.kind), true) && WireType(f.kind) < 8
    ensures !(WireType(f.kind) == 2 && Packable(f.kind))
    ensures var body := EncVal(f.kind, items[0]) + EncEach(f.tag, f.kind, items[1..]);
            EncEach(f.tag, f.kind, items) == TagBytes(f.tag, WireType(f.kind)) + body
    ensures |EncVal(f.kind, items[0])| < LIMIT32 && |EncEach(f.tag, f.kind, items[1..])| < LIMIT32
  {
    hide EncVal, ValOk, TagBytes;
  }

  /** One item from where the array stands. */
  lemma {:induction false} OneItem(k: FieldType, filled: seq<Val>, at: nat, max: nat, wireType: nat, input: Data)
    requires KindOk(k) && !(wireType == 2 && Packable(k))
    ensures DecArray(k, filled, at, max, wireType, input) ==
            if at >= max then None
            else match DecVal(k, ZeroVal(k), true, input)
                 case None => None
                 case Some((v, rest)) => Some((Filled(PutItem(filled, at, v), at + 1), rest))
  {
    hide DecVal, KindOk;
  }

  lemma {:induction false} StartsFilling(f: Field)
    requires FieldsOk([f]) && (f.rule.Repeated? || f.rule.FixedCount?)
    ensures Filling(f, DState(Defaults([f]), {}, None, 0), 0)
  {
    assert FieldOk([f][0]) && Defaults([f])[0] == DefaultSlot(f);
    hide DefaultOf;
  }

  lemma {:induction false} EndsFilling(f: Field, st: DState, at: nat)
    requires Filling(f, st, at) && at > 0
    ensures RequiredSeen([f], st.seen) && (FixedDone([f], st) <==> (f.rule.FixedCount? ==> at == f.rule.n))
  {
    assert [f][0] == f;
    hide FieldsOk, KindOk;
  }

  lemma {:induction false} ArrayLoop(f: Field, items: seq<Val>)
    requires FieldsOk([f]) && (f.rule.Repeated? || f.rule.FixedCount?) && AllOk(f.kind, items) && items != []
    requires |EncArray(f.tag, f.kind, items)| < LIMIT32
    ensures var r := DecLoop([f], DState(Defaults([f]), {}, None, 0), EncArray(f.tag, f.kind, items));
            if |items| <= RoomOf(f) then r.Some? && Filling(f, r.value, |items|) else r == None
  {
    var st := DState(Defaults([f]), {}, None, 0);
    StartsFilling(f);
    if Packable(f.kind) {
      var body := EncPacked(f.kind, items);
      var filled := OldItems(st.slots[0]);
      assert [f][0] == f;
      PackedParts(f.tag, body, []);
      assert TagBytes(f.tag, 2) + Prefixed(body) + [] == TagBytes(f.tag, 2) + Prefixed(body);
      assert Prefixed(body) + [] == Prefixed(body);
      PrefixedReadsBack(body, []);
      PackedRoom(f.kind, filled, 0, RoomOf(f), items);
      if f.rule.Repeated? {
        PackedSize(f.kind, filled, 0, RoomOf(f), body);
      }
      TagLeadsToField([f], st, 0, 2, Prefixed(body));
      ItemRoom(f, st, 0, 2, Prefixed(body));
      hide DecField, DecPacked, EncPacked, TagBytes, Prefixed, Substream, FieldsOk, KindOk, ValOk;
    } else {
      EachRoom(f, st, 0, items);
    }
  }

  lemma {:induction false} PackedSize(k: FieldType, filled: seq<Val>, at: nat, max: nat, body: Data)
    requires KindOk(k) && at == |filled|
    ensures var r := DecPacked(k, filled, at, max, body);
            r.Some? ==> |r.value.items| == r.value.at
    decreases |body|
  {
    if body != [] && at < max {
      hide DecVal;
      match DecVal(k, ZeroVal(k), true, body)
      case None =>
      case Some((v, rest)) => PackedSize(k, PutItem(filled, at, v), at + 1, max, rest);
    }
  }

  lemma {:induction false} NoneIsAccepted(f: Field)
    requires FieldsOk([f]) && !f.rule.Required?
    ensures NanoPbDecoding.Decode([f], []) == Some(Defaults([f]))
  {
    var st := DState(Defaults([f]), {}, None, 0);
    assert forall i: nat :: i < 1 ==> [f][i] == f;
    assert DecLoop([f], st, []) == Some(st);
    assert RequiredSeen([f], {});
    hide DefaultSlot, FieldsOk;
  }

  /** A message of one array, written by a program with room for more or fewer items: it is accepted
      if and only if all its items have room, and, when the array is of fixed length, fill it; or when
      there are none. */
  lemma {:induction false} ArrayAcceptedIff(f: Field, items: seq<Val>)
    requires FieldsOk([f]) && (f.rule.Repeated? || f.rule.FixedCount?) && AllOk(f.kind, items)
    requires |EncArray(f.tag, f.kind, items)| < LIMIT32
    ensures NanoPbDecoding.Decode([f], EncArray(f.tag, f.kind, items)).Some?
       <==> items == [] || (f.rule.Repeated? && |items| <= f.rule.max) || (f.rule.FixedCount? && |items| == f.rule.n)
  {
    if items == [] {
      NoneIsAccepted(f);
    } else {
      ArrayLoop(f, items);
      hide DecLoop, EncArray, FieldsOk, Defaults, Filling;
      var r := DecLoop([f], DState(Defaults([f]), {}, None, 0), EncArray(f.tag, f.kind, items));
      if |items| <= RoomOf(f) {
        EndsFilling(f, r.value, |items|);
      }
    }
  }
}
