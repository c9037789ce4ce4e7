/** table/block_builder.cc: entries added in turn, a restart point every interval entries. */
module BlockBuilders {
  import opened InternalKeys
  import opened Coding
  import opened BlockFormat

  class BlockBuilder {
    /** block_restart_interval */
    const interval: nat
    var buffer: Data
    var restarts: seq<nat>
    var counter: nat
    var lastKey: Data
    var finished: bool
    ghost var es: seq<Pair>
    ghost var sh: seq<nat>
    ghost var rs: seq<nat>

    ghost predicate Valid()
      reads this
    {
      && interval >= 1
      && SharesOk(es, sh) && RestartsOk(es, sh, rs, interval)
      && (!finished ==> buffer == Encode(es, sh))
      && restarts == RestartOffsets(es, sh, rs)
      && counter == |es| - rs[|rs| - 1]
      && lastKey == (if es == [] then [] else es[|es| - 1].key)
    }

    constructor (interval: nat)
      requires interval >= 1
      ensures Valid() && es == [] && !finished && this.interval == interval
    {
      this.interval := interval;
      buffer, restarts, counter, lastKey, finished := [], [0], 0, [], false;
      es, sh, rs := [], [], [0];
    }

    /** BlockBuilder::Reset */
    method Reset()
      requires Valid()
      modifies this
      ensures Valid() && es == [] && !finished
    {
      buffer, restarts, counter, finished, lastKey := [], [0], 0, false, [];
      es, sh, rs := [], [], [0];
    }

    /** How many leading bytes key has in common with the key before. */
    method SharedWithLast(key: Data) returns (shared: nat)
      ensures shared <= |lastKey| && shared <= |key| && lastKey[..shared] == key[..shared]
      ensures shared < |lastKey| && shared < |key| ==> lastKey[shared] != key[shared]
    {
      shared := 0;
      var minLength := if |lastKey| < |key| then |lastKey| else |key|;
      while shared < minLength && lastKey[shared] == key[shared]
        invariant shared <= minLength && lastKey[..shared] == key[..shared]
      {
        shared := shared + 1;
      }
    }

    /** How much to share, or a new restart point after interval entries without one. */
    method BeginEntry(key: Data) returns (shared: nat)
      modifies this`restarts, this`counter
      ensures shared <= |lastKey| && shared <= |key| && lastKey[..shared] == key[..shared]
      ensures old(counter) >= interval ==> shared == 0
      ensures restarts == old(restarts) + (if old(counter) >= interval then [|buffer|] else [])
      ensures counter == if old(counter) >= interval then 0 else old(counter)
    {
      shared := 0;
      if counter < interval {
        shared := SharedWithLast(key);
      } else {
        restarts := restarts + [|buffer|];
        counter := 0;
      }
    }

    /** BlockBuilder::Add */
    method Add(key: Data, value: Data)
      requires Valid() && !finished
      modifies this
      ensures Valid() && !finished && es == old(es) + [Pair(key, value)]
    {
      hide *;
      Unfold();
      ghost var grown := GrownRestarts(rs, |es|, interval);
      var e := Pair(key, value);
      var shared := BeginEntry(key);
      EncodeSnoc(es, sh, e, shared);
      RestartsGrow(es, sh, rs, interval, e, shared);
      AppendEntry(shared, e);
      counter := counter + 1;
      rs := grown;
      es, sh := es + [e], sh + [shared];
      Fold();
    }

    lemma Unfold()
      requires Valid()
      ensures interval >= 1 && SharesOk(es, sh) && RestartsOk(es, sh, rs, interval)
      ensures !finished ==> buffer == Encode(es, sh)
      ensures rs != [] && RestartsWithin(rs, |es|) && restarts == RestartOffsets(es, sh, rs)
      ensures counter == |es| - rs[|rs| - 1]
      ensures lastKey == (if es == [] then [] else es[|es| - 1].key)
    {
      hide SharesOk, Encode, RestartOffsets;
    }

    lemma Fold()
      requires interval >= 1 && SharesOk(es, sh) && RestartsOk(es, sh, rs, interval)
      requires !finished ==> buffer == Encode(es, sh)
      requires rs != [] && RestartsWithin(rs, |es|) && restarts == RestartOffsets(es, sh, rs)
      requires counter == |es| - rs[|rs| - 1]
      requires lastKey == (if es == [] then [] else es[|es| - 1].key)
      ensures Valid()
    {
      hide SharesOk, RestartsOk, Encode, RestartOffsets;
    }

    /** The bytes of the entry; the last key becomes this one. */
    method AppendEntry(shared: nat, e: Pair)
      requires shared <= |e.key| && shared <= |lastKey| && lastKey[..shared] == e.key[..shared]
      modifies this`buffer, this`lastKey
      ensures buffer == old(buffer) + EntryBytes(shared, e) && lastKey == e.key
    {
      hide VarintBytes;
      var nonShared := |e.key| - shared;
      buffer := buffer + VarintBytes(shared) + VarintBytes(nonShared) + VarintBytes(|e.value|);
      buffer := buffer + e.key[shared..] + e.value;
      lastKey := lastKey[..shared] + e.key[shared..];
    }

    /** BlockBuilder::Finish */
    method Finish() returns (block: Data)
      requires Valid() && !finished
      modifies this`buffer, this`finished
      ensures Valid() && finished && block == BlockBytes(es, sh, rs)
    {
      var i := 0;
      hide SharesOk, Encode, RestartsOk, RestartOffsets;
      while i < |restarts|
        invariant 0 <= i <= |restarts| && !finished
        invariant buffer == Encode(es, sh) + FixedList(restarts[..i])
        modifies this`buffer
      {
        assert restarts[..i + 1][..i] == restarts[..i];
        buffer := buffer + FixedBytes(restarts[i], 4);
        i := i + 1;
      }
      assert restarts[..i] == restarts;
      buffer := buffer + FixedBytes(|restarts|, 4);
      finished := true;
      block := buffer;
    }
  }

  function GrownRestarts(rs: seq<nat>, n: nat, interval: nat): seq<nat>
    requires rs != []
  {
    if n - rs[|rs| - 1] >= interval then rs + [n] else rs
  }

  lemma RestartsGrow(es: seq<Pair>, sh: seq<nat>, rs: seq<nat>, interval: nat, e: Pair, shared: nat)
    requires SharesOk(es, sh) && RestartsOk(es, sh, rs, interval) && interval >= 1
    requires SharesOk(es + [e], sh + [shared])
    requires |es| - rs[|rs| - 1] >= interval ==> shared == 0
    ensures var isRestart, rs' := |es| - rs[|rs| - 1] >= interval, GrownRestarts(rs, |es|, interval);
            && RestartsOk(es + [e], sh + [shared], rs', interval)
            && rs' != [] && RestartsWithin(rs', |es| + 1)
            && |es| + 1 - rs'[|rs'| - 1] == (if isRestart then 1 else |es| + 1 - rs[|rs| - 1])
            && RestartOffsets(es + [e], sh + [shared], rs')
               == RestartOffsets(es, sh, rs) + (if isRestart then [|Encode(es, sh)|] else [])
  {
    RestartsStay(es, sh, rs, e, shared);
    GrownOk(es, sh, rs, interval, e, shared);
    hide SharesOk, RestartOffsets, Encode;
  }

  lemma GrownOk(es: seq<Pair>, sh: seq<nat>, rs: seq<nat>, interval: nat, e: Pair, shared: nat)
    requires SharesOk(es, sh) && RestartsOk(es, sh, rs, interval) && interval >= 1
    requires SharesOk(es + [e], sh + [shared])
    requires |es| - rs[|rs| - 1] >= interval ==> shared == 0
    ensures RestartsOk(es + [e], sh + [shared], GrownRestarts(rs, |es|, interval), interval)
  {
    assert es == [] ==> shared == 0 by {
      assert ShareOk(es + [e], sh + [shared], 0);
    }
    hide SharesOk;
    var sh', rs' := sh + [shared], GrownRestarts(rs, |es|, interval);
    forall i | 0 <= i < |rs'| ensures rs'[i] <= |es| && (rs'[i] < |es| + 1 ==> sh'[rs'[i]] == 0) {
      if i < |rs| - 1 {
        RestartsAscend(rs, interval, i, |rs| - 1);
      }
    }
  }

  /** The restart points there are stay where they are. */
  lemma RestartsStay(es: seq<Pair>, sh: seq<nat>, rs: seq<nat>, e: Pair, shared: nat)
    requires SharesOk(es, sh) && SharesOk(es + [e], sh + [shared])
    requires RestartsWithin(rs, |es|)
    ensures RestartOffsets(es + [e], sh + [shared], rs) == RestartOffsets(es, sh, rs)
    ensures RestartOffsets(es + [e], sh + [shared], rs + [|es|]) == RestartOffsets(es, sh, rs) + [|Encode(es, sh)|]
  {
    var es', sh' := es + [e], sh + [shared];
    assert es'[..|es|] == es && sh'[..|es|] == sh;
    WholeOffset(es, sh);
    forall k: nat | k <= |es| ensures Offset(es', sh', k) == Offset(es, sh, k) {
      SameOffset(es', sh', |es|, k);
    }
    hide Encode, Offset, SharesOk;
  }
}
