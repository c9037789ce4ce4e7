/** table/block.cc: a bidirectional cursor over the entries of a finished block. */
module BlockIterators {
  import opened InternalKeys
  import opened Coding
  import opened BlockFormat

  /** The first entry whose key is not before target. */
  ghost function FirstNotBefore(less: (Data, Data) -> bool, es: seq<Pair>, target: Data): (p: nat)
    ensures p <= |es| && (forall i :: 0 <= i < p ==> less(es[i].key, target))
    ensures p < |es| ==> !less(es[p].key, target)
  {
    if es == [] || !less(es[0].key, target) then 0 else 1 + FirstNotBefore(less, es[1..], target)
  }

  ghost predicate KeysAscend(less: (Data, Data) -> bool, es: seq<Pair>) {
    forall i, k :: 0 <= i < k < |es| ==> less(es[i].key, es[k].key)
  }

  lemma FirstIsUnique(less: (Data, Data) -> bool, es: seq<Pair>, target: Data, p: nat)
    requires p <= |es| && (forall i :: 0 <= i < p ==> less(es[i].key, target))
    requires p < |es| ==> !less(es[p].key, target)
    ensures p == FirstNotBefore(less, es, target)
  {
  }

  /** What a block holds, and how. */
  datatype Layout = Layout(es: seq<Pair>, sh: seq<nat>, rs: seq<nat>, interval: nat)

  ghost predicate LayoutOk(b: Layout) {
    && b.interval >= 1 && SharesOk(b.es, b.sh) && RestartsOk(b.es, b.sh, b.rs, b.interval)
    && |BlockBytes(b.es, b.sh, b.rs)| < LIMIT32
  }

  ghost function At(b: Layout, k: nat): nat
    requires LayoutOk(b) && k <= |b.es|
  {
    Offset(b.es, b.sh, k)
  }

  /** Offsets order entries. */
  lemma AtOrders(b: Layout, i: nat, k: nat)
    requires LayoutOk(b) && i <= |b.es| && k <= |b.es|
    ensures At(b, i) < At(b, k) <==> i < k
    ensures At(b, |b.es|) == |Encode(b.es, b.sh)| && At(b, 0) == 0
  {
    WholeOffset(b.es, b.sh);
    hide Offset, Encode, SharesOk, RestartsOk, BlockBytes;
    if i < k {
      OffsetsAscend(b.es, b.sh, i, k);
    } else if k < i {
      OffsetsAscend(b.es, b.sh, k, i);
    }
  }

  /** The Block constructor: where the entries end and how many restart points there are. */
  method OpenBlock(data: Data) returns (r: Option<(nat, nat)>)
    ensures r.Some? ==> r.value.0 + 4 * r.value.1 + 4 == |data|
    ensures forall b :: LayoutOk(b) && data == BlockBytes(b.es, b.sh, b.rs) ==> r == Some((|Encode(b.es, b.sh)|, |b.rs|))
  {
    forall b | LayoutOk(b) && data == BlockBytes(b.es, b.sh, b.rs)
      ensures |data| == |Encode(b.es, b.sh)| + 4 * |b.rs| + 4 && NumRestarts(data) == |b.rs|
    {
      BlockParts(b.es, b.sh, b.rs);
    }
    hide NumRestarts, LayoutOk, BlockBytes, Encode;
    if |data| < 4 {
      return None;
    }
    var maxRestartsAllowed := (|data| - 4) / 4;
    if NumRestarts(data) > maxRestartsAllowed {
      return None;
    }
    r := Some((|data| - (1 + NumRestarts(data)) * 4, NumRestarts(data)));
  }

  class BlockIter {
    const less: (Data, Data) -> bool
    const data: Data
    const restarts: nat
    const numRestarts: nat
    var current: nat
    var restartIndex: nat
    var key: Data
    /** value_ as the offset of its first byte and its length. */
    var valueAt: nat
    var valueLength: nat
    ghost const b: Layout

    ghost predicate Wellformed() {
      && LayoutOk(b) && data == BlockBytes(b.es, b.sh, b.rs)
      && restarts == |Encode(b.es, b.sh)| && numRestarts == |b.rs|
    }

    predicate IsValid()
      reads this
    {
      current < restarts
    }

    function NextEntryOffset(): nat
      reads this
    {
      valueAt + valueLength
    }

    /** The iterator is about to parse entry p: value_ ends where it starts, and key_ still
        holds what the entry shares. */
    ghost predicate Before(p: nat)
      reads this
    {
      && Wellformed() && p <= |b.es| && NextEntryOffset() == At(b, p)
      && restartIndex < numRestarts && b.rs[restartIndex] <= p
      && (p < |b.es| ==> b.sh[p] <= |key| && b.sh[p] <= |b.es[p].key| && key[..b.sh[p]] == b.es[p].key[..b.sh[p]])
    }

    /** The cursor stands on entry p, or behind the last. */
    ghost predicate StandsOn(p: nat)
      reads this
    {
      && Wellformed() && p <= |b.es|
      && (p == |b.es| ==> current == restarts && restartIndex == numRestarts)
      && (p < |b.es| ==>
            && current == At(b, p) && NextEntryOffset() == At(b, p + 1)
            && key == b.es[p].key && valueLength == |b.es[p].value| && NextEntryOffset() <= |data|
            && data[valueAt..NextEntryOffset()] == b.es[p].value
            && restartIndex < numRestarts && b.rs[restartIndex] <= p
            && (restartIndex + 1 < numRestarts ==> p <= b.rs[restartIndex + 1]))
    }

    constructor (less: (Data, Data) -> bool, data: Data, restarts: nat, numRestarts: nat, ghost b: Layout)
      requires LayoutOk(b) && data == BlockBytes(b.es, b.sh, b.rs)
      requires restarts == |Encode(b.es, b.sh)| && numRestarts == |b.rs|
      ensures StandsOn(|b.es|) && this.less == less && this.data == data && this.b == b
    {
      this.less, this.data, this.restarts, this.numRestarts, this.b := less, data, restarts, numRestarts, b;
      current, restartIndex := restarts, numRestarts;
      key, valueAt, valueLength := [], 0, 0;
    }

    function GetRestartPoint(i: nat): nat
      requires restarts + 4 * i + 4 <= |data|
    {
      RestartPoint(data, restarts, i)
    }

    lemma RestartIsOffset(i: nat)
      requires Wellformed() && i < numRestarts
      ensures restarts + 4 * i + 4 <= |data| && b.rs[i] <= |b.es| && GetRestartPoint(i) == At(b, b.rs[i])
    {
      RestartReadsBack(b.es, b.sh, b.rs, i);
    }

    lemma RestartSharesNothing(i: nat)
      requires Wellformed() && i < numRestarts
      ensures b.rs[i] <= |b.es| && (b.rs[i] < |b.es| ==> b.sh[b.rs[i]] == 0)
    {
    }

    method SeekToRestartPoint(index: nat)
      requires Wellformed() && index < numRestarts
      modifies this`key, this`restartIndex, this`valueAt, this`valueLength
      ensures Before(b.rs[index]) && restartIndex == index
    {
      RestartIsOffset(index);
      RestartSharesNothing(index);
      hide LayoutOk, BlockBytes, Encode, At;
      key, restartIndex := [], index;
      valueAt, valueLength := GetRestartPoint(index), 0;
    }

    /** The bytes from entry p to the end of the entries. */
    lemma BytesAt(p: nat)
      requires Wellformed() && p < |b.es|
      ensures At(b, p) < At(b, p + 1) <= restarts <= |data| && b.sh[p] <= |b.es[p].key| && |data| < LIMIT32
      ensures data[At(b, p)..restarts] == EntryBytes(b.sh[p], b.es[p]) + data[At(b, p + 1)..restarts]
      ensures |b.es[p].key| <= restarts
    {
      EntryAt(b.es, b.sh, p);
      BlockParts(b.es, b.sh, b.rs);
      KeyWithin(b.es, b.sh, p);
      hide EntryBytes, Encode, RestartsOk, SharesOk, BlockBytes, Offset, NumRestarts;
      SplitSlice(data, At(b, p), At(b, p + 1), restarts);
    }

    /** Entry p, from the bytes at its offset up to the end of the entries. */
    lemma EntryDecodes(p: nat)
      requires Wellformed() && p < |b.es|
      ensures At(b, p) < restarts <= |data| && b.sh[p] <= |b.es[p].key|
      ensures DecodesTo(data[At(b, p)..restarts], b.sh[p], b.es[p], restarts - At(b, p + 1))
      ensures DecodeHead(data[At(b, p)..restarts]).Some? && DecodeHead(data[At(b, p)..restarts]).value.shared == b.sh[p]
    {
      BytesAt(p);
      hide EntryBytes, Encode, LayoutOk, BlockBytes, At, DecodeHead;
      ghost var rest := data[At(b, p + 1)..restarts];
      EntryLengths(b.sh[p], b.es[p], rest);
      EntryReadsBack(b.sh[p], b.es[p], rest);
    }

    lemma KeyRebuilt(p: nat, h: EntryHead)
      requires p < |b.es| && h.shared <= |key| && h.shared <= |b.es[p].key| && h.nonShared <= |h.rest|
      requires key[..h.shared] == b.es[p].key[..h.shared] && h.rest[..h.nonShared] == b.es[p].key[h.shared..]
      ensures key[..h.shared] + h.rest[..h.nonShared] == b.es[p].key
    {
    }

    /** ParseNextKey: from the end of value_, entry p, or the end of the block. */
    method ParseNextKey(ghost p: nat) returns (found: bool)
      requires Before(p)
      modifies this
      ensures StandsOn(p) && found == (p < |b.es|)
    {
      AtOrders(b, p, |b.es|);
      assert |b.sh| == |b.es|;
      hide LayoutOk, BlockBytes, Encode, EntryBytes, At;
      current := NextEntryOffset();
      if current >= restarts {
        current, restartIndex := restarts, numRestarts;
        return false;
      }
      ParseEntry(p);
      AdvanceRestart(p);
      found := true;
    }

    /** Key and value of the entry at current_. */
    method ParseEntry(ghost p: nat)
      requires Wellformed() && p < |b.es| == |b.sh| && current == At(b, p)
      requires b.sh[p] <= |key| && b.sh[p] <= |b.es[p].key| && key[..b.sh[p]] == b.es[p].key[..b.sh[p]]
      modifies this`key, this`valueAt, this`valueLength
      ensures key == b.es[p].key && valueLength == |b.es[p].value|
      ensures NextEntryOffset() == At(b, p + 1) <= |data| && data[valueAt..NextEntryOffset()] == b.es[p].value
    {
      EntryDecodes(p);
      BytesAt(p);
      hide LayoutOk, BlockBytes, Encode, EntryBytes, At, DecodeHead, DecodesTo, Wellformed;
      var head := DecodeEntry(data[current..restarts]);
      assert head.Some? && head.value.shared <= |key|;
      var h := head.value;
      ParsedHead(data, current, At(b, p + 1), restarts, b.sh[p], b.es[p], h);
      KeyRebuilt(p, h);
      key := key[..h.shared] + h.rest[..h.nonShared];
      valueAt, valueLength := restarts - |h.rest| + h.nonShared, h.valueLength;
    }

    /** Moves restart_index_ up to the restart block that current_ falls into. */
    method AdvanceRestart(ghost p: nat)
      requires Wellformed() && p < |b.es| && current == At(b, p)
      requires restartIndex < numRestarts && b.rs[restartIndex] <= p
      modifies this`restartIndex
      ensures restartIndex < numRestarts && b.rs[restartIndex] <= p
      ensures restartIndex + 1 < numRestarts ==> p <= b.rs[restartIndex + 1]
    {
      while restartIndex + 1 < numRestarts && PointBefore(restartIndex + 1)
        invariant restartIndex < numRestarts && b.rs[restartIndex] <= p
        decreases numRestarts - restartIndex
      {
        PointOrders(restartIndex + 1, p);
        restartIndex := restartIndex + 1;
      }
      if restartIndex + 1 < numRestarts {
        PointOrders(restartIndex + 1, p);
      }
    }

    predicate PointBefore(i: nat)
      requires restarts + 4 * i + 4 <= |data|
      reads this
    {
      GetRestartPoint(i) < current
    }

    lemma PointOrders(i: nat, p: nat)
      requires Wellformed() && i < numRestarts && p <= |b.es|
      ensures restarts + 4 * i + 4 <= |data| && b.rs[i] <= |b.es|
      ensures GetRestartPoint(i) < At(b, p) <==> b.rs[i] < p
    {
      RestartIsOffset(i);
      AtOrders(b, b.rs[i], p);
    }

    /** Standing on an entry is being about to parse the next. */
    lemma ReadyForNext(p: nat)
      requires StandsOn(p) && p < |b.es|
      ensures Before(p + 1)
    {
      if p + 1 < |b.es| {
        assert ShareOk(b.es, b.sh, p + 1);
      }
      hide BlockBytes, Encode, At, RestartsOk, SharesOk;
    }

    /** Block::Iter::Next */
    method Next(ghost p: nat)
      requires StandsOn(p) && IsValid()
      modifies this
      ensures StandsOn(p + 1)
    {
      StandingIsValid(p);
      ReadyForNext(p);
      hide Before, StandsOn;
      var found := ParseNextKey(p + 1);
    }

    lemma StandingIsValid(p: nat)
      requires StandsOn(p)
      ensures Wellformed() && LayoutOk(b) && numRestarts == |b.rs| && p <= |b.es|
      ensures IsValid() <==> p < |b.es|
      ensures p < |b.es| ==> NextEntryOffset() == At(b, p + 1)
      ensures p < |b.es| ==> key == b.es[p].key && current == At(b, p) && restartIndex < numRestarts
    {
      AtOrders(b, p, |b.es|);
      hide LayoutOk, BlockBytes, Encode, At;
    }

    /** Block::Iter::SeekToFirst */
    method SeekToFirst()
      requires Wellformed()
      modifies this
      ensures StandsOn(0)
    {
      assert numRestarts > 0 && b.rs[0] == 0;
      hide Before, StandsOn, Wellformed;
      SeekToRestartPoint(0);
      var found := ParseNextKey(0);
    }

    /** Block::Iter::SeekToLast */
    method SeekToLast()
      requires Wellformed()
      modifies this
      ensures StandsOn(if b.es == [] then 0 else |b.es| - 1)
    {
      hide *;
      LastRestart();
      SeekToRestartPoint(numRestarts - 1);
      ghost var p := b.rs[numRestarts - 1];
      var found := ParseNextKey(p);
      while found && NextEntryOffset() < restarts
        invariant StandsOn(p) && found == (p < |b.es|) && (if b.es == [] then p == 0 else p < |b.es|)
        decreases |b.es| - p
      {
        EndOfEntry(p, |b.es|);
        ReadyForNext(p);
        p := p + 1;
        found := ParseNextKey(p);
      }
      if found {
        EndOfEntry(p, |b.es|);
      }
    }

    lemma LastRestart()
      requires Wellformed()
      ensures 0 < numRestarts == |b.rs|
      ensures if b.es == [] then b.rs[numRestarts - 1] == 0 else b.rs[numRestarts - 1] < |b.es|
    {
      hide SharesOk, BlockBytes;
    }

    /** Where the current entry ends tells whether the next one is before entry k. */
    lemma EndOfEntry(p: nat, k: nat)
      requires StandsOn(p) && p < |b.es| && k <= |b.es|
      ensures At(b, |b.es|) == restarts
      ensures NextEntryOffset() < At(b, k) <==> p + 1 < k
    {
      AtOrders(b, p + 1, k);
      hide LayoutOk, BlockBytes, Encode, At;
    }

    /** Scans back to the last restart point before entry p; none when p is the first. */
    method RestartBefore(ghost p: nat) returns (found: bool)
      requires StandsOn(p) && p < |b.es|
      modifies this`current, this`restartIndex
      ensures !found ==> p == 0 && current == restarts && restartIndex == numRestarts
      ensures found ==> current == old(current) && restartIndex < numRestarts && b.rs[restartIndex] < p
    {
      StandingIsValid(p);
      assert Wellformed() && b.rs[0] == 0 && |b.rs| == numRestarts;
      hide StandsOn, Wellformed, LayoutOk, At, BlockBytes, Encode, RestartPoint;
      PointOrders(restartIndex, p);
      while GetRestartPoint(restartIndex) >= current
        invariant Wellformed() && current == At(b, p) && restartIndex < numRestarts && current == old(current)
        invariant restarts + 4 * restartIndex + 4 <= |data| && b.rs[restartIndex] <= |b.es|
        invariant GetRestartPoint(restartIndex) < At(b, p) <==> b.rs[restartIndex] < p
        decreases restartIndex
      {
        if restartIndex == 0 {
          current, restartIndex := restarts, numRestarts;
          return false;
        }
        restartIndex := restartIndex - 1;
        PointOrders(restartIndex, p);
      }
      found := true;
    }

    lemma BehindLast()
      requires Wellformed() && current == restarts && restartIndex == numRestarts
      ensures StandsOn(|b.es|)
    {
    }

    /** Block::Iter::Prev */
    method Prev(ghost p: nat)
      requires StandsOn(p) && IsValid()
      modifies this
      ensures StandsOn(if p == 0 then |b.es| else p - 1)
    {
      hide *;
      StandingIsValid(p);
      var original := current;
      var found := RestartBefore(p);
      if !found {
        BehindLast();
        return;
      }
      ghost var q := b.rs[restartIndex];
      SeekToRestartPoint(restartIndex);
      var parsed := ParseNextKey(q);
      while parsed && NextEntryOffset() < original
        invariant StandsOn(q) && q < p && original == At(b, p) && parsed
        decreases p - q
      {
        EndOfEntry(q, p);
        ReadyForNext(q);
        q := q + 1;
        parsed := ParseNextKey(q);
      }
      EndOfEntry(q, p);
    }

    /** The binary search: the last restart point whose key is before target, or the first. */
    method FindRestart(target: Data) returns (left: nat)
      requires Wellformed()
      ensures left < numRestarts
      ensures left > 0 ==> b.rs[left] < |b.es| && less(b.es[b.rs[left]].key, target)
    {
      left := 0;
      assert numRestarts > 0;
      hide Wellformed, DecodeHead, DecodesTo, At, LayoutOk, RestartPoint;
      var right := numRestarts - 1;
      while left < right
        invariant left <= right < numRestarts
        invariant left > 0 ==> b.rs[left] < |b.es| && less(b.es[b.rs[left]].key, target)
      {
        var mid := (left + right + 1) / 2;
        RestartEntry(mid);
        var regionOffset := GetRestartPoint(mid);
        var head := DecodeEntry(data[regionOffset..restarts]);
        assert head.Some? && head.value.shared == 0;
        var midKey := head.value.rest[..head.value.nonShared];
        if less(midKey, target) {
          left := mid;
        } else {
          right := mid - 1;
        }
      }
    }

    /** A restart point leads to an entry that is stored in full. */
    lemma RestartEntry(i: nat)
      requires Wellformed() && 0 < i < numRestarts
      ensures b.rs[i] < |b.es| && restarts + 4 * i + 4 <= |data| && GetRestartPoint(i) <= restarts
      ensures var head := DecodeHead(data[GetRestartPoint(i)..restarts]);
              && head.Some? && head.value.shared == 0 && head.value.nonShared <= |head.value.rest|
              && head.value.rest[..head.value.nonShared] == b.es[b.rs[i]].key
    {
      RestartIsOffset(i);
      RestartSharesNothing(i);
      RestartHasEntry(b, i);
      EntryDecodes(b.rs[i]);
      hide DecodeHead, LayoutOk, Encode, BlockBytes, At, RestartPoint;
    }

    /** Block::Iter::Seek */
    method Seek(target: Data)
      requires Wellformed() && StrictWeakOrder(less) && KeysAscend(less, b.es)
      modifies this
      ensures StandsOn(FirstNotBefore(less, b.es, target))
    {
      hide *;
      LastRestart();
      var left := FindRestart(target);
      ghost var p := b.rs[left];
      BeforeRestart(left, target);
      SeekToRestartPoint(left);
      while true
        invariant Before(p) && p <= |b.es|
        invariant forall i :: 0 <= i < p ==> less(b.es[i].key, target)
        decreases |b.es| - p
      {
        var found := ParseNextKey(p);
        FoundEntry(p);
        if !found || !less(key, target) {
          FirstIsUnique(less, b.es, target, p);
          return;
        }
        ReadyForNext(p);
        p := p + 1;
      }
    }

    lemma BeforeRestart(left: nat, target: Data)
      requires Wellformed() && StrictWeakOrder(less) && KeysAscend(less, b.es) && left < numRestarts
      requires left > 0 ==> b.rs[left] < |b.es| && less(b.es[b.rs[left]].key, target)
      ensures b.rs[left] <= |b.es| && forall i :: 0 <= i < b.rs[left] ==> less(b.es[i].key, target)
    {
      assert b.rs[0] == 0;
      hide SharesOk, BlockBytes;
    }

    lemma FoundEntry(p: nat)
      requires StandsOn(p)
      ensures p <= |b.es| && (p < |b.es| ==> key == b.es[p].key)
    {
    }
  }

  lemma RestartHasEntry(b: Layout, i: nat)
    requires LayoutOk(b) && 0 < i < |b.rs|
    ensures b.rs[i] < |b.es|
  {
    RestartsAscend(b.rs, b.interval, 0, i);
    if i < |b.rs| - 1 {
      RestartsAscend(b.rs, b.interval, i, |b.rs| - 1);
    }
    hide SharesOk;
  }

  lemma SliceOfSlice(s: Data, a: nat, b: nat, x: nat, y: nat)
    requires a <= b <= |s| && x <= y <= b - a
    ensures s[a..b][x..y] == s[a + x..a + y]
  {
    forall k | 0 <= k < y - x ensures s[a..b][x..y][k] == s[a + x..a + y][k] {
      assert s[a..b][x..y][k] == s[a..b][x + k];
    }
  }

  /** What ParseNextKey makes of the bytes of an entry. */
  lemma ParsedHead(data: Data, at: nat, next: nat, end: nat, shared: nat, e: Pair, h: EntryHead)
    requires at <= next <= end <= |data| && shared <= |e.key|
    requires DecodesTo(data[at..end], shared, e, end - next) && DecodeHead(data[at..end]) == Some(h)
    ensures h.shared == shared && h.valueLength == |e.value|
    ensures h.nonShared <= |h.rest| && h.rest[..h.nonShared] == e.key[shared..]
    ensures |h.rest| <= end && end - |h.rest| + h.nonShared + h.valueLength == next
    ensures data[end - |h.rest| + h.nonShared..next] == e.value
  {
    hide DecodeHead;
    var n := |h.rest|;
    assert data[at..end][end - at - n..] == data[end - n..end];
    SliceOfSlice(data, end - n, end, h.nonShared, h.nonShared + h.valueLength);
  }

  /** from begins with entry e, and left bytes follow it. */
  predicate DecodesTo(from: Data, shared: nat, e: Pair, left: int)
    requires shared <= |e.key|
  {
    && DecodeHead(from).Some?
    && var h := DecodeHead(from).value;
       && h.shared == shared && h.nonShared == |e.key| - shared && h.valueLength == |e.value|
       && |h.rest| == h.nonShared + h.valueLength + left && 0 <= left && |h.rest| <= |from|
       && h.rest[..h.nonShared] == e.key[shared..]
       && h.rest[h.nonShared..h.nonShared + h.valueLength] == e.value
       && from[|from| - |h.rest|..] == h.rest
  }

  lemma EntryLengths(shared: nat, e: Pair, rest: Data)
    requires shared <= |e.key|
    ensures |EntryBytes(shared, e)| >= |e.key| - shared + |e.value|
  {
  }

  lemma EntryReadsBack(shared: nat, e: Pair, rest: Data)
    requires shared <= |e.key| < LIMIT32 && |e.key| - shared + |e.value| + |rest| < LIMIT32
    ensures DecodesTo(EntryBytes(shared, e) + rest, shared, e, |rest|)
  {
    HeadReadsBack(shared, e, rest);
    var front, tail := VarintBytes(shared) + VarintBytes(|e.key| - shared) + VarintBytes(|e.value|), e.key[shared..] + e.value + rest;
    assert EntryBytes(shared, e) + rest == front + tail;
    hide DecodeHead, VarintBytes, EntryBytes;
  }
}
