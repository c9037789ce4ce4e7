/** table/two_level_iterator.cc: a cursor over the concatenation of blocks, driven by an
    index of separators. Blocks may be empty. */
module TwoLevelIterators {
  import opened InternalKeys
  import opened MergingIterators

  type Block = seq<Entry>

  function Flat(blocks: seq<Block>): seq<Entry> {
    if blocks == [] then [] else Flat(blocks[..|blocks| - 1]) + blocks[|blocks| - 1]
  }

  /** The flat position at which block b starts. */
  function Start(blocks: seq<Block>, b: nat): nat
    requires b <= |blocks|
  {
    |Flat(blocks[..b])|
  }

  /** index[b] is at or behind every key of block b and before every key of a later block. */
  ghost predicate Separates(index: seq<IKey>, blocks: seq<Block>) {
    && |index| == |blocks|
    && (forall a, b :: 0 <= a < b < |index| ==> Less(index[a], index[b]))
    && (forall b, e :: 0 <= b < |blocks| && e in blocks[b] ==> !Less(index[b], KeyOf(e)))
    && (forall a, b, e :: 0 <= a < b < |blocks| && e in blocks[b] ==> Less(index[a], KeyOf(e)))
  }

  lemma StartStep(blocks: seq<Block>, b: nat)
    requires b < |blocks|
    ensures Start(blocks, b + 1) == Start(blocks, b) + |blocks[b]|
  {
    assert blocks[..b + 1][..b] == blocks[..b];
  }

  lemma {:induction false} FlatAt(blocks: seq<Block>, b: nat, p: nat)
    requires b < |blocks| && p < |blocks[b]|
    ensures Start(blocks, b) + p < |Flat(blocks)| && Flat(blocks)[Start(blocks, b) + p] == blocks[b][p]
  {
    var n := |blocks| - 1;
    if b < n {
      FlatAt(blocks[..n], b, p);
      assert blocks[..n][..b] == blocks[..b];
    }
  }

  lemma WholeFlat(blocks: seq<Block>)
    ensures Start(blocks, |blocks|) == |Flat(blocks)|
  {
    assert blocks[..|blocks|] == blocks;
  }

  lemma {:induction false} FlatMembers(blocks: seq<Block>, b: nat, k: nat)
    requires b <= |blocks| && k < Start(blocks, b)
    ensures k < |Flat(blocks)| && exists a :: 0 <= a < b && Flat(blocks)[k] in blocks[a]
  {
    StartStep(blocks, b - 1);
    if k < Start(blocks, b - 1) {
      FlatMembers(blocks, b - 1, k);
    } else {
      var p := k - Start(blocks, b - 1);
      FlatAt(blocks, b - 1, p);
    }
  }

  /** FindFile or the index block's Seek: the first separator at or after key. */
  function IndexSeek(index: seq<IKey>, key: IKey): (b: nat)
    ensures b <= |index|
    ensures forall a :: 0 <= a < b ==> Less(index[a], key)
    ensures b < |index| ==> !Less(index[b], key)
  {
    if index == [] || !Less(index[0], key) then 0 else 1 + IndexSeek(index[1..], key)
  }

  lemma EarlierBlocksAreBefore(index: seq<IKey>, blocks: seq<Block>, key: IKey, b: nat)
    requires Separates(index, blocks) && b <= |blocks|
    requires forall a :: 0 <= a < b ==> Less(index[a], key)
    ensures Start(blocks, b) <= |Flat(blocks)|
    ensures forall k :: 0 <= k < Start(blocks, b) ==> Less(KeyOf(Flat(blocks)[k]), key)
  {
    WholeFlat(blocks);
    StartGrows(blocks, b, |blocks|);
    forall k | 0 <= k < Start(blocks, b) ensures Less(KeyOf(Flat(blocks)[k]), key) {
      FlatMembers(blocks, b, k);
      var a :| 0 <= a < b && Flat(blocks)[k] in blocks[a];
    }
  }

  lemma SeekWithinBlock(index: seq<IKey>, blocks: seq<Block>, key: IKey, b: nat)
    requires Separates(index, blocks) && b < |blocks| && !Less(index[b], key)
    ensures var end := Start(blocks, b) + SeekIndex(blocks[b], key);
            && end <= |Flat(blocks)|
            && (forall k :: Start(blocks, b) <= k < end ==> Less(KeyOf(Flat(blocks)[k]), key))
            && (end < |Flat(blocks)| ==> !Less(KeyOf(Flat(blocks)[end]), key))
  {
    var block, i, start := blocks[b], SeekIndex(blocks[b], key), Start(blocks, b);
    WholeFlat(blocks);
    StartStep(blocks, b);
    StartGrows(blocks, b + 1, |blocks|);
    forall k | start <= k < start + |block| ensures k < |Flat(blocks)| && Flat(blocks)[k] == block[k - start] {
      FlatAt(blocks, b, k - start);
    }
    NextBlockIsBehind(index, blocks, key, b);
  }

  /** Looking in one block only, the one the index points to, loses nothing. */
  lemma OneBlockSuffices(index: seq<IKey>, blocks: seq<Block>, key: IKey)
    requires Separates(index, blocks) && Sorted(Flat(blocks))
    ensures var b := IndexSeek(index, key);
            if b < |blocks| then SeekIndex(Flat(blocks), key) == Start(blocks, b) + SeekIndex(blocks[b], key)
            else SeekIndex(Flat(blocks), key) == |Flat(blocks)|
  {
    hide Flat, Separates, KeyOf, Less;
    var b, flat := IndexSeek(index, key), Flat(blocks);
    assert |index| == |blocks| by { SameLength(index, blocks); }
    WholeFlat(blocks);
    EarlierBlocksAreBefore(index, blocks, key, b);
    if b < |blocks| {
      SeekWithinBlock(index, blocks, key, b);
      SeekIsUnique(flat, key, Start(blocks, b) + SeekIndex(blocks[b], key));
    } else {
      SeekIsUnique(flat, key, |flat|);
    }
  }

  lemma SameLength(index: seq<IKey>, blocks: seq<Block>)
    requires Separates(index, blocks)
    ensures |index| == |blocks|
  {
  }

  lemma {:induction false} StartGrows(blocks: seq<Block>, a: nat, b: nat)
    requires a <= b <= |blocks|
    ensures Start(blocks, a) <= Start(blocks, b)
  {
    if a < b {
      StartGrows(blocks, a, b - 1);
      StartStep(blocks, b - 1);
    }
  }

  lemma NextBlockIsBehind(index: seq<IKey>, blocks: seq<Block>, key: IKey, b: nat)
    requires Separates(index, blocks) && b < |blocks| && !Less(index[b], key)
    ensures forall k :: Start(blocks, b + 1) <= k < |Flat(blocks)| ==> !Less(KeyOf(Flat(blocks)[k]), key)
  {
    WholeFlat(blocks);
    forall k | Start(blocks, b + 1) <= k < |Flat(blocks)| ensures !Less(KeyOf(Flat(blocks)[k]), key) {
      var c, p := LocateFlat(blocks, k, |blocks|);
      if c <= b {
        StartGrows(blocks, c + 1, b + 1);
        StartStep(blocks, c);
      }
      assert blocks[c][p] in blocks[c];
    }
  }

  lemma {:induction false} LocateFlat(blocks: seq<Block>, k: nat, n: nat) returns (c: nat, p: nat)
    requires n <= |blocks| && k < Start(blocks, n)
    ensures c < n && p < |blocks[c]| && Start(blocks, c) + p == k && k < |Flat(blocks)| && Flat(blocks)[k] == blocks[c][p]
  {
    StartStep(blocks, n - 1);
    if k < Start(blocks, n - 1) {
      c, p := LocateFlat(blocks, k, n - 1);
    } else {
      c, p := n - 1, k - Start(blocks, n - 1);
      FlatAt(blocks, c, p);
    }
  }

  lemma SeekIsUnique(es: seq<Entry>, key: IKey, i: nat)
    requires Sorted(es) && i <= |es|
    requires forall j :: 0 <= j < i ==> Less(KeyOf(es[j]), key)
    requires i < |es| ==> !Less(KeyOf(es[i]), key)
    ensures SeekIndex(es, key) == i
  {
  }

  class TwoLevelIterator {
    const index: seq<IKey>
    const blocks: seq<Block>
    /** Position of the index iterator; |blocks| when it is not valid. */
    var at: nat
    /** The data iterator: None for no block, otherwise the block it was made for and its
        position there, the length of the block when it is not valid. */
    var data: Option<(nat, nat)>
    ghost var position: nat

    ghost predicate Wellformed()
      reads this
    {
      && Separates(index, blocks) && Sorted(Flat(blocks))
      && at <= |blocks|
      && (data.Some? ==> data.value.0 < |blocks| && data.value.1 <= |blocks[data.value.0]|)
    }

    predicate IsValid()
      reads this
    {
      data.Some? && data.value.0 < |blocks| && data.value.1 < |blocks[data.value.0]|
    }

    ghost predicate Inv()
      reads this
    {
      && Wellformed() && position <= |Flat(blocks)|
      && (IsValid() <==> position < |Flat(blocks)|)
      && (IsValid() ==> data.value.0 == at && position == Start(blocks, at) + data.value.1)
    }

    constructor (index: seq<IKey>, blocks: seq<Block>)
      requires Separates(index, blocks) && Sorted(Flat(blocks))
      ensures Inv() && !IsValid() && this.index == index && this.blocks == blocks
    {
      this.index, this.blocks := index, blocks;
      at, data, position := |blocks|, None, |Flat(blocks)|;
    }

    function Get(): (e: Entry)
      reads this
      requires Inv() && IsValid()
      ensures position < |Flat(blocks)| && e == Flat(blocks)[position]
    {
      FlatAt(blocks, at, data.value.1);
      blocks[data.value.0][data.value.1]
    }

    /** Opens the block the index stands at, unless it is open already. */
    method InitDataBlock()
      requires Wellformed()
      modifies this`data
      ensures Wellformed()
      ensures at == |blocks| ==> data.None?
      ensures at < |blocks| ==> data.Some? && data.value.0 == at
    {
      if at == |blocks| {
        data := None;
      } else if data.Some? && data.value.0 == at {
      } else {
        data := Some((at, |blocks[at]|));
      }
    }

    /** q is the flat position looked for; the data iterator stands at it, or at the end
        of its block in front of it. */
    method SkipEmptyDataBlocksForward(ghost q: nat)
      requires Wellformed()
      requires at == |blocks| ==> data.None? && q == |Flat(blocks)|
      requires at < |blocks| ==> data.Some? && data.value.0 == at && q == Start(blocks, at) + data.value.1
      modifies this
      ensures Inv() && position == q
    {
      WholeFlat(blocks);
      while !IsValid()
        invariant Wellformed()
        invariant at == |blocks| ==> data.None? && q == |Flat(blocks)|
        invariant at < |blocks| ==> data.Some? && data.value.0 == at && q == Start(blocks, at) + data.value.1
        decreases |blocks| - at
      {
        if at == |blocks| {
          data, position := None, q;
          return;
        }
        StartStep(blocks, at);
        at := at + 1;
        InitDataBlock();
        if data.Some? {
          data := Some((at, 0));
        }
      }
      position := q;
      FlatAt(blocks, at, data.value.1);
    }

    /** q counts the entries up to the one looked for; the data iterator stands at it, or
        is not valid at the front of its block. */
    method SkipEmptyDataBlocksBackward(ghost q: nat)
      requires Wellformed() && q <= |Flat(blocks)|
      requires at == |blocks| ==> data.None? && q == 0
      requires at < |blocks| ==> data.Some? && data.value.0 == at
      requires at < |blocks| ==> q == Start(blocks, at) + if IsValid() then data.value.1 + 1 else 0
      modifies this
      ensures Inv() && position == if q == 0 then |Flat(blocks)| else q - 1
    {
      while !IsValid()
        invariant Wellformed()
        invariant at == |blocks| ==> data.None? && q == 0
        invariant at < |blocks| ==> data.Some? && data.value.0 == at
        invariant at < |blocks| ==> q == Start(blocks, at) + if IsValid() then data.value.1 + 1 else 0
        decreases if at == |blocks| then 0 else at + 1
      {
        if at == |blocks| {
          data, position := None, |Flat(blocks)|;
          return;
        }
        if at == 0 {
          assert Start(blocks, 0) == 0;
          at := |blocks|;
        } else {
          StartStep(blocks, at - 1);
          at := at - 1;
        }
        InitDataBlock();
        if data.Some? {
          data := Some((at, CursorLast(blocks[at])));
        }
      }
      position := q - 1;
      FlatAt(blocks, at, data.value.1);
    }

    method Seek(target: IKey)
      requires Inv()
      modifies this
      ensures Inv() && position == SeekIndex(Flat(blocks), target)
    {
      at := IndexSeek(index, target);
      OneBlockSuffices(index, blocks, target);
      InitDataBlock();
      if data.Some? {
        data := Some((at, SeekIndex(blocks[at], target)));
      }
      SkipEmptyDataBlocksForward(SeekIndex(Flat(blocks), target));
    }

    method SeekToFirst()
      requires Inv()
      modifies this
      ensures Inv() && position == 0
    {
      at := 0;
      InitDataBlock();
      if data.Some? {
        data := Some((at, 0));
      }
      SkipEmptyDataBlocksForward(0);
    }

    method SeekToLast()
      requires Inv()
      modifies this
      ensures Inv() && position == CursorLast(Flat(blocks))
    {
      at := if |blocks| == 0 then 0 else |blocks| - 1;
      WholeFlat(blocks);
      InitDataBlock();
      if data.Some? {
        StartStep(blocks, at);
        data := Some((at, CursorLast(blocks[at])));
      }
      SkipEmptyDataBlocksBackward(|Flat(blocks)|);
    }

    method Next()
      requires Inv() && IsValid()
      modifies this
      ensures Inv() && position == old(position) + 1
    {
      data := Some((data.value.0, data.value.1 + 1));
      SkipEmptyDataBlocksForward(position + 1);
    }

    method Prev()
      requires Inv() && IsValid()
      modifies this
      ensures Inv() && position == CursorPrev(Flat(blocks), old(position))
    {
      data := Some((data.value.0, CursorPrev(blocks[at], data.value.1)));
      SkipEmptyDataBlocksBackward(position);
    }
  }
}
