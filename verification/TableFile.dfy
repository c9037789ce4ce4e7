/** table/table_builder.cc and table/table.cc: blocks, separators and filters, and the
    point lookup that opens one block only. */
module TableFile {
  import opened InternalKeys
  import opened TwoLevelIterators
  import F = TableFilter
  import Version
  import Files

  /** A finished table: index keys, the blocks they lead to, where those stand in the
      file, and the filters. */
  datatype Table = Table(index: seq<IKey>, blocks: seq<Block>, offsets: seq<nat>, filters: seq<F.Bloom>)

  /** The (offset, user key) pairs the filters have to answer for. */
  ghost function KeysAt(blocks: seq<Block>, offsets: seq<nat>): set<(nat, UserKey)>
    requires |offsets| == |blocks|
  {
    set b, e | 0 <= b < |blocks| && e in blocks[b] :: (offsets[b], e.user)
  }

  /** The index key of a block against an entry of a later one: the block's last key
      itself, or a key with a smaller user key. Lying in between would not be enough:
      see LooseSeparatorLosesEntry. */
  ghost predicate Tight(sep: IKey, block: Block, e: Entry) {
    (block != [] && sep == KeyOf(block[|block| - 1])) || sep.user < e.user
  }

  ghost predicate TightIndex(index: seq<IKey>, blocks: seq<Block>)
    requires |index| == |blocks|
  {
    forall a, b, e :: 0 <= a < b < |blocks| && e in blocks[b] ==> Tight(index[a], blocks[a], e)
  }

  ghost predicate TableOk(t: Table, hash: F.Hash) {
    && |t.offsets| == |t.blocks|
    && Separates(t.index, t.blocks) && TightIndex(t.index, t.blocks) && Sorted(Flat(t.blocks))
    && F.FiltersCover(t.filters, hash, KeysAt(t.blocks, t.offsets))
  }

  /** Every index key chosen so far stands at or behind its block and before all that
      comes later. */
  ghost predicate IndexOk(index: seq<IKey>, blocks: seq<Block>, last: Block) {
    && |index| <= |blocks|
    && (forall a, b :: 0 <= a < b < |index| ==> Less(index[a], index[b]))
    && (forall b, e :: 0 <= b < |index| && e in blocks[b] ==> !Less(index[b], KeyOf(e)))
    && (forall a, b, e :: 0 <= a < |index| && a < b < |blocks| && e in blocks[b] ==> Before(index[a], blocks[a], e))
    && (forall a, e :: 0 <= a < |index| && e in last ==> Before(index[a], blocks[a], e))
  }

  ghost predicate Before(sep: IKey, block: Block, e: Entry) {
    Less(sep, KeyOf(e)) && Tight(sep, block, e)
  }

  lemma AppendToSorted(es: seq<Entry>, e: Entry)
    requires Sorted(es) && (es != [] ==> Less(KeyOf(es[|es| - 1]), KeyOf(e)))
    ensures Sorted(es + [e])
    ensures forall x :: x in es ==> Less(KeyOf(x), KeyOf(e))
  {
    assert forall i :: 0 <= i < |es| - 1 ==> Less(KeyOf(es[i]), KeyOf(es[|es| - 1]));
  }

  lemma FlatSnoc(blocks: seq<Block>, block: Block)
    ensures Flat(blocks + [block]) == Flat(blocks) + block
  {
    assert (blocks + [block])[..|blocks|] == blocks;
  }

  lemma {:induction false} InFlat(blocks: seq<Block>, b: nat, e: Entry)
    requires b < |blocks| && e in blocks[b]
    ensures e in Flat(blocks)
  {
    var p :| 0 <= p < |blocks[b]| && blocks[b][p] == e;
    FlatAt(blocks, b, p);
  }

  class TableBuilder {
    const filter: F.FilterBlockBuilder
    var index: seq<IKey>
    var blocks: seq<Block>
    var offsets: seq<nat>
    var dataBlock: Block
    var lastKey: IKey
    var pendingIndexEntry: bool
    var offset: nat
    /** Everything added. */
    ghost var all: seq<Entry>

    ghost predicate Valid()
      reads this, filter
    {
      && all == Flat(blocks) + dataBlock && Sorted(all)
      && (forall b :: 0 <= b < |blocks| ==> blocks[b] != [])
      && |offsets| == |blocks|
      && (all != [] ==> lastKey == KeyOf(all[|all| - 1]))
      && |index| + (if pendingIndexEntry then 1 else 0) == |blocks|
      && (pendingIndexEntry ==> dataBlock == [])
      && (!pendingIndexEntry && dataBlock == [] ==> blocks == [])
      && IndexOk(index, blocks, dataBlock)
      && FilterOk(dataBlock)
    }

    /** The filter knows the keys of all blocks, and those of the one being filled. */
    ghost predicate FilterOk(block: Block)
      requires |offsets| == |blocks|
      reads `blocks, `offsets, `offset, filter
    {
      && filter.Valid() && filter.current == offset && |filter.filters| == offset / F.FILTER_BASE
      && KeysAt(blocks, offsets) <= filter.added
      && forall e :: e in block ==> (offset, e.user) in filter.added
    }

    constructor (hash: F.Hash, bitsPerKey: nat, k: nat)
      requires 1 <= k <= 30
      ensures Valid() && all == [] && fresh(filter) && filter.hash == hash
    {
      filter := new F.FilterBlockBuilder(hash, bitsPerKey, k);
      index, blocks, offsets, dataBlock := [], [], [], [];
      lastKey, pendingIndexEntry, offset, all := IKey(0, 0), false, 0, [];
    }

    /** What InternalKeyComparator::FindShortestSeparator may choose, whatever the user
        comparator: the last key, or the earliest key of a user key in between. */
    method ChooseSeparator(next: IKey) returns (sep: IKey)
      requires Less(lastKey, next)
      ensures !Less(sep, lastKey) && Less(sep, next)
      ensures sep == lastKey || sep.user < next.user
    {
      sep := lastKey;
      var shortened: IKey, shorter: bool := *, *;
      if shorter && lastKey.user < shortened.user < next.user {
        sep := shortened;
      }
    }

    /** The index entry of the block before, once the next key is known. */
    method AddPendingIndexEntry(e: Entry)
      requires Valid() && (all != [] ==> Less(KeyOf(all[|all| - 1]), KeyOf(e)))
      modifies this`index, this`pendingIndexEntry
      ensures |index| == |blocks| && IndexOk(index, blocks, dataBlock) && !pendingIndexEntry
      ensures index != [] ==> dataBlock != [] || Before(index[|index| - 1], blocks[|index| - 1], e)
    {
      hide IndexOk;
      if pendingIndexEntry {
        LastBlockEndsAll(blocks);
        assert all == Flat(blocks);
        var sep := ChooseSeparator(KeyOf(e));
        IndexExtends(index, blocks, dataBlock, sep, all);
        index := index + [sep];
        pendingIndexEntry := false;
      }
    }

    method Add(e: Entry)
      requires Valid() && (all != [] ==> Less(KeyOf(all[|all| - 1]), KeyOf(e)))
      modifies this, filter
      ensures Valid() && all == old(all) + [e]
    {
      hide *;
      Unfold();
      AppendToSorted(all, e);
      AddPendingIndexEntry(e);
      IndexBeforeNext(index, blocks, dataBlock, all, e);
      AddFilterKey(e);
      lastKey := KeyOf(e);
      assert Flat(blocks) + dataBlock + [e] == Flat(blocks) + (dataBlock + [e]);
      dataBlock := dataBlock + [e];
      all := all + [e];
      Fold();
    }

    method AddFilterKey(e: Entry)
      requires |offsets| == |blocks| && FilterOk(dataBlock)
      modifies filter
      ensures FilterOk(dataBlock + [e])
    {
      hide KeysAt, F.FilterBlockBuilder.Valid;
      filter.AddKey(e.user);
    }

    lemma Unfold()
      requires Valid()
      ensures all == Flat(blocks) + dataBlock && Sorted(all) && |offsets| == |blocks|
      ensures (forall b :: 0 <= b < |blocks| ==> blocks[b] != []) && FilterOk(dataBlock)
    {
      hide IndexOk, Sorted, Flat, FilterOk;
    }

    lemma Fold()
      requires all == Flat(blocks) + dataBlock && Sorted(all) && |offsets| == |blocks| == |index|
      requires forall b :: 0 <= b < |blocks| ==> blocks[b] != []
      requires dataBlock != [] && lastKey == KeyOf(all[|all| - 1]) && !pendingIndexEntry && IndexOk(index, blocks, dataBlock)
      requires FilterOk(dataBlock)
      ensures Valid()
    {
      hide IndexOk, Sorted, Flat, FilterOk;
    }

    /** Flush: the data block is written; size is what it takes in the file. */
    method Flush(size: nat)
      requires Valid() && size > 0
      modifies this, filter
      ensures Valid() && all == old(all) && dataBlock == []
    {
      if dataBlock == [] {
        return;
      }
      CloseDataBlock(size);
      hide *;
      filter.StartBlock(offset);
      Started();
    }

    /** All of Valid but for the filter, which has not yet been told of the next block. */
    ghost predicate Closed(added: set<(nat, UserKey)>)
      reads this
    {
      && all == Flat(blocks) && dataBlock == [] && Sorted(all)
      && blocks != [] && (forall b :: 0 <= b < |blocks| ==> blocks[b] != [])
      && |offsets| == |blocks|
      && (all != [] ==> lastKey == KeyOf(all[|all| - 1]))
      && |index| + 1 == |blocks| && pendingIndexEntry
      && IndexOk(index, blocks, [])
      && KeysAt(blocks, offsets) <= added
    }

    method CloseDataBlock(size: nat)
      requires Valid() && dataBlock != []
      modifies this`offsets, this`blocks, this`dataBlock, this`offset, this`pendingIndexEntry
      ensures Closed(filter.added) && filter.Valid() && filter.current <= offset
    {
      hide IndexOk, Sorted, Flat, KeysAt, F.FilterBlockBuilder.Valid;
      FlatSnoc(blocks, dataBlock);
      CloseBlock(index, blocks, dataBlock);
      KeysOfClosed(blocks, offsets, dataBlock, offset);
      offsets := offsets + [offset];
      blocks := blocks + [dataBlock];
      dataBlock := [];
      offset := offset + size;
      pendingIndexEntry := true;
    }

    lemma Started()
      requires Closed(filter.added) && filter.Valid() && filter.current == offset && |filter.filters| == offset / F.FILTER_BASE
      ensures Valid() && dataBlock == []
    {
      hide IndexOk, Sorted, Flat, KeysAt, F.FilterBlockBuilder.Valid;
      assert Flat(blocks) + [] == Flat(blocks);
    }

    /** The index entry of the last block. */
    method AddLastIndexEntry()
      requires Valid() && dataBlock == []
      modifies this`index, this`pendingIndexEntry
      ensures |index| == |blocks| && IndexOk(index, blocks, [])
    {
      hide IndexOk;
      if pendingIndexEntry {
        LastBlockEndsAll(blocks);
        assert all == Flat(blocks);
        var shortened: IKey := *;
        var successor := if lastKey.user < shortened.user then shortened else lastKey;
        IndexExtends(index, blocks, dataBlock, successor, all);
        index := index + [successor];
        pendingIndexEntry := false;
      }
    }

    method Finish(size: nat) returns (t: Table)
      requires Valid() && size > 0
      modifies this, filter
      ensures TableOk(t, filter.hash) && Flat(t.blocks) == old(all)
    {
      hide IndexOk, KeysAt, Sorted, Separates, TightIndex, F.FiltersCover;
      Flush(size);
      AddLastIndexEntry();
      IndexIsComplete(index, blocks);
      assert all == Flat(blocks);
      ghost var added := filter.added;
      var filters := filter.Finish();
      FewerKeysCovered(filters, filter.hash, added, KeysAt(blocks, offsets));
      t := Table(index, blocks, offsets, filters);
    }
  }

  lemma IndexIsComplete(index: seq<IKey>, blocks: seq<Block>)
    requires IndexOk(index, blocks, []) && |index| == |blocks|
    ensures Separates(index, blocks) && TightIndex(index, blocks)
  {
    forall a, b, e | 0 <= a < b < |blocks| && e in blocks[b] ensures Before(index[a], blocks[a], e) {}
  }

  lemma FewerKeysCovered(filters: seq<F.Bloom>, hash: F.Hash, added: set<(nat, UserKey)>, keys: set<(nat, UserKey)>)
    requires F.FiltersCover(filters, hash, added) && keys <= added
    ensures F.FiltersCover(filters, hash, keys)
  {
  }

  lemma CloseBlock(index: seq<IKey>, blocks: seq<Block>, last: Block)
    requires IndexOk(index, blocks, last) && |index| == |blocks|
    ensures IndexOk(index, blocks + [last], [])
  {
  }

  lemma KeysOfClosed(blocks: seq<Block>, offsets: seq<nat>, last: Block, offset: nat)
    requires |offsets| == |blocks|
    ensures KeysAt(blocks + [last], offsets + [offset]) <= KeysAt(blocks, offsets) + set e | e in last :: (offset, e.user)
  {
  }

  /** Table::InternalGet followed by SaveValue: one index lookup, perhaps the filter, one
      block. It answers exactly as a lookup in the whole table: the newest entry of the
      key up to s is handed over whenever there is one. */
  method InternalGet(t: Table, hash: F.Hash, user: UserKey, s: nat) returns (r: Option<Entry>)
    requires TableOk(t, hash)
    ensures Version.Finds(Entries(Flat(t.blocks)), user, s, r)
  {
    var key := LookupKey(user, s);
    var b := IndexSeek(t.index, key);
    OneBlockSuffices(t.index, t.blocks, key);
    SeekFindsNewest(Flat(t.blocks), user, s);
    ghost var i := SeekIndex(Flat(t.blocks), key);
    r := None;
    if b < |t.index| {
      var mayMatch := F.KeyMayMatch(t.filters, hash, t.offsets[b], user, KeysAt(t.blocks, t.offsets));
      var j := SeekIndex(t.blocks[b], key);
      if j < |t.blocks[b]| {
        FlatAt(t.blocks, b, j);
        assert t.blocks[b][j] in t.blocks[b];
        if mayMatch && t.blocks[b][j].user == user {
          r := Some(t.blocks[b][j]);
        }
      } else if i < |Flat(t.blocks)| {
        FirstBehindBlock(t, hash, user, s, b);
      }
    }
  }

  /** When the block the index points to ends before the lookup key, the table holds
      nothing of the user key up to s: a tight separator would have led further. */
  lemma FirstBehindBlock(t: Table, hash: F.Hash, user: UserKey, s: nat, b: nat)
    requires TableOk(t, hash) && b < |t.index| && !Less(t.index[b], LookupKey(user, s))
    requires SeekIndex(t.blocks[b], LookupKey(user, s)) == |t.blocks[b]|
    requires SeekIndex(Flat(t.blocks), LookupKey(user, s)) == Start(t.blocks, b) + |t.blocks[b]| < |Flat(t.blocks)|
    ensures Flat(t.blocks)[SeekIndex(Flat(t.blocks), LookupKey(user, s))].user != user
  {
    var i := SeekIndex(Flat(t.blocks), LookupKey(user, s));
    WholeFlat(t.blocks);
    StartStep(t.blocks, b);
    var c, p := LocateFlat(t.blocks, i, |t.blocks|);
    if c <= b {
      StartGrows(t.blocks, c + 1, b + 1);
      StartStep(t.blocks, c);
    }
    assert c > b && t.blocks[c][p] in t.blocks[c];
    assert Tight(t.index[b], t.blocks[b], t.blocks[c][p]);
  }

  /** A separator that merely lies between the last key of a block and the first of the
      next may cut through the versions of one user key: here the lookup of key 1 at
      sequence 7 opens the first block, and misses the entry in the second. */
  lemma LooseSeparatorLosesEntry()
    ensures var blocks := [[Entry(1, 9, Put, [])], [Entry(1, 5, Put, [])]];
            var index := [IKey(1, Pack(6, Put)), IKey(1, Pack(5, Put))];
            && Separates(index, blocks) && !TightIndex(index, blocks)
            && IndexSeek(index, LookupKey(1, 7)) == 0
            && SeekIndex(blocks[0], LookupKey(1, 7)) == |blocks[0]|
            && IsNewest({Entry(1, 9, Put, []), Entry(1, 5, Put, [])}, 1, 7, Entry(1, 5, Put, []))
  {
    var blocks := [[Entry(1, 9, Put, [])], [Entry(1, 5, Put, [])]];
    var index := [IKey(1, Pack(6, Put)), IKey(1, Pack(5, Put))];
    assert blocks[1][0] in blocks[1] && blocks[0] == [blocks[0][0]];
    assert !Tight(index[0], blocks[0], blocks[1][0]);
    assert blocks[0][1..] == [];
  }

  lemma LastBlockEndsAll(blocks: seq<Block>)
    requires blocks != [] && blocks[|blocks| - 1] != []
    ensures Flat(blocks) != [] && Flat(blocks)[|Flat(blocks)| - 1] == blocks[|blocks| - 1][|blocks[|blocks| - 1]| - 1]
  {
  }

  /** A key at or behind everything added stands behind every index key. */
  lemma BehindIndex(index: seq<IKey>, blocks: seq<Block>, sep: IKey)
    requires IndexOk(index, blocks, []) && |index| + 1 == |blocks| && blocks[|index|] != []
    requires forall x :: x in blocks[|index|] ==> !Less(sep, KeyOf(x))
    ensures forall a :: 0 <= a < |index| ==> Less(index[a], sep)
  {
    hide Tight;
    var e := blocks[|index|][0];
    assert e in blocks[|index|];
    forall a | 0 <= a < |index| ensures Less(index[a], sep) {
      assert Before(index[a], blocks[a], e);
    }
  }

  /** The separator of the block just closed. */
  lemma IndexExtends(index: seq<IKey>, blocks: seq<Block>, last: Block, sep: IKey, all: seq<Entry>)
    requires IndexOk(index, blocks, last) && |index| + 1 == |blocks| && last == []
    requires all == Flat(blocks) && Sorted(all) && all != []
    requires blocks[|blocks| - 1] != []
    requires !Less(sep, KeyOf(all[|all| - 1]))
    ensures IndexOk(index + [sep], blocks, last)
  {
    hide Before, Flat;
    var n := |blocks| - 1;
    forall x | x in blocks[n] ensures !Less(sep, KeyOf(x)) {
      InFlat(blocks, n, x);
      var i :| 0 <= i < |all| && all[i] == x;
    }
    BehindIndex(index, blocks, sep);
  }

  /** Index keys stay before whatever is added next. */
  lemma {:induction false} IndexBeforeNext(index: seq<IKey>, blocks: seq<Block>, last: Block, all: seq<Entry>, e: Entry)
    requires IndexOk(index, blocks, last) && |index| == |blocks|
    requires all == Flat(blocks) + last && forall x :: x in all ==> Less(KeyOf(x), KeyOf(e))
    requires forall b :: 0 <= b < |blocks| ==> blocks[b] != []
    requires index != [] ==> last != [] || Before(index[|index| - 1], blocks[|index| - 1], e)
    ensures IndexOk(index, blocks, last + [e])
  {
    forall a | 0 <= a < |index| ensures Before(index[a], blocks[a], e) {
      if last != [] {
        assert last[0] in last && last[0] in all;
        assert Before(index[a], blocks[a], last[0]);
        BeforeLater(index[a], blocks[a], last[0], e, all);
      } else if a + 1 < |index| {
        assert blocks[a + 1][0] in blocks[a + 1];
        InFlat(blocks, a + 1, blocks[a + 1][0]);
        assert blocks[a + 1][0] in all && Before(index[a], blocks[a], blocks[a + 1][0]);
        BeforeLater(index[a], blocks[a], blocks[a + 1][0], e, all);
      }
    }
  }

  lemma BeforeLater(sep: IKey, block: Block, x: Entry, e: Entry, all: seq<Entry>)
    requires Before(sep, block, x) && x in all && forall y :: y in all ==> Less(KeyOf(y), KeyOf(e))
    ensures Before(sep, block, e)
  {
  }
}
