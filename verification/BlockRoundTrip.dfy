/** What goes into a block comes out of it. */
module BlockRoundTrip {
  import opened InternalKeys
  import opened Coding
  import opened BlockFormat
  import opened BlockBuilders
  import opened BlockIterators

  method BuildBlock(pairs: seq<Pair>, interval: nat) returns (block: Data, ghost b: Layout)
    requires interval >= 1
    ensures b.es == pairs && b.interval == interval && SharesOk(b.es, b.sh)
    ensures RestartsOk(b.es, b.sh, b.rs, interval) && block == BlockBytes(b.es, b.sh, b.rs)
  {
    var builder := new BlockBuilder(interval);
    var i := 0;
    while i < |pairs|
      invariant fresh(builder) && builder.Valid() && !builder.finished && builder.interval == interval
      invariant 0 <= i <= |pairs| && builder.es == pairs[..i]
    {
      builder.Add(pairs[i].key, pairs[i].value);
      assert pairs[..i + 1] == pairs[..i] + [pairs[i]];
      i := i + 1;
    }
    assert pairs[..i] == pairs;
    builder.Unfold();
    block := builder.Finish();
    b := Layout(builder.es, builder.sh, builder.rs, interval);
  }

  /** For any pairs and any restart interval: reading the block forwards returns exactly
      the pairs that were added. */
  method BuildAndRead(pairs: seq<Pair>, interval: nat, less: (Data, Data) -> bool) returns (block: Data, read: seq<Pair>)
    requires interval >= 1
    ensures |block| < LIMIT32 ==> read == pairs
  {
    ghost var b: Layout;
    block, b := BuildBlock(pairs, interval);
    read := [];
    if |block| < LIMIT32 {
      assert LayoutOk(b);
      read := ReadBlock(block, less, b);
    }
  }

  method ReadBlock(block: Data, less: (Data, Data) -> bool, ghost b: Layout) returns (read: seq<Pair>)
    requires LayoutOk(b) && block == BlockBytes(b.es, b.sh, b.rs)
    ensures read == b.es
  {
    var open := OpenBlock(block);
    hide *;
    read := [];
    var it := new BlockIter(less, block, open.value.0, open.value.1, b);
    StartsWellformed(it);
    it.SeekToFirst();
    ghost var p := 0;
    it.StandingIsValid(p);
    while it.IsValid()
      invariant it.StandsOn(p) && it.b == b && p <= |b.es| && fresh(it)
      invariant it.IsValid() <==> p < |b.es|
      invariant read == b.es[..p]
      decreases |b.es| - p
    {
      var pair := Current(it, p);
      read := read + [pair];
      assert b.es[..p + 1] == b.es[..p] + [b.es[p]];
      it.Next(p);
      p := p + 1;
      it.StandingIsValid(p);
    }
    assert b.es[..p] == b.es;
  }

  lemma StartsWellformed(it: BlockIter)
    requires it.StandsOn(|it.b.es|)
    ensures it.Wellformed()
  {
  }

  /** Iterator::key and Iterator::value */
  method Current(it: BlockIter, ghost p: nat) returns (pair: Pair)
    requires it.StandsOn(p) && p < |it.b.es|
    ensures pair == it.b.es[p]
  {
    pair := Pair(it.key, it.data[it.valueAt..it.valueAt + it.valueLength]);
  }
}
