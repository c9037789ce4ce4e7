/** table/merger.cc: k child cursors, one cursor over their sorted union. */
module MergingIterators {
  import opened InternalKeys

  type Child = seq<Entry>

  // ---------- a cursor over one sorted sequence: a position, |es| when not valid ----------

  function CursorLast(es: seq<Entry>): nat {
    if es == [] then 0 else |es| - 1
  }

  function CursorPrev(es: seq<Entry>, pos: nat): nat
    requires pos < |es|
  {
    if pos == 0 then |es| else pos - 1
  }

  // ---------- ranks in the merged sequence ----------

  function RankIn(merged: seq<Entry>, e: Entry): nat {
    SeekIndex(merged, KeyOf(e))
  }

  ghost predicate Holds(children: seq<Child>, c: nat, j: nat, e: Entry) {
    c < |children| && j < |children[c]| && children[c][j] == e
  }

  ghost predicate Held(children: seq<Child>, e: Entry) {
    exists c, j :: Holds(children, c, j, e)
  }

  ghost predicate DistinctKeys(children: seq<Child>) {
    forall c, d, i, j ::
      0 <= c < |children| && 0 <= d < |children| && c != d && 0 <= i < |children[c]| && 0 <= j < |children[d]|
      ==> KeyOf(children[c][i]) != KeyOf(children[d][j])
  }

  /** merged is the sorted union of the children, whose keys are pairwise distinct. */
  ghost predicate IsMerge(children: seq<Child>, merged: seq<Entry>) {
    && Sorted(merged)
    && (forall c :: 0 <= c < |children| ==> Sorted(children[c]))
    && (forall c, j :: 0 <= c < |children| && 0 <= j < |children[c]| ==> children[c][j] in merged)
    && (forall p :: 0 <= p < |merged| ==> Held(children, merged[p]))
    && DistinctKeys(children)
  }

  lemma RankIsIndex(merged: seq<Entry>, p: nat)
    requires Sorted(merged) && p < |merged|
    ensures RankIn(merged, merged[p]) == p
  {
  }

  lemma RankFacts(children: seq<Child>, merged: seq<Entry>, c: nat, j: nat)
    requires IsMerge(children, merged) && c < |children| && j < |children[c]|
    ensures var r := RankIn(merged, children[c][j]); r < |merged| && merged[r] == children[c][j]
  {
    assert children[c][j] in merged;
    var p :| 0 <= p < |merged| && merged[p] == children[c][j];
    RankIsIndex(merged, p);
  }

  lemma RankOrder(merged: seq<Entry>, a: Entry, b: Entry)
    requires Sorted(merged) && a in merged && b in merged
    ensures RankIn(merged, a) < RankIn(merged, b) <==> Less(KeyOf(a), KeyOf(b))
    ensures RankIn(merged, a) == RankIn(merged, b) <==> a == b
  {
    var p :| 0 <= p < |merged| && merged[p] == a;
    var q :| 0 <= q < |merged| && merged[q] == b;
    RankIsIndex(merged, p);
    RankIsIndex(merged, q);
  }

  /** Every child stands at its first entry of rank p or more. */
  ghost predicate AtSplit(children: seq<Child>, merged: seq<Entry>, at: seq<nat>, p: nat) {
    && |at| == |children|
    && forall c :: 0 <= c < |children| ==> ChildAtSplit(children[c], merged, at[c], p)
  }

  ghost predicate ChildAtSplit(child: Child, merged: seq<Entry>, pos: nat, p: nat) {
    pos <= |child| && forall j :: 0 <= j < |child| ==> (j < pos <==> RankIn(merged, child[j]) < p)
  }

  /** Every child stands at its last entry of rank below p, and is not valid if there is none. */
  ghost predicate BeforeSplit(children: seq<Child>, merged: seq<Entry>, at: seq<nat>, p: nat) {
    && |at| == |children|
    && forall c :: 0 <= c < |children| ==> ChildBeforeSplit(children[c], merged, at[c], p)
  }

  ghost predicate ChildBeforeSplit(child: Child, merged: seq<Entry>, pos: nat, p: nat) {
    && pos <= |child|
    && (pos == |child| ==> forall j :: 0 <= j < |child| ==> RankIn(merged, child[j]) >= p)
    && (pos < |child| ==> forall j :: 0 <= j < |child| ==> (j <= pos <==> RankIn(merged, child[j]) < p))
  }

  lemma RankBelowSeek(merged: seq<Entry>, e: Entry, key: IKey)
    requires Sorted(merged) && e in merged
    ensures RankIn(merged, e) < SeekIndex(merged, key) <==> Less(KeyOf(e), key)
  {
    var p :| 0 <= p < |merged| && merged[p] == e;
    RankIsIndex(merged, p);
    SeekSplits(merged, key, p);
  }

  lemma SeekSplits(es: seq<Entry>, key: IKey, j: nat)
    requires Sorted(es) && j < |es|
    ensures j < SeekIndex(es, key) <==> Less(KeyOf(es[j]), key)
  {
    var i := SeekIndex(es, key);
    assert i < j ==> Less(KeyOf(es[i]), KeyOf(es[j]));
  }

  lemma SeekGivesSplit(child: Child, merged: seq<Entry>, key: IKey)
    requires Sorted(child) && Sorted(merged) && forall j :: 0 <= j < |child| ==> child[j] in merged
    ensures ChildAtSplit(child, merged, SeekIndex(child, key), SeekIndex(merged, key))
  {
    hide RankIn;
    forall j | 0 <= j < |child|
      ensures j < SeekIndex(child, key) <==> RankIn(merged, child[j]) < SeekIndex(merged, key)
    {
      SeekSplits(child, key, j);
      RankBelowSeek(merged, child[j], key);
    }
  }

  /** One step back from the split, as the reverse switch does it. */
  lemma StepBackFromSplit(child: Child, merged: seq<Entry>, pos: nat, p: nat)
    requires ChildAtSplit(child, merged, pos, p)
    ensures ChildBeforeSplit(child, merged, if pos < |child| then CursorPrev(child, pos) else CursorLast(child), p)
  {
  }

  /** No other child holds the entry at rank p. */
  lemma OthersSkipRank(children: seq<Child>, merged: seq<Entry>, c: nat, i: nat, d: nat)
    requires IsMerge(children, merged)
    requires c < |children| && d < |children| && c != d && i < |children[c]|
    ensures forall j :: 0 <= j < |children[d]| ==> RankIn(merged, children[d][j]) != RankIn(merged, children[c][i])
  {
    forall j | 0 <= j < |children[d]| ensures RankIn(merged, children[d][j]) != RankIn(merged, children[c][i]) {
      RankOrder(merged, children[d][j], children[c][i]);
      assert DistinctKeys(children);
    }
  }

  /** A child that holds the entry at the split stands exactly there. */
  lemma HolderStandsAtSplit(child: Child, merged: seq<Entry>, pos: nat, p: nat, j: nat)
    requires Sorted(child) && Sorted(merged) && p < |merged| && j < |child| && child[j] == merged[p]
    requires forall k :: 0 <= k < |child| ==> child[k] in merged
    ensures ChildAtSplit(child, merged, pos, p) ==> pos == j
    ensures ChildBeforeSplit(child, merged, pos, p + 1) ==> pos == j
  {
    RankIsIndex(merged, p);
    forall k | 0 <= k < |child|
      ensures k < j ==> RankIn(merged, child[k]) < p
      ensures k > j ==> RankIn(merged, child[k]) > p
    {
      RankOrder(merged, child[k], child[j]);
    }
    assert pos < |child| ==> RankIn(merged, child[pos]) == p || child[pos] != child[j];
  }

  /** The least of the children's current entries is the merged entry at the split. */
  lemma SmallestIsNext(children: seq<Child>, merged: seq<Entry>, at: seq<nat>, p: nat) returns (c: nat)
    requires IsMerge(children, merged) && AtSplit(children, merged, at, p) && p < |merged|
    ensures c < |children| && at[c] < |children[c]| && children[c][at[c]] == merged[p]
  {
    var j;
    assert Held(children, merged[p]);
    c, j :| Holds(children, c, j, merged[p]);
    HolderStandsAtSplit(children[c], merged, at[c], p, j);
  }

  lemma LargestIsPrevious(children: seq<Child>, merged: seq<Entry>, at: seq<nat>, p: nat) returns (c: nat)
    requires IsMerge(children, merged) && BeforeSplit(children, merged, at, p) && 0 < p <= |merged|
    ensures c < |children| && at[c] < |children[c]| && children[c][at[c]] == merged[p - 1]
  {
    var j;
    assert Held(children, merged[p - 1]);
    c, j :| Holds(children, c, j, merged[p - 1]);
    HolderStandsAtSplit(children[c], merged, at[c], p - 1, j);
  }

  predicate ValidAt(children: seq<Child>, at: seq<nat>, c: nat)
    requires |at| == |children|
  {
    c < |children| && at[c] < |children[c]|
  }

  function KeyAt(children: seq<Child>, at: seq<nat>, c: nat): IKey
    requires |at| == |children| && ValidAt(children, at, c)
  {
    KeyOf(children[c][at[c]])
  }

  method SmallestChild(children: seq<Child>, at: seq<nat>) returns (smallest: Option<nat>)
    requires |at| == |children|
    ensures smallest.None? ==> forall d: nat :: !ValidAt(children, at, d)
    ensures smallest.Some? ==> ValidAt(children, at, smallest.value)
    ensures smallest.Some? ==> forall d: nat :: ValidAt(children, at, d) ==> !Less(KeyAt(children, at, d), KeyAt(children, at, smallest.value))
  {
    smallest := None;
    for c := 0 to |children|
      invariant smallest.None? ==> forall d: nat :: d < c ==> !ValidAt(children, at, d)
      invariant smallest.Some? ==> ValidAt(children, at, smallest.value)
      invariant smallest.Some? ==> forall d: nat :: d < c && ValidAt(children, at, d) ==>
          !Less(KeyAt(children, at, d), KeyAt(children, at, smallest.value))
    {
      if ValidAt(children, at, c) && (smallest.None? || Less(KeyAt(children, at, c), KeyAt(children, at, smallest.value))) {
        smallest := Some(c);
      }
    }
  }

  method LargestChild(children: seq<Child>, at: seq<nat>) returns (largest: Option<nat>)
    requires |at| == |children|
    ensures largest.None? ==> forall d: nat :: !ValidAt(children, at, d)
    ensures largest.Some? ==> ValidAt(children, at, largest.value)
    ensures largest.Some? ==> forall d: nat :: ValidAt(children, at, d) ==> !Less(KeyAt(children, at, largest.value), KeyAt(children, at, d))
  {
    largest := None;
    for c := |children| downto 0
      invariant largest.None? ==> forall d: nat :: c <= d ==> !ValidAt(children, at, d)
      invariant largest.Some? ==> ValidAt(children, at, largest.value)
      invariant largest.Some? ==> forall d: nat :: c <= d && ValidAt(children, at, d) ==>
          !Less(KeyAt(children, at, largest.value), KeyAt(children, at, d))
    {
      if ValidAt(children, at, c) && (largest.None? || Less(KeyAt(children, at, largest.value), KeyAt(children, at, c))) {
        largest := Some(c);
      }
    }
  }

  /** At a split, the least current entry is the merged one; past the last there is none. */
  lemma SmallestDecides(children: seq<Child>, merged: seq<Entry>, at: seq<nat>, p: nat, c: Option<nat>)
    requires IsMerge(children, merged) && AtSplit(children, merged, at, p) && p <= |merged|
    requires c.None? ==> forall d: nat :: !ValidAt(children, at, d)
    requires c.Some? ==> ValidAt(children, at, c.value)
    requires c.Some? ==> forall d: nat :: ValidAt(children, at, d) ==> !Less(KeyAt(children, at, d), KeyAt(children, at, c.value))
    ensures if p < |merged| then c.Some? && children[c.value][at[c.value]] == merged[p] else c.None?
  {
    if p < |merged| {
      var d := SmallestIsNext(children, merged, at, p);
      assert ValidAt(children, at, d);
    }
    if c.Some? {
      RankFacts(children, merged, c.value, at[c.value]);
      assert ChildAtSplit(children[c.value], merged, at[c.value], p);
      if p < |merged| {
        RankIsIndex(merged, p);
        RankOrder(merged, children[c.value][at[c.value]], merged[p]);
      }
    }
  }

  lemma LargestDecides(children: seq<Child>, merged: seq<Entry>, at: seq<nat>, p: nat, c: Option<nat>)
    requires IsMerge(children, merged) && BeforeSplit(children, merged, at, p) && p <= |merged|
    requires c.None? ==> forall d: nat :: !ValidAt(children, at, d)
    requires c.Some? ==> ValidAt(children, at, c.value)
    requires c.Some? ==> forall d: nat :: ValidAt(children, at, d) ==> !Less(KeyAt(children, at, c.value), KeyAt(children, at, d))
    ensures if p > 0 then c.Some? && children[c.value][at[c.value]] == merged[p - 1] else c.None?
  {
    if p > 0 {
      var d := LargestIsPrevious(children, merged, at, p);
      assert ValidAt(children, at, d);
    }
    if c.Some? {
      RankFacts(children, merged, c.value, at[c.value]);
      assert ChildBeforeSplit(children[c.value], merged, at[c.value], p);
      if p > 0 {
        RankIsIndex(merged, p - 1);
        RankOrder(merged, children[c.value][at[c.value]], merged[p - 1]);
      }
    }
  }

  // ---------- moving one entry on, and turning around ----------

  lemma AdvanceChild(child: Child, merged: seq<Entry>, pos: nat, p: nat)
    requires pos < |child| && ChildAtSplit(child, merged, pos, p) && RankIn(merged, child[pos]) == p
    requires forall i, j :: 0 <= i < j < |child| ==> RankIn(merged, child[i]) < RankIn(merged, child[j])
    ensures ChildAtSplit(child, merged, pos + 1, p + 1)
  {
    hide RankIn;
  }

  lemma SkipRankAbove(child: Child, merged: seq<Entry>, pos: nat, p: nat)
    requires ChildAtSplit(child, merged, pos, p)
    requires forall j :: 0 <= j < |child| ==> RankIn(merged, child[j]) != p
    ensures ChildAtSplit(child, merged, pos, p + 1)
  {
    hide RankIn;
  }

  /** Stepping the current child past rank p moves the split to p + 1. */
  lemma AdvanceSplit(children: seq<Child>, merged: seq<Entry>, at: seq<nat>, p: nat, c: nat)
    requires IsMerge(children, merged) && AtSplit(children, merged, at, p)
    requires c < |children| && at[c] < |children[c]| && p < |merged| && children[c][at[c]] == merged[p]
    ensures AtSplit(children, merged, at[c := at[c] + 1], p + 1)
  {
    hide RankIn, ChildAtSplit;
    RankIsIndex(merged, p);
    forall d | 0 <= d < |children| ensures ChildAtSplit(children[d], merged, at[c := at[c] + 1][d], p + 1) {
      if d == c {
        RanksAscend(children, merged, c);
        AdvanceChild(children[c], merged, at[c], p);
      } else {
        OthersSkipRank(children, merged, c, at[c], d);
        SkipRankAbove(children[d], merged, at[d], p);
      }
    }
  }

  lemma RetreatSplit(children: seq<Child>, merged: seq<Entry>, at: seq<nat>, p: nat, c: nat)
    requires IsMerge(children, merged) && BeforeSplit(children, merged, at, p + 1)
    requires c < |children| && at[c] < |children[c]| && p < |merged| && children[c][at[c]] == merged[p]
    ensures BeforeSplit(children, merged, at[c := CursorPrev(children[c], at[c])], p)
  {
    hide RankIn, ChildBeforeSplit;
    RankIsIndex(merged, p);
    forall d | 0 <= d < |children|
      ensures ChildBeforeSplit(children[d], merged, at[c := CursorPrev(children[c], at[c])][d], p)
    {
      if d == c {
        RanksAscend(children, merged, c);
        RetreatChild(children[c], merged, at[c], p);
      } else {
        OthersSkipRank(children, merged, c, at[c], d);
        SkipRankBelow(children[d], merged, at[d], p);
      }
    }
  }

  lemma RetreatChild(child: Child, merged: seq<Entry>, pos: nat, p: nat)
    requires pos < |child| && ChildBeforeSplit(child, merged, pos, p + 1) && RankIn(merged, child[pos]) == p
    requires forall i, j :: 0 <= i < j < |child| ==> RankIn(merged, child[i]) < RankIn(merged, child[j])
    ensures ChildBeforeSplit(child, merged, CursorPrev(child, pos), p)
  {
  }

  lemma SkipRankBelow(child: Child, merged: seq<Entry>, pos: nat, p: nat)
    requires ChildBeforeSplit(child, merged, pos, p + 1)
    requires forall j :: 0 <= j < |child| ==> RankIn(merged, child[j]) != p
    ensures ChildBeforeSplit(child, merged, pos, p)
  {
  }

  lemma RanksAscend(children: seq<Child>, merged: seq<Entry>, c: nat)
    requires IsMerge(children, merged) && c < |children|
    ensures forall i, j :: 0 <= i < j < |children[c]| ==> RankIn(merged, children[c][i]) < RankIn(merged, children[c][j])
  {
    forall i, j | 0 <= i < j < |children[c]| ensures RankIn(merged, children[c][i]) < RankIn(merged, children[c][j]) {
      RankOrder(merged, children[c][i], children[c][j]);
    }
  }

  /** Where a non-current child goes when the iterator turns to move forward from key. */
  function TurnForward(child: Child, key: IKey): nat {
    var i := SeekIndex(child, key);
    if i < |child| && KeyOf(child[i]) == key then i + 1 else i
  }

  /** Where it goes when the iterator turns to move backward from key. */
  function TurnReverse(child: Child, key: IKey): nat {
    var i := SeekIndex(child, key);
    if i < |child| then CursorPrev(child, i) else CursorLast(child)
  }

  lemma TurnsGiveSplit(children: seq<Child>, merged: seq<Entry>, p: nat, c: nat, i: nat, d: nat)
    requires IsMerge(children, merged) && p < |merged|
    requires c < |children| && i < |children[c]| && children[c][i] == merged[p]
    requires d < |children| && d != c
    ensures ChildAtSplit(children[d], merged, TurnForward(children[d], KeyOf(merged[p])), p)
    ensures ChildBeforeSplit(children[d], merged, TurnReverse(children[d], KeyOf(merged[p])), p + 1)
  {
    var key := KeyOf(merged[p]);
    RankIsIndex(merged, p);
    SeekGivesSplit(children[d], merged, key);
    assert DistinctKeys(children);
    assert TurnForward(children[d], key) == SeekIndex(children[d], key);
    OthersSkipRank(children, merged, c, i, d);
    assert ChildAtSplit(children[d], merged, SeekIndex(children[d], key), p + 1);
    StepBackFromSplit(children[d], merged, SeekIndex(children[d], key), p + 1);
  }

  lemma CurrentIsOnBothSides(children: seq<Child>, merged: seq<Entry>, p: nat, c: nat, i: nat)
    requires IsMerge(children, merged) && p < |merged|
    requires c < |children| && i < |children[c]| && children[c][i] == merged[p]
    ensures ChildAtSplit(children[c], merged, i, p)
    ensures ChildBeforeSplit(children[c], merged, i, p + 1)
  {
    RankIsIndex(merged, p);
    RanksAscend(children, merged, c);
  }

  datatype Direction = Forward | Reverse

  class MergingIterator {
    const children: seq<Child>
    ghost const merged: seq<Entry>
    /** Where each child cursor stands; the length of the child when it is not valid. */
    var at: seq<nat>
    var current: Option<nat>
    var direction: Direction
    /** Position in the sorted union; |merged| when the iterator is not valid. */
    ghost var position: nat

    predicate IsValid()
      reads this
    {
      current.Some?
    }

    /** While valid, every child stands next to the current entry, on the side the iterator moves to. */
    ghost predicate Inv()
      reads this
    {
      && IsMerge(children, merged)
      && |at| == |children|
      && position <= |merged|
      && (IsValid() <==> position < |merged|)
      && (IsValid() ==> ValidAt(children, at, current.value) && children[current.value][at[current.value]] == merged[position])
      && (IsValid() && direction.Forward? ==> AtSplit(children, merged, at, position))
      && (IsValid() && direction.Reverse? ==> BeforeSplit(children, merged, at, position + 1))
    }

    constructor (children: seq<Child>, ghost merged: seq<Entry>)
      requires IsMerge(children, merged)
      ensures Inv() && !IsValid() && this.children == children && this.merged == merged
    {
      this.children, this.merged := children, merged;
      at := seq(|children|, c requires 0 <= c < |children| => |children[c]|);
      current, direction, position := None, Forward, |merged|;
    }

    /** key() and value() */
    function Get(): (e: Entry)
      reads this
      requires Inv() && IsValid()
      ensures e == merged[position]
    {
      children[current.value][at[current.value]]
    }

    method FindSmallest(ghost p: nat)
      requires IsMerge(children, merged) && p <= |merged|
      requires AtSplit(children, merged, at, p)
      modifies this`current, this`position, this`direction
      ensures Inv() && position == p
    {
      current := SmallestChild(children, at);
      SmallestDecides(children, merged, at, p, current);
      direction, position := Forward, p;
    }

    /** p counts the merged entries before the split; the iterator lands on the last of them. */
    method FindLargest(ghost p: nat)
      requires IsMerge(children, merged) && p <= |merged|
      requires BeforeSplit(children, merged, at, p)
      modifies this`current, this`position, this`direction
      ensures Inv() && position == if p == 0 then |merged| else p - 1
    {
      current := LargestChild(children, at);
      LargestDecides(children, merged, at, p, current);
      direction, position := Reverse, if p == 0 then |merged| else p - 1;
    }

    method SeekToFirst()
      requires Inv()
      modifies this
      ensures Inv() && position == 0
    {
      at := seq(|children|, _ => 0);
      FindSmallest(0);
    }

    method SeekToLast()
      requires Inv()
      modifies this
      ensures Inv() && position == CursorLast(merged)
    {
      at := seq(|children|, c requires 0 <= c < |children| => CursorLast(children[c]));
      forall c | 0 <= c < |children| ensures ChildBeforeSplit(children[c], merged, at[c], |merged|) {
        forall j | 0 <= j < |children[c]| ensures RankIn(merged, children[c][j]) < |merged| {
          RankFacts(children, merged, c, j);
        }
      }
      FindLargest(|merged|);
    }

    method Seek(target: IKey)
      requires Inv()
      modifies this
      ensures Inv() && position == SeekIndex(merged, target)
    {
      at := seq(|children|, c requires 0 <= c < |children| => SeekIndex(children[c], target));
      forall c | 0 <= c < |children| ensures ChildAtSplit(children[c], merged, at[c], SeekIndex(merged, target)) {
        SeekGivesSplit(children[c], merged, target);
      }
      FindSmallest(SeekIndex(merged, target));
    }

    /** Repositions the other children beyond the current key and turns forward. */
    method SwitchForward()
      requires Inv() && IsValid()
      modifies this`at, this`direction
      ensures Inv() && direction.Forward?
    {
      hide IsMerge, AtSplit, BeforeSplit, TurnForward, TurnReverse;
      var cur, key := current.value, KeyOf(Get());
      for c := 0 to |children|
        invariant |at| == |children| && at[cur] == old(at)[cur]
        invariant forall d :: 0 <= d < c && d != cur ==> at[d] == TurnForward(children[d], key)
      {
        if c != cur {
          at := at[c := TurnForward(children[c], key)];
        }
      }
      direction := Forward;
      SplitAfterTurn(children, merged, at, position, cur);
    }

    /** Repositions the other children before the current key and turns back. */
    method SwitchReverse()
      requires Inv() && IsValid()
      modifies this`at, this`direction
      ensures Inv() && direction.Reverse?
    {
      hide IsMerge, AtSplit, BeforeSplit, TurnForward, TurnReverse;
      var cur, key := current.value, KeyOf(Get());
      for c := 0 to |children|
        invariant |at| == |children| && at[cur] == old(at)[cur]
        invariant forall d :: 0 <= d < c && d != cur ==> at[d] == TurnReverse(children[d], key)
      {
        if c != cur {
          at := at[c := TurnReverse(children[c], key)];
        }
      }
      direction := Reverse;
      SplitAfterTurn(children, merged, at, position, cur);
    }

    method Next()
      requires Inv() && IsValid()
      modifies this
      ensures Inv() && position == old(position) + 1
    {
      hide IsMerge, AtSplit, BeforeSplit;
      if direction != Forward {
        SwitchForward();
      }
      var cur := current.value;
      AdvanceSplit(children, merged, at, position, cur);
      at := at[cur := at[cur] + 1];
      FindSmallest(position + 1);
    }

    method Prev()
      requires Inv() && IsValid()
      modifies this
      ensures Inv() && position == CursorPrev(merged, old(position))
    {
      hide IsMerge, AtSplit, BeforeSplit;
      if direction != Reverse {
        SwitchReverse();
      }
      var cur := current.value;
      RetreatSplit(children, merged, at, position, cur);
      at := at[cur := CursorPrev(children[cur], at[cur])];
      FindLargest(position);
    }
  }

  lemma SplitAfterTurn(children: seq<Child>, merged: seq<Entry>, at: seq<nat>, p: nat, cur: nat)
    requires IsMerge(children, merged) && p < |merged| && |at| == |children|
    requires cur < |children| && at[cur] < |children[cur]| && children[cur][at[cur]] == merged[p]
    ensures (forall d :: 0 <= d < |children| && d != cur ==> at[d] == TurnForward(children[d], KeyOf(merged[p])))
            ==> AtSplit(children, merged, at, p)
    ensures (forall d :: 0 <= d < |children| && d != cur ==> at[d] == TurnReverse(children[d], KeyOf(merged[p])))
            ==> BeforeSplit(children, merged, at, p + 1)
  {
    hide ChildAtSplit, ChildBeforeSplit, TurnForward, TurnReverse;
    CurrentIsOnBothSides(children, merged, p, cur, at[cur]);
    forall d | 0 <= d < |children| && d != cur
      ensures ChildAtSplit(children[d], merged, TurnForward(children[d], KeyOf(merged[p])), p)
      ensures ChildBeforeSplit(children[d], merged, TurnReverse(children[d], KeyOf(merged[p])), p + 1)
    {
      TurnsGiveSplit(children, merged, p, cur, at[cur], d);
    }
  }
}
