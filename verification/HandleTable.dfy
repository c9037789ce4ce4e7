/** util/cache.cc: the chained hash table of the cache. Handles are named by numbers. */
module HandleTables {
  import opened InternalKeys

  /** nullptr */
  const NULL: int := -1

  /** What identifies a cache entry. */
  datatype Name = Name(key: Data, hash: nat)

  function At(s: seq<int>, i: nat): int {
    if i < |s| then s[i] else NULL
  }

  /** The next_hash pointers lead from first through s and end. */
  ghost predicate ChainOk(first: int, nextHash: map<int, int>, s: seq<int>) {
    && first == At(s, 0)
    && forall i: nat :: i < |s| ==> s[i] >= 0 && s[i] in nextHash && nextHash[s[i]] == At(s, i + 1)
  }

  /** Every entry of the chain belongs into bucket b, and no two have the same name. */
  ghost predicate BucketOk(names: map<int, Name>, length: nat, b: nat, s: seq<int>) {
    && length > 0
    && (forall i: nat :: i < |s| ==> s[i] >= 0 && s[i] in names && names[s[i]].hash % length == b)
    && (forall i: nat, j: nat :: i < j < |s| ==> names[s[i]] != names[s[j]])
  }

  lemma ChainIgnores(first: int, nextHash: map<int, int>, s: seq<int>, h: int, v: int)
    requires ChainOk(first, nextHash, s) && h !in s
    ensures ChainOk(first, nextHash[h := v], s)
  {
  }

  /** Replacing, appending and dropping an entry of a chain through the slot that points to
      it. */
  lemma ChainReplace(first: int, nextHash: map<int, int>, s: seq<int>, i: nat, h: int)
    requires ChainOk(first, nextHash, s) && i <= |s| && h >= 0 && h !in s && Distinct(s)
    ensures var s' := if i < |s| then s[i := h] else s + [h];
            var linked := nextHash[h := if i < |s| then nextHash[s[i]] else NULL];
            ChainOk(if i == 0 then h else first, if i == 0 then linked else linked[s[i - 1] := h], s')
  {
  }

  ghost predicate Distinct(c: seq<int>) {
    forall i: nat, j: nat :: i < j < |c| ==> c[i] != c[j]
  }

  function Without(c: seq<int>, i: nat): seq<int>
    requires i < |c|
  {
    c[..i] + c[i + 1..]
  }

  lemma WithoutAt(c: seq<int>, i: nat)
    requires i < |c| && Distinct(c)
    ensures Distinct(Without(c, i)) && |Without(c, i)| == |c| - 1
    ensures forall j: nat :: j < |c| - 1 ==> Without(c, i)[j] == if j < i then c[j] else c[j + 1]
    ensures forall x :: x in Without(c, i) <==> x in c && x != c[i]
  {
    var d := Without(c, i);
    forall x | x in c && x != c[i] ensures x in d {
      var k: nat :| k < |c| && c[k] == x;
      assert k < i ==> d[k] == x;
      assert k > i ==> d[k - 1] == x;
    }
  }

  lemma ChainDrop(first: int, nextHash: map<int, int>, s: seq<int>, i: nat)
    requires ChainOk(first, nextHash, s) && i < |s| && Distinct(s)
    ensures ChainOk(if i == 0 then nextHash[s[0]] else first,
                    if i == 0 then nextHash else nextHash[s[i - 1] := nextHash[s[i]]],
                    Without(s, i))
  {
    var s' := Without(s, i);
    WithoutAt(s, i);
    hide Without;
    var n' := if i == 0 then nextHash else nextHash[s[i - 1] := nextHash[s[i]]];
    forall j: nat | j < |s'| ensures s'[j] >= 0 && s'[j] in n' && n'[s'[j]] == At(s', j + 1) {
      if j < i {
        assert s'[j] == s[j];
      } else {
        assert s'[j] == s[j + 1];
      }
    }
  }

  ghost predicate ChainsOk(firsts: seq<int>, nextHash: map<int, int>, chains: seq<seq<int>>) {
    |chains| == |firsts| && forall b: nat :: b < |firsts| ==> ChainOk(firsts[b], nextHash, chains[b])
  }

  ghost predicate BucketsOk(names: map<int, Name>, chains: seq<seq<int>>) {
    forall b: nat :: b < |chains| ==> BucketOk(names, |chains|, b, chains[b])
  }

  ghost predicate HoldsEntries(names: map<int, Name>, chains: seq<seq<int>>, entries: set<int>) {
    && chains != []
    && (forall h :: h in entries ==> h in names && h in chains[names[h].hash % |chains|])
    && (forall b: nat, h :: b < |chains| && h in chains[b] ==> h in entries)
  }

  /** The buckets: where each chain begins, how it goes on, and what it holds. */
  ghost predicate TableOk(firsts: seq<int>, nextHash: map<int, int>, names: map<int, Name>, chains: seq<seq<int>>, entries: set<int>) {
    ChainsOk(firsts, nextHash, chains) && BucketsOk(names, chains) && HoldsEntries(names, chains, entries)
  }

  predicate Named(names: map<int, Name>, entries: set<int>, h: int, name: Name) {
    h in entries && h in names && names[h] == name
  }

  lemma NoRepeats(names: map<int, Name>, length: nat, b: nat, s: seq<int>)
    requires BucketOk(names, length, b, s)
    ensures Distinct(s)
  {
  }

  /** An entry of one bucket is in no other. */
  lemma OtherChain(names: map<int, Name>, length: nat, b: nat, s: seq<int>, c: nat, t: seq<int>)
    requires BucketOk(names, length, b, s) && BucketOk(names, length, c, t) && b != c
    ensures forall x :: x in s ==> x !in t
  {
  }

  /** A store through the slot before position i of chain b. */
  function SlotList(firsts: seq<int>, b: nat, s: seq<int>, i: nat, v: int): seq<int>
    requires b < |firsts|
  {
    if i == 0 then firsts[b := v] else firsts
  }

  function SlotNext(nextHash: map<int, int>, s: seq<int>, i: nat, v: int): map<int, int>
    requires i <= |s|
  {
    if i == 0 then nextHash else nextHash[s[i - 1] := v]
  }

  /** Chains other than b do not see a store through a slot of b, nor the pointer of a
      handle that is in no chain. */
  lemma OthersKept(firsts: seq<int>, nextHash: map<int, int>, names: map<int, Name>, chains: seq<seq<int>>, entries: set<int>,
                   b: nat, i: nat, v: int, c: nat)
    requires TableOk(firsts, nextHash, names, chains, entries) && b < |firsts| && i <= |chains[b]| && c < |firsts| && c != b
    ensures ChainOk(SlotList(firsts, b, chains[b], i, v)[c], SlotNext(nextHash, chains[b], i, v), chains[c])
  {
    OtherChain(names, |firsts|, b, chains[b], c, chains[c]);
    if i > 0 {
      assert chains[b][i - 1] in chains[b];
      ChainIgnores(firsts[c], nextHash, chains[c], chains[b][i - 1], v);
    }
  }

  lemma FreshPointer(firsts: seq<int>, nextHash: map<int, int>, names: map<int, Name>, chains: seq<seq<int>>, entries: set<int>,
                     h: int, v: int, name: Name)
    requires TableOk(firsts, nextHash, names, chains, entries) && h !in names
    ensures TableOk(firsts, nextHash[h := v], names[h := name], chains, entries)
    ensures forall b: nat :: b < |firsts| ==> h !in chains[b]
  {
    forall b: nat | b < |firsts|
      ensures h !in chains[b] && ChainOk(firsts[b], nextHash[h := v], chains[b])
      ensures BucketOk(names[h := name], |firsts|, b, chains[b])
    {
      ChainIgnores(firsts[b], nextHash, chains[b], h, v);
    }
  }

  function LinkedChain(s: seq<int>, i: nat, h: int): seq<int>
    requires i <= |s|
  {
    if i < |s| then s[i := h] else s + [h]
  }

  /** One bucket changes: the others keep what they hold. */
  lemma OneBucketChanges(names: map<int, Name>, chains: seq<seq<int>>, entries: set<int>, b: nat, s': seq<int>, gone: int, come: set<int>)
    requires BucketsOk(names, chains) && HoldsEntries(names, chains, entries) && b < |chains|
    requires BucketOk(names, |chains|, b, s')
    requires gone in chains[b] || gone == NULL
    requires forall x :: x in s' <==> (x in chains[b] && x != gone) || x in come
    requires forall x :: x in come ==> x in names && names[x].hash % |chains| == b && x != gone
    ensures BucketsOk(names, chains[b := s']) && HoldsEntries(names, chains[b := s'], entries - {gone} + come)
  {
    hide BucketOk;
    forall c: nat, x | c < |chains| && c != b && x in chains[c] ensures x != gone {
      if gone in chains[b] {
        OtherChain(names, |chains|, b, chains[b], c, chains[c]);
      } else {
        NotNull(names, |chains|, c, chains[c]);
      }
    }
  }

  lemma NotNull(names: map<int, Name>, length: nat, c: nat, s: seq<int>)
    requires BucketOk(names, length, c, s)
    ensures NULL !in s
  {
  }

  lemma ChainsAfterStore(firsts: seq<int>, nextHash: map<int, int>, names: map<int, Name>, chains: seq<seq<int>>, entries: set<int>,
                         b: nat, i: nat, v: int, s': seq<int>)
    requires TableOk(firsts, nextHash, names, chains, entries) && b < |firsts| && i <= |chains[b]|
    requires ChainOk(SlotList(firsts, b, chains[b], i, v)[b], SlotNext(nextHash, chains[b], i, v), s')
    ensures ChainsOk(SlotList(firsts, b, chains[b], i, v), SlotNext(nextHash, chains[b], i, v), chains[b := s'])
  {
    hide ChainOk, BucketsOk, HoldsEntries;
    forall c: nat | c < |firsts| && c != b
      ensures ChainOk(SlotList(firsts, b, chains[b], i, v)[c], SlotNext(nextHash, chains[b], i, v), chains[c])
    {
      OthersKept(firsts, nextHash, names, chains, entries, b, i, v, c);
    }
    hide SlotNext;
  }

  /** Linking h into chain b in place of its i-th entry, which has the same name, or at the
      end. */
  lemma LinkKeeps(firsts: seq<int>, nextHash: map<int, int>, names: map<int, Name>, chains: seq<seq<int>>, entries: set<int>,
                  b: nat, i: nat, h: int)
    requires TableOk(firsts, nextHash, names, chains, entries)
    requires h >= 0 && h in names && h in nextHash && h !in entries && b == names[h].hash % |firsts| && i <= |chains[b]|
    requires nextHash[h] == if i < |chains[b]| then nextHash[chains[b][i]] else NULL
    requires i < |chains[b]| ==> names[chains[b][i]] == names[h]
    requires i == |chains[b]| ==> forall x :: x in chains[b] ==> names[x] != names[h]
    ensures TableOk(SlotList(firsts, b, chains[b], i, h), SlotNext(nextHash, chains[b], i, h), names,
                    chains[b := LinkedChain(chains[b], i, h)], entries - {At(chains[b], i)} + {h})
  {
    var s := chains[b];
    assert h !in s && BucketOk(names, |chains|, b, s) && ChainOk(firsts[b], nextHash, s);
    NoRepeats(names, |firsts|, b, s);
    ChainReplace(firsts[b], nextHash, s, i, h);
    assert nextHash[h := nextHash[h]] == nextHash;
    LinkedMembers(names, |firsts|, b, s, i, h);
    hide ChainOk, BucketOk, BucketsOk, HoldsEntries, ChainsOk, LinkedChain;
    ChainsAfterStore(firsts, nextHash, names, chains, entries, b, i, h, LinkedChain(s, i, h));
    OneBucketChanges(names, chains, entries, b, LinkedChain(s, i, h), At(s, i), {h});
  }

  lemma LinkedMembers(names: map<int, Name>, length: nat, b: nat, s: seq<int>, i: nat, h: int)
    requires BucketOk(names, length, b, s) && i <= |s| && h >= 0 && h in names && names[h].hash % length == b && h !in s
    requires i < |s| ==> names[s[i]] == names[h]
    requires i == |s| ==> forall x :: x in s ==> names[x] != names[h]
    ensures BucketOk(names, length, b, LinkedChain(s, i, h))
    ensures forall x :: x in LinkedChain(s, i, h) <==> (x in s && x != At(s, i)) || x == h
  {
    var s' := LinkedChain(s, i, h);
    NoRepeats(names, length, b, s);
    forall j: nat | j < |s| ensures s[j] in s {
    }
    forall x | x in s && x != At(s, i) ensures x in s' {
      var k :| 0 <= k < |s| && s[k] == x;
      assert s'[k] == x;
    }
    assert s'[i] == h;
    forall x | x in s' ensures (x in s && x != At(s, i)) || x == h {
      var k: nat :| k < |s'| && s'[k] == x;
      assert k != i ==> s[k] == x;
    }
  }

  /** Unlinking the i-th entry of chain b. */
  lemma UnlinkKeeps(firsts: seq<int>, nextHash: map<int, int>, names: map<int, Name>, chains: seq<seq<int>>, entries: set<int>,
                    b: nat, i: nat)
    requires TableOk(firsts, nextHash, names, chains, entries) && b < |firsts| && i < |chains[b]| && chains[b][i] in nextHash
    ensures var s, v := chains[b], nextHash[chains[b][i]];
            TableOk(SlotList(firsts, b, s, i, v), SlotNext(nextHash, s, i, v), names, chains[b := Without(s, i)], entries - {s[i]})
  {
    var s, v := chains[b], nextHash[chains[b][i]];
    assert BucketOk(names, |chains|, b, s) && ChainOk(firsts[b], nextHash, s);
    NoRepeats(names, |firsts|, b, s);
    ChainDrop(firsts[b], nextHash, s, i);
    DroppedMembers(names, |firsts|, b, s, i);
    var s' := Without(s, i);
    hide ChainOk, BucketOk, BucketsOk, HoldsEntries, ChainsOk;
    ChainsAfterStore(firsts, nextHash, names, chains, entries, b, i, v, s');
    OneBucketChanges(names, chains, entries, b, s', s[i], {});
    assert entries - {s[i]} + {} == entries - {s[i]};
  }

  lemma DroppedMembers(names: map<int, Name>, length: nat, b: nat, s: seq<int>, i: nat)
    requires BucketOk(names, length, b, s) && i < |s|
    ensures BucketOk(names, length, b, Without(s, i))
    ensures forall x :: x in Without(s, i) <==> x in s && x != s[i]
  {
    NoRepeats(names, length, b, s);
    WithoutAt(s, i);
    hide Without;
  }

  class HandleTable {
    /** length_ is list_.Length */
    var list: array<int>
    var elems: nat
    var nextHash: map<int, int>
    /** key and hash of the handles put in, which never change. */
    var names: map<int, Name>
    ghost var chains: seq<seq<int>>
    ghost var entries: set<int>

    ghost predicate Valid()
      reads this, list
    {
      TableOk(list[..], nextHash, names, chains, entries) && elems == |entries|
    }

    /** The constructor resizes an empty table. */
    constructor ()
      ensures Valid() && entries == {} && names == map[] && fresh(list)
    {
      list := new int[4](_ => NULL);
      elems, nextHash, names := 0, map[], map[];
      chains, entries := seq(4, _ => []), {};
    }

    lemma BucketFacts(b: nat)
      requires Valid() && b < list.Length
      ensures |chains| == list.Length && ChainOk(list[b], nextHash, chains[b]) && BucketOk(names, list.Length, b, chains[b])
      ensures forall h :: h in chains[b] ==> h in entries && h in names
      ensures forall h :: h in entries ==> h in names && (names[h].hash % list.Length == b ==> h in chains[b])
    {
      assert list[b] == list[..][b];
    }

    /** FindPointer: the slot that points to the entry with that name, or the last slot of
        its bucket; a slot is that of the bucket itself or the next_hash of prev. */
    method FindPointer(name: Name) returns (b: nat, prev: int, ptr: int, ghost i: nat)
      requires Valid()
      ensures b < list.Length == |chains| && b == name.hash % list.Length && i <= |chains[b]|
      ensures prev == (if i == 0 then NULL else chains[b][i - 1]) && ptr == At(chains[b], i)
      ensures i < |chains[b]| ==> Named(names, entries, chains[b][i], name)
      ensures i == |chains[b]| ==> forall h :: !Named(names, entries, h, name)
    {
      assert list.Length > 0;
      b := name.hash % list.Length;
      BucketFacts(b);
      hide TableOk;
      ghost var s := chains[b];
      prev, ptr, i := NULL, list[b], 0;
      while ptr != NULL && names[ptr] != name
        invariant i <= |s| && prev == (if i == 0 then NULL else s[i - 1]) && ptr == At(s, i)
        invariant ptr != NULL ==> i < |s| && ptr in names && ptr in nextHash && nextHash[ptr] == At(s, i + 1)
        invariant forall j: nat :: j < i ==> names[s[j]] != name
        decreases |s| - i
      {
        prev, ptr, i := ptr, nextHash[ptr], i + 1;
      }
      if i < |s| {
        assert s[i] in s;
      } else {
        forall h | h in entries ensures names[h] != name {
          assert names[h].hash % list.Length == b ==> h in s;
        }
      }
    }

    /** *ptr = v, where ptr is the slot before position i of chain b. */
    method SetSlot(b: nat, prev: int, v: int, ghost i: nat)
      requires b < list.Length == |chains| && i <= |chains[b]|
      requires prev == if i == 0 then NULL else chains[b][i - 1]
      requires i > 0 ==> chains[b][i - 1] != NULL
      modifies this`nextHash, list
      ensures list[..] == SlotList(old(list[..]), b, chains[b], i, v)
      ensures nextHash == SlotNext(old(nextHash), chains[b], i, v)
    {
      if prev == NULL {
        list[b] := v;
      } else {
        nextHash := nextHash[prev := v];
      }
    }

    /** HandleTable::Lookup */
    method Lookup(name: Name) returns (h: int)
      requires Valid()
      ensures h != NULL ==> Named(names, entries, h, name)
      ensures h == NULL ==> forall x :: !Named(names, entries, x, name)
    {
      var b, prev, ptr, i := FindPointer(name);
      BucketFacts(b);
      h := ptr;
    }

    /** HandleTable::Insert: the entry of the same name, if there is one, makes room. */
    method Insert(h: int, name: Name) returns (replaced: int)
      requires Valid() && h >= 0 && h !in names
      modifies this, list
      ensures Valid() && (list == old(list) || fresh(list))
      ensures names == old(names)[h := name] && entries == old(entries) - {replaced} + {h}
      ensures replaced != NULL ==> Named(old(names), old(entries), replaced, name)
      ensures replaced == NULL ==> forall x :: !Named(old(names), old(entries), x, name)
    {
      replaced := Link(h, name);
      if replaced == NULL {
        elems := elems + 1;
        if elems > list.Length {
          Resize();
        }
      }
    }

    method Link(h: int, name: Name) returns (replaced: int)
      requires Valid() && h >= 0 && h !in names
      modifies this`nextHash, this`names, this`chains, this`entries, list
      ensures TableOk(list[..], nextHash, names, chains, entries)
      ensures names == old(names)[h := name] && entries == old(entries) - {replaced} + {h}
      ensures replaced != NULL ==> Named(old(names), old(entries), replaced, name)
      ensures replaced == NULL ==> forall x :: !Named(old(names), old(entries), x, name)
      ensures |entries| == |old(entries)| + if replaced == NULL then 1 else 0
    {
      hide *;
      LengthIsChains();
      var b, prev, ptr, i := FindPointer(name);
      BucketFacts(b);
      replaced := ptr;
      SlotFacts(b, i);
      LinkNew(list[..], nextHash, names, chains, entries, b, i, h, name);
      CountLinked(entries, replaced, h);
      nextHash := nextHash[h := NextOf(nextHash, replaced)];
      names := names[h := name];
      SetSlot(b, prev, h, i);
      chains := chains[b := LinkedChain(chains[b], i, h)];
      entries := entries - {replaced} + {h};
    }

    lemma EntriesAreNamed()
      requires Valid()
      ensures forall h :: h in entries ==> h in names
    {
    }

    lemma LengthIsChains()
      requires Valid()
      ensures TableOk(list[..], nextHash, names, chains, entries) && |list[..]| == list.Length && NULL !in entries
      ensures elems == |entries|
    {
      NotInTable(list[..], nextHash, names, chains, entries, NULL);
    }

    lemma SlotFacts(b: nat, i: nat)
      requires b < list.Length == |chains| && i <= |chains[b]| && ChainOk(list[b], nextHash, chains[b])
      ensures i < |chains[b]| ==> At(chains[b], i) == chains[b][i] && chains[b][i] >= 0 && chains[b][i] in nextHash
      ensures i == |chains[b]| ==> At(chains[b], i) == NULL
      ensures i > 0 ==> chains[b][i - 1] != NULL
      ensures forall x :: x == At(chains[b], i) && x != NULL ==> x in chains[b]
    {
    }

    /** HandleTable::Remove */
    method Remove(name: Name) returns (result: int)
      requires Valid()
      modifies this`nextHash, this`chains, this`entries, this`elems, list
      ensures Valid() && entries == old(entries) - {result}
      ensures result != NULL ==> Named(names, old(entries), result, name)
      ensures result == NULL ==> forall x :: !Named(names, old(entries), x, name)
    {
      hide *;
      LengthIsChains();
      var b, prev, ptr, i := FindPointer(name);
      BucketFacts(b);
      SlotFacts(b, i);
      result := ptr;
      if result != NULL {
        UnlinkKeeps(list[..], nextHash, names, chains, entries, b, i);
        CountUnlinked(entries, result);
        SetSlot(b, prev, nextHash[result], i);
        chains := chains[b := Without(chains[b], i)];
        entries := entries - {result};
        elems := elems - 1;
        TableIsValid();
      } else {
        assert entries - {NULL} == entries;
      }
    }

    /** HandleTable::Resize: every entry is pushed into its bucket of a larger table. */
    method Resize()
      requires Valid()
      modifies this`list, this`nextHash, this`chains
      ensures Valid() && fresh(list)
    {
      hide *;
      var newLength := 4;
      while newLength < elems
        invariant newLength >= 4
      {
        newLength := newLength * 2;
      }
      var newList := new int[newLength](_ => NULL);
      ghost var newChains: seq<seq<int>> := seq(newLength, _ => []);
      EmptyTable(newList[..], nextHash, names, newChains);
      LengthIsChains();
      ghost var t := Rehash(list[..], names, chains, entries);
      RehashStart(t, nextHash);
      var count, i := 0, 0;
      while i < list.Length
        invariant 0 <= i <= list.Length && t == Rehash(list[..], names, old(chains), entries)
        invariant list == old(list) && newList != list && newList.Length == newLength
        invariant RestOk(t, nextHash, i) && TableOk(newList[..], nextHash, names, newChains, Moved(t, i, 0))
        invariant count == |Moved(t, i, 0)| && |t.olds| == |t.firsts| == list.Length && names == old(names)
      {
        newChains, count := MoveBucket(newList, i, t, newChains, count);
        i := i + 1;
      }
      AllMoved(t, i, nextHash);
      assert elems == count;
      list := newList;
      chains := newChains;
      TableIsValid();
    }

    lemma TableIsValid()
      requires TableOk(list[..], nextHash, names, chains, entries) && elems == |entries|
      ensures Valid()
    {
    }

    /** The inner loop of Resize: the chain of bucket i, entry by entry. */
    method MoveBucket(newList: array<int>, i: nat, ghost t: Rehash, ghost newChains: seq<seq<int>>, count: nat)
      returns (ghost chains': seq<seq<int>>, count': nat)
      requires newList != list && newList.Length > 0 && i < list.Length == |t.firsts| == |t.olds|
      requires t.firsts == list[..] && t.names == names && RestOk(t, nextHash, i)
      requires TableOk(newList[..], nextHash, names, newChains, Moved(t, i, 0)) && count == |Moved(t, i, 0)|
      modifies this`nextHash, newList
      ensures RestOk(t, nextHash, i + 1)
      ensures TableOk(newList[..], nextHash, names, chains', Moved(t, i + 1, 0)) && count' == |Moved(t, i + 1, 0)|
    {
      chains', count' := newChains, count;
      ghost var k := 0;
      var h := list[i];
      BucketStarts(t, nextHash, i);
      hide TableOk, ChainOk, RestOk;
      while h != NULL
        invariant k <= |t.olds[i]| && RestOk(t, nextHash, i + 1) && ChainOk(h, nextHash, t.olds[i][k..])
        invariant TableOk(newList[..], nextHash, names, chains', Moved(t, i, k))
        invariant count' == |Moved(t, i, k)|
        decreases |t.olds[i]| - k
      {
        ChainHead(h, nextHash, t.olds[i], k);
        InBucket(t, nextHash, i, k);
        var next := nextHash[h];
        var nb := names[h].hash % newList.Length;
        MoveOne(newList[..], nextHash, chains', t, i, k);
        nextHash := nextHash[h := newList[nb]];
        newList[nb] := h;
        chains' := chains'[nb := [h] + chains'[nb]];
        h, k, count' := next, k + 1, count' + 1;
      }
      BucketEnds(h, nextHash, t, i, k);
    }
  }

  /** The table being resized, as it was. */
  datatype Rehash = Rehash(firsts: seq<int>, names: map<int, Name>, olds: seq<seq<int>>, entries: set<int>)

  /** The entries moved when buckets below i and k entries of bucket i have been. */
  ghost function Moved(t: Rehash, i: nat, k: nat): set<int>
    requires |t.olds| > 0
  {
    set x | x in t.entries && x in t.names &&
            (t.names[x].hash % |t.olds| < i
             || (t.names[x].hash % |t.olds| == i && i < |t.olds| && k <= |t.olds[i]| && x in t.olds[i][..k]))
  }

  /** The buckets from i on have not been touched. */
  ghost predicate RestOk(t: Rehash, nextHash: map<int, int>, i: nat) {
    && |t.firsts| == |t.olds| && BucketsOk(t.names, t.olds) && HoldsEntries(t.names, t.olds, t.entries)
    && forall c: nat :: i <= c < |t.olds| ==> ChainOk(t.firsts[c], nextHash, t.olds[c])
  }

  lemma RehashStart(t: Rehash, nextHash: map<int, int>)
    requires TableOk(t.firsts, nextHash, t.names, t.olds, t.entries)
    ensures RestOk(t, nextHash, 0) && |t.olds| == |t.firsts| > 0 && Moved(t, 0, 0) == {}
  {
  }

  lemma AllMoved(t: Rehash, i: nat, nextHash: map<int, int>)
    requires RestOk(t, nextHash, i) && i == |t.olds| > 0
    ensures Moved(t, i, 0) == t.entries
  {
    hide ChainOk;
    forall x | x in t.entries ensures x in Moved(t, i, 0) {
      assert t.names[x].hash % |t.olds| < |t.olds|;
    }
  }

  lemma BucketStarts(t: Rehash, nextHash: map<int, int>, i: nat)
    requires RestOk(t, nextHash, i) && i < |t.olds|
    ensures t.olds[i][0..] == t.olds[i] && ChainOk(t.firsts[i], nextHash, t.olds[i]) && RestOk(t, nextHash, i + 1)
  {
  }

  lemma ChainHead(h: int, nextHash: map<int, int>, s: seq<int>, k: nat)
    requires k <= |s| && ChainOk(h, nextHash, s[k..]) && h != NULL
    ensures k < |s| && h == s[k] && h in nextHash && ChainOk(nextHash[h], nextHash, s[k + 1..])
  {
    assert s[k..][0] == s[k];
    ChainTail(h, nextHash, s[k..]);
    assert s[k..][1..] == s[k + 1..];
  }

  lemma ChainTail(first: int, nextHash: map<int, int>, s: seq<int>)
    requires ChainOk(first, nextHash, s) && s != []
    ensures ChainOk(nextHash[s[0]], nextHash, s[1..])
  {
    forall i: nat | i < |s[1..]| ensures s[1..][i] == s[i + 1] && At(s[1..], i + 1) == At(s, i + 2) {
    }
  }

  lemma InBucket(t: Rehash, nextHash: map<int, int>, i: nat, k: nat)
    requires RestOk(t, nextHash, i + 1) && i < |t.olds| && k < |t.olds[i]|
    ensures t.olds[i][k] in t.names && t.olds[i][k] in t.entries && t.olds[i][k] >= 0 && t.names[t.olds[i][k]].hash % |t.olds| == i
  {
    assert BucketOk(t.names, |t.olds|, i, t.olds[i]);
    assert t.olds[i][k] in t.olds[i];
  }

  lemma BucketEnds(h: int, nextHash: map<int, int>, t: Rehash, i: nat, k: nat)
    requires RestOk(t, nextHash, i + 1) && i < |t.olds| && k <= |t.olds[i]| && ChainOk(h, nextHash, t.olds[i][k..]) && h == NULL
    ensures Moved(t, i, k) == Moved(t, i + 1, 0)
  {
    assert t.olds[i][k..] == [];
    assert t.olds[i][..k] == t.olds[i];
    hide ChainOk;
    forall x | x in t.entries && t.names[x].hash % |t.olds| == i ensures x in t.olds[i] {
    }
  }

  /** No two entries have the same name. */
  lemma NamesDiffer(t: Rehash, nextHash: map<int, int>, i: nat, x: int, y: int)
    requires RestOk(t, nextHash, i) && x in t.entries && y in t.entries && x != y
    ensures x in t.names && y in t.names && t.names[x] != t.names[y]
  {
    hide ChainOk;
    var b, c := t.names[x].hash % |t.olds|, t.names[y].hash % |t.olds|;
    if b == c {
      var s := t.olds[b];
      assert BucketOk(t.names, |t.olds|, b, s);
      var j: nat :| j < |s| && s[j] == x;
      var k: nat :| k < |s| && s[k] == y;
      if j < k {
        assert t.names[s[j]] != t.names[s[k]];
      } else {
        assert t.names[s[k]] != t.names[s[j]];
      }
    }
  }

  /** A name leads to at most one entry: the table is a map. */
  lemma TableIsMap(firsts: seq<int>, nextHash: map<int, int>, names: map<int, Name>, chains: seq<seq<int>>, entries: set<int>,
                   x: int, y: int, name: Name)
    requires TableOk(firsts, nextHash, names, chains, entries)
    requires Named(names, entries, x, name) && Named(names, entries, y, name)
    ensures x == y
  {
    var t := Rehash(firsts, names, chains, entries);
    RehashStart(t, nextHash);
    if x != y {
      NamesDiffer(t, nextHash, 0, x, y);
    }
  }

  lemma MovedStep(t: Rehash, nextHash: map<int, int>, i: nat, k: nat)
    requires RestOk(t, nextHash, i + 1) && i < |t.olds| && k < |t.olds[i]|
    ensures t.olds[i][k] !in Moved(t, i, k) && Moved(t, i, k + 1) == Moved(t, i, k) + {t.olds[i][k]}
    ensures |Moved(t, i, k + 1)| == |Moved(t, i, k)| + 1
  {
    InBucket(t, nextHash, i, k);
    var s := t.olds[i];
    assert BucketOk(t.names, |t.olds|, i, s);
    NoRepeats(t.names, |t.olds|, i, s);
    hide RestOk, BucketOk;
    assert s[k] !in s[..k];
    assert s[..k + 1] == s[..k] + [s[k]];
  }

  /** Pushing h to the front of its bucket. */
  lemma PushFront(firsts: seq<int>, nextHash: map<int, int>, names: map<int, Name>, chains: seq<seq<int>>, moved: set<int>, h: int)
    requires TableOk(firsts, nextHash, names, chains, moved) && h >= 0 && h in names && h !in moved
    requires forall x :: x in moved ==> x in names && names[x] != names[h]
    ensures |chains| == |firsts| > 0
    ensures var nb := names[h].hash % |firsts|;
            TableOk(firsts[nb := h], nextHash[h := firsts[nb]], names, chains[nb := [h] + chains[nb]], moved + {h})
  {
    var nb := names[h].hash % |firsts|;
    var s, s', v := chains[nb], [h] + chains[nb], firsts[nb];
    forall c: nat | c < |firsts| ensures ChainOk(firsts[c], nextHash[h := v], chains[c]) && h !in chains[c] {
      ChainIgnores(firsts[c], nextHash, chains[c], h, v);
    }
    assert BucketOk(names, |chains|, nb, s);
    FrontOk(firsts[nb], nextHash[h := v], s, h);
    FrontBucketOk(names, |chains|, nb, s, h);
    hide ChainOk, BucketOk;
    NullNotIn(names, chains, moved);
    OneBucketChanges(names, chains, moved, nb, s', NULL, {h});
    assert moved - {NULL} + {h} == moved + {h};
  }

  lemma NullNotIn(names: map<int, Name>, chains: seq<seq<int>>, moved: set<int>)
    requires BucketsOk(names, chains) && HoldsEntries(names, chains, moved)
    ensures NULL !in moved && forall b: nat :: b < |chains| ==> NULL !in chains[b]
  {
    hide BucketOk;
    forall b: nat | b < |chains| ensures NULL !in chains[b] {
      NotNull(names, |chains|, b, chains[b]);
    }
  }

  lemma FrontOk(first: int, nextHash: map<int, int>, s: seq<int>, h: int)
    requires ChainOk(first, nextHash, s) && h >= 0 && h in nextHash && nextHash[h] == first
    ensures ChainOk(h, nextHash, [h] + s)
  {
    var s' := [h] + s;
    forall i: nat | i < |s'| ensures s'[i] >= 0 && s'[i] in nextHash && nextHash[s'[i]] == At(s', i + 1) {
      assert At(s', i + 1) == At(s, i);
    }
  }

  lemma FrontBucketOk(names: map<int, Name>, length: nat, b: nat, s: seq<int>, h: int)
    requires BucketOk(names, length, b, s) && h >= 0 && h in names && names[h].hash % length == b
    requires forall x :: x in s ==> names[x] != names[h]
    ensures BucketOk(names, length, b, [h] + s)
  {
    forall i: nat | i < |s| ensures s[i] in s {
    }
  }

  lemma MoveOne(firsts: seq<int>, nextHash: map<int, int>, chains: seq<seq<int>>, t: Rehash, i: nat, k: nat)
    requires RestOk(t, nextHash, i + 1) && i < |t.olds| && k < |t.olds[i]|
    requires TableOk(firsts, nextHash, t.names, chains, Moved(t, i, k))
    requires ChainOk(t.olds[i][k], nextHash, t.olds[i][k..]) && t.olds[i][k] in nextHash
    ensures var h := t.olds[i][k];
            && h in t.names && |chains| == |firsts| > 0
            && var nb := t.names[h].hash % |firsts|;
               var nextHash' := nextHash[h := firsts[nb]];
               && TableOk(firsts[nb := h], nextHash', t.names, chains[nb := [h] + chains[nb]], Moved(t, i, k + 1))
               && RestOk(t, nextHash', i + 1) && ChainOk(nextHash[h], nextHash', t.olds[i][k + 1..])
    ensures |Moved(t, i, k + 1)| == |Moved(t, i, k)| + 1
  {
    var h := t.olds[i][k];
    InBucket(t, nextHash, i, k);
    MovedStep(t, nextHash, i, k);
    forall x | x in Moved(t, i, k) ensures x in t.names && t.names[x] != t.names[h] {
      NamesDiffer(t, nextHash, i + 1, x, h);
    }
    PushFront(firsts, nextHash, t.names, chains, Moved(t, i, k), h);
    RestAfterMove(t, nextHash, i, k, firsts[t.names[h].hash % |firsts|]);
    hide *;
  }

  lemma RestAfterMove(t: Rehash, nextHash: map<int, int>, i: nat, k: nat, v: int)
    requires RestOk(t, nextHash, i + 1) && i < |t.olds| && k < |t.olds[i]|
    requires ChainOk(t.olds[i][k], nextHash, t.olds[i][k..]) && t.olds[i][k] in nextHash
    ensures RestOk(t, nextHash[t.olds[i][k] := v], i + 1)
    ensures ChainOk(nextHash[t.olds[i][k]], nextHash[t.olds[i][k] := v], t.olds[i][k + 1..])
  {
    var s, h := t.olds[i], t.olds[i][k];
    InBucket(t, nextHash, i, k);
    assert BucketOk(t.names, |t.olds|, i, s);
    NoRepeats(t.names, |t.olds|, i, s);
    ChainHead(h, nextHash, s, k);
    ChainIgnores(nextHash[h], nextHash, s[k + 1..], h, v);
    forall c: nat | i + 1 <= c < |t.olds| ensures ChainOk(t.firsts[c], nextHash[h := v], t.olds[c]) {
      OtherChain(t.names, |t.olds|, i, s, c, t.olds[c]);
      assert h in s;
      ChainIgnores(t.firsts[c], nextHash, t.olds[c], h, v);
    }
    hide ChainOk;
  }

  function NextOf(nextHash: map<int, int>, h: int): int {
    if h == NULL || h !in nextHash then NULL else nextHash[h]
  }

  lemma LinkNew(firsts: seq<int>, nextHash: map<int, int>, names: map<int, Name>, chains: seq<seq<int>>, entries: set<int>,
                b: nat, i: nat, h: int, name: Name)
    requires TableOk(firsts, nextHash, names, chains, entries) && h >= 0 && h !in names
    requires b < |firsts| && b == name.hash % |firsts| && i <= |chains[b]|
    requires i < |chains[b]| ==> Named(names, entries, chains[b][i], name)
    requires i == |chains[b]| ==> forall x :: !Named(names, entries, x, name)
    ensures h !in entries && |chains| == |firsts|
    ensures var linked := nextHash[h := NextOf(nextHash, At(chains[b], i))];
            TableOk(SlotList(firsts, b, chains[b], i, h), SlotNext(linked, chains[b], i, h), names[h := name],
                    chains[b := LinkedChain(chains[b], i, h)], entries - {At(chains[b], i)} + {h})
  {
    var s := chains[b];
    NotInTable(firsts, nextHash, names, chains, entries, h);
    var v := NextOf(nextHash, At(s, i));
    FreshPointer(firsts, nextHash, names, chains, entries, h, v, name);
    assert ChainOk(firsts[b], nextHash, s);
    forall x | x in s ensures x in entries && x != h && x in names && (i == |s| ==> names[x] != name) {
      assert i == |s| ==> !Named(names, entries, x, name);
    }
    hide TableOk;
    LinkKeeps(firsts, nextHash[h := v], names[h := name], chains, entries, b, i, h);
  }

  lemma EmptyTable(firsts: seq<int>, nextHash: map<int, int>, names: map<int, Name>, chains: seq<seq<int>>)
    requires firsts != [] && |firsts| == |chains|
    requires forall b :: 0 <= b < |firsts| ==> firsts[b] == NULL && chains[b] == []
    ensures TableOk(firsts, nextHash, names, chains, {})
  {
  }

  lemma NotInTable(firsts: seq<int>, nextHash: map<int, int>, names: map<int, Name>, chains: seq<seq<int>>, entries: set<int>, h: int)
    requires TableOk(firsts, nextHash, names, chains, entries) && (h !in names || h == NULL)
    ensures h !in entries
  {
    if h in entries {
      var b := names[h].hash % |chains|;
      assert BucketOk(names, |chains|, b, chains[b]);
      NotNull(names, |chains|, b, chains[b]);
      assert false;
    }
  }

  lemma CountUnlinked(entries: set<int>, gone: int)
    requires gone in entries
    ensures |entries - {gone}| == |entries| - 1
  {
  }

  lemma CountLinked(entries: set<int>, replaced: int, h: int)
    requires h !in entries && NULL !in entries && (replaced in entries || replaced == NULL)
    ensures |entries - {replaced} + {h}| == |entries| + if replaced == NULL then 1 else 0
  {
    if replaced == NULL {
      assert entries - {NULL} == entries;
    } else {
      assert |entries - {replaced}| == |entries| - 1;
    }
  }
}
