/** util/cache.cc: one shard of the block and table cache. Handles are named by numbers, the
    arena holds their fields; LRU and IN_USE are the dummy heads of the two lists. */
module LruCaches {
  import opened InternalKeys
  import opened HandleTables

  const LRU: int := 0
  const IN_USE: int := 1

  // ---------- circular doubly linked lists ----------

  datatype Links = Links(next: map<int, int>, prev: map<int, int>)

  function Succ(i: nat, n: nat): nat
    requires i < n
  {
    if i + 1 == n then 0 else i + 1
  }

  /** x is followed by y. */
  predicate Follows(l: Links, x: int, y: int) {
    x in l.next && y in l.prev && l.next[x] == y && l.prev[y] == x
  }

  /** next and prev lead once round through c. */
  ghost predicate Ring(l: Links, c: seq<int>) {
    && c != [] && Distinct(c)
    && forall i: nat :: i < |c| ==> Follows(l, c[i], c[Succ(i, |c|)])
  }

  function Get(m: map<int, int>, k: int): int {
    if k in m then m[k] else NULL
  }

  /** LRU_Remove */
  function Removed(l: Links, e: int): Links {
    var n, p := Get(l.next, e), Get(l.prev, e);
    Links(l.next[p := n], l.prev[n := p])
  }

  /** LRU_Append: e just before the head is the newest. */
  function Appended(l: Links, head: int, e: int): Links {
    var p := Get(l.prev, head);
    Links(l.next[e := head][p := e], l.prev[e := p][head := e])
  }

  /** Position j of what is left, and the position after it, in terms of the whole. */
  lemma SuccWithout(c: seq<int>, i: nat, j: nat)
    requires 0 < i < |c| && j < |c| - 1 && Distinct(c)
    ensures |Without(c, i)| == |c| - 1
    ensures j < |c| - 1 ==> Succ(j, |c| - 1) < |c| - 1
    ensures var d, n, at := Without(c, i), |c|, if j < i then j else j + 1;
            && at < n && d[j] == c[at] && (at == i - 1 <==> j == i - 1) && at != i
            && d[Succ(j, |d|)] == c[Succ(if j == i - 1 then i else at, n)]
            && (j != i - 1 ==> c[Succ(at, n)] != c[Succ(i, n)] && c[at] != c[i - 1])
  {
    WithoutAt(c, i);
    hide Without;
  }

  lemma RingFollows(l: Links, c: seq<int>, i: nat)
    requires Ring(l, c) && i < |c|
    ensures Follows(l, c[i], c[Succ(i, |c|)])
    ensures i > 0 ==> Follows(l, c[i - 1], c[i])
    ensures i == 0 ==> Follows(l, c[|c| - 1], c[0])
  {
    if i > 0 {
      assert Succ(i - 1, |c|) == i && Follows(l, c[i - 1], c[Succ(i - 1, |c|)]);
    } else {
      assert Succ(|c| - 1, |c|) == 0 && Follows(l, c[|c| - 1], c[Succ(|c| - 1, |c|)]);
    }
  }

  /** Taking e out from between p and n leaves every other pair as it was. */
  lemma RemovedFollows(l: Links, p: int, e: int, n: int, x: int, y: int)
    requires Follows(l, p, e) && Follows(l, e, n)
    ensures Follows(Removed(l, e), p, n)
    ensures Follows(l, x, y) && x != p && y != n ==> Follows(Removed(l, e), x, y)
  {
  }

  lemma RemoveKeepsRing(l: Links, c: seq<int>, i: nat)
    requires Ring(l, c) && 0 < i < |c|
    ensures Ring(Removed(l, c[i]), Without(c, i))
  {
    var d, n := Without(c, i), |c|;
    WithoutAt(c, i);
    RingFollows(l, c, i);
    hide Without, Removed, Succ, Follows;
    forall j: nat | j < |d| ensures Follows(Removed(l, c[i]), d[j], d[Succ(j, |d|)]) {
      SuccWithout(c, i, j);
      var at := if j < i then j else j + 1;
      RingFollows(l, c, at);
      RemovedFollows(l, c[i - 1], c[i], c[Succ(i, n)], c[at], c[Succ(at, n)]);
    }
  }

  lemma AppendedFollows(l: Links, head: int, p: int, e: int, x: int, y: int)
    requires Follows(l, p, head) && e != p && e != head
    ensures Follows(Appended(l, head, e), p, e) && Follows(Appended(l, head, e), e, head)
    ensures Follows(l, x, y) && x != p && y != head && x != e && y != e ==> Follows(Appended(l, head, e), x, y)
  {
  }

  lemma AppendKeepsRing(l: Links, c: seq<int>, e: int)
    requires Ring(l, c) && e !in c
    ensures Ring(Appended(l, c[0], e), c + [e])
  {
    var d, n := c + [e], |c|;
    RingFollows(l, c, 0);
    hide Appended, Follows;
    forall j: nat | j < |d| ensures Follows(Appended(l, c[0], e), d[j], d[Succ(j, |d|)]) {
      assert e != c[n - 1] && e != c[0];
      if j < n - 1 {
        RingFollows(l, c, j);
        assert d[j] == c[j] && d[Succ(j, |d|)] == c[j + 1] && c[j] in c && c[j + 1] in c;
        AppendedFollows(l, c[0], c[n - 1], e, c[j], c[j + 1]);
      } else {
        AppendedFollows(l, c[0], c[n - 1], e, c[0], c[0]);
      }
    }
  }

  /** A ring that shares no node with the one that is changed does not notice. */
  lemma OtherRingKept(l: Links, c: seq<int>, d: seq<int>, i: nat, e: int)
    requires Ring(l, c) && Ring(l, d) && forall x :: x in c ==> x !in d
    ensures 0 < i < |c| ==> Ring(Removed(l, c[i]), d)
    ensures e !in d ==> Ring(Appended(l, c[0], e), d)
  {
    RingFollows(l, c, 0);
    assert c[0] in c && c[|c| - 1] in c;
    if 0 < i < |c| {
      RingFollows(l, c, i);
      assert c[i - 1] in c && c[Succ(i, |c|)] in c;
      hide Removed, Follows, Succ;
      forall j: nat | j < |d| ensures Follows(Removed(l, c[i]), d[j], d[Succ(j, |d|)]) {
        RingFollows(l, d, j);
        InSeq(d, j);
        InSeq(d, Succ(j, |d|));
        RemovedFollows(l, c[i - 1], c[i], c[Succ(i, |c|)], d[j], d[Succ(j, |d|)]);
      }
    }
    AppendElsewhere(l, c, d, e);
  }

  lemma InSeq(d: seq<int>, j: nat)
    requires j < |d|
    ensures d[j] in d
  {
  }

  lemma AppendElsewhere(l: Links, c: seq<int>, d: seq<int>, e: int)
    requires Ring(l, c) && Ring(l, d) && forall x :: x in c ==> x !in d
    ensures e !in d ==> Ring(Appended(l, c[0], e), d)
  {
    RingFollows(l, c, 0);
    assert c[0] in c && c[|c| - 1] in c;
    if e !in d {
      forall j: nat | j < |d| ensures Follows(Appended(l, c[0], e), d[j], d[Succ(j, |d|)]) {
        RingFollows(l, d, j);
        InSeq(d, j);
        InSeq(d, Succ(j, |d|));
      }
    }
  }

  // ---------- the state of a cache ----------

  /** deleted counts how often the deleter was run. */
  datatype Handle = Handle(name: Name, value: int, charge: nat, refs: nat, inCache: bool, deleted: nat)

  /** lru and inUse are the two lists, oldest first; held are the clients' references. */
  datatype State = State(
    links: Links,
    handles: map<int, Handle>,
    usage: int,
    lru: seq<int>,
    inUse: seq<int>,
    held: multiset<int>)

  lemma HasMember(s: set<int>)
    ensures s == {} || exists x :: x in s
  {
    if forall x :: x !in s {
      assert s == {};
    }
  }

  ghost function Sum(handles: map<int, Handle>, s: set<int>): nat
    requires s <= handles.Keys
  {
    if s == {} then 0
    else
      HasMember(s);
      var x :| x in s;
      handles[x].charge + Sum(handles, s - {x})
  }

  lemma {:induction false} SumWithout(handles: map<int, Handle>, s: set<int>, e: int)
    requires s <= handles.Keys && e in s
    ensures Sum(handles, s) == handles[e].charge + Sum(handles, s - {e})
  {
    var x :| x in s && Sum(handles, s) == handles[x].charge + Sum(handles, s - {x});
    if x != e {
      SumWithout(handles, s - {x}, e);
      SumWithout(handles, s - {e}, x);
      assert s - {x} - {e} == s - {e} - {x};
    }
  }

  lemma {:induction false} SumOnlyCharges(a: map<int, Handle>, b: map<int, Handle>, s: set<int>)
    requires s <= a.Keys && s <= b.Keys && forall x :: x in s ==> a[x].charge == b[x].charge
    ensures Sum(a, s) == Sum(b, s)
  {
    if s != {} {
      HasMember(s);
      var x :| x in s && Sum(a, s) == a[x].charge + Sum(a, s - {x});
      SumOnlyCharges(a, b, s - {x});
      SumWithout(b, s, x);
    }
  }

  /** refs counts the clients and the cache; the deleter has run once when nobody is left and
      never before; a cached entry is on the lru list when only the cache holds it, on the
      in-use list otherwise. */
  ghost predicate HandleOk(st: State, entries: set<int>, h: int)
    requires h in st.handles
  {
    var x := st.handles[h];
    && h > IN_USE
    && x.refs == st.held[h] + (if x.inCache then 1 else 0)
    && x.deleted == (if x.refs == 0 then 1 else 0)
    && (x.inCache <==> h in entries)
    && (h in st.lru <==> x.inCache && x.refs == 1)
    && (h in st.inUse <==> x.inCache && x.refs >= 2)
  }

  ghost predicate RingsOk(st: State) {
    Ring(st.links, [LRU] + st.lru) && Ring(st.links, [IN_USE] + st.inUse)
  }

  ghost predicate Ok(st: State, entries: set<int>) {
    && RingsOk(st)
    && (forall h :: h in st.handles ==> HandleOk(st, entries, h))
    && (forall h :: h in st.lru || h in st.inUse || h in st.held || h in entries ==> h in st.handles)
    && entries <= st.handles.Keys && st.usage == Sum(st.handles, entries)
  }

  ghost function Drop(c: seq<int>, e: int): seq<int> {
    if e !in c then c
    else
      var i: nat :| i < |c| && c[i] == e;
      Without(c, i)
  }

  lemma DropFromRing(l: Links, head: int, c: seq<int>, e: int)
    requires Ring(l, [head] + c) && e in c
    ensures Ring(Removed(l, e), [head] + Drop(c, e))
    ensures forall x :: x in Drop(c, e) <==> x in c && x != e
    ensures e !in [head] + Drop(c, e)
  {
    var i: nat :| i < |c| && c[i] == e && Drop(c, e) == Without(c, i);
    var r := [head] + c;
    assert r[i + 1] == e;
    RemoveKeepsRing(l, r, i + 1);
    WithoutRest(head, c, i);
    RestIsDistinct(head, c);
    hide Ring, Without, Removed, Drop;
    WithoutAt(c, i);
  }

  lemma WithoutRest(head: int, c: seq<int>, i: nat)
    requires i < |c|
    ensures Without([head] + c, i + 1) == [head] + Without(c, i)
  {
  }

  lemma RestIsDistinct(head: int, c: seq<int>)
    requires Distinct([head] + c)
    ensures Distinct(c) && head !in c
  {
    forall j: nat | j < |c| ensures c[j] != head {
      assert ([head] + c)[0] == head && ([head] + c)[j + 1] == c[j];
    }
    forall j: nat, k: nat | j < k < |c| ensures c[j] != c[k] {
      assert ([head] + c)[j + 1] == c[j] && ([head] + c)[k + 1] == c[k];
    }
  }

  lemma RingsApart(st: State, entries: set<int>)
    requires Ok(st, entries)
    ensures forall x :: x in [LRU] + st.lru ==> x !in [IN_USE] + st.inUse
  {
    hide Ring, Sum;
    forall x | x in st.lru ensures x !in st.inUse && x > IN_USE {
      assert HandleOk(st, entries, x);
    }
    forall x | x in st.inUse ensures x > IN_USE {
      assert HandleOk(st, entries, x);
    }
  }

  /** Moving an entry from one list to the newest place of the other. */
  lemma MoveKeepsRings(l: Links, from: int, a: seq<int>, to: int, b: seq<int>, e: int)
    requires Ring(l, [from] + a) && Ring(l, [to] + b) && e in a
    requires forall x :: x in [from] + a ==> x !in [to] + b
    ensures Ring(Appended(Removed(l, e), to, e), [from] + Drop(a, e))
    ensures Ring(Appended(Removed(l, e), to, e), [to] + (b + [e]))
    ensures forall x :: x in Drop(a, e) <==> x in a && x != e
  {
    DropFromRing(l, from, a, e);
    var i: nat :| i < |[from] + a| && ([from] + a)[i] == e && i > 0 by {
      var k: nat :| k < |a| && a[k] == e;
      assert ([from] + a)[k + 1] == e;
    }
    OtherRingKept(l, [from] + a, [to] + b, i, e);
    var r := Removed(l, e);
    assert to == ([to] + b)[0];
    assert e in [from] + a;
    AppendKeepsRing(r, [to] + b, e);
    OtherRingKept(r, [to] + b, [from] + Drop(a, e), 0, e);
    assert [to] + b + [e] == [to] + (b + [e]);
  }

  // ---------- what every operation does to it ----------

  /** Ref by a client: an entry that nobody used moves to the in-use list. */
  ghost function Reffed(st: State, e: int): State
    requires e in st.handles
  {
    var x := st.handles[e];
    var st1 := st.(handles := st.handles[e := x.(refs := x.refs + 1)], held := st.held + multiset{e});
    if x.refs == 1 && x.inCache
    then st1.(links := Appended(Removed(st.links, e), IN_USE, e), lru := Drop(st.lru, e), inUse := st.inUse + [e])
    else st1
  }

  /** Unref: the deleter runs when the last reference goes; an entry only the cache holds
      becomes the newest of the lru list. */
  ghost function Unreffed(st: State, e: int): State
    requires e in st.handles && st.handles[e].refs > 0
  {
    var x := st.handles[e];
    var left := x.refs - 1;
    var st1 := st.(handles := st.handles[e := x.(refs := left, deleted := x.deleted + if left == 0 then 1 else 0)]);
    if left > 0 && x.inCache && left == 1
    then st1.(links := Appended(Removed(st.links, e), LRU, e), inUse := Drop(st.inUse, e), lru := st.lru + [e])
    else st1
  }

  ghost function Released(st: State, e: int): State
    requires e in st.handles && st.handles[e].refs > 0
  {
    Unreffed(st.(held := st.held - multiset{e}), e)
  }

  /** FinishErase: off its list, out of the account, and one reference less. */
  ghost function Erased(st: State, e: int): State
    requires e in st.handles && st.handles[e].refs > 0
  {
    var x := st.handles[e];
    Unreffed(st.(links := Removed(st.links, e), handles := st.handles[e := x.(inCache := false)], usage := st.usage - x.charge,
                 lru := Drop(st.lru, e), inUse := Drop(st.inUse, e)), e)
  }

  /** Insert: a new handle, held by the client, and by the cache unless it is turned off. */
  ghost function Added(st: State, e: int, name: Name, value: int, charge: nat, cached: bool): State {
    var st1 := st.(handles := st.handles[e := Handle(name, value, charge, if cached then 2 else 1, cached, 0)], held := st.held + multiset{e});
    if cached
    then st1.(links := Appended(st.links, IN_USE, e), inUse := st.inUse + [e], usage := st.usage + charge)
    else st1
  }

  lemma DropMembers(c: seq<int>, e: int)
    requires Distinct(c)
    ensures forall x :: x in Drop(c, e) <==> x in c && x != e
  {
    if e in c {
      var i: nat :| i < |c| && c[i] == e && Drop(c, e) == Without(c, i);
      WithoutAt(c, i);
    }
  }

  lemma ListsDistinct(st: State)
    requires RingsOk(st)
    ensures Distinct(st.lru) && Distinct(st.inUse)
  {
    RestIsDistinct(LRU, st.lru);
    RestIsDistinct(IN_USE, st.inUse);
  }

  ghost predicate HandlesOk(st: State, entries: set<int>) {
    && (forall h :: h in st.handles ==> HandleOk(st, entries, h))
    && (forall h :: h in st.lru || h in st.inUse || h in st.held || h in entries ==> h in st.handles)
  }

  lemma OkFromParts(st: State, entries: set<int>)
    requires RingsOk(st) && HandlesOk(st, entries)
    requires entries <= st.handles.Keys && st.usage == Sum(st.handles, entries)
    ensures Ok(st, entries)
  {
    hide RingsOk, HandleOk, Sum;
  }

  lemma RefHandlesOk(st: State, entries: set<int>, e: int)
    requires Ok(st, entries) && e in entries
    ensures HandlesOk(Reffed(st, e), entries)
  {
    ListsDistinct(st);
    DropMembers(st.lru, e);
    hide RingsOk, Sum, Drop, Distinct;
    var st1 := Reffed(st, e);
    assert HandleOk(st, entries, e);
    forall h | h in st1.handles ensures HandleOk(st1, entries, h) {
      assert HandleOk(st, entries, h);
    }
  }

  lemma RefKeepsOk(st: State, entries: set<int>, e: int)
    requires Ok(st, entries) && e in entries
    ensures Ok(Reffed(st, e), entries)
  {
    RefHandlesOk(st, entries, e);
    SumOnlyCharges(st.handles, Reffed(st, e).handles, entries);
    RingsApart(st, entries);
    assert HandleOk(st, entries, e);
    hide Sum, Drop, HandlesOk, Ring;
    if e in st.lru {
      MoveKeepsRings(st.links, LRU, st.lru, IN_USE, st.inUse, e);
    }
    hide Appended, Removed, HandleOk;
    OkFromParts(Reffed(st, e), entries);
  }

  lemma ReleaseHandlesOk(st: State, entries: set<int>, e: int)
    requires Ok(st, entries) && e in st.held
    ensures e in st.handles && st.handles[e].refs > 0
    ensures HandlesOk(Released(st, e), entries)
  {
    assert HandleOk(st, entries, e);
    ListsDistinct(st);
    DropMembers(st.inUse, e);
    hide RingsOk, Sum, Drop, Distinct;
    var st1 := Released(st, e);
    forall h | h in st1.handles ensures HandleOk(st1, entries, h) {
      assert HandleOk(st, entries, h);
    }
  }

  lemma ReleaseKeepsOk(st: State, entries: set<int>, e: int)
    requires Ok(st, entries) && e in st.held
    ensures e in st.handles && st.handles[e].refs > 0
    ensures Ok(Released(st, e), entries)
  {
    ReleaseHandlesOk(st, entries, e);
    SumOnlyCharges(st.handles, Released(st, e).handles, entries);
    RingsApart(st, entries);
    assert HandleOk(st, entries, e);
    hide Sum, Drop, HandlesOk, Ring;
    if e in st.inUse {
      MoveKeepsRings(st.links, IN_USE, st.inUse, LRU, st.lru, e);
    }
    hide Appended, Removed, HandleOk;
    OkFromParts(Released(st, e), entries);
  }

  lemma EraseHandlesOk(st: State, entries: set<int>, e: int)
    requires Ok(st, entries) && e in entries
    ensures e in st.handles && st.handles[e].refs > 0
    ensures HandlesOk(Erased(st, e), entries - {e})
  {
    assert HandleOk(st, entries, e);
    ListsDistinct(st);
    DropMembers(st.lru, e);
    DropMembers(st.inUse, e);
    hide RingsOk, Sum, Drop, Distinct;
    var st1 := Erased(st, e);
    forall h | h in st1.handles ensures HandleOk(st1, entries - {e}, h) {
      assert HandleOk(st, entries, h);
    }
  }

  lemma EraseKeepsRings(st: State, entries: set<int>, e: int)
    requires Ok(st, entries) && e in entries
    ensures Ring(Removed(st.links, e), [LRU] + Drop(st.lru, e)) && Ring(Removed(st.links, e), [IN_USE] + Drop(st.inUse, e))
  {
    assert HandleOk(st, entries, e);
    RingsApart(st, entries);
    var a, b := [LRU] + st.lru, [IN_USE] + st.inUse;
    hide Sum, Ring;
    if e in st.lru {
      DropFromRing(st.links, LRU, st.lru, e);
      var k: nat :| k < |st.lru| && st.lru[k] == e;
      assert a[k + 1] == e;
      OtherRingKept(st.links, a, b, k + 1, e);
    } else {
      DropFromRing(st.links, IN_USE, st.inUse, e);
      var k: nat :| k < |st.inUse| && st.inUse[k] == e;
      assert b[k + 1] == e;
      OtherRingKept(st.links, b, a, k + 1, e);
    }
  }

  lemma EraseKeepsOk(st: State, entries: set<int>, e: int)
    requires Ok(st, entries) && e in entries
    ensures e in st.handles && st.handles[e].refs > 0
    ensures Ok(Erased(st, e), entries - {e})
  {
    EraseHandlesOk(st, entries, e);
    EraseKeepsRings(st, entries, e);
    SumWithout(st.handles, entries, e);
    SumOnlyCharges(st.handles, Erased(st, e).handles, entries - {e});
    hide Sum, Drop, HandlesOk, Ring, Appended, Removed, HandleOk;
    OkFromParts(Erased(st, e), entries - {e});
  }

  lemma AddKeepsOk(st: State, entries: set<int>, e: int, name: Name, value: int, charge: nat, cached: bool)
    requires Ok(st, entries) && e > IN_USE && e !in st.handles
    ensures Ok(Added(st, e, name, value, charge, cached), if cached then entries + {e} else entries)
  {
    var st1, entries1 := Added(st, e, name, value, charge, cached), if cached then entries + {e} else entries;
    AddHandlesOk(st, entries, e, name, value, charge, cached);
    SumOnlyCharges(st.handles, st1.handles, entries);
    if cached {
      SumWithout(st1.handles, entries1, e);
      assert entries1 - {e} == entries;
    }
    RingsApart(st, entries);
    hide Sum, HandlesOk, Ring, HandleOk;
    assert e !in [LRU] + st.lru && e !in [IN_USE] + st.inUse;
    AppendKeepsRing(st.links, [IN_USE] + st.inUse, e);
    OtherRingKept(st.links, [IN_USE] + st.inUse, [LRU] + st.lru, 0, e);
    assert [IN_USE] + st.inUse + [e] == [IN_USE] + (st.inUse + [e]);
    hide Appended;
    OkFromParts(st1, entries1);
  }

  lemma AddHandlesOk(st: State, entries: set<int>, e: int, name: Name, value: int, charge: nat, cached: bool)
    requires Ok(st, entries) && e > IN_USE && e !in st.handles
    ensures HandlesOk(Added(st, e, name, value, charge, cached), if cached then entries + {e} else entries)
  {
    hide RingsOk, Sum;
    var st1, entries1 := Added(st, e, name, value, charge, cached), if cached then entries + {e} else entries;
    assert st.held[e] == 0;
    forall h | h in st1.handles ensures HandleOk(st1, entries1, h) {
      assert h != e ==> HandleOk(st, entries, h);
    }
  }

  // ---------- the cache ----------

  /** What the table calls a handle is its name, and nextId is not taken. */
  ghost predicate Registered(handles: map<int, Handle>, names: map<int, Name>, nextId: int) {
    && nextId > IN_USE
    && (forall h :: h in handles ==> h < nextId)
    && (forall h :: h in names ==> h in handles && handles[h].name == names[h])
  }

  lemma ErasedStaysRegistered(st: State, e: int, names: map<int, Name>, nextId: int)
    requires e in st.handles && st.handles[e].refs > 0 && Registered(st.handles, names, nextId)
    ensures Registered(Erased(st, e).handles, names, nextId)
  {
  }

  class LRUCache {
    var capacity: nat
    var usage: int
    var links: Links
    var handles: map<int, Handle>
    const table: HandleTable
    /** Where malloc takes the next handle from. */
    var nextId: int
    ghost var lru: seq<int>
    ghost var inUse: seq<int>
    ghost var held: multiset<int>

    ghost function St(): State
      reads this
    {
      State(links, handles, usage, lru, inUse, held)
    }

    ghost predicate Valid()
      reads this, table, table.list
    {
      table.Valid() && Ok(St(), table.entries) && Registered(handles, table.names, nextId)
    }

    lemma Unfold()
      ensures Valid() <==> table.Valid() && Ok(St(), table.entries) && Registered(handles, table.names, nextId)
    {
    }

    /** The entry with that name, if there is one. */
    ghost predicate Cached(h: int, name: Name)
      reads this, table
    {
      h in table.entries && h in handles && handles[h].name == name
    }

    constructor ()
      ensures Valid() && table.entries == {} && held == multiset{} && usage == 0 && capacity == 0
      ensures fresh(table) && fresh(table.list)
    {
      table := new HandleTable();
      capacity, usage, nextId := 0, 0, 2;
      links := Links(map[LRU := LRU, IN_USE := IN_USE], map[LRU := LRU, IN_USE := IN_USE]);
      handles := map[];
      lru, inUse, held := [], [], multiset{};
      new;
      assert Ring(links, [LRU] + lru) && Ring(links, [IN_USE] + inUse);
    }

    /** SetCapacity: takes effect with the next insertion; nothing is evicted now. */
    method SetCapacity(n: nat)
      requires Valid()
      modifies this`capacity
      ensures Valid() && capacity == n && St() == old(St()) && table.entries == old(table.entries)
    {
      hide Ok, Registered;
      capacity := n;
    }

    /** LRUCache::Ref */
    method Ref(e: int)
      requires Ok(St(), table.entries) && e in table.entries
      modifies this`links, this`handles, this`lru, this`inUse, this`held
      ensures old(e in handles) && St() == Reffed(old(St()), e) && Ok(St(), table.entries)
    {
      RefKeepsOk(St(), table.entries, e);
      var x := handles[e];
      if x.refs == 1 && x.inCache {
        links := Removed(links, e);
        links := Appended(links, IN_USE, e);
        lru, inUse := Drop(lru, e), inUse + [e];
      }
      handles := handles[e := x.(refs := x.refs + 1)];
      held := held + multiset{e};
    }

    /** LRUCache::Unref */
    method Unref(e: int)
      requires e in handles && handles[e].refs > 0
      modifies this`links, this`handles, this`lru, this`inUse
      ensures St() == Unreffed(old(St()), e)
    {
      var x := handles[e];
      var left := x.refs - 1;
      handles := handles[e := x.(refs := left)];
      if left == 0 {
        handles := handles[e := handles[e].(deleted := x.deleted + 1)];
      } else if x.inCache && left == 1 {
        links := Removed(links, e);
        links := Appended(links, LRU, e);
        inUse, lru := Drop(inUse, e), lru + [e];
      }
    }

    /** LRUCache::FinishErase for an entry the table no longer has. */
    method FinishErase(e: int) returns (erased: bool)
      requires e != NULL ==> e in handles && handles[e].refs > 0
      modifies this`links, this`handles, this`lru, this`inUse, this`usage
      ensures erased == (e != NULL)
      ensures St() == if e != NULL then Erased(old(St()), e) else old(St())
    {
      if e != NULL {
        var x := handles[e];
        links := Removed(links, e);
        lru, inUse := Drop(lru, e), Drop(inUse, e);
        handles := handles[e := x.(inCache := false)];
        usage := usage - x.charge;
        Unref(e);
      }
      erased := e != NULL;
    }

    /** LRUCache::Lookup: the handle is the client's until it releases it. */
    method Lookup(name: Name) returns (e: int)
      requires Valid()
      modifies this`links, this`handles, this`lru, this`inUse, this`held
      ensures Valid() && table.entries == old(table.entries)
      ensures e != NULL ==> old(Cached(e, name)) && held == old(held) + multiset{e} && St() == Reffed(old(St()), e)
      ensures e == NULL ==> St() == old(St()) && forall h :: !old(Cached(h, name))
    {
      e := table.Lookup(name);
      if e != NULL {
        Ref(e);
      } else {
        assert forall h :: h in table.entries ==> h in table.names by {
          table.EntriesAreNamed();
        }
        assert forall h :: h in table.entries ==> !Named(table.names, table.entries, h, name);
      }
    }

    /** LRUCache::Release of a handle the client holds. */
    method Release(e: int)
      requires Valid() && e in held
      modifies this`links, this`handles, this`lru, this`inUse, this`held
      ensures Valid() && table.entries == old(table.entries)
      ensures old(e in handles && handles[e].refs > 0) && St() == Released(old(St()), e)
    {
      ReleaseKeepsOk(St(), table.entries, e);
      held := held - multiset{e};
      Unref(e);
    }

    /** Takes the entry with that name out of the table and finishes erasing it. */
    method EraseNamed(name: Name) returns (e: int)
      requires Valid()
      modifies this`links, this`handles, this`lru, this`inUse, this`usage, table, table.list
      ensures Valid() && table.list == old(table.list) && table.entries == old(table.entries) - {e}
      ensures e == NULL ==> St() == old(St()) && forall h :: !old(Cached(h, name))
      ensures e != NULL ==> old(e in handles && handles[e].refs > 0) && St() == Erased(old(St()), e)
      ensures e != NULL ==> forall h :: old(Cached(h, name)) <==> h == e
    {
      hide *;
      Unfold();
      NamesAgree(name);
      ghost var st, entries := St(), table.entries;
      StateFields();
      NullIsNoEntry(st, entries);
      e := table.Remove(name);
      if e != NULL {
        NamedIsEntry(table.names, entries, e, name);
        EraseKeepsOk(st, entries, e);
        ErasedStaysRegistered(st, e, table.names, nextId);
        StateFields();
        var erased := FinishErase(e);
        StateFields();
      } else {
        assert entries - {e} == entries;
      }
      Unfold();
    }

    lemma StateFields()
      ensures St().handles == handles && St().held == held && St().lru == lru
    {
    }

    /** What the table calls an entry is what its handle says, and a name has one entry. */
    lemma NamesAgree(name: Name)
      requires Valid()
      ensures forall h :: Cached(h, name) <==> Named(table.names, table.entries, h, name)
      ensures forall h, k :: Cached(h, name) && Cached(k, name) ==> h == k
    {
      table.EntriesAreNamed();
      forall h, k | Cached(h, name) && Cached(k, name) ensures h == k {
        TableIsMap(table.list[..], table.nextHash, table.names, table.chains, table.entries, h, k, name);
      }
    }

    /** LRUCache::Erase */
    method Erase(name: Name)
      requires Valid()
      modifies this`links, this`handles, this`lru, this`inUse, this`usage, table, table.list
      ensures Valid() && held == old(held) && table.list == old(table.list)
      ensures forall h :: h in table.entries <==> h in old(table.entries) && !old(Cached(h, name))
    {
      var e := EraseNamed(name);
    }

    /** The oldest entry nobody uses, or the list's head. */
    lemma OldestIsFirst()
      requires Ok(St(), table.entries)
      ensures Get(links.next, LRU) == if lru == [] then LRU else lru[0]
      ensures lru != [] ==> lru[0] in table.entries && lru[0] in handles && handles[lru[0]].refs == 1 && lru[0] > IN_USE
      ensures lru != [] ==> Drop(lru, lru[0]) == lru[1..] && lru[0] !in inUse
    {
      RingFollows(links, [LRU] + lru, 0);
      if lru != [] {
        assert lru[0] in lru && HandleOk(St(), table.entries, lru[0]);
        RestIsDistinct(LRU, lru);
        DropFirst(lru);
      }
    }

    /** The eviction step shared by Insert and Prune: the oldest entry goes, and with it its
        last reference. */
    method EvictOldest() returns (ghost e: int)
      requires Valid() && lru != []
      modifies this`links, this`handles, this`lru, this`inUse, this`usage, table, table.list
      ensures Valid() && table.list == old(table.list) && held == old(held)
      ensures e == old(lru)[0] && lru == old(lru)[1..] && inUse == old(inUse)
      ensures table.entries == old(table.entries) - {e} && e in old(table.entries)
      ensures old(e in handles) && usage == old(usage) - old(handles)[e].charge
      ensures e in handles && handles[e].deleted == 1
      ensures handles.Keys == old(handles).Keys && forall h :: h in handles && h != e ==> handles[h] == old(handles)[h]
    {
      OldestIsFirst();
      var oldest := links.next[LRU];
      assert Cached(oldest, handles[oldest].name);
      ghost var st, entries := St(), table.entries;
      assert HandleOk(st, entries, oldest);
      e := EraseNamed(handles[oldest].name);
      assert Drop(inUse, oldest) == inUse;
    }

    /** LRUCache::Prune: everything nobody uses goes. */
    method Prune()
      requires Valid()
      modifies this`links, this`handles, this`lru, this`inUse, this`usage, table, table.list
      ensures Valid() && lru == [] && inUse == old(inUse) && held == old(held) && table.list == old(table.list)
    {
      OldestIsFirst();
      while Get(links.next, LRU) != LRU
        invariant Valid() && inUse == old(inUse) && held == old(held) && table.list == old(table.list)
        invariant Get(links.next, LRU) == LRU <==> lru == []
        decreases |lru|
      {
        var e := EvictOldest();
        OldestIsFirst();
      }
    }

    /** The beginning of Insert: the new handle, on the in-use list when caching is on. */
    method NewHandle(name: Name, value: int, charge: nat) returns (e: int)
      modifies this`links, this`handles, this`inUse, this`held, this`usage, this`nextId
      ensures e == old(nextId) && nextId == e + 1
      ensures St() == Added(old(St()), e, name, value, charge, capacity > 0)
    {
      e := nextId;
      nextId := nextId + 1;
      var x := Handle(name, value, charge, 1, false, 0);
      held := held + multiset{e};
      if capacity > 0 {
        x := x.(refs := 2, inCache := true);
        links := Appended(links, IN_USE, e);
        inUse := inUse + [e];
        usage := usage + charge;
      }
      handles := handles[e := x];
    }

    /** Putting the new entry into the table; the one of the same name makes room for it. */
    method Register(e: int, name: Name) returns (replaced: int)
      requires table.Valid() && e !in table.entries && e > IN_USE && e !in table.names && Ok(St(), table.entries + {e})
      requires Registered(handles, table.names[e := name], nextId)
      modifies this`links, this`handles, this`lru, this`inUse, this`usage, table, table.list
      ensures Valid() && (table.list == old(table.list) || fresh(table.list))
      ensures table.entries == old(table.entries) - {replaced} + {e} && replaced != e
      ensures replaced == NULL ==> St() == old(St()) && forall x :: !old(Named(table.names, table.entries, x, name))
      ensures replaced != NULL ==> old(Named(table.names, table.entries, replaced, name))
      ensures replaced != NULL ==> old(replaced in handles && handles[replaced].refs > 0) && St() == Erased(old(St()), replaced)
    {
      hide *;
      ghost var st, entries := St(), table.entries;
      StateFields();
      NullIsNoEntry(st, entries + {e});
      assert e >= 0 by {
        IdsArePositive(e);
      }
      replaced := table.Insert(e, name);
      if replaced != NULL {
        NamedIsEntry(old(table.names), entries, replaced, name);
        EraseKeepsOk(st, entries + {e}, replaced);
        ErasedStaysRegistered(st, replaced, table.names, nextId);
        assert entries + {e} - {replaced} == entries - {replaced} + {e};
      } else {
        assert entries - {replaced} + {e} == entries + {e};
      }
      StateFields();
      var erased := FinishErase(replaced);
      StateFields();
      Unfold();
    }

    /** LRUCache::Insert: the new handle is the client's; then, as long as the cache is over
        its capacity, the oldest unused entries go. */
    method Insert(name: Name, value: int, charge: nat) returns (e: int, ghost replaced: int, ghost evicted: seq<int>)
      requires Valid()
      modifies this, table, table.list
      ensures Valid() && (table.list == old(table.list) || fresh(table.list)) && capacity == old(capacity)
      ensures e !in old(handles) && held == old(held) + multiset{e} && e in handles
      ensures handles[e].name == name && handles[e].value == value && handles[e].charge == charge
      ensures replaced == NULL || old(Cached(replaced, name))
      ensures Drop(old(lru), replaced) == evicted + lru
      ensures capacity > 0 ==>
        && (forall h :: old(Cached(h, name)) ==> h == replaced)
        && table.entries == old(table.entries) - {replaced} + {e} - Members(evicted)
      ensures capacity == 0 ==> replaced == NULL && table.entries == old(table.entries) - Members(evicted)
      ensures usage <= capacity || lru == []
      ensures evicted != [] ==> usage + LastCharge(old(handles), evicted) > capacity
      ensures AllDeleted(handles, evicted)
    {
      hide *;
      e, replaced := InsertEntry(name, value, charge);
      ghost var before, whole := handles, lru;
      evicted := EvictExcess(e);
      AfterEviction(old(handles), before, handles, whole, evicted, lru, e);
    }

    /** The eviction loop of Insert. */
    method EvictExcess(ghost e: int) returns (ghost evicted: seq<int>)
      requires Valid() && e in handles && e !in lru
      modifies this`links, this`handles, this`lru, this`inUse, this`usage, table, table.list
      ensures Valid() && table.list == old(table.list) && held == old(held)
      ensures old(lru) == evicted + lru && table.entries == old(table.entries) - Members(evicted)
      ensures Survive(old(handles), handles, [e]) && AllDeleted(handles, evicted)
      ensures usage <= capacity || lru == []
      ensures evicted != [] ==> usage + LastCharge(old(handles), evicted) > capacity
    {
      hide *;
      evicted := [];
      Unfold();
      StateFields();
      KnownHandles(St(), table.entries);
      StartEvicting(table.entries, lru, handles, e);
      while OverCapacity()
        invariant Valid() && table.list == old(table.list) && held == old(held)
        invariant old(lru) == evicted + lru && table.entries == old(table.entries) - Members(evicted)
        invariant Survive(old(handles), handles, lru + [e]) && AllDeleted(handles, evicted) && e !in lru
        invariant forall h :: h in lru ==> h !in evicted
        invariant evicted != [] ==> usage + LastCharge(old(handles), evicted) > capacity
        decreases |lru|
      {
        OverCapacityMeans();
        LruDistinct();
        ghost var before, list := handles, lru;
        ghost var oldest := EvictOldest();
        MoreEvicted(old(table.entries), evicted, oldest);
        EvictedOne(old(handles), before, handles, evicted, list, e);
        evicted := evicted + [oldest];
      }
      OverCapacityMeans();
      SurviveLast(old(handles), handles, lru, e);
    }

    lemma LruDistinct()
      requires Valid() && lru != []
      ensures lru[0] !in lru[1..]
    {
      ListsDistinct(St());
      hide Ok;
      assert Distinct(lru);
    }

    /** The condition of the eviction loop. */
    predicate OverCapacity()
      reads this
    {
      usage > capacity && Get(links.next, LRU) != LRU
    }

    lemma OverCapacityMeans()
      requires Valid()
      ensures OverCapacity() <==> usage > capacity && lru != []
    {
      OldestIsFirst();
      hide Ok;
    }

    method InsertEntry(name: Name, value: int, charge: nat) returns (e: int, ghost replaced: int)
      requires Valid()
      modifies this, table, table.list
      ensures Valid() && (table.list == old(table.list) || fresh(table.list)) && capacity == old(capacity)
      ensures e !in old(handles) && held == old(held) + multiset{e} && e in handles && e > IN_USE
      ensures handles[e].name == name && handles[e].value == value && handles[e].charge == charge && e !in lru
      ensures replaced == NULL || old(Cached(replaced, name))
      ensures lru == Drop(old(lru), replaced)
      ensures capacity > 0 ==>
        && (forall h :: old(Cached(h, name)) ==> h == replaced)
        && table.entries == old(table.entries) - {replaced} + {e}
      ensures capacity == 0 ==> replaced == NULL && table.entries == old(table.entries)
      ensures Survive(old(handles), handles, lru)
    {
      hide *;
      NamesAgree(name);
      Unfold();
      ghost var st, entries := St(), table.entries;
      StateFields();
      FreshHandle(handles, table.names, nextId);
      KnownHandles(st, entries);
      AddKeepsOk(st, entries, nextId, name, value, charge, capacity > 0);
      AddedStaysRegistered(st, nextId, name, value, charge, table.names, capacity > 0);
      e := NewHandle(name, value, charge);
      StateFields();
      replaced := NULL;
      if capacity > 0 {
        replaced := Register(e, name);
        StateFields();
      } else {
        Unfold();
      }
      InsertedFields(st, entries, e, name, value, charge, capacity > 0, replaced, St());
    }
  }

  ghost function Members(s: seq<int>): set<int> {
    set h | h in s
  }

  /** The handles of s are in both arenas, unchanged. */
  ghost predicate Survive(before: map<int, Handle>, after: map<int, Handle>, s: seq<int>) {
    forall h :: h in s ==> h in before && h in after && after[h] == before[h]
  }

  ghost predicate AllDeleted(handles: map<int, Handle>, s: seq<int>) {
    forall h :: h in s ==> h in handles && handles[h].deleted == 1
  }

  ghost function LastCharge(handles: map<int, Handle>, s: seq<int>): nat {
    if s == [] || s[|s| - 1] !in handles then 0 else handles[s[|s| - 1]].charge
  }

  lemma StartEvicting(entries: set<int>, whole: seq<int>, handles: map<int, Handle>, e: int)
    requires e in handles && forall h :: h in whole ==> h in handles
    ensures entries - Members([]) == entries && [] + whole == whole
    ensures Survive(handles, handles, whole + [e]) && AllDeleted(handles, [])
  {
  }

  /** The oldest entry leaves: the rest is as it was. */
  lemma EvictedOne(first: map<int, Handle>, before: map<int, Handle>, after: map<int, Handle>, evicted: seq<int>, list: seq<int>, e: int)
    requires list != [] && Survive(first, before, list + [e]) && AllDeleted(before, evicted) && e !in list
    requires list[0] !in list[1..] && forall h :: h in list ==> h !in evicted
    requires before.Keys == after.Keys && forall h :: h in after && h != list[0] ==> after[h] == before[h]
    requires list[0] in after && after[list[0]].deleted == 1
    ensures Survive(first, after, list[1..] + [e]) && AllDeleted(after, evicted + [list[0]])
    ensures LastCharge(first, evicted + [list[0]]) == before[list[0]].charge
    ensures evicted + list == evicted + [list[0]] + list[1..]
    ensures forall h :: h in list[1..] ==> h !in evicted + [list[0]]
  {
    assert list[0] in list + [e];
    forall h | h in list[1..] + [e] ensures h in list + [e] && h != list[0] {
    }
  }

  lemma AfterEviction(first: map<int, Handle>, before: map<int, Handle>, after: map<int, Handle>, whole: seq<int>, evicted: seq<int>,
                      rest: seq<int>, e: int)
    requires Survive(first, before, whole) && Survive(before, after, [e]) && whole == evicted + rest
    ensures e in after && e in before && after[e] == before[e]
    ensures LastCharge(first, evicted) == LastCharge(before, evicted)
  {
    assert e in [e];
    if evicted != [] {
      assert whole[|evicted| - 1] == evicted[|evicted| - 1];
    }
  }

  lemma SurviveLast(before: map<int, Handle>, after: map<int, Handle>, s: seq<int>, e: int)
    requires Survive(before, after, s + [e])
    ensures Survive(before, after, [e])
  {
    assert e in s + [e];
  }

  lemma MoreEvicted(entries: set<int>, evicted: seq<int>, e: int)
    ensures entries - Members(evicted + [e]) == entries - Members(evicted) - {e}
  {
  }

  lemma AddedFields(st: State, e: int, name: Name, value: int, charge: nat, cached: bool)
    ensures var st1 := Added(st, e, name, value, charge, cached);
            && st1.lru == st.lru && st1.held == st.held + multiset{e}
            && st1.handles == st.handles[e := Handle(name, value, charge, if cached then 2 else 1, cached, 0)]
  {
  }

  lemma ErasedFields(st: State, e: int)
    requires e in st.handles && st.handles[e].refs > 0
    ensures var st1 := Erased(st, e);
            && st1.lru == Drop(st.lru, e) && st1.held == st.held && st1.handles.Keys == st.handles.Keys
            && forall h :: h in st.handles && h != e ==> st1.handles[h] == st.handles[h]
  {
  }

  lemma InsertedFields(st: State, entries: set<int>, e: int, name: Name, value: int, charge: nat, cached: bool, replaced: int, final: State)
    requires Ok(st, entries) && e !in st.handles && replaced != e
    requires replaced == NULL ==> final == Added(st, e, name, value, charge, cached)
    requires replaced != NULL ==>
      var added := Added(st, e, name, value, charge, cached);
      replaced in added.handles && added.handles[replaced].refs > 0 && final == Erased(added, replaced)
    ensures final.lru == Drop(st.lru, replaced) && e !in final.lru
    ensures final.held == st.held + multiset{e} && e in final.handles
    ensures final.handles[e].name == name && final.handles[e].value == value && final.handles[e].charge == charge
    ensures Survive(st.handles, final.handles, final.lru)
  {
    AddedFields(st, e, name, value, charge, cached);
    var added := Added(st, e, name, value, charge, cached);
    if replaced != NULL {
      ErasedFields(added, replaced);
    }
    KnownHandles(st, entries);
    DropNothing(st.lru, replaced);
    hide Added, Erased, Drop, Ok;
  }

  lemma KnownHandles(st: State, entries: set<int>)
    requires Ok(st, entries)
    ensures entries <= st.handles.Keys && NULL !in st.lru
    ensures forall h :: h in st.lru ==> h in st.handles
    ensures Distinct(st.lru)
  {
    ListsDistinct(st);
    hide RingsOk, Sum;
    forall h | h in st.lru ensures h != NULL {
      assert HandleOk(st, entries, h);
    }
  }

  lemma DropNothing(c: seq<int>, e: int)
    requires Distinct(c)
    ensures e !in c ==> Drop(c, e) == c
    ensures forall h :: h in Drop(c, e) ==> h in c && h != e
  {
    DropMembers(c, e);
  }

  lemma IdsArePositive(e: int)
    requires e > IN_USE
    ensures e >= 0
  {
  }

  lemma FreshHandle(handles: map<int, Handle>, names: map<int, Name>, nextId: int)
    requires Registered(handles, names, nextId)
    ensures nextId !in handles && nextId !in names && nextId > IN_USE && nextId >= 0 && nextId != NULL
  {
  }

  lemma AddedStaysRegistered(st: State, e: int, name: Name, value: int, charge: nat, names: map<int, Name>, cached: bool)
    requires Registered(st.handles, names, e)
    ensures Registered(Added(st, e, name, value, charge, cached).handles, names[e := name], e + 1)
    ensures Registered(Added(st, e, name, value, charge, cached).handles, names, e + 1)
  {
  }

  lemma NamedIsEntry(names: map<int, Name>, entries: set<int>, h: int, name: Name)
    requires Named(names, entries, h, name)
    ensures h in entries
  {
  }

  lemma NullIsNoEntry(st: State, entries: set<int>)
    requires Ok(st, entries)
    ensures NULL !in entries
  {
    hide RingsOk, Sum;
    forall h | h in entries ensures h != NULL {
      assert HandleOk(st, entries, h);
    }
  }

  /** The deleter runs at most once, never while a client holds the handle or the cache
      lists it, and has run as soon as neither does. */
  lemma DeleterRunsOnce(st: State, entries: set<int>, h: int)
    requires Ok(st, entries) && h in st.handles
    ensures st.handles[h].deleted <= 1
    ensures st.handles[h].deleted == 1 <==> h !in st.held && h !in entries
    ensures h in entries <==> h in st.lru || h in st.inUse
    ensures !(h in st.lru && h in st.inUse) && (h in st.lru ==> h !in st.held) && (h in st.inUse ==> h in st.held)
  {
    hide RingsOk, Sum;
    assert HandleOk(st, entries, h);
  }

  lemma DropFirst(c: seq<int>)
    requires c != [] && Distinct(c)
    ensures Drop(c, c[0]) == c[1..]
  {
    var i: nat :| i < |c| && c[i] == c[0] && Drop(c, c[0]) == Without(c, i);
    assert i == 0;
  }
}
