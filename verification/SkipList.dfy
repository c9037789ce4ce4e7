/** db/skiplist.h: the sorted list behind the memtable, searched without locks while one
    writer inserts. */
module SkipLists {
  import opened InternalKeys

  /** kMaxHeight */
  const MAX_HEIGHT: nat := 12

  /** Keys are ranks under the comparator and never inserted twice, so a node is named by
      its key. */
  datatype Ref = Nil | Head | Node(key: int)

  /** The pointers in the arena: next_[level] of every node. */
  type Links = map<(Ref, nat), Ref>

  predicate Below(x: Ref, key: int) {
    x.Head? || (x.Node? && x.key < key)
  }

  /** r is the first key of s behind x, or nil. */
  ghost predicate IsNext(s: set<int>, x: Ref, r: Ref) {
    match r
    case Head => false
    case Nil => forall k :: k in s ==> !Below(x, k)
    case Node(m) => m in s && Below(x, m) && forall k :: k in s && Below(x, k) ==> m <= k
  }

  /** r is the last key of s before key, or the head. */
  ghost predicate IsPrevious(s: set<int>, key: int, r: Ref) {
    match r
    case Nil => false
    case Head => forall k :: k in s ==> k >= key
    case Node(m) => m in s && m < key && forall k :: k in s && k < key ==> k <= m
  }

  /** r is the first key of s that is at least target, or nil. */
  ghost predicate IsFirstFrom(s: set<int>, target: int, r: Ref) {
    match r
    case Head => false
    case Nil => forall k :: k in s ==> k < target
    case Node(m) => m in s && m >= target && forall k :: k in s && k >= target ==> m <= k
  }

  predicate Linked(levels: seq<set<int>>, i: nat, x: Ref)
    requires i < |levels|
  {
    x.Head? || (x.Node? && x.key in levels[i])
  }

  /** Every level is a strictly sorted list, and holds no key the level below does not. */
  ghost predicate ListsOk(links: Links, levels: seq<set<int>>) {
    && |levels| == MAX_HEIGHT
    && (forall i: nat, x :: i < MAX_HEIGHT && Linked(levels, i, x) ==>
          (x, i) in links && IsNext(levels[i], x, links[(x, i)]))
    && (forall i: nat :: i + 1 < MAX_HEIGHT ==> levels[i + 1] <= levels[i])
  }

  lemma {:induction false} LevelsNest(links: Links, levels: seq<set<int>>, i: nat, k: nat)
    requires ListsOk(links, levels) && i <= k < MAX_HEIGHT
    ensures levels[k] <= levels[i]
  {
    if i < k {
      LevelsNest(links, levels, i, k - 1);
    }
  }

  /** Setting a pointer of a node that is not on that level yet changes no list. */
  lemma OwnPointerIsUnseen(links: Links, levels: seq<set<int>>, key: int, i: nat, r: Ref)
    requires ListsOk(links, levels) && i < MAX_HEIGHT && key !in levels[i]
    ensures ListsOk(links[(Node(key), i) := r], levels)
  {
  }

  /** Publishing: the store into the node before links the key in on level i. */
  lemma PublishLinks(links: Links, levels: seq<set<int>>, key: int, i: nat, prev: Ref)
    requires ListsOk(links, levels) && i < MAX_HEIGHT && key !in levels[i]
    requires i > 0 ==> key in levels[i - 1]
    requires IsPrevious(levels[i], key, prev)
    requires (Node(key), i) in links && (prev, i) in links && links[(Node(key), i)] == links[(prev, i)]
    ensures ListsOk(links[(prev, i) := Node(key)], levels[i := levels[i] + {key}])
  {
    var links', levels' := links[(prev, i) := Node(key)], levels[i := levels[i] + {key}];
    assert Linked(levels, i, prev);
    forall j: nat, x | j < MAX_HEIGHT && Linked(levels', j, x)
      ensures (x, j) in links' && IsNext(levels'[j], x, links'[(x, j)])
    {
      if j != i {
        assert Linked(levels, j, x);
      } else if x == Node(key) {
      } else {
        assert Linked(levels, i, x);
        NextAfterInsert(levels[i], key, prev, x, links[(x, i)], links[(prev, i)]);
      }
    }
    forall j: nat | j + 1 < MAX_HEIGHT ensures levels'[j + 1] <= levels'[j] {
      assert levels[j + 1] <= levels[j];
    }
  }

  lemma NextAfterInsert(s: set<int>, key: int, prev: Ref, x: Ref, nextOfX: Ref, nextOfPrev: Ref)
    requires key !in s && IsPrevious(s, key, prev) && (x.Head? || (x.Node? && x.key in s))
    requires IsNext(s, x, nextOfX) && IsNext(s, prev, nextOfPrev)
    ensures IsNext(s + {key}, x, if x == prev then Node(key) else nextOfX)
    ensures IsNext(s + {key}, Node(key), nextOfPrev)
  {
  }

  /** One look at a pointer decides whether to go on or to stay before the target. */
  predicate KeyIsAfterNode(target: int, n: Ref) {
    n.Node? && n.key < target
  }

  /** A search that cannot go on stands just before the target. */
  lemma StopsBefore(s: set<int>, x: Ref, target: int, next: Ref)
    requires x.Head? || (x.Node? && x.key in s && x.key < target)
    requires IsNext(s, x, next) && !KeyIsAfterNode(target, next)
    ensures IsFirstFrom(s, target, next) && IsPrevious(s, target, x)
  {
  }

  // ---------- the list as one thread sees it ----------

  class SkipList {
    var maxHeight: nat
    var next: Links
    ghost var levels: seq<set<int>>

    ghost predicate Valid()
      reads this
    {
      && 1 <= maxHeight <= MAX_HEIGHT && ListsOk(next, levels)
      && forall i: nat :: maxHeight <= i < MAX_HEIGHT ==> levels[i] == {}
    }

    ghost function Keys(): set<int>
      requires Valid()
      reads this
    {
      levels[0]
    }

    constructor ()
      ensures Valid() && Keys() == {}
    {
      maxHeight := 1;
      next := map i: nat | i < MAX_HEIGHT :: (Head, i) := Nil;
      levels := seq(MAX_HEIGHT, _ => {});
    }

    lemma AtLevel(level: nat, x: Ref)
      requires Valid() && level < MAX_HEIGHT && Linked(levels, level, x)
      ensures |levels| == MAX_HEIGHT && (x, level) in next && IsNext(levels[level], x, next[(x, level)])
      ensures level > 0 ==> Linked(levels, level - 1, x)
      ensures levels[level] <= levels[0]
    {
      LevelsNest(next, levels, 0, level);
      if level > 0 {
        assert levels[level - 1 + 1] <= levels[level - 1];
      }
    }

    /** FindGreaterOrEqual, with prev filled in on the levels in use. */
    method FindGreaterOrEqual(key: int) returns (r: Ref, prev: seq<Ref>)
      requires Valid()
      ensures |levels| == MAX_HEIGHT && IsFirstFrom(Keys(), key, r)
      ensures |prev| == MAX_HEIGHT && forall i: nat :: i < maxHeight ==> IsPrevious(levels[i], key, prev[i])
    {
      assert |levels| == MAX_HEIGHT;
      prev := seq(MAX_HEIGHT, _ => Head);
      r := Nil;
      var x, level := Head, maxHeight - 1;
      hide ListsOk, IsNext, IsFirstFrom, IsPrevious, Ahead;
      while true
        invariant 0 <= level < maxHeight && Linked(levels, level, x) && Below(x, key)
        invariant |prev| == MAX_HEIGHT && forall i: nat :: level < i < maxHeight ==> IsPrevious(levels[i], key, prev[i])
        decreases level, Ahead(levels[0], x, Some(key))
      {
        AtLevel(level, x);
        var n := next[(x, level)];
        if KeyIsAfterNode(key, n) {
          StepsAhead(levels[level], levels[0], x, Some(key), n);
          x := n;
        } else {
          StopsBefore(levels[level], x, key, n);
          prev := prev[level := x];
          if level == 0 {
            return n, prev;
          }
          level := level - 1;
        }
      }
    }

    /** FindLessThan */
    method FindLessThan(key: int) returns (x: Ref)
      requires Valid()
      ensures IsPrevious(Keys(), key, x)
    {
      assert |levels| == MAX_HEIGHT;
      x := Head;
      var level := maxHeight - 1;
      hide ListsOk, IsNext, IsFirstFrom, IsPrevious, Ahead;
      while true
        invariant 0 <= level < maxHeight && Linked(levels, level, x) && Below(x, key)
        decreases level, Ahead(levels[0], x, Some(key))
      {
        AtLevel(level, x);
        var n := next[(x, level)];
        if !KeyIsAfterNode(key, n) {
          StopsBefore(levels[level], x, key, n);
          if level == 0 {
            return;
          }
          level := level - 1;
        } else {
          StepsAhead(levels[level], levels[0], x, Some(key), n);
          x := n;
        }
      }
    }

    /** FindLast: the last key, or the head of an empty list. */
    method FindLast() returns (x: Ref)
      requires Valid()
      ensures x.Head? || (x.Node? && x.key in Keys())
      ensures forall k :: k in Keys() ==> !Below(x, k)
    {
      assert |levels| == MAX_HEIGHT;
      x := Head;
      var level := maxHeight - 1;
      while true
        invariant 0 <= level < maxHeight && Linked(levels, level, x)
        decreases level, Ahead(levels[0], x, None)
      {
        AtLevel(level, x);
        var n := next[(x, level)];
        if n == Nil {
          if level == 0 {
            return;
          }
          level := level - 1;
        } else {
          StepsAhead(levels[level], levels[0], x, None, n);
          x := n;
        }
      }
    }

    /** Contains */
    method Contains(key: int) returns (found: bool)
      requires Valid()
      ensures found <==> key in Keys()
    {
      var x, prev := FindGreaterOrEqual(key);
      found := x.Node? && x.key == key;
    }

    /** Insert, with the height the random generator came up with: the key is added on that
        many levels. */
    method Insert(key: int, height: nat)
      requires Valid() && key !in Keys() && 1 <= height <= MAX_HEIGHT
      modifies this
      ensures Valid() && Keys() == old(Keys()) + {key}
      ensures |levels| == |old(levels)| && forall i: nat :: i < MAX_HEIGHT ==>
        levels[i] == old(levels)[i] + (if i < height then {key} else {})
    {
      var x, prev := FindGreaterOrEqual(key);
      ghost var before := levels;
      forall i: nat | i < MAX_HEIGHT ensures key !in levels[i] && (i >= maxHeight ==> IsPrevious(levels[i], key, Head)) {
        LevelsNest(next, levels, 0, i);
      }
      if height > maxHeight {
        var j := maxHeight;
        while j < height
          invariant maxHeight <= j <= height && |prev| == MAX_HEIGHT
          invariant forall i: nat :: i < j ==> IsPrevious(levels[i], key, prev[i])
        {
          prev := prev[j := Head];
          j := j + 1;
        }
        maxHeight := height;
      }
      hide ListsOk, IsNext, IsPrevious;
      var i := 0;
      while i < height
        invariant 0 <= i <= height <= maxHeight <= MAX_HEIGHT && ListsOk(next, levels) && |levels| == MAX_HEIGHT
        invariant forall j: nat :: maxHeight <= j < MAX_HEIGHT ==> before[j] == {}
        invariant forall j: nat :: j < MAX_HEIGHT ==> levels[j] == before[j] + (if j < i then {key} else {})
      {
        assert Linked(levels, i, prev[i]) by {
          LinkedPrevious(levels, i, key, prev[i]);
        }
        PointerThere(next, levels, i, prev[i]);
        OwnPointerIsUnseen(next, levels, key, i, next[(prev[i], i)]);
        next := next[(Node(key), i) := next[(prev[i], i)]];
        PublishLinks(next, levels, key, i, prev[i]);
        next := next[(prev[i], i) := Node(key)];
        levels := levels[i := levels[i] + {key}];
        i := i + 1;
      }
      assert forall j: nat :: maxHeight <= j < MAX_HEIGHT ==> levels[j] == before[j];
    }
  }

  lemma LinkedPrevious(levels: seq<set<int>>, i: nat, key: int, prev: Ref)
    requires i < |levels| && IsPrevious(levels[i], key, prev)
    ensures Linked(levels, i, prev) && prev != Node(key)
  {
  }

  lemma PointerThere(links: Links, levels: seq<set<int>>, i: nat, x: Ref)
    requires ListsOk(links, levels) && i < MAX_HEIGHT && Linked(levels, i, x)
    ensures (x, i) in links
  {
  }

  /** Without a target a search goes on to the last key. */
  predicate Within(target: Option<int>, k: int) {
    target.None? || k < target.value
  }

  /** How many keys a search has before it. */
  ghost function Ahead(s: set<int>, x: Ref, target: Option<int>): nat {
    |set k | k in s && Below(x, k) && Within(target, k)|
  }

  lemma StepsAhead(s: set<int>, all: set<int>, x: Ref, target: Option<int>, n: Ref)
    requires s <= all && IsNext(s, x, n) && n.Node? && Within(target, n.key)
    ensures Ahead(all, n, target) < Ahead(all, x, target)
  {
    var now := set k | k in all && Below(x, k) && Within(target, k);
    var then' := set k | k in all && Below(n, k) && Within(target, k);
    assert n.key in now && n.key !in then';
    StrictSubsetIsSmaller(then', now);
  }

  // ---------- readers beside a writer, one load or store at a time ----------

  /** The writer between two stores: it has published the key on levels below at, and on
      level at it may have set the new node's own pointer. */
  datatype Writer =
    | Idle
    | Raising(key: int, height: nat, prev: seq<Ref>)
    | Linking(key: int, height: nat, prev: seq<Ref>, at: nat, ownSet: bool)

  /** A search under way: it stands at x and is about to load x's pointer on level; with no
      target it looks for the last key. */
  datatype Reader =
    | Searching(target: Option<int>, x: Ref, level: nat)
    | Found(target: Option<int>, x: Ref, next: Ref)

  /** levels is bookkeeping: the keys published on each level. */
  datatype Memory = Memory(maxHeight: nat, next: Links, levels: seq<set<int>>, writer: Writer)

  datatype WriterStep = Begin(key: int, height: nat, prev: seq<Ref>) | StoreMaxHeight | StoreOwn | Publish

  ghost predicate PreviousOk(m: Memory, key: int, height: nat, prev: seq<Ref>)
    requires |m.levels| == MAX_HEIGHT
  {
    && 1 <= height <= MAX_HEIGHT && |prev| == MAX_HEIGHT
    && forall i: nat :: i < height ==> i < MAX_HEIGHT && IsPrevious(m.levels[i], key, prev[i])
  }

  ghost predicate WriterMay(m: Memory, s: WriterStep) {
    match s
    case Begin(key, height, prev) =>
      m.writer.Idle? && |m.levels| == MAX_HEIGHT && key !in m.levels[0] && PreviousOk(m, key, height, prev)
    case StoreMaxHeight => m.writer.Raising?
    case StoreOwn =>
      m.writer.Linking? && !m.writer.ownSet && m.writer.at < |m.writer.prev| && (m.writer.prev[m.writer.at], m.writer.at) in m.next
    case Publish => m.writer.Linking? && m.writer.ownSet && m.writer.at < |m.writer.prev| && m.writer.at < |m.levels|
  }

  ghost function WriterStepped(m: Memory, s: WriterStep): Memory
    requires WriterMay(m, s)
  {
    var w := m.writer;
    match s
    case Begin(key, height, prev) => m.(writer := Raising(key, height, prev))
    case StoreMaxHeight =>
      m.(maxHeight := if w.height > m.maxHeight then w.height else m.maxHeight,
         writer := Linking(w.key, w.height, w.prev, 0, false))
    case StoreOwn =>
      m.(next := m.next[(Node(w.key), w.at) := m.next[(w.prev[w.at], w.at)]], writer := w.(ownSet := true))
    case Publish =>
      m.(next := m.next[(w.prev[w.at], w.at) := Node(w.key)],
         levels := m.levels[w.at := m.levels[w.at] + {w.key}],
         writer := if w.at + 1 < w.height then w.(at := w.at + 1, ownSet := false) else Idle)
  }

  /** On every level the writer has not reached, prev is still right and the key is not
      there; its own pointer, once set, is what prev points to. */
  ghost predicate WriterOk(m: Memory)
    requires |m.levels| == MAX_HEIGHT
  {
    match m.writer
    case Idle => true
    case Raising(key, height, prev) => key !in m.levels[0] && PreviousOk(m, key, height, prev)
    case Linking(key, height, prev, at, ownSet) =>
      && 1 <= height <= MAX_HEIGHT && height <= m.maxHeight && at < height && |prev| == MAX_HEIGHT
      && (forall i: nat :: at <= i < height ==> key !in m.levels[i] && IsPrevious(m.levels[i], key, prev[i]))
      && (at > 0 ==> key in m.levels[at - 1])
      && (ownSet ==> (Node(key), at) in m.next && (prev[at], at) in m.next && m.next[(Node(key), at)] == m.next[(prev[at], at)])
  }

  /** After every single store: each level is sorted and within the one below. */
  ghost predicate Inv(m: Memory) {
    && 1 <= m.maxHeight <= MAX_HEIGHT && ListsOk(m.next, m.levels) && WriterOk(m)
    && forall i: nat :: m.maxHeight <= i < MAX_HEIGHT ==> m.levels[i] == {}
  }

  lemma BeginKeepsInv(m: Memory, key: int, height: nat, prev: seq<Ref>)
    requires Inv(m) && WriterMay(m, Begin(key, height, prev))
    ensures Inv(WriterStepped(m, Begin(key, height, prev)))
  {
  }

  lemma StoreMaxHeightKeepsInv(m: Memory)
    requires Inv(m) && WriterMay(m, StoreMaxHeight)
    ensures Inv(WriterStepped(m, StoreMaxHeight))
  {
    hide IsNext, IsPrevious;
    var key := m.writer.key;
    forall i: nat | i < m.writer.height ensures key !in m.levels[i] {
      LevelsNest(m.next, m.levels, 0, i);
    }
    hide ListsOk;
  }

  lemma StoreOwnKeepsInv(m: Memory)
    requires Inv(m) && WriterMay(m, StoreOwn)
    ensures Inv(WriterStepped(m, StoreOwn))
  {
    var w := m.writer;
    LinkedPrevious(m.levels, w.at, w.key, w.prev[w.at]);
    hide IsNext, IsPrevious;
    OwnPointerIsUnseen(m.next, m.levels, w.key, w.at, m.next[(w.prev[w.at], w.at)]);
    hide ListsOk;
  }

  lemma PublishKeepsInv(m: Memory)
    requires Inv(m) && WriterMay(m, Publish)
    ensures Inv(WriterStepped(m, Publish))
  {
    var w := m.writer;
    hide IsNext, IsPrevious;
    PublishLinks(m.next, m.levels, w.key, w.at, w.prev[w.at]);
    hide ListsOk;
  }

  /** Every store of Insert keeps the lists sorted and nested, and only ever adds keys. */
  lemma WriterKeepsInv(m: Memory, s: WriterStep)
    requires Inv(m) && WriterMay(m, s)
    ensures Inv(WriterStepped(m, s))
    ensures |WriterStepped(m, s).levels| == |m.levels| && m.maxHeight <= WriterStepped(m, s).maxHeight
    ensures forall i: nat :: i < |m.levels| ==> m.levels[i] <= WriterStepped(m, s).levels[i]
  {
    match s
    case Begin(key, height, prev) => BeginKeepsInv(m, key, height, prev);
    case StoreMaxHeight => StoreMaxHeightKeepsInv(m);
    case StoreOwn => StoreOwnKeepsInv(m);
    case Publish => PublishKeepsInv(m);
  }

  // ---------- a search beside the writer ----------

  predicate GoesOn(target: Option<int>, n: Ref) {
    n.Node? && Within(target, n.key)
  }

  /** One load of a search: FindGreaterOrEqual returns next, FindLessThan and FindLast
      return x. */
  ghost function ReaderStepped(m: Memory, r: Reader): Reader
    requires r.Searching? && (r.x, r.level) in m.next
  {
    var n := m.next[(r.x, r.level)];
    if GoesOn(r.target, n) then Searching(r.target, n, r.level)
    else if r.level == 0 then Found(r.target, r.x, n)
    else Searching(r.target, r.x, r.level - 1)
  }

  /** Where a search stands is linked on its level, and before its target. */
  ghost predicate ReaderOk(m: Memory, r: Reader) {
    r.Searching? ==> r.level < |m.levels| && Linked(m.levels, r.level, r.x) && (r.x.Node? ==> Within(r.target, r.x.key))
  }

  /** A search begins at the head on some level: max_height_ may be read stale. */
  lemma SearchBegins(m: Memory, target: Option<int>, level: nat)
    requires Inv(m) && level < MAX_HEIGHT
    ensures ReaderOk(m, Searching(target, Head, level))
  {
  }

  /** The writer's stores disturb no search. */
  lemma WriterKeepsReader(m: Memory, s: WriterStep, r: Reader)
    requires Inv(m) && WriterMay(m, s) && ReaderOk(m, r)
    ensures ReaderOk(WriterStepped(m, s), r)
  {
    WriterKeepsInv(m, s);
    hide Inv, WriterMay, WriterStepped;
  }

  lemma PointerLoads(m: Memory, level: nat, x: Ref)
    requires Inv(m) && level < MAX_HEIGHT && Linked(m.levels, level, x)
    ensures |m.levels| == MAX_HEIGHT && (x, level) in m.next && IsNext(m.levels[level], x, m.next[(x, level)])
    ensures level > 0 ==> Linked(m.levels, level - 1, x)
    ensures m.levels[level] <= m.levels[0]
  {
    LevelsNest(m.next, m.levels, 0, level);
    if level > 0 {
      assert m.levels[level - 1 + 1] <= m.levels[level - 1];
    }
  }

  /** A load is always possible, keeps the search in its place, and brings it nearer to
      its end, however many keys of all are inserted meanwhile. */
  lemma LoadIsProgress(m: Memory, r: Reader, all: set<int>)
    requires Inv(m) && ReaderOk(m, r) && r.Searching? && |m.levels| == MAX_HEIGHT && m.levels[0] <= all
    ensures (r.x, r.level) in m.next && ReaderOk(m, ReaderStepped(m, r))
    ensures var after := ReaderStepped(m, r);
            || after.Found?
            || after.level < r.level
            || (after.level == r.level && Ahead(all, after.x, r.target) < Ahead(all, r.x, r.target))
  {
    PointerLoads(m, r.level, r.x);
    hide Inv, IsNext, Ahead;
    var n := m.next[(r.x, r.level)];
    if GoesOn(r.target, n) {
      StepsAhead(m.levels[r.level], all, r.x, r.target, n);
      NextIsLinked(m.levels, r.level, r.x, n);
    }
  }

  lemma NextIsLinked(levels: seq<set<int>>, i: nat, x: Ref, n: Ref)
    requires i < |levels| && IsNext(levels[i], x, n) && n.Node?
    ensures Linked(levels, i, n)
  {
  }

  /** The result is right for the keys in the list at the last load: FindGreaterOrEqual
      returns the first key from the target on, FindLessThan the last before it, FindLast
      the last of all. */
  lemma LastLoadDecides(m: Memory, r: Reader)
    requires Inv(m) && ReaderOk(m, r) && r.Searching? && (r.x, r.level) in m.next && ReaderStepped(m, r).Found?
    ensures |m.levels| == MAX_HEIGHT
    ensures Decides(ReaderStepped(m, r), m.levels[0])
  {
    PointerLoads(m, r.level, r.x);
    hide Inv;
  }

  datatype Step = Write(s: WriterStep) | Load

  /** Any interleaving of the writer's stores with the loads of one search. */
  ghost predicate Run(m: Memory, r: Reader, steps: seq<Step>)
    decreases |steps|
  {
    steps == [] ||
    match steps[0]
    case Write(s) => WriterMay(m, s) && Run(WriterStepped(m, s), r, steps[1..])
    case Load => r.Searching? && (r.x, r.level) in m.next && Run(m, ReaderStepped(m, r), steps[1..])
  }

  ghost function After(m: Memory, r: Reader, steps: seq<Step>): (Memory, Reader)
    requires Run(m, r, steps)
    decreases |steps|
  {
    if steps == [] then (m, r)
    else
      match steps[0]
      case Write(s) => After(WriterStepped(m, s), r, steps[1..])
      case Load => After(m, ReaderStepped(m, r), steps[1..])
  }

  function Loads(steps: seq<Step>): nat {
    if steps == [] then 0 else (if steps[0].Load? then 1 else 0) + Loads(steps[1..])
  }

  /** What a search may still have to do: on every level at most all keys before its target. */
  ghost function Budget(all: set<int>, r: Reader): nat {
    match r
    case Found(_, _, _) => 0
    case Searching(target, x, level) => level * (|all| + 1) + Ahead(all, x, target) + 1
  }

  lemma AheadIsBounded(all: set<int>, x: Ref, target: Option<int>)
    ensures Ahead(all, x, target) <= |all|
  {
    var ahead := set k | k in all && Below(x, k) && Within(target, k);
    SubsetIsNoLarger(ahead, all);
  }

  lemma LoadSpendsBudget(m: Memory, r: Reader, all: set<int>)
    requires Inv(m) && ReaderOk(m, r) && r.Searching? && |m.levels| == MAX_HEIGHT && m.levels[0] <= all
    ensures (r.x, r.level) in m.next && Budget(all, ReaderStepped(m, r)) < Budget(all, r)
  {
    LoadIsProgress(m, r, all);
    var after := ReaderStepped(m, r);
    hide ReaderStepped, Inv, ReaderOk, Ahead;
    if after.Searching? && after.level < r.level {
      AheadIsBounded(all, after.x, after.target);
      assert (after.level + 1) * (|all| + 1) <= r.level * (|all| + 1);
    }
  }

  /** What the result of a search says about a set of keys. */
  ghost predicate Decides(r: Reader, keys: set<int>)
    requires r.Found?
  {
    if r.target.Some? then IsFirstFrom(keys, r.target.value, r.next) && IsPrevious(keys, r.target.value, r.x)
    else (r.x.Head? || (r.x.Node? && r.x.key in keys)) && forall k :: k in keys ==> !Below(r.x, k)
  }

  /** The memory as it stands at the last load. */
  ghost function AtLastLoad(m: Memory, r: Reader, steps: seq<Step>): Memory
    requires Run(m, r, steps)
    decreases |steps|
  {
    if steps == [] then m
    else
      match steps[0]
      case Write(s) => AtLastLoad(WriterStepped(m, s), r, steps[1..])
      case Load => if Loads(steps[1..]) == 0 then m else AtLastLoad(m, ReaderStepped(m, r), steps[1..])
  }

  lemma {:induction false} FoundLoadsNoMore(m: Memory, r: Reader, steps: seq<Step>)
    requires Run(m, r, steps) && r.Found? && Inv(m)
    ensures Loads(steps) == 0 && After(m, r, steps).1 == r
    ensures |m.levels| == |After(m, r, steps).0.levels| == MAX_HEIGHT && m.levels[0] <= After(m, r, steps).0.levels[0]
    decreases |steps|
  {
    if steps != [] {
      WriterKeepsInv(m, steps[0].s);
      hide Inv, WriterStepped, WriterMay;
      FoundLoadsNoMore(WriterStepped(m, steps[0].s), r, steps[1..]);
    }
  }

  lemma {:induction false} NoLoadFindsNothing(m: Memory, r: Reader, steps: seq<Step>)
    requires Run(m, r, steps) && r.Searching? && Loads(steps) == 0
    ensures After(m, r, steps).1 == r
    decreases |steps|
  {
    if steps != [] {
      NoLoadFindsNothing(WriterStepped(m, steps[0].s), r, steps[1..]);
    }
  }

  lemma {:induction false} ResultIsOfLastLoad(m: Memory, r: Reader, steps: seq<Step>)
    requires Inv(m) && ReaderOk(m, r) && r.Searching? && Run(m, r, steps) && After(m, r, steps).1.Found?
    ensures var at := AtLastLoad(m, r, steps);
            && |m.levels| == |at.levels| == |After(m, r, steps).0.levels| == MAX_HEIGHT
            && m.levels[0] <= at.levels[0] <= After(m, r, steps).0.levels[0]
            && Decides(After(m, r, steps).1, at.levels[0])
    decreases |steps|
  {
    match steps[0]
    case Write(s) =>
      WriterKeepsInv(m, s);
      WriterKeepsReader(m, s, r);
      hide Inv, ReaderOk, WriterStepped, WriterMay, Decides;
      ResultIsOfLastLoad(WriterStepped(m, s), r, steps[1..]);
    case Load =>
      ReaderLoads(m, r);
      var next := ReaderStepped(m, r);
      if next.Found? {
        LastLoadDecides(m, r);
        FoundLoadsNoMore(m, next, steps[1..]);
      } else {
        if Loads(steps[1..]) == 0 {
          NoLoadFindsNothing(m, next, steps[1..]);
        }
        hide Inv, ReaderOk, ReaderStepped, Decides;
        ResultIsOfLastLoad(m, next, steps[1..]);
      }
  }

  /** A search beside any stores of the writer: whatever level it begins on, once it is done its
      result is right for the keys in the list at its last load, among them all those that were
      there when it began. */
  lemma SearchFinds(m: Memory, target: Option<int>, level: nat, steps: seq<Step>)
    requires Inv(m) && level < MAX_HEIGHT
    requires Run(m, Searching(target, Head, level), steps) && After(m, Searching(target, Head, level), steps).1.Found?
    ensures var r := Searching(target, Head, level);
            var (at, found) := (AtLastLoad(m, r, steps), After(m, r, steps).1);
            && |m.levels| == |at.levels| == MAX_HEIGHT && m.levels[0] <= at.levels[0]
            && found.target == target && Decides(found, at.levels[0])
  {
    SearchBegins(m, target, level);
    ResultIsOfLastLoad(m, Searching(target, Head, level), steps);
    TargetStays(m, Searching(target, Head, level), steps);
  }

  lemma {:induction false} TargetStays(m: Memory, r: Reader, steps: seq<Step>)
    requires Run(m, r, steps)
    ensures After(m, r, steps).1.target == r.target
    decreases |steps|
  {
    if steps != [] {
      match steps[0]
      case Write(s) => TargetStays(WriterStepped(m, s), r, steps[1..]);
      case Load => TargetStays(m, ReaderStepped(m, r), steps[1..]);
    }
  }

  /** In every interleaving, as long as the keys ever inserted lie in the finite set all, a
      search ends after at most its budget of loads, every store and load leaves the lists
      sorted and nested, and no key once in the list is lost. */
  lemma {:induction false} SearchEnds(m: Memory, r: Reader, steps: seq<Step>, all: set<int>)
    requires Inv(m) && ReaderOk(m, r) && Run(m, r, steps)
    requires |After(m, r, steps).0.levels| == MAX_HEIGHT && After(m, r, steps).0.levels[0] <= all
    ensures var (m', r') := After(m, r, steps);
            && Inv(m') && ReaderOk(m', r') && |m.levels| == MAX_HEIGHT && m.levels[0] <= m'.levels[0]
            && Loads(steps) + Budget(all, r') <= Budget(all, r)
    decreases |steps|
  {
    if steps != [] {
      match steps[0]
      case Write(s) =>
        WriterKeepsInv(m, s);
        WriterKeepsReader(m, s, r);
        hide Inv, ReaderOk, WriterStepped, WriterMay, Budget;
        SearchEnds(WriterStepped(m, s), r, steps[1..], all);
      case Load =>
        ReaderLoads(m, r);
        hide Inv, ReaderOk, ReaderStepped, Budget;
        SearchEnds(m, ReaderStepped(m, r), steps[1..], all);
        LoadSpendsBudget(m, r, all);
    }
  }

  lemma ReaderLoads(m: Memory, r: Reader)
    requires Inv(m) && ReaderOk(m, r) && r.Searching? && (r.x, r.level) in m.next
    ensures |m.levels| == MAX_HEIGHT && ReaderOk(m, ReaderStepped(m, r))
  {
    LoadIsProgress(m, r, m.levels[0]);
  }
}
