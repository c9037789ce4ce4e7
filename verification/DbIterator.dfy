/** db/db_iter.cc: a bidirectional cursor over user keys at one sequence number, on
    top of a merging iterator over the sorted internal entries. */
module DbIterators {
  import opened InternalKeys
  import opened MergingIterators

  // ---------- the entries a reader at s is shown ----------

  ghost predicate Seen(es: seq<Entry>, s: nat, i: nat) {
    i < |es| && es[i].sn <= s
  }

  /** es[i] is the newest entry of its user key that s can see, and not a tombstone. */
  ghost predicate Shown(es: seq<Entry>, s: nat, i: nat) {
    && Seen(es, s, i) && es[i].kind.Put?
    && forall j :: 0 <= j < i && es[j].user == es[i].user ==> es[j].sn > s
  }

  ghost predicate NoneShown(es: seq<Entry>, s: nat, lo: int, hi: int) {
    forall i: nat {:trigger Shown(es, s, i)} :: lo <= i < hi ==> !Shown(es, s, i)
  }

  /** i is the first shown entry from lo on; |es| when there is none. */
  ghost predicate FirstShown(es: seq<Entry>, s: nat, lo: int, i: nat) {
    && i <= |es| && NoneShown(es, s, lo, i)
    && (i < |es| ==> lo <= i && Shown(es, s, i))
  }

  /** i is the last shown entry before hi; |es| when there is none. */
  ghost predicate LastShown(es: seq<Entry>, s: nat, hi: nat, i: nat) {
    && i <= |es|
    && (i < |es| ==> i < hi && Shown(es, s, i) && NoneShown(es, s, i + 1, hi))
    && (i == |es| ==> NoneShown(es, s, 0, hi))
  }

  /** The shown entries list, in ascending user keys, exactly the map a reader at s has. */
  lemma ShownIsAnswer(es: seq<Entry>, s: nat, user: UserKey)
    requires Sorted(es) && UniqueSequence(Entries(es))
    ensures Answer(Entries(es), user, s).Some? <==> exists i: nat :: Shown(es, s, i) && es[i].user == user
    ensures forall i: nat :: Shown(es, s, i) && es[i].user == user ==> Answer(Entries(es), user, s) == Some(es[i].value)
    ensures forall i: nat, j: nat :: Shown(es, s, i) && Shown(es, s, j) && i < j ==> es[i].user < es[j].user
  {
    forall i: nat | Shown(es, s, i) && es[i].user == user
      ensures IsNewest(Entries(es), user, s, es[i]) && Answer(Entries(es), user, s) == Some(es[i].value)
    {
      AnswerOfNewest(Entries(es), user, s, es[i]);
    }
    forall i: nat, j: nat | Shown(es, s, i) && Shown(es, s, j) && i < j ensures es[i].user < es[j].user {
      assert Less(KeyOf(es[i]), KeyOf(es[j]));
    }
    if Answer(Entries(es), user, s).Some? {
      var e :| IsNewest(Entries(es), user, s, e) && e.kind.Put?;
      var i :| 0 <= i < |es| && es[i] == e;
      forall j | 0 <= j < i && es[j].user == user ensures es[j].sn > s {
        assert Less(KeyOf(es[j]), KeyOf(es[i]));
        assert es[j] in Entries(es);
      }
      assert Shown(es, s, i);
    }
  }

  // ---------- the cursor as one over a map ----------

  /** The shown entries are the map, in ascending order of its keys. */
  ghost predicate ShowsMap(es: seq<Entry>, s: nat, m: map<UserKey, Data>) {
    && (forall user :: user in m ==> exists i: nat :: Shown(es, s, i) && es[i].user == user)
    && (forall i: nat {:trigger Shown(es, s, i)} :: Shown(es, s, i) ==> es[i].user in m && m[es[i].user] == es[i].value)
    && (forall i: nat, j: nat {:trigger Shown(es, s, i), Shown(es, s, j)} ::
          Shown(es, s, i) && Shown(es, s, j) && i < j ==> es[i].user < es[j].user)
  }

  /** A reader whose answers are those of a map is shown the map. */
  lemma AnswersShowMap(es: seq<Entry>, s: nat, m: map<UserKey, Data>)
    requires Sorted(es) && UniqueSequence(Entries(es))
    requires forall user {:trigger Answer(Entries(es), user, s)} :: Answer(Entries(es), user, s) == Lookup(m, user)
    ensures ShowsMap(es, s, m)
  {
    forall user | user in m ensures exists i: nat :: Shown(es, s, i) && es[i].user == user {
      ShownIsAnswer(es, s, user);
      assert Answer(Entries(es), user, s).Some?;
    }
    forall i: nat | Shown(es, s, i) ensures es[i].user in m && m[es[i].user] == es[i].value {
      ShownIsAnswer(es, s, es[i].user);
      assert Answer(Entries(es), es[i].user, s) == Some(es[i].value);
    }
    ShownIsAnswer(es, s, 0);
  }

  /** Where Next goes: the least key of the map above the current one. */
  lemma NextIsNextKey(es: seq<Entry>, s: nat, m: map<UserKey, Data>, here: nat, next: nat)
    requires ShowsMap(es, s, m) && Shown(es, s, here) && FirstShown(es, s, here + 1, next)
    ensures next == |es| ==> forall k :: k in m ==> k <= es[here].user
    ensures next < |es| ==>
      es[next].user in m && es[next].user > es[here].user && forall k :: k in m && k > es[here].user ==> k >= es[next].user
  {
    forall k | k in m && k > es[here].user ensures next < |es| && k >= es[next].user {
      var i: nat :| Shown(es, s, i) && es[i].user == k;
      assert i > here && i >= next;
      assert next < |es| ==> Shown(es, s, next);
    }
  }

  /** Where Prev goes: the greatest key of the map below the current one. */
  lemma PrevIsPrevKey(es: seq<Entry>, s: nat, m: map<UserKey, Data>, here: nat, prev: nat)
    requires ShowsMap(es, s, m) && Shown(es, s, here) && LastShown(es, s, here, prev)
    ensures prev == |es| ==> forall k :: k in m ==> k >= es[here].user
    ensures prev < |es| ==>
      es[prev].user in m && es[prev].user < es[here].user && forall k :: k in m && k < es[here].user ==> k <= es[prev].user
  {
    forall k | k in m && k < es[here].user ensures prev < |es| && k <= es[prev].user {
      var i: nat :| Shown(es, s, i) && es[i].user == k;
      assert i < here;
      assert prev < |es| ==> Shown(es, s, prev) && i <= prev;
    }
  }

  class DBIter {
    /** The internal iterator, over the entries es. */
    const iter: MergingIterator
    ghost const es: seq<Entry>
    const sequence: nat
    var direction: Direction
    var valid: bool
    var savedKey: UserKey
    var savedValue: Data
    /** The shown entry the iterator is at; |es| when it is not valid. */
    ghost var here: nat

    /** The internal iterator stands at pos, behind the last entry when it is not valid. */
    ghost predicate Stands(pos: nat)
      reads iter
    {
      iter.Inv() && iter.merged == es && iter.position == pos
    }

    ghost predicate Inv()
      reads this, iter
    {
      var pos := iter.position;
      && Sorted(es) && UniqueSequence(Entries(es)) && Stands(pos)
      && pos <= |es| && here <= |es|
      && (valid <==> here < |es|)
      && (valid ==> Shown(es, sequence, here))
      && (valid && direction.Forward? ==> pos == here)
      && (valid && direction.Reverse? ==> savedKey == es[here].user && savedValue == es[here].value && JustBefore(es, sequence, pos, here))
    }

    constructor (iter: MergingIterator, sequence: nat)
      requires iter.Inv() && Sorted(iter.merged) && UniqueSequence(Entries(iter.merged))
      ensures Inv() && !valid && this.iter == iter && es == iter.merged && this.sequence == sequence
    {
      this.iter, this.es, this.sequence := iter, iter.merged, sequence;
      here := |iter.merged|;
      direction, valid := Forward, false;
      savedKey, savedValue := 0, [];
    }

    function Key(): (k: UserKey)
      reads this, iter
      requires Inv() && valid
      ensures k == es[here].user
    {
      if direction.Forward? then iter.Get().user else savedKey
    }

    function Value(): (v: Data)
      reads this, iter
      requires Inv() && valid
      ensures v == es[here].value
    {
      if direction.Forward? then iter.Get().value else savedValue
    }

    /** From pos on, the first entry to yield at or after lo. */
    method FindNextUserEntry(skip0: bool, ghost lo: nat)
      requires Sorted(es) && UniqueSequence(Entries(es)) && Stands(iter.position) && iter.IsValid() && direction.Forward?
      requires Scanning(es, sequence, lo, iter.position, skip0, savedKey)
      modifies this`valid, this`savedKey, this`here, iter
      ensures Inv() && FirstShown(es, sequence, lo, here)
    {
      hide IsMerge, AtSplit, BeforeSplit, Scanning, Sorted, UniqueSequence;
      var skipping := skip0;
      while iter.IsValid()
        invariant direction.Forward? && Stands(iter.position)
        invariant Scanning(es, sequence, lo, iter.position, skipping, savedKey)
        decreases |es| - iter.position
      {
        ghost var pos := iter.position;
        var ikey := iter.Get();
        if ikey.sn <= sequence {
          match ikey.kind
          case Deletion =>
            ScanTombstone(es, sequence, lo, pos, skipping, savedKey);
            savedKey := ikey.user;
            skipping := true;
          case Put =>
            if skipping && ikey.user <= savedKey {
              ScanPast(es, sequence, lo, pos, skipping, savedKey);
            } else {
              ScanHit(es, sequence, lo, pos, skipping, savedKey);
              valid, here := true, pos;
              return;
            }
        } else {
          ScanPast(es, sequence, lo, pos, skipping, savedKey);
        }
        iter.Next();
      }
      ScanEnd(es, sequence, lo, iter.position, skipping, savedKey);
      valid, here := false, |es|;
    }

    /** Going down from pos, the last entry to yield before top. */
    method FindPrevUserEntry(ghost top: nat)
      requires Sorted(es) && UniqueSequence(Entries(es)) && top <= |es| && direction.Reverse? && Stands(iter.position)
      requires NoCandidate(es, sequence, iter.position, top) && (iter.position < |es| ==> iter.position < top)
      modifies this`valid, this`direction, this`savedKey, this`savedValue, this`here, iter
      ensures Inv() && LastShown(es, sequence, top, here)
    {
      hide Pending, NoCandidate, LastShown, Sorted, UniqueSequence, IsMerge, AtSplit, BeforeSplit;
      var valueType := Deletion;
      ghost var c: nat := 0;
      PendingStart(es, sequence, iter.position, top, savedKey, savedValue);
      while iter.IsValid()
        invariant direction.Reverse? && Stands(iter.position)
        invariant Pending(es, sequence, iter.position, top, valueType, c, savedKey, savedValue)
        decreases Floor(es, iter.position)
      {
        ghost var pos := iter.position;
        var ikey := iter.Get();
        PendingStep(es, sequence, pos, top, valueType, c, savedKey, savedValue);
        if ikey.sn <= sequence {
          if valueType.Put? && ikey.user < savedKey {
            break;
          }
          valueType := ikey.kind;
          if valueType.Put? {
            savedKey, savedValue := ikey.user, ikey.value;
            c := pos;
          }
        }
        iter.Prev();
      }
      PendingEnd(es, sequence, iter.position, top, valueType, c, savedKey, savedValue);
      if valueType.Deletion? {
        valid, here := false, |es|;
        direction := Forward;
      } else {
        valid, here := true, c;
      }
    }

    method Seek(target: UserKey)
      requires Inv()
      modifies this, iter
      ensures Inv()
      ensures here < |es| ==> es[here].user >= target
      ensures forall i: nat {:trigger Shown(es, sequence, i)} :: Shown(es, sequence, i) && es[i].user >= target ==> here <= i
    {
      direction := Forward;
      iter.Seek(LookupKey(target, sequence));
      ghost var lo := iter.position;
      SeekSkipsNothing(es, sequence, target, savedKey);
      if iter.IsValid() {
        FindNextUserEntry(false, lo);
      } else {
        valid, here := false, |es|;
      }
    }

    method SeekToFirst()
      requires Inv()
      modifies this, iter
      ensures Inv() && FirstShown(es, sequence, 0, here)
    {
      direction := Forward;
      iter.SeekToFirst();
      if iter.IsValid() {
        FindNextUserEntry(false, 0);
      } else {
        valid, here := false, |es|;
      }
    }

    method SeekToLast()
      requires Inv()
      modifies this, iter
      ensures Inv() && LastShown(es, sequence, |es|, here)
    {
      direction := Reverse;
      iter.SeekToLast();
      FindPrevUserEntry(|es|);
    }

    method Next()
      requires Inv() && valid
      modifies this, iter
      ensures Inv() && FirstShown(es, sequence, old(here) + 1, here)
    {
      hide Scanning, Sorted, UniqueSequence, FirstShown, IsMerge, AtSplit, BeforeSplit;
      ghost var lo := here + 1;
      if direction.Reverse? {
        direction := Forward;
        if iter.IsValid() {
          iter.Next();
        } else {
          iter.SeekToFirst();
        }
        ScanAfterTurn(es, sequence, here, iter.position);
      } else {
        savedKey := iter.Get().user;
        iter.Next();
        ScanAfterTurn(es, sequence, here, iter.position);
      }
      if iter.IsValid() {
        FindNextUserEntry(true, lo);
      } else {
        ScanEnd(es, sequence, lo, iter.position, true, savedKey);
        valid, here := false, |es|;
      }
    }

    /** Moves the internal iterator back to the first entry of a smaller user key. */
    method ScanBackOverKey(ghost top: nat)
      requires Sorted(es) && Shown(es, sequence, top) && Stands(top) && savedKey == es[top].user
      modifies iter
      ensures Stands(iter.position) && NoCandidate(es, sequence, iter.position, top)
      ensures iter.position < |es| ==> iter.position < top
    {
      hide IsMerge, AtSplit, BeforeSplit;
      iter.Prev();
      while iter.IsValid() && iter.Get().user >= savedKey
        invariant Stands(iter.position) && (iter.position < |es| ==> iter.position < top)
        invariant NoCandidate(es, sequence, iter.position, top)
        decreases Floor(es, iter.position)
      {
        OlderThanShown(es, sequence, top, iter.position);
        iter.Prev();
      }
    }

    method Prev()
      requires Inv() && valid
      modifies this, iter
      ensures Inv() && LastShown(es, sequence, old(here), here)
    {
      ghost var top := here;
      if direction.Forward? {
        savedKey := iter.Get().user;
        ScanBackOverKey(top);
        if !iter.IsValid() {
          valid, here := false, |es|;
          return;
        }
        direction := Reverse;
      }
      FindPrevUserEntry(top);
    }
  }

  lemma ScanEnd(es: seq<Entry>, s: nat, lo: nat, pos: nat, skipping: bool, skip: UserKey)
    requires Scanning(es, s, lo, pos, skipping, skip) && pos >= |es|
    ensures FirstShown(es, s, lo, |es|)
  {
  }

  lemma SeekSkipsNothing(es: seq<Entry>, s: nat, target: UserKey, skip: UserKey)
    requires Sorted(es)
    ensures var lo := SeekIndex(es, LookupKey(target, s));
            && Scanning(es, s, lo, lo, false, skip)
            && (forall i :: lo <= i < |es| ==> es[i].user >= target)
            && (forall i: nat {:trigger Shown(es, s, i)} :: Shown(es, s, i) && es[i].user >= target ==> lo <= i)
  {
    var lo := SeekIndex(es, LookupKey(target, s));
    forall i | lo <= i < |es| ensures es[i].user >= target {
      assert i > lo ==> Less(KeyOf(es[lo]), KeyOf(es[i]));
    }
  }

  /** Starting the forward scan behind here, or in front of it after a turn. */
  lemma ScanAfterTurn(es: seq<Entry>, s: nat, here: nat, pos: nat)
    requires Sorted(es) && Shown(es, s, here)
    requires pos <= here + 1 && forall j :: pos <= j < here ==> es[j].sn > s
    requires pos <= here ==> pos == 0 || es[pos - 1].user < es[here].user
    ensures Scanning(es, s, here + 1, pos, true, es[here].user)
  {
    forall j | 0 <= j < |es| && j != here
      ensures j > here ==> es[j].user >= es[here].user
      ensures j < here ==> es[j].user <= es[here].user
    {
      assert if j < here then Less(KeyOf(es[j]), KeyOf(es[here])) else Less(KeyOf(es[here]), KeyOf(es[j]));
    }
  }

  /** Stepping back over entries of the key the cursor is at passes nothing that is shown. */
  lemma OlderThanShown(es: seq<Entry>, s: nat, here: nat, pos: nat)
    requires Sorted(es) && Shown(es, s, here) && pos < here
    requires es[pos].user >= es[here].user
    ensures !Shown(es, s, pos)
  {
    assert Less(KeyOf(es[pos]), KeyOf(es[here]));
  }

  /** Where the internal iterator stands while the cursor moves backward: at the nearest
      entry of a smaller user key that s can see, or nowhere. */
  ghost predicate JustBefore(es: seq<Entry>, s: nat, pos: nat, here: nat)
    requires here < |es| && pos <= |es|
  {
    && (pos < |es| ==> pos < here && es[pos].user < es[here].user && Seen(es, s, pos))
    && forall j :: Floor(es, pos) < j < here ==> es[j].sn > s
  }

  function Floor(es: seq<Entry>, pos: nat): int {
    if pos < |es| then pos else -1
  }

  // ---------- scanning forward ----------

  /** What the forward scan knows at pos: entries of user keys up to skip are hidden,
      and of every other user key nothing that s can see has been passed. */
  ghost predicate Scanning(es: seq<Entry>, s: nat, lo: nat, pos: nat, skipping: bool, skip: UserKey) {
    && pos <= |es|
    && NoneShown(es, s, lo, pos)
    && (skipping ==> forall j: nat {:trigger Shown(es, s, j)} :: lo <= j && pos <= j < |es| && es[j].user <= skip ==> !Shown(es, s, j))
    && (forall i, j :: 0 <= i < pos <= j < |es| && es[i].user == es[j].user && es[i].sn <= s ==> skipping && es[j].user <= skip)
    && (forall j :: pos <= j < lo && j < |es| ==> skipping && es[j].user <= skip && (es[j].sn <= s ==> es[j].kind.Put?))
  }

  lemma ScanPast(es: seq<Entry>, s: nat, lo: nat, pos: nat, skipping: bool, skip: UserKey)
    requires Sorted(es) && pos < |es| && Scanning(es, s, lo, pos, skipping, skip)
    requires es[pos].sn > s || (es[pos].kind.Put? && skipping && es[pos].user <= skip)
    ensures Scanning(es, s, lo, pos + 1, skipping, skip)
  {
  }

  lemma ScanTombstone(es: seq<Entry>, s: nat, lo: nat, pos: nat, skipping: bool, skip: UserKey)
    requires Sorted(es) && pos < |es| && Scanning(es, s, lo, pos, skipping, skip)
    requires es[pos].sn <= s && es[pos].kind.Deletion?
    ensures Scanning(es, s, lo, pos + 1, true, es[pos].user)
  {
    assert forall j :: pos < j < |es| ==> Less(KeyOf(es[pos]), KeyOf(es[j]));
  }

  lemma ScanHit(es: seq<Entry>, s: nat, lo: nat, pos: nat, skipping: bool, skip: UserKey)
    requires Sorted(es) && pos < |es| && Scanning(es, s, lo, pos, skipping, skip)
    requires es[pos].sn <= s && es[pos].kind.Put? && !(skipping && es[pos].user <= skip)
    ensures FirstShown(es, s, lo, pos)
  {
  }

  // ---------- scanning backward ----------

  /** What the backward scan knows after the entries above pos, up to top: c is the
      oldest-looked-at candidate, or no candidate is pending. */
  ghost predicate Candidate(es: seq<Entry>, s: nat, pos: nat, top: nat, c: nat) {
    && c < top <= |es| && pos <= |es| && Floor(es, pos) < c
    && Seen(es, s, c) && es[c].kind.Put?
    && (forall j :: Floor(es, pos) < j < c ==> es[j].sn > s)
    && NoneShown(es, s, c + 1, top)
  }

  ghost predicate NoCandidate(es: seq<Entry>, s: nat, pos: nat, top: nat) {
    pos <= |es| && NoneShown(es, s, Floor(es, pos) + 1, top)
  }

  /** Moving to a smaller user key that s can see, or off the front, settles the candidate. */
  lemma CandidateIsShown(es: seq<Entry>, s: nat, pos: nat, top: nat, c: nat)
    requires Sorted(es) && Candidate(es, s, pos, top, c)
    requires pos < |es| ==> Seen(es, s, pos) && es[pos].user < es[c].user
    ensures LastShown(es, s, top, c) && JustBefore(es, s, pos, c)
  {
    forall j | pos < |es| && 0 <= j < pos ensures es[j].user <= es[pos].user {
      assert Less(KeyOf(es[j]), KeyOf(es[pos]));
    }
  }

  lemma StepCandidate(es: seq<Entry>, s: nat, pos: nat, top: nat, c: nat)
    requires Sorted(es) && Candidate(es, s, pos, top, c) && pos < |es|
    ensures !Seen(es, s, pos) ==> Candidate(es, s, CursorPrev(es, pos), top, c)
    ensures Seen(es, s, pos) && es[pos].user >= es[c].user && es[pos].kind.Put? ==> Candidate(es, s, CursorPrev(es, pos), top, pos)
    ensures Seen(es, s, pos) && es[pos].user >= es[c].user && es[pos].kind.Deletion? ==> NoCandidate(es, s, CursorPrev(es, pos), top)
  {
    assert Less(KeyOf(es[pos]), KeyOf(es[c]));
    assert Floor(es, CursorPrev(es, pos)) == pos - 1;
    if Seen(es, s, pos) && es[pos].user >= es[c].user {
      assert !Shown(es, s, c);
    }
  }

  lemma StepNoCandidate(es: seq<Entry>, s: nat, pos: nat, top: nat)
    requires Sorted(es) && NoCandidate(es, s, pos, top) && pos < |es| && pos < top <= |es|
    ensures Seen(es, s, pos) && es[pos].kind.Put? ==> Candidate(es, s, CursorPrev(es, pos), top, pos)
    ensures !(Seen(es, s, pos) && es[pos].kind.Put?) ==> NoCandidate(es, s, CursorPrev(es, pos), top)
  {
    assert Floor(es, CursorPrev(es, pos)) == pos - 1;
  }

  /** The state of the backward scan: nothing pending after a tombstone, otherwise the
      saved key and value are those of the candidate. */
  ghost predicate Pending(es: seq<Entry>, s: nat, pos: nat, top: nat, valueType: Kind, c: nat, key: UserKey, value: Data) {
    && pos <= |es| && top <= |es| && (pos < |es| ==> pos < top)
    && (valueType.Deletion? ==> NoCandidate(es, s, pos, top))
    && (valueType.Put? ==> Candidate(es, s, pos, top, c) && key == es[c].user && value == es[c].value)
  }

  lemma PendingStart(es: seq<Entry>, s: nat, pos: nat, top: nat, key: UserKey, value: Data)
    requires NoCandidate(es, s, pos, top) && top <= |es| && (pos < |es| ==> pos < top)
    ensures Pending(es, s, pos, top, Deletion, 0, key, value)
  {
  }

  lemma PendingStep(es: seq<Entry>, s: nat, pos: nat, top: nat, valueType: Kind, c: nat, key: UserKey, value: Data)
    requires Sorted(es) && Pending(es, s, pos, top, valueType, c, key, value) && pos < |es|
    ensures es[pos].sn > s ==> Pending(es, s, CursorPrev(es, pos), top, valueType, c, key, value)
    ensures es[pos].sn <= s && !(valueType.Put? && es[pos].user < key) ==>
              if es[pos].kind.Put?
              then Pending(es, s, CursorPrev(es, pos), top, Put, pos, es[pos].user, es[pos].value)
              else Pending(es, s, CursorPrev(es, pos), top, Deletion, c, key, value)
  {
    if valueType.Put? {
      StepCandidate(es, s, pos, top, c);
    } else {
      StepNoCandidate(es, s, pos, top);
    }
  }

  lemma PendingEnd(es: seq<Entry>, s: nat, pos: nat, top: nat, valueType: Kind, c: nat, key: UserKey, value: Data)
    requires Sorted(es) && Pending(es, s, pos, top, valueType, c, key, value)
    requires pos == |es| || (es[pos].sn <= s && valueType.Put? && es[pos].user < key)
    ensures valueType.Deletion? ==> LastShown(es, s, top, |es|)
    ensures valueType.Put? ==> c < |es| && LastShown(es, s, top, c) && Shown(es, s, c) && JustBefore(es, s, pos, c)
                               && key == es[c].user && value == es[c].value
  {
    if valueType.Put? {
      CandidateIsShown(es, s, pos, top, c);
    }
  }
}
