/** One immutable version: seven lists of files, and the point lookup over them. */
module Version {
  import opened InternalKeys
  import opened Files

  type Levels = seq<seq<File>>

  ghost function Slots(levels: Levels): set<Placed> {
    set l, f | 0 <= l < |levels| && f in levels[l] :: Placed(l, f)
  }

  /** A sorted level: each file ends before the next begins. */
  ghost predicate Run(fs: seq<File>) {
    && (forall f :: f in fs ==> FileOk(f))
    && (forall i, j :: 0 <= i < j < |fs| ==> Less(fs[i].largest, fs[j].smallest))
  }

  ghost predicate Distinct(fs: seq<File>) {
    forall i, j :: 0 <= i < j < |fs| ==> fs[i].number != fs[j].number
  }

  ghost predicate LevelsOk(levels: Levels) {
    && |levels| == NUM_LEVELS
    && VersionOk(Slots(levels))
    && UniqueSequence(EntriesOf(Slots(levels)))
    && (forall l :: 0 < l < NUM_LEVELS ==> Run(levels[l]))
    && Distinct(levels[0])
  }

  ghost function LevelEntries(fs: seq<File>): set<Entry> {
    set f, e | f in fs && e in f.entries :: e
  }

  /** The entry a lookup hands back, against everything it had to search. */
  ghost predicate Finds(es: set<Entry>, user: UserKey, s: nat, r: Option<Entry>) {
    match r
    case Some(e) => IsNewest(es, user, s, e)
    case None => NoneUpTo(es, user, s)
  }

  /** A lookup in one sorted run, of a memtable (MemTable::Get) or of a table (TableCache::Get with
      SaveValue): the first entry at or after the lookup key, if it belongs to the user key. */
  function SeekGet(es: seq<Entry>, user: UserKey, s: nat): Option<Entry> {
    var i := SeekIndex(es, LookupKey(user, s));
    if i < |es| && es[i].user == user then Some(es[i]) else None
  }

  lemma SeekGetFinds(es: seq<Entry>, user: UserKey, s: nat)
    requires Sorted(es)
    ensures Finds(Entries(es), user, s, SeekGet(es, user, s))
  {
    SeekFindsNewest(es, user, s);
  }

  /** Binary search for the first file whose largest key is at or after key. */
  method FindFile(fs: seq<File>, key: IKey) returns (right: nat)
    requires Run(fs)
    ensures right <= |fs|
    ensures forall i :: 0 <= i < right ==> Less(fs[i].largest, key)
    ensures forall i :: right <= i < |fs| ==> !Less(fs[i].largest, key)
  {
    LargestAscend(fs);
    var left := 0;
    right := |fs|;
    while left < right
      invariant 0 <= left <= right <= |fs|
      invariant forall i :: 0 <= i < left ==> Less(fs[i].largest, key)
      invariant forall i :: right <= i < |fs| ==> !Less(fs[i].largest, key)
    {
      var mid := (left + right) / 2;
      if Less(fs[mid].largest, key) {
        left := mid + 1;
      } else {
        right := mid;
      }
    }
  }

  lemma LargestAscend(fs: seq<File>)
    requires Run(fs)
    ensures forall i, j :: 0 <= i < j < |fs| ==> Less(fs[i].largest, fs[j].largest) && Less(fs[i].smallest, fs[j].smallest)
  {
    forall i, j | 0 <= i < j < |fs| ensures Less(fs[i].largest, fs[j].largest) && Less(fs[i].smallest, fs[j].smallest) {
      assert FileOk(fs[i]) && FileOk(fs[j]);
      EntryInRange(fs[j], fs[j].entries[0]);
      EntryInRange(fs[i], fs[i].entries[0]);
    }
  }

  /** One sorted level needs one probe, although versions of a user key may
      straddle adjacent files. */
  method SearchRun(fs: seq<File>, user: UserKey, s: nat) returns (r: Option<Entry>)
    requires Run(fs) && UniqueSequence(LevelEntries(fs))
    ensures Finds(LevelEntries(fs), user, s, r)
  {
    var index := FindFile(fs, LookupKey(user, s));
    r := None;
    if index < |fs| && !(user < fs[index].smallest.user) {
      r := SeekGet(fs[index].entries, user, s);
    }
    RunProbeSuffices(fs, user, s, index);
  }

  lemma RunProbeSuffices(fs: seq<File>, user: UserKey, s: nat, index: nat)
    requires Run(fs) && UniqueSequence(LevelEntries(fs))
    requires index <= |fs|
    requires forall i :: 0 <= i < index ==> Less(fs[i].largest, LookupKey(user, s))
    requires index < |fs| ==> !Less(fs[index].largest, LookupKey(user, s))
    ensures Finds(LevelEntries(fs), user, s,
                  if index < |fs| && !(user < fs[index].smallest.user) then SeekGet(fs[index].entries, user, s) else None)
  {
    forall i, e | 0 <= i < index && e in fs[i].entries && e.user == user ensures e.sn > s {
      EntryInRange(fs[i], e);
    }
    if index < |fs| {
      var f := fs[index];
      assert FileOk(f);
      SeekGetFinds(f.entries, user, s);
      var r := SeekGet(f.entries, user, s);
      forall i, e | index < i < |fs| && e in fs[i].entries && e.user == user
        ensures user >= f.smallest.user && r.Some? && e.sn < r.value.sn
      {
        var last := f.entries[|f.entries| - 1];
        EntryInRange(fs[i], e);
        EntryInRange(f, last);
        assert last in Entries(f.entries) && KeyOf(last) == f.largest;
        assert Less(f.largest, fs[i].smallest);
        assert last.user == user && last.sn <= s;
        assert last in LevelEntries(fs) && e in LevelEntries(fs);
      }
      forall e | e in f.entries && e.user == user ensures user >= f.smallest.user {
        EntryInRange(f, e);
      }
    }
  }

  method InsertByNumber(tmp: seq<File>, f: File) returns (r: seq<File>)
    requires forall i, j :: 0 <= i < j < |tmp| ==> tmp[i].number > tmp[j].number
    requires forall g :: g in tmp ==> g.number != f.number
    ensures forall g :: g in r <==> g in tmp || g == f
    ensures forall i, j :: 0 <= i < j < |r| ==> r[i].number > r[j].number
  {
    var at := 0;
    while at < |tmp| && tmp[at].number > f.number
      invariant at <= |tmp|
      invariant forall i :: 0 <= i < at ==> tmp[i].number > f.number
    {
      at := at + 1;
    }
    assert at < |tmp| ==> tmp[at] in tmp;
    r := tmp[..at] + [f] + tmp[at..];
    assert tmp == tmp[..at] + tmp[at..];
    assert f == r[at];
    forall g | g in tmp ensures g in r {
      assert g in tmp[..at] || g in tmp[at..];
    }
  }

  /** NewestFirst: the overlapping level-0 files by descending number. */
  method SortNewestFirst(fs: seq<File>) returns (tmp: seq<File>)
    requires Distinct(fs)
    ensures forall f :: f in tmp <==> f in fs
    ensures forall i, j :: 0 <= i < j < |tmp| ==> tmp[i].number > tmp[j].number
  {
    tmp := [];
    for k := 0 to |fs|
      invariant forall f :: f in tmp <==> f in fs[..k]
      invariant forall i, j :: 0 <= i < j < |tmp| ==> tmp[i].number > tmp[j].number
    {
      assert fs[..k + 1] == fs[..k] + [fs[k]];
      tmp := InsertByNumber(tmp, fs[k]);
    }
    assert fs[..|fs|] == fs;
  }

  method SearchLevel0(fs: seq<File>, user: UserKey, s: nat) returns (r: Option<Entry>)
    requires Distinct(fs) && forall f :: f in fs ==> FileOk(f)
    requires forall f, g :: f in fs && g in fs && f.number > g.number ==> Newer(f, g)
    ensures Finds(LevelEntries(fs), user, s, r)
  {
    var tmp: seq<File> := [];
    for i := 0 to |fs|
      invariant forall f :: f in tmp <==> f in fs[..i] && Covers(f, user)
      invariant Distinct(tmp)
    {
      if Covers(fs[i], user) {
        forall f | f in tmp ensures f.number != fs[i].number {
          var j :| 0 <= j < i && fs[j] == f;
        }
        tmp := tmp + [fs[i]];
      }
    }
    assert fs[..|fs|] == fs;
    tmp := SortNewestFirst(tmp);
    forall f, e | f in fs && e in f.entries && e.user == user ensures f in tmp {
      EntryInRange(f, e);
    }
    for i := 0 to |tmp|
      invariant forall j :: 0 <= j < i ==> NoneUpTo(Entries(tmp[j].entries), user, s)
    {
      r := SeekGet(tmp[i].entries, user, s);
      SeekGetFinds(tmp[i].entries, user, s);
      if r.Some? {
        FirstHitIsNewest(fs, tmp, i, user, s, r.value);
        return;
      }
    }
    r := None;
    forall e | e in LevelEntries(fs) && e.user == user ensures e.sn > s {
      var f :| f in fs && e in f.entries;
      var j :| 0 <= j < |tmp| && tmp[j] == f;
      assert e in Entries(f.entries);
    }
  }

  lemma FirstHitIsNewest(fs: seq<File>, tmp: seq<File>, i: nat, user: UserKey, s: nat, e: Entry)
    requires i < |tmp| && IsNewest(Entries(tmp[i].entries), user, s, e)
    requires forall f :: f in tmp ==> f in fs
    requires forall f, o :: f in fs && o in f.entries && o.user == user ==> f in tmp
    requires forall j :: 0 <= j < i ==> NoneUpTo(Entries(tmp[j].entries), user, s)
    requires forall j, k :: 0 <= j < k < |tmp| ==> tmp[j].number > tmp[k].number
    requires forall f, g :: f in fs && g in fs && f.number > g.number ==> Newer(f, g)
    ensures IsNewest(LevelEntries(fs), user, s, e)
  {
    assert tmp[i] in fs && e in tmp[i].entries;
    forall o | o in LevelEntries(fs) && o.user == user && o.sn <= s ensures o.sn <= e.sn {
      var f :| f in fs && o in f.entries;
      var j :| 0 <= j < |tmp| && tmp[j] == f;
      assert o in Entries(f.entries);
      assert j >= i;
      if j > i {
        assert Newer(tmp[i], tmp[j]);
      }
    }
  }

  lemma LevelIsSubset(levels: Levels, l: nat)
    requires l < |levels|
    ensures LevelEntries(levels[l]) <= EntriesOf(Slots(levels))
  {
    forall e | e in LevelEntries(levels[l]) ensures e in EntriesOf(Slots(levels)) {
      var f :| f in levels[l] && e in f.entries;
      assert Placed(l, f) in Slots(levels);
    }
  }

  lemma DeeperIsOlder(levels: Levels, a: nat, b: nat)
    requires Recent(Slots(levels)) && a < b < |levels|
    ensures forall x, y :: x in LevelEntries(levels[a]) && y in LevelEntries(levels[b]) && x.user == y.user ==> x.sn > y.sn
  {
    forall x, y | x in LevelEntries(levels[a]) && y in LevelEntries(levels[b]) && x.user == y.user ensures x.sn > y.sn {
      var f :| f in levels[a] && x in f.entries;
      var g :| g in levels[b] && y in g.entries;
      assert Placed(a, f) in Slots(levels) && Placed(b, g) in Slots(levels);
      assert Newer(Placed(a, f).file, Placed(b, g).file);
    }
  }

  lemma HitIsNewest(levels: Levels, l: nat, user: UserKey, s: nat, e: Entry)
    requires Recent(Slots(levels)) && l < |levels|
    requires forall k :: 0 <= k < l ==> NoneUpTo(LevelEntries(levels[k]), user, s)
    requires IsNewest(LevelEntries(levels[l]), user, s, e)
    ensures IsNewest(EntriesOf(Slots(levels)), user, s, e)
  {
    LevelIsSubset(levels, l);
    forall o | o in EntriesOf(Slots(levels)) && o.user == user && o.sn <= s ensures o.sn <= e.sn {
      var k := LevelOfEntry(levels, o);
      if k > l {
        DeeperIsOlder(levels, l, k);
      }
    }
  }

  lemma LevelOfEntry(levels: Levels, e: Entry) returns (l: nat)
    requires e in EntriesOf(Slots(levels))
    ensures l < |levels| && e in LevelEntries(levels[l])
  {
    var p :| p in Slots(levels) && e in p.file.entries;
    l := p.level;
  }

  lemma FilesAreOk(levels: Levels)
    requires WellFormed(Slots(levels))
    ensures forall l, f :: 0 <= l < |levels| && f in levels[l] ==> FileOk(f)
  {
    forall l, f | 0 <= l < |levels| && f in levels[l] ensures FileOk(f) {
      assert Placed(l, f) in Slots(levels);
    }
  }

  lemma Level0Recent(levels: Levels)
    requires Recent(Slots(levels)) && |levels| > 0
    ensures forall f, g :: f in levels[0] && g in levels[0] && f.number > g.number ==> Newer(f, g)
  {
    forall f, g | f in levels[0] && g in levels[0] && f.number > g.number ensures Newer(f, g) {
      assert Placed(0, f) in Slots(levels) && Placed(0, g) in Slots(levels);
      assert ProbedBefore(Placed(0, f), Placed(0, g));
      assert Newer(Placed(0, f).file, Placed(0, g).file);
    }
  }

  /** Version::Get through ForEachOverlapping: overlapping level-0 files newest first,
      then one binary-searched file per level, stopping at the first hit. The hit is
      what a scan of every entry of every file would have chosen. */
  method Get(levels: Levels, user: UserKey, s: nat) returns (r: Option<Entry>)
    requires LevelsOk(levels)
    ensures Finds(EntriesOf(Slots(levels)), user, s, r)
  {
    FilesAreOk(levels);
    Level0Recent(levels);
    r := SearchLevel0(levels[0], user, s);
    if r.Some? {
      HitIsNewest(levels, 0, user, s, r.value);
      return;
    }
    for l := 1 to NUM_LEVELS
      invariant forall k :: 0 <= k < l ==> NoneUpTo(LevelEntries(levels[k]), user, s)
    {
      LevelIsSubset(levels, l);
      r := SearchRun(levels[l], user, s);
      if r.Some? {
        HitIsNewest(levels, l, user, s, r.value);
        return;
      }
    }
    r := None;
    forall e | e in EntriesOf(Slots(levels)) && e.user == user ensures e.sn > s {
      var l := LevelOfEntry(levels, e);
    }
  }
}
