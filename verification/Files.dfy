/** Sorted table files and their places in the seven levels of a version. */
module Files {
  import opened InternalKeys

  const NUM_LEVELS: nat := 7

  /** FileMetaData together with the entries of the table it describes. */
  datatype File = File(number: nat, size: nat, smallest: IKey, largest: IKey, entries: seq<Entry>)

  ghost predicate FileOk(f: File) {
    && f.entries != []
    && Sorted(f.entries)
    && f.smallest == KeyOf(f.entries[0])
    && f.largest == KeyOf(f.entries[|f.entries| - 1])
  }

  /** The user-key ranges of two files meet. */
  predicate UserOverlap(f: File, g: File) {
    f.smallest.user <= g.largest.user && g.smallest.user <= f.largest.user
  }

  predicate Covers(f: File, user: UserKey) {
    f.smallest.user <= user <= f.largest.user
  }

  lemma EntryInRange(f: File, e: Entry)
    requires FileOk(f) && e in f.entries
    ensures Covers(f, e.user)
    ensures KeyOf(e) == f.smallest || Less(f.smallest, KeyOf(e))
    ensures KeyOf(e) == f.largest || Less(KeyOf(e), f.largest)
  {
    var i :| 0 <= i < |f.entries| && f.entries[i] == e;
  }

  /** A file and the level it is in. */
  datatype Placed = Placed(level: nat, file: File)

  ghost function EntriesOf(ps: set<Placed>): set<Entry> {
    set p, e | p in ps && e in p.file.entries :: e
  }

  /** The order in which a lookup visits files: shallow levels first, and on
      level 0 the younger file first. */
  predicate ProbedBefore(a: Placed, b: Placed) {
    a.level < b.level || (a.level == 0 && b.level == 0 && a.file.number > b.file.number)
  }

  ghost predicate Newer(a: File, b: File) {
    forall x, y :: x in a.entries && y in b.entries && x.user == y.user ==> x.sn > y.sn
  }

  /** Two different files of one sorted level. */
  predicate Apart(a: File, b: File) {
    Less(a.largest, b.smallest) || Less(b.largest, a.smallest)
  }

  // ---------- the shape of a version, over the set of its placed files ----------

  ghost predicate WellFormed(ps: set<Placed>) {
    forall p :: p in ps ==> p.level < NUM_LEVELS && FileOk(p.file)
  }

  ghost predicate UniqueNumbers(ps: set<Placed>) {
    forall p, q :: p in ps && q in ps && p.file.number == q.file.number ==> p == q
  }

  ghost predicate DisjointLevels(ps: set<Placed>) {
    forall p, q :: p in ps && q in ps && p != q && p.level == q.level && p.level > 0 ==> Apart(p.file, q.file)
  }

  /** A file probed earlier holds only newer versions of a shared user key. */
  ghost predicate Recent(ps: set<Placed>) {
    forall p, q :: p in ps && q in ps && ProbedBefore(p, q) ==> Newer(p.file, q.file)
  }

  ghost predicate VersionOk(ps: set<Placed>) {
    WellFormed(ps) && UniqueNumbers(ps) && DisjointLevels(ps) && Recent(ps)
  }

  lemma RecentAfter(ps: set<Placed>, removed: set<Placed>, added: set<Placed>)
    requires Recent(ps)
    requires forall a, q :: a in added && q in ps - removed && ProbedBefore(a, q) ==> Newer(a.file, q.file)
    requires forall a, q :: a in added && q in ps - removed && ProbedBefore(q, a) ==> Newer(q.file, a.file)
    requires forall a, b :: a in added && b in added ==> !ProbedBefore(a, b)
    ensures Recent(ps - removed + added)
  {
  }

  lemma DisjointAfter(ps: set<Placed>, removed: set<Placed>, added: set<Placed>)
    requires DisjointLevels(ps) && DisjointLevels(added)
    requires forall a, q :: a in added && q in ps - removed && a.level == q.level && a.level > 0 ==> Apart(a.file, q.file)
    ensures DisjointLevels(ps - removed + added)
  {
  }

  /** Files whose user-key ranges do not meet share no user key ... */
  lemma NoOverlapNewer(a: File, b: File)
    requires FileOk(a) && FileOk(b) && !UserOverlap(a, b)
    ensures Newer(a, b) && Newer(b, a)
  {
    forall x, y | x in a.entries && y in b.entries && x.user == y.user ensures false {
      EntryInRange(a, x);
      EntryInRange(b, y);
    }
  }

  /** ... and are apart. */
  lemma NoOverlapApart(a: File, b: File)
    requires FileOk(a) && FileOk(b) && !UserOverlap(a, b)
    ensures Apart(a, b)
  {
    EntryInRange(a, a.entries[0]);
    EntryInRange(b, b.entries[0]);
  }
}
