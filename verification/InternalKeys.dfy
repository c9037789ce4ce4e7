/** Internal keys, the order the whole store is sorted by, and the plain
    history of writes that every read is measured against. */
module InternalKeys {

  datatype Option<+T> = None | Some(value: T)

  /** A user key is represented by its rank under the user comparator.
      RankEmbedsComparator shows that this loses nothing: whatever total preorder
      the comparator is, the keys of a run have such ranks. */
  type UserKey = int

  type Byte = x: int | 0 <= x < 256

  type Data = seq<Byte>

  /** kTypeDeletion == 0, kTypeValue == 1 */
  datatype Kind = Deletion | Put

  const MAX_SEQUENCE: nat := 0xFF_FFFF_FFFF_FFFF

  /** The number of keys of s that the comparator places before x. */
  ghost function Rank<K(!new)>(less: (K, K) -> bool, s: set<K>, x: K): nat {
    |set y | y in s && less(y, x)|
  }

  ghost predicate StrictWeakOrder<K(!new)>(less: (K, K) -> bool) {
    && (forall x :: !less(x, x))
    && (forall x, y, z :: less(x, y) && less(y, z) ==> less(x, z))
    && (forall x, y, z :: less(x, z) ==> less(x, y) || less(y, z))
  }

  lemma StrictSubsetIsSmaller<T>(a: set<T>, b: set<T>)
    requires a < b
    ensures |a| < |b|
  {
    var x :| x in b && x !in a;
    assert a <= b - {x};
    SubsetIsNoLarger(a, b - {x});
  }

  lemma SubsetIsNoLarger<T>(a: set<T>, b: set<T>)
    requires a <= b
    ensures |a| <= |b|
  {
    assert b == a + (b - a);
  }

  lemma RankEmbedsComparator<K(!new)>(less: (K, K) -> bool, s: set<K>, x: K, y: K)
    requires StrictWeakOrder(less)
    requires x in s && y in s
    ensures less(x, y) <==> Rank(less, s, x) < Rank(less, s, y)
  {
    var below := (k: K) => set z | z in s && less(z, k);
    if less(x, y) {
      assert x in below(y) && x !in below(x);
      assert below(x) < below(y);
      StrictSubsetIsSmaller(below(x), below(y));
    } else {
      assert below(y) <= below(x);
      SubsetIsNoLarger(below(y), below(x));
    }
  }

  /** How the user keys, known by their ranks, are spelled. */
  datatype Spelling = Spelling(bytesOf: UserKey -> Data, rankOf: Data -> UserKey)

  ghost predicate SpellingOk(S: Spelling) {
    forall u: UserKey :: Ranked(S, Spelled(S, u)) == u
  }

  function Spelled(S: Spelling, user: UserKey): Data {
    S.bytesOf(user)
  }

  function Ranked(S: Spelling, d: Data): UserKey {
    S.rankOf(d)
  }

  /** An internal key: a user key and the packed (sequence << 8 | type) tag. */
  datatype IKey = IKey(user: UserKey, tag: nat)

  datatype Entry = Entry(user: UserKey, sn: nat, kind: Kind, value: Data)

  function Pack(sn: nat, kind: Kind): nat {
    sn * 256 + if kind.Put? then 1 else 0
  }

  function KeyOf(e: Entry): IKey {
    IKey(e.user, Pack(e.sn, e.kind))
  }

  /** InternalKeyComparator: user keys ascending, tags descending. */
  predicate Less(a: IKey, b: IKey) {
    a.user < b.user || (a.user == b.user && a.tag > b.tag)
  }

  /** The key a lookup at snapshot s seeks to: the first position at which an
      entry of the user key with sequence <= s can stand. */
  function LookupKey(user: UserKey, s: nat): IKey {
    IKey(user, Pack(s, Put))
  }

  ghost predicate Sorted(es: seq<Entry>) {
    forall i, j :: 0 <= i < j < |es| ==> Less(KeyOf(es[i]), KeyOf(es[j]))
  }

  /** Index of the first entry at or after key; |es| when there is none. */
  function SeekIndex(es: seq<Entry>, key: IKey): (i: nat)
    ensures i <= |es|
    ensures forall j :: 0 <= j < i ==> Less(KeyOf(es[j]), key)
    ensures i < |es| ==> !Less(KeyOf(es[i]), key)
  {
    if es == [] || !Less(KeyOf(es[0]), key) then 0
    else 1 + SeekIndex(es[1..], key)
  }

  ghost function Entries(es: seq<Entry>): set<Entry> {
    set e | e in es
  }

  /** Sequence numbers are handed out once. */
  ghost predicate UniqueSequence(es: set<Entry>) {
    forall a, b :: a in es && b in es && a.sn == b.sn ==> a == b
  }

  ghost predicate IsNewest(es: set<Entry>, user: UserKey, s: nat, e: Entry) {
    && e in es && e.user == user && e.sn <= s
    && forall o :: o in es && o.user == user && o.sn <= s ==> o.sn <= e.sn
  }

  ghost predicate NoneUpTo(es: set<Entry>, user: UserKey, s: nat) {
    forall e :: e in es && e.user == user ==> e.sn > s
  }

  /** What a read of user at snapshot s has to answer when es is what is stored:
      a full scan for the newest entry not newer than s. */
  ghost function Answer(es: set<Entry>, user: UserKey, s: nat): Option<Data> {
    if exists e :: IsNewest(es, user, s, e) && e.kind.Put?
    then var e :| IsNewest(es, user, s, e) && e.kind.Put?; Some(e.value)
    else None
  }

  lemma AnswerOfNewest(es: set<Entry>, user: UserKey, s: nat, e: Entry)
    requires UniqueSequence(es) && IsNewest(es, user, s, e)
    ensures Answer(es, user, s) == if e.kind.Put? then Some(e.value) else None
  {
    forall o | IsNewest(es, user, s, o) ensures o == e {}
  }

  lemma AnswerOfNone(es: set<Entry>, user: UserKey, s: nat)
    requires NoneUpTo(es, user, s)
    ensures Answer(es, user, s) == None
  {
  }

  /** Every finite set either has a newest entry for (user, s) or none at all. */
  lemma {:induction false} NewestOrNone(es: set<Entry>, user: UserKey, s: nat)
    ensures NoneUpTo(es, user, s) || exists e :: IsNewest(es, user, s, e)
  {
    if x :| x in es && x.user == user && x.sn <= s {
      NewestOrNone(es - {x}, user, s);
      if NoneUpTo(es - {x}, user, s) {
        assert IsNewest(es, user, s, x);
      } else {
        var e :| IsNewest(es - {x}, user, s, e);
        assert IsNewest(es, user, s, if e.sn >= x.sn then e else x);
      }
    }
  }

  /** In a sorted run, the seek position decides the question at once. */
  lemma SeekFindsNewest(es: seq<Entry>, user: UserKey, s: nat)
    requires Sorted(es)
    ensures var i := SeekIndex(es, LookupKey(user, s));
            if i < |es| && es[i].user == user
            then IsNewest(Entries(es), user, s, es[i])
            else NoneUpTo(Entries(es), user, s)
  {
    var i := SeekIndex(es, LookupKey(user, s));
    forall e | e in Entries(es) && e.user == user && e.sn <= s
      ensures i < |es| && es[i].user == user && e.sn <= es[i].sn
    {
      var j :| 0 <= j < |es| && es[j] == e;
      assert j >= i;
    }
  }

  // ---------- the plain history ----------

  /** The map a reader would have after the writes of h, applied one by one. */
  function Replay(h: seq<Entry>): map<UserKey, Data> {
    if h == [] then map[]
    else
      var m, e := Replay(h[..|h| - 1]), h[|h| - 1];
      if e.kind.Put? then m[e.user := e.value] else m - {e.user}
  }

  function Lookup(m: map<UserKey, Data>, user: UserKey): Option<Data> {
    if user in m then Some(m[user]) else None
  }

  /** One operation of a write batch. */
  datatype Op = Op(user: UserKey, kind: Kind, value: Data)

  /** The entries of a batch, numbered from first. */
  function NumberOps(ops: seq<Op>, first: nat): (es: seq<Entry>)
    ensures |es| == |ops|
    ensures forall i :: 0 <= i < |ops| ==> es[i] == Entry(ops[i].user, first + i, ops[i].kind, ops[i].value)
  {
    seq(|ops|, i requires 0 <= i < |ops| => Entry(ops[i].user, first + i, ops[i].kind, ops[i].value))
  }

  /** The i-th write of a history carries sequence number i + 1. */
  ghost predicate Numbered(h: seq<Entry>) {
    forall i :: 0 <= i < |h| ==> h[i].sn == i + 1
  }

  /** Scanning a history for the newest write up to s is replaying its first s writes. */
  lemma {:induction false} AnswerIsReplay(h: seq<Entry>, user: UserKey, s: nat)
    requires Numbered(h) && s <= |h|
    ensures Answer(Entries(h), user, s) == Lookup(Replay(h[..s]), user)
  {
    hide Answer;
    if s == 0 {
      AnswerOfNone(Entries(h), user, 0);
    } else {
      var e := h[s - 1];
      assert h[..s][..s - 1] == h[..s - 1];
      if e.user == user {
        assert e in h;
        AnswerOfNewest(Entries(h), user, s, e);
      } else {
        AnswerIsReplay(h, user, s - 1);
        OtherKeyChangesNothing(h, user, s);
      }
    }
  }

  lemma OtherKeyChangesNothing(h: seq<Entry>, user: UserKey, s: nat)
    requires Numbered(h) && 0 < s <= |h| && h[s - 1].user != user
    ensures Answer(Entries(h), user, s) == Answer(Entries(h), user, s - 1)
  {
    forall x | x in Entries(h) && x.user == user && x.sn <= s ensures x.sn <= s - 1 {
      assert x == h[x.sn - 1];
    }
    forall o ensures IsNewest(Entries(h), user, s, o) <==> IsNewest(Entries(h), user, s - 1, o) {}
    SameNewestSameAnswer(Entries(h), Entries(h), user, s, s - 1);
  }

  lemma SameNewestSameAnswer(a: set<Entry>, b: set<Entry>, user: UserKey, s: nat, t: nat)
    requires UniqueSequence(a) && UniqueSequence(b)
    requires forall e :: IsNewest(a, user, s, e) <==> IsNewest(b, user, t, e)
    ensures Answer(a, user, s) == Answer(b, user, t)
  {
    if e :| IsNewest(a, user, s, e) {
      AnswerOfNewest(a, user, s, e);
      AnswerOfNewest(b, user, t, e);
    }
  }
}
