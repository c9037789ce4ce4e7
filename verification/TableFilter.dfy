/** util/bloom.cc and table/filter_block.cc: filters that may say yes too often, but
    never no for a key that was added. */
module TableFilter {
  import opened InternalKeys

  const WORD: nat := 0x1_0000_0000

  /** A hash of user keys: that of their bytes, as equal keys are taken to hash alike. */
  type Hash = UserKey -> nat

  /** The rotation by 17 bits that gives the probe distance. */
  function Delta(h: nat): nat {
    (h / 0x2_0000 + h * 0x8000) % WORD
  }

  /** The j-th probe of the double hashing, with 32-bit wrap-around. */
  function Probe(h: nat, j: nat): nat {
    if j == 0 then h % WORD else (Probe(h, j - 1) + Delta(h)) % WORD
  }

  /** A Bloom filter: its bits, a multiple of eight, and the number of probes. */
  datatype Bloom = Bloom(bits: seq<bool>, k: nat)

  ghost predicate Covers(f: Bloom, hash: Hash, key: UserKey) {
    |f.bits| > 0 && f.k <= 30 && forall j :: 0 <= j < f.k ==> f.bits[Probe(hash(key), j) % |f.bits|]
  }

  // ---------- when a filter may go by the rank of a key ----------

  /** BloomHash: a 32-bit hash of the bytes. */
  type ByteHash = Data -> nat

  function HashBytes(h: ByteHash, d: Data): nat {
    h(d) % WORD
  }

  /** The hash of a rank is that of its spelling. */
  function OfSpelling(S: Spelling, h: ByteHash): Hash {
    u => HashBytes(h, Spelled(S, u))
  }

  ghost predicate CoversBytes(f: Bloom, h: ByteHash, d: Data) {
    |f.bits| > 0 && f.k <= 30 && forall j :: 0 <= j < f.k ==> f.bits[Probe(HashBytes(h, d), j) % |f.bits|]
  }

  /** Byte strings that the comparator calls equal hash alike. */
  ghost predicate EqualKeysHashAlike(S: Spelling, h: ByteHash) {
    forall a: Data, b: Data :: Ranked(S, a) == Ranked(S, b) ==> HashBytes(h, a) == HashBytes(h, b)
  }

  /** No filter that has a key denies one that the comparator calls equal. */
  ghost predicate NeverDeniesEqual(S: Spelling, h: ByteHash) {
    forall f: Bloom, a: Data, b: Data :: Ranked(S, a) == Ranked(S, b) && CoversBytes(f, h, a) ==> CoversBytes(f, h, b)
  }

  /** A comparator that is a total order on byte strings gives each rank one spelling. */
  ghost predicate TotalOrder(S: Spelling) {
    forall d: Data :: Spelled(S, Ranked(S, d)) == d
  }

  lemma OneBit(h: ByteHash, a: Data, b: Data)
    requires HashBytes(h, a) != HashBytes(h, b)
    ensures exists f :: CoversBytes(f, h, a) && !CoversBytes(f, h, b)
  {
    var f := Bloom(seq(WORD, i => i == HashBytes(h, a)), 1);
    assert Probe(HashBytes(h, a), 0) == HashBytes(h, a) && Probe(HashBytes(h, b), 0) == HashBytes(h, b);
    assert f.bits[Probe(HashBytes(h, a), 0) % |f.bits|] && !f.bits[Probe(HashBytes(h, b), 0) % |f.bits|];
    assert CoversBytes(f, h, a);
  }

  /** A filter never denies a key that is there if and only if equal keys hash alike. */
  lemma NoFalseNegativeIff(S: Spelling, h: ByteHash)
    ensures NeverDeniesEqual(S, h) <==> EqualKeysHashAlike(S, h)
  {
    if NeverDeniesEqual(S, h) {
      forall a: Data, b: Data | Ranked(S, a) == Ranked(S, b) ensures HashBytes(h, a) == HashBytes(h, b) {
        if HashBytes(h, a) != HashBytes(h, b) {
          OneBit(h, a, b);
        }
      }
    }
  }

  /** Under a total order they do; and whenever they do, the hash of the rank is the hash of the bytes. */
  lemma RankHashIsByteHash(S: Spelling, h: ByteHash, f: Bloom, d: Data)
    requires SpellingOk(S) && EqualKeysHashAlike(S, h)
    ensures Covers(f, OfSpelling(S, h), Ranked(S, d)) <==> CoversBytes(f, h, d)
  {
    var u := Ranked(S, d);
    assert Ranked(S, Spelled(S, u)) == u;
    assert HashBytes(h, Spelled(S, u)) == HashBytes(h, d);
    assert OfSpelling(S, h)(u) == HashBytes(h, d);
  }

  lemma TotalOrderHashesAlike(S: Spelling, h: ByteHash)
    requires TotalOrder(S)
    ensures EqualKeysHashAlike(S, h)
  {
    forall a: Data, b: Data | Ranked(S, a) == Ranked(S, b) ensures a == b {
      assert Spelled(S, Ranked(S, a)) == a && Spelled(S, Ranked(S, b)) == b;
    }
  }

  /** Bit n of the filter is a probe of one of the keys. */
  ghost predicate HitBy(size: nat, k: nat, hash: Hash, keys: set<UserKey>, n: nat)
    requires size > 0
  {
    exists key, j: nat {:trigger Probe(hash(key), j)} :: key in keys && j < k && n == Probe(hash(key), j) % size
  }

  ghost function KeySet(keys: seq<UserKey>): set<UserKey> {
    set key | key in keys
  }

  /** No bit is set but for the keys; without keys there are no bits at all. */
  ghost predicate OnlyFrom(f: Bloom, hash: Hash, keys: set<UserKey>) {
    && f.k <= 30 && (|f.bits| == 0 ==> keys == {})
    && forall n: nat :: n < |f.bits| && f.bits[n] ==> HitBy(|f.bits|, f.k, hash, keys, n)
  }

  /** after is before with the probes of the key set, and no other bits. */
  ghost predicate ProbesSet(before: seq<bool>, after: seq<bool>, hash: Hash, key: UserKey, k: nat) {
    && |before| == |after| > 0
    && (forall n :: 0 <= n < |before| && before[n] ==> after[n])
    && (forall j :: 0 <= j < k ==> after[Probe(hash(key), j) % |after|])
    && (forall n: nat :: n < |after| && after[n] ==> before[n] || HitBy(|after|, k, hash, {key}, n))
  }

  /** Sets the bits of one key and no others. */
  method SetProbes(bits: array<bool>, hash: Hash, key: UserKey, k: nat)
    requires bits.Length > 0
    modifies bits
    ensures ProbesSet(old(bits[..]), bits[..], hash, key, k)
  {
    var h := hash(key) % WORD;
    var delta := Delta(hash(key));
    for j := 0 to k
      invariant h == Probe(hash(key), j)
      invariant forall n :: 0 <= n < bits.Length && old(bits[n]) ==> bits[n]
      invariant forall i :: 0 <= i < j ==> bits[Probe(hash(key), i) % bits.Length]
      invariant forall n: nat :: n < bits.Length && bits[n] ==> old(bits[n]) || HitBy(bits.Length, k, hash, {key}, n)
    {
      bits[h % bits.Length] := true;
      h := (h + delta) % WORD;
    }
  }

  /** The filter has all the keys and nothing else. */
  ghost predicate MadeFor(f: Bloom, hash: Hash, keys: seq<UserKey>) {
    |f.bits| > 0 && OnlyFrom(f, hash, KeySet(keys)) && forall key :: key in keys ==> Covers(f, hash, key)
  }

  lemma MoreKeysHit(size: nat, k: nat, hash: Hash, some: set<UserKey>, keys: set<UserKey>, n: nat)
    requires size > 0 && some <= keys && HitBy(size, k, hash, some, n)
    ensures HitBy(size, k, hash, keys, n)
  {
  }

  lemma MoreBitsStillCover(a: seq<bool>, b: seq<bool>, k: nat, hash: Hash, key: UserKey)
    requires |a| == |b| && forall n :: 0 <= n < |a| && a[n] ==> b[n]
    requires Covers(Bloom(a, k), hash, key)
    ensures Covers(Bloom(b, k), hash, key)
  {
  }

  lemma OneKeyMore(before: seq<bool>, after: seq<bool>, hash: Hash, keys: seq<UserKey>, key: UserKey, k: nat)
    requires MadeFor(Bloom(before, k), hash, keys) && ProbesSet(before, after, hash, key, k)
    ensures MadeFor(Bloom(after, k), hash, keys + [key])
  {
    forall x | x in keys + [key] ensures Covers(Bloom(after, k), hash, x) {
      if x in keys {
        MoreBitsStillCover(before, after, k, hash, x);
      }
    }
    hide Covers;
    forall n: nat | n < |after| && after[n] ensures HitBy(|after|, k, hash, KeySet(keys + [key]), n) {
      MoreKeysHit(|after|, k, hash, if before[n] then KeySet(keys) else {key}, KeySet(keys + [key]), n);
    }
  }

  lemma NothingYet(size: nat, hash: Hash, k: nat)
    requires size > 0 && k <= 30
    ensures MadeFor(Bloom(seq(size, _ => false), k), hash, [])
  {
  }

  /** In whole bytes, and no fewer than 64. */
  function FilterBits(n: nat): (size: nat)
    ensures size % 8 == 0 && size >= 64 && (size == 64 || n <= size < n + 8)
  {
    if n < 64 then 64 else (n + 7) / 8 * 8
  }

  /** BloomFilterPolicy::CreateFilter for the given keys. */
  method CreateFilter(hash: Hash, keys: seq<UserKey>, bitsPerKey: nat, k: nat) returns (f: Bloom)
    requires k <= 30
    ensures forall key :: key in keys ==> Covers(f, hash, key)
    ensures OnlyFrom(f, hash, KeySet(keys))
    ensures f.k == k && |f.bits| % 8 == 0 && |f.bits| >= 64
    ensures |f.bits| == 64 || |keys| * bitsPerKey <= |f.bits| < |keys| * bitsPerKey + 8
  {
    var size := FilterBits(|keys| * bitsPerKey);
    var bits := new bool[size](_ => false);
    NothingYet(size, hash, k);
    assert bits[..] == seq(size, _ => false);
    hide ProbesSet, MadeFor;
    for i := 0 to |keys|
      invariant MadeFor(Bloom(bits[..], k), hash, keys[..i])
    {
      ghost var before := bits[..];
      SetProbes(bits, hash, keys[i], k);
      OneKeyMore(before, bits[..], hash, keys[..i], keys[i], k);
      assert keys[..i + 1] == keys[..i] + [keys[i]];
    }
    f := Bloom(bits[..], k);
    assert keys[..|keys|] == keys;
    Made(f, hash, keys);
  }

  lemma Made(f: Bloom, hash: Hash, keys: seq<UserKey>)
    requires MadeFor(f, hash, keys)
    ensures OnlyFrom(f, hash, KeySet(keys)) && forall key :: key in keys ==> Covers(f, hash, key)
  {
  }

  /** BloomFilterPolicy::KeyMayMatch */
  method BloomMayMatch(hash: Hash, key: UserKey, f: Bloom) returns (r: bool)
    ensures f.k > 30 ==> r == (|f.bits| > 0)
    ensures f.k <= 30 ==> (r <==> Covers(f, hash, key))
  {
    if |f.bits| == 0 {
      return false;
    }
    if f.k > 30 {
      return true;
    }
    var h := hash(key) % WORD;
    var delta := Delta(hash(key));
    for j := 0 to f.k
      invariant h == Probe(hash(key), j)
      invariant forall n :: 0 <= n < j ==> f.bits[Probe(hash(key), n) % |f.bits|]
    {
      if !f.bits[h % |f.bits|] {
        assert !Covers(f, hash, key);
        return false;
      }
      h := (h + delta) % WORD;
    }
    return true;
  }

  // ---------- one filter for every 2KB of file offset ----------

  const FILTER_BASE: nat := 2048

  const NO_KEYS := Bloom([], 0)

  class FilterBlockBuilder {
    const hash: Hash
    const bitsPerKey: nat
    const k: nat
    /** Keys added since the last filter was generated. */
    var keys: seq<UserKey>
    var filters: seq<Bloom>
    /** Every key added so far, with the offset of the block it belongs to. */
    ghost var added: set<(nat, UserKey)>
    /** The offset last announced by StartBlock. */
    ghost var current: nat

    ghost predicate Valid()
      reads this
    {
      && 1 <= k <= 30
      && |filters| <= current / FILTER_BASE
      && (keys != [] ==> |filters| == current / FILTER_BASE)
      && (forall p :: p in added ==> p.0 <= current)
      && (forall p :: p in added && p.0 / FILTER_BASE >= |filters| ==> p.1 in keys)
      && (forall p :: p in added && p.0 / FILTER_BASE < |filters| ==> Covers(filters[p.0 / FILTER_BASE], hash, p.1))
      && (forall key :: key in keys ==> key in KeysAt(added, |filters|))
      && (forall i: nat :: i < |filters| ==> OnlyFrom(filters[i], hash, KeysAt(added, i)))
    }

    constructor (hash: Hash, bitsPerKey: nat, k: nat)
      requires 1 <= k <= 30
      ensures Valid() && added == {} && current == 0
      ensures this.hash == hash
    {
      this.hash, this.bitsPerKey, this.k := hash, bitsPerKey, k;
      keys, filters, added, current := [], [], {}, 0;
    }

    method GenerateFilter()
      requires 1 <= k <= 30
      requires forall p :: p in added && p.0 / FILTER_BASE >= |filters| ==> p.1 in keys
      requires forall p :: p in added && p.0 / FILTER_BASE < |filters| ==> Covers(filters[p.0 / FILTER_BASE], hash, p.1)
      requires KeySet(keys) == KeysAt(added, |filters|)
      requires forall i: nat :: i < |filters| ==> OnlyFrom(filters[i], hash, KeysAt(added, i))
      modifies this`keys, this`filters
      ensures forall i: nat :: i < |filters| ==> OnlyFrom(filters[i], hash, KeysAt(added, i))
      ensures |filters| == old(|filters|) + 1 && keys == []
      ensures forall p :: p in added && p.0 / FILTER_BASE < |filters| ==> Covers(filters[p.0 / FILTER_BASE], hash, p.1)
    {
      if keys == [] {
        filters := filters + [NO_KEYS];
        return;
      }
      var f := CreateFilter(hash, keys, bitsPerKey, k);
      filters := filters + [f];
      keys := [];
    }

    /** The keys waiting are those added under the range the next filter is for. */
    lemma KeysAreHere()
      requires forall p :: p in added && p.0 / FILTER_BASE >= |filters| ==> p.1 in keys
      requires forall key :: key in keys ==> key in KeysAt(added, |filters|)
      ensures KeySet(keys) == KeysAt(added, |filters|)
    {
      forall key ensures key in KeySet(keys) <==> key in KeysAt(added, |filters|) {
        if key in KeysAt(added, |filters|) {
          var p :| p in added && p.0 / FILTER_BASE == |filters| && p.1 == key;
          assert p.1 in keys;
        }
      }
    }

    /** A data block is about to begin at offset. */
    method StartBlock(offset: nat)
      requires Valid() && current <= offset
      modifies this
      ensures Valid() && added == old(added) && current == offset && |filters| == offset / FILTER_BASE
    {
      while |filters| < offset / FILTER_BASE
        invariant |filters| <= offset / FILTER_BASE
        invariant added == old(added) && (forall p :: p in added ==> p.0 <= old(current))
        invariant |filters| == old(|filters|) ==> keys == old(keys)
        invariant |filters| > old(|filters|) ==> keys == [] && (forall p :: p in added ==> p.0 / FILTER_BASE < |filters|)
        invariant forall p :: p in added && p.0 / FILTER_BASE >= |filters| ==> p.1 in keys
        invariant forall p :: p in added && p.0 / FILTER_BASE < |filters| ==> Covers(filters[p.0 / FILTER_BASE], hash, p.1)
        invariant forall key :: key in keys ==> key in KeysAt(added, |filters|)
        invariant forall i: nat :: i < |filters| ==> OnlyFrom(filters[i], hash, KeysAt(added, i))
      {
        KeysAreHere();
        GenerateFilter();
      }
      current := offset;
    }

    method AddKey(key: UserKey)
      requires Valid() && |filters| == current / FILTER_BASE
      modifies this
      ensures Valid() && added == old(added) + {(current, key)} && current == old(current) && filters == old(filters)
    {
      ghost var before := added;
      keys := keys + [key];
      added := added + {(current, key)};
      forall i: nat ensures KeysAt(added, i) == if i == current / FILTER_BASE then KeysAt(before, i) + {key} else KeysAt(before, i) {
        OneMoreKey(before, current, key, i);
      }
    }

    /** All filters, complete for every key added. */
    method Finish() returns (all: seq<Bloom>)
      requires Valid()
      modifies this
      ensures FiltersCover(all, hash, old(added)) && FiltersOnly(all, hash, old(added))
    {
      if keys != [] {
        KeysAreHere();
        GenerateFilter();
      }
      all := filters;
    }
  }

  /** The keys added under offsets of range i. */
  ghost function KeysAt(added: set<(nat, UserKey)>, i: nat): set<UserKey> {
    set p | p in added && p.0 / FILTER_BASE == i :: p.1
  }

  lemma OneMoreKey(added: set<(nat, UserKey)>, offset: nat, key: UserKey, i: nat)
    ensures KeysAt(added + {(offset, key)}, i)
         == if i == offset / FILTER_BASE then KeysAt(added, i) + {key} else KeysAt(added, i)
  {
  }

  /** No filter has a bit but for the keys of its range. */
  ghost predicate FiltersOnly(filters: seq<Bloom>, hash: Hash, added: set<(nat, UserKey)>) {
    forall i: nat :: i < |filters| ==> OnlyFrom(filters[i], hash, KeysAt(added, i))
  }

  ghost predicate FiltersCover(filters: seq<Bloom>, hash: Hash, added: set<(nat, UserKey)>) {
    forall p :: p in added ==>
      p.0 / FILTER_BASE < |filters| && Covers(filters[p.0 / FILTER_BASE], hash, p.1)
  }

  /** Every probe of key is a probe of one of the keys. */
  ghost predicate AllHit(f: Bloom, hash: Hash, keys: set<UserKey>, key: UserKey)
    requires |f.bits| > 0
  {
    forall j: nat {:trigger Probe(hash(key), j)} :: j < f.k ==> HitBy(|f.bits|, f.k, hash, keys, Probe(hash(key), j) % |f.bits|)
  }

  /** Which keys a filter denies: those with a probe that is none of any key it was made for. */
  lemma DeniedIff(f: Bloom, hash: Hash, keys: set<UserKey>, key: UserKey)
    requires OnlyFrom(f, hash, keys) && forall x :: x in keys ==> Covers(f, hash, x)
    ensures Covers(f, hash, key) <==> |f.bits| > 0 && AllHit(f, hash, keys, key)
  {
    if Covers(f, hash, key) {
      forall j: nat | j < f.k ensures HitBy(|f.bits|, f.k, hash, keys, Probe(hash(key), j) % |f.bits|) {
        assert f.bits[Probe(hash(key), j) % |f.bits|];
      }
    }
    if |f.bits| > 0 && AllHit(f, hash, keys, key) {
      forall j | 0 <= j < f.k ensures f.bits[Probe(hash(key), j) % |f.bits|] {
        assert HitBy(|f.bits|, f.k, hash, keys, Probe(hash(key), j) % |f.bits|);
        var x, i: nat :| x in keys && i < f.k && Probe(hash(key), j) % |f.bits| == Probe(hash(x), i) % |f.bits|;
        assert Covers(f, hash, x);
      }
    }
  }

  /** FilterBlockReader::KeyMayMatch: never no for a key of the block at this offset; and yes for another
      only if all its probes are probes of keys of that range. */
  method KeyMayMatch(filters: seq<Bloom>, hash: Hash, offset: nat, key: UserKey, ghost added: set<(nat, UserKey)>) returns (r: bool)
    ensures FiltersCover(filters, hash, added) && (offset, key) in added ==> r
    ensures FiltersCover(filters, hash, added) && FiltersOnly(filters, hash, added) && offset / FILTER_BASE < |filters| ==>
              var f := filters[offset / FILTER_BASE];
              r <==> |f.bits| > 0 && AllHit(f, hash, KeysAt(added, offset / FILTER_BASE), key)
  {
    var index := offset / FILTER_BASE;
    if FiltersCover(filters, hash, added) && FiltersOnly(filters, hash, added) && index < |filters| {
      DeniedIff(filters[index], hash, KeysAt(added, index), key);
    }
    if index < |filters| {
      r := BloomMayMatch(hash, key, filters[index]);
    } else {
      r := true;
    }
  }
}
