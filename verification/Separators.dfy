/** util/comparator.cc and db/dbformat.cc: shortened index keys for byte-string keys. */
module Separators {
  import opened InternalKeys

  /** BytewiseComparator::Compare(a, b) < 0 */
  predicate BytesLess(a: Data, b: Data) {
    b != [] && (a == [] || a[0] < b[0] || (a[0] == b[0] && BytesLess(a[1..], b[1..])))
  }

  lemma {:induction false} BytesOrder(a: Data, b: Data, c: Data)
    ensures !BytesLess(a, a)
    ensures BytesLess(a, b) && BytesLess(b, c) ==> BytesLess(a, c)
    ensures BytesLess(a, b) || a == b || BytesLess(b, a)
  {
    if a != [] && b != [] && c != [] {
      BytesOrder(a[1..], b[1..], c[1..]);
    } else if a != [] && b != [] {
      BytesOrder(a[1..], b[1..], c);
    } else if a != [] {
      BytesOrder(a[1..], b, c);
    }
    assert a != [] && b != [] && a[0] == b[0] && a[1..] == b[1..] ==> a == [a[0]] + a[1..] && b == [b[0]] + b[1..];
  }

  /** The first difference decides. */
  lemma {:induction false} DifferenceDecides(a: Data, b: Data, i: nat)
    requires i < |a| && i < |b| && a[..i] == b[..i]
    ensures a[i] < b[i] ==> BytesLess(a, b)
    ensures BytesLess(a, b) ==> a[i] <= b[i]
  {
    if i > 0 {
      assert a[0] == a[..i][0] && b[0] == b[..i][0];
      assert a[1..][..i - 1] == a[..i][1..] && b[1..][..i - 1] == b[..i][1..];
      DifferenceDecides(a[1..], b[1..], i - 1);
    }
  }

  /** The keys first differ at byte i, and there is a byte between the two. */
  predicate Shortens(start: Data, limit: Data, i: int) {
    0 <= i < |start| && i < |limit| && start[..i] == limit[..i] && start[i] < 0xFF && start[i] + 1 < limit[i]
  }

  lemma SameBefore(a: Data, b: Data, i: nat, j: nat)
    requires i <= |a| && i <= |b| && a[..i] == b[..i]
    ensures j < i ==> a[j] == b[j]
  {
    if j < i {
      assert a[j] == a[..i][j] && b[j] == b[..i][j];
    }
  }

  /** What is no longer than the common beginning does not separate. */
  lemma {:induction false} NoneShorter(t: Data, start: Data, limit: Data, i: nat)
    requires i < |start| && i < |limit| && start[..i] == limit[..i]
    requires !BytesLess(t, start) && BytesLess(t, limit)
    ensures |t| > i
  {
    if i > 0 && t != [] {
      assert start[0] == start[..i][0] && limit[0] == limit[..i][0];
      assert start[1..][..i - 1] == start[..i][1..] && limit[1..][..i - 1] == limit[..i][1..];
      NoneShorter(t[1..], start[1..], limit[1..], i - 1);
    }
  }

  /** Of bytes all 0xFF at the front, nothing as short as that is behind. */
  lemma {:induction false} NoneShorterBehind(t: Data, key: Data, i: nat)
    requires i <= |key| && (forall j :: 0 <= j < i ==> key[j] == 0xFF) && !BytesLess(t, key)
    ensures |t| >= i && (i < |key| ==> |t| > i)
  {
    if i > 0 && t != [] {
      NoneShorterBehind(t[1..], key[1..], i - 1);
    }
  }

  /** BytewiseComparator::FindShortestSeparator */
  method FindShortestSeparator(start: Data, limit: Data) returns (r: Data)
    ensures BytesLess(start, limit) ==> !BytesLess(r, start) && BytesLess(r, limit)
    ensures start == limit ==> r == start
    ensures |r| <= |start|
    ensures r != start <==> exists i :: Shortens(start, limit, i)
    ensures r != start && BytesLess(start, limit) ==> forall t: Data :: !BytesLess(t, start) && BytesLess(t, limit) ==> |t| >= |r|
  {
    BytesOrder(start, start, start);
    var minLength := if |start| < |limit| then |start| else |limit|;
    var diff := 0;
    while diff < minLength && start[diff] == limit[diff]
      invariant diff <= minLength && start[..diff] == limit[..diff]
    {
      diff := diff + 1;
    }
    r := start;
    if diff < minLength {
      var byte := start[diff];
      if byte < 0xFF && byte + 1 < limit[diff] {
        r := start[..diff] + [byte + 1];
        assert r[..diff] == start[..diff];
        DifferenceDecides(r, limit, diff);
        DifferenceDecides(start, r, diff);
        BytesOrder(start, r, start);
        assert Shortens(start, limit, diff);
        forall t: Data | !BytesLess(t, start) && BytesLess(t, limit) ensures |t| >= |r| {
          NoneShorter(t, start, limit, diff);
        }
      }
    }
    if i :| Shortens(start, limit, i) {
      SameBefore(start, limit, i, diff);
      SameBefore(start, limit, diff, i);
    }
  }

  /** BytewiseComparator::FindShortSuccessor */
  method FindShortSuccessor(key: Data) returns (r: Data)
    ensures !BytesLess(r, key) && |r| <= |key|
    ensures forall t: Data :: !BytesLess(t, key) ==> |t| >= |r|
    ensures r == key <==> forall j :: 0 <= j < |key| ==> key[j] == 0xFF
  {
    BytesOrder(key, key, key);
    r := key;
    for i := 0 to |key|
      invariant r == key && forall j :: 0 <= j < i ==> key[j] == 0xFF
    {
      if key[i] != 0xFF {
        r := key[..i] + [key[i] + 1];
        assert r[..i] == key[..i];
        DifferenceDecides(key, r, i);
        BytesOrder(key, r, key);
        forall t: Data | !BytesLess(t, key) ensures |t| >= |r| {
          NoneShorterBehind(t, key, i);
        }
        return;
      }
    }
    forall t: Data | !BytesLess(t, key) ensures |t| >= |r| {
      NoneShorterBehind(t, key, |key|);
    }
  }

  // ---------- internal keys over byte strings ----------

  datatype ByteKey = ByteKey(user: Data, tag: nat)

  predicate KeyLess(a: ByteKey, b: ByteKey) {
    BytesLess(a.user, b.user) || (a.user == b.user && a.tag > b.tag)
  }

  const EARLIEST_TAG: nat := Pack(MAX_SEQUENCE, Put)

  /** InternalKeyComparator::FindShortestSeparator: the result separates start from limit. */
  method FindInternalSeparator(start: ByteKey, limit: ByteKey) returns (r: ByteKey)
    ensures KeyLess(start, limit) ==> !KeyLess(r, start) && KeyLess(r, limit)
    ensures KeyLess(start, limit) ==> r == start || (BytesLess(start.user, r.user) && BytesLess(r.user, limit.user))
  {
    var tmp := FindShortestSeparator(start.user, limit.user);
    BytesOrder(start.user, tmp, limit.user);
    BytesOrder(tmp, start.user, tmp);
    BytesOrder(limit.user, start.user, limit.user);
    r := start;
    if |tmp| < |start.user| && BytesLess(start.user, tmp) {
      r := ByteKey(tmp, EARLIEST_TAG);
    }
  }

  /** InternalKeyComparator::FindShortSuccessor: at or behind key. */
  method FindInternalSuccessor(key: ByteKey) returns (r: ByteKey)
    ensures !KeyLess(r, key)
  {
    var tmp := FindShortSuccessor(key.user);
    BytesOrder(key.user, tmp, key.user);
    r := key;
    if |tmp| < |key.user| && BytesLess(key.user, tmp) {
      r := ByteKey(tmp, EARLIEST_TAG);
    }
  }
}
