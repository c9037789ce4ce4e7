/** db/version_edit.cc: the records of the manifest, written field by field and read back. */
module VersionEdits {
  import opened InternalKeys
  import opened Coding
  import Files

  /** Keys are the bytes an InternalKey holds; an empty one stands for no key. */
  datatype FileMeta = FileMeta(number: nat, size: nat, smallest: Data, largest: Data)

  /** What a VersionEdit holds; deletedFiles is a std::set, kept in order. */
  datatype Contents = Contents(
    comparator: Option<Data>,
    logNumber: Option<nat>,
    prevLogNumber: Option<nat>,
    nextFileNumber: Option<nat>,
    lastSequence: Option<nat>,
    compactPointers: seq<(nat, Data)>,
    deletedFiles: seq<(nat, nat)>,
    newFiles: seq<(nat, FileMeta)>)

  /** One tagged field of the encoding. */
  datatype Field =
    | Comparator(name: Data)
    | LogNumber(n: nat)
    | NextFileNumber(n: nat)
    | LastSequence(n: nat)
    | CompactPointer(level: nat, key: Data)
    | DeletedFile(level: nat, n: nat)
    | NewFile(level: nat, file: FileMeta)
    | PrevLogNumber(n: nat)

  function TagOf(f: Field): (t: nat)
    ensures 1 <= t <= 9 && t != 8
  {
    match f
    case Comparator(_) => 1
    case LogNumber(_) => 2
    case NextFileNumber(_) => 3
    case LastSequence(_) => 4
    case CompactPointer(_, _) => 5
    case DeletedFile(_, _) => 6
    case NewFile(_, _) => 7
    case PrevLogNumber(_) => 9
  }

  function BodyBytes(f: Field): Data {
    match f
    case Comparator(name) => PrefixedBytes(name)
    case LogNumber(n) => VarintBytes(n)
    case NextFileNumber(n) => VarintBytes(n)
    case LastSequence(n) => VarintBytes(n)
    case CompactPointer(level, key) => VarintBytes(level) + PrefixedBytes(key)
    case DeletedFile(level, n) => VarintBytes(level) + VarintBytes(n)
    case NewFile(level, file) =>
      VarintBytes(level) + VarintBytes(file.number) + VarintBytes(file.size) + PrefixedBytes(file.smallest) + PrefixedBytes(file.largest)
    case PrevLogNumber(n) => VarintBytes(n)
  }

  function FieldBytes(f: Field): Data {
    VarintBytes(TagOf(f)) + BodyBytes(f)
  }

  function AllBytes(fs: seq<Field>): Data {
    if fs == [] then [] else AllBytes(fs[..|fs| - 1]) + FieldBytes(fs[|fs| - 1])
  }

  predicate KeyOk(key: Data) {
    0 < |key| < LIMIT32
  }

  /** The widths of the fields in memory, levels that exist and keys that are set. */
  predicate FieldOk(f: Field) {
    match f
    case Comparator(name) => |name| < LIMIT32
    case CompactPointer(level, key) => level < Files.NUM_LEVELS && KeyOk(key)
    case DeletedFile(level, n) => level < Files.NUM_LEVELS && n < LIMIT64
    case NewFile(level, file) =>
      level < Files.NUM_LEVELS && file.number < LIMIT64 && file.size < LIMIT64 && KeyOk(file.smallest) && KeyOk(file.largest)
    case _ => f.n < LIMIT64
  }

  // ---------- decoding ----------

  /** GetLevel */
  function DecodeLevel(input: Data): Option<(nat, Data)> {
    match Varint32(input)
    case None => None
    case Some((v, rest)) => if v < Files.NUM_LEVELS then Some((v, rest)) else None
  }

  /** GetInternalKey: an empty key is refused. */
  function DecodeKey(input: Data): Option<(Data, Data)> {
    match DecodePrefixed(input)
    case None => None
    case Some((key, rest)) => if key == [] then None else Some((key, rest))
  }

  function DecodeNumber(tag: nat, input: Data): Option<(Field, Data)> {
    match Varint64(input)
    case None => None
    case Some((n, rest)) =>
      if tag == 2 then Some((LogNumber(n), rest))
      else if tag == 3 then Some((NextFileNumber(n), rest))
      else if tag == 4 then Some((LastSequence(n), rest))
      else if tag == 9 then Some((PrevLogNumber(n), rest))
      else None
  }

  function DecodeNewFile(level: nat, input: Data): Option<(Field, Data)> {
    match Varint64(input)
    case None => None
    case Some((number, r1)) =>
      match Varint64(r1)
      case None => None
      case Some((size, r2)) =>
        match DecodeKey(r2)
        case None => None
        case Some((smallest, r3)) =>
          match DecodeKey(r3)
          case None => None
          case Some((largest, rest)) => Some((NewFile(level, FileMeta(number, size, smallest, largest)), rest))
  }

  function DecodeLevelled(tag: nat, level: nat, input: Data): Option<(Field, Data)> {
    if tag == 5 then
      match DecodeKey(input)
      case None => None
      case Some((key, rest)) => Some((CompactPointer(level, key), rest))
    else if tag == 6 then
      match Varint64(input)
      case None => None
      case Some((n, rest)) => Some((DeletedFile(level, n), rest))
    else DecodeNewFile(level, input)
  }

  /** The body of the field with this tag, and what follows it. */
  function DecodeBody(tag: nat, input: Data): Option<(Field, Data)> {
    if tag == 1 then
      match DecodePrefixed(input)
      case None => None
      case Some((name, rest)) => Some((Comparator(name), rest))
    else if 5 <= tag <= 7 then
      match DecodeLevel(input)
      case None => None
      case Some((level, rest)) => DecodeLevelled(tag, level, rest)
    else DecodeNumber(tag, input)
  }

  lemma PrefixedShrinks(input: Data)
    ensures DecodePrefixed(input).Some? ==> |DecodePrefixed(input).value.1| < |input|
  {
    VarintShrinks(input, 5);
  }

  lemma BodyShrinks(tag: nat, input: Data)
    ensures DecodeBody(tag, input).Some? ==> |DecodeBody(tag, input).value.1| <= |input|
  {
    hide DecodeVarint, DecodePrefixed;
    forall s: Data
      ensures DecodeVarint(s, 5).Some? ==> |DecodeVarint(s, 5).value.1| < |s|
      ensures DecodeVarint(s, 10).Some? ==> |DecodeVarint(s, 10).value.1| < |s|
      ensures DecodePrefixed(s).Some? ==> |DecodePrefixed(s).value.1| < |s|
    {
      VarintShrinks(s, 5);
      VarintShrinks(s, 10);
      PrefixedShrinks(s);
    }
  }

  /** The fields up to the first that cannot be read, and whether all could be. */
  ghost function DecodeAll(input: Data): (seq<Field>, bool)
    decreases |input|
  {
    match Varint32(input)
    case None => ([], input == [])
    case Some((tag, body)) =>
      match DecodeBody(tag, body)
      case None => ([], false)
      case Some((f, rest)) =>
        VarintShrinks(input, 5);
        BodyShrinks(tag, body);
        var (fs, ok) := DecodeAll(rest);
        ([f] + fs, ok)
  }

  lemma KeyReadsBack(key: Data, rest: Data)
    requires KeyOk(key)
    ensures DecodeKey(PrefixedBytes(key) + rest) == Some((key, rest))
  {
    PrefixedRoundTrip(key, rest);
  }

  lemma NewFileReadsBack(level: nat, file: FileMeta, rest: Data)
    requires FieldOk(NewFile(level, file))
    ensures DecodeNewFile(level, VarintBytes(file.number) + VarintBytes(file.size) + PrefixedBytes(file.smallest)
                                 + PrefixedBytes(file.largest) + rest) == Some((NewFile(level, file), rest))
  {
    var r3 := PrefixedBytes(file.largest) + rest;
    var r2 := PrefixedBytes(file.smallest) + r3;
    var r1 := VarintBytes(file.size) + r2;
    Varint64ReadsBack(file.number, r1);
    Varint64ReadsBack(file.size, r2);
    KeyReadsBack(file.smallest, r3);
    KeyReadsBack(file.largest, rest);
    FromTheRight(VarintBytes(file.number), VarintBytes(file.size), PrefixedBytes(file.smallest), PrefixedBytes(file.largest), rest);
    hide VarintBytes, PrefixedBytes, Varint64, DecodeKey;
  }

  lemma FromTheRight(a: Data, b: Data, c: Data, d: Data, e: Data)
    ensures a + b + c + d + e == a + (b + (c + (d + e)))
  {
  }

  /** Every field reads back, whatever follows it. */
  lemma BodyReadsBack(f: Field, rest: Data)
    requires FieldOk(f)
    ensures DecodeBody(TagOf(f), BodyBytes(f) + rest) == Some((f, rest))
  {
    hide VarintBytes, PrefixedBytes, DecodeVarint, DecodePrefixed, DecodeNewFile;
    match f
    case Comparator(name) => PrefixedRoundTrip(name, rest);
    case CompactPointer(level, key) => LevelledReadsBack(f, level, PrefixedBytes(key), rest);
    case DeletedFile(level, n) => LevelledReadsBack(f, level, VarintBytes(n), rest);
    case NewFile(level, file) =>
      var tail := VarintBytes(file.number) + VarintBytes(file.size) + PrefixedBytes(file.smallest) + PrefixedBytes(file.largest);
      assert BodyBytes(f) == VarintBytes(level) + tail;
      LevelledReadsBack(f, level, tail, rest);
    case _ => Varint64ReadsBack(f.n, rest);
  }

  lemma LevelledReadsBack(f: Field, level: nat, tail: Data, rest: Data)
    requires FieldOk(f) && 5 <= TagOf(f) <= 7 && f.level == level && BodyBytes(f) == VarintBytes(level) + tail
    requires f.CompactPointer? ==> tail == PrefixedBytes(f.key)
    requires f.DeletedFile? ==> tail == VarintBytes(f.n)
    requires f.NewFile? ==> tail == VarintBytes(f.file.number) + VarintBytes(f.file.size) + PrefixedBytes(f.file.smallest) + PrefixedBytes(f.file.largest)
    ensures DecodeBody(TagOf(f), BodyBytes(f) + rest) == Some((f, rest))
  {
    LevelReadsBack(level, tail, rest);
    if f.CompactPointer? {
      KeyReadsBack(f.key, rest);
    } else if f.DeletedFile? {
      Varint64ReadsBack(f.n, rest);
    } else {
      NewFileReadsBack(level, f.file, rest);
    }
    hide VarintBytes, PrefixedBytes, DecodeLevel, DecodeNewFile, Varint64, DecodeKey, BodyBytes;
  }

  lemma LevelReadsBack(level: nat, tail: Data, rest: Data)
    requires level < Files.NUM_LEVELS
    ensures DecodeLevel(VarintBytes(level) + tail + rest) == Some((level, tail + rest))
  {
    Varint32ReadsBack(level, tail + rest);
    assert VarintBytes(level) + tail + rest == VarintBytes(level) + (tail + rest);
  }

  lemma AllBytesCons(f: Field, fs: seq<Field>)
    ensures AllBytes([f] + fs) == FieldBytes(f) + AllBytes(fs)
  {
    hide FieldBytes;
    if fs == [] {
      assert [f] + fs == [f] && [f][..0] == [];
    } else {
      var n := |fs| - 1;
      assert ([f] + fs)[..n + 1] == [f] + fs[..n];
      AllBytesCons(f, fs[..n]);
    }
  }

  lemma FirstFieldReadsBack(f: Field, rest: Data)
    requires FieldOk(f)
    ensures DecodeAll(FieldBytes(f) + rest) == ([f] + DecodeAll(rest).0, DecodeAll(rest).1)
  {
    Varint32ReadsBack(TagOf(f), BodyBytes(f) + rest);
    BodyReadsBack(f, rest);
    assert FieldBytes(f) + rest == VarintBytes(TagOf(f)) + (BodyBytes(f) + rest);
    hide BodyBytes, VarintBytes, DecodeBody, Varint32, FieldOk, TagOf;
  }

  /** What is written reads back, field by field. */
  lemma {:induction false} FieldsReadBack(fs: seq<Field>)
    requires forall f :: f in fs ==> FieldOk(f)
    ensures DecodeAll(AllBytes(fs)) == (fs, true)
    decreases |fs|
  {
    if fs == [] {
      assert DecodeVarint([], 5).None?;
    } else {
      AllBytesCons(fs[0], fs[1..]);
      FirstFieldReadsBack(fs[0], AllBytes(fs[1..]));
      FieldsReadBack(fs[1..]);
      hide AllBytes, DecodeAll, FieldBytes, FieldOk;
      assert fs == [fs[0]] + fs[1..];
    }
  }

  // ---------- the record in memory ----------

  predicate PairLess(a: (nat, nat), b: (nat, nat)) {
    a.0 < b.0 || (a.0 == b.0 && a.1 < b.1)
  }

  ghost predicate PairsAscend(ps: seq<(nat, nat)>) {
    forall i, k :: 0 <= i < k < |ps| ==> PairLess(ps[i], ps[k])
  }

  /** Insertion into a std::set. */
  function InsertPair(ps: seq<(nat, nat)>, p: (nat, nat)): seq<(nat, nat)> {
    if ps == [] then [p]
    else
      var last := ps[|ps| - 1];
      if PairLess(last, p) then ps + [p]
      else if last == p then ps
      else InsertPair(ps[..|ps| - 1], p) + [last]
  }

  /** The set stays in order, without duplicates, and grows by the pair. */
  lemma {:induction false} InsertIsInsertion(ps: seq<(nat, nat)>, p: (nat, nat))
    requires PairsAscend(ps)
    ensures PairsAscend(InsertPair(ps, p))
    ensures forall q :: q in InsertPair(ps, p) <==> q in ps || q == p
  {
    if ps != [] {
      var front, last := ps[..|ps| - 1], ps[|ps| - 1];
      assert ps == front + [last];
      if !PairLess(last, p) && last != p {
        InsertIsInsertion(front, p);
        assert forall q :: q in InsertPair(front, p) ==> PairLess(q, last);
      }
    }
  }

  /** What one field does to the record. */
  function Take(c: Contents, f: Field): Contents {
    match f
    case Comparator(name) => c.(comparator := Some(name))
    case LogNumber(n) => c.(logNumber := Some(n))
    case PrevLogNumber(n) => c.(prevLogNumber := Some(n))
    case NextFileNumber(n) => c.(nextFileNumber := Some(n))
    case LastSequence(n) => c.(lastSequence := Some(n))
    case CompactPointer(level, key) => c.(compactPointers := c.compactPointers + [(level, key)])
    case DeletedFile(level, n) => c.(deletedFiles := InsertPair(c.deletedFiles, (level, n)))
    case NewFile(level, file) => c.(newFiles := c.newFiles + [(level, file)])
  }

  function TakeAll(c: Contents, fs: seq<Field>): Contents {
    if fs == [] then c else Take(TakeAll(c, fs[..|fs| - 1]), fs[|fs| - 1])
  }

  lemma {:induction false} TakeAllOn(c: Contents, a: seq<Field>, b: seq<Field>)
    ensures TakeAll(c, a + b) == TakeAll(TakeAll(c, a), b)
  {
    if b == [] {
      assert a + b == a;
    } else {
      assert (a + b)[..|a + b| - 1] == a + b[..|b| - 1];
      TakeAllOn(c, a, b[..|b| - 1]);
    }
  }

  /** VersionEdit::Clear leaves the compaction pointers as they are. */
  function Cleared(c: Contents): Contents {
    Contents(None, None, None, None, None, c.compactPointers, [], [])
  }

  function Optional(present: bool, f: Field): seq<Field> {
    if present then [f] else []
  }

  function ValueOf(n: Option<nat>): nat {
    if n.Some? then n.value else 0
  }

  function PointerFields(ps: seq<(nat, Data)>): seq<Field> {
    if ps == [] then [] else PointerFields(ps[..|ps| - 1]) + [CompactPointer(ps[|ps| - 1].0, ps[|ps| - 1].1)]
  }

  function DeletedFields(ps: seq<(nat, nat)>): seq<Field> {
    if ps == [] then [] else DeletedFields(ps[..|ps| - 1]) + [DeletedFile(ps[|ps| - 1].0, ps[|ps| - 1].1)]
  }

  function NewFields(ps: seq<(nat, FileMeta)>): seq<Field> {
    if ps == [] then [] else NewFields(ps[..|ps| - 1]) + [NewFile(ps[|ps| - 1].0, ps[|ps| - 1].1)]
  }

  function NameField(c: Contents): seq<Field> {
    Optional(c.comparator.Some?, Comparator(if c.comparator.Some? then c.comparator.value else []))
  }

  function LogFields(c: Contents): seq<Field> {
    Optional(c.logNumber.Some?, LogNumber(ValueOf(c.logNumber)))
    + Optional(c.prevLogNumber.Some?, PrevLogNumber(ValueOf(c.prevLogNumber)))
  }

  function CounterFields(c: Contents): seq<Field> {
    Optional(c.nextFileNumber.Some?, NextFileNumber(ValueOf(c.nextFileNumber)))
    + Optional(c.lastSequence.Some?, LastSequence(ValueOf(c.lastSequence)))
  }

  function HeadFields(c: Contents): seq<Field> {
    NameField(c) + LogFields(c) + CounterFields(c)
  }

  /** The fields in the order EncodeTo writes them. */
  function FieldsOf(c: Contents): seq<Field> {
    HeadFields(c) + PointerFields(c.compactPointers) + DeletedFields(c.deletedFiles) + NewFields(c.newFiles)
  }

  lemma {:induction false} PointersTaken(c: Contents, ps: seq<(nat, Data)>)
    ensures TakeAll(c, PointerFields(ps)) == c.(compactPointers := c.compactPointers + ps)
  {
    hide TakeAll;
    if ps == [] {
      StartTaken(c, []);
      assert c.compactPointers + ps == c.compactPointers;
    } else {
      var front, last := ps[..|ps| - 1], ps[|ps| - 1];
      PointersTaken(c, front);
      LastTaken(c, PointerFields(front), CompactPointer(last.0, last.1));
      assert ps == front + [last];
      assert c.compactPointers + ps == c.compactPointers + front + [last];
    }
  }

  lemma LastTaken(c: Contents, fs: seq<Field>, f: Field)
    ensures TakeAll(c, fs + [f]) == Take(TakeAll(c, fs), f)
  {
    assert (fs + [f])[..|fs|] == fs;
  }

  lemma {:induction false} DeletedTaken(c: Contents, ps: seq<(nat, nat)>)
    requires c.deletedFiles == [] && PairsAscend(ps)
    ensures TakeAll(c, DeletedFields(ps)) == c.(deletedFiles := ps)
  {
    if ps != [] {
      var front, last := ps[..|ps| - 1], ps[|ps| - 1];
      DeletedTaken(c, front);
      LastTaken(c, DeletedFields(front), DeletedFile(last.0, last.1));
      assert InsertPair(front, last) == front + [last] == ps;
    }
  }

  lemma {:induction false} NewTaken(c: Contents, ps: seq<(nat, FileMeta)>)
    requires c.newFiles == []
    ensures TakeAll(c, NewFields(ps)) == c.(newFiles := ps)
  {
    if ps != [] {
      var front, last := ps[..|ps| - 1], ps[|ps| - 1];
      NewTaken(c, front);
      LastTaken(c, NewFields(front), NewFile(last.0, last.1));
      assert NewFields(ps) == NewFields(front) + [NewFile(last.0, last.1)];
      OneNewTaken(c, front, last);
      hide *;
      assert ps == front + [last];
    } else {
      assert TakeAll(c, []) == c;
    }
  }

  lemma {:induction false} OneNewTaken(c: Contents, front: seq<(nat, FileMeta)>, last: (nat, FileMeta))
    ensures Take(c.(newFiles := front), NewFile(last.0, last.1)) == c.(newFiles := front + [last])
  {
    assert last == (last.0, last.1);
  }

  lemma OneTaken(c: Contents, f: Field)
    ensures TakeAll(c, [f]) == Take(c, f) && TakeAll(c, []) == c
  {
    assert [f][..0] == [];
  }

  lemma OptionalTaken(c: Contents, present: bool, f: Field)
    ensures TakeAll(c, Optional(present, f)) == if present then Take(c, f) else c
  {
    OneTaken(c, f);
  }

  lemma TwoOptionalTaken(c: Contents, p: bool, f: Field, q: bool, g: Field)
    ensures var mid := if p then Take(c, f) else c;
            TakeAll(c, Optional(p, f) + Optional(q, g)) == if q then Take(mid, g) else mid
  {
    TakeAllOn(c, Optional(p, f), Optional(q, g));
    OptionalTaken(c, p, f);
    OptionalTaken(if p then Take(c, f) else c, q, g);
  }

  lemma NameTaken(x: Contents, c: Contents)
    requires x.comparator.None?
    ensures TakeAll(x, NameField(c)) == x.(comparator := c.comparator)
  {
    OptionalTaken(x, c.comparator.Some?, Comparator(if c.comparator.Some? then c.comparator.value else []));
    hide TakeAll, Optional;
  }

  lemma LogsTaken(x: Contents, c: Contents)
    requires x.logNumber.None? && x.prevLogNumber.None?
    ensures TakeAll(x, LogFields(c)) == x.(logNumber := c.logNumber, prevLogNumber := c.prevLogNumber)
  {
    TwoOptionalTaken(x, c.logNumber.Some?, LogNumber(ValueOf(c.logNumber)), c.prevLogNumber.Some?, PrevLogNumber(ValueOf(c.prevLogNumber)));
    hide TakeAll, Optional;
  }

  lemma CountersTaken(x: Contents, c: Contents)
    requires x.nextFileNumber.None? && x.lastSequence.None?
    ensures TakeAll(x, CounterFields(c)) == x.(nextFileNumber := c.nextFileNumber, lastSequence := c.lastSequence)
  {
    TwoOptionalTaken(x, c.nextFileNumber.Some?, NextFileNumber(ValueOf(c.nextFileNumber)),
                     c.lastSequence.Some?, LastSequence(ValueOf(c.lastSequence)));
    hide TakeAll, Optional;
  }

  lemma HeadTaken(x: Contents, c: Contents)
    requires x == Cleared(x)
    ensures TakeAll(x, HeadFields(c))
         == Contents(c.comparator, c.logNumber, c.prevLogNumber, c.nextFileNumber, c.lastSequence, x.compactPointers, [], [])
  {
    TakeAllOn(x, NameField(c) + LogFields(c), CounterFields(c));
    TakeAllOn(x, NameField(c), LogFields(c));
    var x1 := x.(comparator := c.comparator);
    var x2 := x1.(logNumber := c.logNumber, prevLogNumber := c.prevLogNumber);
    NameTaken(x, c);
    LogsTaken(x1, c);
    CountersTaken(x2, c);
    hide TakeAll, NameField, LogFields, CounterFields;
  }

  /** Taking all fields of a record gives that record; only compaction pointers that were
      there before stay in front. */
  lemma FieldsMakeRecord(c0: Contents, c: Contents)
    requires PairsAscend(c.deletedFiles)
    ensures TakeAll(Cleared(c0), FieldsOf(c)) == c.(compactPointers := c0.compactPointers + c.compactPointers)
  {
    var h, p, d, n := HeadFields(c), PointerFields(c.compactPointers), DeletedFields(c.deletedFiles), NewFields(c.newFiles);
    var start := Cleared(c0);
    TakeAllOn(start, h + p + d, n);
    TakeAllOn(start, h + p, d);
    TakeAllOn(start, h, p);
    HeadTaken(start, c);
    hide TakeAll, HeadFields, PointerFields, DeletedFields, NewFields;
    PointersTaken(TakeAll(start, h), c.compactPointers);
    DeletedTaken(TakeAll(TakeAll(start, h), p), c.deletedFiles);
    NewTaken(TakeAll(TakeAll(TakeAll(start, h), p), d), c.newFiles);
  }

  ghost predicate RecordOk(c: Contents) {
    PairsAscend(c.deletedFiles) && forall f :: f in FieldsOf(c) ==> FieldOk(f)
  }

  class VersionEdit {
    var comparator: Option<Data>
    var logNumber: Option<nat>
    var prevLogNumber: Option<nat>
    var nextFileNumber: Option<nat>
    var lastSequence: Option<nat>
    var compactPointers: seq<(nat, Data)>
    var deletedFiles: seq<(nat, nat)>
    var newFiles: seq<(nat, FileMeta)>

    function View(): Contents
      reads this
    {
      Contents(comparator, logNumber, prevLogNumber, nextFileNumber, lastSequence, compactPointers, deletedFiles, newFiles)
    }

    constructor ()
      ensures View() == Contents(None, None, None, None, None, [], [], [])
    {
      comparator, logNumber, prevLogNumber, nextFileNumber, lastSequence := None, None, None, None, None;
      compactPointers, deletedFiles, newFiles := [], [], [];
    }

    /** VersionEdit::Clear */
    method Clear()
      modifies this
      ensures View() == Cleared(old(View()))
    {
      comparator, logNumber, prevLogNumber, nextFileNumber, lastSequence := None, None, None, None, None;
      deletedFiles, newFiles := [], [];
    }

    /** RemoveFile and AddFile */
    method RemoveFile(level: nat, number: nat)
      modifies this`deletedFiles
      ensures View() == Take(old(View()), DeletedFile(level, number))
    {
      deletedFiles := InsertPair(deletedFiles, (level, number));
    }

    method AddFile(level: nat, file: FileMeta)
      modifies this`newFiles
      ensures View() == Take(old(View()), NewFile(level, file))
    {
      newFiles := newFiles + [(level, file)];
    }

    /** VersionEdit::EncodeTo */
    method EncodeTo() returns (dst: Data)
      ensures dst == AllBytes(FieldsOf(View()))
    {
      dst := EncodeHead();
      ghost var head := HeadFields(View());
      hide BodyBytes, FieldBytes, HeadFields;
      var i := 0;
      while i < |compactPointers|
        invariant 0 <= i <= |compactPointers| && dst == AllBytes(head + PointerFields(compactPointers[..i]))
      {
        var p := compactPointers[i];
        assert compactPointers[..i + 1][..i] == compactPointers[..i];
        OneMoreField(head, PointerFields(compactPointers[..i]), CompactPointer(p.0, p.1));
        dst := dst + FieldBytes(CompactPointer(p.0, p.1));
        i := i + 1;
      }
      assert compactPointers[..i] == compactPointers;
      head := head + PointerFields(compactPointers);
      assert head + DeletedFields(deletedFiles[..0]) == head;
      i := 0;
      while i < |deletedFiles|
        invariant 0 <= i <= |deletedFiles| && dst == AllBytes(head + DeletedFields(deletedFiles[..i]))
      {
        var p := deletedFiles[i];
        assert deletedFiles[..i + 1][..i] == deletedFiles[..i];
        OneMoreField(head, DeletedFields(deletedFiles[..i]), DeletedFile(p.0, p.1));
        dst := dst + FieldBytes(DeletedFile(p.0, p.1));
        i := i + 1;
      }
      assert deletedFiles[..i] == deletedFiles;
      head := head + DeletedFields(deletedFiles);
      assert head + NewFields(newFiles[..0]) == head;
      i := 0;
      while i < |newFiles|
        invariant 0 <= i <= |newFiles| && dst == AllBytes(head + NewFields(newFiles[..i]))
      {
        var p := newFiles[i];
        assert newFiles[..i + 1][..i] == newFiles[..i];
        OneMoreField(head, NewFields(newFiles[..i]), NewFile(p.0, p.1));
        dst := dst + FieldBytes(NewFile(p.0, p.1));
        i := i + 1;
      }
      assert newFiles[..i] == newFiles;
    }

    method EncodeHead() returns (dst: Data)
      ensures dst == AllBytes(HeadFields(View()) + PointerFields([]))
    {
      ghost var c := View();
      hide AllBytes, Optional;
      assert AllBytes([]) == [] by {
        EmptyBytes();
      }
      dst := PutOptional([], comparator.Some?, Comparator(if comparator.Some? then comparator.value else []), []);
      assert [] + NameField(c) == NameField(c);
      dst := PutLogs(dst, NameField(c));
      dst := PutCounters(dst, NameField(c) + LogFields(c));
      hide NameField, LogFields, CounterFields;
      assert HeadFields(c) + [] == HeadFields(c);
    }

    method PutLogs(dst: Data, ghost before: seq<Field>) returns (r: Data)
      requires dst == AllBytes(before)
      ensures r == AllBytes(before + LogFields(View()))
    {
      hide AllBytes, Optional;
      ghost var first := Optional(logNumber.Some?, LogNumber(ValueOf(logNumber)));
      r := PutOptional(dst, logNumber.Some?, LogNumber(ValueOf(logNumber)), before);
      r := PutOptional(r, prevLogNumber.Some?, PrevLogNumber(ValueOf(prevLogNumber)), before + first);
      ghost var second := Optional(prevLogNumber.Some?, PrevLogNumber(ValueOf(prevLogNumber)));
      assert before + first + second == before + (first + second);
    }

    method PutCounters(dst: Data, ghost before: seq<Field>) returns (r: Data)
      requires dst == AllBytes(before)
      ensures r == AllBytes(before + CounterFields(View()))
    {
      hide AllBytes, Optional;
      ghost var first := Optional(nextFileNumber.Some?, NextFileNumber(ValueOf(nextFileNumber)));
      r := PutOptional(dst, nextFileNumber.Some?, NextFileNumber(ValueOf(nextFileNumber)), before);
      r := PutOptional(r, lastSequence.Some?, LastSequence(ValueOf(lastSequence)), before + first);
      ghost var second := Optional(lastSequence.Some?, LastSequence(ValueOf(lastSequence)));
      assert before + first + second == before + (first + second);
    }

    static method PutOptional(dst: Data, present: bool, f: Field, ghost before: seq<Field>) returns (r: Data)
      requires dst == AllBytes(before)
      ensures r == AllBytes(before + Optional(present, f))
    {
      r := dst;
      assert before + [] == before;
      if present {
        OneMoreField(before, [], f);
        r := r + FieldBytes(f);
      }
    }

    /** VersionEdit::DecodeFrom: the fields read so far are kept even when it fails. */
    method DecodeFrom(src: Data) returns (ok: bool)
      modifies this
      ensures var (fields, allRead) := DecodeAll(src);
              ok == allRead && View() == TakeAll(Cleared(old(View())), fields)
    {
      hide *;
      Clear();
      var input := src;
      ghost var start, done := View(), [];
      StartTaken(start, DecodeAll(src).0);
      while true
        invariant DecodeAll(src) == (done + DecodeAll(input).0, DecodeAll(input).1)
        invariant View() == TakeAll(start, done)
        decreases |input|
      {
        DecodeStep(done, input);
        var tag := Varint32(input);
        if tag.None? {
          return input == [];
        }
        var body := DecodeBody(tag.value.0, tag.value.1);
        if body.None? {
          return false;
        }
        Apply(body.value.0);
        LastTaken(start, done, body.value.0);
        done := done + [body.value.0];
        input := body.value.1;
      }
    }

    /** The assignments behind each tag. */
    method Apply(f: Field)
      modifies this
      ensures View() == Take(old(View()), f)
    {
      match f {
        case Comparator(name) => comparator := Some(name);
        case LogNumber(n) => logNumber := Some(n);
        case PrevLogNumber(n) => prevLogNumber := Some(n);
        case NextFileNumber(n) => nextFileNumber := Some(n);
        case LastSequence(n) => lastSequence := Some(n);
        case CompactPointer(level, key) => compactPointers := compactPointers + [(level, key)];
        case DeletedFile(level, n) => RemoveFile(level, n);
        case NewFile(level, file) => AddFile(level, file);
      }
    }
  }

  lemma EmptyBytes()
    ensures AllBytes([]) == []
  {
  }

  lemma StartTaken(c: Contents, fs: seq<Field>)
    ensures TakeAll(c, []) == c && [] + fs == fs
  {
  }

  /** One turn of the loop of DecodeFrom. */
  lemma DecodeStep(done: seq<Field>, input: Data)
    ensures Varint32(input).None? ==> done + DecodeAll(input).0 == done && DecodeAll(input).1 == (input == [])
    ensures Varint32(input).Some? ==>
      var (tag, body) := Varint32(input).value;
      var r := DecodeBody(tag, body);
      && (r.None? ==> done + DecodeAll(input).0 == done && !DecodeAll(input).1)
      && (r.Some? ==>
            && |r.value.1| < |input|
            && done + DecodeAll(input).0 == (done + [r.value.0]) + DecodeAll(r.value.1).0
            && DecodeAll(input).1 == DecodeAll(r.value.1).1)
  {
    VarintShrinks(input, 5);
    if Varint32(input).Some? {
      BodyShrinks(Varint32(input).value.0, Varint32(input).value.1);
    }
    hide DecodeBody, DecodeVarint;
  }

  lemma OneMoreField(head: seq<Field>, fs: seq<Field>, f: Field)
    ensures AllBytes(head + (fs + [f])) == AllBytes(head + fs) + FieldBytes(f)
    ensures fs == [] ==> AllBytes(head + [f]) == AllBytes(head) + FieldBytes(f)
  {
    hide FieldBytes;
    assert (head + (fs + [f]))[..|head + fs|] == head + fs;
    assert fs == [] ==> head + fs == head && fs + [f] == [f];
  }

  lemma RecordReadsBack(c0: Contents, c: Contents)
    requires RecordOk(c)
    ensures var (fields, ok) := DecodeAll(AllBytes(FieldsOf(c)));
            ok && TakeAll(Cleared(c0), fields) == c.(compactPointers := c0.compactPointers + c.compactPointers)
  {
    FieldsReadBack(FieldsOf(c));
    FieldsMakeRecord(c0, c);
  }

  /** A record written to the manifest and read back into any VersionEdit is the record that
      was written, behind the compaction pointers that were there. */
  method WriteAndRead(writer: VersionEdit, reader: VersionEdit) returns (ok: bool)
    requires RecordOk(writer.View()) && writer != reader
    modifies reader
    ensures ok
    ensures reader.View() == writer.View().(compactPointers := old(reader.compactPointers) + writer.compactPointers)
  {
    RecordReadsBack(reader.View(), writer.View());
    hide FieldsOf, DecodeAll, AllBytes, TakeAll, RecordOk;
    var bytes := writer.EncodeTo();
    ok := reader.DecodeFrom(bytes);
  }
}
