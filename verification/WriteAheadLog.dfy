/** db/write_batch.cc, and DBImpl::RecoverLogFile: what a crash leaves of the committed
    batches. */
module WriteAheadLog {
  import opened InternalKeys
  import opened Coding
  import opened LogFormat

  const BATCH_HEADER: nat := 12

  datatype BatchOp = BatchOp(kind: Kind, key: Data, value: Data)

  /** A memtable insertion: what Handler::Put and Handler::Delete are called with. */
  datatype Insertion = Insertion(sn: nat, op: BatchOp)

  ghost predicate OpOk(op: BatchOp) {
    |op.key| < LIMIT32 && |op.value| < LIMIT32 && (op.kind.Deletion? ==> op.value == [])
  }

  function OpBytes(op: BatchOp): (r: Data)
    ensures r != []
  {
    match op.kind
    case Put => [1] + PrefixedBytes(op.key) + PrefixedBytes(op.value)
    case Deletion => [0] + PrefixedBytes(op.key)
  }

  function OpsBytes(ops: seq<BatchOp>): Data {
    if ops == [] then [] else OpBytes(ops[0]) + OpsBytes(ops[1..])
  }

  lemma {:induction false} OpsBytesAppend(a: seq<BatchOp>, b: seq<BatchOp>)
    ensures OpsBytes(a + b) == OpsBytes(a) + OpsBytes(b)
  {
    hide OpBytes;
    if a == [] {
      assert a + b == b;
    } else {
      OpsBytesAppend(a[1..], b);
      assert (a + b)[1..] == a[1..] + b;
      assert (a + b)[0] == a[0];
    }
  }

  /** A batch as it is logged: sequence, count, records. */
  datatype Batch = Batch(sequence: nat, ops: seq<BatchOp>)

  ghost predicate BatchOk(b: Batch) {
    b.sequence < Pow(256, 8) && |b.ops| < LIMIT32 && forall op :: op in b.ops ==> OpOk(op)
  }

  function BatchBytes(b: Batch): (r: Data)
    ensures |r| >= BATCH_HEADER
  {
    FixedBytes(b.sequence, 8) + FixedBytes(|b.ops|, 4) + OpsBytes(b.ops)
  }

  class WriteBatch {
    var rep: Data
    ghost var batch: Batch

    ghost predicate Valid()
      reads this
    {
      BatchOk(batch) && rep == BatchBytes(batch)
    }

    constructor ()
      ensures Valid() && batch == Batch(0, [])
    {
      rep := FixedBytes(0, BATCH_HEADER);
      batch := Batch(0, []);
      new;
      EmptyHeader();
    }

    function Count(): (n: nat)
      reads this
      requires Valid()
      ensures n == |batch.ops|
    {
      BatchHeader(batch);
      DecodeFixed(rep[8..BATCH_HEADER])
    }

    function Sequence(): (n: nat)
      reads this
      requires Valid()
      ensures n == batch.sequence
    {
      BatchHeader(batch);
      DecodeFixed(rep[..8])
    }

    method SetSequence(sn: nat)
      requires Valid() && sn < Pow(256, 8)
      modifies this
      ensures Valid() && batch == old(batch).(sequence := sn)
    {
      hide OpsBytes, FixedBytes, OpOk;
      rep := FixedBytes(sn, 8) + rep[8..];
      batch := batch.(sequence := sn);
    }

    /** Patches the count and appends the bytes of further operations. */
    method Extend(count: nat, bytes: Data, ghost ops: seq<BatchOp>)
      requires Valid() && count == |batch.ops| + |ops| && count < LIMIT32
      requires bytes == OpsBytes(ops) && forall op :: op in ops ==> OpOk(op)
      modifies this
      ensures Valid() && batch == old(batch).(ops := old(batch).ops + ops)
    {
      hide OpsBytes, FixedBytes, OpOk;
      OpsBytesAppend(batch.ops, ops);
      assert rep[BATCH_HEADER..] == OpsBytes(batch.ops) && rep[..8] == FixedBytes(batch.sequence, 8);
      rep := rep[..8] + FixedBytes(count, 4) + rep[BATCH_HEADER..] + bytes;
      batch := batch.(ops := batch.ops + ops);
    }

    method Add(op: BatchOp)
      requires Valid() && OpOk(op) && |batch.ops| + 1 < LIMIT32
      modifies this
      ensures Valid() && batch == old(batch).(ops := old(batch).ops + [op])
    {
      assert OpsBytes([op]) == OpBytes(op) + OpsBytes([]);
      var n := Count();
      Extend(n + 1, OpBytes(op), [op]);
    }

    /** WriteBatchInternal::Append */
    method Append(src: WriteBatch)
      requires Valid() && src.Valid() && |batch.ops| + |src.batch.ops| < LIMIT32
      modifies this
      ensures Valid() && batch == old(batch).(ops := old(batch).ops + old(src.batch).ops)
    {
      var n, m := Count(), src.Count();
      assert src.rep[BATCH_HEADER..] == OpsBytes(src.batch.ops);
      Extend(n + m, src.rep[BATCH_HEADER..], src.batch.ops);
    }
  }

  lemma EmptyHeader()
    ensures FixedBytes(0, BATCH_HEADER) == BatchBytes(Batch(0, [])) && BatchOk(Batch(0, []))
  {
    ZeroBytes(BATCH_HEADER);
    ZeroBytes(8);
    ZeroBytes(4);
    Width64();
  }

  lemma {:induction false} ZeroBytes(n: nat)
    ensures forall i :: 0 <= i < n ==> FixedBytes(0, n)[i] == 0
  {
    if n > 0 {
      ZeroBytes(n - 1);
    }
  }

  lemma BatchHeader(b: Batch)
    requires BatchOk(b)
    ensures DecodeFixed(BatchBytes(b)[..8]) == b.sequence && DecodeFixed(BatchBytes(b)[8..BATCH_HEADER]) == |b.ops|
    ensures BatchBytes(b)[BATCH_HEADER..] == OpsBytes(b.ops)
  {
    assert BatchBytes(b)[..8] == FixedBytes(b.sequence, 8);
    assert BatchBytes(b)[8..BATCH_HEADER] == FixedBytes(|b.ops|, 4);
    FixedRoundTrip(b.sequence, 8);
    Width32();
    FixedRoundTrip(|b.ops|, 4);
  }

  // ---------- iterating ----------

  datatype Iteration = Done(ops: seq<BatchOp>) | Corruption

  lemma OpRoundTrip(op: BatchOp, rest: Data)
    requires OpOk(op)
    ensures (OpBytes(op) + rest)[0] == if op.kind.Put? then 1 else 0
    ensures op.kind.Deletion? ==> DecodePrefixed((OpBytes(op) + rest)[1..]) == Some((op.key, rest))
    ensures op.kind.Put? ==>
      && DecodePrefixed((OpBytes(op) + rest)[1..]) == Some((op.key, PrefixedBytes(op.value) + rest))
      && DecodePrefixed(PrefixedBytes(op.value) + rest) == Some((op.value, rest))
  {
    match op.kind
    case Deletion =>
      assert (OpBytes(op) + rest)[1..] == PrefixedBytes(op.key) + rest;
      PrefixedRoundTrip(op.key, rest);
    case Put =>
      assert (OpBytes(op) + rest)[1..] == PrefixedBytes(op.key) + (PrefixedBytes(op.value) + rest);
      PrefixedRoundTrip(op.key, PrefixedBytes(op.value) + rest);
      PrefixedRoundTrip(op.value, rest);
  }

  lemma OpsOk(b: Batch)
    requires BatchOk(b)
    ensures forall op :: op in b.ops ==> OpOk(op)
  {
  }

  lemma DecodePrefixedShrinks(input: Data)
    ensures DecodePrefixed(input).Some? ==> |DecodePrefixed(input).value.1| <= |input|
  {
    VarintShrinks(input, 5);
  }

  /** One record of a batch: tag, key and, for a put, value. */
  method ParseOp(input: Data, ghost op: BatchOp, ghost rest: Data) returns (r: Option<(BatchOp, Data)>)
    requires input != []
    ensures r.Some? ==> |r.value.1| < |input|
    ensures OpOk(op) && input == OpBytes(op) + rest ==> r == Some((op, rest))
  {
    hide DecodePrefixed;
    if OpOk(op) && input == OpBytes(op) + rest {
      OpRoundTrip(op, rest);
    }
    var tag := input[0];
    DecodePrefixedShrinks(input[1..]);
    var key := DecodePrefixed(input[1..]);
    if tag > 1 || key.None? {
      return None;
    }
    if tag == 0 {
      return Some((BatchOp(Deletion, key.value.0, []), key.value.1));
    }
    DecodePrefixedShrinks(key.value.1);
    var value := DecodePrefixed(key.value.1);
    if value.None? {
      return None;
    }
    return Some((BatchOp(Put, key.value.0, value.value.0), value.value.1));
  }

  /** WriteBatch::Iterate with MemTableInserter: parses the records of a batch; a batch
      as written hands over its operations in order. */
  method Iterate(rep: Data, ghost b: Batch) returns (r: Iteration)
    ensures BatchOk(b) && rep == BatchBytes(b) ==> r == Done(b.ops)
  {
    hide BatchOk, BatchBytes, OpBytes, FixedBytes, OpOk, DecodeFixed;
    if |rep| < BATCH_HEADER {
      return Corruption;
    }
    ghost var known := BatchOk(b) && rep == BatchBytes(b);
    if known {
      BatchHeader(b);
      OpsOk(b);
    }
    var input := rep[BATCH_HEADER..];
    var ops: seq<BatchOp> := [];
    while input != []
      invariant known ==> |ops| <= |b.ops| && ops == b.ops[..|ops|] && input == OpsBytes(b.ops[|ops|..])
      decreases |input|
    {
      ghost var op, rest := BatchOp(Deletion, [], []), [];
      if known {
        var left := b.ops[|ops|..];
        op, rest := left[0], OpsBytes(left[1..]);
        assert left[1..] == b.ops[|ops| + 1..];
      }
      var next := ParseOp(input, op, rest);
      if next.None? {
        return Corruption;
      }
      ops := ops + [next.value.0];
      input := next.value.1;
    }
    if |ops| != DecodeFixed(rep[8..BATCH_HEADER]) {
      return Corruption;
    }
    return Done(ops);
  }

  // ---------- recovery ----------

  ghost function Logged(bs: seq<Batch>): seq<Data> {
    seq(|bs|, i requires 0 <= i < |bs| => BatchBytes(bs[i]))
  }

  function Insertions(b: Batch): seq<Insertion> {
    seq(|b.ops|, i requires 0 <= i < |b.ops| => Insertion(b.sequence + i, b.ops[i]))
  }

  /** All memtable insertions of a run of batches, in commit order. */
  function AllInsertions(bs: seq<Batch>): seq<Insertion> {
    if bs == [] then [] else AllInsertions(bs[..|bs| - 1]) + Insertions(bs[|bs| - 1])
  }

  /** Every batch is numbered right behind the one before. */
  ghost predicate Consecutive(bs: seq<Batch>) {
    forall i :: 0 < i < |bs| ==> bs[i].sequence == bs[i - 1].sequence + |bs[i - 1].ops|
  }

  /** The number of the last operation, in 64 bits: a batch without operations counts as the number
      before its own. */
  function LastSequence(sequence: nat, count: nat): nat {
    (sequence + count + LIMIT64 - 1) % LIMIT64
  }

  function MaxSequence(bs: seq<Batch>): nat {
    if bs == [] then 0
    else
      var before, last := MaxSequence(bs[..|bs| - 1]), LastSequence(bs[|bs| - 1].sequence, |bs[|bs| - 1].ops|);
      if last > before then last else before
  }

  /** How many operations come before batch i. */
  function OpsBefore(bs: seq<Batch>, i: nat): nat
    requires i <= |bs|
  {
    if i == 0 then 0 else OpsBefore(bs, i - 1) + |bs[i - 1].ops|
  }

  /** From place at on, mem holds the operations of b in their order, under b's own numbers. */
  ghost predicate InsertedAt(mem: seq<Insertion>, at: nat, b: Batch) {
    && at + |b.ops| <= |mem|
    && forall j: nat :: j < |b.ops| ==> mem[at + j] == Insertion(b.sequence + j, b.ops[j])
  }

  /** mem holds the operations of the first k batches, batch after batch, and nothing else. */
  ghost predicate InsertedInOrder(mem: seq<Insertion>, bs: seq<Batch>, k: nat) {
    && k <= |bs| && |mem| == OpsBefore(bs, k)
    && forall i: nat :: i < k ==> InsertedAt(mem, OpsBefore(bs, i), bs[i])
  }

  lemma {:induction false} OpsBeforeGrows(bs: seq<Batch>, i: nat, k: nat)
    requires i <= k <= |bs|
    ensures OpsBefore(bs, i) <= OpsBefore(bs, k) && (i < k ==> OpsBefore(bs, i) + |bs[i].ops| <= OpsBefore(bs, k))
  {
    if i < k {
      OpsBeforeGrows(bs, i, k - 1);
    }
  }

  lemma InsertedAtAppend(mem: seq<Insertion>, more: seq<Insertion>, at: nat, b: Batch)
    requires InsertedAt(mem, at, b)
    ensures InsertedAt(mem + more, at, b)
  {
  }

  lemma InsertedLast(mem: seq<Insertion>, b: Batch)
    ensures InsertedAt(mem + Insertions(b), |mem|, b) && |Insertions(b)| == |b.ops|
  {
  }

  lemma AllInsertionsSnoc(bs: seq<Batch>, k: nat)
    requires 0 < k <= |bs|
    ensures AllInsertions(bs[..k]) == AllInsertions(bs[..k - 1]) + Insertions(bs[k - 1])
    ensures OpsBefore(bs, k) == OpsBefore(bs, k - 1) + |bs[k - 1].ops|
  {
    assert bs[..k][..k - 1] == bs[..k - 1];
  }

  lemma {:induction false} InsertionsAreInOrder(bs: seq<Batch>, k: nat)
    requires k <= |bs|
    ensures InsertedInOrder(AllInsertions(bs[..k]), bs, k)
  {
    if k > 0 {
      InsertionsAreInOrder(bs, k - 1);
      var before, b := AllInsertions(bs[..k - 1]), bs[k - 1];
      AllInsertionsSnoc(bs, k);
      InsertedLast(before, b);
      hide AllInsertions, Insertions, InsertedAt, OpsBefore;
      forall i: nat | i < k ensures InsertedAt(before + Insertions(b), OpsBefore(bs, i), bs[i]) {
        if i < k - 1 {
          InsertedAtAppend(before, Insertions(b), OpsBefore(bs, i), bs[i]);
        }
      }
    }
  }

  /** DBImpl::RecoverLogFile on a log that was cut anywhere. The insertions, in order, are
      those of the batches that lie wholly before the cut: no batch is recovered in part,
      and nothing is reported. */
  method RecoverLogFile(F: Format, file: Data, ghost bs: seq<Batch>)
      returns (mem: seq<Insertion>, maxSequence: nat, ok: bool, reports: nat)
    requires FormatOk(F)
    ensures (forall b :: b in bs ==> BatchOk(b)) && IsPrefix(file, Encode(F, 0, Logged(bs))) ==>
      var survivors := bs[..Whole(F, 0, Logged(bs), |file|)];
      && ok && reports == 0 && mem == AllInsertions(survivors) && maxSequence == MaxSequence(survivors)
      && InsertedInOrder(mem, bs, |survivors|)
  {
    hide Encode, Whole, BatchOk, BatchBytes, IsPrefix, DecodeFixed;
    ghost var known := (forall b :: b in bs ==> BatchOk(b)) && IsPrefix(file, Encode(F, 0, Logged(bs)));
    var records;
    records, reports := ReadLog(F, file, Logged(bs));
    mem, maxSequence, ok := [], 0, true;
    for i := 0 to |records|
      invariant known ==> reports == 0 && ok && records == Logged(bs)[..|records|]
      invariant known ==> mem == AllInsertions(bs[..i]) && maxSequence == MaxSequence(bs[..i])
    {
      ghost var b := if known then bs[i] else Batch(0, []);
      if known {
        assert records[i] == BatchBytes(b);
        BatchHeader(b);
        assert bs[..i + 1][..i] == bs[..i];
      }
      if |records[i]| < BATCH_HEADER {
        reports := reports + 1;
        continue;
      }
      var r := Iterate(records[i], b);
      if r.Corruption? {
        ok := false;
        return;
      }
      var batch := Batch(DecodeFixed(records[i][..8]), r.ops);
      mem := mem + Insertions(batch);
      var lastSeq := LastSequence(batch.sequence, |r.ops|);
      if lastSeq > maxSequence {
        maxSequence := lastSeq;
      }
    }
    if known {
      InsertionsAreInOrder(bs, |records|);
    }
  }

  /** Consecutively numbered batches give the memtable one uninterrupted run of sequence
      numbers, each used once: that of a prefix of the committed history. */
  lemma {:induction false} InsertionsAreHistory(bs: seq<Batch>, k: nat)
    requires Consecutive(bs) && k <= |bs|
    ensures |AllInsertions(bs[..k])| == if k == 0 then 0 else bs[k - 1].sequence + |bs[k - 1].ops| - bs[0].sequence
    ensures forall i :: 0 <= i < |AllInsertions(bs[..k])| ==> AllInsertions(bs[..k])[i].sn == bs[0].sequence + i
    ensures AllInsertions(bs[..k]) <= AllInsertions(bs) && InsertedInOrder(AllInsertions(bs[..k]), bs, k)
    decreases |bs| + k
  {
    InsertionsAreInOrder(bs, k);
    InsertionsGrow(bs, k);
    if k == 0 {
      assert AllInsertions(bs[..0]) == [];
    } else {
      InsertionsAreHistory(bs, k - 1);
      AllInsertionsSnoc(bs, k);
      hide InsertedInOrder, AllInsertions, OpsBefore;
      NumbersGoOn(AllInsertions(bs[..k - 1]), bs[k - 1], bs[0].sequence);
    }
  }

  lemma NumbersGoOn(before: seq<Insertion>, b: Batch, first: nat)
    requires forall i :: 0 <= i < |before| ==> before[i].sn == first + i
    requires b.sequence == first + |before|
    ensures forall i :: 0 <= i < |before + Insertions(b)| ==> (before + Insertions(b))[i].sn == first + i
  {
  }

  lemma {:induction false} InsertionsGrow(bs: seq<Batch>, k: nat)
    requires k <= |bs|
    ensures AllInsertions(bs[..k]) <= AllInsertions(bs)
    decreases |bs| - k
  {
    if k == |bs| {
      assert bs[..k] == bs;
    } else {
      InsertionsGrow(bs, k + 1);
      assert bs[..k + 1][..k] == bs[..k];
    }
  }

  // ---------- what was recovered is what was committed ----------

  function AsOp(S: Spelling, op: BatchOp): Op {
    Op(Ranked(S, op.key), op.kind, op.value)
  }

  function AsOps(S: Spelling, ops: seq<BatchOp>): (r: seq<Op>)
    ensures |r| == |ops|
  {
    seq(|ops|, i requires 0 <= i < |ops| => AsOp(S, ops[i]))
  }

  /** All operations that were committed, batch after batch. */
  function Committed(S: Spelling, bs: seq<Batch>): seq<Op> {
    if bs == [] then [] else Committed(S, bs[..|bs| - 1]) + AsOps(S, bs[|bs| - 1].ops)
  }

  function AsEntry(S: Spelling, x: Insertion): Entry {
    Entry(Ranked(S, x.op.key), x.sn, x.op.kind, x.op.value)
  }

  /** What the memtable holds after the insertions. */
  function AsEntries(S: Spelling, mem: seq<Insertion>): (r: seq<Entry>)
    ensures |r| == |mem|
  {
    seq(|mem|, i requires 0 <= i < |mem| => AsEntry(S, mem[i]))
  }

  ghost predicate FromOne(bs: seq<Batch>) {
    Consecutive(bs) && (bs != [] ==> bs[0].sequence == 1)
  }

  lemma {:induction false} SequenceIsPlace(bs: seq<Batch>, i: nat)
    requires FromOne(bs) && i < |bs|
    ensures bs[i].sequence == OpsBefore(bs, i) + 1
  {
    if i > 0 {
      SequenceIsPlace(bs, i - 1);
    }
  }

  lemma {:induction false} CommittedGrows(S: Spelling, bs: seq<Batch>, k: nat)
    requires k <= |bs|
    ensures Committed(S, bs[..k]) <= Committed(S, bs) && |Committed(S, bs[..k])| == OpsBefore(bs, k)
    decreases |bs| - k, k
  {
    if k > 0 {
      CommittedSize(S, bs, k);
    }
    if k == |bs| {
      assert bs[..k] == bs;
    } else {
      CommittedGrows(S, bs, k + 1);
      assert bs[..k + 1][..k] == bs[..k];
    }
  }

  lemma {:induction false} CommittedSize(S: Spelling, bs: seq<Batch>, k: nat)
    requires k <= |bs|
    ensures |Committed(S, bs[..k])| == OpsBefore(bs, k)
  {
    if k > 0 {
      CommittedSize(S, bs, k - 1);
      assert bs[..k][..k - 1] == bs[..k - 1];
    }
  }

  lemma CommittedSnoc(S: Spelling, bs: seq<Batch>, k: nat)
    requires 0 < k <= |bs|
    ensures Committed(S, bs[..k]) == Committed(S, bs[..k - 1]) + AsOps(S, bs[k - 1].ops)
  {
    assert bs[..k][..k - 1] == bs[..k - 1];
  }

  lemma BatchStands(mem: seq<Insertion>, bs: seq<Batch>, k: nat, i: nat)
    requires InsertedInOrder(mem, bs, k) && i < k
    ensures OpsBefore(bs, i + 1) == OpsBefore(bs, i) + |bs[i].ops| <= |mem|
    ensures InsertedAt(mem, OpsBefore(bs, i), bs[i])
  {
    assert InsertedAt(mem, OpsBefore(bs, i), bs[i]);
  }

  /** One batch more, numbered from its place in the history. */
  lemma BatchExtends(S: Spelling, mem: seq<Insertion>, n: nat, b: Batch, before: seq<Op>)
    requires InsertedAt(mem, n, b) && |before| == n && b.sequence == n + 1
    requires AsEntries(S, mem[..n]) == NumberOps(before, 1)
    ensures AsEntries(S, mem[..n + |b.ops|]) == NumberOps(before + AsOps(S, b.ops), 1)
  {
    var m := n + |b.ops|;
    forall x: nat | x < m ensures AsEntries(S, mem[..m])[x] == NumberOps(before + AsOps(S, b.ops), 1)[x] {
      if x < n {
        assert AsEntries(S, mem[..n])[x] == NumberOps(before, 1)[x];
      } else {
        assert mem[n + (x - n)] == Insertion(b.sequence + (x - n), b.ops[x - n]);
      }
    }
  }

  /** Insertions in order, batches numbered one after the other from 1: the entries are the first ones
      of the history of all committed operations. */
  lemma {:induction false} RecoveredIsPrefix(S: Spelling, bs: seq<Batch>, k: nat, mem: seq<Insertion>, i: nat)
    requires FromOne(bs) && InsertedInOrder(mem, bs, k) && i <= k
    ensures OpsBefore(bs, i) <= |mem| && AsEntries(S, mem[..OpsBefore(bs, i)]) == NumberOps(Committed(S, bs[..i]), 1)
  {
    if i == 0 {
      assert bs[..0] == [];
    } else {
      RecoveredIsPrefix(S, bs, k, mem, i - 1);
      SequenceIsPlace(bs, i - 1);
      CommittedSize(S, bs, i - 1);
      CommittedSnoc(S, bs, i);
      BatchStands(mem, bs, k, i - 1);
      hide *;
      BatchExtends(S, mem, OpsBefore(bs, i - 1), bs[i - 1], Committed(S, bs[..i - 1]));
    }
  }

  /** After a crash that left the first k batches, every read of what was recovered is a read of the
      plain history of those batches. */
  lemma RecoveredReadsHistory(S: Spelling, bs: seq<Batch>, k: nat, mem: seq<Insertion>, user: UserKey)
    requires FromOne(bs) && InsertedInOrder(mem, bs, k)
    ensures var committed := NumberOps(Committed(S, bs), 1);
            && |mem| <= |committed| && AsEntries(S, mem) == committed[..|mem|]
            && Answer(Entries(AsEntries(S, mem)), user, |mem|) == Lookup(Replay(committed[..|mem|]), user)
  {
    RecoveredIsPrefix(S, bs, k, mem, k);
    CommittedGrows(S, bs, k);
    assert |mem| == OpsBefore(bs, k) && mem[..|mem|] == mem;
    hide Committed, InsertedInOrder, Consecutive, OpsBefore;
    var h := AsEntries(S, mem);
    assert h == NumberOps(Committed(S, bs), 1)[..|mem|];
    assert Numbered(h) && h[..|h|] == h;
    AnswerIsReplay(h, user, |mem|);
  }

  /** The greatest sequence number recovered is the number of operations recovered, so the next write
      continues the history without a gap. */
  lemma {:induction false} MaxIsCount(bs: seq<Batch>, k: nat)
    requires FromOne(bs) && k <= |bs| && OpsBefore(bs, k) < LIMIT64
    ensures MaxSequence(bs[..k]) == OpsBefore(bs, k)
  {
    if k > 0 {
      OpsBeforeGrows(bs, k - 1, k);
      MaxIsCount(bs, k - 1);
      SequenceIsPlace(bs, k - 1);
      assert bs[..k][..k - 1] == bs[..k - 1];
    }
  }

  /** Without empty batches it is the greatest number of any insertion, 0 if there are none. */
  lemma {:induction false} MaxIsGreatest(bs: seq<Batch>)
    requires forall b :: b in bs ==> b.ops != [] && b.sequence + |b.ops| <= LIMIT64
    ensures forall x :: x in AllInsertions(bs) ==> x.sn <= MaxSequence(bs)
    ensures if AllInsertions(bs) == [] then MaxSequence(bs) == 0
            else exists x :: x in AllInsertions(bs) && x.sn == MaxSequence(bs)
  {
    if bs != [] {
      var front, b := bs[..|bs| - 1], bs[|bs| - 1];
      MaxIsGreatest(front);
      var last := Insertions(b)[|b.ops| - 1];
      assert last in Insertions(b) && last.sn == LastSequence(b.sequence, |b.ops|);
      assert last in AllInsertions(bs);
    }
  }

  /** An empty batch counts as the number before its own, though nothing is inserted. */
  lemma EmptyBatchCounts()
    ensures AllInsertions([Batch(5, [])]) == [] && MaxSequence([Batch(5, [])]) == 4
  {
    assert [Batch(5, [])][..0] == [];
    assert AllInsertions([]) == [] && MaxSequence([]) == 0;
  }
}
