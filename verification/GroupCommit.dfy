/** DBImpl::Write: concurrent writers queue up, the one at the front writes for a group,
    and readers run at any point in between. */
module GroupCommit {
  import opened InternalKeys

  /** A queued writer; no batch is the compaction request of CompactRange. size is
      WriteBatchInternal::ByteSize. */
  datatype Writer = Writer(batch: Option<seq<Op>>, size: nat, sync: bool)

  function OpsOf(w: Writer): seq<Op> {
    if w.batch.Some? then w.batch.value else []
  }

  /** All operations of a run of writers, in queue order. */
  function AllOps(ws: seq<Writer>): seq<Op> {
    if ws == [] then [] else AllOps(ws[..|ws| - 1]) + OpsOf(ws[|ws| - 1])
  }

  lemma {:induction false} AllOpsAppend(a: seq<Writer>, b: seq<Writer>)
    ensures AllOps(a + b) == AllOps(a) + AllOps(b)
  {
    if b == [] {
      assert a + b == a;
    } else {
      assert (a + b)[..|a + b| - 1] == a + b[..|b| - 1];
      AllOpsAppend(a, b[..|b| - 1]);
    }
  }

  const SMALL: nat := 0x2_0000
  const MAX_GROUP: nat := 0x10_0000

  function TotalSize(ws: seq<Writer>): nat {
    if ws == [] then 0
    else TotalSize(ws[..|ws| - 1]) + if ws[|ws| - 1].batch.Some? then ws[|ws| - 1].size else 0
  }

  function GroupLimit(first: Writer): nat {
    if first.size <= SMALL then first.size + SMALL else MAX_GROUP
  }

  /** The group led by the first writer, its n first ones: no writer that asked for a sync
      rides along with one that did not, every prefix that added a batch stayed within the
      limit, and the group ends only where the next writer would break one of the two. */
  ghost predicate IsGroup(writers: seq<Writer>, n: nat)
    requires writers != []
  {
    && 1 <= n <= |writers|
    && (forall i: nat :: 0 < i < n ==> MayJoin(writers, i))
    && (n < |writers| ==> !MayJoin(writers, n))
  }

  predicate MayJoin(writers: seq<Writer>, i: nat)
    requires 0 < i < |writers|
  {
    && (writers[i].sync ==> writers[0].sync)
    && (writers[i].batch.Some? ==> TotalSize(writers[..i + 1]) <= GroupLimit(writers[0]))
  }

  lemma PrefixGrows(ws: seq<Writer>, n: nat)
    requires n < |ws|
    ensures AllOps(ws[..n + 1]) == AllOps(ws[..n]) + OpsOf(ws[n])
    ensures TotalSize(ws[..n + 1]) == TotalSize(ws[..n]) + (if ws[n].batch.Some? then ws[n].size else 0)
  {
    assert ws[..n + 1][..n] == ws[..n];
  }

  /** BuildBatchGroup: the operations of the group, in order. */
  method BuildBatchGroup(writers: seq<Writer>) returns (result: seq<Op>, n: nat)
    requires writers != [] && writers[0].batch.Some?
    ensures IsGroup(writers, n) && result == AllOps(writers[..n])
    ensures !writers[0].sync ==> forall i :: 0 <= i < n ==> !writers[i].sync
    ensures n < |writers| ==>
      || (writers[n].sync && !writers[0].sync)
      || TotalSize(writers[..n + 1]) > (if writers[0].size <= 0x2_0000 then writers[0].size + 0x2_0000 else 0x10_0000)
  {
    var first := writers[0];
    result := first.batch.value;
    var size, maxSize := first.size, GroupLimit(first);
    n := 1;
    PrefixGrows(writers, 0);
    assert AllOps(writers[..0]) == [];
    hide AllOps, TotalSize, GroupLimit;
    while n < |writers|
      invariant 1 <= n <= |writers| && result == AllOps(writers[..n])
      invariant size == TotalSize(writers[..n])
      invariant forall i: nat :: 0 < i < n ==> MayJoin(writers, i)
    {
      var w := writers[n];
      PrefixGrows(writers, n);
      if w.sync && !first.sync {
        break;
      }
      if w.batch.Some? {
        if size + w.size > maxSize {
          break;
        }
        size := size + w.size;
        result := result + w.batch.value;
      }
      assert MayJoin(writers, n);
      n := n + 1;
    }
    forall i: nat | 0 < i < n && !first.sync ensures !writers[i].sync {
      assert MayJoin(writers, i);
    }
  }

  /** A small write does not wait for more than 128 KB of others, and no write for a group of more
      than 1 MB. */
  lemma {:induction false} GroupIsBounded(writers: seq<Writer>, n: nat, k: nat)
    requires writers != [] && writers[0].batch.Some? && IsGroup(writers, n) && 1 <= k <= n
    ensures writers[0].size <= 0x2_0000 ==> TotalSize(writers[..k]) <= writers[0].size + 0x2_0000
    ensures TotalSize(writers[..k]) <= if writers[0].size <= 0x10_0000 then 0x10_0000 else writers[0].size
  {
    PrefixGrows(writers, k - 1);
    if k == 1 {
      assert writers[..0] == [];
    } else {
      GroupIsBounded(writers, n, k - 1);
      assert MayJoin(writers, k - 1);
    }
  }

  // ---------- the protocol ----------

  /** What the writer at the front is doing while the mutex is released. */
  datatype Phase =
    | Idle
    | Writing(group: nat)
    | Inserting(group: nat, inserted: nat)

  /** arrivals are all writers ever queued, in order; the first retired of them are done
      and the rest are the queue. The first synced operations of the log are on the disk. */
  datatype State = State(
    arrivals: seq<Writer>,
    retired: nat,
    phase: Phase,
    log: seq<Op>,
    mem: seq<Entry>,
    lastSequence: nat,
    synced: nat)

  const START := State([], 0, Idle, [], [], 0, 0)

  function Queue(st: State): seq<Writer>
    requires st.retired <= |st.arrivals|
  {
    st.arrivals[st.retired..]
  }

  function Group(st: State): seq<Op>
    requires !st.phase.Idle? && st.retired + st.phase.group <= |st.arrivals|
  {
    AllOps(st.arrivals[st.retired..st.retired + st.phase.group])
  }

  /** A write that is to be on the disk when it is done. */
  predicate AsksSync(w: Writer) {
    w.sync && w.batch.Some?
  }

  /** The group the front writer forms: just itself when it has no batch. */
  ghost predicate Leads(queue: seq<Writer>, n: nat) {
    queue != [] && if queue[0].batch.None? then n == 1 else IsGroup(queue, n)
  }

  datatype Label =
    | Enqueue(w: Writer)
    | Lead(group: nat)
    | AppendToLog
    | InsertOne
    | Publish

  ghost predicate Enabled(st: State, l: Label) {
    && st.retired <= |st.arrivals|
    && (!st.phase.Idle? ==> 1 <= st.phase.group && st.retired + st.phase.group <= |st.arrivals|)
    && match l
       case Enqueue(w) => true
       // only the front of the queue ever gets here, and only while no other writer does
       case Lead(n) => st.phase.Idle? && Leads(Queue(st), n)
       case AppendToLog => st.phase.Writing?
       case InsertOne => st.phase.Inserting? && st.phase.inserted < |Group(st)|
       case Publish => st.phase.Inserting? && st.phase.inserted == |Group(st)|
  }

  ghost function Apply(st: State, l: Label): State
    requires Enabled(st, l)
  {
    match l
    case Enqueue(w) => st.(arrivals := st.arrivals + [w])
    case Lead(n) => st.(phase := Writing(n))
    case AppendToLog =>
      st.(log := st.log + Group(st), phase := Inserting(st.phase.group, 0),
          synced := if AsksSync(st.arrivals[st.retired]) then |st.log + Group(st)| else st.synced)
    case InsertOne =>
      var k := st.phase.inserted;
      var op := Group(st)[k];
      st.(mem := st.mem + [Entry(op.user, st.lastSequence + 1 + k, op.kind, op.value)],
          phase := Inserting(st.phase.group, k + 1))
    case Publish =>
      st.(lastSequence := st.lastSequence + |Group(st)|, retired := st.retired + st.phase.group, phase := Idle)
  }

  ghost predicate Inv(st: State) {
    && st.retired <= |st.arrivals|
    && (!st.phase.Idle? ==> 1 <= st.phase.group && st.retired + st.phase.group <= |st.arrivals|)
    && st.lastSequence == |AllOps(st.arrivals[..st.retired])|
    && st.log == AllOps(st.arrivals[..st.retired]) + (if st.phase.Inserting? then Group(st) else [])
    && (st.phase.Inserting? ==> st.phase.inserted <= |Group(st)|)
    && st.mem == NumberOps(AllOps(st.arrivals[..st.retired])
                            + (if st.phase.Inserting? then Group(st)[..st.phase.inserted] else []), 1)
  }

  lemma GroupJoins(st: State)
    requires !st.phase.Idle? && st.retired + st.phase.group <= |st.arrivals|
    ensures AllOps(st.arrivals[..st.retired + st.phase.group]) == AllOps(st.arrivals[..st.retired]) + Group(st)
  {
    AllOpsAppend(st.arrivals[..st.retired], st.arrivals[st.retired..st.retired + st.phase.group]);
    assert st.arrivals[..st.retired + st.phase.group]
        == st.arrivals[..st.retired] + st.arrivals[st.retired..st.retired + st.phase.group];
  }

  lemma EnqueueKeepsInv(st: State, w: Writer)
    requires Inv(st)
    ensures Inv(Apply(st, Enqueue(w)))
  {
    hide AllOps, NumberOps;
    var st' := Apply(st, Enqueue(w));
    assert st'.arrivals[..st.retired] == st.arrivals[..st.retired];
    if !st.phase.Idle? {
      assert st'.arrivals[st.retired..st.retired + st.phase.group] == st.arrivals[st.retired..st.retired + st.phase.group];
    }
  }

  lemma AppendToLogKeepsInv(st: State)
    requires Inv(st) && Enabled(st, AppendToLog)
    ensures Inv(Apply(st, AppendToLog))
  {
    hide AllOps, NumberOps;
    assert Group(st)[..0] == [];
    assert AllOps(st.arrivals[..st.retired]) + [] == AllOps(st.arrivals[..st.retired]);
  }

  lemma InsertOneKeepsInv(st: State)
    requires Inv(st) && Enabled(st, InsertOne)
    ensures Inv(Apply(st, InsertOne))
  {
    hide AllOps;
    var k, before := st.phase.inserted, AllOps(st.arrivals[..st.retired]);
    assert before + Group(st)[..k + 1] == (before + Group(st)[..k]) + [Group(st)[k]];
  }

  lemma PublishKeepsInv(st: State)
    requires Inv(st) && Enabled(st, Publish)
    ensures Inv(Apply(st, Publish))
  {
    hide AllOps, NumberOps;
    GroupJoins(st);
    assert Group(st)[..|Group(st)|] == Group(st);
    var done := st.retired + st.phase.group;
    assert AllOps(st.arrivals[..done]) + [] == AllOps(st.arrivals[..done]);
  }

  lemma StepKeepsInv(st: State, l: Label)
    requires Inv(st) && Enabled(st, l)
    ensures Inv(Apply(st, l))
  {
    hide AllOps, NumberOps, Group;
    match l
    case Enqueue(w) => EnqueueKeepsInv(st, w);
    case Lead(n) =>
    case AppendToLog => AppendToLogKeepsInv(st);
    case InsertOne => InsertOneKeepsInv(st);
    case Publish => PublishKeepsInv(st);
  }

  ghost predicate Run(st: State, ls: seq<Label>)
    decreases |ls|
  {
    ls == [] || (Enabled(st, ls[0]) && Run(Apply(st, ls[0]), ls[1..]))
  }

  ghost function After(st: State, ls: seq<Label>): State
    requires Run(st, ls)
    decreases |ls|
  {
    if ls == [] then st else After(Apply(st, ls[0]), ls[1..])
  }

  lemma {:induction false} RunKeepsInv(st: State, ls: seq<Label>)
    requires Run(st, ls) && Inv(st)
    ensures Inv(After(st, ls))
    decreases |ls|
  {
    if ls != [] {
      StepKeepsInv(st, ls[0]);
      RunKeepsInv(Apply(st, ls[0]), ls[1..]);
    }
  }

  // ---------- what is on the disk ----------

  /** The writers whose operations are in the log. */
  function LoggedWriters(st: State): nat {
    st.retired + if st.phase.Inserting? then st.phase.group else 0
  }

  ghost predicate SyncInv(st: State) {
    && st.synced <= |st.log| && LoggedWriters(st) <= |st.arrivals|
    && (forall i: nat :: i < LoggedWriters(st) && AsksSync(st.arrivals[i]) ==> |AllOps(st.arrivals[..i + 1])| <= st.synced)
    && (!st.phase.Idle? ==>
          && 1 <= st.phase.group && st.retired + st.phase.group <= |st.arrivals|
          && forall i: nat :: st.retired <= i < st.retired + st.phase.group && AsksSync(st.arrivals[i]) ==>
               AsksSync(st.arrivals[st.retired]))
    && ((forall i :: 0 <= i < |st.arrivals| ==> !AsksSync(st.arrivals[i])) ==> st.synced == 0)
  }

  lemma EnqueueKeepsSync(st: State, w: Writer)
    requires SyncInv(st) && Enabled(st, Enqueue(w))
    ensures SyncInv(Apply(st, Enqueue(w)))
  {
    hide AllOps;
    var after := Apply(st, Enqueue(w));
    assert forall n: nat :: n <= |st.arrivals| ==> after.arrivals[..n] == st.arrivals[..n];
    if forall i :: 0 <= i < |after.arrivals| ==> !AsksSync(after.arrivals[i]) {
      forall i | 0 <= i < |st.arrivals| ensures !AsksSync(st.arrivals[i]) {
        assert after.arrivals[i] == st.arrivals[i];
      }
    }
  }

  /** No writer that asked for a sync is in a group whose leader did not. */
  lemma LeadKeepsSync(st: State, n: nat)
    requires SyncInv(st) && Enabled(st, Lead(n))
    ensures SyncInv(Apply(st, Lead(n)))
  {
    hide AllOps, TotalSize;
    var queue := Queue(st);
    forall i: nat | st.retired <= i < st.retired + n && AsksSync(st.arrivals[i]) ensures AsksSync(st.arrivals[st.retired]) {
      assert queue[i - st.retired] == st.arrivals[i];
      if i > st.retired {
        assert MayJoin(queue, i - st.retired);
      }
    }
  }

  lemma AppendToLogKeepsSync(st: State)
    requires Inv(st) && SyncInv(st) && Enabled(st, AppendToLog)
    ensures SyncInv(Apply(st, AppendToLog))
  {
    hide AllOps, NumberOps;
    var after := Apply(st, AppendToLog);
    forall i: nat | i < LoggedWriters(after) && AsksSync(after.arrivals[i])
      ensures |AllOps(after.arrivals[..i + 1])| <= after.synced
    {
      if i >= st.retired {
        GroupJoins(st);
        AllOpsGrow(st.arrivals, i + 1, LoggedWriters(after));
      }
    }
    assert after.synced == 0 || after.synced == st.synced || AsksSync(after.arrivals[st.retired]);
  }

  lemma AllOpsGrow(ws: seq<Writer>, i: nat, n: nat)
    requires i <= n <= |ws|
    ensures |AllOps(ws[..i])| <= |AllOps(ws[..n])|
  {
    AllOpsAppend(ws[..i], ws[i..n]);
    assert ws[..n] == ws[..i] + ws[i..n];
  }

  lemma StepKeepsSync(st: State, l: Label)
    requires Inv(st) && SyncInv(st) && Enabled(st, l)
    ensures SyncInv(Apply(st, l))
  {
    hide AllOps, NumberOps, Group, Inv;
    match l
    case Enqueue(w) => EnqueueKeepsSync(st, w);
    case Lead(n) => LeadKeepsSync(st, n);
    case AppendToLog => AppendToLogKeepsSync(st);
    case InsertOne =>
    case Publish =>
  }

  lemma {:induction false} RunKeepsSync(st: State, ls: seq<Label>)
    requires Run(st, ls) && Inv(st) && SyncInv(st)
    ensures SyncInv(After(st, ls))
    decreases |ls|
  {
    if ls != [] {
      StepKeepsInv(st, ls[0]);
      StepKeepsSync(st, ls[0]);
      RunKeepsSync(Apply(st, ls[0]), ls[1..]);
    }
  }

  /** In every interleaving, whatever a crash leaves of the log, as long as it is all that was synced:
      the operations of a writer that asked for a sync and is done are there, at their place; and
      nothing is ever synced unless some writer asks for it. */
  lemma SyncedIsDurable(ls: seq<Label>, i: nat, c: nat)
    requires Run(START, ls) && i < After(START, ls).retired <= |After(START, ls).arrivals|
    requires After(START, ls).synced <= c <= |After(START, ls).log|
    ensures var st := After(START, ls);
            && (AsksSync(st.arrivals[i]) ==>
                  && Offset(st, i) + |OpsOf(st.arrivals[i])| <= c
                  && st.log[..c][Offset(st, i)..Offset(st, i) + |OpsOf(st.arrivals[i])|] == OpsOf(st.arrivals[i]))
            && ((forall w :: w in st.arrivals ==> !AsksSync(w)) ==> st.synced == 0)
  {
    hide *;
    StartIsSynced();
    RunKeepsInv(START, ls);
    RunKeepsSync(START, ls);
    DoneIsDurable(After(START, ls), i, c);
  }

  lemma StartIsSynced()
    ensures Inv(START) && SyncInv(START)
  {
  }

  lemma DoneIsDurable(st: State, i: nat, c: nat)
    requires Inv(st) && SyncInv(st) && i < st.retired && st.synced <= c <= |st.log|
    ensures AsksSync(st.arrivals[i]) ==>
              && Offset(st, i) + |OpsOf(st.arrivals[i])| <= c
              && st.log[..c][Offset(st, i)..Offset(st, i) + |OpsOf(st.arrivals[i])|] == OpsOf(st.arrivals[i])
    ensures (forall w :: w in st.arrivals ==> !AsksSync(w)) ==> st.synced == 0
  {
    hide *;
    SyncFacts(st, i);
    if AsksSync(st.arrivals[i]) {
      var ops := OpsOf(st.arrivals[i]);
      forall j: nat | j < |ops| ensures Offset(st, i) + j < |st.log| && st.log[Offset(st, i) + j] == ops[j] {
        DoneIsReadable(st, i, j);
      }
      SliceOf(st.log, ops, Offset(st, i), c);
    }
  }

  lemma SyncFacts(st: State, i: nat)
    requires Inv(st) && SyncInv(st) && i < st.retired
    ensures st.retired <= |st.arrivals|
    ensures AsksSync(st.arrivals[i]) ==> Offset(st, i) + |OpsOf(st.arrivals[i])| <= st.synced
    ensures (forall w :: w in st.arrivals ==> !AsksSync(w)) ==> st.synced == 0
  {
    PrefixGrows(st.arrivals, i);
    hide AllOps, NumberOps;
  }

  lemma SliceOf(log: seq<Op>, ops: seq<Op>, at: nat, c: nat)
    requires at + |ops| <= c <= |log| && forall j: nat :: j < |ops| ==> log[at + j] == ops[j]
    ensures log[..c][at..at + |ops|] == ops
  {
  }

  /** What a reader that starts now finds: the entries up to the published sequence. */
  ghost predicate Readable(st: State, e: Entry) {
    e in st.mem && e.sn <= st.lastSequence
  }

  /** The sequence numbers before writer i's own. */
  function Offset(st: State, i: nat): nat
    requires i <= |st.arrivals|
  {
    |AllOps(st.arrivals[..i])|
  }

  lemma {:induction false} OpsStandAtOffset(ws: seq<Writer>, i: nat, j: nat, n: nat)
    requires i < n <= |ws| && j < |OpsOf(ws[i])|
    ensures |AllOps(ws[..i])| + j < |AllOps(ws[..n])|
    ensures AllOps(ws[..n])[|AllOps(ws[..i])| + j] == OpsOf(ws[i])[j]
    ensures |AllOps(ws[..i])| + |OpsOf(ws[i])| <= |AllOps(ws[..n])|
  {
    assert ws[..n][..n - 1] == ws[..n - 1];
    if i < n - 1 {
      OpsStandAtOffset(ws, i, j, n - 1);
    }
  }

  function NumberedOp(st: State, i: nat, j: nat): Entry
    requires i < |st.arrivals| && j < |OpsOf(st.arrivals[i])|
  {
    var op := OpsOf(st.arrivals[i])[j];
    Entry(op.user, Offset(st, i) + 1 + j, op.kind, op.value)
  }

  lemma DoneIsReadable(st: State, i: nat, j: nat)
    requires Inv(st) && i < st.retired && j < |OpsOf(st.arrivals[i])|
    ensures Readable(st, NumberedOp(st, i, j))
    ensures Offset(st, i) + j < |st.log| && st.log[Offset(st, i) + j] == OpsOf(st.arrivals[i])[j]
  {
    OpsStandAtOffset(st.arrivals, i, j, st.retired);
    hide AllOps, Group;
    assert st.mem[Offset(st, i) + j] == NumberedOp(st, i, j);
  }

  lemma WaitingIsBeyond(st: State, i: nat)
    requires Inv(st) && st.retired <= i < |st.arrivals|
    ensures st.lastSequence <= Offset(st, i)
  {
    hide NumberOps, AllOps;
    AllOpsAppend(st.arrivals[..st.retired], st.arrivals[st.retired..i]);
    assert st.arrivals[..i] == st.arrivals[..st.retired] + st.arrivals[st.retired..i];
  }

  /** In every interleaving: the operations of a writer that is done are in the log and
      readable, each under its own number in the writer's private, contiguous range; of
      any other writer nothing is readable. No reader sees part of a batch. */
  lemma BatchIsAllOrNothing(ls: seq<Label>, i: nat, j: nat)
    requires Run(START, ls) && i < |After(START, ls).arrivals| && j < |OpsOf(After(START, ls).arrivals[i])|
    ensures var st := After(START, ls);
            if i < st.retired
            then Readable(st, NumberedOp(st, i, j))
                 && Offset(st, i) + j < |st.log| && st.log[Offset(st, i) + j] == OpsOf(st.arrivals[i])[j]
            else !Readable(st, NumberedOp(st, i, j)) && st.lastSequence <= Offset(st, i)
  {
    RunKeepsInv(START, ls);
    hide AllOps, NumberOps;
    var st := After(START, ls);
    if i < st.retired {
      DoneIsReadable(st, i, j);
    } else {
      WaitingIsBeyond(st, i);
    }
  }

  /** Once the queue is empty, log and memtable hold every operation exactly once, in
      queue order, numbered without gaps. */
  lemma EverythingOnceInOrder(ls: seq<Label>)
    requires Run(START, ls)
    ensures var st := After(START, ls);
            st.retired == |st.arrivals| ==>
              st.log == AllOps(st.arrivals) && st.mem == NumberOps(AllOps(st.arrivals), 1) && st.lastSequence == |st.log|
  {
    RunKeepsInv(START, ls);
    var st := After(START, ls);
    assert st.retired == |st.arrivals| ==> st.arrivals[..st.retired] == st.arrivals;
  }

  /** What readers see is exactly the numbered operations of the writers that are done. */
  lemma ReadableIsPublished(ls: seq<Label>, e: Entry)
    requires Run(START, ls)
    ensures After(START, ls).retired <= |After(START, ls).arrivals|
    ensures Readable(After(START, ls), e)
       <==> e in NumberOps(AllOps(After(START, ls).arrivals[..After(START, ls).retired]), 1)
  {
    RunKeepsInv(START, ls);
    PublishedPrefix(After(START, ls), e);
  }

  lemma PublishedPrefix(st: State, e: Entry)
    requires Inv(st)
    ensures Readable(st, e) <==> e in NumberOps(AllOps(st.arrivals[..st.retired]), 1)
  {
    hide AllOps, Group;
    var published := NumberOps(AllOps(st.arrivals[..st.retired]), 1);
    assert published == st.mem[..st.lastSequence];
    assert forall k :: 0 <= k < |st.mem| ==> st.mem[k].sn == k + 1;
  }
}
