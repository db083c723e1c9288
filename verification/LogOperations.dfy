/** The concurrent side of kernel/log.c: begin_op, log_write, end_op and commit
    as steps of any number of processes, each step one critical section of
    log.lock or of the buffer cache. Processes, in an operation or not, hold
    buffers meanwhile. The budget is how many different blocks one operation
    logs; the limit is how many buffers are held at a time. */
module LogOperations {
  import opened Counting
  import opened LogDisk
  import opened BufferCache

  const MAXOPBLOCKS: nat := 10

  // ops are the operations in progress with the blocks each has logged;
  // waiting are the processes asleep in begin_op; held gives for each block
  // whose buffer is held its holder; done counts the disk writes of a commit,
  // and logbuf tells whether the commit holds a buffer of the log.
  datatype State = State(size: nat, block: seq<nat>, outstanding: int, committing: bool,
                         ops: map<nat, set<nat>>, waiting: set<nat>,
                         held: map<nat, nat>, done: nat, logbuf: bool)
  datatype Outcome = Next(s: State) | Panic
  datatype Event =
    | Begin(p: nat) | Write(p: nat, b: nat) | End(p: nat)
    | Read(p: nat, b: nat) | Release(b: nat)
    | CommitRead | CommitWrite | CommitDone

  function Init(size: nat): State {
    State(size, [], 0, false, map[], {}, map[], 0, false)
  }

  predicate MustWait(s: State) {
    s.committing || |s.block| + (s.outstanding + 1) * MAXOPBLOCKS > LOGSIZE
  }

  // install_trans unpins the blocks in order, after the writes of write_log
  // and of the header.
  function Unpinned(s: State): nat {
    if s.done <= |s.block| + 1 then 0 else if s.done <= 2 * |s.block| + 1 then s.done - |s.block| - 1 else |s.block|
  }

  // The blocks whose buffers cannot be recycled.
  function Taken(s: State): set<nat> {
    Elems(s.block[Unpinned(s)..]) + s.held.Keys
  }

  function Used(s: State): nat {
    |Taken(s)| + if s.logbuf then 1 else 0
  }

  predicate Enabled(s: State, e: Event, budget: nat, limit: nat) {
    match e
    case Begin(p) => p !in s.ops && p !in s.waiting
    case Write(p, b) => p in s.ops && b in s.held && s.held[b] == p && |s.ops[p] + {b}| <= budget
    case End(p) => p in s.ops && p !in s.held.Values
    case Read(p, b) => b !in s.held && |s.held| < limit
    case Release(b) => b in s.held
    case CommitRead => s.committing && !s.logbuf && s.block != [] && s.done < 2 * |s.block| + 2
    case CommitWrite => s.committing && s.logbuf
    case CommitDone => s.committing && !s.logbuf && (s.block == [] || s.done == 2 * |s.block| + 2)
  }

  function BeginOp(s: State, p: nat): State {
    if MustWait(s) then s.(waiting := s.waiting + {p})
    else s.(outstanding := s.outstanding + 1, ops := s.ops[p := {}])
  }

  function LogWrite(s: State, p: nat, b: nat): Outcome
    requires p in s.ops
  {
    if |s.block| >= LOGSIZE || |s.block| >= s.size - 1 then Panic
    else if s.outstanding < 1 then Panic
    else Next(s.(block := if b in s.block then s.block else s.block + [b], ops := s.ops[p := s.ops[p] + {b}]))
  }

  function EndOp(s: State, p: nat): Outcome {
    var s' := s.(outstanding := s.outstanding - 1, ops := s.ops - {p});
    if s.committing then Panic
    else if s'.outstanding == 0 then Next(s'.(committing := true))
    else Next(s'.(waiting := {}))
  }

  // bread. When all buffers are taken the blocks cached are the taken ones.
  function BreadBlock(s: State, p: nat, b: nat): Outcome {
    if b !in Taken(s) && Used(s) >= NBUF then Panic else Next(s.(held := s.held[b := p]))
  }

  // commit reads a block of the log.
  function ReadLog(s: State): Outcome {
    if Used(s) >= NBUF then Panic else Next(s.(logbuf := true))
  }

  function FinishCommit(s: State): State {
    s.(block := [], committing := false, waiting := {}, done := 0)
  }

  function Step(s: State, e: Event): Outcome {
    match e
    case Begin(p) => Next(BeginOp(s, p))
    case Write(p, b) => if p in s.ops then LogWrite(s, p, b) else Panic
    case End(p) => EndOp(s, p)
    case Read(p, b) => BreadBlock(s, p, b)
    case Release(b) => Next(s.(held := s.held - {b}))
    case CommitRead => ReadLog(s)
    case CommitWrite => Next(s.(logbuf := false, done := s.done + 1))
    case CommitDone => Next(FinishCommit(s))
  }

  // The outcome of a run; nothing happens after a panic.
  function After(size: nat, es: seq<Event>): Outcome {
    if es == [] then Next(Init(size))
    else match After(size, es[..|es| - 1])
      case Panic => Panic
      case Next(s) => Step(s, es[|es| - 1])
  }

  predicate Legal(size: nat, budget: nat, limit: nat, es: seq<Event>) {
    es != [] ==>
      && Legal(size, budget, limit, es[..|es| - 1])
      && (After(size, es[..|es| - 1]).Next? ==> Enabled(After(size, es[..|es| - 1]).s, es[|es| - 1], budget, limit))
  }

  // ---------- the reserved space ----------

  // What the operations in progress may still add if each may log c blocks.
  ghost function Spare(ops: map<nat, set<nat>>, c: nat): int
    decreases |ops|
  {
    if ops == map[] then 0
    else
      var p :| p in ops;
      c - |ops[p]| + Spare(ops - {p}, c)
  }

  lemma {:induction false} SpareOf(ops: map<nat, set<nat>>, c: nat, p: nat)
    requires p in ops
    ensures Spare(ops, c) == c - |ops[p]| + Spare(ops - {p}, c)
    decreases |ops|
  {
    var q :| q in ops && Spare(ops, c) == c - |ops[q]| + Spare(ops - {q}, c);
    if q != p {
      SpareOf(ops - {q}, c, p);
      SpareOf(ops - {p}, c, q);
      assert ops - {q} - {p} == ops - {p} - {q};
    }
  }

  lemma WithoutSize(ops: map<nat, set<nat>>, p: nat)
    requires p in ops
    ensures |ops - {p}| == |ops| - 1
  {
    assert (ops - {p}).Keys == ops.Keys - {p};
  }

  lemma OneTimesMore(c: nat, n: nat)
    requires n > 0
    ensures c * n == c * (n - 1) + c
  {
  }

  lemma {:induction false} SpareBounds(ops: map<nat, set<nat>>, c: nat)
    requires forall p :: p in ops ==> |ops[p]| <= c
    ensures 0 <= Spare(ops, c) <= c * |ops|
    decreases |ops|
  {
    hide Spare;
    if ops == map[] {
      NoSpare(c);
    } else {
      var p :| p in ops;
      SpareOf(ops, c, p);
      WithoutSize(ops, p);
      SpareBounds(ops - {p}, c);
      OneTimesMore(c, |ops|);
    }
  }

  lemma NoSpare(c: nat)
    ensures Spare(map[], c) == 0
  {
  }

  lemma SparePut(ops: map<nat, set<nat>>, c: nat, p: nat, t: set<nat>)
    ensures Spare(ops[p := t], c) == c - |t| + Spare(ops - {p}, c)
  {
    SpareOf(ops[p := t], c, p);
    assert ops[p := t] - {p} == ops - {p};
  }

  // ---------- what every run keeps ----------

  ghost predicate Counted(s: State, budget: nat) {
    && s.outstanding == |s.ops| && (s.committing ==> s.ops == map[])
    && (s.ops == map[] && !s.committing ==> s.block == [])
    && (forall p :: p in s.ops ==> |s.ops[p]| <= budget && forall b :: b in s.ops[p] ==> b in s.block)
    && (!s.committing ==> s.done == 0 && !s.logbuf)
  }

  // Blocks in the log and space that the operations in progress may need. An
  // operation is let in beside another one while ten blocks are logged, and
  // beside two others only into an empty log.
  ghost predicate Reserved(s: State, budget: nat) {
    |s.block| + Spare(s.ops, budget) <= MAXOPBLOCKS + 2 * budget
  }

  // There are no more buffers in use than there are.
  ghost predicate Buffered(s: State, limit: nat) {
    Used(s) <= NBUF && |s.held| <= limit
  }

  ghost predicate Inv(s: State, budget: nat, limit: nat) {
    && Counted(s, budget) && Reserved(s, budget) && Buffered(s, limit) && Distinct(s.block)
    && (s.waiting != {} ==> MustWait(s))
  }

  lemma KeySize(ops: map<nat, set<nat>>, p: nat, t: set<nat>)
    ensures p !in ops ==> |ops[p := t]| == |ops| + 1
    ensures p in ops ==> |ops[p := t]| == |ops| && |ops - {p}| == |ops| - 1
  {
    assert ops[p := t].Keys == ops.Keys + {p};
    assert (ops - {p}).Keys == ops.Keys - {p};
  }

  lemma BeginReserves(s: State, p: nat, budget: nat)
    requires Counted(s, budget) && p !in s.ops && !MustWait(s) && budget <= MAXOPBLOCKS
    ensures Reserved(BeginOp(s, p), budget)
  {
    hide Spare;
    SparePut(s.ops, budget, p, {});
    assert s.ops - {p} == s.ops;
    SpareBounds(s.ops, budget);
    assert |s.ops| == 0 ==> s.ops == map[];
    if |s.ops| == 1 { assert budget * |s.ops| == budget; }
    if |s.ops| == 2 { assert budget * |s.ops| == 2 * budget; }
  }

  lemma BeginKeeps(s: State, p: nat, budget: nat, limit: nat)
    requires Inv(s, budget, limit) && p !in s.ops && budget <= MAXOPBLOCKS
    ensures Inv(BeginOp(s, p), budget, limit)
  {
    hide Spare, Distinct, Reserved, Buffered;
    SameBuffers(s, BeginOp(s, p), limit);
    if MustWait(s) {
      SameReserved(s, s.(waiting := s.waiting + {p}), budget);
    } else {
      KeySize(s.ops, p, {});
      BeginReserves(s, p, budget);
    }
  }

  lemma SameReserved(s: State, s': State, budget: nat)
    requires s.block == s'.block && s.ops == s'.ops
    ensures Reserved(s, budget) <==> Reserved(s', budget)
  {
  }

  lemma SameTaken(s: State, s': State)
    requires s.block == s'.block && s.held == s'.held && s.done == s'.done
    ensures Taken(s) == Taken(s')
  {
  }

  lemma SameBuffers(s: State, s': State, limit: nat)
    requires s.block == s'.block && s.held == s'.held && s.done == s'.done && s.logbuf == s'.logbuf
    ensures Buffered(s, limit) <==> Buffered(s', limit)
  {
    hide Taken;
    SameTaken(s, s');
  }

  // A block that is logged while its buffer is held takes no further buffer.
  lemma WriteBuffers(s: State, s': State, b: nat, limit: nat)
    requires Buffered(s, limit) && b in s.held && s.done == 0
    requires s'.held == s.held && s'.done == s.done && s'.logbuf == s.logbuf
    requires s'.block == if b in s.block then s.block else s.block + [b]
    ensures Buffered(s', limit)
  {
    assert Elems(s'.block) == Elems(s.block) + {b};
    assert Taken(s') == Taken(s);
  }

  lemma WriteKeeps(s: State, p: nat, b: nat, budget: nat, limit: nat)
    requires Inv(s, budget, limit) && Enabled(s, Write(p, b), budget, limit) && LogWrite(s, p, b).Next?
    ensures Inv(LogWrite(s, p, b).s, budget, limit)
  {
    hide Spare, Buffered;
    KeySize(s.ops, p, s.ops[p] + {b});
    SparePut(s.ops, budget, p, s.ops[p] + {b});
    SpareOf(s.ops, budget, p);
    WriteBuffers(s, LogWrite(s, p, b).s, b, limit);
    if b in s.ops[p] { assert s.ops[p] + {b} == s.ops[p]; }
  }

  lemma EndKeeps(s: State, p: nat, budget: nat, limit: nat)
    requires Inv(s, budget, limit) && p in s.ops
    ensures EndOp(s, p).Next? && Inv(EndOp(s, p).s, budget, limit)
  {
    hide Spare, Distinct, Buffered;
    SameBuffers(s, EndOp(s, p).s, limit);
    KeySize(s.ops, p, {});
    SpareOf(s.ops, budget, p);
    assert (s.ops - {p}).Keys == s.ops.Keys - {p};
  }

  lemma OneMoreTaken(s: State, p: nat, b: nat)
    ensures Taken(s.(held := s.held[b := p])) == Taken(s) + {b}
  {
    assert s.held[b := p].Keys == s.held.Keys + {b};
  }

  lemma ReadBuffers(s: State, p: nat, b: nat, limit: nat)
    requires Buffered(s, limit) && b !in s.held && |s.held| < limit && BreadBlock(s, p, b).Next?
    ensures Buffered(BreadBlock(s, p, b).s, limit)
  {
    hide Taken;
    OneMoreTaken(s, p, b);
    assert s.held[b := p].Keys == s.held.Keys + {b};
    if b in Taken(s) { assert Taken(s) + {b} == Taken(s); }
  }

  lemma ReadKeeps(s: State, p: nat, b: nat, budget: nat, limit: nat)
    requires Inv(s, budget, limit) && Enabled(s, Read(p, b), budget, limit) && BreadBlock(s, p, b).Next?
    ensures Inv(BreadBlock(s, p, b).s, budget, limit)
  {
    hide Spare, Distinct, Counted, Reserved, Buffered, Taken;
    ReadBuffers(s, p, b, limit);
    SameCounts(s, BreadBlock(s, p, b).s, budget);
  }

  // Holding, and the progress of a commit, leave the operations alone.
  lemma SameCounts(s: State, s': State, budget: nat)
    requires s' == s.(held := s'.held, done := s'.done, logbuf := s'.logbuf)
    requires s.committing || (s.done == s'.done && s.logbuf == s'.logbuf)
    ensures Counted(s, budget) <==> Counted(s', budget)
    ensures Reserved(s, budget) <==> Reserved(s', budget)
  {
    hide Spare;
  }

  lemma ReleaseKeeps(s: State, b: nat, budget: nat, limit: nat)
    requires Inv(s, budget, limit) && b in s.held
    ensures Inv(s.(held := s.held - {b}), budget, limit)
  {
    hide Spare, Distinct, Counted, Reserved;
    var s' := s.(held := s.held - {b});
    SubsetSize(Taken(s'), Taken(s));
    SameCounts(s, s', budget);
  }

  lemma CommitWriteKeeps(s: State, budget: nat, limit: nat)
    requires Inv(s, budget, limit) && s.committing
    ensures Inv(s.(logbuf := false, done := s.done + 1), budget, limit)
  {
    hide Spare, Distinct, Counted, Reserved, Taken;
    var s' := s.(logbuf := false, done := s.done + 1);
    SameCounts(s, s', budget);
    FewerTaken(s, s');
    SubsetSize(Taken(s'), Taken(s));
  }

  lemma FewerTaken(s: State, s': State)
    requires s'.block == s.block && s'.held == s.held && s'.done >= s.done
    ensures Taken(s') <= Taken(s)
  {
    forall x | x in s.block[Unpinned(s')..] ensures x in s.block[Unpinned(s)..] {
      var i :| 0 <= i < |s.block[Unpinned(s')..]| && s.block[Unpinned(s')..][i] == x;
      assert s.block[Unpinned(s)..][i + Unpinned(s') - Unpinned(s)] == x;
    }
  }

  lemma DoneKeeps(s: State, budget: nat, limit: nat)
    requires Inv(s, budget, limit) && s.committing && !s.logbuf
    ensures Inv(FinishCommit(s), budget, limit)
  {
    NoSpare(budget);
    assert Taken(FinishCommit(s)) == s.held.Keys;
    SubsetSize(s.held.Keys, Taken(s));
  }

  lemma StepKeeps(s: State, e: Event, budget: nat, limit: nat)
    requires Inv(s, budget, limit) && Enabled(s, e, budget, limit) && Step(s, e).Next? && budget <= MAXOPBLOCKS
    ensures Inv(Step(s, e).s, budget, limit)
  {
    hide Inv;
    match e
    case Begin(p) => BeginKeeps(s, p, budget, limit);
    case Write(p, b) => WriteKeeps(s, p, b, budget, limit);
    case End(p) => EndKeeps(s, p, budget, limit);
    case Read(p, b) => ReadKeeps(s, p, b, budget, limit);
    case Release(b) => ReleaseKeeps(s, b, budget, limit);
    case CommitRead => ReadLogKeeps(s, budget, limit);
    case CommitWrite => CommitWriteKeeps(s, budget, limit);
    case CommitDone => DoneKeeps(s, budget, limit);
  }

  lemma ReadLogKeeps(s: State, budget: nat, limit: nat)
    requires Inv(s, budget, limit) && s.committing && !s.logbuf && ReadLog(s).Next?
    ensures Inv(ReadLog(s).s, budget, limit)
  {
    hide Spare, Distinct, Counted, Reserved, Taken;
    SameCounts(s, ReadLog(s).s, budget);
    SameTaken(s, ReadLog(s).s);
  }

  lemma InitKeeps(size: nat, budget: nat, limit: nat)
    ensures Inv(Init(size), budget, limit)
  {
    NoSpare(budget);
  }

  lemma {:induction false} RunKeeps(size: nat, budget: nat, limit: nat, es: seq<Event>)
    requires Legal(size, budget, limit, es) && After(size, es).Next? && budget <= MAXOPBLOCKS
    ensures Inv(After(size, es).s, budget, limit) && After(size, es).s.size == size
  {
    hide Inv;
    if es == [] {
      InitKeeps(size, budget, limit);
    } else {
      RunKeeps(size, budget, limit, es[..|es| - 1]);
      StepKeeps(After(size, es[..|es| - 1]).s, es[|es| - 1], budget, limit);
    }
  }

  // The log never overflows its reservation: with an operation in progress
  // that may still log a new block there is a free slot.
  lemma NewBlockFits(s: State, p: nat, b: nat, limit: nat)
    requires Inv(s, MAXOPBLOCKS, limit) && p in s.ops && |s.ops[p] + {b}| <= MAXOPBLOCKS && b !in s.block
    ensures |s.block| < LOGSIZE
  {
    SpareOf(s.ops, MAXOPBLOCKS, p);
    SpareBounds(s.ops - {p}, MAXOPBLOCKS);
  }

  // The only panics are a full log, in log_write, and too few buffers, when
  // anybody reads a block that is not in use or commit reads the log.
  // "log.committing" and "log_write outside of trans" cannot happen.
  lemma PanicExactly(s: State, e: Event, limit: nat)
    requires Inv(s, MAXOPBLOCKS, limit) && Enabled(s, e, MAXOPBLOCKS, limit)
    ensures Step(s, e) == Panic <==>
      || (e.Write? && (|s.block| == LOGSIZE || |s.block| >= s.size - 1))
      || (e.Read? && e.b !in Taken(s) && Used(s) == NBUF)
      || (e.CommitRead? && Used(s) == NBUF)
  {
    hide Spare;
    SpareBounds(s.ops, MAXOPBLOCKS);
    if e.Write? || e.End? { KeySize(s.ops, e.p, {}); }
  }

  // At the start of a commit the buffers in use are those of the transaction
  // and those that others hold: the first bread fails exactly when these are
  // all.
  lemma CommitStarts(s: State, limit: nat)
    requires Inv(s, MAXOPBLOCKS, limit) && s.committing && s.done == 0 && !s.logbuf && s.block != []
    ensures Step(s, CommitRead) == Panic <==> |s.block| + |s.held.Keys - Elems(s.block)| == NBUF
  {
    hide Taken, Elems, Counted, Reserved;
    ElemsSize(s.block);
    TakenAtRest(s);
    assert Elems(s.block) + s.held.Keys == Elems(s.block) + (s.held.Keys - Elems(s.block));
  }

  lemma ElemsSize(bs: seq<nat>)
    requires Distinct(bs)
    ensures |Elems(bs)| == |bs|
  {
    ImageSize(bs, |bs|);
    assert Elems(bs) == set i | 0 <= i < |bs| :: bs[i];
  }

  // While a commit is running nothing is added to the transaction and nobody
  // can start or be inside an operation.
  lemma CommitIsAlone(s: State, e: Event, budget: nat, limit: nat)
    requires Inv(s, budget, limit) && s.committing && Enabled(s, e, budget, limit) && e != CommitDone
    ensures !e.Write? && !e.End?
    ensures Step(s, e).Next? ==>
      Step(s, e).s.block == s.block && Step(s, e).s.committing && Step(s, e).s.ops == map[] && Step(s, e).s.done >= s.done
  {
  }

  // A process asleep in begin_op is never forgotten: an operation in progress
  // or a commit is still to come to its end, and the end wakes all sleepers,
  // unless it is that of the last operation, which starts a commit.
  lemma SleepersWoken(s: State, budget: nat, limit: nat)
    requires Inv(s, budget, limit) && s.waiting != {}
    ensures s.ops != map[] || s.committing
    ensures forall p :: p in s.ops ==> EndOp(s, p).Next? && (EndOp(s, p).s.waiting == {} || EndOp(s, p).s.committing)
    ensures FinishCommit(s).waiting == {}
  {
    forall p | p in s.ops ensures EndOp(s, p).Next? && (EndOp(s, p).s.waiting == {} || EndOp(s, p).s.committing) {
      EndKeeps(s, p, budget, limit);
    }
  }

  // ---------- which blocks are committed together ----------

  // All blocks logged since the last commit.
  function Pending(es: seq<Event>): set<nat> {
    if es == [] then {}
    else match es[|es| - 1]
      case Write(p, b) => Pending(es[..|es| - 1]) + {b}
      case CommitDone => {}
      case _ => Pending(es[..|es| - 1])
  }

  lemma {:induction false} CommitsPending(size: nat, es: seq<Event>)
    requires After(size, es).Next?
    ensures forall b :: b in After(size, es).s.block <==> b in Pending(es)
  {
    if es != [] { CommitsPending(size, es[..|es| - 1]); }
  }

  // ---------- which budgets are safe ----------

  lemma TakenSize(s: State)
    requires Distinct(s.block)
    ensures |Taken(s)| <= |s.block| + |s.held|
  {
    var pinned := Elems(s.block[Unpinned(s)..]);
    forall x | x in pinned ensures x in Elems(s.block) { assert x in s.block[Unpinned(s)..]; }
    SubsetSize(pinned, Elems(s.block));
    ElemsSize(s.block);
    UnionSize(pinned, s.held.Keys);
  }

  // How many blocks are logged, and buffers in use, at most.
  lemma UsedAtMost(s: State, budget: nat, limit: nat)
    requires Inv(s, budget, limit) && budget <= MAXOPBLOCKS
    ensures |s.block| <= MAXOPBLOCKS + 2 * budget
    ensures |Taken(s)| <= |s.block| + |s.held|
  {
    hide Spare, Taken;
    SpareBounds(s.ops, budget);
    TakenSize(s);
  }

  lemma StepSafe(s: State, e: Event, budget: nat, limit: nat)
    requires Inv(s, budget, limit) && Enabled(s, e, budget, limit) && s.size >= LOGSIZE
    requires 2 * budget + limit < 2 * MAXOPBLOCKS && limit >= 1
    ensures Step(s, e).Next?
  {
    hide Spare, Taken;
    UsedAtMost(s, budget, limit);
    match e
    case Begin(p) =>
    case Write(p, b) => KeySize(s.ops, p, {});
    case End(p) => EndKeeps(s, p, budget, limit);
    case _ =>
  }

  lemma {:induction false} SmallOpsSafe(size: nat, budget: nat, limit: nat, es: seq<Event>)
    requires size >= LOGSIZE && 2 * budget + limit < 2 * MAXOPBLOCKS && limit >= 1
    requires Legal(size, budget, limit, es)
    ensures After(size, es).Next?
  {
    hide Inv;
    if es != [] {
      SmallOpsSafe(size, budget, limit, es[..|es| - 1]);
      RunKeeps(size, budget, limit, es[..|es| - 1]);
      StepSafe(After(size, es[..|es| - 1]).s, es[|es| - 1], budget, limit);
    }
  }

  lemma {:induction false} MoreBudget(size: nat, budget: nat, limit: nat, budget': nat, limit': nat, es: seq<Event>)
    requires Legal(size, budget, limit, es) && budget <= budget' && limit <= limit'
    ensures Legal(size, budget', limit', es)
  {
    if es != [] { MoreBudget(size, budget, limit, budget', limit', es[..|es| - 1]); }
  }

  // ---------- the longest transaction ----------

  // The run es is legal and, unless it has panicked, leads to s.
  ghost predicate Reaches(size: nat, budget: nat, limit: nat, es: seq<Event>, s: State) {
    Legal(size, budget, limit, es) && (After(size, es) == Panic || After(size, es) == Next(s))
  }

  lemma Extend(size: nat, budget: nat, limit: nat, es: seq<Event>, s: State, e: Event, s': State)
    requires Reaches(size, budget, limit, es, s) && Enabled(s, e, budget, limit)
    requires Step(s, e) == Panic || Step(s, e) == Next(s')
    ensures Reaches(size, budget, limit, es + [e], s')
    ensures Step(s, e) == Panic ==> After(size, es + [e]) == Panic
  {
    assert (es + [e])[..|es + [e]| - 1] == es;
  }

  // The numbers from lo up, k of them.
  ghost function Span(lo: nat, k: nat): (r: seq<nat>)
    ensures |r| == k
  {
    seq(k, i requires 0 <= i < k => lo + i)
  }

  lemma SpanNext(lo: nat, k: nat)
    ensures Span(lo, k) + [lo + k] == Span(lo, k + 1)
    ensures lo + k !in Span(lo, k)
    ensures Span(0, lo) + Span(lo, k) == Span(0, lo + k)
  {
  }

  lemma SpanSize(lo: nat, k: nat)
    ensures |Elems(Span(lo, k))| == k && lo + k !in Elems(Span(lo, k))
  {
    ElemsSize(Span(lo, k));
  }

  lemma ElemsSpan(lo: nat, k: nat)
    ensures Elems(Span(lo, k)) + {lo + k} == Elems(Span(lo, k + 1))
  {
    SpanNext(lo, k);
    assert forall x :: x in Span(lo, k) + [lo + k] <==> x in Span(lo, k) || x == lo + k;
  }

  // No buffer is held and no commit is on.
  ghost function Working(size: nat, n: nat, ops: map<nat, set<nat>>): State {
    State(size, Span(0, n), |ops|, false, ops, {}, map[], 0, false)
  }

  lemma TakenAtRest(s: State)
    requires s.done == 0
    ensures Taken(s) == Elems(s.block) + s.held.Keys
  {
    assert s.block[0..] == s.block;
  }

  lemma WorkingBlocks(size: nat, n: nat, ops: map<nat, set<nat>>)
    ensures |Taken(Working(size, n, ops))| == n && n !in Taken(Working(size, n, ops))
    ensures n !in Span(0, n)
  {
    hide Taken, Span;
    var s := Working(size, n, ops);
    TakenAtRest(s);
    SpanSize(0, n);
    assert Taken(s) == Elems(Span(0, n));
  }

  // Process p reads, logs and releases block n.
  lemma LogOne(size: nat, budget: nat, limit: nat, es: seq<Event>, n: nat, ops: map<nat, set<nat>>, p: nat)
    returns (es': seq<Event>)
    requires Reaches(size, budget, limit, es, Working(size, n, ops)) && limit >= 1 && n < NBUF
    requires p in ops && |ops[p] + {n}| <= budget
    ensures Reaches(size, budget, limit, es', Working(size, n + 1, ops[p := ops[p] + {n}]))
  {
    hide Reaches, Taken;
    var s := Working(size, n, ops);
    WorkingBlocks(size, n, ops);
    SpanNext(0, n);
    KeySize(ops, p, ops[p] + {n});
    var s1 := s.(held := map[n := p]);
    var s2 := s1.(block := s.block + [n], ops := ops[p := ops[p] + {n}]);
    assert map[][n := p] == map[n := p];
    Extend(size, budget, limit, es, s, Read(p, n), s1);
    Extend(size, budget, limit, es + [Read(p, n)], s1, Write(p, n), s2);
    assert map[n := p] - {n} == map[];
    es' := es + [Read(p, n)] + [Write(p, n)] + [Release(n)];
    Extend(size, budget, limit, es + [Read(p, n)] + [Write(p, n)], s2, Release(n),
           Working(size, n + 1, ops[p := ops[p] + {n}]));
  }

  // Process p logs the blocks n, n + 1, ..., k of them.
  lemma {:induction false} LogMany(size: nat, budget: nat, limit: nat, es: seq<Event>, n: nat,
                                   ops: map<nat, set<nat>>, p: nat, k: nat)
    returns (es': seq<Event>)
    requires Reaches(size, budget, limit, es, Working(size, n, ops)) && limit >= 1 && n + k <= NBUF
    requires p in ops && ops[p] == {} && k <= budget
    ensures Reaches(size, budget, limit, es', Working(size, n + k, ops[p := Elems(Span(n, k))]))
    decreases k
  {
    hide Reaches, Working, Span, Elems;
    if k == 0 {
      es' := es;
      SpanSize(n, 0);
      assert ops[p := Elems(Span(n, 0))] == ops;
    } else {
      es' := LogMany(size, budget, limit, es, n, ops, p, k - 1);
      var mid := ops[p := Elems(Span(n, k - 1))];
      ElemsSpan(n, k - 1);
      SpanSize(n, k);
      es' := LogOne(size, budget, limit, es', n + k - 1, mid, p);
      assert mid[p := mid[p] + {n + k - 1}] == ops[p := Elems(Span(n, k))];
    }
  }

  // The operations of process 0 alone, and of processes 0 and 1.
  function Solo(t: set<nat>): (r: map<nat, set<nat>>)
    ensures |r| == 1
  {
    map[0 := t]
  }

  function Pair(t: set<nat>, u: set<nat>): (r: map<nat, set<nat>>)
    ensures |r| == 2
  {
    map[0 := t, 1 := u]
  }

  // One more operation is let in beside the first, which has logged nothing.
  lemma BeginSecond(size: nat, budget: nat, limit: nat, es: seq<Event>, n: nat)
    requires Reaches(size, budget, limit, es, Working(size, n, Solo({}))) && n <= MAXOPBLOCKS
    ensures Reaches(size, budget, limit, es + [Begin(1)], Working(size, n, Pair({}, {})))
  {
    hide Reaches;
    assert Solo({})[1 := {}] == Pair({}, {});
    Extend(size, budget, limit, es, Working(size, n, Solo({})), Begin(1), Working(size, n, Pair({}, {})));
  }

  lemma FirstOne(size: nat, budget: nat, limit: nat)
    ensures Reaches(size, budget, limit, [Begin(0)], Working(size, 0, Solo({})))
  {
    var es := [Begin(0)];
    assert es[..0] == [];
    assert After(size, []) == Next(Init(size)) && Legal(size, budget, limit, []);
    assert BeginOp(Init(size), 0).ops == Solo({});
    assert Working(size, 0, Solo({})).block == [];
  }

  // Operations of one block each beside the first one, n of them.
  lemma {:induction false} SmallOnes(size: nat, budget: nat, limit: nat, n: nat) returns (es: seq<Event>)
    requires budget >= 1 && limit >= 1 && n <= MAXOPBLOCKS
    ensures Reaches(size, budget, limit, es, Working(size, n, Solo({})))
    decreases n
  {
    hide Reaches, Working;
    if n == 0 {
      es := [Begin(0)];
      FirstOne(size, budget, limit);
    } else {
      es := SmallOnes(size, budget, limit, n - 1);
      BeginSecond(size, budget, limit, es, n - 1);
      es := LogOne(size, budget, limit, es + [Begin(1)], n - 1, Pair({}, {}), 1);
      assert Pair({}, {})[1 := Pair({}, {})[1] + {n - 1}] == Pair({}, {n - 1});
      EndSecond(size, budget, limit, es, n, {n - 1});
      es := es + [End(1)];
    }
  }

  lemma EndSecond(size: nat, budget: nat, limit: nat, es: seq<Event>, n: nat, t: set<nat>)
    requires Reaches(size, budget, limit, es, Working(size, n, Pair({}, t)))
    ensures Reaches(size, budget, limit, es + [End(1)], Working(size, n, Solo({})))
  {
    hide Reaches;
    assert Pair({}, t) - {1} == Solo({});
    Extend(size, budget, limit, es, Working(size, n, Pair({}, t)), End(1), Working(size, n, Solo({})));
  }

  // The commit that follows when both have ended.
  ghost function Ending(size: nat, n: nat): State {
    Working(size, n, map[]).(committing := true)
  }

  lemma EndBoth(size: nat, budget: nat, limit: nat, es: seq<Event>, n: nat, t: set<nat>, u: set<nat>)
    requires Reaches(size, budget, limit, es, Working(size, n, Pair(t, u)))
    ensures Reaches(size, budget, limit, es + [End(1)] + [End(0)], Ending(size, n))
  {
    hide Reaches;
    assert Pair(t, u) - {1} == Solo(t) && Solo(t) - {0} == map[];
    Extend(size, budget, limit, es, Working(size, n, Pair(t, u)), End(1), Working(size, n, Solo(t)));
    Extend(size, budget, limit, es + [End(1)], Working(size, n, Solo(t)), End(0), Ending(size, n));
  }

  // A transaction of MAXOPBLOCKS + 2 * budget blocks is reached, the most
  // there can be.
  lemma LongestTransaction(size: nat, budget: nat, limit: nat) returns (es: seq<Event>)
    requires 1 <= budget <= MAXOPBLOCKS && limit >= 1
    ensures Reaches(size, budget, limit, es, Ending(size, MAXOPBLOCKS + 2 * budget))
  {
    hide Reaches, Working, Elems, Span;
    es := SmallOnes(size, budget, limit, MAXOPBLOCKS);
    BeginSecond(size, budget, limit, es, MAXOPBLOCKS);
    es := LogMany(size, budget, limit, es + [Begin(1)], MAXOPBLOCKS, Pair({}, {}), 1, budget);
    var u, t := Elems(Span(MAXOPBLOCKS, budget)), Elems(Span(MAXOPBLOCKS + budget, budget));
    es := LogMany(size, budget, limit, es, MAXOPBLOCKS + budget, Pair({}, {})[1 := u], 0, budget);
    assert Pair({}, {})[1 := u][0 := t] == Pair(t, u);
    EndBoth(size, budget, limit, es, MAXOPBLOCKS + budget + budget, t, u);
    es := es + [End(1)] + [End(0)];
  }

  // ---------- readers meanwhile ----------

  // Process 2 holds the buffers of the k blocks from n up.
  ghost function HeldFrom(n: nat, k: nat): map<nat, nat> {
    map b | b in Elems(Span(n, k)) :: 2
  }

  ghost function Reading(size: nat, n: nat, k: nat): State {
    Ending(size, n).(held := HeldFrom(n, k))
  }

  lemma ReadingRest(size: nat, n: nat, k: nat)
    ensures Taken(Reading(size, n, k)) == Elems(Span(0, n)) + Elems(Span(n, k))
  {
    hide Taken, Elems, Span;
    TakenAtRest(Reading(size, n, k));
    assert HeldFrom(n, k).Keys == Elems(Span(n, k));
  }

  lemma HeldNext(n: nat, k: nat)
    ensures HeldFrom(n, k).Keys == Elems(Span(n, k)) && |HeldFrom(n, k)| == k
    ensures n + k !in HeldFrom(n, k) && HeldFrom(n, k)[n + k := 2] == HeldFrom(n, k + 1)
  {
    hide Span, Elems;
    ElemsSpan(n, k);
    SpanSize(n, k);
  }

  lemma NoneHeld(size: nat, n: nat)
    ensures Reading(size, n, 0) == Ending(size, n)
  {
    assert HeldFrom(n, 0) == map[] by { assert Span(n, 0) == []; }
  }

  lemma ElemsBoth(n: nat, k: nat)
    ensures Elems(Span(0, n)) + Elems(Span(n, k)) == Elems(Span(0, n + k))
  {
    SpanNext(n, k);
    assert forall x :: x in Span(0, n) + Span(n, k) <==> x in Span(0, n) || x in Span(n, k);
  }

  lemma ReadingTaken(size: nat, n: nat, k: nat)
    ensures n + k !in Taken(Reading(size, n, k)) && |Taken(Reading(size, n, k))| == n + k
  {
    hide Span, Elems, Reading, Taken;
    ReadingRest(size, n, k);
    ElemsBoth(n, k);
    SpanSize(0, n + k);
  }

  lemma {:induction false} ReadMany(size: nat, budget: nat, limit: nat, es: seq<Event>, n: nat, k: nat)
    returns (es': seq<Event>)
    requires Reaches(size, budget, limit, es, Ending(size, n)) && n + k <= NBUF && k <= limit
    ensures Reaches(size, budget, limit, es', Reading(size, n, k))
    decreases k
  {
    hide Reaches, Taken, HeldFrom, Span;
    if k == 0 {
      es' := es;
      NoneHeld(size, n);
    } else {
      es' := ReadMany(size, budget, limit, es, n, k - 1);
      var s := Reading(size, n, k - 1);
      ReadingTaken(size, n, k - 1);
      HeldNext(n, k - 1);
      Extend(size, budget, limit, es', s, Read(2, n + k - 1), Reading(size, n, k));
      es' := es' + [Read(2, n + k - 1)];
    }
  }

  // The run that panics: the longest transaction, and readers with all the
  // other buffers when the commit reads its first log block.
  lemma TooMany(size: nat, budget: nat, limit: nat) returns (es: seq<Event>)
    requires 1 <= budget <= MAXOPBLOCKS && limit >= 1 && 2 * budget + limit >= 2 * MAXOPBLOCKS
    ensures Legal(size, budget, limit, es) && After(size, es) == Panic
  {
    var n, k := MAXOPBLOCKS + 2 * budget, 2 * MAXOPBLOCKS - 2 * budget;
    es := LongestTransaction(size, budget, limit);
    es := ReadMany(size, budget, limit, es, n, k);
    ReadingTaken(size, n, k);
    hide Legal, After, Taken;
    var s := Reading(size, n, k);
    Extend(size, budget, limit, es, s, CommitRead, s);
    es := es + [CommitRead];
  }

  // For operations of at least one block, all runs within budget and limit are
  // free of panics if and only if twice the budget and the number of buffers
  // held at a time together stay below 2 * MAXOPBLOCKS.
  lemma SafeBudgets(size: nat, budget: nat, limit: nat)
    requires size >= LOGSIZE && budget >= 1 && limit >= 1
    ensures 2 * budget + limit < 2 * MAXOPBLOCKS <==>
            forall es :: Legal(size, budget, limit, es) ==> After(size, es).Next?
  {
    hide Legal, After;
    if 2 * budget + limit < 2 * MAXOPBLOCKS {
      forall es | Legal(size, budget, limit, es) ensures After(size, es).Next? {
        SmallOpsSafe(size, budget, limit, es);
      }
    } else {
      var b := if budget <= MAXOPBLOCKS then budget else MAXOPBLOCKS;
      var es := TooMany(size, b, limit);
      MoreBudget(size, b, limit, budget, limit, es);
    }
  }
}
