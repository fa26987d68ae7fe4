/** The simulator's worker loop as a step function over a small state.

    The worker owns the current block and the counter `c`. It reacts to one event at a
    time: a transaction arriving on the input channel, the ticker firing, or the shutdown
    signal. The channel and ticker plumbing becomes a sequence of events; what the
    environment decides for each event (the outcome of the file I/O of a flush, the fresh
    hash a new block receives) travels with the event. */
module Scheduler {

  import opened Wrappers
  import opened Json
  import Transactions
  import opened Blocks
  import opened Flushing

  /** The largest value of Go's `uint` on a 64-bit platform. */
  const MaxUint: nat := 0xFFFF_FFFF_FFFF_FFFF

  datatype Config = Config(flushPeriod: nat, maxTransactions: nat, flushFile: string)

  /** A configuration the worker can run with: a ticker needs a positive period, and a
      maximum of 0 would never be reached by the counter. Nothing in the Go code rejects a
      maximum of 0; the model makes it a precondition. */
  predicate ValidConfig(cfg: Config)
  {
    0 < cfg.flushPeriod && 0 < cfg.maxTransactions <= MaxUint
  }

  datatype Event = Input(tx: Transactions.Transaction) | Tick | Done

  /** An event, with the outcome of the flush it may cause and the hash the next block gets
      if the chain advances. */
  datatype Occurrence = Occurrence(event: Event, io: IoOutcome, freshHash: string)

  /** A block that left the worker: it was flushed and the chain moved past it. `written`
      says whether its line reached the file. */
  datatype FlushRecord = FlushRecord(block: Block, written: bool)

  /** `count` is the loop's counter `c`; `flushed` is a log of every block the chain moved
      past, kept only for stating properties. */
  datatype State = State(
    block: Block,
    count: nat,
    file: seq<Json>,
    flushed: seq<FlushRecord>,
    stopped: bool)

  /** The state `NewSimulator` starts the worker in: a first block linked to "", and the file
      as it already is on disk. */
  function Init(file: seq<Json>, genesisHash: string): (s: State)
    ensures s.block.prevHash == "" && s.block.hash == genesisHash && IsEmpty(s.block)
    ensures s.count == 0 && s.file == file && s.flushed == [] && !s.stopped
  {
    State(NewBlock("", genesisHash), 0, file, [], false)
  }

  /** `flushBlock()`: an empty block is kept as it is; any other block is retired, whatever
      the outcome of its flush, and its continuation becomes the current block. */
  function FlushBlock(s: State, io: IoOutcome, freshHash: string): (r: State)
    ensures r.count == s.count && r.stopped == s.stopped
    ensures IsEmpty(s.block) ==> r == s
    ensures !IsEmpty(s.block) ==>
      && r.block == Next(s.block, freshHash)
      && r.flushed == s.flushed + [FlushRecord(s.block, Writes(s.block, io))]
      && r.file == (if Writes(s.block, io) then s.file + [Encode(s.block)] else s.file)
  {
    var r := Flush(s.block, s.file, io);
    var retired := FlushRecord(s.block, Writes(s.block, io));
    match r.err
    case None =>
      s.(block := Next(s.block, freshHash), file := r.file, flushed := s.flushed + [retired])
    case Some(NoTransactions) =>
      s
    case Some(Wrapped(_, _)) =>
      // the block's transactions are lost unless its line was written before the failure
      s.(block := Next(s.block, freshHash), file := r.file, flushed := s.flushed + [retired])
  }

  /** One pass of the `for`/`select` loop in `start`: only `Done` stops the loop, and an
      event retires at most one block. */
  function Handle(cfg: Config, s: State, o: Occurrence): (r: State)
    ensures r.stopped <==> s.stopped || o.event.Done?
    ensures s.flushed <= r.flushed && |r.flushed| <= |s.flushed| + 1
  {
    match o.event
    case Input(t) =>
      var s1 := s.(block := s.block.(transactions := s.block.transactions + [t]), count := s.count + 1);
      if s1.count == cfg.maxTransactions then FlushBlock(s1, o.io, o.freshHash).(count := 0)
      else s1
    case Tick =>
      FlushBlock(s, o.io, o.freshHash).(count := 0)
    case Done =>
      FlushBlock(s, o.io, o.freshHash).(stopped := true)
  }

  /** The loop over a sequence of events: it returns after handling the first `Done`, and
      otherwise waits for more events once the sequence is exhausted. */
  function Run(cfg: Config, s: State, os: seq<Occurrence>): (r: State)
    ensures s.stopped ==> r.stopped
    ensures s.flushed <= r.flushed && |r.flushed| <= |s.flushed| + |os|
    decreases |os|
  {
    if os == [] then s
    else
      var s1 := Handle(cfg, s, os[0]);
      if os[0].event.Done? then s1 else Run(cfg, s1, os[1..])
  }

  /** The events the loop handles: everything up to and including the first `Done`. */
  function Consumed(os: seq<Occurrence>): seq<Occurrence>
  {
    if os == [] then []
    else if os[0].event.Done? then [os[0]]
    else [os[0]] + Consumed(os[1..])
  }

  predicate HasDone(os: seq<Occurrence>)
  {
    exists k :: 0 <= k < |os| && os[k].event.Done?
  }

  predicate AllInputs(os: seq<Occurrence>)
  {
    forall k :: 0 <= k < |os| ==> os[k].event.Input?
  }

  /** The transaction an event carries, if any. */
  function InputOf(e: Event): seq<Transactions.Transaction>
  {
    if e.Input? then [e.tx] else []
  }

  /** The transactions carried by a sequence of events, in order. */
  function Inputs(os: seq<Occurrence>): seq<Transactions.Transaction>
  {
    if os == [] then [] else InputOf(os[0].event) + Inputs(os[1..])
  }

  // ---------------------------------------------------------------------------------------
  // The chain of blocks

  function RecordBlocks(rs: seq<FlushRecord>): (bs: seq<Block>)
    ensures |bs| == |rs|
    ensures forall i :: 0 <= i < |rs| ==> bs[i] == rs[i].block
  {
    seq(|rs|, i requires 0 <= i < |rs| => rs[i].block)
  }

  /** Every block the worker has owned, oldest first; the last one is the current block. */
  function Chain(s: State): seq<Block>
  {
    RecordBlocks(s.flushed) + [s.block]
  }

  /** The first block links to "" and every later block to the hash of the one before. */
  predicate Linked(bs: seq<Block>)
  {
    && |bs| > 0
    && bs[0].prevHash == ""
    && forall i :: 0 < i < |bs| ==> bs[i].prevHash == bs[i - 1].hash
  }

  predicate DistinctHashes(bs: seq<Block>)
  {
    && (forall i :: 0 <= i < |bs| ==> bs[i].hash != "")
    && forall i, j :: 0 <= i < j < |bs| ==> bs[i].hash != bs[j].hash
  }

  /** `h` can serve as a new block's hash: a UUID is never empty and never repeats. */
  predicate FreshFor(s: State, h: string)
  {
    h != "" && forall i :: 0 <= i < |Chain(s)| ==> Chain(s)[i].hash != h
  }

  /** Every hash supplied along `os` is fresh for `s` and differs from the others. */
  predicate FreshAlong(s: State, os: seq<Occurrence>)
  {
    && (forall k :: 0 <= k < |os| ==> FreshFor(s, os[k].freshHash))
    && forall k, l :: 0 <= k < l < |os| ==> os[k].freshHash != os[l].freshHash
  }

  /** `b` keeps the links of `a` position by position and adds at most one block, whose hash
      is `h` and which links to the last block of `a`. */
  predicate Extends(a: seq<Block>, b: seq<Block>, h: string)
  {
    && |a| > 0
    && (|b| == |a| || (|b| == |a| + 1 && b[|a|].hash == h && b[|a|].prevHash == a[|a| - 1].hash))
    && forall i :: 0 <= i < |a| ==> b[i].hash == a[i].hash && b[i].prevHash == a[i].prevHash
  }

  lemma ExtendsKeepsLinks(a: seq<Block>, b: seq<Block>, h: string)
    requires Linked(a) && DistinctHashes(a) && Extends(a, b, h)
    requires h != "" && forall i :: 0 <= i < |a| ==> a[i].hash != h
    ensures Linked(b) && DistinctHashes(b)
  {
  }

  // ---------------------------------------------------------------------------------------
  // The invariant between events

  /** Between events, given a valid configuration: the counter equals the number of
      transactions in the current block and stays below the maximum; after shutdown the
      current block is empty; the blocks form a chain with distinct hashes; and every block
      that left the worker held between 1 and `maxTransactions` transactions. */
  predicate Inv(cfg: Config, s: State)
  {
    && ValidConfig(cfg)
    && (if s.stopped then IsEmpty(s.block)
        else s.count == |s.block.transactions| < cfg.maxTransactions)
    && Linked(Chain(s))
    && DistinctHashes(Chain(s))
    && forall r :: r in s.flushed ==> 0 < |r.block.transactions| <= cfg.maxTransactions
  }

  lemma InitInv(cfg: Config, file: seq<Json>, genesisHash: string)
    requires ValidConfig(cfg) && genesisHash != ""
    ensures Inv(cfg, Init(file, genesisHash))
  {
  }

  /** What `flushBlock` does to the chain: nothing for an empty block, otherwise the block
      stays where it is and its successor is added. */
  lemma FlushBlockChain(s: State, io: IoOutcome, freshHash: string)
    ensures Chain(FlushBlock(s, io, freshHash))
            == if IsEmpty(s.block) then Chain(s) else Chain(s) + [Next(s.block, freshHash)]
  {
    if !IsEmpty(s.block) {
      var r := FlushBlock(s, io, freshHash);
      assert r.flushed == s.flushed + [FlushRecord(s.block, Writes(s.block, io))];
      assert RecordBlocks(r.flushed) == RecordBlocks(s.flushed) + [s.block];
    }
  }

  /** How one event changes the chain: it only ever adds the block named by the event's
      fresh hash. */
  lemma HandleChain(cfg: Config, s: State, o: Occurrence)
    ensures Extends(Chain(s), Chain(Handle(cfg, s, o)), o.freshHash)
  {
    match o.event
    case Input(t) =>
      var s1 := s.(block := s.block.(transactions := s.block.transactions + [t]), count := s.count + 1);
      assert Extends(Chain(s), Chain(s1), o.freshHash);
      if s1.count == cfg.maxTransactions {
        FlushBlockChain(s1, o.io, o.freshHash);
      }
    case Tick =>
      FlushBlockChain(s, o.io, o.freshHash);
    case Done =>
      FlushBlockChain(s, o.io, o.freshHash);
  }

  /** Every event keeps the invariant. */
  lemma HandlePreservesInv(cfg: Config, s: State, o: Occurrence)
    requires Inv(cfg, s) && !s.stopped && FreshFor(s, o.freshHash)
    ensures Inv(cfg, Handle(cfg, s, o))
  {
    HandleChain(cfg, s, o);
    ExtendsKeepsLinks(Chain(s), Chain(Handle(cfg, s, o)), o.freshHash);
    var r := Handle(cfg, s, o);
    match o.event
    case Input(t) =>
      var s1 := s.(block := s.block.(transactions := s.block.transactions + [t]), count := s.count + 1);
      if s1.count == cfg.maxTransactions {
        assert r.flushed == s.flushed + [FlushRecord(s1.block, Writes(s1.block, o.io))];
      }
    case Tick =>
    case Done =>
  }

  /** After one event, the hashes still to come along `os` remain fresh. */
  lemma HandleFreshAlong(cfg: Config, s: State, os: seq<Occurrence>)
    requires |os| > 0 && FreshAlong(s, os)
    ensures FreshAlong(Handle(cfg, s, os[0]), os[1..])
  {
    HandleChain(cfg, s, os[0]);
    var c := Chain(Handle(cfg, s, os[0]));
    forall k | 0 <= k < |os[1..]|
      ensures FreshFor(Handle(cfg, s, os[0]), os[1..][k].freshHash)
    {
      assert os[1..][k] == os[k + 1];
      assert FreshFor(s, os[k + 1].freshHash);
      assert os[0].freshHash != os[k + 1].freshHash;
    }
  }

  /** The loop keeps the invariant over any sequence of events, and it has stopped exactly
      when the sequence held a `Done`. */
  lemma {:induction false} RunPreservesInv(cfg: Config, s: State, os: seq<Occurrence>)
    requires Inv(cfg, s) && !s.stopped && FreshAlong(s, os)
    ensures Inv(cfg, Run(cfg, s, os))
    ensures Run(cfg, s, os).stopped <==> HasDone(os)
    decreases |os|
  {
    if os != [] {
      HandlePreservesInv(cfg, s, os[0]);
      if !os[0].event.Done? {
        HandleFreshAlong(cfg, s, os);
        RunPreservesInv(cfg, Handle(cfg, s, os[0]), os[1..]);
        if HasDone(os) {
          var k :| 0 <= k < |os| && os[k].event.Done?;
          assert os[1..][k - 1] == os[k];
        }
        if HasDone(os[1..]) {
          var k :| 0 <= k < |os[1..]| && os[1..][k].event.Done?;
          assert os[k + 1] == os[1..][k];
        }
      } else {
        assert os[0].event.Done?;
      }
    }
  }

  /** The loop ignores whatever would follow the first `Done`. */
  lemma {:induction false} RunIgnoresAfterDone(cfg: Config, s: State, os: seq<Occurrence>)
    ensures Run(cfg, s, os) == Run(cfg, s, Consumed(os))
    decreases |os|
  {
    if os != [] && !os[0].event.Done? {
      RunIgnoresAfterDone(cfg, Handle(cfg, s, os[0]), os[1..]);
      assert Consumed(os)[0] == os[0] && Consumed(os)[1..] == Consumed(os[1..]);
    }
  }

  // ---------------------------------------------------------------------------------------
  // No loss, no duplication

  /** The transactions of a log of flushed blocks, block after block. */
  function Flatten(rs: seq<FlushRecord>): seq<Transactions.Transaction>
  {
    if rs == [] then [] else Flatten(rs[..|rs| - 1]) + rs[|rs| - 1].block.transactions
  }

  /** Every transaction the worker has taken in: those in blocks that left it, then those in
      the current block. */
  function Received(s: State): seq<Transactions.Transaction>
  {
    Flatten(s.flushed) + s.block.transactions
  }

  lemma SeqAssoc<T>(a: seq<T>, b: seq<T>, c: seq<T>)
    ensures (a + b) + c == a + (b + c)
  {
  }

  lemma FlushBlockAccounts(s: State, io: IoOutcome, freshHash: string)
    ensures Received(FlushBlock(s, io, freshHash)) == Received(s)
  {
    if !IsEmpty(s.block) {
      var rs := s.flushed + [FlushRecord(s.block, Writes(s.block, io))];
      assert rs[..|rs| - 1] == s.flushed;
    }
  }

  /** An event adds its own transaction, if it carries one, after all the others, and loses
      or repeats none of them. */
  lemma HandleAccounts(cfg: Config, s: State, o: Occurrence)
    ensures Received(Handle(cfg, s, o)) == Received(s) + InputOf(o.event)
  {
    match o.event
    case Input(t) =>
      var s1 := s.(block := s.block.(transactions := s.block.transactions + [t]), count := s.count + 1);
      SeqAssoc(Flatten(s.flushed), s.block.transactions, [t]);
      assert Received(s1) == Received(s) + [t];
      if s1.count == cfg.maxTransactions {
        var r := FlushBlock(s1, o.io, o.freshHash);
        FlushBlockAccounts(s1, o.io, o.freshHash);
        assert Received(r.(count := 0)) == Received(r);
      }
    case Tick =>
      var r := FlushBlock(s, o.io, o.freshHash);
      FlushBlockAccounts(s, o.io, o.freshHash);
      assert Received(r.(count := 0)) == Received(r) == Received(s) + [];
    case Done =>
      var r := FlushBlock(s, o.io, o.freshHash);
      FlushBlockAccounts(s, o.io, o.freshHash);
      assert Received(r.(stopped := true)) == Received(r) == Received(s) + [];
  }


  lemma InputsCons(o: Occurrence, rest: seq<Occurrence>)
    ensures Inputs([o] + rest) == InputOf(o.event) + Inputs(rest)
  {
    assert ([o] + rest)[0] == o && ([o] + rest)[1..] == rest;
  }

  /** Over a run, the worker has taken in exactly the transactions of the events it handled,
      in arrival order, each once. */
  lemma {:induction false} RunAccounts(cfg: Config, s: State, os: seq<Occurrence>)
    ensures Received(Run(cfg, s, os)) == Received(s) + Inputs(Consumed(os))
    decreases |os|
  {
    if os == [] {
    } else if os[0].event.Done? {
      HandleAccounts(cfg, s, os[0]);
      assert Consumed(os) == [os[0]] && Inputs([os[0]]) == [];
    } else {
      var s1 := Handle(cfg, s, os[0]);
      var rest := os[1..];
      HandleAccounts(cfg, s, os[0]);
      RunAccounts(cfg, s1, rest);
      assert Run(cfg, s, os) == Run(cfg, s1, rest);
      assert Consumed(os) == [os[0]] + Consumed(rest);
      InputsCons(os[0], Consumed(rest));
      SeqAssoc(Received(s), InputOf(os[0].event), Inputs(Consumed(rest)));
    }
  }

  /** Shutdown loses nothing before I/O: once `Done` is handled, every transaction received
      since the start lies in exactly one block that was handed to `flush`, in arrival order. */
  lemma ShutdownFlushesEverything(cfg: Config, s: State, os: seq<Occurrence>)
    requires Inv(cfg, s) && !s.stopped && FreshAlong(s, os) && HasDone(os)
    ensures Run(cfg, s, os).stopped
    ensures Flatten(Run(cfg, s, os).flushed) == Received(s) + Inputs(Consumed(os))
  {
    RunPreservesInv(cfg, s, os);
    RunAccounts(cfg, s, os);
  }

  // ---------------------------------------------------------------------------------------
  // The output file

  /** The lines the blocks of a log put in the file: those whose write succeeded. */
  function WrittenLines(rs: seq<FlushRecord>): seq<Json>
  {
    if rs == [] then []
    else WrittenLines(rs[..|rs| - 1]) + (if rs[|rs| - 1].written then [Encode(rs[|rs| - 1].block)] else [])
  }

  lemma {:induction false} WrittenLinesConcat(a: seq<FlushRecord>, b: seq<FlushRecord>)
    ensures WrittenLines(a + b) == WrittenLines(a) + WrittenLines(b)
    decreases |b|
  {
    if b != [] {
      var ab := a + b;
      assert ab[..|ab| - 1] == a + b[..|b| - 1];
      WrittenLinesConcat(a, b[..|b| - 1]);
    } else {
      assert a + b == a;
    }
  }

  lemma FlushBlockAppendOnly(s: State, io: IoOutcome, freshHash: string)
    ensures s.flushed <= FlushBlock(s, io, freshHash).flushed
    ensures FlushBlock(s, io, freshHash).file
            == s.file + WrittenLines(FlushBlock(s, io, freshHash).flushed[|s.flushed|..])
  {
    var r := FlushBlock(s, io, freshHash);
    if IsEmpty(s.block) {
      assert r.flushed[|s.flushed|..] == [];
    } else {
      var retired := FlushRecord(s.block, Writes(s.block, io));
      assert r.flushed[|s.flushed|..] == [retired];
      assert [retired][..0] == [];
    }
  }

  /** One event leaves the log and the file as they were, except that the log may gain a
      block and the file gains that block's line exactly when its write went through. */
  lemma HandleAppendOnly(cfg: Config, s: State, o: Occurrence)
    ensures s.flushed <= Handle(cfg, s, o).flushed
    ensures Handle(cfg, s, o).file == s.file + WrittenLines(Handle(cfg, s, o).flushed[|s.flushed|..])
  {
    match o.event
    case Input(t) =>
      var s1 := s.(block := s.block.(transactions := s.block.transactions + [t]), count := s.count + 1);
      if s1.count == cfg.maxTransactions {
        FlushBlockAppendOnly(s1, o.io, o.freshHash);
      } else {
        assert s.flushed[|s.flushed|..] == [];
      }
    case Tick =>
      FlushBlockAppendOnly(s, o.io, o.freshHash);
    case Done =>
      FlushBlockAppendOnly(s, o.io, o.freshHash);
  }


  /** Two append-only steps make one. */
  lemma AppendOnlyCompose(f0: seq<FlushRecord>, f1: seq<FlushRecord>, f2: seq<FlushRecord>,
                          l0: seq<Json>, l1: seq<Json>, l2: seq<Json>)
    requires f0 <= f1 && l1 == l0 + WrittenLines(f1[|f0|..])
    requires f1 <= f2 && l2 == l1 + WrittenLines(f2[|f1|..])
    ensures f0 <= f2 && l2 == l0 + WrittenLines(f2[|f0|..])
  {
    var a := f1[|f0|..];
    var b := f2[|f1|..];
    assert f2[|f0|..] == a + b;
    WrittenLinesConcat(a, b);
  }

  /** The file is append-only: over a run it keeps its earlier contents and gains, in order,
      the lines of the blocks whose writes went through. */
  lemma {:induction false} RunAppendOnly(cfg: Config, s: State, os: seq<Occurrence>)
    ensures s.flushed <= Run(cfg, s, os).flushed
    ensures Run(cfg, s, os).file == s.file + WrittenLines(Run(cfg, s, os).flushed[|s.flushed|..])
    decreases |os|
  {
    if os == [] {
      assert s.flushed[|s.flushed|..] == [];
    } else {
      var s1 := Handle(cfg, s, os[0]);
      HandleAppendOnly(cfg, s, os[0]);
      if !os[0].event.Done? {
        RunAppendOnly(cfg, s1, os[1..]);
        var r := Run(cfg, s1, os[1..]);
        AppendOnlyCompose(s.flushed, s1.flushed, r.flushed, s.file, s1.file, r.file);
      }
    }
  }

  // ---------------------------------------------------------------------------------------
  // What each event does

  /** `flushBlock` on an empty block: `flush` reports `ErrNoTransactions`, nothing is
      written, and the current block, with its hash, is kept. */
  lemma EmptyFlushIsNoOp(s: State, io: IoOutcome, freshHash: string)
    requires IsEmpty(s.block)
    ensures Flush(s.block, s.file, io).err == Some(NoTransactions)
    ensures FlushBlock(s, io, freshHash) == s
  {
  }

  /** `flushBlock` on a block with transactions moves the chain on whatever the outcome of
      the I/O: the new current block is empty and links to the old one; the old block is
      logged, and its line is in the file exactly when the write went through. */
  lemma FlushAdvances(s: State, io: IoOutcome, freshHash: string)
    requires !IsEmpty(s.block)
    ensures var r := FlushBlock(s, io, freshHash);
      && r.block == Next(s.block, freshHash)
      && r.block.prevHash == s.block.hash && IsEmpty(r.block)
      && r.flushed == s.flushed + [FlushRecord(s.block, Writes(s.block, io))]
      && r.file == (if Writes(s.block, io) then s.file + [Encode(s.block)] else s.file)
  {
  }

  /** A transaction below the size trigger is appended at the end of the current block,
      and the counter goes up by one; nothing else changes. */
  lemma InputAccumulates(cfg: Config, s: State, t: Transactions.Transaction, io: IoOutcome, h: string)
    requires Inv(cfg, s) && !s.stopped
    requires s.count + 1 < cfg.maxTransactions
    ensures var r := Handle(cfg, s, Occurrence(Input(t), io, h));
      && r.block.transactions == s.block.transactions + [t]
      && r.block.prevHash == s.block.prevHash && r.block.hash == s.block.hash
      && r.count == s.count + 1
      && r.file == s.file && r.flushed == s.flushed && !r.stopped
  {
  }

  /** The transaction that brings the counter to `maxTransactions` causes an immediate flush
      of the block it completes, and the counter becomes 0. */
  lemma InputTriggersFlush(cfg: Config, s: State, t: Transactions.Transaction, io: IoOutcome, h: string)
    requires Inv(cfg, s) && !s.stopped
    requires s.count + 1 == cfg.maxTransactions
    ensures var full := s.block.(transactions := s.block.transactions + [t]);
      var r := Handle(cfg, s, Occurrence(Input(t), io, h));
      && |full.transactions| == cfg.maxTransactions
      && r.flushed == s.flushed + [FlushRecord(full, Writes(full, io))]
      && r.block == Next(full, h)
      && r.file == (if Writes(full, io) then s.file + [Encode(full)] else s.file)
      && r.count == 0 && !r.stopped
  {
  }

  /** The ticker flushes whatever the counter says, 0 included, and resets the counter. */
  lemma TickFlushes(cfg: Config, s: State, io: IoOutcome, h: string)
    requires Inv(cfg, s) && !s.stopped
    ensures var r := Handle(cfg, s, Occurrence(Tick, io, h));
      && r == FlushBlock(s, io, h).(count := 0)
      && r.count == 0 && !r.stopped
      && (s.count == 0 ==> r.block == s.block && r.file == s.file && r.flushed == s.flushed)
  {
  }

  /** Shutdown makes exactly one final flush and then stops, leaving an empty block. */
  lemma DoneFlushesAndStops(cfg: Config, s: State, io: IoOutcome, h: string)
    requires Inv(cfg, s) && !s.stopped && FreshFor(s, h)
    ensures var r := Handle(cfg, s, Occurrence(Done, io, h));
      && r == FlushBlock(s, io, h).(stopped := true)
      && r.stopped && IsEmpty(r.block)
      && |r.flushed| == |s.flushed| + (if IsEmpty(s.block) then 0 else 1)
  {
  }

  // ---------------------------------------------------------------------------------------
  // The chain in the file

  /** Every line of `lines` decodes to a block, the first links to "" and every later one to
      the hash of the line before it. */
  predicate LinesLinked(lines: seq<Json>)
  {
    && (forall i :: 0 <= i < |lines| ==> Decode(lines[i]).Some?)
    && (|lines| > 0 ==> Decode(lines[0]).value.prevHash == "")
    && forall i :: 0 < i < |lines| ==> Decode(lines[i]).value.prevHash == Decode(lines[i - 1]).value.hash
  }

  predicate WritesSucceed(os: seq<Occurrence>)
  {
    forall k :: 0 <= k < |os| ==>
      os[k].io.marshalErr.None? && os[k].io.openErr.None? && os[k].io.writeErr.None?
  }

  lemma {:induction false} AllWrittenLines(rs: seq<FlushRecord>)
    requires forall r :: r in rs ==> r.written
    ensures |WrittenLines(rs)| == |rs|
    ensures forall i :: 0 <= i < |rs| ==> WrittenLines(rs)[i] == Encode(rs[i].block)
    decreases |rs|
  {
    if rs != [] {
      var init := rs[..|rs| - 1];
      assert forall r :: r in init ==> r in rs;
      AllWrittenLines(init);
      assert rs[|rs| - 1] in rs;
      assert WrittenLines(rs) == WrittenLines(init) + [Encode(rs[|rs| - 1].block)];
      forall i | 0 <= i < |rs|
        ensures WrittenLines(rs)[i] == Encode(rs[i].block)
      {
        if i < |rs| - 1 {
          assert rs[i] == init[i];
        }
      }
    }
  }

  lemma {:induction false} RunWritesAll(cfg: Config, s: State, os: seq<Occurrence>)
    requires WritesSucceed(os) && forall r :: r in s.flushed ==> r.written
    ensures forall r :: r in Run(cfg, s, os).flushed ==> r.written
    decreases |os|
  {
    if os != [] {
      var s1 := Handle(cfg, s, os[0]);
      HandleAppendOnly(cfg, s, os[0]);
      assert forall r :: r in s1.flushed ==> r.written by {
        if |s1.flushed| > |s.flushed| {
          assert s1.flushed == s.flushed + [s1.flushed[|s.flushed|]];
        }
      }
      if !os[0].event.Done? {
        assert WritesSucceed(os[1..]) by {
          forall k | 0 <= k < |os[1..]| ensures os[1..][k] == os[k + 1] { }
        }
        RunWritesAll(cfg, s1, os[1..]);
      }
    }
  }

  /** The lines of a log whose writes all went through decode to its blocks, and so are
      linked when the blocks are. */
  lemma WrittenLinesLinked(rs: seq<FlushRecord>, current: Block)
    requires forall r :: r in rs ==> r.written
    requires Linked(RecordBlocks(rs) + [current])
    ensures LinesLinked(WrittenLines(rs))
  {
    AllWrittenLines(rs);
    var lines := WrittenLines(rs);
    var c := RecordBlocks(rs) + [current];
    forall i | 0 <= i < |lines|
      ensures Decode(lines[i]) == Some(c[i])
    {
      DecodeEncode(rs[i].block);
    }
  }

  /** When no write fails, the lines a run adds to a file form a chain: decoded, the first
      block links to "" and every later block to the one before it. */
  lemma FileIsLinked(cfg: Config, existing: seq<Json>, genesisHash: string, os: seq<Occurrence>)
    requires ValidConfig(cfg) && genesisHash != ""
    requires FreshAlong(Init(existing, genesisHash), os) && WritesSucceed(os)
    ensures var r := Run(cfg, Init(existing, genesisHash), os);
      existing <= r.file && LinesLinked(r.file[|existing|..])
  {
    var s0 := Init(existing, genesisHash);
    var r := Run(cfg, s0, os);
    InitInv(cfg, existing, genesisHash);
    RunPreservesInv(cfg, s0, os);
    RunAppendOnly(cfg, s0, os);
    RunWritesAll(cfg, s0, os);
    assert r.flushed[|s0.flushed|..] == r.flushed;
    WrittenLinesLinked(r.flushed, r.block);
    assert r.file[|existing|..] == WrittenLines(r.flushed);
  }
}
