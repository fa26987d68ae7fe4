/** The simulator as the object the Go code builds: the current block and the loop counter
    change in place, and every flush appends to the output file. Each method is proved to
    do what the corresponding function of `Scheduler` specifies. */
module Simulators {

  import opened Wrappers
  import opened Json
  import Transactions
  import opened Blocks
  import opened Flushing
  import opened Scheduler

  class Simulator {
    const flushPeriod: nat
    const maxTransactions: nat
    const flushFile: string

    var block: Block
    /** The counter `c` of the worker loop. */
    var count: nat
    /** The contents of the output file, one element per line. */
    var file: seq<Json>
    /** Whether the worker loop has returned. */
    var stopped: bool
    /** Every block the chain has moved past. */
    ghost var flushed: seq<FlushRecord>

    function Settings(): Config
    {
      Config(flushPeriod, maxTransactions, flushFile)
    }

    ghost function Model(): State
      reads this
    {
      State(block, count, file, flushed, stopped)
    }

    ghost predicate Valid()
      reads this
    {
      Inv(Settings(), Model())
    }

    /** `NewSimulator(flushPeriod, maxTransactions, flushFile)`, with the file's existing
        contents and the first block's hash supplied. */
    constructor (flushPeriod: nat, maxTransactions: nat, flushFile: string,
                 existing: seq<Json>, genesisHash: string)
      requires ValidConfig(Config(flushPeriod, maxTransactions, flushFile))
      requires genesisHash != ""
      ensures Settings() == Config(flushPeriod, maxTransactions, flushFile)
      ensures Model() == Init(existing, genesisHash)
      ensures Valid()
    {
      this.flushPeriod := flushPeriod;
      this.maxTransactions := maxTransactions;
      this.flushFile := flushFile;
      block := NewBlock("", genesisHash);
      count := 0;
      file := existing;
      stopped := false;
      flushed := [];
      new;
      InitInv(Config(flushPeriod, maxTransactions, flushFile), existing, genesisHash);
    }

    /** `flush()`. */
    method Flush(io: IoOutcome) returns (err: Option<Error>)
      modifies this`file
      ensures err == Flushing.Flush(block, old(file), io).err
      ensures file == Flushing.Flush(block, old(file), io).file
    {
      if |block.transactions| == 0 {
        return Some(NoTransactions);
      }
      if io.marshalErr.Some? {
        return Wrap(io.marshalErr, MarshalContext);
      }
      var data := Encode(block);
      if io.openErr.Some? {
        return Wrap(io.openErr, OpenContext);
      }
      var e := io.writeErr;
      if e.None? {
        file := file + [data];
      }
      if e.None? {
        e := io.closeErr;
      }
      err := Wrap(e, WriteContext);
    }

    /** `flushBlock()`. */
    method FlushBlock(io: IoOutcome, freshHash: string)
      modifies this`block, this`file, this`flushed
      ensures Model() == Scheduler.FlushBlock(old(Model()), io, freshHash)
    {
      ghost var retired := FlushRecord(block, Writes(block, io));
      var err := Flush(io);
      match err {
        case None =>
          block := Next(block, freshHash);
          flushed := flushed + [retired];
        case Some(NoTransactions) =>
          return;
        case Some(Wrapped(_, _)) =>
          block := Next(block, freshHash);
          flushed := flushed + [retired];
      }
    }

    /** The loop's case for a transaction received on the input channel. */
    method OnInput(t: Transactions.Transaction, io: IoOutcome, freshHash: string)
      requires Valid() && !stopped && FreshFor(Model(), freshHash)
      modifies this
      ensures Model() == Handle(Settings(), old(Model()), Occurrence(Input(t), io, freshHash))
      ensures Valid()
    {
      block := block.(transactions := block.transactions + [t]);
      count := count + 1;
      if count == maxTransactions {
        FlushBlock(io, freshHash);
        count := 0;
      }
      HandlePreservesInv(Settings(), old(Model()), Occurrence(Input(t), io, freshHash));
    }

    /** The loop's case for the ticker firing. */
    method OnTick(io: IoOutcome, freshHash: string)
      requires Valid() && !stopped && FreshFor(Model(), freshHash)
      modifies this
      ensures Model() == Handle(Settings(), old(Model()), Occurrence(Tick, io, freshHash))
      ensures Valid()
    {
      FlushBlock(io, freshHash);
      count := 0;
      HandlePreservesInv(Settings(), old(Model()), Occurrence(Tick, io, freshHash));
    }

    /** The loop's case for the shutdown signal: a final flush, then the loop returns. */
    method OnDone(io: IoOutcome, freshHash: string)
      requires Valid() && !stopped && FreshFor(Model(), freshHash)
      modifies this
      ensures Model() == Handle(Settings(), old(Model()), Occurrence(Done, io, freshHash))
      ensures Valid() && stopped && IsEmpty(block)
    {
      FlushBlock(io, freshHash);
      stopped := true;
      HandlePreservesInv(Settings(), old(Model()), Occurrence(Done, io, freshHash));
    }

    /** `start()`: handles the events one at a time until the shutdown signal. */
    method Start(os: seq<Occurrence>)
      requires Valid() && !stopped && FreshAlong(Model(), os)
      modifies this
      ensures Model() == Run(Settings(), old(Model()), os)
      ensures Valid()
      ensures stopped <==> HasDone(os)
    {
      RunPreservesInv(Settings(), Model(), os);
      var i := 0;
      while i < |os| && !stopped
        invariant 0 <= i <= |os|
        invariant Valid()
        invariant stopped ==> Model() == Run(Settings(), old(Model()), os)
        invariant !stopped ==> FreshAlong(Model(), os[i..])
        invariant !stopped ==> Run(Settings(), Model(), os[i..]) == Run(Settings(), old(Model()), os)
        decreases |os| - i
      {
        var o := os[i];
        ghost var before := Model();
        assert os[i..][0] == o && os[i..][1..] == os[i + 1..];
        HandleFreshAlong(Settings(), before, os[i..]);
        match o.event {
          case Input(t) => OnInput(t, o.io, o.freshHash);
          case Tick => OnTick(o.io, o.freshHash);
          case Done => OnDone(o.io, o.freshHash);
        }
        i := i + 1;
      }
      if !stopped {
        assert os[i..] == [];
      }
    }

    /** `Close()`: signals shutdown and returns once the worker's final flush is done. */
    method Close(io: IoOutcome, freshHash: string)
      requires Valid() && !stopped && FreshFor(Model(), freshHash)
      modifies this
      ensures Model() == Handle(Settings(), old(Model()), Occurrence(Done, io, freshHash))
      ensures Valid() && stopped && IsEmpty(block)
    {
      OnDone(io, freshHash);
    }
  }
}
