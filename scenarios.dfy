/** Runs of the worker loop: the size trigger, the repository's test, and a close right after
    one input. */
module Scenarios {

  import opened Wrappers
  import opened Json
  import Transactions
  import opened Blocks
  import opened Flushing
  import opened Scheduler

  lemma {:induction false} InputsConcat(a: seq<Occurrence>, b: seq<Occurrence>)
    ensures Inputs(a + b) == Inputs(a) + Inputs(b)
    decreases |a|
  {
    if a != [] {
      assert (a + b)[1..] == a[1..] + b;
      InputsConcat(a[1..], b);
    } else {
      assert a + b == b;
    }
  }

  /** Running `a` and then `b` is running `a + b`, when `a` does not stop the loop. */
  lemma {:induction false} RunConcat(cfg: Config, s: State, a: seq<Occurrence>, b: seq<Occurrence>)
    requires !HasDone(a)
    ensures Run(cfg, s, a + b) == Run(cfg, Run(cfg, s, a), b)
    decreases |a|
  {
    if a != [] {
      assert !a[0].event.Done?;
      assert (a + b)[0] == a[0] && (a + b)[1..] == a[1..] + b;
      assert !HasDone(a[1..]) by {
        forall k | 0 <= k < |a[1..]| ensures !a[1..][k].event.Done? {
          assert a[1..][k] == a[k + 1];
        }
      }
      RunConcat(cfg, Handle(cfg, s, a[0]), a[1..], b);
    } else {
      assert a + b == b;
    }
  }

  /** Transactions that do not reach the maximum are appended to the current block in
      arrival order, and nothing is flushed. */
  lemma {:induction false} Accumulate(cfg: Config, s: State, os: seq<Occurrence>)
    requires AllInputs(os)
    requires s.count + |os| < cfg.maxTransactions
    ensures Run(cfg, s, os)
            == s.(block := s.block.(transactions := s.block.transactions + Inputs(os)),
                  count := s.count + |os|)
    decreases |os|
  {
    if os == [] {
      assert s.block.transactions + [] == s.block.transactions;
    } else {
      var t := os[0].event.tx;
      var s1 := Handle(cfg, s, os[0]);
      assert s1 == s.(block := s.block.(transactions := s.block.transactions + [t]), count := s.count + 1);
      assert AllInputs(os[1..]) by {
        forall k | 0 <= k < |os[1..]| ensures os[1..][k].event.Input? {
          assert os[1..][k] == os[k + 1];
        }
      }
      Accumulate(cfg, s1, os[1..]);
      assert Inputs(os) == [t] + Inputs(os[1..]);
      assert s.block.transactions + [t] + Inputs(os[1..]) == s.block.transactions + Inputs(os);
    }
  }

  /** Size trigger: starting from a fresh counter, `maxTransactions` transactions with no
      tick in between make exactly one flushed block, holding all of them in submission
      order, and the counter is back at 0. */
  lemma FullBatch(cfg: Config, s: State, os: seq<Occurrence>)
    requires Inv(cfg, s) && !s.stopped && s.count == 0
    requires AllInputs(os) && |os| == cfg.maxTransactions
    ensures var r := Run(cfg, s, os);
      var last := os[|os| - 1];
      var full := s.block.(transactions := Inputs(os));
      && r.flushed == s.flushed + [FlushRecord(full, Writes(full, last.io))]
      && r.block == Next(full, last.freshHash)
      && r.count == 0 && !r.stopped
  {
    var n := |os| - 1;
    var init, last := os[..n], os[n];
    assert os == init + [last];
    assert AllInputs(init) by {
      forall k | 0 <= k < |init| ensures init[k].event.Input? {
        assert init[k] == os[k];
      }
    }
    assert !HasDone(init) by {
      forall k | 0 <= k < |init| ensures !init[k].event.Done? {
        assert init[k].event.Input?;
      }
    }
    RunConcat(cfg, s, init, [last]);
    Accumulate(cfg, s, init);
    InputsConcat(init, [last]);
    assert Inputs([last]) == [last.event.tx];
    var mid := Run(cfg, s, init);
    assert mid.block.transactions == Inputs(init);
    assert Run(cfg, mid, [last]) == Handle(cfg, mid, last);
    FlushAdvances(mid.(block := mid.block.(transactions := mid.block.transactions + [last.event.tx]),
                       count := mid.count + 1), last.io, last.freshHash);
  }

  /** The simulator's test: with a period of 10 seconds and a maximum of 1000, one
      transaction ("test_key", "test_value") followed by a tick whose write succeeds leaves
      exactly one line in the cleared file, and that line decodes to a block whose only
      transaction has that key and value. */
  lemma FlushIntervalScenario(id: string, now: int, genesisHash: string, io: IoOutcome, h0: string, h1: string)
    requires genesisHash != ""
    ensures var cfg := Config(10, 1000, "test.json");
      var t := Transactions.NewTransaction("test_key", "test_value", id, now);
      var os := [Occurrence(Input(t), io, h0), Occurrence(Tick, Succeeds, h1)];
      var r := Run(cfg, Init([], genesisHash), os);
      && |r.file| == 1
      && Decode(r.file[0]).Some?
      && |Decode(r.file[0]).value.transactions| == 1
      && Decode(r.file[0]).value.transactions[0].key == "test_key"
      && Decode(r.file[0]).value.transactions[0].value == "test_value"
  {
    var cfg := Config(10, 1000, "test.json");
    var t := Transactions.NewTransaction("test_key", "test_value", id, now);
    var os := [Occurrence(Input(t), io, h0), Occurrence(Tick, Succeeds, h1)];
    var s0 := Init([], genesisHash);
    var b := Block("", genesisHash, [t]);
    var s1 := Handle(cfg, s0, os[0]);
    assert s1.block == b && s1.file == [];
    assert os[1..] == [os[1]];
    assert Run(cfg, s0, os) == Run(cfg, s1, [os[1]]) == Handle(cfg, s1, os[1]);
    FlushAdvances(s1, Succeeds, h1);
    assert Run(cfg, s0, os).file == [Encode(b)];
    DecodeEncode(b);
  }

  /** Shutdown flush: one transaction and then `Close` puts that transaction, in exactly one
      line, in the file before the loop stops. */
  lemma CloseFlushesPending(cfg: Config, existing: seq<Json>, genesisHash: string,
                            t: Transactions.Transaction, h0: string, h1: string)
    requires ValidConfig(cfg) && genesisHash != ""
    ensures var os := [Occurrence(Input(t), Succeeds, h0), Occurrence(Done, Succeeds, h1)];
      var r := Run(cfg, Init(existing, genesisHash), os);
      && r.stopped
      && r.file == existing + [Encode(Block("", genesisHash, [t]))]
      && Decode(r.file[|existing|]) == Some(Block("", genesisHash, [t]))
  {
    DecodeEncode(Block("", genesisHash, [t]));
    var os := [Occurrence(Input(t), Succeeds, h0), Occurrence(Done, Succeeds, h1)];
    assert os[1..] == [os[1]];
  }
}
