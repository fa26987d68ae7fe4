# Block-batching simulator, modelled in Dafny

The simulator takes key/value transactions on an input channel and collects them in a
current block. It writes the block as one JSON line at the end of an append-only file in
three cases: when the block reaches `maxTransactions` transactions, when a periodic ticker
fires, and once more when the simulator is closed. Each block carries a `prev-block-hash`
and a `block-hash`, so the written blocks form a chain. After a flush that succeeds, or one
that fails for any reason other than "no transactions", the next block links to the one just
flushed. A failed block's data is then lost, unless its write went through before the
failure (only closing the file failed). An empty block is never written and is kept as
it is, hash included.

Files, one module each:

- `wrappers.dfy` (`Wrappers`): `Option`, used for Go's nil-or-value results.
- `json.dfy` (`Json`): JSON documents as value trees. Member names and order are kept. The
  text rendering is not modelled.
- `transaction.dfy` (`Transactions`): the `Transaction` record, `NewTransaction` and its
  JSON form.
- `block.dfy` (`Blocks`): the `Block` record, `NewBlock`, `Next` and its JSON form. A block
  with no transactions is written with `"transactions": null`, as Go writes a nil slice.
- `flush.dfy` (`Flushing`): `flush` as a function of the block, the file contents and the
  outcome of each I/O call. It covers error wrapping and the rule that a write error takes
  precedence over a close error.
- `scheduler.dfy` (`Scheduler`): the worker loop as a step function over its state. The
  state holds the current block, the counter `c`, the file and a log of every block the
  chain has moved past. The module also holds the loop invariant and the properties of
  single events and of whole runs.
- `scenarios.dfy` (`Scenarios`): the size trigger over a full batch, the repository's own
  test, and a close right after one input.
- `simulator.dfy` (`Simulators`): `class Simulator`. Its methods change the block, the
  counter and the file in place. Each is proved to do exactly what the `Scheduler`
  functions specify.

The channel and ticker plumbing becomes a sequence of events: `Input(t)`, `Tick` and
`Done`. Each event comes with the environment's choices for any flush it causes: whether
encoding, opening, writing and closing fail, and the fresh UUID the next block would get.
The file is a sequence of lines. Each element is one encoded block followed by its newline.

Notes on how the code behaves:
- The code allocates a new block for each continuation. It does not recycle the old one in
  place.
- The code advances the chain after a failed write as well as after a successful one.
- Nothing in the code rejects `maxTransactions == 0`. Here it is a precondition of the
  constructor, together with a positive flush period, which `time.NewTicker` needs.
- `main.go:34` reads `Main.MaxTransactions`, but `MainConfig` (`config.go:17-22`) does not
  declare that field.
- The chain of written lines is unbroken only when no write fails. The blocks the chain
  moves past are always linked (`Scheduler.Inv`). The file is linked when every write
  succeeds (`Scheduler.FileIsLinked`).

## Model

| member | source | states |
|---|---|---|
| `Transactions.NewTransaction` | simulator/transaction.go:19-26 | key and value are stored verbatim, with no emptiness check. Identifier and timestamp are the supplied UUID and clock reading |
| `Transactions.Encode` | simulator/transaction.go:10-15 | the JSON object has exactly the members `id`, `key`, `value`, `timestamp`, in declaration order |
| `Transactions.DecodeEncode` | simulator/transaction.go:10-15 | encoding a transaction loses nothing: decoding it gives the transaction back |
| `Blocks.NewBlock` | simulator/block.go:11-16 | the new block links to `prev`, has the fresh hash and no transactions |
| `Blocks.Next` | simulator/block.go:17-19 | the continuation links to `b.Hash` and carries no transactions over. `b` is a value and stays as it is |
| `Blocks.Encode` | simulator/block.go:5-9 | the JSON object has the members `prev-block-hash`, `block-hash`, `transactions`, and the last is `null` exactly when the block is empty |
| `Blocks.DecodeEncodeTransactions` | simulator/block.go:8 | the transaction list round-trips through its JSON array, in order |
| `Blocks.DecodeEncode` | simulator/block.go:5-9 | a block round-trips through its JSON form: both links and every transaction in order |
| `Flushing.Wrap` | simulator/simulator.go:144 | wrapping a nil error gives nil, so a fully successful flush returns nil. A non-nil cause keeps the context message |
| `Flushing.WriteCloseError` | simulator/simulator.go:140-143 | the write error takes precedence. When the write succeeded, the reported error is exactly the close's error, nil included |
| `Flushing.Flush` | simulator/simulator.go:125-145 | returns `ErrNoTransactions` iff the block is empty, and nil iff the block is non-empty and every I/O call succeeds. The file gains exactly the block's line at its end iff encoding, opening and writing succeed. Otherwise the file is unchanged |
| `Scheduler.Init` | simulator/simulator.go:46-54 | the first block links to "" and is empty. The counter is 0 and the file is as it was on disk |
| `Scheduler.FlushBlock` | simulator/simulator.go:107-121 | an empty block leaves the state exactly as it was. Any other block is retired and logged, whatever the flush's outcome, and `Next` of it becomes the current block. The file gains the block's line iff its write went through. The counter and the stopped flag are untouched. `EmptyFlushIsNoOp`, `FlushAdvances` and `FlushBlockChain` state its properties |
| `Scheduler.Handle` | simulator/simulator.go:77-103 | only `Done` stops the loop, and one event retires at most one block, keeping the earlier log. Each case is stated by `InputAccumulates`, `InputTriggersFlush`, `TickFlushes` and `DoneFlushesAndStops`; the invariant, accounting and append-only properties by `HandlePreservesInv`, `HandleAccounts` and `HandleAppendOnly` |
| `Scheduler.Run` | simulator/simulator.go:73-105 | a stopped loop stays stopped, and the log of retired blocks only grows, by at most one block per event. Its properties over whole runs are stated by `RunPreservesInv`, `RunIgnoresAfterDone`, `RunAccounts`, `RunAppendOnly` and `FileIsLinked` |
| `Scheduler.InitInv` | simulator/simulator.go:46-58 | a valid configuration starts the worker in a state that satisfies the loop invariant |
| `Scheduler.EmptyFlushIsNoOp` | simulator/simulator.go:107-129 | flushing an empty block gives `ErrNoTransactions`, writes nothing, and keeps the current block and its hash |
| `Scheduler.FlushAdvances` | simulator/simulator.go:107-121 | after any flush of a non-empty block, whatever its outcome, the current block is `Next` of the old one. The old block is logged, and its line is appended iff its write went through |
| `Scheduler.FlushBlockChain` | simulator/simulator.go:107-121 | `flushBlock` extends the chain by the continuation exactly when the block was non-empty |
| `Scheduler.InputAccumulates` | simulator/simulator.go:78-81 | below the maximum, a transaction goes at the end of the current block. The counter rises by one, and nothing else changes |
| `Scheduler.InputTriggersFlush` | simulator/simulator.go:82-89 | the transaction that brings the counter to `maxTransactions` causes an immediate flush of the full block, and the counter becomes 0 |
| `Scheduler.TickFlushes` | simulator/simulator.go:90-96 | a tick flushes whatever the counter says, 0 included, and resets it. With a counter of 0, nothing is written and the block is kept |
| `Scheduler.DoneFlushesAndStops` | simulator/simulator.go:97-102 | shutdown performs exactly one final flush, stops, and leaves an empty current block |
| `Scheduler.HandleChain` | simulator/simulator.go:73-105 | an event never changes earlier links. It adds at most one block, which has the event's fresh hash and links to the previous current block |
| `Scheduler.HandlePreservesInv` | simulator/simulator.go:73-105 | every event keeps the invariant. The counter equals the size of the current block and stays below the maximum. Blocks are chained with distinct hashes. Each flushed block holds 1 to `maxTransactions` transactions |
| `Scheduler.RunPreservesInv` | simulator/simulator.go:73-105 | any run keeps the invariant, and the loop has stopped exactly when a `Done` was handled |
| `Scheduler.RunIgnoresAfterDone` | simulator/simulator.go:97-102 | the loop returns at the first `Done`. Nothing after it is handled |
| `Scheduler.HandleAccounts` | simulator/simulator.go:78-81 | one event adds its own transaction, if any, after all received ones, and loses or repeats none |
| `Scheduler.RunAccounts` | simulator/simulator.go:73-105 | over any run, the flushed blocks and then the current block hold exactly the received transactions, in arrival order, each once |
| `Scheduler.ShutdownFlushesEverything` | simulator/simulator.go:67-102 | after shutdown, every transaction received lies in exactly one block handed to `flush`, in arrival order |
| `Scheduler.HandleAppendOnly` | simulator/simulator.go:130-140 | one event keeps every earlier line of the file. It appends only the line of a block it flushed whose write went through |
| `Scheduler.RunAppendOnly` | simulator/simulator.go:136-140 | over any run, the file keeps its earlier contents and gains, in order, the lines of the flushed blocks whose writes succeeded |
| `Scheduler.FileIsLinked` | simulator/simulator.go:110-118 | when no write fails, the lines added to the file decode to blocks. The first links to "" and each later one to the block before it |
| `Scenarios.Accumulate` | simulator/simulator.go:78-81 | transactions below the maximum are appended in arrival order, with no flush |
| `Scenarios.FullBatch` | simulator/simulator.go:78-89 | `maxTransactions` inputs from a zero counter make exactly one flushed block holding all of them in order. The counter is back at 0 and the new block links to it |
| `Scenarios.FlushIntervalScenario` | simulator/simulator_test.go:19-53 | one input (`test_key`, `test_value`) and then a tick leave exactly one line in the cleared file. That line decodes to a block whose only transaction has that key and value |
| `Scenarios.CloseFlushesPending` | simulator/simulator.go:67-71 | one input followed by `Close` puts that transaction, in exactly one line, in the file before the loop stops |
| `Simulators.Simulator.constructor` | simulator/simulator.go:46-61 | the object starts in `Init`'s state and satisfies the invariant |
| `Simulators.Simulator.Flush` | simulator/simulator.go:125-145 | the method returns the error `Flushing.Flush` specifies and leaves the file as it specifies |
| `Simulators.Simulator.FlushBlock` | simulator/simulator.go:107-121 | the in-place update of block, file and log is the one `Scheduler.FlushBlock` specifies |
| `Simulators.Simulator.OnInput` | simulator/simulator.go:78-89 | the input case changes the object as `Scheduler.Handle` specifies and keeps the invariant |
| `Simulators.Simulator.OnTick` | simulator/simulator.go:90-96 | the tick case changes the object as `Scheduler.Handle` specifies and keeps the invariant |
| `Simulators.Simulator.OnDone` | simulator/simulator.go:97-102 | the done case makes the final flush, stops with an empty block, and keeps the invariant |
| `Simulators.Simulator.Start` | simulator/simulator.go:73-105 | the loop handles events until `Done` as `Scheduler.Run` specifies. It has stopped iff a `Done` came |
| `Simulators.Simulator.Close` | simulator/simulator.go:67-71 | returns only after the final flush, with the loop stopped and the block empty |

## Left out

- Goroutine, channels, `select`, `sync.WaitGroup` and `time.Ticker`. They become a sequence of discrete events, handled one at a time. Restarting the ticker after a size-triggered flush has no counterpart, because ticks are arbitrary events.
- `Input()` and `close(s.input)` in `Close`: channel plumbing. Sending after `Close` is excluded by the `!stopped` preconditions.
- The text produced by `encoding/json` and the terminating `"\n"`. A line is the JSON value tree of the block, and the newline is the boundary between elements of the file sequence.
- Real file I/O (`os.OpenFile`, `Write`, `Close`). Each call's failure is a parameter. A failed write is modelled as appending nothing; partial writes are not modelled.
- The marshalling-error branch is kept as a parameter, although Go's encoder cannot fail on this record type.
- UUID and clock generation: identifiers, hashes and timestamps are parameters. UUID uniqueness becomes the precondition that every fresh hash is non-empty and new to the chain.
- Transactions.DecodeEncode: holds for strings as sequences of Unicode characters. Go strings are bytes, and `json.Marshal` replaces invalid UTF-8 (which the HTTP handler can pass on, for example from `key=%FF`) with U+FFFD. For such input, the round trip does not hold in the Go code.
- Blocks.DecodeEncode: holds only for valid UTF-8 in the Go code, for the same reason as `Transactions.DecodeEncode`.
- The existing file is taken to consist of whole lines. If its last line lacks a newline, appending joins it to the first new line. The model does not capture this.
- Logging calls: they have no behavioural content.
- `main.go` (HTTP handler, signals, server shutdown) and `config.go` (TOML loading): I/O glue. The handler's rule that key and value are non-empty is not part of this model. The constructor accepts empty strings.
- The 64-bit range of `Transaction.Timestamp` and the conversion of `flushPeriod` to a `time.Duration`: timestamps and periods are unbounded integers. The counter cannot wrap, because it stays below `maxTransactions` ≤ 2^64-1.
