/** A block: a chain-linked batch of transactions. */
module Blocks {

  import opened Wrappers
  import opened Json
  import Transactions

  /** The JSON names given by the struct tags of `Block`, in declaration order. */
  const PrevHashName := "prev-block-hash"
  const HashName := "block-hash"
  const TransactionsName := "transactions"

  datatype Block = Block(prevHash: string, hash: string, transactions: seq<Transactions.Transaction>)

  predicate IsEmpty(b: Block)
  {
    |b.transactions| == 0
  }

  /** `NewBlock(prev)`: a block linked to `prev` with no transactions. The Go code draws a
      random UUID for the block's own hash; here it is the parameter `freshHash`. */
  function NewBlock(prev: string, freshHash: string): (b: Block)
    ensures b.prevHash == prev && b.hash == freshHash
    ensures IsEmpty(b)
  {
    Block(prev, freshHash, [])
  }

  /** `b.Next()`: the block that continues the chain after `b`. */
  function Next(b: Block, freshHash: string): (n: Block)
    ensures n.prevHash == b.hash && n.hash == freshHash
    ensures IsEmpty(n)
  {
    NewBlock(b.hash, freshHash)
  }

  function EncodeTransactions(ts: seq<Transactions.Transaction>): (js: seq<Json>)
    ensures |js| == |ts|
    ensures forall i :: 0 <= i < |ts| ==> js[i] == Transactions.Encode(ts[i])
  {
    if ts == [] then [] else [Transactions.Encode(ts[0])] + EncodeTransactions(ts[1..])
  }

  function DecodeTransactions(js: seq<Json>): (r: Option<seq<Transactions.Transaction>>)
    ensures r.Some? ==> |r.value| == |js|
  {
    if js == [] then Some([])
    else
      match (Transactions.Decode(js[0]), DecodeTransactions(js[1..]))
      case (Some(t), Some(ts)) => Some([t] + ts)
      case _ => None
  }

  lemma {:induction false} DecodeEncodeTransactions(ts: seq<Transactions.Transaction>)
    ensures DecodeTransactions(EncodeTransactions(ts)) == Some(ts)
  {
    if ts != [] {
      var js := EncodeTransactions(ts);
      assert js[0] == Transactions.Encode(ts[0]) && js[1..] == EncodeTransactions(ts[1..]);
      Transactions.DecodeEncode(ts[0]);
      DecodeEncodeTransactions(ts[1..]);
      assert [ts[0]] + ts[1..] == ts;
    }
  }

  /** The document `json.Marshal` builds for a block. A block with no transactions holds a nil
      slice, which is written as `null`. */
  function Encode(b: Block): (j: Json)
    ensures j.Obj? && Names(j.members) == [PrevHashName, HashName, TransactionsName]
    ensures j.members[2].1 == Null <==> IsEmpty(b)
  {
    Obj([(PrevHashName, Str(b.prevHash)), (HashName, Str(b.hash)),
         (TransactionsName, if IsEmpty(b) then Null else Arr(EncodeTransactions(b.transactions)))])
  }

  /** Reads back a document of the shape `Encode` writes; `null` and `[]` both give no
      transactions. */
  function Decode(j: Json): (r: Option<Block>)
  {
    if j.Obj? && |j.members| == 3
       && Names(j.members) == [PrevHashName, HashName, TransactionsName]
       && j.members[0].1.Str? && j.members[1].1.Str?
    then
      var txs := j.members[2].1;
      if txs.Null? then Some(Block(j.members[0].1.text, j.members[1].1.text, []))
      else if txs.Arr? then
        match DecodeTransactions(txs.items)
        case Some(ts) => Some(Block(j.members[0].1.text, j.members[1].1.text, ts))
        case None => None
      else None
    else
      None
  }

  /** Encoding a block loses nothing: the chain links and every transaction, in order. */
  lemma DecodeEncode(b: Block)
    ensures Decode(Encode(b)) == Some(b)
  {
    DecodeEncodeTransactions(b.transactions);
  }
}
