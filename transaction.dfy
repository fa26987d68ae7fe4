/** A transaction: the immutable key/value record that callers submit and blocks carry. */
module Transactions {

  import opened Wrappers
  import opened Json

  /** The JSON names given by the struct tags of `Transaction`, in declaration order. */
  const IdName := "id"
  const KeyName := "key"
  const ValueName := "value"
  const TimestampName := "timestamp"

  /** `timestamp` is whole seconds of Unix time in UTC. */
  datatype Transaction = Transaction(id: string, key: string, value: string, timestamp: int)

  /** `NewTransaction(k, v)`. The identifier (a random UUID, version 4) and the clock reading
      are generated by the Go code; here they are supplied by the caller. Neither `k` nor `v`
      is checked: an empty key or value is stored as it is. */
  function NewTransaction(k: string, v: string, id: string, now: int): (t: Transaction)
    ensures t.key == k && t.value == v
    ensures t.id == id && t.timestamp == now
  {
    Transaction(id, k, v, now)
  }

  /** The document `json.Marshal` builds for a transaction. */
  function Encode(t: Transaction): (j: Json)
    ensures j.Obj? && Names(j.members) == [IdName, KeyName, ValueName, TimestampName]
  {
    Obj([(IdName, Str(t.id)), (KeyName, Str(t.key)), (ValueName, Str(t.value)),
         (TimestampName, Int(t.timestamp))])
  }

  /** Reads back a document of the shape `Encode` writes; anything else is `None`. */
  function Decode(j: Json): (r: Option<Transaction>)
    ensures r.Some? ==> Encode(r.value) == j
  {
    if j.Obj? && |j.members| == 4
       && Names(j.members) == [IdName, KeyName, ValueName, TimestampName]
       && j.members[0].1.Str? && j.members[1].1.Str? && j.members[2].1.Str?
       && j.members[3].1.Int?
    then
      Some(Transaction(j.members[0].1.text, j.members[1].1.text, j.members[2].1.text,
                       j.members[3].1.number))
    else
      None
  }

  /** Encoding a transaction loses nothing. */
  lemma DecodeEncode(t: Transaction)
    ensures Decode(Encode(t)) == Some(t)
  {
  }
}
