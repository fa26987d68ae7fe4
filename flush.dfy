/** `flush`: writing the current block as one line at the end of the output file.

    The output file is a sequence of lines; each element is one line, the encoded block
    followed by its terminating newline. The file is opened for appending, so a flush can
    only add a line at its end. The outcome of each I/O call is supplied as a parameter. */
module Flushing {

  import opened Wrappers
  import opened Json
  import opened Blocks

  /** The messages `errors.Wrap` puts in front of each kind of failure. */
  const MarshalContext := "Error while marshalling block data"
  const OpenContext := "Error while opening file"
  const WriteContext := "Error while writing (closing) file"

  /** The errors `flush` returns: `ErrNoTransactions`, or a failure of one of the calls it
      makes, wrapped with a message that says which. */
  datatype Error = NoTransactions | Wrapped(context: string, cause: string)

  /** What the environment does to one flush: the error, if any, that encoding the block,
      opening the file, writing to it and closing it return. */
  datatype IoOutcome = IoOutcome(
    marshalErr: Option<string>,
    openErr: Option<string>,
    writeErr: Option<string>,
    closeErr: Option<string>)

  const Succeeds := IoOutcome(None, None, None, None)

  /** `errors.Wrap(err, context)`: a nil cause gives a nil error. */
  function Wrap(cause: Option<string>, context: string): (r: Option<Error>)
    ensures r.None? <==> cause.None?
    ensures r.Some? ==> r.value.Wrapped? && r.value.context == context
  {
    match cause
    case None => None
    case Some(c) => Some(Wrapped(context, c))
  }

  /** The failure reported after the write: the write's own error takes precedence over the
      close's, which is reported only when the write succeeded. */
  function WriteCloseError(io: IoOutcome): (e: Option<string>)
    ensures e.None? <==> io.writeErr.None? && io.closeErr.None?
    ensures io.writeErr.Some? ==> e == io.writeErr
    ensures io.writeErr.None? ==> e == io.closeErr
  {
    if io.writeErr.Some? then io.writeErr else io.closeErr
  }

  /** Whether a flush of `b` puts a line in the file: `b` has transactions and encoding,
      opening and writing all succeed (closing may still fail afterwards). */
  predicate Writes(b: Block, io: IoOutcome)
  {
    !IsEmpty(b) && io.marshalErr.None? && io.openErr.None? && io.writeErr.None?
  }

  datatype FlushResult = FlushResult(err: Option<Error>, file: seq<Json>)

  /** `flush()` on block `b` and file contents `file`. */
  function Flush(b: Block, file: seq<Json>, io: IoOutcome): (r: FlushResult)
    ensures r.err == Some(NoTransactions) <==> IsEmpty(b)
    ensures r.err.None? <==> !IsEmpty(b) && io == Succeeds
    ensures r.file == if Writes(b, io) then file + [Encode(b)] else file
  {
    if IsEmpty(b) then
      FlushResult(Some(NoTransactions), file)
    else if io.marshalErr.Some? then
      FlushResult(Wrap(io.marshalErr, MarshalContext), file)
    else
      var data := Encode(b);
      if io.openErr.Some? then
        FlushResult(Wrap(io.openErr, OpenContext), file)
      else
        var written := if io.writeErr.None? then file + [data] else file;
        FlushResult(Wrap(WriteCloseError(io), WriteContext), written)
  }
}
