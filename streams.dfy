/** Byte streams as the loader sees them, Go's `error` values, and
    `ioutil.ReadAll`, the loop that drains a reader into a buffer. */
module Streams {
  import opened Wrappers

  /** A Go `error`: a plain message, or a prefix wrapped around a cause,
      which is what `fmt.Errorf("prefix%w", cause)` builds. */
  datatype Error = Error(msg: string) | Wrapped(prefix: string, cause: Error)

  /** The text `err.Error()` returns. */
  function Message(e: Error): string
  {
    match e
    case Error(msg) => msg
    case Wrapped(prefix, cause) => prefix + Message(cause)
  }

  /** What `errors.Unwrap` gives back. */
  function Unwrap(e: Error): Option<Error>
  {
    match e
    case Error(_) => None
    case Wrapped(_, cause) => Some(cause)
  }

  /** `fmt.Errorf(prefix + "%w", cause)`: the message gains the prefix, and
      unwrapping gives the cause back. */
  function Wrap(prefix: string, cause: Error): (w: Error)
    ensures Unwrap(w) == Some(cause)
    ensures Message(w) == prefix + Message(cause)
  {
    Wrapped(prefix, cause)
  }

  /** A readable stream as one attempt to read it sees it: the bytes it
      delivers, then how it ends -- `None` for a normal end of stream
      (io.EOF), `Some(e)` when a read reports the error `e` instead.
      An error in the middle of the data is the same stream cut short,
      since nothing read before an error is kept. */
  datatype Stream = Stream(data: seq<bv8>, end: Option<Error>)

  /** The error half of one `Read` call: nil, io.EOF, or another error. */
  datatype Signal = NoError | Eof | Fault(err: Error)

  /** What one `Read` call hands back: the bytes copied and the signal. */
  datatype Chunk = Chunk(bytes: seq<bv8>, signal: Signal)

  /** One `Read` on `s` after `pos` bytes have been consumed, into a buffer
      with `room` free bytes: as much data as fits, or, once all data is
      consumed, no bytes and the way the stream ends. */
  function ReadAt(s: Stream, pos: nat, room: nat): (c: Chunk)
    requires pos <= |s.data|
    ensures pos + |c.bytes| <= |s.data| && c.bytes == s.data[pos..pos + |c.bytes|]
    ensures c.signal == NoError <==> pos < |s.data|
    ensures c.signal == NoError ==> |c.bytes| == if room < |s.data| - pos then room else |s.data| - pos
    ensures c.signal == Eof <==> pos == |s.data| && s.end == None
    ensures c.signal.Fault? ==> s.end == Some(c.signal.err)
  {
    if pos < |s.data| then
      var n := if room < |s.data| - pos then room else |s.data| - pos;
      Chunk(s.data[pos..pos + n], NoError)
    else if s.end.None? then
      Chunk([], Eof)
    else
      Chunk([], Fault(s.end.value))
  }

  /** Free room `ReadAll` offers each `Read` (its initial buffer capacity). */
  const ChunkSize: nat := 512

  /** What reading `s` to exhaustion yields: all of its bytes when it ends
      normally, and its error, with no bytes, when it does not. */
  function Drain(s: Stream): (r: Result<seq<bv8>, Error>)
    ensures r.Success? <==> s.end.None?
    ensures r.Success? ==> r.value == s.data
    ensures r.Failure? ==> Some(r.error) == s.end
  {
    match s.end
    case None => Success(s.data)
    case Some(e) => Failure(e)
  }

  /** `ioutil.ReadAll`: call `Read` until it reports something other than
      nil, keep every byte, and treat io.EOF as success. */
  method ReadAll(s: Stream) returns (r: Result<seq<bv8>, Error>)
    ensures r == Drain(s)
  {
    var buf: seq<bv8> := [];
    var last := NoError;
    while last == NoError
      invariant |buf| <= |s.data| && buf == s.data[..|buf|]
      invariant last != NoError ==> |buf| == |s.data|
      invariant last == Eof ==> s.end == None
      invariant last.Fault? ==> s.end == Some(last.err)
      decreases |s.data| - |buf|, if last == NoError then 1 else 0
    {
      var c := ReadAt(s, |buf|, ChunkSize);
      buf := buf + c.bytes;
      last := c.signal;
    }
    assert buf == s.data;
    if last == Eof {
      r := Success(buf);
    } else {
      r := Failure(last.err);
    }
  }
}
