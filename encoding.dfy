/** The Content-Encoding dispatch of `loadContent`: a closed table of three
    codecs, selected by exact, case-sensitive comparison of the header value. */
module Encoding {
  import opened Wrappers
  import opened Streams

  datatype Codec = Gzip | Deflate | Identity

  /** The codec `loadContent` picks for a Content-Encoding value (`""` when
      the header is absent): only the exact strings "gzip" and "deflate"
      select a decompressor. */
  function Dispatch(contentEncoding: string): (c: Codec)
    ensures c == Gzip <==> contentEncoding == "gzip"
    ensures c == Deflate <==> contentEncoding == "deflate"
    ensures c == Identity <==> contentEncoding != "gzip" && contentEncoding != "deflate"
  {
    if contentEncoding == "gzip" then Gzip
    else if contentEncoding == "deflate" then Deflate
    else Identity
  }

  /** A header value that selects the codec (absent header for identity). */
  function Token(c: Codec): string
  {
    match c
    case Gzip => "gzip"
    case Deflate => "deflate"
    case Identity => ""
  }

  /** `Token` and `Dispatch` are inverse on the two decompressors: every
      codec has a header value selecting it, and a value selecting a
      decompressor is that decompressor's name. */
  lemma DispatchToken(c: Codec, contentEncoding: string)
    ensures Dispatch(Token(c)) == c
    ensures Dispatch(contentEncoding) != Identity ==> Token(Dispatch(contentEncoding)) == contentEncoding
  {
  }

  /** Differently-cased or decorated names and an absent header select no
      decompressor. */
  lemma DispatchIsCaseSensitive()
    ensures Dispatch("GZIP") == Identity && Dispatch("Gzip") == Identity
    ensures Dispatch("DEFLATE") == Identity && Dispatch("x-gzip") == Identity
    ensures Dispatch("") == Identity
  {
  }

  /** The decompressors of `compress/gzip` and `compress/zlib`, left
      uninterpreted. Each takes the raw body stream and either fails while
      setting up (`gzip.NewReader` / `zlib.NewReader` returning an error)
      or gives the stream of decompressed bytes, whose own end may be a
      read error (corrupt data, or an error of the body underneath). */
  datatype Decoders = Decoders(
    gunzip: Stream -> Result<Stream, Error>,
    inflate: Stream -> Result<Stream, Error>)

  /** The reader the switch of `loadContent` assigns: a decompressor over
      the body, or the body itself. */
  function Open(c: Codec, d: Decoders, raw: Stream): (r: Result<Stream, Error>)
    ensures c == Identity ==> r == Success(raw)
  {
    match c
    case Gzip => d.gunzip(raw)
    case Deflate => d.inflate(raw)
    case Identity => Success(raw)
  }

  /** One uncached load: pick the reader by the header value, then read it
      to the end. */
  function Decode(contentEncoding: string, d: Decoders, raw: Stream): (r: Result<seq<bv8>, Error>)
    ensures contentEncoding == "gzip" && d.gunzip(raw).Failure? ==> r == Failure(d.gunzip(raw).error)
    ensures contentEncoding == "gzip" && d.gunzip(raw).Success? ==> r == Drain(d.gunzip(raw).value)
    ensures contentEncoding == "deflate" && d.inflate(raw).Failure? ==> r == Failure(d.inflate(raw).error)
    ensures contentEncoding == "deflate" && d.inflate(raw).Success? ==> r == Drain(d.inflate(raw).value)
    ensures contentEncoding != "gzip" && contentEncoding != "deflate" ==>
      (r.Success? <==> raw.end.None?) && (r.Success? ==> r.value == raw.data)
  {
    match Open(Dispatch(contentEncoding), d, raw)
    case Failure(e) => Failure(e)
    case Success(s) => Drain(s)
  }

  /** "gzip" and "deflate" decode through their decompressor: a setup error
      is returned as it is, otherwise the decompressed stream is drained. */
  lemma DecodeCompressed(contentEncoding: string, d: Decoders, raw: Stream)
    ensures contentEncoding == "gzip" ==>
      Decode(contentEncoding, d, raw) ==
        if d.gunzip(raw).Failure? then Failure(d.gunzip(raw).error) else Drain(d.gunzip(raw).value)
    ensures contentEncoding == "deflate" ==>
      Decode(contentEncoding, d, raw) ==
        if d.inflate(raw).Failure? then Failure(d.inflate(raw).error) else Drain(d.inflate(raw).value)
  {
  }

  /** Every other header value decodes the body byte for byte: the result
      is the body exactly when it ends normally, and its read error
      otherwise; whatever the decompressors would do plays no part. */
  lemma DecodeIdentity(contentEncoding: string, d: Decoders, body: seq<bv8>, fault: Option<Error>)
    requires contentEncoding != "gzip" && contentEncoding != "deflate"
    ensures fault.None? ==> Decode(contentEncoding, d, Stream(body, fault)) == Success(body)
    ensures fault.Some? ==> Decode(contentEncoding, d, Stream(body, fault)) == Failure(fault.value)
  {
  }

  /** An empty body that ends normally gives an empty, not an absent, payload
      when it is not compressed. */
  lemma EmptyBodyDecodesEmpty(d: Decoders)
    ensures Decode("", d, Stream([], None)) == Success([])
    ensures Decode("GZIP", d, Stream([], None)) == Success([])
  {
  }
}
