/** The `Response` wrapper: an HTTP response whose decoded body is loaded on
    first use and kept in the field `content`, with accessors that all go
    through the loader. */
module ResponseWrapper {
  import opened Wrappers
  import opened Streams
  import opened Encoding
  import opened Cache

  /** The status classes of section 15 of RFC 9110 (the first digit of the code). */
  datatype StatusClass = Informational | Successful | Redirection | ClientError | ServerError | Nonstandard

  function ClassOf(code: int): StatusClass
  {
    if 100 <= code < 200 then Informational
    else if 200 <= code < 300 then Successful
    else if 300 <= code < 400 then Redirection
    else if 400 <= code < 500 then ClientError
    else if 500 <= code < 600 then ServerError
    else Nonstandard
  }

  /** Go's `string(b)`. A Go string is a byte sequence; here each byte
      becomes the character with the same code, so nothing is decoded,
      merged or dropped. */
  function BytesToString(b: seq<bv8>): (s: string)
    ensures |s| == |b|
    ensures forall i :: 0 <= i < |s| ==> s[i] as int == b[i] as int
  {
    seq(|b|, i requires 0 <= i < |b| => (b[i] as int) as char)
  }

  /** Go's `[]byte(s)` for a string produced by `BytesToString`. */
  function StringToBytes(s: string): seq<bv8>
    requires forall i :: 0 <= i < |s| ==> s[i] as int < 256
  {
    seq(|s|, i requires 0 <= i < |s| => (s[i] as int) as bv8)
  }

  /** The text view loses nothing: converting it back gives the same bytes. */
  lemma TextRoundTrip(b: seq<bv8>)
    ensures var s := BytesToString(b);
      (forall i :: 0 <= i < |s| ==> s[i] as int < 256) && StringToBytes(s) == b
  {
  }

  /** Prefix `SimpleJSON` puts in front of a load error. */
  const JsonErrorPrefix: string := "Json error: "

  class Response {
    /** The status code, the first Content-Encoding value (`""` when the
        header is absent), the raw body bytes and the decompressors never
        change; `content` is the cache and `bodyReads` counts the loads that
        read the body. */
    const status: int
    const contentEncoding: string
    const body: seq<bv8>
    const decoders: Decoders
    var content: Option<seq<bv8>>
    var bodyReads: nat

    /** `NewResponse`: an unset cache, nothing read yet. */
    constructor (status: int, contentEncoding: string, body: seq<bv8>, decoders: Decoders)
      ensures this.status == status && this.contentEncoding == contentEncoding
      ensures this.body == body && this.decoders == decoders
      ensures content == None && bodyReads == 0
    {
      this.status := status;
      this.contentEncoding := contentEncoding;
      this.body := body;
      this.decoders := decoders;
      content := None;
      bodyReads := 0;
    }

    /** True exactly for the success and redirection classes, 200 to 399. It
        reads only the immutable status, never the cache or the body. */
    function Ok(): (r: bool)
      ensures r <==> ClassOf(status) == Successful || ClassOf(status) == Redirection
    {
      status < 400 && status >= 200
    }

    /** What the next load does, for the way the body ends on that call. */
    function NextLoad(fault: Option<Error>): Attempt
      reads this
    {
      Load(content, contentEncoding, decoders, body, fault)
    }

    /** The object is in the state load `a` leaves, `reads0` being the
        number of body reads before it. */
    predicate Became(a: Attempt, reads0: nat)
      reads this
    {
      content == a.next && bodyReads == reads0 + a.bodyReads
    }

    /** `loadContent`: return the cache when it is set; otherwise pick the
        reader by the exact header value, read it to the end, and store the
        bytes only when every step succeeded. */
    method LoadContent(fault: Option<Error>) returns (r: Result<seq<bv8>, Error>)
      modifies this
      ensures r == old(NextLoad(fault)).result && Became(old(NextLoad(fault)), old(bodyReads))
      ensures old(content).Some? ==> r == Success(old(content).value) && content == old(content) && bodyReads == old(bodyReads)
      ensures old(content).None? ==> r == Decode(contentEncoding, decoders, Stream(body, fault)) && bodyReads == old(bodyReads) + 1
      ensures r.Success? ==> content == Some(r.value)
      ensures r.Failure? ==> content == None
    {
      if content.Some? {
        return Success(content.value);
      }
      bodyReads := bodyReads + 1;
      var raw := Stream(body, fault);
      var reader: Result<Stream, Error>;
      if contentEncoding == "gzip" {
        reader := decoders.gunzip(raw);
      } else if contentEncoding == "deflate" {
        reader := decoders.inflate(raw);
      } else {
        reader := Success(raw);
      }
      if reader.Failure? {
        return Failure(reader.error);
      }
      var read := ReadAll(reader.value);
      if read.Failure? {
        return Failure(read.error);
      }
      content := Some(read.value);
      return Success(read.value);
    }

    /** `Read`: load, then copy from offset 0 of the content into `p`, as a
        fresh `bytes.Reader` does; no position is kept between calls. */
    method Read(p: array<bv8>, fault: Option<Error>) returns (n: nat, signal: Signal)
      modifies this, p
      ensures n <= p.Length
      ensures Became(old(NextLoad(fault)), old(bodyReads))
      ensures var loaded := old(NextLoad(fault)).result;
        (loaded.Failure? ==> n == 0 && signal == Fault(loaded.error) && p[..] == old(p[..])) &&
        (loaded.Success? && |loaded.value| == 0 ==> n == 0 && signal == Eof && p[..] == old(p[..])) &&
        (loaded.Success? && |loaded.value| > 0 ==>
           signal == NoError &&
           n == (if p.Length < |loaded.value| then p.Length else |loaded.value|) &&
           p[..n] == loaded.value[..n] && p[n..] == old(p[n..]))
    {
      var loaded := LoadContent(fault);
      if loaded.Failure? {
        return 0, Fault(loaded.error);
      }
      var c := loaded.value;
      if |c| == 0 {
        return 0, Eof;
      }
      n := if p.Length < |c| then p.Length else |c|;
      var i := 0;
      while i < n
        invariant 0 <= i <= n
        invariant forall k :: 0 <= k < i ==> p[k] == c[k]
        invariant forall k :: i <= k < p.Length ==> p[k] == old(p[k])
        modifies p
      {
        p[i] := c[i];
        i := i + 1;
      }
      assert p[..n] == c[..n];
      return n, NoError;
    }

    /** `Text`: the loaded bytes as a string, or `""` and the load error. */
    method Text(fault: Option<Error>) returns (s: string, err: Option<Error>)
      modifies this
      ensures Became(old(NextLoad(fault)), old(bodyReads))
      ensures var loaded := old(NextLoad(fault)).result;
        (loaded.Success? ==> s == BytesToString(loaded.value) && err == None) &&
        (loaded.Failure? ==> s == "" && err == Some(loaded.error))
    {
      var loaded := LoadContent(fault);
      if loaded.Failure? {
        return "", Some(loaded.error);
      }
      return BytesToString(loaded.value), None;
    }

    /** `Content`: the loaded bytes, or nil and the load error. */
    method Content(fault: Option<Error>) returns (r: Result<seq<bv8>, Error>)
      modifies this
      ensures Became(old(NextLoad(fault)), old(bodyReads))
      ensures r == old(NextLoad(fault)).result
      ensures r.Success? ==> content == Some(r.value)
    {
      r := LoadContent(fault);
    }

    /** `SimpleJSON`: parse the loaded bytes with `newJson` (the uninterpreted
        `simplejson.NewJson`), returning its result as it is; a load error
        comes back wrapped under "Json error: ". */
    method SimpleJSON<J>(newJson: seq<bv8> -> Result<J, Error>, fault: Option<Error>) returns (r: Result<J, Error>)
      modifies this
      ensures Became(old(NextLoad(fault)), old(bodyReads))
      ensures var loaded := old(NextLoad(fault)).result;
        (loaded.Success? ==> r == newJson(loaded.value)) &&
        (loaded.Failure? ==> r.Failure? && Unwrap(r.error) == Some(loaded.error) &&
                             Message(r.error) == JsonErrorPrefix + Message(loaded.error))
    {
      var loaded := LoadContent(fault);
      if loaded.Failure? {
        return Failure(Wrap(JsonErrorPrefix, loaded.error));
      }
      return newJson(loaded.value);
    }

    /** `JSON`: unmarshal the loaded bytes with `unmarshal` (the
        uninterpreted `json.Unmarshal`, its decoded value standing for what
        it writes into `v`); a load error passes through unwrapped. */
    method JSON<V>(unmarshal: seq<bv8> -> Result<V, Error>, fault: Option<Error>) returns (r: Result<V, Error>)
      modifies this
      ensures Became(old(NextLoad(fault)), old(bodyReads))
      ensures var loaded := old(NextLoad(fault)).result;
        (loaded.Success? ==> r == unmarshal(loaded.value)) &&
        (loaded.Failure? ==> r == Failure(loaded.error))
    {
      var loaded := LoadContent(fault);
      if loaded.Failure? {
        return Failure(loaded.error);
      }
      return unmarshal(loaded.value);
    }

    /** `SaveContent`: `create` is the outcome of `os.Create(filename)` and
        `writeErr` that of `f.Write`. The file is created before the content
        is loaded, so a failed create returns without touching the body;
        otherwise the loaded bytes are what is handed to the write. */
    method SaveContent(create: Option<Error>, writeErr: Option<Error>, fault: Option<Error>)
      returns (err: Option<Error>, written: Option<seq<bv8>>)
      modifies this
      ensures create.Some? ==> err == create && written == None && content == old(content) && bodyReads == old(bodyReads)
      ensures create.None? ==> Became(old(NextLoad(fault)), old(bodyReads))
      ensures var loaded := old(NextLoad(fault)).result;
        create.None? ==>
          (loaded.Failure? ==> err == Some(loaded.error) && written == None) &&
          (loaded.Success? ==> written == Some(loaded.value) && err == writeErr)
    {
      if create.Some? {
        return create, None;
      }
      var loaded := LoadContent(fault);
      if loaded.Failure? {
        return Some(loaded.error), None;
      }
      return writeErr, Some(loaded.value);
    }
  }

  /** `Read` keeps no position: once a read has succeeded, a second read
      into a buffer of the same size reports the same count and the same
      bytes, never end of stream, without reading the body again. */
  method ConsecutiveReadsAgree(r: Response, p: array<bv8>, q: array<bv8>, f1: Option<Error>, f2: Option<Error>)
    returns (n1: nat, s1: Signal, n2: nat, s2: Signal)
    requires p.Length == q.Length
    modifies r, p, q
    ensures n1 <= p.Length && n2 <= q.Length
    ensures s1 == NoError ==> s2 == NoError && n2 == n1 && q[..n2] == p[..n1]
    ensures s1 == NoError ==> r.bodyReads <= old(r.bodyReads) + 1
  {
    n1, s1 := r.Read(p, f1);
    n2, s2 := r.Read(q, f2);
  }

  /** The boundaries of `Ok`. */
  lemma OkBoundaries(r: Response)
    ensures r.status == 199 ==> !r.Ok()
    ensures r.status == 200 || r.status == 399 ==> r.Ok()
    ensures r.status == 400 || r.status == 500 ==> !r.Ok()
  {
  }
}
