# Response wrapper of gorequests, modelled in Dafny

The Go package `requests4go` wraps `http.Response` in a `Response` that
loads the body once, on first use, and keeps the decoded bytes in its field
`content`. The loader `loadContent` returns the cache when it is set.
Otherwise it picks a reader by the exact `Content-Encoding` value: `"gzip"`
gives a gzip decompressor, `"deflate"` a zlib decompressor, and anything else
the body itself. It reads that reader to the end and stores the bytes only
when nothing failed. `Ok` checks the status code. `Read`, `Text`, `Content`,
`SimpleJSON`, `JSON` and `SaveContent` all go through the loader.

The model has these files:

- `wrappers.dfy`: `Option` (Go's nil) and `Result` (Go's `(value, error)` pairs).
- `streams.dfy`: Go errors (with `%w` wrapping), a stream as one read attempt sees it (its bytes, then end of stream or an error), one `Read` call, and `ReadAll` as a loop proved against `Drain`.
- `encoding.dfy`: the three-way dispatch `Dispatch`. It also has `Decoders`, which holds the gzip and zlib decompressors as uninterpreted function values, and `Decode`, one uncached load.
- `cache.dfy`: the memoisation as a pure state machine. `Load` is one call. `Replay` is any sequence of calls. The lemmas cover idempotence, at most one body read, and errors not being cached.
- `response.dfy`: the class `Response`. Its immutable status, header value, body and decoders are `const`s. The cache `content` and the counter `bodyReads` are `var`s. Each accessor is a method whose postcondition ties its result and the new state to `Load`.

Inputs from the environment are parameters. How the body stream ends on a
given call is `fault` (`None` is a normal end of stream). The JSON parsers are
function values. The results of `os.Create` and `f.Write` are `create` and
`writeErr`.

Three things the code does that a reader might not expect:

- Load errors are not cached, and a later call tries the load again.
- The header value is compared case-sensitively (`"GZIP"` means identity).
- `Read` always loads the whole payload and copies it from offset 0. It never passes the live stream through.

## Model

| member | source | states |
|---|---|---|
| `ResponseWrapper.Response.constructor` | response.go:41-46 | a new wrapper has an unset cache and has not read its body |
| `ResponseWrapper.Response.Ok` | response.go:49-51 | true exactly when the status is in the success or redirection class (200 to 399); it reads only the immutable status, so neither the cache nor the body is involved and no state changes |
| `ResponseWrapper.OkBoundaries` | response.go:49-51 | 199 is not ok, 200 and 399 are ok, 400 and 500 are not |
| `Streams.ReadAt` | response.go:154 | one `Read` call gives the next bytes of the stream, as many as fit and no error, until the data is used up; then it gives no bytes and io.EOF or the stream's error |
| `Streams.Drain` | response.go:154-157 | reading to exhaustion succeeds exactly when the stream ends normally, and then it yields all of its bytes; otherwise it yields the stream's error |
| `Streams.ReadAll` | response.go:154-157 | the read loop collects every byte, counts io.EOF as success (also on an empty stream) and returns any other error; this is proved equal to `Drain` |
| `Streams.Wrap` | response.go:97 | the wrapped error's message is the prefix followed by the cause's message, and unwrapping it gives the cause back |
| `Encoding.Dispatch` | response.go:142-153 | gzip is chosen exactly for `"gzip"`, zlib exactly for `"deflate"`, identity for every other value |
| `Encoding.DispatchToken` | response.go:142-153 | every codec is selected by its own header value, and a value that selects a decompressor is that decompressor's name |
| `Encoding.DispatchIsCaseSensitive` | response.go:142-153 | `"GZIP"`, `"Gzip"`, `"DEFLATE"`, `"x-gzip"` and an absent header select identity |
| `Encoding.Open` | response.go:142-153 | the identity codec's reader is the body stream itself |
| `Encoding.Decode` | response.go:135-157 | one uncached load: for `"gzip"` and `"deflate"` a decompressor setup error is the result and otherwise the decompressed stream is drained; for every other value the result is the body byte for byte exactly when it ends normally, and its error otherwise |
| `Encoding.DecodeCompressed` | response.go:142-150 | for `"gzip"` and `"deflate"`, a decompressor setup error is the load's error and otherwise the decompressed stream is drained |
| `Encoding.DecodeIdentity` | response.go:151-157 | for any other header value the load yields the body byte for byte when the body ends normally, and the body's read error otherwise |
| `Encoding.EmptyBodyDecodesEmpty` | response.go:151-159 | an empty uncompressed body loads as an empty payload, not as an absent one |
| `Cache.Load` | response.go:131-160 | a set cache is returned unchanged without reading the body; an unset cache reads the body once; success stores exactly the returned bytes; every failure leaves the cache unset |
| `Cache.Replay` | response.go:131-160 | a sequence of calls gives one result per call |
| `Cache.CachedIsStable` | response.go:132-134 | once set, the cache answers every later call with the same bytes, never changes and never reads the body |
| `Cache.SuccessIsFinal` | response.go:132-158 | a successful call returns exactly the bytes the cache holds after the whole sequence of calls |
| `Cache.SuccessesAgree` | response.go:132-158 | every successful call in any sequence returns exactly the bytes the cache finally holds, so all successful calls agree |
| `Cache.ReadOnceWhenAllSucceed` | response.go:132-158 | across any number of calls that all succeed, the body is read once (never, if the cache was already set) |
| `Cache.ErrorsAreNotCached` | response.go:144-157 | starting unset, a run of failing calls leaves the cache unset, and every one of them reads the body again |
| `Cache.FilledIffSomeSuccess` | response.go:154-159 | starting unset, the cache ends up set exactly when some call succeeded |
| `ResponseWrapper.Response.LoadContent` | response.go:131-160 | the result and the new cache and read count are those `Load` gives: cached bytes are returned without touching the body; otherwise the result is `Decode` of the body, a success is stored, and a failure leaves the cache unset |
| `ResponseWrapper.Response.Read` | response.go:66-72 | on a load error it returns 0 and that error; on empty content it returns 0 and io.EOF; otherwise it copies min(len(p), len(content)) bytes from offset 0 into `p`, leaves the rest of `p` as it was, and reports no error |
| `ResponseWrapper.ConsecutiveReadsAgree` | response.go:66-72 | after a successful read, a second read into a buffer of the same size returns the same count and the same bytes, not end of stream, and the body is read at most once across both |
| `ResponseWrapper.BytesToString` | response.go:80 | the text has one character per byte, each with that byte's code |
| `ResponseWrapper.TextRoundTrip` | response.go:80 | converting the text back gives the loaded bytes |
| `ResponseWrapper.Response.Text` | response.go:75-81 | the string of exactly the loaded bytes and no error, or `""` and the load error |
| `ResponseWrapper.Response.Content` | response.go:84-90 | exactly the loaded bytes, which are now cached, or nil and the load error |
| `ResponseWrapper.Response.SimpleJSON` | response.go:94-100 | on success, the parser's result unchanged; a load error comes back wrapped with the prefix "Json error: " and unwraps to the load error |
| `ResponseWrapper.Response.JSON` | response.go:123-129 | on success, the unmarshaller's result; a load error is returned unwrapped |
| `ResponseWrapper.Response.SaveContent` | response.go:103-120 | a failed file creation is returned before any load, so the cache and the body are untouched; otherwise the load runs as in `LoadContent`, and a load error (decompressor setup or body read) is returned with nothing written, or the loaded bytes are written and the write's error is returned |

## Left out

- `Close` (response.go:54-63) is not modelled. It drains the wrapper with `io.Copy(ioutil.Discard, r)`, which calls `Read` until io.EOF. `Read` restarts at offset 0 every time, so on non-empty content it never reports io.EOF, and no termination property can be stated. The later `Body.Close` only releases a resource.
- The deferred `reader.Close()` (response.go:137-139) is not modelled, and this has two consequences.
  - When `gzip.NewReader` fails (response.go:144-146), `reader` holds a nil `*gzip.Reader`. When `zlib.NewReader` fails (response.go:148-150), `reader` is a nil interface. In both cases the deferred `Close` panics in Go, so the caller never receives the setup error. The model returns that error from `LoadContent` and every accessor.
  - On the identity path `reader` is the body itself (response.go:152), so the deferred `Close` closes the body after every identity attempt, failed or not. In Go, a retry after a failed identity load therefore reads a closed body and fails. The model lets such a retry return the whole body, because it re-reads the same bytes and the retry's `fault` may be `None`. The lemmas about retries (`Cache.ErrorsAreNotCached`, `Cache.FilledIffSomeSuccess`) cover more call sequences than the program can produce.
- gzip, zlib, `encoding/json` and `simplejson` are foreign library calls. They are function values with no properties, and no compression format or JSON grammar is modelled.
- Header lookup (`Header.Get`, with its key canonicalisation and multiple values) is not modelled. The wrapper holds one string, the first `Content-Encoding` value, or `""` when the header is absent.
- File creation and writing in `SaveContent` are not performed. Only their outcomes enter, as the parameters `create` and `writeErr`, and the file name is not part of the model.
- Each load attempt sees the same raw body bytes, and only the way the stream ends (`fault`) varies per call. In Go a failed attempt has already consumed part of the stream, or closed it (see the deferred `Close` above), so a retry sees the rest of the stream or a closed body. The model describes a retry's effect by its `fault` alone. It cannot describe a retry that reads only the leftover bytes.
- `Content` returns the cached slice itself (response.go:89, with response.go:133 and response.go:158). A caller that writes into that slice changes what every later `Text`, `Content` and `Read` returns. Sequences in the model are values, so this aliasing cannot be expressed. The model assumes callers never write into the slice `Content` returns, and `Cache.CachedIsStable` holds only under that assumption.
- `bodyReads` counts attempts that touch the body. It does not count individual `Read` calls on the stream.
- `Streams.ReadAt` is a simplified `io.Reader`: it returns its error only after all its data, never together with data. Data returned alongside an error is discarded by the loader anyway, so this changes no result.
- The check `err != io.EOF` (response.go:155) is not modelled as a separate branch. `ioutil.ReadAll` turns io.EOF into success and never returns it.
- Concurrency is not modelled. The wrapper has no locking and is not meant to be shared between goroutines.
