/** The memoisation of `loadContent` as a pure state machine: the cache is
    either unset or holds the decoded bytes, a call on a set cache returns
    it without reading the body, and only a successful load fills it. */
module Cache {
  import opened Wrappers
  import opened Streams
  import opened Encoding

  /** The effect of one call: the cache afterwards, what the call returns,
      and how many times it read the body (0 or 1). */
  datatype Attempt = Attempt(next: Option<seq<bv8>>, result: Result<seq<bv8>, Error>, bodyReads: nat)

  /** One `loadContent` call on cache `cached`, for header value
      `contentEncoding`, raw body bytes `body`, and `fault`, the way the
      body stream ends on this call. */
  function Load(cached: Option<seq<bv8>>, contentEncoding: string, d: Decoders,
                body: seq<bv8>, fault: Option<Error>): (a: Attempt)
    ensures cached.Some? ==> a == Attempt(cached, Success(cached.value), 0)
    ensures cached.None? ==> a.bodyReads == 1 && a.result == Decode(contentEncoding, d, Stream(body, fault))
    ensures a.result.Success? ==> a.next == Some(a.result.value)
    ensures a.result.Failure? ==> a.next == None
  {
    if cached.Some? then
      Attempt(cached, Success(cached.value), 0)
    else
      var r := Decode(contentEncoding, d, Stream(body, fault));
      Attempt(if r.Success? then Some(r.value) else None, r, 1)
  }

  /** The effect of a sequence of calls: what each returned, the cache at
      the end, and how often the body was read in all. */
  datatype Trace = Trace(results: seq<Result<seq<bv8>, Error>>, final: Option<seq<bv8>>, bodyReads: nat)

  /** Calls `loadContent` once per entry of `faults`, starting on cache
      `cached`; entry i is how the body stream ends on call i. */
  function Replay(cached: Option<seq<bv8>>, contentEncoding: string, d: Decoders,
                  body: seq<bv8>, faults: seq<Option<Error>>): (t: Trace)
    ensures |t.results| == |faults|
    decreases |faults|
  {
    if faults == [] then
      Trace([], cached, 0)
    else
      var a := Load(cached, contentEncoding, d, body, faults[0]);
      var rest := Replay(a.next, contentEncoding, d, body, faults[1..]);
      Trace([a.result] + rest.results, rest.final, a.bodyReads + rest.bodyReads)
  }

  /** On a set cache, every call returns the cached bytes, the cache never
      changes and the body is never read. */
  lemma {:induction false} CachedIsStable(cached: Option<seq<bv8>>, contentEncoding: string, d: Decoders,
                                          body: seq<bv8>, faults: seq<Option<Error>>)
    requires cached.Some?
    ensures var t := Replay(cached, contentEncoding, d, body, faults);
      t.final == cached && t.bodyReads == 0 &&
      forall i :: 0 <= i < |t.results| ==> t.results[i] == Success(cached.value)
  {
    if faults != [] {
      CachedIsStable(cached, contentEncoding, d, body, faults[1..]);
    }
  }

  /** A successful call returns exactly the bytes the cache holds at the end. */
  lemma {:induction false} SuccessIsFinal(cached: Option<seq<bv8>>, contentEncoding: string, d: Decoders,
                                          body: seq<bv8>, faults: seq<Option<Error>>, i: nat)
    requires i < |faults|
    requires Replay(cached, contentEncoding, d, body, faults).results[i].Success?
    ensures var t := Replay(cached, contentEncoding, d, body, faults);
      t.final == Some(t.results[i].value)
    decreases |faults|
  {
    var t := Replay(cached, contentEncoding, d, body, faults);
    var a := Load(cached, contentEncoding, d, body, faults[0]);
    var rest := Replay(a.next, contentEncoding, d, body, faults[1..]);
    assert t == Trace([a.result] + rest.results, rest.final, a.bodyReads + rest.bodyReads);
    if i == 0 {
      assert a.result.Success? && a.next == Some(a.result.value);
      CachedIsStable(a.next, contentEncoding, d, body, faults[1..]);
    } else {
      assert t.results[i] == rest.results[i - 1];
      SuccessIsFinal(a.next, contentEncoding, d, body, faults[1..], i - 1);
    }
  }

  /** Idempotence: every successful call returns exactly the bytes the cache
      holds at the end, so any two successful calls return the same bytes. */
  lemma {:induction false} SuccessesAgree(cached: Option<seq<bv8>>, contentEncoding: string, d: Decoders,
                                          body: seq<bv8>, faults: seq<Option<Error>>)
    ensures var t := Replay(cached, contentEncoding, d, body, faults);
      forall i :: 0 <= i < |t.results| && t.results[i].Success? ==> t.final == Some(t.results[i].value)
  {
    var t := Replay(cached, contentEncoding, d, body, faults);
    forall i | 0 <= i < |t.results| && t.results[i].Success?
      ensures t.final == Some(t.results[i].value)
    {
      SuccessIsFinal(cached, contentEncoding, d, body, faults, i);
    }
  }

  /** Across any number of calls that all succeed, the body is read at most
      once, and not at all when the cache was already set. */
  lemma {:induction false} ReadOnceWhenAllSucceed(cached: Option<seq<bv8>>, contentEncoding: string, d: Decoders,
                                                  body: seq<bv8>, faults: seq<Option<Error>>)
    ensures var t := Replay(cached, contentEncoding, d, body, faults);
      (forall i :: 0 <= i < |t.results| ==> t.results[i].Success?) ==>
        t.bodyReads == if cached.None? && faults != [] then 1 else 0
    decreases |faults|
  {
    if faults != [] {
      var a := Load(cached, contentEncoding, d, body, faults[0]);
      if a.next.Some? {
        CachedIsStable(a.next, contentEncoding, d, body, faults[1..]);
      } else {
        assert Replay(cached, contentEncoding, d, body, faults).results[0] == a.result;
      }
    }
  }

  /** Errors are not cached: on an unset cache, a run of failing calls leaves
      the cache unset and every one of them reads the body again. */
  lemma {:induction false} ErrorsAreNotCached(contentEncoding: string, d: Decoders,
                                              body: seq<bv8>, faults: seq<Option<Error>>)
    ensures var t := Replay(None, contentEncoding, d, body, faults);
      (forall i :: 0 <= i < |t.results| ==> t.results[i].Failure?) ==>
        t.final == None && t.bodyReads == |faults|
  {
    if faults != [] {
      var t := Replay(None, contentEncoding, d, body, faults);
      var rest := Replay(Load(None, contentEncoding, d, body, faults[0]).next, contentEncoding, d, body, faults[1..]);
      if forall i :: 0 <= i < |t.results| ==> t.results[i].Failure? {
        assert t.results[0].Failure?;
        assert forall i :: 0 <= i < |rest.results| ==> rest.results[i] == t.results[i + 1];
        ErrorsAreNotCached(contentEncoding, d, body, faults[1..]);
      }
    }
  }

  /** Starting unset, the cache ends up set exactly when some call succeeded. */
  lemma {:induction false} FilledIffSomeSuccess(contentEncoding: string, d: Decoders,
                                                body: seq<bv8>, faults: seq<Option<Error>>)
    ensures var t := Replay(None, contentEncoding, d, body, faults);
      t.final.Some? <==> exists i :: 0 <= i < |t.results| && t.results[i].Success?
  {
    if faults != [] {
      var t := Replay(None, contentEncoding, d, body, faults);
      var a := Load(None, contentEncoding, d, body, faults[0]);
      var rest := Replay(a.next, contentEncoding, d, body, faults[1..]);
      assert forall i :: 0 <= i < |rest.results| ==> rest.results[i] == t.results[i + 1];
      if a.result.Success? {
        CachedIsStable(a.next, contentEncoding, d, body, faults[1..]);
        assert t.results[0].Success?;
      } else {
        FilledIffSomeSuccess(contentEncoding, d, body, faults[1..]);
        if rest.final.Some? {
          var j :| 0 <= j < |rest.results| && rest.results[j].Success?;
          assert t.results[j + 1].Success?;
        }
      }
    }
  }
}
