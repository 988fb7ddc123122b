/**
 * One transfer: `rateLimitedReader.Read` (main.go:56-62) and the byte accounting of
 * `downloadFile` (main.go:65-105). The network is reduced to the outcome of building and
 * sending the request and to the sequence of `(n, err)` results the response body's `Read`
 * returns; the token bucket is reduced to the record of its `WaitN(n)` calls.
 */
module Download {
  import opened Common
  import opened Stats

  /** An error a body `Read` may return; `EOF` marks the normal end of the body. */
  datatype StreamError = EOF | Broken(reason: string)

  /** One result `(n, err)` of the response body's `Read`. */
  datatype ReadResult = ReadResult(n: nat, err: Option<StreamError>)

  /** What one call of `rateLimitedReader.Read` does: the result it returns and the `WaitN` argument, if it calls the limiter. */
  datatype LimitedRead = LimitedRead(passed: ReadResult, waitN: Option<nat>)

  /**
   * `rateLimitedReader.Read`: the underlying result is passed through unchanged, and the
   * limiter is asked for exactly `n` tokens when `n > 0` and not asked otherwise. The
   * limiter's own error is discarded, so it never changes what the read returns.
   */
  function Limit(r: ReadResult): (l: LimitedRead)
    ensures l.passed == r
    ensures l.waitN.Some? <==> r.n > 0
    ensures l.waitN.Some? ==> l.waitN.value == r.n
  {
    LimitedRead(r, if r.n > 0 then Some(r.n) else None)
  }

  /** What `io.Copy(io.Discard, reader)` reports: bytes copied and the error, EOF counting as none. */
  datatype CopyResult = CopyResult(written: nat, err: Option<string>)

  /** The error `io.Copy` returns for a read that ends the copy. */
  function Reported(e: StreamError): (r: Option<string>)
    ensures r.None? <==> e.EOF?
  {
    if e.EOF? then None else Some(e.reason)
  }

  /**
   * Reference definition of the copy into `io.Discard`: every read's `n` is counted, the
   * first read that carries an error ends the copy, and EOF is reported as success. The
   * given results are the whole body: past them the body answers `(0, EOF)`.
   */
  function CopySpec(results: seq<ReadResult>): CopyResult
  {
    if results == [] then CopyResult(0, None)
    else if results[0].err.Some? then CopyResult(results[0].n, Reported(results[0].err.value))
    else
      var rest := CopySpec(results[1..]);
      CopyResult(results[0].n + rest.written, rest.err)
  }

  /** The `WaitN` arguments, in call order, for the reads the copy performs. */
  function Charges(results: seq<ReadResult>): seq<nat>
  {
    if results == [] then []
    else
      var l := Limit(results[0]);
      var here := if l.waitN.Some? then [l.waitN.value] else [];
      if results[0].err.Some? then here else here + Charges(results[1..])
  }

  /** Every byte the copy counts was first charged to the limiter, and nothing else was. */
  lemma {:induction false} ChargesCoverCopy(results: seq<ReadResult>)
    ensures Sum(Charges(results)) == CopySpec(results).written
    ensures forall i :: 0 <= i < |Charges(results)| ==> Charges(results)[i] > 0
  {
    if results != [] {
      var r := results[0];
      var here := if r.n > 0 then [r.n] else [];
      assert Sum(here) == r.n by {
        if r.n > 0 { assert here[..0] == []; }
      }
      if r.err.None? {
        ChargesCoverCopy(results[1..]);
        SumConcat(here, Charges(results[1..]));
      }
    }
  }

  /**
   * The copy loop of `io.Copy(io.Discard, reader)` over the rate-limited reader: it
   * computes the reference result and makes exactly the limiter calls `Charges` lists.
   */
  method Copy(results: seq<ReadResult>) returns (written: nat, err: Option<string>, waits: seq<nat>)
    ensures CopyResult(written, err) == CopySpec(results)
    ensures waits == Charges(results)
  {
    written, err, waits := 0, None, [];
    var i := 0;
    while i < |results|
      invariant 0 <= i <= |results|
      invariant CopySpec(results) == CopyResult(written + CopySpec(results[i..]).written, CopySpec(results[i..]).err)
      invariant Charges(results) == waits + Charges(results[i..])
      invariant err.None?
    {
      assert results[i..][1..] == results[i + 1..];
      var l := Limit(results[i]);
      if l.waitN.Some? {
        waits := waits + [l.waitN.value];
      }
      written := written + l.passed.n;
      if l.passed.err.Some? {
        err := Reported(l.passed.err.value);
        return;
      }
      i := i + 1;
    }
  }

  /** Outcome of `http.NewRequest` and `client.Do`. */
  datatype RequestOutcome = NewRequestFailed(reason: string) | DoFailed(reason: string) | Responded

  /** The error `downloadFile` returns. */
  datatype DownloadError =
    | RequestError(reason: string)    // from http.NewRequest, returned as is
    | TransportError(reason: string)  // from client.Do, returned as is
    | TransferError(reason: string)   // from io.Copy, wrapped as "download error: ..."

  /** What one `downloadFile` call does to the counter (`added`, absent when `add` is not called) and what it returns. */
  datatype Accounting = Accounting(added: Option<nat>, err: Option<DownloadError>)

  /**
   * Reference definition of `downloadFile`'s accounting: a failed request adds nothing and
   * returns its error; otherwise the counter is increased by the bytes `io.Copy` reports,
   * even when the copy ends with an error, and that error is returned.
   */
  function Outcome(request: RequestOutcome, body: seq<ReadResult>): (a: Accounting)
    ensures a.added.Some? <==> request.Responded?
    ensures request.NewRequestFailed? ==> a.err == Some(RequestError(request.reason))
    ensures request.DoFailed? ==> a.err == Some(TransportError(request.reason))
    ensures request.Responded? ==> a.added.value == Sum(Charges(body))
    ensures request.Responded? ==> (a.err.None? <==> CopySpec(body).err.None?)
  {
    match request
    case NewRequestFailed(e) => Accounting(None, Some(RequestError(e)))
    case DoFailed(e) => Accounting(None, Some(TransportError(e)))
    case Responded =>
      ChargesCoverCopy(body);
      var c := CopySpec(body);
      Accounting(Some(c.written), if c.err.Some? then Some(TransferError(c.err.value)) else None)
  }

  /**
   * A transfer that breaks off: reads without error followed by one read that fails with a
   * broken connection. The counter still grows by every byte read, the partial last read
   * included, and the failure is returned.
   */
  lemma {:induction false} BrokenTransferCounted(good: seq<ReadResult>, last: nat, reason: string)
    requires forall i :: 0 <= i < |good| ==> good[i].err.None?
    ensures var a := Outcome(Responded, good + [ReadResult(last, Some(Broken(reason)))]);
      a.added == Some(CopySpec(good).written + last) && a.err == Some(TransferError(reason))
    decreases |good|
  {
    var tail := [ReadResult(last, Some(Broken(reason)))];
    if good == [] {
      assert good + tail == tail;
    } else {
      assert (good + tail)[1..] == good[1..] + tail;
      BrokenTransferCounted(good[1..], last, reason);
    }
  }

  /**
   * `downloadFile` against the shared counter: when the request fails the counter is left
   * alone and the limiter is never called; otherwise exactly one `add` of the copied byte
   * count happens, whatever error the copy ends with.
   */
  method DownloadFile(stats: ByteCounter, request: RequestOutcome, body: seq<ReadResult>)
    returns (err: Option<DownloadError>, waits: seq<nat>)
    requires stats.Valid()
    modifies stats
    ensures stats.Valid()
    ensures err == Outcome(request, body).err
    ensures Outcome(request, body).added.None? ==> stats.pending == old(stats.pending) && stats.total == old(stats.total)
    ensures Outcome(request, body).added.Some? ==> stats.pending == old(stats.pending) + [Outcome(request, body).added.value]
    ensures waits == if request.Responded? then Charges(body) else []
  {
    match request
    case NewRequestFailed(e) =>
      return Some(RequestError(e)), [];
    case DoFailed(e) =>
      return Some(TransportError(e)), [];
    case Responded =>
      var n, copyErr;
      n, copyErr, waits := Copy(body);
      stats.Add(n);
      err := if copyErr.Some? then Some(TransferError(copyErr.value)) else None;
  }

  /** A connection that drops after 500 bytes: 500 bytes are counted and the error is returned. */
  lemma DroppedConnectionExample()
    ensures Outcome(Responded, [ReadResult(500, None), ReadResult(0, Some(Broken("reset")))])
      == Accounting(Some(500), Some(TransferError("reset")))
  {
    BrokenTransferCounted([ReadResult(500, None)], 0, "reset");
    assert [ReadResult(500, None)] + [ReadResult(0, Some(Broken("reset")))]
      == [ReadResult(500, None), ReadResult(0, Some(Broken("reset")))];
  }
}
