/**
 * downloadImageWithProgress: fetch an image, report progress through a callback while the
 * body streams in, assemble the bytes and hand them to the browser's save mechanism.
 *
 * The network is an input: a `Response` says whether fetch rejected, whether the status was
 * ok, the declared Content-Length (0 when absent), and what the body reader delivers. The
 * callback is modelled by the sequence of values it receives, in order; the save is modelled
 * by the file (name and bytes) it is handed; a thrown error is the outcome `Thrown`.
 */
module ImageDownload {

  type Byte = bv8
  type Bytes = seq<Byte>

  /** What reading the body yields. */
  datatype Body =
      /** `response.body.getReader()`: the chunks `read()` delivers in order, after which the
          next `read()` reports done, or rejects when `readFails`. */
    | Stream(chunks: seq<Bytes>, readFails: bool)
      /** No body stream: `response.blob()` yields all bytes at once, or rejects. */
    | Whole(bytes: Bytes, blobFails: bool)

  datatype Response =
    | FetchRejected
    | Response(ok: bool, contentLength: nat, body: Body)

  /** What is handed to the save: the anchor's download name and the blob's bytes. */
  datatype SavedFile = SavedFile(filename: string, bytes: Bytes)

  datatype Outcome = Saved(file: SavedFile) | Thrown

  /** The reported value that means "failed". */
  const FailedProgress: real := -1.0

  /** The bytes of a blob built from `chunks`, in order. */
  function Concat(chunks: seq<Bytes>): Bytes {
    if chunks == [] then [] else Concat(chunks[..|chunks| - 1]) + chunks[|chunks| - 1]
  }

  function SumLengths(chunks: seq<Bytes>): nat {
    if chunks == [] then 0 else SumLengths(chunks[..|chunks| - 1]) + |chunks[|chunks| - 1]|
  }

  /** The value reported after `received` of `contentLength` bytes have arrived. */
  function StreamProgress(received: nat, contentLength: nat): real
    requires contentLength > 0
  {
    30.0 + (received as real / contentLength as real) * 60.0
  }

  /** The values reported while the body streams: one per chunk, none when the length is unknown. */
  function StreamedValues(chunks: seq<Bytes>, contentLength: nat): seq<real> {
    if contentLength == 0 || chunks == [] then []
    else StreamedValues(chunks[..|chunks| - 1], contentLength) + [StreamProgress(SumLengths(chunks), contentLength)]
  }

  /** Pushing a chunk adds its length to the received count and, when the length is known, one
      reported value for the new count. */
  lemma StreamedValuesAppend(chunks: seq<Bytes>, c: Bytes, contentLength: nat)
    ensures SumLengths(chunks + [c]) == SumLengths(chunks) + |c|
    ensures StreamedValues(chunks + [c], contentLength) ==
      StreamedValues(chunks, contentLength) +
      (if contentLength == 0 then [] else [StreamProgress(SumLengths(chunks) + |c|, contentLength)])
  {
    assert (chunks + [c])[..|chunks|] == chunks;
  }

  /** Every value the progress callback receives, in order. */
  function DownloadTrace(response: Response): seq<real> {
    match response
    case FetchRejected => [10.0, FailedProgress]
    case Response(ok, contentLength, body) =>
      if !ok then [10.0, FailedProgress]
      else
        match body
        case Stream(chunks, readFails) =>
          [10.0, 30.0] + StreamedValues(chunks, contentLength) + (if readFails then [FailedProgress] else [95.0, 100.0])
        case Whole(_, blobFails) =>
          [10.0, 30.0] + (if blobFails then [FailedProgress] else [95.0, 100.0])
  }

  /** Whether the download throws, and otherwise what is saved. */
  function DownloadOutcome(filename: string, response: Response): Outcome {
    match response
    case FetchRejected => Thrown
    case Response(ok, _, body) =>
      if !ok then Thrown
      else
        match body
        case Stream(chunks, readFails) => if readFails then Thrown else Saved(SavedFile(filename, Concat(chunks)))
        case Whole(bytes, blobFails) => if blobFails then Thrown else Saved(SavedFile(filename, bytes))
  }

  method DownloadImageWithProgress(filename: string, response: Response) returns (progress: seq<real>, outcome: Outcome)
    ensures progress == DownloadTrace(response)
    ensures outcome == DownloadOutcome(filename, response)
  {
    progress := [10.0];
    if response.FetchRejected? || !response.ok {
      progress := progress + [FailedProgress];
      return progress, Thrown;
    }
    progress := progress + [30.0];
    var contentLength := response.contentLength;
    var receivedLength: nat := 0;
    var chunks: seq<Bytes> := [];
    match response.body {
      case Stream(source, readFails) =>
        var i := 0;
        while true
          invariant 0 <= i <= |source|
          invariant chunks == source[..i]
          invariant receivedLength == SumLengths(chunks)
          invariant progress == [10.0, 30.0] + StreamedValues(chunks, contentLength)
          decreases |source| - i
        {
          if i == |source| {
            assert chunks == source;
            if readFails {
              progress := progress + [FailedProgress];
              return progress, Thrown;
            }
            break;
          }
          var value := source[i];
          assert source[..i + 1] == chunks + [value];
          StreamedValuesAppend(chunks, value, contentLength);
          i := i + 1;
          chunks := chunks + [value];
          receivedLength := receivedLength + |value|;
          if contentLength != 0 {
            progress := progress + [StreamProgress(receivedLength, contentLength)];
          }
        }
        assert chunks == source;
      case Whole(bytes, blobFails) =>
        if blobFails {
          progress := progress + [FailedProgress];
          return progress, Thrown;
        }
        chunks := [bytes];
        assert Concat(chunks) == Concat([]) + bytes;
    }
    progress := progress + [95.0];
    var blob := Concat(chunks);
    outcome := Saved(SavedFile(filename, blob));
    progress := progress + [100.0];
  }

  // ---------------------------------------------------------------------------
  // Properties of the trace and of the assembled bytes

  lemma ConcatAppend(chunks: seq<Bytes>, c: Bytes)
    ensures Concat(chunks + [c]) == Concat(chunks) + c
    ensures SumLengths(chunks + [c]) == SumLengths(chunks) + |c|
  {
    assert (chunks + [c])[..|chunks|] == chunks;
  }

  /** The blob's size is the number of bytes received. */
  lemma {:induction false} ConcatLength(chunks: seq<Bytes>)
    ensures |Concat(chunks)| == SumLengths(chunks)
  {
    if chunks != [] {
      ConcatLength(chunks[..|chunks| - 1]);
    }
  }

  /** The blob holds the chunks one after the other: byte `j` of chunk `i` sits after all earlier chunks. */
  lemma {:induction false} ConcatInOrder(chunks: seq<Bytes>, i: nat, j: nat)
    requires i < |chunks| && j < |chunks[i]|
    ensures SumLengths(chunks[..i]) + j < |Concat(chunks)|
    ensures Concat(chunks)[SumLengths(chunks[..i]) + j] == chunks[i][j]
  {
    var n := |chunks| - 1;
    var init := chunks[..n];
    assert chunks == init + [chunks[n]];
    ConcatLength(init);
    if i == n {
      assert chunks[..i] == init;
    } else {
      assert chunks[..i] == init[..i];
      ConcatInOrder(init, i, j);
    }
  }

  lemma ProgressBounds(received: nat, contentLength: nat)
    requires contentLength > 0
    ensures StreamProgress(received, contentLength) >= 30.0
    ensures received <= contentLength ==> StreamProgress(received, contentLength) <= 90.0
  {
    var f := received as real / contentLength as real;
    assert f >= 0.0;
    if received <= contentLength {
      assert f * contentLength as real == received as real;
      assert f <= 1.0;
    }
  }

  lemma ProgressMonotone(r1: nat, r2: nat, contentLength: nat)
    requires contentLength > 0 && r1 <= r2
    ensures StreamProgress(r1, contentLength) <= StreamProgress(r2, contentLength)
  {
    var c := contentLength as real;
    assert r1 as real / c <= r2 as real / c;
  }

  lemma {:induction false} SumLengthsMonotone(chunks: seq<Bytes>, i: nat, j: nat)
    requires i <= j <= |chunks|
    ensures SumLengths(chunks[..i]) <= SumLengths(chunks[..j])
    decreases j - i
  {
    if i < j {
      assert chunks[..j][..j - 1] == chunks[..j - 1];
      SumLengthsMonotone(chunks, i, j - 1);
    }
  }

  /** One streamed value per chunk when Content-Length is known, none otherwise; the k-th is the
      progress after the first k + 1 chunks. */
  lemma {:induction false} StreamedValuesAt(chunks: seq<Bytes>, contentLength: nat)
    ensures |StreamedValues(chunks, contentLength)| == if contentLength == 0 then 0 else |chunks|
    ensures contentLength > 0 ==> forall k :: 0 <= k < |chunks| ==>
      StreamedValues(chunks, contentLength)[k] == StreamProgress(SumLengths(chunks[..k + 1]), contentLength)
  {
    if contentLength > 0 && chunks != [] {
      var init := chunks[..|chunks| - 1];
      StreamedValuesAt(init, contentLength);
      forall m | 0 < m < |chunks| ensures SumLengths(chunks[..m]) == SumLengths(init[..m]) {
        assert chunks[..m] == init[..m];
      }
      assert chunks[..|chunks|] == chunks;
    }
  }

  /** The streamed values never decrease, are at least 30, and stay at most 90 while no more bytes
      arrive than Content-Length declares. */
  lemma StreamedValuesBounds(chunks: seq<Bytes>, contentLength: nat)
    ensures forall i, j :: 0 <= i <= j < |StreamedValues(chunks, contentLength)| ==>
      StreamedValues(chunks, contentLength)[i] <= StreamedValues(chunks, contentLength)[j]
    ensures forall k :: 0 <= k < |StreamedValues(chunks, contentLength)| ==> StreamedValues(chunks, contentLength)[k] >= 30.0
    ensures SumLengths(chunks) <= contentLength ==>
      forall k :: 0 <= k < |StreamedValues(chunks, contentLength)| ==> StreamedValues(chunks, contentLength)[k] <= 90.0
  {
    var v := StreamedValues(chunks, contentLength);
    StreamedValuesAt(chunks, contentLength);
    if contentLength > 0 {
      forall i, j | 0 <= i <= j < |v| ensures v[i] <= v[j] {
        SumLengthsMonotone(chunks, i + 1, j + 1);
        ProgressMonotone(SumLengths(chunks[..i + 1]), SumLengths(chunks[..j + 1]), contentLength);
      }
      forall k | 0 <= k < |v|
        ensures v[k] >= 30.0
        ensures SumLengths(chunks) <= contentLength ==> v[k] <= 90.0
      {
        SumLengthsMonotone(chunks, k + 1, |chunks|);
        assert chunks[..|chunks|] == chunks;
        ProgressBounds(SumLengths(chunks[..k + 1]), contentLength);
      }
    }
  }

  /** The response is ok and every read succeeds. */
  predicate Succeeds(response: Response) {
    response.Response? && response.ok &&
    match response.body
    case Stream(_, readFails) => !readFails
    case Whole(_, blobFails) => !blobFails
  }

  /** No more bytes arrive than Content-Length declares, when it is declared. */
  predicate WithinDeclaredLength(response: Response) {
    response.Response? && response.body.Stream? && response.contentLength > 0 ==>
      SumLengths(response.body.chunks) <= response.contentLength
  }

  /** A download that does not throw reports 10, then 30, then the streamed values, then 95 and
      100, never the failure value, and saves the chunks' bytes in order under the given name. */
  lemma SuccessfulDownload(filename: string, response: Response)
    requires Succeeds(response)
    ensures DownloadOutcome(filename, response) == Saved(SavedFile(filename,
      if response.body.Stream? then Concat(response.body.chunks) else response.body.bytes))
    ensures var t := DownloadTrace(response);
      |t| >= 4 && t[0] == 10.0 && t[1] == 30.0 && t[|t| - 2] == 95.0 && t[|t| - 1] == 100.0 &&
      t[2..|t| - 2] == (if response.body.Stream? then StreamedValues(response.body.chunks, response.contentLength) else []) &&
      forall k :: 0 <= k < |t| ==> t[k] != FailedProgress
  {
    var t := DownloadTrace(response);
    if response.body.Stream? {
      var v := StreamedValues(response.body.chunks, response.contentLength);
      StreamedValuesBounds(response.body.chunks, response.contentLength);
      assert t == [10.0, 30.0] + v + [95.0, 100.0];
      assert t[2..|t| - 2] == v;
      forall k | 0 <= k < |t| ensures t[k] != FailedProgress {
        if 2 <= k < |t| - 2 { assert t[k] == v[k - 2]; }
      }
    }
  }

  /** A download that throws reports the failure value last and nowhere else; it reports 100 only
      when more bytes arrived than Content-Length declared. */
  lemma FailedDownload(filename: string, response: Response)
    requires !Succeeds(response)
    ensures DownloadOutcome(filename, response) == Thrown
    ensures var t := DownloadTrace(response);
      |t| >= 2 && t[0] == 10.0 && t[|t| - 1] == FailedProgress &&
      (forall k :: 0 <= k < |t| - 1 ==> t[k] != FailedProgress) &&
      (WithinDeclaredLength(response) ==> forall k :: 0 <= k < |t| ==> t[k] != 100.0)
  {
    var t := DownloadTrace(response);
    if response.Response? && response.ok && response.body.Stream? {
      var v := StreamedValues(response.body.chunks, response.contentLength);
      StreamedValuesBounds(response.body.chunks, response.contentLength);
      StreamedValuesAt(response.body.chunks, response.contentLength);
      assert t == [10.0, 30.0] + v + [FailedProgress];
      forall k | 2 <= k < |t| - 1 ensures t[k] == v[k - 2] {
      }
    }
  }

  /** -1 and 100 are reported only as the last value, so nothing follows a terminal report, as long
      as no more bytes arrive than Content-Length declares. */
  lemma TerminalValuesLast(response: Response)
    requires WithinDeclaredLength(response)
    ensures var t := DownloadTrace(response);
      forall k :: 0 <= k < |t| - 1 ==> t[k] != FailedProgress && t[k] != 100.0
  {
    var t := DownloadTrace(response);
    if response.Response? && response.ok && response.body.Stream? {
      var v := StreamedValues(response.body.chunks, response.contentLength);
      StreamedValuesBounds(response.body.chunks, response.contentLength);
      forall k | 2 <= k < 2 + |v| ensures t[k] == v[k - 2] {
      }
    }
  }

  /** When the body is longer than declared, a streamed value can be exactly 100 before the
      download has finished: 7 bytes against a Content-Length of 6 give 30 + 7/6 * 60 = 100. */
  lemma OverlongBodyReports100Early()
    ensures var r := Response(true, 6, Stream([[0, 0, 0, 0, 0, 0, 0]], false));
      DownloadTrace(r) == [10.0, 30.0, 100.0, 95.0, 100.0]
  {
    var c: seq<Bytes> := [[0, 0, 0, 0, 0, 0, 0]];
    assert c[..0] == [];
    assert SumLengths(c) == 7;
    assert StreamProgress(7, 6) == 100.0;
  }
}
