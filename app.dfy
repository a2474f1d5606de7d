/**
 * The App component's state and its two handlers: `handleFetch`, which validates the input,
 * extracts the video id, steps the scan progress and fills in the thumbnail data, and
 * `addToQueue`, which adds a download entry and drives it through the download's reports.
 *
 * Each `setX` call is an assignment to the field `x`; the queue transforms are those of
 * DownloadQueue. The timer delays of the scan are not modelled, and a download runs to its end
 * inside one call: updates of concurrent downloads commute (DownloadQueue.UpdatesCommute).
 */
module AppState {
  import opened Types
  import opened VideoIdExtraction
  import opened Thumbnails
  import opened ImageDownload
  import opened DownloadQueue

  datatype AppError = EmptySignal | ProtocolError {
    function Code(): string {
      match this
      case EmptySignal => "EMPTY_SIGNAL"
      case ProtocolError => "PROTOCOL_ERROR"
    }
    function Message(): string {
      match this
      case EmptySignal => "Input buffer is empty. Provide a valid YouTube URL."
      case ProtocolError => "The provided URL signature does not match any recognized YouTube patterns."
    }
  }

  /** The characters `String.prototype.trim` removes: white space and line terminators. */
  predicate IsTrimmed(c: char) {
    c == '\t' || c == '\U{000B}' || c == '\U{000C}' || c == ' ' || c == '\U{00A0}' || c == '\U{FEFF}' ||
    c == '\U{1680}' || ('\U{2000}' <= c <= '\U{200A}') || c == '\U{202F}' || c == '\U{205F}' || c == '\U{3000}' ||
    IsLineTerminator(c)
  }

  /** `!url.trim()`: the input is empty once trimmed. */
  predicate IsBlank(s: string) {
    forall k :: 0 <= k < |s| ==> IsTrimmed(s[k])
  }

  /** `{videoId, ...getThumbnailUrls(videoId)}` */
  function MakeThumbnailData(videoId: string): (d: ThumbnailData)
    ensures d.videoId == videoId
    ensures forall t :: d.Get(t) == GetThumbnailUrls(videoId).Get(t)
  {
    var u := GetThumbnailUrls(videoId);
    ThumbnailData(videoId, u.maxRes, u.hq, u.mq, u.sd)
  }

  /** How `handleFetch` ends: rejected with an error code, or with the extracted video id. */
  datatype FetchResult = Rejected(err: AppError) | Fetched(videoId: string)

  /** The decision `handleFetch` makes: blank input first, then the extraction. */
  function FetchOutcome(url: string): (r: FetchResult)
    ensures r.Fetched? ==> |r.videoId| == 11
  {
    if IsBlank(url) then Rejected(EmptySignal)
    else
      match ExtractVideoId(url)
      case None => Rejected(ProtocolError)
      case Some(videoId) => Fetched(videoId)
  }

  /** The values the scan progress steps through. */
  const ScanIntervals: seq<nat> := [10, 35, 62, 88, 100]

  /** The name the image is saved under: `cyberthum-<videoId>-<res>.jpg`. */
  function SaveName(videoId: string, res: string): string {
    "cyberthum-" + videoId + "-" + res + ".jpg"
  }

  /** The inverse of SaveName for the 11-character ids the extractor produces. */
  function ParseSaveName(name: string): (r: Option<(string, string)>)
    ensures r.Some? ==> |r.value.0| == 11 && name == SaveName(r.value.0, r.value.1)
  {
    if |name| >= 26 && name[..10] == "cyberthum-" && name[21] == '-' && name[|name| - 4..] == ".jpg" then
      var videoId := name[10..21];
      var res := name[22..|name| - 4];
      assert name == name[..10] + videoId + [name[21]] + res + name[|name| - 4..];
      Some((videoId, res))
    else None
  }

  lemma SaveNameRoundTrip(videoId: string, res: string)
    requires |videoId| == 11
    ensures ParseSaveName(SaveName(videoId, res)) == Some((videoId, res))
  {
    var name := SaveName(videoId, res);
    assert name[..10] == "cyberthum-";
    assert name[10..21] == videoId;
    assert name[21] == '-';
    assert name[22..|name| - 4] == res;
    assert name[|name| - 4..] == ".jpg";
  }

  /** Two downloads of 11-character ids share a file name exactly when they agree on id and tier. */
  lemma SaveNameInjective(v1: string, r1: string, v2: string, r2: string)
    requires |v1| == 11 && |v2| == 11
    ensures SaveName(v1, r1) == SaveName(v2, r2) <==> v1 == v2 && r1 == r2
  {
    SaveNameRoundTrip(v1, r1);
    SaveNameRoundTrip(v2, r2);
  }

  /** The entry a new download starts as. */
  function NewItem(downloadId: string, videoId: string, res: string): DownloadQueueItem {
    DownloadQueueItem(downloadId, videoId, res, 0.0, Pending)
  }

  /** The queue once `item` has been added and its download has finished: it is added, marked
      downloading, receives every reported value, and is marked failed if the download threw. */
  function QueueAfterAdd(queue: seq<DownloadQueueItem>, item: DownloadQueueItem, response: Response): seq<DownloadQueueItem> {
    var started := UpdateQueue(Enqueue(queue, item), item.id, MarkDownloading);
    var reported := ApplyTrace(started, item.id, DownloadTrace(response));
    if Succeeds(response) then reported else UpdateQueue(reported, item.id, MarkFailed)
  }

  /** What is saved when the download does not throw. */
  function SavedBy(filename: string, response: Response): Option<SavedFile> {
    match DownloadOutcome(filename, response)
    case Saved(f) => Some(f)
    case Thrown => None
  }

  ghost predicate FreshIn(queue: seq<DownloadQueueItem>, id: string) {
    forall k :: 0 <= k < |queue| ==> queue[k].id != id
  }

  /** At most five entries, with distinct ids, each of them issued. */
  ghost predicate QueueInvariant(queue: seq<DownloadQueueItem>, issued: set<string>) {
    |queue| <= MaxEntries && UniqueIds(queue) && forall k :: 0 <= k < |queue| ==> queue[k].id in issued
  }

  /** Thumbnail data is always the templated data of an 11-character id. */
  ghost predicate DataInvariant(thumbnailData: Option<ThumbnailData>) {
    thumbnailData.Some? ==>
      |thumbnailData.value.videoId| == 11 && thumbnailData.value == MakeThumbnailData(thumbnailData.value.videoId)
  }

  class App {
    var url: string
    var loading: bool
    var thumbnailData: Option<ThumbnailData>
    var error: Option<AppError>
    var scanProgress: nat
    var queue: seq<DownloadQueueItem>
    /** Every download id handed out so far; a new one is never among them. */
    ghost var issued: set<string>

    /** Between handler calls: nothing is loading, the queue is well formed, thumbnail data is
        the templated data of an 11-character id, and a protocol error leaves no data behind. */
    ghost predicate Valid()
      reads this
    {
      !loading && QueueInvariant(queue, issued) && DataInvariant(thumbnailData) &&
      (error == Some(ProtocolError) ==> thumbnailData.None?)
    }

    constructor()
      ensures Valid()
      ensures url == [] && !loading && thumbnailData.None? && error.None? && scanProgress == 0
      ensures queue == [] && issued == {}
    {
      url := [];
      loading := false;
      thumbnailData := None;
      error := None;
      scanProgress := 0;
      queue := [];
      issued := {};
    }

    /** The input's change handler. */
    method SetUrl(u: string)
      requires Valid()
      modifies this
      ensures Valid()
      ensures url == u
      ensures loading == old(loading) && thumbnailData == old(thumbnailData) && error == old(error)
      ensures scanProgress == old(scanProgress) && queue == old(queue) && issued == old(issued)
    {
      url := u;
    }

    /** `handleFetch`; `scanSteps` lists the values assigned to the scan progress, in order. */
    method HandleFetch() returns (scanSteps: seq<nat>)
      requires Valid()
      modifies this
      ensures Valid()
      ensures url == old(url) && queue == old(queue) && issued == old(issued) && !loading
      ensures FetchOutcome(url) == Rejected(EmptySignal) ==>
        error == Some(EmptySignal) && thumbnailData == old(thumbnailData) &&
        scanProgress == old(scanProgress) && scanSteps == []
      ensures FetchOutcome(url) == Rejected(ProtocolError) ==>
        error == Some(ProtocolError) && thumbnailData.None? && scanProgress == 0 && scanSteps == []
      ensures FetchOutcome(url).Fetched? ==>
        error.None? && thumbnailData == Some(MakeThumbnailData(FetchOutcome(url).videoId)) &&
        scanSteps == ScanIntervals && scanProgress == 100
    {
      scanSteps := [];
      var outcome := FetchOutcome(url);
      if outcome == Rejected(EmptySignal) {
        error := Some(EmptySignal);
        return;
      }
      error := None;
      thumbnailData := None;
      loading := true;
      scanProgress := 0;
      if outcome.Rejected? {
        error := Some(ProtocolError);
        loading := false;
        return;
      }
      var intervals := ScanIntervals;
      var i := 0;
      while i < |intervals|
        invariant 0 <= i <= |intervals|
        invariant scanSteps == intervals[..i]
        invariant scanProgress == if i == 0 then 0 else intervals[i - 1]
        invariant url == old(url) && queue == old(queue) && issued == old(issued)
        invariant loading && error.None? && thumbnailData.None?
      {
        scanProgress := intervals[i];
        scanSteps := scanSteps + [intervals[i]];
        i := i + 1;
      }
      assert scanSteps == ScanIntervals;
      thumbnailData := Some(MakeThumbnailData(outcome.videoId));
      loading := false;
    }

    /** `addToQueue(res, downloadUrl)`; `downloadId` is the fresh random id and `response` is what
        fetching `downloadUrl` yields. Returns what was handed to the save, if anything. */
    method AddToQueue(res: string, downloadUrl: string, downloadId: string, response: Response) returns (saved: Option<SavedFile>)
      requires Valid() && downloadId !in issued
      modifies this
      ensures Valid()
      ensures url == old(url) && loading == old(loading) && thumbnailData == old(thumbnailData)
      ensures error == old(error) && scanProgress == old(scanProgress)
      ensures thumbnailData.None? ==> queue == old(queue) && issued == old(issued) && saved.None?
      ensures thumbnailData.Some? ==>
        var videoId := thumbnailData.value.videoId;
        issued == old(issued) + {downloadId} &&
        queue == QueueAfterAdd(old(queue), NewItem(downloadId, videoId, res), response) &&
        saved == SavedBy(SaveName(videoId, res), response)
    {
      saved := None;
      if thumbnailData.None? {
        return;
      }
      var videoId := thumbnailData.value.videoId;
      var item := NewItem(downloadId, videoId, res);
      AddKeepsQueueInvariant(queue, issued, item, response);
      issued := issued + {downloadId};
      queue := Enqueue(queue, item);
      queue := UpdateQueue(queue, downloadId, MarkDownloading);
      var trace, outcome := DownloadImageWithProgress(SaveName(videoId, res), response);
      queue := ApplyTrace(queue, downloadId, trace);
      FailedOutcomeThrown(SaveName(videoId, res), response);
      if outcome.Thrown? {
        queue := UpdateQueue(queue, downloadId, MarkFailed);
      } else {
        saved := Some(outcome.file);
      }
    }

    /** The Clear_All button. */
    method ClearAll()
      requires Valid()
      modifies this
      ensures Valid()
      ensures queue == []
      ensures url == old(url) && loading == old(loading) && thumbnailData == old(thumbnailData)
      ensures error == old(error) && scanProgress == old(scanProgress) && issued == old(issued)
    {
      queue := [];
    }
  }

  /** A download throws exactly when it does not succeed. */
  lemma FailedOutcomeThrown(filename: string, response: Response)
    ensures DownloadOutcome(filename, response).Thrown? <==> !Succeeds(response)
  {
    if Succeeds(response) {
      SuccessfulDownload(filename, response);
    } else {
      FailedDownload(filename, response);
    }
  }

  /** The three outcomes, in both directions: blank input is an empty signal and is never handed to
      the extractor; otherwise a null extraction is a protocol error, and an id is fetched. */
  lemma FetchOutcomeMeaning(url: string, videoId: string)
    ensures FetchOutcome(url) == Rejected(EmptySignal) <==> IsBlank(url)
    ensures FetchOutcome(url) == Rejected(ProtocolError) <==> !IsBlank(url) && ExtractVideoId(url).None?
    ensures FetchOutcome(url) == Fetched(videoId) <==> !IsBlank(url) && ExtractVideoId(url) == Some(videoId)
    ensures url == [] ==> FetchOutcome(url) == Rejected(EmptySignal)
  {
  }

  /** Adding a download with a fresh id keeps the queue invariant, with that id now issued. */
  lemma AddKeepsQueueInvariant(queue: seq<DownloadQueueItem>, issued: set<string>, item: DownloadQueueItem, response: Response)
    requires QueueInvariant(queue, issued) && item.id !in issued
    ensures QueueInvariant(QueueAfterAdd(queue, item, response), issued + {item.id})
  {
    var id := item.id;
    assert FreshIn(queue, id);
    var e := Enqueue(queue, item);
    EnqueueKeepsUniqueIds(queue, item);
    EnqueueMeaning(queue, item);
    var started := UpdateQueue(e, id, MarkDownloading);
    UpdatesKeepUniqueIds(e, id, MarkDownloading, []);
    UpdateTouchesOnlyId(e, id, MarkDownloading);
    var t := DownloadTrace(response);
    var reported := ApplyTrace(started, id, t);
    UpdatesKeepUniqueIds(started, id, MarkDownloading, t);
    ApplyTraceIds(started, id, t);
    UpdatesKeepUniqueIds(reported, id, MarkFailed, []);
    UpdateTouchesOnlyId(reported, id, MarkFailed);
  }

  /** The scan steps strictly increase and end at 100. */
  lemma ScanIntervalsIncrease()
    ensures |ScanIntervals| == 5 && ScanIntervals[|ScanIntervals| - 1] == 100
    ensures forall i, j :: 0 <= i < j < |ScanIntervals| ==> ScanIntervals[i] < ScanIntervals[j]
  {
  }

  /** The thumbnail data holds the id and, under each tier, that tier's image URL for the id. */
  lemma MakeThumbnailDataMeaning(videoId: string, t: Tier)
    ensures ParseThumbnailUrl(MakeThumbnailData(videoId).Get(t)) == Some((videoId, t))
  {
    GetThumbnailUrlsMeaning(videoId, t);
  }

  /** An added download leads the queue; it ends completed at 100 when the download succeeds and
      failed otherwise; the earlier entries are as before, in order, minus the oldest when full. */
  lemma AddedEntryOutcome(queue: seq<DownloadQueueItem>, downloadId: string, videoId: string, res: string, response: Response)
    requires UniqueIds(queue) && FreshIn(queue, downloadId)
    ensures var r := QueueAfterAdd(queue, NewItem(downloadId, videoId, res), response);
      1 <= |r| <= MaxEntries && r[1..] == queue[..|r| - 1] &&
      r[0].id == downloadId && r[0].videoId == videoId && r[0].resolution == res &&
      r[0].status == (if Succeeds(response) then Completed else Failed) &&
      (Succeeds(response) ==> r[0].progress == 100.0)
  {
    var item := NewItem(downloadId, videoId, res);
    var t := DownloadTrace(response);
    var e := Enqueue(queue, item);
    EnqueueMeaning(queue, item);
    var started := UpdateQueue(e, downloadId, MarkDownloading);
    UpdateTouchesOnlyId(e, downloadId, MarkDownloading);
    var reported := ApplyTrace(started, downloadId, t);
    var r := QueueAfterAdd(queue, item, response);
    if Succeeds(response) {
      SuccessfulDownload("", response);
    } else {
      FailedDownload("", response);
    }
    ApplyTraceAt(started, downloadId, t, 0);
    forall k | 1 <= k < |e| ensures reported[k] == e[k] {
      assert e[k] == queue[k - 1];
      ApplyTraceAt(started, downloadId, t, k);
    }
    if Succeeds(response) {
      LastProgressIsLast(started[0].progress, t);
      assert r == reported;
    } else {
      UpdateTouchesOnlyId(reported, downloadId, MarkFailed);
      ApplyTraceIds(started, downloadId, t);
      forall k | 1 <= k < |e| ensures r[k] == e[k] {
      }
    }
    assert r[1..] == e[1..];
  }

  /** Until the download's last report the new entry shows `downloading`, as long as no more bytes
      arrive than Content-Length declares: it never passes through completed or failed early. */
  lemma AddedEntryDownloadingUntilLastReport(queue: seq<DownloadQueueItem>, downloadId: string, videoId: string, res: string, response: Response, j: nat)
    requires WithinDeclaredLength(response)
    requires 0 < j < |DownloadTrace(response)|
    ensures var started := UpdateQueue(Enqueue(queue, NewItem(downloadId, videoId, res)), downloadId, MarkDownloading);
      ApplyTrace(started, downloadId, DownloadTrace(response)[..j])[0].status == Downloading
  {
    var item := NewItem(downloadId, videoId, res);
    var e := Enqueue(queue, item);
    EnqueueMeaning(queue, item);
    var started := UpdateQueue(e, downloadId, MarkDownloading);
    TerminalValuesLast(response);
    IntermediateDownloading(started, downloadId, DownloadTrace(response), j, 0);
  }

  /** With more bytes than Content-Length declares, the entry is marked completed by a streamed
      value of 100 and then set back to downloading by the 95 that follows. */
  lemma OverlongBodyRevertsCompleted(queue: seq<DownloadQueueItem>, downloadId: string, videoId: string, res: string)
    ensures var response := Response(true, 6, Stream([[0, 0, 0, 0, 0, 0, 0]], false));
      var started := UpdateQueue(Enqueue(queue, NewItem(downloadId, videoId, res)), downloadId, MarkDownloading);
      var t := DownloadTrace(response);
      |t| == 5 &&
      ApplyTrace(started, downloadId, t[..3])[0].status == Completed &&
      ApplyTrace(started, downloadId, t[..4])[0].status == Downloading
  {
    var item := NewItem(downloadId, videoId, res);
    var response := Response(true, 6, Stream([[0, 0, 0, 0, 0, 0, 0]], false));
    EnqueueMeaning(queue, item);
    var started := UpdateQueue(Enqueue(queue, item), downloadId, MarkDownloading);
    var t := DownloadTrace(response);
    OverlongBodyReports100Early();
    ApplyTraceAt(started, downloadId, t[..3], 0);
    ApplyTraceAt(started, downloadId, t[..4], 0);
    assert t[..3][2] == 100.0 && t[..4][3] == 95.0;
  }

  /** A successful download's file is named after the video and the tier and holds the body's bytes in order. */
  lemma SavedFileNamed(videoId: string, res: string, response: Response)
    requires |videoId| == 11
    ensures var s := SavedBy(SaveName(videoId, res), response);
      (s.Some? <==> Succeeds(response)) &&
      (s.Some? ==> ParseSaveName(s.value.filename) == Some((videoId, res))) &&
      (s.Some? ==> s.value.bytes == if response.body.Stream? then Concat(response.body.chunks) else response.body.bytes)
  {
    FailedOutcomeThrown(SaveName(videoId, res), response);
    if Succeeds(response) {
      SuccessfulDownload(SaveName(videoId, res), response);
    }
    SaveNameRoundTrip(videoId, res);
  }
}
