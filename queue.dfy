/**
 * The pure queue transforms passed to `setQueue` in App.tsx: adding an entry (newest first,
 * at most five kept) and the per-id updates issued when a download starts, reports progress
 * or throws.
 */
module DownloadQueue {
  import opened Types

  const MaxEntries: nat := 5

  /** `[newItem, ...prev].slice(0, 5)` */
  function Enqueue(queue: seq<DownloadQueueItem>, item: DownloadQueueItem): seq<DownloadQueueItem> {
    ([item] + queue)[..if |queue| + 1 < MaxEntries then |queue| + 1 else MaxEntries]
  }

  /** A new entry leads the queue, at most five entries remain, the earlier entries keep their
      order, and only the oldest are dropped (none when there was room). */
  lemma EnqueueMeaning(queue: seq<DownloadQueueItem>, item: DownloadQueueItem)
    ensures var r := Enqueue(queue, item);
      |r| <= MaxEntries && |r| >= 1 && r[0] == item &&
      r[1..] == queue[..|r| - 1] &&
      (|queue| < MaxEntries ==> r[1..] == queue)
  {
    var r := Enqueue(queue, item);
    assert r[1..] == ([item] + queue)[1..|r|];
    assert ([item] + queue)[1..] == queue;
  }

  /** The updates a download issues for its own entry. */
  datatype Update =
    | MarkDownloading        // right after the entry is added
    | Progress(value: real)  // one per call of the progress callback
    | MarkFailed             // when the download throws

  /** The status a progress value selects: -1 means failed, 100 completed, anything else downloading. */
  function ProgressStatus(value: real): Status {
    if value == -1.0 then Failed else if value == 100.0 then Completed else Downloading
  }

  function ApplyUpdate(item: DownloadQueueItem, u: Update): DownloadQueueItem {
    match u
    case MarkDownloading => item.(status := Downloading)
    case Progress(p) => item.(progress := if p == -1.0 then item.progress else p, status := ProgressStatus(p))
    case MarkFailed => item.(status := Failed)
  }

  /** `prev.map(item => item.id === id ? update(item) : item)` */
  function UpdateQueue(queue: seq<DownloadQueueItem>, id: string, u: Update): (r: seq<DownloadQueueItem>)
    ensures |r| == |queue|
  {
    seq(|queue|, k requires 0 <= k < |queue| => if queue[k].id == id then ApplyUpdate(queue[k], u) else queue[k])
  }

  /** An update changes only the entries with the given id, and only their progress and status. */
  lemma UpdateTouchesOnlyId(queue: seq<DownloadQueueItem>, id: string, u: Update)
    ensures var r := UpdateQueue(queue, id, u);
      forall k :: 0 <= k < |queue| ==>
        r[k].id == queue[k].id && r[k].videoId == queue[k].videoId && r[k].resolution == queue[k].resolution &&
        (queue[k].id != id ==> r[k] == queue[k]) &&
        (queue[k].id == id ==> r[k] == ApplyUpdate(queue[k], u))
  {
  }

  /** An update for an id that is not in the queue (its entry was evicted or cleared) changes nothing. */
  lemma UpdateAbsentId(queue: seq<DownloadQueueItem>, id: string, u: Update)
    requires forall k :: 0 <= k < |queue| ==> queue[k].id != id
    ensures UpdateQueue(queue, id, u) == queue
  {
  }

  /** Updates for two different downloads commute, so concurrent downloads do not disturb each
      other whatever the order in which their updates are applied. */
  lemma UpdatesCommute(queue: seq<DownloadQueueItem>, a: string, ua: Update, b: string, ub: Update)
    requires a != b
    ensures UpdateQueue(UpdateQueue(queue, a, ua), b, ub) == UpdateQueue(UpdateQueue(queue, b, ub), a, ua)
  {
  }

  /** The progress callback mapping: -1 keeps the progress and fails the entry, 100 completes it,
      any other value sets it downloading at that value. */
  lemma ProgressMapping(item: DownloadQueueItem, p: real)
    ensures p == -1.0 ==> ApplyUpdate(item, Progress(p)) == item.(status := Failed)
    ensures p == 100.0 ==> ApplyUpdate(item, Progress(p)) == item.(progress := 100.0, status := Completed)
    ensures p != -1.0 && p != 100.0 ==> ApplyUpdate(item, Progress(p)) == item.(progress := p, status := Downloading)
  {
  }

  /** The queue after the progress callback has received each value of `trace`, in order. */
  function ApplyTrace(queue: seq<DownloadQueueItem>, id: string, trace: seq<real>): (r: seq<DownloadQueueItem>)
    ensures |r| == |queue|
    decreases |trace|
  {
    if trace == [] then queue else ApplyTrace(UpdateQueue(queue, id, Progress(trace[0])), id, trace[1..])
  }

  /** The last progress value reported that is not -1, or `initial` if there is none. */
  function LastProgress(initial: real, trace: seq<real>): real
    decreases |trace|
  {
    if trace == [] then initial
    else LastProgress(if trace[0] == -1.0 then initial else trace[0], trace[1..])
  }

  /** When the last value is not -1, it is the progress the entry ends with. */
  lemma {:induction false} LastProgressIsLast(initial: real, trace: seq<real>)
    requires trace != [] && trace[|trace| - 1] != -1.0
    ensures LastProgress(initial, trace) == trace[|trace| - 1]
    decreases |trace|
  {
    if |trace| > 1 {
      LastProgressIsLast(if trace[0] == -1.0 then initial else trace[0], trace[1..]);
      assert trace[1..][|trace[1..]| - 1] == trace[|trace| - 1];
    }
  }

  /** After a non-empty trace, the entry with the id has the status its last value selects and
      the last progress value other than -1; every other entry is as before. */
  lemma {:induction false} ApplyTraceAt(queue: seq<DownloadQueueItem>, id: string, trace: seq<real>, k: nat)
    requires k < |queue| && trace != []
    ensures var r := ApplyTrace(queue, id, trace);
      (queue[k].id == id ==> r[k] == queue[k].(progress := LastProgress(queue[k].progress, trace),
                                                status := ProgressStatus(trace[|trace| - 1]))) &&
      (queue[k].id != id ==> r[k] == queue[k])
    decreases |trace|
  {
    var q1 := UpdateQueue(queue, id, Progress(trace[0]));
    UpdateTouchesOnlyId(queue, id, Progress(trace[0]));
    if |trace| > 1 {
      ApplyTraceAt(q1, id, trace[1..], k);
      assert trace[1..][|trace[1..]| - 1] == trace[|trace| - 1];
    }
  }

  /** A trace leaves a queue without the id unchanged. */
  lemma {:induction false} ApplyTraceAbsent(queue: seq<DownloadQueueItem>, id: string, trace: seq<real>)
    requires forall k :: 0 <= k < |queue| ==> queue[k].id != id
    ensures ApplyTrace(queue, id, trace) == queue
    decreases |trace|
  {
    if trace != [] {
      UpdateAbsentId(queue, id, Progress(trace[0]));
      ApplyTraceAbsent(queue, id, trace[1..]);
    }
  }

  /** While no value before the last is -1 or 100, every proper prefix of the trace leaves the
      entry downloading: it reaches completed or failed only with the last value. */
  lemma IntermediateDownloading(queue: seq<DownloadQueueItem>, id: string, trace: seq<real>, j: nat, k: nat)
    requires 0 < j < |trace| && k < |queue| && queue[k].id == id
    requires forall i :: 0 <= i < |trace| - 1 ==> trace[i] != -1.0 && trace[i] != 100.0
    ensures ApplyTrace(queue, id, trace[..j])[k].status == Downloading
  {
    ApplyTraceAt(queue, id, trace[..j], k);
    assert trace[..j][j - 1] == trace[j - 1];
  }

  ghost predicate UniqueIds(queue: seq<DownloadQueueItem>) {
    forall i, j :: 0 <= i < j < |queue| ==> queue[i].id != queue[j].id
  }

  /** Adding an entry with a fresh id keeps the ids unique. */
  lemma EnqueueKeepsUniqueIds(queue: seq<DownloadQueueItem>, item: DownloadQueueItem)
    requires UniqueIds(queue)
    requires forall k :: 0 <= k < |queue| ==> queue[k].id != item.id
    ensures UniqueIds(Enqueue(queue, item))
    ensures forall k :: 0 <= k < |Enqueue(queue, item)| ==> Enqueue(queue, item)[k] in [item] + queue
  {
    EnqueueMeaning(queue, item);
    var r := Enqueue(queue, item);
    forall k | 1 <= k < |r| ensures r[k] == queue[k - 1] {
      assert r[k] == r[1..][k - 1];
    }
  }

  /** Updates never change ids, so they keep the ids unique. */
  lemma UpdatesKeepUniqueIds(queue: seq<DownloadQueueItem>, id: string, u: Update, trace: seq<real>)
    requires UniqueIds(queue)
    ensures UniqueIds(UpdateQueue(queue, id, u))
    ensures UniqueIds(ApplyTrace(queue, id, trace))
  {
    UpdateTouchesOnlyId(queue, id, u);
    ApplyTraceIds(queue, id, trace);
  }

  lemma {:induction false} ApplyTraceIds(queue: seq<DownloadQueueItem>, id: string, trace: seq<real>)
    ensures forall k :: 0 <= k < |queue| ==> ApplyTrace(queue, id, trace)[k].id == queue[k].id
    decreases |trace|
  {
    if trace != [] {
      UpdateTouchesOnlyId(queue, id, Progress(trace[0]));
      ApplyTraceIds(UpdateQueue(queue, id, Progress(trace[0])), id, trace[1..]);
    }
  }
}
