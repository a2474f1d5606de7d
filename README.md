# CyberThum thumbnail extractor — a Dafny model

CyberThum is a single-page React front end. The user pastes a YouTube URL. The app extracts
the 11-character video id, derives the four thumbnail URLs (max resolution, high, medium and
standard quality), probes which of them exist, and lets the user download one tier. Each
download is tracked in a queue of at most five entries that shows progress and status.

This project models the logic under that UI:

- `types.dfy` (module `Types`): the records `ThumbnailData` and `DownloadQueueItem`, the four
  tiers and their property names.
- `video_id.dfy` (module `VideoIdExtraction`): `extractVideoId`. Its regular expression is written
  out as a scanner. The scanner takes the last marker position in the first line, skips an
  optional `?`, `v` and `=`, captures the longest run of characters other than `#`, `&` and `?`,
  and applies the length-11 gate. It is proved equal, in both directions, to a declarative
  description of that match. Worked examples are proved for each of the five URL shapes, for a bare id and for a leading `v`.
- `thumbnails.dfy` (module `Thumbnails`): `getThumbnailUrls` and its inverse parser.
  `checkThumbnailAvailability` is a predicate on what the image load returned.
- `download.dfy` (module `ImageDownload`): `downloadImageWithProgress` as a loop over the chunks
  the body reader delivers. Its inputs are what fetch returned: rejected, or a response with an ok
  flag, a Content-Length (0 when absent) and a body. It is proved against a function that gives
  the full sequence of progress values and the saved file.
- `queue.dfy` (module `DownloadQueue`): the pure `setQueue` transforms. These are adding an entry
  (newest first, five kept) and the per-id updates for start, progress and failure.
- `app.dfy` (module `AppState`): the App component as a class with `handleFetch`, `addToQueue`
  and Clear_All.
- `thumbnail_display.dfy` (module `ThumbnailSelection`): the ThumbnailDisplay component as a
  class. It covers `verify` with its fallback to `hq`, clicks on tier buttons, the download
  hand-off, the preview and the full-video redirect URL.

Behaviours of the code that the model proves and that a reader may not expect:

- For every shape except `watch?v=`, an id that starts with `v` loses that `v` to the optional `v?`
  after the marker. The capture then has 10 characters, so the result is null
  (`LeadingVLost`, `LeadingVExample`).
- When more bytes arrive than Content-Length declares, a streamed progress value can exceed 90,
  and can even equal 100. The queue entry is then marked completed. The 95 that follows sets it
  back to downloading (`OverlongBodyReports100Early`, `OverlongBodyRevertsCompleted`).
- An `EMPTY_SIGNAL` error leaves the previous thumbnail data and scan progress in place, because
  the handler returns before clearing them (`App.HandleFetch`).
- The fallback after verification selects `hq` without checking that `hq` is available. When
  every probe fails, the selected tier is a disabled one (`FallbackToUnavailableHq`).
- An entry is marked `downloading` right after it is added (App.tsx:82), before any progress
  report (`AppState.App.AddToQueue`, through `QueueAfterAdd`).
- Every tier is enabled while the availability map is empty, because a tier is disabled only
  when its entry is `false` (ThumbnailDisplay.tsx:135, `EmptyMapAllAvailable`).
- Progress values are fractional, and with an overlong body an entry goes from completed back
  to downloading (`OverlongBodyRevertsCompleted`).

## Model

| member | source | states |
|---|---|---|
| `VideoIdExtraction.ExtractVideoId` | services/youtube.ts:5-10 | Empty input gives null; a non-null result has exactly 11 characters and none of them is `#`, `&` or `?`. |
| `VideoIdExtraction.MarkerAt` | services/youtube.ts:7 | Names the marker alternative matching at a position, and none exactly when no alternative matches there. |
| `VideoIdExtraction.MarkerUnique` | services/youtube.ts:7 | At most one of the five markers matches at any position. |
| `VideoIdExtraction.LineEnd` | services/youtube.ts:7 | The first line terminator at or after a position bounds what the leading `.*` can consume. |
| `VideoIdExtraction.LastMarkerFrom` | services/youtube.ts:7 | Backtracking of the greedy prefix finds the last marker position at or before the limit, or reports that there is none. |
| `VideoIdExtraction.CaptureEnd` | services/youtube.ts:7 | The capture `[^#&?]*` ends at the first `#`, `&` or `?`, or at the end of the text. |
| `VideoIdExtraction.CaptureAfter` | services/youtube.ts:7 | Capture group 7 after a marker contains no `#`, `&` or `?`. |
| `VideoIdExtraction.LastMarkerUnique` | services/youtube.ts:7 | The last marker position of the first line is unique. |
| `VideoIdExtraction.RunIsCapture` | services/youtube.ts:7 | Any maximal run of non-stop characters at a position equals the greedy capture there. |
| `VideoIdExtraction.CaptureIsRun` | services/youtube.ts:7 | The greedy capture is a maximal run of non-stop characters. |
| `VideoIdExtraction.ExtractVideoIdCharacterized` | services/youtube.ts:6-9 | Both directions: the result is `id` iff the input is non-empty, a marker matches in its first line, and the maximal run after the last marker and its optional `?`, `v`, `=` is `id`, of length 11. |
| `VideoIdExtraction.ExtractedAfterLastMarker` | services/youtube.ts:7-9 | A non-null result is the maximal run after the last marker of the first line. |
| `VideoIdExtraction.NoMarkerNoId` | services/youtube.ts:7-9 | Input whose first line holds no marker gives null. |
| `VideoIdExtraction.NoSeparatorNoId` | services/youtube.ts:7-9 | Input containing no `/` and no `?` gives null. |
| `VideoIdExtraction.ShapeExtracted` | services/youtube.ts:7-9 | A valid id placed after any of the five URL shapes, with a one-line prefix and a tail that adds no marker (`TailAllowed`: empty, or `#`, `&` or `?` followed by text free of `/` and `?`, and after `?` an id not ending in `watch`), is extracted (for shapes other than `watch?v=`, when the id does not start with `v`). |
| `VideoIdExtraction.ShapeExtractedAt` | services/youtube.ts:7-9 | The same, for a text laid out as prefix, shape, id and tail at given positions. |
| `VideoIdExtraction.ShapeMarker` | services/youtube.ts:7 | A shape's text is that shape's marker match, and the value begins right after the text, or one later when a non-watch id starts with `v`. |
| `VideoIdExtraction.NoMarkerAfterShape` | services/youtube.ts:7 | After a shape and a valid id with an allowed tail, no marker matches later, so the shape's marker is the last. |
| `VideoIdExtraction.WatchEndingInId` | services/youtube.ts:7 | A `watch?` marker closed by the character right after an 11-character id means the id ends in `watch`. |
| `VideoIdExtraction.NoMarkerInsideShape` | services/youtube.ts:7 | No marker matches strictly inside a shape's text. |
| `VideoIdExtraction.MarkerEndsWithSeparator` | services/youtube.ts:7 | Every marker ends with `/` or `?`. |
| `VideoIdExtraction.ExtractFromLastMarker` | services/youtube.ts:7-9 | Given the last marker and the maximal run after it, the result is that run if it has 11 characters and null otherwise. |
| `VideoIdExtraction.LastMarkerFound` | services/youtube.ts:7 | The backward scan from the end of the first line stops exactly at the last marker. |
| `VideoIdExtraction.LeadingVLost` | services/youtube.ts:7-9 | For every shape but `watch?v=`, an id starting with `v` yields null. |
| `VideoIdExtraction.LeadingVLostAt` | services/youtube.ts:7-9 | The same for a laid-out text: an id starting with `v` after a non-watch shape yields null. |
| `VideoIdExtraction.WatchUrlExample` | services/youtube.ts:5-10 | `https://www.youtube.com/watch?v=dQw4w9WgXcQ&t=5` gives `dQw4w9WgXcQ`. |
| `VideoIdExtraction.ShortLinkExample` | services/youtube.ts:5-10 | `https://youtu.be/dQw4w9WgXcQ` gives `dQw4w9WgXcQ`. |
| `VideoIdExtraction.ShortLinkTimestampExample` | services/youtube.ts:5-10 | `https://youtu.be/dQw4w9WgXcQ?t=5` gives `dQw4w9WgXcQ`. |
| `VideoIdExtraction.VPathExample` | services/youtube.ts:5-10 | `https://www.youtube.com/v/dQw4w9WgXcQ` gives `dQw4w9WgXcQ`. |
| `VideoIdExtraction.UserPathExample` | services/youtube.ts:5-10 | `https://www.youtube.com/user/name#p/u/1/dQw4w9WgXcQ` gives `dQw4w9WgXcQ`. |
| `VideoIdExtraction.EmbedExample` | services/youtube.ts:5-10 | `https://www.youtube.com/embed/dQw4w9WgXcQ` gives `dQw4w9WgXcQ`. |
| `VideoIdExtraction.BareIdExample` | services/youtube.ts:5-10 | A bare id with no marker gives null. |
| `VideoIdExtraction.LeadingVExample` | services/youtube.ts:5-10 | `https://youtu.be/vQw4w9WgXcQ` gives null. |
| `Thumbnails.ParseThumbnailUrl` | services/youtube.ts:12-19 | Inverse of the URL template: a parsed URL is exactly the template applied to the parsed id and tier. |
| `Thumbnails.ParseTail` | services/youtube.ts:14-17 | A parsed tail is the id followed by that tier's file name. |
| `Thumbnails.DropSuffix` | services/youtube.ts:14-17 | Removing a suffix leaves a text that, followed by the suffix, is the original. |
| `Thumbnails.TailMarks` | services/youtube.ts:14-17 | The four file names differ at fixed positions from the end. |
| `Thumbnails.TailsDistinct` | services/youtube.ts:14-17 | No text ends with two different tiers' file names. |
| `Thumbnails.TailRoundTrip` | services/youtube.ts:14-17 | Parsing an id and a tier's file name gives back both. |
| `Thumbnails.UrlRoundTrip` | services/youtube.ts:12-19 | Parsing a templated URL gives back the id and the tier. |
| `Thumbnails.GetThumbnailUrlsMeaning` | services/youtube.ts:12-19 | Each field of `GetThumbnailUrls(id)`, the model of `getThumbnailUrls`, is `https://img.youtube.com/vi/<id>/` followed by that tier's file name. |
| `Thumbnails.UrlsInjective` | services/youtube.ts:12-19 | Two fields are equal iff they are the same tier of the same id: the four URLs are distinct and the map is injective in the id. |
| `Thumbnails.AvailabilityMeaning` | services/youtube.ts:21-30 | `CheckThumbnailAvailability`, the model of the probe, resolves true iff the image loaded with width over 120, and false on a load error. |
| `ImageDownload.DownloadImageWithProgress` | services/youtube.ts:32-81 | The reported values are `DownloadTrace(response)` and the outcome is `DownloadOutcome(filename, response)`: the saved file or a throw. Those two functions follow the source branch by branch. |
| `ImageDownload.ConcatAppend` | services/youtube.ts:54-55 | Pushing a chunk appends its bytes and adds its length to the received count. |
| `ImageDownload.StreamedValuesAppend` | services/youtube.ts:54-58 | Pushing a chunk adds its length to the received count and, when the length is known, one value for the new count. |
| `ImageDownload.ConcatLength` | services/youtube.ts:54-66 | The blob has exactly the received number of bytes. |
| `ImageDownload.ConcatInOrder` | services/youtube.ts:54-66 | Byte `j` of chunk `i` sits in the blob after all bytes of the earlier chunks. |
| `ImageDownload.ProgressBounds` | services/youtube.ts:57 | A streamed value is at least 30, and at most 90 while received ≤ Content-Length. |
| `ImageDownload.ProgressMonotone` | services/youtube.ts:57 | More bytes received never gives a smaller value. |
| `ImageDownload.SumLengthsMonotone` | services/youtube.ts:55 | The received count never decreases along the chunks. |
| `ImageDownload.StreamedValuesAt` | services/youtube.ts:56-58 | One value per chunk, none when Content-Length is 0 or absent; value `k` is `30 + received/length*60` after chunk `k`. |
| `ImageDownload.StreamedValuesBounds` | services/youtube.ts:56-58 | The streamed values are nondecreasing and at least 30, and at most 90 when the body is within Content-Length. |
| `ImageDownload.SuccessfulDownload` | services/youtube.ts:38-75 | A download that does not throw reports 10, 30, the streamed values, 95, 100, never -1, and saves the chunks concatenated in order under the filename. |
| `ImageDownload.FailedDownload` | services/youtube.ts:39-79 | A rejected fetch, non-ok response or failing read throws, reports -1 last and nowhere else, and never 100 when the body is within Content-Length. |
| `ImageDownload.TerminalValuesLast` | services/youtube.ts:38-79 | Within Content-Length, -1 and 100 occur only as the final value. |
| `ImageDownload.OverlongBodyReports100Early` | services/youtube.ts:56-58 | Seven bytes against a Content-Length of 6 give the trace 10, 30, 100, 95, 100. |
| `DownloadQueue.EnqueueMeaning` | App.tsx:71-79 | `Enqueue`, the model of `[newItem, ...prev].slice(0, 5)`: the new entry leads; there are at most five entries; the older entries keep their order and only the oldest are dropped. |
| `DownloadQueue.UpdateQueue` | App.tsx:82 | A per-id update keeps the queue's length. |
| `DownloadQueue.UpdateTouchesOnlyId` | App.tsx:82-96 | Only entries with the matching id change, and only in progress and status. |
| `DownloadQueue.UpdateAbsentId` | App.tsx:82-96 | An update for an id not in the queue (evicted or cleared) leaves it unchanged. |
| `DownloadQueue.UpdatesCommute` | App.tsx:88-92 | Updates for two different ids commute. |
| `DownloadQueue.ProgressMapping` | App.tsx:88-92 | `ApplyUpdate` with `ProgressStatus`, the model of the progress callback: -1 sets failed and keeps progress; 100 sets completed; any other value sets downloading at that value. |
| `DownloadQueue.ApplyTrace` | App.tsx:87-92 | Feeding a trace of reported values keeps the queue's length. |
| `DownloadQueue.LastProgressIsLast` | App.tsx:90 | When the last reported value is not -1, the entry's progress ends as that value. |
| `DownloadQueue.ApplyTraceAt` | App.tsx:87-92 | After a trace, the matching entry has the status its last value selects and the last progress other than -1; other entries are as before. |
| `DownloadQueue.ApplyTraceAbsent` | App.tsx:87-92 | A trace for an absent id leaves the queue unchanged. |
| `DownloadQueue.IntermediateDownloading` | App.tsx:88-92 | When no value before the last is -1 or 100, the entry is downloading after every proper prefix of the trace. |
| `DownloadQueue.EnqueueKeepsUniqueIds` | App.tsx:70-79 | Adding an entry with a fresh id keeps ids unique, and every entry comes from the new entry or the old queue. |
| `DownloadQueue.UpdatesKeepUniqueIds` | App.tsx:82-92 | Updates keep ids unique. |
| `DownloadQueue.ApplyTraceIds` | App.tsx:88-92 | A trace never changes any entry's id. |
| `AppState.App.constructor` | App.tsx:18-23 | The initial state: empty URL, not loading, no data, no error, scan progress 0, empty queue. |
| `AppState.App.SetUrl` | App.tsx:167 | Typing replaces the URL and nothing else. |
| `AppState.App.HandleFetch` | App.tsx:34-65 | Blank input sets `EMPTY_SIGNAL` and changes nothing else; no id sets `PROTOCOL_ERROR` with no data and not loading; otherwise the scan steps through 10, 35, 62, 88, 100 and the data is the templated data of the id with no error. The state invariant is kept. |
| `AppState.FetchOutcome` | App.tsx:35-51 | A fetched video id always has 11 characters. |
| `AppState.FetchOutcomeMeaning` | App.tsx:35-51 | Both directions: `EMPTY_SIGNAL` iff the input is blank (`IsBlank`, `!url.trim()` over the JavaScript whitespace set, an empty input included); `PROTOCOL_ERROR` iff it is not blank and extraction gives null; fetched `id` iff it is not blank and extraction gives `id`. |
| `AppState.App.AddToQueue` | App.tsx:67-98 | Without data nothing changes; otherwise the queue is `QueueAfterAdd` of the old one and `NewItem(downloadId, videoId, res)`: adding, starting, reporting and failing the new entry, and the file saved is named `cyberthum-<videoId>-<res>.jpg`. |
| `AppState.App.ClearAll` | App.tsx:219 | Clear_All empties the queue and changes nothing else. |
| `AppState.MakeThumbnailData` | App.tsx:59-63 | The data holds the id and, under each tier, the URL `getThumbnailUrls` gives for it. |
| `AppState.MakeThumbnailDataMeaning` | App.tsx:59-63 | Each tier's field of the data parses back to the id and that tier. |
| `AppState.ScanIntervalsIncrease` | App.tsx:53-57 | The scan steps strictly increase and end at 100. |
| `AppState.ParseSaveName` | App.tsx:86 | Inverse of the filename template for 11-character ids. |
| `AppState.SaveNameRoundTrip` | App.tsx:86 | Parsing `SaveName(videoId, res)`, the filename `cyberthum-<videoId>-<res>.jpg`, gives back the id and the tier string. |
| `AppState.SaveNameInjective` | App.tsx:86 | Two filenames for 11-character ids are equal iff id and tier agree. |
| `AppState.FailedOutcomeThrown` | App.tsx:84-97 | The download throws exactly when it does not succeed. |
| `AppState.AddedEntryOutcome` | App.tsx:71-97 | The added entry leads the queue and ends completed at 100 on success and failed otherwise; the other entries are the old ones in order, minus the oldest when full. |
| `AppState.AddKeepsQueueInvariant` | App.tsx:70-97 | Adding a download with a fresh id keeps at most five entries with distinct, issued ids. |
| `AppState.AddedEntryDownloadingUntilLastReport` | App.tsx:82-92 | Within Content-Length, the new entry stays downloading until the download's last report. |
| `AppState.OverlongBodyRevertsCompleted` | App.tsx:88-92 | With an overlong body the entry becomes completed at the third report and downloading again at the fourth. |
| `AppState.SavedFileNamed` | App.tsx:84-86 | A file is saved exactly when the download succeeds, its name parses back to the video id and tier, and it holds the body's bytes in order. |
| `ThumbnailSelection.ThumbnailDisplay.constructor` | components/ThumbnailDisplay.tsx:20-22 | Mounting selects max resolution, with verification pending and an empty availability map. |
| `ThumbnailSelection.ThumbnailDisplay.SetData` | components/ThumbnailDisplay.tsx:19-55 | A new data prop keeps the selection and the availability state until verification runs again. |
| `ThumbnailSelection.ThumbnailDisplay.Verify` | components/ThumbnailDisplay.tsx:33-55 | Every tier maps to its own probe's result; verification is over; the selection falls back to `hq` iff the max-resolution probe failed. |
| `ThumbnailSelection.ThumbnailDisplay.SelectTier` | components/ThumbnailDisplay.tsx:135-140 | The click is accepted iff the tier is enabled, and the selection becomes `SelectionAfterClick`: the tier only when accepted; after verification it is accepted iff the tier's stored probe result is true. |
| `ThumbnailSelection.ThumbnailDisplay.DownloadRequest` | components/ThumbnailDisplay.tsx:183 | Hands over the selected tier's key and that tier's URL. |
| `ThumbnailSelection.ThumbnailDisplay.Preview` | components/ThumbnailDisplay.tsx:115-126 | An image is shown iff verification is over, and it is the selected tier's URL. |
| `ThumbnailSelection.ThumbnailDisplay.VideoDownloadRequest` | components/ThumbnailDisplay.tsx:77-82 | The opened URL is `RedirectUrl(videoId)`, `https://www.ssyoutube.com/watch?v=<videoId>`, whatever the quality. |
| `ThumbnailSelection.TierOfKey` | components/ThumbnailDisplay.tsx:183 | Inverse of the tier key: a parsed key is that tier's key. |
| `ThumbnailSelection.TierKeyRoundTrip` | components/ThumbnailDisplay.tsx:183 | Parsing a tier's key gives back the tier. |
| `ThumbnailSelection.TierKeyInjective` | components/ThumbnailDisplay.tsx:183 | Two tiers have the same key iff they are the same tier. |
| `ThumbnailSelection.EmptyMapAllAvailable` | components/ThumbnailDisplay.tsx:135 | Before any probe result every tier is enabled. |
| `ThumbnailSelection.AvailabilityOfMeaning` | components/ThumbnailDisplay.tsx:36-50 | `AvailabilityOf`, the map `verify` stores, has an entry for every tier, and `IsAvailable` (`availableRes[key] !== false`) enables a tier iff its probe found a real image. |
| `ThumbnailSelection.VerifyFallback` | components/ThumbnailDisplay.tsx:51 | `SelectionAfterVerify`, the fallback: the selection becomes `hq` iff the max-resolution probe failed or `hq` was already selected; otherwise it is kept. |
| `ThumbnailSelection.FirstVerifySelection` | components/ThumbnailDisplay.tsx:20-51 | On the first verification the selection ends on an enabled tier iff the max-resolution or the `hq` image exists. |
| `ThumbnailSelection.FallbackToUnavailableHq` | components/ThumbnailDisplay.tsx:51 | When every probe fails, the fallback selects `hq`, which is disabled. |
| `ThumbnailSelection.ClickSelectsOnlyEnabled` | components/ThumbnailDisplay.tsx:139-140 | A click moves the selection only onto an enabled tier. |
| `ThumbnailSelection.DownloadHandOff` | components/ThumbnailDisplay.tsx:183 | For templated data the handed-over key names the tier and the URL parses back to the video and that tier. |
| `ThumbnailSelection.RedirectRoundTrip` | components/ThumbnailDisplay.tsx:80 | The extractor recovers any valid id from its redirect URL `https://www.ssyoutube.com/watch?v=<id>`. |
| `ThumbnailSelection.RedirectHost` | components/ThumbnailDisplay.tsx:80 | The redirect host is on one line and followed by the `watch?v=` marker. |

## Left out

- All presentational code is left out: JSX, CSS, animations and the labels and sizes tables. So
  are the input component `components/NeonInput.tsx`, which only forwards its value, and the
  slogan rotation timer.
- The network and the browser are not modelled. `fetch`, the body reader and `response.blob()`
  are replaced by the `Response` input. Image loading is replaced by a `load` function from URL to
  load result. The blob URL, the anchor click, sharing and the clipboard, and `window.open` are
  effects that run in one direction only, and so is the `console.error` log of a failed download. The model records only the file handed to the save and
  the URL that would be opened.
- The setup steps between the 95 and 100 reports are assumed not to fail: building the blob, the
  object URL and the anchor click.
- Timing and concurrency are not modelled. This covers the random 100 to 200 ms delays of the scan,
  `Promise.all` ordering, React's batching of state updates and the interleaving of concurrent
  downloads. Each handler runs to its end inside one call. Interleavings are covered only by the
  lemmas that updates for different ids commute and that an update for an absent id does nothing.
- The random download id is a parameter. Its freshness is a precondition, kept in a ghost set of
  issued ids.
- Progress is computed with exact reals, not IEEE doubles.
- Content-Length is a natural number, with 0 meaning absent. A header that does not parse as a
  number is not modelled.
- Strings are sequences of Unicode characters. JavaScript counts UTF-16 code units, so the 11-character
  gate differs for ids containing characters outside the Basic Multilingual Plane.
- `AppState.App.HandleFetch`: the intermediate states during the awaited delays are not visible.
  The contract states only the values assigned to the scan progress, in order, and the final state.
- `ThumbnailSelection.ThumbnailDisplay.Verify`: the intermediate state while the probes run is
  not visible. Only the state after verification is stated.
- `AppState.App.AddToQueue`: the queue state after each single report is stated by lemmas on the
  pure transforms (`AddedEntryDownloadingUntilLastReport`), not by the method.
- `ThumbnailSelection.RedirectRoundTrip`: proved for ids made of letters, digits, `_` and `-`.
  The extractor can return an id made of other characters, and that is not covered.
- `VideoIdExtraction.ShapeExtracted`: the `/u/<c>/` shape is proved only with a digit for `c`.
  The regex also accepts a letter there, and a `v` would form a `v/` marker of its own.
- Error messages are kept as constants (`AppError.Message`), but nothing is proved about them.
