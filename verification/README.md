# Barcode attendance scanner — a Dafny model of its scan-processing core

The application is a browser page that reads Codabar student cards with the
camera. The platform barcode decoder reports a payload such as `A123456B`.
The page checks the payload against the regular expression
`/^[A-D](\d{6})[A-D]$/`: a start character A–D, six ASCII digits and a
stop character A–D. It takes the six digits as the student identifier and
records `{id, timestamp}` in an IndexedDB object store. It shows the number
of distinct identifiers and the number of records, and offers a listing
sorted by identifier with one entry per identifier.

This project models that core as pure functions over immutable data:

- `Payload`: the payload grammar, as an anchored matcher over character
  classes with a capture flag per atom. `MatchId` is `code.match(matchStr)`
  followed by `match[1]`.
- `Order`: JavaScript's string `<` (`LexLess`), and `Number(id)` on digit
  strings (`DecimalValue`). For six-digit identifiers the two orders agree.
- `Items`: the record type and the aggregate shown by `showItemNumber`.
- `Listing`: the comparator, the sort, the `filter`/`findIndex` de-duplication
  of `showResultList`, and the newest-first listing built at page load.
- `Scanner`: `analyzeBarcode` with `addResultItem`, and the `detect` tick.
  The state is the last accepted payload plus the record store, which is an
  append-only sequence. The object store uses an auto-increment key and the
  records carry no key, so every `put` adds a record.
- `Session`: the start/stop button, the camera request of `startVideo`
  and its `onplaying` handler, `stopVideo`, the clear button and the
  detection tick, as one state machine. The start button does not wait for
  the camera request, so the request settles in an event of its own. The browser's interval table and the camera's running
  tracks are part of the state (`liveIntervals`, `openStreams`). This makes
  "the interval was cleared" and "the tracks were stopped" observable.
- `Wrappers`: `Option`.

Timestamps, camera permission, `confirm()`'s answer and the decoder's output
are inputs to the operations.

The model follows the code as written; in particular:

- **Each accepted payload is stored twice.** `addResultItem` writes one
  record at `src/ts/main.ts:381`, and `analyzeBarcode` writes a second one
  with the same identifier at `src/ts/main.ts:304`. The reads X, X, X, Y, X
  are accepted at positions 1, 4 and 5 and add six records, not three
  (`Scanner.DedupTrace`).
- **Clearing does not empty the store.** The clear button resets the
  in-memory list and the last payload (`src/ts/main.ts:155-156`). The
  persisted records, and so both counts, stay as they were
  (`Session.Clear`).
- **`detect` has no `scanning` guard.** A decoder result that arrives after
  stop is still analysed and stored (`Session.LateDetectionStored`).
- **A refused camera request leaves `scanning` true.** The flag is set
  before `startVideo`'s `getUserMedia` is awaited (`src/ts/main.ts:132`,
  `:171`). The session therefore stays marked as scanning with no stream
  bound (`Session.RefusedCameraStillScanning`).
- **A camera request that settles late is still bound.** Pressing stop
  before the camera answers leaves the request outstanding. When it is
  granted, the stream is bound and detection armed while the session is
  idle. A second grant overwrites the stream handle without stopping the
  first stream, which then can never be stopped (see Findings).
- **The listing reads a list that is never filled.** `showResultList`
  reads `dataArr`, but the line that filled it is commented out
  (`src/ts/main.ts:380`). `Listing.ResultList` is therefore stated for
  an arbitrary input sequence.

## Model

| member | source | states |
|---|---|---|
| Payload.MatchAnchored | src/ts/main.ts:32 | an anchored match succeeds exactly when the input has the pattern's length and every character lies in its atom's class; what it captures is no longer than the input |
| Payload.MatchConcat | src/ts/main.ts:32 | matching a concatenated pattern is matching each part against its slice of the input and joining the captures |
| Payload.MatchAllCaptured | src/ts/main.ts:32 | a successful match of a group whose atoms are all captured captures the whole input |
| Payload.MatchNoneCaptured | src/ts/main.ts:32 | a successful match of atoms outside any group captures nothing |
| Payload.PatternCapture | src/ts/main.ts:32 | a successful match of `[A-D](\d{6})[A-D]` captures exactly characters 1..6 of the payload |
| Payload.MatchId | src/ts/main.ts:286-292 | the match succeeds iff the payload has length 8, starts and ends with A–D and has ASCII digits in between; the identifier is then `code[1..7]`, six digits |
| Order.LexLessIrreflexive | src/ts/main.ts:418-419 | no string is below itself in JavaScript string order |
| Order.LexLessAsymmetric | src/ts/main.ts:418-419 | string order is asymmetric |
| Order.LexLessTransitive | src/ts/main.ts:418-419 | string order is transitive |
| Order.LexLessTotal | src/ts/main.ts:418-419 | any two strings are equal or ordered one way or the other |
| Order.DecimalValue | src/ts/main.ts:415 | `Number(s)` of an n-digit string is below 10^n |
| Order.DecimalOrder | src/ts/main.ts:415 | for digit strings of equal length, numeric `<` is string `<` and numeric equality is string equality |
| Order.IdentifierOrder | src/ts/main.ts:415 | the same for six-digit identifiers: comparing `Number(id)` is comparing the identifier strings |
| Items.IdsAppend | src/ts/main.ts:403 | appending a record adds exactly its identifier to the identifier set |
| Items.IdsBound | src/ts/main.ts:403-404 | there are no more distinct identifiers than records |
| Items.ItemNumber | src/ts/main.ts:400-407 | `unique <= total`, `total` is the record count, and `unique` is 0 exactly on an empty store |
| Items.ReadThroughMatchesCounter | src/ts/main.ts:403 | the size of the identifier set equals an independent count that adds one for each record whose identifier did not occur before it |
| Items.AppendKnownId | src/ts/main.ts:400-407 | appending a record with a present identifier raises `total` by one and leaves `unique` |
| Items.AppendNewId | src/ts/main.ts:400-407 | appending a record with a new identifier raises both counts by one |
| Listing.CompareSign | src/ts/main.ts:413-421 | for six-digit identifiers the comparator is negative iff the first record is below the second by (id, timestamp), positive iff above, zero iff the records are equal |
| Listing.ItemLessIrreflexive | src/ts/main.ts:413-421 | the record order is irreflexive |
| Listing.ItemLessAsymmetric | src/ts/main.ts:413-421 | the record order is asymmetric |
| Listing.ItemLessTransitive | src/ts/main.ts:413-421 | the record order is transitive |
| Listing.ItemLessTotal | src/ts/main.ts:413-421 | any two different records are ordered, so the comparator has ties only between equal records |
| Listing.Insert | src/ts/main.ts:413-421 | inserting by the comparator into a sorted sequence gives a sorted permutation of the sequence plus the record |
| Listing.Sort | src/ts/main.ts:413-421 | the sort returns a permutation of its input, ascending by (numeric id, timestamp) |
| Listing.SortIsDetermined | src/ts/main.ts:413-421 | two sorted permutations of the same records are equal, so the engine's choice of sort algorithm and its stability do not matter |
| Listing.FindIndex | src/ts/main.ts:424 | `findIndex` returns the first position holding the identifier, or -1 when none does |
| Listing.FindIndexIsFirst | src/ts/main.ts:423-424 | the filter's test `index === findIndex(...)` holds exactly at positions with no earlier record of the same identifier |
| Listing.KeepFirstFrom | src/ts/main.ts:423-425 | every kept record is the first record of its identifier, and the kept identifiers are pairwise different |
| Listing.KeepFirstComplete | src/ts/main.ts:423-425 | every first record of an identifier is kept |
| Listing.KeepFirstAscending | src/ts/main.ts:413-425 | filtering a sorted sequence gives strictly ascending identifiers |
| Listing.KeepFirstIds | src/ts/main.ts:423-425 | the filter keeps exactly the identifiers of its input |
| Listing.KeepFirstEarliest | src/ts/main.ts:413-425 | on a sorted sequence each kept record has the earliest timestamp of its identifier |
| Listing.ResultList | src/ts/main.ts:411-432 | the listing holds one record per distinct input identifier (its length is the aggregate's `unique`), in strictly ascending identifier order; each record comes from the input and no input record with the same identifier has an earlier timestamp |
| Listing.ResultListNumeric | src/ts/main.ts:413-416 | the listing is strictly ascending by `Number(id)` |
| Listing.ResultListExample | src/ts/main.ts:411-432 | the records (000002, 09:00), (000001, 10:00), (000001, 09:30) are listed as (000001, 09:30), (000002, 09:00) |
| Listing.InsertNewest | src/ts/main.ts:478 | inserting into a newest-first sequence gives a newest-first permutation of the sequence plus the record |
| Listing.RecentFirst | src/ts/main.ts:476-478 | the page-load listing is a permutation of the stored records with no later record having a later timestamp, and records with equal timestamps keep the order the store returned them in |
| Listing.InsertNewestKeepsOrder | src/ts/main.ts:478 | inserting a record puts it in front of the records with its timestamp and leaves their order alone |
| Scanner.AnalyzeBarcode | src/ts/main.ts:283-310 | the payload last accepted is silently dropped; a new invalid payload alerts and changes nothing; a new valid payload sets `lastText`, keeps the old records as a prefix and appends two records with the identifier `code[1..7]`, stamped by `addResultItem` and by `analyzeBarcode`; well-formedness of the store is kept |
| Scanner.Detect | src/ts/main.ts:216-236 | a tick is silent and changes nothing without a platform decoder, without a detected code, or when the first code is the last accepted payload; it alerts exactly when the first code is new and invalid; it accepts exactly when the first code is new and valid, and then sets `lastText` to it and appends two records after the old ones |
| Scanner.DetectFirstOnly | src/ts/main.ts:233-234 | codes after the first one reported in a frame are ignored |
| Scanner.RunConcat | src/ts/main.ts:283-310 | running two series of reads one after the other is running their concatenation |
| Scanner.RunAppendOnly | src/ts/main.ts:283-310 | over any series of reads, there is one effect per read, the old store is a prefix of the new one, and the store grows by two records per accepted payload |
| Scanner.AcceptedCounts | src/ts/main.ts:301-309 | an accepted payload raises `total` by two, and `unique` by one exactly when its identifier was not stored yet |
| Scanner.RepeatIsSilent | src/ts/main.ts:284 | a valid payload read on the next tick again, whether it was just accepted or was already the last payload, is silent and changes nothing |
| Scanner.InvalidAlertsAgain | src/ts/main.ts:286-290 | an invalid payload alerts, changes nothing, and alerts again when read next |
| Scanner.ThreeReadsOfX | src/ts/main.ts:284-307 | a new valid payload read three times is accepted once, then ignored twice |
| Scanner.YThenX | src/ts/main.ts:284-307 | after X was accepted, reading Y then X accepts both |
| Scanner.DedupTrace | src/ts/main.ts:283-310 | for distinct valid X and Y, the reads X, X, X, Y, X are accepted at positions 1, 4 and 5, leave `lastText` at X and add six records |
| Session.StartVideo | src/ts/main.ts:170-176 | when the camera request settles, a grant binds a fresh stream and adds it to the running streams without stopping the one bound before; a refusal only retires the request |
| Session.StopVideo | src/ts/main.ts:196-212 | after stopping, timer and stream handles are null and exactly the old interval and the stream under the handle are released |
| Session.OnPlaying | src/ts/main.ts:184-191 | the handler first clears the previous interval, then arms a fresh one that becomes the only new live interval |
| Session.ToggleScan | src/ts/main.ts:129-147 | the button flips `scanning`; start only issues a camera request; stop leaves no timer and no stream handle |
| Session.Clear | src/ts/main.ts:151-161 | a confirmed clear empties the in-memory list and resets the last payload; the store and both counts are unchanged; a declined clear changes nothing |
| Session.Tick | src/ts/main.ts:216-236 | a detection tick only grows the store and leaves the scanning flag and the handles alone |
| Session.Step | src/ts/main.ts:129-236 | no event shrinks or rewrites the store |
| Session.InitInv | src/ts/main.ts:35-40 | the page starts with no handles and no live interval or stream |
| Session.StepInv | src/ts/main.ts:129-236 | every event keeps the timer handle naming exactly the live interval and the stream handle naming a running stream |
| Session.RunInv | src/ts/main.ts:184-212 | over any series of events at most one interval is live, and the store only grows |
| Session.StopIdempotent | src/ts/main.ts:196-212 | a second `stopVideo` changes nothing |
| Session.StopReleasesAll | src/ts/main.ts:196-212 | under the invariant, stopping leaves no live interval and stops exactly the stream under the handle |
| Session.RefusedCameraStillScanning | src/ts/main.ts:129-137 | pressing start and then having the camera refused leaves the session scanning with the stream handle as it was |
| Session.LateDetectionStored | src/ts/main.ts:216-236 | a valid new payload detected while not scanning still adds two records |
| Session.ClearReadmits | src/ts/main.ts:151-161 | after a confirmed clear the counts are unchanged and the payload last accepted is accepted again |
| Session.StreamWhileIdle | src/ts/main.ts:129-191 | start, stop, then a granted request and the video playing: the session is idle with a stream bound and detection armed |
| Session.OrphanStaysOpen | src/ts/main.ts:171-205 | a running stream that no handle names stays running after any series of events |
| Session.StreamLeak | src/ts/main.ts:129-212 | start, stop, start, two grants, stop: the session is idle with no stream handle while the first stream still runs, and no later events stop it |
| Session.StartVideoChecked | src/ts/main.ts:170-176 | the intended settling: a grant binds its stream only while scanning with no stream bound; otherwise the new stream never runs |
| Session.CheckedStepInv | src/ts/main.ts:129-236 | with the checked request every event keeps the intended invariant: the handle names every running stream, and nothing runs while idle |
| Session.CheckedRunInv | src/ts/main.ts:129-236 | with the checked request, over any series of events at most one stream runs, and while idle no stream runs and no interval is live |
| Session.CheckedStopReleasesAll | src/ts/main.ts:196-212 | under the intended invariant, stopping releases every interval and stream |

## Left out

- `getCropRect` and the canvas draw (`src/ts/main.ts:218-230`, `:239-265`) are left out. They divide floating-point sizes reported by the DOM.
- The `BarcodeDetector` itself and its availability check are left out. Availability and the list of detected codes are inputs to `Scanner.Detect`.
- IndexedDB plumbing (`openDB`, `addItem`, `getAllItems`) is replaced by the append-only sequence. `src/ts/indexedDB.ts` is not part of this model; `main.ts` does not import it.
- Asynchronous interleaving is left out. This covers overlapping interval ticks, the awaited writes before `lastText` is set, and the floating `addItem` at `src/ts/main.ts:381`. Each step is atomic, and the two records of one acceptance are appended in call order.
- Scanner.AnalyzeBarcode does not model the window in which `lastText` is still the previous payload while the write is awaited. A second tick in that window accepts the same payload again. This is a concurrency effect.
- Timestamp formatting with `Intl.DateTimeFormat` is left out. Timestamps are opaque strings passed to each step.
- DOM rendering (`innerHTML`, list entries) is left out, as are `setUIState`, `alert`/`confirm`, the beep, vibration, `src/ts/sound.ts`, the PWA configuration and the commented-out `localStorage` code. `confirm`'s answer is an input to `Session.Clear`. The alert is the `InvalidAlert` effect.
- Listing.ResultList requires six-digit identifiers, which every record the scanner writes has (`Scanner.AnalyzeBarcode` keeps `AllWellFormed`). `Number()` of other strings (`NaN`, leading zeros of other lengths) is not modelled.
- Listing.RecentFirst models `localeCompare` as plain code-point lexicographic order. The page writes every timestamp in the fixed layout `YYYY-MM-DDTHH:MM:SS` with zero-padded fields, so both orders compare the same characters at the same positions and agree; for arbitrary strings under every locale they need not.
- Listing.RecentFirst takes the records in the order `getAll` returns them, which is key order, that is, insertion order.
- Order.LexLess compares characters by code point, whereas JavaScript compares UTF-16 code units. The two agree on the ASCII text the page stores.
- Scanner.AnalyzeBarcode assumes every store write succeeds. If the write at `src/ts/main.ts:304` fails, `lastText` is never set at `:307`, although `addResultItem` has already shown the entry, beeped and issued its own write; the same payload is then accepted again on every tick. Failing writes are not modelled.
- Session.OnPlaying does not run the immediate `detect()` at `src/ts/main.ts:190`; it is represented by a `DetectTick` event following `VideoPlaying`.
- Session.Step lets the video start playing only while a stream is bound, and lets a camera request settle only while one is outstanding. Pausing and resuming the video element is not modelled.

## Findings

| source | as written | input that shows it | evidently intended | confidence | as-written member | corrected member |
|---|---|---|---|---|---|---|
| src/ts/main.ts:129-191 | `startVideo` is not awaited, and when `getUserMedia` settles the stream is bound without checking `scanning` or an existing stream | start, stop, then the camera grants: a stream runs and detection is armed while idle; start, stop, start, two grants, stop: the first stream runs with no handle and can never be stopped | a stream that arrives while idle or while one is bound is stopped at once | high; not executed | Session.StreamLeak | Session.CheckedRunInv |
