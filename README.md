# Twitter Space downloader: a Dafny model of the HLS download pipeline

The browser extension saves the audio (or video) of a Twitter/X Space. It has four parts:

- `fetchAndParsePlaylist` in `background.js` resolves an HLS playlist (RFC 8216) to a list of chunk URLs. A master playlist is recognised by its `#EXT-X-STREAM-INF` tag. Its variant with the highest probed bandwidth is followed recursively.
- `downloadAndMergeChunks` downloads the chunks in windows of five. Each chunk goes through `fetchWithRetry`, which makes up to 3 attempts with exponential backoff. Results are merged by chunk index, progress is reported and a MIME type is chosen.
- `sanitizeFilename` turns the Space title into a file name.
- `popup.js` holds an older copy of these pieces: a sequential download, a 20-character sanitiser without `@`, the same `fetchWithRetry`, and the `spaceName` defaulting of the download button.

Modules, one per concern:

| file | module | what it holds |
|---|---|---|
| `wrappers.dfy` | `Wrappers` | `Option`, `Result`, `Somes` (the `filter(x => x !== null)` step) |
| `jstext.dfy` | `JsText` | the JavaScript string primitives: `\s`, `trim`, `split`, `startsWith`, `endsWith`, `includes` |
| `fetcher.dfy` | `Fetcher` | `fetchWithRetry` (both files) |
| `media.dfy` | `Media` | chunk outcomes, the Blob, index-ordered merging |
| `percent.dfy` | `Percent` | `Math.round(k / total * 100)` in integer arithmetic |
| `sanitizer.dfy` | `Sanitizer` | the replace/slice chain shared by both sanitisers, parameterised by a profile |
| `background.dfy` | `Background` | `sanitizeFilename`, `hasVideo`, the MIME choice, the windowed `downloadAndMergeChunks` |
| `playlist.dfy` | `Playlist` | `fetchAndParsePlaylist` |
| `popup.dfy` | `Popup` | the popup copies and the click handler's `spaceName` defaulting |

How the outside world is represented:

- A chunk's `fetch` calls are a given sequence of `Attempt`s: either a rejection or a response with a status and bytes.
- The playlist server is a function from URL to `Page`. The HEAD probes are a function from URL to an optional bandwidth. A probe that throws, or whose header is not a number, gives `None`.
- `new URL(relative, base)` is an abstract partial function `(string, string) -> Option<string>`.
- Delays are returned as a list of milliseconds instead of being slept.
- The recursion of `fetchAndParsePlaylist` takes a `fuel` bound and reports `TooDeep` when it runs out. The source has no bound.

Behaviour of the code worth knowing:

- The background sanitiser keeps `@` inside a name. `"  My Space! 🎙️ @user  "` becomes `My_Space_@user.mp3` (`Background.SanitizeKeepsInnerAt`). Only the popup copy drops `@` (`Popup.SanitizeDropsAt`).
- Re-sanitising a base is not always idempotent. The 50-character slice can end on `_`, and a second pass trims it (`Background.SanitizeNotIdempotent`). Re-sanitising a base that does not end in a separator gives it back (`Sanitizer.BaseIdempotent`). This is about the base: the first replace strips the `.` of an extension, so a whole file name is a different input.
- The stored `downloadProgress` is `round((i+5)/total*100)` without the clamp; one chunk stores 500 (`Background.StoredProgressUnclamped`). Only the value sent by message is clamped.
- Segment lines whose URL does not resolve are dropped. When every line resolves, a media playlist yields one chunk per URI line, in order (`Playlist.ChunkUrlsInOrder`).
- The recursion into the selected variant has no depth cap. A master playlist whose only variant is itself never finishes (`Playlist.SelfReferenceNeverEnds`).
- The popup progress bar can reach 100 before the last chunk. This happens with 200 or more chunks: chunk 199 of 200 rounds to 100 (`Popup.HundredBeforeLast`). With fewer chunks it is 100 only at the last one (`Popup.HundredOnlyAtLast`).

## Model

| member | source | states |
|---|---|---|
| Fetcher.Backoff | background.js:225 | the wait after failed attempt `j` is `1000 * 2^j` ms |
| Fetcher.FirstSuccess | background.js:218-222 | the index found is an ok attempt, and every earlier attempt failed; None means all of the first `n` failed |
| Fetcher.Retried | background.js:217-228 | the response returned is that of the first ok attempt among the first `retries`, and one is returned whenever such an attempt exists; when all fail, the error of the last attempt is rethrown; nothing happens when `retries` is 0 |
| Fetcher.AttemptsMade | background.js:218-224 | at most `retries` calls are made, none only when `retries` is 0; every call but the last failed, and fewer than `retries` calls are made only when the last one succeeded |
| Fetcher.FetchWithRetry | background.js:217-228 | the loop returns the `Retried` outcome after `AttemptsMade` calls and waits `1000, 2000, …` ms after every failed attempt but the last; the popup copy (popup.js lines 238-249) is the same loop |
| Media.ChunkBytes | background.js:163-175 | a chunk has bytes exactly when one of its 3 attempts is ok, and then they are the body of the first ok response |
| Media.ChunkResults | background.js:162-183 | every chunk index holds the outcome of that chunk's own downloads |
| Media.MergedAllArrived | background.js:196-208 | when every chunk arrives, the Blob data is all chunks back to back in index order |
| Media.MergedSkipsFailure | background.js:196-197 | a failed chunk is left out, and the chunks before and after it keep their order |
| Media.MergedAppend | background.js:179-197 | merging consecutive windows is merging each window in turn, so order follows the index |
| Wrappers.SomesEmpty | background.js:197-201 | the merged chunk list is empty exactly when every chunk failed |
| Wrappers.SomesContains | background.js:307-314 | a URL survives the null filter exactly when some entry held it |
| Percent.RoundPercentFacts | background.js:185 | the rounded percentage of at most all chunks is at most 100, grows with the count, and is 100 exactly when at most half a percent remain |
| JsText.Trim | background.js:252 | a trimmed line is empty or starts and ends with a non-whitespace character |
| JsText.TrimEmpty | popup.js:194-197 | `trim` leaves an empty string exactly when the string is all whitespace |
| JsText.TrimPadding | background.js:252 | `trim` removes exactly the surrounding whitespace of a line |
| JsText.JoinSplit | background.js:252 | `split('\n')` loses nothing: joining the pieces gives the text back |
| JsText.IncludesAt | background.js:248 | the tag at any position of the text makes `includes` true |
| JsText.IncludesSomewhere | background.js:248 | `includes` is true only when the tag starts at some position of the text |
| Sanitizer.StripCharset | background.js:135 | after the first replace only ASCII letters, digits, whitespace, `-`, `_` and `@` remain |
| Sanitizer.CollapseCharset | background.js:136 | after the second replace no whitespace remains |
| Sanitizer.CollapseRun | background.js:136 | a whitespace run becomes a single `_` |
| Sanitizer.TrimSeparators | background.js:137 | the trimmed text is empty or neither starts nor ends with `-`, `_` or `@` |
| Sanitizer.Truncate | background.js:138 | the slice keeps the first `min(length, limit)` characters |
| Sanitizer.StageBaseShape | background.js:135-138 | the staged base is at most the limit long, uses only name characters and does not start with a separator |
| Sanitizer.TrimmedEmpty | background.js:135-137 | the first three stages leave nothing exactly when the label has no ASCII letter or digit |
| Sanitizer.FallbackExactlyWithoutAlnum | background.js:140-142 | the staged base is empty exactly when the label has no ASCII letter or digit, and the default name is used then |
| Sanitizer.Base | background.js:134-142 | the base is non-empty, at most the limit long, made of name characters and does not start with a separator |
| Sanitizer.StageBaseIdentity | background.js:135-138 | a name that already satisfies the rules and does not end in a separator passes the stages unchanged |
| Sanitizer.BaseIdempotent | background.js:134-142 | sanitising a base again gives it back when it does not end in a separator |
| Sanitizer.BaseNotIdempotentAfterTrailingSeparator | background.js:137-138 | sanitising again changes a base that ends in a separator |
| Sanitizer.CutAtSeparator | background.js:138 | the slice to the limit can end on `_` |
| Sanitizer.InnerAtKept | background.js:135-137 | `@` between letters or digits is kept by the background sanitiser |
| Sanitizer.InnerAtDropped | popup.js:283-287 | `@` between letters or digits is dropped by the popup sanitiser |
| Background.SanitizeFilename | background.js:134-148 | the name is a non-empty base of at most 50 name characters, not starting with `-`, `_` or `@`, then `.mp4` when `hasVideo` and `.mp3` otherwise; the default base `twitter_space_media` is used exactly when the label has no ASCII letter or digit; otherwise the base is the staged label |
| Background.SanitizeFilenameOfStaged | background.js:140-147 | a non-empty staged base is the name followed by the extension |
| Background.SanitizeKeepsInnerAt | background.js:135-147 | `"  My Space! 🎙️ @user  "` becomes `My_Space_@user.mp3` |
| Background.SanitizeNotIdempotent | background.js:137-138 | there is a label whose base changes when sanitised a second time |
| Background.MediaTypeMatchesExtension | background.js:65-66 | for the same chunk list the Blob is `video/mp4` exactly when the name ends in `.mp4`, and `audio/mpeg` exactly when it ends in `.mp3` |
| Background.Reports | background.js:162-192 | one progress report per window of five |
| Background.ReportsFacts | background.js:185-192 | the sent progress is at most 100 and is 100 on the last window; window `w` covers chunks `5w+1` to `min(5w+5, total)`; the stored value is never below the sent one |
| Background.StoredProgressUnclamped | background.js:185-186 | with one chunk the stored progress is 500 and the sent one 100 |
| Background.FetchWindow | background.js:163-176 | every chunk of the window is tagged with its own index `i + index`, or null when its download failed; the chunks are fetched in index order, each once |
| Background.StoreResults | background.js:179-183 | each result is written at its own index and every other slot is unchanged |
| Background.DownloadAndMergeChunks | background.js:155-209 | every index is fetched once in order, as the windows report; one report per window; the error is raised exactly when no chunk arrived; otherwise the Blob is the arrived chunks in index order, typed by the `.ts`/`.mp4`/`.m4s` test |
| Playlist.ExtractVariants | background.js:251-268 | the variants collected are the resolved lines announced by tag lines, in line order |
| Playlist.VariantsAnnounced | background.js:254-267 | a URL is a variant exactly when a line starting with the tag is followed by a non-empty line that resolves to it |
| Playlist.NoTagLineNoVariants | background.js:255 | without a line starting with the tag there is no variant |
| Playlist.MasterWithoutTagLine | background.js:248-273 | text holding the tag only inside a line is a master playlist that fails with no variants |
| Playlist.Chosen | background.js:276-290 | the selected bandwidth is never below 0 and the selected index is a variant |
| Playlist.SelectionRule | background.js:276-290 | the chosen bandwidth bounds every probe; when it is positive the choice is the first variant reaching it, otherwise the first variant |
| Playlist.FailedProbeLikeZero | background.js:281-289 | a failed probe selects the same variant as a probe of 0 or less |
| Playlist.HigherBandwidthWins | background.js:283-286 | of probes 500 and 1200 the second wins; of two equal probes the first stays |
| Playlist.SelectVariant | background.js:275-290 | the loop returns the variant `Chosen` selects |
| Playlist.SegmentLines | background.js:297-300 | every kept line is non-empty and does not start with `#` |
| Playlist.SegmentLinesExact | background.js:297-300 | a line is a segment line exactly when it is a trimmed playlist line that is non-empty and does not start with `#` |
| Playlist.SegmentLinesAppend | background.js:297-300 | segment lines keep source order |
| Playlist.ChunkUrlsInOrder | background.js:307-314 | when every segment line resolves, chunk `k` is segment line `k` resolved against the playlist URL |
| Playlist.ChunkUrlsResolved | background.js:307-314 | a URL is a chunk exactly when some segment line resolves to it |
| Playlist.ChunkUrlsEmpty | background.js:307-314 | the chunk list is empty exactly when no segment line resolves |
| Playlist.MediaPageWithoutChunks | background.js:293-319 | an ok media playlist fails with `NoChunks` exactly when no segment line resolves |
| Playlist.ParseLevel | background.js:236-323 | one level finishes with a non-empty chunk list from an ok media playlist, or descends from an ok master playlist into its selected variant; it fails with a network error exactly when the page is unreachable, with the status for a non-ok page, with `NoVariants` exactly for an ok master playlist without variants, and an ok media playlist fails with `NoChunks` exactly when its chunk list is empty; an ok media playlist with chunks always finishes with them, and an ok master playlist with a variant always descends into the selected one |
| Playlist.Parsed | background.js:236-323 | a successful parse is never an empty list |
| Playlist.FetchAndParsePlaylist | background.js:236-323 | the method returns what `Parsed` describes |
| Playlist.ParsedMediaPage | background.js:293-322 | an ok media playlist with chunks returns its chunk list, whatever the fuel |
| Playlist.ParsedMasterPage | background.js:248-293 | an ok master playlist with a variant is parsed as its selected variant, one level deeper |
| Playlist.ParsedFromMediaPage | background.js:293-322 | every returned chunk list is the resolved segment list of one ok media playlist |
| Playlist.ParsedFuelMonotone | background.js:293 | a result other than `TooDeep` does not change with more fuel |
| Playlist.SelfReferenceNeverEnds | background.js:293 | a master playlist whose only variant is itself ends in `TooDeep` for every fuel |
| Popup.SanitizeFilename | popup.js:281-298 | the name is a non-empty base of at most 20 ASCII letters, digits, `_` and `-`, not starting with `_` or `-`, then `.mp3`; the default base `twitter_space_audio` is used exactly when the label has no ASCII letter or digit; otherwise the base is the staged label |
| Popup.SanitizeFilenameOfStaged | popup.js:291-297 | a non-empty staged base is the name followed by `.mp3` |
| Popup.SanitizeDropsAt | popup.js:283-297 | `"  My Space! 🎙️ @user  "` becomes `My_Space_user.mp3` |
| Popup.ProgressUpdatesFacts | popup.js:217-228 | one progress update per successful chunk, each at most 100, never decreasing, and the last is 100 when the last chunk succeeds |
| Popup.HundredOnlyAtLast | popup.js:223 | with fewer than 200 chunks the bar shows 100 only after the last chunk |
| Popup.HundredBeforeLast | popup.js:223 | with 200 chunks, chunk 199 already shows 100 |
| Popup.DownloadAndMergeChunks | popup.js:213-236 | chunks are tried one at a time in order; the updates are `ProgressUpdates`; the error is raised exactly when none arrived; otherwise the Blob is the arrived chunks in order, typed `audio/mpeg` |
| Popup.AllChunksArrived | popup.js:217-235 | when every chunk arrives the Blob is all chunks back to back and the bar ends at 100 |
| Popup.SpaceName | popup.js:187-199 | the sent name is never blank; it is `twitter_space` when the stored value is absent or blank after `String(...).trim()`, and the trimmed value otherwise |
| Popup.StartRequest | popup.js:186-205 | a falsy `playlistUrl` throws; otherwise the message carries it with the defaulted `spaceName` |

## Left out

- Extension plumbing is not modelled: `chrome.runtime`, `chrome.storage`, `webRequest` listeners, messaging, and the `startDownload` orchestration beyond its `hasVideo` test. The FileReader and `chrome.downloads` steps of `initiateDownload` are also left out.
- The popup UI is not modelled: the DOM, the progress bar and status functions. `content.js` is not part of this model.
- Real network and timers are not modelled. `fetch`, HEAD requests, `response.arrayBuffer()`, `response.text()` and `setTimeout` become given values, and delays are returned instead of slept.
- `new URL(relative, base)` is an abstract partial function. The WHATWG URL algorithm is outside the model. `baseUrl` (background.js:245) is computed but never used.
- The Blob is its byte concatenation and MIME type. `mediaBlob.size === 0` and the empty-filename check in `startDownload` are left out.
- The `Promise.all` parallelism inside a window is modelled as a sequential pass. The merge writes each result at its own index, so completion order does not matter.
- Playlist.FetchAndParsePlaylist: the recursion is bounded by `fuel` and reports `TooDeep` when it runs out. The source recurses without a bound; `ParsedFuelMonotone` shows the bound only cuts runs off.
- `Math.round` on floating-point numbers is exact integer rounding of halves upward. Floating-point error on the division is not modelled.
- Each HEAD probe is a function of the variant URL, so the same URL probed twice reports the same bandwidth. `parseInt` is folded into that value: a number, or None for a failed request or a header that is not a number.
- The `audioExtensions`/`videoExtensions` arrays (background.js:303-304) are never used and are left out.
- Console logging and the status texts are left out, except the chunk range of the window status, which is in `Background.ProgressReport`.
- Strings are sequences of Unicode scalar values, while JavaScript strings are UTF-16 code units. Every `slice` and `length` in the core runs after only ASCII remains or only tests for emptiness, so the two agree there.
- Popup.StartRequest: a stored value that is not a string, null or absent is given by its truthiness and its `String(...)` rendering. JavaScript's conversions are not modelled.
