/** The download pipeline of background.js: `sanitizeFilename`, the `hasVideo` test and the
    windowed, index-keyed `downloadAndMergeChunks`. */
module Background {
  import opened Wrappers
  import opened JsText
  import opened Sanitizer
  import opened Fetcher
  import opened Media
  import opened Percent

  // ---------------------------------------------------------------------------
  // Filename

  /** The extension chosen from `hasVideo`. */
  function Extension(hasVideo: bool): string {
    if hasVideo then ".mp4" else ".mp3"
  }

  /** `sanitizeFilename(filename, hasVideo)`: a non-empty base of at most 50 name characters
      (letters, digits, `_`, `-`, `@`) that does not start with a separator, followed by `.mp4`
      or `.mp3`.  The base is the staged label when the label holds an ASCII letter or digit,
      and `twitter_space_media` otherwise. */
  function SanitizeFilename(name: string, hasVideo: bool): (r: string)
    ensures |r| > 4 && r[|r| - 4..] == Extension(hasVideo)
    ensures 1 <= |r| - 4 <= 50
    ensures AllNameChars(r[..|r| - 4], true)
    ensures !IsSeparator(r[0], true)
    ensures r[..|r| - 4] == if HasAlnum(name) then StageBase(name, BackgroundProfile) else "twitter_space_media"
  {
    ProfilesValid();
    FallbackExactlyWithoutAlnum(name, BackgroundProfile);
    var base := Base(name, BackgroundProfile);
    var r := base + Extension(hasVideo);
    assert r[..|r| - 4] == base && r[|r| - 4..] == Extension(hasVideo);
    r
  }

  /** Stage 1 on the label `"  My Space! 🎙️ @user  "`: the `!` and the emoji go. */
  lemma StrippedSpaceTitle()
    ensures StripDisallowed("  My Space! \U{1F399}\U{FE0F} @user  ", true) == "  My Space  @user  "
  {
    assert "  My Space! \U{1F399}\U{FE0F} @user  " == "  My Space" + ("! \U{1F399}\U{FE0F}" + " @user  ");
    assert "  My Space" + (" " + " @user  ") == "  My Space  @user  ";
    assert StripDisallowed("! \U{1F399}\U{FE0F}", true) == " ";
    StripAround("  My Space", "! \U{1F399}\U{FE0F}", " @user  ", true);
  }

  /** Stage 2: the three whitespace runs become `_`. */
  lemma CollapsedSpaceTitle()
    ensures CollapseWhitespace("  My Space  @user  ") == "_My_Space_@user_"
  {
    assert "  My Space  @user  " == "  " + ("My" + (" " + ("Space" + ("  " + ("@user" + "  ")))));
    assert "_" + ("My" + ("_" + ("Space" + ("_" + ("@user" + "_"))))) == "_My_Space_@user_";
    CollapseThreeWords("  ", "My", " ", "Space", "  ", "@user", "  ");
  }

  /** Stage 3: the outer `_`s are trimmed and the inner `@` stays. */
  lemma TrimmedSpaceTitle()
    ensures TrimSeparators("_My_Space_@user_", true) == "My_Space_@user"
  {
    assert "_My_Space_@user_" == "_" + "My_Space_@user" + "_";
    TrimOneEach("My_Space_@user", true);
  }

  lemma StagedSpaceTitle()
    ensures StageBase("  My Space! \U{1F399}\U{FE0F} @user  ", BackgroundProfile) == "My_Space_@user"
  {
    StrippedSpaceTitle();
    CollapsedSpaceTitle();
    TrimmedSpaceTitle();
  }

  /** A label whose staged base is not empty is named by that base and the extension. */
  lemma SanitizeFilenameOfStaged(name: string, hasVideo: bool)
    requires StageBase(name, BackgroundProfile) != []
    ensures SanitizeFilename(name, hasVideo) == StageBase(name, BackgroundProfile) + Extension(hasVideo)
  {
    ProfilesValid();
    FallbackExactlyWithoutAlnum(name, BackgroundProfile);
    var r := SanitizeFilename(name, hasVideo);
    assert r == r[..|r| - 4] + r[|r| - 4..];
  }

  /** `@` survives in the middle of a name: the label `"  My Space! 🎙️ @user  "` becomes
      `My_Space_@user.mp3`. */
  lemma SanitizeKeepsInnerAt()
    ensures SanitizeFilename("  My Space! \U{1F399}\U{FE0F} @user  ", false) == "My_Space_@user" + ".mp3"
  {
    StagedSpaceTitle();
    SanitizeFilenameOfStaged("  My Space! \U{1F399}\U{FE0F} @user  ", false);
  }

  /** Truncation to 50 characters can leave a trailing separator, and then sanitising the
      base a second time shortens it. */
  lemma SanitizeNotIdempotent() returns (name: string)
    ensures Base(Base(name, BackgroundProfile), BackgroundProfile) != Base(name, BackgroundProfile)
  {
    ProfilesValid();
    var w := seq(49, _ => 'a');
    CutAtSeparator(w, BackgroundProfile);
    name := w + "_b";
    var b := Base(name, BackgroundProfile);
    assert b == w + "_";
    assert b[|b| - 1] == '_';
    BaseNotIdempotentAfterTrailingSeparator(name, BackgroundProfile);
  }

  // ---------------------------------------------------------------------------
  // Media type

  /** The suffix test shared by `hasVideo` and the MIME choice. */
  predicate IsVideoChunkUrl(url: string) {
    EndsWith(url, ".ts") || EndsWith(url, ".mp4") || EndsWith(url, ".m4s")
  }

  /** `chunkUrls.some(...)`, as computed both in `startDownload` and in `downloadAndMergeChunks`. */
  predicate HasVideo(chunkUrls: seq<string>) {
    exists k :: 0 <= k < |chunkUrls| && IsVideoChunkUrl(chunkUrls[k])
  }

  /** The Blob type. */
  function MimeType(hasVideo: bool): string {
    if hasVideo then "video/mp4" else "audio/mpeg"
  }

  /** The Blob and the file name agree: for the same chunk list the Blob is `video/mp4` exactly
      when the file name ends in `.mp4`, and `audio/mpeg` exactly when it ends in `.mp3`. */
  lemma MediaTypeMatchesExtension(chunkUrls: seq<string>, name: string)
    ensures var f := SanitizeFilename(name, HasVideo(chunkUrls));
      && (MimeType(HasVideo(chunkUrls)) == "video/mp4" <==> f[|f| - 4..] == ".mp4")
      && (MimeType(HasVideo(chunkUrls)) == "audio/mpeg" <==> f[|f| - 4..] == ".mp3")
  {
  }

  // ---------------------------------------------------------------------------
  // Progress

  const ConcurrentDownloads: nat := 5

  function Min(a: int, b: int): int {
    if a <= b then a else b
  }

  /** The report of the window starting at chunk `i`: the stored `downloadProgress`, the
      clamped value sent by message, and the chunk range of the status text. */
  datatype ProgressReport = ProgressReport(stored: nat, sent: nat, firstChunk: nat, lastChunk: nat, total: nat)

  function WindowReport(i: nat, total: nat): ProgressReport
    requires total > 0
  {
    var p := RoundPercent(i + ConcurrentDownloads, total);
    ProgressReport(p, Min(p, 100), i + 1, Min(i + ConcurrentDownloads, total), total)
  }

  /** Windows start at 0, 5, 10, ...: their number for `total` chunks. */
  function WindowCount(total: nat): nat {
    (total + ConcurrentDownloads - 1) / ConcurrentDownloads
  }

  /** The reports of all windows, in order. */
  function Reports(total: nat): (r: seq<ProgressReport>)
    ensures |r| == WindowCount(total)
  {
    if total == 0 then [] else seq(WindowCount(total), w requires 0 <= w => WindowReport(ConcurrentDownloads * w, total))
  }

  /** What the reports promise: the sent value never exceeds 100 and is 100 on the last
      window; each window covers five chunks starting at a multiple of five; the stored
      value is the unclamped percentage and is never below the sent one. */
  lemma ReportsFacts(total: nat)
    ensures forall w :: 0 <= w < |Reports(total)| ==> Reports(total)[w].sent <= 100
    ensures forall w :: 0 <= w < |Reports(total)| ==>
      Reports(total)[w].firstChunk == 5 * w + 1 && Reports(total)[w].lastChunk == Min(5 * w + 5, total)
    ensures forall w :: 0 <= w < |Reports(total)| ==> Reports(total)[w].sent <= Reports(total)[w].stored
    ensures total > 0 ==> Reports(total)[|Reports(total)| - 1].sent == 100
  {
    if total > 0 {
      var w := WindowCount(total) - 1;
      var k := 5 * w + 5;
      assert k >= total;
      DivAtLeast(200 * k + total, 2 * total, 100);
    }
  }

  /** The stored `downloadProgress` is not clamped: one chunk reports 500. */
  lemma StoredProgressUnclamped()
    ensures Reports(1) == [ProgressReport(500, 100, 1, 1, 1)]
  {
  }

  // ---------------------------------------------------------------------------
  // Windowed download

  /** The result one chunk contributes to a window: its index and bytes, or null. */
  function Indexed(index: nat, result: Option<Bytes>): Option<(nat, Bytes)> {
    if result.Some? then Some((index, result.value)) else None
  }

  /** The `map` over `chunkUrls.slice(i, i + window)`: each chunk fetched with retry and
      tagged with its own index `i + index`.  Also returns the chunk indices passed to
      `fetchWithRetry`, in call order. */
  method FetchWindow(net: seq<seq<Attempt>>, i: nat, window: nat)
    returns (results: seq<Option<(nat, Bytes)>>, fetched: seq<nat>)
    requires CoversRetries(net) && i + window <= |net|
    ensures fetched == seq(window, j => i + j)
    ensures |results| == window
    ensures forall j :: 0 <= j < window ==> results[j] == Indexed(i + j, ChunkBytes(net[i + j]))
  {
    results, fetched := [], [];
    var index := 0;
    while index < window
      invariant 0 <= index <= window
      invariant fetched == seq(index, j => i + j)
      invariant |results| == index
      invariant forall j :: 0 <= j < index ==> results[j] == Indexed(i + j, ChunkBytes(net[i + j]))
    {
      var outcome, _, _ := FetchWithRetry(net[i + index], DefaultRetries);
      fetched := fetched + [i + index];
      // a response that is not ok throws inside the map callback, which then yields null
      if outcome.Fetched? && IsOk(outcome.response) {
        results := results + [Some((i + index, outcome.response.body))];
      } else {
        results := results + [None];
      }
      index := index + 1;
    }
  }

  /** The `forEach` over a window's results: `allChunks[result.index] = result.arrayBuffer`. */
  method StoreResults(allChunks: array<Option<Bytes>>, results: seq<Option<(nat, Bytes)>>, i: nat)
    requires i + |results| <= allChunks.Length
    requires forall j :: 0 <= j < |results| && results[j].Some? ==> results[j].value.0 == i + j
    modifies allChunks
    ensures forall k :: 0 <= k < allChunks.Length ==>
      allChunks[k] == if i <= k < i + |results| && results[k - i].Some? then Some(results[k - i].value.1) else old(allChunks[k])
  {
    var j := 0;
    while j < |results|
      invariant 0 <= j <= |results|
      invariant forall k :: 0 <= k < allChunks.Length ==>
        allChunks[k] == if i <= k < i + j && results[k - i].Some? then Some(results[k - i].value.1) else old(allChunks[k])
    {
      if results[j].Some? {
        allChunks[results[j].value.0] := Some(results[j].value.1);
      }
      j := j + 1;
    }
  }

  /** `downloadAndMergeChunks(chunkUrls)`, with `net[k]` the results of the `fetch` calls for
      chunk `k`.  Returns the Blob or the error, the chunk indices in the order they were
      attempted, and one progress report per window. */
  method DownloadAndMergeChunks(chunkUrls: seq<string>, net: seq<seq<Attempt>>)
    returns (r: Result<Blob, DownloadError>, attempted: seq<nat>, progress: seq<ProgressReport>)
    requires |net| == |chunkUrls| && CoversRetries(net)
    ensures attempted == seq(|chunkUrls|, k => k)
    ensures progress == Reports(|chunkUrls|)
    ensures r.Failure? <==> Somes(ChunkResults(net)) == []
    ensures r.Success? ==> r.value == Blob(Merged(ChunkResults(net)), MimeType(HasVideo(chunkUrls)))
  {
    var total := |chunkUrls|;
    ghost var expected := ChunkResults(net);
    var allChunks := new Option<Bytes>[total](_ => None);
    attempted, progress := [], [];
    var i := 0;
    while i < total
      invariant i == ConcurrentDownloads * |progress|
      invariant i <= total + ConcurrentDownloads - 1
      invariant attempted == seq(Min(i, total), k => k)
      invariant forall k :: 0 <= k < total ==> allChunks[k] == (if k < i then expected[k] else None)
      invariant progress == Reports(total)[..|progress|]
      decreases total - i
    {
      var window := Min(ConcurrentDownloads, total - i);
      var results, fetched := FetchWindow(net, i, window);
      attempted := attempted + fetched;
      StoreResults(allChunks, results, i);
      var stored := RoundPercent(i + ConcurrentDownloads, total);
      progress := progress + [ProgressReport(stored, Min(stored, 100), i + 1, Min(i + ConcurrentDownloads, total), total)];
      i := i + ConcurrentDownloads;
    }
    assert allChunks[..] == expected;
    var filtered := Somes(allChunks[..]);
    if |filtered| == 0 {
      return Failure(NoChunksDownloaded), attempted, progress;
    }
    r := Success(Blob(Concat(filtered), MimeType(HasVideo(chunkUrls))));
  }
}
