/** The older copies in popup.js: the 20-character `sanitizeFilename`, the sequential
    `downloadAndMergeChunks` and the `spaceName` defaulting of the download button's click
    handler.  Its `fetchWithRetry` is the one of the Fetcher module. */
module Popup {
  import opened Wrappers
  import opened JsText
  import opened Sanitizer
  import opened Fetcher
  import opened Media
  import opened Percent

  // ---------------------------------------------------------------------------
  // Filename

  /** `sanitizeFilename(filename)`: a non-empty base of at most 20 ASCII letters, digits, `_`
      and `-` that does not start with `_` or `-`, followed by `.mp3`.  The base is the staged
      label when the label holds an ASCII letter or digit, and `twitter_space_audio` otherwise. */
  function SanitizeFilename(name: string): (r: string)
    ensures |r| > 4 && r[|r| - 4..] == ".mp3"
    ensures 1 <= |r| - 4 <= 20
    ensures AllNameChars(r[..|r| - 4], false)
    ensures !IsSeparator(r[0], false)
    ensures r[..|r| - 4] == if HasAlnum(name) then StageBase(name, PopupProfile) else "twitter_space_audio"
  {
    ProfilesValid();
    FallbackExactlyWithoutAlnum(name, PopupProfile);
    var base := Base(name, PopupProfile);
    var r := base + ".mp3";
    assert r[..|r| - 4] == base && r[|r| - 4..] == ".mp3";
    r
  }

  /** Stage 1 on the label `"  My Space! 🎙️ @user  "`: the `!`, the emoji and the `@` go. */
  lemma StrippedSpaceTitle()
    ensures StripDisallowed("  My Space! \U{1F399}\U{FE0F} @user  ", false) == "  My Space  user  "
  {
    assert "  My Space! \U{1F399}\U{FE0F} @user  " == "  My Space" + ("! \U{1F399}\U{FE0F} @" + "user  ");
    assert "  My Space" + ("  " + "user  ") == "  My Space  user  ";
    assert StripDisallowed("! \U{1F399}\U{FE0F} @", false) == "  ";
    StripAround("  My Space", "! \U{1F399}\U{FE0F} @", "user  ", false);
  }

  /** Stage 2: the three whitespace runs become `_`. */
  lemma CollapsedSpaceTitle()
    ensures CollapseWhitespace("  My Space  user  ") == "_My_Space_user_"
  {
    assert "  My Space  user  " == "  " + ("My" + (" " + ("Space" + ("  " + ("user" + "  ")))));
    assert "_" + ("My" + ("_" + ("Space" + ("_" + ("user" + "_"))))) == "_My_Space_user_";
    CollapseThreeWords("  ", "My", " ", "Space", "  ", "user", "  ");
  }

  /** Stage 3: the outer `_`s are trimmed. */
  lemma TrimmedSpaceTitle()
    ensures TrimSeparators("_My_Space_user_", false) == "My_Space_user"
  {
    assert "_My_Space_user_" == "_" + "My_Space_user" + "_";
    TrimOneEach("My_Space_user", false);
  }

  lemma StagedSpaceTitle()
    ensures StageBase("  My Space! \U{1F399}\U{FE0F} @user  ", PopupProfile) == "My_Space_user"
  {
    StrippedSpaceTitle();
    CollapsedSpaceTitle();
    TrimmedSpaceTitle();
  }

  /** A label whose staged base is not empty is named by that base and `.mp3`. */
  lemma SanitizeFilenameOfStaged(name: string)
    requires StageBase(name, PopupProfile) != []
    ensures SanitizeFilename(name) == StageBase(name, PopupProfile) + ".mp3"
  {
    ProfilesValid();
    FallbackExactlyWithoutAlnum(name, PopupProfile);
    var r := SanitizeFilename(name);
    assert r == r[..|r| - 4] + r[|r| - 4..];
  }

  /** The popup copy drops `@`: the label `"  My Space! 🎙️ @user  "` becomes `My_Space_user.mp3`. */
  lemma SanitizeDropsAt()
    ensures SanitizeFilename("  My Space! \U{1F399}\U{FE0F} @user  ") == "My_Space_user" + ".mp3"
  {
    StagedSpaceTitle();
    SanitizeFilenameOfStaged("  My Space! \U{1F399}\U{FE0F} @user  ");
  }

  // ---------------------------------------------------------------------------
  // Sequential download

  /** The values given to `updateProgressBar` while the first `|results|` of `total` chunks are
      downloaded: one after each successful chunk. */
  function ProgressUpdates(results: seq<Option<Bytes>>, total: nat): seq<nat>
    requires |results| <= total
  {
    if results == [] then []
    else
      var n := |results|;
      ProgressUpdates(results[..n - 1], total) + (if results[n - 1].Some? then [RoundPercent(n, total)] else [])
  }

  /** One update per successful chunk, each at most 100 and none smaller than the one before;
      the last is 100 when the last chunk succeeds. */
  lemma {:induction false} ProgressUpdatesFacts(results: seq<Option<Bytes>>, total: nat)
    requires |results| <= total
    ensures |ProgressUpdates(results, total)| == |Somes(results)|
    ensures forall k :: 0 <= k < |ProgressUpdates(results, total)| ==> ProgressUpdates(results, total)[k] <= 100
    ensures forall j, k :: 0 <= j < k < |ProgressUpdates(results, total)| ==>
      ProgressUpdates(results, total)[j] <= ProgressUpdates(results, total)[k]
    ensures |results| == total && results != [] && results[total - 1].Some? ==>
      ProgressUpdates(results, total)[|ProgressUpdates(results, total)| - 1] == 100
  {
    if results != [] {
      var n := |results|;
      var front := results[..n - 1];
      ProgressUpdatesFacts(front, total);
      assert results == front + [results[n - 1]];
      SomesAppend(front, [results[n - 1]]);
      RoundPercentFacts(n, total);
      var before := ProgressUpdates(front, total);
      forall k | 0 <= k < |before|
        ensures before[k] <= RoundPercent(n, total)
      {
        ProgressBelow(front, total, k);
      }
    }
  }

  /** Every update made while downloading the first `|results|` chunks is at most the
      percentage of `|results| + 1` chunks. */
  lemma {:induction false} ProgressBelow(results: seq<Option<Bytes>>, total: nat, k: nat)
    requires |results| < total && k < |ProgressUpdates(results, total)|
    ensures ProgressUpdates(results, total)[k] <= RoundPercent(|results| + 1, total)
  {
    var n := |results|;
    var front := results[..n - 1];
    var before := ProgressUpdates(front, total);
    RoundPercentFacts(n + 1, total);
    if k < |before| {
      ProgressBelow(front, total, k);
      RoundPercentFacts(n, total);
    }
  }

  /** With fewer than 200 chunks the bar shows 100 only for the last chunk. */
  lemma HundredOnlyAtLast(total: nat, k: nat)
    requires 0 < k <= total < 200
    ensures RoundPercent(k, total) == 100 <==> k == total
  {
    RoundPercentFacts(k, total);
  }

  /** With 200 chunks the bar already shows 100 after chunk 199, before the last one. */
  lemma HundredBeforeLast()
    ensures RoundPercent(199, 200) == 100
  {
    RoundPercentFacts(199, 200);
  }

  /** `downloadAndMergeChunks(chunkUrls)`: each chunk in turn through `fetchWithRetry`, the
      bytes of the successful ones appended in order; `net[k]` are the results of the `fetch`
      calls for chunk `k`.  Returns the Blob or the error and the progress bar values. */
  method DownloadAndMergeChunks(chunkUrls: seq<string>, net: seq<seq<Attempt>>)
    returns (r: Result<Blob, DownloadError>, progress: seq<nat>)
    requires |net| == |chunkUrls| && CoversRetries(net)
    ensures progress == ProgressUpdates(ChunkResults(net), |chunkUrls|)
    ensures r.Failure? <==> Somes(ChunkResults(net)) == []
    ensures r.Success? ==> r.value == Blob(Merged(ChunkResults(net)), "audio/mpeg")
  {
    var totalChunks := |chunkUrls|;
    ghost var results := ChunkResults(net);
    var allChunks: seq<Bytes> := [];
    progress := [];
    for i := 0 to totalChunks
      invariant allChunks == Somes(results[..i])
      invariant progress == ProgressUpdates(results[..i], totalChunks)
    {
      assert results[..i + 1][..i] == results[..i];
      assert results[..i + 1] == results[..i] + [results[i]];
      SomesAppend(results[..i], [results[i]]);
      var outcome, _, _ := FetchWithRetry(net[i], DefaultRetries);
      if outcome.Fetched? {
        allChunks := allChunks + [outcome.response.body];
        progress := progress + [RoundPercent(i + 1, totalChunks)];
      }
    }
    assert results[..totalChunks] == results;
    if |allChunks| == 0 {
      return Failure(NoChunksDownloaded), progress;
    }
    r := Success(Blob(Concat(allChunks), "audio/mpeg"));
  }

  /** When every chunk arrives, the Blob is all chunks back to back and the bar ends at 100. */
  lemma AllChunksArrived(net: seq<seq<Attempt>>, parts: seq<Bytes>)
    requires CoversRetries(net) && |net| == |parts| && net != []
    requires forall k :: 0 <= k < |net| ==> ChunkBytes(net[k]) == Some(parts[k])
    ensures Merged(ChunkResults(net)) == Concat(parts)
    ensures var updates := ProgressUpdates(ChunkResults(net), |net|);
      |updates| == |net| && updates[|net| - 1] == 100
  {
    var results := ChunkResults(net);
    MergedAllArrived(results, parts);
    ProgressUpdatesFacts(results, |net|);
    SomesAllPresent(results);
  }

  // ---------------------------------------------------------------------------
  // The click handler's inputs

  /** A value read from `chrome.storage.local`: absent, null, a string, or anything else,
      given by its truthiness and its `String(...)` rendering. */
  datatype JsValue = Undefined | Null | Str(s: string) | Other(truthy: bool, shown: string)

  predicate Truthy(v: JsValue) {
    match v
    case Undefined => false
    case Null => false
    case Str(s) => s != []
    case Other(truthy, _) => truthy
  }

  /** `String(v)`. */
  function ToJsString(v: JsValue): string {
    match v
    case Undefined => "undefined"
    case Null => "null"
    case Str(s) => s
    case Other(_, shown) => shown
  }

  const DefaultSpaceName := "twitter_space"

  /** The `startDownload` message the handler sends. */
  datatype StartDownload = StartDownload(playlistUrl: JsValue, spaceName: string)

  datatype ClickError = NoPlaylistUrl

  /** The `spaceName` that is sent: `twitter_space` when the stored value is absent or
      blank once rendered and trimmed, and the trimmed rendering otherwise. */
  function SpaceName(spaceName: JsValue): (n: string)
    ensures n != [] && !IsWhitespace(n[0]) && !IsWhitespace(n[|n| - 1])
    ensures spaceName.Undefined? || AllWhitespace(ToJsString(spaceName)) ==> n == DefaultSpaceName
    ensures !spaceName.Undefined? && !AllWhitespace(ToJsString(spaceName)) ==> n == Trim(ToJsString(spaceName))
  {
    assert DefaultSpaceName[0] == 't' && DefaultSpaceName[|DefaultSpaceName| - 1] == 'e';
    // the destructuring default is already trimmed and not blank
    if spaceName.Undefined? then DefaultSpaceName
    else
      var trimmed := Trim(ToJsString(spaceName));
      TrimEmpty(ToJsString(spaceName));
      if |trimmed| == 0 then DefaultSpaceName else trimmed
  }

  /** The stored values to the message: a falsy `playlistUrl` is an error, otherwise the
      message carries it unchanged with the defaulted `spaceName`. */
  function StartRequest(playlistUrl: JsValue, spaceName: JsValue): (r: Result<StartDownload, ClickError>)
    ensures r.Failure? <==> !Truthy(playlistUrl)
    ensures r.Success? ==> r.value == StartDownload(playlistUrl, SpaceName(spaceName))
  {
    if !Truthy(playlistUrl) then Failure(NoPlaylistUrl)
    else Success(StartDownload(playlistUrl, SpaceName(spaceName)))
  }
}
