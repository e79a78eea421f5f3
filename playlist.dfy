/** `fetchAndParsePlaylist` of background.js: master detection, variant extraction, variant
    selection by probed bandwidth, segment extraction and the recursion into the selected
    variant.  The playlist grammar is the one of RFC 8216: the `#EXT-X-STREAM-INF` tag of
    section 4.3.4.2 marks a master playlist, lines starting with `#` are tags or comments and
    the other non-blank lines are URIs (section 4.1). */
module Playlist {
  import opened Wrappers
  import opened JsText

  const StreamInfTag := "#EXT-X-STREAM-INF"

  /** What the plain `fetch(playlistUrl)` gives: a rejected request, or a status and the body text. */
  datatype Page = Unreachable | Page(status: int, text: string)

  datatype PlaylistError =
    | NetworkError              // the request itself was rejected
    | FetchFailed(status: int)  // the playlist answered with a status outside 200..299
    | NoVariants                // a master playlist announced no resolvable variant
    | NoChunks                  // a media playlist listed no resolvable segment
    | TooDeep                   // the recursion ran out of fuel

  /** `new URL(relative, base).toString()`: the resolved URL, or None where the constructor throws. */
  type Resolver = (string, string) -> Option<string>

  /** `response.ok`. */
  predicate IsOkStatus(status: int) {
    200 <= status <= 299
  }

  /** `playlistText.includes("#EXT-X-STREAM-INF")`: anywhere in the text, not only at a line start. */
  predicate IsMaster(text: string) {
    Includes(text, StreamInfTag)
  }

  /** An answered, ok page that is not a master playlist. */
  predicate IsMediaPage(p: Page) {
    p.Page? && IsOkStatus(p.status) && !IsMaster(p.text)
  }

  /** `playlistText.split('\n').map(line => line.trim())`. */
  function Lines(text: string): (r: seq<string>)
    ensures |r| == |Split(text, '\n')|
  {
    var pieces := Split(text, '\n');
    seq(|pieces|, k requires 0 <= k < |pieces| => Trim(pieces[k]))
  }

  // ---------------------------------------------------------------------------
  // Variant extraction

  /** What line `i` contributes: when it starts with the tag and the next line exists and is
      not empty, that next line resolved against the playlist URL. */
  function VariantAt(lines: seq<string>, i: nat, playlistUrl: string, resolve: Resolver): Option<string>
    requires i < |lines|
  {
    if StartsWith(lines[i], StreamInfTag) && i + 1 < |lines| && lines[i + 1] != "" then
      resolve(lines[i + 1], playlistUrl)
    else
      None
  }

  function Announced(lines: seq<string>, playlistUrl: string, resolve: Resolver): (r: seq<Option<string>>)
    ensures |r| == |lines|
    ensures forall i :: 0 <= i < |lines| ==> r[i] == VariantAt(lines, i, playlistUrl, resolve)
  {
    seq(|lines|, i requires 0 <= i < |lines| => VariantAt(lines, i, playlistUrl, resolve))
  }

  /** The variant URLs of a master playlist, in line order. */
  function Variants(lines: seq<string>, playlistUrl: string, resolve: Resolver): seq<string> {
    Somes(Announced(lines, playlistUrl, resolve))
  }

  /** The loop that pushes into `variantPlaylists`. */
  method ExtractVariants(lines: seq<string>, playlistUrl: string, resolve: Resolver) returns (variants: seq<string>)
    ensures variants == Variants(lines, playlistUrl, resolve)
  {
    ghost var announced := Announced(lines, playlistUrl, resolve);
    variants := [];
    var i := 0;
    while i < |lines|
      invariant 0 <= i <= |lines|
      invariant variants == Somes(announced[..i])
    {
      assert announced[..i + 1] == announced[..i] + [announced[i]];
      SomesAppend(announced[..i], [announced[i]]);
      if StartsWith(lines[i], StreamInfTag) {
        // `lines[i + 1]` is undefined past the last line, and undefined and "" are falsy
        if i + 1 < |lines| && lines[i + 1] != "" {
          var resolved := resolve(lines[i + 1], playlistUrl);
          if resolved.Some? {
            variants := variants + [resolved.value];
          }
        }
      }
      i := i + 1;
    }
    assert announced[..i] == announced;
  }

  /** A URL is a variant exactly when some tag line announces it. */
  lemma VariantsAnnounced(lines: seq<string>, playlistUrl: string, resolve: Resolver)
    ensures forall v :: v in Variants(lines, playlistUrl, resolve) <==>
      exists i :: 0 <= i < |lines| && VariantAt(lines, i, playlistUrl, resolve) == Some(v)
  {
    var announced := Announced(lines, playlistUrl, resolve);
    forall v
      ensures v in Variants(lines, playlistUrl, resolve) <==>
        exists i :: 0 <= i < |lines| && VariantAt(lines, i, playlistUrl, resolve) == Some(v)
    {
      SomesContains(announced, v);
    }
  }

  /** Without a line that starts with the tag there is no variant. */
  lemma NoTagLineNoVariants(lines: seq<string>, playlistUrl: string, resolve: Resolver)
    requires forall i :: 0 <= i < |lines| ==> !StartsWith(lines[i], StreamInfTag)
    ensures Variants(lines, playlistUrl, resolve) == []
  {
    SomesEmpty(Announced(lines, playlistUrl, resolve));
  }

  // ---------------------------------------------------------------------------
  // Variant selection

  /** The loop state `(selectedVariantUrl, highestBandwidth)`, the URL given by its index. */
  datatype Choice = Choice(index: nat, highest: int)

  /** The state after probing the variants whose bandwidths are `probes`; None is a probe that
      threw or whose header did not parse. */
  function Chosen(probes: seq<Option<int>>): (c: Choice)
    ensures c.highest >= 0
    ensures c.index == 0 || c.index < |probes|
  {
    if probes == [] then Choice(0, 0)
    else
      var c := Chosen(probes[..|probes| - 1]);
      var p := probes[|probes| - 1];
      if p.Some? && p.value > c.highest then Choice(|probes| - 1, p.value) else c
  }

  /** The tie rule: the chosen bandwidth is the largest probed one (or 0), the choice is the
      first variant that reached it when it is positive, and the first variant otherwise. */
  lemma {:induction false} SelectionRule(probes: seq<Option<int>>)
    ensures var c := Chosen(probes);
      && (forall j :: 0 <= j < |probes| && probes[j].Some? ==> probes[j].value <= c.highest)
      && (c.highest == 0 ==> c.index == 0)
      && (c.highest > 0 ==> c.index < |probes| && probes[c.index] == Some(c.highest))
      && (c.highest > 0 ==> forall j :: 0 <= j < c.index && probes[j].Some? ==> probes[j].value < c.highest)
  {
    if probes != [] {
      var front := probes[..|probes| - 1];
      SelectionRule(front);
      assert forall j :: 0 <= j < |front| ==> probes[j] == front[j];
    }
  }

  /** A probe that failed counts like one that reported a bandwidth of 0 or less. */
  lemma {:induction false} FailedProbeLikeZero(probes: seq<Option<int>>, k: nat, b: int)
    requires k < |probes| && b <= 0
    ensures Chosen(probes[k := None]) == Chosen(probes[k := Some(b)])
  {
    var n := |probes|;
    var failed, low := probes[k := None], probes[k := Some(b)];
    if k == n - 1 {
      assert failed[..n - 1] == low[..n - 1];
    } else {
      assert failed[..n - 1] == probes[..n - 1][k := None];
      assert low[..n - 1] == probes[..n - 1][k := Some(b)];
      FailedProbeLikeZero(probes[..n - 1], k, b);
    }
  }

  /** Two variants probed at 500 and 1200: the second is chosen; probed at 1200 twice, the first. */
  lemma HigherBandwidthWins()
    ensures Chosen([Some(500), Some(1200)]) == Choice(1, 1200)
    ensures Chosen([Some(1200), Some(1200)]) == Choice(0, 1200)
  {
    assert [Some(500), Some(1200)][..1] == [Some(500)];
    assert [Some(1200), Some(1200)][..1] == [Some(1200)];
  }

  /** One HEAD probe per variant, in order. */
  function Probes(variants: seq<string>, probe: string -> Option<int>): (r: seq<Option<int>>)
    ensures |r| == |variants|
    ensures forall k :: 0 <= k < |variants| ==> r[k] == probe(variants[k])
  {
    seq(|variants|, k requires 0 <= k < |variants| => probe(variants[k]))
  }

  /** The selection loop: starts from the first variant with `highestBandwidth = 0` and moves
      only on a strictly greater bandwidth. */
  method SelectVariant(variants: seq<string>, probe: string -> Option<int>) returns (selected: string)
    requires |variants| > 0
    ensures selected == variants[Chosen(Probes(variants, probe)).index]
  {
    ghost var probes := Probes(variants, probe);
    selected := variants[0];
    var highestBandwidth := 0;
    ghost var index := 0;
    for i := 0 to |variants|
      invariant Chosen(probes[..i]) == Choice(index, highestBandwidth)
      invariant index < |variants| && selected == variants[index]
    {
      assert probes[..i + 1][..i] == probes[..i];
      var bandwidth := probe(variants[i]);
      if bandwidth.Some? && bandwidth.value > highestBandwidth {
        highestBandwidth := bandwidth.value;
        selected := variants[i];
        index := i;
      }
    }
    assert probes[..|variants|] == probes;
  }

  // ---------------------------------------------------------------------------
  // Segment extraction

  /** A URI line: not empty and not a tag or comment. */
  predicate IsUriLine(line: string) {
    line != "" && !StartsWith(line, "#")
  }

  /** `.filter(line => line && !line.startsWith('#'))`. */
  function SegmentLines(lines: seq<string>): (r: seq<string>)
    ensures |r| <= |lines|
    ensures forall k :: 0 <= k < |r| ==> IsUriLine(r[k])
  {
    if lines == [] then [] else (if IsUriLine(lines[0]) then [lines[0]] else []) + SegmentLines(lines[1..])
  }

  /** The segment lines are exactly the URI lines of the playlist. */
  lemma {:induction false} SegmentLinesExact(lines: seq<string>)
    ensures forall line :: line in SegmentLines(lines) <==> line in lines && IsUriLine(line)
  {
    if lines != [] {
      SegmentLinesExact(lines[1..]);
      assert lines == [lines[0]] + lines[1..];
    }
  }

  /** Source order: the segment lines of two consecutive parts are those of the first part
      followed by those of the second. */
  lemma {:induction false} SegmentLinesAppend(a: seq<string>, b: seq<string>)
    ensures SegmentLines(a + b) == SegmentLines(a) + SegmentLines(b)
  {
    if a == [] {
      assert a + b == b;
    } else {
      assert (a + b)[0] == a[0] && (a + b)[1..] == a[1..] + b;
      SegmentLinesAppend(a[1..], b);
    }
  }

  /** `new URL(chunkPath, playlistUrl)` for every segment line, null where it throws. */
  function Resolved(paths: seq<string>, playlistUrl: string, resolve: Resolver): (r: seq<Option<string>>)
    ensures |r| == |paths|
    ensures forall k :: 0 <= k < |paths| ==> r[k] == resolve(paths[k], playlistUrl)
  {
    seq(|paths|, k requires 0 <= k < |paths| => resolve(paths[k], playlistUrl))
  }

  /** The segment lines of a playlist text, in order. */
  function Segments(text: string): seq<string> {
    SegmentLines(Lines(text))
  }

  /** The chunk URLs of a media playlist: resolved segment lines, failures dropped. */
  function ChunkUrls(text: string, playlistUrl: string, resolve: Resolver): seq<string> {
    Somes(Resolved(Segments(text), playlistUrl, resolve))
  }

  /** When every segment line resolves, the chunk list is the segment lines resolved one by
      one, in the same order. */
  lemma ChunkUrlsInOrder(text: string, playlistUrl: string, resolve: Resolver)
    requires forall k :: 0 <= k < |Segments(text)| ==> resolve(Segments(text)[k], playlistUrl).Some?
    ensures |ChunkUrls(text, playlistUrl, resolve)| == |Segments(text)|
    ensures forall k :: 0 <= k < |Segments(text)| ==>
      ChunkUrls(text, playlistUrl, resolve)[k] == resolve(Segments(text)[k], playlistUrl).value
  {
    var resolved := Resolved(Segments(text), playlistUrl, resolve);
    assert forall k :: 0 <= k < |resolved| ==> resolved[k].Some?;
    SomesAllPresent(resolved);
  }

  /** A URL is a chunk exactly when some segment line resolves to it. */
  lemma ChunkUrlsResolved(text: string, playlistUrl: string, resolve: Resolver)
    ensures forall u :: u in ChunkUrls(text, playlistUrl, resolve) <==>
      exists k :: 0 <= k < |Segments(text)| && resolve(Segments(text)[k], playlistUrl) == Some(u)
  {
    var resolved := Resolved(Segments(text), playlistUrl, resolve);
    forall u
      ensures u in ChunkUrls(text, playlistUrl, resolve) <==>
        exists k :: 0 <= k < |Segments(text)| && resolve(Segments(text)[k], playlistUrl) == Some(u)
    {
      SomesContains(resolved, u);
    }
  }

  /** The chunk list is empty exactly when no segment line resolves. */
  lemma ChunkUrlsEmpty(text: string, playlistUrl: string, resolve: Resolver)
    ensures ChunkUrls(text, playlistUrl, resolve) == [] <==>
      forall k :: 0 <= k < |Segments(text)| ==> resolve(Segments(text)[k], playlistUrl).None?
  {
    SomesEmpty(Resolved(Segments(text), playlistUrl, resolve));
  }

  // ---------------------------------------------------------------------------
  // The whole parse

  /** The variant a master playlist leads to: the selected one among its variants, or None
      when it announces none. */
  function SelectedVariant(text: string, playlistUrl: string, probe: string -> Option<int>, resolve: Resolver): Option<string> {
    var variants := Variants(Lines(text), playlistUrl, resolve);
    if variants == [] then None else Some(variants[Chosen(Probes(variants, probe)).index])
  }

  /** What one call does before any recursion: finish with the chunk list or an error, or
      descend into the selected variant of a master playlist. */
  datatype Level = Finished(result: Result<seq<string>, PlaylistError>) | Descend(next: string)

  /** One level of `fetchAndParsePlaylist(playlistUrl)`, with `page` the answers of the
      playlist server and `probe` the bandwidths reported to the HEAD requests. */
  function ParseLevel(playlistUrl: string, page: string -> Page, probe: string -> Option<int>,
                      resolve: Resolver): (l: Level)
    ensures l.Finished? && l.result.Success? ==> l.result.value != []
    ensures l.Finished? && l.result.Success? ==>
      IsMediaPage(page(playlistUrl)) && l.result.value == ChunkUrls(page(playlistUrl).text, playlistUrl, resolve)
    ensures l.Descend? ==> page(playlistUrl).Page? && IsOkStatus(page(playlistUrl).status) && IsMaster(page(playlistUrl).text)
    ensures l.Descend? ==> SelectedVariant(page(playlistUrl).text, playlistUrl, probe, resolve) == Some(l.next)
    ensures l == Finished(Failure(NetworkError)) <==> page(playlistUrl).Unreachable?
    ensures page(playlistUrl).Page? && !IsOkStatus(page(playlistUrl).status) ==>
      l == Finished(Failure(FetchFailed(page(playlistUrl).status)))
    ensures l == Finished(Failure(NoVariants)) <==>
      page(playlistUrl).Page? && IsOkStatus(page(playlistUrl).status) && IsMaster(page(playlistUrl).text)
      && Variants(Lines(page(playlistUrl).text), playlistUrl, resolve) == []
    ensures IsMediaPage(page(playlistUrl)) ==>
      (l == Finished(Failure(NoChunks)) <==> ChunkUrls(page(playlistUrl).text, playlistUrl, resolve) == [])
    ensures IsMediaPage(page(playlistUrl)) && ChunkUrls(page(playlistUrl).text, playlistUrl, resolve) != [] ==>
      l == Finished(Success(ChunkUrls(page(playlistUrl).text, playlistUrl, resolve)))
    ensures (page(playlistUrl).Page? && IsOkStatus(page(playlistUrl).status) && IsMaster(page(playlistUrl).text)
             && SelectedVariant(page(playlistUrl).text, playlistUrl, probe, resolve).Some?) ==>
      l == Descend(SelectedVariant(page(playlistUrl).text, playlistUrl, probe, resolve).value)
  {
    var response := page(playlistUrl);
    if response.Unreachable? then Finished(Failure(NetworkError))
    else if !IsOkStatus(response.status) then Finished(Failure(FetchFailed(response.status)))
    else if IsMaster(response.text) then
      match SelectedVariant(response.text, playlistUrl, probe, resolve)
      case None => Finished(Failure(NoVariants))
      case Some(next) => Descend(next)
    else
      var chunkUrls := ChunkUrls(response.text, playlistUrl, resolve);
      Finished(if chunkUrls == [] then Failure(NoChunks) else Success(chunkUrls))
  }

  /** `fetchAndParsePlaylist(playlistUrl)` following at most `fuel` nested master playlists. */
  function Parsed(playlistUrl: string, page: string -> Page, probe: string -> Option<int>,
                  resolve: Resolver, fuel: nat): (r: Result<seq<string>, PlaylistError>)
    ensures r.Success? ==> r.value != []
    decreases fuel
  {
    match ParseLevel(playlistUrl, page, probe, resolve)
    case Finished(result) => result
    case Descend(next) => if fuel == 0 then Failure(TooDeep) else Parsed(next, page, probe, resolve, fuel - 1)
  }

  method FetchAndParsePlaylist(playlistUrl: string, page: string -> Page, probe: string -> Option<int>,
                               resolve: Resolver, fuel: nat) returns (r: Result<seq<string>, PlaylistError>)
    ensures r == Parsed(playlistUrl, page, probe, resolve, fuel)
    decreases fuel
  {
    var response := page(playlistUrl);
    if response.Unreachable? {
      return Failure(NetworkError);
    }
    if !IsOkStatus(response.status) {
      return Failure(FetchFailed(response.status));
    }
    var playlistText := response.text;
    if IsMaster(playlistText) {
      var variantPlaylists := ExtractVariants(Lines(playlistText), playlistUrl, resolve);
      if |variantPlaylists| == 0 {
        return Failure(NoVariants);
      }
      var selectedVariantUrl := SelectVariant(variantPlaylists, probe);
      assert SelectedVariant(playlistText, playlistUrl, probe, resolve) == Some(selectedVariantUrl);
      if fuel == 0 {
        return Failure(TooDeep);
      }
      r := FetchAndParsePlaylist(selectedVariantUrl, page, probe, resolve, fuel - 1);
    } else {
      var chunkUrls := ChunkUrls(playlistText, playlistUrl, resolve);
      if |chunkUrls| == 0 {
        return Failure(NoChunks);
      }
      r := Success(chunkUrls);
    }
  }

  /** Every chunk list returned comes from one ok media playlist, resolved against that
      playlist's own URL. */
  lemma {:induction false} ParsedFromMediaPage(playlistUrl: string, page: string -> Page,
                                               probe: string -> Option<int>, resolve: Resolver, fuel: nat)
    ensures var r := Parsed(playlistUrl, page, probe, resolve, fuel);
      r.Success? ==> exists u :: IsMediaPage(page(u)) && r.value == ChunkUrls(page(u).text, u, resolve)
    decreases fuel
  {
    var level := ParseLevel(playlistUrl, page, probe, resolve);
    if level.Descend? && fuel > 0 {
      ParsedFromMediaPage(level.next, page, probe, resolve, fuel - 1);
    } else if level.Finished? && level.result.Success? {
      assert IsMediaPage(page(playlistUrl)) && level.result.value == ChunkUrls(page(playlistUrl).text, playlistUrl, resolve);
    }
  }

  /** Fuel only cuts the recursion off: a result other than TooDeep is the same with more fuel. */
  lemma {:induction false} ParsedFuelMonotone(playlistUrl: string, page: string -> Page,
                                              probe: string -> Option<int>, resolve: Resolver, fuel: nat)
    ensures Parsed(playlistUrl, page, probe, resolve, fuel) != Failure(TooDeep) ==>
      Parsed(playlistUrl, page, probe, resolve, fuel + 1) == Parsed(playlistUrl, page, probe, resolve, fuel)
    decreases fuel
  {
    var level := ParseLevel(playlistUrl, page, probe, resolve);
    if level.Descend? && fuel > 0 {
      ParsedFuelMonotone(level.next, page, probe, resolve, fuel - 1);
      assert Parsed(playlistUrl, page, probe, resolve, fuel + 1) == Parsed(level.next, page, probe, resolve, fuel);
    } else if level.Finished? {
      assert Parsed(playlistUrl, page, probe, resolve, fuel + 1) == level.result;
    }
  }

  /** A media playlist fails with NoChunks exactly when none of its segment lines resolves. */
  lemma MediaPageWithoutChunks(playlistUrl: string, page: string -> Page,
                               probe: string -> Option<int>, resolve: Resolver, fuel: nat)
    requires IsMediaPage(page(playlistUrl))
    ensures Parsed(playlistUrl, page, probe, resolve, fuel) == Failure(NoChunks) <==>
      forall k :: 0 <= k < |Segments(page(playlistUrl).text)| ==>
        resolve(Segments(page(playlistUrl).text)[k], playlistUrl).None?
  {
    ChunkUrlsEmpty(page(playlistUrl).text, playlistUrl, resolve);
  }

  /** An ok media playlist with chunks returns its chunk list, whatever the fuel. */
  lemma ParsedMediaPage(playlistUrl: string, page: string -> Page,
                        probe: string -> Option<int>, resolve: Resolver, fuel: nat)
    requires IsMediaPage(page(playlistUrl)) && ChunkUrls(page(playlistUrl).text, playlistUrl, resolve) != []
    ensures Parsed(playlistUrl, page, probe, resolve, fuel) ==
      Success(ChunkUrls(page(playlistUrl).text, playlistUrl, resolve))
  {
  }

  /** An ok master playlist with variants is parsed as its selected variant, one level deeper. */
  lemma ParsedMasterPage(playlistUrl: string, page: string -> Page,
                         probe: string -> Option<int>, resolve: Resolver, fuel: nat)
    requires page(playlistUrl).Page? && IsOkStatus(page(playlistUrl).status) && IsMaster(page(playlistUrl).text)
    requires SelectedVariant(page(playlistUrl).text, playlistUrl, probe, resolve).Some?
    ensures Parsed(playlistUrl, page, probe, resolve, fuel + 1) ==
      Parsed(SelectedVariant(page(playlistUrl).text, playlistUrl, probe, resolve).value, page, probe, resolve, fuel)
  {
  }

  /** A master playlist whose only variant is itself is followed forever: no fuel is enough. */
  lemma {:induction false} SelfReferenceNeverEnds(playlistUrl: string, page: string -> Page,
                                                  probe: string -> Option<int>, resolve: Resolver, fuel: nat)
    requires page(playlistUrl).Page? && IsOkStatus(page(playlistUrl).status) && IsMaster(page(playlistUrl).text)
    requires Variants(Lines(page(playlistUrl).text), playlistUrl, resolve) == [playlistUrl]
    ensures Parsed(playlistUrl, page, probe, resolve, fuel) == Failure(TooDeep)
  {
    if fuel > 0 {
      SelfReferenceNeverEnds(playlistUrl, page, probe, resolve, fuel - 1);
    }
  }

  /** The tag anywhere in the text makes a master playlist, but only lines starting with it
      announce variants: such a text without a tag line ends in NoVariants. */
  lemma MasterWithoutTagLine(playlistUrl: string, page: string -> Page,
                             probe: string -> Option<int>, resolve: Resolver, fuel: nat)
    requires page(playlistUrl).Page? && IsOkStatus(page(playlistUrl).status) && IsMaster(page(playlistUrl).text)
    requires var lines := Lines(page(playlistUrl).text);
      forall i :: 0 <= i < |lines| ==> !StartsWith(lines[i], StreamInfTag)
    ensures Parsed(playlistUrl, page, probe, resolve, fuel) == Failure(NoVariants)
  {
    NoTagLineNoVariants(Lines(page(playlistUrl).text), playlistUrl, resolve);
  }
}
