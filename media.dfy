/** Chunk results and their merge into a Blob, shared by both downloaders. */
module Media {
  import opened Wrappers
  import opened Fetcher

  /** `new Blob(parts, { type })`: the parts' bytes back to back, and the MIME type. */
  datatype Blob = Blob(data: Bytes, mimeType: string)

  /** The error both downloaders throw when no chunk arrived. */
  datatype DownloadError = NoChunksDownloaded

  function Concat(parts: seq<Bytes>): Bytes {
    if parts == [] then [] else parts[0] + Concat(parts[1..])
  }

  lemma {:induction false} ConcatAppend(a: seq<Bytes>, b: seq<Bytes>)
    ensures Concat(a + b) == Concat(a) + Concat(b)
  {
    if a == [] {
      assert a + b == b;
    } else {
      assert (a + b)[1..] == a[1..] + b;
      ConcatAppend(a[1..], b);
    }
  }

  /** The attempt lists of `|net|` chunks each cover the default retry budget. */
  predicate CoversRetries(net: seq<seq<Attempt>>) {
    forall k :: 0 <= k < |net| ==> DefaultRetries <= |net[k]|
  }

  /** What one chunk download yields: the body of the response `fetchWithRetry` returned,
      or nothing when it threw. */
  function ChunkBytes(attempts: seq<Attempt>): (r: Option<Bytes>)
    requires DefaultRetries <= |attempts|
    ensures r.Some? <==> exists k :: 0 <= k < DefaultRetries && Succeeds(attempts[k])
    ensures r.Some? ==> exists k :: 0 <= k < DefaultRetries && Succeeds(attempts[k]) && r.value == attempts[k].response.body
                                 && forall j :: 0 <= j < k ==> !Succeeds(attempts[j])
  {
    match Retried(attempts, DefaultRetries)
    case Fetched(response) => Some(response.body)
    case _ => None
  }

  /** The result of every chunk, by index. */
  function ChunkResults(net: seq<seq<Attempt>>): (r: seq<Option<Bytes>>)
    requires CoversRetries(net)
    ensures |r| == |net|
    ensures forall k :: 0 <= k < |net| ==> r[k] == ChunkBytes(net[k])
  {
    seq(|net|, k requires 0 <= k < |net| => ChunkBytes(net[k]))
  }

  /** The bytes of the successful chunks, in ascending index order. */
  function Merged(results: seq<Option<Bytes>>): Bytes {
    Concat(Somes(results))
  }

  /** When every chunk arrives, the merge is exactly the chunks back to back. */
  lemma MergedAllArrived(results: seq<Option<Bytes>>, parts: seq<Bytes>)
    requires |results| == |parts|
    requires forall k :: 0 <= k < |results| ==> results[k] == Some(parts[k])
    ensures Merged(results) == Concat(parts)
  {
    SomesAllPresent(results);
    assert Somes(results) == parts;
  }

  /** A failed chunk leaves a gap: the merge is what precedes it followed by what follows it. */
  lemma MergedSkipsFailure(results: seq<Option<Bytes>>, k: nat)
    requires k < |results| && results[k].None?
    ensures Merged(results) == Merged(results[..k]) + Merged(results[k + 1..])
  {
    assert results == results[..k] + ([results[k]] + results[k + 1..]);
    MergedAppend(results[..k], [results[k]] + results[k + 1..]);
    MergedAppend([results[k]], results[k + 1..]);
    assert Merged([results[k]]) == [];
  }

  /** Merging splits along any cut of the index range. */
  lemma MergedAppend(a: seq<Option<Bytes>>, b: seq<Option<Bytes>>)
    ensures Merged(a + b) == Merged(a) + Merged(b)
  {
    SomesAppend(a, b);
    ConcatAppend(Somes(a), Somes(b));
  }
}
