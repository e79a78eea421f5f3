/** Option and Result, and the `filter(x => x !== null)` step the pipeline applies to sparse results. */
module Wrappers {

  datatype Option<+T> = None | Some(value: T)

  datatype Result<+R, +E> = Success(value: R) | Failure(error: E)

  /** The present values of `s`, in order (the non-null entries of a sparse array). */
  function Somes<T>(s: seq<Option<T>>): (r: seq<T>)
    ensures |r| <= |s|
  {
    if s == [] then [] else (if s[0].Some? then [s[0].value] else []) + Somes(s[1..])
  }

  lemma {:induction false} SomesAppend<T>(a: seq<Option<T>>, b: seq<Option<T>>)
    ensures Somes(a + b) == Somes(a) + Somes(b)
  {
    if a == [] {
      assert a + b == b;
    } else {
      assert (a + b)[0] == a[0] && (a + b)[1..] == a[1..] + b;
      SomesAppend(a[1..], b);
    }
  }

  /** Somes is empty exactly when no entry is present. */
  lemma {:induction false} SomesEmpty<T>(s: seq<Option<T>>)
    ensures Somes(s) == [] <==> forall k :: 0 <= k < |s| ==> s[k].None?
  {
    if s != [] {
      SomesEmpty(s[1..]);
      assert forall k :: 1 <= k < |s| ==> s[k] == s[1..][k - 1];
    }
  }

  /** When every entry is present, Somes keeps them all, position by position. */
  lemma {:induction false} SomesAllPresent<T>(s: seq<Option<T>>)
    requires forall k :: 0 <= k < |s| ==> s[k].Some?
    ensures |Somes(s)| == |s|
    ensures forall k :: 0 <= k < |s| ==> Somes(s)[k] == s[k].value
  {
    if s != [] {
      SomesAllPresent(s[1..]);
    }
  }

  /** A value is kept by Somes exactly when some entry holds it. */
  lemma {:induction false} SomesContains<T>(s: seq<Option<T>>, x: T)
    ensures x in Somes(s) <==> exists k :: 0 <= k < |s| && s[k] == Some(x)
  {
    if s != [] {
      SomesContains(s[1..], x);
      assert forall k :: 1 <= k < |s| ==> s[k] == s[1..][k - 1];
      if x in Somes(s[1..]) {
        var k :| 0 <= k < |s[1..]| && s[1..][k] == Some(x);
        assert s[k + 1] == Some(x);
      }
    }
  }
}
