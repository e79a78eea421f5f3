/** The filename sanitiser shared by both copies of `sanitizeFilename`: the regular-expression
    replace chain written out as explicit string stages (strip, collapse whitespace, trim
    separators, truncate, default).  The two copies differ only in the `Profile`. */
module Sanitizer {
  import opened JsText

  predicate IsAsciiAlnum(c: char) {
    'a' <= c <= 'z' || 'A' <= c <= 'Z' || '0' <= c <= '9'
  }

  /** The characters trimmed from both ends: `-`, `_`, and `@` when the profile keeps `@`. */
  predicate IsSeparator(c: char, keepAt: bool) {
    c == '-' || c == '_' || (keepAt && c == '@')
  }

  /** What the character class of the first replace retains (letters match either case). */
  predicate IsKept(c: char, keepAt: bool) {
    IsAsciiAlnum(c) || IsWhitespace(c) || IsSeparator(c, keepAt)
  }

  /** The characters a sanitised base may consist of. */
  predicate IsNameChar(c: char, keepAt: bool) {
    IsAsciiAlnum(c) || IsSeparator(c, keepAt)
  }

  predicate AllKept(s: string, keepAt: bool) {
    forall k :: 0 <= k < |s| ==> IsKept(s[k], keepAt)
  }

  predicate AllNameChars(s: string, keepAt: bool) {
    forall k :: 0 <= k < |s| ==> IsNameChar(s[k], keepAt)
  }

  predicate AllSeparators(s: string, keepAt: bool) {
    forall k :: 0 <= k < |s| ==> IsSeparator(s[k], keepAt)
  }

  /** Some character of `s` is an ASCII letter or digit. */
  predicate HasAlnum(s: string) {
    s != [] && (IsAsciiAlnum(s[0]) || HasAlnum(s[1..]))
  }

  // ---------------------------------------------------------------------------
  // The stages

  /** Stage 1, `replace(/[^a-z0-9\s-_@]/gi, '')`: delete every character outside the kept class. */
  function StripDisallowed(s: string, keepAt: bool): string {
    if s == [] then []
    else (if IsKept(s[0], keepAt) then [s[0]] else []) + StripDisallowed(s[1..], keepAt)
  }

  /** Stage 2, `replace(/\s+/g, '_')`: every maximal run of whitespace becomes a single `_`. */
  function CollapseWhitespace(s: string): string
    decreases |s|
  {
    if s == [] then []
    else if IsWhitespace(s[0]) then
      assert |TrimStart(s)| < |s| by { assert TrimStart(s) == [] || !IsWhitespace(TrimStart(s)[0]); }
      "_" + CollapseWhitespace(TrimStart(s))
    else [s[0]] + CollapseWhitespace(s[1..])
  }

  /** The length of the leading run of separators. */
  function LeadingSeparators(s: string, keepAt: bool): (n: nat)
    ensures n <= |s|
    ensures forall k :: 0 <= k < n ==> IsSeparator(s[k], keepAt)
    ensures n == |s| || !IsSeparator(s[n], keepAt)
  {
    if s != [] && IsSeparator(s[0], keepAt) then 1 + LeadingSeparators(s[1..], keepAt) else 0
  }

  /** The length of the trailing run of separators. */
  function TrailingSeparators(s: string, keepAt: bool): (n: nat)
    ensures n <= |s|
    ensures forall k :: |s| - n <= k < |s| ==> IsSeparator(s[k], keepAt)
    ensures n == |s| || !IsSeparator(s[|s| - n - 1], keepAt)
  {
    if s != [] && IsSeparator(s[|s| - 1], keepAt) then 1 + TrailingSeparators(s[..|s| - 1], keepAt) else 0
  }

  /** The `^[-_@]+` alternative of stage 3. */
  function DropLeadingSeparators(s: string, keepAt: bool): (r: string)
    ensures |r| <= |s| && forall k :: 0 <= k < |r| ==> r[k] == s[|s| - |r| + k]
    ensures forall k :: 0 <= k < |s| - |r| ==> IsSeparator(s[k], keepAt)
    ensures r == [] || !IsSeparator(r[0], keepAt)
  {
    s[LeadingSeparators(s, keepAt)..]
  }

  /** The `[-_@]+$` alternative of stage 3. */
  function DropTrailingSeparators(s: string, keepAt: bool): (r: string)
    ensures |r| <= |s| && forall k :: 0 <= k < |r| ==> r[k] == s[k]
    ensures forall k :: |r| <= k < |s| ==> IsSeparator(s[k], keepAt)
    ensures r == [] || !IsSeparator(r[|r| - 1], keepAt)
  {
    s[..|s| - TrailingSeparators(s, keepAt)]
  }

  /** Stage 3, `replace(/^[-_@]+|[-_@]+$/g, '')`: remove the leading and the trailing run of separators. */
  function TrimSeparators(s: string, keepAt: bool): (r: string)
    ensures |r| <= |s|
    ensures r == [] || (!IsSeparator(r[0], keepAt) && !IsSeparator(r[|r| - 1], keepAt))
  {
    DropTrailingSeparators(DropLeadingSeparators(s, keepAt), keepAt)
  }

  /** Stage 4, `slice(0, limit)`: the longest prefix of at most `limit` characters. */
  function Truncate(s: string, limit: nat): (r: string)
    ensures |r| == (if |s| <= limit then |s| else limit)
    ensures forall k :: 0 <= k < |r| ==> r[k] == s[k]
  {
    if |s| <= limit then s else s[..limit]
  }

  /** The parameters in which the two copies of the sanitiser differ. */
  datatype Profile = Profile(keepAt: bool, limit: nat, fallback: string)

  /** background.js: `@` kept, 50 characters, default `twitter_space_media`. */
  const BackgroundProfile := Profile(true, 50, "twitter_space_media")

  /** popup.js: `@` stripped, 20 characters, default `twitter_space_audio`. */
  const PopupProfile := Profile(false, 20, "twitter_space_audio")

  /** A fallback that itself has the shape of a sanitised base. */
  predicate ValidProfile(p: Profile) {
    && 0 < |p.fallback| <= p.limit
    && AllNameChars(p.fallback, p.keepAt)
    && !IsSeparator(p.fallback[0], p.keepAt)
    && !IsSeparator(p.fallback[|p.fallback| - 1], p.keepAt)
  }

  /** Stages 1 to 3, before the truncation. */
  function Trimmed(name: string, keepAt: bool): string {
    TrimSeparators(CollapseWhitespace(StripDisallowed(name, keepAt)), keepAt)
  }

  /** Stages 1 to 4, before the default is substituted. */
  function StageBase(name: string, p: Profile): string {
    Truncate(Trimmed(name, p.keepAt), p.limit)
  }

  /** The sanitised base name: the staged label, or the profile's fallback when that is empty.
      It is never empty, never longer than the limit, consists of name characters only and
      does not start with a separator. */
  function Base(name: string, p: Profile): (r: string)
    requires ValidProfile(p)
    ensures 0 < |r| <= p.limit
    ensures AllNameChars(r, p.keepAt)
    ensures !IsSeparator(r[0], p.keepAt)
  {
    StageBaseShape(name, p);
    var b := StageBase(name, p);
    if |b| == 0 then p.fallback else b
  }

  lemma ProfilesValid()
    ensures ValidProfile(BackgroundProfile) && ValidProfile(PopupProfile)
  {
  }

  // ---------------------------------------------------------------------------
  // The shape of the staged base.

  /** Stage 1 leaves only kept characters. */
  lemma {:induction false} StripCharset(s: string, keepAt: bool)
    ensures AllKept(StripDisallowed(s, keepAt), keepAt)
  {
    if s != [] {
      StripCharset(s[1..], keepAt);
    }
  }

  /** Collapsing a string of kept characters leaves only name characters: no whitespace remains. */
  lemma {:induction false} CollapseCharset(s: string, keepAt: bool)
    requires AllKept(s, keepAt)
    ensures AllNameChars(CollapseWhitespace(s), keepAt)
    decreases |s|
  {
    if s != [] {
      if IsWhitespace(s[0]) {
        var t := TrimStart(s);
        assert |t| < |s| by { assert t == [] || !IsWhitespace(t[0]); }
        assert forall k :: 0 <= k < |t| ==> t[k] == s[|s| - |t| + k];
        CollapseCharset(t, keepAt);
      } else {
        CollapseCharset(s[1..], keepAt);
      }
    }
  }

  /** Stage 3 keeps a contiguous piece of its input, so it keeps a name-character-only input so. */
  lemma TrimCharset(s: string, keepAt: bool)
    requires AllNameChars(s, keepAt)
    ensures AllNameChars(TrimSeparators(s, keepAt), keepAt)
  {
    var lead := DropLeadingSeparators(s, keepAt);
    SliceCharset(s, |s| - |lead|, |s|, keepAt);
    SliceCharset(lead, 0, |DropTrailingSeparators(lead, keepAt)|, keepAt);
  }

  lemma SliceCharset(s: string, i: nat, j: nat, keepAt: bool)
    requires i <= j <= |s| && AllNameChars(s, keepAt)
    ensures AllNameChars(s[i..j], keepAt)
  {
    assert forall k :: 0 <= k < j - i ==> s[i..j][k] == s[i + k];
  }

  /** Stages 1 to 3 leave name characters only, and no separator at either end. */
  lemma TrimmedShape(name: string, keepAt: bool)
    ensures AllNameChars(Trimmed(name, keepAt), keepAt)
  {
    var stripped := StripDisallowed(name, keepAt);
    StripCharset(name, keepAt);
    CollapseCharset(stripped, keepAt);
    TrimCharset(CollapseWhitespace(stripped), keepAt);
  }

  /** The staged base: at most `limit` name characters, not starting with a separator. */
  lemma StageBaseShape(name: string, p: Profile)
    ensures |StageBase(name, p)| <= p.limit
    ensures AllNameChars(StageBase(name, p), p.keepAt)
    ensures StageBase(name, p) == [] || !IsSeparator(StageBase(name, p)[0], p.keepAt)
  {
    var t := Trimmed(name, p.keepAt);
    TrimmedShape(name, p.keepAt);
    var r := Truncate(t, p.limit);
    assert forall k :: 0 <= k < |r| ==> r[k] == t[k];
  }

  // ---------------------------------------------------------------------------
  // Stage 2 exactly: a word without whitespace is kept, a whitespace run becomes one `_`.

  /** A word without whitespace passes stage 2 unchanged. */
  lemma {:induction false} CollapseWord(w: string, s: string)
    requires NoWhitespace(w)
    ensures CollapseWhitespace(w + s) == w + CollapseWhitespace(s)
  {
    if w == [] {
      assert w + s == s;
    } else {
      assert (w + s)[0] == w[0] && (w + s)[1..] == w[1..] + s;
      CollapseWord(w[1..], s);
    }
  }

  /** A maximal whitespace run becomes a single `_`. */
  lemma CollapseRun(ws: string, s: string)
    requires ws != [] && AllWhitespace(ws)
    requires s == [] || !IsWhitespace(s[0])
    ensures CollapseWhitespace(ws + s) == "_" + CollapseWhitespace(s)
  {
    TrimStartRun(ws, s);
    assert (ws + s)[0] == ws[0];
  }

  /** A run followed by a word: `_` and the word. */
  lemma CollapseRunWord(ws: string, w: string, t: string)
    requires ws != [] && AllWhitespace(ws)
    requires w != [] && NoWhitespace(w)
    ensures CollapseWhitespace(ws + (w + t)) == "_" + (w + CollapseWhitespace(t))
  {
    assert (w + t)[0] == w[0];
    CollapseRun(ws, w + t);
    CollapseWord(w, t);
  }

  /** Stage 3 on a core framed by one `_` on each side gives the core. */
  lemma TrimOneEach(core: string, keepAt: bool)
    requires core != [] && !IsSeparator(core[0], keepAt) && !IsSeparator(core[|core| - 1], keepAt)
    ensures TrimSeparators("_" + core + "_", keepAt) == core
  {
    var s := "_" + core + "_";
    var lead := DropLeadingSeparators(s, keepAt);
    assert s[1] == core[0];
    assert |lead| == |core| + 1;
    var r := DropTrailingSeparators(lead, keepAt);
    assert lead[|core| - 1] == core[|core| - 1];
    assert |r| == |core|;
    assert forall k :: 0 <= k < |core| ==> r[k] == core[k];
  }

  /** Three words framed by whitespace runs come out joined and framed by single `_`s. */
  lemma CollapseThreeWords(r1: string, a: string, r2: string, b: string, r3: string, c: string, r4: string)
    requires r1 != [] && AllWhitespace(r1) && r2 != [] && AllWhitespace(r2)
    requires r3 != [] && AllWhitespace(r3) && r4 != [] && AllWhitespace(r4)
    requires a != [] && NoWhitespace(a) && b != [] && NoWhitespace(b) && c != [] && NoWhitespace(c)
    ensures CollapseWhitespace(r1 + (a + (r2 + (b + (r3 + (c + r4))))))
         == "_" + (a + ("_" + (b + ("_" + (c + "_")))))
  {
    var e: string := [];
    CollapseRun(r4, e);
    assert r4 + e == r4;
    CollapseRunWord(r3, c, r4);
    CollapseRunWord(r2, b, r3 + (c + r4));
    CollapseRunWord(r1, a, r2 + (b + (r3 + (c + r4))));
  }

  // ---------------------------------------------------------------------------
  // When the staged label is empty: exactly when the label has no ASCII letter or digit.

  lemma {:induction false} HasAlnumAppend(a: string, b: string)
    ensures HasAlnum(a + b) <==> HasAlnum(a) || HasAlnum(b)
  {
    if a != [] {
      assert (a + b)[0] == a[0] && (a + b)[1..] == a[1..] + b;
      HasAlnumAppend(a[1..], b);
    } else {
      assert a + b == b;
    }
  }

  lemma {:induction false} SeparatorsHaveNoAlnum(s: string, keepAt: bool)
    requires AllSeparators(s, keepAt)
    ensures !HasAlnum(s)
  {
    if s != [] {
      SeparatorsHaveNoAlnum(s[1..], keepAt);
    }
  }

  lemma {:induction false} TrimStartKeepsAlnum(s: string)
    ensures HasAlnum(TrimStart(s)) <==> HasAlnum(s)
  {
    if s != [] && IsWhitespace(s[0]) {
      TrimStartKeepsAlnum(s[1..]);
    }
  }

  lemma {:induction false} StripKeepsAlnum(s: string, keepAt: bool)
    ensures HasAlnum(StripDisallowed(s, keepAt)) <==> HasAlnum(s)
  {
    if s != [] {
      var head := if IsKept(s[0], keepAt) then [s[0]] else [];
      StripKeepsAlnum(s[1..], keepAt);
      HasAlnumAppend(head, StripDisallowed(s[1..], keepAt));
      assert HasAlnum(head) <==> IsAsciiAlnum(s[0]);
    }
  }

  lemma {:induction false} CollapseKeepsAlnum(s: string)
    ensures HasAlnum(CollapseWhitespace(s)) <==> HasAlnum(s)
    decreases |s|
  {
    if s != [] {
      if IsWhitespace(s[0]) {
        var t := TrimStart(s);
        assert |t| < |s| by { assert t == [] || !IsWhitespace(t[0]); }
        TrimStartKeepsAlnum(s);
        CollapseKeepsAlnum(t);
        assert CollapseWhitespace(s) == "_" + CollapseWhitespace(t);
      } else {
        CollapseKeepsAlnum(s[1..]);
      }
    }
  }

  lemma DropLeadingKeepsAlnum(s: string, keepAt: bool)
    ensures HasAlnum(DropLeadingSeparators(s, keepAt)) <==> HasAlnum(s)
  {
    var lead := DropLeadingSeparators(s, keepAt);
    var pre := s[..|s| - |lead|];
    assert s == pre + lead;
    SeparatorsHaveNoAlnum(pre, keepAt);
    HasAlnumAppend(pre, lead);
  }

  lemma DropTrailingKeepsAlnum(s: string, keepAt: bool)
    ensures HasAlnum(DropTrailingSeparators(s, keepAt)) <==> HasAlnum(s)
  {
    var r := DropTrailingSeparators(s, keepAt);
    var post := s[|r|..];
    assert s == r + post;
    SeparatorsHaveNoAlnum(post, keepAt);
    HasAlnumAppend(r, post);
  }

  lemma TrimSeparatorsKeepsAlnum(s: string, keepAt: bool)
    ensures HasAlnum(TrimSeparators(s, keepAt)) <==> HasAlnum(s)
  {
    DropLeadingKeepsAlnum(s, keepAt);
    DropTrailingKeepsAlnum(DropLeadingSeparators(s, keepAt), keepAt);
  }

  /** A string of name characters that does not start with a separator is empty or has an alphanumeric. */
  lemma NonEmptyHasAlnum(s: string, keepAt: bool)
    requires AllNameChars(s, keepAt) && (s == [] || !IsSeparator(s[0], keepAt))
    ensures s != [] <==> HasAlnum(s)
  {
    if s != [] {
      assert IsNameChar(s[0], keepAt);
    }
  }

  /** Stages 1 to 3 leave a string that is empty exactly when the label has no ASCII letter or digit. */
  lemma TrimmedEmpty(name: string, keepAt: bool)
    ensures Trimmed(name, keepAt) == [] <==> !HasAlnum(name)
  {
    var stripped := StripDisallowed(name, keepAt);
    StripKeepsAlnum(name, keepAt);
    CollapseKeepsAlnum(stripped);
    TrimSeparatorsKeepsAlnum(CollapseWhitespace(stripped), keepAt);
    TrimmedShape(name, keepAt);
    NonEmptyHasAlnum(Trimmed(name, keepAt), keepAt);
  }

  /** The default name is used exactly when the label holds no ASCII letter or digit. */
  lemma FallbackExactlyWithoutAlnum(name: string, p: Profile)
    requires ValidProfile(p)
    ensures Base(name, p) == p.fallback <== !HasAlnum(name)
    ensures StageBase(name, p) == [] <==> !HasAlnum(name)
  {
    TrimmedEmpty(name, p.keepAt);
    assert |StageBase(name, p)| == 0 <==> |Trimmed(name, p.keepAt)| == 0;
  }

  // ---------------------------------------------------------------------------
  // Re-sanitising a base.

  /** Stage 1 is the identity on kept characters. */
  lemma {:induction false} StripKeptIdentity(s: string, keepAt: bool)
    requires AllKept(s, keepAt)
    ensures StripDisallowed(s, keepAt) == s
  {
    if s != [] {
      StripKeptIdentity(s[1..], keepAt);
    }
  }

  /** Name characters are kept by stage 1 and are not whitespace. */
  lemma NameCharsKept(s: string, keepAt: bool)
    requires AllNameChars(s, keepAt)
    ensures AllKept(s, keepAt) && NoWhitespace(s)
  {
    forall k | 0 <= k < |s| ensures IsKept(s[k], keepAt) && !IsWhitespace(s[k]) {
      assert IsNameChar(s[k], keepAt);
    }
  }

  /** Stages 1 and 2 leave a string of name characters unchanged. */
  lemma CollapsedIdentity(s: string, keepAt: bool)
    requires AllNameChars(s, keepAt)
    ensures CollapseWhitespace(StripDisallowed(s, keepAt)) == s
  {
    NameCharsKept(s, keepAt);
    StripKeptIdentity(s, keepAt);
    CollapseWord(s, []);
    assert s + [] == s;
  }

  /** Stage 3 leaves a string with no separator at either end unchanged. */
  lemma TrimSeparatorsIdentity(s: string, keepAt: bool)
    requires s == [] || (!IsSeparator(s[0], keepAt) && !IsSeparator(s[|s| - 1], keepAt))
    ensures TrimSeparators(s, keepAt) == s
  {
    assert DropLeadingSeparators(s, keepAt) == s;
  }

  /** A string of name characters that has no separator at either end passes stages 1 to 3 unchanged. */
  lemma TrimmedIdentity(s: string, keepAt: bool)
    requires AllNameChars(s, keepAt)
    requires s == [] || (!IsSeparator(s[0], keepAt) && !IsSeparator(s[|s| - 1], keepAt))
    ensures Trimmed(s, keepAt) == s
  {
    CollapsedIdentity(s, keepAt);
    TrimSeparatorsIdentity(s, keepAt);
  }

  /** A name already in sanitised shape, and short enough, passes stages 1 to 4 unchanged. */
  lemma StageBaseIdentity(s: string, p: Profile)
    requires AllNameChars(s, p.keepAt) && |s| <= p.limit
    requires s == [] || (!IsSeparator(s[0], p.keepAt) && !IsSeparator(s[|s| - 1], p.keepAt))
    ensures StageBase(s, p) == s
  {
    TrimmedIdentity(s, p.keepAt);
    calc {
      StageBase(s, p);
      Truncate(Trimmed(s, p.keepAt), p.limit);
      Truncate(s, p.limit);
      { assert |s| <= p.limit; }
      s;
    }
  }

  /** A base that does not end in a separator is a fixed point of the sanitiser; so is the fallback. */
  lemma BaseIdempotent(name: string, p: Profile)
    requires ValidProfile(p)
    requires !IsSeparator(Base(name, p)[|Base(name, p)| - 1], p.keepAt)
    ensures Base(Base(name, p), p) == Base(name, p)
  {
    var b := Base(name, p);
    StageBaseIdentity(b, p);
  }

  /** Stages 1 to 3 shorten a string of name characters that ends in a separator. */
  lemma TrimmedShortens(b: string, keepAt: bool)
    requires AllNameChars(b, keepAt) && b != [] && IsSeparator(b[|b| - 1], keepAt)
    ensures |Trimmed(b, keepAt)| < |b|
  {
    CollapsedIdentity(b, keepAt);
    var lead := DropLeadingSeparators(b, keepAt);
    assert lead == [] || lead[|lead| - 1] == b[|b| - 1];
    assert |DropTrailingSeparators(lead, keepAt)| < |b|;
  }

  /** A base that ends in a separator (truncation can leave one) is changed by re-sanitising. */
  lemma BaseNotIdempotentAfterTrailingSeparator(name: string, p: Profile)
    requires ValidProfile(p)
    requires IsSeparator(Base(name, p)[|Base(name, p)| - 1], p.keepAt)
    ensures Base(Base(name, p), p) != Base(name, p)
  {
    var b := Base(name, p);
    TrimmedShortens(b, p.keepAt);
    var again := Base(b, p);
    assert again == p.fallback || |again| < |b|;
  }

  // ---------------------------------------------------------------------------
  // The `@` in the middle of a name.

  predicate AllAlnum(s: string) {
    forall k :: 0 <= k < |s| ==> IsAsciiAlnum(s[k])
  }

  /** Stage 1 works character by character, so it distributes over concatenation. */
  lemma {:induction false} StripAppend(a: string, b: string, keepAt: bool)
    ensures StripDisallowed(a + b, keepAt) == StripDisallowed(a, keepAt) + StripDisallowed(b, keepAt)
  {
    if a == [] {
      assert a + b == b;
    } else {
      var h := if IsKept(a[0], keepAt) then [a[0]] else [];
      assert (a + b)[0] == a[0] && (a + b)[1..] == a[1..] + b;
      assert StripDisallowed(a + b, keepAt) == h + StripDisallowed(a[1..] + b, keepAt);
      StripAppend(a[1..], b, keepAt);
      assert h + (StripDisallowed(a[1..], keepAt) + StripDisallowed(b, keepAt))
          == (h + StripDisallowed(a[1..], keepAt)) + StripDisallowed(b, keepAt);
    }
  }

  /** Stage 1 around a piece: kept characters on both sides pass, the piece is filtered. */
  lemma StripAround(a: string, b: string, c: string, keepAt: bool)
    requires AllKept(a, keepAt) && AllKept(c, keepAt)
    ensures StripDisallowed(a + (b + c), keepAt) == a + (StripDisallowed(b, keepAt) + c)
  {
    StripAppend(a, b + c, keepAt);
    StripAppend(b, c, keepAt);
    StripKeptIdentity(a, keepAt);
    StripKeptIdentity(c, keepAt);
  }

  lemma AlnumKept(s: string, keepAt: bool)
    requires AllAlnum(s)
    ensures AllKept(s, keepAt)
  {
  }

  /** An `@` between two alphanumeric words survives when the profile keeps it ... */
  lemma InnerAtKept(u: string, v: string, p: Profile)
    requires p.keepAt
    requires u != [] && AllAlnum(u) && v != [] && AllAlnum(v)
    requires |u| + 1 + |v| <= p.limit
    ensures StageBase(u + "@" + v, p) == u + "@" + v
  {
    var s := u + "@" + v;
    assert AllNameChars(s, true) by {
      assert forall k :: 0 <= k < |u| ==> s[k] == u[k];
      assert s[|u|] == '@';
      assert forall k :: |u| < k < |s| ==> s[k] == v[k - |u| - 1];
    }
    assert s[0] == u[0] && s[|s| - 1] == v[|v| - 1];
    StageBaseIdentity(s, p);
  }

  /** ... and is deleted, joining the words, when it does not. */
  lemma InnerAtDropped(u: string, v: string, p: Profile)
    requires !p.keepAt
    requires u != [] && AllAlnum(u) && v != [] && AllAlnum(v)
    requires |u| + |v| <= p.limit
    ensures StageBase(u + "@" + v, p) == u + v
  {
    assert StripDisallowed(u + "@" + v, false) == u + v by {
      assert u + "@" + v == u + ("@" + v);
      assert StripDisallowed("@", false) == [];
      AlnumKept(u, false);
      AlnumKept(v, false);
      StripAround(u, "@", v, false);
    }
    AlnumJoin(u, v);
    var w := u + v;
    assert w[0] == u[0] && w[|w| - 1] == v[|v| - 1];
    CollapseWord(w, []);
    assert w + [] == w;
    TrimSeparatorsIdentity(w, false);
    assert Trimmed(u + "@" + v, false) == w;
    ShortTruncate(w, p.limit);
  }

  lemma AlnumJoin(u: string, v: string)
    requires AllAlnum(u) && AllAlnum(v)
    ensures AllAlnum(u + v) && NoWhitespace(u + v)
  {
    assert forall k :: 0 <= k < |u| ==> (u + v)[k] == u[k];
    assert forall k :: |u| <= k < |u| + |v| ==> (u + v)[k] == v[k - |u|];
  }

  /** `slice(0, limit)` leaves a short enough string alone. */
  lemma ShortTruncate(s: string, limit: nat)
    requires |s| <= limit
    ensures Truncate(s, limit) == s
  {
  }

  /** Truncation at a separator: a name of `limit - 1` alphanumerics, `_` and one more
      character is cut right after the `_`. */
  lemma CutAtSeparator(w: string, p: Profile)
    requires |w| + 1 == p.limit && w != [] && AllAlnum(w)
    ensures StageBase(w + "_b", p) == w + "_"
  {
    CutAtSeparatorTrimmed(w, p.keepAt);
    CutAtSeparatorTruncated(w);
  }

  lemma CutAtSeparatorTrimmed(w: string, keepAt: bool)
    requires w != [] && AllAlnum(w)
    ensures Trimmed(w + "_b", keepAt) == w + "_b"
  {
    var s := w + "_b";
    assert AllNameChars(s, keepAt) by {
      assert forall k :: 0 <= k < |w| ==> s[k] == w[k];
    }
    assert s[0] == w[0] && s[|s| - 1] == 'b';
    TrimmedIdentity(s, keepAt);
  }

  lemma CutAtSeparatorTruncated(w: string)
    ensures Truncate(w + "_b", |w| + 1) == w + "_"
  {
    var r := Truncate(w + "_b", |w| + 1);
    assert forall k :: 0 <= k < |w| ==> r[k] == w[k];
  }
}
