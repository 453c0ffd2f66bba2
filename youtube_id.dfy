/** `extractYouTubeId` of js/main.js: four regular expressions, each a literal
    prefix followed by a captured group of exactly eleven `[\w-]` characters,
    tried in a fixed order, with a fallback to the last eleven characters.

    Each regex is modelled as an explicit search for the leftmost position at
    which the prefix and eleven id characters occur; this is what
    `String.prototype.match` without the `g` flag returns for these patterns. */
module YouTubeId {
  import opened Optional

  /** The `{11}` of every pattern, and the length of the fallback slice. */
  const IdLength: nat := 11

  /** `[\w-]` without the `u` flag: ASCII letters, ASCII digits, `_` and `-`. */
  predicate IsIdChar(c: char) {
    ('A' <= c <= 'Z') || ('a' <= c <= 'z') || ('0' <= c <= '9') || c == '_' || c == '-'
  }

  predicate AllIdChars(s: string) {
    forall k :: 0 <= k < |s| ==> IsIdChar(s[k])
  }

  /** A string the capture group `([\w-]{11})` can produce. */
  predicate IsVideoId(s: string) {
    |s| == IdLength && AllIdChars(s)
  }

  /** The literal prefixes of the four patterns, in the order they are tried:
      `v=`, `youtu.be/`, `embed/`, `/live/`. */
  const Prefixes: seq<string> := ["v=", "youtu.be/", "embed/", "/live/"]

  /** The regex `prefix([\w-]{11})` matches `url` at position `i`. */
  predicate MatchesAt(url: string, prefix: string, i: nat) {
    i + |prefix| + IdLength <= |url| &&
    url[i..i + |prefix|] == prefix &&
    AllIdChars(url[i + |prefix|..i + |prefix| + IdLength])
  }

  /** `i` is the leftmost position at which `prefix([\w-]{11})` matches. */
  predicate LeftmostMatch(url: string, prefix: string, i: nat) {
    MatchesAt(url, prefix, i) && forall j: nat :: j < i ==> !MatchesAt(url, prefix, j)
  }

  /** No position of `url` matches `prefix([\w-]{11})`. */
  ghost predicate NoMatch(url: string, prefix: string) {
    forall i: nat :: !MatchesAt(url, prefix, i)
  }

  /** The capture group `m[1]` of a match at `i`. */
  function Capture(url: string, prefix: string, i: nat): string
    requires i + |prefix| + IdLength <= |url|
  {
    url[i + |prefix|..i + |prefix| + IdLength]
  }

  /** The regex engine's scan: the first position at or after `from` where the
      pattern matches, if any. */
  function FindFrom(url: string, prefix: string, from: nat): (r: Option<nat>)
    ensures r.Some? ==> from <= r.value && MatchesAt(url, prefix, r.value)
    ensures forall i: nat :: from <= i && (r.None? || i < r.value) ==> !MatchesAt(url, prefix, i)
    decreases |url| - from
  {
    if from + |prefix| + IdLength > |url| then None
    else if MatchesAt(url, prefix, from) then Some(from)
    else FindFrom(url, prefix, from + 1)
  }

  /** `url.match(/prefix([\w-]{11})/)`, reduced to its capture group `m[1]`
      (None for a `null` match). */
  function MatchId(url: string, prefix: string): (r: Option<string>)
    ensures r.None? <==> NoMatch(url, prefix)
    ensures r.Some? ==> IsVideoId(r.value)
    ensures r.Some? ==> exists i: nat :: LeftmostMatch(url, prefix, i) && r.value == Capture(url, prefix, i)
  {
    match FindFrom(url, prefix, 0)
    case None => None
    case Some(i) => Some(Capture(url, prefix, i))
  }

  /** The `for (const p of patterns)` loop from pattern `k` on: the capture of
      the first pattern that matches anywhere in `url`. */
  function MatchFirst(url: string, k: nat): (r: Option<string>)
    requires k <= |Prefixes|
    ensures r.None? <==> forall j :: k <= j < |Prefixes| ==> NoMatch(url, Prefixes[j])
    ensures r.Some? ==> IsVideoId(r.value)
    decreases |Prefixes| - k
  {
    if k == |Prefixes| then None
    else match MatchId(url, Prefixes[k])
      case Some(id) => Some(id)
      case None => MatchFirst(url, k + 1)
  }

  /** None of the four patterns matches anywhere in `url`. */
  ghost predicate NoPatternMatches(url: string) {
    forall j :: 0 <= j < |Prefixes| ==> NoMatch(url, Prefixes[j])
  }

  /** `extractYouTubeId(url)`; `None` stands for `null`/`undefined`, and `""`
      is the other falsy string the guard `!url` rejects. */
  function ExtractYouTubeId(url: Option<string>): (r: Option<string>)
    ensures url.None? || url.value == "" ==> r.None?
    ensures r.Some? ==> |r.value| == IdLength
  {
    if url.None? || url.value == "" then None
    else
      var u := url.value;
      match MatchFirst(u, 0)
      case Some(id) => Some(id)
      case None => if |u| >= IdLength then Some(u[|u| - IdLength..]) else None
  }

  /** The result is `null` exactly for a falsy input, or for an input that no
      pattern matches and that is shorter than an id; otherwise it has
      exactly eleven characters. */
  lemma ExtractNullIff(url: Option<string>)
    ensures ExtractYouTubeId(url).None? <==>
              url.None? || url.value == "" || (NoPatternMatches(url.value) && |url.value| < IdLength)
    ensures ExtractYouTubeId(url).Some? ==> |ExtractYouTubeId(url).value| == IdLength
  {
  }

  /** A match of pattern `k` at `i` yields exactly that capture. */
  lemma MatchIdAt(url: string, prefix: string, i: nat)
    requires LeftmostMatch(url, prefix, i)
    ensures MatchId(url, prefix) == Some(Capture(url, prefix, i))
  {
    var r := MatchId(url, prefix);
    assert !NoMatch(url, prefix);
    var i': nat :| LeftmostMatch(url, prefix, i') && r.value == Capture(url, prefix, i');
    assert i' == i;
  }

  /** Priority: when pattern `k` matches leftmost at `i` and no earlier pattern
      matches anywhere, the result is the eleven characters after that match,
      all of them id characters; a later-tried pattern occurring earlier in the
      string does not matter. */
  lemma ExtractPriority(url: string, k: nat, i: nat)
    requires k < |Prefixes|
    requires forall j :: 0 <= j < k ==> NoMatch(url, Prefixes[j])
    requires LeftmostMatch(url, Prefixes[k], i)
    ensures ExtractYouTubeId(Some(url)) == Some(Capture(url, Prefixes[k], i))
    ensures IsVideoId(Capture(url, Prefixes[k], i))
  {
    MatchIdAt(url, Prefixes[k], i);
    MatchFirstReaches(url, 0, k);
    assert MatchFirst(url, k) == MatchId(url, Prefixes[k]);
  }

  /** The pattern loop, started at `m`, passes over the patterns before `k`
      that match nowhere and returns the capture of pattern `k`. */
  lemma {:induction false} MatchFirstReaches(url: string, m: nat, k: nat)
    requires m <= k < |Prefixes|
    requires forall j :: m <= j < k ==> NoMatch(url, Prefixes[j])
    ensures MatchFirst(url, m) == MatchFirst(url, k)
    decreases k - m
  {
    if m < k {
      var p := Prefixes[m];
      assert NoMatch(url, p);
      assert MatchId(url, p).None?;
      MatchFirstReaches(url, m + 1, k);
    }
  }

  /** Charset: whenever some pattern matches, the result consists of eleven
      `[\w-]` characters. */
  lemma ExtractMatchIsVideoId(url: string)
    requires !NoPatternMatches(url)
    ensures ExtractYouTubeId(Some(url)).Some?
    ensures IsVideoId(ExtractYouTubeId(Some(url)).value)
  {
  }

  /** Fallback: with no pattern match and at least eleven characters, the result
      is the input's last eleven characters (`url.slice(-11)`). */
  lemma ExtractFallback(url: string)
    requires NoPatternMatches(url)
    requires |url| >= IdLength
    ensures ExtractYouTubeId(Some(url)) == Some(url[|url| - IdLength..])
  {
  }

  /** A position where `url` disagrees with `prefix` at offset `k1` or `k2` is
      not a match. */
  lemma NoMatchByChars(url: string, prefix: string, i: nat, k1: nat, k2: nat)
    requires k1 < |prefix| && k2 < |prefix|
    requires i + |prefix| <= |url| ==> url[i + k1] != prefix[k1] || url[i + k2] != prefix[k2]
    ensures !MatchesAt(url, prefix, i)
  {
    if i + |prefix| <= |url| {
      assert url[i..i + |prefix|][k1] == url[i + k1];
      assert url[i..i + |prefix|][k2] == url[i + k2];
    }
  }

  /** Offsets `k1` and `k2` of `prefix` disagree with `lit` at position `j`,
      or `prefix` does not fit in `lit` there. */
  predicate Mismatch(lit: string, prefix: string, j: nat, k1: nat, k2: nat) {
    k1 < |prefix| && k2 < |prefix| &&
    (j + |prefix| <= |lit| ==> lit[j + k1] != prefix[k1] || lit[j + k2] != prefix[k2])
  }

  /** A prefix that ends in a non-id character cannot match across the
      boundary between a literal and the id characters after it, so only
      positions inside the literal need checking. */
  lemma NoMatchBefore(lit: string, id: string, prefix: string, bound: nat, k1: nat, k2: nat)
    requires |prefix| > 0 && !IsIdChar(prefix[|prefix| - 1])
    requires AllIdChars(id)
    requires forall j: nat | j < bound :: Mismatch(lit, prefix, j, k1, k2)
    ensures forall j: nat | j < bound :: !MatchesAt(lit + id, prefix, j)
    ensures bound >= |lit| + |id| ==> NoMatch(lit + id, prefix)
  {
    var url := lit + id;
    forall j: nat | j < bound ensures !MatchesAt(url, prefix, j) {
      var last := |prefix| - 1;
      if j + |prefix| <= |lit| {
        assert Mismatch(lit, prefix, j, k1, k2);
        assert url[j + k1] == lit[j + k1] && url[j + k2] == lit[j + k2];
        NoMatchByChars(url, prefix, j, k1, k2);
      } else {
        if j + |prefix| <= |url| {
          assert url[j + last] == id[j + last - |lit|];
        }
        NoMatchByChars(url, prefix, j, last, last);
      }
    }
  }

  /** Where the patterns tried before `v=` fails in the watch-page host. */
  lemma WatchHostFacts()
    ensures forall j: nat | j < 30 :: Mismatch("https://www.youtube.com/watch?v=", "v=", j, 1, 1)
  {
  }

  /** Neither `v=` nor an earlier `youtu.be/` occurs in the short-link host. */
  lemma ShortLinkHostFacts()
    ensures forall j: nat :: Mismatch("https://youtu.be/", "v=", j, 1, 1)
    ensures forall j: nat | j < 8 :: Mismatch("https://youtu.be/", "youtu.be/", j, 0, 5)
  {
  }

  /** Neither `v=`, `youtu.be/` nor an earlier `embed/` occurs in the embed host. */
  lemma EmbedHostFacts()
    ensures forall j: nat :: Mismatch("https://www.youtube.com/embed/", "v=", j, 1, 1)
    ensures forall j: nat :: Mismatch("https://www.youtube.com/embed/", "youtu.be/", j, 0, 5)
    ensures forall j: nat | j < 24 :: Mismatch("https://www.youtube.com/embed/", "embed/", j, 1, 5)
  {
  }

  /** None of `v=`, `youtu.be/`, `embed/` nor an earlier `/live/` occurs in
      the live host. */
  lemma LiveHostFacts()
    ensures forall j: nat :: Mismatch("https://www.youtube.com/live/", "v=", j, 1, 1)
    ensures forall j: nat :: Mismatch("https://www.youtube.com/live/", "youtu.be/", j, 0, 5)
    ensures forall j: nat :: Mismatch("https://www.youtube.com/live/", "embed/", j, 1, 5)
    ensures forall j: nat | j < 23 :: Mismatch("https://www.youtube.com/live/", "/live/", j, 0, 5)
  {
  }

  /** The watch form `https://www.youtube.com/watch?v=ID` yields `ID`. */
  lemma ExtractWatchForm(id: string)
    requires IsVideoId(id)
    ensures ExtractYouTubeId(Some("https://www.youtube.com/watch?v=" + id)) == Some(id)
  {
    var lit := "https://www.youtube.com/watch?v=";
    var url := lit + id;
    assert url[30..32] == "v=" && url[32..43] == id;
    WatchHostFacts();
    NoMatchBefore(lit, id, "v=", 30, 1, 1);
    ExtractPriority(url, 0, 30);
  }

  /** The short-link form `https://youtu.be/ID` yields `ID`. */
  lemma ExtractShortLinkForm(id: string)
    requires IsVideoId(id)
    ensures ExtractYouTubeId(Some("https://youtu.be/" + id)) == Some(id)
  {
    var lit := "https://youtu.be/";
    var url := lit + id;
    assert url[8..17] == "youtu.be/" && url[17..28] == id;
    ShortLinkHostFacts();
    NoMatchBefore(lit, id, "v=", |url|, 1, 1);
    NoMatchBefore(lit, id, "youtu.be/", 8, 0, 5);
    ExtractPriority(url, 1, 8);
  }

  /** The embed form `https://www.youtube.com/embed/ID` yields `ID`. */
  lemma ExtractEmbedForm(id: string)
    requires IsVideoId(id)
    ensures ExtractYouTubeId(Some("https://www.youtube.com/embed/" + id)) == Some(id)
  {
    var lit := "https://www.youtube.com/embed/";
    var url := lit + id;
    assert url[24..30] == "embed/" && url[30..41] == id;
    EmbedHostFacts();
    NoMatchBefore(lit, id, "v=", |url|, 1, 1);
    NoMatchBefore(lit, id, "youtu.be/", |url|, 0, 5);
    NoMatchBefore(lit, id, "embed/", 24, 1, 5);
    ExtractPriority(url, 2, 24);
  }

  /** The live form `https://www.youtube.com/live/ID` yields `ID`. */
  lemma ExtractLiveForm(id: string)
    requires IsVideoId(id)
    ensures ExtractYouTubeId(Some("https://www.youtube.com/live/" + id)) == Some(id)
  {
    var lit := "https://www.youtube.com/live/";
    var url := lit + id;
    assert url[23..29] == "/live/" && url[29..40] == id;
    LiveHostFacts();
    NoMatchBefore(lit, id, "v=", |url|, 1, 1);
    NoMatchBefore(lit, id, "youtu.be/", |url|, 0, 5);
    NoMatchBefore(lit, id, "embed/", |url|, 1, 5);
    NoMatchBefore(lit, id, "/live/", 23, 0, 5);
    ExtractPriority(url, 3, 23);
  }

  /** Priority over position: in `https://youtu.be/A?v=B` the `v=` pattern is
      tried first, so `B` wins although the short link occurs earlier. */
  lemma ExtractPrefersEarlierPattern(a: string, b: string)
    requires IsVideoId(a) && IsVideoId(b)
    ensures ExtractYouTubeId(Some("https://youtu.be/" + a + "?v=" + b)) == Some(b)
  {
    var host := "https://youtu.be/";
    var lit := host + a + "?v=";
    var url := lit + b;
    assert url == "https://youtu.be/" + a + "?v=" + b;
    assert url[29..31] == "v=" && url[31..42] == b;
    forall j: nat | j < 29 ensures Mismatch(lit, "v=", j, 1, 1) {
      if j + 1 < 17 {
        assert lit[j + 1] == host[j + 1];
      } else if j + 1 < 28 {
        assert lit[j + 1] == a[j + 1 - 17];
      } else {
        assert lit[28..] == "?v=";
        assert lit[j + 1] == lit[28..][j + 1 - 28];
      }
    }
    NoMatchBefore(lit, b, "v=", 29, 1, 1);
    ExtractPriority(url, 0, 29);
  }

  /** The fallback does not check that its guess "looks like an id": a URL of
      another site yields eleven characters that include `.` and `/`. */
  lemma FallbackAcceptsAnyCharacters()
    ensures ExtractYouTubeId(Some("https://example.com/a")) == Some("ample.com/a")
  {
    var url := "https://example.com/a";
    forall j | 0 <= j < |Prefixes| ensures NoMatch(url, Prefixes[j]) {
      forall i: nat ensures !MatchesAt(url, Prefixes[j], i) {
        if MatchesAt(url, Prefixes[j], i) {
          assert AllIdChars(url[i + |Prefixes[j]|..i + |Prefixes[j]| + IdLength]);
          NoIdCharWindow(url, i + |Prefixes[j]|);
        }
      }
    }
  }

  /** Helper for the example above: every window of eleven characters of
      "https://example.com/a" holds a character outside `[\w-]`. */
  lemma NoIdCharWindow(url: string, p: nat)
    requires url == "https://example.com/a"
    requires p + IdLength <= |url|
    ensures !AllIdChars(url[p..p + IdLength])
  {
    var w := url[p..p + IdLength];
    if p <= 5 {
      assert w[5 - p] == url[5] == ':';
    } else if p <= 7 {
      assert w[0] == url[p] == '/';
    } else {
      assert w[15 - p] == url[15] == '.';
    }
  }
}
