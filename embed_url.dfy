/** `buildEmbedUrl` of js/main.js: the iframe source for a video id, with the
    autoplay, related-videos and branding parameters and an optional mute flag. */
module EmbedUrl {
  import opened Optional
  import opened YouTubeId

  const EmbedBase: string := "https://www.youtube.com/embed/"
  const PlayerParams: string := "?autoplay=1&rel=0&modestbranding=1"
  const MuteParam: string := "&mute=1"

  /** The URL asks the player to start muted: it ends with `&mute=1`. */
  predicate IsMutedUrl(url: string) {
    |url| >= |MuteParam| && url[|url| - |MuteParam|..] == MuteParam
  }

  /** `buildEmbedUrl(videoId, mute)`. */
  function BuildEmbedUrl(videoId: string, mute: bool): (r: string)
    ensures |r| == |EmbedBase| + |videoId| + |PlayerParams| + (if mute then |MuteParam| else 0)
    ensures r[..|EmbedBase|] == EmbedBase
    ensures r[|EmbedBase|..|EmbedBase| + |videoId|] == videoId
    ensures r[|EmbedBase| + |videoId|..|EmbedBase| + |videoId| + |PlayerParams|] == PlayerParams
    ensures IsMutedUrl(r) <==> mute
  {
    var r := EmbedBase + videoId + PlayerParams + (if mute then MuteParam else "");
    assert r[..|EmbedBase|] == EmbedBase;
    assert r[|EmbedBase|..|EmbedBase| + |videoId|] == videoId;
    assert r[|EmbedBase| + |videoId|..|EmbedBase| + |videoId| + |PlayerParams|] == PlayerParams;
    assert !mute ==> r[|r| - |MuteParam|] == PlayerParams[|PlayerParams| - |MuteParam|] == 'n';
    r
  }

  /** What follows the id in a built URL. */
  predicate IsEmbedTail(tail: string) {
    tail == PlayerParams || tail == PlayerParams + MuteParam
  }

  /** The base has no `=`. */
  lemma EmbedBaseFacts()
    ensures forall k :: 0 <= k < |EmbedBase| ==> EmbedBase[k] != '='
  {
  }

  /** The characters of a tail that rule out the first two patterns: no `.`,
      and every `=` follows a parameter name that does not end in `v`. */
  predicate TailFacts(tail: string) {
    |tail| > 0 && tail[0] == '?' &&
    (forall k :: 0 <= k < |tail| ==> tail[k] != '.') &&
    (forall k :: 0 <= k < |tail| - 1 ==> tail[k] != 'v' || tail[k + 1] != '=')
  }

  lemma PlainTailFacts()
    ensures TailFacts("?autoplay=1&rel=0&modestbranding=1")
  {
  }

  lemma MutedTailFacts()
    ensures TailFacts("?autoplay=1&rel=0&modestbranding=1&mute=1")
  {
  }

  /** The facts about the fixed parts of an embed URL that rule out the first
      two patterns. */
  lemma EmbedLiteralFacts(tail: string)
    requires IsEmbedTail(tail)
    ensures forall k :: 0 <= k < |EmbedBase| ==> EmbedBase[k] != '='
    ensures tail[0] == '?'
    ensures forall k :: 0 <= k < |tail| ==> tail[k] != '.'
    ensures forall k :: 0 <= k < |tail| - 1 ==> tail[k] != 'v' || tail[k + 1] != '='
  {
    EmbedBaseFacts();
    assert PlayerParams + MuteParam == "?autoplay=1&rel=0&modestbranding=1&mute=1";
    PlainTailFacts();
    MutedTailFacts();
    assert TailFacts(tail);
  }

  /** No `v=` in an embed URL: every `=` follows a parameter name ending in
      `y`, `l`, `g` or `e`. */
  lemma EmbedUrlHasNoWatchMatch(url: string, id: string, tail: string)
    requires IsVideoId(id) && IsEmbedTail(tail) && url == EmbedBase + id + tail
    ensures NoMatch(url, "v=")
  {
    EmbedLiteralFacts(tail);
    forall j: nat ensures !MatchesAt(url, "v=", j) {
      if j + 2 <= |url| {
        if j + 1 < 30 {
          assert url[j + 1] == EmbedBase[j + 1];
        } else if j + 1 < 41 {
          assert url[j + 1] == id[j + 1 - 30];
        } else if j + 1 == 41 {
          assert url[j + 1] == tail[0];
        } else {
          assert url[j] == tail[j - 41] && url[j + 1] == tail[j - 41 + 1];
        }
      }
      NoMatchByChars(url, "v=", j, 0, 1);
    }
  }

  /** No `youtu.be/` in an embed URL: its only dots are in `www.youtube.com`. */
  lemma EmbedUrlHasNoShortLinkMatch(url: string, id: string, tail: string)
    requires IsVideoId(id) && IsEmbedTail(tail) && url == EmbedBase + id + tail
    ensures NoMatch(url, "youtu.be/")
  {
    EmbedLiteralFacts(tail);
    forall j: nat ensures !MatchesAt(url, "youtu.be/", j) {
      if j + 9 <= |url| {
        if j + 5 < 30 {
          assert url[j] == EmbedBase[j] && url[j + 5] == EmbedBase[j + 5];
        } else if j + 5 < 41 {
          assert url[j + 5] == id[j + 5 - 30];
        } else {
          assert url[j + 5] == tail[j + 5 - 41];
        }
      }
      NoMatchByChars(url, "youtu.be/", j, 0, 5);
    }
  }

  /** The first `embed/` of an embed URL is the one after the host. */
  lemma EmbedUrlEmbedMatch(url: string, id: string, tail: string)
    requires IsVideoId(id) && url == EmbedBase + id + tail
    ensures LeftmostMatch(url, "embed/", 24)
  {
    assert url[24..30] == "embed/" && url[30..41] == id;
    forall j: nat | j < 24 ensures !MatchesAt(url, "embed/", j) {
      assert url[j + 1] == EmbedBase[j + 1] && url[j + 5] == EmbedBase[j + 5];
      NoMatchByChars(url, "embed/", j, 1, 5);
    }
  }

  /** Round trip: extracting the id from a built embed URL gives back the id,
      muted or not. */
  lemma EmbedUrlRoundTrip(id: string, mute: bool)
    requires IsVideoId(id)
    ensures ExtractYouTubeId(Some(BuildEmbedUrl(id, mute))) == Some(id)
  {
    var tail := PlayerParams + (if mute then MuteParam else "");
    assert !mute ==> tail == PlayerParams;
    var url := BuildEmbedUrl(id, mute);
    assert url == EmbedBase + id + tail;
    EmbedUrlHasNoWatchMatch(url, id, tail);
    EmbedUrlHasNoShortLinkMatch(url, id, tail);
    EmbedUrlEmbedMatch(url, id, tail);
    ExtractPriority(url, 2, 24);
    assert Capture(url, "embed/", 24) == url[30..41] == id;
  }

  /** Two embed URLs for valid ids are equal only when both the id and the mute
      flag are. */
  lemma EmbedUrlInjective(id1: string, mute1: bool, id2: string, mute2: bool)
    requires IsVideoId(id1) && IsVideoId(id2)
    requires BuildEmbedUrl(id1, mute1) == BuildEmbedUrl(id2, mute2)
    ensures id1 == id2 && mute1 == mute2
  {
    EmbedUrlRoundTrip(id1, mute1);
    EmbedUrlRoundTrip(id2, mute2);
  }
}
