/**
 * The video-identifier extractor of the main screen (`extractVideoId`).
 *
 * Three regular expressions are tried in a fixed order, each with Java's
 * `find` semantics (the leftmost start position that admits a match wins):
 *
 *   1. `youtu\.be/([^?&#]+).*`          when the URL contains "youtu.be";
 *   2. `[?&]v=([^?&#]+).*`              when the URL contains "youtube.com";
 *   3. `(?<=marker|...)[^#\&\?\n]*`     otherwise, or when neither of the
 *      above matched; the run after the marker may be empty.
 *
 * Each regular expression is written out here as a predicate saying where
 * it matches, one leftmost search and one scanner for the captured run.
 */
module VideoId {
  import opened Text

  /** The strategies of `extractVideoId`, in the order they are tried. */
  datatype Strategy = ShortLink | WatchParam | Fallback

  /** A successful find: the captured identifier is `url[start..end]`. */
  datatype Capture = Capture(strategy: Strategy, start: nat, end: nat)

  /** `[^?&#]`: the characters that end the identifier in the first two patterns. */
  predicate IsIdDelimiter(c: char)
  {
    c == '?' || c == '&' || c == '#'
  }

  /** `[^#\&\?\n]`: the fallback pattern also stops at a line feed. */
  predicate StopsRun(st: Strategy, c: char)
  {
    IsIdDelimiter(c) || (st == Fallback && c == '\n')
  }

  /** Java's `.` without DOTALL: every character except the line terminators. */
  predicate IsLineTerminator(c: char)
  {
    c == '\n' || c == '\r' || c == '\U{85}' || c == '\U{2028}' || c == '\U{2029}'
  }

  // ---------------------------------------------------------------------
  // The fallback pattern's look-behind markers

  /**
   * One character of a look-behind marker against one character of the
   * URL. The markers contain only literal characters, except for the
   * unescaped `.`, which matches any character but a line terminator.
   */
  predicate MarkerCharMatches(pc: char, c: char)
  {
    if pc == '.' then !IsLineTerminator(c) else c == pc
  }

  /**
   * The alternatives of the look-behind, in source order, with the regex
   * escapes removed. The dot in `youtu.be` is not escaped there, so it is
   * a wildcard; the percent-encoded embed marker carries the invisible
   * characters U+200C and U+200B between `%` and `2F`, exactly as written.
   */
  const FallbackMarkers: seq<string> := [
    "watch?v=",
    "/videos/",
    "embed/",
    "youtu.be/",
    "/v/",
    "/e/",
    "watch?v%3D",
    "watch?feature=player_embedded&v=",
    "%2Fvideos%2F",
    "embed%\U{200C}\U{200B}2F",
    "youtu.be%2F",
    "%2Fv%2F"
  ]

  /** The marker `m` matches the characters just before position `p`. */
  predicate MarkerEndsAt(url: string, p: nat, m: string)
  {
    |m| <= p <= |url| && forall k :: 0 <= k < |m| ==> MarkerCharMatches(m[k], url[p - |m| + k])
  }

  // ---------------------------------------------------------------------
  // Where each pattern matches

  /** Pattern 1 matches at `p`: "youtu.be/" followed by at least one non-delimiter. */
  predicate ShortLinkAt(url: string, p: nat)
  {
    OccursAt(url, p, "youtu.be/") && p + 9 < |url| && !IsIdDelimiter(url[p + 9])
  }

  /** Pattern 2 matches at `p`: `?v=` or `&v=` followed by at least one non-delimiter. */
  predicate WatchParamAt(url: string, p: nat)
  {
    p + 3 < |url| && (url[p] == '?' || url[p] == '&') && url[p + 1] == 'v' && url[p + 2] == '='
    && !IsIdDelimiter(url[p + 3])
  }

  /** Pattern 3 matches at `p`: some marker ends at `p` (its run may be empty). */
  predicate FallbackAt(url: string, p: nat)
  {
    exists j :: 0 <= j < |FallbackMarkers| && MarkerEndsAt(url, p, FallbackMarkers[j])
  }

  predicate MatchesAt(st: Strategy, url: string, p: nat)
  {
    match st
    case ShortLink => ShortLinkAt(url, p)
    case WatchParam => WatchParamAt(url, p)
    case Fallback => FallbackAt(url, p)
  }

  /** How many characters of the match precede the captured group. */
  function PrefixLength(st: Strategy): nat
  {
    match st
    case ShortLink => 9
    case WatchParam => 3
    case Fallback => 0
  }

  /**
   * Java's `find` from position `from`: the leftmost start position at or
   * after `from` where the pattern matches, or None when there is none.
   */
  function FindLeftmost(st: Strategy, url: string, from: nat): (p: Option<nat>)
    ensures p.Some? ==> from <= p.value <= |url| && MatchesAt(st, url, p.value)
    ensures p.Some? ==> forall q :: from <= q < p.value ==> !MatchesAt(st, url, q)
    ensures p.None? ==> forall q :: from <= q ==> !MatchesAt(st, url, q)
    decreases |url| + 1 - from
  {
    if from > |url| then None
    else if MatchesAt(st, url, from) then Some(from)
    else FindLeftmost(st, url, from + 1)
  }

  /**
   * The greedy run of the captured group starting at `i`: it ends at the
   * first character that stops the run, or at the end of the URL.
   */
  function RunEnd(st: Strategy, url: string, i: nat): (j: nat)
    requires i <= |url|
    ensures i <= j <= |url|
    ensures forall k :: i <= k < j ==> !StopsRun(st, url[k])
    ensures j == |url| || StopsRun(st, url[j])
    decreases |url| - i
  {
    if i == |url| || StopsRun(st, url[i]) then i else RunEnd(st, url, i + 1)
  }

  /**
   * One pattern's `find`: where its leftmost match captures. For the first
   * two patterns the capture is never empty.
   */
  function Find(st: Strategy, url: string): (c: Option<Capture>)
    ensures c.Some? <==> exists p :: MatchesAt(st, url, p)
    ensures c.Some? ==> c.value.strategy == st
    ensures c.Some? ==> PrefixLength(st) <= c.value.start <= c.value.end <= |url|
    ensures c.Some? ==> MatchesAt(st, url, c.value.start - PrefixLength(st))
    ensures c.Some? ==> forall q: nat :: q < c.value.start - PrefixLength(st) ==> !MatchesAt(st, url, q)
    ensures c.Some? ==> forall k :: c.value.start <= k < c.value.end ==> !StopsRun(st, url[k])
    ensures c.Some? ==> c.value.end == |url| || StopsRun(st, url[c.value.end])
    ensures c.Some? && st != Fallback ==> c.value.start < c.value.end
  {
    match FindLeftmost(st, url, 0)
    case None => None
    case Some(p) =>
      var start := p + PrefixLength(st);
      assert start <= |url| by {
        if st == Fallback { assert start == p; }
      }
      Some(Capture(st, start, RunEnd(st, url, start)))
  }

  /**
   * `extractVideoId` up to the capture: the short-link pattern when the URL
   * contains "youtu.be" and it matches, else the `v=` pattern when the URL
   * contains "youtube.com" and it matches, else the fallback pattern.
   */
  function Extract(url: string): (c: Option<Capture>)
    ensures c.Some? ==> c == Find(c.value.strategy, url)
    ensures c.Some? && c.value.strategy == ShortLink ==> Contains(url, "youtu.be")
    ensures c.Some? && c.value.strategy == WatchParam ==> Contains(url, "youtube.com")
    ensures c.None? ==> Find(Fallback, url).None?
  {
    if Contains(url, "youtu.be") && Find(ShortLink, url).Some? then Find(ShortLink, url)
    else if Contains(url, "youtube.com") && Find(WatchParam, url).Some? then Find(WatchParam, url)
    else Find(Fallback, url)
  }

  /**
   * `extractVideoId`: the captured identifier, or "" when no pattern
   * matched. The identifier is a contiguous piece of the URL, never holds
   * `?`, `&` or `#`, and can be empty only when the fallback pattern
   * produced it.
   */
  function ExtractVideoId(url: string): (id: string)
    ensures Contains(url, id)
    ensures forall k :: 0 <= k < |id| ==> !IsIdDelimiter(id[k])
    ensures id == [] ==> Extract(url).None? || Extract(url).value.strategy == Fallback
  {
    match Extract(url)
    case None =>
      assert OccursAt(url, 0, "");
      ""
    case Some(c) =>
      assert OccursAt(url, c.start, url[c.start..c.end]);
      url[c.start..c.end]
  }

  // ---------------------------------------------------------------------
  // Precedence of the strategies

  /**
   * Whenever the short-link pattern matches anywhere, it decides the
   * result, even if a `v=` parameter or a fallback marker occurs too.
   */
  lemma ShortLinkWins(url: string, p: nat)
    requires ShortLinkAt(url, p)
    ensures Extract(url).Some? && Extract(url) == Find(ShortLink, url)
  {
    assert MatchesAt(ShortLink, url, p);
    OccursAtPrefix(url, p, "youtu.be/", 8);
    assert "youtu.be/"[..8] == "youtu.be";
  }

  /**
   * When the short-link pattern matches nowhere, a URL that contains
   * "youtube.com" and a `?v=` or `&v=` followed by an identifier character
   * gets its identifier from the `v=` pattern.
   */
  lemma WatchParamWins(url: string, p: nat)
    requires WatchParamAt(url, p) && Contains(url, "youtube.com")
    requires forall q: nat :: !ShortLinkAt(url, q)
    ensures Extract(url).Some? && Extract(url) == Find(WatchParam, url)
  {
    assert MatchesAt(WatchParam, url, p);
    assert Find(ShortLink, url).None? by {
      forall q ensures !MatchesAt(ShortLink, url, q) {
        assert !ShortLinkAt(url, q);
      }
    }
  }

  /**
   * When the short-link pattern matches nowhere, and either the URL does
   * not contain "youtube.com" or the `v=` pattern matches nowhere, the
   * fallback pattern decides the result.
   */
  lemma FallbackOtherwise(url: string)
    requires forall q: nat :: !ShortLinkAt(url, q)
    requires !Contains(url, "youtube.com") || forall q: nat :: !WatchParamAt(url, q)
    ensures Extract(url) == Find(Fallback, url)
  {
    assert Find(ShortLink, url).None? by {
      forall q ensures !MatchesAt(ShortLink, url, q) {
        assert !ShortLinkAt(url, q);
      }
    }
    if Contains(url, "youtube.com") {
      assert Find(WatchParam, url).None? by {
        forall q ensures !MatchesAt(WatchParam, url, q) {
          assert !WatchParamAt(url, q);
        }
      }
    }
  }

  /**
   * The capture of one pattern is determined by its leftmost match
   * position and the end of the run that follows.
   */
  lemma FindIs(st: Strategy, url: string, p: nat, e: nat)
    requires MatchesAt(st, url, p)
    requires forall q: nat :: q < p ==> !MatchesAt(st, url, q)
    requires p + PrefixLength(st) <= e <= |url|
    requires forall k :: p + PrefixLength(st) <= k < e ==> !StopsRun(st, url[k])
    requires e == |url| || StopsRun(st, url[e])
    ensures Find(st, url) == Some(Capture(st, p + PrefixLength(st), e))
  {
  }

  /** Every fallback marker ends in one of `=`, `/`, `D` or `F`. */
  lemma FallbackMarkerLastChar(url: string, p: nat)
    requires FallbackAt(url, p)
    ensures 0 < p && url[p - 1] in {'=', '/', 'D', 'F'}
  {
    var j :| 0 <= j < |FallbackMarkers| && MarkerEndsAt(url, p, FallbackMarkers[j]);
    var m := FallbackMarkers[j];
    assert MarkerCharMatches(m[|m| - 1], url[p - 1]);
  }

  /** A URL without any of `=`, `/`, `D`, `F` yields no identifier from the fallback pattern. */
  lemma NoFallbackWithoutMarkerEnd(url: string)
    requires forall k :: 0 <= k < |url| ==> url[k] !in {'=', '/', 'D', 'F'}
    ensures Find(Fallback, url).None?
  {
    forall p ensures !MatchesAt(Fallback, url, p) {
      if FallbackAt(url, p) {
        FallbackMarkerLastChar(url, p);
      }
    }
  }

  // ---------------------------------------------------------------------
  // Worked examples

  /** A short link with a time parameter: the identifier stops at `?`. */
  lemma ShortLinkExample(url: string)
    requires url == "https://youtu.be/dQw4w9WgXcQ?t=30"
    ensures ExtractVideoId(url) == "dQw4w9WgXcQ"
  {
    assert Extract(url) == Find(ShortLink, url) by {
      assert ShortLinkAt(url, 8);
      ShortLinkWins(url, 8);
    }
    assert Find(ShortLink, url) == Some(Capture(ShortLink, 17, 28)) by {
      assert ShortLinkAt(url, 8);
      forall q: nat | q < 8 ensures !MatchesAt(ShortLink, url, q) {
        MismatchAt(url, q, 0, "youtu.be/");
      }
      assert forall k :: 17 <= k < 28 ==> !StopsRun(ShortLink, url[k]);
      FindIs(ShortLink, url, 8, 28);
    }
    assert url[17..28] == "dQw4w9WgXcQ";
  }

  /** "youtu.be/" needs a dot followed by `b`. */
  lemma NoShortLinkWithoutDotB(url: string)
    requires forall k :: 0 <= k < |url| - 1 && url[k] == '.' ==> url[k + 1] != 'b'
    ensures forall q: nat :: !ShortLinkAt(url, q)
  {
    forall q: nat ensures !ShortLinkAt(url, q) {
      if q + 9 < |url| {
        if url[q + 5] == '.' {
          MismatchAt(url, q, 6, "youtu.be/");
        } else {
          MismatchAt(url, q, 5, "youtu.be/");
        }
      }
    }
  }

  /**
   * A watch URL with a further parameter: the identifier stops at `&`.
   * (The URL is written as its scheme, host, path and query parts.)
   */
  lemma WatchParamExample(url: string)
    requires url == "https://" + "www.youtube.com" + "/watch" + "?v=dQw4w9WgXcQ" + "&list=X"
    ensures ExtractVideoId(url) == "dQw4w9WgXcQ"
  {
    assert Extract(url) == Find(WatchParam, url) by {
      WatchUrlPicksWatchParam(url);
    }
    assert Find(WatchParam, url) == Some(Capture(WatchParam, 32, 43)) by {
      WatchUrlCapture(url);
    }
    assert url[32..43] == "dQw4w9WgXcQ";
  }

  lemma WatchUrlPicksWatchParam(url: string)
    requires url == "https://" + "www.youtube.com" + "/watch" + "?v=dQw4w9WgXcQ" + "&list=X"
    ensures Extract(url) == Find(WatchParam, url)
  {
    assert WatchParamAt(url, 29);
    assert OccursAt(url, 12, "youtube.com");
    NoShortLinkWithoutDotB(url);
    WatchParamWins(url, 29);
  }

  lemma WatchUrlCapture(url: string)
    requires url == "https://" + "www.youtube.com" + "/watch" + "?v=dQw4w9WgXcQ" + "&list=X"
    ensures Find(WatchParam, url) == Some(Capture(WatchParam, 32, 43))
  {
    assert WatchParamAt(url, 29);
    assert forall q: nat :: q < 29 ==> !MatchesAt(WatchParam, url, q);
    FindIs(WatchParam, url, 29, 43);
  }

  /** Text that is not a link yields no identifier at all. */
  lemma NotALinkExample(url: string)
    requires url == "not a link"
    ensures !Contains(url, "youtu.be") && !Contains(url, "youtube.com")
    ensures Extract(url).None? && ExtractVideoId(url) == ""
  {
    assert !Contains(url, "youtu.be") by {
      forall i | 0 <= i <= |url| ensures !OccursAt(url, i, "youtu.be") {
        if i + 8 <= |url| { MismatchAt(url, i, 0, "youtu.be"); }
      }
    }
    assert !Contains(url, "youtube.com");
    NoFallbackWithoutMarkerEnd(url);
  }

  /** Without a dot, neither domain name occurs, so only the fallback pattern is tried. */
  lemma NoDotMeansFallback(url: string)
    requires '.' !in url
    ensures Extract(url) == Find(Fallback, url)
  {
    forall i | 0 <= i <= |url| ensures !OccursAt(url, i, "youtu.be") && !OccursAt(url, i, "youtube.com") {
      if i + 8 <= |url| { MismatchAt(url, i, 5, "youtu.be"); }
      if i + 11 <= |url| { MismatchAt(url, i, 7, "youtube.com"); }
    }
  }

  /** Without a `y`, neither domain name occurs, so only the fallback pattern is tried. */
  lemma NoYMeansFallback(url: string)
    requires 'y' !in url
    ensures !Contains(url, "youtu.be") && !Contains(url, "youtube.com")
    ensures Extract(url) == Find(Fallback, url)
  {
    forall i | 0 <= i <= |url| ensures !OccursAt(url, i, "youtu.be") && !OccursAt(url, i, "youtube.com") {
      if i + 8 <= |url| { MismatchAt(url, i, 0, "youtu.be"); }
      if i + 11 <= |url| { MismatchAt(url, i, 0, "youtube.com"); }
    }
  }

  /**
   * No marker ends just after a `/` that follows a character other than
   * `s`, `d`, `e` or `v`: the markers ending in `/` have one of those
   * before it.
   */
  lemma NoMarkerAfterSlash(url: string, p: nat)
    requires 2 <= p <= |url| && url[p - 1] == '/' && url[p - 2] !in {'s', 'd', 'e', 'v'}
    ensures !FallbackAt(url, p)
  {
    forall j | 0 <= j < |FallbackMarkers| ensures !MarkerEndsAt(url, p, FallbackMarkers[j]) {
      var m := FallbackMarkers[j];
      if |m| <= p {
        if m[|m| - 1] == '/' {
          assert !MarkerCharMatches(m[|m| - 2], url[p - 2]);
        } else {
          assert !MarkerCharMatches(m[|m| - 1], url[p - 1]);
        }
      }
    }
  }

  /**
   * A `v=` parameter on another host is not taken by the `v=` pattern,
   * which is tried only for "youtube.com"; the fallback marker `watch?v=`
   * still yields the identifier.
   */
  lemma ForeignWatchUrlExample(url: string)
    requires url == "https://" + "example.org" + "/watch" + "?v=abc"
    ensures WatchParamAt(url, 25) && !Contains(url, "youtube.com")
    ensures Extract(url) == Find(Fallback, url)
    ensures ExtractVideoId(url) == "abc"
  {
    NoYMeansFallback(url);
    assert WatchParamAt(url, 25);
    ForeignWatchCapture(url);
    assert url[28..31] == "abc";
  }

  lemma ForeignWatchCapture(url: string)
    requires url == "https://" + "example.org" + "/watch" + "?v=abc"
    ensures Find(Fallback, url) == Some(Capture(Fallback, 28, 31))
  {
    assert FallbackAt(url, 28) by {
      assert MarkerEndsAt(url, 28, FallbackMarkers[0]);
    }
    ForeignWatchNoEarlierMarker(url);
    assert forall k :: 28 <= k < 31 ==> !StopsRun(Fallback, url[k]);
    FindIs(Fallback, url, 28, 31);
  }

  lemma ForeignWatchNoEarlierMarker(url: string)
    requires url == "https://" + "example.org" + "/watch" + "?v=abc"
    ensures forall q: nat :: q < 28 ==> !MatchesAt(Fallback, url, q)
  {
    forall q: nat | q < 28 ensures !MatchesAt(Fallback, url, q) {
      if q == 7 || q == 8 || q == 20 {
        NoMarkerAfterSlash(url, q);
      } else if FallbackAt(url, q) {
        FallbackMarkerLastChar(url, q);
      }
    }
  }

  /**
   * The dot of `youtu.be` in the fallback pattern is a wildcard: a host
   * spelled "youtu-be" still yields an identifier (the play button's
   * domain check rejects such a link before extraction, though).
   */
  lemma UnescapedDotExample(url: string)
    requires url == "youtu-be/" + "abc"
    ensures ExtractVideoId(url) == "abc"
  {
    assert Extract(url) == Find(Fallback, url) by {
      NoDotMeansFallback(url);
    }
    assert Find(Fallback, url) == Some(Capture(Fallback, 9, 12)) by {
      assert MarkerEndsAt(url, 9, FallbackMarkers[3]);
      forall q: nat | q < 9 ensures !MatchesAt(Fallback, url, q) {
        if FallbackAt(url, q) { FallbackMarkerLastChar(url, q); }
      }
      FindIs(Fallback, url, 9, 12);
    }
    assert url[9..12] == "abc";
  }


  /**
   * The percent-encoded embed marker matches only with the invisible
   * characters U+200C U+200B between `%` and `2F`.
   */
  lemma InvisibleMarkerExample(url: string)
    requires url == "embed%\U{200C}\U{200B}2F" + "abc"
    ensures ExtractVideoId(url) == "abc"
  {
    assert Extract(url) == Find(Fallback, url) by {
      NoDotMeansFallback(url);
    }
    InvisibleMarkerCapture(url);
    assert url[10..13] == "abc";
  }

  lemma InvisibleMarkerCapture(url: string)
    requires url == "embed%\U{200C}\U{200B}2F" + "abc"
    ensures Find(Fallback, url) == Some(Capture(Fallback, 10, 13))
  {
    InvisibleMarkerEndsAt(url);
    forall q: nat | q < 10 ensures !MatchesAt(Fallback, url, q) {
      if FallbackAt(url, q) { FallbackMarkerLastChar(url, q); }
    }
    FindIs(Fallback, url, 10, 13);
  }

  lemma InvisibleMarkerEndsAt(url: string)
    requires url == "embed%\U{200C}\U{200B}2F" + "abc"
    ensures FallbackAt(url, 10)
  {
    assert MarkerEndsAt(url, 10, FallbackMarkers[9]);
  }



  /** ... so the ordinary percent-encoded form `embed%2F` yields no identifier. */
  lemma EncodedEmbedQuirk(url: string)
    requires url == "embed%2F" + "abc"
    ensures ExtractVideoId(url) == ""
  {
    assert Extract(url) == Find(Fallback, url) by {
      NoDotMeansFallback(url);
    }
    forall q: nat ensures !MatchesAt(Fallback, url, q) {
      if q == 8 {
        EncodedEmbedHasNoMarker(url);
      } else if FallbackAt(url, q) {
        FallbackMarkerLastChar(url, q);
      }
    }
  }

  lemma EncodedEmbedHasNoMarker(url: string)
    requires url == "embed%2F" + "abc"
    ensures !FallbackAt(url, 8)
  {
    forall j | 0 <= j < |FallbackMarkers| ensures !MarkerEndsAt(url, 8, FallbackMarkers[j]) {
      var m := FallbackMarkers[j];
      if |m| <= 8 {
        if j == 11 {
          assert !MarkerCharMatches(m[0], url[1]);
        } else {
          assert !MarkerCharMatches(m[|m| - 1], url[7]);
        }
      }
    }
  }

}
