/**
 * The play button of the main screen: the link typed by the user is
 * trimmed and validated before `playVideo` is called, and `playVideo`
 * loads an embed URL built around the extracted identifier.
 */
module PlayButton {
  import opened Text
  import opened VideoId

  const EmptyLinkMessage := "Please enter a YouTube link"
  const NotYouTubeLinkMessage := "Please enter a valid YouTube link (youtube.com or youtu.be)"
  const NoVideoIdMessage :=
    "Could not extract video ID from the link. Supported formats: youtube.com/watch?v=VIDEO_ID or youtu.be/VIDEO_ID"

  /** What a click does: show one error under the input field, or play the (trimmed) link. */
  datatype ClickOutcome = ShowError(message: string) | Play(link: string)

  /** A link the domain check lets through. */
  predicate MentionsYouTube(link: string)
  {
    Contains(link, "youtube.com") || Contains(link, "youtu.be")
  }

  /**
   * The play button's click listener: trim the input; reject an empty
   * link, a link naming neither domain, and a link without an extractable
   * identifier, each with its own message; otherwise play the trimmed link.
   */
  function OnPlayClicked(input: string): (o: ClickOutcome)
    ensures o.ShowError? <==> Trim(input) == [] || !MentionsYouTube(Trim(input)) || ExtractVideoId(Trim(input)) == []
    ensures Trim(input) == [] ==> o == ShowError(EmptyLinkMessage)
    ensures Trim(input) != [] && !MentionsYouTube(Trim(input)) ==> o == ShowError(NotYouTubeLinkMessage)
    ensures Trim(input) != [] && MentionsYouTube(Trim(input)) && ExtractVideoId(Trim(input)) == [] ==>
      o == ShowError(NoVideoIdMessage)
    ensures o.Play? ==> o.link == Trim(input)
  {
    var link := Trim(input);
    if link == [] then ShowError(EmptyLinkMessage)
    else if !Contains(link, "youtube.com") && !Contains(link, "youtu.be") then ShowError(NotYouTubeLinkMessage)
    else if ExtractVideoId(link) == [] then ShowError(NoVideoIdMessage)
    else Play(link)
  }

  /**
   * What reaches `playVideo`: a non-empty link without surrounding
   * whitespace that names one of the domains, whose identifier is
   * non-empty, free of `?`, `&` and `#`, and a piece of what the user typed.
   */
  lemma PlayedLinkIsValid(input: string)
    requires OnPlayClicked(input).Play?
    ensures var link := OnPlayClicked(input).link;
      && link != [] && !IsWhitespace(link[0]) && !IsWhitespace(link[|link| - 1])
      && MentionsYouTube(link)
      && var id := ExtractVideoId(link);
      && id != []
      && (forall k :: 0 <= k < |id| ==> !IsIdDelimiter(id[k]))
      && Contains(input, id)
  {
    var link := Trim(input);
    var id := ExtractVideoId(link);
    var j :| 0 <= j <= |link| && OccursAt(link, j, id);
    var i := TrimStart(input);
    assert OccursAt(input, i, link);
    OccursAtTrans(input, link, id, i, j);
  }

  /** Whitespace alone is answered with the empty-link message. */
  lemma BlankInputIsRejected(input: string)
    requires AllWhitespace(input)
    ensures OnPlayClicked(input) == ShowError(EmptyLinkMessage)
  {
  }

  /** A link whose short-link pattern matches is always played. */
  lemma ShortLinkIsPlayed(input: string, p: nat)
    requires ShortLinkAt(Trim(input), p)
    ensures OnPlayClicked(input) == Play(Trim(input))
  {
    var link := Trim(input);
    ShortLinkWins(link, p);
    OccursAtPrefix(link, p, "youtu.be/", 8);
    assert "youtu.be/"[..8] == "youtu.be";
  }

  /** A youtube.com link with `?v=` or `&v=` followed by an identifier character is always played. */
  lemma WatchLinkIsPlayed(input: string, p: nat)
    requires Contains(Trim(input), "youtube.com") && WatchParamAt(Trim(input), p)
    ensures OnPlayClicked(input) == Play(Trim(input))
  {
    var link := Trim(input);
    if q: nat :| ShortLinkAt(link, q) {
      ShortLinkIsPlayed(input, q);
    } else {
      WatchParamWins(link, p);
    }
  }

  /** Text that is not a link is answered with the domain message. */
  lemma NotALinkIsRejected(input: string)
    requires input == "not a link"
    ensures OnPlayClicked(input) == ShowError(NotYouTubeLinkMessage)
  {
    assert Trim(input) == input by {
      assert !IsWhitespace(input[0]) && !IsWhitespace(input[|input| - 1]);
      assert SkipWhitespace(input, 0) == 0;
    }
    NotALinkExample(input);
  }

  // ---------------------------------------------------------------------
  // playVideo's embed URL

  const EmbedPrefix := "https://www.youtube.com/embed/"

  /**
   * The URL `playVideo` loads: the embed prefix, the identifier, `?` and
   * the fixed player parameters, with the API key and the (already
   * URI-encoded) package name spliced in. The identifier follows the
   * prefix, and the query starts right after it.
   */
  function EmbedUrl(videoId: string, apiKey: string, encodedOrigin: string): (url: string)
    ensures OccursAt(url, 0, EmbedPrefix)
    ensures OccursAt(url, |EmbedPrefix|, videoId)
    ensures OccursAt(url, |EmbedPrefix| + |videoId|, "?" + PlayerParameters(apiKey, encodedOrigin))
    ensures |url| == |EmbedPrefix| + |videoId| + 1 + |PlayerParameters(apiKey, encodedOrigin)|
  {
    EmbedPrefix + videoId + "?" + PlayerParameters(apiKey, encodedOrigin)
  }

  /** The query of the embed URL. */
  function PlayerParameters(apiKey: string, encodedOrigin: string): string
  {
    "enablejsapi=1"
    + "&key=" + apiKey
    + "&autoplay=1"
    + "&rel=0"
    + "&showinfo=0"
    + "&controls=1"
    + "&fs=1"
    + "&modestbranding=1"
    + "&iv_load_policy=3"
    + "&hl=ru"
    + "&playsinline=1"
    + "&html5=1"
    + "&vq=medium"
    + "&origin=" + encodedOrigin
  }

  /**
   * For an identifier produced by the extractor, the embed URL carries it
   * as the whole path segment after "/embed/": the first `?` after the
   * prefix is the one that follows the identifier.
   */
  lemma EmbedUrlCarriesId(link: string, apiKey: string, encodedOrigin: string)
    ensures var id := ExtractVideoId(link);
      var url := EmbedUrl(id, apiKey, encodedOrigin);
      && OccursAt(url, 0, EmbedPrefix)
      && url[|EmbedPrefix|..|EmbedPrefix| + |id|] == id
      && url[|EmbedPrefix| + |id|] == '?'
      && forall k :: |EmbedPrefix| <= k < |EmbedPrefix| + |id| ==> url[k] != '?'
  {
    var id := ExtractVideoId(link);
    var url := EmbedUrl(id, apiKey, encodedOrigin);
    assert url[|EmbedPrefix| + |id|] == ("?" + PlayerParameters(apiKey, encodedOrigin))[0];
    forall k | |EmbedPrefix| <= k < |EmbedPrefix| + |id| ensures url[k] != '?' {
      assert url[k] == id[k - |EmbedPrefix|];
    }
  }

}
