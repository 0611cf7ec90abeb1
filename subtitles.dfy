/**
 * The subtitle display controller of the main screen: the fields of the
 * activity that hold the subtitle state, and the methods that change them.
 *
 * The translator is asynchronous. Handing it a text is recorded in
 * `translatorInput`; its answer is delivered later, in any order, through
 * `OnSubtitleTranslated` (the listeners of `translateAndDisplaySubtitle`) or
 * `OnLoadingTranslated` (the listeners of the "Loading video..." request).
 * Nothing ties an answer to the session that asked for it, as in the app.
 * Timer ticks and recognizer callbacks are methods the environment calls;
 * the random phrase index is supplied by the caller.
 */
module Subtitles {
  import opened Text
  import opened VideoId
  import opened PlayButton

  const MaxSubtitleLines: nat := 3
  const MaxRecognitionResults: nat := 10
  const TranslationErrorText := "Ошибка перевода"
  const LoadingVideoText := "Loading video..."
  const LoadingFallbackText := "Загрузка видео..."
  const NoVideoIdAtPlayMessage := "Could not extract video ID from link. Please check the format."

  /** The fallback phrases, used when speech recognition is unavailable or quiet. */
  const SampleEnglishPhrases: seq<string> := [
    "Welcome to this video",
    "Today we will discuss important topics",
    "Thank you for watching this content",
    "Don't forget to subscribe",
    "Let me show you how this works",
    "This is a demonstration of our app",
    "The main features include video playback",
    "We also provide real-time translation",
    "This technology can be very useful",
    "We hope you enjoy using our application"
  ]

  /** What the translator delivers to a listener. */
  datatype TranslationOutcome = Success(text: string) | Failure

  /** The newest `n` entries of `s`, oldest first. */
  function KeepLast<T>(s: seq<T>, n: nat): (r: seq<T>)
    ensures |r| == if |s| <= n then |s| else n
    ensures forall k :: 0 <= k < |r| ==> r[k] == s[|s| - |r| + k]
  {
    if |s| <= n then s else s[|s| - n..]
  }

  /**
   * Appending to a window of at most `n` entries and keeping the newest `n`:
   * the new entry is last, the others are the newest of the old entries in
   * their order, and a full window loses exactly its oldest entry.
   */
  lemma PushEvictsOldest<T>(window: seq<T>, x: T, n: nat)
    requires 1 <= n && |window| <= n
    ensures var r := KeepLast(window + [x], n);
      && |r| == (if |window| < n then |window| + 1 else n)
      && r[|r| - 1] == x
      && r[..|r| - 1] == window[|window| - (|r| - 1)..]
      && (|window| < n ==> r == window + [x])
      && (|window| == n ==> r == window[1..] + [x])
  {
  }

  class SubtitleController {
    /** The text of the subtitle view. */
    var displayText: string
    /** The last English text handed to translation, for the duplicate check. */
    var lastSubtitleText: string
    var subtitleDisplayActive: bool
    /** The newest translated lines, oldest first, at most `MaxSubtitleLines`. */
    var recentSubtitles: seq<string>
    var isRecognitionActive: bool
    /** The newest recognized texts, oldest first, at most `MaxRecognitionResults`. */
    var recognitionResults: seq<string>
    /** Every text handed to the translator so far, in order. */
    var translatorInput: seq<string>
    /** The error shown under the link input field, if any. */
    var linkError: Option<string>
    /** The URL last loaded into the web view, if any. */
    var webViewUrl: Option<string>

    ghost predicate Valid()
      reads this
    {
      |recentSubtitles| <= MaxSubtitleLines && |recognitionResults| <= MaxRecognitionResults
    }

    constructor ()
      ensures Valid()
      ensures displayText == "" && lastSubtitleText == "" && !subtitleDisplayActive
      ensures recentSubtitles == [] && !isRecognitionActive && recognitionResults == []
      ensures translatorInput == [] && linkError == None && webViewUrl == None
    {
      displayText := "";
      lastSubtitleText := "";
      subtitleDisplayActive := false;
      recentSubtitles := [];
      isRecognitionActive := false;
      recognitionResults := [];
      translatorInput := [];
      linkError := None;
      webViewUrl := None;
    }

    // -------------------------------------------------------------------
    // translateAndDisplaySubtitle

    /**
     * The request half of `translateAndDisplaySubtitle`: a text equal to the
     * last one while the display is active is dropped; any other text
     * becomes the last one, marks the display active and goes to the
     * translator. Returns whether a translation was requested.
     */
    method TranslateAndDisplaySubtitle(englishText: string) returns (requested: bool)
      modifies this`lastSubtitleText, this`subtitleDisplayActive, this`translatorInput
      ensures Submitted(englishText, requested)
      ensures !requested ==> unchanged(this)
    {
      if englishText == lastSubtitleText && subtitleDisplayActive {
        return false;
      }
      lastSubtitleText := englishText;
      subtitleDisplayActive := true;
      translatorInput := translatorInput + [englishText];
      requested := true;
    }

    /**
     * The duplicate rule of `translateAndDisplaySubtitle`, between the state
     * before and after a call with `text`: a translation is requested iff
     * the text is not the last text while the display is active; a request
     * records the text as the last one, marks the display active and hands
     * the text to the translator; a suppressed text leaves those three
     * fields as they were.
     */
    twostate predicate Submitted(text: string, requested: bool)
      reads this
    {
      && (requested <==> !(text == old(lastSubtitleText) && old(subtitleDisplayActive)))
      && (requested ==>
            && lastSubtitleText == text && subtitleDisplayActive
            && translatorInput == old(translatorInput) + [text])
      && (!requested ==>
            && lastSubtitleText == old(lastSubtitleText)
            && subtitleDisplayActive == old(subtitleDisplayActive)
            && translatorInput == old(translatorInput))
    }

    /**
     * The listeners of `translateAndDisplaySubtitle`. On success the line
     * is appended, the oldest lines are dropped until at most
     * `MaxSubtitleLines` remain, and the view shows the lines joined by
     * line breaks. On failure the view shows the error placeholder and the
     * lines are kept.
     */
    method OnSubtitleTranslated(outcome: TranslationOutcome)
      requires Valid()
      modifies this`recentSubtitles, this`displayText
      ensures Valid()
      ensures outcome.Success? ==>
        && recentSubtitles == KeepLast(old(recentSubtitles) + [outcome.text], MaxSubtitleLines)
        && displayText == Join(recentSubtitles, "\n")
      ensures outcome.Failure? ==>
        recentSubtitles == old(recentSubtitles) && displayText == TranslationErrorText
    {
      match outcome
      case Success(translated) =>
        var lines := recentSubtitles + [translated];
        ghost var appended := lines;
        while |lines| > MaxSubtitleLines
          invariant |lines| <= |appended|
          invariant lines == appended[|appended| - |lines|..]
          invariant MaxSubtitleLines <= |lines| || lines == appended
          decreases |lines|
        {
          lines := lines[1..];
        }
        recentSubtitles := lines;
        displayText := Join(recentSubtitles, "\n");
      case Failure =>
        displayText := TranslationErrorText;
    }

    // -------------------------------------------------------------------
    // Speech recognition state

    /** `stopSpeechRecognition`: recognition is off and its results are forgotten. */
    method StopSpeechRecognition()
      modifies this`isRecognitionActive, this`recognitionResults
      ensures !isRecognitionActive && recognitionResults == []
    {
      isRecognitionActive := false;
      recognitionResults := [];
    }

    /** `startSpeechRecognition`: without the audio permission nothing happens. */
    method StartSpeechRecognition(hasAudioPermission: bool)
      modifies this`isRecognitionActive
      ensures isRecognitionActive == (hasAudioPermission || old(isRecognitionActive))
    {
      if !hasAudioPermission {
        return;
      }
      isRecognitionActive := true;
    }

    /**
     * `onResults` with at least one match: the first match is recorded,
     * the oldest record is dropped beyond `MaxRecognitionResults`, and the
     * match is submitted for translation. With no match a fallback phrase
     * is submitted instead.
     */
    method OnRecognitionResults(matches: seq<string>, pick: nat) returns (requested: bool)
      requires Valid() && pick < |SampleEnglishPhrases|
      modifies this`recognitionResults, this`lastSubtitleText, this`subtitleDisplayActive, this`translatorInput
      ensures Valid()
      ensures matches != [] ==> recognitionResults == KeepLast(old(recognitionResults) + [matches[0]], MaxRecognitionResults)
      ensures matches == [] ==> recognitionResults == old(recognitionResults)
      ensures Submitted(if matches != [] then matches[0] else SampleEnglishPhrases[pick], requested)
    {
      if matches != [] {
        var recognizedText := matches[0];
        recognitionResults := recognitionResults + [recognizedText];
        if |recognitionResults| > MaxRecognitionResults {
          recognitionResults := recognitionResults[1..];
        }
        requested := TranslateAndDisplaySubtitle(recognizedText);
      } else {
        requested := TranslateAndDisplaySubtitle(SampleEnglishPhrases[pick]);
      }
    }

    /** `onPartialResults`: a partial match is submitted for translation but not recorded. */
    method OnPartialResults(matches: seq<string>) returns (requested: bool)
      modifies this`lastSubtitleText, this`subtitleDisplayActive, this`translatorInput
      ensures matches == [] ==> !requested && unchanged(this)
      ensures matches != [] ==> Submitted(matches[0], requested)
    {
      requested := false;
      if matches != [] {
        requested := TranslateAndDisplaySubtitle(matches[0]);
      }
    }

    /** `onError`: a fallback phrase is submitted for translation. */
    method OnRecognitionError(pick: nat) returns (requested: bool)
      requires pick < |SampleEnglishPhrases|
      modifies this`lastSubtitleText, this`subtitleDisplayActive, this`translatorInput
      ensures Submitted(SampleEnglishPhrases[pick], requested)
    {
      requested := TranslateAndDisplaySubtitle(SampleEnglishPhrases[pick]);
    }

    // -------------------------------------------------------------------
    // Timer ticks (one loop iteration each)

    /** The five-second check of recognition mode: a fallback phrase only while nothing was recognized. */
    method OnRecognitionQuietTick(pick: nat) returns (requested: bool)
      requires pick < |SampleEnglishPhrases|
      modifies this`lastSubtitleText, this`subtitleDisplayActive, this`translatorInput
      ensures recognitionResults != [] ==> !requested && unchanged(this)
      ensures recognitionResults == [] ==> Submitted(SampleEnglishPhrases[pick], requested)
    {
      requested := false;
      if recognitionResults == [] {
        requested := TranslateAndDisplaySubtitle(SampleEnglishPhrases[pick]);
      }
    }

    /** The four-second check: a fallback phrase when the view is empty or the display is inactive. */
    method OnDisplayCheckTick(pick: nat) returns (requested: bool)
      requires pick < |SampleEnglishPhrases|
      modifies this`lastSubtitleText, this`subtitleDisplayActive, this`translatorInput
      ensures displayText != "" && old(subtitleDisplayActive) ==> !requested && unchanged(this)
      ensures (displayText == "" || !old(subtitleDisplayActive)) ==> Submitted(SampleEnglishPhrases[pick], requested)
      ensures !old(subtitleDisplayActive) ==> requested
    {
      requested := false;
      if displayText == "" || !subtitleDisplayActive {
        requested := TranslateAndDisplaySubtitle(SampleEnglishPhrases[pick]);
      }
    }

    /** One step of sample mode: phrase `index` modulo the number of phrases (the loop starts at 1). */
    method OnSampleTick(index: nat) returns (requested: bool)
      modifies this`lastSubtitleText, this`subtitleDisplayActive, this`translatorInput
      ensures Submitted(SampleEnglishPhrases[index % |SampleEnglishPhrases|], requested)
    {
      requested := TranslateAndDisplaySubtitle(SampleEnglishPhrases[index % |SampleEnglishPhrases|]);
    }

    // -------------------------------------------------------------------
    // Starting and stopping

    /**
     * `startSubtitleGeneration`: the display is marked inactive so that the
     * first phrase is always submitted, even when it equals the last text;
     * with the audio permission, recognition starts. The lines on screen
     * are not cleared.
     */
    method StartSubtitleGeneration(hasAudioPermission: bool)
      requires Valid()
      modifies this`lastSubtitleText, this`subtitleDisplayActive, this`translatorInput, this`isRecognitionActive
      ensures Valid()
      ensures translatorInput == old(translatorInput) + [SampleEnglishPhrases[0]]
      ensures lastSubtitleText == SampleEnglishPhrases[0] && subtitleDisplayActive
      ensures isRecognitionActive == (hasAudioPermission || old(isRecognitionActive))
    {
      subtitleDisplayActive := false;
      var requested := TranslateAndDisplaySubtitle(SampleEnglishPhrases[0]);
      if hasAudioPermission {
        StartSpeechRecognition(hasAudioPermission);
      }
    }

    /**
     * `stopSubtitleGeneration`: recognition stops, the view is cleared and
     * the duplicate check and the lines are reset. Translations already
     * requested may still be delivered afterwards.
     */
    method StopSubtitleGeneration()
      requires Valid()
      modifies this`isRecognitionActive, this`recognitionResults, this`displayText,
        this`subtitleDisplayActive, this`lastSubtitleText, this`recentSubtitles
      ensures Valid()
      ensures !isRecognitionActive && recognitionResults == []
      ensures displayText == "" && !subtitleDisplayActive && lastSubtitleText == "" && recentSubtitles == []
    {
      StopSpeechRecognition();
      displayText := "";
      subtitleDisplayActive := false;
      lastSubtitleText := "";
      recentSubtitles := [];
    }

    // -------------------------------------------------------------------
    // Playing a link

    /** The listeners of the "Loading video..." translation. */
    method OnLoadingTranslated(outcome: TranslationOutcome)
      modifies this`displayText
      ensures displayText == if outcome.Success? then outcome.text else LoadingFallbackText
    {
      match outcome
      case Success(translated) =>
        displayText := translated;
      case Failure =>
        displayText := LoadingFallbackText;
    }

    /**
     * `playVideo`: with an empty identifier only an error is shown;
     * otherwise subtitles are stopped, the loading message is sent for
     * translation, subtitles start again and the embed URL is loaded.
     * `apiKey` is the key in use, `Settings.GetYouTubeApiKey` of the
     * stored preferences and the build's key; `encodedOrigin` is the
     * URI-encoded package name.
     */
    method PlayVideo(link: string, hasAudioPermission: bool, apiKey: string, encodedOrigin: string)
      returns (started: bool)
      requires Valid()
      modifies this
      ensures Valid()
      ensures started <==> ExtractVideoId(link) != []
      ensures !started ==> linkError == Some(NoVideoIdAtPlayMessage)
      ensures !started ==> unchanged(this`displayText, this`lastSubtitleText, this`subtitleDisplayActive,
        this`recentSubtitles, this`isRecognitionActive, this`recognitionResults, this`translatorInput, this`webViewUrl)
      ensures started ==> StartedState(link, hasAudioPermission, apiKey, encodedOrigin, old(translatorInput))
      ensures started ==> linkError == old(linkError)
    {
      var videoId := ExtractVideoId(link);
      if videoId == [] {
        linkError := Some(NoVideoIdAtPlayMessage);
        return false;
      }
      StopSubtitleGeneration();
      translatorInput := translatorInput + [LoadingVideoText];
      StartSubtitleGeneration(hasAudioPermission);
      webViewUrl := Some(EmbedUrl(videoId, apiKey, encodedOrigin));
      started := true;
    }

    /** The state right after `playVideo` started playing `link`. */
    ghost predicate StartedState(link: string, hasAudioPermission: bool, apiKey: string,
                                 encodedOrigin: string, previousInput: seq<string>)
      reads this
    {
      && webViewUrl == Some(EmbedUrl(ExtractVideoId(link), apiKey, encodedOrigin))
      && displayText == "" && recentSubtitles == []
      && lastSubtitleText == SampleEnglishPhrases[0] && subtitleDisplayActive
      && translatorInput == previousInput + [LoadingVideoText, SampleEnglishPhrases[0]]
      && isRecognitionActive == hasAudioPermission && recognitionResults == []
    }

    /**
     * The play button's click: the previous error is cleared; a rejected
     * link sets exactly one error and changes nothing else; an accepted
     * link is played.
     */
    method OnPlayButtonClicked(input: string, hasAudioPermission: bool, apiKey: string, encodedOrigin: string)
      requires Valid()
      modifies this
      ensures Valid()
      ensures OnPlayClicked(input).ShowError? ==>
        && linkError == Some(OnPlayClicked(input).message)
        && unchanged(this`displayText, this`lastSubtitleText, this`subtitleDisplayActive,
          this`recentSubtitles, this`isRecognitionActive, this`recognitionResults, this`translatorInput, this`webViewUrl)
      ensures OnPlayClicked(input).Play? ==>
        && linkError == None
        && StartedState(Trim(input), hasAudioPermission, apiKey, encodedOrigin, old(translatorInput))
    {
      linkError := None;
      match OnPlayClicked(input)
      case ShowError(message) =>
        linkError := Some(message);
      case Play(link) =>
        var started := PlayVideo(link, hasAudioPermission, apiKey, encodedOrigin);
    }
  }

  // ---------------------------------------------------------------------
  // Properties of sequences of events

  /**
   * After a successful translation, reading the view row by row gives back
   * the lines kept, and the newest row is the new translation, provided no
   * translation contains a line break.
   */
  lemma DisplayShowsNewestLines(lines: seq<string>, translated: string)
    requires |lines| <= MaxSubtitleLines
    requires forall k :: 0 <= k < |lines| ==> '\n' !in lines[k]
    requires '\n' !in translated
    ensures var kept := KeepLast(lines + [translated], MaxSubtitleLines);
      && Split(Join(kept, "\n"), '\n') == kept
      && Split(Join(kept, "\n"), '\n')[|kept| - 1] == translated
  {
    var kept := KeepLast(lines + [translated], MaxSubtitleLines);
    PushEvictsOldest(lines, translated, MaxSubtitleLines);
    forall k | 0 <= k < |kept|
      ensures '\n' !in kept[k]
    {
      assert kept[k] == (lines + [translated])[|lines| + 1 - |kept| + k];
    }
    SplitJoin(kept, '\n');
  }

  /** The same recognized line twice in a row is translated once. */
  method RepeatedLineTranslatedOnce(text: string) returns (first: bool, second: bool)
    ensures first && !second
  {
    var c := new SubtitleController();
    first := c.TranslateAndDisplaySubtitle(text);
    second := c.TranslateAndDisplaySubtitle(text);
  }

  /** Four translated lines leave the newest three on screen, one per row. */
  method NewestThreeLinesShown(a: string, b: string, c: string, d: string)
    returns (lines: seq<string>, shown: string)
    ensures lines == [b, c, d]
    ensures shown == b + "\n" + (c + "\n" + d)
  {
    var ctl := new SubtitleController();
    ctl.OnSubtitleTranslated(Success(a));
    ctl.OnSubtitleTranslated(Success(b));
    ctl.OnSubtitleTranslated(Success(c));
    ctl.OnSubtitleTranslated(Success(d));
    lines, shown := ctl.recentSubtitles, ctl.displayText;
    JoinThreeLines(b, c, d);
  }

  lemma JoinThreeLines(b: string, c: string, d: string)
    ensures Join([b, c, d], "\n") == b + "\n" + (c + "\n" + d)
  {
    assert [b, c, d][1..] == [c, d] && [c, d][1..] == [d];
    assert Join([d], "\n") == d;
    assert Join([c, d], "\n") == c + "\n" + d;
  }

  /** A failed translation shows the error text and keeps the lines already shown. */
  method FailureKeepsLines(a: string) returns (lines: seq<string>, shown: string)
    ensures lines == [a] && shown == TranslationErrorText
  {
    var ctl := new SubtitleController();
    ctl.OnSubtitleTranslated(Success(a));
    ctl.OnSubtitleTranslated(Failure);
    lines, shown := ctl.recentSubtitles, ctl.displayText;
  }

  /**
   * Restarting subtitles submits the first phrase again although it equals
   * the last text, because starting marks the display inactive.
   */
  method RestartResubmitsFirstPhrase() returns (sent: seq<string>)
    ensures sent == [SampleEnglishPhrases[0], SampleEnglishPhrases[0]]
  {
    var ctl := new SubtitleController();
    ctl.StartSubtitleGeneration(false);
    ctl.StartSubtitleGeneration(false);
    sent := ctl.translatorInput;
  }

  /**
   * A translation requested before subtitles were stopped and delivered
   * after is still shown: answers are not matched to the session that asked.
   */
  method LateTranslationStillShown(translated: string) returns (lines: seq<string>, shown: string)
    ensures lines == [translated] && shown == translated
  {
    var ctl := new SubtitleController();
    ctl.StartSubtitleGeneration(false);
    ctl.StopSubtitleGeneration();
    ctl.OnSubtitleTranslated(Success(translated));
    lines, shown := ctl.recentSubtitles, ctl.displayText;
  }

  /** Eleven recognized lines keep only the newest ten. */
  method RecognitionKeepsNewestTen(first: string, rest: seq<string>) returns (results: seq<string>)
    requires |rest| == MaxRecognitionResults
    ensures results == rest
  {
    var ctl := new SubtitleController();
    var requested := ctl.OnRecognitionResults([first], 0);
    var i := 0;
    while i < |rest| - 1
      invariant 0 <= i <= |rest| - 1
      invariant ctl.Valid()
      invariant ctl.recognitionResults == [first] + rest[..i]
      modifies ctl
    {
      requested := ctl.OnRecognitionResults([rest[i]], 0);
      assert rest[..i + 1] == rest[..i] + [rest[i]];
      i := i + 1;
    }
    requested := ctl.OnRecognitionResults([rest[i]], 0);
    assert rest == rest[..i] + [rest[i]];
    results := ctl.recognitionResults;
  }
}
