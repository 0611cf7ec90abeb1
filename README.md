# YouTube Translator: link handling, subtitle controller and API-key settings

This project models three parts of the YouTube Translator Android app. They are
the parts of its two activities that hold logic rather than platform wiring.

- **Video links** (`text.dfy`, `video_id.dfy`, `play_button.dfy`). The play
  button trims the typed link and rejects it when it is empty, names neither
  `youtube.com` nor `youtu.be`, or yields no video identifier. `extractVideoId`
  tries three regular expressions in a fixed order. Each one is written out as a
  "matches at position p" predicate, a leftmost search (Java's `find`) and a
  greedy run scanner. The extractor's two quirks are reproduced and proved: the
  unescaped dot in the fallback `youtu.be` marker, and the invisible U+200C
  U+200B inside the fallback `embed%…2F` marker. `playVideo` loads an embed URL
  that carries the identifier.
- **Subtitle controller** (`subtitles.dfy`). The class `SubtitleController`
  holds the activity's subtitle fields. Its methods change them as the app does:
  duplicate suppression and the translation request, the success and failure
  listeners with the three-line rolling window, recognition results capped at
  ten, starting and stopping subtitles, the timer ticks and the play button.
  Each method's frame names only the fields it writes. The translator is
  asynchronous, so a request is recorded in `translatorInput` and its answer
  arrives later through a separate method. Nothing matches an answer to the
  session that asked for it, just as in the app.
- **Settings** (`settings.dfy`). The key in use is the stored key when it is
  present and non-empty, and otherwise the key compiled into the build. Saving
  trims the input. Saving rejects a blank key and a key shorter than 20 UTF-16
  code units. Saving stores an accepted key and closes the screen.

Kotlin's `trim()`, `contains`, `length` and `joinToString` live in `text.dfy`.
`trim()` uses the JVM's whitespace set. `length` counts UTF-16 code units.
A line splitter serves as the partner of `joinToString`.

## Model

| member | source | states |
|---|---|---|
| Text.Trim | app/src/main/java/com/example/youtubetranslator/MainActivity.kt:195 | `trim()` keeps a slice whose cut-off ends are whitespace; the result neither starts nor ends with whitespace; it is empty exactly when the input is all whitespace |
| Text.TrimIdempotent | app/src/main/java/com/example/youtubetranslator/SettingsActivity.kt:80 | trimming a trimmed string changes nothing |
| Text.Utf16Length | app/src/main/java/com/example/youtubetranslator/SettingsActivity.kt:88 | `length` counts between one and two code units per character |
| Text.Contains | app/src/main/java/com/example/youtubetranslator/MainActivity.kt:204 | `contains`: some occurrence of the text starts in the string; the empty text is in every string, and a contained text is no longer than the string |
| Text.Join | app/src/main/java/com/example/youtubetranslator/MainActivity.kt:467 | `joinToString`: nothing for no items; with items, the result starts with the first item and ends with the last |
| Text.SplitJoin | app/src/main/java/com/example/youtubetranslator/MainActivity.kt:467 | lines joined with a separator they do not contain split back into the same lines |
| VideoId.ShortLinkAt | app/src/main/java/com/example/youtubetranslator/MainActivity.kt:402 | pattern 1 matches at p: the literal `youtu.be/` followed by at least one character other than `?&#` |
| VideoId.WatchParamAt | app/src/main/java/com/example/youtubetranslator/MainActivity.kt:416 | pattern 2 matches at p: `?` or `&`, then `v=`, then at least one character other than `?&#` |
| VideoId.FallbackAt | app/src/main/java/com/example/youtubetranslator/MainActivity.kt:429 | pattern 3 matches at p: one of the twelve look-behind alternatives (`FallbackMarkers`, with the unescaped dot as a wildcard) ends at p |
| VideoId.FindLeftmost | app/src/main/java/com/example/youtubetranslator/MainActivity.kt:403 | `find` returns a position where the pattern matches, and the pattern matches nowhere before it; None means it matches nowhere |
| VideoId.RunEnd | app/src/main/java/com/example/youtubetranslator/MainActivity.kt:402 | the greedy group ends at the first stopping character or at the end of the URL |
| VideoId.Find | app/src/main/java/com/example/youtubetranslator/MainActivity.kt:402-404 | a pattern captures iff it matches somewhere; the capture sits at the leftmost match, is a maximal run free of the stopping characters, and is non-empty for the short-link and `v=` patterns |
| VideoId.Extract | app/src/main/java/com/example/youtubetranslator/MainActivity.kt:399-439 | the result is the capture of one of the three patterns; a short-link capture needs `youtu.be` in the URL and a `v=` capture needs `youtube.com`; no result means the fallback pattern matches nowhere |
| VideoId.ExtractVideoId | app/src/main/java/com/example/youtubetranslator/MainActivity.kt:396-440 | the identifier occurs in the URL, holds no `?`, `&` or `#`, and is empty only when the fallback pattern produced it or nothing matched |
| VideoId.ShortLinkWins | app/src/main/java/com/example/youtubetranslator/MainActivity.kt:400-410 | whenever the `youtu.be/` pattern matches anywhere, its capture is the result, even if a `v=` parameter is present too |
| VideoId.WatchParamWins | app/src/main/java/com/example/youtubetranslator/MainActivity.kt:414-424 | with no short-link match, a `youtube.com` URL with `?v=` or `&v=` followed by an identifier character gets the `v=` capture |
| VideoId.FallbackOtherwise | app/src/main/java/com/example/youtubetranslator/MainActivity.kt:427-439 | with no short-link match, and with no `youtube.com` or no `v=` match, the fallback capture is the result |
| VideoId.FindIs | app/src/main/java/com/example/youtubetranslator/MainActivity.kt:402-405 | the leftmost match position and the end of the following run determine the capture |
| VideoId.FallbackMarkerLastChar | app/src/main/java/com/example/youtubetranslator/MainActivity.kt:429 | a look-behind marker ends just before the run, with one of `=`, `/`, `D`, `F` |
| VideoId.NoFallbackWithoutMarkerEnd | app/src/main/java/com/example/youtubetranslator/MainActivity.kt:428-439 | a URL without `=`, `/`, `D` or `F` gets nothing from the fallback pattern |
| VideoId.ShortLinkExample | app/src/main/java/com/example/youtubetranslator/MainActivity.kt:400-407 | `https://youtu.be/dQw4w9WgXcQ?t=30` yields `dQw4w9WgXcQ` |
| VideoId.NoShortLinkWithoutDotB | app/src/main/java/com/example/youtubetranslator/MainActivity.kt:402 | without a `.` followed by `b`, the short-link pattern matches nowhere |
| VideoId.WatchParamExample | app/src/main/java/com/example/youtubetranslator/MainActivity.kt:414-421 | `https://www.youtube.com/watch?v=dQw4w9WgXcQ&list=X` yields `dQw4w9WgXcQ` |
| VideoId.NotALinkExample | app/src/main/java/com/example/youtubetranslator/MainActivity.kt:428-439 | `not a link` names neither domain and yields the empty identifier |
| VideoId.NoYMeansFallback | app/src/main/java/com/example/youtubetranslator/MainActivity.kt:399-428 | a URL without `y` contains neither domain and uses the fallback pattern |
| VideoId.NoMarkerAfterSlash | app/src/main/java/com/example/youtubetranslator/MainActivity.kt:429 | no look-behind alternative ends after a `/` whose preceding character is not `s`, `d`, `e` or `v` |
| VideoId.ForeignWatchUrlExample | app/src/main/java/com/example/youtubetranslator/MainActivity.kt:414-435 | `https://example.org/watch?v=abc` has a `v=` match but no `youtube.com`, so the fallback marker `watch?v=` yields `abc` |
| VideoId.NoDotMeansFallback | app/src/main/java/com/example/youtubetranslator/MainActivity.kt:399-428 | a URL without a dot skips both domain branches and uses the fallback pattern |
| VideoId.UnescapedDotExample | app/src/main/java/com/example/youtubetranslator/MainActivity.kt:429 | the fallback `youtu.be` marker's dot is a wildcard: `youtu-be/abc` yields `abc` |
| VideoId.InvisibleMarkerExample | app/src/main/java/com/example/youtubetranslator/MainActivity.kt:429 | `embed%` + U+200C U+200B + `2Fabc` yields `abc` |
| VideoId.EncodedEmbedQuirk | app/src/main/java/com/example/youtubetranslator/MainActivity.kt:429 | the plain encoded form `embed%2Fabc` yields the empty identifier |
| PlayButton.OnPlayClicked | app/src/main/java/com/example/youtubetranslator/MainActivity.kt:193-219 | the click shows an error iff the trimmed link is empty, names neither domain, or has an empty identifier; an empty link gets the empty-link message, a link naming neither domain the domain message, and a link without identifier the identifier message; otherwise the trimmed link is played |
| PlayButton.PlayedLinkIsValid | app/src/main/java/com/example/youtubetranslator/MainActivity.kt:193-219 | a played link is non-empty, has no surrounding whitespace and names a domain; its identifier is non-empty, has no `?&#` and occurs in what the user typed |
| PlayButton.BlankInputIsRejected | app/src/main/java/com/example/youtubetranslator/MainActivity.kt:199-203 | blank input gets the empty-link message |
| PlayButton.ShortLinkIsPlayed | app/src/main/java/com/example/youtubetranslator/MainActivity.kt:204-218 | a link with a short-link match is always played |
| PlayButton.WatchLinkIsPlayed | app/src/main/java/com/example/youtubetranslator/MainActivity.kt:204-218 | a `youtube.com` link with a `v=` identifier is always played |
| PlayButton.NotALinkIsRejected | app/src/main/java/com/example/youtubetranslator/MainActivity.kt:204-207 | `not a link` gets the domain message |
| PlayButton.EmbedUrl | app/src/main/java/com/example/youtubetranslator/MainActivity.kt:374-388 | the embed URL is `https://www.youtube.com/embed/`, the identifier, then `?` and the fixed player parameters with the key and the origin |
| PlayButton.EmbedUrlCarriesId | app/src/main/java/com/example/youtubetranslator/MainActivity.kt:374-391 | the embed URL starts with `https://www.youtube.com/embed/`, then the identifier, then the first `?` |
| Subtitles.KeepLast | app/src/main/java/com/example/youtubetranslator/MainActivity.kt:461-464 | the window holds min(size, n) entries, the newest ones, in order |
| Subtitles.PushEvictsOldest | app/src/main/java/com/example/youtubetranslator/MainActivity.kt:458-464 | after appending to a window of at most n: the new entry is last, the others are the old window's newest entries in order, and a full window loses exactly its oldest entry |
| Subtitles.SubtitleController.constructor | app/src/main/java/com/example/youtubetranslator/MainActivity.kt:69-73 | initial state: no text, display inactive, empty lists, recognition off |
| Subtitles.SubtitleController.TranslateAndDisplaySubtitle | app/src/main/java/com/example/youtubetranslator/MainActivity.kt:444-456 | the duplicate rule (`Submitted`): a request is made iff the text is not the last text while the display is active; a request records the text, activates the display and sends the text; a suppressed text changes nothing |
| Subtitles.SubtitleController.OnSubtitleTranslated | app/src/main/java/com/example/youtubetranslator/MainActivity.kt:457-481 | success: the lines become the newest three of old lines + new, and the view shows them joined by line breaks; failure: the view shows `Ошибка перевода` and the lines are kept; nothing else changes |
| Subtitles.SubtitleController.StopSpeechRecognition | app/src/main/java/com/example/youtubetranslator/MainActivity.kt:757-765 | recognition is off and its results are empty |
| Subtitles.SubtitleController.StartSpeechRecognition | app/src/main/java/com/example/youtubetranslator/MainActivity.kt:725-736 | recognition turns on only with the audio permission |
| Subtitles.SubtitleController.OnRecognitionResults | app/src/main/java/com/example/youtubetranslator/MainActivity.kt:658-679 | the first match is recorded in a window of the newest ten and submitted; no match submits the picked fallback phrase; either text goes through the duplicate rule, which fixes the new last text, active flag and translator input |
| Subtitles.SubtitleController.OnPartialResults | app/src/main/java/com/example/youtubetranslator/MainActivity.kt:686-695 | the first partial match goes through the duplicate rule and is not recorded; no match changes nothing |
| Subtitles.SubtitleController.OnRecognitionError | app/src/main/java/com/example/youtubetranslator/MainActivity.kt:633-650 | the picked fallback phrase goes through the duplicate rule |
| Subtitles.SubtitleController.OnRecognitionQuietTick | app/src/main/java/com/example/youtubetranslator/MainActivity.kt:744-753 | with a recorded result nothing changes; with none, the picked phrase goes through the duplicate rule |
| Subtitles.SubtitleController.OnDisplayCheckTick | app/src/main/java/com/example/youtubetranslator/MainActivity.kt:785-793 | with a non-empty view and an active display nothing changes; otherwise the picked phrase goes through the duplicate rule, and an inactive display always gets it |
| Subtitles.SubtitleController.OnSampleTick | app/src/main/java/com/example/youtubetranslator/MainActivity.kt:802-810 | phrase `index mod 10` goes through the duplicate rule |
| Subtitles.SubtitleController.StartSubtitleGeneration | app/src/main/java/com/example/youtubetranslator/MainActivity.kt:768-813 | phrase 0 is always sent, even if it equals the last text; recognition starts with the permission; the lines on screen are kept |
| Subtitles.SubtitleController.StopSubtitleGeneration | app/src/main/java/com/example/youtubetranslator/MainActivity.kt:815-835 | recognition off, no results, empty view, display inactive, no last text, no lines; requests already sent stay sent |
| Subtitles.SubtitleController.OnLoadingTranslated | app/src/main/java/com/example/youtubetranslator/MainActivity.kt:240-246 | the view shows the translated loading message, or `Загрузка видео...` on failure |
| Subtitles.SubtitleController.PlayVideo | app/src/main/java/com/example/youtubetranslator/MainActivity.kt:222-252 | an empty identifier sets the error and leaves every other field unchanged; otherwise the state is as after stop and start, the loading message then phrase 0 go to the translator, and the web view gets the embed URL of the identifier |
| Subtitles.SubtitleController.OnPlayButtonClicked | app/src/main/java/com/example/youtubetranslator/MainActivity.kt:193-219 | a rejected link sets exactly its error and leaves every other field unchanged; an accepted link clears the error and starts playing the trimmed link |
| Subtitles.DisplayShowsNewestLines | app/src/main/java/com/example/youtubetranslator/MainActivity.kt:457-468 | after a success the view, read row by row, is the kept lines, and its last row is the new translation |
| Subtitles.RepeatedLineTranslatedOnce | app/src/main/java/com/example/youtubetranslator/MainActivity.kt:444-452 | the same text twice in a row yields one request |
| Subtitles.NewestThreeLinesShown | app/src/main/java/com/example/youtubetranslator/MainActivity.kt:457-468 | four successes leave the last three lines, shown one per row |
| Subtitles.FailureKeepsLines | app/src/main/java/com/example/youtubetranslator/MainActivity.kt:477-481 | a failure after a success shows the error text and keeps the line |
| Subtitles.RestartResubmitsFirstPhrase | app/src/main/java/com/example/youtubetranslator/MainActivity.kt:768-777 | starting twice sends phrase 0 twice |
| Subtitles.LateTranslationStillShown | app/src/main/java/com/example/youtubetranslator/MainActivity.kt:457-468 | a translation delivered after stop is still appended and shown |
| Subtitles.RecognitionKeepsNewestTen | app/src/main/java/com/example/youtubetranslator/MainActivity.kt:665-670 | after eleven recognized lines only the newest ten remain |
| Settings.GetYouTubeApiKey | app/src/main/java/com/example/youtubetranslator/SettingsActivity.kt:29-39 | the stored key when present and non-empty; otherwise the build's key |
| Settings.ValidateApiKey | app/src/main/java/com/example/youtubetranslator/SettingsActivity.kt:79-91 | a blank input is an empty key; a trimmed key under 20 UTF-16 units is invalid; otherwise the trimmed key is accepted, and it has no surrounding whitespace |
| Settings.AcceptedKeyIsStable | app/src/main/java/com/example/youtubetranslator/SettingsActivity.kt:80-94 | validating an accepted key again accepts the same key |
| Settings.ShortKeyIsInvalid | app/src/main/java/com/example/youtubetranslator/SettingsActivity.kt:88-91 | a non-blank key of fewer than ten characters is always invalid |
| Settings.StoredKeyIsUsed | app/src/main/java/com/example/youtubetranslator/SettingsActivity.kt:29-38 | after an accepted key is stored, the key in use is the trimmed input |
| Settings.SettingsScreen.constructor | app/src/main/java/com/example/youtubetranslator/SettingsActivity.kt:56-60 | the field starts with the key in use; no error; not finished |
| Settings.SettingsScreen.OnTextChanged | app/src/main/java/com/example/youtubetranslator/SettingsActivity.kt:63-71 | editing clears the error |
| Settings.SettingsScreen.SaveApiKey | app/src/main/java/com/example/youtubetranslator/SettingsActivity.kt:79-108 | a rejected key sets its error and leaves the store and the screen alone; an accepted key replaces only `youtube_api_key`, with the trimmed text, and finishes the screen |
| Settings.SettingsScreen.OnUpPressed | app/src/main/java/com/example/youtubetranslator/SettingsActivity.kt:116-121 | the up button finishes the screen |
| Settings.SaveThenReopen | app/src/main/java/com/example/youtubetranslator/SettingsActivity.kt:79-107 | after saving a valid key, the reopened screen shows the trimmed key, and saving again stores the same key |
| Settings.RejectedKeyKeepsKeyInUse | app/src/main/java/com/example/youtubetranslator/SettingsActivity.kt:83-91 | a rejected key leaves the key in use unchanged and shows its error |

## Left out

- Web view and player setup, JavaScript injection, the playback monitor and `onPageFinished` are browser plumbing. The model keeps only the URL loaded into the web view. `Uri.encode` of the package name is a foreign call, so the encoded origin is a parameter of `PlayButton.EmbedUrl`.
- Subtitles.SubtitleController.PlayVideo: the key is not read from the preferences here. Callers pass `Settings.GetYouTubeApiKey` of the stored preferences and the build's key as `apiKey`, as the source computes it.
- Subtitles.SubtitleController.PlayVideo: the `youtubeVideoPlaying` flag is not modelled, because `onPageFinished` sets it. Neither is the replacement of the web view, beyond the URL it loads.
- ML Kit translation and the model download are not modelled. The translator is a log of requested texts plus the two result methods, each taking `Success(text)` or `Failure`. Answers may arrive in any order and at any time.
- Speech recognizer lifecycle, intent extras, `startListening` and its exception path, and the error-code table are platform calls. Subtitles.SubtitleController.OnRecognitionResults and Subtitles.SubtitleController.OnRecognitionError do not model restarting the listener.
- Coroutine timers and delays are not modelled, including the no-op three-second delay after a success. Each loop iteration is a tick method the environment calls. The loop conditions (`isActive`, `youtubeVideoPlaying`, `isRecognitionActive`) and the cancelling of jobs are left to the caller.
- Subtitles.SubtitleController.StartSubtitleGeneration: starting the timer jobs is represented only by the tick methods.
- `(0..9).random()` is not modelled. The caller supplies an index below 10. The sample-mode counter, starting at 1, is the caller's argument to `OnSampleTick`.
- The runtime permission check is a boolean parameter. Permission dialogs, toasts, logging, keyboard and focus handling, menus, and `onPause`/`onResume`/`onDestroy` are Android UI and lifecycle code.
- `SharedPreferences` is an in-memory `map<string, string>`. Writes are immediate, and non-string values under the key are not represented. The build-time `BuildConfig.YOUTUBE_API_KEY` is a parameter.
- Text.Utf16Length: Dafny characters are Unicode scalar values, so a Kotlin string holding an unpaired surrogate cannot be represented.
- `server.js` is a static-file HTTP server and is not part of this model.
