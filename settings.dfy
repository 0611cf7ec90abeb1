/**
 * The settings screen: the stored YouTube API key, its fallback to the key
 * compiled into the build, and the validation applied when a key is saved.
 * The app's private preferences file is a map from keys to strings; the
 * build-time key is a parameter.
 */
module Settings {
  import opened Text

  const ApiKeyPref := "youtube_api_key"
  /** The shortest key accepted, in UTF-16 code units. */
  const MinApiKeyLength: nat := 20

  /**
   * `getYouTubeApiKey`: the stored key when there is one and it is not
   * empty, otherwise the key compiled into the build.
   */
  function GetYouTubeApiKey(prefs: map<string, string>, buildConfigKey: string): (key: string)
    ensures ApiKeyPref in prefs && prefs[ApiKeyPref] != "" ==> key == prefs[ApiKeyPref]
    ensures key != buildConfigKey ==> ApiKeyPref in prefs && key == prefs[ApiKeyPref] && key != ""
  {
    if ApiKeyPref in prefs && prefs[ApiKeyPref] != "" then prefs[ApiKeyPref] else buildConfigKey
  }

  /** The two messages the key field can show. */
  datatype ApiKeyError = EmptyApiKey | InvalidApiKey

  datatype Validation = Rejected(error: ApiKeyError) | Accepted(key: string)

  /**
   * The checks of `saveApiKey`: the input is trimmed; nothing but
   * whitespace is an empty key; fewer than `MinApiKeyLength` UTF-16 code
   * units is an invalid key; anything else is accepted as the trimmed text.
   */
  function ValidateApiKey(input: string): (v: Validation)
    ensures v == Rejected(EmptyApiKey) <==> AllWhitespace(input)
    ensures v == Rejected(InvalidApiKey) <==> !AllWhitespace(input) && Utf16Length(Trim(input)) < MinApiKeyLength
    ensures v.Accepted? ==> v.key == Trim(input) && Utf16Length(v.key) >= MinApiKeyLength
    ensures v.Accepted? ==> !IsWhitespace(v.key[0]) && !IsWhitespace(v.key[|v.key| - 1])
  {
    var apiKey := Trim(input);
    if apiKey == [] then Rejected(EmptyApiKey)
    else if Utf16Length(apiKey) < MinApiKeyLength then Rejected(InvalidApiKey)
    else Accepted(apiKey)
  }

  /** An accepted key is accepted again unchanged: saving the loaded key stores the same key. */
  lemma AcceptedKeyIsStable(input: string)
    requires ValidateApiKey(input).Accepted?
    ensures ValidateApiKey(ValidateApiKey(input).key) == ValidateApiKey(input)
  {
    TrimIdempotent(input);
  }

  /** A trimmed key of fewer than ten characters is always too short, whatever its characters. */
  lemma ShortKeyIsInvalid(input: string)
    requires !AllWhitespace(input) && |Trim(input)| < MinApiKeyLength / 2
    ensures ValidateApiKey(input) == Rejected(InvalidApiKey)
  {
  }

  /** Once a key is stored, it is the key the app uses, whatever the build's key. */
  lemma StoredKeyIsUsed(prefs: map<string, string>, input: string, buildConfigKey: string)
    requires ValidateApiKey(input).Accepted?
    ensures GetYouTubeApiKey(prefs[ApiKeyPref := ValidateApiKey(input).key], buildConfigKey)
            == Trim(input)
  {
  }

  /** The settings screen: its key field, the error under it, and the preferences it writes. */
  class SettingsScreen {
    var prefs: map<string, string>
    /** The text of the key field. */
    var apiKeyInput: string
    var apiKeyError: Option<ApiKeyError>
    var finished: bool

    /** `onCreate`: the field starts with the key currently in use. */
    constructor (prefs: map<string, string>, buildConfigKey: string)
      ensures this.prefs == prefs
      ensures apiKeyInput == GetYouTubeApiKey(prefs, buildConfigKey)
      ensures apiKeyError == None && !finished
    {
      this.prefs := prefs;
      apiKeyInput := GetYouTubeApiKey(prefs, buildConfigKey);
      apiKeyError := None;
      finished := false;
    }

    /** The field's text watcher: editing clears the error. */
    method OnTextChanged(text: string)
      modifies this`apiKeyInput, this`apiKeyError
      ensures apiKeyInput == text && apiKeyError == None
    {
      apiKeyInput := text;
      apiKeyError := None;
    }

    /**
     * `saveApiKey`: a rejected key shows its error and changes nothing
     * else; an accepted key is stored under `ApiKeyPref`, replacing any
     * previous value and no other entry, and the screen closes.
     */
    method SaveApiKey()
      modifies this`prefs, this`apiKeyError, this`finished
      ensures ValidateApiKey(apiKeyInput).Rejected? ==>
        && apiKeyError == Some(ValidateApiKey(apiKeyInput).error)
        && prefs == old(prefs) && finished == old(finished)
      ensures ValidateApiKey(apiKeyInput).Accepted? ==>
        && prefs == old(prefs)[ApiKeyPref := Trim(apiKeyInput)]
        && finished && apiKeyError == old(apiKeyError)
    {
      var apiKey := Trim(apiKeyInput);
      if apiKey == [] {
        apiKeyError := Some(EmptyApiKey);
        return;
      }
      if Utf16Length(apiKey) < MinApiKeyLength {
        apiKeyError := Some(InvalidApiKey);
        return;
      }
      prefs := prefs[ApiKeyPref := apiKey];
      finished := true;
    }

    /** The action bar's up button closes the screen. */
    method OnUpPressed()
      modifies this`finished
      ensures finished
    {
      finished := true;
    }
  }

  /**
   * Typing a valid key, saving it and opening the screen again shows the
   * trimmed key, and saving that again stores the same key.
   */
  method SaveThenReopen(prefs: map<string, string>, typed: string, buildConfigKey: string)
    returns (shown: string, storedAgain: string)
    requires ValidateApiKey(typed).Accepted?
    ensures shown == Trim(typed) && storedAgain == Trim(typed)
  {
    var screen := new SettingsScreen(prefs, buildConfigKey);
    screen.OnTextChanged(typed);
    screen.SaveApiKey();
    var reopened := new SettingsScreen(screen.prefs, buildConfigKey);
    shown := reopened.apiKeyInput;
    AcceptedKeyIsStable(typed);
    reopened.SaveApiKey();
    storedAgain := reopened.prefs[ApiKeyPref];
  }

  /** A rejected key leaves the stored key, and so the key in use, as it was. */
  method RejectedKeyKeepsKeyInUse(prefs: map<string, string>, typed: string, buildConfigKey: string)
    returns (before: string, after: string, error: Option<ApiKeyError>)
    requires ValidateApiKey(typed).Rejected?
    ensures after == before && error == Some(ValidateApiKey(typed).error)
  {
    var screen := new SettingsScreen(prefs, buildConfigKey);
    before := GetYouTubeApiKey(screen.prefs, buildConfigKey);
    screen.OnTextChanged(typed);
    screen.SaveApiKey();
    after := GetYouTubeApiKey(screen.prefs, buildConfigKey);
    error := screen.apiKeyError;
  }
}
