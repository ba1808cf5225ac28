/** The bot's settings, read once at start-up. */
module Config {
  import opened Strings

  /** `GROQ_API_KEYS` holds either the raw comma-separated text of the
      environment variable or an already parsed list. */
  datatype KeysValue = KeysText(text: string) | KeysList(keys: seq<string>)

  datatype Settings = Settings(
    telegramBotToken: string,
    groqApiKeys: KeysValue,
    supabaseUrl: string,
    supabaseKey: string,
    adminIds: seq<int>,
    defaultUserLevel: string)

  const DEFAULT_USER_LEVEL := "intermediate"

  /** The settings with every field that has a default left at it; the
      three fields without a default must be supplied. */
  function DefaultSettings(telegramBotToken: string, supabaseUrl: string, supabaseKey: string): (s: Settings)
    ensures s.groqApiKeys == KeysList([]) && s.adminIds == [] && s.defaultUserLevel == DEFAULT_USER_LEVEL
    ensures s.telegramBotToken == telegramBotToken && s.supabaseUrl == supabaseUrl && s.supabaseKey == supabaseKey
  {
    Settings(telegramBotToken, KeysList([]), supabaseUrl, supabaseKey, [], DEFAULT_USER_LEVEL)
  }

  /** `Settings.groq_api_keys_list`: text is split on commas, each piece
      stripped and blank pieces dropped; a list is passed through as it is. */
  function GroqApiKeysList(settings: Settings): (r: seq<string>)
    ensures settings.groqApiKeys.KeysList? ==> r == settings.groqApiKeys.keys
    ensures settings.groqApiKeys.KeysText? ==>
      forall i :: 0 <= i < |r| ==> r[i] != [] && IsStripped(r[i])
  {
    match settings.groqApiKeys
    case KeysText(text) => NonBlankStripped(Split(text, ','))
    case KeysList(keys) => keys
  }

  /** Text settings: the keys are the stripped pieces between the commas,
      none of them blank, all of them kept, in their order, at most one per
      comma plus one. */
  lemma KeysFromText(settings: Settings)
    requires settings.groqApiKeys.KeysText?
    ensures var pieces := Split(settings.groqApiKeys.text, ',');
      && var r := GroqApiKeysList(settings);
      && |r| == NonEmptyCount(StripAll(pieces)) <= Occurrences(settings.groqApiKeys.text, ',') + 1
      && IsSubsequence(r, StripAll(pieces))
      && (forall i :: 0 <= i < |pieces| && Strip(pieces[i]) != [] ==> Strip(pieces[i]) in r)
  {
    var pieces := Split(settings.groqApiKeys.text, ',');
    NonBlankStrippedLength(pieces);
    NonBlankStrippedKeepsOrder(pieces);
    NonBlankStrippedKeepsAll(pieces);
  }

  /** Text settings give no key exactly when every piece is blank. */
  lemma BlankKeysText(settings: Settings)
    requires settings.groqApiKeys.KeysText?
    ensures GroqApiKeysList(settings) == [] <==>
      forall i :: 0 <= i < |Split(settings.groqApiKeys.text, ',')| ==> AllSpace(Split(settings.groqApiKeys.text, ',')[i])
  {
    var text := settings.groqApiKeys.text;
    assert GroqApiKeysList(settings) == NonBlankStripped(Split(text, ','));
    NonBlankStrippedEmpty(Split(text, ','));
  }

  /** `""` and `" , ,"` give no key. */
  lemma NoKeysFromBlankText(settings: Settings)
    requires settings.groqApiKeys == KeysText("") || settings.groqApiKeys == KeysText(" , ,")
    ensures GroqApiKeysList(settings) == []
  {
    var pieces := Split(settings.groqApiKeys.text, ',');
    if settings.groqApiKeys == KeysText(" , ,") {
      SplitBlankCommas();
      assert AllSpace(pieces[0]) && AllSpace(pieces[1]) && AllSpace(pieces[2]);
    }
    BlankKeysText(settings);
  }

  lemma SplitBlankCommas()
    ensures Split(" , ,", ',') == [" ", " ", ""]
  {
    assert Split(",", ',') == ["", ""];
    var s := " ,";
    assert s[0] == ' ' && s[1..] == ",";
    var rest := Split(s[1..], ',');
    assert rest[1..] == [""];
    assert [s[0]] + rest[0] == " ";
    assert Split(s, ',') == [[s[0]] + rest[0]] + rest[1..];
    assert ", ,"[1..] == s;
    assert Split(", ,", ',') == ["", " ", ""];
    var t := " , ,";
    assert t[0] == ' ' && t[1..] == ", ,";
    rest := Split(t[1..], ',');
    assert rest[1..] == [" ", ""];
    assert [t[0]] + rest[0] == " ";
    assert Split(t, ',') == [[t[0]] + rest[0]] + rest[1..];
  }

  /** The defaults: no Groq key, no admin, level "intermediate". */
  lemma DefaultsAreEmpty(telegramBotToken: string, supabaseUrl: string, supabaseKey: string)
    ensures var s := DefaultSettings(telegramBotToken, supabaseUrl, supabaseKey);
      && GroqApiKeysList(s) == []
      && s.adminIds == []
      && s.defaultUserLevel == "intermediate"
  {
  }
}
