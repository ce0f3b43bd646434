/** The phrasebook page: its form schema, language list, translation pairing and
    the locale chosen for speech. */
module PhrasebookPage {
  import opened Outcomes
  import Text
  import ResultSlot

  /** The eight entries of the language select, in display order; each entry's
      code and name are the same string. */
  const Languages: seq<string> :=
    ["Spanish", "French", "German", "Italian", "Japanese", "Mandarin Chinese", "Korean", "Arabic"]

  /** The form's values; the target language is undefined until one is selected. */
  datatype PhraseForm = PhraseForm(phrase: string, targetLanguage: Option<string>)

  /** The form's `defaultValues`: only the phrase is given. */
  const DefaultForm: PhraseForm := PhraseForm("", None)

  datatype Field = PhraseField | TargetLanguageField

  datatype TranslateRequest = TranslateRequest(phrase: string, targetLanguage: string)

  /** The pairing shown in the result card. */
  datatype Translation = Translation(original: string, translated: string, language: string)

  /** The form schema: a phrase of at least one character and any target language
      string at all; only the select list restricts it to the eight languages. */
  function Validate(f: PhraseForm): (r: Result<TranslateRequest, seq<Field>>)
    ensures r.Ok? <==> |f.phrase| >= 1 && f.targetLanguage.Some?
    ensures r.Ok? ==> r.value.phrase == f.phrase && Some(r.value.targetLanguage) == f.targetLanguage
    ensures r.Err? ==> (PhraseField in r.error <==> |f.phrase| < 1)
    ensures r.Err? ==> (TargetLanguageField in r.error <==> f.targetLanguage.None?)
  {
    var issues := (if |f.phrase| >= 1 then [] else [PhraseField])
                  + (if f.targetLanguage.Some? then [] else [TargetLanguageField]);
    if issues == [] then Ok(TranslateRequest(f.phrase, f.targetLanguage.value)) else Err(issues)
  }

  /** The untouched form is rejected on both fields: the phrase is empty and no
      language is selected. */
  lemma DefaultFormRejected()
    ensures Validate(DefaultForm) == Err([PhraseField, TargetLanguageField])
  {
    assert [PhraseField] + [TargetLanguageField] == [PhraseField, TargetLanguageField];
  }

  /** A language outside the list still passes the schema. */
  lemma UnlistedLanguageAccepted()
    ensures "Klingon" !in Languages
    ensures Validate(PhraseForm("Hello", Some("Klingon"))).Ok?
  {
  }

  /** The page's state: the `translation` slot, `isLoading` and the request in flight. */
  type PageState = ResultSlot.Slot<TranslateRequest, Translation>

  /** The translate button: disabled while loading, and `onSubmit` runs only for a
      valid form, raising the flag, clearing the translation and sending the request. */
  function Press(s: PageState, f: PhraseForm): (r: PageState)
    ensures s.isLoading || !(|f.phrase| >= 1 && f.targetLanguage.Some?) ==> r == s
    ensures !s.isLoading && |f.phrase| >= 1 && f.targetLanguage.Some? ==>
      && r.isLoading && r.result.None?
      && r.inFlight == Some(TranslateRequest(f.phrase, f.targetLanguage.value))
  {
    ResultSlot.Press(s, match Validate(f)
                        case Ok(req) => Some(req)
                        case Err(_) => None)
  }

  /** The call settles: on success the translation pairs the submitted phrase and
      language with the model's text; on failure the slot is left as it is; the
      flag goes down either way. */
  function Settle(s: PageState, outcome: Outcome<string>): (r: PageState)
    ensures s.inFlight.None? ==> r == s
    ensures s.inFlight.Some? ==> !r.isLoading && r.inFlight.None?
    ensures s.inFlight.Some? && outcome.Success? ==>
      r.result == Some(Translation(s.inFlight.value.phrase, outcome.result,
                                   s.inFlight.value.targetLanguage))
    ensures s.inFlight.Some? && outcome.Failure? ==> r.result == s.result
  {
    match s.inFlight
    case None => s
    case Some(req) =>
      ResultSlot.Settle(s, match outcome
                           case Success(text) => Success(Translation(req.phrase, text, req.targetLanguage))
                           case Failure => Failure)
  }

  /** A whole submission of a valid form from an idle page: on success the result
      shows the phrase exactly as submitted beside the model's text and the chosen
      language; on failure there is no translation; the flag is down. */
  lemma SubmitTranslation(s: PageState, f: PhraseForm, outcome: Outcome<string>)
    requires ResultSlot.Consistent(s) && !s.isLoading
    requires |f.phrase| >= 1 && f.targetLanguage.Some?
    ensures var r := Settle(Press(s, f), outcome);
      && !r.isLoading
      && (outcome.Success? ==>
            r.result == Some(Translation(f.phrase, outcome.result, f.targetLanguage.value)))
      && (outcome.Failure? ==> r.result.None?)
  {
  }

  /** `langMap` in `handleSpeak`, keyed by lower-case language name. */
  const LocaleMap: map<string, string> :=
    map["spanish" := "es", "french" := "fr", "german" := "de", "italian" := "it",
        "japanese" := "ja", "mandarin chinese" := "zh-CN", "korean" := "ko", "arabic" := "ar"]

  const DefaultLocale: string := "en-US"

  /** `langMap[lang.toLowerCase()] || 'en-US'`. */
  function LocaleFor(lang: string): (r: string)
    ensures r == DefaultLocale <==> Text.Lower(lang) !in LocaleMap
    ensures Text.Lower(lang) in LocaleMap ==> r == LocaleMap[Text.Lower(lang)]
  {
    var key := Text.Lower(lang);
    if key in LocaleMap && LocaleMap[key] != "" then LocaleMap[key] else DefaultLocale
  }

  /** The lookup ignores letter case: names that lower-case alike get the same locale. */
  lemma LocaleIgnoresCase(a: string, b: string)
    requires Text.Lower(a) == Text.Lower(b)
    ensures LocaleFor(a) == LocaleFor(b)
  {
  }

  lemma LowerOfListed()
    ensures Text.Lower("Spanish") == "spanish"
    ensures Text.Lower("French") == "french"
    ensures Text.Lower("German") == "german"
    ensures Text.Lower("Italian") == "italian"
    ensures Text.Lower("Japanese") == "japanese"
    ensures Text.Lower("Mandarin Chinese") == "mandarin chinese"
    ensures Text.Lower("Korean") == "korean"
    ensures Text.Lower("Arabic") == "arabic"
  {
  }

  /** The speech locale of each listed language, position by position. */
  const ListedLocales: seq<string> := ["es", "fr", "de", "it", "ja", "zh-CN", "ko", "ar"]

  /** Every listed language is spoken in its own locale, never the fallback; for
      instance 'Mandarin Chinese' is spoken as zh-CN and 'French' as fr. */
  lemma ListedLanguagesHaveLocales()
    ensures |ListedLocales| == |Languages|
    ensures forall i :: 0 <= i < |Languages| ==> LocaleFor(Languages[i]) == ListedLocales[i]
    ensures forall i :: 0 <= i < |Languages| ==> LocaleFor(Languages[i]) != DefaultLocale
    ensures LocaleFor("Mandarin Chinese") == "zh-CN"
  {
    LowerOfListed();
  }

  /** The fallback applies exactly to names that match no listed language in any
      letter case. */
  lemma FallbackExactlyUnlisted(lang: string)
    ensures LocaleFor(lang) == DefaultLocale
        <==> forall i :: 0 <= i < |Languages| ==> Text.Lower(lang) != Text.Lower(Languages[i])
  {
    LowerOfListed();
    assert LocaleMap.Keys == {"spanish", "french", "german", "italian", "japanese",
                              "mandarin chinese", "korean", "arabic"};
    if Text.Lower(lang) in LocaleMap {
      var k := Text.Lower(lang);
      if k == "spanish" { assert k == Text.Lower(Languages[0]); }
      else if k == "french" { assert k == Text.Lower(Languages[1]); }
      else if k == "german" { assert k == Text.Lower(Languages[2]); }
      else if k == "italian" { assert k == Text.Lower(Languages[3]); }
      else if k == "japanese" { assert k == Text.Lower(Languages[4]); }
      else if k == "mandarin chinese" { assert k == Text.Lower(Languages[5]); }
      else if k == "korean" { assert k == Text.Lower(Languages[6]); }
      else { assert k == Text.Lower(Languages[7]); }
    }
  }

  /** What pressing the speaker button does. */
  datatype SpeakEffect =
    | Utter(text: string, locale: string)
    | Notify(title: string, description: string)

  /** `handleSpeak`: without a client or a speech synthesizer only a notification
      is raised; otherwise the text is spoken in the mapped locale, and a
      synthesizer that throws yields a different notification. */
  function HandleSpeak(isClient: bool, synthAvailable: bool, synthThrows: bool,
                       text: string, lang: string): (r: SpeakEffect)
    ensures r.Utter? <==> isClient && synthAvailable && !synthThrows
    ensures r.Utter? ==> r.text == text && r.locale == LocaleFor(lang)
    ensures !isClient || !synthAvailable ==>
      r == Notify("Text-to-speech not available", "Your browser may not support this feature.")
    ensures isClient && synthAvailable && synthThrows ==>
      r == Notify("Text-to-speech failed", "Could not play the audio for the selected language.")
  {
    if !isClient || !synthAvailable then
      Notify("Text-to-speech not available", "Your browser may not support this feature.")
    else if synthThrows then
      Notify("Text-to-speech failed", "Could not play the audio for the selected language.")
    else
      Utter(text, LocaleFor(lang))
  }
}
