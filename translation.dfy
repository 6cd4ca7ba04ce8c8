/** `Handler.translateText`: two requests to the translation service (the
    joined names, then the word "and"), and the split of the first answer on
    the translated "and" with a space on either side. */
module Translation {
  import opened Wrappers
  import JsStrings

  /** The parameters of `translatorSvc.translateText`. */
  datatype TranslateRequest = TranslateRequest(sourceLanguageCode: string, targetLanguageCode: string, text: string)

  /** Every request translates from English. */
  const SourceLanguage: string := "en"

  /** The word whose translation marks the boundaries between names. */
  const DelimiterWord: string := "and"

  /** The request for translating `text` from English into `lang`. */
  function Request(lang: string, text: string): (req: TranslateRequest)
  {
    TranslateRequest(SourceLanguage, lang, text)
  }

  /** The template `` ` ${translatedDelimiter} ` ``: never empty, so the split
      below is the string-separator split. */
  function DelimiterPattern(delimiter: string): (sep: string)
    ensures |sep| == |delimiter| + 2 && sep[0] == ' ' && sep[|sep| - 1] == ' '
    ensures sep[1..|sep| - 1] == delimiter
  {
    " " + delimiter + " "
  }

  /** `translateText(text, lang)`.  `translate` is the translation service;
      `requests` lists, in order, the requests issued. */
  method TranslateText(translate: TranslateRequest -> Result<string>, text: string, lang: string)
    returns (r: Result<seq<string>>, requests: seq<TranslateRequest>)
    ensures var first := translate(Request(lang, text));
            var second := translate(Request(lang, DelimiterWord));
            && (first.Err? ==> requests == [Request(lang, text)] && r == Err(first.message))
            && (first.Ok? ==> requests == [Request(lang, text), Request(lang, DelimiterWord)])
            && (first.Ok? && second.Err? ==> r == Err(second.message))
            && (r.Ok? <==> first.Ok? && second.Ok?)
            && (r.Ok? ==> r.value == JsStrings.Split(first.value, DelimiterPattern(second.value)))
    ensures r.Ok? ==> |r.value| >= 1
    ensures r.Ok? ==> JsStrings.Join(r.value, DelimiterPattern(translate(Request(lang, DelimiterWord)).value))
                      == translate(Request(lang, text)).value
  {
    requests := [Request(lang, text)];
    var translated := translate(Request(lang, text));
    if translated.Err? {
      return Err(translated.message), requests;
    }
    requests := requests + [Request(lang, DelimiterWord)];
    var translatedDelimiter := translate(Request(lang, DelimiterWord));
    if translatedDelimiter.Err? {
      return Err(translatedDelimiter.message), requests;
    }
    var sep := DelimiterPattern(translatedDelimiter.value);
    JsStrings.JoinSplit(translated.value, sep);
    r := Ok(JsStrings.Split(translated.value, sep));
  }
}
