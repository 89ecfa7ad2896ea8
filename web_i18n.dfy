/** `getBrowserLanguage` of apps/web/src/i18n/index.ts: the language the
    web client starts in, from the language saved under `i18nextLng` and
    the browser's `navigator.language`. */
module WebI18n {
  import opened Wrappers
  import Strings

  /** The languages the client ships. */
  const Supported: set<string> := {"en", "zh-CN", "zh-TW"}

  /** The browser languages shown in traditional script. */
  const Traditional: set<string> := {"zh-TW", "zh-HK", "zh-MO"}

  /** A saved language that is set, non-empty and shipped wins; otherwise a
      browser language in traditional script gives "zh-TW", any other
      starting with "zh" gives "zh-CN", and the rest give "en". Without a
      window the answer is "en". */
  function BrowserLanguage(hasWindow: bool, browserLang: string, savedLang: Option<string>): (lang: string)
    ensures lang in Supported
  {
    if !hasWindow then "en"
    else if savedLang.Some? && savedLang.value != "" && savedLang.value in Supported then savedLang.value
    else if Strings.StartsWith(browserLang, "zh") then
      (if browserLang in Traditional then "zh-TW" else "zh-CN")
    else "en"
  }

  /** A shipped language that was saved is used as it is. */
  lemma SavedLanguageWins(browserLang: string, savedLang: string)
    requires savedLang in Supported
    ensures BrowserLanguage(true, browserLang, Some(savedLang)) == savedLang
  {
  }

  /** Without a usable saved language the browser language decides, in the
      three outcomes the client knows. */
  lemma DetectedLanguage(browserLang: string, savedLang: Option<string>)
    requires savedLang.None? || savedLang.value !in Supported
    ensures BrowserLanguage(true, browserLang, savedLang) == "zh-TW" <==> browserLang in Traditional
    ensures BrowserLanguage(true, browserLang, savedLang) == "zh-CN" <==>
      Strings.StartsWith(browserLang, "zh") && browserLang !in Traditional
    ensures BrowserLanguage(true, browserLang, savedLang) == "en" <==> !Strings.StartsWith(browserLang, "zh")
  {
    if browserLang in Traditional {
      assert browserLang[..2] == "zh";
    }
  }

  /** Without a window nothing else is consulted. */
  lemma NoWindowIsEnglish(browserLang: string, savedLang: Option<string>)
    ensures BrowserLanguage(false, browserLang, savedLang) == "en"
  {
  }
}
