/** The request-language choice of apps/api/src/i18n/language.middleware.ts:
    the Accept-Language header (section 12.5.4 of RFC 9110) is split into
    entries, each entry into a code and an optional `q=` weight, the
    entries are sorted by weight, and the first full code and then,
    while the choice is still "en", the first base code the catalogue
    supports wins. `parseFloat` is not modelled: `parseQ` maps the text
    after `q=` to a weight in thousandths (section 12.4.2 of RFC 9110).
    The middleware ignores `*` and gives q=0 no special meaning, and so
    does the model. */
module LanguageMiddleware {
  import opened Wrappers
  import Strings
  import Listing
  import I18nService

  /** One parsed entry: the code as written, the text before its first '-',
      and its weight in thousandths. */
  datatype LanguageRange = LanguageRange(code: string, baseCode: string, quality: int)

  /** The sort key of `(a, b) => b.quality - a.quality`. */
  const ByQuality: LanguageRange -> int := (r: LanguageRange) => r.quality

  /** The weight when an entry carries none: 1.0. */
  const FullQuality: int := 1000

  /** The text after the '=' of a `q=0.8` parameter (none gives "", which
      `parseFloat` reads as NaN, just as it reads a missing value). */
  function WeightText(param: string): (t: string)
  {
    var halves := Strings.Split(param, '=');
    if |halves| >= 2 then halves[1] else ""
  }

  /** The fields of one comma-separated entry: `lang.trim().split(";")`. */
  function EntryParts(entry: string): (parts: seq<string>)
    ensures |parts| >= 1
  {
    Strings.Split(Strings.Trim(entry), ';')
  }

  /** The text before the first '-' of a code. */
  function BaseCode(code: string): (base: string)
    ensures base == code[..Strings.FieldEnd(code, '-')] && '-' !in base
  {
    Strings.SplitHead(code, '-');
    Strings.Split(code, '-')[0]
  }

  /** One comma-separated entry: its first field is the code, and a second,
      non-empty field gives the weight, which is 1.0 otherwise. */
  function ParseEntry(entry: string, parseQ: string -> int): (r: LanguageRange)
  {
    var parts := EntryParts(entry);
    var quality := if |parts| >= 2 && parts[1] != "" then parseQ(WeightText(parts[1])) else FullQuality;
    LanguageRange(parts[0], BaseCode(parts[0]), quality)
  }

  /** An entry without ';' is its trimmed self at weight 1.0; the base code
      is the text of the code before its first '-'. */
  lemma ParseEntryShape(entry: string, parseQ: string -> int)
    ensures var r := ParseEntry(entry, parseQ);
      && (';' !in Strings.Trim(entry) ==> r.code == Strings.Trim(entry) && r.quality == FullQuality)
      && r.baseCode == r.code[..Strings.FieldEnd(r.code, '-')] && '-' !in r.baseCode
  {
    Strings.SplitNoSep(Strings.Trim(entry), ';');
  }

  /** `acceptLanguage.split(",").map(...)`. */
  function Parse(header: string, parseQ: string -> int): (ranges: seq<LanguageRange>)
  {
    var entries := Strings.Split(header, ',');
    seq(|entries|, i requires 0 <= i < |entries| => ParseEntry(entries[i], parseQ))
  }

  /** The parsed entries are the header's comma-separated entries, one for
      one, in header order. */
  lemma ParseInHeaderOrder(header: string, parseQ: string -> int)
    ensures var entries := Strings.Split(header, ',');
      && |Parse(header, parseQ)| == |entries|
      && forall i :: 0 <= i < |entries| ==> Parse(header, parseQ)[i] == ParseEntry(entries[i], parseQ)
  {
  }

  /** The entries in the order they are tried. */
  function Tried(header: string, parseQ: string -> int): seq<LanguageRange>
  {
    Listing.SortDesc(Parse(header, parseQ), ByQuality)
  }

  /** The code a pass compares: the full code, or the base code. */
  function Field(r: LanguageRange, byBase: bool): string
  {
    if byBase then r.baseCode else r.code
  }

  /** The position of the first entry whose compared code is supported, or
      the length when there is none. */
  function FirstMatch(ranges: seq<LanguageRange>, supported: set<string>, byBase: bool): (k: nat)
    ensures k <= |ranges|
    ensures k < |ranges| ==> Field(ranges[k], byBase) in supported
    ensures forall j :: 0 <= j < k ==> Field(ranges[j], byBase) !in supported
  {
    if ranges == [] then 0
    else if Field(ranges[0], byBase) in supported then 0
    else 1 + FirstMatch(ranges[1..], supported, byBase)
  }

  /** The code one pass settles on, if any. */
  function Pass(ranges: seq<LanguageRange>, supported: set<string>, byBase: bool): (m: Option<string>)
    ensures m.Some? ==> m.value in supported
  {
    var k := FirstMatch(ranges, supported, byBase);
    if k < |ranges| then Some(Field(ranges[k], byBase)) else None
  }

  /** The language the middleware stores on the request. */
  function Choose(header: Option<string>, supported: set<string>, parseQ: string -> int): string
  {
    if header.None? || header.value == "" then "en"
    else
      var tried := Tried(header.value, parseQ);
      var full := Pass(tried, supported, false);
      var afterFull := if full.Some? then full.value else "en";
      if afterFull != "en" then afterFull
      else
        var base := Pass(tried, supported, true);
        if base.Some? then base.value else "en"
  }

  /** Without a header the language is "en". */
  lemma NoHeaderIsEnglish(supported: set<string>, parseQ: string -> int)
    ensures Choose(None, supported, parseQ) == "en"
    ensures Choose(Some(""), supported, parseQ) == "en"
  {
  }

  /** The choice is "en" or a supported language. */
  lemma ChoiceIsSupported(header: Option<string>, supported: set<string>, parseQ: string -> int)
    ensures Choose(header, supported, parseQ) == "en" || Choose(header, supported, parseQ) in supported
  {
  }

  /** Entries are tried by descending weight; entries of equal weight keep
      their header order, as the stable sort leaves them. */
  lemma TriedOrder(header: string, parseQ: string -> int, q: int)
    ensures multiset(Tried(header, parseQ)) == multiset(Parse(header, parseQ))
    ensures Listing.NonIncreasing(Tried(header, parseQ), ByQuality)
    ensures Listing.WithKey(Tried(header, parseQ), ByQuality, q) == Listing.WithKey(Parse(header, parseQ), ByQuality, q)
  {
    Listing.SortDescStable(Parse(header, parseQ), ByQuality, q);
  }

  /** A full-code match other than "en" is the answer: the base-code pass
      does not run. */
  lemma FullMatchWins(header: string, supported: set<string>, parseQ: string -> int)
    requires header != ""
    requires var tried := Tried(header, parseQ);
      FirstMatch(tried, supported, false) < |tried| && Field(tried[FirstMatch(tried, supported, false)], false) != "en"
    ensures var tried := Tried(header, parseQ);
      Choose(Some(header), supported, parseQ) == tried[FirstMatch(tried, supported, false)].code
  {
  }

  /** When the full-code pass ends on "en", whether by matching it or by
      matching nothing, the base-code pass decides: a base-code match,
      even one of higher weight than an explicit "en", displaces it. */
  lemma BasePassAfterEnglish(header: string, supported: set<string>, parseQ: string -> int)
    requires header != ""
    requires Pass(Tried(header, parseQ), supported, false) in {None, Some("en")}
    ensures var base := Pass(Tried(header, parseQ), supported, true);
      Choose(Some(header), supported, parseQ) == if base.Some? then base.value else "en"
  {
  }

  /** A position before which nothing matches, and at which something
      matches or the entries end, is the first match. */
  lemma {:induction false} FirstMatchAt(ranges: seq<LanguageRange>, supported: set<string>, byBase: bool, i: nat)
    requires i <= |ranges|
    requires forall j :: 0 <= j < i ==> Field(ranges[j], byBase) !in supported
    requires i < |ranges| ==> Field(ranges[i], byBase) in supported
    ensures FirstMatch(ranges, supported, byBase) == i
    decreases i
  {
    if i > 0 {
      assert Field(ranges[0], byBase) !in supported;
      forall j | 0 <= j < i - 1 ensures Field(ranges[1..][j], byBase) !in supported {
        assert ranges[1..][j] == ranges[j + 1];
      }
      FirstMatchAt(ranges[1..], supported, byBase, i - 1);
    }
  }

  /** One pass of `use`: the first entry, in order, whose compared code
      the catalogue lists. */
  method FirstSupported(languages: seq<LanguageRange>, supported: seq<string>, byBase: bool,
                        ghost s: set<string>)
    returns (m: Option<string>)
    requires forall l :: l in supported <==> l in s
    ensures m == Pass(languages, s, byBase)
  {
    var i := 0;
    while i < |languages|
      invariant 0 <= i <= |languages|
      invariant forall j :: 0 <= j < i ==> Field(languages[j], byBase) !in supported
    {
      var code := if byBase then languages[i].baseCode else languages[i].code;
      if code in supported {
        FirstMatchAt(languages, s, byBase, i);
        return Some(code);
      }
      i := i + 1;
    }
    FirstMatchAt(languages, s, byBase, |languages|);
    m := None;
  }

  /** `use`: the full-code pass, then, while the choice is still "en", the
      base-code pass, over the entries sorted by weight. */
  method Use(header: Option<string>, i18n: I18nService.Catalogue, parseQ: string -> int) returns (language: string)
    ensures language == Choose(header, i18n.translations.Keys, parseQ)
  {
    language := "en";
    if header.Some? && header.value != "" {
      var languages := Parse(header.value, parseQ);
      languages := Listing.SortDesc(languages, ByQuality);
      var supported := i18n.SupportedLanguages();
      var full := FirstSupported(languages, supported, false, i18n.translations.Keys);
      if full.Some? {
        language := full.value;
      }
      if language == "en" {
        var base := FirstSupported(languages, supported, true, i18n.translations.Keys);
        if base.Some? {
          language := base.value;
        }
      }
    }
  }
}
