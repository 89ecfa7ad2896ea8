/** The server-side message catalogue of apps/api/src/i18n/i18n.service.ts.
    Each loaded language is a JSON table of nested tables and strings; a
    message key such as `users.not_found` is split on '.' and walked
    segment by segment. Reading the locale files is not modelled: the
    tables are given to the constructor. */
module I18nService {
  import opened Wrappers
  import Strings
  import Listing

  /** A JSON value of a translation file: a message or a nested table. */
  datatype Node = Leaf(text: string) | Table(entries: map<string, Node>)

  /** Following `path` from `node`: None as soon as a segment is missing or
      the value reached so far is not a table. */
  function Walk(node: Option<Node>, path: seq<string>): (r: Option<Node>)
    ensures path == [] ==> r == node
    ensures r.Some? ==> node.Some?
    decreases |path|
  {
    if path == [] then node
    else if node.Some? && node.value.Table? && path[0] in node.value.entries then
      Walk(Some(node.value.entries[path[0]]), path[1..])
    else None
  }

  /** The final `typeof value === "string" ? value : key`. */
  function Resolve(key: string, value: Option<Node>): (r: string)
    ensures value.Some? && value.value.Leaf? ==> r == value.value.text
    ensures !(value.Some? && value.value.Leaf?) ==> r == key
  {
    if value.Some? && value.value.Leaf? then value.value.text else key
  }

  /** The language asked for: the argument unless it is absent or empty. */
  function Language(defaultLanguage: string, language: Option<string>): (lang: string)
    ensures language.Some? && language.value != "" ==> lang == language.value
    ensures language.None? || language.value == "" ==> lang == defaultLanguage
  {
    if language.Some? && language.value != "" then language.value else defaultLanguage
  }

  /** The default language's table, if it is loaded. */
  function DefaultRoot(translations: map<string, map<string, Node>>, defaultLanguage: string): (root: Option<Node>)
    ensures root.Some? <==> defaultLanguage in translations
  {
    if defaultLanguage in translations then Some(Table(translations[defaultLanguage])) else None
  }

  /** Where the first walk starts: the requested language's table, or the
      default language's when the requested one is not loaded. */
  function StartRoot(translations: map<string, map<string, Node>>, defaultLanguage: string, lang: string): (root: Option<Node>)
    ensures lang in translations ==> root == Some(Table(translations[lang]))
    ensures lang !in translations ==> root == DefaultRoot(translations, defaultLanguage)
  {
    if lang in translations then Some(Table(translations[lang])) else DefaultRoot(translations, defaultLanguage)
  }

  /** What `translate(key, language)` returns: the value the first walk
      reaches if it reaches one; otherwise the value the walk in the
      default language reaches; a string is returned, anything else gives
      the key back. */
  ghost function Translation(translations: map<string, map<string, Node>>, defaultLanguage: string,
                             key: string, language: Option<string>): string
  {
    var keys := Strings.Split(key, '.');
    var first := Walk(StartRoot(translations, defaultLanguage, Language(defaultLanguage, language)), keys);
    if first.Some? then Resolve(key, first)
    else Resolve(key, Walk(DefaultRoot(translations, defaultLanguage), keys))
  }

  /** The result is a message some table holds at that path, or the key
      itself; never a table. */
  lemma TranslationIsMessageOrKey(translations: map<string, map<string, Node>>, defaultLanguage: string,
                                  key: string, language: Option<string>)
    ensures var r := Translation(translations, defaultLanguage, key, language);
      var keys := Strings.Split(key, '.');
      || r == key
      || Walk(StartRoot(translations, defaultLanguage, Language(defaultLanguage, language)), keys) == Some(Leaf(r))
      || Walk(DefaultRoot(translations, defaultLanguage), keys) == Some(Leaf(r))
  {
  }

  /** One step of the walk at position `i` of the path. */
  lemma WalkStep(value: Option<Node>, path: seq<string>, i: nat)
    requires i < |path|
    ensures Walk(value, path[i..]) ==
      if value.Some? && value.value.Table? && path[i] in value.value.entries
      then Walk(Some(value.value.entries[path[i]]), path[i + 1..])
      else None
  {
    assert path[i..][0] == path[i] && path[i..][1..] == path[i + 1..];
  }

  /** A language that is not loaded is served from the default table. */
  lemma UnknownLanguageUsesDefault(translations: map<string, map<string, Node>>, defaultLanguage: string,
                                   key: string, language: Option<string>)
    requires Language(defaultLanguage, language) !in translations
    ensures Translation(translations, defaultLanguage, key, language)
      == Resolve(key, Walk(DefaultRoot(translations, defaultLanguage), Strings.Split(key, '.')))
  {
  }

  /** A message the requested language holds at the path is the result. */
  lemma RequestedMessageWins(translations: map<string, map<string, Node>>, defaultLanguage: string,
                             key: string, language: Option<string>, text: string)
    requires Language(defaultLanguage, language) in translations
    requires Walk(Some(Table(translations[Language(defaultLanguage, language)])), Strings.Split(key, '.')) == Some(Leaf(text))
    ensures Translation(translations, defaultLanguage, key, language) == text
  {
  }

  /** A segment missing in the requested language restarts the walk in the
      default language. */
  lemma MissingSegmentFallsBack(translations: map<string, map<string, Node>>, defaultLanguage: string,
                                key: string, language: Option<string>)
    requires Language(defaultLanguage, language) in translations
    requires Walk(Some(Table(translations[Language(defaultLanguage, language)])), Strings.Split(key, '.')) == None
    ensures Translation(translations, defaultLanguage, key, language)
      == Resolve(key, Walk(DefaultRoot(translations, defaultLanguage), Strings.Split(key, '.')))
  {
  }

  /** A path that ends on a table in the requested language gives the key,
      without consulting the default language. */
  lemma RequestedTableGivesKey(translations: map<string, map<string, Node>>, defaultLanguage: string,
                               key: string, language: Option<string>, entries: map<string, Node>)
    requires Language(defaultLanguage, language) in translations
    requires Walk(Some(Table(translations[Language(defaultLanguage, language)])), Strings.Split(key, '.')) == Some(Table(entries))
    ensures Translation(translations, defaultLanguage, key, language) == key
  {
  }

  /** When neither the starting table nor the default one holds a message
      at the path, the key comes back. */
  lemma NoMessageGivesKey(translations: map<string, map<string, Node>>, defaultLanguage: string,
                          key: string, language: Option<string>)
    requires forall text :: Walk(StartRoot(translations, defaultLanguage, Language(defaultLanguage, language)),
                                 Strings.Split(key, '.')) != Some(Leaf(text))
    requires forall text :: Walk(DefaultRoot(translations, defaultLanguage), Strings.Split(key, '.')) != Some(Leaf(text))
    ensures Translation(translations, defaultLanguage, key, language) == key
  {
  }

  class Catalogue {
    var translations: map<string, map<string, Node>>
    var defaultLanguage: string

    /** The loaded tables, with "en" as the default language. */
    constructor (translations: map<string, map<string, Node>>)
      ensures this.translations == translations && defaultLanguage == "en"
    {
      this.translations := translations;
      defaultLanguage := "en";
    }

    /** `translate`: the segment walk with its restart in the default
        language on the first missing segment. */
    method Translate(key: string, language: Option<string>) returns (r: string)
      ensures r == Translation(translations, defaultLanguage, key, language)
    {
      var lang := if language.Some? && language.value != "" then language.value else defaultLanguage;
      var keys := Strings.Split(key, '.');
      var value: Option<Node> :=
        if lang in translations then Some(Table(translations[lang]))
        else if defaultLanguage in translations then Some(Table(translations[defaultLanguage]))
        else None;
      ghost var start := value;
      assert start == StartRoot(translations, defaultLanguage, Language(defaultLanguage, language));
      ghost var restarted := false;
      var i := 0;
      while i < |keys|
        invariant 0 <= i <= |keys|
        invariant Walk(start, keys) == Walk(value, keys[i..])
        invariant i > 0 ==> value.Some?
      {
        WalkStep(value, keys, i);
        if value.Some? && value.value.Table? && keys[i] in value.value.entries {
          value := Some(value.value.entries[keys[i]]);
          i := i + 1;
        } else {
          assert Walk(start, keys) == None;
          value := if defaultLanguage in translations then Some(Table(translations[defaultLanguage])) else None;
          ghost var root := value;
          assert root == DefaultRoot(translations, defaultLanguage);
          var j := 0;
          while j < |keys|
            invariant 0 <= j <= |keys|
            invariant Walk(root, keys) == Walk(value, keys[j..])
          {
            WalkStep(value, keys, j);
            if value.Some? && value.value.Table? && keys[j] in value.value.entries {
              value := Some(value.value.entries[keys[j]]);
              j := j + 1;
            } else {
              assert Walk(root, keys) == None;
              return key;
            }
          }
          assert keys[j..] == [];
          restarted := true;
          break;
        }
      }
      if !restarted {
        assert keys[i..] == [];
      }
      r := Resolve(key, value);
    }

    /** `getSupportedLanguages`: the loaded languages, each once. */
    method SupportedLanguages() returns (langs: seq<string>)
      ensures Listing.Distinct(langs)
      ensures forall l :: l in langs <==> l in translations
    {
      langs := Listing.EnumerateKeys(translations);
    }

    /** `setDefaultLanguage`: switches only to a loaded language, and
        otherwise changes nothing. */
    method SetDefaultLanguage(language: string)
      modifies this
      ensures translations == old(translations)
      ensures defaultLanguage == if language in translations then language else old(defaultLanguage)
    {
      if language in translations {
        defaultLanguage := language;
      }
    }
  }
}
