/**
 * The interface language: `getBrowserLang`'s fallback chain, the locale
 * resolution of `ensureResourceLoaded` (exact file, then a case-insensitive
 * match, then zh-CN), and `changeLang`'s order of steps. Local storage, the
 * browser's language and the locale files are parameters or fields.
 */
module I18n {
  import opened Wrappers
  import opened Strings
  import opened Seqs

  /**
   * `getBrowserLang`: the stored "lang" when it is non-empty, else the
   * browser's language, and "en" when that is empty or missing.
   */
  function GetBrowserLang(stored: Option<string>, navigatorLang: Option<string>): (r: string)
    ensures r != ""
    ensures stored.Some? && stored.value != "" ==> r == stored.value
    ensures (stored.None? || stored.value == "") && navigatorLang.Some? && navigatorLang.value != "" ==> r == navigatorLang.value
    ensures (stored.None? || stored.value == "") && (navigatorLang.None? || navigatorLang.value == "") ==> r == "en"
  {
    var lang := if stored.Some? && stored.value != "" then stored else navigatorLang;
    if lang.Some? && lang.value != "" then lang.value else "en"
  }

  /** A translation bundle. */
  type Bundle = map<string, string>

  /**
   * The locale files the build found, in `Object.keys` order: each path and
   * what importing it gives (`None` when the import fails or has no default
   * export; both leave the stage empty-handed).
   */
  type Locales = seq<(string, Option<Bundle>)>

  function LocalePath(lang: string): string {
    "./locales/" + lang + ".ts"
  }

  const FallbackLang := "zh-CN"

  /** What importing the file at `path` gives; nothing when no file has exactly that path. */
  function LoadExact(locales: Locales, path: string): (r: Option<Bundle>)
    ensures (forall k :: 0 <= k < |locales| ==> locales[k].0 != path) ==> r.None?
    ensures r.Some? ==> exists k :: 0 <= k < |locales| && locales[k].0 == path && locales[k].1 == r
    ensures forall k ::
      0 <= k < |locales| && locales[k].0 == path && (forall j :: 0 <= j < k ==> locales[j].0 != path)
      ==> r == locales[k].1
  {
    match FirstWhere(locales, (e: (string, Option<Bundle>)) => e.0 == path)
    case None => None
    case Some(k) => locales[k].1
  }

  /** The file at `path` is the one the case-insensitive stage looks for. */
  predicate FoldedMatch(path: string, lang: string) {
    Lower(path) == LocalePath(Lower(lang))
  }

  /**
   * What importing the first file whose lower-cased path is the lower-cased
   * locale path gives; nothing when no file's path matches.
   */
  function LoadCaseInsensitive(locales: Locales, lang: string): (r: Option<Bundle>)
    ensures (forall k :: 0 <= k < |locales| ==> !FoldedMatch(locales[k].0, lang)) ==> r.None?
    ensures forall k ::
      0 <= k < |locales| && FoldedMatch(locales[k].0, lang) && (forall j :: 0 <= j < k ==> !FoldedMatch(locales[j].0, lang))
      ==> r == locales[k].1
  {
    match FirstWhere(locales, (e: (string, Option<Bundle>)) => FoldedMatch(e.0, lang))
    case None => None
    case Some(k) => locales[k].1
  }

  /**
   * The bundle the three stages find: the exact file; failing that, the
   * case-insensitive match; failing that, zh-CN's file unless zh-CN itself
   * was asked for.
   */
  function ResolveLocale(locales: Locales, lang: string): (r: Option<Bundle>)
    ensures LoadExact(locales, LocalePath(lang)).Some? ==> r == LoadExact(locales, LocalePath(lang))
    ensures LoadExact(locales, LocalePath(lang)).None? && LoadCaseInsensitive(locales, lang).Some? ==>
      r == LoadCaseInsensitive(locales, lang)
    ensures LoadExact(locales, LocalePath(lang)).None? && LoadCaseInsensitive(locales, lang).None? ==>
      r == (if lang != FallbackLang then LoadExact(locales, LocalePath(FallbackLang)) else None)
  {
    var exact := LoadExact(locales, LocalePath(lang));
    if exact.Some? then exact
    else
      var folded := LoadCaseInsensitive(locales, lang);
      if folded.Some? then folded
      else if lang != FallbackLang then LoadExact(locales, LocalePath(FallbackLang))
      else None
  }

  /** The bundles after `ensureResourceLoaded(lang)`: unchanged if `lang` has one, else whatever was found registered under `lang`. */
  function AfterEnsure(bundles: map<string, Bundle>, locales: Locales, lang: string): (r: map<string, Bundle>)
    ensures lang in bundles ==> r == bundles
    ensures lang !in bundles && ResolveLocale(locales, lang).Some? ==> r == bundles[lang := ResolveLocale(locales, lang).value]
    ensures lang !in bundles && ResolveLocale(locales, lang).None? ==> r == bundles
  {
    if lang in bundles then bundles
    else
      match ResolveLocale(locales, lang)
      case Some(b) => bundles[lang := b]
      case None => bundles
  }

  /** Loading twice is loading once. */
  lemma EnsureIdempotent(bundles: map<string, Bundle>, locales: Locales, lang: string)
    ensures AfterEnsure(AfterEnsure(bundles, locales, lang), locales, lang) == AfterEnsure(bundles, locales, lang)
  {
  }

  /** Only the requested language's entry can change, and a language without any file still gets zh-CN's bundle. */
  lemma EnsureTouchesOnlyLang(bundles: map<string, Bundle>, locales: Locales, lang: string, other: string)
    requires other != lang
    ensures other in AfterEnsure(bundles, locales, lang) <==> other in bundles
    ensures other in bundles ==> AfterEnsure(bundles, locales, lang)[other] == bundles[other]
  {
  }

  /** Asked for zh-CN with no zh-CN file to be found, nothing is registered. */
  lemma NoFallbackForFallback(bundles: map<string, Bundle>, locales: Locales)
    requires FallbackLang !in bundles
    requires LoadExact(locales, LocalePath(FallbackLang)).None? && LoadCaseInsensitive(locales, FallbackLang).None?
    ensures AfterEnsure(bundles, locales, FallbackLang) == bundles
  {
  }

  /** A missing language falls back to zh-CN's bundle, registered under the requested name. */
  lemma FallbackRegisteredUnderRequested(bundles: map<string, Bundle>, locales: Locales, lang: string, zh: Bundle)
    requires lang !in bundles && lang != FallbackLang
    requires LoadExact(locales, LocalePath(lang)).None? && LoadCaseInsensitive(locales, lang).None?
    requires LoadExact(locales, LocalePath(FallbackLang)) == Some(zh)
    ensures AfterEnsure(bundles, locales, lang) == bundles[lang := zh]
  {
  }

  /** The steps of `changeLang`, in the order they happen. */
  datatype Step = StoredLang(lang: string) | ResourcesReady(lang: string) | Switched(lang: string)

  /** i18next's registry of bundles and current language, and local storage. */
  class Registry {
    var bundles: map<string, Bundle>
    var language: string
    var storage: map<string, string>
    var steps: seq<Step>
    const locales: Locales

    constructor (locales: Locales, storage: map<string, string>, language: string)
      ensures this.locales == locales && this.storage == storage && this.language == language
      ensures bundles == map[] && steps == []
    {
      this.locales := locales;
      this.storage := storage;
      this.language := language;
      bundles := map[];
      steps := [];
    }

    /** `ensureResourceLoaded(lang)`, stage by stage. */
    method EnsureResourceLoaded(lang: string)
      modifies this
      ensures bundles == AfterEnsure(old(bundles), locales, lang)
      ensures language == old(language) && storage == old(storage) && steps == old(steps)
    {
      if lang in bundles {
        return;
      }
      var resource: Option<Bundle> := None;
      resource := LoadExact(locales, LocalePath(lang));
      if resource.None? {
        resource := LoadCaseInsensitive(locales, lang);
      }
      if resource.None? && lang != FallbackLang {
        resource := LoadExact(locales, LocalePath(FallbackLang));
      }
      if resource.Some? {
        bundles := bundles[lang := resource.value];
      }
    }

    /** `changeLang(lang)`: store the language, load its resources, then switch to it. */
    method ChangeLang(lang: string)
      modifies this
      ensures storage == old(storage)["lang" := lang]
      ensures bundles == AfterEnsure(old(bundles), locales, lang)
      ensures language == lang
      ensures steps == old(steps) + [StoredLang(lang), ResourcesReady(lang), Switched(lang)]
    {
      storage := storage["lang" := lang];
      steps := steps + [StoredLang(lang)];
      EnsureResourceLoaded(lang);
      steps := steps + [ResourcesReady(lang)];
      language := lang;
      steps := steps + [Switched(lang)];
    }
  }

  /** After `changeLang` with a non-empty language, `getBrowserLang` reads that language back, whatever the browser says. */
  lemma ChangeLangReadBack(storage: map<string, string>, lang: string, navigatorLang: Option<string>)
    requires lang != ""
    ensures GetBrowserLang(Some(storage["lang" := lang]["lang"]), navigatorLang) == lang
  {
  }
}
