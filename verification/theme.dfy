/**
 * The theme provider: the chosen theme (light, dark, system or auto), the
 * light or dark mode it resolves to, the classes and meta colour on the
 * document root, and the chosen theme kept in local storage. The clock hour,
 * the operating system's preference and local storage's contents come in as
 * parameters.
 */
module ThemeContext {
  import opened Wrappers

  datatype Theme = Light | Dark | System | Auto

  /** What a theme resolves to. */
  datatype Mode = LightMode | DarkMode

  const LightColor := "#eae9e3"
  const DarkColor := "#413a2c"

  /** `getAutoTheme`: dark from 18:00 until 06:00. */
  function AutoMode(hour: int): (m: Mode)
    ensures m == DarkMode <==> hour >= 18 || hour < 6
  {
    if hour >= 18 || hour < 6 then DarkMode else LightMode
  }

  /** Light and dark resolve to themselves, system to the OS preference, auto to the time of day. */
  function Resolve(theme: Theme, systemDark: bool, hour: int): (m: Mode)
    ensures theme == Light ==> m == LightMode
    ensures theme == Dark ==> m == DarkMode
    ensures theme == System ==> (m == DarkMode <==> systemDark)
    ensures theme == Auto ==> m == AutoMode(hour)
  {
    match theme
    case Light => LightMode
    case Dark => DarkMode
    case System => if systemDark then DarkMode else LightMode
    case Auto => AutoMode(hour)
  }

  /** The name a theme is stored under. */
  function ThemeName(theme: Theme): string {
    match theme
    case Light => "light"
    case Dark => "dark"
    case System => "system"
    case Auto => "auto"
  }

  function ModeClass(m: Mode): string {
    if m == DarkMode then "dark" else "light"
  }

  function MetaColor(m: Mode): string {
    if m == DarkMode then DarkColor else LightColor
  }

  /**
   * The initial theme: the stored value when it is exactly one of the four
   * names, else the default (also when local storage cannot be read, `None`).
   */
  function ParseStored(stored: Option<string>, default: Theme): (t: Theme)
    ensures stored.Some? && stored.value in {"light", "dark", "system", "auto"} ==> ThemeName(t) == stored.value
    ensures stored.None? || stored.value !in {"light", "dark", "system", "auto"} ==> t == default
  {
    if stored == Some("light") then Light
    else if stored == Some("dark") then Dark
    else if stored == Some("system") then System
    else if stored == Some("auto") then Auto
    else default
  }

  /** What is stored is read back: the chosen theme survives a reload. */
  lemma StoredRoundTrip(theme: Theme, default: Theme)
    ensures ParseStored(Some(ThemeName(theme)), default) == theme
  {
  }

  /**
   * The root's classes after `applyTheme`: exactly one of "light" and
   * "dark", the mode's, and every other class untouched.
   */
  function WithModeClass(classes: set<string>, m: Mode): (r: set<string>)
    ensures ModeClass(m) in r && (("light" in r) != ("dark" in r))
    ensures r - {"light", "dark"} == classes - {"light", "dark"}
  {
    classes - {"light", "dark"} + {ModeClass(m)}
  }

  /** Applying a mode twice is applying it once; applying another replaces it. */
  lemma WithModeClassLast(classes: set<string>, a: Mode, b: Mode)
    ensures WithModeClass(WithModeClass(classes, a), b) == WithModeClass(classes, b)
  {
  }

  /** The classes and meta colour of the document root, and local storage. */
  class Document {
    var classes: set<string>
    var metaColor: Option<string>
    var storage: map<string, string>

    constructor (classes: set<string>, metaColor: Option<string>, storage: map<string, string>)
      ensures this.classes == classes && this.metaColor == metaColor && this.storage == storage
    {
      this.classes := classes;
      this.metaColor := metaColor;
      this.storage := storage;
    }

    /** The root shows `m`: its class and not the other, and its colour. */
    ghost predicate Shows(m: Mode)
      reads this
    {
      ModeClass(m) in classes && (("light" in classes) != ("dark" in classes)) && metaColor == Some(MetaColor(m))
    }

    /** `applyTheme`: both mode classes removed, the mode's added, the meta colour set (the tag created if missing). */
    method ApplyTheme(m: Mode)
      modifies this
      ensures classes == WithModeClass(old(classes), m)
      ensures metaColor == Some(MetaColor(m)) && storage == old(storage)
      ensures Shows(m)
    {
      classes := WithModeClass(classes, m);
      metaColor := Some(MetaColor(m));
    }

    /** `localStorage.setItem`. */
    method Store(key: string, value: string)
      modifies this
      ensures storage == old(storage)[key := value]
      ensures classes == old(classes) && metaColor == old(metaColor)
    {
      storage := storage[key := value];
    }
  }

  /** `ThemeProvider`: the chosen theme, its resolved mode, and the document it is applied to. */
  class Provider {
    var theme: Theme
    var resolved: Mode
    const storageKey: string
    const doc: Document

    /** The root shows the resolved mode and storage holds the chosen theme. */
    ghost predicate Valid()
      reads this, doc
    {
      doc.Shows(resolved) && storageKey in doc.storage && doc.storage[storageKey] == ThemeName(theme)
    }

    /** Mounting: the stored (or default) theme is resolved, applied and persisted. */
    constructor (doc: Document, storageKey: string, default: Theme, systemDark: bool, hour: int)
      modifies doc
      ensures Valid() && this.doc == doc && this.storageKey == storageKey
      ensures theme == ParseStored(if storageKey in old(doc.storage) then Some(old(doc.storage)[storageKey]) else None, default)
      ensures resolved == Resolve(theme, systemDark, hour)
    {
      var stored := if storageKey in doc.storage then Some(doc.storage[storageKey]) else None;
      var t := ParseStored(stored, default);
      this.doc := doc;
      this.storageKey := storageKey;
      theme := t;
      resolved := Resolve(t, systemDark, hour);
      new;
      doc.ApplyTheme(resolved);
      doc.Store(storageKey, ThemeName(theme));
    }

    /** `setTheme`: the new theme is resolved and applied, and the theme itself (not the mode) is stored. */
    method SetTheme(t: Theme, systemDark: bool, hour: int)
      requires Valid()
      modifies this, doc
      ensures Valid() && theme == t && resolved == Resolve(t, systemDark, hour)
      ensures doc.storage == old(doc.storage)[storageKey := ThemeName(t)]
    {
      theme := t;
      resolved := Resolve(t, systemDark, hour);
      doc.ApplyTheme(resolved);
      doc.Store(storageKey, ThemeName(t));
    }

    /**
     * The minute timer of auto mode: the root is touched only when the hour
     * gives a different mode from the one shown. `changed` says whether it did.
     */
    method Tick(hour: int) returns (changed: bool)
      requires Valid()
      modifies this, doc
      ensures Valid() && theme == old(theme)
      ensures changed <==> old(theme) == Auto && AutoMode(hour) != old(resolved)
      ensures changed ==> resolved == AutoMode(hour)
      ensures !changed ==> resolved == old(resolved) && doc.classes == old(doc.classes) && doc.metaColor == old(doc.metaColor)
      ensures doc.storage == old(doc.storage)
    {
      changed := false;
      if theme == Auto {
        var m := AutoMode(hour);
        if m != resolved {
          resolved := m;
          doc.ApplyTheme(m);
          changed := true;
        }
      }
    }

    /** The OS preference changed: followed only in system mode. */
    method SystemChanged(dark: bool)
      requires Valid()
      modifies this, doc
      ensures Valid() && theme == old(theme)
      ensures theme == System ==> resolved == (if dark then DarkMode else LightMode)
      ensures theme != System ==> resolved == old(resolved) && doc.classes == old(doc.classes)
      ensures doc.storage == old(doc.storage)
    {
      if theme == System {
        resolved := if dark then DarkMode else LightMode;
        doc.ApplyTheme(resolved);
      }
    }
  }

  /** What `useTheme` hands a component. */
  datatype Context = Context(theme: Theme, resolved: Mode)

  const OutsideProvider := "useTheme must be used within a ThemeProvider"

  /** `useTheme`: the provider's context, or the error it throws outside one. */
  function UseTheme(context: Option<Context>): (r: Result<Context, string>)
    ensures r.Ok? <==> context.Some?
    ensures r.Ok? ==> r.value == context.value
    ensures r.Err? ==> r.error == OutsideProvider
  {
    if context.None? then Err(OutsideProvider) else Ok(context.value)
  }
}
