/**
 * The theme button of the action group: what a click chooses next, and the
 * icon and tooltip it shows.
 */
module ActionGroup {
  import opened ThemeContext

  /** `handleThemeToggle`: light to dark, dark to auto, auto and system to light. */
  function NextTheme(t: Theme): (r: Theme)
    ensures r != System
    ensures t == Light ==> r == Dark
    ensures t == Dark ==> r == Auto
    ensures t == Auto || t == System ==> r == Light
  {
    if t == Light then Dark else if t == Dark then Auto else Light
  }

  /** Three clicks from light, dark or auto come back; from system the cycle is entered at light. */
  lemma ToggleCycle(t: Theme)
    ensures t != System ==> NextTheme(NextTheme(NextTheme(t))) == t
    ensures NextTheme(System) == Light
    ensures NextTheme(t) != t
  {
  }

  /** After the first click the theme repeats every three clicks and is never system. */
  lemma ClicksRepeat(t: Theme, n: nat)
    requires n >= 1
    ensures Iterate(t, n) != System
    ensures Iterate(t, n + 3) == Iterate(t, n)
  {
    var u := Iterate(t, n);
    assert Iterate(t, n + 1) == NextTheme(u);
    assert Iterate(t, n + 2) == NextTheme(NextTheme(u));
    assert Iterate(t, n + 3) == NextTheme(NextTheme(NextTheme(u)));
    ToggleCycle(u);
  }

  /** `n` clicks from `t`. */
  function Iterate(t: Theme, n: nat): Theme
    decreases n
  {
    if n == 0 then t else NextTheme(Iterate(t, n - 1))
  }

  datatype Icon = SunMoon | Moon | Sun

  /** The icon: sun-and-moon in auto mode, else the moon when the page is dark, else the sun. */
  function ThemeIcon(t: Theme, resolved: Mode): (i: Icon)
    ensures i == SunMoon <==> t == Auto
    ensures i == Moon <==> t != Auto && resolved == DarkMode
    ensures i == Sun <==> t != Auto && resolved.LightMode?
  {
    if t == Auto then SunMoon else if resolved == DarkMode then Moon else Sun
  }

  /** The tooltip's translation key. */
  function TitleKey(t: Theme, resolved: Mode): string {
    if t == Auto then "themeAuto" else if resolved == DarkMode then "themeDark" else "themeLight"
  }

  /** The tooltip always names what the icon shows. */
  lemma TitleMatchesIcon(t: Theme, resolved: Mode)
    ensures TitleKey(t, resolved) == "themeAuto" <==> ThemeIcon(t, resolved) == SunMoon
    ensures TitleKey(t, resolved) == "themeDark" <==> ThemeIcon(t, resolved) == Moon
    ensures TitleKey(t, resolved) == "themeLight" <==> ThemeIcon(t, resolved) == Sun
  {
  }
}
