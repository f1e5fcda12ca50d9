/**
  * The theme provider (`ThemeContext`): the chosen theme comes from the browser's
  * storage when signed out and from the `user_preferences` row when signed in, any
  * unknown value counting as "system"; the page is dark for "dark", and for "system"
  * when the system prefers dark; `setTheme` changes the state, the storage and, signed
  * in, the row.
  */
module Theme {
  import opened Wrappers

  type UserId = string

  datatype Theme = Light | Dark | System

  function ThemeName(t: Theme): string {
    match t
    case Light => "light"
    case Dark => "dark"
    case System => "system"
  }

  /**
    * A stored or saved value read back as a theme: one of the three names gives that
    * theme, anything else (nothing, the empty string, another word) gives "system".
    */
  function ParseTheme(value: Option<string>): (r: Theme)
    ensures value.Some? && value.value == "light" ==> r == Light
    ensures value.Some? && value.value == "dark" ==> r == Dark
    ensures !(value.Some? && value.value in {"light", "dark"}) ==> r == System
  {
    if value == Some("light") then Light
    else if value == Some("dark") then Dark
    else System
  }

  /** Every theme survives being written out by name and read back. */
  lemma ParseThemeName(t: Theme)
    ensures ParseTheme(Some(ThemeName(t))) == t
  {
  }

  /** Only the three names are read back as themes other than "system", and each as its own. */
  lemma ParseThemeOnlyNames(value: Option<string>)
    ensures ParseTheme(value) != System ==> value == Some(ThemeName(ParseTheme(value)))
  {
  }

  /** `applyTheme`: whether the `dark` class is on. */
  function IsDark(t: Theme, prefersDark: bool): (r: bool)
    ensures r <==> t == Dark || (t == System && prefersDark)
  {
    if t == System then prefersDark else t == Dark
  }

  /** The system preference matters only in "system" mode; light is never dark, dark always is. */
  lemma IsDarkFollowsPreference(t: Theme)
    ensures t != System ==> IsDark(t, true) == IsDark(t, false)
    ensures !IsDark(Light, true) && IsDark(Dark, false)
    ensures t == System ==> IsDark(t, true) != IsDark(t, false)
  {
  }

  class ThemeProvider {
    var theme: Theme
    var loaded: bool
    /** The storage's `theme` entry. */
    var stored: Option<string>
    /** Whether the `dark` class is on the document root. */
    var dark: bool
    /** The `theme` column of `user_preferences`, by user. */
    var saved: map<UserId, string>

    constructor (stored0: Option<string>, saved0: map<UserId, string>, dark0: bool)
      ensures theme == System && !loaded && stored == stored0 && saved == saved0 && dark == dark0
    {
      theme := System;
      loaded := false;
      stored := stored0;
      saved := saved0;
      dark := dark0;
    }

    /** The stored entry names the current theme. */
    predicate StoredAgrees()
      reads this
    {
      ParseTheme(stored) == theme
    }

    /** Signed out: the theme is read from storage. */
    method LoadSignedOut()
      modifies this
      ensures theme == ParseTheme(old(stored)) && loaded && StoredAgrees()
      ensures stored == old(stored) && saved == old(saved) && dark == old(dark)
    {
      theme := ParseTheme(stored);
      loaded := true;
    }

    /**
      * Signed in: the theme is read from the user's row (a missing row reads as
      * nothing) and written to storage under its own name.
      */
    method LoadSignedIn(user: UserId)
      modifies this
      ensures theme == ParseTheme(if user in old(saved) then Some(old(saved)[user]) else None)
      ensures stored == Some(ThemeName(theme)) && loaded && StoredAgrees()
      ensures saved == old(saved) && dark == old(dark)
    {
      var row := if user in saved then Some(saved[user]) else None;
      theme := ParseTheme(row);
      stored := Some(ThemeName(theme));
      ParseThemeName(theme);
      loaded := true;
    }

    /** The effect on a theme change: once loaded, the page follows the theme. */
    method Apply(prefersDark: bool)
      modifies this
      ensures dark == (if loaded then IsDark(theme, prefersDark) else old(dark))
      ensures theme == old(theme) && loaded == old(loaded) && stored == old(stored) && saved == old(saved)
    {
      if loaded {
        dark := IsDark(theme, prefersDark);
      }
    }

    /**
      * `setTheme`: the state, the page and the storage take the new theme at once; with
      * a user, that user's row is updated (an update of a missing row changes nothing)
      * and no other row is.
      */
    method SetTheme(user: Option<UserId>, newTheme: Theme, prefersDark: bool)
      modifies this
      ensures theme == newTheme && dark == IsDark(newTheme, prefersDark)
      ensures stored == Some(ThemeName(newTheme)) && StoredAgrees()
      ensures user.Some? && user.value in old(saved) ==> saved == old(saved)[user.value := ThemeName(newTheme)]
      ensures !(user.Some? && user.value in old(saved)) ==> saved == old(saved)
      ensures loaded == old(loaded)
    {
      theme := newTheme;
      dark := IsDark(newTheme, prefersDark);
      stored := Some(ThemeName(newTheme));
      ParseThemeName(newTheme);
      if user.Some? && user.value in saved {
        saved := saved[user.value := ThemeName(newTheme)];
      }
    }
  }
}
