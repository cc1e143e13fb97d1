/**
 The theme controller: a dark/light flag that starts from the stored choice
 (or, when nothing is stored, the system's colour-scheme preference), is
 written back to key-value storage under "theme" on every change, and is
 mirrored by a single "dark" class on the document root.

 The transitions are specified by pure functions over `ThemeState`; the
 class `ThemeController` keeps the same state in fields and each method is
 proved to perform one transition.
 */
module Theme {

  /** The storage key of the persisted choice. */
  const ThemeKey: string := "theme"

  /** The class on the document root that switches the dark palette on. */
  const DarkClass: string := "dark"

  const DarkTheme: string := "dark"
  const LightTheme: string := "light"

  /** The theme name for a dark-mode flag: the derived `theme` value and what is stored. */
  function ThemeName(darkMode: bool): (name: string)
    ensures name == DarkTheme || name == LightTheme
    ensures name == DarkTheme <==> darkMode
  {
    if darkMode then DarkTheme else LightTheme
  }

  /**
   The flag at start-up: dark when the stored theme is "dark", or when no
   theme is stored and the system prefers a dark colour scheme. Any other
   stored value means light.
   */
  function InitialDarkMode(storage: map<string, string>, prefersDark: bool): (dark: bool)
    ensures ThemeKey !in storage ==> dark == prefersDark
    ensures ThemeKey in storage ==> (dark <==> storage[ThemeKey] == DarkTheme)
  {
    (ThemeKey in storage && storage[ThemeKey] == DarkTheme) || (ThemeKey !in storage && prefersDark)
  }

  /** A stored choice decides the start-up theme whatever the system prefers; without one the preference decides. */
  lemma InitialDarkModeCases(storage: map<string, string>, prefersDark: bool)
    ensures ThemeKey !in storage ==> InitialDarkMode(storage, prefersDark) == prefersDark
    ensures ThemeKey in storage ==> (InitialDarkMode(storage, prefersDark) <==> storage[ThemeKey] == DarkTheme)
    ensures forall b :: InitialDarkMode(storage[ThemeKey := ThemeName(b)], prefersDark) == b
  {
  }

  /**
   `updateDocumentClass`: the root's class set with "dark" present exactly
   when `isDark`, every other class left as it was.
   */
  function WithDarkClass(classes: set<string>, isDark: bool): (r: set<string>)
    ensures DarkClass in r <==> isDark
    ensures r - {DarkClass} == classes - {DarkClass}
  {
    if isDark then classes + {DarkClass} else classes - {DarkClass}
  }

  /** Setting the class to what it already says changes nothing. */
  lemma WithDarkClassKeeps(classes: set<string>, isDark: bool)
    requires (DarkClass in classes) == isDark
    ensures WithDarkClass(classes, isDark) == classes
  {
    var r := WithDarkClass(classes, isDark);
    assert forall c :: c in r <==> c in classes by {
      forall c ensures c in r <==> c in classes {
        if c != DarkClass {
          assert c in r <==> c in r - {DarkClass};
          assert c in classes <==> c in classes - {DarkClass};
        }
      }
    }
  }

  /** The flag, the key-value storage and the document root's class set. */
  datatype ThemeState = ThemeState(
    darkMode: bool,
    storage: map<string, string>,
    rootClasses: set<string>)

  /** The root class agrees with the flag. */
  ghost predicate Consistent(s: ThemeState)
  {
    (DarkClass in s.rootClasses) == s.darkMode
  }

  /** The root class and the stored theme both agree with the flag. */
  ghost predicate Synced(s: ThemeState)
  {
    Consistent(s) && ThemeKey in s.storage && s.storage[ThemeKey] == ThemeName(s.darkMode)
  }

  /** Storage is the same as before except, possibly, under the theme key. */
  ghost predicate OtherKeysKept(before: map<string, string>, after: map<string, string>)
  {
    forall k :: k != ThemeKey ==> (k in after <==> k in before) && (k in after ==> after[k] == before[k])
  }

  /** Start-up: resolve the flag and apply it to the root, without writing storage. */
  function InitialState(storage: map<string, string>, rootClasses: set<string>, prefersDark: bool): (s: ThemeState)
    ensures s.darkMode == InitialDarkMode(storage, prefersDark)
    ensures Consistent(s) && s.storage == storage
    ensures s.rootClasses - {DarkClass} == rootClasses - {DarkClass}
  {
    var dark := InitialDarkMode(storage, prefersDark);
    ThemeState(dark, storage, WithDarkClass(rootClasses, dark))
  }

  /** `setTheme(isDark)`: set the flag, store its name, and apply it to the root. */
  function SetThemeStep(s: ThemeState, isDark: bool): (r: ThemeState)
    ensures r.darkMode == isDark && Synced(r)
    ensures OtherKeysKept(s.storage, r.storage)
    ensures r.rootClasses - {DarkClass} == s.rootClasses - {DarkClass}
  {
    ThemeState(isDark, s.storage[ThemeKey := ThemeName(isDark)], WithDarkClass(s.rootClasses, isDark))
  }

  /** `toggleTheme()`: flip the flag, store its name, and apply it to the root. */
  function ToggleStep(s: ThemeState): (r: ThemeState)
    ensures r.darkMode == !s.darkMode && Synced(r)
    ensures OtherKeysKept(s.storage, r.storage)
    ensures r.rootClasses - {DarkClass} == s.rootClasses - {DarkClass}
  {
    var dark := !s.darkMode;
    ThemeState(dark, s.storage[ThemeKey := ThemeName(dark)], WithDarkClass(s.rootClasses, dark))
  }

  /** Toggling is setting the opposite of the current flag. */
  lemma ToggleIsSetOpposite(s: ThemeState)
    ensures ToggleStep(s) == SetThemeStep(s, !s.darkMode)
  {
  }

  /** Setting the same theme twice is setting it once. */
  lemma SetThemeIdempotent(s: ThemeState, isDark: bool)
    ensures SetThemeStep(SetThemeStep(s, isDark), isDark) == SetThemeStep(s, isDark)
  {
    var r := SetThemeStep(s, isDark);
    WithDarkClassKeeps(r.rootClasses, isDark);
  }

  /** Toggling twice gives back the flag and the root's classes. */
  lemma ToggleTwice(s: ThemeState)
    requires Consistent(s)
    ensures ToggleStep(ToggleStep(s)).darkMode == s.darkMode
    ensures ToggleStep(ToggleStep(s)).rootClasses == s.rootClasses
  {
    var r := ToggleStep(ToggleStep(s)).rootClasses;
    assert forall c :: c in r <==> c in s.rootClasses by {
      forall c ensures c in r <==> c in s.rootClasses {
        if c != DarkClass {
          assert c in r <==> c in r - {DarkClass};
          assert c in s.rootClasses <==> c in s.rootClasses - {DarkClass};
        }
      }
    }
  }

  /**
   Once the theme has been set or toggled, starting afresh from what is
   stored and on the root reproduces the same state, whatever the system
   prefers: the choice survives a reload.
   */
  lemma ReloadKeepsChoice(s: ThemeState, prefersDark: bool)
    requires Synced(s)
    ensures InitialState(s.storage, s.rootClasses, prefersDark) == s
  {
    WithDarkClassKeeps(s.rootClasses, s.darkMode);
  }

  /** The hook's state as mutable fields; each method performs one transition. */
  class ThemeController {
    var darkMode: bool
    var storage: map<string, string>
    var rootClasses: set<string>

    function State(): ThemeState
      reads this
    {
      ThemeState(darkMode, storage, rootClasses)
    }

    /** Start-up from the stored choice, the root's classes and the system preference. */
    constructor (storage: map<string, string>, rootClasses: set<string>, prefersDark: bool)
      ensures State() == InitialState(storage, rootClasses, prefersDark)
    {
      var isDark := InitialDarkMode(storage, prefersDark);
      darkMode := isDark;
      this.storage := storage;
      this.rootClasses := rootClasses;
      new;
      UpdateDocumentClass(isDark);
    }

    /** Add or remove "dark" on the document root. */
    method UpdateDocumentClass(isDark: bool)
      modifies this
      ensures rootClasses == WithDarkClass(old(rootClasses), isDark)
      ensures darkMode == old(darkMode) && storage == old(storage)
    {
      if isDark {
        rootClasses := rootClasses + {DarkClass};
      } else {
        rootClasses := rootClasses - {DarkClass};
      }
    }

    method ToggleTheme()
      modifies this
      ensures State() == ToggleStep(old(State()))
    {
      var newDarkMode := !darkMode;
      darkMode := newDarkMode;
      storage := storage[ThemeKey := if newDarkMode then DarkTheme else LightTheme];
      UpdateDocumentClass(newDarkMode);
    }

    method SetTheme(isDark: bool)
      modifies this
      ensures State() == SetThemeStep(old(State()), isDark)
    {
      darkMode := isDark;
      storage := storage[ThemeKey := if isDark then DarkTheme else LightTheme];
      UpdateDocumentClass(isDark);
    }

    /** The derived `theme` value: "dark" exactly in dark mode, otherwise "light". */
    function Theme(): (name: string)
      reads this
      ensures name == DarkTheme <==> darkMode
      ensures name == DarkTheme || name == LightTheme
    {
      ThemeName(darkMode)
    }
  }
}
