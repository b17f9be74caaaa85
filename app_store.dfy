/** The application store: sidebar state, the active page and the colour
    theme, together with the effects the theme helpers have on the page
    (`dark` class), on the persisted `theme` entry and on the listener for
    the system colour scheme. */
module AppStore {
  import opened Wrappers

  datatype Theme = Light | Dark | System

  const DefaultSidebarWidth: real := 260.0

  /** The persisted spelling of a theme. */
  function ThemeName(t: Theme): string {
    match t
    case Light => "light"
    case Dark => "dark"
    case System => "system"
  }

  /** `getInitialTheme`: a persisted value that names a theme is used,
      anything else (nothing stored, or an unknown string) gives `system`. */
  function InitialTheme(stored: Option<string>): (t: Theme)
    ensures stored == Some(ThemeName(t)) || (t == System && forall u :: stored != Some(ThemeName(u)))
  {
    if stored == Some("light") then Light
    else if stored == Some("dark") then Dark
    else System
  }

  /** A theme that was persisted is the theme the next start-up picks. */
  lemma InitialThemeRestoresPersisted(t: Theme)
    ensures InitialTheme(Some(ThemeName(t))) == t
  {
    assert ThemeName(t) == "light" ==> t == Light;
    assert ThemeName(t) == "dark" ==> t == Dark;
  }

  /** `cycleTheme`'s successor: light, then dark, then system, then light. */
  function NextTheme(t: Theme): (n: Theme)
    ensures n != t
  {
    match t
    case Light => Dark
    case Dark => System
    case System => Light
  }

  /** Three cycles come back to the starting theme, and the cycle passes
      through every theme on the way. */
  lemma CycleReturnsAfterThree(t: Theme)
    ensures NextTheme(NextTheme(NextTheme(t))) == t
    ensures {t, NextTheme(t), NextTheme(NextTheme(t))} == {Light, Dark, System}
  {
  }

  /** The cycle runs light, dark, system and back to light. */
  lemma CycleOrder()
    ensures NextTheme(Light) == Dark && NextTheme(Dark) == System && NextTheme(System) == Light
  {
  }

  /** Whether `applyTheme` puts the `dark` class on the document. */
  function IsDark(t: Theme, prefersDark: bool): (dark: bool)
    ensures dark <==> t == Dark || (t == System && prefersDark)
  {
    t == Dark || (t == System && prefersDark)
  }

  /** Only in system mode does the device's scheme decide the page's look;
      there it decides it alone. */
  lemma DeviceSchemeMattersOnlyInSystem(t: Theme, prefersDark: bool, other: bool)
    ensures t != System ==> IsDark(t, prefersDark) == IsDark(t, other)
    ensures IsDark(System, prefersDark) == prefersDark
    ensures !IsDark(Light, prefersDark) && IsDark(Dark, prefersDark)
  {
  }

  class AppState {
    var sidebarOpen: bool
    var sidebarWidth: real
    var activePageId: Option<string>
    var theme: Theme
    /** The persisted `theme` entry. */
    var storedTheme: Option<string>
    /** Whether the document carries the `dark` class. */
    var darkClass: bool
    /** Whether a listener for system colour-scheme changes is installed. */
    var followsSystem: bool

    /** The theme in effect is the one persisted, and the system listener
        is installed exactly in `system` mode. */
    ghost predicate Valid()
      reads this
    {
      storedTheme == Some(ThemeName(theme)) && (followsSystem <==> theme == System)
    }

    /** Store creation: the initial theme is read, applied and listened
        for; the sidebar starts open at its default width with no active
        page. */
    constructor (stored: Option<string>, prefersDark: bool)
      ensures Valid()
      ensures theme == InitialTheme(stored)
      ensures sidebarOpen && sidebarWidth == DefaultSidebarWidth && activePageId == None
      ensures darkClass == IsDark(theme, prefersDark)
    {
      var initial := InitialTheme(stored);
      sidebarOpen := true;
      sidebarWidth := DefaultSidebarWidth;
      activePageId := None;
      theme := initial;
      darkClass := IsDark(initial, prefersDark);
      storedTheme := Some(ThemeName(initial));
      followsSystem := initial == System;
    }

    method ToggleSidebar()
      modifies this`sidebarOpen
      ensures sidebarOpen == !old(sidebarOpen)
    {
      sidebarOpen := !sidebarOpen;
    }

    /** The width is stored as given, without clamping. */
    method SetSidebarWidth(width: real)
      modifies this`sidebarWidth
      ensures sidebarWidth == width
    {
      sidebarWidth := width;
    }

    method SetActivePage(id: Option<string>)
      modifies this`activePageId
      ensures activePageId == id
    {
      activePageId := id;
    }

    /** `applyTheme` followed by `setupSystemThemeListener`. */
    method ApplyTheme(t: Theme, prefersDark: bool)
      modifies this`darkClass, this`storedTheme, this`followsSystem
      ensures darkClass == IsDark(t, prefersDark)
      ensures storedTheme == Some(ThemeName(t))
      ensures followsSystem <==> t == System
    {
      darkClass := IsDark(t, prefersDark);
      storedTheme := Some(ThemeName(t));
      followsSystem := t == System;
    }

    method SetTheme(t: Theme, prefersDark: bool)
      modifies this`theme, this`darkClass, this`storedTheme, this`followsSystem
      ensures Valid() && theme == t
      ensures darkClass == IsDark(t, prefersDark)
    {
      ApplyTheme(t, prefersDark);
      theme := t;
    }

    method CycleTheme(prefersDark: bool)
      modifies this`theme, this`darkClass, this`storedTheme, this`followsSystem
      ensures Valid() && theme == NextTheme(old(theme))
      ensures darkClass == IsDark(theme, prefersDark)
    {
      var next := NextTheme(theme);
      ApplyTheme(next, prefersDark);
      theme := next;
    }

    /** The installed listener re-applies `system` when the device's colour
        scheme changes; without it nothing happens. */
    method SystemSchemeChanged(prefersDark: bool)
      requires Valid()
      modifies this`darkClass, this`storedTheme, this`followsSystem
      ensures Valid()
      ensures darkClass == (if theme == System then prefersDark else old(darkClass))
    {
      if followsSystem {
        ApplyTheme(System, prefersDark);
      }
    }
  }

  /** Toggling the sidebar twice leaves it as it was. */
  method ToggleTwiceRestores(s: AppState)
    modifies s
    ensures s.sidebarOpen == old(s.sidebarOpen)
  {
    s.ToggleSidebar();
    s.ToggleSidebar();
  }

  /** Three theme cycles restore the theme and what is persisted for it. */
  method CycleThriceRestores(s: AppState, prefersDark: bool)
    requires s.Valid()
    modifies s
    ensures s.Valid() && s.theme == old(s.theme) && s.storedTheme == old(s.storedTheme)
  {
    s.CycleTheme(prefersDark);
    s.CycleTheme(prefersDark);
    s.CycleTheme(prefersDark);
    CycleReturnsAfterThree(old(s.theme));
  }
}
