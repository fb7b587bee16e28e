/**
 * The theme controller `ThemeManager` (scripts/theme.js). The theme shown is
 * the one saved in local storage when that value is set (not null and not
 * the empty string), and otherwise the operating system's colour-scheme
 * preference. An explicit choice, once saved, therefore beats the system.
 *
 * The system preference (`window.matchMedia('(prefers-color-scheme: dark)')`)
 * is an input: a field holding its last reported value. The document root
 * and the toggle button are fields holding what `setTheme` and
 * `updateToggleButton` write to them.
 */
module Theme {
  import opened Wrappers
  import opened Persistence

  const StorageKey := "app-theme"
  const DarkTheme := "dark"
  const LightTheme := "light"

  /** `getSystemTheme`: "dark" exactly when the system prefers a dark scheme, else "light". */
  function SystemTheme(prefersDark: bool): (r: string)
    ensures r == DarkTheme || r == LightTheme
    ensures r == DarkTheme <==> prefersDark
  {
    if prefersDark then DarkTheme else LightTheme
  }

  /** JavaScript truthiness of what `getSavedTheme` returns: `null` and "" are false. */
  predicate IsSet(saved: Option<string>)
    ensures IsSet(saved) <==> saved != None && saved != Some("")
  {
    saved.Some? && saved.value != ""
  }

  /**
   * `getCurrentTheme`: a set saved value wins whatever the system says; with
   * nothing set, the system preference decides. The result is never empty.
   */
  function CurrentTheme(saved: Option<string>, prefersDark: bool): (r: string)
    ensures r != ""
    ensures IsSet(saved) ==> r == saved.value
    ensures !IsSet(saved) ==> (r == DarkTheme <==> prefersDark) && (r == DarkTheme || r == LightTheme)
  {
    if IsSet(saved) then saved.value else SystemTheme(prefersDark)
  }

  /** The theme `toggleTheme` switches to: "light" from "dark", "dark" from anything else. */
  function Opposite(current: string): (r: string)
    ensures r == DarkTheme || r == LightTheme
    ensures r == LightTheme <==> current == DarkTheme
  {
    if current == DarkTheme then LightTheme else DarkTheme
  }

  /** Switching twice comes back exactly when the start was "dark" or "light". */
  lemma OppositeTwice(current: string)
    ensures Opposite(Opposite(current)) == current <==> current == DarkTheme || current == LightTheme
  {
  }

  /** What `setTheme` leaves on the document root: the `data-theme` attribute and the CSS `color-scheme`. */
  datatype RootStyle = RootStyle(dataTheme: Option<string>, colorScheme: string)

  const DarkStyle := RootStyle(Some(DarkTheme), "dark")
  const LightStyle := RootStyle(None, "light")

  /** `setTheme`: the dark style for exactly "dark"; any other value, known or not, gets the light style. */
  function StyleFor(theme: string): (r: RootStyle)
    ensures r == DarkStyle || r == LightStyle
    ensures r == DarkStyle <==> theme == DarkTheme
  {
    if theme == DarkTheme then DarkStyle else LightStyle
  }

  /** What `updateToggleButton` writes on the toggle button. */
  datatype ButtonFace = ButtonFace(icon: string, ariaLabel: string, title: string)

  const Sun := "\U{2600}\U{FE0F}"
  const Moon := "\U{1F319}"

  /**
   * `updateToggleButton`: the button offers the theme a toggle would switch
   * to, "Switch to light mode" on a dark page and "Switch to dark mode" on
   * any other.
   */
  function FaceFor(theme: string): (r: ButtonFace)
    ensures r.ariaLabel == "Switch to " + Opposite(theme) + " mode"
    ensures r.icon == (if Opposite(theme) == LightTheme then Sun else Moon)
    ensures r.title == (if Opposite(theme) == LightTheme then "Light mode" else "Dark mode")
  {
    if theme == DarkTheme then ButtonFace(Sun, "Switch to light mode", "Light mode")
    else ButtonFace(Moon, "Switch to dark mode", "Dark mode")
  }

  /**
   * After one toggle the saved value is "dark" or "light"; a second toggle
   * returns to the theme shown before the first exactly when that theme was
   * "dark" or "light" (a saved value of any other kind is not restored).
   */
  lemma ToggleTwice(saved: Option<string>, prefersDark: bool)
    ensures var first := Opposite(CurrentTheme(saved, prefersDark));
            var second := Opposite(CurrentTheme(Some(first), prefersDark));
            && (first == DarkTheme || first == LightTheme)
            && (second == CurrentTheme(saved, prefersDark) <==>
                  CurrentTheme(saved, prefersDark) == DarkTheme || CurrentTheme(saved, prefersDark) == LightTheme)
  {
    OppositeTwice(CurrentTheme(saved, prefersDark));
  }

  /** `ThemeManager`: the saved choice in `storage`, the system preference, and what the page shows. */
  class ThemeManager {
    const storage: Storage<string>
    /** Whether the page has a `#theme-toggle` element; without one the button is never touched. */
    const hasButton: bool
    /** The system preference, as last reported. */
    var prefersDark: bool
    var root: RootStyle
    var button: Option<ButtonFace>

    /** `getSavedTheme` */
    function SavedTheme(): (r: Option<string>)
      reads storage
      ensures r.Some? <==> StorageKey in storage.items
      ensures r.Some? ==> r.value == storage.items[StorageKey]
    {
      storage.GetItem(StorageKey)
    }

    /** `getCurrentTheme` on the present state. */
    function Current(): (r: string)
      reads this, storage
      ensures r != ""
      ensures StorageKey in storage.items && storage.items[StorageKey] != "" ==> r == storage.items[StorageKey]
      ensures !(StorageKey in storage.items && storage.items[StorageKey] != "") ==> r == SystemTheme(prefersDark)
    {
      CurrentTheme(SavedTheme(), prefersDark)
    }

    /** The page shows the current theme: root style and (when present) button both follow `Current()`. */
    ghost predicate Valid()
      reads this, storage
    {
      && root == StyleFor(Current())
      && (hasButton ==> button == Some(FaceFor(Current())))
    }

    /** `init`: apply the current theme at page load. */
    constructor (storage: Storage<string>, prefersDark: bool, hasButton: bool)
      ensures this.storage == storage && this.prefersDark == prefersDark && this.hasButton == hasButton
      ensures Valid()
      ensures root == StyleFor(CurrentTheme(storage.GetItem(StorageKey), prefersDark))
      ensures !hasButton ==> button == None
    {
      this.storage := storage;
      this.prefersDark := prefersDark;
      this.hasButton := hasButton;
      root := LightStyle;
      button := None;
      new;
      ApplyTheme();
    }

    /** `updateToggleButton`: nothing to do without a button. */
    method UpdateToggleButton()
      modifies this`button
      ensures hasButton ==> button == Some(FaceFor(Current()))
      ensures !hasButton ==> button == old(button)
    {
      if !hasButton {
        return;
      }
      button := Some(FaceFor(Current()));
    }

    /** `applyTheme`: make the page show the current theme. */
    method ApplyTheme()
      modifies this`root, this`button
      ensures Valid()
      ensures root == StyleFor(Current())
      ensures !hasButton ==> button == old(button)
    {
      root := StyleFor(Current());
      UpdateToggleButton();
    }

    /**
     * `toggleTheme`: save the opposite of the current theme and show it. The
     * saved value is then set, so it is what the page shows from now on.
     */
    method ToggleTheme()
      modifies this`root, this`button, storage
      ensures storage.items == old(storage.items)[StorageKey := Opposite(old(Current()))]
      ensures IsSet(SavedTheme()) && Current() == Opposite(old(Current()))
      ensures root == StyleFor(Current())
      ensures Valid()
      ensures !hasButton ==> button == old(button)
    {
      var current := Current();
      var newTheme := Opposite(current);
      storage.SetItem(StorageKey, newTheme);
      root := StyleFor(newTheme);
      UpdateToggleButton();
    }

    /**
     * The `change` listener on the system preference: with a set saved
     * value the page is left exactly as it was; with none, the page follows
     * the new preference.
     */
    method OnSystemPreferenceChange(prefersDark: bool)
      requires Valid()
      modifies this`prefersDark, this`root, this`button
      ensures this.prefersDark == prefersDark
      ensures Valid()
      ensures IsSet(SavedTheme()) ==> Current() == old(Current()) && root == old(root) && button == old(button)
      ensures !IsSet(SavedTheme()) ==> root == StyleFor(SystemTheme(prefersDark))
      ensures !hasButton ==> button == old(button)
    {
      this.prefersDark := prefersDark;
      if !IsSet(SavedTheme()) {
        ApplyTheme();
      }
    }
  }

  /**
   * With nothing saved the page follows the system; after a toggle it keeps
   * the chosen theme through any later system change. Returns the theme shown
   * at load, the one chosen by the toggle, the one current after the change,
   * and the root style and button face the page then shows.
   */
  method ExplicitChoiceWins(storage: Storage<string>, prefersDark: bool, later: bool)
    returns (atLoad: string, chosen: string, afterChange: string, rootAfter: RootStyle, buttonAfter: Option<ButtonFace>)
    requires StorageKey !in storage.items
    modifies storage
    ensures atLoad == SystemTheme(prefersDark)
    ensures chosen == Opposite(atLoad)
    ensures afterChange == chosen
    ensures rootAfter == StyleFor(chosen) && buttonAfter == Some(FaceFor(chosen))
  {
    var m := new ThemeManager(storage, prefersDark, true);
    atLoad := m.Current();
    m.ToggleTheme();
    chosen := m.Current();
    m.OnSystemPreferenceChange(later);
    afterChange := m.Current();
    rootAfter, buttonAfter := m.root, m.button;
  }
}
