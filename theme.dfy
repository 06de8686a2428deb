/**
 * The theme preference of app.js: read once at start-up, flipped and written
 * back by the theme button. The value is stored as raw text (no JSON).
 */
module Theme {
  import opened Wrappers

  const DARK: string := "dark"
  const LIGHT: string := "light"

  /** `localStorage.getItem(THEME) || 'dark'`: a missing key (null) and an
      empty string are both falsy and give the default. */
  function SavedTheme(stored: Option<string>): (t: string)
    ensures t != ""
    ensures stored.Some? && stored.value != "" ==> t == stored.value
    ensures stored.None? || stored.value == "" ==> t == DARK
  {
    match stored
    case Some(text) => if text != "" then text else DARK
    case None => DARK
  }

  /** Whether the page starts in dark mode: only when the saved theme is
      exactly "dark"; any other non-empty text starts in light mode. */
  function StartsDark(stored: Option<string>): (dark: bool)
    ensures dark <==> stored.None? || stored.value == "" || stored.value == DARK
  {
    SavedTheme(stored) == DARK
  }

  /** The effect of one click on the theme button. */
  datatype Toggle = Toggle(dark: bool, written: string)

  /** The click handler: dark mode flips and the name of the new mode is
      written under the key "nlm_theme". */
  function ToggleTheme(dark: bool): (t: Toggle)
    ensures t.dark != dark
    ensures t.written == DARK || t.written == LIGHT
    ensures StartsDark(Some(t.written)) == t.dark
  {
    var now := !dark;
    Toggle(now, if now then DARK else LIGHT)
  }

  /** Two clicks restore both the mode and the stored text of a page that
      started from a stored "dark" or "light". */
  lemma ToggleTwice(dark: bool)
    ensures ToggleTheme(ToggleTheme(dark).dark).dark == dark
    ensures ToggleTheme(ToggleTheme(dark).dark).written == (if dark then DARK else LIGHT)
  {
  }
}
