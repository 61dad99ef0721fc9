/** The theme preference both versions resolve at start-up:
    `localStorage.getItem('theme') || (prefersDark ? 'dark' : 'light')`. */
module Theme {
  import opened Common

  const Dark := "dark"
  const Light := "light"

  /** The stored value when it is truthy (any non-empty string, not only
      "dark" or "light"), otherwise the operating system's preference. Dark
      mode starts on exactly when "dark" is stored, or nothing usable is
      stored and the operating system prefers dark: a stored "light" beats an
      operating system that prefers dark. */
  function ResolveTheme(stored: Option<string>, prefersDark: bool): (theme: string)
    ensures theme != ""
    ensures Truthy(stored) ==> theme == stored.value
    ensures !Truthy(stored) ==> theme == (if prefersDark then Dark else Light)
    ensures theme == Dark <==> stored == Some(Dark) || (!Truthy(stored) && prefersDark)
  {
    if Truthy(stored) then stored.value else if prefersDark then Dark else Light
  }

  /** The value a toggle writes for the new state. */
  function ThemeName(dark: bool): (name: string)
    ensures name == Dark <==> dark
    ensures !dark ==> name == Light
  {
    if dark then Dark else Light
  }
}
