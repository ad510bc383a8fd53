/**
 * The light/dark theme: the `dark` class on the root element, the toggle
 * button's `aria-pressed`, and the value stored under the "theme" key.
 * Storage is a slot that may refuse writes (a throwing `setItem` is
 * swallowed); reading it is an input to the constructor, where a read that
 * throws gives `None`, as a missing value does.
 */
module Theme {
  import opened Common

  /** The mode applied at start-up: `saved || system`, where an empty saved
      string counts as missing, and `system` is "dark" exactly when the
      platform reports a dark colour-scheme preference. */
  function InitialMode(saved: Option<string>, systemDark: bool): string {
    if saved.Some? && saved.value != "" then saved.value
    else if systemDark then "dark" else "light"
  }

  /** A saved non-empty value always wins over the platform preference, and
      without one the platform preference decides. */
  lemma InitialModeChoice(saved: Option<string>, systemDark: bool)
    ensures saved.Some? && saved.value != "" ==> InitialMode(saved, systemDark) == saved.value
    ensures (saved.None? || saved.value == "") ==>
              (InitialMode(saved, systemDark) == "dark" <==> systemDark)
  {
  }

  class ThemeToggle {
    /** Whether the page has a `#theme-toggle` button. */
    const hasButton: bool
    /** Whether writes to storage succeed. */
    const storageWritable: bool
    /** The `dark` class on the root element. */
    var dark: bool
    /** The button's `aria-pressed` attribute; `None` while it is unset. */
    var ariaPressed: Option<string>
    /** The value stored under the "theme" key. */
    var stored: Option<string>

    /** `aria-pressed` mirrors the class, and a stored value (when storage
        works) is "dark" exactly when the class is present. */
    ghost predicate Valid()
      reads this
    {
      && (hasButton ==> ariaPressed == Some(BoolText(dark)))
      && (storageWritable ==> stored.Some? && (stored.value == "dark" <==> dark))
    }

    /** Start-up: apply `saved || system`. */
    constructor (saved: Option<string>, systemDark: bool, hasButton: bool, storageWritable: bool)
      ensures this.hasButton == hasButton && this.storageWritable == storageWritable
      ensures dark <==> InitialMode(saved, systemDark) == "dark"
      ensures stored == if storageWritable then Some(InitialMode(saved, systemDark)) else saved
      ensures Valid()
    {
      this.hasButton := hasButton;
      this.storageWritable := storageWritable;
      ariaPressed := None;
      stored := saved;
      new;
      Set(InitialMode(saved, systemDark));
    }

    /** `set(mode)`: the class is present iff the mode is "dark", the mode is
        stored if storage accepts it, and `aria-pressed` follows when there
        is a button. Any string is accepted as a mode. */
    method Set(mode: string)
      modifies this`dark, this`ariaPressed, this`stored
      ensures dark <==> mode == "dark"
      ensures stored == if storageWritable then Some(mode) else old(stored)
      ensures ariaPressed == if hasButton then Some(BoolText(mode == "dark")) else old(ariaPressed)
      ensures Valid()
    {
      dark := mode == "dark";
      if storageWritable {
        stored := Some(mode);
      }
      if hasButton {
        ariaPressed := Some(BoolText(mode == "dark"));
      }
    }

    /** A click on the button inverts the current mode. */
    method Click()
      requires hasButton
      modifies this`dark, this`ariaPressed, this`stored
      ensures dark == !old(dark)
      ensures stored == if storageWritable then Some(if dark then "dark" else "light") else old(stored)
      ensures ariaPressed == Some(BoolText(dark))
      ensures Valid()
    {
      Set(if dark then "light" else "dark");
    }
  }
}
