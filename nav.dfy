/**
 * The mobile navigation menu: the `open` class on the list, the toggle's
 * `aria-expanded`, and the body's `overflow` style. The handlers exist only
 * when both the toggle and the list are on the page.
 */
module Nav {
  import opened Common

  /** Where a click lands: inside the toggle button, inside the list, or
      anywhere else in the document. */
  datatype Target = InToggle | InList | Elsewhere

  class MobileNav {
    /** The `open` class on `#nav-list`. */
    var open: bool
    /** `aria-expanded` on `#nav-toggle`. */
    var ariaExpanded: string
    /** `document.body.style.overflow`. */
    var bodyOverflow: string

    /** The three attributes agree: as `set(open)` leaves them. */
    ghost predicate Synced()
      reads this
    {
      ariaExpanded == BoolText(open) && bodyOverflow == (if open then "hidden" else "")
    }

    /** The markup's initial state; nothing synchronises it before the first
        event. */
    constructor (open: bool, ariaExpanded: string, bodyOverflow: string)
      ensures this.open == open && this.ariaExpanded == ariaExpanded && this.bodyOverflow == bodyOverflow
    {
      this.open, this.ariaExpanded, this.bodyOverflow := open, ariaExpanded, bodyOverflow;
    }

    /** `set(open)`. */
    method Set(o: bool)
      modifies this
      ensures open == o && Synced()
    {
      ariaExpanded := BoolText(o);
      open := o;
      bodyOverflow := if o then "hidden" else "";
    }

    /** The toggle's own click listener: flip the menu. */
    method ToggleClicked()
      modifies this
      ensures open == !old(open) && Synced()
    {
      Set(!open);
    }

    /** The document's click listener: a click outside both the list and the
        toggle closes an open menu; any other click changes nothing. */
    method DocumentClicked(target: Target)
      modifies this
      ensures old(open) && target == Elsewhere ==> !open && Synced()
      ensures !old(open) || target != Elsewhere ==> unchanged(this)
    {
      if !open {
        return;
      }
      if target == Elsewhere {
        Set(false);
      }
    }

    /** The document's keydown listener: Escape closes the menu, even when it
        is already closed (which re-synchronises the attributes). */
    method KeyDown(key: string)
      modifies this
      ensures key == "Escape" ==> !open && Synced()
      ensures key != "Escape" ==> unchanged(this)
    {
      if key == "Escape" {
        Set(false);
      }
    }

    /** One click as the browser dispatches it: the toggle's listener runs
        first when the click is inside the toggle, then the event bubbles to
        the document's listener. */
    method Click(target: Target)
      modifies this
      ensures target == InToggle ==> open == !old(open) && Synced()
      ensures target == InList ==> unchanged(this)
      ensures target == Elsewhere && old(open) ==> !open && Synced()
      ensures target == Elsewhere && !old(open) ==> unchanged(this)
    {
      if target == InToggle {
        ToggleClicked();
      }
      DocumentClicked(target);
    }
  }
}
