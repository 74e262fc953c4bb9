/**
 * The mobile navigation menu: the hamburger button, the `.nav-menu` panel and
 * the handlers that open and close them. The closure variable `isMenuOpen`
 * becomes a field beside the parts of the page the handlers write.
 */
module Menu {

  /** A boolean as `setAttribute` writes it. */
  function BoolText(b: bool): (r: string)
    ensures r == "true" || r == "false"
    ensures (r == "true") == b
  {
    if b then "true" else "false"
  }

  /** Where a click lands, as far as the click listeners can tell. */
  datatype ClickTarget =
    | OnHamburger   // the hamburger button or something inside it
    | OnNavLink     // a `.nav-link`, which lies inside the menu
    | InsideMenu    // any other place inside the menu
    | Elsewhere     // anywhere outside both

  class NavMenu {
    var isOpen: bool
    /** The `active` class on the hamburger button. */
    var hamburgerActive: bool
    /** The `active` class on the menu. */
    var menuActive: bool
    /** The hamburger's `aria-expanded`. */
    var ariaExpanded: string
    /** The menu's `aria-hidden`. */
    var ariaHidden: string
    /** `document.body.style.overflow`: scrolling is locked while the menu is open. */
    var bodyOverflow: string

    /** Every visible part of the menu agrees with `isOpen`. */
    ghost predicate Valid()
      reads this
    {
      && hamburgerActive == isOpen
      && menuActive == isOpen
      && ariaExpanded == BoolText(isOpen)
      && ariaHidden == BoolText(!isOpen)
      && bodyOverflow == (if isOpen then "hidden" else "auto")
    }

    /** The menu as the page loads: closed. */
    constructor ()
      ensures !isOpen && Valid()
    {
      isOpen := false;
      hamburgerActive := false;
      menuActive := false;
      ariaExpanded := "false";
      ariaHidden := "true";
      bodyOverflow := "auto";
    }

    /** The hamburger's own click listener: flip the menu. */
    method HamburgerClick()
      requires Valid()
      modifies this
      ensures isOpen == !old(isOpen)
      ensures hamburgerActive == !old(hamburgerActive) && menuActive == !old(menuActive)
      ensures ariaExpanded == BoolText(isOpen)
      ensures Valid()
    {
      isOpen := !isOpen;
      hamburgerActive := !hamburgerActive;
      menuActive := !menuActive;
      ariaExpanded := BoolText(isOpen);
      ariaHidden := BoolText(!isOpen);
      bodyOverflow := if isOpen then "hidden" else "auto";
    }

    /** `closeMenu`: closed afterwards, whatever the state before. */
    method CloseMenu()
      modifies this
      ensures !isOpen && Valid()
    {
      isOpen := false;
      hamburgerActive := false;
      menuActive := false;
      ariaExpanded := BoolText(false);
      ariaHidden := BoolText(true);
      bodyOverflow := "auto";
    }

    /** The document's `keydown` listener: Escape closes an open menu. */
    method KeyDown(key: string)
      requires Valid()
      modifies this
      ensures isOpen == (old(isOpen) && key != "Escape")
      ensures !old(isOpen) || key != "Escape" ==> unchanged(this)
      ensures Valid()
    {
      if key == "Escape" && isOpen {
        CloseMenu();
      }
    }

    /** The document's `click` listener: a click outside both elements closes an open menu. */
    method DocumentClick(inHamburger: bool, inMenu: bool)
      requires Valid()
      modifies this
      ensures isOpen == (old(isOpen) && (inHamburger || inMenu))
      ensures !old(isOpen) || inHamburger || inMenu ==> unchanged(this)
      ensures Valid()
    {
      if isOpen && !inHamburger && !inMenu {
        CloseMenu();
      }
    }

    /**
     * A whole click: the listener on the element clicked runs first (the
     * hamburger's toggle, or a link's `closeMenu`), then the event bubbles to
     * the document's listener.
     */
    method Click(target: ClickTarget)
      requires Valid()
      modifies this
      ensures isOpen == match target
        case OnHamburger => !old(isOpen)
        case OnNavLink => false
        case InsideMenu => old(isOpen)
        case Elsewhere => false
      ensures Valid()
    {
      if target == OnHamburger {
        HamburgerClick();
      } else if target == OnNavLink {
        CloseMenu();
      }
      DocumentClick(target == OnHamburger, target == OnNavLink || target == InsideMenu);
    }
  }
}
