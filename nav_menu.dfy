/** The mobile menu (script.js:1-19): the hamburger toggles the `active`
    class on itself and on the menu panel; a click on any navigation link
    removes it from both. */
module NavMenu {

  class MobileMenu {
    /** The hamburger carries `active`. */
    var hamburgerActive: bool
    /** The menu panel carries `active`. */
    var menuActive: bool

    /** The two classes are toggled and cleared together, so they agree. */
    ghost predicate Valid()
      reads this
    {
      hamburgerActive == menuActive
    }

    constructor ()
      ensures Valid() && !menuActive
    {
      hamburgerActive, menuActive := false, false;
    }

    /** A click on the hamburger flips both classes. */
    method Toggle()
      requires Valid()
      modifies this
      ensures Valid()
      ensures menuActive == !old(menuActive) && hamburgerActive == !old(hamburgerActive)
    {
      hamburgerActive := !hamburgerActive;
      menuActive := !menuActive;
    }

    /** A click on a navigation link closes the menu, open or not. */
    method LinkClick()
      requires Valid()
      modifies this
      ensures Valid()
      ensures !hamburgerActive && !menuActive
    {
      hamburgerActive := false;
      menuActive := false;
    }
  }
}
