/**
 * The mobile menu (components/MobileMenu.tsx): a `menuOpen` flag held by the
 * component and the `overflow-hidden` class on the document body, which the
 * two handlers update side by side.
 */
module MobileMenu {
  import opened Wrappers
  import opened Strings
  import NavLinks

  /**
   * `isActive(pathname)` against the router's pathname, which is never null
   * here; the rule is the desktop navigation's.
   */
  predicate IsActive(routerPathname: string, path: string)
    ensures IsActive(routerPathname, path) <==> NavLinks.IsActive(Some(routerPathname), path)
  {
    if path == NavLinks.Root then routerPathname == path else Contains(routerPathname, path)
  }

  class Menu {
    /** The `menuOpen` state. */
    var menuOpen: bool
    /** Whether `document.body.classList` holds `overflow-hidden`. */
    var bodyLocked: bool

    /** The body scrolls exactly when the menu is closed. */
    predicate Consistent()
      reads this
    {
      bodyLocked == menuOpen
    }

    /** Mounting: `useState(false)`, and a body without the class. */
    constructor()
      ensures !menuOpen && !bodyLocked
      ensures Consistent()
    {
      menuOpen := false;
      bodyLocked := false;
    }

    /** `toggleMenu`: toggles the body class and flips `menuOpen`, each on its own. */
    method ToggleMenu()
      modifies this
      ensures menuOpen == !old(menuOpen) && bodyLocked == !old(bodyLocked)
      ensures old(Consistent()) ==> Consistent()
    {
      bodyLocked := !bodyLocked;
      menuOpen := !menuOpen;
    }

    /** `closeMenu`, also run by a click anywhere in the link list: removes the class and closes. */
    method CloseMenu()
      modifies this
      ensures !menuOpen && !bodyLocked
      ensures Consistent()
    {
      bodyLocked := false;
      menuOpen := false;
    }
  }

  /** Toggling twice restores both flags, whatever they were. */
  method ToggleTwice(m: Menu)
    modifies m
    ensures m.menuOpen == old(m.menuOpen) && m.bodyLocked == old(m.bodyLocked)
  {
    m.ToggleMenu();
    m.ToggleMenu();
  }

  /** Closing twice is the same as closing once. */
  method CloseTwice(m: Menu)
    modifies m
    ensures !m.menuOpen && !m.bodyLocked
  {
    m.CloseMenu();
    m.CloseMenu();
  }

  /** What the user does to a mounted menu: press the toggle button, or click the link list. */
  datatype Action = Toggle | Close

  /** Whether the menu is open after `actions`, starting from the mounted state. */
  function OpenAfter(actions: seq<Action>): bool
    decreases |actions|
  {
    if actions == [] then false
    else
      var before := OpenAfter(actions[..|actions| - 1]);
      match actions[|actions| - 1]
      case Toggle => !before
      case Close => false
  }

  /**
   * Mounts a menu and replays `actions` on it; the body is locked exactly when
   * the menu ends up open.
   */
  method Replay(actions: seq<Action>) returns (open: bool, locked: bool)
    ensures open == OpenAfter(actions)
    ensures locked == open
  {
    var m := new Menu();
    for i := 0 to |actions|
      invariant m.menuOpen == OpenAfter(actions[..i])
      invariant m.Consistent()
    {
      assert actions[..i + 1][..i] == actions[..i];
      match actions[i]
      case Toggle => m.ToggleMenu();
      case Close => m.CloseMenu();
    }
    assert actions[..|actions|] == actions;
    open, locked := m.menuOpen, m.bodyLocked;
  }

  /** A closing click ends with the menu closed, and a second one changes nothing. */
  lemma CloseIdempotent(actions: seq<Action>)
    ensures !OpenAfter(actions + [Close])
    ensures OpenAfter(actions + [Close, Close]) == OpenAfter(actions + [Close])
  {
    assert (actions + [Close, Close])[..|actions| + 1] == actions + [Close];
  }

  /** Two presses of the toggle button cancel out. */
  lemma ToggleTwiceCancels(actions: seq<Action>)
    ensures OpenAfter(actions + [Toggle, Toggle]) == OpenAfter(actions)
  {
    assert (actions + [Toggle, Toggle])[..|actions| + 1] == actions + [Toggle];
    assert (actions + [Toggle])[..|actions|] == actions;
  }
}
