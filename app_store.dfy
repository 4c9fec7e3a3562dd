/**
 * The application store: the colour theme and whether the sidebar is
 * open.  Only the theme is persisted (under the key 'app-storage'); on a
 * reload the persisted slice is merged over the initial state.
 */
module AppStore {

  datatype Theme = Light | Dark | System

  /** What `partialize` keeps: the theme alone. */
  datatype Persisted = Persisted(theme: Theme)

  class Store {
    var theme: Theme
    var sidebarOpen: bool

    /** The initial state: the system theme, the sidebar closed. */
    constructor()
      ensures theme == System && !sidebarOpen
    {
      theme := System;
      sidebarOpen := false;
    }

    method SetTheme(t: Theme)
      modifies this
      ensures theme == t && sidebarOpen == old(sidebarOpen)
    {
      theme := t;
    }

    method ToggleSidebar()
      modifies this
      ensures sidebarOpen == !old(sidebarOpen) && theme == old(theme)
    {
      sidebarOpen := !sidebarOpen;
    }

    method SetSidebarOpen(open: bool)
      modifies this
      ensures sidebarOpen == open && theme == old(theme)
    {
      sidebarOpen := open;
    }

    /** `partialize`: the slice written to storage. */
    function Saved(): (r: Persisted)
      reads this
      ensures r.theme == theme
    {
      Persisted(theme)
    }

    /**
     * A reload: the store starts from its initial state and the saved
     * slice is merged over it, so the theme survives and the sidebar
     * closes.
     */
    method Reload()
      modifies this
      ensures theme == old(theme) && !sidebarOpen
    {
      var saved := Saved();
      theme := System;
      sidebarOpen := false;
      theme := saved.theme;
    }
  }

  /** Toggling the sidebar twice leaves the store as it was. */
  method ToggleTwice(s: Store)
    modifies s
    ensures s.sidebarOpen == old(s.sidebarOpen) && s.theme == old(s.theme)
  {
    s.ToggleSidebar();
    s.ToggleSidebar();
  }
}
