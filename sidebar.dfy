/**
 * The navigation sidebar: which entries are highlighted for the current
 * path, how each entry renders, and which submenus are expanded.  The
 * expansion record is state: a click on a parent flips it, and an effect
 * on the path opens every parent with a child linking to the path.  The
 * menu itself comes from the navigation constants, which are not part of
 * this model: it is a parameter.
 */
module Sidebar {
  import opened Wrappers

  /** An entry's own fields (a child entry has nothing more). */
  datatype Entry = Entry(id: string, text: string, href: Option<string>, enabled: bool, selected: bool)

  /** A top-level entry with its children. */
  datatype NavItem = NavItem(entry: Entry, children: seq<Entry>)

  datatype Section = Section(title: string, items: seq<NavItem>)

  /** A JavaScript truthiness test on an optional href. */
  predicate HasHref(e: Entry)
  {
    e.href.Some? && e.href.value != ""
  }

  /** `item.selected || (item.href && pathname === item.href)`. */
  predicate IsActive(e: Entry, pathname: string)
  {
    e.selected || (HasHref(e) && pathname == e.href.value)
  }

  predicate HasActiveChild(item: NavItem, pathname: string)
  {
    exists i :: 0 <= i < |item.children| && IsActive(item.children[i], pathname)
  }

  /** The highlighted style: the entry itself is active or one of its children is. */
  predicate Highlighted(item: NavItem, pathname: string)
  {
    IsActive(item.entry, pathname) || HasActiveChild(item, pathname)
  }

  /** A parent is highlighted on its child's page even when it is not selected and has no link of its own. */
  lemma ParentHighlightedOnChildPage(item: NavItem, k: nat)
    requires k < |item.children| && HasHref(item.children[k])
    ensures Highlighted(item, item.children[k].href.value)
  {
  }

  // ---------------------------------------------------------------------------
  // Expansion record

  /** `expandedSubmenus[id] || false`: an absent id is collapsed. */
  predicate IsExpanded(expanded: map<string, bool>, id: string)
  {
    id in expanded && expanded[id]
  }

  /** The record the sidebar starts with: only the push-notifications submenu is open. */
  const InitialExpanded: map<string, bool> := map["push" := true]

  /** `toggleSubmenu`: the id's flag becomes the negation of its reading. */
  function Toggled(expanded: map<string, bool>, id: string): (r: map<string, bool>)
    ensures IsExpanded(r, id) == !IsExpanded(expanded, id)
    ensures forall k :: k != id ==> IsExpanded(r, k) == IsExpanded(expanded, k)
    ensures r.Keys == expanded.Keys + {id}
  {
    expanded[id := !IsExpanded(expanded, id)]
  }

  /** Two clicks on a parent leave every submenu as open as it was. */
  lemma ToggledTwice(expanded: map<string, bool>, id: string, k: string)
    ensures IsExpanded(Toggled(Toggled(expanded, id), id), k) == IsExpanded(expanded, k)
  {
  }

  /** The record with every id of `ids` set to true, the rest kept. */
  function Opened(expanded: map<string, bool>, ids: set<string>): (r: map<string, bool>)
    ensures r.Keys == expanded.Keys + ids
    ensures forall k :: IsExpanded(r, k) <==> IsExpanded(expanded, k) || k in ids
  {
    map k | k in expanded.Keys + ids :: if k in ids then true else expanded[k]
  }

  lemma OpenedOneMore(expanded: map<string, bool>, ids: set<string>, id: string)
    ensures Opened(expanded, ids)[id := true] == Opened(expanded, ids + {id})
  {
    var a := Opened(expanded, ids)[id := true];
    var b := Opened(expanded, ids + {id});
    assert a.Keys == b.Keys;
    assert forall k :: k in a ==> a[k] == b[k];
  }

  /** The effect's test on one item: a child links to exactly this path. */
  predicate LinksTo(item: NavItem, pathname: string)
  {
    exists i :: 0 <= i < |item.children| && item.children[i].href == Some(pathname)
  }

  /** The ids of the items that link to the path through a child. */
  function ParentIds(items: seq<NavItem>, pathname: string): set<string>
  {
    if items == [] then {}
    else
      var last := items[|items| - 1];
      ParentIds(items[..|items| - 1], pathname) + (if LinksTo(last, pathname) then {last.entry.id} else {})
  }

  function MenuParentIds(menu: seq<Section>, pathname: string): set<string>
  {
    if menu == [] then {}
    else MenuParentIds(menu[..|menu| - 1], pathname) + ParentIds(menu[|menu| - 1].items, pathname)
  }

  /** An id is opened by the effect exactly when it is a parent with a child linking to the path. */
  lemma {:induction false} ParentIdsExact(items: seq<NavItem>, pathname: string, id: string)
    ensures id in ParentIds(items, pathname) <==>
      exists j :: 0 <= j < |items| && items[j].entry.id == id && LinksTo(items[j], pathname)
  {
    if items != [] {
      var init := items[..|items| - 1];
      ParentIdsExact(init, pathname, id);
      if exists j :: 0 <= j < |init| && init[j].entry.id == id && LinksTo(init[j], pathname) {
        var j :| 0 <= j < |init| && init[j].entry.id == id && LinksTo(init[j], pathname);
        assert items[j] == init[j];
      }
      if exists j :: 0 <= j < |items| && items[j].entry.id == id && LinksTo(items[j], pathname) {
        var j :| 0 <= j < |items| && items[j].entry.id == id && LinksTo(items[j], pathname);
        if j < |init| {
          assert items[j] == init[j];
        }
      }
    }
  }

  lemma ParentIdsStep(items: seq<NavItem>, j: nat, pathname: string)
    requires j < |items|
    ensures ParentIds(items[..j + 1], pathname)
      == ParentIds(items[..j], pathname) + (if LinksTo(items[j], pathname) then {items[j].entry.id} else {})
  {
    assert items[..j + 1][..j] == items[..j];
  }

  lemma MenuParentIdsStep(menu: seq<Section>, s: nat, pathname: string)
    requires s < |menu|
    ensures MenuParentIds(menu[..s + 1], pathname) == MenuParentIds(menu[..s], pathname) + ParentIds(menu[s].items, pathname)
  {
    assert menu[..s + 1][..s] == menu[..s];
  }

  // ---------------------------------------------------------------------------
  // Rendering

  datatype Rendering = Expandable | PlainText | Link(href: string)

  /** `renderMenuItem`'s three shapes: a parent with children, an inert entry, a link. */
  function RenderKind(e: Entry, hasChildren: bool, isSubItem: bool): (r: Rendering)
    ensures r.Expandable? <==> hasChildren && !isSubItem
    ensures r.Link? ==> e.enabled && HasHref(e) && r.href == e.href.value
    ensures !r.Expandable? && (!e.enabled || !HasHref(e)) ==> r.PlainText?
    ensures !(hasChildren && !isSubItem) && e.enabled && HasHref(e) ==> r == Link(e.href.value)
  {
    if hasChildren && !isSubItem then Expandable
    else if !e.enabled || !HasHref(e) then PlainText
    else Link(e.href.value)
  }

  /** The child entries drawn under a top-level item: all of them when it is expanded, none otherwise. */
  function VisibleChildren(item: NavItem, expanded: map<string, bool>): (r: seq<Entry>)
    ensures r != [] ==> IsExpanded(expanded, item.entry.id) && r == item.children
    ensures IsExpanded(expanded, item.entry.id) ==> r == item.children
  {
    if RenderKind(item.entry, |item.children| > 0, false).Expandable? && IsExpanded(expanded, item.entry.id)
    then item.children else []
  }

  class SidebarState {
    const pathname: string
    /** The `expandedSubmenus` state. */
    var expanded: map<string, bool>

    constructor(pathname: string)
      ensures this.pathname == pathname && expanded == InitialExpanded
    {
      this.pathname := pathname;
      expanded := InitialExpanded;
    }

    /** A click on a parent. */
    method ToggleSubmenu(id: string)
      modifies this
      ensures expanded == Toggled(old(expanded), id)
    {
      expanded := expanded[id := !IsExpanded(expanded, id)];
    }

    /**
     * The effect on the path: for each section and each item in it, an item
     * with a child linking to the path is set open.  Nothing is ever closed.
     */
    method ExpandForPath(menu: seq<Section>)
      modifies this
      ensures pathname == "" ==> expanded == old(expanded)
      ensures pathname != "" ==> expanded == Opened(old(expanded), MenuParentIds(menu, pathname))
    {
      if pathname == "" {
        return;
      }
      var s := 0;
      while s < |menu|
        invariant 0 <= s <= |menu|
        invariant expanded == Opened(old(expanded), MenuParentIds(menu[..s], pathname))
      {
        OpenParents(menu[s].items, old(expanded), MenuParentIds(menu[..s], pathname));
        MenuParentIdsStep(menu, s, pathname);
        s := s + 1;
      }
      assert menu[..s] == menu;
    }

    /** The inner loop of the effect: the items of one section. */
    method OpenParents(items: seq<NavItem>, ghost base: map<string, bool>, ghost done: set<string>)
      modifies this
      requires expanded == Opened(base, done)
      ensures expanded == Opened(base, done + ParentIds(items, pathname))
    {
      var j := 0;
      while j < |items|
        invariant 0 <= j <= |items|
        invariant expanded == Opened(base, done + ParentIds(items[..j], pathname))
      {
        ParentIdsStep(items, j, pathname);
        ghost var soFar := done + ParentIds(items[..j], pathname);
        if LinksTo(items[j], pathname) {
          OpenedOneMore(base, soFar, items[j].entry.id);
          expanded := expanded[items[j].entry.id := true];
          assert done + ParentIds(items[..j + 1], pathname) == soFar + {items[j].entry.id};
        } else {
          assert done + ParentIds(items[..j + 1], pathname) == soFar;
        }
        j := j + 1;
      }
      assert items[..j] == items;
    }
  }
}
