/** The two mobile navigation bars of js/mobile-components.js:
    `BottomNavigation` (lines 4-85) and `MobileTabBar` (lines 320-372).
    Each renders one link per item, marks the link at `activeIndex` as
    active, and moves that mark when a link is clicked. The rendered
    links' `active` classes are an array of flags. */
module Navigation {
  import opened Wrappers

  /** The four built-in icons of `getDefaultIcon`, in order. */
  datatype Glyph = House | Magnifier | Shield | Person

  /** `getDefaultIcon(index)`: `icons[index] || icons[0]`. */
  function DefaultIcon(index: int): (g: Glyph)
    ensures index == 1 <==> g == Magnifier
    ensures index == 2 <==> g == Shield
    ensures index == 3 <==> g == Person
    ensures g == House <==> index !in {1, 2, 3}
  {
    var icons := [House, Magnifier, Shield, Person];
    if 0 <= index < |icons| then icons[index] else icons[0]
  }

  /** The icon shown on a bottom-navigation link: the item's own markup
      or a built-in one. */
  datatype Icon = Markup(markup: string) | Builtin(glyph: Glyph)

  /** An entry of `options.items`. */
  datatype NavItem = NavItem(href: Option<string>, icon: Option<string>, text: string, badge: Option<string>)

  /** A rendered `bottom-nav-item` link, apart from its `active` class. */
  datatype NavLink = NavLink(href: string, icon: Icon, text: string, badge: Option<string>)

  /** `item.x || fallback` for a string option. */
  function OrElse(s: Option<string>, fallback: string): (r: string)
    ensures Truthy(s) ==> r == s.value
    ensures !Truthy(s) ==> r == fallback
  {
    if Truthy(s) then s.value else fallback
  }

  /** The link rendered for the item at `index`: `href || '#'`, the item's
      icon or the default icon of its position, and a badge only when the
      item has a non-empty one. */
  function RenderNavItem(item: NavItem, index: int): (l: NavLink)
    ensures l.href == OrElse(item.href, "#")
    ensures Truthy(item.icon) ==> l.icon == Markup(item.icon.value)
    ensures !Truthy(item.icon) ==> l.icon == Builtin(DefaultIcon(index))
    ensures l.text == item.text
    ensures l.badge.Some? <==> Truthy(item.badge)
  {
    NavLink(OrElse(item.href, "#"),
            if Truthy(item.icon) then Markup(item.icon.value) else Builtin(DefaultIcon(index)),
            item.text,
            if Truthy(item.badge) then item.badge else None)
  }

  /** The flags of a bar whose only active link is the one at `index`. */
  predicate MarksOnly(flags: seq<bool>, index: int)
  {
    forall i :: 0 <= i < |flags| ==> flags[i] == (i == index)
  }

  /** The number of active links. */
  function CountActive(flags: seq<bool>): nat
  {
    if |flags| == 0 then 0 else (if flags[0] then 1 else 0) + CountActive(flags[1..])
  }

  /** A bar marked at `index` shows exactly one active link when `index`
      is a position of the bar, and none otherwise. */
  lemma {:induction false} MarksOnlyCount(flags: seq<bool>, index: int)
    requires MarksOnly(flags, index)
    ensures CountActive(flags) == if 0 <= index < |flags| then 1 else 0
  {
    if |flags| > 0 {
      assert MarksOnly(flags[1..], index - 1) by {
        forall i | 0 <= i < |flags[1..]|
          ensures flags[1..][i] == (i == index - 1)
        {
          assert flags[1..][i] == flags[i + 1];
        }
      }
      MarksOnlyCount(flags[1..], index - 1);
    }
  }

  /** The `forEach` of `setActive` and of `render`: the link at `index`
      gets the `active` class and every other link loses it. */
  method MarkOnly(links: array<bool>, index: int)
    modifies links
    ensures MarksOnly(links[..], index)
  {
    var i := 0;
    while i < links.Length
      invariant 0 <= i <= links.Length
      invariant forall j :: 0 <= j < i ==> links[j] == (j == index)
    {
      links[i] := i == index;
      i := i + 1;
    }
  }

  class BottomNavigation {
    const items: seq<NavItem>
    /** Whether an `onItemClick` callback was given. */
    const notifies: bool
    var activeIndex: int
    /** Set by `render`; `setActive` on a bar never rendered throws. */
    var rendered: bool
    var links: seq<NavLink>
    var active: array<bool>

    predicate Valid()
      reads this, active
    {
      rendered ==> |links| == |items| == active.Length && MarksOnly(active[..], activeIndex)
    }

    constructor(items: seq<NavItem>, activeIndex: int, notifies: bool)
      ensures this.items == items && this.activeIndex == activeIndex && this.notifies == notifies
      ensures !rendered && Valid()
    {
      this.items := items;
      this.activeIndex := activeIndex;
      this.notifies := notifies;
      rendered := false;
      links := [];
      active := new bool[0];
    }

    /** `render()`: one link per item, the one at `activeIndex` active. */
    method Render()
      modifies this
      ensures rendered && Valid() && fresh(active)
      ensures activeIndex == old(activeIndex)
      ensures links == seq(|items|, i requires 0 <= i < |items| => RenderNavItem(items[i], i))
    {
      links := seq(|items|, i requires 0 <= i < |items| => RenderNavItem(items[i], i));
      active := new bool[|items|];
      MarkOnly(active, activeIndex);
      rendered := true;
    }

    /** `setActive(index)`: moves the `active` class to the link at
        `index` (to none when there is no such link) and records the
        index. */
    method SetActive(index: int)
      requires rendered && Valid()
      modifies this, active
      ensures activeIndex == index && Valid()
      ensures rendered && links == old(links) && active == old(active)
      ensures CountActive(active[..]) == if 0 <= index < |items| then 1 else 0
    {
      MarkOnly(active, index);
      activeIndex := index;
      MarksOnlyCount(active[..], index);
    }

    /** A click on the link at `index`: `setActive(index)`, then
        `onItemClick(item, index)` when a callback was given, which is
        what `reported` holds. */
    method Click(index: int) returns (reported: Option<(NavItem, int)>)
      requires rendered && Valid() && 0 <= index < |items|
      modifies this, active
      ensures activeIndex == index && Valid() && rendered && active == old(active)
      ensures active[index] && CountActive(active[..]) == 1
      ensures reported == if notifies then Some((items[index], index)) else None
    {
      SetActive(index);
      reported := if notifies then Some((items[index], index)) else None;
    }
  }

  /** An entry of `options.tabs`. */
  datatype Tab = Tab(href: Option<string>, text: string)

  /** A rendered `mobile-tab` link, apart from its `active` class. */
  datatype TabLink = TabLink(href: string, text: string)

  function RenderTab(tab: Tab): (l: TabLink)
    ensures l.href == OrElse(tab.href, "#") && l.text == tab.text
  {
    TabLink(OrElse(tab.href, "#"), tab.text)
  }

  class MobileTabBar {
    const tabs: seq<Tab>
    /** Whether an `onTabChange` callback was given. */
    const notifies: bool
    var activeIndex: int
    var rendered: bool
    var links: seq<TabLink>
    var active: array<bool>

    predicate Valid()
      reads this, active
    {
      rendered ==> |links| == |tabs| == active.Length && MarksOnly(active[..], activeIndex)
    }

    constructor(tabs: seq<Tab>, activeIndex: int, notifies: bool)
      ensures this.tabs == tabs && this.activeIndex == activeIndex && this.notifies == notifies
      ensures !rendered && Valid()
    {
      this.tabs := tabs;
      this.activeIndex := activeIndex;
      this.notifies := notifies;
      rendered := false;
      links := [];
      active := new bool[0];
    }

    method Render()
      modifies this
      ensures rendered && Valid() && fresh(active)
      ensures activeIndex == old(activeIndex)
      ensures links == seq(|tabs|, i requires 0 <= i < |tabs| => RenderTab(tabs[i]))
    {
      links := seq(|tabs|, i requires 0 <= i < |tabs| => RenderTab(tabs[i]));
      active := new bool[|tabs|];
      MarkOnly(active, activeIndex);
      rendered := true;
    }

    /** `setActive(index)`: as for the bottom navigation; scrolling the
        tab into view is presentation only. */
    method SetActive(index: int)
      requires rendered && Valid()
      modifies this, active
      ensures activeIndex == index && Valid()
      ensures rendered && links == old(links) && active == old(active)
      ensures CountActive(active[..]) == if 0 <= index < |tabs| then 1 else 0
    {
      MarkOnly(active, index);
      activeIndex := index;
      MarksOnlyCount(active[..], index);
    }

    /** A click on the tab at `index`: `setActive(index)`, then
        `onTabChange(tab, index)` when a callback was given. */
    method Click(index: int) returns (reported: Option<(Tab, int)>)
      requires rendered && Valid() && 0 <= index < |tabs|
      modifies this, active
      ensures activeIndex == index && Valid() && rendered && active == old(active)
      ensures active[index] && CountActive(active[..]) == 1
      ensures reported == if notifies then Some((tabs[index], index)) else None
    {
      SetActive(index);
      reported := if notifies then Some((tabs[index], index)) else None;
    }
  }
}
