/**
 * The navigation bar: its three links, which of them is highlighted for the
 * current path, and the bookmark badge.
 */
module Navigation {
  import opened Text
  import opened Wrappers

  /** A link; only the bookmarks link carries a badge number. */
  datatype NavItem = NavItem(href: string, title: string, badge: Option<int>)

  function NavItems(bookmarkCount: nat): (items: seq<NavItem>)
    ensures |items| == 3
    ensures items[0].href == "/" && items[1].href == "/bookmarks" && items[2].href == "/analytics"
  {
    [NavItem("/", "Dashboard", None),
     NavItem("/bookmarks", "Bookmarks", Some(bookmarkCount)),
     NavItem("/analytics", "Analytics", None)]
  }

  /** `isActive(href)`: the root only on an exact match, anything else as a
      plain prefix of the path. */
  predicate IsActive(pathname: string, href: string)
    ensures pathname == href ==> IsActive(pathname, href)
    ensures IsActive(pathname, href) ==> |href| <= |pathname|
  {
    if href == "/" then pathname == "/" else StartsWith(pathname, href)
  }

  /** `item.badge > 0`: an absent badge compares as false. */
  predicate ShowsBadge(item: NavItem)
  {
    item.badge.Some? && item.badge.value > 0
  }

  /** Whatever the path, no two links are highlighted together. */
  lemma AtMostOneActive(pathname: string, bookmarkCount: nat)
    ensures forall i, j | 0 <= i < j < 3 ::
      !(IsActive(pathname, NavItems(bookmarkCount)[i].href) && IsActive(pathname, NavItems(bookmarkCount)[j].href))
  {
    var items := NavItems(bookmarkCount);
    if IsActive(pathname, "/bookmarks") {
      assert pathname[1] == 'b';
    }
    if IsActive(pathname, "/analytics") {
      assert pathname[1] == 'a';
    }
  }

  /** The prefix test also highlights Bookmarks on paths that merely begin
      with its name. */
  lemma PrefixHighlights()
    ensures IsActive("/bookmarks/1", "/bookmarks")
    ensures IsActive("/bookmarksx", "/bookmarks")
    ensures !IsActive("/bookmarks", "/")
  {
    assert "/bookmarks/1"[..10] == "/bookmarks";
    assert "/bookmarksx"[..10] == "/bookmarks";
  }

  /** The badge shows the bookmark count, and only when it is positive; the
      other links never show one. */
  lemma BadgeRule(bookmarkCount: nat)
    ensures NavItems(bookmarkCount)[1].badge == Some(bookmarkCount)
    ensures ShowsBadge(NavItems(bookmarkCount)[1]) <==> bookmarkCount > 0
    ensures !ShowsBadge(NavItems(bookmarkCount)[0]) && !ShowsBadge(NavItems(bookmarkCount)[2])
  {
  }
}
