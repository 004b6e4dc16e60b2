/** Menus of the CMS (app/api/v1/endpoints/cms.py): `read_menu` looks a
    menu up by its location slug and turns its items into a tree over the
    `parent_id` links. */
module Cms {
  import opened Common

  datatype Menu = Menu(id: int, name: string, locationSlug: string)

  /** A row of `menu_items`. */
  datatype MenuItem = MenuItem(id: int, menuId: int, title: string, url: string, parentId: Option<int>, order: int)

  /** `schemas.MenuItem`: a node of the answer. */
  datatype Node = Node(title: string, url: string, children: seq<Node>)

  /** `schemas.Menu`: the answer. */
  datatype MenuTree = MenuTree(name: string, items: seq<Node>)

  const MENU_NOT_FOUND: string := "Menu not found"

  // ---------------------------------------------------------------------
  // order_by(MenuItem.order)
  // ---------------------------------------------------------------------

  predicate SortedByOrder(s: seq<MenuItem>) {
    forall i, j :: 0 <= i < j < |s| ==> s[i].order <= s[j].order
  }

  /** Put `x` after every element of `s` whose order is not larger. */
  function Insert(x: MenuItem, s: seq<MenuItem>): (r: seq<MenuItem>)
    ensures |r| == |s| + 1
  {
    if |s| == 0 then [x]
    else if x.order < s[0].order then [x] + s
    else [s[0]] + Insert(x, s[1..])
  }

  /** Inserting adds exactly `x`. */
  lemma {:induction false} InsertAddsOne(x: MenuItem, s: seq<MenuItem>)
    ensures multiset(Insert(x, s)) == multiset(s) + multiset{x}
  {
    if |s| > 0 && x.order >= s[0].order {
      assert s == [s[0]] + s[1..];
      InsertAddsOne(x, s[1..]);
    }
  }

  /** Inserting into a sorted list keeps it sorted; the head is `x` or the old head. */
  lemma {:induction false} InsertSorted(x: MenuItem, s: seq<MenuItem>)
    requires SortedByOrder(s)
    ensures SortedByOrder(Insert(x, s))
    ensures Insert(x, s)[0] == x || (|s| > 0 && Insert(x, s)[0] == s[0])
  {
    if |s| > 0 && x.order >= s[0].order {
      var tail := s[1..];
      assert SortedByOrder(tail);
      InsertSorted(x, tail);
      var rest := Insert(x, tail);
      assert rest[0].order >= s[0].order;
      var r := [s[0]] + rest;
      forall i, j | 0 <= i < j < |r| ensures r[i].order <= r[j].order {
        if i > 0 {
          assert r[i] == rest[i - 1] && r[j] == rest[j - 1];
        } else {
          assert r[j] == rest[j - 1];
        }
      }
    }
  }

  /** The rows in `order` order; rows with equal order keep table order. */
  function SortByOrder(s: seq<MenuItem>): (r: seq<MenuItem>)
    ensures SortedByOrder(r)
    ensures multiset(r) == multiset(s)
  {
    if |s| == 0 then []
    else
      assert s == s[..|s| - 1] + [s[|s| - 1]];
      var sorted := SortByOrder(s[..|s| - 1]);
      InsertSorted(s[|s| - 1], sorted);
      InsertAddsOne(s[|s| - 1], sorted);
      Insert(s[|s| - 1], sorted)
  }

  // ---------------------------------------------------------------------
  // The two queries
  // ---------------------------------------------------------------------

  /** `filter(MenuItem.menu_id == menu.id)`. */
  function ItemsOfMenu(items: seq<MenuItem>, menuId: int): (r: seq<MenuItem>)
    ensures forall x :: x in r <==> x in items && x.menuId == menuId
  {
    if |items| == 0 then []
    else
      var last := items[|items| - 1];
      assert items == items[..|items| - 1] + [last];
      ItemsOfMenu(items[..|items| - 1], menuId) + (if last.menuId == menuId then [last] else [])
  }

  /** `filter(MenuItem.parent_id == parent.id)`, over the whole table. */
  function ItemsWithParent(items: seq<MenuItem>, parentId: int): (r: seq<MenuItem>)
    ensures forall x :: x in r <==> x in items && x.parentId == Some(parentId)
  {
    if |items| == 0 then []
    else
      var last := items[|items| - 1];
      assert items == items[..|items| - 1] + [last];
      ItemsWithParent(items[..|items| - 1], parentId) + (if last.parentId == Some(parentId) then [last] else [])
  }

  /** The top-level rows of `read_menu`: the menu's items, by order. */
  function TopItems(items: seq<MenuItem>, menuId: int): (r: seq<MenuItem>)
    ensures SortedByOrder(r)
    ensures forall x :: x in r <==> x in items && x.menuId == menuId
  {
    var r := SortByOrder(ItemsOfMenu(items, menuId));
    assert forall x :: x in r <==> x in multiset(ItemsOfMenu(items, menuId));
    r
  }

  /** The child rows `build_tree` queries for a parent, by order. */
  function Children(items: seq<MenuItem>, parentId: int): (r: seq<MenuItem>)
    ensures SortedByOrder(r)
    ensures forall x :: x in r <==> x in items && x.parentId == Some(parentId)
  {
    var r := SortByOrder(ItemsWithParent(items, parentId));
    assert forall x :: x in r <==> x in multiset(ItemsWithParent(items, parentId));
    r
  }

  // ---------------------------------------------------------------------
  // build_tree
  // ---------------------------------------------------------------------

  /** The parent links are acyclic: `rank` strictly falls from a parent to
      each of its children.  Without such a rank `build_tree` recurses
      without end. */
  ghost predicate Ranked(items: seq<MenuItem>, rank: map<int, nat>) {
    forall it :: it in items ==>
      it.id in rank
      && (it.parentId.Some? ==> it.parentId.value in rank && rank[it.id] < rank[it.parentId.value])
  }

  /** `build_tree(parent)`: the item's title and url over the trees of its children. */
  function BuildTree(items: seq<MenuItem>, ghost rank: map<int, nat>, it: MenuItem): (n: Node)
    requires Ranked(items, rank) && it in items
    ensures n.title == it.title && n.url == it.url
    decreases rank[it.id], 1
  {
    Node(it.title, it.url, Subtrees(items, rank, Children(items, it.id), rank[it.id]))
  }

  /** `[build_tree(child) for child in children]`, for children ranked below `bound`. */
  function Subtrees(items: seq<MenuItem>, ghost rank: map<int, nat>, cs: seq<MenuItem>, ghost bound: nat): (r: seq<Node>)
    requires Ranked(items, rank)
    requires forall c :: c in cs ==> c in items && rank[c.id] < bound
    ensures |r| == |cs|
    decreases bound, 0
  {
    seq(|cs|, k requires 0 <= k < |cs| => BuildTree(items, rank, cs[k]))
  }

  /** A rank above that of every row of `xs`, so that the top-level
      comprehension of `read_menu` is `Subtrees` too. */
  ghost function RankBound(items: seq<MenuItem>, rank: map<int, nat>, xs: seq<MenuItem>): (b: nat)
    requires Ranked(items, rank)
    requires forall x :: x in xs ==> x in items
    ensures forall x :: x in xs ==> rank[x.id] < b
  {
    if |xs| == 0 then 0
    else
      var pre := xs[..|xs| - 1];
      assert xs == pre + [xs[|xs| - 1]];
      var b := RankBound(items, rank, pre);
      var top := rank[xs[|xs| - 1].id];
      if b <= top then top + 1 else b
  }

  /** A node's children are the trees of exactly the rows whose `parent_id`
      is the node's id, ordered by `order`. */
  lemma ChildrenOfNode(items: seq<MenuItem>, rank: map<int, nat>, it: MenuItem)
    requires Ranked(items, rank) && it in items
    ensures |BuildTree(items, rank, it).children| == |Children(items, it.id)|
    ensures forall k :: 0 <= k < |Children(items, it.id)| ==>
      BuildTree(items, rank, it).children[k] == BuildTree(items, rank, Children(items, it.id)[k])
  {
  }

  /** An item that is its own parent admits no rank at all. */
  lemma SelfParentIsUnranked(items: seq<MenuItem>, rank: map<int, nat>, it: MenuItem)
    requires it in items && it.parentId == Some(it.id)
    ensures !Ranked(items, rank)
  {
  }

  // ---------------------------------------------------------------------
  // read_menu
  // ---------------------------------------------------------------------

  /** `db.query(Menu).filter(Menu.location_slug == slug).first()`. */
  function MenuBySlug(menus: seq<Menu>, slug: string): (r: Option<Menu>)
    ensures r.Some? ==> r.value in menus && r.value.locationSlug == slug
    ensures r.None? <==> forall j :: 0 <= j < |menus| ==> menus[j].locationSlug != slug
  {
    First(menus, (m: Menu) => m.locationSlug == slug)
  }

  /** `read_menu`: 404 for an unknown slug; otherwise the menu's name over a
      tree for every item of the menu, by order. */
  function ReadMenu(menus: seq<Menu>, items: seq<MenuItem>, ghost rank: map<int, nat>, slug: string): (r: Result<MenuTree>)
    requires Ranked(items, rank)
    ensures r.Err? <==> MenuBySlug(menus, slug).None?
    ensures r.Err? ==> r.error == HttpError(404, MENU_NOT_FOUND)
    ensures r.Ok? ==> r.value.name == MenuBySlug(menus, slug).value.name
    ensures r.Ok? ==> |r.value.items| == |TopItems(items, MenuBySlug(menus, slug).value.id)|
  {
    match MenuBySlug(menus, slug)
    case None => Err(HttpError(404, MENU_NOT_FOUND))
    case Some(menu) =>
      var top := TopItems(items, menu.id);
      Ok(MenuTree(menu.name, Subtrees(items, rank, top, RankBound(items, rank, top))))
  }

  /** The top level holds a tree for every item of the menu, parents or
      not, in `order` order. */
  lemma MenuTopLevel(menus: seq<Menu>, items: seq<MenuItem>, rank: map<int, nat>, slug: string)
    requires Ranked(items, rank) && MenuBySlug(menus, slug).Some?
    ensures var top := TopItems(items, MenuBySlug(menus, slug).value.id);
      SortedByOrder(top)
      && (forall x :: x in top <==> x in items && x.menuId == MenuBySlug(menus, slug).value.id)
      && forall k :: 0 <= k < |top| ==> ReadMenu(menus, items, rank, slug).value.items[k] == BuildTree(items, rank, top[k])
  {
  }

  /** An item with a parent shows up twice: at top level, and nested under
      its parent. */
  lemma NestedItemAlsoAtTop(menus: seq<Menu>, items: seq<MenuItem>, rank: map<int, nat>, slug: string, c: MenuItem, p: MenuItem)
    requires Ranked(items, rank)
    requires MenuBySlug(menus, slug).Some?
    requires c in items && c.menuId == MenuBySlug(menus, slug).value.id
    requires p in items && c.parentId == Some(p.id)
    ensures exists k :: (0 <= k < |ReadMenu(menus, items, rank, slug).value.items|
      && ReadMenu(menus, items, rank, slug).value.items[k] == BuildTree(items, rank, c))
    ensures exists k :: (0 <= k < |BuildTree(items, rank, p).children|
      && BuildTree(items, rank, p).children[k] == BuildTree(items, rank, c))
  {
    var top := TopItems(items, MenuBySlug(menus, slug).value.id);
    var i :| 0 <= i < |top| && top[i] == c;
    assert ReadMenu(menus, items, rank, slug).value.items[i] == BuildTree(items, rank, c);
    var cs := Children(items, p.id);
    var j :| 0 <= j < |cs| && cs[j] == c;
    ChildrenOfNode(items, rank, p);
    assert BuildTree(items, rank, p).children[j] == BuildTree(items, rank, c);
  }
}
