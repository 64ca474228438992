/**
 * The older admin-menu module: it removes the menu pages and submenu
 * pages named by two options and then rebuilds the global `$menu` in the
 * order a third option gives. `remove_menu_page` and
 * `remove_submenu_page` are WordPress calls; the model records them in
 * the order they are made, and gives `remove_menu_page` its effect on
 * `$menu` (the first item with that slug is unset). The global `$submenu`
 * is not modelled, so `remove_submenu_page` is only recorded.
 */
module CleanAdminMenu {
  import opened Wrappers
  import opened PhpStrings
  import opened PhpValues

  /** sanitize_array: arrays pass through, anything else becomes the empty array. */
  function SanitizeArray(input: Value): (r: Value)
    ensures r.VArr?
    ensures input.VArr? ==> r == input
    ensures !input.VArr? ==> r == VArr([])
  {
    if input.VArr? then input else VArr([])
  }

  /** The WordPress calls modify_admin_menu makes. */
  datatype Call =
    | RemoveMenuPage(slug: Value)
    | RemoveSubmenuPage(parent: string, child: Option<string>)

  /** The values `foreach` visits. */
  function ValuesOf(v: Value): seq<Value>
  {
    if v.VArr? then Values(v.entries) else []
  }

  /** `list($parent, $child) = explode('|', $s)`: a missing second part is null. */
  function SubmenuCall(s: string): Call
  {
    var parts := Split(s, '|');
    RemoveSubmenuPage(parts[0], if |parts| > 1 then Some(parts[1]) else None)
  }

  /** `$item[2]`, null when the item has no field 2. */
  function ItemSlug(item: Value): Value
  {
    if item.VArr? && HasKey(item.entries, KInt(2)) then Lookup(item.entries, KInt(2)).value else VNull
  }

  /** The position of the first item whose slug is `slug`, or -1. */
  function FirstWithSlug(menu: seq<Value>, slug: Value): (r: int)
    ensures -1 <= r < |menu|
    ensures r >= 0 ==> ItemSlug(menu[r]) == slug && forall j :: 0 <= j < r ==> ItemSlug(menu[j]) != slug
    ensures r == -1 <==> forall j :: 0 <= j < |menu| ==> ItemSlug(menu[j]) != slug
    decreases |menu|
  {
    if |menu| == 0 then -1
    else if ItemSlug(menu[0]) == slug then 0
    else
      var r := FirstWithSlug(menu[1..], slug);
      if r == -1 then -1 else r + 1
  }

  /** The ordered menu: for each order slug in turn, its first item, if any. */
  function Ordered(menu: seq<Value>, order: seq<Value>): seq<Value>
    decreases |order|
  {
    if |order| == 0 then []
    else
      var rest := Ordered(menu, order[..|order| - 1]);
      var i := FirstWithSlug(menu, order[|order| - 1]);
      if i >= 0 then rest + [menu[i]] else rest
  }

  /**
   * WordPress's remove_menu_page on `$menu`: the first item whose slug is
   * identical to `slug` is unset; the other items keep their order.
   */
  function RemoveFirst(menu: seq<Value>, slug: Value): (r: seq<Value>)
    ensures |r| <= |menu|
    decreases |menu|
  {
    if |menu| == 0 then []
    else if ItemSlug(menu[0]) == slug then menu[1..]
    else [menu[0]] + RemoveFirst(menu[1..], slug)
  }

  /** `$menu` after remove_menu_page for each slug in turn. */
  function RemovePages(menu: seq<Value>, slugs: seq<Value>): seq<Value>
    decreases |slugs|
  {
    if |slugs| == 0 then menu
    else RemoveFirst(RemovePages(menu, slugs[..|slugs| - 1]), slugs[|slugs| - 1])
  }

  /** `$menu` at the end of modify_admin_menu: the removals, then the reorder when the order option is not empty. */
  function Modified(menu: seq<Value>, hiddenMenus: Value, menuOrder: Value): seq<Value>
  {
    var reduced := RemovePages(menu, ValuesOf(hiddenMenus));
    if IsEmpty(menuOrder) then reduced else Ordered(reduced, ValuesOf(menuOrder))
  }

  /** The items whose slug is not among `slugs`, in menu order (a reference definition). */
  function Without(menu: seq<Value>, slugs: seq<Value>): seq<Value>
    decreases |menu|
  {
    if |menu| == 0 then []
    else (if ItemSlug(menu[0]) in slugs then [] else [menu[0]]) + Without(menu[1..], slugs)
  }

  /** No two items of the menu have the same slug. */
  predicate DistinctSlugs(menu: seq<Value>)
  {
    forall i, j :: 0 <= i < j < |menu| ==> ItemSlug(menu[i]) != ItemSlug(menu[j])
  }

  /** The calls for the two hide lists, top-level pages first. */
  function Calls(hiddenMenus: seq<Value>, hiddenSubmenus: seq<Value>): seq<Call>
  {
    seq(|hiddenMenus|, i requires 0 <= i < |hiddenMenus| => RemoveMenuPage(hiddenMenus[i]))
    + seq(|hiddenSubmenus|, i requires 0 <= i < |hiddenSubmenus| => SubmenuCall(StrVal(hiddenSubmenus[i])))
  }

  /** `$item[2] === $slug` searched over `$menu`, stopping at the first. */
  method FindItem(menu: seq<Value>, slug: Value) returns (found: int)
    ensures found == FirstWithSlug(menu, slug)
  {
    found := -1;
    var i := 0;
    while i < |menu|
      invariant 0 <= i <= |menu|
      invariant forall j :: 0 <= j < i ==> ItemSlug(menu[j]) != slug
    {
      if ItemSlug(menu[i]) == slug {
        found := i;
        break;
      }
      i := i + 1;
    }
  }

  /** The global `$menu` and the WordPress calls made so far. */
  class AdminMenuModule {
    var menu: seq<Value>
    var calls: seq<Call>

    constructor(menu0: seq<Value>)
      ensures menu == menu0 && calls == []
    {
      menu := menu0;
      calls := [];
    }

    /** remove_menu_page: unsets the first item of `$menu` whose slug is `slug`. */
    method RemovePage(slug: Value)
      modifies this
      ensures menu == RemoveFirst(old(menu), slug)
      ensures calls == old(calls) + [RemoveMenuPage(slug)]
    {
      var i := FindItem(menu, slug);
      RemoveFirstAt(menu, slug);
      if i >= 0 {
        menu := menu[..i] + menu[i + 1..];
      }
      calls := calls + [RemoveMenuPage(slug)];
    }

    /** The two removal loops of modify_admin_menu. */
    method RemoveHidden(tops: seq<Value>, subs: seq<Value>)
      modifies this
      ensures calls == old(calls) + Calls(tops, subs)
      ensures menu == RemovePages(old(menu), tops)
    {
      var i := 0;
      while i < |tops|
        invariant 0 <= i <= |tops| && menu == RemovePages(old(menu), tops[..i])
        invariant calls == old(calls) + seq(i, j requires 0 <= j < i => RemoveMenuPage(tops[j]))
      {
        assert tops[..i + 1][..i] == tops[..i];
        RemovePage(tops[i]);
        i := i + 1;
      }
      assert tops[..i] == tops;
      ghost var afterTops := calls;
      var k := 0;
      while k < |subs|
        invariant 0 <= k <= |subs| && menu == RemovePages(old(menu), tops)
        invariant calls == afterTops + seq(k, j requires 0 <= j < k => SubmenuCall(StrVal(subs[j])))
      {
        var parts := Split(StrVal(subs[k]), '|');
        var parent := parts[0];
        var child := if |parts| > 1 then Some(parts[1]) else None;
        calls := calls + [RemoveSubmenuPage(parent, child)];
        k := k + 1;
      }
    }

    /** modify_admin_menu, given the three stored options. */
    method ModifyAdminMenu(hiddenMenus: Value, hiddenSubmenus: Value, menuOrder: Value)
      modifies this
      ensures calls == old(calls) + Calls(ValuesOf(hiddenMenus), ValuesOf(hiddenSubmenus))
      ensures menu == Modified(old(menu), hiddenMenus, menuOrder)
    {
      RemoveHidden(ValuesOf(hiddenMenus), ValuesOf(hiddenSubmenus));
      if !IsEmpty(menuOrder) {
        menu := OrderMenu(menu, ValuesOf(menuOrder));
      }
    }
  }

  /** The rebuild of `$menu`: each order slug's first item, in order-list order. */
  method OrderMenu(menu: seq<Value>, order: seq<Value>) returns (ordered: seq<Value>)
    ensures ordered == Ordered(menu, order)
  {
    ordered := [];
    var n := 0;
    while n < |order|
      invariant 0 <= n <= |order|
      invariant ordered == Ordered(menu, order[..n])
    {
      assert order[..n + 1][..n] == order[..n];
      var key := FindItem(menu, order[n]);
      if key >= 0 {
        ordered := ordered + [menu[key]];
      }
      n := n + 1;
    }
    assert order[..n] == order;
  }

  /** The new menu is never longer than the order list. */
  lemma {:induction false} OrderedLength(menu: seq<Value>, order: seq<Value>)
    ensures |Ordered(menu, order)| <= |order|
    decreases |order|
  {
    if |order| > 0 {
      OrderedLength(menu, order[..|order| - 1]);
    }
  }

  /**
   * Each item of the new menu is the first menu item for some order slug;
   * any item whose slug is in no order entry is dropped.
   */
  lemma {:induction false} OrderedItems(menu: seq<Value>, order: seq<Value>, k: int) returns (j: int)
    requires 0 <= k < |Ordered(menu, order)|
    ensures 0 <= j < |order| && FirstWithSlug(menu, order[j]) >= 0
    ensures Ordered(menu, order)[k] == menu[FirstWithSlug(menu, order[j])]
    decreases |order|
  {
    var init := order[..|order| - 1];
    var rest := Ordered(menu, init);
    if k < |rest| {
      j := OrderedItems(menu, init, k);
      assert init[j] == order[j];
    } else {
      j := |order| - 1;
    }
  }

  /** An order slug that has an item contributes it; one that has none is skipped. */
  lemma OrderedAppend(menu: seq<Value>, order: seq<Value>, slug: Value)
    ensures FirstWithSlug(menu, slug) >= 0 ==>
      Ordered(menu, order + [slug]) == Ordered(menu, order) + [menu[FirstWithSlug(menu, slug)]]
    ensures FirstWithSlug(menu, slug) < 0 ==> Ordered(menu, order + [slug]) == Ordered(menu, order)
  {
    assert (order + [slug])[..|order|] == order;
  }

  /** Only order slugs that some item has count: the new menu has one item per such slug. */
  function Found(menu: seq<Value>, order: seq<Value>): nat
    decreases |order|
  {
    if |order| == 0 then 0
    else Found(menu, order[..|order| - 1]) + (if FirstWithSlug(menu, order[|order| - 1]) >= 0 then 1 else 0)
  }

  lemma {:induction false} OrderedCount(menu: seq<Value>, order: seq<Value>)
    ensures |Ordered(menu, order)| == Found(menu, order)
    decreases |order|
  {
    if |order| > 0 {
      OrderedCount(menu, order[..|order| - 1]);
    }
  }

  /** remove_menu_page unsets exactly the item FirstWithSlug finds, and nothing when there is none. */
  lemma RemoveFirstAt(menu: seq<Value>, slug: Value)
    ensures FirstWithSlug(menu, slug) < 0 ==> RemoveFirst(menu, slug) == menu
    ensures FirstWithSlug(menu, slug) >= 0 ==>
      RemoveFirst(menu, slug) == menu[..FirstWithSlug(menu, slug)] + menu[FirstWithSlug(menu, slug) + 1..]
  {
    if FirstWithSlug(menu, slug) < 0 {
      RemoveFirstAbsent(menu, slug);
    } else {
      RemoveFirstFound(menu, slug);
    }
  }

  lemma {:induction false} RemoveFirstAbsent(menu: seq<Value>, slug: Value)
    requires FirstWithSlug(menu, slug) < 0
    ensures RemoveFirst(menu, slug) == menu
    decreases |menu|
  {
    if |menu| > 0 {
      var t := menu[1..];
      assert ItemSlug(menu[0]) != slug;
      assert FirstWithSlug(t, slug) < 0;
      RemoveFirstAbsent(t, slug);
      assert RemoveFirst(menu, slug) == [menu[0]] + t;
      assert [menu[0]] + t == menu;
    }
  }

  lemma {:induction false} RemoveFirstFound(menu: seq<Value>, slug: Value)
    requires FirstWithSlug(menu, slug) >= 0
    ensures RemoveFirst(menu, slug) == menu[..FirstWithSlug(menu, slug)] + menu[FirstWithSlug(menu, slug) + 1..]
    decreases |menu|
  {
    if ItemSlug(menu[0]) == slug {
      assert FirstWithSlug(menu, slug) == 0;
      assert menu[..0] + menu[1..] == menu[1..];
    } else {
      var t := menu[1..];
      var i := FirstWithSlug(t, slug);
      assert i >= 0 && FirstWithSlug(menu, slug) == i + 1;
      RemoveFirstFound(t, slug);
      RemoveFirstCons(menu, slug, i);
    }
  }

  /** Keeping the first item in front of the tail's removal is the removal one place further on. */
  lemma RemoveFirstCons(menu: seq<Value>, slug: Value, i: int)
    requires 0 <= i < |menu| - 1 && ItemSlug(menu[0]) != slug
    requires RemoveFirst(menu[1..], slug) == menu[1..][..i] + menu[1..][i + 1..]
    ensures RemoveFirst(menu, slug) == menu[..i + 1] + menu[i + 2..]
  {
    TailSlices(menu, i);
  }

  lemma TailSlices(menu: seq<Value>, i: int)
    requires 0 <= i < |menu| - 1
    ensures [menu[0]] + (menu[1..][..i] + menu[1..][i + 1..]) == menu[..i + 1] + menu[i + 2..]
  {
    assert menu[..i + 1] == [menu[0]] + menu[1..][..i];
    assert menu[i + 2..] == menu[1..][i + 1..];
  }

  /** Every item Without keeps is an item of the menu. */
  lemma {:induction false} WithoutIn(menu: seq<Value>, slugs: seq<Value>, k: int) returns (j: int)
    requires 0 <= k < |Without(menu, slugs)|
    ensures 0 <= j < |menu| && Without(menu, slugs)[k] == menu[j] && ItemSlug(menu[j]) !in slugs
    decreases |menu|
  {
    var keep := if ItemSlug(menu[0]) in slugs then [] else [menu[0]];
    if k < |keep| {
      j := 0;
    } else {
      var j' := WithoutIn(menu[1..], slugs, k - |keep|);
      j := j' + 1;
    }
  }

  /** Without removes nothing when no item has one of the slugs. */
  lemma {:induction false} WithoutNone(menu: seq<Value>, slugs: seq<Value>)
    requires forall i :: 0 <= i < |menu| ==> ItemSlug(menu[i]) !in slugs
    ensures Without(menu, slugs) == menu
    decreases |menu|
  {
    if |menu| > 0 {
      WithoutNone(menu[1..], slugs);
      assert [menu[0]] + menu[1..] == menu;
    }
  }

  /** Removing one more slug from a filtered menu filters by the longer list. */
  lemma {:induction false} WithoutSnoc(menu: seq<Value>, slugs: seq<Value>, x: Value)
    ensures Without(Without(menu, slugs), [x]) == Without(menu, slugs + [x])
    decreases |menu|
  {
    if |menu| > 0 {
      var keep := if ItemSlug(menu[0]) in slugs then [] else [menu[0]];
      var t := Without(menu[1..], slugs);
      WithoutSnoc(menu[1..], slugs, x);
      assert Without(menu, slugs) == keep + t;
      WithoutConcat(keep, t, [x]);
      if |keep| == 1 {
        assert Without(keep, [x]) == (if ItemSlug(menu[0]) in [x] then [] else [menu[0]]) + Without(keep[1..], [x]);
      }
    }
  }

  /** Without distributes over concatenation. */
  lemma {:induction false} WithoutConcat(a: seq<Value>, b: seq<Value>, slugs: seq<Value>)
    ensures Without(a + b, slugs) == Without(a, slugs) + Without(b, slugs)
    decreases |a|
  {
    if |a| > 0 {
      assert (a + b)[1..] == a[1..] + b;
      WithoutConcat(a[1..], b, slugs);
    } else {
      assert a + b == b;
    }
  }

  /** Filtering a menu with distinct slugs keeps them distinct. */
  lemma {:induction false} WithoutDistinct(menu: seq<Value>, slugs: seq<Value>)
    requires DistinctSlugs(menu)
    ensures DistinctSlugs(Without(menu, slugs))
    decreases |menu|
  {
    if |menu| > 0 {
      var t := menu[1..];
      assert DistinctSlugs(t) by {
        forall i, j | 0 <= i < j < |t| ensures ItemSlug(t[i]) != ItemSlug(t[j]) {
          assert t[i] == menu[i + 1] && t[j] == menu[j + 1];
        }
      }
      WithoutDistinct(t, slugs);
      var keep := if ItemSlug(menu[0]) in slugs then [] else [menu[0]];
      var w := Without(t, slugs);
      var r := keep + w;
      forall i, j | 0 <= i < j < |r| ensures ItemSlug(r[i]) != ItemSlug(r[j]) {
        if i < |keep| {
          var m := WithoutIn(t, slugs, j - |keep|);
          assert r[j] == t[m] == menu[m + 1];
        } else {
          assert r[i] == w[i - |keep|] && r[j] == w[j - |keep|];
        }
      }
    }
  }

  /** On a menu with distinct slugs, remove_menu_page is the filter by that one slug. */
  lemma {:induction false} RemoveFirstIsWithout(menu: seq<Value>, slug: Value)
    requires DistinctSlugs(menu)
    ensures RemoveFirst(menu, slug) == Without(menu, [slug])
    decreases |menu|
  {
    if |menu| > 0 {
      var t := menu[1..];
      assert DistinctSlugs(t) by {
        forall i, j | 0 <= i < j < |t| ensures ItemSlug(t[i]) != ItemSlug(t[j]) {
          assert t[i] == menu[i + 1] && t[j] == menu[j + 1];
        }
      }
      if ItemSlug(menu[0]) == slug {
        assert forall i :: 0 <= i < |t| ==> ItemSlug(t[i]) !in [slug] by {
          forall i | 0 <= i < |t| ensures ItemSlug(t[i]) !in [slug] {
            assert t[i] == menu[i + 1];
          }
        }
        WithoutNone(t, [slug]);
      } else {
        RemoveFirstIsWithout(t, slug);
      }
    }
  }

  /**
   * When no two menu items share a slug, the removal loop leaves exactly
   * the items whose slug is not on the hidden list, in their order.
   */
  lemma {:induction false} RemovePagesIsWithout(menu: seq<Value>, slugs: seq<Value>)
    requires DistinctSlugs(menu)
    ensures RemovePages(menu, slugs) == Without(menu, slugs)
    decreases |slugs|
  {
    if |slugs| == 0 {
      WithoutNone(menu, slugs);
    } else {
      var init := slugs[..|slugs| - 1];
      var x := slugs[|slugs| - 1];
      RemovePagesIsWithout(menu, init);
      WithoutDistinct(menu, init);
      RemoveFirstIsWithout(Without(menu, init), x);
      WithoutSnoc(menu, init, x);
      assert init + [x] == slugs;
    }
  }

  /**
   * A hidden page stays hidden: when no two menu items share a slug, no item
   * of the final `$menu` has a slug from the hidden list, reorder or not.
   */
  lemma HiddenPageStaysRemoved(menu: seq<Value>, hiddenMenus: Value, menuOrder: Value, k: int)
    requires DistinctSlugs(menu)
    requires 0 <= k < |Modified(menu, hiddenMenus, menuOrder)|
    ensures ItemSlug(Modified(menu, hiddenMenus, menuOrder)[k]) !in ValuesOf(hiddenMenus)
  {
    var hidden := ValuesOf(hiddenMenus);
    var reduced := RemovePages(menu, hidden);
    RemovePagesIsWithout(menu, hidden);
    if IsEmpty(menuOrder) {
      var _ := WithoutIn(menu, hidden, k);
    } else {
      var j := OrderedItems(reduced, ValuesOf(menuOrder), k);
      var _ := WithoutIn(menu, hidden, FirstWithSlug(reduced, ValuesOf(menuOrder)[j]));
    }
  }

  /** A hidden-submenu entry `p|c` removes page c under p; a bare slug passes a null child. */
  lemma SubmenuCallSplit(p: string, c: string)
    requires '|' !in p && '|' !in c
    ensures SubmenuCall(p + "|" + c) == RemoveSubmenuPage(p, Some(c))
    ensures SubmenuCall(p) == RemoveSubmenuPage(p, None)
  {
    SplitFirst(p, '|', c);
    SplitNoSeparator(c, '|');
    SplitNoSeparator(p, '|');
  }
}
