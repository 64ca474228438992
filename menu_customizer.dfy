/**
 * The menu customizer: per-slug hiding, title, icon and position
 * overrides on the admin menu, hiding and retitling of submenu entries,
 * the menu-order rearrangement, and the customizer's settings with their
 * defaults. The WordPress globals `$menu` and `$submenu` are the fields
 * of an AdminMenu object; each menu item is a PHP array whose field 2 is
 * its slug.
 */
module MenuCustomizer {
  import opened Wrappers
  import opened PhpStrings
  import opened PhpValues

  // ---------------------------------------------------------------------
  // Matching items

  /** `isset($menu_item[2]) && $menu_item[2] === $menu_slug`. */
  predicate Matches(item: Value, slug: Value)
  {
    item.VArr? && IsSetKey(item.entries, KInt(2)) && Lookup(item.entries, KInt(2)).value == slug
  }

  /** The position of the first item with the slug, or -1. */
  function FirstMatch(items: seq<Value>, slug: Value): (r: int)
    ensures -1 <= r < |items|
    ensures r >= 0 ==> Matches(items[r], slug) && forall j :: 0 <= j < r ==> !Matches(items[j], slug)
    ensures r == -1 <==> forall j :: 0 <= j < |items| ==> !Matches(items[j], slug)
    decreases |items|
  {
    if |items| == 0 then -1
    else if Matches(items[0], slug) then 0
    else
      var r := FirstMatch(items[1..], slug);
      if r == -1 then -1 else r + 1
  }

  /** The inner `foreach ... if (match) { ...; break; }` search. */
  method FindFirst(items: seq<Value>, slug: Value) returns (found: int)
    ensures found == FirstMatch(items, slug)
  {
    found := -1;
    var i := 0;
    while i < |items|
      invariant 0 <= i <= |items|
      invariant forall j :: 0 <= j < i ==> !Matches(items[j], slug)
    {
      if Matches(items[i], slug) {
        found := i;
        break;
      }
      i := i + 1;
    }
  }

  /** The position in a menu of the first item with the slug, or -1. */
  function FirstItem(m: seq<Entry>, slug: Value): (r: int)
    ensures -1 <= r < |m|
    ensures r >= 0 ==> Matches(m[r].val, slug) && forall j :: 0 <= j < r ==> !Matches(m[j].val, slug)
    ensures r == -1 <==> forall j :: 0 <= j < |m| ==> !Matches(m[j].val, slug)
  {
    var vs := Values(m);
    assert forall j :: 0 <= j < |m| ==> vs[j] == m[j].val;
    FirstMatch(vs, slug)
  }

  /** `unset($menu[$key])` for the first matching item. */
  function RemoveFirst(m: seq<Entry>, slug: Value): seq<Entry>
  {
    var i := FirstItem(m, slug);
    if i < 0 then m else m[..i] + m[i + 1..]
  }

  /** `$menu[$key][$field] = $v` for the first matching item. */
  function SetFirst(m: seq<Entry>, slug: Value, field: int, v: Value): seq<Entry>
  {
    var i := FirstItem(m, slug);
    if i < 0 then m else m[i := Entry(m[i].key, VArr(Put(m[i].val.entries, KInt(field), v)))]
  }

  /** Without an item with the slug, hiding changes nothing. */
  lemma RemoveFirstNone(m: seq<Entry>, slug: Value)
    requires forall j :: 0 <= j < |m| ==> !Matches(m[j].val, slug)
    ensures RemoveFirst(m, slug) == m
  {
  }

  /** Hiding removes the first item with the slug, and only it. */
  lemma RemoveFirstSome(m: seq<Entry>, slug: Value, j: int) returns (i: int)
    requires 0 <= j < |m| && Matches(m[j].val, slug)
    ensures 0 <= i <= j && Matches(m[i].val, slug) && forall k :: 0 <= k < i ==> !Matches(m[k].val, slug)
    ensures RemoveFirst(m, slug) == m[..i] + m[i + 1..]
  {
    i := FirstItem(m, slug);
  }

  /** Without an item with the slug, an override changes nothing. */
  lemma SetFirstNone(m: seq<Entry>, slug: Value, field: int, v: Value)
    requires forall j :: 0 <= j < |m| ==> !Matches(m[j].val, slug)
    ensures SetFirst(m, slug, field, v) == m
  {
  }

  /** An override writes the first item with the slug; every other item stays. */
  lemma SetFirstSome(m: seq<Entry>, slug: Value, field: int, v: Value, j: int) returns (i: int)
    requires 0 <= j < |m| && Matches(m[j].val, slug)
    ensures 0 <= i <= j && Matches(m[i].val, slug) && forall k :: 0 <= k < i ==> !Matches(m[k].val, slug)
    ensures |SetFirst(m, slug, field, v)| == |m| && SetFirst(m, slug, field, v)[i].key == m[i].key
    ensures forall k :: 0 <= k < |m| && k != i ==> SetFirst(m, slug, field, v)[k] == m[k]
  {
    i := FirstItem(m, slug);
  }

  /** In the item it writes, the override sets exactly the one field. */
  lemma SetFirstField(m: seq<Entry>, slug: Value, field: int, v: Value, k: Key)
    requires FirstItem(m, slug) >= 0
    ensures var r := SetFirst(m, slug, field, v)[FirstItem(m, slug)];
      r.val.VArr? && Lookup(r.val.entries, k) == if k == KInt(field) then Some(v) else Lookup(m[FirstItem(m, slug)].val.entries, k)
  {
    var i := FirstItem(m, slug);
    PutLookup(m[i].val.entries, KInt(field), v, k);
  }

  // ---------------------------------------------------------------------
  // is_numeric

  /** The end of the run of digits starting at i. */
  function DigitsFrom(s: string, i: nat): (r: nat)
    requires i <= |s|
    ensures i <= r <= |s| && (r < |s| ==> !IsDigit(s[r]))
    ensures forall j :: i <= j < r ==> IsDigit(s[j])
    decreases |s| - i
  {
    if i < |s| && IsDigit(s[i]) then DigitsFrom(s, i + 1) else i
  }

  /** An exponent's sign and digits run to the end of t. */
  predicate ExponentTail(t: string, m: nat)
    requires m <= |t|
  {
    var m' := if m < |t| && (t[m] == '+' || t[m] == '-') then m + 1 else m;
    var n := DigitsFrom(t, m');
    n > m' && n == |t|
  }

  /**
   * A PHP 8 numeric string: white space, an optional sign, digits with an
   * optional decimal point (at least one digit), an optional exponent,
   * white space.
   */
  predicate NumericString(s: string)
  {
    var t := TrimSet(s, IntWhitespace);
    var i := if |t| > 0 && (t[0] == '+' || t[0] == '-') then 1 else 0;
    var j := DigitsFrom(t, i);
    var k := if j < |t| && t[j] == '.' then DigitsFrom(t, j + 1) else j;
    var digits := (j - i) + (if k > j then k - j - 1 else 0);
    digits > 0 && (k == |t| || ((t[k] == 'e' || t[k] == 'E') && ExponentTail(t, k + 1)))
  }

  /** `is_numeric($v)`. */
  predicate IsNumeric(v: Value)
  {
    v.VInt? || (v.VStr? && NumericString(v.s))
  }

  /** The end of the digits is the end of a string of digits. */
  lemma DigitsFromAll(t: string, i: nat)
    requires i <= |t| && forall j :: i <= j < |t| ==> IsDigit(t[j])
    ensures DigitsFrom(t, i) == |t|
    decreases |t| - i
  {
    if i < |t| {
      DigitsFromAll(t, i + 1);
    }
  }

  /** Every integer-numeric string is numeric. */
  lemma IntNumericIsNumeric(s: string)
    requires IsIntNumeric(s)
    ensures IsNumeric(VStr(s))
  {
    var t := TrimSet(s, IntWhitespace);
    var i := if t[0] == '+' || t[0] == '-' then 1 else 0;
    DigitsFromAll(t, i);
  }

  /** A string with a letter before its first digit is not numeric. */
  lemma LetterNotNumeric(w: string)
    requires |w| > 0 && 'a' <= w[0] <= 'z'
    ensures !IsNumeric(VStr(w))
  {
    TrimLeftNoop(w, IntWhitespace);
    var t := TrimSet(w, IntWhitespace);
    if |t| > 0 {
      assert t[0] == w[0];
    }
  }

  // ---------------------------------------------------------------------
  // Menu settings

  /** `isset($ms[$name])` and that value; nothing for a setting that is not an array. */
  function Setting(ms: Value, name: string): Option<Value>
  {
    if ms.VArr? && IsSetKey(ms.entries, KStr(name)) then Lookup(ms.entries, KStr(name)) else None
  }

  /** The entries `foreach` visits: an array's, and none for anything else. */
  function EntriesOf(v: Value): seq<Entry>
  {
    if v.VArr? then v.entries else []
  }

  /** `$settings[$name]`, when it is set. */
  function Section(settings: seq<Entry>, name: string): seq<Entry>
  {
    if IsSetKey(settings, KStr(name)) then EntriesOf(Lookup(settings, KStr(name)).value) else []
  }

  predicate HiddenSet(ms: Value)
  {
    Setting(ms, "hidden").Some? && Truthy(Setting(ms, "hidden").value)
  }

  /** `isset($ms[$name]) && !empty($ms[$name])`. */
  predicate NonEmptySetting(ms: Value, name: string)
  {
    Setting(ms, name).Some? && !IsEmpty(Setting(ms, name).value)
  }

  /** One `menu_items` entry: hide, then title (field 0), icon (field 6) and numeric position (field 5). */
  function MenuStep(m: seq<Entry>, e: Entry): seq<Entry>
  {
    var slug := KeyValue(e.key);
    var ms := e.val;
    var m1 := if HiddenSet(ms) then RemoveFirst(m, slug) else m;
    var m2 := if NonEmptySetting(ms, "title") then SetFirst(m1, slug, 0, Setting(ms, "title").value) else m1;
    var m3 := if NonEmptySetting(ms, "icon") then SetFirst(m2, slug, 6, Setting(ms, "icon").value) else m2;
    if Setting(ms, "position").Some? && IsNumeric(Setting(ms, "position").value)
    then SetFirst(m3, slug, 5, Setting(ms, "position").value) else m3
  }

  function MenuSteps(m: seq<Entry>, items: seq<Entry>): seq<Entry>
    decreases |items|
  {
    if |items| == 0 then m else MenuStep(MenuSteps(m, items[..|items| - 1]), items[|items| - 1])
  }

  /** One submenu setting: hide, then title (field 0). */
  function SubStep(list: seq<Entry>, e: Entry): seq<Entry>
  {
    var slug := KeyValue(e.key);
    var l1 := if HiddenSet(e.val) then RemoveFirst(list, slug) else list;
    if NonEmptySetting(e.val, "title") then SetFirst(l1, slug, 0, Setting(e.val, "title").value) else l1
  }

  function SubSteps(list: seq<Entry>, items: seq<Entry>): seq<Entry>
    decreases |items|
  {
    if |items| == 0 then list else SubStep(SubSteps(list, items[..|items| - 1]), items[|items| - 1])
  }

  /** One `submenu_items` entry, for a parent that `$submenu` has. */
  function SubmenuStep(sub: seq<Entry>, e: Entry): seq<Entry>
  {
    if IsSetKey(sub, e.key) && Lookup(sub, e.key).value.VArr? then
      Put(sub, e.key, VArr(SubSteps(Lookup(sub, e.key).value.entries, EntriesOf(e.val))))
    else sub
  }

  function SubmenuSteps(sub: seq<Entry>, items: seq<Entry>): seq<Entry>
    decreases |items|
  {
    if |items| == 0 then sub else SubmenuStep(SubmenuSteps(sub, items[..|items| - 1]), items[|items| - 1])
  }

  // ---------------------------------------------------------------------
  // apply_menu_order

  function RemoveAt<T>(s: seq<T>, i: int): seq<T>
    requires 0 <= i < |s|
  {
    s[..i] + s[i + 1..]
  }

  /** The items the order list picks, in list order, and what remains. */
  function Pick(items: seq<Value>, order: seq<Value>): (seq<Value>, seq<Value>)
    decreases |order|
  {
    if |order| == 0 then ([], items)
    else
      var i := FirstMatch(items, order[0]);
      if i < 0 then Pick(items, order[1..])
      else
        var (p, r) := Pick(RemoveAt(items, i), order[1..]);
        ([items[i]] + p, r)
  }

  /** apply_menu_order: the picked items, then the rest. */
  function Reorder(items: seq<Value>, order: seq<Value>): seq<Value>
  {
    var (p, r) := Pick(items, order);
    p + r
  }

  /** x is a subsequence of y: y with some items left out. */
  predicate Subseq<T(==)>(x: seq<T>, y: seq<T>)
    decreases |y|
  {
    |x| == 0 || (|y| > 0 && ((x[0] == y[0] && Subseq(x[1..], y[1..])) || Subseq(x, y[1..])))
  }

  lemma {:induction false} SubseqRefl<T>(x: seq<T>)
    ensures Subseq(x, x)
    decreases |x|
  {
    if |x| > 0 {
      SubseqRefl(x[1..]);
    }
  }

  lemma {:induction false} SubseqRemoveAt<T>(y: seq<T>, i: int)
    requires 0 <= i < |y|
    ensures Subseq(RemoveAt(y, i), y)
    decreases i
  {
    var x := RemoveAt(y, i);
    if i == 0 {
      assert x == y[1..];
      SubseqRefl(y[1..]);
    } else {
      assert x[0] == y[0];
      assert x[1..] == RemoveAt(y[1..], i - 1);
      SubseqRemoveAt(y[1..], i - 1);
    }
  }

  lemma {:induction false} SubseqTrans<T>(x: seq<T>, y: seq<T>, z: seq<T>)
    requires Subseq(x, y) && Subseq(y, z)
    ensures Subseq(x, z)
    decreases |z|
  {
    if |x| > 0 {
      if Subseq(y, z[1..]) {
        SubseqTrans(x, y, z[1..]);
      } else if x[0] == y[0] && Subseq(x[1..], y[1..]) {
        SubseqTrans(x[1..], y[1..], z[1..]);
      } else {
        SubseqTrans(x, y[1..], z[1..]);
      }
    }
  }

  /** Items not named keep their original relative order. */
  lemma {:induction false} PickRestInOrder(items: seq<Value>, order: seq<Value>)
    ensures Subseq(Pick(items, order).1, items)
    decreases |order|
  {
    if |order| == 0 {
      SubseqRefl(items);
    } else {
      var i := FirstMatch(items, order[0]);
      if i < 0 {
        PickRestInOrder(items, order[1..]);
      } else {
        PickRestInOrder(RemoveAt(items, i), order[1..]);
        SubseqRemoveAt(items, i);
        SubseqTrans(Pick(RemoveAt(items, i), order[1..]).1, RemoveAt(items, i), items);
      }
    }
  }

  lemma RemoveAtMultiset<T>(s: seq<T>, i: int)
    requires 0 <= i < |s|
    ensures multiset(RemoveAt(s, i)) + multiset{s[i]} == multiset(s)
  {
    assert s == s[..i] + [s[i]] + s[i + 1..];
  }

  /** The picked items and the rest together are the original items. */
  lemma {:induction false} PickPermutes(items: seq<Value>, order: seq<Value>)
    ensures multiset(Pick(items, order).0) + multiset(Pick(items, order).1) == multiset(items)
    ensures |Pick(items, order).0| <= |order|
    decreases |order|
  {
    if |order| > 0 {
      var i := FirstMatch(items, order[0]);
      if i < 0 {
        PickPermutes(items, order[1..]);
      } else {
        PickPermutes(RemoveAt(items, i), order[1..]);
        RemoveAtMultiset(items, i);
      }
    }
  }

  /** apply_menu_order returns a permutation of the menu: every item exactly once. */
  lemma ReorderPermutes(items: seq<Value>, order: seq<Value>)
    ensures multiset(Reorder(items, order)) == multiset(items)
  {
    PickPermutes(items, order);
  }

  /** Every picked item carries a slug from the order list. */
  lemma {:induction false} PickedNamed(items: seq<Value>, order: seq<Value>)
    ensures forall k :: 0 <= k < |Pick(items, order).0| ==>
      exists j :: 0 <= j < |order| && Matches(Pick(items, order).0[k], order[j])
    decreases |order|
  {
    if |order| > 0 {
      var i := FirstMatch(items, order[0]);
      var rest := if i < 0 then items else RemoveAt(items, i);
      PickedNamed(rest, order[1..]);
      var p := Pick(rest, order[1..]).0;
      var all := Pick(items, order).0;
      assert all == if i < 0 then p else [items[i]] + p;
      forall k | 0 <= k < |all| ensures exists j :: 0 <= j < |order| && Matches(all[k], order[j]) {
        if i >= 0 && k == 0 {
          assert Matches(all[0], order[0]);
        } else {
          var k' := if i < 0 then k else k - 1;
          assert all[k] == p[k'];
          var j :| 0 <= j < |order[1..]| && Matches(p[k'], order[1..][j]);
          assert order[1..][j] == order[j + 1];
        }
      }
    } else {
      assert Pick(items, order).0 == [];
    }
  }

  lemma RemoveAtKeeps<T>(s: seq<T>, i: int, x: T)
    requires 0 <= i < |s| && x in RemoveAt(s, i)
    ensures x in s
  {
  }

  /** A slug in the order list that no item has is ignored. */
  lemma {:induction false} PickIgnoresUnknown(items: seq<Value>, a: seq<Value>, s: Value, b: seq<Value>)
    requires forall j :: 0 <= j < |items| ==> !Matches(items[j], s)
    ensures Pick(items, a + [s] + b) == Pick(items, a + b)
    decreases |a|
  {
    if |a| == 0 {
      assert a + [s] + b == [s] + b && ([s] + b)[1..] == b && a + b == b;
    } else {
      assert (a + [s] + b)[0] == a[0] && (a + [s] + b)[1..] == a[1..] + [s] + b;
      assert (a + b)[0] == a[0] && (a + b)[1..] == a[1..] + b;
      var i := FirstMatch(items, a[0]);
      if i < 0 {
        PickIgnoresUnknown(items, a[1..], s, b);
      } else {
        var rest := RemoveAt(items, i);
        forall j | 0 <= j < |rest| ensures !Matches(rest[j], s) {
          RemoveAtKeeps(items, i, rest[j]);
        }
        PickIgnoresUnknown(rest, a[1..], s, b);
      }
    }
  }

  /** An empty order list keeps the menu as it is. */
  lemma ReorderEmpty(items: seq<Value>)
    ensures Reorder(items, []) == items
  {
    assert [] + items == items;
  }

  // ---------------------------------------------------------------------
  // customize_admin_menu

  /** The menu after the `menu_items` overrides and the `menu_order` rearrangement. */
  function CustomMenu(menu: seq<Entry>, settings: seq<Entry>): seq<Entry>
  {
    var m := MenuSteps(menu, Section(settings, "menu_items"));
    var o := Lookup(settings, KStr("menu_order"));
    if o.Some? && !IsEmpty(o.value) then ListOf(Reorder(Values(m), Values(EntriesOf(o.value)))) else m
  }

  /** The submenu after the `submenu_items` overrides. */
  function CustomSubmenu(submenu: seq<Entry>, settings: seq<Entry>): seq<Entry>
  {
    SubmenuSteps(submenu, Section(settings, "submenu_items"))
  }

  /** The hiding loop: unset the first item with the slug. */
  method HideIn(list: seq<Entry>, slug: Value) returns (r: seq<Entry>)
    ensures r == RemoveFirst(list, slug)
  {
    r := list;
    var key := FindFirst(Values(list), slug);
    if key >= 0 {
      r := list[..key] + list[key + 1..];
    }
  }

  /** An override loop: write one field of the first item with the slug. */
  method SetIn(list: seq<Entry>, slug: Value, field: int, v: Value) returns (r: seq<Entry>)
    ensures r == SetFirst(list, slug, field, v)
  {
    r := list;
    var key := FindFirst(Values(list), slug);
    if key >= 0 {
      r := list[key := Entry(list[key].key, VArr(Put(list[key].val.entries, KInt(field), v)))];
    }
  }

  /** One submenu entry's settings on the list of its parent's submenu items. */
  method CustomizeSubItem(list: seq<Entry>, e: Entry) returns (r: seq<Entry>)
    ensures r == SubStep(list, e)
  {
    r := list;
    var slug := KeyValue(e.key);
    if HiddenSet(e.val) {
      r := HideIn(r, slug);
    }
    if NonEmptySetting(e.val, "title") {
      r := SetIn(r, slug, 0, Setting(e.val, "title").value);
    }
  }

  /** The global admin menu and submenu that customize_admin_menu rewrites. */
  class AdminMenu {
    var menu: seq<Entry>
    var submenu: seq<Entry>

    constructor(menu0: seq<Entry>, submenu0: seq<Entry>)
      ensures menu == menu0 && submenu == submenu0
    {
      menu := menu0;
      submenu := submenu0;
    }

    /** Hide the first item with the slug. */
    method HideItem(slug: Value)
      modifies this
      ensures menu == RemoveFirst(old(menu), slug) && submenu == old(submenu)
    {
      menu := HideIn(menu, slug);
    }

    /** Set one field of the first item with the slug. */
    method SetItemField(slug: Value, field: int, v: Value)
      modifies this
      ensures menu == SetFirst(old(menu), slug, field, v) && submenu == old(submenu)
    {
      menu := SetIn(menu, slug, field, v);
    }

    /** The settings of one `menu_items` entry. */
    method CustomizeItem(e: Entry)
      modifies this
      ensures menu == MenuStep(old(menu), e) && submenu == old(submenu)
    {
      var slug := KeyValue(e.key);
      var ms := e.val;
      if HiddenSet(ms) {
        HideItem(slug);
      }
      if NonEmptySetting(ms, "title") {
        SetItemField(slug, 0, Setting(ms, "title").value);
      }
      if NonEmptySetting(ms, "icon") {
        SetItemField(slug, 6, Setting(ms, "icon").value);
      }
      if Setting(ms, "position").Some? && IsNumeric(Setting(ms, "position").value) {
        SetItemField(slug, 5, Setting(ms, "position").value);
      }
    }

    /** The settings of one `submenu_items` entry, applied to `$submenu[$parent_slug]`. */
    method CustomizeSubmenu(e: Entry)
      modifies this
      ensures submenu == SubmenuStep(old(submenu), e) && menu == old(menu)
    {
      var parent := Lookup(submenu, e.key);
      if parent.None? || parent.value == VNull || !parent.value.VArr? {
        return;
      }
      var list := parent.value.entries;
      var items := EntriesOf(e.val);
      var i := 0;
      while i < |items|
        invariant 0 <= i <= |items|
        invariant list == SubSteps(parent.value.entries, items[..i])
        invariant menu == old(menu) && submenu == old(submenu)
      {
        assert items[..i + 1][..i] == items[..i];
        list := CustomizeSubItem(list, items[i]);
        i := i + 1;
      }
      assert items[..i] == items;
      submenu := Put(submenu, e.key, VArr(list));
    }

    /** apply_menu_order on `$menu`. */
    method ApplyMenuOrder(order: seq<Value>)
      modifies this
      ensures menu == ListOf(Reorder(Values(old(menu)), order)) && submenu == old(submenu)
    {
      var newMenu: seq<Value> := [];
      var remaining := Values(menu);
      var i := 0;
      while i < |order|
        invariant 0 <= i <= |order|
        invariant newMenu + Pick(remaining, order[i..]).0 == Pick(Values(old(menu)), order).0
        invariant Pick(remaining, order[i..]).1 == Pick(Values(old(menu)), order).1
        invariant menu == old(menu) && submenu == old(submenu)
      {
        assert order[i..][0] == order[i] && order[i..][1..] == order[i + 1..];
        var key := FindFirst(remaining, order[i]);
        if key >= 0 {
          ConcatAssoc(newMenu, [remaining[key]], Pick(RemoveAt(remaining, key), order[i + 1..]).0);
          newMenu := newMenu + [remaining[key]];
          remaining := remaining[..key] + remaining[key + 1..];
        }
        i := i + 1;
      }
      assert order[i..] == [];
      assert Pick(remaining, order[i..]) == ([], remaining);
      assert newMenu + [] == newMenu;
      assert newMenu == Pick(Values(old(menu)), order).0 && remaining == Pick(Values(old(menu)), order).1;
      var j := 0;
      ghost var picked := newMenu;
      while j < |remaining|
        invariant 0 <= j <= |remaining|
        invariant newMenu == picked + remaining[..j]
        invariant menu == old(menu) && submenu == old(submenu)
      {
        assert remaining[..j + 1] == remaining[..j] + [remaining[j]];
        newMenu := newMenu + [remaining[j]];
        j := j + 1;
      }
      assert remaining[..j] == remaining;
      assert newMenu == Reorder(Values(old(menu)), order);
      menu := ListOf(newMenu);
    }

    /** The `menu_items` loop. */
    method CustomizeItems(items: seq<Entry>)
      modifies this
      ensures menu == MenuSteps(old(menu), items) && submenu == old(submenu)
    {
      var i := 0;
      while i < |items|
        invariant 0 <= i <= |items|
        invariant menu == MenuSteps(old(menu), items[..i]) && submenu == old(submenu)
      {
        assert items[..i + 1][..i] == items[..i];
        CustomizeItem(items[i]);
        i := i + 1;
      }
      assert items[..i] == items;
    }

    /** The `submenu_items` loop. */
    method CustomizeSubmenus(subs: seq<Entry>)
      modifies this
      ensures submenu == SubmenuSteps(old(submenu), subs) && menu == old(menu)
    {
      var k := 0;
      while k < |subs|
        invariant 0 <= k <= |subs|
        invariant submenu == SubmenuSteps(old(submenu), subs[..k]) && menu == old(menu)
      {
        assert subs[..k + 1][..k] == subs[..k];
        CustomizeSubmenu(subs[k]);
        k := k + 1;
      }
      assert subs[..k] == subs;
    }

    /** customize_admin_menu. */
    method CustomizeAdminMenu(settings: seq<Entry>)
      modifies this
      ensures menu == CustomMenu(old(menu), settings)
      ensures submenu == CustomSubmenu(old(submenu), settings)
    {
      CustomizeItems(Section(settings, "menu_items"));
      CustomizeSubmenus(Section(settings, "submenu_items"));
      var order := Lookup(settings, KStr("menu_order"));
      if order.Some? && !IsEmpty(order.value) {
        ApplyMenuOrder(Values(EntriesOf(order.value)));
      }
    }
  }

  // ---------------------------------------------------------------------
  // get_settings

  const DefaultSettings: seq<Entry> := [
    Entry(KStr("enabled"), VBool(false)),
    Entry(KStr("menu_items"), VArr([])),
    Entry(KStr("submenu_items"), VArr([])),
    Entry(KStr("admin_bar_items"), VArr([]))
  ]

  /** get_settings: `array_merge($defaults, $stored)`, which is what `wp_parse_args` does for an array. */
  function GetSettings(stored: seq<Entry>): seq<Entry>
  {
    Merge(DefaultSettings, stored)
  }

  predicate IsDefaultKey(s: string)
  {
    s == "enabled" || s == "menu_items" || s == "submenu_items" || s == "admin_bar_items"
  }

  /** A stored value overrides its default; a key the option lacks keeps the default. */
  lemma GetSettingsLookup(stored: seq<Entry>, s: string)
    requires UniqueKeys(stored)
    ensures HasKey(stored, KStr(s)) ==> Lookup(GetSettings(stored), KStr(s)) == Lookup(stored, KStr(s))
    ensures !HasKey(stored, KStr(s)) ==> Lookup(GetSettings(stored), KStr(s)) == Lookup(DefaultSettings, KStr(s))
    ensures IsDefaultKey(s) ==> HasKey(GetSettings(stored), KStr(s))
  {
    assert UniqueKeys(DefaultSettings);
    MergeLookup(DefaultSettings, stored, s);
    if IsDefaultKey(s) {
      assert exists j :: 0 <= j < |DefaultSettings| && DefaultSettings[j].key == KStr(s);
    }
  }
}
