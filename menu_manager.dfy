/**
 * The menu manager: which admin-menu items the `menu_toggles` option
 * hides, the table of all menu items it works from, the CSS and admin-bar
 * ids it derives for a hidden slug, and the menu statistics. The
 * WordPress globals `$menu` and `$submenu` and the stored option are
 * parameters; `esc_attr` is an uninterpreted function.
 */
module MenuManager {
  import opened Wrappers
  import opened PhpStrings
  import opened PhpValues

  /** The top-level slugs that are never hidden. */
  const ProtectedMenus: seq<string> := ["index.php", "users.php", "profile.php", "wp-clean-admin"]

  // ---------------------------------------------------------------------
  // Protection

  /** The text before the first `|`, or the whole slug. */
  function MainSlug(slug: string): string
  {
    if '|' in slug then SplitOnce(slug, '|').0 else slug
  }

  /** `explode('|', $slug)[0]` is the text before the first `|`. */
  lemma ExplodeMain(slug: string)
    ensures Split(slug, '|')[0] == MainSlug(slug)
  {
    if '|' in slug {
      var (a, b) := SplitOnce(slug, '|');
      SplitFirst(a, '|', b);
    } else {
      SplitNoSeparator(slug, '|');
    }
  }

  function Words(ws: seq<string>): (r: seq<Value>)
    ensures |r| == |ws| && forall i :: 0 <= i < |ws| ==> r[i] == VStr(ws[i])
  {
    seq(|ws|, i requires 0 <= i < |ws| => VStr(ws[i]))
  }

  /** is_menu_protected: the first `|`-part, loosely `in_array` of the protected slugs. */
  predicate IsMenuProtected(slug: string)
  {
    InArrayLoose(VStr(Split(slug, '|')[0]), Words(ProtectedMenus))
  }

  /** A slug is protected exactly when the text before its first `|` is a protected slug. */
  lemma ProtectedIff(slug: string)
    ensures IsMenuProtected(slug) <==> MainSlug(slug) in ProtectedMenus
  {
    ExplodeMain(slug);
    var m := VStr(MainSlug(slug));
    var ws := Words(ProtectedMenus);
    forall j | 0 <= j < |ProtectedMenus|
      ensures LooseEquals(m, ws[j]) <==> MainSlug(slug) == ProtectedMenus[j]
    {
      LooseEqualsWord(m, ProtectedMenus[j]);
    }
  }

  // ---------------------------------------------------------------------
  // All menu items

  /** An entry of `$menu` or `$submenu[...]`: field 0 is the title, field 2 the slug. */
  datatype MenuItem = MenuItem(title: Option<string>, slug: Option<string>)

  function TitleOf(item: MenuItem): string
  {
    if item.title.Some? then item.title.value else ""
  }

  function TopItem(title: string, slug: string): Value
  {
    VArr([Entry(KStr("type"), VStr("top")), Entry(KStr("title"), VStr(title)), Entry(KStr("slug"), VStr(slug))])
  }

  function SubItem(parent: string, title: string, sub: string): Value
  {
    VArr([Entry(KStr("type"), VStr("sub")), Entry(KStr("parent"), VStr(parent)), Entry(KStr("title"), VStr(title)),
          Entry(KStr("slug"), VStr(sub)), Entry(KStr("combined_slug"), VStr(parent + "|" + sub))])
  }

  /** `$submenu[$slug]` when it is set and an array, otherwise nothing. */
  function SubsOf(submenu: map<string, seq<MenuItem>>, slug: string): seq<MenuItem>
  {
    if slug in submenu then submenu[slug] else []
  }

  /** The sub-items of `parent`, each stored under `parent|sub`. */
  function AddSubs(acc: seq<Entry>, parent: string, subs: seq<MenuItem>): seq<Entry>
    decreases |subs|
  {
    if |subs| == 0 then acc
    else
      var a := AddSubs(acc, parent, subs[..|subs| - 1]);
      var last := subs[|subs| - 1];
      if last.slug.Some? then Put(a, KeyOf(parent + "|" + last.slug.value), SubItem(parent, TitleOf(last), last.slug.value))
      else a
  }

  /** One top-level item with a slug: its own entry, then its sub-items. */
  function AddTop(acc: seq<Entry>, item: MenuItem, submenu: map<string, seq<MenuItem>>): seq<Entry>
  {
    if item.slug.None? then acc
    else
      var s := item.slug.value;
      AddSubs(Put(acc, KeyOf(s), TopItem(TitleOf(item), s)), s, SubsOf(submenu, s))
  }

  /** get_all_menu_items for a `$menu` that is an array. */
  function AllItems(menu: seq<MenuItem>, submenu: map<string, seq<MenuItem>>): seq<Entry>
    decreases |menu|
  {
    if |menu| == 0 then []
    else AddTop(AllItems(menu[..|menu| - 1], submenu), menu[|menu| - 1], submenu)
  }

  /** get_all_menu_items: nothing when `$menu` is not an array. */
  function AllItemsOf(menu: Option<seq<MenuItem>>, submenu: map<string, seq<MenuItem>>): seq<Entry>
  {
    if menu.Some? then AllItems(menu.value, submenu) else []
  }

  method GetAllMenuItems(menu: Option<seq<MenuItem>>, submenu: map<string, seq<MenuItem>>) returns (all: seq<Entry>)
    ensures all == AllItemsOf(menu, submenu)
  {
    all := [];
    if menu.Some? {
      var items := menu.value;
      var i := 0;
      while i < |items|
        invariant 0 <= i <= |items|
        invariant all == AllItems(items[..i], submenu)
      {
        var item := items[i];
        assert items[..i + 1][..i] == items[..i];
        if item.slug.Some? {
          var slug := item.slug.value;
          all := Put(all, KeyOf(slug), TopItem(TitleOf(item), slug));
          if slug in submenu {
            var subs := submenu[slug];
            ghost var base := all;
            var j := 0;
            while j < |subs|
              invariant 0 <= j <= |subs|
              invariant all == AddSubs(base, slug, subs[..j])
            {
              var sub := subs[j];
              assert subs[..j + 1][..j] == subs[..j];
              if sub.slug.Some? {
                var subSlug := sub.slug.value;
                var combined := slug + "|" + subSlug;
                all := Put(all, KeyOf(combined), SubItem(slug, TitleOf(sub), subSlug));
              }
              j := j + 1;
            }
            assert subs[..j] == subs;
          }
        }
        i := i + 1;
      }
      assert items[..i] == items;
    }
  }

  /** The field `name` of an item record. */
  function Field(e: Entry, name: string): Option<Value>
  {
    if e.val.VArr? then Lookup(e.val.entries, KStr(name)) else None
  }

  /** A top-level record, stored under its own slug. */
  predicate IsTopEntry(e: Entry)
  {
    Field(e, "type") == Some(VStr("top")) && Field(e, "slug").Some? && Field(e, "slug").value.VStr?
    && e.key == KeyOf(Field(e, "slug").value.s)
  }

  /** A sub-item record, stored under `parent|slug`, which is also its combined_slug. */
  predicate IsSubEntry(e: Entry)
  {
    Field(e, "type") == Some(VStr("sub"))
    && Field(e, "parent").Some? && Field(e, "parent").value.VStr?
    && Field(e, "slug").Some? && Field(e, "slug").value.VStr?
    && Field(e, "combined_slug") == Some(VStr(Field(e, "parent").value.s + "|" + Field(e, "slug").value.s))
    && e.key == KeyOf(Field(e, "parent").value.s + "|" + Field(e, "slug").value.s)
  }

  predicate WellFormed(a: seq<Entry>)
  {
    UniqueKeys(a) && forall j :: 0 <= j < |a| ==> IsTopEntry(a[j]) || IsSubEntry(a[j])
  }

  lemma TopItemEntry(title: string, slug: string)
    ensures IsTopEntry(Entry(KeyOf(slug), TopItem(title, slug)))
  {
    var f := TopItem(title, slug).entries;
    assert IndexOfKey(f, KStr("type")) == 0;
    assert f[0].key != KStr("slug") && f[1].key != KStr("slug") && f[2].key == KStr("slug");
  }

  lemma SubItemEntry(parent: string, title: string, sub: string)
    ensures IsSubEntry(Entry(KeyOf(parent + "|" + sub), SubItem(parent, title, sub)))
  {
    var f := SubItem(parent, title, sub).entries;
    assert IndexOfKey(f, KStr("type")) == 0;
    assert f[0].key != KStr("parent") && f[1].key == KStr("parent");
    assert forall j :: 0 <= j < 3 ==> f[j].key != KStr("slug");
    assert f[3].key == KStr("slug");
    assert forall j :: 0 <= j < 4 ==> f[j].key != KStr("combined_slug");
    assert f[4].key == KStr("combined_slug");
  }

  lemma PutWellFormed(a: seq<Entry>, k: Key, v: Value)
    requires WellFormed(a) && (IsTopEntry(Entry(k, v)) || IsSubEntry(Entry(k, v)))
    ensures WellFormed(Put(a, k, v))
  {
    PutShape(a, k, v);
  }

  lemma {:induction false} AddSubsWellFormed(acc: seq<Entry>, parent: string, subs: seq<MenuItem>)
    requires WellFormed(acc)
    ensures WellFormed(AddSubs(acc, parent, subs))
    decreases |subs|
  {
    if |subs| > 0 {
      var a := AddSubs(acc, parent, subs[..|subs| - 1]);
      AddSubsWellFormed(acc, parent, subs[..|subs| - 1]);
      var last := subs[|subs| - 1];
      if last.slug.Some? {
        var c := last.slug.value;
        SubItemEntry(parent, TitleOf(last), c);
        PutWellFormed(a, KeyOf(parent + "|" + c), SubItem(parent, TitleOf(last), c));
      }
    }
  }

  /** Every key occurs once; every record is a top item under its slug or a sub-item under `parent|sub`. */
  lemma {:induction false} AllItemsWellFormed(menu: seq<MenuItem>, submenu: map<string, seq<MenuItem>>)
    ensures WellFormed(AllItems(menu, submenu))
    decreases |menu|
  {
    if |menu| > 0 {
      var acc := AllItems(menu[..|menu| - 1], submenu);
      AllItemsWellFormed(menu[..|menu| - 1], submenu);
      var item := menu[|menu| - 1];
      if item.slug.Some? {
        var s := item.slug.value;
        TopItemEntry(TitleOf(item), s);
        PutWellFormed(acc, KeyOf(s), TopItem(TitleOf(item), s));
        AddSubsWellFormed(Put(acc, KeyOf(s), TopItem(TitleOf(item), s)), s, SubsOf(submenu, s));
      }
    }
  }

  lemma PutKeepsKey(a: seq<Entry>, k: Key, v: Value, k': Key)
    requires HasKey(a, k')
    ensures HasKey(Put(a, k, v), k')
  {
    PutLookup(a, k, v, k');
  }

  /** AddSubs keeps every key already there and adds `parent|sub` for each sub-item with a slug. */
  lemma {:induction false} AddSubsKeys(acc: seq<Entry>, parent: string, subs: seq<MenuItem>, k: Key)
    ensures HasKey(acc, k) ==> HasKey(AddSubs(acc, parent, subs), k)
    ensures forall j :: 0 <= j < |subs| && subs[j].slug.Some? && k == KeyOf(parent + "|" + subs[j].slug.value)
              ==> HasKey(AddSubs(acc, parent, subs), k)
    decreases |subs|
  {
    if |subs| > 0 {
      var init := subs[..|subs| - 1];
      var a := AddSubs(acc, parent, init);
      AddSubsKeys(acc, parent, init, k);
      var last := subs[|subs| - 1];
      if last.slug.Some? {
        var c := last.slug.value;
        PutLookup(a, KeyOf(parent + "|" + c), SubItem(parent, TitleOf(last), c), k);
      }
      forall j | 0 <= j < |subs| - 1
        ensures subs[j] == init[j]
      {
      }
    }
  }

  /** Every top-level item with a slug, and every sub-item with one, has its entry. */
  lemma {:induction false} AllItemsKeys(menu: seq<MenuItem>, submenu: map<string, seq<MenuItem>>, i: int, s: string)
    requires 0 <= i < |menu| && menu[i].slug == Some(s)
    ensures HasKey(AllItems(menu, submenu), KeyOf(s))
    ensures forall j :: 0 <= j < |SubsOf(submenu, s)| && SubsOf(submenu, s)[j].slug.Some?
              ==> HasKey(AllItems(menu, submenu), KeyOf(s + "|" + SubsOf(submenu, s)[j].slug.value))
    decreases |menu|
  {
    var init := menu[..|menu| - 1];
    var acc := AllItems(init, submenu);
    var item := menu[|menu| - 1];
    var subs := SubsOf(submenu, s);
    if i == |menu| - 1 {
      var t := Put(acc, KeyOf(s), TopItem(TitleOf(item), s));
      PutLookup(acc, KeyOf(s), TopItem(TitleOf(item), s), KeyOf(s));
      forall j | 0 <= j < |subs| && subs[j].slug.Some?
        ensures HasKey(AllItems(menu, submenu), KeyOf(s + "|" + subs[j].slug.value))
      {
        AddSubsKeys(t, s, subs, KeyOf(s + "|" + subs[j].slug.value));
      }
      AddSubsKeys(t, s, subs, KeyOf(s));
    } else {
      assert init[i] == menu[i];
      AllItemsKeys(init, submenu, i, s);
      if item.slug.Some? {
        var p := item.slug.value;
        var t := Put(acc, KeyOf(p), TopItem(TitleOf(item), p));
        PutKeepsKey(acc, KeyOf(p), TopItem(TitleOf(item), p), KeyOf(s));
        AddSubsKeys(t, p, SubsOf(submenu, p), KeyOf(s));
        forall j | 0 <= j < |subs| && subs[j].slug.Some?
          ensures HasKey(AllItems(menu, submenu), KeyOf(s + "|" + subs[j].slug.value))
        {
          var k := KeyOf(s + "|" + subs[j].slug.value);
          PutKeepsKey(acc, KeyOf(p), TopItem(TitleOf(item), p), k);
          AddSubsKeys(t, p, SubsOf(submenu, p), k);
        }
      }
    }
  }

  /** Different strings give different keys. */
  lemma KeyOfInjective(x: string, y: string)
    requires KeyOf(x) == KeyOf(y)
    ensures x == y
  {
    KeyOfRoundTrip(x);
    KeyOfRoundTrip(y);
  }

  /** AddSubs never touches the entry of the parent's own slug. */
  lemma {:induction false} AddSubsKeepsParent(acc: seq<Entry>, parent: string, subs: seq<MenuItem>)
    ensures Lookup(AddSubs(acc, parent, subs), KeyOf(parent)) == Lookup(acc, KeyOf(parent))
    decreases |subs|
  {
    if |subs| > 0 {
      var a := AddSubs(acc, parent, subs[..|subs| - 1]);
      AddSubsKeepsParent(acc, parent, subs[..|subs| - 1]);
      var last := subs[|subs| - 1];
      if last.slug.Some? {
        var c := last.slug.value;
        PutLookup(a, KeyOf(parent + "|" + c), SubItem(parent, TitleOf(last), c), KeyOf(parent));
        if KeyOf(parent + "|" + c) == KeyOf(parent) {
          KeyOfInjective(parent + "|" + c, parent);
          assert false;
        }
      }
    }
  }

  /** A later item with the same slug overwrites: the last item's record is the one stored under its slug. */
  lemma LastTopWins(menu: seq<MenuItem>, submenu: map<string, seq<MenuItem>>, s: string)
    requires |menu| > 0 && menu[|menu| - 1].slug == Some(s)
    ensures Lookup(AllItems(menu, submenu), KeyOf(s)) == Some(TopItem(TitleOf(menu[|menu| - 1]), s))
  {
    var acc := AllItems(menu[..|menu| - 1], submenu);
    var v := TopItem(TitleOf(menu[|menu| - 1]), s);
    PutLookup(acc, KeyOf(s), v, KeyOf(s));
    AddSubsKeepsParent(Put(acc, KeyOf(s), v), s, SubsOf(submenu, s));
  }

  // ---------------------------------------------------------------------
  // Hidden items

  /** `$options['menu_toggles']` when it is set and an array. */
  function Toggles(options: seq<Entry>): Option<seq<Entry>>
  {
    var v := Lookup(options, KStr("menu_toggles"));
    if v.Some? && v.value.VArr? then Some(v.value.entries) else None
  }

  /** One toggle hides its slug: a non-empty string key, state exactly 0, a known item, not protected. */
  predicate Hides(e: Entry, all: seq<Entry>)
  {
    e.key.KStr? && !EmptyString(e.key.s) && e.val == VInt(0)
    && IsSetKey(all, KeyOf(e.key.s)) && !IsMenuProtected(e.key.s)
  }

  /** The slugs the toggles hide, in toggle order. */
  function HiddenFrom(toggles: seq<Entry>, all: seq<Entry>): seq<string>
    decreases |toggles|
  {
    if |toggles| == 0 then []
    else
      var h := HiddenFrom(toggles[..|toggles| - 1], all);
      var e := toggles[|toggles| - 1];
      if Hides(e, all) then h + [e.key.s] else h
  }

  /** calculate_hidden_items. */
  function CalculateHidden(options: seq<Entry>, all: seq<Entry>): seq<string>
  {
    match Toggles(options)
    case None => []
    case Some(t) => HiddenFrom(t, all)
  }

  method CalculateHiddenItems(options: seq<Entry>, all: seq<Entry>) returns (hidden: seq<string>)
    ensures hidden == CalculateHidden(options, all)
    ensures Toggles(options).None? ==> hidden == []
  {
    hidden := [];
    var t := Lookup(options, KStr("menu_toggles"));
    if t.None? || !t.value.VArr? {
      return;
    }
    var toggles := t.value.entries;
    var i := 0;
    while i < |toggles|
      invariant 0 <= i <= |toggles|
      invariant hidden == HiddenFrom(toggles[..i], all)
    {
      assert toggles[..i + 1][..i] == toggles[..i];
      var slugKey := toggles[i].key;
      var state := toggles[i].val;
      if !slugKey.KStr? || EmptyString(slugKey.s) {
        i := i + 1;
        continue;
      }
      var slug := slugKey.s;
      if state == VInt(0) && IsSetKey(all, KeyOf(slug)) {
        var parts := Split(slug, '|');
        var mainSlug := parts[0];
        if !InArrayLoose(VStr(mainSlug), Words(ProtectedMenus)) {
          hidden := hidden + [slug];
        }
      }
      i := i + 1;
    }
    assert toggles[..i] == toggles;
  }

  /** A slug is hidden exactly when some toggle under that key hides it. */
  lemma {:induction false} HiddenIff(toggles: seq<Entry>, all: seq<Entry>, s: string)
    ensures s in HiddenFrom(toggles, all) <==> exists j :: 0 <= j < |toggles| && toggles[j].key == KStr(s) && Hides(toggles[j], all)
    decreases |toggles|
  {
    if |toggles| > 0 {
      var init := toggles[..|toggles| - 1];
      HiddenIff(init, all, s);
      if exists j :: 0 <= j < |init| && init[j].key == KStr(s) && Hides(init[j], all) {
        var j :| 0 <= j < |init| && init[j].key == KStr(s) && Hides(init[j], all);
        assert toggles[j] == init[j];
      }
      if exists j :: 0 <= j < |toggles| && toggles[j].key == KStr(s) && Hides(toggles[j], all) {
        var j :| 0 <= j < |toggles| && toggles[j].key == KStr(s) && Hides(toggles[j], all);
        if j < |init| {
          assert init[j] == toggles[j];
        }
      }
    }
  }

  /** The hidden list keeps toggle order: hiding distributes over concatenation of toggle lists. */
  lemma {:induction false} HiddenAppend(a: seq<Entry>, b: seq<Entry>, all: seq<Entry>)
    ensures HiddenFrom(a + b, all) == HiddenFrom(a, all) + HiddenFrom(b, all)
    decreases |b|
  {
    if |b| > 0 {
      assert (a + b)[..|a + b| - 1] == a + b[..|b| - 1];
      HiddenAppend(a, b[..|b| - 1], all);
    } else {
      assert a + b == a;
    }
  }

  /** Every hidden slug is a non-empty string, a key of all_items, and not protected. */
  lemma HiddenSound(options: seq<Entry>, all: seq<Entry>, s: string)
    requires s in CalculateHidden(options, all)
    ensures Toggles(options).Some?
    ensures !EmptyString(s) && IsSetKey(all, KeyOf(s)) && MainSlug(s) !in ProtectedMenus
    ensures exists j :: 0 <= j < |Toggles(options).value| && Toggles(options).value[j] == Entry(KStr(s), VInt(0))
  {
    var t := Toggles(options).value;
    HiddenIff(t, all, s);
    var j :| 0 <= j < |t| && t[j].key == KStr(s) && Hides(t[j], all);
    ProtectedIff(s);
    assert t[j] == Entry(KStr(s), VInt(0));
  }

  predicate Distinct(h: seq<string>)
  {
    forall i, j :: 0 <= i < j < |h| ==> h[i] != h[j]
  }

  /** Toggle keys are unique, so no slug is hidden twice. */
  lemma {:induction false} HiddenDistinct(toggles: seq<Entry>, all: seq<Entry>)
    requires UniqueKeys(toggles)
    ensures Distinct(HiddenFrom(toggles, all))
    decreases |toggles|
  {
    if |toggles| > 0 {
      var init := toggles[..|toggles| - 1];
      var e := toggles[|toggles| - 1];
      assert UniqueKeys(init) by {
        forall x, y | 0 <= x < y < |init| ensures init[x].key != init[y].key {
          assert init[x] == toggles[x] && init[y] == toggles[y];
        }
      }
      HiddenDistinct(init, all);
      if Hides(e, all) {
        HiddenIff(init, all, e.key.s);
        forall j | 0 <= j < |init| ensures init[j].key != e.key {
          assert init[j] == toggles[j];
        }
      }
    }
  }

  // ---------------------------------------------------------------------
  // The manager and its caches

  /** The value `get_option('wpca_settings', array())` gives, and the stored menu globals. */
  class Manager {
    var optionsCache: Option<seq<Entry>>
    var hiddenCache: Option<seq<string>>

    constructor()
      ensures optionsCache == None && hiddenCache == None
    {
      optionsCache := None;
      hiddenCache := None;
    }

    /** get_plugin_options: read the stored option once and keep it. */
    method GetPluginOptions(stored: seq<Entry>) returns (options: seq<Entry>)
      modifies this
      ensures options == (if old(optionsCache).Some? then old(optionsCache).value else stored)
      ensures optionsCache == Some(options) && hiddenCache == old(hiddenCache)
    {
      if optionsCache.None? {
        optionsCache := Some(stored);
      }
      options := optionsCache.value;
    }

    /** get_hidden_menu_items: computed once from the options and the menu, then served from the cache. */
    method GetHiddenMenuItems(stored: seq<Entry>, menu: Option<seq<MenuItem>>, submenu: map<string, seq<MenuItem>>)
      returns (hidden: seq<string>)
      modifies this
      ensures old(hiddenCache).Some? ==> hidden == old(hiddenCache).value && optionsCache == old(optionsCache)
      ensures old(hiddenCache).None? ==>
        var options := if old(optionsCache).Some? then old(optionsCache).value else stored;
        hidden == CalculateHidden(options, AllItemsOf(menu, submenu)) && optionsCache == Some(options)
      ensures hiddenCache == Some(hidden)
    {
      if hiddenCache.None? {
        var options := GetPluginOptions(stored);
        var all := GetAllMenuItems(menu, submenu);
        var h := CalculateHiddenItems(options, all);
        hiddenCache := Some(h);
      }
      hidden := hiddenCache.value;
    }

    /** clear_cache: both caches are dropped. */
    method ClearCache()
      modifies this
      ensures optionsCache == None && hiddenCache == None
    {
      optionsCache := None;
      hiddenCache := None;
    }

    /** get_menu_statistics over the current menu and the (cached) hidden list. */
    method GetMenuStatistics(stored: seq<Entry>, menu: Option<seq<MenuItem>>, submenu: map<string, seq<MenuItem>>)
      returns (stats: Stats)
      modifies this
      ensures hiddenCache.Some? && stats == Statistics(AllItemsOf(menu, submenu), hiddenCache.value)
      ensures old(hiddenCache).Some? ==> hiddenCache == old(hiddenCache) && optionsCache == old(optionsCache)
    {
      var all := GetAllMenuItems(menu, submenu);
      var hidden := GetHiddenMenuItems(stored, menu, submenu);
      stats := CountStatistics(all, hidden);
    }
  }

  // ---------------------------------------------------------------------
  // Statistics

  datatype Stats = Stats(total: int, topLevel: int, submenu: int, protected: int, hidden: int,
                         hiddenTopLevel: int, hiddenSubmenu: int, visible: int)

  /** `$item['type'] === 'top'`. */
  predicate IsTop(v: Value)
  {
    v.VArr? && Lookup(v.entries, KStr("type")) == Some(VStr("top"))
  }

  /** `in_array($slug, $hidden_items)` for a key of all_items. */
  predicate InHidden(k: Key, hidden: seq<string>)
  {
    InArrayLoose(KeyValue(k), Words(hidden))
  }

  function CountTop(a: seq<Entry>): nat
    decreases |a|
  {
    if |a| == 0 then 0 else CountTop(a[..|a| - 1]) + (if IsTop(a[|a| - 1].val) then 1 else 0)
  }

  function CountHiddenTop(a: seq<Entry>, hidden: seq<string>): nat
    decreases |a|
  {
    if |a| == 0 then 0
    else
      var e := a[|a| - 1];
      CountHiddenTop(a[..|a| - 1], hidden) + (if IsTop(e.val) && InHidden(e.key, hidden) then 1 else 0)
  }

  function CountHiddenSub(a: seq<Entry>, hidden: seq<string>): nat
    decreases |a|
  {
    if |a| == 0 then 0
    else
      var e := a[|a| - 1];
      CountHiddenSub(a[..|a| - 1], hidden) + (if !IsTop(e.val) && InHidden(e.key, hidden) then 1 else 0)
  }

  function CountProtected(a: seq<Entry>): nat
    decreases |a|
  {
    if |a| == 0 then 0
    else CountProtected(a[..|a| - 1]) + (if IsMenuProtected(KeyString(a[|a| - 1].key)) then 1 else 0)
  }

  /** The statistics record for all_items and the hidden list. */
  function Statistics(all: seq<Entry>, hidden: seq<string>): Stats
  {
    var top := CountTop(all);
    Stats(|all|, top, |all| - top, CountProtected(all), |hidden|,
          CountHiddenTop(all, hidden), CountHiddenSub(all, hidden), |all| - |hidden|)
  }

  method CountStatistics(all: seq<Entry>, hidden: seq<string>) returns (stats: Stats)
    ensures stats == Statistics(all, hidden)
  {
    var top, sub, prot, hiddenTop, hiddenSub := 0, 0, 0, 0, 0;
    var i := 0;
    while i < |all|
      invariant 0 <= i <= |all|
      invariant top == CountTop(all[..i]) && sub == i - top
      invariant prot == CountProtected(all[..i])
      invariant hiddenTop == CountHiddenTop(all[..i], hidden) && hiddenSub == CountHiddenSub(all[..i], hidden)
    {
      assert all[..i + 1][..i] == all[..i];
      var slug := all[i].key;
      var item := all[i].val;
      if IsTop(item) {
        top := top + 1;
        if InArrayLoose(KeyValue(slug), Words(hidden)) {
          hiddenTop := hiddenTop + 1;
        }
      } else {
        sub := sub + 1;
        if InArrayLoose(KeyValue(slug), Words(hidden)) {
          hiddenSub := hiddenSub + 1;
        }
      }
      if IsMenuProtected(KeyString(slug)) {
        prot := prot + 1;
      }
      i := i + 1;
    }
    assert all[..i] == all;
    stats := Stats(|all|, top, sub, prot, |hidden|, hiddenTop, hiddenSub, |all| - |hidden|);
  }

  lemma {:induction false} CountTopBound(a: seq<Entry>, hidden: seq<string>)
    ensures CountHiddenTop(a, hidden) <= CountTop(a) <= |a|
    ensures CountHiddenSub(a, hidden) <= |a| - CountTop(a)
    ensures CountProtected(a) <= |a|
    decreases |a|
  {
    if |a| > 0 {
      CountTopBound(a[..|a| - 1], hidden);
    }
  }

  /** A slug PHP never reads as a number: it starts with neither a digit, a sign nor white space. */
  predicate PlainSlug(t: string)
  {
    |t| > 0 && !IsDigit(t[0]) && t[0] !in IntWhitespace && t[0] != '-' && t[0] != '+'
  }

  /** For plain slugs, the loose `in_array` is plain membership. */
  lemma InHiddenPlain(t: string, hidden: seq<string>)
    requires PlainSlug(t) && forall i :: 0 <= i < |hidden| ==> PlainSlug(hidden[i])
    ensures InHidden(KStr(t), hidden) <==> t in hidden
  {
    var ws := Words(hidden);
    forall i | 0 <= i < |hidden|
      ensures LooseEquals(VStr(t), ws[i]) <==> t == hidden[i]
    {
      LooseEqualsWord(VStr(t), hidden[i]);
    }
  }

  /** The number of entries hidden (as top or sub) is the number whose key is in the list. */
  function CountIn(a: seq<Entry>, h: seq<string>): nat
    decreases |a|
  {
    if |a| == 0 then 0
    else CountIn(a[..|a| - 1], h) + (if a[|a| - 1].key.KStr? && a[|a| - 1].key.s in h then 1 else 0)
  }

  predicate PlainKeys(a: seq<Entry>)
  {
    forall j :: 0 <= j < |a| ==> a[j].key.KStr? && PlainSlug(a[j].key.s)
  }

  lemma {:induction false} CountHiddenIsCountIn(a: seq<Entry>, hidden: seq<string>)
    requires PlainKeys(a) && forall i :: 0 <= i < |hidden| ==> PlainSlug(hidden[i])
    ensures CountHiddenTop(a, hidden) + CountHiddenSub(a, hidden) == CountIn(a, hidden)
    decreases |a|
  {
    if |a| > 0 {
      var init := a[..|a| - 1];
      assert PlainKeys(init) by {
        forall j | 0 <= j < |init| ensures init[j].key.KStr? && PlainSlug(init[j].key.s) {
          assert init[j] == a[j];
        }
      }
      CountHiddenIsCountIn(init, hidden);
      InHiddenPlain(a[|a| - 1].key.s, hidden);
    }
  }

  /** A list with x removed at i. */
  function Without(h: seq<string>, i: int): seq<string>
    requires 0 <= i < |h|
  {
    h[..i] + h[i + 1..]
  }

  lemma {:induction false} CountInDrop(a: seq<Entry>, h: seq<string>, i: int)
    requires 0 <= i < |h|
    requires forall j :: 0 <= j < |a| ==> a[j].key != KStr(h[i])
    ensures CountIn(a, h) == CountIn(a, Without(h, i))
    decreases |a|
  {
    if |a| > 0 {
      var init := a[..|a| - 1];
      forall j | 0 <= j < |init| ensures init[j].key != KStr(h[i]) {
        assert init[j] == a[j];
      }
      CountInDrop(init, h, i);
      var k := a[|a| - 1].key;
      if k.KStr? {
        assert k.s in h <==> k.s in Without(h, i) by {
          if k.s in h {
            var m :| 0 <= m < |h| && h[m] == k.s;
            assert m != i;
            if m < i {
              assert Without(h, i)[m] == k.s;
            } else {
              assert Without(h, i)[m - 1] == k.s;
            }
          }
          if k.s in Without(h, i) {
            var m :| 0 <= m < |Without(h, i)| && Without(h, i)[m] == k.s;
            if m < i {
              assert h[m] == k.s;
            } else {
              assert h[m + 1] == k.s;
            }
          }
        }
      }
    }
  }

  lemma UniqueInit(a: seq<Entry>)
    requires |a| > 0 && UniqueKeys(a)
    ensures UniqueKeys(a[..|a| - 1])
  {
    var init := a[..|a| - 1];
    forall x, y | 0 <= x < y < |init| ensures init[x].key != init[y].key {
      assert init[x] == a[x] && init[y] == a[y];
    }
  }

  /** A key of a that is not its last key is a key of the rest. */
  lemma HasKeyInit(a: seq<Entry>, k: Key)
    requires |a| > 0 && HasKey(a, k) && a[|a| - 1].key != k
    ensures HasKey(a[..|a| - 1], k)
  {
    var p := IndexOfKey(a, k);
    assert p < |a| - 1 && a[..|a| - 1][p] == a[p];
  }

  /** Removing one element keeps a list distinct and keeps every other element. */
  lemma WithoutFacts(h: seq<string>, i: int)
    requires 0 <= i < |h| && Distinct(h)
    ensures Distinct(Without(h, i)) && |Without(h, i)| == |h| - 1
    ensures forall m :: 0 <= m < |Without(h, i)| ==> Without(h, i)[m] in h && Without(h, i)[m] != h[i]
  {
    var h' := Without(h, i);
    forall x, y | 0 <= x < y < |h'| ensures h'[x] != h'[y] {
      var nx := if x < i then x else x + 1;
      var ny := if y < i then y else y + 1;
      assert h'[x] == h[nx] && h'[y] == h[ny];
    }
    forall m | 0 <= m < |h'| ensures h'[m] in h && h'[m] != h[i] {
      var n := if m < i then m else m + 1;
      assert h'[m] == h[n];
    }
  }

  /** Distinct slugs that are all keys of the table are counted once each. */
  lemma {:induction false} CountInAll(a: seq<Entry>, h: seq<string>)
    requires UniqueKeys(a) && Distinct(h)
    requires forall x :: x in h ==> HasKey(a, KStr(x))
    ensures CountIn(a, h) == |h|
    decreases |a|
  {
    if |h| > 0 {
      assert h[0] in h;
    }
    if |a| > 0 {
      var init := a[..|a| - 1];
      var e := a[|a| - 1];
      UniqueInit(a);
      if e.key.KStr? && e.key.s in h {
        var i :| 0 <= i < |h| && h[i] == e.key.s;
        forall j | 0 <= j < |init| ensures init[j].key != KStr(h[i]) {
          assert init[j] == a[j];
        }
        var h' := Without(h, i);
        WithoutFacts(h, i);
        forall x | x in h' ensures HasKey(init, KStr(x)) {
          HasKeyInit(a, KStr(x));
        }
        CountInAll(init, h');
        CountInDrop(init, h, i);
      } else {
        forall x | x in h ensures HasKey(init, KStr(x)) {
          HasKeyInit(a, KStr(x));
        }
        CountInAll(init, h);
      }
    }
  }

  /** top_level + submenu = total, visible = total - hidden, and the hidden part of each kind is bounded by it. */
  lemma StatisticsSums(all: seq<Entry>, hidden: seq<string>)
    ensures var s := Statistics(all, hidden);
      s.topLevel + s.submenu == s.total && s.visible == s.total - s.hidden
      && 0 <= s.hiddenTopLevel <= s.topLevel && 0 <= s.hiddenSubmenu <= s.submenu && 0 <= s.protected <= s.total
  {
    CountTopBound(all, hidden);
  }

  /**
   * For the hidden list the manager computes, each hidden slug is counted
   * exactly once (hidden_top_level + hidden_submenu = hidden), and so
   * visible is never negative.
   */
  lemma StatisticsHidden(options: seq<Entry>, all: seq<Entry>)
    requires UniqueKeys(all) && PlainKeys(all)
    requires Toggles(options).Some? ==> UniqueKeys(Toggles(options).value)
    ensures var s := Statistics(all, CalculateHidden(options, all));
      s.hiddenTopLevel + s.hiddenSubmenu == s.hidden && 0 <= s.visible
  {
    var h := CalculateHidden(options, all);
    forall x | x in h ensures HasKey(all, KStr(x)) && PlainSlug(x) {
      HiddenSound(options, all, x);
      var p := IndexOfKey(all, KeyOf(x));
      assert all[p].key.KStr? && PlainSlug(all[p].key.s);
      KeyOfRoundTrip(x);
    }
    if Toggles(options).Some? {
      HiddenDistinct(Toggles(options).value, all);
    }
    CountHiddenIsCountIn(all, h);
    CountInAll(all, h);
    CountTopBound(all, h);
  }

  /**
   * Why StatisticsHidden needs plain slugs: `in_array` is loose, so the
   * slug "10" (stored under the integer key 10) is counted as hidden when
   * only "010" is hidden. Two top-level items are then counted as hidden
   * against a hidden list of one.
   */
  lemma NumericSlugCountedTwice(top: Value)
    requires top == VArr([Entry(KStr("type"), VStr("top"))])
    ensures var all := [Entry(KInt(10), top), Entry(KStr("010"), top)];
      UniqueKeys(all) && KeyOf("010") == KStr("010")
      && Statistics(all, ["010"]).hiddenTopLevel == 2 && Statistics(all, ["010"]).hidden == 1
  {
    var all := [Entry(KInt(10), top), Entry(KStr("010"), top)];
    ZeroTenHidden();
    assert IsTop(top);
    var one := all[..1];
    assert one == [Entry(KInt(10), top)] && one[..0] == [];
    assert CountHiddenTop(one, ["010"]) == 1;
    assert CountHiddenTop(all, ["010"]) == CountHiddenTop(one, ["010"]) + 1;
  }

  /** "010" is an integer-like string for the loose comparison, but stays a string key. */
  lemma ZeroTenLoose()
    ensures LooseEquals(VInt(10), VStr("010"))
    ensures !IsIntegerKeyString("010") && KeyOf("010") == KStr("010")
  {
    TrimSetNoop("010", IntWhitespace);
    assert AllDigits("010");
    assert "010"[..2] == "01" && "01"[..1] == "0" && "0"[..0] == "";
    assert DigitsValue("01") == 1;
    assert DigitsValue("010") == 10;
    assert IsIntNumeric("010") && IntNumericValue("010") == 10;
  }

  /** Both the key 10 and the key "010" are found among the hidden slugs ["010"]. */
  lemma ZeroTenHidden()
    ensures InHidden(KInt(10), ["010"]) && InHidden(KStr("010"), ["010"])
    ensures KeyOf("010") == KStr("010")
  {
    ZeroTenLoose();
    assert Words(["010"])[0] == VStr("010");
  }

  // ---------------------------------------------------------------------
  // Admin-bar ids and CSS

  /** `explode('|', $slug)` has at least two parts when the slug holds a `|`. */
  lemma PipeParts(slug: string)
    requires '|' in slug
    ensures |Split(slug, '|')| >= 2
    ensures Split(slug, '|')[0] == SplitOnce(slug, '|').0
    ensures Split(slug, '|')[1] == MainSlug(SplitOnce(slug, '|').1)
  {
    var (a, b) := SplitOnce(slug, '|');
    SplitFirst(a, '|', b);
    ExplodeMain(b);
  }

  /** `list($parent, $child) = explode('|', $slug)`. */
  function ParentChild(slug: string): (string, string)
    requires '|' in slug
  {
    PipeParts(slug);
    var parts := Split(slug, '|');
    (parts[0], parts[1])
  }

  lemma ParentChildOf(p: string, c: string)
    requires '|' !in p && '|' !in c
    ensures '|' in p + "|" + c && ParentChild(p + "|" + c) == (p, c)
  {
    var s := p + "|" + c;
    assert s[|p|] == '|';
    SplitFirst(p, '|', c);
    SplitNoSeparator(c, '|');
  }

  /** generate_admin_bar_ids. */
  function AdminBarIds(slug: string): seq<string>
  {
    if '|' in slug then
      var (parent, child) := ParentChild(slug);
      ["edit-" + parent + "-" + child, parent + "-" + child]
    else
      var base := ReplaceAll(slug, ".php", "");
      ["toplevel_page_" + base, "menu-" + base, base]
  }

  /** `p|c` gives the two submenu ids. */
  lemma AdminBarSub(p: string, c: string)
    requires '|' !in p && '|' !in c
    ensures AdminBarIds(p + "|" + c) == ["edit-" + p + "-" + c, p + "-" + c]
  {
    ParentChildOf(p, c);
  }

  /** A top-level `b.php` gives the three ids built on `b`; a slug without `.php` is used as it is. */
  lemma AdminBarTop(b: string)
    requires '|' !in b && !Contains(b, ".php")
    ensures AdminBarIds(b) == ["toplevel_page_" + b, "menu-" + b, b]
  {
    ReplaceAllAbsent(b, ".php", "");
  }

  /** In `b.php`, with no `.php` inside b, the only `.php` is the suffix. */
  lemma PhpOnlyAtEnd(b: string)
    requires !Contains(b, ".php")
    ensures forall i: nat :: i < |b| ==> !OccursAt(b + ".php", ".php", i)
  {
    var s := b + ".php";
    forall i: nat | i < |b| ensures !OccursAt(s, ".php", i) {
      if i + 4 <= |b| {
        if OccursAt(s, ".php", i) {
          assert b[i..i + 4] == s[i..i + 4];
          ContainsAt(b, ".php", i);
        }
      } else {
        assert s[|b|] == '.';
        assert s[i..i + 4][|b| - i] == s[|b|];
      }
    }
  }

  /** A top-level `b.php` gives the three ids built on `b`. */
  lemma AdminBarTopPhp(b: string)
    requires '|' !in b && !Contains(b, ".php")
    ensures AdminBarIds(b + ".php") == ["toplevel_page_" + b, "menu-" + b, b]
  {
    assert '|' !in b + ".php";
    PhpOnlyAtEnd(b);
    ReplaceOnlyAtEnd(b, ".php", "");
    assert b + "" == b;
  }

  /** generate_css_selectors, with `esc_attr` as a parameter. */
  function CssSelectors(slug: string, esc: string -> string): (sels: seq<string>)
    ensures |sels| == 3
  {
    if '|' in slug then
      var (parent, child) := ParentChild(slug);
      var pe := esc(parent);
      var tail := " .wp-submenu li a[href$=\"" + esc(child) + "\"]";
      ["#adminmenu li.menu-top.toplevel_page_" + pe + tail,
       "#adminmenu li.menu-top.menu-icon-" + pe + tail,
       "#adminmenu li.menu-top#menu-" + esc(ReplaceAll(parent, ".php", "")) + tail]
    else
      var se := esc(slug);
      ["#adminmenu li.menu-top.toplevel_page_" + se,
       "#adminmenu li.menu-top.menu-icon-" + se,
       "#adminmenu li.menu-top#menu-" + esc(ReplaceAll(slug, ".php", ""))]
  }

  /** For `p|c` every selector targets the submenu link ending in the escaped child. */
  lemma CssSelectorsSub(p: string, c: string, esc: string -> string)
    requires '|' !in p && '|' !in c
    ensures forall i :: 0 <= i < 3 ==> IsSuffix(" .wp-submenu li a[href$=\"" + esc(c) + "\"]", CssSelectors(p + "|" + c, esc)[i])
  {
    ParentChildOf(p, c);
  }

  const HideRules: string :=
    "  display: none !important;\n" + "  width: 0 !important;\n" + "  height: 0 !important;\n"
    + "  overflow: hidden !important;\n" + "}\n"

  /** The rule block for one slug's selectors. */
  function RuleBlock(sels: seq<string>): string
  {
    Join(sels, ",\n") + " {\n" + HideRules
  }

  /** generate_menu_hide_css: one rule block per hidden slug, in order. */
  function HideCss(hidden: seq<string>, esc: string -> string): string
    decreases |hidden|
  {
    if |hidden| == 0 then ""
    else HideCss(hidden[..|hidden| - 1], esc) + RuleBlock(CssSelectors(hidden[|hidden| - 1], esc))
  }

  method GenerateMenuHideCss(hidden: seq<string>, esc: string -> string) returns (css: string)
    ensures css == HideCss(hidden, esc)
  {
    if |hidden| == 0 {
      return "";
    }
    css := "";
    var i := 0;
    while i < |hidden|
      invariant 0 <= i <= |hidden|
      invariant css == HideCss(hidden[..i], esc)
    {
      assert hidden[..i + 1][..i] == hidden[..i];
      var selectors := CssSelectors(hidden[i], esc);
      if |selectors| > 0 {
        css := css + (Join(selectors, ",\n") + " {\n" + HideRules);
      }
      i := i + 1;
    }
    assert hidden[..i] == hidden;
  }

  /** The CSS is empty exactly when nothing is hidden. */
  lemma HideCssEmpty(hidden: seq<string>, esc: string -> string)
    ensures HideCss(hidden, esc) == "" <==> |hidden| == 0
  {
    if |hidden| > 0 {
      assert |RuleBlock(CssSelectors(hidden[|hidden| - 1], esc))| > 0;
    }
  }

  /** The CSS of two lists is the CSS of the first followed by that of the second. */
  lemma {:induction false} HideCssAppend(a: seq<string>, b: seq<string>, esc: string -> string)
    ensures HideCss(a + b, esc) == HideCss(a, esc) + HideCss(b, esc)
    decreases |b|
  {
    if |b| == 0 {
      assert a + b == a;
    } else {
      assert (a + b)[..|a + b| - 1] == a + b[..|b| - 1];
      HideCssAppend(a, b[..|b| - 1], esc);
      ConcatAssoc(HideCss(a, esc), HideCss(b[..|b| - 1], esc), RuleBlock(CssSelectors(b[|b| - 1], esc)));
    }
  }

  lemma JoinThree(s: seq<string>, sep: string)
    requires |s| == 3
    ensures Join(s, sep) == s[0] + sep + s[1] + sep + s[2]
  {
    assert s[1..][1..] == [s[2]];
    assert Join(s[1..], sep) == s[1] + sep + s[2];
  }

  /** One hidden slug gives exactly its three selectors, comma-separated, and the hiding rules. */
  lemma HideCssOne(slug: string, esc: string -> string)
    ensures var s := CssSelectors(slug, esc);
      HideCss([slug], esc) == s[0] + ",\n" + s[1] + ",\n" + s[2] + " {\n" + HideRules
  {
    var s := CssSelectors(slug, esc);
    assert [slug][..0] == [];
    assert HideCss([slug], esc) == RuleBlock(s);
    JoinThree(s, ",\n");
  }
}
