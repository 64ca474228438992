/**
 * The plugin's global admin hooks: hiding dashboard widgets, the admin body
 * classes, and the three filters that take "WordPress" out of admin titles.
 * The plugin options (WPCA_Settings::get_options, whose class is taken to
 * exist), `is_admin` and `esc_attr` are parameters; `remove_meta_box` calls
 * are returned as a list.
 */
module CoreFunctions {
  import opened Wrappers
  import opened PhpStrings
  import opened PhpValues
  import opened SanitizeKeys

  /** `$options[$name]`, or null when the options do not hold it. */
  function OptionField(options: Value, name: string): Value
  {
    if options.VArr? && HasKey(options.entries, KStr(name)) then Lookup(options.entries, KStr(name)).value else VNull
  }

  // ---------------------------------------------------------------------
  // wpca_remove_dashboard_widgets

  datatype MetaBoxRemoval = MetaBoxRemoval(id: string, screen: string, context: string)

  /** The widget map: each known widget's screen and context. */
  function WidgetPlacement(id: string): Option<(string, string)>
  {
    if id == "dashboard_activity" then Some(("dashboard", "normal"))
    else if id == "dashboard_at_glance" then Some(("dashboard", "normal"))
    else if id == "dashboard_quick_press" then Some(("dashboard", "side"))
    else if id == "dashboard_primary" then Some(("dashboard", "side"))
    else if id == "dashboard_site_health" then Some(("dashboard", "normal"))
    else None
  }

  /**
   * The remove_meta_box calls for the listed widgets, first to last. Only a
   * string naming a mapped widget is removed; an array in the list makes
   * `isset($widget_map[$widget_id])` raise a TypeError (None).
   */
  function WidgetRemovals(list: seq<Entry>): Option<seq<MetaBoxRemoval>>
    decreases |list|
  {
    if |list| == 0 then Some([])
    else
      var init := WidgetRemovals(list[..|list| - 1]);
      var v := list[|list| - 1].val;
      if init.None? || v.VArr? then None
      else if v.VStr? && WidgetPlacement(v.s).Some? then
        var p := WidgetPlacement(v.s).value;
        Some(init.value + [MetaBoxRemoval(SanitizeKey(v.s), p.0, p.1)])
      else init
  }

  /** `$options['hide_dashboard_widgets'] ?? []`, and foreach skips anything that is not an array. */
  function WidgetsToHide(options: Value): seq<Entry>
  {
    var w := OptionField(options, "hide_dashboard_widgets");
    if w.VArr? then w.entries else []
  }

  /** wpca_remove_dashboard_widgets: the foreach over the widgets to hide. */
  method RemoveDashboardWidgets(options: Value) returns (calls: Option<seq<MetaBoxRemoval>>)
    ensures calls == WidgetRemovals(WidgetsToHide(options))
  {
    var list := WidgetsToHide(options);
    var acc: seq<MetaBoxRemoval> := [];
    var i := 0;
    while i < |list|
      invariant 0 <= i <= |list|
      invariant WidgetRemovals(list[..i]) == Some(acc)
    {
      assert list[..i + 1][..i] == list[..i];
      var v := list[i].val;
      if v.VArr? {
        assert WidgetRemovals(list[..i + 1]).None?;
        WidgetRemovalsRaiseStays(list, i + 1);
        return None;
      }
      if v.VStr? && WidgetPlacement(v.s).Some? {
        var p := WidgetPlacement(v.s).value;
        acc := acc + [MetaBoxRemoval(SanitizeKey(v.s), p.0, p.1)];
      }
      i := i + 1;
    }
    assert list[..i] == list;
    return Some(acc);
  }

  /** Once one array is listed, every longer list raises too. */
  lemma {:induction false} WidgetRemovalsRaiseStays(list: seq<Entry>, n: nat)
    requires n <= |list| && WidgetRemovals(list[..n]).None?
    ensures WidgetRemovals(list).None?
    decreases |list| - n
  {
    if n < |list| {
      assert list[..n + 1][..n] == list[..n];
      WidgetRemovalsRaiseStays(list, n + 1);
    } else {
      assert list[..n] == list;
    }
  }

  /**
   * Each removal is of a listed, mapped widget, with the map's screen and
   * context; and every listed string that the map knows is removed.
   */
  lemma {:induction false} WidgetRemovalsMeans(list: seq<Entry>, m: MetaBoxRemoval, s: string)
    requires WidgetRemovals(list).Some?
    ensures m in WidgetRemovals(list).value ==>
      exists i :: 0 <= i < |list| && list[i].val.VStr? && m.id == SanitizeKey(list[i].val.s)
        && WidgetPlacement(list[i].val.s) == Some((m.screen, m.context))
    ensures (exists i :: 0 <= i < |list| && list[i].val == VStr(s)) && WidgetPlacement(s).Some? ==>
      MetaBoxRemoval(SanitizeKey(s), WidgetPlacement(s).value.0, WidgetPlacement(s).value.1) in WidgetRemovals(list).value
    decreases |list|
  {
    if |list| > 0 {
      var n := |list| - 1;
      var init := list[..n];
      WidgetRemovalsMeans(init, m, s);
      forall i | 0 <= i < n ensures init[i] == list[i] { }
      if (exists i :: 0 <= i < |list| && list[i].val == VStr(s)) && WidgetPlacement(s).Some? {
        var i :| 0 <= i < |list| && list[i].val == VStr(s);
        if i < n {
          assert init[i].val == VStr(s);
        }
      }
    }
  }

  // ---------------------------------------------------------------------
  // wpca_admin_body_class

  /** `!empty($options[$name]) && $default !== $options[$name]`. */
  predicate Customised(options: Value, name: string, default: string)
  {
    var v := OptionField(options, name);
    !IsEmpty(v) && v != VStr(default)
  }

  /** The custom classes, theme then layout then radius, for the options away from their defaults. */
  function CustomClasses(options: Value, escAttr: string -> string): (c: seq<string>)
    ensures |c| <= 3
  {
    (if Customised(options, "theme_style", "default")
      then ["wpca-theme-" + escAttr(StrVal(OptionField(options, "theme_style")))] else [])
    + (if Customised(options, "layout_density", "standard")
      then ["wpca-layout-" + escAttr(StrVal(OptionField(options, "layout_density")))] else [])
    + (if Customised(options, "border_radius_style", "small")
      then ["wpca-radius-" + escAttr(StrVal(OptionField(options, "border_radius_style")))] else [])
  }

  /** wpca_admin_body_class. */
  function AdminBodyClass(classes: string, options: Value, escAttr: string -> string): string
  {
    var custom := CustomClasses(options, escAttr);
    if |custom| == 0 then classes else classes + " " + Join(custom, " ")
  }

  /**
   * The given classes are always kept in front; nothing is added when every
   * option is at its default or empty; otherwise one space and the custom
   * classes follow.
   */
  lemma AdminBodyClassMeans(classes: string, options: Value, escAttr: string -> string)
    ensures IsPrefix(classes, AdminBodyClass(classes, options, escAttr))
    ensures AdminBodyClass(classes, options, escAttr) == classes <==>
      !Customised(options, "theme_style", "default") && !Customised(options, "layout_density", "standard")
      && !Customised(options, "border_radius_style", "small")
    ensures AdminBodyClass(classes, options, escAttr) != classes ==>
      AdminBodyClass(classes, options, escAttr) == classes + " " + Join(CustomClasses(options, escAttr), " ")
  {
    var r := AdminBodyClass(classes, options, escAttr);
    assert r[..|classes|] == classes;
    if |CustomClasses(options, escAttr)| > 0 {
      assert |r| > |classes|;
    }
  }

  /** The classes come in the order theme, layout, radius, each present exactly when its option is customised. */
  lemma CustomClassesOrder(options: Value, escAttr: string -> string)
    ensures var c := CustomClasses(options, escAttr);
      var t := Customised(options, "theme_style", "default");
      var l := Customised(options, "layout_density", "standard");
      var b := Customised(options, "border_radius_style", "small");
      |c| == (if t then 1 else 0) + (if l then 1 else 0) + (if b then 1 else 0)
      && (t ==> c[0] == "wpca-theme-" + escAttr(StrVal(OptionField(options, "theme_style"))))
      && (b ==> c[|c| - 1] == "wpca-radius-" + escAttr(StrVal(OptionField(options, "border_radius_style"))))
      && (l ==> c[if t then 1 else 0] == "wpca-layout-" + escAttr(StrVal(OptionField(options, "layout_density"))))
  {
  }

  // ---------------------------------------------------------------------
  // The title filters

  /** `isset($options['hide_wordpress_title']) && $options['hide_wordpress_title']`, in the admin area. */
  predicate HidesTitle(options: Value, isAdmin: bool)
  {
    isAdmin && options.VArr? && IsSetKey(options.entries, KStr("hide_wordpress_title"))
      && Truthy(Lookup(options.entries, KStr("hide_wordpress_title")).value)
  }

  /** The needle the title filters look for, lower-cased as stripos compares. */
  const WordPressNeedle: string := "wordpress"

  /** `stripos($part, $needle) !== false` for a lower-case needle. */
  predicate Mentions(part: string, needle: string)
  {
    Contains(Lower(part), needle)
  }

  lemma LowerWordPress()
    ensures Lower("WordPress") == WordPressNeedle
  {
  }

  /** Whether the foreach keeps a part: it does not mention the needle. */
  predicate Kept(v: Value, needle: string)
  {
    !Mentions(StrVal(v), needle)
  }

  /** The part values the foreach keeps, in order. */
  function KeptParts(vs: seq<Value>, needle: string): (r: seq<Value>)
    ensures |r| <= |vs|
    decreases |vs|
  {
    if |vs| == 0 then []
    else KeptParts(vs[..|vs| - 1], needle) + (if Kept(vs[|vs| - 1], needle) then [vs[|vs| - 1]] else [])
  }

  /** A part that is an array makes stripos raise a TypeError. */
  predicate HasArrayPart(vs: seq<Value>)
  {
    exists i :: 0 <= i < |vs| && vs[i].VArr?
  }

  /** wpca_remove_wordpress_from_title: None where PHP raises. */
  function TitleParts(parts: seq<Entry>, options: Value, isAdmin: bool): Option<seq<Entry>>
  {
    if !HidesTitle(options, isAdmin) then Some(parts)
    else if HasArrayPart(Values(parts)) then None
    else Some(ListOf(KeptParts(Values(parts), WordPressNeedle)))
  }

  /** wpca_remove_wordpress_from_title: the strip, then array_values. */
  method RemoveWordPressFromTitle(parts: seq<Entry>, options: Value, isAdmin: bool) returns (r: Option<seq<Entry>>)
    ensures r == TitleParts(parts, options, isAdmin)
  {
    if !HidesTitle(options, isAdmin) {
      return Some(parts);
    }
    var kept := StripParts(Values(parts), WordPressNeedle);
    if kept.None? {
      return None;
    }
    return Some(ListOf(kept.value));
  }

  /** The foreach with unset: None at the first part stripos cannot take. */
  method StripParts(vs: seq<Value>, needle: string) returns (r: Option<seq<Value>>)
    ensures r.None? <==> HasArrayPart(vs)
    ensures r.Some? ==> r.value == KeptParts(vs, needle)
  {
    var kept := [];
    var i := 0;
    while i < |vs|
      invariant 0 <= i <= |vs|
      invariant kept == KeptParts(vs[..i], needle)
      invariant forall j :: 0 <= j < i ==> !vs[j].VArr?
    {
      assert vs[..i + 1][..i] == vs[..i];
      var v := vs[i];
      if v.VArr? {
        return None;
      }
      if Kept(v, needle) {
        kept := kept + [v];
      }
      i := i + 1;
    }
    assert vs[..i] == vs;
    return Some(kept);
  }

  /** The kept parts are exactly those that do not mention the needle. */
  lemma {:induction false} KeptPartsMembers(vs: seq<Value>, needle: string, v: Value)
    ensures v in KeptParts(vs, needle) <==> v in vs && Kept(v, needle)
    decreases |vs|
  {
    if |vs| > 0 {
      var n := |vs| - 1;
      KeptPartsMembers(vs[..n], needle, v);
      assert vs == vs[..n] + [vs[n]];
    }
  }

  /**
   * When the option is on in admin, the result is a list 0..n-1 of exactly the
   * parts that do not mention WordPress; otherwise the parts come back as they
   * were, keys included.
   */
  lemma TitlePartsMeans(parts: seq<Entry>, options: Value, isAdmin: bool, v: Value)
    ensures !HidesTitle(options, isAdmin) ==> TitleParts(parts, options, isAdmin) == Some(parts)
    ensures HidesTitle(options, isAdmin) ==> (TitleParts(parts, options, isAdmin).None? <==> HasArrayPart(Values(parts)))
    ensures TitleParts(parts, options, isAdmin).Some? && HidesTitle(options, isAdmin) ==>
      var r := TitleParts(parts, options, isAdmin).value;
      (forall j :: 0 <= j < |r| ==> r[j].key == KInt(j))
      && (v in Values(r) <==> v in Values(parts) && !Mentions(StrVal(v), WordPressNeedle))
  {
    if HidesTitle(options, isAdmin) && !HasArrayPart(Values(parts)) {
      var kept := KeptParts(Values(parts), WordPressNeedle);
      KeptPartsMembers(Values(parts), WordPressNeedle, v);
      var r := ListOf(kept);
      assert Values(r) == kept;
    }
  }

  /** `str_ireplace` of something that does not occur, in any case, changes nothing. */
  lemma {:induction false} ReplaceIgnoreCaseAbsent(s: string, pat: string, rep: string)
    requires !Contains(Lower(s), Lower(pat))
    ensures ReplaceAllIgnoreCase(s, pat, rep) == s
    decreases |s|
  {
    if |pat| == 0 || |s| < |pat| {
    } else {
      LowerSlice(s, 0, |pat|);
      assert !IsPrefix(Lower(pat), Lower(s));
      LowerSlice(s, 1, |s|);
      assert Lower(s)[1..] == Lower(s[1..]);
      ReplaceIgnoreCaseAbsent(s[1..], pat, rep);
      assert [s[0]] + s[1..] == s;
    }
  }

  /** Removing an occurring pattern shortens the string by at least the pattern's length. */
  lemma {:induction false} RemoveIgnoreCaseShortens(s: string, pat: string)
    requires |pat| > 0
    ensures |ReplaceAllIgnoreCase(s, pat, "")| <= |s|
    ensures Contains(Lower(s), Lower(pat)) ==> |ReplaceAllIgnoreCase(s, pat, "")| <= |s| - |pat|
    decreases |s|
  {
    if |s| >= |pat| {
      if Lower(s[..|pat|]) == Lower(pat) {
        RemoveIgnoreCaseShortens(s[|pat|..], pat);
      } else {
        RemoveIgnoreCaseShortens(s[1..], pat);
        LowerSlice(s, 0, |pat|);
        LowerSlice(s, 1, |s|);
        assert Lower(s)[1..] == Lower(s[1..]);
      }
    } else if Contains(Lower(s), Lower(pat)) {
      ContainsIndex(Lower(s), Lower(pat));
    }
  }

  /** wpca_remove_wordpress_from_document_title. */
  function DocumentTitle(title: string, options: Value, isAdmin: bool): string
  {
    if HidesTitle(options, isAdmin) then Trim(ReplaceAllIgnoreCase(title, "WordPress", "")) else title
  }

  /** wpca_remove_wordpress_from_wp_title: also drops the separator with two spaces on either side. */
  function WpTitle(title: string, sep: string, options: Value, isAdmin: bool): string
  {
    if HidesTitle(options, isAdmin) then
      var t := ReplaceAllIgnoreCase(title, "WordPress", "");
      Trim(ReplaceAll(ReplaceAll(t, sep + "  ", ""), "  " + sep, ""))
    else title
  }

  /** `str_replace($pat, '', $s)` never lengthens the string. */
  lemma {:induction false} RemoveShortens(s: string, pat: string)
    ensures |ReplaceAll(s, pat, "")| <= |s|
    decreases |s|
  {
    if |pat| > 0 && |s| >= |pat| {
      if s[..|pat|] == pat {
        RemoveShortens(s[|pat|..], pat);
      } else {
        RemoveShortens(s[1..], pat);
      }
    }
  }

  /**
   * With the option off or outside admin the title is untouched; with it on a
   * title that never mentions WordPress is only trimmed, one that does loses
   * at least those nine characters, and the result has no surrounding
   * whitespace.
   */
  lemma DocumentTitleMeans(title: string, options: Value, isAdmin: bool)
    ensures !HidesTitle(options, isAdmin) ==> DocumentTitle(title, options, isAdmin) == title
    ensures HidesTitle(options, isAdmin) && !Mentions(title, WordPressNeedle) ==> DocumentTitle(title, options, isAdmin) == Trim(title)
    ensures HidesTitle(options, isAdmin) && Mentions(title, WordPressNeedle) ==> |DocumentTitle(title, options, isAdmin)| <= |title| - 9
    ensures HidesTitle(options, isAdmin) && |DocumentTitle(title, options, isAdmin)| > 0 ==>
      DocumentTitle(title, options, isAdmin)[0] !in TrimDefault
  {
    LowerWordPress();
    if HidesTitle(options, isAdmin) {
      if Mentions(title, WordPressNeedle) {
        RemoveIgnoreCaseShortens(title, "WordPress");
      } else {
        ReplaceIgnoreCaseAbsent(title, "WordPress", "");
      }
    }
  }

  /** The wp_title filter: untouched when off, only trimmed and de-separated when WordPress is absent, never longer. */
  lemma WpTitleMeans(title: string, sep: string, options: Value, isAdmin: bool)
    ensures !HidesTitle(options, isAdmin) ==> WpTitle(title, sep, options, isAdmin) == title
    ensures HidesTitle(options, isAdmin) && !Mentions(title, WordPressNeedle) ==>
      WpTitle(title, sep, options, isAdmin) == Trim(ReplaceAll(ReplaceAll(title, sep + "  ", ""), "  " + sep, ""))
    ensures |WpTitle(title, sep, options, isAdmin)| <= |title|
  {
    LowerWordPress();
    if HidesTitle(options, isAdmin) {
      RemoveIgnoreCaseShortens(title, "WordPress");
      var t := ReplaceAllIgnoreCase(title, "WordPress", "");
      RemoveShortens(t, sep + "  ");
      RemoveShortens(ReplaceAll(t, sep + "  ", ""), "  " + sep);
      if !Mentions(title, WordPressNeedle) {
        ReplaceIgnoreCaseAbsent(title, "WordPress", "");
      }
    }
  }
}
