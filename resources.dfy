/**
 * The admin resource manager: the four configured lists (styles and scripts
 * to remove, scripts to defer, pages that get inline critical CSS), the
 * `script_loader_tag` filter that adds `defer`, the critical-CSS generator
 * and store, the classification of a resource's URL and the parameter rules
 * of the two AJAX actions. `is_admin`, the nonce check, the capability check and `sanitize_text_field`
 * are parameters.
 */
module Resources {
  import opened Wrappers
  import opened PhpStrings
  import opened PhpValues
  import opened SanitizeKeys

  // ---------------------------------------------------------------------
  // initialize_config

  /** `array_filter` without a callback: the entries with truthy values, keys and order kept. */
  function TruthyEntries(a: seq<Entry>): (r: seq<Entry>)
    ensures |r| <= |a|
    decreases |a|
  {
    if |a| == 0 then []
    else (if Truthy(a[0].val) then [a[0]] else []) + TruthyEntries(a[1..])
  }

  /** array_filter keeps exactly the truthy entries. */
  lemma {:induction false} TruthyEntriesMembers(a: seq<Entry>, e: Entry)
    ensures e in TruthyEntries(a) <==> e in a && Truthy(e.val)
    decreases |a|
  {
    if |a| > 0 {
      TruthyEntriesMembers(a[1..], e);
      assert a == [a[0]] + a[1..];
    }
  }

  /** `isset($options[$name]) && is_array($options[$name])`. */
  predicate IsListOption(options: Value, name: string)
  {
    options.VArr? && IsSetKey(options.entries, KStr(name))
      && Lookup(options.entries, KStr(name)).value.VArr?
  }

  /** A list after initialize_config: the filtered option when it is an array, else `current`. */
  function Configured(options: Value, name: string, current: seq<Entry>): seq<Entry>
  {
    if IsListOption(options, name) then ListOption(options, name) else current
  }

  /** The filtered list when the option is an array (callers check IsListOption). */
  function ListOption(options: Value, name: string): seq<Entry>
    requires IsListOption(options, name)
  {
    TruthyEntries(Lookup(options.entries, KStr(name)).value.entries)
  }

  // ---------------------------------------------------------------------
  // The script_loader_tag filter

  /** `preg_match('/defer|async/', $tag)`. */
  predicate HasLoadingAttribute(tag: string)
  {
    Contains(tag, "defer") || Contains(tag, "async")
  }

  /** `str_replace(' src', ' defer src', $tag)`. */
  function AddDefer(tag: string): string
  {
    ReplaceAll(tag, " src", " defer src")
  }

  /**
   * The filter's condition as written: `&&` binds tighter than `||`, so a
   * tag without defer/async qualifies whatever the list holds.
   */
  predicate DeferAsWritten(jsToDefer: seq<Entry>, tag: string, handle: string, isAdmin: bool)
  {
    ((InArrayLoose(VStr(handle), Values(jsToDefer)) && !isAdmin) || !HasLoadingAttribute(tag))
      && SanitizeKey(handle) == handle
  }

  /** The condition the filter is for: a listed script that does not already load asynchronously. */
  predicate DeferIntended(jsToDefer: seq<Entry>, tag: string, handle: string)
  {
    InArrayLoose(VStr(handle), Values(jsToDefer)) && !HasLoadingAttribute(tag)
      && SanitizeKey(handle) == handle
  }

  /** A pattern that occurs is replaced, so its replacement occurs in the result. */
  lemma {:induction false} ReplaceAllIntroduces(s: string, pat: string, rep: string)
    requires |pat| > 0 && Contains(s, pat)
    ensures Contains(ReplaceAll(s, pat, rep), rep)
    decreases |s|
  {
    ContainsIndex(s, pat);
    if s[..|pat|] == pat {
      assert IsPrefix(rep, rep + ReplaceAll(s[|pat|..], pat, rep));
    } else {
      assert !IsPrefix(pat, s);
      ReplaceAllIntroduces(s[1..], pat, rep);
      var y := ReplaceAll(s[1..], pat, rep);
      assert ([s[0]] + y)[1..] == y;
    }
  }

  /** A deferred tag with a `src` attribute carries `defer`; a tag without one is unchanged. */
  lemma AddDeferMeans(tag: string)
    ensures Contains(tag, " src") ==> Contains(AddDefer(tag), " defer src")
    ensures !Contains(tag, " src") ==> AddDefer(tag) == tag
  {
    if Contains(tag, " src") {
      ReplaceAllIntroduces(tag, " src", " defer src");
    } else {
      ReplaceAllAbsent(tag, " src", " defer src");
    }
  }

  /**
   * The filter is registered only in the admin area, where `!is_admin()` is
   * false: there the list has no effect, and a script nobody listed is
   * deferred as soon as its tag lacks defer/async.
   */
  lemma DeferListIgnoredInAdmin(jsToDefer: seq<Entry>, tag: string, handle: string)
    requires !HasLoadingAttribute(tag) && AllKeyChars(handle)
    requires !InArrayLoose(VStr(handle), Values(jsToDefer))
    ensures DeferAsWritten(jsToDefer, tag, handle, true)
    ensures !DeferIntended(jsToDefer, tag, handle)
  {
    SanitizeKeyFixed(handle);
  }

  /** The intended filter defers only listed handles, and those exactly when the as-written one does outside admin. */
  lemma DeferIntendedMeans(jsToDefer: seq<Entry>, tag: string, handle: string)
    ensures DeferIntended(jsToDefer, tag, handle) ==> InArrayLoose(VStr(handle), Values(jsToDefer))
    ensures DeferIntended(jsToDefer, tag, handle) ==> DeferAsWritten(jsToDefer, tag, handle, false)
    ensures DeferIntended(jsToDefer, tag, handle) <==>
      (DeferAsWritten(jsToDefer, tag, handle, true) && InArrayLoose(VStr(handle), Values(jsToDefer)))
  {
  }

  // ---------------------------------------------------------------------
  // Critical CSS

  /** The three style sheets generate_critical_css chooses between. */
  datatype CriticalCss = DashboardCss | PostsListCss | DefaultCss

  /** One indented line of a style sheet. */
  function CssLine(s: string): string
  {
    "        " + s + "\n"
  }

  /** The text of each style sheet: a newline, one indented line per rule, then the closing indent. */
  function CssText(c: CriticalCss): string
  {
    "\n" + CssBody(c)
  }

  function CssBody(c: CriticalCss): string
  {
    match c
    case DashboardCss =>
      CssLine("/* Dashboard Critical CSS */") + CssLine("#wpbody-content { margin-right: 0; }")
      + CssLine(".dashboard-widgets-wrap { display: flex; flex-wrap: wrap; }")
      + CssLine(".postbox { margin-bottom: 20px; }") + CssLine(".inside { padding: 12px; }") + "        "
    case PostsListCss =>
      CssLine("/* Posts List Critical CSS */") + CssLine(".wp-list-table { width: 100%; }")
      + CssLine(".wp-list-table th { text-align: left; }")
      + CssLine(".wp-list-table tr:nth-child(2n) { background-color: #f9f9f9; }") + "        "
    case DefaultCss =>
      CssLine("/* Default Critical CSS */") + CssLine("#wpcontent { padding-left: 0; }")
      + CssLine(".wrap { margin: 20px; }") + CssLine(".notice { padding: 15px; margin-bottom: 20px; }")
      + CssLine(".button { padding: 5px 15px; }") + "        "
  }

  /** generate_critical_css: the dashboard CSS for index.php, the list CSS for edit.php, the default CSS otherwise. */
  function GenerateCriticalCss(pageHook: string): (css: CriticalCss)
    ensures css == DashboardCss <==> pageHook == "index.php"
    ensures css == PostsListCss <==> pageHook == "edit.php"
  {
    if pageHook == "index.php" then DashboardCss
    else if pageHook == "edit.php" then PostsListCss
    else DefaultCss
  }

  /** The switch with its labels passed through sanitize_key, as the AJAX caller's hooks are. */
  function GenerateCriticalCssIntended(pageHook: string): (css: CriticalCss)
  {
    if pageHook == SanitizeKey("index.php") then DashboardCss
    else if pageHook == SanitizeKey("edit.php") then PostsListCss
    else DefaultCss
  }

  /** A sanitized hook never contains '.', so the generator's first two cases never fire for it. */
  lemma SanitizedHookGetsDefault(raw: string)
    ensures GenerateCriticalCss(SanitizeKey(raw)) == DefaultCss
  {
    assert !AllKeyChars("index.php") by {
      assert !IsKeyChar("index.php"[5]);
    }
    assert !AllKeyChars("edit.php") by {
      assert !IsKeyChar("edit.php"[4]);
    }
  }

  /** The corrected generator serves the dashboard and list pages their CSS from sanitized hooks. */
  lemma IntendedCriticalCss(raw: string)
    ensures SanitizeKey(raw) == SanitizeKey("index.php") ==> GenerateCriticalCssIntended(SanitizeKey(raw)) == DashboardCss
    ensures SanitizeKey(raw) == SanitizeKey("edit.php") && SanitizeKey(raw) != SanitizeKey("index.php") ==>
      GenerateCriticalCssIntended(SanitizeKey(raw)) == PostsListCss
    ensures SanitizeKey(raw) != SanitizeKey("index.php") && SanitizeKey(raw) != SanitizeKey("edit.php") ==>
      GenerateCriticalCssIntended(SanitizeKey(raw)) == GenerateCriticalCss(SanitizeKey(raw))
  {
    SanitizedHookGetsDefault(raw);
  }

  /** A request for index.php is saved with the default CSS as written, and with the dashboard CSS once corrected. */
  lemma DashboardRequestFinding()
    ensures GenerateCriticalCss(SanitizeKey("index.php")) == DefaultCss
    ensures GenerateCriticalCssIntended(SanitizeKey("index.php")) == DashboardCss
  {
    SanitizedHookGetsDefault("index.php");
  }

  /** The option under which a page's critical CSS is stored. */
  function CriticalCssKey(hook: string): string
  {
    "wpca_critical_css_" + hook
  }

  /** The block inline_critical_css echoes. */
  function StyleBlock(css: string): string
  {
    "<style id='wpca-critical-css'>\n" + css + "\n</style>\n"
  }

  /** inline_critical_css: the style block for a listed page whose stored CSS is not empty. */
  function InlineFor(pages: seq<Entry>, stored: map<string, string>, hookSuffix: string): (out: Option<string>)
    ensures out.Some? <==>
      InArrayLoose(VStr(hookSuffix), Values(pages))
      && CriticalCssKey(SanitizeKey(hookSuffix)) in stored
      && !EmptyString(stored[CriticalCssKey(SanitizeKey(hookSuffix))])
    ensures out.Some? ==> out.value == StyleBlock(stored[CriticalCssKey(SanitizeKey(hookSuffix))])
  {
    var key := CriticalCssKey(SanitizeKey(hookSuffix));
    var css := if key in stored then stored[key] else "";
    if !InArrayLoose(VStr(hookSuffix), Values(pages)) || EmptyString(css) then None
    else Some(StyleBlock(css))
  }

  // ---------------------------------------------------------------------
  // detect_resource_source

  datatype Source = Inline | WordPressCore | PluginOrTheme

  /** detect_resource_source: empty means inline; wp-admin or wp-includes anywhere in the URL means core. */
  function DetectResourceSource(src: Value): (r: Source)
    ensures r == Inline <==> IsEmpty(src)
    ensures r == WordPressCore <==>
      !IsEmpty(src) && (Contains(StrVal(src), "wp-admin") || Contains(StrVal(src), "wp-includes"))
  {
    if IsEmpty(src) then Inline
    else if Contains(StrVal(src), "wp-admin") || Contains(StrVal(src), "wp-includes") then WordPressCore
    else PluginOrTheme
  }

  // ---------------------------------------------------------------------
  // The AJAX actions

  /** The request as the two AJAX handlers see it. */
  datatype AjaxRequest = AjaxRequest(doingAjax: bool, post: Value, nonceValid: bool, canManageAll: bool)

  datatype Rejection = InvalidRequest | NonceMissing | InvalidNonce | InsufficientPermissions | InvalidParameters

  datatype AjaxReply<T> = Rejected(reason: Rejection) | Succeeded(data: T)

  /** A `$_POST` field that is set and is a string. */
  function PostString(post: Value, name: string): Option<string>
  {
    if post.VArr? && IsSetKey(post.entries, KStr(name)) && Lookup(post.entries, KStr(name)).value.VStr? then
      Some(Lookup(post.entries, KStr(name)).value.s)
    else None
  }

  /** The checks both handlers make before reading their own parameters, first failure first. */
  function SecurityCheck(req: AjaxRequest): (r: Option<Rejection>)
    ensures r.None? <==> (req.doingAjax && req.nonceValid && req.canManageAll
      && PostString(req.post, "security").Some? && !EmptyString(Trim(PostString(req.post, "security").value)))
  {
    var security := PostString(req.post, "security");
    if !req.doingAjax then Some(InvalidRequest)
    else if security.None? || EmptyString(Trim(security.value)) then Some(NonceMissing)
    else if !req.nonceValid then Some(InvalidNonce)
    else if !req.canManageAll then Some(InsufficientPermissions)
    else None
  }

  datatype TestResult = TestResult(resourceType: string, resourceHandle: string)

  /** The resource handle after sanitize_key, "" when the field is missing or not a string. */
  function ResourceHandle(post: Value): string
  {
    var h := PostString(post, "resource_handle");
    if h.Some? then SanitizeKey(h.value) else ""
  }

  /** The resource type after sanitize_text_field, "" when the field is missing or not a string. */
  function ResourceType(post: Value, sanitizeText: string -> string): string
  {
    var t := PostString(post, "resource_type");
    if t.Some? then sanitizeText(t.value) else ""
  }

  /** ajax_test_resource_removal. */
  function AjaxTestResourceRemoval(req: AjaxRequest, sanitizeText: string -> string): (r: AjaxReply<TestResult>)
  {
    var security := SecurityCheck(req);
    if security.Some? then Rejected(security.value)
    else
      var t := ResourceType(req.post, sanitizeText);
      var h := ResourceHandle(req.post);
      if !InArrayLoose(VStr(t), [VStr("css"), VStr("js")]) || EmptyString(h) || !MatchesHandle(h) then
        Rejected(InvalidParameters)
      else Succeeded(TestResult(t, h))
  }

  /** The loose in_array against 'css' and 'js' accepts just those two strings. */
  lemma ResourceTypeAccepted(t: string)
    ensures InArrayLoose(VStr(t), [VStr("css"), VStr("js")]) <==> t == "css" || t == "js"
  {
    InArrayLooseTwoWords(t, "css", "js");
  }

  /** Loose in_array of a string against two non-numeric words is membership. */
  lemma InArrayLooseTwoWords(t: string, a: string, b: string)
    requires |a| > 0 && !IsDigit(a[0]) && a[0] !in IntWhitespace && a[0] != '-' && a[0] != '+' && a != "0"
    requires |b| > 0 && !IsDigit(b[0]) && b[0] !in IntWhitespace && b[0] != '-' && b[0] != '+' && b != "0"
    ensures InArrayLoose(VStr(t), [VStr(a), VStr(b)]) <==> t == a || t == b
  {
    var words := [VStr(a), VStr(b)];
    LooseEqualsWord(VStr(t), a);
    LooseEqualsWord(VStr(t), b);
    if t == a {
      assert LooseEquals(VStr(t), words[0]);
    } else if t == b {
      assert LooseEquals(VStr(t), words[1]);
    }
  }

  /** After sanitize_key, the handle checks reject exactly "" and "0". */
  lemma SanitizedHandleAccepted(h: string)
    requires AllKeyChars(h)
    ensures (EmptyString(h) || !MatchesHandle(h)) <==> h == "" || h == "0"
  {
  }

  /**
   * ajax_test_resource_removal succeeds exactly for a secure request whose
   * type is "css" or "js" and whose handle sanitizes to something other than
   * "" and "0"; the pattern check adds nothing after sanitize_key.
   */
  lemma AjaxTestAccepts(req: AjaxRequest, sanitizeText: string -> string)
    ensures AjaxTestResourceRemoval(req, sanitizeText).Succeeded? <==>
      SecurityCheck(req).None?
      && (ResourceType(req.post, sanitizeText) == "css" || ResourceType(req.post, sanitizeText) == "js")
      && ResourceHandle(req.post) != "" && ResourceHandle(req.post) != "0"
    ensures AjaxTestResourceRemoval(req, sanitizeText).Succeeded? ==>
      AjaxTestResourceRemoval(req, sanitizeText).data ==
        TestResult(ResourceType(req.post, sanitizeText), ResourceHandle(req.post))
  {
    ResourceTypeAccepted(ResourceType(req.post, sanitizeText));
    SanitizedHandleAccepted(ResourceHandle(req.post));
  }

  datatype CssResult = CssResult(pageHook: string, cssLength: int)

  /** ajax_generate_critical_css without its side effect: the reply, and the hook whose CSS is saved. */
  function AjaxCriticalCssHook(req: AjaxRequest): (r: AjaxReply<string>)
    ensures r.Succeeded? ==> r.data != "" && r.data != "0" && AllKeyChars(r.data)
  {
    var security := SecurityCheck(req);
    if security.Some? then Rejected(security.value)
    else
      var p := PostString(req.post, "page_hook");
      var h := if p.Some? then SanitizeKey(p.value) else "";
      if EmptyString(h) || !MatchesHandle(h) then Rejected(InvalidParameters)
      else Succeeded(h)
  }

  /** One step of initialize_config: replace `current` when the option is an array. */
  method LoadList(options: Value, name: string, current: seq<Entry>) returns (list: seq<Entry>)
    ensures list == Configured(options, name, current)
    ensures IsListOption(options, name) ==> forall e :: e in list ==> Truthy(e.val)
  {
    list := current;
    if IsListOption(options, name) {
      list := ListOption(options, name);
      forall e | e in list ensures Truthy(e.val) {
        TruthyEntriesMembers(Lookup(options.entries, KStr(name)).value.entries, e);
      }
    }
  }

  class ResourceManager {
    const options: Value
    var cssToRemove: seq<Entry>
    var jsToRemove: seq<Entry>
    var jsToDefer: seq<Entry>
    var pagesForCriticalCss: seq<Entry>
    /** The `wpca_critical_css_*` options. */
    var storedCss: map<string, string>

    /** The constructor: empty lists, then initialize_config. */
    constructor(options: Value, storedCss: map<string, string>)
      ensures this.options == options && this.storedCss == storedCss
      ensures cssToRemove == Configured(options, "remove_css_files", [])
      ensures jsToRemove == Configured(options, "remove_js_files", [])
      ensures jsToDefer == Configured(options, "defer_js_files", [])
      ensures pagesForCriticalCss == Configured(options, "critical_css_pages", [])
    {
      this.options := options;
      this.storedCss := storedCss;
      cssToRemove := [];
      jsToRemove := [];
      jsToDefer := [];
      pagesForCriticalCss := [];
      new;
      InitializeConfig();
    }

    /** initialize_config: each list that is configured as an array becomes its truthy entries. */
    method InitializeConfig()
      modifies this`cssToRemove, this`jsToRemove, this`jsToDefer, this`pagesForCriticalCss
      ensures cssToRemove == Configured(options, "remove_css_files", old(cssToRemove))
      ensures jsToRemove == Configured(options, "remove_js_files", old(jsToRemove))
      ensures jsToDefer == Configured(options, "defer_js_files", old(jsToDefer))
      ensures pagesForCriticalCss == Configured(options, "critical_css_pages", old(pagesForCriticalCss))
    {
      var css := LoadList(options, "remove_css_files", cssToRemove);
      var js := LoadList(options, "remove_js_files", jsToRemove);
      var defer := LoadList(options, "defer_js_files", jsToDefer);
      var pages := LoadList(options, "critical_css_pages", pagesForCriticalCss);
      cssToRemove, jsToRemove, jsToDefer, pagesForCriticalCss := css, js, defer, pages;
    }

    /** defer_non_critical_js as written. */
    method DeferNonCriticalJsAsWritten(tag: string, handle: string, isAdmin: bool) returns (r: string)
      ensures r == if DeferAsWritten(jsToDefer, tag, handle, isAdmin) then AddDefer(tag) else tag
    {
      var adminCheck := !isAdmin;
      var patternCheck := !HasLoadingAttribute(tag);
      if (InArrayLoose(VStr(handle), Values(jsToDefer)) && adminCheck) || patternCheck {
        if SanitizeKey(handle) == handle {
          return AddDefer(tag);
        }
      }
      return tag;
    }

    /** defer_non_critical_js with the condition its list is for. */
    method DeferNonCriticalJs(tag: string, handle: string) returns (r: string)
      ensures r == if DeferIntended(jsToDefer, tag, handle) then AddDefer(tag) else tag
    {
      if InArrayLoose(VStr(handle), Values(jsToDefer)) && !HasLoadingAttribute(tag) && SanitizeKey(handle) == handle {
        return AddDefer(tag);
      }
      return tag;
    }

    /** inline_critical_css: what is echoed into the admin head, if anything. */
    method InlineCriticalCss(hookSuffix: Option<string>) returns (out: Option<string>)
      ensures out == InlineFor(pagesForCriticalCss, storedCss, if hookSuffix.Some? then hookSuffix.value else "")
    {
      var hook := if hookSuffix.Some? then hookSuffix.value else "";
      if !InArrayLoose(VStr(hook), Values(pagesForCriticalCss)) {
        return None;
      }
      var key := CriticalCssKey(SanitizeKey(hook));
      var css := if key in storedCss then storedCss[key] else "";
      if EmptyString(css) {
        return None;
      }
      return Some(StyleBlock(css));
    }

    /** ajax_generate_critical_css: on success the generated CSS is saved under the hook's option. */
    method AjaxGenerateCriticalCss(req: AjaxRequest) returns (r: AjaxReply<CssResult>)
      modifies this`storedCss
      ensures AjaxCriticalCssHook(req).Rejected? ==>
        r == Rejected(AjaxCriticalCssHook(req).reason) && storedCss == old(storedCss)
      ensures AjaxCriticalCssHook(req).Succeeded? ==>
        var h := AjaxCriticalCssHook(req).data;
        r == Succeeded(CssResult(h, |CssText(GenerateCriticalCss(h))|))
        && storedCss == old(storedCss)[CriticalCssKey(h) := CssText(GenerateCriticalCss(h))]
    {
      var hook := AjaxCriticalCssHook(req);
      if hook.Rejected? {
        return Rejected(hook.reason);
      }
      var css := CssText(GenerateCriticalCss(hook.data));
      storedCss := storedCss[CriticalCssKey(hook.data) := css];
      return Succeeded(CssResult(hook.data, |css|));
    }
  }

  /** remove_unnecessary_css / remove_unnecessary_js: the sanitized, non-empty handles, in list order. */
  function HandlesToRemove(list: seq<Entry>): (r: seq<string>)
    ensures forall i :: 0 <= i < |r| ==> !EmptyString(r[i]) && AllKeyChars(r[i])
    decreases |list|
  {
    if |list| == 0 then []
    else
      var h := SanitizeKeyValue(list[|list| - 1].val);
      HandlesToRemove(list[..|list| - 1]) + (if EmptyString(h) then [] else [h])
  }

  /** The foreach of remove_unnecessary_css and remove_unnecessary_js: the handles deregistered and dequeued. */
  method DeregisterHandles(list: seq<Entry>) returns (handles: seq<string>)
    ensures handles == HandlesToRemove(list)
  {
    handles := [];
    var i := 0;
    while i < |list|
      invariant 0 <= i <= |list|
      invariant handles == HandlesToRemove(list[..i])
    {
      assert list[..i + 1][..i] == list[..i];
      var h := SanitizeKeyValue(list[i].val);
      if !EmptyString(h) {
        handles := handles + [h];
      }
      i := i + 1;
    }
    assert list[..i] == list;
  }

  /** Every removed handle is the sanitized key of some listed value. */
  lemma {:induction false} HandlesFromList(list: seq<Entry>, h: string)
    requires h in HandlesToRemove(list)
    ensures exists i :: 0 <= i < |list| && SanitizeKeyValue(list[i].val) == h
    decreases |list|
  {
    var n := |list| - 1;
    if h in HandlesToRemove(list[..n]) {
      HandlesFromList(list[..n], h);
      var i :| 0 <= i < |list[..n]| && SanitizeKeyValue(list[..n][i].val) == h;
      assert list[..n][i] == list[i];
    } else {
      assert SanitizeKeyValue(list[n].val) == h;
    }
  }

  /** CSS saved by the AJAX action for a hook is what inline_critical_css then prints for a listed page with that hook. */
  lemma SavedCssInlined(pages: seq<Entry>, stored: map<string, string>, hookSuffix: string, css: string)
    requires InArrayLoose(VStr(hookSuffix), Values(pages)) && !EmptyString(css)
    ensures InlineFor(pages, stored[CriticalCssKey(SanitizeKey(hookSuffix)) := css], hookSuffix) == Some(StyleBlock(css))
  {
  }

  /** What the AJAX action saves for a page is echoed on that page once it is listed. */
  lemma GeneratedCssInlined(pages: seq<Entry>, stored: map<string, string>, hookSuffix: string)
    requires InArrayLoose(VStr(hookSuffix), Values(pages))
    ensures var h := SanitizeKey(hookSuffix);
      InlineFor(pages, stored[CriticalCssKey(h) := CssText(GenerateCriticalCss(h))], hookSuffix)
        == Some(StyleBlock(CssText(DefaultCss)))
  {
    SanitizedHookGetsDefault(hookSuffix);
    SavedCssInlined(pages, stored, hookSuffix, CssText(DefaultCss));
  }
}
