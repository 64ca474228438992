/**
 * check-translations.py: inspect the plugin's languages directory and its
 * PHP sources.
 *
 * The directory listing, the catalogue texts that can be read (by file
 * name) and the walked plugin tree are parameters; what the script prints
 * is collected in a `Report`.
 */
module CheckTranslations {
  import opened Wrappers
  import opened PhpStrings
  import opened TranslationCalls
  import UpdatePot

  // ---------------------------------------------------------------------
  // WP_LOCALES and file classification

  const WpLocales: map<string, string> := map[
    "en_US" := "English (United States)",
    "zh_CN" := "Chinese (Simplified)",
    "zh_TW" := "Chinese (Traditional)"
  ]

  /** The names of the listing that end in `suffix`, in listing order. */
  function WithSuffix(files: seq<string>, suffix: string): (r: seq<string>)
    ensures forall f :: f in r <==> f in files && IsSuffix(suffix, f)
    ensures |r| <= |files|
  {
    if |files| == 0 then []
    else
      var rest := WithSuffix(files[..|files| - 1], suffix);
      var last := files[|files| - 1];
      assert forall f :: f in files <==> f in files[..|files| - 1] || f == last;
      if IsSuffix(suffix, last) then rest + [last] else rest
  }

  function PoFiles(files: seq<string>): seq<string> { WithSuffix(files, ".po") }
  function MoFiles(files: seq<string>): seq<string> { WithSuffix(files, ".mo") }
  function PotFiles(files: seq<string>): seq<string> { WithSuffix(files, ".pot") }

  /** A name ending in `.pot` never ends in `.po`: the two lists are disjoint. */
  lemma PotIsNotPo(files: seq<string>)
    ensures forall f :: f in PotFiles(files) ==> f !in PoFiles(files)
  {
    forall f | f in PotFiles(files) ensures f !in PoFiles(files) {
      assert f[|f| - 1] == 't';
    }
  }

  // ---------------------------------------------------------------------
  // Missing MO files

  /** `po_file.replace('.po', '.mo')`: every occurrence is replaced. */
  function MoName(po: string): string
  {
    ReplaceAll(po, ".po", ".mo")
  }

  /** `.po` cannot overlap itself, so its last occurrence is always replaced. */
  lemma {:induction false} MoNameEndsInMo(s: string)
    requires IsSuffix(".po", s)
    ensures IsSuffix(".mo", MoName(s))
    decreases |s|
  {
    if |s| == 3 {
      assert s == ".po";
      assert MoName(s) == ".mo" + ReplaceAll("", ".po", ".mo");
    } else if s[..3] == ".po" {
      assert s[1] == 'p' && s[2] == 'o' && s[|s| - 3] == '.';
      assert s[3..][|s[3..]| - 3..] == s[|s| - 3..];
      MoNameEndsInMo(s[3..]);
    } else {
      assert s[1..][|s[1..]| - 3..] == s[|s| - 3..];
      MoNameEndsInMo(s[1..]);
    }
  }

  /** The `.po` files whose `.mo` counterpart is not among the `.mo` files, in order. */
  function MissingSpec(po: seq<string>, mo: seq<string>): seq<string>
  {
    if |po| == 0 then []
    else
      var rest := MissingSpec(po[..|po| - 1], mo);
      if MoName(po[|po| - 1]) in mo then rest else rest + [po[|po| - 1]]
  }

  method MissingMo(po: seq<string>, mo: seq<string>) returns (missing: seq<string>)
    ensures missing == MissingSpec(po, mo)
  {
    missing := [];
    var i := 0;
    while i < |po|
      invariant 0 <= i <= |po|
      invariant missing == MissingSpec(po[..i], mo)
    {
      assert po[..i + 1][..i] == po[..i];
      var moFile := MoName(po[i]);
      if moFile !in mo {
        missing := missing + [po[i]];
      }
      i := i + 1;
    }
    assert po[..i] == po;
  }

  lemma {:induction false} MissingSpecMembers(po: seq<string>, mo: seq<string>)
    ensures forall f :: f in MissingSpec(po, mo) <==> f in po && MoName(f) !in mo
    decreases |po|
  {
    if |po| > 0 {
      MissingSpecMembers(po[..|po| - 1], mo);
      assert forall f :: f in po <==> f in po[..|po| - 1] || f == po[|po| - 1];
    }
  }

  /**
   * A `.po` file of the listing is reported missing its binary exactly when
   * the name with `.po` replaced by `.mo` is not in the listing at all.
   */
  lemma MissingIff(files: seq<string>, f: string)
    ensures f in MissingSpec(PoFiles(files), MoFiles(files)) <==> f in PoFiles(files) && MoName(f) !in files
  {
    MissingSpecMembers(PoFiles(files), MoFiles(files));
    if f in PoFiles(files) {
      MoNameEndsInMo(f);
    }
  }

  // ---------------------------------------------------------------------
  // Naming convention: ^wp-clean-admin-([a-z]{2}_[A-Z]{2})\.po$

  const NamePrefix: string := "wp-clean-admin-"

  predicate IsAsciiLower(c: char) { 'a' <= c <= 'z' }
  predicate IsAsciiUpper(c: char) { 'A' <= c <= 'Z' }

  /** `[a-z]{2}_[A-Z]{2}` */
  predicate LocaleShape(l: string)
  {
    |l| == 5 && IsAsciiLower(l[0]) && IsAsciiLower(l[1]) && l[2] == '_' && IsAsciiUpper(l[3]) && IsAsciiUpper(l[4])
  }

  function CatalogueName(locale: string): string { NamePrefix + locale + ".po" }

  /**
   * The captured locale of a conforming name. Python's `$` also matches just
   * before a final newline, so a name with one trailing newline conforms too.
   */
  function NameLocale(f: string): (r: Option<string>)
    ensures r.Some? ==> LocaleShape(r.value) && (f == CatalogueName(r.value) || f == CatalogueName(r.value) + "\n")
    ensures r.None? ==> forall l :: LocaleShape(l) ==> f != CatalogueName(l) && f != CatalogueName(l) + "\n"
  {
    if (|f| == 23 || (|f| == 24 && f[23] == '\n')) && f[..15] == NamePrefix && LocaleShape(f[15..20]) && f[20..23] == ".po" then
      assert f[..23] == CatalogueName(f[15..20]);
      assert |f| == 24 ==> f == f[..23] + "\n";
      Some(f[15..20])
    else
      assert forall l :: LocaleShape(l) && (f == CatalogueName(l) || f == CatalogueName(l) + "\n") ==>
        f[..15] == NamePrefix && f[15..20] == l && f[20..23] == ".po";
      None
  }

  datatype NameVerdict =
    | ValidName(locale: string, language: string)
    | UnknownLocale(locale: string)
    | InvalidName

  function CheckName(f: string): (v: NameVerdict)
    ensures v.ValidName? <==> NameLocale(f).Some? && NameLocale(f).value in WpLocales
    ensures v.ValidName? ==> v.locale == NameLocale(f).value && v.language == WpLocales[v.locale]
    ensures v.UnknownLocale? <==> NameLocale(f).Some? && NameLocale(f).value !in WpLocales
    ensures v.UnknownLocale? ==> v.locale == NameLocale(f).value
    ensures v.InvalidName? <==> NameLocale(f).None?
  {
    match NameLocale(f)
    case Some(l) => if l in WpLocales then ValidName(l, WpLocales[l]) else UnknownLocale(l)
    case None => InvalidName
  }

  /** A catalogue named after one of the known locales is accepted with that locale's language. */
  lemma KnownCatalogueName(locale: string)
    requires locale in WpLocales
    ensures CheckName(CatalogueName(locale)) == ValidName(locale, WpLocales[locale])
  {
    assert LocaleShape(locale);
    var f := CatalogueName(locale);
    assert f[..15] == NamePrefix && f[15..20] == locale && f[20..] == ".po";
  }

  /** A well-shaped locale outside WP_LOCALES is only a warning. */
  lemma UnknownCatalogueName(locale: string)
    requires LocaleShape(locale) && locale !in WpLocales
    ensures CheckName(CatalogueName(locale)) == UnknownLocale(locale)
  {
    var f := CatalogueName(locale);
    assert f[..15] == NamePrefix && f[15..20] == locale && f[20..] == ".po";
  }

  // ---------------------------------------------------------------------
  // Header fields: "Name: (.+?)\\n" and "Content-Type: ...charset=(.+)\\n"

  const ProjectIdField: string := "\"Project-Id-Version: "
  const LanguageField: string := "\"Language: "
  const ContentTypeField: string := "\"Content-Type: text/plain; charset="

  /** The two characters backslash and n, then a quote. */
  const FieldEnd: string := "\\n\""

  predicate NoNewline(s: string, a: nat, e: nat)
  {
    forall m :: a <= m < e && m < |s| ==> s[m] != '\n'
  }

  /** s[a..e] is a non-empty payload on one line, followed by the field end. */
  predicate PayloadEnd(s: string, a: nat, e: nat)
  {
    a < e && NoNewline(s, a, e) && OccursAt(s, FieldEnd, e)
  }

  /** The field pattern matches at i, its payload ending at e. */
  predicate FieldAt(s: string, field: string, i: nat, e: nat)
  {
    OccursAt(s, field, i) && PayloadEnd(s, i + |field|, e)
  }

  /** No match of the field pattern starts before st. */
  ghost predicate NoMatchBefore(s: string, field: string, st: nat)
  {
    forall st': nat, e': nat :: st' < st ==> !FieldAt(s, field, st', e')
  }

  /** `(.+?)\\n"`: the shortest payload from a, trying ends j, j+1, ... */
  function LazyEnd(s: string, a: nat, j: nat): (r: Option<nat>)
    requires a < j && NoNewline(s, a, j - 1)
    ensures r.Some? ==> j <= r.value && PayloadEnd(s, a, r.value)
    ensures r.Some? ==> forall e: nat :: j <= e < r.value ==> !OccursAt(s, FieldEnd, e)
    ensures r.None? ==> forall e: nat :: j <= e && PayloadEnd(s, a, e) ==> false
    decreases |s| - j
  {
    if j > |s| then None
    else if s[j - 1] == '\n' then
      assert forall e: nat :: j <= e ==> !NoNewline(s, a, e);
      None
    else if OccursAt(s, FieldEnd, j) then Some(j)
    else LazyEnd(s, a, j + 1)
  }

  /** The end of the line that starts at a. */
  function LineEnd(s: string, a: nat): (r: nat)
    requires a <= |s|
    ensures a <= r <= |s| && NoNewline(s, a, r) && (r == |s| || s[r] == '\n')
    decreases |s| - a
  {
    if a == |s| || s[a] == '\n' then a else LineEnd(s, a + 1)
  }

  /** `(.+)\\n"`: the longest payload from a ending at j or before. */
  function GreedyEnd(s: string, a: nat, j: nat): (r: Option<nat>)
    requires a < j && NoNewline(s, a, j)
    ensures r.Some? ==> r.value <= j && PayloadEnd(s, a, r.value)
    ensures r.Some? ==> forall e: nat :: r.value < e <= j ==> !OccursAt(s, FieldEnd, e)
    ensures r.None? ==> forall e: nat :: a < e <= j ==> !OccursAt(s, FieldEnd, e)
    decreases j
  {
    if OccursAt(s, FieldEnd, j) then Some(j)
    else if j == a + 1 then None
    else GreedyEnd(s, a, j - 1)
  }

  /** Where the payload starting at a ends: the shortest or, when `greedy`, the longest. */
  function PayloadEndAt(s: string, a: nat, greedy: bool): (r: Option<nat>)
    requires a <= |s|
    ensures r.Some? ==> PayloadEnd(s, a, r.value)
    ensures r.Some? && greedy ==> forall e: nat :: PayloadEnd(s, a, e) ==> e <= r.value
    ensures r.Some? && !greedy ==> forall e: nat :: PayloadEnd(s, a, e) ==> r.value <= e
    ensures r.None? ==> forall e :: !PayloadEnd(s, a, e)
  {
    if greedy then
      var j := LineEnd(s, a);
      assert forall e: nat :: PayloadEnd(s, a, e) ==> e <= j;
      if j > a then GreedyEnd(s, a, j) else None
    else
      LazyEnd(s, a, a + 1)
  }

  /** `re.search`: the leftmost start from i at which the field pattern matches, and its payload end. */
  function SearchField(s: string, field: string, greedy: bool, i: nat): (r: Option<(nat, nat)>)
    ensures r.Some? ==> i <= r.value.0 && FieldAt(s, field, r.value.0, r.value.1)
    ensures r.Some? ==> forall st: nat, e: nat :: i <= st < r.value.0 ==> !FieldAt(s, field, st, e)
    ensures r.Some? && greedy ==> forall e: nat :: FieldAt(s, field, r.value.0, e) ==> e <= r.value.1
    ensures r.Some? && !greedy ==> forall e: nat :: FieldAt(s, field, r.value.0, e) ==> r.value.1 <= e
    ensures r.None? ==> forall st: nat, e: nat :: i <= st ==> !FieldAt(s, field, st, e)
    decreases |s| - i
  {
    if i + |field| >= |s| then
      assert forall st: nat, e: nat :: i <= st && FieldAt(s, field, st, e) ==> false;
      None
    else if OccursAt(s, field, i) then
      match PayloadEndAt(s, i + |field|, greedy)
      case Some(e) => Some((i, e))
      case None => SearchField(s, field, greedy, i + 1)
    else SearchField(s, field, greedy, i + 1)
  }

  /** `match.group(1)`, when the field pattern matches anywhere. */
  function FieldValue(s: string, field: string, greedy: bool): (v: Option<string>)
    ensures v.Some? <==> exists st: nat, e: nat :: FieldAt(s, field, st, e)
    ensures v.Some? ==> !('\n' in v.value) && |v.value| > 0
  {
    match SearchField(s, field, greedy, 0)
    case Some((st, e)) =>
      var g := s[st + |field|..e];
      assert forall m :: 0 <= m < |g| ==> g[m] == s[st + |field| + m];
      Some(g)
    case None => None
  }

  datatype HeaderCheck =
    | Unreadable
    | Headers(projectId: Option<string>, language: Option<string>, charset: Option<string>, utf8: bool)

  /**
   * The three header searches of one catalogue, each over the whole text and
   * independent of the others, and the charset verdict.
   */
  function CheckHeaders(content: Option<string>): (h: HeaderCheck)
    ensures content.None? <==> h.Unreadable?
    ensures content.Some? ==> h.projectId == FieldValue(content.value, ProjectIdField, false)
    ensures content.Some? ==> h.language == FieldValue(content.value, LanguageField, false)
    ensures content.Some? ==> h.charset == FieldValue(content.value, ContentTypeField, true)
    ensures h.Headers? ==> (h.utf8 <==> h.charset.Some? && Contains(h.charset.value, "UTF-8"))
  {
    match content
    case None => Unreadable
    case Some(s) =>
      var ct := FieldValue(s, ContentTypeField, true);
      Headers(FieldValue(s, ProjectIdField, false), FieldValue(s, LanguageField, false), ct,
              ct.Some? && Contains(ct.value, "UTF-8"))
  }

  /** The search finds the leftmost match, and at it the shortest (or longest) payload. */
  lemma FieldValueAt(s: string, field: string, greedy: bool, st: nat, e: nat)
    requires FieldAt(s, field, st, e)
    requires NoMatchBefore(s, field, st)
    requires greedy ==> forall e': nat :: FieldAt(s, field, st, e') ==> e' <= e
    requires !greedy ==> forall e': nat :: FieldAt(s, field, st, e') ==> e <= e'
    ensures FieldValue(s, field, greedy) == Some(s[st + |field|..e])
  {
    var r := SearchField(s, field, greedy, 0);
    assert r.Some?;
    assert r.value.0 == st;
  }

  /**
   * A header line `field v\n"` starting at st is read back as v, provided no
   * earlier match starts in front of it; the shortest-payload searches also
   * need v itself not to contain the field end.
   */
  lemma FieldLineRead(s: string, field: string, st: nat, v: string, greedy: bool)
    requires |v| > 0 && '\n' !in v && (!greedy ==> forall k: nat :: !OccursAt(v, FieldEnd, k))
    requires OccursAt(s, field, st) && OccursAt(s, v, st + |field|) && OccursAt(s, FieldEnd, st + |field| + |v|)
    requires st + |field| + |v| + 3 < |s| && s[st + |field| + |v| + 3] == '\n'
    requires NoMatchBefore(s, field, st)
    ensures FieldValue(s, field, greedy) == Some(v)
  {
    PayloadOnLine(s, st + |field|, v, greedy);
    FieldValueAt(s, field, greedy, st, st + |field| + |v|);
  }

  /** A payload s[a..e] closed by the field end just before a line break is the only candidate of its kind. */
  lemma PayloadOnLine(s: string, a: nat, v: string, greedy: bool)
    requires |v| > 0 && '\n' !in v && (!greedy ==> forall k: nat :: !OccursAt(v, FieldEnd, k))
    requires OccursAt(s, v, a) && OccursAt(s, FieldEnd, a + |v|)
    requires a + |v| + 3 < |s| && s[a + |v| + 3] == '\n'
    ensures PayloadEnd(s, a, a + |v|)
    ensures greedy ==> forall e': nat :: PayloadEnd(s, a, e') ==> e' <= a + |v|
    ensures !greedy ==> forall e': nat :: PayloadEnd(s, a, e') ==> a + |v| <= e'
  {
    var e := a + |v|;
    assert s[a..e] == v;
    PayloadOnLineAt(s, a, e, greedy);
  }

  lemma PayloadOnLineAt(s: string, a: nat, e: nat, greedy: bool)
    requires a < e && e + 3 < |s| && '\n' !in s[a..e] && s[e..e + 3] == FieldEnd && s[e + 3] == '\n'
    requires !greedy ==> forall k: nat :: !OccursAt(s[a..e], FieldEnd, k)
    ensures PayloadEnd(s, a, e)
    ensures greedy ==> forall e': nat :: PayloadEnd(s, a, e') ==> e' <= e
    ensures !greedy ==> forall e': nat :: PayloadEnd(s, a, e') ==> e <= e'
  {
    assert NoNewline(s, a, e) by {
      forall m | a <= m < e ensures s[m] != '\n' { assert s[m] == s[a..e][m - a]; }
    }
    if greedy {
      assert forall e': nat :: PayloadEnd(s, a, e') ==> e' <= e;
    } else {
      forall e': nat | a <= e' < e ensures !OccursAt(s, FieldEnd, e') {
        if e' + 3 <= e {
          InnerSlice(s, a, e, e', 3);
          assert !OccursAt(s[a..e], FieldEnd, e' - a);
        } else {
          FieldEndChars(s, e);
          assert s[e'..e' + 3][e - e'] == s[e];
        }
      }
    }
  }

  /** A piece of s inside s[a..e] is the same piece of s[a..e], shifted by a. */
  lemma InnerSlice(s: string, a: nat, e: nat, x: nat, n: nat)
    requires a <= x && x + n <= e <= |s|
    ensures s[a..e][x - a..x - a + n] == s[x..x + n]
  {
    var w := s[a..e];
    assert forall j :: x - a <= j < x - a + n ==> w[j] == s[j + a];
    assert w[x - a..x - a + n] == s[x..x + n];
  }

  lemma FieldEndChars(s: string, x: nat)
    requires OccursAt(s, FieldEnd, x)
    ensures s[x] == '\\' && s[x + 1] == 'n' && s[x + 2] == '"'
  {
    assert s[x..x + 3] == FieldEnd;
  }

  /** A catalogue whose first Content-Type line declares exactly UTF-8 gets no charset warning. */
  lemma Utf8Accepted(s: string, st: nat)
    requires OccursAt(s, ContentTypeField, st) && OccursAt(s, "UTF-8", st + |ContentTypeField|)
    requires OccursAt(s, FieldEnd, st + |ContentTypeField| + 5)
    requires st + |ContentTypeField| + 8 < |s| && s[st + |ContentTypeField| + 8] == '\n'
    requires NoMatchBefore(s, ContentTypeField, st)
    ensures CheckHeaders(Some(s)).utf8
  {
    assert '\n' !in "UTF-8";
    FieldLineRead(s, ContentTypeField, st, "UTF-8", true);
    assert IsPrefix("UTF-8", "UTF-8");
  }

  /** Without a Content-Type line the charset warning is given whatever else the header holds. */
  lemma NoContentTypeWarns(s: string)
    requires forall st: nat, e: nat :: !FieldAt(s, ContentTypeField, st, e)
    ensures !CheckHeaders(Some(s)).utf8
  {
  }

  // ---------------------------------------------------------------------
  // Translation function usage

  const UsageFunctions: seq<string> := ["__", "_e", "_x", "_n", "_nx"]

  /** `{func}\(["'](.+?)["'][,\s]*["']wp-clean-admin["']\)`, without DOTALL. */
  function UsagePattern(func: string): (p: Pattern)
    ensures p.args == [Text] && !p.dotall && p.name == func
  {
    Pattern(func, [Text], false)
  }

  const UsagePruned: set<string> := {"vendor", "node_modules", ".git", "languages"}

  predicate Scanned(f: UpdatePot.SourceFile)
  {
    (forall k :: 0 <= k < |f.dirs| ==> f.dirs[k] !in UsagePruned) && IsSuffix(".php", f.name)
  }

  /** The `.php` files of the walk outside the pruned directories, in walk order. */
  function PhpFiles(tree: seq<UpdatePot.SourceFile>): (r: seq<UpdatePot.SourceFile>)
    ensures forall f :: f in r <==> f in tree && Scanned(f)
  {
    if |tree| == 0 then []
    else
      var rest := PhpFiles(tree[..|tree| - 1]);
      var last := tree[|tree| - 1];
      assert forall f :: f in tree <==> f in tree[..|tree| - 1] || f == last;
      if Scanned(last) then rest + [last] else rest
  }

  method CollectPhpFiles(tree: seq<UpdatePot.SourceFile>) returns (php: seq<UpdatePot.SourceFile>)
    ensures php == PhpFiles(tree)
  {
    php := [];
    var i := 0;
    while i < |tree|
      invariant 0 <= i <= |tree|
      invariant php == PhpFiles(tree[..i])
    {
      assert tree[..i + 1][..i] == tree[..i];
      var f := tree[i];
      if (forall k :: 0 <= k < |f.dirs| ==> f.dirs[k] !in UsagePruned) && IsSuffix(".php", f.name) {
        php := php + [f];
      }
      i := i + 1;
    }
    assert tree[..i] == tree;
  }

  /** Calls of one function found in one file; an unreadable file counts nothing. */
  function FileCount(f: UpdatePot.SourceFile, func: string): nat
  {
    match f.content
    case Some(s) => |FindAll(UsagePattern(func), s, 0)|
    case None => 0
  }

  function CountSpec(files: seq<UpdatePot.SourceFile>, func: string): nat
  {
    if |files| == 0 then 0 else CountSpec(files[..|files| - 1], func) + FileCount(files[|files| - 1], func)
  }

  function Sum(xs: seq<nat>): nat
  {
    if |xs| == 0 then 0 else Sum(xs[..|xs| - 1]) + xs[|xs| - 1]
  }

  /** The counts per function, in the order of `UsageFunctions`. */
  method CountCalls(files: seq<UpdatePot.SourceFile>) returns (counts: seq<nat>)
    ensures |counts| == |UsageFunctions|
    ensures forall k :: 0 <= k < |counts| ==> counts[k] == CountSpec(files, UsageFunctions[k])
  {
    counts := [0, 0, 0, 0, 0];
    var i := 0;
    while i < |files|
      invariant 0 <= i <= |files|
      invariant |counts| == |UsageFunctions|
      invariant forall k :: 0 <= k < |counts| ==> counts[k] == CountSpec(files[..i], UsageFunctions[k])
    {
      assert files[..i + 1][..i] == files[..i];
      var f := files[i];
      if f.content.Some? {
        var content := f.content.value;
        var j := 0;
        while j < |UsageFunctions|
          invariant 0 <= j <= |UsageFunctions| && |counts| == |UsageFunctions|
          invariant forall k :: 0 <= k < j ==> counts[k] == CountSpec(files[..i + 1], UsageFunctions[k])
          invariant forall k :: j <= k < |counts| ==> counts[k] == CountSpec(files[..i], UsageFunctions[k])
        {
          var matches := FindAll(UsagePattern(UsageFunctions[j]), content, 0);
          counts := counts[j := counts[j] + |matches|];
          j := j + 1;
        }
      }
      i := i + 1;
    }
    assert files[..i] == files;
  }

  lemma {:induction false} CountAppend(a: seq<UpdatePot.SourceFile>, b: seq<UpdatePot.SourceFile>, func: string)
    ensures CountSpec(a + b, func) == CountSpec(a, func) + CountSpec(b, func)
    decreases |b|
  {
    if |b| == 0 {
      assert a + b == a;
    } else {
      assert (a + b)[..|a + b| - 1] == a + b[..|b| - 1];
      CountAppend(a, b[..|b| - 1], func);
    }
  }

  /**
   * A file below vendor, node_modules, .git or languages, or not ending in
   * `.php`, is never scanned: the walk's counts are those without it.
   */
  lemma UsageSkips(a: seq<UpdatePot.SourceFile>, f: UpdatePot.SourceFile, b: seq<UpdatePot.SourceFile>)
    requires !Scanned(f)
    ensures PhpFiles(a + [f] + b) == PhpFiles(a) + PhpFiles(b)
    ensures PhpFiles(a + b) == PhpFiles(a) + PhpFiles(b)
  {
    PhpFilesAppend(a + [f], b);
    PhpFilesAppend(a, [f]);
    PhpFilesAppend(a, b);
    assert PhpFiles([f]) == [];
  }

  lemma {:induction false} PhpFilesAppend(a: seq<UpdatePot.SourceFile>, b: seq<UpdatePot.SourceFile>)
    ensures PhpFiles(a + b) == PhpFiles(a) + PhpFiles(b)
    decreases |b|
  {
    if |b| == 0 {
      assert a + b == a;
    } else {
      assert (a + b)[..|a + b| - 1] == a + b[..|b| - 1];
      PhpFilesAppend(a, b[..|b| - 1]);
    }
  }

  /** A file that never mentions the text domain counts no call of any function. */
  lemma FileCountNeedsDomain(f: UpdatePot.SourceFile, func: string)
    requires f.content.Some? ==> !Contains(f.content.value, Domain)
    ensures FileCount(f, func) == 0
  {
    if f.content.Some? {
      FindAllNeedsDomain(UsagePattern(func), f.content.value, 0);
    }
  }

  lemma {:induction false} CountNeedsDomain(files: seq<UpdatePot.SourceFile>, func: string)
    requires forall k :: 0 <= k < |files| && files[k].content.Some? ==> !Contains(files[k].content.value, Domain)
    ensures CountSpec(files, func) == 0
    decreases |files|
  {
    if |files| > 0 {
      CountNeedsDomain(files[..|files| - 1], func);
      FileCountNeedsDomain(files[|files| - 1], func);
    }
  }

  /** Every counted call's payload is non-empty and stays on one line. */
  lemma CountedPayloads(f: UpdatePot.SourceFile, func: string)
    requires f.content.Some?
    ensures forall k :: 0 <= k < |FindAll(UsagePattern(func), f.content.value, 0)| ==>
      var gs := FindAll(UsagePattern(func), f.content.value, 0)[k].groups;
      |gs| == 1 && |gs[0]| > 0 && '\n' !in gs[0]
  {
    var hits := FindAll(UsagePattern(func), f.content.value, 0);
    FindAllGroups(UsagePattern(func), f.content.value, 0);
    forall k | 0 <= k < |hits| ensures |hits[k].groups| == 1 && |hits[k].groups[0]| > 0 && '\n' !in hits[k].groups[0] {
      assert GroupsOk(UsagePattern(func), hits[k].groups);
      assert TextCount([Text]) == 1;
    }
  }

  // ---------------------------------------------------------------------
  // check_translation_files

  datatype Report =
    | NoLanguagesDirectory
    | Report(poFiles: seq<string>, moFiles: seq<string>, potFiles: seq<string>, missingMo: seq<string>,
             names: seq<NameVerdict>, headers: seq<HeaderCheck>, phpFileCount: nat,
             counts: seq<nat>, total: nat, noCallsWarning: bool)

  /** The text of a catalogue, when it can be read. */
  function ReadCatalogue(catalogues: map<string, string>, f: string): Option<string>
  {
    if f in catalogues then Some(catalogues[f]) else None
  }

  /** The loop over the .po files: each name's verdict and each catalogue's header check, in order. */
  method CheckCatalogues(po: seq<string>, catalogues: map<string, string>)
    returns (names: seq<NameVerdict>, headers: seq<HeaderCheck>)
    ensures |names| == |po| && |headers| == |po|
    ensures forall k :: 0 <= k < |po| ==> names[k] == CheckName(po[k])
    ensures forall k :: 0 <= k < |po| ==> headers[k] == CheckHeaders(ReadCatalogue(catalogues, po[k]))
  {
    names, headers := [], [];
    var i := 0;
    while i < |po|
      invariant 0 <= i <= |po| && |names| == i && |headers| == i
      invariant forall k :: 0 <= k < i ==> names[k] == CheckName(po[k])
      invariant forall k :: 0 <= k < i ==> headers[k] == CheckHeaders(ReadCatalogue(catalogues, po[k]))
    {
      names := names + [CheckName(po[i])];
      headers := headers + [CheckHeaders(ReadCatalogue(catalogues, po[i]))];
      i := i + 1;
    }
  }

  method CheckTranslationFiles(listing: Option<seq<string>>, catalogues: map<string, string>, tree: seq<UpdatePot.SourceFile>)
    returns (r: Report)
    ensures listing.None? <==> r.NoLanguagesDirectory?
    ensures listing.Some? ==>
      r.poFiles == PoFiles(listing.value) && r.moFiles == MoFiles(listing.value) && r.potFiles == PotFiles(listing.value)
    ensures listing.Some? ==> r.missingMo == MissingSpec(r.poFiles, r.moFiles)
    ensures listing.Some? ==> |r.names| == |r.poFiles| && |r.headers| == |r.poFiles|
    ensures listing.Some? ==> forall k :: 0 <= k < |r.poFiles| ==>
      r.names[k] == CheckName(r.poFiles[k]) && r.headers[k] == CheckHeaders(ReadCatalogue(catalogues, r.poFiles[k]))
    ensures listing.Some? ==> r.phpFileCount == |PhpFiles(tree)| && |r.counts| == |UsageFunctions|
    ensures listing.Some? ==> forall k :: 0 <= k < |UsageFunctions| ==> r.counts[k] == CountSpec(PhpFiles(tree), UsageFunctions[k])
    ensures listing.Some? ==> r.total == Sum(r.counts) && (r.noCallsWarning <==> r.total == 0)
  {
    if listing.None? {
      return NoLanguagesDirectory;
    }
    var files := listing.value;
    var po := PoFiles(files);
    var mo := MoFiles(files);
    var pot := PotFiles(files);
    var missing := MissingMo(po, mo);
    var names, headers := CheckCatalogues(po, catalogues);
    var php := CollectPhpFiles(tree);
    var counts := CountCalls(php);
    var total := Sum(counts);
    r := Report(po, mo, pot, missing, names, headers, |php|, counts, total, total == 0);
  }

  /** With no scanned file mentioning the text domain, the no-calls warning is given. */
  lemma NoDomainWarns(tree: seq<UpdatePot.SourceFile>, counts: seq<nat>)
    requires forall f :: f in tree && Scanned(f) && f.content.Some? ==> !Contains(f.content.value, Domain)
    requires |counts| == |UsageFunctions|
    requires forall k :: 0 <= k < |UsageFunctions| ==> counts[k] == CountSpec(PhpFiles(tree), UsageFunctions[k])
    ensures Sum(counts) == 0
  {
    var php := PhpFiles(tree);
    forall k | 0 <= k < |UsageFunctions| ensures counts[k] == 0 {
      assert forall j :: 0 <= j < |php| ==> php[j] in php;
      CountNeedsDomain(php, UsageFunctions[k]);
    }
    SumZero(counts);
  }

  lemma {:induction false} SumZero(xs: seq<nat>)
    requires forall k :: 0 <= k < |xs| ==> xs[k] == 0
    ensures Sum(xs) == 0
  {
    if |xs| > 0 {
      SumZero(xs[..|xs| - 1]);
    }
  }
}
