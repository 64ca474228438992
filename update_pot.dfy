/**
 * update-pot.py: collect the translatable strings of the plugin's PHP and
 * JavaScript files and write the template catalogue (POT).
 *
 * The directory walk is a list of files, each with the directory names
 * between the scan root and the file; an unreadable file has no content.
 * The creation date is a parameter.
 */
module UpdatePot {
  import opened Wrappers
  import opened PhpStrings
  import opened TranslationCalls

  // ---------------------------------------------------------------------
  // TRANSLATION_PATTERNS

  const PhpPatterns: seq<Pattern> := [
    Pattern("__", [Text], true),
    Pattern("_e", [Text], true),
    Pattern("_x", [Text, Text], true),
    Pattern("_n", [Text, Text, CountVar], true),
    Pattern("_nx", [Text, Text, CountVar, Text], true)
  ]

  const JsPatterns: seq<Pattern> := [
    Pattern("__", [Text], true),
    Pattern("_e", [Text], true),
    Pattern("_x", [Text, Text], true),
    Pattern("_n", [Text, Text, CountToken], true),
    Pattern("_nx", [Text, Text, CountToken, Text], true)
  ]

  /** The patterns registered for an extension; none for any other. */
  function PatternsFor(ext: string): (ps: seq<Pattern>)
    ensures ext == "php" ==> ps == PhpPatterns
    ensures ext == "js" ==> ps == JsPatterns
    ensures ext != "php" && ext != "js" ==> ps == []
    ensures forall p :: p in ps ==> WellFormed(p) && p.dotall
  {
    if ext == "php" then PhpPatterns else if ext == "js" then JsPatterns else []
  }

  datatype SourceFile = SourceFile(dirs: seq<string>, name: string, content: Option<string>)

  predicate AllDots(s: string) { forall i :: 0 <= i < |s| ==> s[i] == '.' }

  /** Index of the last '.' of s, or -1. */
  function LastDot(s: string): (d: int)
    ensures -1 <= d < |s|
    ensures d >= 0 ==> s[d] == '.' && '.' !in s[d + 1..]
    ensures d == -1 ==> '.' !in s
    decreases |s|
  {
    if |s| == 0 then -1
    else if s[|s| - 1] == '.' then |s| - 1
    else LastDot(s[..|s| - 1])
  }

  /**
   * `os.path.splitext(path)[1].lstrip('.')` for a file called `name`: the
   * text after the last dot, unless only dots precede that dot.
   */
  function Extension(name: string): (ext: string)
    ensures '.' !in ext
    ensures ext != "" ==> IsSuffix("." + ext, name)
  {
    var d := LastDot(name);
    if d > 0 && !AllDots(name[..d]) then name[d + 1..] else ""
  }

  lemma ExtensionOfDotted(stem: string, ext: string)
    requires |stem| > 0 && stem[0] != '.' && '.' !in ext
    ensures Extension(stem + "." + ext) == ext
  {
    var s := stem + "." + ext;
    var d := LastDot(s);
    assert s[|stem|] == '.';
    assert s[|stem| + 1..] == ext;
    assert s[..d][0] == stem[0];
  }

  // ---------------------------------------------------------------------
  // extract_strings

  /** A findall result for a one-group pattern is the string; for more groups the first two are kept. */
  function Emitted(gs: seq<string>): (r: seq<string>)
    ensures |gs| == 1 ==> r == [gs[0]]
    ensures |gs| >= 2 ==> r == [gs[0], gs[1]]
    ensures forall x :: x in r ==> x in gs
  {
    if |gs| == 0 then [] else if |gs| == 1 then [gs[0]] else [gs[0], gs[1]]
  }

  function HitsStrings(hits: seq<Hit>): seq<string>
  {
    if |hits| == 0 then [] else HitsStrings(hits[..|hits| - 1]) + Emitted(hits[|hits| - 1].groups)
  }

  function PatternsStrings(ps: seq<Pattern>, content: string): seq<string>
  {
    if |ps| == 0 then [] else PatternsStrings(ps[..|ps| - 1], content) + HitsStrings(FindAll(ps[|ps| - 1], content, 0))
  }

  /** What extract_strings returns for a file. */
  function ExtractSpec(name: string, content: Option<string>): seq<string>
  {
    if content.None? then [] else PatternsStrings(PatternsFor(Extension(name)), content.value)
  }

  method ExtractStrings(name: string, content: Option<string>) returns (strings: seq<string>)
    ensures strings == ExtractSpec(name, content)
  {
    strings := [];
    var ext := Extension(name);
    if ext != "php" && ext != "js" {
      return;
    }
    if content.None? {
      return;
    }
    strings := ApplyPatterns(PatternsFor(ext), content.value);
  }

  /** The loop of extract_strings over the patterns, each adding what its findall result emits. */
  method ApplyPatterns(patterns: seq<Pattern>, text: string) returns (strings: seq<string>)
    ensures strings == PatternsStrings(patterns, text)
  {
    strings := [];
    var i := 0;
    while i < |patterns|
      invariant 0 <= i <= |patterns|
      invariant strings == PatternsStrings(patterns[..i], text)
    {
      var found := EmitHits(FindAll(patterns[i], text, 0));
      assert patterns[..i + 1][..i] == patterns[..i];
      strings := strings + found;
      i := i + 1;
    }
    assert patterns[..i] == patterns;
  }

  /** The inner loop of extract_strings over one findall result: each match's string, or its first two groups. */
  method EmitHits(matches: seq<Hit>) returns (strings: seq<string>)
    ensures strings == HitsStrings(matches)
  {
    strings := [];
    var k := 0;
    while k < |matches|
      invariant 0 <= k <= |matches|
      invariant strings == HitsStrings(matches[..k])
    {
      assert matches[..k + 1][..k] == matches[..k];
      strings := strings + Emitted(matches[k].groups);
      k := k + 1;
    }
    assert matches[..k] == matches;
  }

  lemma {:induction false} HitsStringsEmpty(hits: seq<Hit>)
    requires hits == []
    ensures HitsStrings(hits) == []
  {
  }

  lemma {:induction false} PatternsStringsNeedDomain(ps: seq<Pattern>, content: string)
    requires !Contains(content, Domain)
    ensures PatternsStrings(ps, content) == []
  {
    if |ps| > 0 {
      PatternsStringsNeedDomain(ps[..|ps| - 1], content);
      FindAllNeedsDomain(ps[|ps| - 1], content, 0);
    }
  }

  /** A file that never names the text domain contributes nothing, whatever else it calls. */
  lemma ExtractNeedsDomain(name: string, content: string)
    requires !Contains(content, Domain)
    ensures ExtractSpec(name, Some(content)) == []
  {
    PatternsStringsNeedDomain(PatternsFor(Extension(name)), content);
  }

  /** Only .php and .js extensions have patterns; an unreadable file gives nothing. */
  lemma ExtractOtherFiles(name: string, content: Option<string>)
    requires content.None? || (Extension(name) != "php" && Extension(name) != "js")
    ensures ExtractSpec(name, content) == []
  {
  }

  /** Membership in the flattened results of findall. */
  lemma {:induction false} HitsStringsMember(hits: seq<Hit>, x: string)
    requires x in HitsStrings(hits)
    ensures exists k :: 0 <= k < |hits| && x in Emitted(hits[k].groups)
  {
    if x !in Emitted(hits[|hits| - 1].groups) {
      HitsStringsMember(hits[..|hits| - 1], x);
      var k :| 0 <= k < |hits[..|hits| - 1]| && x in Emitted(hits[..|hits| - 1][k].groups);
      assert hits[..|hits| - 1][k] == hits[k];
    }
  }

  lemma {:induction false} PatternsStringsMember(ps: seq<Pattern>, content: string, x: string)
    requires x in PatternsStrings(ps, content)
    ensures exists p, h :: p in ps && h in FindAll(p, content, 0) && x in h.groups
  {
    var last := ps[|ps| - 1];
    if x in HitsStrings(FindAll(last, content, 0)) {
      HitsStringsMember(FindAll(last, content, 0), x);
      var k :| 0 <= k < |FindAll(last, content, 0)| && x in Emitted(FindAll(last, content, 0)[k].groups);
      assert last in ps && FindAll(last, content, 0)[k] in FindAll(last, content, 0);
    } else {
      PatternsStringsMember(ps[..|ps| - 1], content, x);
      var p, h :| p in ps[..|ps| - 1] && h in FindAll(p, content, 0) && x in h.groups;
      assert p in ps;
    }
  }

  /**
   * Every extracted string is a captured payload of a match of one of the
   * extension's patterns: non-empty, inside a call that ends with the
   * quoted text domain.
   */
  lemma ExtractedArePayloads(name: string, content: string, x: string)
    requires x in ExtractSpec(name, Some(content))
    ensures exists p, h :: p in PatternsFor(Extension(name)) && h in FindAll(p, content, 0) && x in h.groups
    ensures |x| > 0
  {
    PatternsStringsMember(PatternsFor(Extension(name)), content, x);
    var p, h :| p in PatternsFor(Extension(name)) && h in FindAll(p, content, 0) && x in h.groups;
    FindAllGroups(p, content, 0);
    var k :| 0 <= k < |FindAll(p, content, 0)| && FindAll(p, content, 0)[k] == h;
    assert GroupsOk(p, h.groups);
  }

  // ---------------------------------------------------------------------
  // scan_directory

  const PrunedDirs: set<string> := {"vendor", "node_modules", ".git"}

  /** os.walk never descends into a pruned directory. */
  predicate Visited(f: SourceFile)
  {
    forall k :: 0 <= k < |f.dirs| ==> f.dirs[k] !in PrunedDirs
  }

  predicate Selected(f: SourceFile)
  {
    Visited(f) && (IsSuffix(".php", f.name) || IsSuffix(".js", f.name))
  }

  function FileStrings(f: SourceFile): seq<string>
  {
    if Selected(f) then ExtractSpec(f.name, f.content) else []
  }

  /** Everything the walk collects, before duplicates are removed. */
  function ScanSpec(files: seq<SourceFile>): seq<string>
  {
    if |files| == 0 then [] else ScanSpec(files[..|files| - 1]) + FileStrings(files[|files| - 1])
  }

  predicate NoDuplicates(xs: seq<string>)
  {
    forall i, j :: 0 <= i < j < |xs| ==> xs[i] != xs[j]
  }

  /** `list(set(xs))`; Python leaves the order unspecified, this keeps first occurrences. */
  function Dedup(xs: seq<string>): (r: seq<string>)
    ensures NoDuplicates(r)
    ensures forall x :: x in r <==> x in xs
    ensures |r| <= |xs|
  {
    if |xs| == 0 then []
    else
      var rest := Dedup(xs[..|xs| - 1]);
      assert forall x :: x in xs <==> x in xs[..|xs| - 1] || x == xs[|xs| - 1];
      if xs[|xs| - 1] in rest then rest else rest + [xs[|xs| - 1]]
  }

  method ScanDirectory(files: seq<SourceFile>) returns (strings: seq<string>)
    ensures NoDuplicates(strings)
    ensures forall x :: x in strings <==> x in ScanSpec(files)
  {
    var all: seq<string> := [];
    var i := 0;
    while i < |files|
      invariant 0 <= i <= |files|
      invariant all == ScanSpec(files[..i])
    {
      assert files[..i + 1][..i] == files[..i];
      var f := files[i];
      if Visited(f) && (IsSuffix(".php", f.name) || IsSuffix(".js", f.name)) {
        var found := ExtractStrings(f.name, f.content);
        all := all + found;
      }
      i := i + 1;
    }
    assert files[..i] == files;
    strings := Dedup(all);
  }

  lemma {:induction false} ScanAppend(a: seq<SourceFile>, b: seq<SourceFile>)
    ensures ScanSpec(a + b) == ScanSpec(a) + ScanSpec(b)
    decreases |b|
  {
    if |b| == 0 {
      assert a + b == a;
    } else {
      var b', f := b[..|b| - 1], b[|b| - 1];
      assert (a + b)[..|a + b| - 1] == a + b' && (a + b)[|a + b| - 1] == f;
      ScanAppend(a, b');
      var x, y, z := ScanSpec(a), ScanSpec(b'), FileStrings(f);
      calc {
        ScanSpec(a + b);
        ScanSpec(a + b') + z;
        x + y + z;
        { ConcatAssoc(x, y, z); }
        x + (y + z);
        x + ScanSpec(b);
      }
    }
  }

  /**
   * A file below vendor, node_modules or .git, a file that is not .php or
   * .js, and an unreadable file contribute nothing, and the scan goes on
   * with the files after it.
   */
  lemma ScanSkips(a: seq<SourceFile>, f: SourceFile, b: seq<SourceFile>)
    requires !Visited(f) || f.content.None? || !(IsSuffix(".php", f.name) || IsSuffix(".js", f.name))
    ensures ScanSpec(a + [f] + b) == ScanSpec(a + b)
  {
    ScanAppend(a + [f], b);
    ScanAppend(a, [f]);
    ScanAppend(a, b);
    SkippedFile(f);
    assert ScanSpec(a) + ScanSpec([f]) == ScanSpec(a);
  }

  lemma SkippedFile(f: SourceFile)
    requires !Visited(f) || f.content.None? || !(IsSuffix(".php", f.name) || IsSuffix(".js", f.name))
    ensures ScanSpec([f]) == []
  {
    assert [f][..0] == [];
  }

  // ---------------------------------------------------------------------
  // sorted()

  /** Python's `<=` on str: code-point lexicographic order. */
  predicate StrLe(a: string, b: string)
    decreases |a|
  {
    |a| == 0 || (|b| > 0 && (a[0] < b[0] || (a[0] == b[0] && StrLe(a[1..], b[1..]))))
  }

  lemma {:induction false} StrLeTotal(a: string, b: string)
    ensures StrLe(a, b) || StrLe(b, a)
    decreases |a|
  {
    if |a| > 0 && |b| > 0 && a[0] == b[0] {
      StrLeTotal(a[1..], b[1..]);
    }
  }

  lemma {:induction false} StrLeTrans(a: string, b: string, c: string)
    requires StrLe(a, b) && StrLe(b, c)
    ensures StrLe(a, c)
    decreases |a|
  {
    if |a| > 0 && a[0] == b[0] && b[0] == c[0] {
      StrLeTrans(a[1..], b[1..], c[1..]);
    }
  }

  lemma {:induction false} StrLeAntisym(a: string, b: string)
    requires StrLe(a, b) && StrLe(b, a)
    ensures a == b
    decreases |a|
  {
    if |a| > 0 {
      StrLeAntisym(a[1..], b[1..]);
      assert a == [a[0]] + a[1..] && b == [b[0]] + b[1..];
    }
  }

  predicate Ascending(xs: seq<string>)
  {
    forall i, j :: 0 <= i < j < |xs| ==> StrLe(xs[i], xs[j])
  }

  function Insert(x: string, xs: seq<string>): (r: seq<string>)
    requires Ascending(xs)
    ensures Ascending(r)
    ensures multiset(r) == multiset(xs) + multiset{x}
    decreases |xs|
  {
    if |xs| == 0 then [x]
    else if StrLe(x, xs[0]) then
      InsertFront(x, xs);
      [x] + xs
    else
      StrLeTotal(x, xs[0]);
      var rest := Insert(x, xs[1..]);
      InsertBehind(x, xs, rest);
      assert xs == [xs[0]] + xs[1..];
      [xs[0]] + rest
  }

  lemma InsertFront(x: string, xs: seq<string>)
    requires Ascending(xs) && |xs| > 0 && StrLe(x, xs[0])
    ensures Ascending([x] + xs)
  {
    forall j | 0 < j < |xs| ensures StrLe(x, xs[j]) {
      StrLeTrans(x, xs[0], xs[j]);
    }
  }

  lemma InsertBehind(x: string, xs: seq<string>, rest: seq<string>)
    requires Ascending(xs) && |xs| > 0 && StrLe(xs[0], x)
    requires Ascending(rest) && multiset(rest) == multiset(xs[1..]) + multiset{x}
    ensures Ascending([xs[0]] + rest)
  {
    forall j | 0 <= j < |rest| ensures StrLe(xs[0], rest[j]) {
      assert rest[j] in multiset(rest);
      if rest[j] != x {
        assert rest[j] in multiset(xs[1..]);
        var m :| 0 <= m < |xs[1..]| && xs[1..][m] == rest[j];
        assert xs[m + 1] == rest[j];
      }
    }
  }

  /** `sorted(xs)` on strings. */
  function SortStrings(xs: seq<string>): (r: seq<string>)
    ensures Ascending(r)
    ensures multiset(r) == multiset(xs)
  {
    if |xs| == 0 then []
    else
      assert xs == xs[..|xs| - 1] + [xs[|xs| - 1]];
      Insert(xs[|xs| - 1], SortStrings(xs[..|xs| - 1]))
  }

  /** Sorting a list without duplicates gives a strictly ascending list. */
  lemma SortedDistinct(xs: seq<string>)
    requires NoDuplicates(xs)
    ensures NoDuplicates(SortStrings(xs))
  {
    var r := SortStrings(xs);
    forall i, j | 0 <= i < j < |r| ensures r[i] != r[j] {
      if r[i] == r[j] {
        TwoOccurrences(r, i, j);
        SeqCountAtMostOne(xs, r[i]);
      }
    }
  }

  lemma TwoOccurrences(r: seq<string>, i: nat, j: nat)
    requires i < j < |r| && r[i] == r[j]
    ensures multiset(r)[r[i]] >= 2
  {
    assert r == r[..j] + r[j..];
    assert multiset(r) == multiset(r[..j]) + multiset(r[j..]);
    assert r[i] == r[..j][i];
    assert r[j] == r[j..][0];
  }

  lemma SeqCountAtMostOne(xs: seq<string>, x: string)
    requires NoDuplicates(xs)
    ensures multiset(xs)[x] <= 1
    decreases |xs|
  {
    if |xs| > 0 {
      var init := xs[..|xs| - 1];
      assert xs == init + [xs[|xs| - 1]];
      SeqCountAtMostOne(init, x);
      if xs[|xs| - 1] == x {
        assert x !in init;
      }
    }
  }

  // ---------------------------------------------------------------------
  // Escaping

  function EscapeChar(c: char): string
  {
    if c == '\\' then "\\\\" else if c == '"' then "\\\"" else if c == '\n' then "\\n" else [c]
  }

  /** The msgid escaping, one character at a time. */
  function Escape(s: string): (r: string)
    ensures '\n' !in r
    decreases |s|
  {
    if |s| == 0 then "" else EscapeChar(s[0]) + Escape(s[1..])
  }

  /** The escaping as update-pot.py writes it: three replacements in a row. */
  function EscapeChained(s: string): string
  {
    ReplaceAll(ReplaceAll(ReplaceAll(s, "\\", "\\\\"), "\"", "\\\""), "\n", "\\n")
  }

  /** The three replacements in that order escape each character on its own. */
  lemma {:induction false} EscapeChainedIsEscape(s: string)
    ensures EscapeChained(s) == Escape(s)
    decreases |s|
  {
    if |s| > 0 {
      var c, t := s[0], s[1..];
      assert s == [c] + t;
      ReplaceCharAppend([c], t, '\\', "\\\\");
      var a1, b1 := ReplaceAll([c], "\\", "\\\\"), ReplaceAll(t, "\\", "\\\\");
      ReplaceCharAppend(a1, b1, '"', "\\\"");
      var a2, b2 := ReplaceAll(a1, "\"", "\\\""), ReplaceAll(b1, "\"", "\\\"");
      ReplaceCharAppend(a2, b2, '\n', "\\n");
      EscapeChainedIsEscape(t);
      EscapeOneChar(c);
    }
  }

  lemma EscapeOneChar(c: char)
    ensures EscapeChained([c]) == EscapeChar(c)
  {
    var s1 := ReplaceAll([c], "\\", "\\\\");
    if c == '\\' {
      assert s1 == "\\\\" by { assert ReplaceAll([c][1..], "\\", "\\\\") == ""; }
      assert !Contains(s1, "\"") by { ContainsChar(s1, '"'); }
      ReplaceAllAbsent(s1, "\"", "\\\"");
      assert !Contains(s1, "\n") by { ContainsChar(s1, '\n'); }
      ReplaceAllAbsent(s1, "\n", "\\n");
    } else if c == '"' {
      assert s1 == [c] by { assert !Contains([c], "\\") by { ContainsChar([c], '\\'); } ReplaceAllAbsent([c], "\\", "\\\\"); }
      var s2 := ReplaceAll(s1, "\"", "\\\"");
      assert s2 == "\\\"" by { assert ReplaceAll([c][1..], "\"", "\\\"") == ""; }
      assert !Contains(s2, "\n") by { ContainsChar(s2, '\n'); }
      ReplaceAllAbsent(s2, "\n", "\\n");
    } else if c == '\n' {
      assert s1 == [c] by { assert !Contains([c], "\\") by { ContainsChar([c], '\\'); } ReplaceAllAbsent([c], "\\", "\\\\"); }
      assert !Contains(s1, "\"") by { ContainsChar(s1, '"'); }
      ReplaceAllAbsent(s1, "\"", "\\\"");
      assert ReplaceAll([c][1..], "\n", "\\n") == "";
    } else {
      assert !Contains([c], "\\") by { ContainsChar([c], '\\'); }
      ReplaceAllAbsent([c], "\\", "\\\\");
      assert !Contains([c], "\"") by { ContainsChar([c], '"'); }
      ReplaceAllAbsent([c], "\"", "\\\"");
      assert !Contains([c], "\n") by { ContainsChar([c], '\n'); }
      ReplaceAllAbsent([c], "\n", "\\n");
    }
  }

  /** Reading a backslash escape of a PO string, as section 3 of the gettext manual defines them. */
  function UnescapeChar(c: char): char
  {
    if c == 'n' then '\n' else if c == 't' then '\t' else if c == 'r' then '\r' else c
  }

  function Unescape(s: string): string
    decreases |s|
  {
    if |s| == 0 then ""
    else if s[0] == '\\' && |s| >= 2 then [UnescapeChar(s[1])] + Unescape(s[2..])
    else [s[0]] + Unescape(s[1..])
  }

  /** Un-escaping a written msgid recovers the original string. */
  lemma {:induction false} UnescapeEscape(s: string)
    ensures Unescape(Escape(s)) == s
    decreases |s|
  {
    if |s| > 0 {
      var e := EscapeChar(s[0]);
      var rest := Escape(s[1..]);
      UnescapeEscape(s[1..]);
      if s[0] == '\\' || s[0] == '"' || s[0] == '\n' {
        assert (e + rest)[2..] == rest;
      } else {
        assert (e + rest)[1..] == rest;
      }
      assert s == [s[0]] + s[1..];
    }
  }

  // ---------------------------------------------------------------------
  // generate_pot

  /** A `strftime('%Y-%m-%d %H:%M+0000')` stamp: digits and punctuation only. */
  predicate IsTimestamp(now: string)
  {
    forall i :: 0 <= i < |now| ==> now[i] in "0123456789-:+ "
  }

  /** The charset the header's Content-Type field declares. */
  const Utf8Charset: string := "charset=UTF-8"

  /** The header lines, each the text of one quoted PO string without the trailing escape. */
  function HeaderFields(now: string): seq<string>
  {
    [ "Project-Id-Version: WP Clean Admin 1.8.0",
      "Report-Msgid-Bugs-To: https://github.com/sutchan/WP-Clean-Admin",
      "POT-Creation-Date: " + now,
      "PO-Revision-Date: ",
      "Last-Translator: ",
      "Language-Team: ",
      "MIME-Version: 1.0",
      "Content-Type: text/plain; " + Utf8Charset,
      "Content-Transfer-Encoding: 8bit",
      "X-Generator: Custom Script",
      "X-Poedit-Basepath: ..",
      "X-Poedit-KeywordsList: __;_e;_x",
      "X-Poedit-SearchPath-0: ." ]
  }

  /** Each field followed by `nl` inside its quotes, one per line. */
  function QuotedFields(fields: seq<string>, nl: string): string
  {
    if |fields| == 0 then "" else "\"" + fields[0] + nl + "\"\n" + QuotedFields(fields[1..], nl)
  }

  /**
   * The header as written: the Python `\n` inside the non-raw f-string is a
   * real line break, so each field's closing quote lands on a line of its own.
   */
  function PotHeaderAsWritten(now: string): string
  {
    "\nmsgid \"\"\nmsgstr \"\"\n" + QuotedFields(HeaderFields(now), "\n")
  }

  /** The header with each field ending in the two characters backslash and n, as PO strings need. */
  function PotHeader(now: string): (h: string)
  {
    "\nmsgid \"\"\nmsgstr \"\"\n" + QuotedFields(HeaderFields(now), "\\n")
  }

  function PotEntry(s: string): string
  {
    "\n" + "msgid \"" + Escape(s) + "\"" + "\n" + "msgstr \"\"" + "\n"
  }

  function EntryList(xs: seq<string>): (r: seq<string>)
    ensures |r| == |xs| && forall k :: 0 <= k < |xs| ==> r[k] == PotEntry(xs[k])
  {
    seq(|xs|, k requires 0 <= k < |xs| => PotEntry(xs[k]))
  }

  function PotEntries(xs: seq<string>): string
  {
    Concat(EntryList(xs))
  }

  function Concat(parts: seq<string>): string
  {
    if |parts| == 0 then "" else Concat(parts[..|parts| - 1]) + parts[|parts| - 1]
  }

  method GeneratePot(strings: seq<string>, now: string) returns (pot: string)
    ensures pot == PotHeader(now) + PotEntries(SortStrings(strings))
  {
    var header := PotHeader(now);
    var sorted := SortStrings(strings);
    var entries: seq<string> := [];
    var i := 0;
    while i < |sorted|
      invariant 0 <= i <= |sorted|
      invariant entries == EntryList(sorted[..i])
    {
      entries := entries + [PotEntry(sorted[i])];
      i := i + 1;
    }
    assert sorted[..i] == sorted;
    pot := header + Concat(entries);
  }

  /** A line that opens a PO string also closes it. */
  predicate QuotedLineClosed(l: string)
  {
    |l| > 0 && l[0] == '"' ==> |l| >= 2 && l[|l| - 1] == '"'
  }

  /** The corrected header fields: one line each. */
  function FieldLines(fields: seq<string>): (ls: seq<string>)
    ensures |ls| == |fields|
    ensures forall k :: 0 <= k < |fields| ==> ls[k] == "\"" + fields[k] + "\\n\""
  {
    if |fields| == 0 then [] else ["\"" + fields[0] + "\\n\""] + FieldLines(fields[1..])
  }

  /** The header fields as written: the string's text on one line, its closing quote on the next. */
  function FieldLinesAsWritten(fields: seq<string>): (ls: seq<string>)
    ensures |ls| == 2 * |fields|
  {
    if |fields| == 0 then [] else ["\"" + fields[0], "\""] + FieldLinesAsWritten(fields[1..])
  }

  lemma {:induction false} QuotedFieldsLines(fields: seq<string>)
    ensures QuotedFields(fields, "\\n") == Lines(FieldLines(fields))
    ensures QuotedFields(fields, "\n") == Lines(FieldLinesAsWritten(fields))
  {
    if |fields| > 0 {
      QuotedFieldsLines(fields[1..]);
      var ls := FieldLinesAsWritten(fields);
      assert ls[1..] == ["\""] + FieldLinesAsWritten(fields[1..]);
      assert ls[1..][1..] == FieldLinesAsWritten(fields[1..]);
    }
  }

  const HeaderStart: seq<string> := ["", "msgid \"\"", "msgstr \"\""]

  lemma HeaderStartLines()
    ensures Lines(HeaderStart) == "\nmsgid \"\"\nmsgstr \"\"\n"
  {
    assert HeaderStart[1..] == ["msgid \"\"", "msgstr \"\""];
    assert HeaderStart[1..][1..] == ["msgstr \"\""];
  }

  function EntryLines(s: string): seq<string>
  {
    ["", "msgid \"" + Escape(s) + "\"", "msgstr \"\""]
  }

  function AllEntryLines(xs: seq<string>): seq<string>
  {
    if |xs| == 0 then [] else AllEntryLines(xs[..|xs| - 1]) + EntryLines(xs[|xs| - 1])
  }

  lemma EntryAsLines(s: string)
    ensures PotEntry(s) == Lines(EntryLines(s))
  {
    LinesThree("", "msgid \"" + Escape(s) + "\"", "msgstr \"\"");
    EntryRegroup("msgid \"", Escape(s), "\"", "msgstr \"\"");
  }

  lemma LinesThree(a: string, b: string, c: string)
    ensures Lines([a, b, c]) == a + "\n" + (b + "\n" + (c + "\n" + ""))
  {
    assert [c][1..] == [];
    assert Lines([c]) == c + "\n" + "";
    assert [b, c][1..] == [c];
    assert Lines([b, c]) == b + "\n" + Lines([c]);
    assert [a, b, c][1..] == [b, c];
    assert Lines([a, b, c]) == a + "\n" + Lines([b, c]);
  }

  lemma EntryRegroup(p: string, e: string, q: string, r: string)
    ensures "\n" + p + e + q + "\n" + r + "\n" == "" + "\n" + (p + e + q + "\n" + (r + "\n" + ""))
  {
  }

  lemma EntriesAsLines(xs: seq<string>)
    ensures PotEntries(xs) == Lines(AllEntryLines(xs))
    ensures NoNewlines(AllEntryLines(xs))
    ensures forall l :: l in AllEntryLines(xs) ==> QuotedLineClosed(l)
  {
    EntriesText(xs);
    var ls := AllEntryLines(xs);
    forall l | l in ls ensures '\n' !in l && QuotedLineClosed(l) {
      var k := EntryLinesIn(xs, l);
      EntryLinesShape(xs[k], l);
    }
    assert forall k :: 0 <= k < |ls| ==> ls[k] in ls;
  }

  lemma {:induction false} EntriesText(xs: seq<string>)
    ensures PotEntries(xs) == Lines(AllEntryLines(xs))
    decreases |xs|
  {
    if |xs| > 0 {
      var init, x := xs[..|xs| - 1], xs[|xs| - 1];
      EntriesText(init);
      assert EntryList(xs) == EntryList(init) + [PotEntry(x)];
      ConcatAppend(EntryList(init), [PotEntry(x)]);
      assert Concat([PotEntry(x)]) == Concat([]) + PotEntry(x);
      EntryAsLines(x);
      LinesAppend(AllEntryLines(init), EntryLines(x));
    } else {
      assert EntryList(xs) == [];
    }
  }

  /** Every line of the entries is a line of one entry. */
  lemma {:induction false} EntryLinesIn(xs: seq<string>, l: string) returns (k: nat)
    requires l in AllEntryLines(xs)
    ensures k < |xs| && l in EntryLines(xs[k])
    decreases |xs|
  {
    var init := xs[..|xs| - 1];
    if l in EntryLines(xs[|xs| - 1]) {
      k := |xs| - 1;
    } else {
      k := EntryLinesIn(init, l);
      assert init[k] == xs[k];
    }
  }

  /** An entry's lines hold no newline and close every PO string they open. */
  lemma EntryLinesShape(x: string, l: string)
    requires l in EntryLines(x)
    ensures '\n' !in l && QuotedLineClosed(l)
  {
    var m := "msgid \"" + Escape(x) + "\"";
    assert l == "" || l == m || l == "msgstr \"\"";
    if l == m {
      assert '\n' !in "msgid \"" && '\n' !in Escape(x);
    }
  }

  /** The lines of the catalogue written with the corrected header. */
  function PotLines(now: string, xs: seq<string>): seq<string>
  {
    HeaderStart + FieldLines(HeaderFields(now)) + AllEntryLines(xs)
  }

  /**
   * The catalogue update-pot.py would write with the corrected header is a
   * sequence of lines each of which, when it opens a quoted PO string, also
   * closes it; the entry part cuts at its newlines into exactly its lines.
   */
  lemma PotLinesClosed(strings: seq<string>, now: string)
    ensures PotHeader(now) + PotEntries(SortStrings(strings)) == Lines(PotLines(now, SortStrings(strings)))
    ensures forall l :: l in PotLines(now, SortStrings(strings)) ==> QuotedLineClosed(l)
    ensures Split(PotEntries(SortStrings(strings)), '\n') == AllEntryLines(SortStrings(strings)) + [""]
  {
    var fs := HeaderFields(now);
    var xs := SortStrings(strings);
    var hl, el := HeaderStart + FieldLines(fs), AllEntryLines(xs);
    assert Lines(hl) == PotHeader(now) by {
      HeaderStartLines();
      QuotedFieldsLines(fs);
      LinesAppend(HeaderStart, FieldLines(fs));
    }
    EntriesAsLines(xs);
    SplitLines(el);
    LinesAppend(hl, el);
    HeaderLinesClosed(fs);
  }

  /** The corrected header's lines close every PO string they open. */
  lemma HeaderLinesClosed(fs: seq<string>)
    ensures forall l :: l in HeaderStart + FieldLines(fs) ==> QuotedLineClosed(l)
  {
    forall l | l in HeaderStart + FieldLines(fs) ensures QuotedLineClosed(l) {
      if l in FieldLines(fs) {
        var k :| 0 <= k < |fs| && FieldLines(fs)[k] == l;
      } else {
        assert l in HeaderStart;
      }
    }
  }

  /**
   * The header as written breaks every field's PO string across two lines:
   * the line after the first field's text is a lone quote, which opens a
   * string and does not close it.
   */
  lemma PotHeaderAsWrittenBroken(now: string)
    ensures PotHeaderAsWritten(now) == Lines(HeaderStart + FieldLinesAsWritten(HeaderFields(now)))
    ensures (HeaderStart + FieldLinesAsWritten(HeaderFields(now)))[4] == "\""
    ensures !QuotedLineClosed((HeaderStart + FieldLinesAsWritten(HeaderFields(now)))[4])
  {
    var fs := HeaderFields(now);
    HeaderStartLines();
    QuotedFieldsLines(fs);
    LinesAppend(HeaderStart, FieldLinesAsWritten(fs));
    assert FieldLinesAsWritten(fs)[1] == "\"";
  }

  /** The header declares the UTF-8 charset. */
  lemma PotHeaderCharset(now: string)
    ensures Contains(PotHeader(now), Utf8Charset)
  {
    FieldEndContained(HeaderFields(now), 7, "Content-Type: text/plain; ", Utf8Charset);
    ContainsAppendLeft("\nmsgid \"\"\nmsgstr \"\"\n", QuotedFields(HeaderFields(now), "\\n"), Utf8Charset);
  }

  /** What a header field ends with is in the quoted header. */
  lemma FieldEndContained(fs: seq<string>, k: nat, lead: string, t: string)
    requires k < |fs| && fs[k] == lead + t
    ensures Contains(QuotedFields(fs, "\\n"), t)
  {
    var line := "\"" + fs[k];
    SuffixContained("\"" + lead, t, line);
    ContainsFieldLine(fs, k, "\\n", line);
    ContainsTrans(QuotedFields(fs, "\\n"), line, t);
  }

  lemma SuffixContained(lead: string, t: string, s: string)
    requires s == lead + t
    ensures Contains(s, t)
  {
    assert OccursAt(s, t, |lead|);
    ContainsAt(s, t, |lead|);
  }

  lemma {:induction false} ContainsFieldLine(fields: seq<string>, k: nat, nl: string, line: string)
    requires k < |fields| && line == "\"" + fields[k]
    ensures Contains(QuotedFields(fields, nl), line)
  {
    var rest := QuotedFields(fields[1..], nl);
    if k == 0 {
      assert IsPrefix(line, QuotedFields(fields, nl)) by {
        assert QuotedFields(fields, nl) == line + (nl + "\"\n" + rest);
      }
      assert OccursAt(QuotedFields(fields, nl), line, 0);
      ContainsAt(QuotedFields(fields, nl), line, 0);
    } else {
      ContainsFieldLine(fields[1..], k - 1, nl, line);
      ContainsAppendLeft("\"" + fields[0] + nl + "\"\n", rest, line);
    }
  }

  lemma ContainsTrans(s: string, t: string, u: string)
    requires Contains(s, t) && Contains(t, u)
    ensures Contains(s, u)
  {
    ContainsIndex(s, t);
    var k: nat :| OccursAt(s, t, k);
    ContainsWithin(s, u, k, k + |t|) by {
      assert s[k..k + |t|] == t;
    }
  }

  lemma {:induction false} ConcatAppend(xs: seq<string>, ys: seq<string>)
    ensures Concat(xs + ys) == Concat(xs) + Concat(ys)
    decreases |ys|
  {
    if |ys| == 0 {
      assert xs + ys == xs;
    } else {
      var zs := xs + ys;
      assert zs[..|zs| - 1] == xs + ys[..|ys| - 1];
      ConcatAppend(xs, ys[..|ys| - 1]);
    }
  }

  lemma PotEntriesAppend(xs: seq<string>, ys: seq<string>)
    ensures PotEntries(xs + ys) == PotEntries(xs) + PotEntries(ys)
  {
    assert EntryList(xs + ys) == EntryList(xs) + EntryList(ys);
    ConcatAppend(EntryList(xs), EntryList(ys));
  }

  /**
   * After the header come the entries, one per string, ascending: the k-th
   * entry is the escaped k-th smallest string with an empty msgstr.
   */
  lemma PotEntriesShape(xs: seq<string>, k: nat)
    requires k < |xs|
    ensures PotEntries(xs) == PotEntries(xs[..k]) + PotEntry(xs[k]) + PotEntries(xs[k + 1..])
  {
    var es := EntryList(xs);
    assert es == EntryList(xs[..k]) + [PotEntry(xs[k])] + EntryList(xs[k + 1..]);
    ConcatAppend(EntryList(xs[..k]) + [PotEntry(xs[k])], EntryList(xs[k + 1..]));
    ConcatAppend(EntryList(xs[..k]), [PotEntry(xs[k])]);
    assert Concat([PotEntry(xs[k])]) == Concat([]) + PotEntry(xs[k]);
  }
}
