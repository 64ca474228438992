/**
 * translation-debug.php: the translation debug page. The model covers
 * the grouping of catalogue file names by locale, the regular-expression
 * PO reader, and the rules for the test table and the catalogue preview.
 * The directory listing, the file contents, the locale and the gettext
 * function are parameters; the HTML output is not modelled.
 */
module TranslationDebug {
  import opened Wrappers
  import opened PhpStrings
  import opened PhpValues
  import opened MoFormat
  import opened PoText

  const Domain: string := "wp-clean-admin"

  /** What every catalogue name starts with. */
  const Prefix: string := Domain + "-"

  // ---------------------------------------------------------------------
  // File names: /^wp-clean-admin-(.+?)\.(po|mo)$/

  /**
   * The locale and the type a file name matches with. Without flags `.`
   * does not match a newline and `$` also matches before a final newline.
   */
  function MatchName(file: string): Option<(string, string)>
  {
    if IsPrefix(Prefix, file) then MatchRest(file[|Prefix|..]) else None
  }

  /** `(.+?)\.(po|mo)$` over what follows the prefix. */
  function MatchRest(rest: string): Option<(string, string)>
  {
    var body := if |rest| > 0 && rest[|rest| - 1] == '\n' then rest[..|rest| - 1] else rest;
    if |body| >= 4 && (body[|body| - 3..] == ".po" || body[|body| - 3..] == ".mo") && '\n' !in body[..|body| - 3]
    then Some((body[..|body| - 3], body[|body| - 2..]))
    else None
  }

  /** The names the pattern accepts for locale l and type t. */
  predicate NamedFor(file: string, l: string, t: string)
  {
    file == Prefix + (l + "." + t) || file == Prefix + (l + "." + t + "\n")
  }

  /** A name ending in a three-character extension is its stem, a dot and the extension. */
  lemma ExtSplit(body: string)
    requires |body| >= 4 && body[|body| - 3] == '.'
    ensures body == body[..|body| - 3] + "." + body[|body| - 2..]
  {
  }

  /** The accepted rests for locale l and type t. */
  predicate RestFor(rest: string, l: string, t: string)
  {
    (t == "po" || t == "mo") && |l| > 0 && '\n' !in l && (rest == l + "." + t || rest == l + "." + t + "\n")
  }

  lemma MatchRestComplete(rest: string, l: string, t: string)
    requires RestFor(rest, l, t)
    ensures MatchRest(rest) == Some((l, t))
  {
    var body := l + "." + t;
    assert body[|body| - 3..] == "." + t;
    assert body[..|body| - 3] == l;
    assert body[|body| - 2..] == t;
    if rest == body + "\n" {
      assert rest[..|rest| - 1] == body;
    }
  }

  lemma MatchRestSound(rest: string)
    requires MatchRest(rest).Some?
    ensures RestFor(rest, MatchRest(rest).value.0, MatchRest(rest).value.1)
  {
    var body := if |rest| > 0 && rest[|rest| - 1] == '\n' then rest[..|rest| - 1] else rest;
    ExtSplit(body);
    if |rest| > 0 && rest[|rest| - 1] == '\n' {
      assert rest == body + "\n";
    }
  }

  /** A text starts with p and goes on with r iff it is p + r. */
  lemma PrefixSplit(p: string, file: string, r: string)
    ensures file == p + r <==> IsPrefix(p, file) && file[|p|..] == r
  {
    if IsPrefix(p, file) && file[|p|..] == r {
      assert file == file[..|p|] + file[|p|..];
    }
  }

  /** A name matches with (l, t) iff it is the domain, a dash, a non-empty one-line locale, a dot and po or mo. */
  lemma MatchNameIff(file: string, l: string, t: string)
    ensures MatchName(file) == Some((l, t)) <==> (t == "po" || t == "mo") && |l| > 0 && '\n' !in l && NamedFor(file, l, t)
  {
    PrefixSplit(Prefix, file, l + "." + t);
    PrefixSplit(Prefix, file, l + "." + t + "\n");
    if IsPrefix(Prefix, file) {
      var rest := file[|Prefix|..];
      if RestFor(rest, l, t) {
        MatchRestComplete(rest, l, t);
      }
      if MatchRest(rest).Some? {
        MatchRestSound(rest);
      }
    }
  }

  // ---------------------------------------------------------------------
  // wpca_get_available_translations

  /** `$available[$locale]`, which is always an array once set. */
  function Inner(a: seq<Entry>, k: Key): seq<Entry>
  {
    var v := Lookup(a, k);
    if v.Some? && v.value.VArr? then v.value.entries else []
  }

  /** `$available[$locale][$type] = $path`. */
  function PutPath(a: seq<Entry>, locale: Key, kind: Key, path: Value): (r: seq<Entry>)
    ensures Lookup(r, locale) == Some(VArr(Put(Inner(a, locale), kind, path)))
  {
    PutLookup(a, locale, VArr(Put(Inner(a, locale), kind, path)), locale);
    Put(a, locale, VArr(Put(Inner(a, locale), kind, path)))
  }

  /** The array the loop builds from the directory dir and its listing files. */
  function Grouped(dir: string, files: seq<string>): seq<Entry>
  {
    if |files| == 0 then []
    else
      var f := files[|files| - 1];
      var a := Grouped(dir, files[..|files| - 1]);
      match MatchName(f)
      case None => a
      case Some((l, t)) => PutPath(a, KeyOf(l), KeyOf(t), VStr(dir + f))
  }

  /** The last name in files that matches with locale l and type t. */
  function LastFile(files: seq<string>, l: string, t: string): Option<string>
  {
    if |files| == 0 then None
    else if MatchName(files[|files| - 1]) == Some((l, t)) then Some(files[|files| - 1])
    else LastFile(files[..|files| - 1], l, t)
  }

  /** Some name in files matches with a locale whose key is k. */
  predicate LocaleNamed(files: seq<string>, k: Key)
  {
    if |files| == 0 then false
    else
      var m := MatchName(files[|files| - 1]);
      (m.Some? && KeyOf(m.value.0) == k) || LocaleNamed(files[..|files| - 1], k)
  }

  /** Grouped over one more name of the listing. */
  lemma GroupedSnoc(dir: string, files: seq<string>, i: nat)
    requires i < |files|
    ensures var m := MatchName(files[i]); var a := Grouped(dir, files[..i]);
      Grouped(dir, files[..i + 1]) == if m.None? then a else PutPath(a, KeyOf(m.value.0), KeyOf(m.value.1), VStr(dir + files[i]))
  {
    assert files[..i + 1][..i] == files[..i];
  }

  /** The scan: nothing without the directory, otherwise one group per matching locale. */
  method GetAvailableTranslations(isDir: bool, dir: string, files: seq<string>) returns (available: seq<Entry>)
    ensures available == if isDir then Grouped(dir, files) else []
  {
    available := [];
    if isDir {
      var i := 0;
      while i < |files|
        invariant 0 <= i <= |files|
        invariant available == Grouped(dir, files[..i])
      {
        var f := files[i];
        GroupedSnoc(dir, files, i);
        var m := MatchName(f);
        if m.Some? {
          var locale := KeyOf(m.value.0);
          var kind := KeyOf(m.value.1);
          ghost var before := available;
          if !HasKey(available, locale) {
            available := Put(available, locale, VArr([]));
            PutLookup(before, locale, VArr([]), locale);
          }
          var inner := Inner(available, locale);
          assert inner == Inner(before, locale);
          PutTwice(before, locale, VArr([]), VArr(Put(inner, kind, VStr(dir + f))));
          available := Put(available, locale, VArr(Put(inner, kind, VStr(dir + f))));
          assert available == PutPath(before, locale, kind, VStr(dir + f));
        }
        i := i + 1;
      }
      assert files[..|files|] == files;
    }
  }

  /** The path stored under locale l and type t is the directory plus the last name made for them. */
  lemma {:induction false} GroupedPath(dir: string, files: seq<string>, l: string, t: string)
    ensures Lookup(Inner(Grouped(dir, files), KeyOf(l)), KeyOf(t))
         == if LastFile(files, l, t).Some? then Some(VStr(dir + LastFile(files, l, t).value)) else None
    decreases |files|
  {
    if |files| > 0 {
      var f := files[|files| - 1];
      var init := files[..|files| - 1];
      GroupedPath(dir, init, l, t);
      var m := MatchName(f);
      if m.Some? {
        var a := Grouped(dir, init);
        var (l', t') := m.value;
        KeyOfRoundTrip(l); KeyOfRoundTrip(l'); KeyOfRoundTrip(t); KeyOfRoundTrip(t');
        var r := PutPath(a, KeyOf(l'), KeyOf(t'), VStr(dir + f));
        PutLookup(a, KeyOf(l'), VArr(Put(Inner(a, KeyOf(l')), KeyOf(t'), VStr(dir + f))), KeyOf(l));
        if l' == l {
          PutLookup(Inner(a, KeyOf(l)), KeyOf(t'), VStr(dir + f), KeyOf(t));
        }
      }
    }
  }

  /** A locale key is present iff some matching name carries that locale. */
  lemma {:induction false} GroupedKeys(dir: string, files: seq<string>, k: Key)
    ensures HasKey(Grouped(dir, files), k) <==> LocaleNamed(files, k)
    decreases |files|
  {
    if |files| > 0 {
      var f := files[|files| - 1];
      var init := files[..|files| - 1];
      GroupedKeys(dir, init, k);
      var m := MatchName(f);
      if m.Some? {
        var a := Grouped(dir, init);
        var (l, t) := m.value;
        PutLookup(a, KeyOf(l), VArr(Put(Inner(a, KeyOf(l)), KeyOf(t), VStr(dir + f))), k);
      }
    }
  }

  /** At most one path per type: a table with distinct keys, each "po" or "mo". */
  predicate TypeTable(es: seq<Entry>)
  {
    UniqueKeys(es) && forall j :: 0 <= j < |es| ==> es[j].key == KStr("po") || es[j].key == KStr("mo")
  }

  /** Every locale holds a type table, and the locales are distinct. */
  predicate Shaped(a: seq<Entry>)
  {
    UniqueKeys(a) && forall j :: 0 <= j < |a| ==> a[j].val.VArr? && TypeTable(a[j].val.entries)
  }

  lemma InnerShaped(a: seq<Entry>, k: Key)
    requires Shaped(a)
    ensures TypeTable(Inner(a, k))
  {
    var i := IndexOfKey(a, k);
    if i >= 0 {
      assert Inner(a, k) == a[i].val.entries;
    }
  }

  /** Putting a po or mo path keeps the array shaped. */
  lemma PutPathShaped(a: seq<Entry>, locale: Key, t: string, path: Value)
    requires Shaped(a) && (t == "po" || t == "mo")
    ensures Shaped(PutPath(a, locale, KeyOf(t), path))
  {
    KeyOfWord(t);
    var inner := Inner(a, locale);
    InnerShaped(a, locale);
    PutShape(inner, KeyOf(t), path);
    var inner' := Put(inner, KeyOf(t), path);
    assert TypeTable(inner');
    PutShape(a, locale, VArr(inner'));
  }

  /** The scan's result is shaped: no locale has more than one path of each type. */
  lemma {:induction false} GroupedShaped(dir: string, files: seq<string>)
    ensures Shaped(Grouped(dir, files))
    decreases |files|
  {
    if |files| > 0 {
      var f := files[|files| - 1];
      var init := files[..|files| - 1];
      GroupedShaped(dir, init);
      var m := MatchName(f);
      if m.Some? {
        var (l, t) := m.value;
        MatchNameIff(f, l, t);
        PutPathShaped(Grouped(dir, init), KeyOf(l), t, VStr(dir + f));
      }
    }
  }

  // ---------------------------------------------------------------------
  // wpca_read_po_file: /msgid\s+"(.*?)"\s+msgstr\s+"(.*?)"/s

  /** PCRE's `\s`: space, tab, newline, vertical tab, form feed and carriage return. */
  const PcreSpace: set<char> := {' ', '\t', '\n', '\U{000B}', '\U{000C}', '\r'}

  /** The end of the run of `\s` characters that starts at p. */
  function SpaceEnd(t: string, p: nat): (e: nat)
    requires p <= |t|
    ensures p <= e <= |t|
    ensures forall i :: p <= i < e ==> t[i] in PcreSpace
    ensures e < |t| ==> t[e] !in PcreSpace
    decreases |t| - p
  {
    if p < |t| && t[p] in PcreSpace then SpaceEnd(t, p + 1) else p
  }

  /** The first quote at or after p. */
  function QuoteFrom(t: string, p: nat): (r: Option<nat>)
    requires p <= |t|
    ensures r.Some? ==> p <= r.value < |t| && t[r.value] == '"' && forall i :: p <= i < r.value ==> t[i] != '"'
    ensures r.None? ==> forall i :: p <= i < |t| ==> t[i] != '"'
    decreases |t| - p
  {
    if p == |t| then None else if t[p] == '"' then Some(p) else QuoteFrom(t, p + 1)
  }

  /** `\s+msgstr\s+"(.*?)"` at p: where the match ends, and the lazy group, which stops at the first quote. */
  function StrPart(t: string, p: nat): (r: Option<(nat, string)>)
    requires p <= |t|
    ensures r.Some? ==> p < r.value.0 <= |t|
  {
    var w := SpaceEnd(t, p);
    if w == p || |t| < w + 6 || t[w..w + 6] != "msgstr" then None
    else
      var w' := SpaceEnd(t, w + 6);
      if w' == w + 6 || w' == |t| || t[w'] != '"' then None
      else
        var q := QuoteFrom(t, w' + 1);
        if q.None? then None else Some((q.value + 1, t[w' + 1..q.value]))
  }

  /**
   * The lazy first group, opened at g: the first quote at or after j
   * after which the rest of the pattern matches closes it.
   */
  function IdPart(t: string, g: nat, j: nat): (r: Option<(nat, Message)>)
    requires g <= j <= |t|
    ensures r.Some? ==> j < r.value.0 <= |t|
    decreases |t| - j
  {
    if j == |t| then None
    else
      var r := if t[j] == '"' then StrPart(t, j + 1) else None;
      if r.Some? then Some((r.value.0, Message(t[g..j], r.value.1))) else IdPart(t, g, j + 1)
  }

  /** `msgid\s+"` at the start of t: the position of the opening quote. */
  function IdOpen(t: string): (w: Option<nat>)
    ensures w.Some? ==> 5 < w.value < |t| && t[..5] == "msgid" && t[w.value] == '"'
    ensures w.Some? ==> forall i :: 5 <= i < w.value ==> t[i] in PcreSpace
  {
    if |t| < 5 || t[..5] != "msgid" then None
    else
      var w := SpaceEnd(t, 5);
      if w == 5 || w == |t| || t[w] != '"' then None else Some(w)
  }

  /** The pattern matched at the start of t: the length of the match and its two groups. */
  function MatchAt(t: string): (r: Option<(nat, Message)>)
    ensures r.Some? ==> 0 < r.value.0 <= |t|
  {
    var w := IdOpen(t);
    if w.None? then None else IdPart(t, w.value + 1, w.value + 1)
  }

  /** preg_match_all: the matches from left to right, each search resuming where the last match ended. */
  function MatchAll(t: string): seq<Message>
    decreases |t|
  {
    if |t| == 0 then []
    else
      var m := MatchAt(t);
      if m.Some? then [m.value.1] + MatchAll(t[m.value.0..]) else MatchAll(t[1..])
  }

  /** The reader: nothing for a missing or unreadable file, otherwise each msgid keyed to its msgstr. */
  function ReadPo(content: Option<string>): seq<Entry>
  {
    if content.None? then [] else Assigned(MatchAll(content.value))
  }

  method ReadPoFile(content: Option<string>) returns (translations: seq<Entry>)
    ensures translations == ReadPo(content)
  {
    translations := [];
    if content.Some? {
      var matches := MatchAll(content.value);
      var i := 0;
      while i < |matches|
        invariant 0 <= i <= |matches|
        invariant translations == Assigned(matches[..i])
      {
        assert matches[..i + 1][..i] == matches[..i];
        translations := Put(translations, KeyOf(matches[i].original), VStr(matches[i].translation));
        i := i + 1;
      }
      assert matches[..|matches|] == matches;
    }
  }

  /** A run of `\s` characters, at least one. */
  predicate Spaces(s: string)
  {
    |s| > 0 && forall i :: 0 <= i < |s| ==> s[i] in PcreSpace
  }

  /** The text `\s+msgstr\s+"y"` with the runs of spaces s1 and s2. */
  function StrText(s1: string, s2: string, y: string): string
  {
    s1 + "msgstr" + s2 + "\"" + y + "\""
  }

  /** What the second part matched: spaces, msgstr, spaces and a quoted text without quotes. */
  lemma StrPartSound(t: string, p: nat) returns (s1: string, s2: string, e: nat, y: string)
    requires p <= |t| && StrPart(t, p).Some?
    ensures StrPart(t, p) == Some((e, y))
    ensures Spaces(s1) && Spaces(s2) && '"' !in y && p <= e <= |t| && t[p..e] == StrText(s1, s2, y)
  {
    var w := SpaceEnd(t, p);
    var w' := SpaceEnd(t, w + 6);
    var q := QuoteFrom(t, w' + 1).value;
    s1 := t[p..w];
    s2 := t[w + 6..w'];
    e := q + 1;
    y := t[w' + 1..q];
    StrSlices(t, p, w, w', q);
    assert t[w..w + 6] == "msgstr" && [t[w']] == "\"" && [t[q]] == "\"";
  }

  lemma StrSlices(t: string, p: nat, w: nat, w': nat, q: nat)
    requires p <= w && w + 6 <= w' < q < |t|
    ensures t[p..q + 1] == t[p..w] + t[w..w + 6] + t[w + 6..w'] + [t[w']] + t[w' + 1..q] + [t[q]]
  {
  }

  /** Where the lazy first group closed: the quote at c, after which the second part matched. */
  lemma {:induction false} IdPartSound(t: string, g: nat, j: nat) returns (c: nat, e: nat, y: string, s1: string, s2: string)
    requires 0 < g <= j <= |t| && IdPart(t, g, j).Some?
    ensures j <= c < e <= |t| && t[c] == '"'
    ensures IdPart(t, g, j) == Some((e, Message(t[g..c], y)))
    ensures Spaces(s1) && Spaces(s2) && '"' !in y && t[c + 1..e] == StrText(s1, s2, y)
    decreases |t| - j
  {
    if t[j] == '"' && StrPart(t, j + 1).Some? {
      c := j;
      e, y, s1, s2 := IdPartHere(t, g, j);
    } else {
      IdPartNext(t, g, j);
      c, e, y, s1, s2 := IdPartSound(t, g, j + 1);
    }
  }

  lemma IdPartHere(t: string, g: nat, j: nat) returns (e: nat, y: string, s1: string, s2: string)
    requires g <= j < |t| && t[j] == '"' && StrPart(t, j + 1).Some?
    ensures j < e <= |t| && IdPart(t, g, j) == Some((e, Message(t[g..j], y)))
    ensures Spaces(s1) && Spaces(s2) && '"' !in y && t[j + 1..e] == StrText(s1, s2, y)
  {
    s1, s2, e, y := StrPartSound(t, j + 1);
  }

  lemma IdPartNext(t: string, g: nat, j: nat)
    requires g <= j < |t| && !(t[j] == '"' && StrPart(t, j + 1).Some?)
    ensures IdPart(t, g, j) == IdPart(t, g, j + 1)
  {
  }

  /** The cut points of a match. */
  lemma SliceParts(t: string, w: nat, c: nat, n: nat)
    requires 5 <= w < c < n <= |t|
    ensures t[..n] == t[..5] + t[5..w] + [t[w]] + t[w + 1..c] + [t[c]] + t[c + 1..n]
  {
  }

  /** Soundness of the matcher: what it consumed is the pattern, with the groups in their places. */
  lemma MatchAtSound(t: string) returns (s0: string, s1: string, s2: string)
    requires MatchAt(t).Some?
    ensures var (n, m) := MatchAt(t).value;
      Spaces(s0) && Spaces(s1) && Spaces(s2) && '"' !in m.translation
      && t[..n] == "msgid" + s0 + "\"" + m.original + "\"" + StrText(s1, s2, m.translation)
  {
    var w := IdOpen(t).value;
    var c, n, y;
    c, n, y, s1, s2 := IdPartSound(t, w + 1, w + 1);
    var x := t[w + 1..c];
    assert MatchAt(t) == Some((n, Message(x, y)));
    s0 := t[5..w];
    SliceParts(t, w, c, n);
    assert [t[w]] == "\"" && [t[c]] == "\"";
    MatchText(t[..n], t[..5], s0, [t[w]], x, [t[c]], t[c + 1..n]);
  }

  lemma MatchText(u: string, a: string, b: string, c: string, d: string, e: string, f: string)
    requires u == a + b + c + d + e + f
    ensures u == a + b + c + d + e + f
  {
  }

  // Reading what a writer produces

  /** The two lines of a message, as a PO writer puts them. */
  function Block(m: Message): string
  {
    IdLine(m.original) + "\n" + StrLine(m.translation) + "\n"
  }

  /** No text of any message holds a quote. */
  predicate Unquoted(ms: seq<Message>)
  {
    forall k :: 0 <= k < |ms| ==> '"' !in ms[k].original && '"' !in ms[k].translation
  }

  /** Skipping quote-free text while looking for the end of the first group. */
  lemma {:induction false} IdPartSkip(t: string, g: nat, j: nat, k: nat)
    requires g <= j <= k <= |t|
    requires forall i :: j <= i < k ==> t[i] != '"'
    ensures IdPart(t, g, j) == IdPart(t, g, k)
    decreases k - j
  {
    if j < k {
      IdPartSkip(t, g, j + 1, k);
    }
  }

  /** The second part over `\nmsgstr "y"`. */
  lemma StrPartAt(t: string, p: nat, q: nat)
    requires p + 9 <= q < |t|
    requires t[p] == '\n' && t[p + 1..p + 7] == "msgstr" && t[p + 7] == ' ' && t[p + 8] == '"' && t[q] == '"'
    requires forall i :: p + 9 <= i < q ==> t[i] != '"'
    ensures StrPart(t, p) == Some((q + 1, t[p + 9..q]))
  {
    assert SpaceEnd(t, p + 1) == p + 1;
    assert SpaceEnd(t, p) == p + 1;
    assert SpaceEnd(t, p + 8) == p + 8;
    assert SpaceEnd(t, p + 7) == p + 8;
  }

  /** The characters of a block followed by more text. */
  predicate BlockAt(t: string, x: string, y: string)
  {
    var q := 7 + |x|;
    |t| >= q + 12 + |y|
    && t[..5] == "msgid" && t[5] == ' ' && t[6] == '"' && t[7..q] == x && t[q] == '"'
    && t[q + 1] == '\n' && t[q + 2..q + 8] == "msgstr" && t[q + 8] == ' ' && t[q + 9] == '"'
    && t[q + 10..q + 10 + |y|] == y && t[q + 10 + |y|] == '"' && t[q + 11 + |y|] == '\n'
  }

  lemma BlockChars(x: string, y: string, rest: string)
    ensures BlockAt(Block(Message(x, y)) + rest, x, y)
    ensures |Block(Message(x, y))| == 7 + |x| + 12 + |y|
    ensures (Block(Message(x, y)) + rest)[7 + |x| + 11 + |y|..] == "\n" + rest
  {
    var t := Block(Message(x, y)) + rest;
    assert t == "msgid \"" + x + "\"\nmsgstr \"" + y + "\"\n" + rest;
  }

  /** `msgid "` opens the first group after one space. */
  lemma IdOpenAt(t: string)
    requires |t| > 6 && t[..5] == "msgid" && t[5] == ' ' && t[6] == '"'
    ensures IdOpen(t) == Some(6)
  {
    assert SpaceEnd(t, 6) == 6;
    assert SpaceEnd(t, 5) == 6;
  }

  /** A block without quotes in its texts matches at its start, up to the closing quote of msgstr. */
  lemma MatchBlockAt(t: string, x: string, y: string)
    requires BlockAt(t, x, y) && '"' !in x && '"' !in y
    ensures MatchAt(t) == Some((7 + |x| + 11 + |y|, Message(x, y)))
  {
    var q := 7 + |x|;
    IdOpenAt(t);
    assert forall i :: q + 10 <= i < q + 10 + |y| ==> t[i] == y[i - q - 10];
    StrPartAt(t, q + 1, q + 10 + |y|);
    var e := q + 11 + |y|;
    assert StrPart(t, q + 1) == Some((e, y));
    assert IdPart(t, 7, q) == Some((e, Message(x, y)));
    assert forall i :: 7 <= i < q ==> t[i] == x[i - 7];
    IdPartSkip(t, 7, 7, q);
  }

  /** The lines of the messages, read from the front. */
  lemma {:induction false} RenderLinesFront(ms: seq<Message>)
    requires |ms| > 0
    ensures RenderLines(ms) == [IdLine(ms[0].original), StrLine(ms[0].translation)] + RenderLines(ms[1..])
    decreases |ms|
  {
    if |ms| > 1 {
      var init := ms[..|ms| - 1];
      RenderLinesFront(init);
      assert init[1..] == ms[1..][..|ms[1..]| - 1];
    }
  }

  lemma LinesPair(a: string, b: string, r: seq<string>)
    ensures Lines([a, b] + r) == a + "\n" + b + "\n" + Lines(r)
  {
    assert ([a, b] + r)[1..] == [b] + r;
    assert ([b] + r)[1..] == r;
    assert Lines([b] + r) == b + "\n" + Lines(r);
    assert Lines([a, b] + r) == a + "\n" + (b + "\n" + Lines(r));
  }

  /** The text of the messages is the first block followed by the text of the rest. */
  lemma TextFront(ms: seq<Message>)
    requires |ms| > 0
    ensures Lines(RenderLines(ms)) == Block(ms[0]) + Lines(RenderLines(ms[1..]))
  {
    RenderLinesFront(ms);
    var a := IdLine(ms[0].original);
    var b := StrLine(ms[0].translation);
    var r := RenderLines(ms[1..]);
    LinesPair(a, b, r);
  }

  /** A text starting with a newline has no match at its start. */
  lemma MatchAllNewline(t: string)
    requires |t| > 0 && t[0] == '\n'
    ensures MatchAll(t) == MatchAll(t[1..])
  {
    if |t| >= 5 {
      assert t[..5][0] == '\n';
    }
  }

  /** Reading back the text of quote-free messages gives the messages, in order, duplicates included. */
  lemma {:induction false} MatchAllRender(ms: seq<Message>)
    requires Unquoted(ms)
    ensures MatchAll(Lines(RenderLines(ms))) == ms
    decreases |ms|
  {
    if |ms| > 0 {
      var m := ms[0];
      var rest := Lines(RenderLines(ms[1..]));
      TextFront(ms);
      var t := Block(m) + rest;
      BlockChars(m.original, m.translation, rest);
      MatchBlockAt(t, m.original, m.translation);
      var n := 7 + |m.original| + 11 + |m.translation|;
      MatchAllBlock(t, rest, n, m);
      assert Unquoted(ms[1..]);
      MatchAllRender(ms[1..]);
      assert MatchAll(t) == [m] + ms[1..];
      assert ms == [m] + ms[1..];
    } else {
      assert Lines(RenderLines(ms)) == [];
    }
  }

  /** A match at the start is reported, and the search resumes after it. */
  lemma MatchAllStep(t: string, n: nat, m: Message)
    requires MatchAt(t) == Some((n, m))
    ensures MatchAll(t) == [m] + MatchAll(t[n..])
  {
  }

  /** A match followed by a newline: the search goes on with what follows the newline. */
  lemma MatchAllBlock(t: string, rest: string, n: nat, m: Message)
    requires MatchAt(t) == Some((n, m)) && n < |t| && t[n..] == "\n" + rest
    ensures MatchAll(t) == [m] + MatchAll(rest)
  {
    MatchAllStep(t, n, m);
    assert t[n..][1..] == rest;
    MatchAllNewline(t[n..]);
  }

  /** Each msgid of a written catalogue maps to the msgstr of its last occurrence. */
  lemma ReadPoRender(ms: seq<Message>, x: string)
    requires Unquoted(ms)
    ensures Lookup(ReadPo(Some(Lines(RenderLines(ms)))), KeyOf(x))
         == if LastTranslation(ms, x).Some? then Some(VStr(LastTranslation(ms, x).value)) else None
  {
    MatchAllRender(ms);
    AssignedLookup(ms, x);
  }

  // ---------------------------------------------------------------------
  // The test table and the preview

  /** One row of the test table. */
  datatype Row = Row(original: string, translated: string, rowClass: string, highlighted: bool)

  /** `__($string, $domain)` when gettext exists, otherwise the string itself. */
  function Translated(s: string, hasGettext: bool, gettext: string -> string): string
  {
    if hasGettext then gettext(s) else s
  }

  /** Row k shows string s, its translation, the k-th alternating class, and the highlight rule. */
  predicate RowFor(row: Row, k: nat, s: string, hasGettext: bool, gettext: string -> string, locale: string)
  {
    row.original == s
    && row.translated == Translated(s, hasGettext, gettext)
    && (row.rowClass == if k % 2 == 0 then "alternate" else "")
    && (row.highlighted <==> row.translated == s && locale != "en_US")
  }

  /**
   * The rows for the test strings: classes alternate from "alternate",
   * and a row is highlighted iff its translation is the original itself
   * while the locale is not en_US.
   */
  method TestRows(strings: seq<string>, hasGettext: bool, gettext: string -> string, locale: string) returns (rows: seq<Row>)
    ensures |rows| == |strings|
    ensures forall k :: 0 <= k < |rows| ==> RowFor(rows[k], k, strings[k], hasGettext, gettext, locale)
  {
    rows := [];
    var rowClass := "alternate";
    var i := 0;
    while i < |strings|
      invariant 0 <= i <= |strings| && |rows| == i
      invariant rowClass == if i % 2 == 0 then "alternate" else ""
      invariant forall k :: 0 <= k < i ==> RowFor(rows[k], k, strings[k], hasGettext, gettext, locale)
    {
      var s := strings[i];
      var translated := if hasGettext then gettext(s) else s;
      var highlight := translated == s && locale != "en_US";
      rows := rows + [Row(s, translated, rowClass, highlight)];
      rowClass := if rowClass == "alternate" then "" else "alternate";
      i := i + 1;
    }
  }

  /** The preview: the entries in order, stopping once 20 have been shown. */
  method Preview(translations: seq<Entry>) returns (shown: seq<Entry>)
    ensures |shown| == if |translations| < 20 then |translations| else 20
    ensures shown == translations[..|shown|]
  {
    shown := [];
    var counter := 0;
    var i := 0;
    while i < |translations|
      invariant 0 <= i <= |translations| && counter == i && counter <= 20
      invariant shown == translations[..i]
    {
      if counter >= 20 {
        break;
      }
      shown := shown + [translations[i]];
      counter := counter + 1;
      i := i + 1;
    }
  }
}
