/**
 * The translation-call patterns of update-pot.py and check-translations.py.
 *
 * Every pattern there has the same shape: a call name, "(", a list of
 * arguments, each followed by a run of commas and whitespace, and finally
 * the quoted text domain and ")". A text argument is a quote, a lazily
 * matched non-empty payload, and a quote; either quote character may open
 * or close it. A count argument is a `$`-variable (PHP) or a bare token (JS).
 * `MatchAt` is how Python's backtracking matcher resolves such a pattern at
 * one position; `Parses` is the plain language of the pattern, with every
 * choice left open.
 */
module TranslationCalls {
  import opened Wrappers
  import opened PhpStrings

  const Domain: string := "wp-clean-admin"

  /** Length of `["']wp-clean-admin["']\)`. */
  const TailLength: nat := 17

  datatype Arg =
    | Text        // ["'](.+?)["']
    | CountVar    // \$[a-zA-Z0-9_]+
    | CountToken  // [0-9a-zA-Z_]+

  datatype Pattern = Pattern(name: string, args: seq<Arg>, dotall: bool)

  /** One result of findall: where the match starts and ends, and its groups. */
  datatype Hit = Hit(start: nat, end: nat, groups: seq<string>)

  predicate IsQuote(c: char) { c == '"' || c == '\'' }

  /** Python's `\s` in a str pattern: the characters `str.isspace` accepts. */
  predicate IsPyWhitespace(c: char)
  {
    c == ' ' || ('\t' <= c <= '\r') || ('\U{001C}' <= c <= '\U{001F}') || c == '\U{0085}' || c == '\U{00A0}'
    || c == '\U{1680}' || ('\U{2000}' <= c <= '\U{200A}') || c == '\U{2028}' || c == '\U{2029}'
    || c == '\U{202F}' || c == '\U{205F}' || c == '\U{3000}'
  }

  /** `[,\s]` */
  predicate IsSep(c: char) { c == ',' || IsPyWhitespace(c) }

  /** `[a-zA-Z0-9_]` */
  predicate IsWordChar(c: char) { ('a' <= c <= 'z') || ('A' <= c <= 'Z') || ('0' <= c <= '9') || c == '_' }

  /** `.`: any character with DOTALL, any but a newline without it. */
  predicate PayloadChar(c: char, dotall: bool) { dotall || c != '\n' }

  /** After a count argument there is always a text argument or the end of the list. */
  predicate WellFormedArgs(args: seq<Arg>)
  {
    forall k :: 0 <= k < |args| - 1 && args[k] != Text ==> args[k + 1] == Text
  }

  predicate WellFormed(p: Pattern)
  {
    |p.name| > 0 && WellFormedArgs(p.args)
  }

  function CallOpen(p: Pattern): string { p.name + "(" }

  /** `["']wp-clean-admin["']\)` at position i. */
  predicate TailAt(s: string, i: nat)
  {
    i + TailLength <= |s| && IsQuote(s[i]) && s[i + 1..i + 15] == Domain && IsQuote(s[i + 15]) && s[i + 16] == ')'
  }

  predicate SepRun(s: string, a: nat, b: nat)
  {
    a <= b <= |s| && forall m :: a <= m < b ==> IsSep(s[m])
  }

  predicate WordRun(s: string, a: nat, b: nat)
  {
    a < b <= |s| && forall m :: a <= m < b ==> IsWordChar(s[m])
  }

  predicate PayloadRun(s: string, a: nat, b: nat, dotall: bool)
  {
    a < b <= |s| && forall m :: a <= m < b ==> PayloadChar(s[m], dotall)
  }

  /** The greedy end of `[,\s]*` from a. */
  function SepEnd(s: string, a: nat): (b: nat)
    requires a <= |s|
    ensures SepRun(s, a, b)
    ensures b == |s| || !IsSep(s[b])
    decreases |s| - a
  {
    if a < |s| && IsSep(s[a]) then SepEnd(s, a + 1) else a
  }

  /** The greedy end of `[a-zA-Z0-9_]*` from a. */
  function WordEnd(s: string, a: nat): (b: nat)
    requires a <= |s|
    ensures a <= b <= |s|
    ensures forall m :: a <= m < b ==> IsWordChar(s[m])
    ensures b == |s| || !IsWordChar(s[b])
    decreases |s| - a
  {
    if a < |s| && IsWordChar(s[a]) then WordEnd(s, a + 1) else a
  }

  // ---------------------------------------------------------------------
  // The language of a pattern

  /**
   * s[i..e] matches the arguments `args` followed by the domain tail, with
   * groups `gs` (one per text argument).
   */
  ghost predicate Parses(args: seq<Arg>, dotall: bool, s: string, i: nat, e: nat, gs: seq<string>)
    decreases |args|
  {
    if |args| == 0 then gs == [] && TailAt(s, i) && e == i + TailLength
    else
      match args[0]
      case Text =>
        |gs| > 0 && var j := i + 1 + |gs[0]|;
        j < |s| && IsQuote(s[i]) && PayloadRun(s, i + 1, j, dotall) && s[i + 1..j] == gs[0] && IsQuote(s[j])
        && exists k :: SepRun(s, j + 1, k) && Parses(args[1..], dotall, s, k, e, gs[1..])
      case CountVar =>
        i < |s| && s[i] == '$'
        && exists b, k :: WordRun(s, i + 1, b) && SepRun(s, b, k) && Parses(args[1..], dotall, s, k, e, gs)
      case CountToken =>
        exists b, k :: WordRun(s, i, b) && SepRun(s, b, k) && Parses(args[1..], dotall, s, k, e, gs)
  }

  /** The whole pattern matches s[i..e]. */
  ghost predicate MatchesAt(p: Pattern, s: string, i: nat, e: nat, gs: seq<string>)
  {
    OccursAt(s, CallOpen(p), i) && Parses(p.args, p.dotall, s, i + |CallOpen(p)|, e, gs)
  }

  // ---------------------------------------------------------------------
  // The backtracking matcher

  function MatchArgs(args: seq<Arg>, dotall: bool, s: string, i: nat): (r: Option<(nat, seq<string>)>)
    requires i <= |s|
    ensures r.Some? ==> i < r.value.0 <= |s|
    decreases |args|, 1, 0
  {
    if |args| == 0 then
      var e: nat := i + TailLength;
      if TailAt(s, i) then Some((e, [])) else None
    else
      match args[0]
      case Text =>
        if i < |s| && IsQuote(s[i]) then TryPayload(args, dotall, s, i + 1, i + 2) else None
      case CountVar =>
        if i < |s| && s[i] == '$' then
          var b := WordEnd(s, i + 1);
          if b > i + 1 then MatchArgs(args[1..], dotall, s, SepEnd(s, b)) else None
        else None
      case CountToken =>
        var b := WordEnd(s, i);
        if b > i then MatchArgs(args[1..], dotall, s, SepEnd(s, b)) else None
  }

  /** `(.+?)["']`: try the payload s[a..j] for j = a+1, a+2, ... and take the first that lets the rest match. */
  function TryPayload(args: seq<Arg>, dotall: bool, s: string, a: nat, j: nat): (r: Option<(nat, seq<string>)>)
    requires |args| > 0 && 0 < a < j
    ensures r.Some? ==> a < r.value.0 <= |s|
    decreases |args|, 0, |s| - j
  {
    if j >= |s| || !PayloadChar(s[j - 1], dotall) then None
    else if IsQuote(s[j]) && MatchArgs(args[1..], dotall, s, SepEnd(s, j + 1)).Some? then
      var rest := MatchArgs(args[1..], dotall, s, SepEnd(s, j + 1)).value;
      Some((rest.0, [s[a..j]] + rest.1))
    else TryPayload(args, dotall, s, a, j + 1)
  }

  /** `re.match`-style attempt at position i. */
  function MatchAt(p: Pattern, s: string, i: nat): (r: Option<(nat, seq<string>)>)
    ensures r.Some? ==> i < r.value.0 <= |s|
  {
    if OccursAt(s, CallOpen(p), i) then MatchArgs(p.args, p.dotall, s, i + |CallOpen(p)|) else None
  }

  /** `re.findall`: leftmost matches, scanning on from the end of each. */
  function FindAll(p: Pattern, s: string, pos: nat): (hits: seq<Hit>)
    ensures forall k :: 0 <= k < |hits| ==> pos <= hits[k].start < hits[k].end <= |s|
    decreases |s| - pos
  {
    if pos >= |s| then []
    else
      match MatchAt(p, s, pos)
      case Some((e, gs)) => [Hit(pos, e, gs)] + FindAll(p, s, e)
      case None => FindAll(p, s, pos + 1)
  }

  // ---------------------------------------------------------------------
  // Soundness

  lemma {:induction false} MatchArgsSound(args: seq<Arg>, dotall: bool, s: string, i: nat)
    requires i <= |s| && MatchArgs(args, dotall, s, i).Some?
    ensures Parses(args, dotall, s, i, MatchArgs(args, dotall, s, i).value.0, MatchArgs(args, dotall, s, i).value.1)
    decreases |args|, 1, 0
  {
    var (e, gs) := MatchArgs(args, dotall, s, i).value;
    if |args| > 0 {
      match args[0]
      case Text => TryPayloadSound(args, dotall, s, i + 1, i + 2);
      case CountVar =>
        var b := WordEnd(s, i + 1);
        var k := SepEnd(s, b);
        MatchArgsSound(args[1..], dotall, s, k);
        assert WordRun(s, i + 1, b) && SepRun(s, b, k);
      case CountToken =>
        var b := WordEnd(s, i);
        var k := SepEnd(s, b);
        MatchArgsSound(args[1..], dotall, s, k);
        assert WordRun(s, i, b) && SepRun(s, b, k);
    }
  }

  lemma {:induction false} TryPayloadSound(args: seq<Arg>, dotall: bool, s: string, a: nat, j: nat)
    requires |args| > 0 && args[0] == Text && 0 < a < j && a <= |s| && IsQuote(s[a - 1])
    requires forall m :: a <= m < j - 1 && m < |s| ==> PayloadChar(s[m], dotall)
    requires TryPayload(args, dotall, s, a, j).Some?
    ensures Parses(args, dotall, s, a - 1, TryPayload(args, dotall, s, a, j).value.0, TryPayload(args, dotall, s, a, j).value.1)
    decreases |args|, 0, |s| - j
  {
    assert j < |s| && PayloadChar(s[j - 1], dotall);
    if IsQuote(s[j]) && MatchArgs(args[1..], dotall, s, SepEnd(s, j + 1)).Some? {
      TryPayloadSoundHere(args, dotall, s, a, j);
    } else {
      assert TryPayload(args, dotall, s, a, j) == TryPayload(args, dotall, s, a, j + 1);
      TryPayloadSound(args, dotall, s, a, j + 1);
    }
  }

  lemma TryPayloadSoundHere(args: seq<Arg>, dotall: bool, s: string, a: nat, j: nat)
    requires |args| > 0 && args[0] == Text && 0 < a < j < |s| && IsQuote(s[a - 1])
    requires forall m :: a <= m < j && m < |s| ==> PayloadChar(s[m], dotall)
    requires IsQuote(s[j]) && MatchArgs(args[1..], dotall, s, SepEnd(s, j + 1)).Some?
    ensures TryPayload(args, dotall, s, a, j).Some?
    ensures Parses(args, dotall, s, a - 1, TryPayload(args, dotall, s, a, j).value.0, TryPayload(args, dotall, s, a, j).value.1)
    decreases |args|, 0, 0
  {
    var k := SepEnd(s, j + 1);
    var m := MatchArgs(args[1..], dotall, s, k).value;
    MatchArgsSound(args[1..], dotall, s, k);
    assert PayloadChar(s[j - 1], dotall);
    TryPayloadHit(args, dotall, s, a, j);
    var r := TryPayload(args, dotall, s, a, j).value;
    assert r.0 == m.0 && r.1[1..] == m.1;
    assert PayloadRun(s, a, j, dotall);
    ParsesTextIntro(args, dotall, s, a - 1, r.0, r.1, k);
  }

  lemma ParsesTextIntro(args: seq<Arg>, dotall: bool, s: string, i: nat, e: nat, gs: seq<string>, k: nat)
    requires |args| > 0 && args[0] == Text && |gs| > 0
    requires i + 1 + |gs[0]| < |s| && IsQuote(s[i]) && PayloadRun(s, i + 1, i + 1 + |gs[0]|, dotall)
    requires s[i + 1..i + 1 + |gs[0]|] == gs[0] && IsQuote(s[i + 1 + |gs[0]|])
    requires SepRun(s, i + 1 + |gs[0]| + 1, k) && Parses(args[1..], dotall, s, k, e, gs[1..])
    ensures Parses(args, dotall, s, i, e, gs)
  {
  }

  lemma ParsesTextElim(args: seq<Arg>, dotall: bool, s: string, i: nat, e: nat, gs: seq<string>) returns (k: nat)
    requires |args| > 0 && args[0] == Text && Parses(args, dotall, s, i, e, gs)
    ensures |gs| > 0 && i + 1 + |gs[0]| < |s| && IsQuote(s[i]) && PayloadRun(s, i + 1, i + 1 + |gs[0]|, dotall)
    ensures s[i + 1..i + 1 + |gs[0]|] == gs[0] && IsQuote(s[i + 1 + |gs[0]|])
    ensures SepRun(s, i + 1 + |gs[0]| + 1, k) && Parses(args[1..], dotall, s, k, e, gs[1..])
  {
    k :| SepRun(s, i + 1 + |gs[0]| + 1, k) && Parses(args[1..], dotall, s, k, e, gs[1..]);
  }

  /** Every match MatchAt reports is a string of the pattern's language. */
  lemma MatchAtSound(p: Pattern, s: string, i: nat)
    requires MatchAt(p, s, i).Some?
    ensures MatchesAt(p, s, i, MatchAt(p, s, i).value.0, MatchAt(p, s, i).value.1)
  {
    MatchArgsSound(p.args, p.dotall, s, i + |CallOpen(p)|);
  }

  // ---------------------------------------------------------------------
  // Completeness and minimality

  function Lengths(gs: seq<string>): (r: seq<nat>)
    ensures |r| == |gs| && forall k :: 0 <= k < |gs| ==> r[k] == |gs[k]|
  {
    seq(|gs|, k requires 0 <= k < |gs| => |gs[k]|)
  }

  /** Lexicographic order on group lengths: the order in which Python's lazy groups are tried. */
  predicate LexLeq(x: seq<nat>, y: seq<nat>)
    decreases |x|
  {
    |x| == 0 || (|y| > 0 && (x[0] < y[0] || (x[0] == y[0] && LexLeq(x[1..], y[1..]))))
  }

  /** A separator run that is followed by a non-separator ends where the greedy run ends. */
  lemma SepRunForced(s: string, a: nat, k: nat)
    requires SepRun(s, a, k) && k < |s| && !IsSep(s[k])
    ensures SepEnd(s, a) == k
    decreases |s| - a
  {
    if a < k {
      SepRunForced(s, a + 1, k);
    }
  }

  lemma WordRunForced(s: string, a: nat, b: nat)
    requires a <= b <= |s| && (forall m :: a <= m < b ==> IsWordChar(s[m])) && (b == |s| || !IsWordChar(s[b]))
    ensures WordEnd(s, a) == b
    decreases |s| - a
  {
    if a < b {
      WordRunForced(s, a + 1, b);
    }
  }

  /** What comes after an argument starts with a quote, a `$` or a word character. */
  lemma ParsesFirstChar(args: seq<Arg>, dotall: bool, s: string, i: nat, e: nat, gs: seq<string>)
    requires Parses(args, dotall, s, i, e, gs)
    ensures i < |s| && !IsSep(s[i])
    ensures (|args| == 0 || args[0] == Text) ==> IsQuote(s[i])
  {
  }

  lemma {:induction false} MatchArgsComplete(args: seq<Arg>, dotall: bool, s: string, i: nat, e: nat, gs: seq<string>)
    requires WellFormedArgs(args) && i <= |s| && Parses(args, dotall, s, i, e, gs)
    ensures MatchArgs(args, dotall, s, i).Some?
    ensures LexLeq(Lengths(MatchArgs(args, dotall, s, i).value.1), Lengths(gs))
    decreases |args|, 1, 0
  {
    if |args| == 0 {
      return;
    }
    WellFormedTail(args);
    if args[0] == Text {
      ParsesFirstChar(args, dotall, s, i, e, gs);
      TextStep(args, dotall, s, i);
      TryPayloadComplete(args, dotall, s, i + 1, i + 2, e, gs);
    } else {
      var a := if args[0] == CountVar then i + 1 else i;
      var b, k := ParsesCount(args, dotall, s, i, e, gs);
      CountComplete(args, dotall, s, a, b, k, e, gs);
      CountStep(args, dotall, s, i, k);
    }
  }

  /** At an opening quote the matcher tries the payloads from length one. */
  lemma TextStep(args: seq<Arg>, dotall: bool, s: string, i: nat)
    requires |args| > 0 && args[0] == Text && i < |s| && IsQuote(s[i])
    ensures MatchArgs(args, dotall, s, i) == TryPayload(args, dotall, s, i + 1, i + 2)
  {
  }

  /** Past a count whose greedy runs end at k, the matcher carries on at k. */
  lemma CountStep(args: seq<Arg>, dotall: bool, s: string, i: nat, k: nat)
    requires |args| > 0 && args[0] != Text && i <= |s| && k <= |s|
    requires args[0] == CountVar ==> i < |s| && s[i] == '$' && WordEnd(s, i + 1) > i + 1 && SepEnd(s, WordEnd(s, i + 1)) == k
    requires args[0] == CountToken ==> WordEnd(s, i) > i && SepEnd(s, WordEnd(s, i)) == k
    ensures MatchArgs(args, dotall, s, i) == MatchArgs(args[1..], dotall, s, k)
  {
  }

  lemma WellFormedTail(args: seq<Arg>)
    requires |args| > 0 && WellFormedArgs(args)
    ensures WellFormedArgs(args[1..])
  {
    forall k | 0 <= k < |args[1..]| - 1 && args[1..][k] != Text ensures args[1..][k + 1] == Text {
      assert args[1..][k] == args[k + 1];
    }
  }

  /** A count parsed as the run s[a..b] and separators up to k: the greedy runs find the same k, and the rest matches from there. */
  lemma CountComplete(args: seq<Arg>, dotall: bool, s: string, a: nat, b: nat, k: nat, e: nat, gs: seq<string>)
    requires |args| > 0 && args[0] != Text && WellFormedArgs(args) && WellFormedArgs(args[1..])
    requires WordRun(s, a, b) && SepRun(s, b, k) && Parses(args[1..], dotall, s, k, e, gs)
    ensures b > a && WordEnd(s, a) == b && SepEnd(s, b) == k
    ensures MatchArgs(args[1..], dotall, s, k).Some?
    ensures LexLeq(Lengths(MatchArgs(args[1..], dotall, s, k).value.1), Lengths(gs))
    decreases |args|, 0, 0
  {
    NextAfterCount(args, dotall, s, k, e, gs);
    ForceCount(s, a, b, k);
    MatchArgsComplete(args[1..], dotall, s, k, e, gs);
  }

  /** After a count the next element opens with a quote. */
  lemma NextAfterCount(args: seq<Arg>, dotall: bool, s: string, k: nat, e: nat, gs: seq<string>)
    requires |args| > 0 && args[0] != Text && WellFormedArgs(args)
    requires Parses(args[1..], dotall, s, k, e, gs)
    ensures k < |s| && IsQuote(s[k])
  {
    if |args| > 1 {
      assert args[1] == Text;
      assert args[1..][0] == Text;
    }
    ParsesFirstChar(args[1..], dotall, s, k, e, gs);
  }

  /** A word run, then separators, then a quote: both runs are the greedy ones. */
  lemma ForceCount(s: string, a: nat, b: nat, k: nat)
    requires WordRun(s, a, b) && SepRun(s, b, k) && k < |s| && IsQuote(s[k])
    ensures WordEnd(s, a) == b && SepEnd(s, b) == k
  {
    SepRunForced(s, b, k);
    WordRunForced(s, a, b);
  }

  lemma TryPayloadComplete(args: seq<Arg>, dotall: bool, s: string, a: nat, j: nat, e: nat, gs: seq<string>)
    requires |args| > 0 && args[0] == Text && WellFormedArgs(args[1..]) && 0 < a < j
    requires Parses(args, dotall, s, a - 1, e, gs)
    requires j <= a + |gs[0]|
    ensures TryPayload(args, dotall, s, a, j).Some?
    ensures LexLeq(Lengths(TryPayload(args, dotall, s, a, j).value.1), Lengths(gs))
    decreases |args|, 0, 1
  {
    var k := ParsesTextElim(args, dotall, s, a - 1, e, gs);
    TryPayloadCompleteHere(args, dotall, s, a, e, gs, k);
    TryPayloadNoLater(args, dotall, s, a, j, a + |gs[0]|, gs);
  }

  /**
   * Trying payload ends from j on, over payload characters up to an end j2
   * that works with groups no later than gs: the attempt succeeds, with
   * groups no later than gs.
   */
  lemma {:induction false} TryPayloadNoLater(args: seq<Arg>, dotall: bool, s: string, a: nat, j: nat, j2: nat, gs: seq<string>)
    requires |args| > 0 && 0 < a < j <= j2 < |s| && PayloadRun(s, a, j2, dotall)
    requires 0 < |gs| && j2 == a + |gs[0]|
    requires TryPayload(args, dotall, s, a, j2).Some?
    requires LexLeq(Lengths(TryPayload(args, dotall, s, a, j2).value.1), Lengths(gs))
    ensures TryPayload(args, dotall, s, a, j).Some?
    ensures LexLeq(Lengths(TryPayload(args, dotall, s, a, j).value.1), Lengths(gs))
    decreases j2 - j
  {
    if j < j2 {
      assert PayloadChar(s[j - 1], dotall);
      if IsQuote(s[j]) && MatchArgs(args[1..], dotall, s, SepEnd(s, j + 1)).Some? {
        TryPayloadShorter(args, dotall, s, a, j, gs);
      } else {
        TryPayloadNext(args, dotall, s, a, j);
        TryPayloadNoLater(args, dotall, s, a, j + 1, j2, gs);
      }
    }
  }

  /** A payload shorter than the given parse's that lets the rest match is found first, and is shorter. */
  lemma TryPayloadShorter(args: seq<Arg>, dotall: bool, s: string, a: nat, j: nat, gs: seq<string>)
    requires |args| > 0 && 0 < a < j < |s| && PayloadChar(s[j - 1], dotall)
    requires IsQuote(s[j]) && MatchArgs(args[1..], dotall, s, SepEnd(s, j + 1)).Some?
    requires 0 < |gs| && j < a + |gs[0]|
    ensures TryPayload(args, dotall, s, a, j).Some?
    ensures LexLeq(Lengths(TryPayload(args, dotall, s, a, j).value.1), Lengths(gs))
  {
    var r := TryPayload(args, dotall, s, a, j).value.1;
    assert r[0] == s[a..j];
    FirstShorter(Lengths(r), Lengths(gs));
  }

  /** A payload end that does not let the rest match passes the attempt on to the next end. */
  lemma TryPayloadNext(args: seq<Arg>, dotall: bool, s: string, a: nat, j: nat)
    requires |args| > 0 && 0 < a < j < |s| && PayloadChar(s[j - 1], dotall)
    requires !(IsQuote(s[j]) && MatchArgs(args[1..], dotall, s, SepEnd(s, j + 1)).Some?)
    ensures TryPayload(args, dotall, s, a, j) == TryPayload(args, dotall, s, a, j + 1)
  {
  }

  lemma FirstShorter(x: seq<nat>, y: seq<nat>)
    requires 0 < |x| && 0 < |y| && x[0] < y[0]
    ensures LexLeq(x, y)
  {
  }

  /** At the payload length of a given parse, the rest is found at once. */
  lemma TryPayloadCompleteHere(args: seq<Arg>, dotall: bool, s: string, a: nat, e: nat, gs: seq<string>, k: nat)
    requires |args| > 0 && args[0] == Text && WellFormedArgs(args[1..]) && 0 < a
    requires |gs| > 0 && a + |gs[0]| < |s| && PayloadRun(s, a, a + |gs[0]|, dotall)
    requires s[a..a + |gs[0]|] == gs[0] && IsQuote(s[a + |gs[0]|])
    requires SepRun(s, a + |gs[0]| + 1, k) && Parses(args[1..], dotall, s, k, e, gs[1..])
    ensures TryPayload(args, dotall, s, a, a + |gs[0]|).Some?
    ensures LexLeq(Lengths(TryPayload(args, dotall, s, a, a + |gs[0]|).value.1), Lengths(gs))
    decreases |args|, 0, 0
  {
    var j := a + |gs[0]|;
    ParsesFirstChar(args[1..], dotall, s, k, e, gs[1..]);
    SepRunForced(s, j + 1, k);
    MatchArgsComplete(args[1..], dotall, s, k, e, gs[1..]);
    assert PayloadChar(s[j - 1], dotall);
    TryPayloadHit(args, dotall, s, a, j);
    SameFirstLexLeq(TryPayload(args, dotall, s, a, j).value.1, gs, MatchArgs(args[1..], dotall, s, k).value.1);
  }

  /** A payload end followed by a quote after which the rest matches: the attempt stops there. */
  lemma TryPayloadHit(args: seq<Arg>, dotall: bool, s: string, a: nat, j: nat)
    requires |args| > 0 && 0 < a < j < |s| && PayloadChar(s[j - 1], dotall)
    requires IsQuote(s[j]) && MatchArgs(args[1..], dotall, s, SepEnd(s, j + 1)).Some?
    ensures TryPayload(args, dotall, s, a, j).Some?
    ensures |TryPayload(args, dotall, s, a, j).value.1| > 0 && TryPayload(args, dotall, s, a, j).value.1[0] == s[a..j]
    ensures TryPayload(args, dotall, s, a, j).value.1[1..] == MatchArgs(args[1..], dotall, s, SepEnd(s, j + 1)).value.1
    ensures TryPayload(args, dotall, s, a, j).value.0 == MatchArgs(args[1..], dotall, s, SepEnd(s, j + 1)).value.0
  {
    var rest := MatchArgs(args[1..], dotall, s, SepEnd(s, j + 1)).value.1;
    assert ([s[a..j]] + rest)[1..] == rest;
  }

  /** Groups whose first has the given first's length, and whose others come no later, come no later. */
  lemma SameFirstLexLeq(r: seq<string>, gs: seq<string>, rest: seq<string>)
    requires |r| > 0 && |gs| > 0 && |r[0]| == |gs[0]| && r[1..] == rest
    requires LexLeq(Lengths(rest), Lengths(gs[1..]))
    ensures LexLeq(Lengths(r), Lengths(gs))
  {
    assert Lengths(r)[1..] == Lengths(rest);
    assert Lengths(gs)[1..] == Lengths(gs[1..]);
  }

  /**
   * If the pattern matches at i at all, MatchAt finds a match there, and its
   * groups are the shortest in the order Python tries them: no parse has a
   * shorter first payload, and so on group by group.
   */
  lemma MatchAtComplete(p: Pattern, s: string, i: nat, e: nat, gs: seq<string>)
    requires WellFormed(p) && MatchesAt(p, s, i, e, gs)
    ensures MatchAt(p, s, i).Some?
    ensures LexLeq(Lengths(MatchAt(p, s, i).value.1), Lengths(gs))
  {
    var j := i + |CallOpen(p)|;
    MatchArgsComplete(p.args, p.dotall, s, j, e, gs);
    assert MatchAt(p, s, i) == MatchArgs(p.args, p.dotall, s, j);
  }

  // ---------------------------------------------------------------------
  // Properties of findall

  /** The matches findall returns follow each other without overlapping. */
  lemma {:induction false} FindAllOrdered(p: Pattern, s: string, pos: nat)
    ensures forall k :: 0 <= k < |FindAll(p, s, pos)| - 1 ==> FindAll(p, s, pos)[k].end <= FindAll(p, s, pos)[k + 1].start
    decreases |s| - pos
  {
    if pos < |s| {
      match MatchAt(p, s, pos)
      case Some((e, gs)) => FindAllOrdered(p, s, e);
      case None => FindAllOrdered(p, s, pos + 1);
    }
  }

  /** Every match findall returns is the leftmost-first match at its start. */
  lemma {:induction false} FindAllHits(p: Pattern, s: string, pos: nat)
    ensures forall k :: 0 <= k < |FindAll(p, s, pos)| ==>
      MatchAt(p, s, FindAll(p, s, pos)[k].start) == Some((FindAll(p, s, pos)[k].end, FindAll(p, s, pos)[k].groups))
    decreases |s| - pos
  {
    if pos < |s| {
      match MatchAt(p, s, pos)
      case Some((e, gs)) => FindAllHits(p, s, e);
      case None => FindAllHits(p, s, pos + 1);
    }
  }

  predicate Covered(hits: seq<Hit>, q: nat)
  {
    exists k :: 0 <= k < |hits| && hits[k].start <= q < hits[k].end
  }

  /** No match is skipped: every position where the pattern matches lies inside a reported match. */
  lemma {:induction false} FindAllNoSkip(p: Pattern, s: string, pos: nat, q: nat)
    requires pos <= q && MatchAt(p, s, q).Some?
    ensures Covered(FindAll(p, s, pos), q)
    decreases |s| - pos
  {
    var hits := FindAll(p, s, pos);
    match MatchAt(p, s, pos)
    case Some((e, gs)) =>
      if q < e {
        assert hits[0].start <= q < hits[0].end;
      } else {
        FindAllNoSkip(p, s, e, q);
        var rest := FindAll(p, s, e);
        var k :| 0 <= k < |rest| && rest[k].start <= q < rest[k].end;
        assert hits[k + 1] == rest[k];
      }
    case None =>
      assert q != pos;
      FindAllNoSkip(p, s, pos + 1, q);
  }

  /** The domain tail closes every match. */
  lemma TailEnds(args: seq<Arg>, dotall: bool, s: string, i: nat, e: nat, gs: seq<string>)
    requires Parses(args, dotall, s, i, e, gs)
    ensures TailLength <= e <= |s| && TailAt(s, e - TailLength)
    decreases |args|
  {
    if |args| > 0 {
      match args[0]
      case Text =>
        var k :| SepRun(s, i + 1 + |gs[0]| + 1, k) && Parses(args[1..], dotall, s, k, e, gs[1..]);
        TailEnds(args[1..], dotall, s, k, e, gs[1..]);
      case CountVar =>
        var b, k :| WordRun(s, i + 1, b) && SepRun(s, b, k) && Parses(args[1..], dotall, s, k, e, gs);
        TailEnds(args[1..], dotall, s, k, e, gs);
      case CountToken =>
        var b, k :| WordRun(s, i, b) && SepRun(s, b, k) && Parses(args[1..], dotall, s, k, e, gs);
        TailEnds(args[1..], dotall, s, k, e, gs);
    }
  }

  /** Every reported match ends with the quoted text domain and ")". */
  lemma HitEndsWithDomain(p: Pattern, s: string, i: nat)
    requires MatchAt(p, s, i).Some?
    ensures MatchAt(p, s, i).value.0 >= TailLength && OccursAt(s, Domain, MatchAt(p, s, i).value.0 - 16)
  {
    MatchAtSound(p, s, i);
    var (e, gs) := MatchAt(p, s, i).value;
    TailEnds(p.args, p.dotall, s, i + |CallOpen(p)|, e, gs);
    assert s[e - 16..e - 2] == Domain;
  }

  /** A text that never mentions the domain yields no match, whatever the pattern. */
  lemma {:induction false} FindAllNeedsDomain(p: Pattern, s: string, pos: nat)
    requires !Contains(s, Domain)
    ensures FindAll(p, s, pos) == []
    decreases |s| - pos
  {
    if pos < |s| {
      if MatchAt(p, s, pos).Some? {
        HitEndsWithDomain(p, s, pos);
        ContainsAt(s, Domain, MatchAt(p, s, pos).value.0 - 16);
      }
      FindAllNeedsDomain(p, s, pos + 1);
    }
  }

  /** Each text argument yields exactly one group. */
  function TextCount(args: seq<Arg>): nat
  {
    if |args| == 0 then 0 else (if args[0] == Text then 1 else 0) + TextCount(args[1..])
  }

  lemma {:induction false} ParsesGroups(args: seq<Arg>, dotall: bool, s: string, i: nat, e: nat, gs: seq<string>)
    requires Parses(args, dotall, s, i, e, gs)
    ensures |gs| == TextCount(args)
    ensures forall g :: g in gs ==> |g| > 0 && (!dotall ==> '\n' !in g)
    decreases |args|
  {
    if |args| > 0 {
      match args[0]
      case Text =>
        var k := ParsesTextElim(args, dotall, s, i, e, gs);
        ParsesGroups(args[1..], dotall, s, k, e, gs[1..]);
        PayloadGroup(s, i + 1, i + 1 + |gs[0]|, dotall, gs[0]);
        assert gs == [gs[0]] + gs[1..];
      case CountVar =>
        var b, k := ParsesCount(args, dotall, s, i, e, gs);
        ParsesGroups(args[1..], dotall, s, k, e, gs);
      case CountToken =>
        var b, k := ParsesCount(args, dotall, s, i, e, gs);
        ParsesGroups(args[1..], dotall, s, k, e, gs);
    }
  }

  /** A count parses as a run of word characters s[a..b] (after the `$` of a variable) and separators up to k. */
  lemma ParsesCount(args: seq<Arg>, dotall: bool, s: string, i: nat, e: nat, gs: seq<string>) returns (b: nat, k: nat)
    requires |args| > 0 && args[0] != Text && Parses(args, dotall, s, i, e, gs)
    ensures args[0] == CountVar ==> i < |s| && s[i] == '$' && WordRun(s, i + 1, b)
    ensures args[0] == CountToken ==> WordRun(s, i, b)
    ensures SepRun(s, b, k) && Parses(args[1..], dotall, s, k, e, gs)
  {
    if args[0] == CountVar {
      b, k :| WordRun(s, i + 1, b) && SepRun(s, b, k) && Parses(args[1..], dotall, s, k, e, gs);
    } else {
      b, k :| WordRun(s, i, b) && SepRun(s, b, k) && Parses(args[1..], dotall, s, k, e, gs);
    }
  }

  /** A captured payload is non-empty and, without DOTALL, holds no newline. */
  lemma PayloadGroup(s: string, a: nat, b: nat, dotall: bool, g: string)
    requires PayloadRun(s, a, b, dotall) && s[a..b] == g
    ensures |g| > 0 && (!dotall ==> '\n' !in g)
  {
    forall m | 0 <= m < |g| ensures PayloadChar(g[m], dotall) {
      assert g[m] == s[a + m];
    }
  }

  /**
   * Every group findall reports is non-empty, there is one per text
   * argument, and without DOTALL no group crosses a line.
   */
  lemma FindAllGroups(p: Pattern, s: string, pos: nat)
    ensures forall k :: 0 <= k < |FindAll(p, s, pos)| ==> GroupsOk(p, FindAll(p, s, pos)[k].groups)
  {
    var hits := FindAll(p, s, pos);
    FindAllHits(p, s, pos);
    forall k | 0 <= k < |hits| ensures GroupsOk(p, hits[k].groups) {
      MatchAtGroups(p, s, hits[k].start);
    }
  }

  lemma MatchAtGroups(p: Pattern, s: string, i: nat)
    requires MatchAt(p, s, i).Some?
    ensures GroupsOk(p, MatchAt(p, s, i).value.1)
  {
    var m := MatchAt(p, s, i).value;
    MatchAtSound(p, s, i);
    ParsesGroups(p.args, p.dotall, s, i + |CallOpen(p)|, m.0, m.1);
  }

  predicate GroupsOk(p: Pattern, gs: seq<string>)
  {
    |gs| == TextCount(p.args) && forall g :: g in gs ==> |g| > 0 && (!p.dotall ==> '\n' !in g)
  }
}
