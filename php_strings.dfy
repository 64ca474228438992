/**
 * Byte-string operations with the semantics of the PHP built-ins the plugin
 * calls (and of the Python `str` methods the build scripts call, where these
 * coincide). A PHP string is a sequence of bytes; here each byte is one `char`.
 */
module PhpStrings {

  /** The characters PHP's `trim()` strips by default: " \t\n\r\0\x0B". */
  const TrimDefault: set<char> := {' ', '\t', '\n', '\r', '\0', '\U{000B}'}

  predicate IsPrefix(p: string, s: string) { |p| <= |s| && s[..|p|] == p }

  predicate IsSuffix(p: string, s: string) { |p| <= |s| && s[|s| - |p|..] == p }

  /** `strpos($s, $t) !== false`, Python `t in s`. */
  predicate Contains(s: string, t: string)
    decreases |s|
  {
    IsPrefix(t, s) || (|s| > 0 && Contains(s[1..], t))
  }

  /** `t` occurs in `s` starting at index `k`. */
  predicate OccursAt(s: string, t: string, k: nat)
  {
    k + |t| <= |s| && s[k..k + |t|] == t
  }

  lemma {:induction false} ContainsAt(s: string, t: string, i: nat)
    requires OccursAt(s, t, i)
    ensures Contains(s, t)
  {
    if i > 0 {
      assert s[1..][i - 1..i - 1 + |t|] == s[i..i + |t|];
      assert OccursAt(s[1..], t, i - 1);
      ContainsAt(s[1..], t, i - 1);
    } else {
      assert s[..|t|] == t;
    }
  }

  lemma {:induction false} ContainsIndex(s: string, t: string)
    requires Contains(s, t)
    ensures exists k: nat :: OccursAt(s, t, k)
  {
    if IsPrefix(t, s) {
      assert s[0..0 + |t|] == t;
      assert OccursAt(s, t, 0);
    } else {
      ContainsIndex(s[1..], t);
      var k: nat :| OccursAt(s[1..], t, k);
      assert s[k + 1..k + 1 + |t|] == s[1..][k..k + |t|];
      assert OccursAt(s, t, k + 1);
    }
  }

  lemma ContainsWithin(s: string, t: string, i: nat, j: nat)
    requires i <= j <= |s| && Contains(s[i..j], t)
    ensures Contains(s, t)
  {
    ContainsIndex(s[i..j], t);
    var k: nat :| OccursAt(s[i..j], t, k);
    assert k + |t| <= j - i;
    forall m | 0 <= m < |t| ensures s[i + k + m] == t[m] {
      assert s[i..j][k..k + |t|][m] == t[m];
    }
    assert s[i + k..i + k + |t|] == t;
    ContainsAt(s, t, i + k);
  }

  lemma ContainsAppendLeft(a: string, b: string, t: string)
    requires Contains(b, t)
    ensures Contains(a + b, t)
  {
    ContainsIndex(b, t);
    var k: nat :| OccursAt(b, t, k);
    assert (a + b)[|a| + k..|a| + k + |t|] == b[k..k + |t|];
    ContainsAt(a + b, t, |a| + k);
  }

  lemma ContainsAppendRight(a: string, b: string, t: string)
    requires Contains(a, t)
    ensures Contains(a + b, t)
  {
    ContainsIndex(a, t);
    var k: nat :| OccursAt(a, t, k);
    assert (a + b)[k..k + |t|] == a[k..k + |t|];
    ContainsAt(a + b, t, k);
  }

  /** A one-character needle occurs iff the character occurs. */
  lemma {:induction false} ContainsChar(s: string, c: char)
    ensures Contains(s, [c]) <==> c in s
  {
    if c in s {
      var i :| 0 <= i < |s| && s[i] == c;
      assert s[i..i + 1] == [c];
      assert OccursAt(s, [c], i);
      ContainsAt(s, [c], i);
    }
    if Contains(s, [c]) {
      ContainsIndex(s, [c]);
      var k: nat :| OccursAt(s, [c], k);
      assert s[k..k + 1][0] == s[k];
    }
  }

  // ---------------------------------------------------------------------
  // Case mapping (PHP 8 `strtolower`/`strtoupper` are ASCII-only)

  function LowerChar(c: char): char
  {
    if 'A' <= c <= 'Z' then (c as int + 32) as char else c
  }

  function UpperChar(c: char): char
  {
    if 'a' <= c <= 'z' then (c as int - 32) as char else c
  }

  /** `strtolower`. */
  function Lower(s: string): (r: string)
    ensures |r| == |s|
    ensures forall i :: 0 <= i < |s| ==> r[i] == LowerChar(s[i])
  {
    seq(|s|, i requires 0 <= i < |s| => LowerChar(s[i]))
  }

  lemma LowerAppend(a: string, b: string)
    ensures Lower(a + b) == Lower(a) + Lower(b)
  {
  }

  lemma LowerSlice(s: string, i: nat, j: nat)
    requires i <= j <= |s|
    ensures Lower(s)[i..j] == Lower(s[i..j])
  {
  }

  /** `ucfirst`: the first byte upper-cased. */
  function UcFirst(s: string): (r: string)
    ensures |r| == |s|
    ensures |s| > 0 ==> r[0] == UpperChar(s[0]) && r[1..] == s[1..]
  {
    if |s| == 0 then s else [UpperChar(s[0])] + s[1..]
  }

  /** The word delimiters of PHP's `ucwords`: " \t\r\n\f\v". */
  const UcWordsDelimiters: set<char> := {' ', '\t', '\r', '\n', '\U{000C}', '\U{000B}'}

  /** `ucwords`: every byte that starts the string or follows a delimiter is upper-cased. */
  function UcWords(s: string): (r: string)
    ensures |r| == |s|
    ensures forall i :: 0 <= i < |s| ==>
      r[i] == (if i == 0 || s[i - 1] in UcWordsDelimiters then UpperChar(s[i]) else s[i])
  {
    seq(|s|, i requires 0 <= i < |s| =>
      if i == 0 || s[i - 1] in UcWordsDelimiters then UpperChar(s[i]) else s[i])
  }

  // ---------------------------------------------------------------------
  // Trimming

  function TrimLeft(s: string, cs: set<char>): (r: string)
    ensures IsSuffix(r, s)
    ensures |r| > 0 ==> r[0] !in cs
    decreases |s|
  {
    if |s| > 0 && s[0] in cs then TrimLeft(s[1..], cs) else s
  }

  function TrimRight(s: string, cs: set<char>): (r: string)
    ensures IsPrefix(r, s)
    ensures |r| > 0 ==> r[|r| - 1] !in cs
    decreases |s|
  {
    if |s| > 0 && s[|s| - 1] in cs then TrimRight(s[..|s| - 1], cs) else s
  }

  /** `trim($s, $chars)`: strip every leading and trailing byte in `cs`. */
  function TrimSet(s: string, cs: set<char>): (r: string)
    ensures |r| <= |s|
    ensures |r| > 0 ==> r[0] !in cs && r[|r| - 1] !in cs
  {
    var l := TrimLeft(s, cs);
    var r := TrimRight(l, cs);
    assert |r| > 0 ==> r[0] == l[0];
    r
  }

  /** `trim($s)` with PHP's default character list. */
  function Trim(s: string): (r: string)
    ensures |r| <= |s|
    ensures |r| > 0 ==> r[0] !in TrimDefault && r[|r| - 1] !in TrimDefault
  {
    TrimSet(s, TrimDefault)
  }

  lemma {:induction false} TrimLeftNoop(s: string, cs: set<char>)
    requires |s| == 0 || s[0] !in cs
    ensures TrimLeft(s, cs) == s
  {
  }

  lemma {:induction false} TrimRightNoop(s: string, cs: set<char>)
    requires |s| == 0 || s[|s| - 1] !in cs
    ensures TrimRight(s, cs) == s
  {
  }

  /** A string with no byte of `cs` at either end is its own trim. */
  lemma TrimSetNoop(s: string, cs: set<char>)
    requires |s| == 0 || (s[0] !in cs && s[|s| - 1] !in cs)
    ensures TrimSet(s, cs) == s
  {
    TrimLeftNoop(s, cs);
    TrimRightNoop(s, cs);
  }

  /** Prepending and appending bytes of `cs` does not change what trimming leaves. */
  lemma {:induction false} TrimLeftPrefix(p: string, s: string, cs: set<char>)
    requires forall i :: 0 <= i < |p| ==> p[i] in cs
    ensures TrimLeft(p + s, cs) == TrimLeft(s, cs)
    decreases |p|
  {
    if |p| > 0 {
      assert (p + s)[1..] == p[1..] + s;
      TrimLeftPrefix(p[1..], s, cs);
    } else {
      assert p + s == s;
    }
  }

  lemma {:induction false} TrimRightSuffix(s: string, p: string, cs: set<char>)
    requires forall i :: 0 <= i < |p| ==> p[i] in cs
    ensures TrimRight(s + p, cs) == TrimRight(s, cs)
    decreases |p|
  {
    if |p| > 0 {
      assert (s + p)[..|s + p| - 1] == s + p[..|p| - 1];
      TrimRightSuffix(s, p[..|p| - 1], cs);
    } else {
      assert s + p == s;
    }
  }

  // ---------------------------------------------------------------------
  // Substrings

  /** `substr($s, $n)` for `$n >= 0` (PHP 8: empty when `$n` is past the end). */
  function Drop(s: string, n: nat): (r: string)
    ensures n <= |s| ==> r == s[n..]
    ensures n > |s| ==> r == ""
  {
    if n <= |s| then s[n..] else ""
  }

  /** `substr($s, 0, $n)` for `$n >= 0`. */
  function Take(s: string, n: nat): (r: string)
    ensures |r| == if n <= |s| then n else |s|
    ensures IsPrefix(r, s)
  {
    if n <= |s| then s[..n] else s
  }

  /** `substr($s, $start, -1)`: from `$start` up to, not including, the last byte. */
  function SubstrButLast(s: string, start: nat): (r: string)
    ensures start < |s| ==> r == s[start..|s| - 1]
    ensures start >= |s| ==> r == ""
  {
    if start < |s| then s[start..|s| - 1] else ""
  }

  // ---------------------------------------------------------------------
  // Replacement

  /**
   * `str_replace($pat, $rep, $s)` (and Python `s.replace(pat, rep)`):
   * every occurrence, scanning left to right, without overlaps. PHP leaves
   * the subject unchanged for an empty search string.
   */
  function ReplaceAll(s: string, pat: string, rep: string): (r: string)
    decreases |s|
  {
    if |pat| == 0 || |s| < |pat| then s
    else if s[..|pat|] == pat then rep + ReplaceAll(s[|pat|..], pat, rep)
    else [s[0]] + ReplaceAll(s[1..], pat, rep)
  }

  /** Replacing a string that does not occur changes nothing. */
  lemma {:induction false} ReplaceAllAbsent(s: string, pat: string, rep: string)
    requires !Contains(s, pat)
    ensures ReplaceAll(s, pat, rep) == s
    decreases |s|
  {
    if |pat| == 0 || |s| < |pat| {
    } else {
      assert !IsPrefix(pat, s);
      ReplaceAllAbsent(s[1..], pat, rep);
      assert [s[0]] + s[1..] == s;
    }
  }

  /** A pattern that occurs only as the suffix is replaced there and nowhere else. */
  lemma {:induction false} ReplaceOnlyAtEnd(b: string, pat: string, rep: string)
    requires |pat| > 0
    requires forall i: nat :: i < |b| ==> !OccursAt(b + pat, pat, i)
    ensures ReplaceAll(b + pat, pat, rep) == b + rep
    decreases |b|
  {
    var s := b + pat;
    if |b| == 0 {
      assert s == pat && s[|pat|..] == [];
    } else {
      assert !OccursAt(s, pat, 0);
      assert s[1..] == b[1..] + pat;
      forall i: nat | i < |b[1..]| ensures !OccursAt(b[1..] + pat, pat, i) {
        assert !OccursAt(s, pat, i + 1);
        assert s[i + 1..i + 1 + |pat|] == (b[1..] + pat)[i..i + |pat|];
      }
      ReplaceOnlyAtEnd(b[1..], pat, rep);
      assert [s[0]] + (b[1..] + rep) == b + rep;
    }
  }

  /** Replacing one character by something without it leaves none behind. */
  lemma {:induction false} ReplaceCharRemoves(s: string, c: char, rep: string)
    requires c !in rep
    ensures c !in ReplaceAll(s, [c], rep)
    decreases |s|
  {
    if |s| >= 1 {
      ReplaceCharRemoves(s[1..], c, rep);
    }
  }

  /** Replacing one character keeps every other character that was absent absent. */
  lemma {:induction false} ReplaceKeepsAbsent(s: string, pat: string, rep: string, d: char)
    requires d !in s && d !in rep
    ensures d !in ReplaceAll(s, pat, rep)
    decreases |s|
  {
    if |pat| == 0 || |s| < |pat| {
    } else if s[..|pat|] == pat {
      ReplaceKeepsAbsent(s[|pat|..], pat, rep, d);
    } else {
      ReplaceKeepsAbsent(s[1..], pat, rep, d);
    }
  }

  /** Single-character replacement distributes over concatenation. */
  lemma {:induction false} ReplaceCharAppend(a: string, b: string, c: char, rep: string)
    ensures ReplaceAll(a + b, [c], rep) == ReplaceAll(a, [c], rep) + ReplaceAll(b, [c], rep)
    decreases |a|
  {
    if |a| == 0 {
      assert a + b == b;
    } else {
      assert (a + b)[1..] == a[1..] + b;
      assert (a + b)[..1] == a[..1];
      ReplaceCharAppend(a[1..], b, c, rep);
    }
  }

  /**
   * `str_ireplace`: like ReplaceAll, but the search string is compared
   * without regard to ASCII case.
   */
  function ReplaceAllIgnoreCase(s: string, pat: string, rep: string): (r: string)
    decreases |s|
  {
    if |pat| == 0 || |s| < |pat| then s
    else if Lower(s[..|pat|]) == Lower(pat) then rep + ReplaceAllIgnoreCase(s[|pat|..], pat, rep)
    else [s[0]] + ReplaceAllIgnoreCase(s[1..], pat, rep)
  }

  // ---------------------------------------------------------------------
  // Splitting and joining

  /** `explode($c, $s)` for a one-byte separator. */
  function Split(s: string, c: char): (parts: seq<string>)
    ensures |parts| >= 1
    decreases |s|
  {
    if |s| == 0 then [""]
    else
      var rest := Split(s[1..], c);
      if s[0] == c then [""] + rest else [[s[0]] + rest[0]] + rest[1..]
  }

  /** `implode($sep, $parts)`. */
  function Join(parts: seq<string>, sep: string): (r: string)
    decreases |parts|
  {
    if |parts| == 0 then ""
    else if |parts| == 1 then parts[0]
    else parts[0] + sep + Join(parts[1..], sep)
  }

  /** explode and implode are inverse: no part contains the separator, and rejoining gives the input back. */
  lemma {:induction false} SplitJoin(s: string, c: char)
    ensures Join(Split(s, c), [c]) == s
    ensures forall k :: 0 <= k < |Split(s, c)| ==> c !in Split(s, c)[k]
    decreases |s|
  {
    if |s| > 0 {
      var rest := Split(s[1..], c);
      SplitJoin(s[1..], c);
      if s[0] == c {
        assert Split(s, c) == [""] + rest;
        assert Join([""] + rest, [c]) == "" + [c] + Join(rest, [c]);
        assert [c] + s[1..] == s;
      } else {
        var parts := [[s[0]] + rest[0]] + rest[1..];
        assert Split(s, c) == parts;
        if |rest| == 1 {
          assert Join(parts, [c]) == [s[0]] + rest[0];
          assert [s[0]] + s[1..] == s;
        } else {
          assert Join(parts, [c]) == [s[0]] + rest[0] + [c] + Join(rest[1..], [c]);
          assert Join(rest, [c]) == rest[0] + [c] + Join(rest[1..], [c]);
          assert [s[0]] + s[1..] == s;
        }
        forall k | 0 <= k < |parts| ensures c !in parts[k] {
          if k == 0 {
            assert c !in rest[0];
          } else {
            assert parts[k] == rest[k];
          }
        }
      }
    }
  }

  /** A string without the separator is one part. */
  lemma {:induction false} SplitNoSeparator(s: string, c: char)
    requires c !in s
    ensures Split(s, c) == [s]
    decreases |s|
  {
    if |s| > 0 {
      SplitNoSeparator(s[1..], c);
      assert [s[0]] + s[1..] == s;
    }
  }

  /** Splitting `a + [c] + b` when `a` has no separator: `a` is the first part. */
  lemma {:induction false} SplitFirst(a: string, c: char, b: string)
    requires c !in a
    ensures Split(a + [c] + b, c) == [a] + Split(b, c)
    decreases |a|
  {
    if |a| == 0 {
      assert a + [c] + b == [c] + b;
      assert ([c] + b)[1..] == b;
    } else {
      assert (a + [c] + b)[1..] == a[1..] + [c] + b;
      SplitFirst(a[1..], c, b);
      assert [a[0]] + a[1..] == a;
    }
  }

  /** `explode($c, $s, 2)`: the parts before and after the first separator, if any. */
  function SplitOnce(s: string, c: char): (r: (string, string))
    requires c in s
    ensures c !in r.0 && s == r.0 + [c] + r.1
    decreases |s|
  {
    if s[0] == c then ("", s[1..])
    else
      var (a, b) := SplitOnce(s[1..], c);
      assert s == [s[0]] + s[1..];
      ([s[0]] + a, b)
  }

  /** Lines, each followed by a newline. */
  function Lines(ls: seq<string>): string
  {
    if |ls| == 0 then "" else ls[0] + "\n" + Lines(ls[1..])
  }

  lemma {:induction false} LinesAppend(a: seq<string>, b: seq<string>)
    ensures Lines(a + b) == Lines(a) + Lines(b)
    decreases |a|
  {
    if |a| > 0 {
      assert (a + b)[1..] == a[1..] + b;
      LinesAppend(a[1..], b);
    } else {
      assert a + b == b;
    }
  }

  predicate NoNewlines(ls: seq<string>)
  {
    forall k :: 0 <= k < |ls| ==> '\n' !in ls[k]
  }

  /** Cutting a text of lines at its newlines gives the lines back, and an empty last part. */
  lemma {:induction false} SplitLines(ls: seq<string>)
    requires NoNewlines(ls)
    ensures Split(Lines(ls), '\n') == ls + [""]
    decreases |ls|
  {
    if |ls| > 0 {
      SplitLines(ls[1..]);
      SplitFirst(ls[0], '\n', Lines(ls[1..]));
      assert Lines(ls) == ls[0] + ['\n'] + Lines(ls[1..]);
      assert ls == [ls[0]] + ls[1..];
    }
  }

  // ---------------------------------------------------------------------
  // Quotes

  /** `trim($s, '"')`. */
  function Unquote(s: string): string
  {
    TrimSet(s, {'"'})
  }

  /** The first and the last byte are quotes (`strpos` is 0 and `strrpos` is the last index). */
  predicate Quoted(t: string)
  {
    |t| > 0 && t[0] == '"' && t[|t| - 1] == '"'
  }

  /** Quotes around a value without quotes at its ends come off. */
  lemma UnquoteWrapped(x: string)
    requires |x| == 0 || (x[0] != '"' && x[|x| - 1] != '"')
    ensures Unquote("\"" + x + "\"") == x
  {
    var q := "\"";
    assert q + x + q == q + (x + q);
    TrimLeftPrefix(q, x + q, {'"'});
    if |x| > 0 {
      TrimLeftNoop(x + q, {'"'});
      TrimRightSuffix(x, q, {'"'});
      TrimRightNoop(x, {'"'});
    } else {
      assert x + q == q && q[1..] == "";
    }
  }
}
