/**
 * The command-line tool that rewrites the project's text files with Unix
 * line endings: the choice of target files by extension, the line-ending
 * normalisation, the `--dry-run` flag and the per-file run. The directory
 * walk, reading and writing files are parameters; what the tool prints and
 * writes is returned.
 */
module NormalizeLineEndings {
  import opened Wrappers
  import opened PhpStrings

  // ---------------------------------------------------------------------
  // wpca_is_target_text_file

  /** wpca_get_target_extensions. */
  function TargetExtensions(): (r: seq<string>)
    ensures |r| == 7
  {
    ["php", "js", "css", "po", "pot", "md", "txt"]
  }

  /** What follows the last `c` in `s`; all of `s` when there is none. */
  function AfterLast(s: string, c: char): string
    decreases |s|
  {
    if |s| == 0 then ""
    else if s[|s| - 1] == c then ""
    else AfterLast(s[..|s| - 1], c) + [s[|s| - 1]]
  }

  /** `s` without its trailing slashes. */
  function TrimSlashes(s: string): string
    decreases |s|
  {
    if |s| > 0 && s[|s| - 1] == '/' then TrimSlashes(s[..|s| - 1]) else s
  }

  /** PHP's basename: trailing slashes dropped, then what follows the last slash. */
  function Basename(path: string): string
  {
    AfterLast(TrimSlashes(path), '/')
  }

  /** `pathinfo($path, PATHINFO_EXTENSION)`: the text after the basename's last dot, or "". */
  function PathExtension(path: string): string
  {
    var b := Basename(path);
    if '.' in b then AfterLast(b, '.') else ""
  }

  /** The text after the last `c` holds no `c`, and it ends `s`. */
  lemma {:induction false} AfterLastShape(s: string, c: char)
    ensures c !in AfterLast(s, c)
    ensures IsSuffix(AfterLast(s, c), s)
    decreases |s|
  {
    if |s| > 0 && s[|s| - 1] != c {
      var init := s[..|s| - 1];
      AfterLastShape(init, c);
      assert s == init + [s[|s| - 1]];
    }
  }

  /** Where there is a `c`, the text after the last one follows it; where there is none, it is all of `s`. */
  lemma {:induction false} AfterLastMark(s: string, c: char)
    ensures c in s ==> IsSuffix([c] + AfterLast(s, c), s)
    ensures c !in s ==> AfterLast(s, c) == s
    decreases |s|
  {
    if |s| > 0 && s[|s| - 1] != c {
      var init := s[..|s| - 1];
      AfterLastMark(init, c);
      var x := s[|s| - 1];
      assert s == init + [x];
      assert c in s <==> c in init;
    }
  }

  /** Text after a last `c` is found as such. */
  lemma {:induction false} AfterLastOf(a: string, c: char, b: string)
    requires c !in b
    ensures AfterLast(a + [c] + b, c) == b
    decreases |b|
  {
    var s := a + [c] + b;
    if |b| > 0 {
      var init := b[..|b| - 1];
      assert s[..|s| - 1] == a + [c] + init;
      AfterLastOf(a, c, init);
      assert b == init + [b[|b| - 1]];
    }
  }

  /** A suffix of a text without `c` has no `c` either. */
  lemma SuffixKeepsAbsent(x: string, s: string, c: char)
    requires IsSuffix(x, s) && c !in s
    ensures c !in x
  {
    forall i | 0 <= i < |x| ensures x[i] != c {
      assert x[i] == s[|s| - |x| + i];
    }
  }

  /** The extension holds no dot and no slash, and ends the basename right after a dot. */
  lemma PathExtensionShape(path: string)
    ensures var ext := PathExtension(path);
      '.' !in ext && '/' !in ext
      && (ext != "" ==> IsSuffix(['.'] + ext, Basename(path)))
      && ('.' !in Basename(path) ==> ext == "")
  {
    var b := Basename(path);
    AfterLastShape(TrimSlashes(path), '/');
    if '.' in b {
      var ext := AfterLast(b, '.');
      AfterLastShape(b, '.');
      AfterLastMark(b, '.');
      SuffixKeepsAbsent(ext, b, '/');
    }
  }

  /** A file name with an extension has that extension. */
  lemma PathExtensionOf(dir: string, stem: string, ext: string)
    requires '/' !in stem && '/' !in ext && '.' !in ext && |ext| > 0
    ensures PathExtension(dir + "/" + stem + "." + ext) == ext
  {
    var path := dir + "/" + stem + "." + ext;
    var b := stem + "." + ext;
    assert TrimSlashes(path) == path;
    assert path == dir + ['/'] + b;
    AfterLastOf(dir, '/', b);
    assert b == stem + ['.'] + ext;
    assert b[|stem|] == '.';
    AfterLastOf(stem, '.', ext);
  }

  /** One of the seven target extensions. */
  predicate IsTargetExtension(e: string)
  {
    e == "php" || e == "js" || e == "css" || e == "po" || e == "pot" || e == "md" || e == "txt"
  }

  /** `in_array($ext, wpca_get_target_extensions(), true)`. */
  lemma TargetExtensionsListed(e: string)
    ensures e in TargetExtensions() <==> IsTargetExtension(e)
  {
    var l := TargetExtensions();
    assert l[0] == "php" && l[1] == "js" && l[2] == "css" && l[3] == "po";
    assert l[4] == "pot" && l[5] == "md" && l[6] == "txt";
  }

  /** wpca_is_target_text_file. */
  function IsTargetTextFile(path: string): bool
  {
    var ext := Lower(PathExtension(path));
    if ext == "mo" then false else ext in TargetExtensions()
  }

  /**
   * A file is processed exactly when its lower-cased extension is one of the
   * seven; a `.mo` file never is, and the explicit `mo` test decides nothing
   * the list does not.
   */
  lemma IsTargetTextFileMeans(path: string)
    ensures IsTargetTextFile(path) <==> IsTargetExtension(Lower(PathExtension(path)))
    ensures Lower(PathExtension(path)) == "mo" ==> !IsTargetTextFile(path)
  {
    TargetExtensionsListed(Lower(PathExtension(path)));
  }

  // ---------------------------------------------------------------------
  // wpca_normalize_line_endings

  /** wpca_normalize_line_endings: CRLF to LF, then every remaining CR to LF. */
  function NormalizeLines(content: string): string
  {
    ReplaceAll(ReplaceAll(content, "\r\n", "\n"), "\r", "\n")
  }

  /** The reference reading: scanning left to right, a CRLF pair or a lone CR becomes one LF. */
  function Unixified(s: string): (r: string)
    decreases |s|
  {
    if |s| == 0 then ""
    else if |s| >= 2 && s[0] == '\r' && s[1] == '\n' then "\n" + Unixified(s[2..])
    else if s[0] == '\r' then "\n" + Unixified(s[1..])
    else [s[0]] + Unixified(s[1..])
  }

  /** How many CRLF pairs the scan meets. */
  function CrLfCount(s: string): nat
    decreases |s|
  {
    if |s| < 2 then 0
    else if s[0] == '\r' && s[1] == '\n' then 1 + CrLfCount(s[2..])
    else CrLfCount(s[1..])
  }

  /** The two replacements are the one-pass reading. */
  lemma {:induction false} NormalizeLinesIsUnixified(s: string)
    ensures NormalizeLines(s) == Unixified(s)
    decreases |s|
  {
    var cr := "\r";
    assert cr == ['\r'];
    if |s| == 0 {
    } else if |s| >= 2 && s[0] == '\r' && s[1] == '\n' {
      assert s[..2] == "\r\n";
      NormalizeLinesIsUnixified(s[2..]);
      ReplaceCharAppend("\n", ReplaceAll(s[2..], "\r\n", "\n"), '\r', "\n");
      assert ReplaceAll("\n", cr, "\n") == "\n" by {
        ReplaceAllAbsent("\n", cr, "\n");
        assert !Contains("\n", cr) by {
          ContainsChar("\n", '\r');
        }
      }
    } else {
      assert |s| >= 2 ==> s[..2] != "\r\n" by {
        if |s| >= 2 {
          assert s[..2][0] == s[0] && s[..2][1] == s[1];
        }
      }
      assert ReplaceAll(s, "\r\n", "\n") == [s[0]] + ReplaceAll(s[1..], "\r\n", "\n");
      NormalizeLinesIsUnixified(s[1..]);
      ReplaceCharAppend([s[0]], ReplaceAll(s[1..], "\r\n", "\n"), '\r', "\n");
      assert ReplaceAll([s[0]], cr, "\n") == (if s[0] == '\r' then "\n" else [s[0]]) by {
        assert [s[0]][1..] == [];
      }
    }
  }

  /** The result holds no CR, and each CRLF pair shrinks the text by one. */
  lemma {:induction false} UnixifiedShape(s: string)
    ensures '\r' !in Unixified(s)
    ensures |Unixified(s)| == |s| - CrLfCount(s)
    ensures '\r' !in s ==> Unixified(s) == s
    decreases |s|
  {
    if |s| >= 2 && s[0] == '\r' && s[1] == '\n' {
      UnixifiedShape(s[2..]);
    } else if |s| > 0 {
      UnixifiedShape(s[1..]);
      if |s| >= 2 {
        assert CrLfCount(s) == CrLfCount(s[1..]);
      }
      if '\r' !in s {
        assert '\r' !in s[1..];
        assert [s[0]] + s[1..] == s;
      }
    }
  }

  /**
   * The normalised text holds no CR; normalising it again changes nothing;
   * text without CR is returned as it is; and the length drops by the number
   * of CRLF pairs.
   */
  lemma NormalizeLinesMeans(s: string)
    ensures '\r' !in NormalizeLines(s)
    ensures NormalizeLines(NormalizeLines(s)) == NormalizeLines(s)
    ensures '\r' !in s ==> NormalizeLines(s) == s
    ensures |NormalizeLines(s)| == |s| - CrLfCount(s)
  {
    NormalizeLinesIsUnixified(s);
    UnixifiedShape(s);
    NormalizeLinesIsUnixified(NormalizeLines(s));
    UnixifiedShape(NormalizeLines(s));
  }

  // ---------------------------------------------------------------------
  // Command-line arguments

  /** The argv loop: dry-run mode is on once any argument is exactly `--dry-run`. */
  method ParseDryRun(argv: seq<string>) returns (dryRun: bool)
    ensures dryRun <==> "--dry-run" in argv
  {
    dryRun := false;
    var i := 0;
    while i < |argv|
      invariant 0 <= i <= |argv|
      invariant dryRun <==> "--dry-run" in argv[..i]
    {
      assert argv[..i + 1] == argv[..i] + [argv[i]];
      if argv[i] == "--dry-run" {
        dryRun := true;
      }
      i := i + 1;
    }
    assert argv[..i] == argv;
  }

  // ---------------------------------------------------------------------
  // wpca_run and wpca_process_file

  /** One entry of the directory walk: its path, whether it is a regular file, and what reading it gives. */
  datatype Entry = Entry(path: string, isFile: bool, content: Option<string>)

  /** The line wpca_process_file prints. */
  datatype Report = ReadFailed(path: string) | DryRun(path: string) | Written(path: string) | WriteFailed(path: string)

  /** The text of a printed line. */
  function ReportText(r: Report): string
  {
    match r
    case ReadFailed(p) => "[SKIP] Read failed: " + p + "\n"
    case DryRun(p) => "[DRY] Normalize: " + p + "\n"
    case Written(p) => "[OK] " + " Normalize: " + p + "\n"
    case WriteFailed(p) => "[ERR]" + " Normalize: " + p + "\n"
  }

  /** What processing one file does: its printed line and the file it writes, if any. */
  datatype Outcome = Outcome(report: Report, write: Option<(string, string)>)

  /** wpca_process_file, with the success of the write as a parameter. */
  function ProcessFile(e: Entry, dryRun: bool, writeOk: (string, string) -> bool): (o: Outcome)
    ensures o.report.path == e.path
    ensures e.content.None? <==> o.report.ReadFailed?
    ensures e.content.Some? && dryRun <==> o.report.DryRun?
    ensures o.write.Some? <==> e.content.Some? && !dryRun
    ensures o.write.Some? ==> (o.write.value == (e.path, NormalizeLines(e.content.value))
      && (o.report.Written? <==> writeOk(e.path, o.write.value.1)))
  {
    if e.content.None? then Outcome(ReadFailed(e.path), None)
    else
      var normalized := NormalizeLines(e.content.value);
      if dryRun then Outcome(DryRun(e.path), None)
      else
        var ok := writeOk(e.path, normalized);
        Outcome(if ok then Written(e.path) else WriteFailed(e.path), Some((e.path, normalized)))
  }

  /** The walk's files the tool processes. */
  predicate Processed(e: Entry)
  {
    e.isFile && IsTargetTextFile(e.path)
  }

  /** The output and the writes of wpca_run over the entries, in order. */
  function RunOver(es: seq<Entry>, dryRun: bool, writeOk: (string, string) -> bool): (seq<Report>, seq<(string, string)>)
    decreases |es|
  {
    if |es| == 0 then ([], [])
    else
      var r := RunOver(es[..|es| - 1], dryRun, writeOk);
      var e := es[|es| - 1];
      if !Processed(e) then r
      else
        var o := ProcessFile(e, dryRun, writeOk);
        (r.0 + [o.report], r.1 + (if o.write.Some? then [o.write.value] else []))
  }

  /** wpca_run: the loop over the walk, skipping what is not a target text file. */
  method Run(es: seq<Entry>, dryRun: bool, writeOk: (string, string) -> bool) returns (out: seq<Report>, writes: seq<(string, string)>)
    ensures (out, writes) == RunOver(es, dryRun, writeOk)
  {
    out := [];
    writes := [];
    var i := 0;
    while i < |es|
      invariant 0 <= i <= |es|
      invariant (out, writes) == RunOver(es[..i], dryRun, writeOk)
    {
      assert es[..i + 1][..i] == es[..i];
      var e := es[i];
      if e.isFile && IsTargetTextFile(e.path) {
        var o := ProcessFile(e, dryRun, writeOk);
        out := out + [o.report];
        if o.write.Some? {
          writes := writes + [o.write.value];
        } else {
          assert writes + [] == writes;
        }
      }
      i := i + 1;
    }
    assert es[..i] == es;
  }

  /** One line is printed per processed file, and a dry run writes nothing. */
  lemma {:induction false} RunOverCounts(es: seq<Entry>, dryRun: bool, writeOk: (string, string) -> bool)
    ensures |RunOver(es, dryRun, writeOk).0| == |ProcessedOf(es)|
    ensures dryRun ==> RunOver(es, dryRun, writeOk).1 == []
    decreases |es|
  {
    if |es| > 0 {
      RunOverCounts(es[..|es| - 1], dryRun, writeOk);
    }
  }

  /**
   * Every write goes to a processed file that could be read, with its content
   * normalised, so no written file holds a CR.
   */
  lemma {:induction false} RunOverWrites(es: seq<Entry>, dryRun: bool, writeOk: (string, string) -> bool, w: (string, string))
    requires w in RunOver(es, dryRun, writeOk).1
    ensures exists i :: (0 <= i < |es| && Processed(es[i]) && es[i].path == w.0 && es[i].content.Some?
      && w.1 == NormalizeLines(es[i].content.value))
    ensures '\r' !in w.1
    decreases |es|
  {
    var n := |es| - 1;
    var init := es[..n];
    var e := es[n];
    var o := ProcessFile(e, dryRun, writeOk);
    if Processed(e) && o.write.Some? && w == o.write.value {
      NormalizeLinesMeans(e.content.value);
    } else {
      assert w in RunOver(init, dryRun, writeOk).1;
      RunOverWrites(init, dryRun, writeOk, w);
      var i :| 0 <= i < n && Processed(init[i]) && init[i].path == w.0 && init[i].content.Some?
        && w.1 == NormalizeLines(init[i].content.value);
      assert init[i] == es[i];
    }
  }

  /** The processed entries, in order. */
  function ProcessedOf(es: seq<Entry>): seq<Entry>
    decreases |es|
  {
    if |es| == 0 then []
    else ProcessedOf(es[..|es| - 1]) + (if Processed(es[|es| - 1]) then [es[|es| - 1]] else [])
  }
}
