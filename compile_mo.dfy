/**
 * compile-mo.php: a stand-alone script that turns each PO catalogue into a
 * binary MO catalogue with its own small parser and writer.
 *
 * parse_po_content is a line-by-line state machine over the open entry
 * (`$current_entry` with its two flags); create_minimal_mo writes the
 * header with `pack('N', ..)` (big-endian) and then one table that
 * interleaves each original's descriptor with the original itself,
 * followed by the translations.
 */
module CompileMo {
  import opened Wrappers
  import opened PhpStrings
  import opened PhpValues
  import opened MoFormat
  import opened PoText

  // ---------------------------------------------------------------------
  // parse_po_content

  /**
   * The parser's state: the entries kept so far, the open entry's msgid and
   * msgstr (None while the key is not set in `$current_entry`), and the flags.
   */
  datatype CState = CState(entries: seq<Message>, msgid: Option<string>, msgstr: Option<string>, inMsgid: bool, inMsgstr: bool)

  const CStart: CState := CState([], None, None, false, false)

  /** `$s .= $piece` on a key that may be unset (PHP reads an unset key as ""). */
  function Extend(s: Option<string>, piece: string): Option<string>
  {
    Some((if s.Some? then s.value else "") + piece)
  }

  /** The open entry is kept when both its msgid and its msgstr are set. */
  function Save(st: CState): seq<Message>
  {
    if st.msgid.Some? && st.msgstr.Some? then st.entries + [Message(st.msgid.value, st.msgstr.value)] else st.entries
  }

  /** `empty($line) || $line[0] == '#'` on the trimmed line. */
  predicate Skipped(t: string)
  {
    EmptyString(t) || t[0] == '#'
  }

  /** One line of parse_po_content. */
  function CParseLine(st: CState, line: string): CState
  {
    var t := Trim(line);
    if Skipped(t) then st
    else if IsPrefix("msgid \"", t) then CState(Save(st), Some(SubstrButLast(t, 7)), None, true, false)
    else if st.inMsgid && IsPrefix("\"", t) then st.(msgid := Extend(st.msgid, SubstrButLast(t, 1)))
    else if IsPrefix("msgstr \"", t) then st.(msgstr := Some(SubstrButLast(t, 8)), inMsgid := false, inMsgstr := true)
    else if st.inMsgstr && IsPrefix("\"", t) then st.(msgstr := Extend(st.msgstr, SubstrButLast(t, 1)))
    else st
  }

  /** The state after the lines ls, starting from st. */
  function CParseFrom(st: CState, ls: seq<string>): CState
  {
    if |ls| == 0 then st else CParseLine(CParseFrom(st, ls[..|ls| - 1]), ls[|ls| - 1])
  }

  lemma CParseFromStep(st: CState, ls: seq<string>, i: nat)
    requires i < |ls|
    ensures CParseFrom(st, ls[..i + 1]) == CParseLine(CParseFrom(st, ls[..i]), ls[i])
  {
    assert ls[..i + 1][..i] == ls[..i];
  }

  /** What parse_po_content returns. */
  function ParseContentSpec(content: string): seq<Message>
  {
    Save(CParseFrom(CStart, Split(content, '\n')))
  }

  method ParsePoContent(content: string) returns (entries: seq<Message>)
    ensures entries == ParseContentSpec(content)
  {
    var lines := Split(content, '\n');
    var msgid, msgstr, inMsgid, inMsgstr;
    entries, msgid, msgstr, inMsgid, inMsgstr := CParseLines(lines);
    if msgid.Some? && msgstr.Some? {
      entries := entries + [Message(msgid.value, msgstr.value)];
    }
  }

  /** parse_po_content's foreach over the lines. */
  method CParseLines(lines: seq<string>)
    returns (entries: seq<Message>, msgid: Option<string>, msgstr: Option<string>, inMsgid: bool, inMsgstr: bool)
    ensures CState(entries, msgid, msgstr, inMsgid, inMsgstr) == CParseFrom(CStart, lines)
  {
    entries, msgid, msgstr, inMsgid, inMsgstr := [], None, None, false, false;
    var i := 0;
    assert lines[..0] == [];
    while i < |lines|
      invariant 0 <= i <= |lines|
      invariant CState(entries, msgid, msgstr, inMsgid, inMsgstr) == CParseFrom(CStart, lines[..i])
    {
      CParseFromStep(CStart, lines, i);
      entries, msgid, msgstr, inMsgid, inMsgstr := CParseOneLine(entries, msgid, msgstr, inMsgid, inMsgstr, lines[i]);
      i := i + 1;
    }
    assert lines[..i] == lines;
  }

  /** The body of the foreach: one trimmed line against the open entry. */
  method CParseOneLine(entries0: seq<Message>, msgid0: Option<string>, msgstr0: Option<string>, inMsgid0: bool, inMsgstr0: bool, line: string)
    returns (entries: seq<Message>, msgid: Option<string>, msgstr: Option<string>, inMsgid: bool, inMsgstr: bool)
    ensures CState(entries, msgid, msgstr, inMsgid, inMsgstr) == CParseLine(CState(entries0, msgid0, msgstr0, inMsgid0, inMsgstr0), line)
  {
    entries, msgid, msgstr, inMsgid, inMsgstr := entries0, msgid0, msgstr0, inMsgid0, inMsgstr0;
    var t := Trim(line);
    if EmptyString(t) || t[0] == '#' {
      return;
    }
    if IsPrefix("msgid \"", t) {
      if msgid.Some? && msgstr.Some? {
        entries := entries + [Message(msgid.value, msgstr.value)];
      }
      msgid, msgstr := Some(SubstrButLast(t, 7)), None;
      inMsgid, inMsgstr := true, false;
    } else if inMsgid && IsPrefix("\"", t) {
      msgid := Extend(msgid, SubstrButLast(t, 1));
    } else if IsPrefix("msgstr \"", t) {
      msgstr := Some(SubstrButLast(t, 8));
      inMsgid, inMsgstr := false, true;
    } else if inMsgstr && IsPrefix("\"", t) {
      msgstr := Extend(msgstr, SubstrButLast(t, 1));
    }
  }

  /** Blank and comment lines can be dropped anywhere without changing what the parser ends with. */
  lemma {:induction false} SkippedLineIgnored(st: CState, a: seq<string>, line: string, b: seq<string>)
    requires Skipped(Trim(line))
    ensures CParseFrom(st, a + [line] + b) == CParseFrom(st, a + b)
    decreases |b|
  {
    if |b| == 0 {
      assert a + [line] + b == a + [line];
      assert (a + [line])[..|a|] == a;
      assert a + b == a;
    } else {
      var b' := b[..|b| - 1];
      assert (a + [line] + b)[..|a + [line] + b| - 1] == a + [line] + b';
      assert (a + b)[..|a + b| - 1] == a + b';
      SkippedLineIgnored(st, a, line, b');
    }
  }

  /** A line that starts with a letter or a quote and ends with a quote is its own trim, and is not skipped. */
  lemma KeywordLineTrim(t: string)
    requires |t| >= 2 && t[0] in {'m', '"'} && t[|t| - 1] == '"'
    ensures Trim(t) == t && !Skipped(t)
  {
    TrimSetNoop(t, TrimDefault);
  }

  /** A `msgid "x"` line opens a new entry with msgid x, keeping the previous one if it is complete. */
  lemma IdLineStep(st: CState, x: string)
    ensures CParseLine(st, IdLine(x)) == CState(Save(st), Some(x), None, true, false)
  {
    var t := IdLine(x);
    KeywordLineTrim(t);
    assert t[..7] == "msgid \"";
    assert t[7..|t| - 1] == x;
  }

  /** A `msgstr "y"` line sets the msgstr of the open entry to y. */
  lemma StrLineStep(st: CState, y: string)
    ensures CParseLine(st, StrLine(y)) == st.(msgstr := Some(y), inMsgid := false, inMsgstr := true)
  {
    var t := StrLine(y);
    KeywordLineTrim(t);
    assert t[4] == 't' != "msgid \""[4];
    assert !IsPrefix("msgid \"", t);
    assert !IsPrefix("\"", t) by { assert t[..1][0] == 'm'; }
    assert t[..8] == "msgstr \"";
    assert t[8..|t| - 1] == y;
  }

  /** A continuation line `"z"` appends z to whichever of msgid and msgstr is open. */
  lemma ContLineStep(st: CState, z: string)
    requires st.inMsgid || st.inMsgstr
    ensures CParseLine(st, ContLine(z)) ==
      if st.inMsgid then st.(msgid := Extend(st.msgid, z)) else st.(msgstr := Extend(st.msgstr, z))
  {
    var t := ContLine(z);
    KeywordLineTrim(t);
    assert !IsPrefix("msgid \"", t) by { if 7 <= |t| { assert t[..7][0] == t[0]; } }
    assert !IsPrefix("msgstr \"", t) by { if 8 <= |t| { assert t[..8][0] == t[0]; } }
    assert t[..1] == "\"";
    assert t[1..|t| - 1] == z;
  }

  /**
   * The values are the text between the keyword's quote and the last byte, and
   * continuation lines append the text between their first and last byte: an
   * entry written over four lines reads back as the two joined values.
   */
  lemma ContinuedEntry(st: CState, x1: string, x2: string, y1: string, y2: string)
    ensures CParseFrom(st, [IdLine(x1), ContLine(x2), StrLine(y1), ContLine(y2)])
      == CState(Save(st), Some(x1 + x2), Some(y1 + y2), false, true)
  {
    var first := [IdLine(x1), ContLine(x2)];
    assert [IdLine(x1), ContLine(x2), StrLine(y1), ContLine(y2)] == first + [StrLine(y1), ContLine(y2)];
    assert first == [] + [IdLine(x1), ContLine(x2)];
    CParseFromTwo(st, first, StrLine(y1), ContLine(y2));
    CParseFromTwo(st, [], IdLine(x1), ContLine(x2));
    IdLineStep(st, x1);
    var s1 := CState(Save(st), Some(x1), None, true, false);
    ContLineStep(s1, x2);
    var s2 := s1.(msgid := Some(x1 + x2));
    StrLineStep(s2, y1);
    var s3 := s2.(msgstr := Some(y1), inMsgid := false, inMsgstr := true);
    ContLineStep(s3, y2);
  }

  /** Two more lines are two more steps. */
  lemma CParseFromTwo(st: CState, pre: seq<string>, a: string, b: string)
    ensures CParseFrom(st, pre + [a, b]) == CParseLine(CParseLine(CParseFrom(st, pre), a), b)
  {
    var ls := pre + [a, b];
    assert ls[..|ls| - 1] == pre + [a];
    assert (pre + [a])[..|pre|] == pre;
  }

  /** The state after the lines of ms: all but the last message kept, the last one open. */
  function Rendered(ms: seq<Message>): CState
  {
    if |ms| == 0 then CStart
    else CState(ms[..|ms| - 1], Some(ms[|ms| - 1].original), Some(ms[|ms| - 1].translation), false, true)
  }

  /** Saving that state keeps every message. */
  lemma SaveRendered(ms: seq<Message>)
    ensures Save(Rendered(ms)) == ms
  {
    if |ms| > 0 {
      assert ms == ms[..|ms| - 1] + [ms[|ms| - 1]];
    }
  }

  /** After the lines of a non-empty ms, all but the last message are kept and the last is open. */
  lemma {:induction false} RenderState(ms: seq<Message>)
    ensures CParseFrom(CStart, RenderLines(ms)) == Rendered(ms)
    decreases |ms|
  {
    if |ms| > 0 {
      var init := ms[..|ms| - 1];
      var m := ms[|ms| - 1];
      var pre := RenderLines(init);
      RenderState(init);
      CParseFromTwo(CStart, pre, IdLine(m.original), StrLine(m.translation));
      var st := Rendered(init);
      SaveRendered(init);
      IdLineStep(st, m.original);
      StrLineStep(CState(init, Some(m.original), None, true, false), m.translation);
    }
  }

  lemma CParseFromSnoc(st: CState, pre: seq<string>, a: string)
    ensures CParseFrom(st, pre + [a]) == CParseLine(CParseFrom(st, pre), a)
  {
    assert (pre + [a])[..|pre|] == pre;
  }

  /** The empty part after a final newline changes nothing. */
  lemma BlankStep(st: CState)
    ensures CParseLine(st, "") == st
  {
    assert Trim("") == "";
  }

  /** Text made of newline-terminated lines parses as those lines. */
  lemma ParseContentLines(ls: seq<string>)
    requires NoNewlines(ls)
    ensures ParseContentSpec(Lines(ls)) == Save(CParseFrom(CStart, ls))
  {
    SplitLines(ls);
    CParseFromSnoc(CStart, ls, "");
    BlankStep(CParseFrom(CStart, ls));
  }

  /**
   * parse_po_content reads back every message written one `msgid`/`msgstr`
   * pair per entry, in order, a `msgid ""` header entry included.
   */
  lemma ParseRender(ms: seq<Message>)
    requires OneLine(ms)
    ensures ParseContentSpec(Lines(RenderLines(ms))) == ms
  {
    RenderOneLine(ms);
    ParseContentLines(RenderLines(ms));
    RenderState(ms);
    SaveRendered(ms);
  }

  /** A msgid line with no msgstr before the next msgid line opens an entry that is dropped. */
  lemma UnfinishedDropped(x: string, y: string, z: string)
    requires '\n' !in x && '\n' !in y && '\n' !in z
    ensures ParseContentSpec(Lines([IdLine(x), IdLine(y), StrLine(z)])) == [Message(y, z)]
  {
    var ls := [IdLine(x), IdLine(y), StrLine(z)];
    assert NoNewlines(ls) by {
      LineNoNewline(x);
      LineNoNewline(y);
      LineNoNewline(z);
    }
    ParseContentLines(ls);
    UnfinishedState(x, y, z);
  }

  lemma UnfinishedState(x: string, y: string, z: string)
    ensures CParseFrom(CStart, [IdLine(x), IdLine(y), StrLine(z)]) == CState([], Some(y), Some(z), false, true)
  {
    assert [IdLine(x), IdLine(y), StrLine(z)] == [IdLine(x)] + [IdLine(y), StrLine(z)];
    assert [IdLine(x)] == [] + [IdLine(x)];
    CParseFromTwo(CStart, [IdLine(x)], IdLine(y), StrLine(z));
    CParseFromSnoc(CStart, [], IdLine(x));
    IdLineStep(CStart, x);
    IdLineStep(CState([], Some(x), None, true, false), y);
    StrLineStep(CState([], Some(y), None, true, false), z);
  }

  // ---------------------------------------------------------------------
  // create_minimal_mo

  function Originals(ms: seq<Message>): (xs: seq<string>)
    ensures |xs| == |ms| && forall k :: 0 <= k < |ms| ==> xs[k] == ms[k].original
  {
    seq(|ms|, k requires 0 <= k < |ms| => ms[k].original)
  }

  function Translations(ms: seq<Message>): (ys: seq<string>)
    ensures |ys| == |ms| && forall k :: 0 <= k < |ms| ==> ys[k] == ms[k].translation
  {
    seq(|ms|, k requires 0 <= k < |ms| => ms[k].translation)
  }

  /** `$original_strings_size`: Σ (strlen(msgid) + 1 + 8). */
  function OriginalsSize(ms: seq<Message>): nat
  {
    if |ms| == 0 then 0 else OriginalsSize(ms[..|ms| - 1]) + |ms[|ms| - 1].original| + 9
  }

  lemma {:induction false} OriginalsAtLeast(ms: seq<Message>)
    ensures OriginalsSize(ms) >= 9 * |ms|
    decreases |ms|
  {
    if |ms| > 0 {
      OriginalsAtLeast(ms[..|ms| - 1]);
    }
  }

  /** The final `$translated_offset`: Σ (strlen(msgstr) + 1). */
  function TranslationsSize(ms: seq<Message>): nat
  {
    if |ms| == 0 then 0 else TranslationsSize(ms[..|ms| - 1]) + |ms[|ms| - 1].translation| + 1
  }

  /**
   * `$original_table`: for each message the big-endian length of its msgid,
   * the offset `base + $translated_offset`, and the msgid with its NUL.
   */
  function OriginalTable(ms: seq<Message>, base: nat): string
  {
    if |ms| == 0 then ""
    else
      var init := ms[..|ms| - 1];
      var m := ms[|ms| - 1];
      OriginalTable(init, base) + Word(|m.original|, false) + Word(base + TranslationsSize(init), false) + m.original + "\0"
  }

  /** What create_minimal_mo returns for the parsed messages ms. */
  function MinimalMo(ms: seq<Message>): string
  {
    if |ms| == 0 then "" else MinimalMoSized(ms, OriginalsSize(ms))
  }

  /** The header, `$original_table` and `$translated_table`, for `$original_strings_size` = size. */
  function MinimalMoSized(ms: seq<Message>, size: nat): string
  {
    Header(|ms|, 28, 28 + size, 0, 28 + size + size, false) + OriginalTable(ms, 28 + size) + StringTable(Translations(ms))
  }

  method CreateMinimalMo(content: string) returns (mo: string)
    ensures mo == MinimalMo(ParseContentSpec(content))
  {
    var entries := ParsePoContent(content);
    if |entries| == 0 {
      return "";
    }
    var size := SumOriginals(entries);
    var header := Header(|entries|, 28, 28 + size, 0, 28 + size + size, false);
    var originalTable, translatedTable := BuildTables(entries, size);
    mo := header + originalTable + translatedTable;
    SizedParts(entries, size, header, originalTable, translatedTable);
  }

  lemma SizedParts(ms: seq<Message>, size: nat, h: string, o: string, t: string)
    requires h == Header(|ms|, 28, 28 + size, 0, 28 + size + size, false)
    requires o == OriginalTable(ms, 28 + size) && t == StringTable(Translations(ms))
    ensures h + o + t == MinimalMoSized(ms, size)
  {
  }

  /** The foreach that adds up `$original_strings_size`. */
  method SumOriginals(ms: seq<Message>) returns (size: nat)
    ensures size == OriginalsSize(ms)
  {
    size := 0;
    var i := 0;
    while i < |ms|
      invariant 0 <= i <= |ms|
      invariant size == OriginalsSize(ms[..i])
    {
      assert ms[..i + 1][..i] == ms[..i];
      size := size + |ms[i].original| + 1 + 8;
      i := i + 1;
    }
    assert ms[..i] == ms;
  }

  /** The foreach that builds `$original_table` and `$translated_table`, advancing `$translated_offset`. */
  method BuildTables(ms: seq<Message>, size: nat) returns (originalTable: string, translatedTable: string)
    ensures originalTable == OriginalTable(ms, 28 + size)
    ensures translatedTable == StringTable(Translations(ms))
  {
    originalTable, translatedTable := "", "";
    var translatedOffset := 0;
    var i := 0;
    assert Translations(ms[..0]) == [];
    while i < |ms|
      invariant 0 <= i <= |ms|
      invariant originalTable == OriginalTable(ms[..i], 28 + size)
      invariant translatedTable == StringTable(Translations(ms[..i]))
      invariant translatedOffset == TranslationsSize(ms[..i])
    {
      var msgid := ms[i].original;
      var msgstr := ms[i].translation;
      assert ms[..i + 1][..i] == ms[..i];
      originalTable := originalTable + Word(|msgid|, false);
      originalTable := originalTable + Word(28 + size + translatedOffset, false);
      originalTable := originalTable + msgid + "\0";
      TranslationsStep(ms, i);
      translatedTable := translatedTable + msgstr + "\0";
      translatedOffset := translatedOffset + |msgstr| + 1;
      i := i + 1;
    }
    assert ms[..i] == ms;
  }

  lemma TranslationsStep(ms: seq<Message>, i: nat)
    requires i < |ms|
    ensures StringTable(Translations(ms[..i + 1])) == StringTable(Translations(ms[..i])) + ms[i].translation + "\0"
  {
    assert Translations(ms[..i + 1]) == Translations(ms[..i]) + [ms[i].translation];
    StringTableAppend(Translations(ms[..i]), [ms[i].translation]);
    StringTableOne(ms[i].translation);
  }

  lemma {:induction false} OriginalTableLength(ms: seq<Message>, base: nat)
    ensures |OriginalTable(ms, base)| == OriginalsSize(ms)
    decreases |ms|
  {
    if |ms| > 0 {
      OriginalTableLength(ms[..|ms| - 1], base);
    }
  }

  lemma {:induction false} TranslationsLength(ms: seq<Message>)
    ensures |StringTable(Translations(ms))| == TranslationsSize(ms)
    decreases |ms|
  {
    if |ms| > 0 {
      var i := |ms| - 1;
      TranslationsLength(ms[..i]);
      TranslationsStep(ms, i);
      assert ms[..i + 1] == ms;
    }
  }

  /** The output is empty exactly when no entry was parsed, and otherwise 28 + Σ(|msgid|+9) + Σ(|msgstr|+1) bytes long. */
  lemma MinimalMoLength(ms: seq<Message>)
    ensures MinimalMo(ms) == "" <==> |ms| == 0
    ensures |ms| > 0 ==> |MinimalMo(ms)| == 28 + OriginalsSize(ms) + TranslationsSize(ms)
  {
    if |ms| > 0 {
      SizedLength(ms, OriginalsSize(ms));
    }
  }

  lemma SizedLength(ms: seq<Message>, size: nat)
    ensures |MinimalMoSized(ms, size)| == 28 + OriginalsSize(ms) + TranslationsSize(ms)
  {
    OriginalTableLength(ms, 28 + size);
    TranslationsLength(ms);
  }

  /**
   * The header is big-endian: the magic number, version 0, one entry per
   * message, originals at 28, translations at 28 + S and the (empty) hash
   * table at 28 + 2S, with S = Σ(|msgid| + 9); read little-endian the magic
   * number does not match.
   */
  lemma MinimalMoHeader(ms: seq<Message>)
    requires |ms| > 0 && 28 + 2 * OriginalsSize(ms) < WordRange
    ensures var s := MinimalMo(ms); var size := OriginalsSize(ms);
      && |s| >= 28
      && WordAt(s, 0, false) == Magic && WordAt(s, 4, false) == 0 && WordAt(s, 8, false) == |ms|
      && WordAt(s, 12, false) == 28 && WordAt(s, 16, false) == 28 + size
      && WordAt(s, 20, false) == 0 && WordAt(s, 24, false) == 28 + 2 * size
      && WordAt(s, 0, true) != Magic
  {
    var size := OriginalsSize(ms);
    var h := Header(|ms|, 28, 28 + size, 0, 28 + size + size, false);
    var o, t := OriginalTable(ms, 28 + size), StringTable(Translations(ms));
    assert MinimalMo(ms) == MinimalMoSized(ms, size);
    SizedParts(ms, size, h, o, t);
    ConcatAssoc(h, o, t);
    OriginalsAtLeast(ms);
    HeaderFields(h + (o + t), h, o + t, |ms|, size);
  }

  lemma HeaderFields(s: string, h: string, rest: string, n: nat, size: nat)
    requires s == h + rest && h == Header(n, 28, 28 + size, 0, 28 + size + size, false)
    requires n < WordRange && 28 + 2 * size < WordRange
    ensures |s| >= 28
      && WordAt(s, 0, false) == Magic && WordAt(s, 4, false) == 0 && WordAt(s, 8, false) == n
      && WordAt(s, 12, false) == 28 && WordAt(s, 16, false) == 28 + size
      && WordAt(s, 20, false) == 0 && WordAt(s, 24, false) == 28 + 2 * size
      && WordAt(s, 0, true) != Magic
  {
    PrefixOfConcat(h, rest);
    HeaderRead(s, n, 28, 28 + size, 0, 28 + size + size, false);
    HeaderHashRead(s, n, 28, 28 + size, 0, 28 + size + size, false);
  }

  /**
   * The descriptors of the originals are the consecutive 8-byte groups from
   * offset 28, but the original strings sit between them: the single message
   * ("a", "b") gives a 40-byte file whose second descriptor would be read
   * past its end, so the file decodes to nothing.
   */
  lemma MinimalMoCounterexample()
    ensures MoDecode(MinimalMo([Message("a", "b")])) == None
  {
    var ms := [Message("a", "b")];
    assert ms[..0] == [];
    assert OriginalsSize(ms) == 10;
    MinimalMoLength(ms);
    assert TranslationsSize(ms) == 2;
    var s := MinimalMo(ms);
    assert |s| == 40;
    MinimalMoHeader(ms);
    assert StringAt(s, 38, 0, false) == None;
    assert !Resolves(s, false, 28, 38, 1);
  }

  /**
   * The file create_minimal_mo evidently means to write: the big-endian
   * header, the descriptors of the originals and of the translations, and
   * then the two string tables, each descriptor giving the absolute offset of
   * its string.
   */
  function MinimalMoIntended(ms: seq<Message>): string
  {
    if |ms| == 0 then "" else IntendedLayout(Originals(ms), Translations(ms))
  }

  function IntendedLayout(o: seq<string>, t: seq<string>): string
  {
    var ob := 28 + 16 * |o|;
    Header(|o|, 28, 28 + 8 * |o|, 0, ob, false)
    + DescTable(o, ob, false) + DescTable(t, ob + |StringTable(o)|, false)
    + StringTable(o) + StringTable(t)
  }

  /** The empty hash table between the descriptors and the strings. */
  lemma NoGap(s: string, a: string, b: string, c: string, d: string, e: string)
    requires s == a + b + c + d + e
    ensures s == a + b + c + "" + d + e
  {
    assert a + b + c + "" == a + b + c;
  }

  /** The intended file decodes, big-endian, to exactly the parsed messages in order; nothing is written for none. */
  lemma MinimalMoIntendedDecodes(ms: seq<Message>)
    requires |MinimalMoIntended(ms)| < WordRange
    ensures MoDecode(MinimalMoIntended(ms)) == if |ms| == 0 then None else Some(ms)
  {
    if |ms| > 0 {
      var o := Originals(ms);
      var t := Translations(ms);
      IntendedDecodes(o, t);
      assert Zip(o, t) == ms;
    }
  }

  lemma IntendedDecodes(o: seq<string>, t: seq<string>)
    requires |o| == |t| && |IntendedLayout(o, t)| < WordRange
    ensures MoDecode(IntendedLayout(o, t)) == Some(Zip(o, t))
  {
    var ob := 28 + 16 * |o|;
    var h := Header(|o|, 28, 28 + 8 * |o|, 0, ob, false);
    var d1, d2 := DescTable(o, ob, false), DescTable(t, ob + |StringTable(o)|, false);
    NoGap(IntendedLayout(o, t), h, d1, d2, StringTable(o), StringTable(t));
    DecodeParts(IntendedLayout(o, t), h, "", o, t, ob, ob + |StringTable(o)|, ob, false);
  }

  /** Written one pair per entry, parsed, and compiled by the corrected writer, messages come back out of the catalogue unchanged. */
  lemma CompileRoundTrip(ms: seq<Message>)
    requires OneLine(ms) && |ms| > 0 && |MinimalMoIntended(ms)| < WordRange
    ensures MoDecode(MinimalMoIntended(ParseContentSpec(Lines(RenderLines(ms))))) == Some(ms)
  {
    ParseRender(ms);
    MinimalMoIntendedDecodes(ms);
  }
}
