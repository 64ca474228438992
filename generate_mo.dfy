/**
 * languages/generate_mo.php: a stand-alone script that turns the English
 * and the Chinese PO catalogue into MO catalogues.
 *
 * generate_mo_file and parse_po_file each start by asking function_exists
 * about names that include 'empty' or 'echo', so as written both return
 * their fallback at once. Behind the guards, parse_po_file saves an entry
 * only when no string is open, which never happens after the first msgid
 * or msgstr line; generate_mo_content writes a 12-byte placeholder.
 * `pack('L', n)` is fixed as little-endian.
 */
module GenerateMo {
  import opened Wrappers
  import opened PhpStrings
  import opened PhpValues
  import opened MoFormat
  import opened Directory
  import opened PoText

  const MoFileGuard: seq<string> := ["file_exists", "str_replace", "file_get_contents", "file_put_contents",
                                     "parse_po_file", "generate_mo_content", "empty", "echo"]
  const ParseGuard: seq<string> := ["explode", "trim", "empty", "strpos", "substr", "strrpos", "strlen"]

  /** Both guards name 'empty', which is not a function. */
  lemma GuardsFail()
    ensures !AllExist(MoFileGuard) && !AllExist(ParseGuard)
  {
    assert !FunctionExists(MoFileGuard[6]);
    assert !FunctionExists(ParseGuard[2]);
  }

  // ---------------------------------------------------------------------
  // parse_po_file

  /** The parser's state: the entries array, the current msgid and msgstr, and the two flags. */
  datatype PState = PState(entries: seq<Entry>, msgid: string, msgstr: string, inMsgid: bool, inMsgstr: bool)

  const PStart: PState := PState([], "", "", false, false)

  /** The if-chain on a trimmed line that is neither blank nor a comment. */
  function Step(st: PState, t: string): PState
  {
    if IsPrefix("msgid", t) then st.(msgid := Unquote(Drop(t, 6)), inMsgid := true, inMsgstr := false)
    else if IsPrefix("msgstr", t) then st.(msgstr := Unquote(Drop(t, 7)), inMsgid := false, inMsgstr := true)
    else if st.inMsgid && Quoted(t) then st.(msgid := st.msgid + Unquote(t))
    else if st.inMsgstr && Quoted(t) then st.(msgstr := st.msgstr + Unquote(t))
    else st
  }

  /** The check after the if-chain: store and clear the pair once both are set and neither string is open. */
  function StoreIfDone(st: PState): PState
  {
    if !EmptyString(st.msgid) && !EmptyString(st.msgstr) && !st.inMsgid && !st.inMsgstr
    then PState(Put(st.entries, KeyOf(st.msgid), VStr(st.msgstr)), "", "", st.inMsgid, st.inMsgstr)
    else st
  }

  /** `empty($line) || strpos($line, '#') === 0` on the trimmed line. */
  predicate Skipped(t: string)
  {
    EmptyString(t) || IsPrefix("#", t)
  }

  /** One line of parse_po_file. */
  function PParseLine(st: PState, line: string): PState
  {
    var t := Trim(line);
    if Skipped(t) then st else StoreIfDone(Step(st, t))
  }

  function PParseFrom(st: PState, ls: seq<string>): PState
  {
    if |ls| == 0 then st else PParseLine(PParseFrom(st, ls[..|ls| - 1]), ls[|ls| - 1])
  }

  /** What parse_po_file returns behind its guard. */
  function ParseBody(content: string): seq<Entry>
  {
    if EmptyString(content) then [] else PParseFrom(PStart, Split(content, '\n')).entries
  }

  /** parse_po_file as written: the guard fails, so it returns the empty array. */
  function ParsePoFileAsWritten(content: string): seq<Entry>
  {
    if !AllExist(ParseGuard) || EmptyString(content) then [] else ParseBody(content)
  }

  lemma ParseAsWrittenEmpty(content: string)
    ensures ParsePoFileAsWritten(content) == []
  {
    GuardsFail();
  }

  method ParsePoFile(content: string) returns (entries: seq<Entry>)
    ensures entries == ParseBody(content)
  {
    if EmptyString(content) {
      return [];
    }
    var lines := Split(content, '\n');
    var msgid, msgstr, inMsgid, inMsgstr;
    entries, msgid, msgstr, inMsgid, inMsgstr := PParseLines(lines);
  }

  /** The foreach of parse_po_file over the lines, from the empty state. */
  method PParseLines(lines: seq<string>) returns (entries: seq<Entry>, msgid: string, msgstr: string, inMsgid: bool, inMsgstr: bool)
    ensures PState(entries, msgid, msgstr, inMsgid, inMsgstr) == PParseFrom(PStart, lines)
  {
    msgid, msgstr, inMsgid, inMsgstr := "", "", false, false;
    entries := [];
    var i := 0;
    assert lines[..0] == [];
    while i < |lines|
      invariant 0 <= i <= |lines|
      invariant PState(entries, msgid, msgstr, inMsgid, inMsgstr) == PParseFrom(PStart, lines[..i])
    {
      PParseFromStep(PStart, lines, i);
      entries, msgid, msgstr, inMsgid, inMsgstr := PParseOneLine(entries, msgid, msgstr, inMsgid, inMsgstr, lines[i]);
      i := i + 1;
    }
    assert lines[..i] == lines;
  }

  lemma PParseFromStep(st: PState, ls: seq<string>, i: nat)
    requires i < |ls|
    ensures PParseFrom(st, ls[..i + 1]) == PParseLine(PParseFrom(st, ls[..i]), ls[i])
  {
    assert ls[..i + 1][..i] == ls[..i];
  }

  /** The body of the foreach. */
  method PParseOneLine(entries0: seq<Entry>, msgid0: string, msgstr0: string, inMsgid0: bool, inMsgstr0: bool, line: string)
    returns (entries: seq<Entry>, msgid: string, msgstr: string, inMsgid: bool, inMsgstr: bool)
    ensures PState(entries, msgid, msgstr, inMsgid, inMsgstr) == PParseLine(PState(entries0, msgid0, msgstr0, inMsgid0, inMsgstr0), line)
  {
    entries, msgid, msgstr, inMsgid, inMsgstr := entries0, msgid0, msgstr0, inMsgid0, inMsgstr0;
    var t := Trim(line);
    if EmptyString(t) || IsPrefix("#", t) {
      return;
    }
    if IsPrefix("msgid", t) {
      msgid := Unquote(Drop(t, 6));
      inMsgid, inMsgstr := true, false;
    } else if IsPrefix("msgstr", t) {
      msgstr := Unquote(Drop(t, 7));
      inMsgid, inMsgstr := false, true;
    } else if inMsgid && |t| > 0 && t[0] == '"' && t[|t| - 1] == '"' {
      msgid := msgid + Unquote(t);
    } else if inMsgstr && |t| > 0 && t[0] == '"' && t[|t| - 1] == '"' {
      msgstr := msgstr + Unquote(t);
    }
    if !EmptyString(msgid) && !EmptyString(msgstr) && !inMsgid && !inMsgstr {
      entries := Put(entries, KeyOf(msgid), VStr(msgstr));
      msgid, msgstr := "", "";
    }
  }

  /**
   * Before the first msgid or msgstr line both flags are down and both
   * strings empty; from then on exactly one flag is up. Either way nothing
   * has been stored.
   */
  predicate FlagsInv(st: PState)
  {
    && st.entries == []
    && (st.inMsgid != st.inMsgstr || (!st.inMsgid && !st.inMsgstr && st.msgid == "" && st.msgstr == ""))
  }

  lemma PParseLineInv(st: PState, line: string)
    requires FlagsInv(st)
    ensures FlagsInv(PParseLine(st, line))
  {
  }

  lemma {:induction false} PParseFromInv(ls: seq<string>)
    ensures FlagsInv(PParseFrom(PStart, ls))
    decreases |ls|
  {
    if |ls| > 0 {
      PParseFromInv(ls[..|ls| - 1]);
      PParseLineInv(PParseFrom(PStart, ls[..|ls| - 1]), ls[|ls| - 1]);
    }
  }

  /** Even behind its guard, parse_po_file stores no entry for any input. */
  lemma ParseNeverStores(content: string)
    ensures ParseBody(content) == []
  {
    if !EmptyString(content) {
      PParseFromInv(Split(content, '\n'));
    }
  }

  // The parser evidently intended: the pair read so far is stored when the
  // next msgid line opens a new entry, and at the end of the text.

  /** Store the pair when both strings are non-empty. */
  function ISave(st: PState): seq<Entry>
  {
    if !EmptyString(st.msgid) && !EmptyString(st.msgstr) then Put(st.entries, KeyOf(st.msgid), VStr(st.msgstr)) else st.entries
  }

  function IParseLine(st: PState, line: string): PState
  {
    var t := Trim(line);
    if Skipped(t) then st
    else if IsPrefix("msgid", t) then PState(ISave(st), Unquote(Drop(t, 6)), "", true, false)
    else Step(st, t)
  }

  function IParseFrom(st: PState, ls: seq<string>): PState
  {
    if |ls| == 0 then st else IParseLine(IParseFrom(st, ls[..|ls| - 1]), ls[|ls| - 1])
  }

  function ParseIntended(content: string): seq<Entry>
  {
    if EmptyString(content) then [] else ISave(IParseFrom(PStart, Split(content, '\n')))
  }

  /** A value the line format carries as it is: not empty in PHP's sense, no newline, no quote at either end. */
  predicate Plain(x: string)
  {
    !EmptyString(x) && '\n' !in x && x[0] != '"' && x[|x| - 1] != '"'
  }

  predicate PlainMessages(ms: seq<Message>)
  {
    forall k :: 0 <= k < |ms| ==> Plain(ms[k].original) && Plain(ms[k].translation)
  }

  lemma IdLineRead(x: string)
    requires Plain(x)
    ensures Trim(IdLine(x)) == IdLine(x) && !Skipped(IdLine(x))
    ensures IsPrefix("msgid", IdLine(x)) && Unquote(Drop(IdLine(x), 6)) == x
  {
    KeywordLine(IdLine(x));
    assert IdLine(x)[..5] == "msgid";
    IdLineValue(x);
  }

  lemma IdLineValue(x: string)
    requires Plain(x)
    ensures Unquote(Drop(IdLine(x), 6)) == x
  {
    assert Drop(IdLine(x), 6) == "\"" + x + "\"";
    UnquoteWrapped(x);
  }

  lemma StrLineRead(y: string)
    requires Plain(y)
    ensures Trim(StrLine(y)) == StrLine(y) && !Skipped(StrLine(y))
    ensures !IsPrefix("msgid", StrLine(y)) && IsPrefix("msgstr", StrLine(y)) && Unquote(Drop(StrLine(y), 7)) == y
  {
    var t := StrLine(y);
    KeywordLine(t);
    assert t[..6] == "msgstr";
    assert t[..5][4] == 't';
    StrLineValue(y);
  }

  lemma StrLineValue(y: string)
    requires Plain(y)
    ensures Unquote(Drop(StrLine(y), 7)) == y
  {
    assert Drop(StrLine(y), 7) == "\"" + y + "\"";
    UnquoteWrapped(y);
  }

  /** A line that starts with 'm' and ends with a quote is its own trim and is neither blank nor a comment. */
  lemma KeywordLine(t: string)
    requires |t| >= 2 && t[0] == 'm' && t[|t| - 1] == '"'
    ensures Trim(t) == t && !Skipped(t)
  {
    TrimSetNoop(t, TrimDefault);
    assert !IsPrefix("#", t) by { assert t[..1][0] == 'm'; }
  }

  /** The state after the lines of ms: all but the last message assigned, the last one read with its msgstr open. */
  function IRendered(ms: seq<Message>): PState
  {
    if |ms| == 0 then PStart
    else PState(Assigned(ms[..|ms| - 1]), ms[|ms| - 1].original, ms[|ms| - 1].translation, false, true)
  }

  lemma IParseFromTwo(st: PState, pre: seq<string>, a: string, b: string)
    ensures IParseFrom(st, pre + [a, b]) == IParseLine(IParseLine(IParseFrom(st, pre), a), b)
  {
    var ls := pre + [a, b];
    assert ls[..|ls| - 1] == pre + [a];
    assert (pre + [a])[..|pre|] == pre;
  }

  lemma ISaveRendered(ms: seq<Message>)
    requires PlainMessages(ms)
    ensures ISave(IRendered(ms)) == Assigned(ms)
  {
  }

  lemma {:induction false} IRenderState(ms: seq<Message>)
    requires PlainMessages(ms)
    ensures IParseFrom(PStart, RenderLines(ms)) == IRendered(ms)
    decreases |ms|
  {
    if |ms| > 0 {
      var init := ms[..|ms| - 1];
      var m := ms[|ms| - 1];
      assert PlainMessages(init) by {
        forall k | 0 <= k < |init| ensures Plain(init[k].original) && Plain(init[k].translation) {
          assert init[k] == ms[k];
        }
      }
      IRenderState(init);
      IParseFromTwo(PStart, RenderLines(init), IdLine(m.original), StrLine(m.translation));
      ISaveRendered(init);
      IdLineRead(m.original);
      StrLineRead(m.translation);
    }
  }

  lemma IParseFromSnoc(st: PState, pre: seq<string>, a: string)
    ensures IParseFrom(st, pre + [a]) == IParseLine(IParseFrom(st, pre), a)
  {
    assert (pre + [a])[..|pre|] == pre;
  }

  /**
   * The intended parser reads a catalogue written one `msgid`/`msgstr` pair
   * per message as the array of those assignments, in order.
   */
  lemma ParseIntendedRender(ms: seq<Message>)
    requires PlainMessages(ms)
    ensures ParseIntended(Lines(RenderLines(ms))) == Assigned(ms)
  {
    var ls := RenderLines(ms);
    assert OneLine(ms) by {
      forall k | 0 <= k < |ms| ensures '\n' !in ms[k].original && '\n' !in ms[k].translation {
        assert Plain(ms[k].original) && Plain(ms[k].translation);
      }
    }
    RenderOneLine(ms);
    SplitLines(ls);
    IRenderState(ms);
    ISaveRendered(ms);
    if |ms| == 0 {
      assert Lines(ls) == "";
    } else {
      IParseFromSnoc(PStart, ls, "");
      assert Trim("") == "";
      assert |Lines(ls)| > 1 by { assert Lines(ls) == ls[0] + "\n" + Lines(ls[1..]); }
    }
  }

  /** The same text, read by parse_po_file as written, gives the empty array. */
  lemma ParseRenderAsWritten(ms: seq<Message>)
    ensures ParseBody(Lines(RenderLines(ms))) == []
  {
    ParseNeverStores(Lines(RenderLines(ms)));
  }

  // ---------------------------------------------------------------------
  // generate_mo_content

  /** The magic number, version 0 and a count of 1, whatever the entries. */
  function GenerateMoContent(entries: seq<Entry>): string
  {
    Word(Magic, true) + Word(0, true) + Word(1, true)
  }

  /** The placeholder is 12 bytes for any entries, starts with the magic number, and is too short to be a catalogue. */
  lemma MoContentPlaceholder(entries: seq<Entry>)
    ensures |GenerateMoContent(entries)| == 12
    ensures WordAt(GenerateMoContent(entries), 0, true) == Magic
    ensures WordAt(GenerateMoContent(entries), 8, true) == 1
    ensures MoDecode(GenerateMoContent(entries)) == None
  {
    var s := GenerateMoContent(entries);
    WordAtRoundTrip("", Magic, Word(0, true) + Word(1, true), true);
    assert s == "" + Word(Magic, true) + (Word(0, true) + Word(1, true));
    WordAtRoundTrip(Word(Magic, true) + Word(0, true), 1, "", true);
    assert s == Word(Magic, true) + Word(0, true) + Word(1, true) + "";
  }

  // ---------------------------------------------------------------------
  // generate_mo_file

  /** What generate_mo_file returns and leaves in the directory, behind its guard, with the parser p. */
  function MoFileWith(files: Files, po: string, p: string -> seq<Entry>): (bool, Files)
  {
    if po !in files then (false, files)
    else
      var es := p(files[po]);
      if |es| == 0 then (false, files) else (true, files[MoName(po) := GenerateMoContent(es)])
  }

  function MoFileBody(files: Files, po: string): (bool, Files)
  {
    MoFileWith(files, po, ParseBody)
  }

  /** generate_mo_file as written: its guard names 'empty' and 'echo'. */
  function GenerateMoFileAsWritten(files: Files, po: string): (bool, Files)
  {
    if !AllExist(MoFileGuard) then (false, files) else MoFileBody(files, po)
  }

  /** As written, and even behind its guard, generate_mo_file fails and writes nothing. */
  lemma MoFileNeverWrites(files: Files, po: string)
    ensures GenerateMoFileAsWritten(files, po) == (false, files)
    ensures MoFileBody(files, po) == (false, files)
  {
    GuardsFail();
    if po in files {
      ParseNeverStores(files[po]);
    }
  }

  method GenerateMoFile(files: Files, po: string) returns (ok: bool, out: Files)
    ensures (ok, out) == MoFileBody(files, po)
  {
    if po !in files {
      return false, files;
    }
    var mo := MoName(po);
    var content := files[po];
    var entries := ParsePoFile(content);
    if |entries| == 0 {
      return false, files;
    }
    var moContent := GenerateMoContent(entries);
    out := files[mo := moContent];
    ok := true;
  }

  /** With the intended parser, a readable catalogue yields the placeholder under the .mo name, and nothing else changes. */
  lemma MoFileIntended(files: Files, po: string)
    ensures var (ok, out) := MoFileWith(files, po, ParseIntended);
      && (ok <==> po in files && |ParseIntended(files[po])| > 0)
      && (!ok ==> out == files)
      && (ok ==> out.Keys == files.Keys + {MoName(po)} && |out[MoName(po)]| == 12)
      && forall f :: f in files && f != MoName(po) ==> f in out && out[f] == files[f]
  {
    if po in files && |ParseIntended(files[po])| > 0 {
      MoContentPlaceholder(ParseIntended(files[po]));
    }
  }

  // ---------------------------------------------------------------------
  // The script

  /** The two calls, `$success &= ...`: success only if both succeed. */
  function RunScript(files: Files): (bool, Files)
  {
    var (ok1, f1) := GenerateMoFileAsWritten(files, "wp-clean-admin-en_US.po");
    var (ok2, f2) := GenerateMoFileAsWritten(f1, "wp-clean-admin-zh_CN.po");
    (ok1 && ok2, f2)
  }

  /** The script reports failure and leaves the directory as it was. */
  lemma RunScriptFails(files: Files)
    ensures RunScript(files) == (false, files)
  {
    MoFileNeverWrites(files, "wp-clean-admin-en_US.po");
    MoFileNeverWrites(files, "wp-clean-admin-zh_CN.po");
  }
}
