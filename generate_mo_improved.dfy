/**
 * languages/generate_mo_improved.php: a stand-alone script that merges a
 * template catalogue (POT) into translation catalogues (PO) and writes
 * binary catalogues (MO) from them.
 *
 * The directory is a map from file names to contents; reading, writing
 * and copying always succeed in the model. `pack('L', n)` writes the low
 * 32 bits of n in machine byte order, fixed here as little-endian.
 *
 * Every function but extract_po_header starts by asking function_exists
 * about names that include 'echo', 'empty' or 'isset'. These are
 * language constructs, not functions, so function_exists answers false
 * and the guarded function returns its fallback value at once. The
 * functions named ...AsWritten model that; the rest of the model uses
 * the bodies behind the guards.
 */
module GenerateMoImproved {
  import opened Wrappers
  import opened PhpStrings
  import opened PhpValues
  import opened MoFormat
  import opened Directory

  // ---------------------------------------------------------------------
  // function_exists guards

  const UpdateGuard: seq<string> := ["echo", "file_exists", "copy", "file_get_contents", "parse_po_file", "empty",
                                     "array_merge", "extract_po_header", "generate_po_content", "file_put_contents"]
  const HeaderGuard: seq<string> := ["explode", "trim", "strpos", "array_push", "implode"]
  const ParseGuard: seq<string> := ["explode", "trim", "strpos", "strrpos", "substr", "strlen", "empty", "is_array", "isset"]
  const PoContentGuard: seq<string> := ["empty", "is_array", "is_string", "isset", "strlen"]
  const MoFileGuard: seq<string> := ["echo", "file_exists", "str_replace", "file_get_contents", "parse_po_file", "empty",
                                     "is_array", "isset", "generate_mo_content", "file_put_contents", "is_string"]
  const MoContentGuard: seq<string> := ["pack", "count", "is_array", "empty", "strlen"]

  /** Only extract_po_header passes its guard. */
  lemma GuardsAsWritten()
    ensures AllExist(HeaderGuard)
    ensures !AllExist(UpdateGuard) && !AllExist(ParseGuard) && !AllExist(PoContentGuard)
    ensures !AllExist(MoFileGuard) && !AllExist(MoContentGuard)
  {
    assert !FunctionExists(UpdateGuard[0]);
    assert !FunctionExists(ParseGuard[6]);
    assert !FunctionExists(PoContentGuard[0]);
    assert !FunctionExists(MoFileGuard[0]);
    assert !FunctionExists(MoContentGuard[3]);
  }

  // ---------------------------------------------------------------------
  // parse_po_file: a per-line state machine

  /** A parsed entry: `array('msgstr' => ..., 'comments' => ...)`. */
  function EntryValue(msgstr: string, comments: string): Value
  {
    VArr([Entry(KStr("msgstr"), VStr(msgstr)), Entry(KStr("comments"), VStr(comments))])
  }

  predicate IsPoEntry(v: Value)
  {
    && v.VArr? && |v.entries| == 2 && v.entries[0].val.VStr? && v.entries[1].val.VStr?
    && v == EntryValue(v.entries[0].val.s, v.entries[1].val.s)
  }

  datatype ParseState = ParseState(entries: seq<Entry>, msgid: string, msgstr: string, inMsgid: bool, inMsgstr: bool, comments: string)

  const Start: ParseState := ParseState([], "", "", false, false, "")

  /** Store the open entry under its msgid, unless the msgid is empty in PHP's sense. */
  function Save(st: ParseState): seq<Entry>
  {
    if EmptyString(st.msgid) then st.entries else Put(st.entries, KeyOf(st.msgid), EntryValue(st.msgstr, st.comments))
  }

  /** One line of parse_po_file. */
  function ParseLine(st: ParseState, line: string): ParseState
  {
    var t := Trim(line);
    if IsPrefix("#", t) then st.(comments := st.comments + line + "\n")
    else if IsPrefix("msgid", t) then ParseState(Save(st), Unquote(Drop(t, 6)), "", true, false, "")
    else if IsPrefix("msgstr", t) then st.(msgstr := Unquote(Drop(t, 7)), inMsgid := false, inMsgstr := true)
    else if st.inMsgid && Quoted(t) then st.(msgid := st.msgid + Unquote(t))
    else if st.inMsgstr && Quoted(t) then st.(msgstr := st.msgstr + Unquote(t))
    else if EmptyString(t) && !EmptyString(st.msgid) then ParseState(Save(st), "", "", false, false, "")
    else st
  }

  /** The state after the lines ls, starting from st. */
  function ParseFrom(st: ParseState, ls: seq<string>): ParseState
  {
    if |ls| == 0 then st else ParseLine(ParseFrom(st, ls[..|ls| - 1]), ls[|ls| - 1])
  }

  lemma ParseFromStep(st: ParseState, ls: seq<string>, i: nat)
    requires i < |ls|
    ensures ParseFrom(st, ls[..i + 1]) == ParseLine(ParseFrom(st, ls[..i]), ls[i])
  {
    assert ls[..i + 1][..i] == ls[..i];
  }

  /** What parse_po_file returns, behind its guard. */
  function ParseSpec(content: string): seq<Entry>
  {
    if EmptyString(content) then [] else Save(ParseFrom(Start, Split(content, '\n')))
  }

  /** parse_po_file as written: the guard names 'empty' and 'isset'. */
  function ParsePoFileAsWritten(content: string): seq<Entry>
  {
    if !AllExist(ParseGuard) || EmptyString(content) then [] else ParseSpec(content)
  }

  lemma ParseAsWrittenEmpty(content: string)
    ensures ParsePoFileAsWritten(content) == []
  {
    GuardsAsWritten();
  }

  method ParsePoFile(content: string) returns (entries: seq<Entry>)
    ensures entries == ParseSpec(content)
  {
    entries := [];
    if EmptyString(content) {
      return;
    }
    var lines := Split(content, '\n');
    var msgid, msgstr, inMsgid, inMsgstr, comments;
    entries, msgid, msgstr, inMsgid, inMsgstr, comments := ParseLines(lines);
    if !EmptyString(msgid) {
      entries := Put(entries, KeyOf(msgid), EntryValue(msgstr, comments));
    }
  }

  /** parse_po_file's foreach over the lines, from the empty state. */
  method ParseLines(lines: seq<string>)
    returns (entries: seq<Entry>, msgid: string, msgstr: string, inMsgid: bool, inMsgstr: bool, comments: string)
    ensures ParseState(entries, msgid, msgstr, inMsgid, inMsgstr, comments) == ParseFrom(Start, lines)
  {
    entries := [];
    msgid, msgstr, comments := "", "", "";
    inMsgid, inMsgstr := false, false;
    var i := 0;
    assert lines[..0] == [];
    while i < |lines|
      invariant 0 <= i <= |lines|
      invariant ParseState(entries, msgid, msgstr, inMsgid, inMsgstr, comments) == ParseFrom(Start, lines[..i])
    {
      ParseFromStep(Start, lines, i);
      entries, msgid, msgstr, inMsgid, inMsgstr, comments := ParseOneLine(entries, msgid, msgstr, inMsgid, inMsgstr, comments, lines[i]);
      i := i + 1;
    }
    assert lines[..i] == lines;
  }

  /** The body of parse_po_file's foreach: one line against the open entry. */
  method ParseOneLine(entries0: seq<Entry>, msgid0: string, msgstr0: string, inMsgid0: bool, inMsgstr0: bool, comments0: string, line: string)
    returns (entries: seq<Entry>, msgid: string, msgstr: string, inMsgid: bool, inMsgstr: bool, comments: string)
    ensures ParseState(entries, msgid, msgstr, inMsgid, inMsgstr, comments)
      == ParseLine(ParseState(entries0, msgid0, msgstr0, inMsgid0, inMsgstr0, comments0), line)
  {
    entries, msgid, msgstr, inMsgid, inMsgstr, comments := entries0, msgid0, msgstr0, inMsgid0, inMsgstr0, comments0;
    var t := Trim(line);
    if IsPrefix("#", t) {
      comments := comments + line + "\n";
    } else if IsPrefix("msgid", t) {
      if !EmptyString(msgid) {
        entries := Put(entries, KeyOf(msgid), EntryValue(msgstr, comments));
      }
      msgid := Unquote(Drop(t, 6));
      msgstr := "";
      inMsgid, inMsgstr := true, false;
      comments := "";
    } else if IsPrefix("msgstr", t) {
      msgstr := Unquote(Drop(t, 7));
      inMsgid, inMsgstr := false, true;
    } else if inMsgid && Quoted(t) {
      msgid := msgid + Unquote(t);
    } else if inMsgstr && Quoted(t) {
      msgstr := msgstr + Unquote(t);
    } else if EmptyString(t) {
      if !EmptyString(msgid) {
        entries := Put(entries, KeyOf(msgid), EntryValue(msgstr, comments));
        msgid, msgstr := "", "";
        inMsgid, inMsgstr := false, false;
        comments := "";
      }
    }
  }

  /** What the parser stores: unique keys, none of them an empty msgid, each with an entry array. */
  predicate Stored(entries: seq<Entry>)
  {
    && UniqueKeys(entries)
    && forall j :: 0 <= j < |entries| ==> !EmptyString(KeyString(entries[j].key)) && IsPoEntry(entries[j].val)
  }

  predicate ParseInv(st: ParseState)
  {
    Stored(st.entries) && !(st.inMsgid && st.inMsgstr)
  }

  lemma SaveStored(st: ParseState)
    requires Stored(st.entries)
    ensures Stored(Save(st))
  {
    if !EmptyString(st.msgid) {
      PutShape(st.entries, KeyOf(st.msgid), EntryValue(st.msgstr, st.comments));
      KeyOfRoundTrip(st.msgid);
    }
  }

  lemma ParseLineInv(st: ParseState, line: string)
    requires ParseInv(st)
    ensures ParseInv(ParseLine(st, line))
  {
    SaveStored(st);
  }

  lemma {:induction false} ParseFromInv(st: ParseState, ls: seq<string>)
    requires ParseInv(st)
    ensures ParseInv(ParseFrom(st, ls))
  {
    if |ls| > 0 {
      ParseFromInv(st, ls[..|ls| - 1]);
      ParseLineInv(ParseFrom(st, ls[..|ls| - 1]), ls[|ls| - 1]);
    }
  }

  /**
   * parse_po_file never stores an empty msgid (so the header block is
   * dropped), a repeated msgid occupies one key, and every value is an
   * entry with its msgstr and comments.
   */
  lemma ParseStored(content: string)
    ensures Stored(ParseSpec(content))
  {
    if !EmptyString(content) {
      ParseFromInv(Start, Split(content, '\n'));
      SaveStored(ParseFrom(Start, Split(content, '\n')));
    }
  }

  /** Saving overwrites the msgid's earlier value, so the last occurrence wins, and leaves other keys alone. */
  lemma SaveLookup(st: ParseState, k: Key)
    ensures Lookup(Save(st), k) ==
      if !EmptyString(st.msgid) && k == KeyOf(st.msgid) then Some(EntryValue(st.msgstr, st.comments)) else Lookup(st.entries, k)
  {
    if !EmptyString(st.msgid) {
      PutLookup(st.entries, KeyOf(st.msgid), EntryValue(st.msgstr, st.comments), k);
    }
  }

  /** A quoted line starts with a quote, so it is no comment and no keyword line. */
  lemma QuotedNoKeyword(t: string)
    requires Quoted(t)
    ensures !IsPrefix("#", t) && !IsPrefix("msgid", t) && !IsPrefix("msgstr", t)
  {
    assert "#"[0] == '#' && "msgid"[0] == 'm' && "msgstr"[0] == 'm';
    assert t[..1][0] == t[0];
  }

  /** A fully quoted line extends whichever of msgid and msgstr was opened last (at most one is open). */
  lemma ContinuationLine(st: ParseState, line: string)
    requires ParseInv(st) && Quoted(Trim(line))
    ensures ParseLine(st, line) ==
      if st.inMsgid then st.(msgid := st.msgid + Unquote(Trim(line)))
      else if st.inMsgstr then st.(msgstr := st.msgstr + Unquote(Trim(line)))
      else st
  {
    QuotedNoKeyword(Trim(line));
  }

  /** Comment lines collect until an entry is saved; a saved entry takes them and the collection restarts empty. */
  lemma CommentsReset(st: ParseState, line: string)
    ensures ParseLine(st, line).entries != st.entries ==> ParseLine(st, line).comments == ""
    ensures IsPrefix("#", Trim(line)) ==> ParseLine(st, line).entries == st.entries
  {
  }

  // ---------------------------------------------------------------------
  // extract_po_header

  /** `strpos(trim($line), 'msgid') === 0`. */
  predicate IsMsgidLine(l: string)
  {
    IsPrefix("msgid", Trim(l))
  }

  /** Which lines are msgid lines. */
  function MsgidFlags(ls: seq<string>): (fs: seq<bool>)
    ensures |fs| == |ls|
  {
    if |ls| == 0 then [] else MsgidFlags(ls[..|ls| - 1]) + [IsMsgidLine(ls[|ls| - 1])]
  }

  lemma {:induction false} MsgidFlagAt(ls: seq<string>, i: nat)
    requires i < |ls|
    ensures MsgidFlags(ls)[i] == IsMsgidLine(ls[i])
    decreases |ls|
  {
    if i < |ls| - 1 {
      MsgidFlagAt(ls[..|ls| - 1], i);
    }
  }

  function MsgidCount(fs: seq<bool>): nat
  {
    if |fs| == 0 then 0 else MsgidCount(fs[..|fs| - 1]) + (if fs[|fs| - 1] then 1 else 0)
  }

  /** The scan of extract_po_header from line i on, having seen c msgid lines before it. */
  function HeaderEndFrom(fs: seq<bool>, i: nat, c: nat): (k: nat)
    requires i <= |fs| && c == MsgidCount(fs[..i]) && c <= 1
    ensures i <= k <= |fs| && MsgidCount(fs[..k]) <= 1
    ensures k < |fs| ==> fs[k] && MsgidCount(fs[..k]) == 1
    decreases |fs| - i
  {
    if i == |fs| then i
    else if fs[i] && c == 1 then i
    else
      assert fs[..i + 1][..i] == fs[..i];
      HeaderEndFrom(fs, i + 1, c + if fs[i] then 1 else 0)
  }

  lemma HeaderEndStep(fs: seq<bool>, i: nat, c: nat)
    requires i < |fs| && c == MsgidCount(fs[..i]) && c <= 1 && !(fs[i] && c == 1)
    ensures MsgidCount(fs[..i + 1]) == c + (if fs[i] then 1 else 0) <= 1
    ensures HeaderEndFrom(fs, i, c) == HeaderEndFrom(fs, i + 1, c + if fs[i] then 1 else 0)
  {
    assert fs[..i + 1][..i] == fs[..i];
  }

  /** Where the header ends: at the second msgid line, or at the end. */
  function HeaderEnd(fs: seq<bool>): (k: nat)
    ensures k <= |fs| && MsgidCount(fs[..k]) <= 1
    ensures k < |fs| ==> fs[k] && MsgidCount(fs[..k]) == 1
  {
    assert fs[..0] == [];
    HeaderEndFrom(fs, 0, 0)
  }

  /** What extract_po_header returns: the lines before the second msgid line, rejoined. */
  function PoHeaderSpec(content: string): string
  {
    if EmptyString(content) then ""
    else
      var ls := Split(content, '\n');
      Join(ls[..HeaderEnd(MsgidFlags(ls))], "\n")
  }

  method ExtractPoHeader(content: string) returns (header: string)
    ensures header == PoHeaderSpec(content)
  {
    GuardsAsWritten();
    if !AllExist(HeaderGuard) || EmptyString(content) {
      return "";
    }
    var lines := Split(content, '\n');
    var kept := HeaderLines(lines);
    header := Join(kept, "\n");
  }

  /** The loop of extract_po_header: keep lines until the second msgid line. */
  method HeaderLines(lines: seq<string>) returns (kept: seq<string>)
    ensures kept == lines[..HeaderEnd(MsgidFlags(lines))]
  {
    ghost var fs := MsgidFlags(lines);
    kept := [];
    var count := 0;
    var i := 0;
    assert fs[..0] == [];
    while i < |lines|
      invariant 0 <= i <= |lines| && count <= 1
      invariant count == MsgidCount(fs[..i]) && kept == lines[..i]
      invariant HeaderEndFrom(fs, i, count) == HeaderEnd(fs)
    {
      var isMsgid := IsMsgidLine(lines[i]);
      MsgidFlagAt(lines, i);
      if isMsgid {
        count := count + 1;
        if count > 1 {
          assert HeaderEndFrom(fs, i, 1) == i;
          return;
        }
      }
      HeaderEndStep(fs, i, MsgidCount(fs[..i]));
      TakeSnoc(lines, i);
      kept := kept + [lines[i]];
      i := i + 1;
    }
    assert lines[..i] == lines;
  }

  lemma TakeSnoc<T>(s: seq<T>, i: nat)
    requires i < |s|
    ensures s[..i + 1] == s[..i] + [s[i]]
  {
  }

  lemma {:induction false} JoinPrefix(ps: seq<string>, k: nat, sep: string)
    requires k <= |ps|
    ensures IsPrefix(Join(ps[..k], sep), Join(ps, sep))
    decreases |ps|
  {
    if k == 1 {
      assert ps[..1] == [ps[0]];
    } else if k > 1 {
      JoinPrefix(ps[1..], k - 1, sep);
      assert ps[..k][1..] == ps[1..][..k - 1];
    }
  }

  lemma {:induction false} MsgidCountPrefix(fs: seq<bool>, k: nat)
    requires k <= |fs|
    ensures MsgidCount(fs[..k]) <= MsgidCount(fs)
    decreases |fs|
  {
    if k < |fs| {
      MsgidCountPrefix(fs[..|fs| - 1], k);
      assert fs[..|fs| - 1][..k] == fs[..k];
    } else {
      assert fs[..k] == fs;
    }
  }

  /** With at most one msgid line the scan runs to the end. */
  lemma HeaderEndAll(fs: seq<bool>)
    ensures MsgidCount(fs) <= 1 ==> HeaderEnd(fs) == |fs|
  {
    var k := HeaderEnd(fs);
    if k < |fs| {
      MsgidCountPrefix(fs, k + 1);
      assert fs[..k + 1][..k] == fs[..k];
    }
  }

  /** The header is a prefix of the catalogue, and a catalogue with at most one msgid line is all header. */
  lemma PoHeaderPrefix(content: string)
    ensures IsPrefix(PoHeaderSpec(content), content)
    ensures !EmptyString(content) && MsgidCount(MsgidFlags(Split(content, '\n'))) <= 1 ==> PoHeaderSpec(content) == content
  {
    if !EmptyString(content) {
      var ls := Split(content, '\n');
      SplitJoin(content, '\n');
      JoinPrefix(ls, HeaderEnd(MsgidFlags(ls)), "\n");
      HeaderEndAll(MsgidFlags(ls));
      assert ls[..|ls|] == ls;
    }
  }

  // ---------------------------------------------------------------------
  // generate_po_content

  /** `isset($a[$k]) ? $a[$k] : null`, read through Get. */
  function IssetValue(a: seq<Entry>, k: Key): Option<Value>
  {
    var v := Get(a, k);
    if v.Some? && v.value != VNull then v else None
  }

  /** The comments of an entry array, when set and not empty. */
  function PoComments(a: seq<Entry>): string
  {
    var v := IssetValue(a, KStr("comments"));
    if v.Some? && !IsEmpty(v.value) then StrVal(v.value) else ""
  }

  /** The msgstr of an entry array, or '' when it is not set. */
  function PoMsgstr(a: seq<Entry>): string
  {
    var v := IssetValue(a, KStr("msgstr"));
    if v.Some? then StrVal(v.value) else ""
  }

  lemma IssetValueIsSet(a: seq<Entry>, k: Key)
    ensures IssetValue(a, k).Some? <==> IsSetKey(a, k)
    ensures IssetValue(a, k).Some? ==> IssetValue(a, k) == Lookup(a, k)
  {
    GetLookup(a, k);
  }

  function IdLine(msgid: string): string { "msgid \"" + msgid + "\"\n" }

  function StrLine(msgstr: string): string { "msgstr \"" + msgstr + "\"\n\n" }

  /** The text written for one entry: nothing for the '' key or a non-array value. */
  function PoBlock(e: Entry): string
  {
    if e.key == KStr("") || !e.val.VArr? then ""
    else PoComments(e.val.entries) + IdLine(KeyString(e.key)) + StrLine(PoMsgstr(e.val.entries))
  }

  lemma Assoc(a: string, b: string, c: string, d: string)
    ensures a + b + c + d == a + (b + c + d)
  {
  }

  function PoBlocks(es: seq<Entry>): string
  {
    if |es| == 0 then "" else PoBlocks(es[..|es| - 1]) + PoBlock(es[|es| - 1])
  }

  lemma PoBlocksStep(es: seq<Entry>, i: nat)
    requires i < |es|
    ensures PoBlocks(es[..i + 1]) == PoBlocks(es[..i]) + PoBlock(es[i])
  {
    assert es[..i + 1][..i] == es[..i];
  }

  /** What generate_po_content returns, behind its guard. */
  function PoContentSpec(entries: seq<Entry>, header: string): string
  {
    header + "\n\n" + PoBlocks(entries)
  }

  /** generate_po_content as written: the guard names 'empty' and 'isset', so the header comes back alone. */
  function GeneratePoContentAsWritten(entries: seq<Entry>, header: string): string
  {
    if !AllExist(PoContentGuard) then header else PoContentSpec(entries, header)
  }

  lemma PoContentAsWrittenHeader(entries: seq<Entry>, header: string)
    ensures GeneratePoContentAsWritten(entries, header) == header
  {
    GuardsAsWritten();
  }

  method GeneratePoContent(entries: seq<Entry>, header: string) returns (content: string)
    ensures content == PoContentSpec(entries, header)
  {
    content := header + "\n\n";
    var i := 0;
    while i < |entries|
      invariant 0 <= i <= |entries|
      invariant content == header + "\n\n" + PoBlocks(entries[..i])
    {
      content := AppendBlock(content, entries[i]);
      PoBlocksStep(entries, i);
      ConcatAssoc(header + "\n\n", PoBlocks(entries[..i]), PoBlock(entries[i]));
      i := i + 1;
    }
    assert entries[..i] == entries;
  }

  /**
   * The generated text starts with the header, and every entry with a
   * non-empty string key and an array value appears in it as its msgid
   * line followed by its msgstr line.
   */
  lemma PoContentHasEntries(entries: seq<Entry>, header: string, i: int)
    requires 0 <= i < |entries| && entries[i].key != KStr("") && entries[i].val.VArr?
    ensures IsPrefix(header, PoContentSpec(entries, header))
    ensures Contains(PoContentSpec(entries, header), EntryLines(entries[i]))
  {
    PoBlocksHasEntry(entries, i);
    ContainsAppendLeft(header + "\n\n", PoBlocks(entries), EntryLines(entries[i]));
    assert PoContentSpec(entries, header)[..|header|] == header;
  }

  lemma {:induction false} PoBlocksHasEntry(es: seq<Entry>, i: int)
    requires 0 <= i < |es| && es[i].key != KStr("") && es[i].val.VArr?
    ensures Contains(PoBlocks(es), EntryLines(es[i]))
    decreases |es|
  {
    var init := es[..|es| - 1];
    var last := es[|es| - 1];
    assert PoBlocks(es) == PoBlocks(init) + PoBlock(last);
    if i == |es| - 1 {
      BlockHasLines(last);
      ContainsAppendLeft(PoBlocks(init), PoBlock(last), EntryLines(es[i]));
    } else {
      assert init[i] == es[i];
      PoBlocksHasEntry(init, i);
      ContainsAppendRight(PoBlocks(init), PoBlock(last), EntryLines(es[i]));
    }
  }

  /** An entry's msgid line followed by its msgstr line. */
  function EntryLines(e: Entry): string
    requires e.val.VArr?
  {
    IdLine(KeyString(e.key)) + StrLine(PoMsgstr(e.val.entries))
  }

  /** A written entry's block ends with its two lines. */
  lemma BlockHasLines(e: Entry)
    requires e.key != KStr("") && e.val.VArr?
    ensures Contains(PoBlock(e), EntryLines(e))
  {
    var c := PoComments(e.val.entries);
    var t := EntryLines(e);
    assert PoBlock(e) == c + t;
    assert IsPrefix(t, t);
    ContainsAppendLeft(c, t, t);
  }

  /** One pass of generate_po_content's loop. */
  method AppendBlock(before: string, e: Entry) returns (content: string)
    ensures content == before + PoBlock(e)
  {
    content := before;
    if e.key == KStr("") || !e.val.VArr? {
      return;
    }
    var a := e.val.entries;
    var comments := "";
    var c := IssetValue(a, KStr("comments"));
    if c.Some? && !IsEmpty(c.value) {
      comments := StrVal(c.value);
    }
    content := content + comments;
    var m := IssetValue(a, KStr("msgstr"));
    var msgstr := if m.Some? then StrVal(m.value) else "";
    content := content + IdLine(KeyString(e.key));
    content := content + StrLine(msgstr);
    Assoc(before, comments, IdLine(KeyString(e.key)), StrLine(msgstr));
  }

  // ---------------------------------------------------------------------
  // generate_mo_content

  /** The entries generate_mo_content keeps: a string msgid that is not empty, with a string translation. */
  predicate Collects(e: Entry)
  {
    e.key.KStr? && !EmptyString(e.key.s) && e.val.VStr?
  }

  /** The original and translated strings collected from the entries, in order. */
  function Collected(es: seq<Entry>): (r: (seq<string>, seq<string>))
    ensures |r.0| == |r.1| <= |es|
  {
    if |es| == 0 then ([], [])
    else
      var (o, t) := Collected(es[..|es| - 1]);
      var e := es[|es| - 1];
      if Collects(e) then (o + [e.key.s], t + [e.val.s]) else (o, t)
  }

  lemma CollectedStep(es: seq<Entry>, i: nat)
    requires i < |es|
    ensures Collected(es[..i + 1]) ==
      var (o, t) := Collected(es[..i]);
      if Collects(es[i]) then (o + [es[i].key.s], t + [es[i].val.s]) else (o, t)
  {
    assert es[..i + 1][..i] == es[..i];
  }

  /** Every entry is collected exactly when each one is a string msgid with a string translation. */
  lemma {:induction false} CollectedAll(es: seq<Entry>)
    ensures |Collected(es).0| == |es| <==> forall j :: 0 <= j < |es| ==> Collects(es[j])
  {
    if |es| > 0 {
      var init := es[..|es| - 1];
      CollectedAll(init);
      assert forall j :: 0 <= j < |init| ==> init[j] == es[j];
    }
  }

  /** Collected strings come from the entries: pair k is the msgid and translation of a collected entry. */
  lemma {:induction false} CollectedFrom(es: seq<Entry>, k: nat)
    requires k < |Collected(es).0|
    ensures exists j :: 0 <= j < |es| && Collects(es[j]) && es[j] == Entry(KStr(Collected(es).0[k]), VStr(Collected(es).1[k]))
  {
    var init := es[..|es| - 1];
    var (o, t) := Collected(init);
    if k < |o| {
      CollectedFrom(init, k);
      var j :| 0 <= j < |init| && Collects(init[j]) && init[j] == Entry(KStr(o[k]), VStr(t[k]));
      assert es[j] == init[j];
    } else {
      assert es[|es| - 1] == Entry(KStr(Collected(es).0[k]), VStr(Collected(es).1[k]));
    }
  }

  /**
   * The bytes generate_mo_content writes behind its guard, with pack('L')
   * taken as little-endian: the header claims count($entries) messages,
   * tables at 28 and 28+8N and a hash table at 28+16N; the descriptors
   * count string offsets from 28+20N; then come both string tables and
   * last the N zero words of the hash table.
   */
  function MoBodyAsWritten(es: seq<Entry>): string
  {
    MoBodyLayout(|es|, Collected(es).0, Collected(es).1)
  }

  /** The as-written bytes for a header count n and the collected strings o and t. */
  function MoBodyLayout(n: nat, o: seq<string>, t: seq<string>): string
  {
    var base := 28 + 20 * n;
    Header(n, 28, 28 + 8 * n, 0, 28 + 16 * n, true)
      + DescTable(o, base, true) + DescTable(t, base + |StringTable(o)|, true)
      + StringTable(o) + StringTable(t) + Zeros(n)
  }


  /** The foreach over the entries that fills the two string lists. */
  method CollectStrings(entries: seq<Entry>) returns (o: seq<string>, t: seq<string>)
    ensures (o, t) == Collected(entries)
  {
    o, t := [], [];
    var i := 0;
    while i < |entries|
      invariant i <= |entries|
      invariant (o, t) == Collected(entries[..i])
    {
      CollectedStep(entries, i);
      var e := entries[i];
      if Collects(e) {
        o := o + [e.key.s];
        t := t + [e.val.s];
      }
      i := i + 1;
    }
    assert entries[..i] == entries;
  }

  /** A foreach writing one descriptor per string: its length and the running offset, which then moves past the string and its NUL. */
  method AppendDescriptors(content: string, xs: seq<string>, base: nat) returns (r: string, next: nat)
    ensures r == content + DescTable(xs, base, true)
    ensures next == base + |StringTable(xs)|
  {
    r, next := content, base;
    var i := 0;
    assert xs[..0] == [];
    while i < |xs|
      invariant i <= |xs|
      invariant r == content + DescTable(xs[..i], base, true)
      invariant next == base + |StringTable(xs[..i])|
    {
      DescTableStep(xs, base, true, i);
      StringTableStep(xs, i);
      Assoc(content, DescTable(xs[..i], base, true), Word(|xs[i]|, true), Word(next, true));
      r := r + Word(|xs[i]|, true);
      r := r + Word(next, true);
      next := next + |xs[i]| + 1;
      i := i + 1;
    }
    assert xs[..i] == xs;
  }

  /** A foreach writing every string followed by a NUL byte. */
  method AppendStrings(content: string, xs: seq<string>) returns (r: string)
    ensures r == content + StringTable(xs)
  {
    r := content;
    var i := 0;
    assert xs[..0] == [];
    while i < |xs|
      invariant i <= |xs|
      invariant r == content + StringTable(xs[..i])
    {
      StringTableStep(xs, i);
      Assoc(content, StringTable(xs[..i]), xs[i], "\0");
      r := r + (xs[i] + "\0");
      i := i + 1;
    }
    assert xs[..i] == xs;
  }

  /** The for loop writing n zero words. */
  method AppendZeros(content: string, n: nat) returns (r: string)
    ensures r == content + Zeros(n)
  {
    r := content;
    var i := 0;
    while i < n
      invariant i <= n
      invariant r == content + Zeros(i)
    {
      ZerosStep(i);
      ConcatAssoc(content, Zeros(i), Word(0, true));
      r := r + Word(0, true);
      i := i + 1;
    }
  }

  /**
   * The body of generate_mo_content past its guard: collect the strings,
   * write the header, both descriptor tables, both string tables and the
   * zero words, exactly as MoBodyAsWritten lays them out.
   */
  method WriteMoBody(entries: seq<Entry>) returns (content: string)
    ensures content == MoBodyAsWritten(entries)
  {
    var n := |entries|;
    var o, t := CollectStrings(entries);
    content := Header(n, 28, 28 + 8 * n, 0, 28 + 16 * n, true);
    content := AppendTables(content, n, o, t);
  }

  /** Everything generate_mo_content writes after the header, with the offsets counted from 28+20n. */
  method AppendTables(content: string, n: nat, o: seq<string>, t: seq<string>) returns (r: string)
    ensures r == content + DescTable(o, 28 + 20 * n, true) + DescTable(t, 28 + 20 * n + |StringTable(o)|, true)
      + StringTable(o) + StringTable(t) + Zeros(n)
  {
    var current := 28 + 20 * n;
    r, current := AppendDescriptors(content, o, current);
    r, current := AppendDescriptors(r, t, current);
    r := AppendStrings(r, o);
    r := AppendStrings(r, t);
    r := AppendZeros(r, n);
  }

  /** generate_mo_content as written: the guard names 'empty', so the result is ''. */
  function GenerateMoContentAsWritten(es: seq<Entry>): string
  {
    if !AllExist(MoContentGuard) then "" else MoBodyAsWritten(es)
  }

  lemma MoContentAsWrittenEmpty(es: seq<Entry>)
    ensures GenerateMoContentAsWritten(es) == ""
  {
    GuardsAsWritten();
  }

  /**
   * The catalogue generate_mo_content evidently means to write: the count
   * in the header is the number of collected messages, and the reserved
   * hash words sit at the hash table offset, before the strings, so every
   * descriptor points at its string.
   */
  function MoLayout(o: seq<string>, t: seq<string>): string
    requires |o| == |t|
  {
    var m := |o|;
    var base := 28 + 20 * m;
    Header(m, 28, 28 + 8 * m, 0, 28 + 16 * m, true)
      + DescTable(o, base, true) + DescTable(t, base + |StringTable(o)|, true)
      + Zeros(m) + StringTable(o) + StringTable(t)
  }

  function MoContentSpec(es: seq<Entry>): string
  {
    var (o, t) := Collected(es);
    MoLayout(o, t)
  }

  /** A corrected catalogue shorter than 2^32 bytes decodes to exactly the collected messages, in order. */
  lemma {:induction false} MoLayoutDecodes(o: seq<string>, t: seq<string>)
    requires |o| == |t| && |MoLayout(o, t)| < WordRange
    ensures MoDecode(MoLayout(o, t)) == Some(Zip(o, t))
  {
    DecodeParts(MoLayout(o, t), Header(|o|, 28, 28 + 8 * |o|, 0, 28 + 16 * |o|, true), Zeros(|o|),
      o, t, 28 + 20 * |o|, 28 + 20 * |o| + |StringTable(o)|, 28 + 16 * |o|, true);
  }

  /** The header generate_mo_content writes counts every entry, N, and puts the translation table at 28+8N. */
  lemma MoBodyHeaderAsWritten(n: nat, o: seq<string>, t: seq<string>)
    requires 28 + 16 * n < WordRange
    ensures 28 <= |MoBodyLayout(n, o, t)|
    ensures WordAt(MoBodyLayout(n, o, t), 0, true) == Magic
    ensures WordAt(MoBodyLayout(n, o, t), 8, true) == n
    ensures WordAt(MoBodyLayout(n, o, t), 12, true) == 28
    ensures WordAt(MoBodyLayout(n, o, t), 16, true) == 28 + 8 * n
  {
    var base := 28 + 20 * n;
    var s := MoBodyLayout(n, o, t);
    FirstPart(s, Header(n, 28, 28 + 8 * n, 0, 28 + 16 * n, true),
      DescTable(o, base, true), DescTable(t, base + |StringTable(o)|, true), StringTable(o), StringTable(t), Zeros(n));
    HeaderRead(s, n, 28, 28 + 8 * n, 0, 28 + 16 * n, true);
  }

  /**
   * Where generate_mo_content puts the tables: the M msgid descriptors from
   * 28 on and the M translation descriptors from 28+8M on, their offsets
   * counted from 28+20N, and the msgid strings from 28+16M on, that is
   * 4N bytes before the first offset says when every entry is collected.
   */
  lemma MoBodyTablesAsWritten(n: nat, o: seq<string>, t: seq<string>)
    requires |o| == |t|
    ensures Placed(MoBodyLayout(n, o, t), 28, DescTable(o, 28 + 20 * n, true))
    ensures Placed(MoBodyLayout(n, o, t), 28 + 8 * |o|, DescTable(t, 28 + 20 * n + |StringTable(o)|, true))
    ensures Placed(MoBodyLayout(n, o, t), 28 + 16 * |o|, StringTable(o))
  {
    var base := 28 + 20 * n;
    var s := MoBodyLayout(n, o, t);
    var d1, d2, s1 := DescTable(o, base, true), DescTable(t, base + |StringTable(o)|, true), StringTable(o);
    SixPlaced(s, Header(n, 28, 28 + 8 * n, 0, 28 + 16 * n, true), d1, d2, s1, StringTable(t), Zeros(n),
      28, 28 + 8 * |o|, 28 + 16 * |o|, 28 + 16 * |o| + |s1|, 28 + 16 * |o| + |s1| + |StringTable(t)|);
  }

  /** One message ("a", "b"): as written, both descriptors point into the trailing zero words. */
  lemma MoBodyCounterexample()
    ensures MoDecode(MoBodyAsWritten([Entry(KStr("a"), VStr("b"))])) == Some([Message("\0", "\0")])
  {
    var es := [Entry(KStr("a"), VStr("b"))];
    CollectedOne(KStr("a"), VStr("b"));
    StringTableOne("a");
    StringTableOne("b");
    CounterexampleParts(MoBodyAsWritten(es), Header(1, 28, 28 + 8 * 1, 0, 28 + 16 * 1, true),
      DescTable(["a"], 28 + 20 * 1, true), DescTable(["b"], 28 + 20 * 1 + |StringTable(["a"])|, true),
      StringTable(["a"]), StringTable(["b"]), Zeros(1), 28 + 20 * 1 + |StringTable(["a"])|);
  }

  lemma CollectedOne(k: Key, v: Value)
    requires Collects(Entry(k, v))
    ensures Collected([Entry(k, v)]) == ([k.s], [v.s])
  {
    assert [Entry(k, v)][..0] == [];
    assert Collected([]) == ([], []);
    assert [] + [k.s] == [k.s] && [] + [v.s] == [v.s];
  }

  /** The as-written bytes for one message of one-byte strings, over abstract parts. */
  lemma CounterexampleParts(s: string, h: string, d1: string, d2: string, s1: string, s2: string, z: string, tb: nat)
    requires s == h + d1 + d2 + s1 + s2 + z
    requires h == Header(1, 28, 36, 0, 44, true) && d1 == DescTable(["a"], 48, true) && d2 == DescTable(["b"], tb, true)
    requires tb == 50 && |s1| == 2 && |s2| == 2 && z == Zeros(1)
    ensures MoDecode(s) == Some([Message("\0", "\0")])
  {
    SixPlaced(s, h, d1, d2, s1, s2, z, 28, 36, 44, 46, 48);
    assert s[..28] == h by { assert s[..28] == s[0..28]; }
    PlacedWithin(s, 48, z, 0, "\0\0");
    PlacedWithin(s, 48, z, 2, "\0\0");
    EntryInZeros(s, 28, "a", 48);
    EntryInZeros(s, 36, "b", tb);
    DecodeLayout(s, ["\0"], ["\0"], 28, 36, [48], [50], 0, 44, true);
    assert Zip(["\0"], ["\0"]) == [Message("\0", "\0")];
  }

  /** A one-string descriptor for a one-byte string whose offset names two zero bytes describes the string "\0". */
  lemma EntryInZeros(s: string, table: nat, x: string, off: nat)
    requires |x| == 1 && Placed(s, table, DescTable([x], off, true)) && Placed(s, off, "\0\0")
    ensures EntriesAt(s, ["\0"], [off], table, true)
  {
    DescPair(s, table, x, off, "\0");
    PlacedWithin(s, off, "\0\0", 0, "\0");
    assert s[off + 1] == "\0\0"[1];
    assert EntryAt(s, table, 0, true, off, "\0");
  }

  /** The one-string descriptor table for x at `base`, placed at d, holds |x| and base. */
  lemma DescPair(s: string, d: nat, x: string, base: nat, y: string)
    requires d + 8 <= |s| && s[d..d + 8] == DescTable([x], base, true) && |y| == |x|
    ensures s[d..d + 4] == Word(|y|, true) && s[d + 4..d + 8] == Word(base, true)
  {
    assert [x][..0] == [];
    assert DescWords([x], base) == [|x|, base];
    var ns := DescWords([x], base);
    assert ns[..1] == [|x|] && ns[..1][..0] == [];
    assert Words(ns[..1], true) == Word(|x|, true);
    assert Words(ns, true) == Words(ns[..1], true) + Word(base, true);
    var w := DescTable([x], base, true);
    assert w == Word(|x|, true) + Word(base, true);
    SliceOfSlice(s, d, w, 0, 4);
    SliceOfSlice(s, d, w, 4, 8);
  }

  /** A msgid that PHP turned into an integer key is counted but not written: the header names a descriptor past the end. */
  lemma MoBodyCountAsWritten()
    ensures MoDecode(MoBodyAsWritten([Entry(KInt(42), VStr("x"))])) == None
  {
    var es := [Entry(KInt(42), VStr("x"))];
    assert Collected(es) == ([], []) by { assert es[..0] == []; }
    var s := MoBodyAsWritten(es);
    var h := Header(1, 28, 36, 0, 44, true);
    assert DescTable([], 48, true) == "" && StringTable([]) == "";
    assert s == h + Zeros(1);
    assert |s| == 32;
    assert s[..28] == h;
    HeaderRead(s, 1, 28, 36, 0, 44, true);
    assert StringAt(s, 28, 0, true) == None;
  }

  /** The corrected writer: the same loops, with the count and the hash words placed as MoLayout has them. */
  method WriteMoContent(entries: seq<Entry>) returns (content: string)
    ensures content == MoContentSpec(entries)
  {
    var o, t := CollectStrings(entries);
    var m := |o|;
    content := Header(m, 28, 28 + 8 * m, 0, 28 + 16 * m, true);
    content := AppendLayoutTables(content, o, t);
  }

  method AppendLayoutTables(content: string, o: seq<string>, t: seq<string>) returns (r: string)
    requires |o| == |t|
    ensures r == content + DescTable(o, 28 + 20 * |o|, true) + DescTable(t, 28 + 20 * |o| + |StringTable(o)|, true)
      + Zeros(|o|) + StringTable(o) + StringTable(t)
  {
    var current := 28 + 20 * |o|;
    r, current := AppendDescriptors(content, o, current);
    r, current := AppendDescriptors(r, t, current);
    r := AppendZeros(r, |o|);
    r := AppendStrings(r, o);
    r := AppendStrings(r, t);
  }

  /** The corrected catalogue of any entry list shorter than 2^32 bytes decodes to the collected messages. */
  lemma MoContentDecodes(es: seq<Entry>)
    requires |MoContentSpec(es)| < WordRange
    ensures MoDecode(MoContentSpec(es)) == Some(Zip(Collected(es).0, Collected(es).1))
  {
    MoLayoutDecodes(Collected(es).0, Collected(es).1);
  }

  // ---------------------------------------------------------------------
  // generate_mo_file

  /** `empty($k)` for an array key: the integer 0 or the empty string ("0" is already the integer 0). */
  predicate EmptyKey(k: Key)
  {
    match k
    case KInt(i) => i == 0
    case KStr(s) => EmptyString(s)
  }

  /** A key is empty exactly when the string it came from is empty in PHP's sense. */
  lemma EmptyKeyString(k: Key)
    ensures EmptyKey(k) <==> EmptyString(KeyString(k))
  {
    if k.KInt? {
      if k.i < 0 {
        assert KeyString(k)[0] == '-';
      } else {
        var r := NatToString(k.i);
        assert k.i != 0 ==> r[0] != '0';
      }
    }
  }

  /** The filter of generate_mo_file keeps an entry whose msgid is not empty and whose array has msgstr set. */
  predicate Keeps(e: Entry)
  {
    !EmptyKey(e.key) && e.val.VArr? && IssetValue(e.val.entries, KStr("msgstr")).Some?
  }

  /** `$filtered_entries[$msgid] = $entry['msgstr']` for every kept entry, in order. */
  function Filtered(es: seq<Entry>): seq<Entry>
  {
    if |es| == 0 then []
    else
      var e := es[|es| - 1];
      var f := Filtered(es[..|es| - 1]);
      if Keeps(e) then Put(f, e.key, IssetValue(e.val.entries, KStr("msgstr")).value) else f
  }

  lemma FilteredStep(es: seq<Entry>, i: nat)
    requires i < |es|
    ensures Filtered(es[..i + 1]) ==
      if Keeps(es[i]) then Put(Filtered(es[..i]), es[i].key, IssetValue(es[i].val.entries, KStr("msgstr")).value)
      else Filtered(es[..i])
  {
    assert es[..i + 1][..i] == es[..i];
  }

  /** The foreach of generate_mo_file that builds the msgid => msgstr array. */
  method FilterEntries(entries: seq<Entry>) returns (filtered: seq<Entry>)
    ensures filtered == Filtered(entries)
  {
    filtered := [];
    var i := 0;
    assert entries[..0] == [];
    while i < |entries|
      invariant i <= |entries| && filtered == Filtered(entries[..i])
    {
      FilteredStep(entries, i);
      var e := entries[i];
      if !EmptyKey(e.key) && e.val.VArr? {
        var m := IssetValue(e.val.entries, KStr("msgstr"));
        if m.Some? {
          filtered := Put(filtered, e.key, m.value);
        }
      }
      i := i + 1;
    }
    assert entries[..i] == entries;
  }

  /** The msgstr of a parsed entry. */
  function MsgstrOf(v: Value): Value
    requires IsPoEntry(v)
  {
    v.entries[0].val
  }

  /** The msgid => msgstr pairs of parsed entries, in order. */
  function Translations(es: seq<Entry>): (r: seq<Entry>)
    requires forall j :: 0 <= j < |es| ==> IsPoEntry(es[j].val)
    ensures |r| == |es| && forall j :: 0 <= j < |es| ==> r[j] == Entry(es[j].key, MsgstrOf(es[j].val))
  {
    seq(|es|, j requires 0 <= j < |es| => Entry(es[j].key, MsgstrOf(es[j].val)))
  }

  /** On what parse_po_file stores, the filter keeps every entry, each msgid with its msgstr. */
  lemma {:induction false} FilterStored(es: seq<Entry>)
    requires Stored(es)
    ensures Filtered(es) == Translations(es)
  {
    if |es| > 0 {
      var n := |es| - 1;
      StoredInit(es);
      FilterStored(es[..n]);
      KeptLast(es);
      FreshLast(es);
      FilteredStep(es, n);
      assert es[..n + 1] == es;
      assert Translations(es) == Translations(es[..n]) + [Entry(es[n].key, MsgstrOf(es[n].val))];
    }
  }

  /** The last stored msgid is not among the earlier ones. */
  lemma FreshLast(es: seq<Entry>)
    requires |es| > 0 && Stored(es)
    ensures Stored(es[..|es| - 1]) && !HasKey(Translations(es[..|es| - 1]), es[|es| - 1].key)
  {
    StoredInit(es);
    var f := Translations(es[..|es| - 1]);
    forall j | 0 <= j < |f| ensures f[j].key != es[|es| - 1].key {
      assert f[j].key == es[j].key;
    }
  }

  lemma StoredInit(es: seq<Entry>)
    requires |es| > 0 && Stored(es)
    ensures Stored(es[..|es| - 1])
  {
    var init := es[..|es| - 1];
    forall j | 0 <= j < |init| ensures init[j] == es[j] { }
  }

  /** A stored entry is kept, with its msgstr. */
  lemma KeptLast(es: seq<Entry>)
    requires |es| > 0 && Stored(es)
    ensures Keeps(es[|es| - 1]) && IssetValue(es[|es| - 1].val.entries, KStr("msgstr")) == Some(MsgstrOf(es[|es| - 1].val))
  {
    var e := es[|es| - 1];
    EmptyKeyString(e.key);
    var a := e.val.entries;
    assert a[0] == Entry(KStr("msgstr"), a[0].val) && a[0].val.VStr?;
  }

  /** What generate_mo_file returns and leaves in the directory, behind its guard. */
  function MoFileSpec(files: Files, po: string): (bool, Files)
  {
    if po !in files then (false, files)
    else
      var es := ParseSpec(files[po]);
      if |es| == 0 then (false, files)
      else (true, files[MoName(po) := MoContentSpec(Filtered(es))])
  }

  /** generate_mo_file as written: its guard names 'echo', 'empty' and 'isset'. */
  function GenerateMoFileAsWritten(files: Files, po: string): (bool, Files)
  {
    if !AllExist(MoFileGuard) then (false, files) else MoFileSpec(files, po)
  }

  lemma MoFileAsWrittenFails(files: Files, po: string)
    ensures GenerateMoFileAsWritten(files, po) == (false, files)
  {
    GuardsAsWritten();
  }

  method GenerateMoFile(files: Files, po: string) returns (ok: bool, out: Files)
    ensures (ok, out) == MoFileSpec(files, po)
  {
    if po !in files {
      return false, files;
    }
    var moFile := ReplaceAll(po, ".po", ".mo");
    var entries := ParsePoFile(files[po]);
    if |entries| == 0 {
      return false, files;
    }
    var filtered := FilterEntries(entries);
    var content := WriteMoContent(filtered);
    return true, files[moFile := content];
  }

  /**
   * generate_mo_file succeeds exactly when the PO file exists and parses to
   * at least one entry; it then writes the MO file and nothing else, and on
   * failure the directory is unchanged.
   */
  lemma MoFileOutcome(files: Files, po: string)
    ensures MoFileSpec(files, po).0 <==> po in files && |ParseSpec(files[po])| > 0
    ensures !MoFileSpec(files, po).0 ==> MoFileSpec(files, po).1 == files
    ensures MoFileSpec(files, po).0 ==> MoFileSpec(files, po).1.Keys == files.Keys + {MoName(po)}
    ensures forall f :: f in files && f != MoName(po) ==> f in MoFileSpec(files, po).1 && MoFileSpec(files, po).1[f] == files[f]
  {
  }

  /** The MO file written for a PO file decodes to its entries' msgids and msgstrs, in order (when under 2^32 bytes). */
  lemma MoFileDecodes(files: Files, po: string)
    requires MoFileSpec(files, po).0
    requires |MoFileSpec(files, po).1[MoName(po)]| < WordRange
    ensures Stored(ParseSpec(files[po])) &&
      var es := Translations(ParseSpec(files[po]));
      MoDecode(MoFileSpec(files, po).1[MoName(po)]) == Some(Zip(Collected(es).0, Collected(es).1))
  {
    var es := ParseSpec(files[po]);
    ParseStored(files[po]);
    FilterStored(es);
    MoContentDecodes(Filtered(es));
  }

  // ---------------------------------------------------------------------
  // update_po_file

  /**
   * What update_po_file returns and leaves in the directory, behind its
   * guard, with the merge keeping every key: without the POT file it
   * fails; without the PO file it copies the POT file; otherwise both must
   * parse to something, and the PO file is rewritten from its own header
   * and the POT entries overlaid by the PO entries.
   */
  function UpdatePoSpec(files: Files, pot: string, po: string): (bool, Files)
  {
    UpdateWith(files, pot, po, UpdatedEntries(files, pot, po))
  }

  /** The POT entries overlaid by the PO entries, every key kept. */
  function UpdatedEntries(files: Files, pot: string, po: string): seq<Entry>
  {
    Replace(ParseSpecOr(files, pot), ParseSpecOr(files, po))
  }

  /** update_po_file behind its guard as written, merging with array_merge. */
  function UpdatePoMerged(files: Files, pot: string, po: string): (bool, Files)
  {
    UpdateWith(files, pot, po, Merge(ParseSpecOr(files, pot), ParseSpecOr(files, po)))
  }

  /** The parsed entries of a file, none for a missing one. */
  function ParseSpecOr(files: Files, f: string): seq<Entry>
  {
    if f in files then ParseSpec(files[f]) else []
  }

  /** The steps of update_po_file around the merge, with `merged` the merged entries. */
  function UpdateWith(files: Files, pot: string, po: string, merged: seq<Entry>): (bool, Files)
  {
    if pot !in files then (false, files)
    else if po !in files then (true, files[po := files[pot]])
    else if |ParseSpec(files[pot])| == 0 || |ParseSpec(files[po])| == 0 then (false, files)
    else (true, files[po := PoContentSpec(merged, PoHeaderSpec(files[po]))])
  }

  /** update_po_file as written: its guard names 'echo' and 'empty'. */
  function UpdatePoFileAsWritten(files: Files, pot: string, po: string): (bool, Files)
  {
    if !AllExist(UpdateGuard) then (false, files) else UpdatePoMerged(files, pot, po)
  }

  lemma UpdatePoAsWrittenFails(files: Files, pot: string, po: string)
    ensures UpdatePoFileAsWritten(files, pot, po) == (false, files)
  {
    GuardsAsWritten();
  }

  method UpdatePoFile(files: Files, pot: string, po: string) returns (ok: bool, out: Files)
    ensures (ok, out) == UpdatePoSpec(files, pot, po)
  {
    if pot !in files {
      return false, files;
    }
    if po !in files {
      return true, files[po := files[pot]];
    }
    var potEntries := ParsePoFile(files[pot]);
    var poEntries := ParsePoFile(files[po]);
    if |potEntries| == 0 || |poEntries| == 0 {
      return false, files;
    }
    var merged := Replace(potEntries, poEntries);
    var header := ExtractPoHeader(files[po]);
    var content := GeneratePoContent(merged, header);
    return true, files[po := content];
  }

  /**
   * update_po_file fails without the POT file, or when an existing PO file
   * or the POT file parses to nothing, and then changes nothing; otherwise
   * it writes the PO file and nothing else, and a new PO file is a copy of
   * the POT file.
   */
  lemma UpdatePoOutcome(files: Files, pot: string, po: string)
    ensures UpdatePoSpec(files, pot, po).0 <==>
      pot in files && (po !in files || (|ParseSpec(files[pot])| > 0 && |ParseSpec(files[po])| > 0))
    ensures !UpdatePoSpec(files, pot, po).0 ==> UpdatePoSpec(files, pot, po).1 == files
    ensures UpdatePoSpec(files, pot, po).0 ==> UpdatePoSpec(files, pot, po).1.Keys == files.Keys + {po}
    ensures forall f :: f in files && f != po ==> f in UpdatePoSpec(files, pot, po).1 && UpdatePoSpec(files, pot, po).1[f] == files[f]
    ensures pot in files && po !in files ==> UpdatePoSpec(files, pot, po).1[po] == files[pot]
  {
  }

  /** The merge keeps every key of a and gives b's value wherever b has the key. */
  lemma ReplaceOverlay(a: seq<Entry>, b: seq<Entry>, k: Key)
    requires UniqueKeys(b)
    ensures Lookup(Replace(a, b), k) == if HasKey(b, k) then Lookup(b, k) else Lookup(a, k)
  {
    ReplaceLookup(a, b, k);
    if HasKey(b, k) {
      LastValueUnique(b, k);
    }
  }

  /**
   * The catalogue update_po_file writes over an existing PO file: under the
   * PO file's own header, every msgid of the POT or the PO file, with the
   * PO file's entry wherever it has one.
   */
  lemma UpdatePoMerge(files: Files, pot: string, po: string, k: Key)
    requires pot in files && po in files && UpdatePoSpec(files, pot, po).0
    ensures UpdatePoSpec(files, pot, po).1[po] == PoContentSpec(UpdatedEntries(files, pot, po), PoHeaderSpec(files[po]))
    ensures Lookup(UpdatedEntries(files, pot, po), k) ==
      if HasKey(ParseSpec(files[po]), k) then Lookup(ParseSpec(files[po]), k) else Lookup(ParseSpec(files[pot]), k)
  {
    ParseStored(files[po]);
    ReplaceOverlay(ParseSpec(files[pot]), ParseSpec(files[po]), k);
  }

  /** Appending an entry adds its key and no other. */
  lemma HasKeyAppend(a: seq<Entry>, x: Entry, k: Key)
    ensures HasKey(a + [x], k) <==> HasKey(a, k) || x.key == k
  {
    if HasKey(a, k) {
      assert (a + [x])[IndexOfKey(a, k)] == a[IndexOfKey(a, k)];
    } else if x.key == k {
      assert (a + [x])[|a|].key == k;
    } else {
      forall j | 0 <= j < |a + [x]| ensures (a + [x])[j].key != k {
        if j < |a| { assert (a + [x])[j] == a[j]; }
      }
    }
  }

  /** Entries with fresh, distinct keys are appended in order. */
  lemma {:induction false} ReplaceAppends(acc: seq<Entry>, b: seq<Entry>)
    requires UniqueKeys(b) && forall j :: 0 <= j < |b| ==> !HasKey(acc, b[j].key)
    ensures Replace(acc, b) == acc + b
    decreases |b|
  {
    if |b| > 0 {
      var acc' := acc + [b[0]];
      assert Replace(acc, b) == Replace(acc', b[1..]) by {
        assert !HasKey(acc, b[0].key);
        assert Put(acc, b[0].key, b[0].val) == acc';
      }
      FreshTail(acc, b);
      UniqueTail(b);
      ReplaceAppends(acc', b[1..]);
      MoveHead(acc, b);
    }
  }

  lemma MoveHead<T>(a: seq<T>, b: seq<T>)
    requires |b| > 0
    ensures a + [b[0]] + b[1..] == a + b
  {
    ConcatAssoc(a, [b[0]], b[1..]);
    assert [b[0]] + b[1..] == b;
  }

  lemma FreshTail(acc: seq<Entry>, b: seq<Entry>)
    requires |b| > 0 && UniqueKeys(b) && forall j :: 0 <= j < |b| ==> !HasKey(acc, b[j].key)
    ensures forall j :: 0 <= j < |b[1..]| ==> !HasKey(acc + [b[0]], b[1..][j].key)
  {
    forall j | 0 <= j < |b[1..]| ensures !HasKey(acc + [b[0]], b[1..][j].key) {
      assert b[1..][j] == b[j + 1];
      HasKeyAppend(acc, b[0], b[j + 1].key);
    }
  }

  /** array_merge on string keys alone overwrites exactly as array_replace does. */
  lemma {:induction false} MergeIntoStrings(acc: seq<Entry>, n: int, b: seq<Entry>)
    requires forall j :: 0 <= j < |b| ==> b[j].key.KStr?
    ensures MergeInto(acc, n, b) == (Replace(acc, b), n)
    decreases |b|
  {
    if |b| > 0 {
      assert forall j :: 0 <= j < |b[1..]| ==> b[1..][j] == b[j + 1];
      MergeIntoStrings(Put(acc, b[0].key, b[0].val), n, b[1..]);
    }
  }

  /** Where no msgid became an integer key, array_merge and the key-keeping merge agree. */
  lemma MergeStringKeys(a: seq<Entry>, b: seq<Entry>)
    requires UniqueKeys(a)
    requires forall j :: 0 <= j < |a| ==> a[j].key.KStr?
    requires forall j :: 0 <= j < |b| ==> b[j].key.KStr?
    ensures Merge(a, b) == Replace(a, b)
  {
    MergeIntoStrings([], 0, a);
    ReplaceAppends([], a);
    assert [] + a == a;
    assert MergeInto([], 0, a) == (a, 0);
    MergeIntoStrings(a, 0, b);
  }

  /** The msgid "404" is the integer key 404, and array_merge renumbers it: the merged catalogue has msgids 0 and 1. */
  lemma MergeRenumbers(v: Value, w: Value)
    ensures KeyOf("404") == KInt(404)
    ensures Merge([Entry(KInt(404), v)], [Entry(KInt(404), w)]) == [Entry(KInt(0), v), Entry(KInt(1), w)]
    ensures !HasKey(Merge([Entry(KInt(404), v)], [Entry(KInt(404), w)]), KInt(404))
  {
    assert DigitsValue("404") == 404 by {
      assert "404"[..2] == "40" && "40"[..1] == "4" && "4"[..0] == "";
    }
    var m := Merge([Entry(KInt(404), v)], [Entry(KInt(404), w)]);
    assert [Entry(KInt(404), v)][1..] == [] && [Entry(KInt(404), w)][1..] == [];
    assert [] + [Entry(KInt(0), v)] == [Entry(KInt(0), v)];
    assert MergeInto([], 0, [Entry(KInt(404), v)]) == MergeInto([Entry(KInt(0), v)], 1, []);
    assert MergeInto([Entry(KInt(0), v)], 1, [Entry(KInt(404), w)]) == MergeInto([Entry(KInt(0), v)] + [Entry(KInt(1), w)], 2, []);
    assert m == [Entry(KInt(0), v), Entry(KInt(1), w)];
    assert m[0].key != KInt(404) && m[1].key != KInt(404);
  }
}
