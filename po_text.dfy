/**
 * PO catalogue text in its simplest form, as the parsers read it: a
 * `msgid "x"` and a `msgstr "y"` line per message, and continuation lines
 * `"z"`.
 */
module PoText {
  import opened Wrappers
  import opened PhpStrings
  import opened PhpValues
  import opened MoFormat

  /** The line `msgid "x"`. */
  function IdLine(x: string): string { "msgid \"" + x + "\"" }

  /** The line `msgstr "y"`. */
  function StrLine(y: string): string { "msgstr \"" + y + "\"" }

  /** The continuation line `"z"`. */
  function ContLine(z: string): string { "\"" + z + "\"" }

  /** The lines of the messages ms, two per message. */
  function RenderLines(ms: seq<Message>): (ls: seq<string>)
    ensures |ls| == 2 * |ms|
  {
    if |ms| == 0 then [] else RenderLines(ms[..|ms| - 1]) + [IdLine(ms[|ms| - 1].original), StrLine(ms[|ms| - 1].translation)]
  }

  /** No message text holds a newline. */
  predicate OneLine(ms: seq<Message>)
  {
    forall k :: 0 <= k < |ms| ==> '\n' !in ms[k].original && '\n' !in ms[k].translation
  }

  /** A line made of a value without newlines holds none. */
  lemma LineNoNewline(x: string)
    requires '\n' !in x
    ensures '\n' !in IdLine(x) && '\n' !in StrLine(x)
  {
  }

  /** Messages without newlines render to lines without newlines. */
  lemma {:induction false} RenderOneLine(ms: seq<Message>)
    requires OneLine(ms)
    ensures NoNewlines(RenderLines(ms))
    decreases |ms|
  {
    if |ms| > 0 {
      var m := ms[|ms| - 1];
      RenderOneLine(ms[..|ms| - 1]);
      LineNoNewline(m.original);
      LineNoNewline(m.translation);
    }
  }

  // ---------------------------------------------------------------------
  // The array a reader builds

  /** `$entries[$msgid] = $msgstr` for each message in turn. */
  function Assigned(ms: seq<Message>): seq<Entry>
  {
    if |ms| == 0 then [] else Put(Assigned(ms[..|ms| - 1]), KeyOf(ms[|ms| - 1].original), VStr(ms[|ms| - 1].translation))
  }

  /** The translation of the last message whose original is x. */
  function LastTranslation(ms: seq<Message>, x: string): Option<string>
  {
    if |ms| == 0 then None
    else if ms[|ms| - 1].original == x then Some(ms[|ms| - 1].translation)
    else LastTranslation(ms[..|ms| - 1], x)
  }

  /** Each original maps to the translation of its last occurrence: a later duplicate overwrites. */
  lemma {:induction false} AssignedLookup(ms: seq<Message>, x: string)
    ensures Lookup(Assigned(ms), KeyOf(x)) == if LastTranslation(ms, x).Some? then Some(VStr(LastTranslation(ms, x).value)) else None
    decreases |ms|
  {
    if |ms| > 0 {
      var m := ms[|ms| - 1];
      AssignedLookup(ms[..|ms| - 1], x);
      PutLookup(Assigned(ms[..|ms| - 1]), KeyOf(m.original), VStr(m.translation), KeyOf(x));
      KeyOfRoundTrip(x);
      KeyOfRoundTrip(m.original);
    }
  }

  /** Assigned keeps one entry per distinct original. */
  lemma {:induction false} AssignedUnique(ms: seq<Message>)
    ensures UniqueKeys(Assigned(ms))
    decreases |ms|
  {
    if |ms| > 0 {
      var m := ms[|ms| - 1];
      AssignedUnique(ms[..|ms| - 1]);
      PutShape(Assigned(ms[..|ms| - 1]), KeyOf(m.original), VStr(m.translation));
    }
  }
}
