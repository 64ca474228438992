/**
 * WordPress's `sanitize_key`, by its definition: lower-case the string, then
 * drop every character other than a-z, 0-9, '_' and '-'. Its filter hook is
 * not modelled.
 */
module SanitizeKeys {
  import opened PhpStrings
  import opened PhpValues

  predicate IsKeyChar(c: char)
  {
    'a' <= c <= 'z' || '0' <= c <= '9' || c == '_' || c == '-'
  }

  /** The characters of `^[a-zA-Z0-9_-]+$`. */
  predicate IsHandleChar(c: char)
  {
    'a' <= c <= 'z' || 'A' <= c <= 'Z' || '0' <= c <= '9' || c == '_' || c == '-'
  }

  predicate AllKeyChars(s: string)
  {
    forall i :: 0 <= i < |s| ==> IsKeyChar(s[i])
  }

  /** `preg_match('/^[a-zA-Z0-9_-]+$/', $s)`. */
  predicate MatchesHandle(s: string)
  {
    |s| > 0 && forall i :: 0 <= i < |s| ==> IsHandleChar(s[i])
  }

  /** `preg_replace('/[^a-z0-9_\-]/', '', $s)`. */
  function KeepKeyChars(s: string): (r: string)
    ensures AllKeyChars(r) && |r| <= |s|
    decreases |s|
  {
    if |s| == 0 then ""
    else (if IsKeyChar(s[0]) then [s[0]] else []) + KeepKeyChars(s[1..])
  }

  /** `sanitize_key` of a string. */
  function SanitizeKey(s: string): (r: string)
    ensures AllKeyChars(r)
  {
    KeepKeyChars(Lower(s))
  }

  /** `sanitize_key` of any value: scalars by their string form, anything else gives "". */
  function SanitizeKeyValue(v: Value): (r: string)
    ensures AllKeyChars(r)
  {
    if v.VArr? || v.VNull? then "" else SanitizeKey(StrVal(v))
  }

  lemma {:induction false} KeepKeyCharsNoop(s: string)
    requires AllKeyChars(s)
    ensures KeepKeyChars(s) == s
    decreases |s|
  {
    if |s| > 0 {
      KeepKeyCharsNoop(s[1..]);
      assert [s[0]] + s[1..] == s;
    }
  }

  /** A string is its own sanitized key exactly when it has only key characters. */
  lemma SanitizeKeyFixed(s: string)
    ensures SanitizeKey(s) == s <==> AllKeyChars(s)
  {
    if AllKeyChars(s) {
      assert Lower(s) == s;
      KeepKeyCharsNoop(s);
    }
  }

  /** sanitize_key is idempotent and its result always passes the handle pattern unless empty. */
  lemma SanitizeKeyIdempotent(s: string)
    ensures SanitizeKey(SanitizeKey(s)) == SanitizeKey(s)
    ensures SanitizeKey(s) != "" ==> MatchesHandle(SanitizeKey(s))
  {
    SanitizeKeyFixed(SanitizeKey(s));
  }

  lemma {:induction false} KeepKeyCharsAppend(a: string, b: string)
    ensures KeepKeyChars(a + b) == KeepKeyChars(a) + KeepKeyChars(b)
    decreases |a|
  {
    if |a| > 0 {
      assert (a + b)[1..] == a[1..] + b;
      KeepKeyCharsAppend(a[1..], b);
    } else {
      assert a + b == b;
    }
  }

  /** A key with one '.' inserted sanitizes back to the key. */
  lemma SanitizeKeyDropsDot(a: string, b: string)
    requires AllKeyChars(a) && AllKeyChars(b)
    ensures SanitizeKey(a + "." + b) == a + b
  {
    var dot := ".";
    LowerAppend(a + dot, b);
    LowerAppend(a, dot);
    SanitizeKeyFixed(a);
    SanitizeKeyFixed(b);
    assert Lower(a) == a && Lower(b) == b;
    assert Lower(dot) == dot;
    assert Lower(a + dot + b) == a + dot + b;
    KeepKeyCharsNoop(a);
    KeepKeyCharsNoop(b);
    KeepKeyCharsAppend(a + dot, b);
    KeepKeyCharsAppend(a, dot);
    assert KeepKeyChars(dot) == "" by {
      assert dot[1..] == "";
    }
    assert KeepKeyChars(a + dot) == a;
  }

  /** `<name>.php` sanitizes to `<name>php`. */
  lemma SanitizedLabel(name: string)
    requires AllKeyChars(name)
    ensures SanitizeKey(name + ".php") == name + "php"
  {
    var php := "php";
    assert AllKeyChars(php);
    SanitizeKeyDropsDot(name, php);
    assert name + "." + php == name + ".php";
  }
}
