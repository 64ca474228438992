/**
 * PHP values as the plugin's option arrays use them: null, booleans,
 * integers, strings and ordered arrays. A PHP array is an ordered map from
 * keys to values; a key is an integer or a string, and a string that is the
 * canonical decimal form of a 64-bit integer is turned into that integer.
 */
module PhpValues {
  import opened Wrappers
  import opened PhpStrings

  const IntMin: int := -0x8000_0000_0000_0000
  const IntMax: int := 0x7FFF_FFFF_FFFF_FFFF

  datatype Key = KInt(i: int) | KStr(s: string)

  datatype Value =
    | VNull
    | VBool(b: bool)
    | VInt(n: int)
    | VStr(s: string)
    | VArr(entries: seq<Entry>)

  datatype Entry = Entry(key: Key, val: Value)

  // ---------------------------------------------------------------------
  // Decimal integers

  predicate IsDigit(c: char) { '0' <= c <= '9' }

  predicate AllDigits(s: string) { forall i :: 0 <= i < |s| ==> IsDigit(s[i]) }

  function DigitsValue(s: string): nat
    requires AllDigits(s)
  {
    if |s| == 0 then 0 else DigitsValue(s[..|s| - 1]) * 10 + (s[|s| - 1] as int - '0' as int)
  }

  function NatToString(n: nat): (r: string)
    ensures |r| > 0 && AllDigits(r)
    ensures (r[0] == '0') == (n == 0)
  {
    if n < 10 then ["0123456789"[n]]
    else NatToString(n / 10) + ["0123456789"[n % 10]]
  }

  /** Decimal rendering of an integer, as PHP interpolates it into a string. */
  function IntToString(n: int): (r: string)
    ensures |r| > 0
  {
    if n < 0 then "-" + NatToString(-n) else NatToString(n)
  }

  /** A non-empty digit string without a superfluous leading zero. */
  predicate CanonicalDigits(s: string)
  {
    |s| > 0 && AllDigits(s) && (s[0] != '0' || |s| == 1)
  }

  /** The strings PHP converts to an integer when they are used as an array key. */
  predicate IsIntegerKeyString(s: string)
  {
    if |s| > 0 && s[0] == '-' then
      CanonicalDigits(s[1..]) && s[1] != '0' && DigitsValue(s[1..]) <= -IntMin
    else
      CanonicalDigits(s) && DigitsValue(s) <= IntMax
  }

  function IntegerKeyValue(s: string): int
    requires IsIntegerKeyString(s)
  {
    if s[0] == '-' then 0 - DigitsValue(s[1..]) else DigitsValue(s)
  }

  /** The key PHP uses for `$array[$s]`. */
  function KeyOf(s: string): (k: Key)
  {
    if IsIntegerKeyString(s) then KInt(IntegerKeyValue(s)) else KStr(s)
  }

  /** A key as the string it would print as. */
  function KeyString(k: Key): string
  {
    match k
    case KInt(i) => IntToString(i)
    case KStr(s) => s
  }

  /** The key a value becomes when a loop variable reads it back (`foreach ($a as $k => $v)`). */
  function KeyValue(k: Key): Value
  {
    match k
    case KInt(i) => VInt(i)
    case KStr(s) => VStr(s)
  }

  lemma {:induction false} DigitsValueNatToString(n: nat)
    ensures DigitsValue(NatToString(n)) == n
  {
    if n >= 10 {
      DigitsValueNatToString(n / 10);
      var s := NatToString(n);
      assert s[..|s| - 1] == NatToString(n / 10);
    }
  }

  lemma {:induction false} NatToStringDigitsValue(s: string)
    requires CanonicalDigits(s)
    ensures NatToString(DigitsValue(s)) == s
    decreases |s|
  {
    var init := s[..|s| - 1];
    var last := s[|s| - 1] as int - '0' as int;
    if |s| == 1 {
      assert DigitsValue(s) == last;
      assert DigitsValue(init) == 0;
    } else {
      assert init[0] == s[0];
      assert CanonicalDigits(init);
      NatToStringDigitsValue(init);
      DigitsPositive(init);
      assert DigitsValue(s) / 10 == DigitsValue(init);
      assert DigitsValue(s) % 10 == last;
      assert s == init + [s[|s| - 1]];
    }
  }

  lemma {:induction false} DigitsPositive(s: string)
    requires CanonicalDigits(s) && s[0] != '0'
    ensures DigitsValue(s) > 0
    decreases |s|
  {
    if |s| > 1 {
      var init := s[..|s| - 1];
      assert init[0] == s[0];
      DigitsPositive(init);
    }
  }

  /** Every string survives being used as an array key: the key prints as the original string. */
  lemma KeyOfRoundTrip(s: string)
    ensures KeyString(KeyOf(s)) == s
  {
    if IsIntegerKeyString(s) {
      if s[0] == '-' {
        var d := s[1..];
        NatToStringDigitsValue(d);
        DigitsPositive(d);
        assert "-" + d == s;
      } else {
        NatToStringDigitsValue(s);
      }
    }
  }

  /** A string that does not start with a digit or '-' stays a string key. */
  lemma KeyOfWord(s: string)
    requires |s| > 0 && !IsDigit(s[0]) && s[0] != '-'
    ensures KeyOf(s) == KStr(s)
  {
  }

  // ---------------------------------------------------------------------
  // Arrays

  /** `isset($a[$k])` ignoring null: the position of the first entry with key k. */
  function IndexOfKey(a: seq<Entry>, k: Key): (r: int)
    ensures -1 <= r < |a|
    ensures r >= 0 ==> a[r].key == k && forall j :: 0 <= j < r ==> a[j].key != k
    ensures r == -1 <==> forall j :: 0 <= j < |a| ==> a[j].key != k
    decreases |a|
  {
    if |a| == 0 then -1
    else if a[0].key == k then 0
    else
      var r := IndexOfKey(a[1..], k);
      if r == -1 then -1 else r + 1
  }

  predicate HasKey(a: seq<Entry>, k: Key) { IndexOfKey(a, k) >= 0 }

  /** `$a[$k]` if the key exists. */
  function Lookup(a: seq<Entry>, k: Key): (r: Option<Value>)
    ensures r.Some? <==> HasKey(a, k)
  {
    var i := IndexOfKey(a, k);
    if i >= 0 then Some(a[i].val) else None
  }

  /** `$a[$k]` by a plain search from the front; the same as Lookup (see GetLookup). */
  function Get(a: seq<Entry>, k: Key): Option<Value>
    decreases |a|
  {
    if |a| == 0 then None else if a[0].key == k then Some(a[0].val) else Get(a[1..], k)
  }

  lemma {:induction false} GetLookup(a: seq<Entry>, k: Key)
    ensures Get(a, k) == Lookup(a, k)
    decreases |a|
  {
    if |a| > 0 && a[0].key != k {
      GetLookup(a[1..], k);
    }
  }

  /** `isset($a[$k])`: present and not null. */
  predicate IsSetKey(a: seq<Entry>, k: Key)
  {
    Lookup(a, k).Some? && Lookup(a, k).value != VNull
  }

  /** `$a[$k] = $v`: overwrite in place, or append a new entry at the end. */
  function Put(a: seq<Entry>, k: Key, v: Value): (r: seq<Entry>)
    ensures HasKey(a, k) ==> |r| == |a|
    ensures !HasKey(a, k) ==> r == a + [Entry(k, v)]
  {
    var i := IndexOfKey(a, k);
    if i >= 0 then a[i := Entry(k, v)] else a + [Entry(k, v)]
  }

  /** `unset($a[$k])`. */
  function Remove(a: seq<Entry>, k: Key): (r: seq<Entry>)
    ensures |r| <= |a|
    ensures forall j :: 0 <= j < |r| ==> r[j].key != k
    decreases |a|
  {
    if |a| == 0 then []
    else if a[0].key == k then Remove(a[1..], k)
    else [a[0]] + Remove(a[1..], k)
  }

  function Keys(a: seq<Entry>): (r: seq<Key>)
    ensures |r| == |a| && forall j :: 0 <= j < |a| ==> r[j] == a[j].key
  {
    seq(|a|, j requires 0 <= j < |a| => a[j].key)
  }

  function Values(a: seq<Entry>): (r: seq<Value>)
    ensures |r| == |a| && forall j :: 0 <= j < |a| ==> r[j] == a[j].val
  {
    seq(|a|, j requires 0 <= j < |a| => a[j].val)
  }

  /** No key occurs twice, as in every PHP array. */
  predicate UniqueKeys(a: seq<Entry>)
  {
    forall i, j :: 0 <= i < j < |a| ==> a[i].key != a[j].key
  }

  /** A PHP list: the values keyed 0, 1, 2, ... */
  function ListOf(vs: seq<Value>): (r: seq<Entry>)
    ensures |r| == |vs|
    ensures forall j :: 0 <= j < |vs| ==> r[j] == Entry(KInt(j), vs[j])
  {
    seq(|vs|, j requires 0 <= j < |vs| => Entry(KInt(j), vs[j]))
  }

  lemma PutLookup(a: seq<Entry>, k: Key, v: Value, k': Key)
    ensures Lookup(Put(a, k, v), k') == if k' == k then Some(v) else Lookup(a, k')
  {
    var r := Put(a, k, v);
    var i := IndexOfKey(a, k);
    var j := IndexOfKey(a, k');
    var j' := IndexOfKey(r, k');
    if k' == k {
      assert r[if i >= 0 then i else |a|].key == k;
    } else if j >= 0 {
      assert r[j] == a[j];
    } else {
      assert forall m :: 0 <= m < |r| ==> r[m].key != k';
    }
  }

  /** Two assignments to the same key leave the second value, in the place of the first. */
  lemma PutTwice(a: seq<Entry>, k: Key, v: Value, w: Value)
    ensures Put(Put(a, k, v), k, w) == Put(a, k, w)
  {
    var i := IndexOfKey(a, k);
    var b := Put(a, k, v);
    var i' := IndexOfKey(b, k);
    if i >= 0 {
      assert b[i].key == k;
      assert forall j :: 0 <= j < i ==> b[j] == a[j];
      assert i' == i;
    } else {
      assert b[|a|].key == k;
      assert i' == |a|;
    }
  }

  /** Put keeps keys unique: every entry afterwards is the new one or an old one in its old place. */
  lemma PutShape(a: seq<Entry>, k: Key, v: Value)
    ensures forall j :: 0 <= j < |Put(a, k, v)| ==> Put(a, k, v)[j] == Entry(k, v) || (j < |a| && Put(a, k, v)[j] == a[j])
    ensures UniqueKeys(a) ==> UniqueKeys(Put(a, k, v))
  {
    var r := Put(a, k, v);
    var i := IndexOfKey(a, k);
    if UniqueKeys(a) {
      forall x, y | 0 <= x < y < |r| ensures r[x].key != r[y].key {
        if i >= 0 {
          if x != i && y != i {
            assert r[x] == a[x] && r[y] == a[y];
          }
        } else if y == |a| {
          assert r[x] == a[x];
        } else {
          assert r[x] == a[x] && r[y] == a[y];
        }
      }
    }
  }

  lemma RemoveLookup(a: seq<Entry>, k: Key, k': Key)
    ensures Lookup(Remove(a, k), k') == if k' == k then None else Lookup(a, k')
    decreases |a|
  {
    if |a| > 0 {
      RemoveLookup(a[1..], k, k');
    }
  }

  /** Assigning a key and then unsetting it is the same as unsetting it. */
  /** Putting the value a key already holds changes nothing. */
  lemma PutPresent(a: seq<Entry>, k: Key, v: Value)
    requires Lookup(a, k) == Some(v)
    ensures Put(a, k, v) == a
  {
    var i := IndexOfKey(a, k);
    assert a[i] == Entry(k, v);
  }

  lemma {:induction false} RemovePut(a: seq<Entry>, k: Key, v: Value)
    ensures Remove(Put(a, k, v), k) == Remove(a, k)
    decreases |a|
  {
    if |a| > 0 {
      var p := Put(a, k, v);
      if a[0].key == k {
        assert p == a[0 := Entry(k, v)];
        assert p[1..] == a[1..];
      } else {
        var t := a[1..];
        RemovePut(t, k, v);
        var i := IndexOfKey(t, k);
        assert IndexOfKey(a, k) == if i >= 0 then i + 1 else -1;
        if i >= 0 {
          assert p == [a[0]] + t[i := Entry(k, v)];
        } else {
          assert p == [a[0]] + (t + [Entry(k, v)]);
        }
        assert p[1..] == Put(t, k, v);
      }
    }
  }

  /** unset keeps the other entries in their order. */
  lemma {:induction false} RemoveKeepsOthers(a: seq<Entry>, k: Key)
    requires !HasKey(a, k)
    ensures Remove(a, k) == a
    decreases |a|
  {
    if |a| > 0 {
      assert a[0].key != k;
      assert !HasKey(a[1..], k) by {
        forall j | 0 <= j < |a[1..]| ensures a[1..][j].key != k { assert a[1..][j] == a[j + 1]; }
      }
      RemoveKeepsOthers(a[1..], k);
      assert [a[0]] + a[1..] == a;
    }
  }

  /** Entry-wise array_merge step: string keys overwrite, integer keys are renumbered from `next`. */
  function MergeInto(acc: seq<Entry>, next: int, b: seq<Entry>): (r: (seq<Entry>, int))
    decreases |b|
  {
    if |b| == 0 then (acc, next)
    else
      match b[0].key
      case KInt(_) => MergeInto(acc + [Entry(KInt(next), b[0].val)], next + 1, b[1..])
      case KStr(s) => MergeInto(Put(acc, KStr(s), b[0].val), next, b[1..])
  }

  /** `array_merge($a, $b)`. */
  function Merge(a: seq<Entry>, b: seq<Entry>): seq<Entry>
  {
    var (m, n) := MergeInto([], 0, a);
    MergeInto(m, n, b).0
  }

  /** `array_replace($a, $b)`: every key of b is written into a, keeping a's keys. */
  function Replace(a: seq<Entry>, b: seq<Entry>): seq<Entry>
    decreases |b|
  {
    if |b| == 0 then a else Replace(Put(a, b[0].key, b[0].val), b[1..])
  }

  lemma {:induction false} ReplaceLookup(a: seq<Entry>, b: seq<Entry>, k: Key)
    ensures Lookup(Replace(a, b), k) == if HasKey(b, k) then Some(LastValue(b, k)) else Lookup(a, k)
    decreases |b|
  {
    if |b| > 0 {
      ReplaceLookup(Put(a, b[0].key, b[0].val), b[1..], k);
      PutLookup(a, b[0].key, b[0].val, k);
      HasKeyCons(b, k);
    }
  }

  lemma HasKeyCons(b: seq<Entry>, k: Key)
    requires |b| > 0
    ensures HasKey(b, k) <==> b[0].key == k || HasKey(b[1..], k)
  {
  }

  /** The value the last entry of b with key k carries. */
  function LastValue(b: seq<Entry>, k: Key): Value
    requires HasKey(b, k)
    decreases |b|
  {
    if HasKey(b[1..], k) then LastValue(b[1..], k)
    else b[0].val
  }

  lemma UniqueTail(b: seq<Entry>)
    requires |b| > 0 && UniqueKeys(b)
    ensures UniqueKeys(b[1..])
  {
    var t := b[1..];
    forall x, y | 0 <= x < y < |t| ensures t[x].key != t[y].key { assert t[x] == b[x + 1] && t[y] == b[y + 1]; }
  }

  /** With unique keys the last value of a key is its only one. */
  lemma {:induction false} LastValueUnique(b: seq<Entry>, k: Key)
    requires UniqueKeys(b) && HasKey(b, k)
    ensures Some(LastValue(b, k)) == Lookup(b, k)
    decreases |b|
  {
    var t := b[1..];
    UniqueTail(b);
    if HasKey(t, k) {
      var j := IndexOfKey(t, k);
      assert b[j + 1] == t[j];
      assert b[0].key != k;
      LastValueUnique(t, k);
      HasKeyCons(b, k);
    }
  }

  /** Appending an entry under another key changes no lookup. */
  lemma AppendLookup(a: seq<Entry>, e: Entry, k: Key)
    requires e.key != k
    ensures Lookup(a + [e], k) == Lookup(a, k)
  {
    var i := IndexOfKey(a, k);
    assert forall j :: 0 <= j < |a| ==> (a + [e])[j] == a[j];
    if i >= 0 {
      assert IndexOfKey(a + [e], k) == i;
    }
  }

  /** array_merge step by step: a string key gets the last value the merged array gives it. */
  lemma {:induction false} MergeIntoLookup(acc: seq<Entry>, n: int, b: seq<Entry>, s: string)
    ensures Lookup(MergeInto(acc, n, b).0, KStr(s)) == if HasKey(b, KStr(s)) then Some(LastValue(b, KStr(s))) else Lookup(acc, KStr(s))
    decreases |b|
  {
    if |b| > 0 {
      HasKeyCons(b, KStr(s));
      match b[0].key
      case KInt(_) =>
        AppendLookup(acc, Entry(KInt(n), b[0].val), KStr(s));
        MergeIntoLookup(acc + [Entry(KInt(n), b[0].val)], n + 1, b[1..], s);
      case KStr(t) =>
        PutLookup(acc, KStr(t), b[0].val, KStr(s));
        MergeIntoLookup(Put(acc, KStr(t), b[0].val), n, b[1..], s);
    }
  }

  /** `array_merge($a, $b)[$s]` for a string key: b's value if b has the key, otherwise a's. */
  lemma MergeLookup(a: seq<Entry>, b: seq<Entry>, s: string)
    requires UniqueKeys(a) && UniqueKeys(b)
    ensures Lookup(Merge(a, b), KStr(s)) == if HasKey(b, KStr(s)) then Lookup(b, KStr(s)) else Lookup(a, KStr(s))
  {
    var (m, n) := MergeInto([], 0, a);
    MergeIntoLookup([], 0, a, s);
    MergeIntoLookup(m, n, b, s);
    if HasKey(b, KStr(s)) {
      LastValueUnique(b, KStr(s));
    } else if HasKey(a, KStr(s)) {
      LastValueUnique(a, KStr(s));
    }
  }

  // ---------------------------------------------------------------------
  // Conversions

  /** `empty($v)`. */
  predicate IsEmpty(v: Value)
  {
    match v
    case VNull => true
    case VBool(b) => !b
    case VInt(n) => n == 0
    case VStr(s) => s == "" || s == "0"
    case VArr(e) => |e| == 0
  }

  /** `(string) $v`, as string interpolation and `.=` apply it (an array prints as "Array"). */
  function StrVal(v: Value): (r: string)
    ensures v.VStr? ==> r == v.s
    ensures v.VInt? ==> r == IntToString(v.n)
    ensures v.VNull? ==> r == ""
  {
    match v
    case VNull => ""
    case VBool(b) => if b then "1" else ""
    case VInt(n) => IntToString(n)
    case VStr(s) => s
    case VArr(_) => "Array"
  }

  /** `(bool) $v`. */
  predicate Truthy(v: Value) { !IsEmpty(v) }

  /** `empty($s)` for a string. */
  predicate EmptyString(s: string) { s == "" || s == "0" }

  const IntWhitespace: set<char> := {' ', '\t', '\n', '\r', '\U{000B}', '\U{000C}'}

  function Clamp64(n: int): (r: int)
    ensures IntMin <= r <= IntMax
    ensures IntMin <= n <= IntMax ==> r == n
  {
    if n < IntMin then IntMin else if n > IntMax then IntMax else n
  }

  /** The leading run of digits of s. */
  function LeadingDigits(s: string): (r: string)
    ensures IsPrefix(r, s) && AllDigits(r)
    decreases |s|
  {
    if |s| > 0 && IsDigit(s[0]) then [s[0]] + LeadingDigits(s[1..]) else ""
  }

  /** `(int) $s`: leading whitespace, an optional sign and the leading digits; the rest is ignored. */
  function StringToInt(s: string): int
  {
    var t := TrimLeft(s, IntWhitespace);
    if |t| > 0 && t[0] == '-' then Clamp64(0 - DigitsValue(LeadingDigits(t[1..])))
    else if |t| > 0 && t[0] == '+' then Clamp64(DigitsValue(LeadingDigits(t[1..])))
    else Clamp64(DigitsValue(LeadingDigits(t)))
  }

  /** `intval($v)`. */
  function IntVal(v: Value): int
  {
    match v
    case VNull => 0
    case VBool(b) => if b then 1 else 0
    case VInt(n) => n
    case VStr(s) => StringToInt(s)
    case VArr(e) => if |e| == 0 then 0 else 1
  }

  /**
   * PHP 8's string form of "integer numeric": optional surrounding
   * whitespace, an optional sign and at least one digit.
   */
  predicate IsIntNumeric(s: string)
  {
    var t := TrimSet(s, IntWhitespace);
    |t| > 0 && (if t[0] == '-' || t[0] == '+' then |t| > 1 && AllDigits(t[1..]) else AllDigits(t))
  }

  function IntNumericValue(s: string): int
    requires IsIntNumeric(s)
  {
    var t := TrimSet(s, IntWhitespace);
    if t[0] == '-' then 0 - DigitsValue(t[1..])
    else if t[0] == '+' then DigitsValue(t[1..])
    else DigitsValue(t)
  }

  /** PHP 8 loose comparison `==` (integers and integer-numeric strings; arrays strictly). */
  predicate LooseEquals(x: Value, y: Value)
  {
    match (x, y)
    case (VBool(b), _) => b == Truthy(y)
    case (_, VBool(b)) => b == Truthy(x)
    case (VNull, VNull) => true
    case (VNull, VStr(s)) => s == ""
    case (VStr(s), VNull) => s == ""
    case (VNull, VInt(n)) => n == 0
    case (VInt(n), VNull) => n == 0
    case (VNull, VArr(e)) => |e| == 0
    case (VArr(e), VNull) => |e| == 0
    case (VInt(m), VInt(n)) => m == n
    case (VInt(n), VStr(s)) => if IsIntNumeric(s) then IntNumericValue(s) == n else IntToString(n) == s
    case (VStr(s), VInt(n)) => if IsIntNumeric(s) then IntNumericValue(s) == n else IntToString(n) == s
    case (VStr(s), VStr(t)) =>
      if IsIntNumeric(s) && IsIntNumeric(t) then IntNumericValue(s) == IntNumericValue(t) else s == t
    case (VArr(a), VArr(b)) => a == b
    case _ => false
  }

  /** `in_array($needle, $haystack)` (loose). */
  predicate InArrayLoose(needle: Value, haystack: seq<Value>)
  {
    exists j :: 0 <= j < |haystack| && LooseEquals(needle, haystack[j])
  }

  /** Loose equality with a word that is not numeric: only the word itself and `true` are equal to it. */
  lemma LooseEqualsWord(v: Value, w: string)
    requires |w| > 0 && !IsDigit(w[0]) && w[0] !in IntWhitespace && w[0] != '-' && w[0] != '+' && w != "0"
    ensures LooseEquals(v, VStr(w)) <==> v == VStr(w) || v == VBool(true)
  {
    TrimLeftNoop(w, IntWhitespace);
    assert !IsIntNumeric(w) by {
      var t := TrimSet(w, IntWhitespace);
      if |t| > 0 {
        assert t[0] == w[0];
      }
    }
  }

  // ---------------------------------------------------------------------
  // function_exists

  /**
   * `function_exists($name)` for the names the scripts ask about: built-ins and
   * a script's own functions exist; 'echo', 'empty' and 'isset' are language
   * constructs, for which it is false.
   */
  predicate FunctionExists(name: string)
  {
    name != "echo" && name != "empty" && name != "isset"
  }

  predicate AllExist(names: seq<string>)
  {
    forall i :: 0 <= i < |names| ==> FunctionExists(names[i])
  }
}
