/**
 * The binary message-catalogue format of the GNU gettext manual, section
 * 10.3 ("The Format of GNU MO Files"), as far as the plugin's writers use
 * it: 32-bit words in either byte order, tables of (length, offset)
 * descriptors, and NUL-terminated strings.
 *
 * A PHP string is a sequence of bytes; here each byte is one `char` below
 * 256.
 */
module MoFormat {
  import opened Wrappers

  const Magic: nat := 0x950412de
  const WordRange: nat := 0x1_0000_0000

  /** The byte n mod 256. */
  function ByteOf(n: nat): (c: char)
    ensures c as int == n % 256
  {
    (n % 256) as char
  }

  lemma MulSign(d: int, m: int)
    requires d > 0
    ensures m >= 1 ==> d * m >= d
    ensures m <= -1 ==> d * m <= -d
  {
  }

  lemma ModUnique(n: nat, d: nat, q: nat, r: nat)
    requires d > 0 && n == d * q + r && r < d
    ensures n % d == r && n / d == q
  {
    var q0 := n / d;
    var r0 := n % d;
    assert d * (q - q0) == r0 - r;
    MulSign(d, q - q0);
  }

  lemma ModStep(n: nat, p: nat)
    requires p > 0
    ensures n % (256 * p) == n % 256 + 256 * ((n / 256) % p)
  {
    var q := n / 256;
    var r := n % 256;
    var q2 := q / p;
    var r2 := q % p;
    assert q == p * q2 + r2;
    assert n == 256 * q + r;
    assert n == (256 * p) * q2 + (256 * r2 + r) by {
      assert 256 * q == 256 * (p * q2) + 256 * r2;
      assert 256 * (p * q2) == (256 * p) * q2;
    }
    assert 256 * r2 + r < 256 * p by {
      assert r2 <= p - 1;
      assert 256 * r2 <= 256 * (p - 1);
    }
    ModUnique(n, 256 * p, q2, 256 * r2 + r);
  }

  /** `pack('V', n)` (little-endian) or `pack('N', n)` (big-endian): the low 32 bits of n. */
  function Word(n: nat, le: bool): (w: string)
    ensures |w| == 4
  {
    if le then [ByteOf(n), ByteOf(n / 0x100), ByteOf(n / 0x1_0000), ByteOf(n / 0x100_0000)]
    else [ByteOf(n / 0x100_0000), ByteOf(n / 0x1_0000), ByteOf(n / 0x100), ByteOf(n)]
  }

  /** The unsigned number four bytes hold in the given byte order. */
  function WordValue(w: string, le: bool): nat
    requires |w| == 4
  {
    if le then w[0] as nat + 0x100 * (w[1] as nat + 0x100 * (w[2] as nat + 0x100 * (w[3] as nat)))
    else w[3] as nat + 0x100 * (w[2] as nat + 0x100 * (w[1] as nat + 0x100 * (w[0] as nat)))
  }

  /** The low 32 bits of n, written out as its four low bytes. */
  lemma LowBytes(n: nat)
    ensures n % WordRange
      == n % 0x100 + 0x100 * ((n / 0x100) % 0x100 + 0x100 * ((n / 0x1_0000) % 0x100 + 0x100 * ((n / 0x100_0000) % 0x100)))
  {
    ModStep(n, 0x100_0000);
    ModStep(n / 0x100, 0x1_0000);
    ModStep(n / 0x1_0000, 0x100);
    assert (n / 0x100) / 0x100 == n / 0x1_0000;
    assert (n / 0x1_0000) / 0x100 == n / 0x100_0000;
  }

  lemma WordRoundTrip(n: nat, le: bool)
    ensures WordValue(Word(n, le), le) == n % WordRange
  {
    LowBytes(n);
  }

  /** The word at byte position p of a file. */
  function WordAt(s: string, p: nat, le: bool): nat
    requires p + 4 <= |s|
  {
    WordValue(s[p..p + 4], le)
  }

  lemma WordAtRoundTrip(a: string, n: nat, b: string, le: bool)
    ensures WordAt(a + Word(n, le) + b, |a|, le) == n % WordRange
  {
    assert (a + Word(n, le) + b)[|a|..|a| + 4] == Word(n, le);
    WordRoundTrip(n, le);
  }

  /** n zero words: the empty hash table the writers reserve. */
  function Zeros(n: nat): (z: string)
    ensures |z| == 4 * n
  {
    seq(4 * n, i => '\0')
  }

  // ---------------------------------------------------------------------
  // String tables: every string followed by a NUL byte, one after another.

  function StringTable(xs: seq<string>): (t: string)
  {
    if |xs| == 0 then "" else StringTable(xs[..|xs| - 1]) + xs[|xs| - 1] + "\0"
  }

  /** Where the k-th string of a table starts, relative to the table. */
  function StrStart(xs: seq<string>, k: nat): nat
    requires k <= |xs|
  {
    |StringTable(xs[..k])|
  }

  lemma {:induction false} StringTableAppend(a: seq<string>, b: seq<string>)
    ensures StringTable(a + b) == StringTable(a) + StringTable(b)
  {
    if |b| > 0 {
      var b' := b[..|b| - 1];
      assert (a + b)[..|a + b| - 1] == a + b';
      StringTableAppend(a, b');
    } else {
      assert a + b == a;
    }
  }

  lemma {:induction false} StringTableLength(xs: seq<string>)
    ensures |xs| <= |StringTable(xs)|
  {
    if |xs| > 0 {
      StringTableLength(xs[..|xs| - 1]);
    }
  }

  /** The k-th string sits at StrStart(xs, k), followed by its NUL. */
  lemma StringTableOne(x: string)
    ensures StringTable([x]) == x + "\0"
  {
    assert [x][..0] == [];
  }

  lemma StringTableEntry(xs: seq<string>, k: nat)
    requires k < |xs|
    ensures StrStart(xs, k) + |xs[k]| < |StringTable(xs)|
    ensures StringTable(xs)[StrStart(xs, k)..StrStart(xs, k) + |xs[k]|] == xs[k]
    ensures StringTable(xs)[StrStart(xs, k) + |xs[k]|] == '\0'
  {
    assert xs == xs[..k] + [xs[k]] + xs[k + 1..];
    StringTableAppend(xs[..k] + [xs[k]], xs[k + 1..]);
    StringTableAppend(xs[..k], [xs[k]]);
    assert [xs[k]][..0] == [];
  }

  // ---------------------------------------------------------------------
  // Sequences of words, and the descriptor tables built from them.

  /** The words ns, one after another. */
  function Words(ns: seq<nat>, le: bool): (w: string)
    ensures |w| == 4 * |ns|
  {
    if |ns| == 0 then "" else Words(ns[..|ns| - 1], le) + Word(ns[|ns| - 1], le)
  }

  lemma {:induction false} WordsPrefix(ns: seq<nat>, m: nat, le: bool)
    requires m <= |ns|
    ensures Words(ns, le)[..4 * m] == Words(ns[..m], le)
  {
    if m < |ns| {
      var init := ns[..|ns| - 1];
      WordsPrefix(init, m, le);
      assert init[..m] == ns[..m];
    } else {
      assert ns[..m] == ns;
    }
  }

  lemma WordsEntry(ns: seq<nat>, i: nat, le: bool)
    requires i < |ns|
    ensures Words(ns, le)[4 * i..4 * i + 4] == Word(ns[i], le)
  {
    WordsPrefix(ns, i + 1, le);
    var p := ns[..i + 1];
    assert p[..|p| - 1] == ns[..i];
    var a, b := Words(ns[..i], le), Word(ns[i], le);
    assert Words(p, le) == a + b;
    assert (a + b)[|a|..|a| + |b|] == b;
    assert Words(ns, le)[4 * i..4 * i + 4] == Words(p, le)[4 * i..4 * i + 4];
  }

  /** Where a file holds the words ns from byte p on, word i reads back as ns[i] modulo 2^32. */
  lemma WordsRead(s: string, p: nat, w: string, ns: seq<nat>, i: nat, le: bool)
    requires w == Words(ns, le) && Placed(s, p, w) && i < |ns|
    ensures WordAt(s, p + 4 * i, le) == ns[i] % WordRange
  {
    var q := p + 4 * i;
    WordsEntry(ns, i, le);
    SliceOfSlice(s, p, w, 4 * i, 4 * i + 4);
    assert s[q..q + 4] == w[4 * i..4 * i + 4];
    WordAtIs(s, q, ns[i], le);
  }


  lemma WordAtIs(s: string, q: nat, n: nat, le: bool)
    requires q + 4 <= |s| && s[q..q + 4] == Word(n, le)
    ensures WordAt(s, q, le) == n % WordRange
  {
    WordRoundTrip(n, le);
  }

  /** Descriptor k of a table placed at p holds the length of string k and its offset from `base`. */
  lemma DescWordsIn(s: string, p: nat, d: string, xs: seq<string>, base: nat, le: bool, k: nat)
    requires k < |xs| && d == DescTable(xs, base, le) && Placed(s, p, d)
    ensures p + 8 * k + 8 <= |s|
    ensures WordAt(s, p + 8 * k, le) == |xs[k]| % WordRange
    ensures WordAt(s, p + 8 * k + 4, le) == (base + StrStart(xs, k)) % WordRange
  {
    WordsRead(s, p, d, DescWords(xs, base), 2 * k, le);
    WordsRead(s, p, d, DescWords(xs, base), 2 * k + 1, le);
    DescWordsAt(xs, base, k);
    assert p + 4 * (2 * k) == p + 8 * k && p + 4 * (2 * k + 1) == p + 8 * k + 4;
  }

  /** A piece of a piece of s is a piece of s. */
  lemma SliceOfSlice(s: string, p: nat, t: string, a: nat, b: nat)
    requires p + |t| <= |s| && s[p..p + |t|] == t && a <= b <= |t|
    ensures s[p + a..p + b] == t[a..b]
  {
    assert forall j :: a <= j < b ==> s[p + j] == t[j];
  }

  /** Length and absolute offset of each string of a table placed at `base`, interleaved. */
  function DescWords(xs: seq<string>, base: nat): (ns: seq<nat>)
    ensures |ns| == 2 * |xs|
  {
    if |xs| == 0 then []
    else
      var init := xs[..|xs| - 1];
      DescWords(init, base) + [|xs[|xs| - 1]|, base + |StringTable(init)|]
  }

  lemma {:induction false} DescWordsAt(xs: seq<string>, base: nat, k: nat)
    requires k < |xs|
    ensures DescWords(xs, base)[2 * k] == |xs[k]|
    ensures DescWords(xs, base)[2 * k + 1] == base + StrStart(xs, k)
  {
    var init := xs[..|xs| - 1];
    if k < |xs| - 1 {
      DescWordsAt(init, base, k);
      assert init[..k] == xs[..k];
    } else {
      assert init == xs[..k];
    }
  }

  /** The descriptors of a string table placed at byte offset `base`. */
  function DescTable(xs: seq<string>, base: nat, le: bool): (t: string)
    ensures |t| == 8 * |xs|
  {
    Words(DescWords(xs, base), le)
  }

  // ---------------------------------------------------------------------
  // Reading a catalogue back (section 10.3 of the GNU gettext manual).

  datatype Message = Message(original: string, translation: string)

  /** The string the k-th descriptor of the table at `table` points to, if it is in the file and NUL-terminated. */
  function StringAt(s: string, table: nat, k: nat, le: bool): (r: Option<string>)
    ensures r.Some? ==> table + 8 * k + 8 <= |s|
  {
    var d := table + 8 * k;
    if d + 8 > |s| then None
    else
      var len := WordAt(s, d, le);
      var off := WordAt(s, d + 4, le);
      if off + len < |s| && s[off + len] == '\0' then Some(s[off..off + len]) else None
  }

  /** All n descriptors of both tables, at o and t, name strings of the file. */
  predicate Resolves(s: string, le: bool, o: nat, t: nat, n: nat)
  {
    forall k :: 0 <= k < n ==> StringAt(s, o, k, le).Some? && StringAt(s, t, k, le).Some?
  }

  /** The n messages of a catalogue whose tables sit at o and t, or None when a descriptor points outside the file. */
  function ReadMessages(s: string, le: bool, o: nat, t: nat, n: nat): (r: Option<seq<Message>>)
    ensures r.Some? <==> Resolves(s, le, o, t, n)
    ensures r.Some? ==> |r.value| == n
    ensures r.Some? ==> forall k :: 0 <= k < n ==> r.value[k] == Message(StringAt(s, o, k, le).value, StringAt(s, t, k, le).value)
  {
    if Resolves(s, le, o, t, n)
    then Some(seq(n, k requires 0 <= k < n && Resolves(s, le, o, t, n) => Message(StringAt(s, o, k, le).value, StringAt(s, t, k, le).value)))
    else None
  }

  /** The messages of a catalogue in either byte order, or None when it is not one. */
  function MoDecode(s: string): (r: Option<seq<Message>>)
  {
    if |s| < 28 then None
    else if WordAt(s, 0, true) == Magic then DecodeWith(s, true)
    else if WordAt(s, 0, false) == Magic then DecodeWith(s, false)
    else None
  }

  function DecodeWith(s: string, le: bool): (r: Option<seq<Message>>)
    requires |s| >= 28
  {
    if WordAt(s, 4, le) / 0x10000 > 1 then None
    else ReadMessages(s, le, WordAt(s, 12, le), WordAt(s, 16, le), WordAt(s, 8, le))
  }

  function Zip(xs: seq<string>, ys: seq<string>): (r: seq<Message>)
    requires |xs| == |ys|
    ensures |r| == |xs| && forall i :: 0 <= i < |xs| ==> r[i] == Message(xs[i], ys[i])
  {
    seq(|xs|, i requires 0 <= i < |xs| => Message(xs[i], ys[i]))
  }

  /**
   * Descriptor k of the table at `table` names x, stored at `off` and
   * followed by a NUL byte; stated on the bytes alone.
   */
  predicate EntryAt(s: string, table: nat, k: nat, le: bool, off: nat, x: string)
  {
    var d := table + 8 * k;
    && d + 8 <= |s|
    && s[d..d + 4] == Word(|x|, le)
    && s[d + 4..d + 8] == Word(off, le)
    && off + |x| < |s|
    && s[off..off + |x|] == x
    && s[off + |x|] == '\0'
  }

  /** Every descriptor of a table names its string, at the offsets offs. */
  predicate EntriesAt(s: string, xs: seq<string>, offs: seq<nat>, table: nat, le: bool)
  {
    |offs| == |xs| && forall k :: 0 <= k < |xs| ==> EntryAt(s, table, k, le, offs[k], xs[k])
  }

  /** In a file shorter than 2^32 bytes, a descriptor laid out as EntryAt says reads back its string. */
  lemma EntryAtRead(s: string, table: nat, k: nat, le: bool, off: nat, x: string)
    requires EntryAt(s, table, k, le, off, x) && |s| < WordRange
    ensures StringAt(s, table, k, le) == Some(x)
  {
    var d := table + 8 * k;
    WordPairAt(s, d, |x|, off, le);
    StringAtIs(s, table, k, le, off, x);
  }

  lemma WordPairAt(s: string, d: nat, n: nat, m: nat, le: bool)
    requires d + 8 <= |s| && s[d..d + 4] == Word(n, le) && s[d + 4..d + 8] == Word(m, le)
    requires n < WordRange && m < WordRange
    ensures WordAt(s, d, le) == n && WordAt(s, d + 4, le) == m
  {
    WordAtSmall(s, d, n, le);
    WordAtSmall(s, d + 4, m, le);
  }

  /** A word below 2^32 reads back as itself. */
  lemma WordAtSmall(s: string, q: nat, n: nat, le: bool)
    requires q + 4 <= |s| && s[q..q + 4] == Word(n, le) && n < WordRange
    ensures WordAt(s, q, le) == n
  {
    WordAtIs(s, q, n, le);
    SmallMod(n);
  }

  lemma SmallMod(n: nat)
    requires n < WordRange
    ensures n % WordRange == n
  {
  }

  lemma StringAtIs(s: string, table: nat, k: nat, le: bool, off: nat, x: string)
    requires table + 8 * k + 8 <= |s|
    requires WordAt(s, table + 8 * k, le) == |x| && WordAt(s, table + 8 * k + 4, le) == off
    requires off + |x| < |s| && s[off..off + |x|] == x && s[off + |x|] == '\0'
    ensures StringAt(s, table, k, le) == Some(x)
  {
  }

  // ---------------------------------------------------------------------
  // Writing a catalogue piece by piece

  lemma WordsSnoc(ns: seq<nat>, a: nat, le: bool)
    ensures Words(ns + [a], le) == Words(ns, le) + Word(a, le)
  {
    assert (ns + [a])[..|ns|] == ns;
  }

  /** Appending one descriptor (length, offset) to a table written so far. */
  lemma DescTableStep(xs: seq<string>, base: nat, le: bool, i: nat)
    requires i < |xs|
    ensures DescTable(xs[..i + 1], base, le)
         == DescTable(xs[..i], base, le) + Word(|xs[i]|, le) + Word(base + |StringTable(xs[..i])|, le)
  {
    var ys := xs[..i + 1];
    assert ys[..|ys| - 1] == xs[..i];
    var ns := DescWords(xs[..i], base);
    assert DescWords(ys, base) == ns + [|xs[i]|, base + |StringTable(xs[..i])|];
    assert ns + [|xs[i]|, base + |StringTable(xs[..i])|] == (ns + [|xs[i]|]) + [base + |StringTable(xs[..i])|];
    WordsSnoc(ns + [|xs[i]|], base + |StringTable(xs[..i])|, le);
    WordsSnoc(ns, |xs[i]|, le);
  }

  /** Appending one NUL-terminated string to a string table written so far. */
  lemma StringTableStep(xs: seq<string>, i: nat)
    requires i < |xs|
    ensures StringTable(xs[..i + 1]) == StringTable(xs[..i]) + xs[i] + "\0"
  {
    assert xs[..i + 1][..i] == xs[..i];
  }

  /** Appending one zero word to n zero words. */
  lemma ZerosStep(n: nat)
    ensures Zeros(n + 1) == Zeros(n) + Word(0, true)
  {
    assert Word(0, true) == "\0\0\0\0";
    assert Zeros(n + 1) == Zeros(n) + "\0\0\0\0";
  }

  /** A file holds the string table of xs at `base` and its descriptors at `table`. */
  predicate TablesAt(s: string, xs: seq<string>, table: nat, base: nat, le: bool)
  {
    Placed(s, table, DescTable(xs, base, le)) && Placed(s, base, StringTable(xs))
  }

  /** The bytes of s from position p on are x. */
  predicate Placed(s: string, p: nat, x: string)
  {
    p + |x| <= |s| && s[p..p + |x|] == x
  }

  /** A piece of a placed string is placed at the same distance from its start. */
  lemma PlacedWithin(s: string, p: nat, t: string, a: nat, x: string)
    requires Placed(s, p, t) && a + |x| <= |t| && t[a..a + |x|] == x
    ensures Placed(s, p + a, x)
  {
    SliceOfSlice(s, p, t, a, a + |x|);
  }




  /**
   * A file made of a header, the descriptors of the originals, the descriptors of the
   * translations, any gap (the hash table), the original strings and the translated strings,
   * with every offset pointing where the part is, decodes to the message pairs, in either byte order.
   */
  lemma {:induction false} DecodeParts(s: string, h: string, gap: string, o: seq<string>, t: seq<string>, ob: nat, tb: nat, ho: nat, le: bool)
    requires |o| == |t| && |s| < WordRange
    requires h == Header(|o|, 28, 28 + 8 * |o|, 0, ho, le)
    requires ob == 28 + 16 * |o| + |gap| && tb == ob + |StringTable(o)|
    requires s == h + DescTable(o, ob, le) + DescTable(t, tb, le) + gap + StringTable(o) + StringTable(t)
    ensures MoDecode(s) == Some(Zip(o, t))
  {
    SixPlaced(s, h, DescTable(o, ob, le), DescTable(t, tb, le), gap, StringTable(o), StringTable(t),
      28, 28 + 8 * |o|, 28 + 16 * |o|, ob, tb);
    DecodeFromTables(s, o, t, 28 + 8 * |o|, ob, tb, ho, le);
  }

  /** The first of six consecutive parts of s is its prefix. */
  lemma FirstPart(s: string, a: string, b: string, c: string, d: string, e: string, f: string)
    requires s == a + b + c + d + e + f
    ensures |a| <= |s| && s[..|a|] == a
  {
    assert s == a + (b + c + d + e + f);
  }

  /** Each of six consecutive parts of s is placed where the parts before it end, at p1 .. p5. */
  lemma SixPlaced(s: string, a: string, b: string, c: string, d: string, e: string, f: string,
                  p1: nat, p2: nat, p3: nat, p4: nat, p5: nat)
    requires s == a + b + c + d + e + f
    requires p1 == |a| && p2 == p1 + |b| && p3 == p2 + |c| && p4 == p3 + |d| && p5 == p4 + |e|
    ensures |s| == p5 + |f|
    ensures Placed(s, 0, a) && Placed(s, p1, b) && Placed(s, p2, c)
    ensures Placed(s, p3, d) && Placed(s, p4, e) && Placed(s, p5, f)
  {
    Regroup6(a, b, c, d, e, f);
    PieceOf(s, "", a, b + c + d + e + f);
    PieceOf(s, a, b, c + d + e + f);
    PieceOf(s, a + b, c, d + e + f);
    PieceOf(s, a + b + c, d, e + f);
    PieceOf(s, a + b + c + d, e, f);
    PieceOf(s, a + b + c + d + e, f, "");
  }

  /** A file with a header for |o| messages and both tables where it says decodes to those messages. */
  lemma {:induction false} DecodeFromTables(s: string, o: seq<string>, t: seq<string>, ot: nat, ob: nat, tb: nat, ho: nat, le: bool)
    requires |o| == |t| && |s| < WordRange && 28 <= |s|
    requires s[..28] == Header(|o|, 28, ot, 0, ho, le)
    requires TablesAt(s, o, 28, ob, le) && TablesAt(s, t, ot, tb, le)
    ensures MoDecode(s) == Some(Zip(o, t))
  {
    TablesEntries(s, o, 28, ob, le);
    TablesEntries(s, t, ot, tb, le);
    DecodeLayout(s, o, t, 28, ot, Offsets(o, ob), Offsets(t, tb), 0, ho, le);
  }


  /** The absolute offset of every string of a table placed at `base`. */
  function Offsets(xs: seq<string>, base: nat): (offs: seq<nat>)
    ensures |offs| == |xs|
    ensures forall k :: 0 <= k < |xs| ==> offs[k] == base + StrStart(xs, k)
  {
    seq(|xs|, k requires 0 <= k < |xs| => base + StrStart(xs, k))
  }

  /** Well-placed tables lay out every descriptor as EntryAt says. */
  lemma TablesEntries(s: string, xs: seq<string>, table: nat, base: nat, le: bool)
    requires TablesAt(s, xs, table, base, le)
    ensures EntriesAt(s, xs, Offsets(xs, base), table, le)
  {
    var offs := Offsets(xs, base);
    forall k | 0 <= k < |xs|
      ensures EntryAt(s, table, k, le, offs[k], xs[k])
    {
      TableEntry(s, xs, table, base, le, k);
    }
  }

  lemma TableEntry(s: string, xs: seq<string>, table: nat, base: nat, le: bool, k: nat)
    requires TablesAt(s, xs, table, base, le) && k < |xs|
    ensures EntryAt(s, table, k, le, base + StrStart(xs, k), xs[k])
  {
    StringInFile(s, xs, base, k);
    DescInFile(s, xs, table, base, le, k);
  }

  /** String k of a table placed at `base` is in the file, NUL-terminated. */
  lemma StringInFile(s: string, xs: seq<string>, base: nat, k: nat)
    requires base + |StringTable(xs)| <= |s| && s[base..base + |StringTable(xs)|] == StringTable(xs)
    requires k < |xs|
    ensures base + StrStart(xs, k) + |xs[k]| < |s|
    ensures s[base + StrStart(xs, k)..base + StrStart(xs, k) + |xs[k]|] == xs[k]
    ensures s[base + StrStart(xs, k) + |xs[k]|] == '\0'
  {
    StringTableEntry(xs, k);
    PieceInFile(s, base, StringTable(xs), StrStart(xs, k), xs[k]);
  }

  lemma PieceInFile(s: string, base: nat, st: string, p: nat, x: string)
    requires base + |st| <= |s| && s[base..base + |st|] == st
    requires p + |x| < |st| && st[p..p + |x|] == x && st[p + |x|] == '\0'
    ensures s[base + p..base + p + |x|] == x && s[base + p + |x|] == '\0'
  {
    SliceOfSlice(s, base, st, p, p + |x|);
    assert s[base + (p + |x|)] == st[p + |x|];
  }

  /** Descriptor k of the table at `table` holds the words for the length and the offset of string k. */
  lemma DescInFile(s: string, xs: seq<string>, table: nat, base: nat, le: bool, k: nat)
    requires table + |DescTable(xs, base, le)| <= |s|
    requires s[table..table + |DescTable(xs, base, le)|] == DescTable(xs, base, le)
    requires k < |xs|
    ensures table + 8 * k + 8 <= |s|
    ensures s[table + 8 * k..table + 8 * k + 4] == Word(|xs[k]|, le)
    ensures s[table + 8 * k + 4..table + 8 * k + 8] == Word(base + StrStart(xs, k), le)
  {
    DescWordsAt(xs, base, k);
    PairInWords(s, DescWords(xs, base), table, le, k);
  }

  lemma PairInWords(s: string, ns: seq<nat>, table: nat, le: bool, k: nat)
    requires table + |Words(ns, le)| <= |s| && s[table..table + |Words(ns, le)|] == Words(ns, le)
    requires 2 * k + 1 < |ns|
    ensures table + 8 * k + 8 <= |s|
    ensures s[table + 8 * k..table + 8 * k + 4] == Word(ns[2 * k], le)
    ensures s[table + 8 * k + 4..table + 8 * k + 8] == Word(ns[2 * k + 1], le)
  {
    WordInFile(s, table, ns, 2 * k, le);
    WordInFile(s, table, ns, 2 * k + 1, le);
    assert table + 4 * (2 * k) == table + 8 * k;
    assert table + 4 * (2 * k + 1) == table + 8 * k + 4;
  }

  /** Where a file holds the words ns from byte p on, it holds Word(ns[i]) at p + 4i. */
  lemma WordInFile(s: string, p: nat, ns: seq<nat>, i: nat, le: bool)
    requires p + |Words(ns, le)| <= |s| && s[p..p + |Words(ns, le)|] == Words(ns, le) && i < |ns|
    ensures p + 4 * i + 4 <= |s| && s[p + 4 * i..p + 4 * i + 4] == Word(ns[i], le)
  {
    WordsEntry(ns, i, le);
    SliceOfSlice(s, p, Words(ns, le), 4 * i, 4 * i + 4);
  }

  /** The header a writer emits: magic, revision 0, count, both table offsets, hash size and offset. */
  function HeaderWords(n: nat, o: nat, t: nat, hashSize: nat, hashOffset: nat): seq<nat>
  {
    [Magic, 0, n, o, t, hashSize, hashOffset]
  }

  function Header(n: nat, o: nat, t: nat, hashSize: nat, hashOffset: nat, le: bool): (h: string)
    ensures |h| == 28
  {
    Words(HeaderWords(n, o, t, hashSize, hashOffset), le)
  }

  /**
   * A file shorter than 2^32 bytes that starts with a header for n = |xs|
   * messages, and whose two tables lay out xs and ys where the header
   * says, decodes to exactly those messages.
   */
  lemma DecodeLayout(s: string, xs: seq<string>, ys: seq<string>, o: nat, t: nat, offx: seq<nat>, offy: seq<nat>, hs: nat, ho: nat, le: bool)
    requires |xs| == |ys| && |s| < WordRange && o < WordRange && t < WordRange
    requires 28 <= |s| && s[..28] == Header(|xs|, o, t, hs, ho, le)
    requires EntriesAt(s, xs, offx, o, le) && EntriesAt(s, ys, offy, t, le)
    ensures MoDecode(s) == Some(Zip(xs, ys))
  {
    if |xs| > 0 {
      assert EntryAt(s, o, |xs| - 1, le, offx[|xs| - 1], xs[|xs| - 1]);
    }
    HeaderRead(s, |xs|, o, t, hs, ho, le);
    EntriesRead(s, xs, offx, o, le);
    EntriesRead(s, ys, offy, t, le);
    ReadZip(s, le, o, t, xs, ys);
  }

  lemma EntriesRead(s: string, xs: seq<string>, offs: seq<nat>, table: nat, le: bool)
    requires EntriesAt(s, xs, offs, table, le) && |s| < WordRange
    ensures forall j :: 0 <= j < |xs| ==> StringAt(s, table, j, le) == Some(xs[j])
  {
    forall j | 0 <= j < |xs|
      ensures StringAt(s, table, j, le) == Some(xs[j])
    {
      EntryAtRead(s, table, j, le, offs[j], xs[j]);
    }
  }

  lemma ReadZip(s: string, le: bool, o: nat, t: nat, xs: seq<string>, ys: seq<string>)
    requires |xs| == |ys|
    requires forall j :: 0 <= j < |xs| ==> StringAt(s, o, j, le) == Some(xs[j])
    requires forall j :: 0 <= j < |ys| ==> StringAt(s, t, j, le) == Some(ys[j])
    ensures ReadMessages(s, le, o, t, |xs|) == Some(Zip(xs, ys))
  {
    var r := ReadMessages(s, le, o, t, |xs|);
    assert r.Some?;
    assert r.value == Zip(xs, ys);
  }

  lemma HeaderRead(s: string, n: nat, o: nat, t: nat, hs: nat, ho: nat, le: bool)
    requires 28 <= |s| && s[..28] == Header(n, o, t, hs, ho, le)
    requires n < WordRange && o < WordRange && t < WordRange
    ensures |s| >= 28
    ensures WordAt(s, 0, le) == Magic && WordAt(s, 4, le) == 0
    ensures WordAt(s, 8, le) == n && WordAt(s, 12, le) == o && WordAt(s, 16, le) == t
    ensures WordAt(s, 0, !le) != Magic
  {
    var ns := HeaderWords(n, o, t, hs, ho);
    var w := Header(n, o, t, hs, ho, le);
    assert Placed(s, 0, w) by { assert s[0..28] == s[..28]; }
    assert ns[0] % WordRange == Magic && ns[1] % WordRange == 0;
    SmallMod(n);
    SmallMod(o);
    SmallMod(t);
    WordsRead(s, 0, w, ns, 0, le);
    WordsRead(s, 0, w, ns, 1, le);
    WordsRead(s, 0, w, ns, 2, le);
    WordsRead(s, 0, w, ns, 3, le);
    WordsRead(s, 0, w, ns, 4, le);
    MagicFirst(s, w, ns, le);
  }

  /** The last two header words: the hash table's size and offset. */
  lemma HeaderHashRead(s: string, n: nat, o: nat, t: nat, hs: nat, ho: nat, le: bool)
    requires 28 <= |s| && s[..28] == Header(n, o, t, hs, ho, le)
    ensures WordAt(s, 20, le) == hs % WordRange && WordAt(s, 24, le) == ho % WordRange
  {
    var ns := HeaderWords(n, o, t, hs, ho);
    var w := Header(n, o, t, hs, ho, le);
    assert Placed(s, 0, w) by { assert s[0..28] == s[..28]; }
    WordsRead(s, 0, w, ns, 5, le);
    WordsRead(s, 0, w, ns, 6, le);
  }

  /** A header placed at 0 starts with the magic number in its own byte order, and not in the other. */
  lemma MagicFirst(s: string, w: string, ns: seq<nat>, le: bool)
    requires 0 < |ns| && ns[0] == Magic && w == Words(ns, le) && Placed(s, 0, w)
    ensures WordAt(s, 0, !le) != Magic
  {
    WordsEntry(ns, 0, le);
    SliceOfSlice(s, 0, w, 0, 4);
    MagicOneOrder(le);
  }

  /** The magic number read in the other byte order is not the magic number. */
  lemma MagicOneOrder(le: bool)
    ensures WordValue(Word(Magic, le), !le) != Magic
  {
    var w := Word(Magic, le);
    assert w[0] as nat + w[3] as nat == 0xde + 0x95;
  }


  // ---------------------------------------------------------------------
  // Locating the pieces of a file written as six consecutive parts.

  /** A part written between a and b sits at |a|. */
  lemma PieceOf(s: string, a: string, x: string, b: string)
    requires s == a + x + b
    ensures |a| + |x| <= |s| && s[|a|..|a| + |x|] == x
  {
  }

  /** Each of six consecutive parts, with everything before it and everything after it. */
  lemma Regroup6(a: string, b: string, c: string, d: string, e: string, f: string)
    ensures a + b + c + d + e + f == "" + a + (b + c + d + e + f)
    ensures a + b + c + d + e + f == a + b + (c + d + e + f)
    ensures a + b + c + d + e + f == (a + b) + c + (d + e + f)
    ensures a + b + c + d + e + f == (a + b + c) + d + (e + f)
    ensures a + b + c + d + e + f == (a + b + c + d) + e + f
    ensures a + b + c + d + e + f == (a + b + c + d + e) + f + ""
  {
  }


}
