/**
 * The plugin's class autoloader: the two name conversions between a file
 * under `includes/` and a class name, the class map built from the
 * directory listing, and the lookup `autoload` performs. The directory
 * iteration and `file_exists` are parameters; `require_once` is left to
 * the caller, which receives the path that would be required.
 */
module Autoload {
  import opened Wrappers
  import opened PhpStrings

  predicate IsUpper(c: char) { 'A' <= c <= 'Z' }

  predicate IsLowerLetter(c: char) { 'a' <= c <= 'z' }

  /** `s` with every `c` turned into `d`, position by position. */
  function SwapChar(s: string, c: char, d: char): (r: string)
    ensures |r| == |s|
    ensures forall i :: 0 <= i < |s| ==> r[i] == (if s[i] == c then d else s[i])
  {
    seq(|s|, i requires 0 <= i < |s| => if s[i] == c then d else s[i])
  }

  /** Replacing one character by one character is the position-wise swap. */
  lemma {:induction false} ReplaceCharIsSwap(s: string, c: char, d: char)
    ensures ReplaceAll(s, [c], [d]) == SwapChar(s, c, d)
    decreases |s|
  {
    if |s| > 0 {
      ReplaceCharIsSwap(s[1..], c, d);
      assert SwapChar(s, c, d) == [if s[0] == c then d else s[0]] + SwapChar(s[1..], c, d);
    }
  }

  // ---------------------------------------------------------------------
  // file_path_to_class_name

  /** `str_replace('.php', '', $file_path)`. */
  function StripPhp(p: string): string
  {
    ReplaceAll(p, ".php", "")
  }

  /** A file name without any other dot loses exactly its `.php` suffix. */
  lemma StripPhpSuffix(name: string)
    requires '.' !in name
    ensures StripPhp(name + ".php") == name
  {
    var pat := ".php";
    forall i: nat | i < |name| ensures !OccursAt(name + pat, pat, i) {
      assert (name + pat)[i] == name[i] != '.';
      if i + |pat| <= |name + pat| {
        assert (name + pat)[i..i + |pat|][0] == (name + pat)[i];
      }
    }
    ReplaceOnlyAtEnd(name, pat, "");
  }

  /** One pass of str_replace can leave a ".php" behind: the removal joins the text around it into a new one. */
  lemma StripPhpCanReform()
    ensures StripPhp(".p.phphp") == ".php"
  {
    var s := ".p.phphp";
    assert s[..4][2] == '.' != ".php"[2];
    assert s[1..][..4][0] == 'p' != ".php"[0];
    assert s[2..][..4] == ".php";
    assert s[6..] == "hp";
  }

  /** The `class-wpca-*` branch: prefix to `WPCA_`, dashes to words, words capitalised and run together. */
  function ClassWords(name: string): string
  {
    var c1 := ReplaceAll(name, "class-wpca-", "WPCA_");
    var c2 := ReplaceAll(c1, "-", "_");
    var c3 := UcWords(ReplaceAll(c2, "_", " "));
    ReplaceAll(c3, " ", "")
  }

  /** The other branch: `/` to `\`, first character upper-cased. */
  function Namespaced(name: string): string
  {
    UcFirst(ReplaceAll(name, "/", "\\"))
  }

  /** file_path_to_class_name. */
  function FilePathToClassName(p: string): string
  {
    var name := StripPhp(p);
    if IsPrefix("class-wpca-", name) then ClassWords(name) else Namespaced(name)
  }

  /** `ucwords` never produces an underscore that was not there. */
  lemma UcWordsKeepsUnderscoreAbsent(s: string)
    requires '_' !in s
    ensures '_' !in UcWords(s)
  {
    var r := UcWords(s);
    forall i | 0 <= i < |r| ensures r[i] != '_' {
      assert s[i] != '_';
    }
  }

  /** A `class-wpca-*` file's class name has no underscore and no space. */
  lemma ClassWordsPlain(name: string)
    ensures '_' !in ClassWords(name) && ' ' !in ClassWords(name)
  {
    var c1 := ReplaceAll(name, "class-wpca-", "WPCA_");
    var c2 := ReplaceAll(c1, "-", "_");
    ReplaceCharRemoves(c1, '-', "_");
    assert "-" == ['-'] && "_" == ['_'] && " " == [' '];
    var c2s := ReplaceAll(c2, "_", " ");
    ReplaceCharRemoves(c2, '_', " ");
    UcWordsKeepsUnderscoreAbsent(c2s);
    var c3 := UcWords(c2s);
    ReplaceKeepsAbsent(c3, " ", "", '_');
    ReplaceCharRemoves(c3, ' ', "");
  }

  /**
   * For a `class-wpca-*` path the class name holds no `_` and no space, so it
   * never starts with "WPCA_"; for any other path `/` becomes `\` and the
   * first character is upper-cased.
   */
  lemma FilePathToClassNameMeans(p: string)
    ensures var name := StripPhp(p); var r := FilePathToClassName(p);
      (IsPrefix("class-wpca-", name) ==> '_' !in r && ' ' !in r && !IsPrefix("WPCA_", r))
      && (!IsPrefix("class-wpca-", name) ==>
        |r| == |name|
        && (forall i :: 0 < i < |r| ==> r[i] == (if name[i] == '/' then '\\' else name[i]))
        && (|r| > 0 ==> r[0] == UpperChar(if name[0] == '/' then '\\' else name[0])))
  {
    var name := StripPhp(p);
    var r := FilePathToClassName(p);
    if IsPrefix("class-wpca-", name) {
      ClassWordsPlain(name);
      if |r| >= 5 {
        assert r[..5][4] == r[4] != '_';
      }
    } else {
      ReplaceCharIsSwap(name, '/', '\\');
      assert "/" == ['/'] && "\\" == ['\\'];
    }
  }

  // ---------------------------------------------------------------------
  // class_name_to_file_path

  /** `preg_replace('/(?<!^)[A-Z]/', '-$0', ...)` on the characters after the first. */
  function DashRest(t: string): (r: string)
    decreases |t|
  {
    if |t| == 0 then ""
    else DashRest(t[..|t| - 1]) + (if IsUpper(t[|t| - 1]) then ['-', t[|t| - 1]] else [t[|t| - 1]])
  }

  /** The whole `preg_replace`: the first character is never preceded by a dash. */
  function Dashed(s: string): string
  {
    if |s| == 0 then "" else [s[0]] + DashRest(s[1..])
  }

  /** The dash insertion works character by character. */
  lemma {:induction false} DashRestAppend(a: string, b: string)
    ensures DashRest(a + b) == DashRest(a) + DashRest(b)
    decreases |b|
  {
    if |b| == 0 {
      assert a + b == a;
    } else {
      assert (a + b)[..|a + b| - 1] == a + b[..|b| - 1];
      DashRestAppend(a, b[..|b| - 1]);
    }
  }

  /** A dash goes before a capital and nowhere else. */
  lemma DashRestChar(x: char)
    ensures DashRest([x]) == if IsUpper(x) then ['-', x] else [x]
  {
    assert [x][..0] == [];
  }

  /** Text without capitals is left alone. */
  lemma {:induction false} DashRestNoCapitals(t: string)
    requires forall i :: 0 <= i < |t| ==> !IsUpper(t[i])
    ensures DashRest(t) == t
    decreases |t|
  {
    if |t| > 0 {
      DashRestNoCapitals(t[..|t| - 1]);
    }
  }

  /** class_name_to_file_path. */
  function ClassNameToFilePath(c: string): (r: string)
    ensures IsSuffix(".php", r)
    ensures forall i :: 0 <= i < |r| ==> !IsUpper(r[i])
  {
    var f := ReplaceAll(c, "WPCA_", "class-wpca-");
    var r := Lower(Dashed(f)) + ".php";
    assert r[|r| - 4..] == ".php";
    r
  }

  /** A capital at the front of the rest gets its dash. */
  lemma DashRestCapitalFirst(tail: string)
    requires |tail| > 0 && IsUpper(tail[0])
    ensures DashRest(tail) == ['-', tail[0]] + DashRest(tail[1..])
  {
    assert tail == [tail[0]] + tail[1..];
    DashRestAppend([tail[0]], tail[1..]);
    DashRestChar(tail[0]);
  }

  /** The dash insertion leaves a prefix without capitals alone and puts a dash before a capital after it. */
  lemma DashedAfterPrefix(pre: string, tail: string)
    requires |pre| > 0 && |tail| > 0 && IsUpper(tail[0])
    requires forall i :: 0 <= i < |pre| ==> !IsUpper(pre[i])
    ensures Dashed(pre + tail) == pre + ['-', tail[0]] + DashRest(tail[1..])
  {
    var f := pre + tail;
    var p1 := pre[1..];
    assert f[1..] == p1 + tail;
    DashRestAppend(p1, tail);
    DashRestNoCapitals(p1);
    DashRestCapitalFirst(tail);
    var t := DashRest(tail[1..]);
    assert Dashed(f) == [pre[0]] + (p1 + (['-', tail[0]] + t));
    assert [pre[0]] + p1 == pre;
  }

  /** The replacement of a leading "WPCA_" keeps the next character in front of the rest. */
  lemma ReplaceLeadingPrefix(rest: string)
    requires |rest| > 0 && !IsPrefix("WPCA_", rest)
    ensures var tail := ReplaceAll(rest, "WPCA_", "class-wpca-");
      ReplaceAll(ClassName(rest), "WPCA_", "class-wpca-") == "class-wpca-" + tail
      && |tail| > 0 && tail[0] == rest[0]
  {
    var c := ClassName(rest);
    assert c[..5] == "WPCA_" && c[5..] == rest;
  }

  /**
   * The class `WPCA_` + R with R starting with a capital, as every class of
   * the plugin, is looked for in a file starting "class-wpca--": the
   * capital after the prefix gets a dash of its own.
   */
  lemma DoubleDash(rest: string)
    requires |rest| > 0 && IsUpper(rest[0]) && !IsPrefix("WPCA_", rest)
    ensures var r := ClassNameToFilePath(ClassName(rest));
      |r| > 12 && r[..11] == "class-wpca-" && r[11] == '-'
  {
    var pre := "class-wpca-";
    var tail := ReplaceAll(rest, "WPCA_", pre);
    ReplaceLeadingPrefix(rest);
    DashedAfterPrefix(pre, tail);
    var d := Dashed(pre + tail);
    var r := ClassNameToFilePath(ClassName(rest));
    assert r[..|d|] == Lower(d);
    assert d[..11] == pre && d[11] == '-';
    forall i | 0 <= i < 11 ensures r[i] == pre[i] {
      assert d[i] == pre[i];
    }
  }

  // ---------------------------------------------------------------------
  // The intended conversions: `class-wpca-menu-manager.php` <-> `WPCA_Menu_Manager`

  /** `ucwords` with `_` as the only delimiter. */
  function Capitalised(s: string): (r: string)
    ensures |r| == |s|
    ensures forall i :: 0 <= i < |s| ==> r[i] == (if i == 0 || s[i - 1] == '_' then UpperChar(s[i]) else s[i])
  {
    seq(|s|, i requires 0 <= i < |s| => if i == 0 || s[i - 1] == '_' then UpperChar(s[i]) else s[i])
  }

  /** The file name without its `.php` suffix. */
  function BaseOf(p: string): (name: string)
    ensures IsSuffix(".php", p) ==> p == name + ".php"
    ensures !IsSuffix(".php", p) ==> name == p
  {
    if IsSuffix(".php", p) then p[..|p| - 4] else p
  }

  /** The file name of a class file under `includes/`. */
  function ClassFile(rest: string): string
  {
    "class-wpca-" + rest + ".php"
  }

  /** The name of a plugin class. */
  function ClassName(w: string): string
  {
    "WPCA_" + w
  }

  /** The file-to-class conversion the doc comment describes, on the name without `.php`. */
  function ClassOfBase(name: string): string
  {
    if IsPrefix("class-wpca-", name) then ClassName(Capitalised(SwapChar(name[11..], '-', '_')))
    else Namespaced(name)
  }

  function FileToClassIntended(p: string): string
  {
    ClassOfBase(BaseOf(p))
  }

  /** The class-to-file conversion the doc comment describes: words to lower case, `_` to `-`. */
  function ClassToFileIntended(c: string): string
  {
    if IsPrefix("WPCA_", c) then ClassFile(Lower(SwapChar(c[5..], '_', '-')))
    else ClassNameToFilePath(c)
  }

  /** A file-name tail of lower-case words joined by dashes, as every class file of the plugin has. */
  predicate FileWords(rest: string)
  {
    forall i :: 0 <= i < |rest| ==> !IsUpper(rest[i]) && rest[i] != '_'
  }

  /** A class-name tail of capitalised words joined by underscores, as every class of the plugin has. */
  predicate ClassWordsForm(w: string)
  {
    forall i :: 0 <= i < |w| ==>
      w[i] != '-'
      && (i == 0 || w[i - 1] == '_' ==> !IsLowerLetter(w[i]))
      && (i > 0 && w[i - 1] != '_' ==> !IsUpper(w[i]))
  }

  lemma BaseOfClassFile(rest: string)
    ensures BaseOf(ClassFile(rest)) == "class-wpca-" + rest
  {
    var p := ClassFile(rest);
    assert p[|p| - 4..] == ".php";
  }

  lemma ClassOfClassBase(rest: string)
    ensures ClassOfBase("class-wpca-" + rest) == ClassName(Capitalised(SwapChar(rest, '-', '_')))
  {
    var name := "class-wpca-" + rest;
    assert name[..11] == "class-wpca-" && name[11..] == rest;
  }

  lemma ClassFileOfClassName(w: string)
    ensures ClassToFileIntended(ClassName(w)) == ClassFile(Lower(SwapChar(w, '_', '-')))
  {
    var c := ClassName(w);
    assert c[..5] == "WPCA_" && c[5..] == w;
  }

  lemma FileWordsBack(rest: string)
    requires FileWords(rest)
    ensures Lower(SwapChar(Capitalised(SwapChar(rest, '-', '_')), '_', '-')) == rest
  {
    var back := Lower(SwapChar(Capitalised(SwapChar(rest, '-', '_')), '_', '-'));
    forall i | 0 <= i < |rest| ensures back[i] == rest[i] {
    }
  }

  /** Upper-casing undoes lower-casing on anything but a lower-case letter. */
  lemma UpperOfLower(x: char)
    requires !IsLowerLetter(x)
    ensures UpperChar(LowerChar(x)) == x
  {
    if IsUpper(x) {
      assert IsLowerLetter(LowerChar(x));
    }
  }

  lemma ClassWordsBack(w: string)
    requires ClassWordsForm(w)
    ensures Capitalised(SwapChar(Lower(SwapChar(w, '_', '-')), '-', '_')) == w
  {
    var a := SwapChar(w, '_', '-');
    var b := Lower(a);
    var c := SwapChar(b, '-', '_');
    forall i | 0 <= i < |w| ensures c[i] == (if w[i] == '_' then '_' else LowerChar(w[i])) {
      assert a[i] == (if w[i] == '_' then '-' else w[i]);
      assert b[i] == LowerChar(a[i]);
    }
    var back := Capitalised(c);
    forall i | 0 <= i < |w| ensures back[i] == w[i] {
      var first := i == 0 || w[i - 1] == '_';
      if i > 0 {
        assert c[i - 1] == '_' <==> w[i - 1] == '_';
      }
      assert back[i] == if first then UpperChar(c[i]) else c[i];
      if w[i] != '_' {
        assert c[i] == LowerChar(w[i]);
        if first {
          assert !IsLowerLetter(w[i]);
          UpperOfLower(w[i]);
        } else {
          assert !IsUpper(w[i]);
        }
      }
    }
  }

  /** From a class file to its class and back gives the file. */
  lemma FileClassFile(rest: string)
    requires FileWords(rest)
    ensures FileToClassIntended(ClassFile(rest)) == ClassName(Capitalised(SwapChar(rest, '-', '_')))
    ensures ClassToFileIntended(FileToClassIntended(ClassFile(rest))) == ClassFile(rest)
  {
    BaseOfClassFile(rest);
    ClassOfClassBase(rest);
    ClassFileOfClassName(Capitalised(SwapChar(rest, '-', '_')));
    FileWordsBack(rest);
  }

  /** From a class to its file and back gives the class. */
  lemma ClassFileClass(w: string)
    requires ClassWordsForm(w)
    ensures ClassToFileIntended(ClassName(w)) == ClassFile(Lower(SwapChar(w, '_', '-')))
    ensures FileToClassIntended(ClassToFileIntended(ClassName(w))) == ClassName(w)
  {
    var rest := Lower(SwapChar(w, '_', '-'));
    ClassFileOfClassName(w);
    BaseOfClassFile(rest);
    ClassOfClassBase(rest);
    ClassWordsBack(w);
  }

  /**
   * As written, the class file of `WPCA_` + R, R a capitalised word, is
   * looked for under a name that differs from the file's: the twelfth
   * character is a dash, where the file has R's first letter.
   */
  lemma DynamicPathMisses(rest: string)
    requires FileWords(rest) && |rest| > 0 && IsLowerLetter(rest[0])
    ensures var c := FileToClassIntended(ClassFile(rest));
      IsPrefix("WPCA_", c) && ClassNameToFilePath(c) != ClassFile(rest)
  {
    FileClassFile(rest);
    var w := Capitalised(SwapChar(rest, '-', '_'));
    assert IsUpper(w[0]);
    assert !IsPrefix("WPCA_", w) by {
      if |w| >= 5 {
        assert !IsUpper(w[1]);
        assert w[..5][1] == w[1];
      }
    }
    DoubleDash(w);
    var c := ClassName(w);
    assert c[..5] == "WPCA_";
    assert ClassFile(rest)[11] == rest[0];
  }

  // ---------------------------------------------------------------------
  // The class map and autoload

  /** One file the recursive directory iterator yields. */
  datatype FileInfo = FileInfo(pathname: string, isFile: bool, extension: string)

  /** Which pair of conversions a loader uses: as written, or as documented. */
  datatype Naming = AsWritten | Intended

  function FileToClass(naming: Naming, rel: string): string
  {
    if naming.AsWritten? then FilePathToClassName(rel) else FileToClassIntended(rel)
  }

  function ClassToFile(naming: Naming, c: string): string
  {
    if naming.AsWritten? then ClassNameToFilePath(c) else ClassToFileIntended(c)
  }

  /** `$file->isFile() && $file->getExtension() === 'php'`. */
  predicate Listed(f: FileInfo) { f.isFile && f.extension == "php" }

  /** `str_replace($includes_dir . '/', '', $file_path)`. */
  function RelativePath(f: FileInfo, includesDir: string): string
  {
    ReplaceAll(f.pathname, includesDir + "/", "")
  }

  /** The key a listed file is stored under. */
  function KeyOf(f: FileInfo, includesDir: string, naming: Naming): string
  {
    FileToClass(naming, RelativePath(f, includesDir))
  }

  /** generate_class_map's map after the listed files, a later file replacing an earlier one with the same key. */
  function ClassMapOf(files: seq<FileInfo>, includesDir: string, naming: Naming): map<string, string>
    decreases |files|
  {
    if |files| == 0 then map[]
    else
      var m := ClassMapOf(files[..|files| - 1], includesDir, naming);
      var f := files[|files| - 1];
      if Listed(f) then m[KeyOf(f, includesDir, naming) := f.pathname] else m
  }

  /** File `f` is listed and stored under key `k`. */
  predicate ListedAs(f: FileInfo, includesDir: string, naming: Naming, k: string)
  {
    Listed(f) && KeyOf(f, includesDir, naming) == k
  }

  /** The keys are exactly the listed files' class names. */
  lemma {:induction false} ClassMapKeys(files: seq<FileInfo>, includesDir: string, naming: Naming, k: string)
    ensures k in ClassMapOf(files, includesDir, naming) <==>
      (exists i :: 0 <= i < |files| && ListedAs(files[i], includesDir, naming, k))
    decreases |files|
  {
    if |files| > 0 {
      var n := |files| - 1;
      var init := files[..n];
      ClassMapKeys(init, includesDir, naming, k);
      forall i | 0 <= i < n ensures init[i] == files[i] { }
    }
  }

  /** Each key maps to the last listed file with that class name. */
  lemma {:induction false} ClassMapValue(files: seq<FileInfo>, includesDir: string, naming: Naming, k: string)
    requires k in ClassMapOf(files, includesDir, naming)
    ensures exists i :: (0 <= i < |files| && ListedAs(files[i], includesDir, naming, k)
      && ClassMapOf(files, includesDir, naming)[k] == files[i].pathname
      && (forall j :: i < j < |files| ==> !ListedAs(files[j], includesDir, naming, k)))
    decreases |files|
  {
    var n := |files| - 1;
    var f := files[n];
    if ListedAs(f, includesDir, naming, k) {
      assert ClassMapOf(files, includesDir, naming)[k] == f.pathname;
    } else {
      var init := files[..n];
      assert k in ClassMapOf(init, includesDir, naming);
      ClassMapValue(init, includesDir, naming, k);
      var i :| 0 <= i < n && ListedAs(init[i], includesDir, naming, k)
        && ClassMapOf(init, includesDir, naming)[k] == init[i].pathname
        && (forall j :: i < j < n ==> !ListedAs(init[j], includesDir, naming, k));
      assert init[i] == files[i];
      forall j | i < j < |files| ensures !ListedAs(files[j], includesDir, naming, k) {
        if j < n {
          assert init[j] == files[j];
        }
      }
    }
  }

  /** What autoload does: the file it requires, if any. */
  datatype Loaded = Required(path: string) | NotLoaded

  /** autoload with the class map `m` and `file_exists` as a parameter. */
  function Autoloaded(m: map<string, string>, baseDir: string, naming: Naming, c: string, fileExists: string -> bool): (r: Loaded)
    ensures r.Required? ==> IsPrefix("WPCA_", c)
    ensures IsPrefix("WPCA_", c) && c in m ==> r == Required(m[c])
    ensures IsPrefix("WPCA_", c) && c !in m ==>
      var path := baseDir + "/includes/" + ClassToFile(naming, c);
      r == if fileExists(path) then Required(path) else NotLoaded
  {
    if !IsPrefix("WPCA_", c) then NotLoaded
    else if c in m then Required(m[c])
    else
      var path := baseDir + "/includes/" + ClassToFile(naming, c);
      if fileExists(path) then Required(path) else NotLoaded
  }

  class Autoloader {
    const baseDir: string
    const naming: Naming
    var classMap: map<string, string>

    /** The constructor builds the class map from the listing of `includes/`, empty when it does not exist. */
    constructor(baseDir: string, naming: Naming, includesExists: bool, files: seq<FileInfo>)
      ensures this.baseDir == baseDir && this.naming == naming
      ensures classMap == if includesExists then ClassMapOf(files, baseDir + "/includes", naming) else map[]
    {
      this.baseDir := baseDir;
      this.naming := naming;
      var m := GenerateClassMap(baseDir, naming, includesExists, files);
      classMap := m;
    }

    /** generate_class_map: one pass over the listing. */
    static method GenerateClassMap(baseDir: string, naming: Naming, includesExists: bool, files: seq<FileInfo>) returns (m: map<string, string>)
      ensures m == if includesExists then ClassMapOf(files, baseDir + "/includes", naming) else map[]
    {
      m := map[];
      if !includesExists {
        return;
      }
      var includesDir := baseDir + "/includes";
      var i := 0;
      while i < |files|
        invariant 0 <= i <= |files|
        invariant m == ClassMapOf(files[..i], includesDir, naming)
      {
        assert files[..i + 1][..i] == files[..i];
        var f := files[i];
        if Listed(f) {
          var rel := ReplaceAll(f.pathname, includesDir + "/", "");
          var className := FileToClass(naming, rel);
          m := m[className := f.pathname];
        }
        i := i + 1;
      }
      assert files[..i] == files;
    }

    /** autoload: the path required, or NotLoaded when autoload returns false. */
    method Autoload(c: string, fileExists: string -> bool) returns (r: Loaded)
      ensures r == Autoloaded(classMap, baseDir, naming, c, fileExists)
    {
      if IsPrefix("WPCA_", c) {
        if c in classMap {
          return Required(classMap[c]);
        }
        var classFile := ClassToFile(naming, c);
        var filePath := baseDir + "/includes/" + classFile;
        if fileExists(filePath) {
          return Required(filePath);
        }
      }
      return NotLoaded;
    }
  }

  /**
   * As written, no `class-wpca-*` file directly under `includes/` is ever
   * found through the class map: autoload looks up only names starting with
   * "WPCA_", and such a file's key has no underscore.
   */
  lemma ClassMapNeverServesClassFiles(files: seq<FileInfo>, includesDir: string, c: string)
    requires IsPrefix("WPCA_", c) && c in ClassMapOf(files, includesDir, AsWritten)
    ensures exists i :: (0 <= i < |files| && ListedAs(files[i], includesDir, AsWritten, c)
      && !IsPrefix("class-wpca-", StripPhp(RelativePath(files[i], includesDir))))
  {
    ClassMapKeys(files, includesDir, AsWritten, c);
    var i :| 0 <= i < |files| && ListedAs(files[i], includesDir, AsWritten, c);
    FilePathToClassNameMeans(RelativePath(files[i], includesDir));
  }

  /** With the documented conversions, a listed class file is found under its class name through the map. */
  lemma IntendedMapServesClassFiles(files: seq<FileInfo>, baseDir: string, i: nat, rest: string, fileExists: string -> bool)
    requires i < |files| && Listed(files[i]) && FileWords(rest)
    requires RelativePath(files[i], baseDir + "/includes") == ClassFile(rest)
    ensures var c := FileToClassIntended(ClassFile(rest));
      IsPrefix("WPCA_", c) && Autoloaded(ClassMapOf(files, baseDir + "/includes", Intended), baseDir, Intended, c, fileExists).Required?
  {
    var c := FileToClassIntended(ClassFile(rest));
    FileClassFile(rest);
    assert ClassName(Capitalised(SwapChar(rest, '-', '_')))[..5] == "WPCA_";
    ClassMapKeys(files, baseDir + "/includes", Intended, c);
    assert ListedAs(files[i], baseDir + "/includes", Intended, c);
  }
}
