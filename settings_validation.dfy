/**
 * The settings-page validator: it keeps four known sections of the
 * submitted array, turns each known flag into 1 when it is set and 0
 * otherwise, and copies the menu section's item list and order verbatim.
 */
module SettingsValidation {
  import opened Wrappers
  import opened PhpValues

  const SectionNames: seq<string> := ["general", "menu", "performance", "security"]

  /** The flags validate writes for each section, in the order it writes them. */
  function FlagKeys(section: string): seq<string>
  {
    if section == "general" then ["clean_admin_bar", "remove_wp_logo"]
    else if section == "menu" then ["remove_dashboard_widgets", "simplify_admin_menu"]
    else if section == "performance" then ["optimize_database", "clean_transients"]
    else if section == "security" then ["hide_wp_version", "disable_xmlrpc", "restrict_rest_api", "restrict_admin_access"]
    else []
  }

  /** The fields validate copies as they are, for the menu section only. */
  function CopiedKeys(section: string): seq<string>
  {
    if section == "menu" then ["menu_items", "menu_order"] else []
  }

  /** `isset($a[$name])` on a value that may not be an array. */
  predicate IsSetIn(v: Value, name: string)
  {
    v.VArr? && IsSetKey(v.entries, KStr(name))
  }

  /** `isset($input[$section][$key]) ? 1 : 0` for each listed key. */
  function Flags(keys: seq<string>, sec: Value): (r: seq<Entry>)
    ensures |r| == |keys|
    ensures forall i :: 0 <= i < |keys| ==> r[i] == Entry(KStr(keys[i]), VInt(if IsSetIn(sec, keys[i]) then 1 else 0))
  {
    seq(|keys|, i requires 0 <= i < |keys| => Entry(KStr(keys[i]), VInt(if IsSetIn(sec, keys[i]) then 1 else 0)))
  }

  /** The copied fields that are set, in order. */
  function Copies(keys: seq<string>, sec: Value): seq<Entry>
    decreases |keys|
  {
    if |keys| == 0 then []
    else
      var rest := Copies(keys[..|keys| - 1], sec);
      var k := keys[|keys| - 1];
      if IsSetIn(sec, k) then rest + [Entry(KStr(k), Lookup(sec.entries, KStr(k)).value)] else rest
  }

  /** One validated section. */
  function SectionOut(name: string, sec: Value): seq<Entry>
  {
    Flags(FlagKeys(name), sec) + Copies(CopiedKeys(name), sec)
  }

  /** The validated sections for the listed names that the input sets. */
  function Sections(input: Value, names: seq<string>): seq<Entry>
    decreases |names|
  {
    if |names| == 0 then []
    else
      var rest := Sections(input, names[..|names| - 1]);
      var n := names[|names| - 1];
      if IsSetIn(input, n) then rest + [Entry(KStr(n), VArr(SectionOut(n, Lookup(input.entries, KStr(n)).value)))]
      else rest
  }

  /** validate. */
  function Validate(input: Value): seq<Entry>
  {
    Sections(input, SectionNames)
  }

  /** A listed name appears in the output iff the input sets it; nothing else appears. */
  lemma {:induction false} SectionsLookup(input: Value, names: seq<string>, n: string)
    ensures Lookup(Sections(input, names), KStr(n)) ==
      if n in names && IsSetIn(input, n) then Some(VArr(SectionOut(n, Lookup(input.entries, KStr(n)).value))) else None
    decreases |names|
  {
    if |names| > 0 {
      var init := names[..|names| - 1];
      var last := names[|names| - 1];
      SectionsLookup(input, init, n);
      assert names == init + [last];
      if IsSetIn(input, last) {
        var e := Entry(KStr(last), VArr(SectionOut(last, Lookup(input.entries, KStr(last)).value)));
        if last == n {
          AppendSame(Sections(input, init), e, n);
        } else {
          AppendLookup(Sections(input, init), e, KStr(n));
        }
      }
    }
  }

  /** Appending an entry for a key that is not yet there makes it findable. */
  lemma AppendSame(a: seq<Entry>, e: Entry, n: string)
    requires e.key == KStr(n)
    ensures Lookup(a + [e], KStr(n)) == if HasKey(a, KStr(n)) then Lookup(a, KStr(n)) else Some(e.val)
  {
    var i := IndexOfKey(a, KStr(n));
    assert forall j :: 0 <= j < |a| ==> (a + [e])[j] == a[j];
    if i >= 0 {
      assert IndexOfKey(a + [e], KStr(n)) == i;
    } else {
      assert forall j :: 0 <= j < |a| ==> (a + [e])[j].key != KStr(n);
      assert (a + [e])[|a|] == e;
    }
  }

  /** The four sections are kept iff present; unknown sections are dropped. */
  lemma ValidateSections(input: Value, n: string)
    ensures HasKey(Validate(input), KStr(n)) <==> n in SectionNames && IsSetIn(input, n)
    ensures HasKey(Validate(input), KStr(n)) ==>
      Lookup(Validate(input), KStr(n)) == Some(VArr(SectionOut(n, Lookup(input.entries, KStr(n)).value)))
  {
    SectionsLookup(input, SectionNames, n);
  }

  /** Every flag is 0 or 1, and 1 exactly when the input section sets it. */
  lemma FlagsBinary(name: string, sec: Value, i: int)
    requires 0 <= i < |FlagKeys(name)|
    ensures SectionOut(name, sec)[i].key == KStr(FlagKeys(name)[i])
    ensures SectionOut(name, sec)[i].val == VInt(1) <==> IsSetIn(sec, FlagKeys(name)[i])
    ensures SectionOut(name, sec)[i].val == VInt(0) <==> !IsSetIn(sec, FlagKeys(name)[i])
  {
  }

  /** A copied field is there, with the input's value, iff the input section sets it. */
  lemma {:induction false} CopiesLookup(keys: seq<string>, sec: Value, k: string)
    ensures Lookup(Copies(keys, sec), KStr(k)) ==
      if k in keys && IsSetIn(sec, k) then Some(Lookup(sec.entries, KStr(k)).value) else None
    decreases |keys|
  {
    if |keys| > 0 {
      var init := keys[..|keys| - 1];
      var last := keys[|keys| - 1];
      CopiesLookup(init, sec, k);
      assert keys == init + [last];
      if IsSetIn(sec, last) {
        var e := Entry(KStr(last), Lookup(sec.entries, KStr(last)).value);
        if last == k {
          AppendSame(Copies(init, sec), e, k);
        } else {
          AppendLookup(Copies(init, sec), e, KStr(k));
        }
      }
    }
  }

  /** The keys of a validated section: its flags, then the copied fields that were set. */
  lemma {:induction false} CopiesKeys(keys: seq<string>, sec: Value, j: int) returns (i: int)
    requires 0 <= j < |Copies(keys, sec)|
    ensures 0 <= i < |keys| && IsSetIn(sec, keys[i])
    ensures Copies(keys, sec)[j] == Entry(KStr(keys[i]), Lookup(sec.entries, KStr(keys[i])).value)
    decreases |keys|
  {
    var init := keys[..|keys| - 1];
    var rest := Copies(init, sec);
    if j < |rest| {
      i := CopiesKeys(init, sec, j);
    } else {
      i := |keys| - 1;
    }
  }

  /** menu_items and menu_order are copied verbatim when set and omitted otherwise. */
  lemma MenuCopies(sec: Value, k: string)
    requires k == "menu_items" || k == "menu_order"
    ensures Lookup(Copies(CopiedKeys("menu"), sec), KStr(k)) ==
      if IsSetIn(sec, k) then Some(Lookup(sec.entries, KStr(k)).value) else None
  {
    CopiesLookup(CopiedKeys("menu"), sec, k);
  }
}
