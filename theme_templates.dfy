/**
 * Preset admin configurations. A registry keeps templates keyed by id;
 * applying or importing one writes each of its sections into the current
 * settings key by key and saves the result. The current settings
 * (wpca_get_settings) are a parameter, each update_option call is
 * recorded in `saves`; sanitize_text_field and the translation function
 * are parameters of the registry, and sanitize_key has its WordPress
 * definition.
 */
module ThemeTemplates {
  import opened Wrappers
  import opened PhpValues
  import opened PhpStrings
  import opened SanitizeKeys

  /** `$template[$name]`: a missing field reads as null. */
  function FieldOf(t: Value, name: string): (r: Value)
    ensures !t.VArr? ==> r == VNull
  {
    if t.VArr? && HasKey(t.entries, KStr(name)) then Lookup(t.entries, KStr(name)).value else VNull
  }

  // ---------------------------------------------------------------------
  // Writing a template's sections into the settings

  /** `isset($settings[$section]) ? ... : array()`: the array the template's keys are written into. */
  function SectionStart(settings: seq<Entry>, k: Key): (r: Option<seq<Entry>>)
    ensures r.Some? ==> r.value == BaseOf(settings, k)
  {
    if !IsSetKey(settings, k) then Some([])
    else
      var v := Lookup(settings, k).value;
      if v.VArr? then Some(v.entries) else if v == VBool(false) then Some([]) else None
  }

  /** The section array the writes start from: the stored array, or [] when unset, null or false. */
  function BaseOf(settings: seq<Entry>, k: Key): seq<Entry>
  {
    if IsSetKey(settings, k) && Lookup(settings, k).value.VArr? then Lookup(settings, k).value.entries else []
  }

  /**
   * One outer iteration: an unset section becomes []; each template key is
   * then written into it. A section that holds a scalar other than false
   * cannot take a keyed write (PHP raises an Error): None.
   */
  function MergeSection(settings: seq<Entry>, section: Entry): Option<seq<Entry>>
  {
    if !section.val.VArr? || |section.val.entries| == 0 then
      Some(if IsSetKey(settings, section.key) then settings else Put(settings, section.key, VArr([])))
    else
      var b := SectionStart(settings, section.key);
      if b.None? then None else Some(Put(settings, section.key, VArr(Replace(b.value, section.val.entries))))
  }

  /** The outer foreach over the template's sections, first to last. */
  function Merged(settings: seq<Entry>, sections: seq<Entry>): Option<seq<Entry>>
    decreases |sections|
  {
    if |sections| == 0 then Some(settings)
    else
      var s := MergeSection(settings, sections[0]);
      if s.None? then None else Merged(s.value, sections[1..])
  }

  /** The nested foreach loops of apply_template and import_template. */
  method MergeSettings(settings: seq<Entry>, sections: seq<Entry>) returns (r: Option<seq<Entry>>)
    ensures r == Merged(settings, sections)
  {
    var cur := settings;
    var i := 0;
    while i < |sections|
      invariant 0 <= i <= |sections|
      invariant Merged(cur, sections[i..]) == Merged(settings, sections)
    {
      assert sections[i..][1..] == sections[i + 1..];
      var next := MergeOne(cur, sections[i]);
      if next.None? {
        return None;
      }
      cur := next.value;
      i := i + 1;
    }
    assert sections[i..] == [];
    return Some(cur);
  }

  /** One section: prepare it, then write its keys with the inner loop. */
  method MergeOne(settings: seq<Entry>, e: Entry) returns (r: Option<seq<Entry>>)
    ensures r == MergeSection(settings, e)
  {
    if !e.val.VArr? || |e.val.entries| == 0 {
      if IsSetKey(settings, e.key) {
        return Some(settings);
      }
      return Some(Put(settings, e.key, VArr([])));
    }
    var base := SectionStart(settings, e.key);
    if base.None? {
      return None;
    }
    var written := WriteKeys(base.value, e.val.entries);
    return Some(Put(settings, e.key, VArr(written)));
  }

  /** The inner foreach: `$settings[$section][$key] = $value` for each template key. */
  method WriteKeys(base: seq<Entry>, values: seq<Entry>) returns (r: seq<Entry>)
    ensures r == Replace(base, values)
  {
    r := base;
    var j := 0;
    while j < |values|
      invariant 0 <= j <= |values|
      invariant Replace(r, values[j..]) == Replace(base, values)
    {
      assert values[j..][1..] == values[j + 1..];
      r := Put(r, values[j].key, values[j].val);
      j := j + 1;
    }
    assert values[j..] == [];
  }

  /** One outer iteration leaves every other key as it was. */
  lemma MergeSectionOther(settings: seq<Entry>, e: Entry, k: Key)
    requires MergeSection(settings, e).Some? && k != e.key
    ensures Lookup(MergeSection(settings, e).value, k) == Lookup(settings, k)
  {
    if !e.val.VArr? || |e.val.entries| == 0 {
      PutLookup(settings, e.key, VArr([]), k);
    } else {
      PutLookup(settings, e.key, VArr(Replace(SectionStart(settings, e.key).value, e.val.entries)), k);
    }
  }

  /** The section one outer iteration writes. */
  lemma MergeSectionWrites(settings: seq<Entry>, e: Entry)
    requires MergeSection(settings, e).Some? && e.val.VArr? && |e.val.entries| > 0
    ensures Lookup(MergeSection(settings, e).value, e.key) == Some(VArr(Replace(BaseOf(settings, e.key), e.val.entries)))
  {
    PutLookup(settings, e.key, VArr(Replace(SectionStart(settings, e.key).value, e.val.entries)), e.key);
  }

  /** A section the template does not name keeps its value. */
  lemma {:induction false} MergedKeepsOthers(settings: seq<Entry>, sections: seq<Entry>, k: Key)
    requires Merged(settings, sections).Some? && !HasKey(sections, k)
    ensures Lookup(Merged(settings, sections).value, k) == Lookup(settings, k)
    decreases |sections|
  {
    if |sections| > 0 {
      HasKeyCons(sections, k);
      MergeSectionOther(settings, sections[0], k);
      MergedKeepsOthers(MergeSection(settings, sections[0]).value, sections[1..], k);
    }
  }

  /**
   * A section the template names with a non-empty array ends up as the old
   * section overwritten key by key with the template's values.
   */
  lemma {:induction false} MergedSection(settings: seq<Entry>, sections: seq<Entry>, i: int)
    requires UniqueKeys(sections) && 0 <= i < |sections|
    requires Merged(settings, sections).Some?
    requires sections[i].val.VArr? && |sections[i].val.entries| > 0
    ensures Lookup(Merged(settings, sections).value, sections[i].key) ==
      Some(VArr(Replace(BaseOf(settings, sections[i].key), sections[i].val.entries)))
    decreases |sections|
  {
    var e := sections[0];
    var s := MergeSection(settings, e).value;
    UniqueTail(sections);
    if i == 0 {
      assert !HasKey(sections[1..], e.key) by {
        forall j | 0 <= j < |sections[1..]| ensures sections[1..][j].key != e.key {
          assert sections[1..][j] == sections[j + 1];
        }
      }
      MergedKeepsOthers(s, sections[1..], e.key);
      MergeSectionWrites(settings, e);
    } else {
      assert sections[1..][i - 1] == sections[i];
      MergedSection(s, sections[1..], i - 1);
      assert e.key != sections[i].key;
      MergeSectionOther(settings, e, sections[i].key);
    }
  }

  /** After the merge, every template key reads as the template's value; other keys of the section are kept. */
  lemma MergedKey(settings: seq<Entry>, sections: seq<Entry>, i: int, k: Key)
    requires UniqueKeys(sections) && 0 <= i < |sections|
    requires Merged(settings, sections).Some?
    requires sections[i].val.VArr? && |sections[i].val.entries| > 0 && UniqueKeys(sections[i].val.entries)
    ensures Lookup(Merged(settings, sections).value, sections[i].key).Some?
    ensures var sec := Lookup(Merged(settings, sections).value, sections[i].key).value;
      sec.VArr? &&
      Lookup(sec.entries, k) == if HasKey(sections[i].val.entries, k) then Lookup(sections[i].val.entries, k)
                                else Lookup(BaseOf(settings, sections[i].key), k)
  {
    MergedSection(settings, sections, i);
    ReplaceLookup(BaseOf(settings, sections[i].key), sections[i].val.entries, k);
    if HasKey(sections[i].val.entries, k) {
      LastValueUnique(sections[i].val.entries, k);
    }
  }

  // ---------------------------------------------------------------------
  // The registry

  /** The template's settings sections; anything that is not an array gives no iterations. */
  function SectionsOf(t: Value): seq<Entry>
  {
    var s := FieldOf(t, "settings");
    if s.VArr? then s.entries else []
  }

  /** The text search_templates matches against. */
  function SearchText(t: Value): string
  {
    Lower(StrVal(FieldOf(t, "name")) + " " + StrVal(FieldOf(t, "description")))
  }

  /** The templates, in registration order, whose text contains the lower-cased query. */
  function Search(templates: seq<Entry>, q: string): (r: seq<Entry>)
    ensures |r| <= |templates|
    decreases |templates|
  {
    if |templates| == 0 then []
    else
      var rest := Search(templates[..|templates| - 1], q);
      var t := templates[|templates| - 1];
      if Contains(SearchText(t.val), q) then Put(rest, t.key, t.val) else rest
  }

  /** A template is found iff it is registered and its text contains the query. */
  lemma {:induction false} SearchLookup(templates: seq<Entry>, q: string, k: Key)
    requires UniqueKeys(templates)
    ensures Lookup(Search(templates, q), k) ==
      if HasKey(templates, k) && Contains(SearchText(Lookup(templates, k).value), q) then Lookup(templates, k) else None
    decreases |templates|
  {
    if |templates| > 0 {
      var init := templates[..|templates| - 1];
      var t := templates[|templates| - 1];
      assert UniqueKeys(init) by {
        forall x, y | 0 <= x < y < |init| ensures init[x].key != init[y].key { assert init[x] == templates[x]; }
      }
      SearchLookup(init, q, k);
      assert templates == init + [t];
      var rest := Search(init, q);
      if Contains(SearchText(t.val), q) {
        PutLookup(rest, t.key, t.val, k);
      }
      if t.key == k {
        assert !HasKey(init, k) by {
          forall j | 0 <= j < |init| ensures init[j].key != k { assert init[j] == templates[j]; }
        }
        AppendFound(init, t);
      } else {
        AppendLookup(init, t, k);
      }
    }
  }

  /** Appending an entry whose key is new makes it what the key finds. */
  lemma AppendFound(a: seq<Entry>, e: Entry)
    requires !HasKey(a, e.key)
    ensures Lookup(a + [e], e.key) == Some(e.val)
  {
    assert forall j :: 0 <= j < |a| ==> (a + [e])[j].key != e.key;
    assert (a + [e])[|a|] == e;
  }

  datatype ApplyResult = ApplyNotFound | ApplyRaised | ApplySucceeded(template: Value)
  datatype ImportResult = ImportInvalid | ImportRaised | ImportSucceeded(templateName: Value)

  class TemplateRegistry {
    const templates: seq<Entry>
    const sanitizeText: string -> string
    const translate: string -> string
    /** The arrays written to the wpca_settings option, oldest first. */
    var saves: seq<seq<Entry>>

    /** Each template is an array, and no id is registered twice. */
    predicate Valid()
    {
      UniqueKeys(templates) && forall j :: 0 <= j < |templates| ==> templates[j].val.VArr?
    }

    /** register_default_templates, with the templates it registers given. */
    constructor(templates: seq<Entry>, sanitizeText: string -> string, translate: string -> string)
      requires UniqueKeys(templates) && forall j :: 0 <= j < |templates| ==> templates[j].val.VArr?
      ensures Valid() && saves == []
      ensures this.templates == templates
      ensures this.sanitizeText == sanitizeText && this.translate == translate
    {
      this.templates := templates;
      this.sanitizeText := sanitizeText;
      this.translate := translate;
      saves := [];
    }

    /** get_template: the template under the sanitised id, or null. */
    function GetTemplate(id: string): (t: Value)
      ensures t != VNull ==> HasKey(templates, KeyOf(SanitizeKey(id))) && Some(t) == Lookup(templates, KeyOf(SanitizeKey(id)))
      ensures !HasKey(templates, KeyOf(SanitizeKey(id))) ==> t == VNull
    {
      if IsSetKey(templates, KeyOf(SanitizeKey(id))) then Lookup(templates, KeyOf(SanitizeKey(id))).value else VNull
    }

    /** get_count. */
    function GetCount(): (n: nat)
      ensures n == |templates|
    {
      |templates|
    }

    /** apply_template: an unknown id writes nothing; otherwise the merged settings are saved. */
    method ApplyTemplate(id: string, current: seq<Entry>) returns (r: ApplyResult)
      modifies this
      ensures !Truthy(GetTemplate(id)) ==> r == ApplyNotFound && saves == old(saves)
      ensures Truthy(GetTemplate(id)) && Merged(current, SectionsOf(GetTemplate(id))).None? ==>
        r == ApplyRaised && saves == old(saves)
      ensures Truthy(GetTemplate(id)) && Merged(current, SectionsOf(GetTemplate(id))).Some? ==>
        r == ApplySucceeded(GetTemplate(id)) && saves == old(saves) + [Merged(current, SectionsOf(GetTemplate(id))).value]
    {
      var template := GetTemplate(id);
      if !Truthy(template) {
        return ApplyNotFound;
      }
      var merged := MergeSettings(current, SectionsOf(template));
      if merged.None? {
        return ApplyRaised;
      }
      saves := saves + [merged.value];
      return ApplySucceeded(template);
    }

    /** import_template: the data must carry an array under settings; the name defaults to "Custom Template". */
    method ImportTemplate(data: Value, current: seq<Entry>) returns (r: ImportResult)
      modifies this
      ensures !FieldOf(data, "settings").VArr? ==> r == ImportInvalid && saves == old(saves)
      ensures FieldOf(data, "settings").VArr? && Merged(current, SectionsOf(data)).None? ==>
        r == ImportRaised && saves == old(saves)
      ensures FieldOf(data, "settings").VArr? && Merged(current, SectionsOf(data)).Some? ==>
        saves == old(saves) + [Merged(current, SectionsOf(data)).value]
        && r == ImportSucceeded(if FieldOf(data, "name") != VNull then FieldOf(data, "name") else VStr(translate("Custom Template")))
    {
      var s := FieldOf(data, "settings");
      if !s.VArr? {
        return ImportInvalid;
      }
      var merged := MergeSettings(current, s.entries);
      if merged.None? {
        return ImportRaised;
      }
      saves := saves + [merged.value];
      var name := FieldOf(data, "name");
      if name == VNull {
        name := VStr(translate("Custom Template"));
      }
      return ImportSucceeded(name);
    }

    /** search_templates, accumulating the matches in a loop. */
    method SearchTemplates(query: string) returns (results: seq<Entry>)
      ensures results == Search(templates, Lower(sanitizeText(query)))
    {
      var q := Lower(sanitizeText(query));
      results := [];
      var i := 0;
      while i < |templates|
        invariant 0 <= i <= |templates|
        invariant results == Search(templates[..i], q)
      {
        var t := templates[i];
        assert templates[..i + 1][..i] == templates[..i];
        if Contains(SearchText(t.val), q) {
          results := Put(results, t.key, t.val);
        }
        i := i + 1;
      }
      assert templates[..i] == templates;
    }
  }

  /** validate_template: an array under settings and a non-empty name. */
  predicate ValidateTemplate(data: Value)
  {
    FieldOf(data, "settings").VArr? && Truthy(FieldOf(data, "name"))
  }

  /** validate_template accepts exactly the data import_template takes and that carries a name. */
  lemma ValidateTemplateMeans(data: Value)
    ensures ValidateTemplate(data) <==>
      data.VArr? && IsSetKey(data.entries, KStr("settings")) && Lookup(data.entries, KStr("settings")).value.VArr?
      && IsSetKey(data.entries, KStr("name")) && !IsEmpty(Lookup(data.entries, KStr("name")).value)
  {
  }

  /** The search result holds exactly the matching registered templates, under their ids. */
  lemma SearchTemplatesExact(r: TemplateRegistry, query: string, k: Key)
    requires r.Valid()
    ensures var q := Lower(r.sanitizeText(query));
      Lookup(Search(r.templates, q), k) ==
        if HasKey(r.templates, k) && Contains(SearchText(Lookup(r.templates, k).value), q) then Lookup(r.templates, k) else None
  {
    SearchLookup(r.templates, Lower(r.sanitizeText(query)), k);
  }
}
