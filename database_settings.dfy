/**
 * The database-settings page: validation of the nine cleanup and
 * optimisation flags and of the cleanup schedule, the scheduler call the
 * validation makes, and the saved settings read over their defaults.
 * Whether the WPCA_Database class is loaded is a parameter; its
 * scheduling methods are recorded as calls.
 */
module DatabaseSettings {
  import opened Wrappers
  import opened PhpValues

  const FlagNames: seq<string> := ["cleanup_revisions", "cleanup_auto_drafts", "cleanup_trashed_posts",
    "cleanup_spam_comments", "cleanup_trash_comments", "cleanup_orphans", "cleanup_expired_transients",
    "cleanup_oembed_cache", "optimize_tables"]

  /** The frequencies the schedule field accepts. */
  predicate IsFrequency(v: Value)
  {
    v == VStr("daily") || v == VStr("weekly") || v == VStr("monthly") || v == VStr("disabled")
  }

  /** `isset($input[$name])`; a non-array input has nothing set. */
  predicate IsSetIn(input: Value, name: string)
  {
    input.VArr? && IsSetKey(input.entries, KStr(name))
  }

  /** `$input[$name]` when it is set. */
  function Field(input: Value, name: string): Value
    requires IsSetIn(input, name)
  {
    Lookup(input.entries, KStr(name)).value
  }

  /** One flag: `(int)` of the field when it is set, otherwise 0. */
  function Flag(input: Value, name: string): (r: Value)
    ensures r.VInt?
    ensures !IsSetIn(input, name) ==> r == VInt(0)
    ensures IsSetIn(input, name) && Field(input, name).VInt? ==> r == Field(input, name)
  {
    if IsSetIn(input, name) then VInt(IntVal(Field(input, name))) else VInt(0)
  }

  /** The flag entries, one per name, in order. */
  function FlagEntries(names: seq<string>, input: Value): (r: seq<Entry>)
    ensures |r| == |names|
    ensures forall i :: 0 <= i < |names| ==> r[i] == Entry(KStr(names[i]), Flag(input, names[i]))
  {
    seq(|names|, i requires 0 <= i < |names| => Entry(KStr(names[i]), Flag(input, names[i])))
  }

  /** schedule_frequency as written: the field passes a loose `in_array` against the four words. */
  function FrequencyAsWritten(input: Value): Value
  {
    if IsSetIn(input, "schedule_frequency")
       && InArrayLoose(Field(input, "schedule_frequency"), [VStr("daily"), VStr("weekly"), VStr("monthly"), VStr("disabled")])
    then Field(input, "schedule_frequency")
    else VStr("disabled")
  }

  /** schedule_frequency as intended: only one of the four words is kept (a strict `in_array`). */
  function Frequency(input: Value): (r: Value)
    ensures IsFrequency(r)
    ensures IsSetIn(input, "schedule_frequency") && IsFrequency(Field(input, "schedule_frequency")) ==>
      r == Field(input, "schedule_frequency")
    ensures !(IsSetIn(input, "schedule_frequency") && IsFrequency(Field(input, "schedule_frequency"))) ==>
      r == VStr("disabled")
  {
    if IsSetIn(input, "schedule_frequency") && IsFrequency(Field(input, "schedule_frequency"))
    then Field(input, "schedule_frequency")
    else VStr("disabled")
  }

  /** The validated array: the nine flags, then the frequency. */
  function Validated(input: Value, frequency: Value): (r: seq<Entry>)
    ensures |r| == |FlagNames| + 1
    ensures r[|FlagNames|] == Entry(KStr("schedule_frequency"), frequency)
  {
    FlagEntries(FlagNames, input) + [Entry(KStr("schedule_frequency"), frequency)]
  }

  /** The two methods of WPCA_Database the validation may call. */
  datatype ScheduleCall = RemoveScheduledCleanup | SetScheduledCleanup(frequency: Value)

  /** update_scheduled_cleanup: nothing without the database class; "disabled" unschedules. */
  function UpdateScheduledCleanup(frequency: Value, databaseLoaded: bool): (calls: seq<ScheduleCall>)
    ensures !databaseLoaded ==> calls == []
    ensures databaseLoaded ==> |calls| == 1
    ensures calls == [RemoveScheduledCleanup] <==> databaseLoaded && frequency == VStr("disabled")
    ensures databaseLoaded && frequency != VStr("disabled") ==> calls == [SetScheduledCleanup(frequency)]
  {
    if !databaseLoaded then []
    else if frequency == VStr("disabled") then [RemoveScheduledCleanup]
    else [SetScheduledCleanup(frequency)]
  }

  /** validate_settings as written: the validated array and the scheduler calls. */
  function ValidateSettingsAsWritten(input: Value, databaseLoaded: bool): (r: (seq<Entry>, seq<ScheduleCall>))
  {
    var f := FrequencyAsWritten(input);
    (Validated(input, f), UpdateScheduledCleanup(f, databaseLoaded))
  }

  /** validate_settings with the strict frequency check. */
  function ValidateSettings(input: Value, databaseLoaded: bool): (r: (seq<Entry>, seq<ScheduleCall>))
    ensures Lookup(r.0, KStr("schedule_frequency")) == Some(Frequency(input))
    ensures forall c :: c in r.1 ==>
      (c == RemoveScheduledCleanup || (c.SetScheduledCleanup? && c.frequency in {VStr("daily"), VStr("weekly"), VStr("monthly")}))
    ensures databaseLoaded <==> |r.1| == 1
  {
    var f := Frequency(input);
    ValidatedFrequency(input, f);
    (Validated(input, f), UpdateScheduledCleanup(f, databaseLoaded))
  }

  /** The validated array has distinct keys: the nine flags and schedule_frequency. */
  lemma ValidatedUnique(input: Value, frequency: Value)
    ensures UniqueKeys(Validated(input, frequency))
    ensures forall j :: 0 <= j < |FlagNames| ==> Validated(input, frequency)[j].key == KStr(FlagNames[j])
  {
    var r := Validated(input, frequency);
    forall i, j | 0 <= i < j < |r| ensures r[i].key != r[j].key {
      var names := FlagNames + ["schedule_frequency"];
      assert r[i].key == KStr(names[i]) && r[j].key == KStr(names[j]);
      DistinctNames(names, i, j);
    }
  }

  /** The ten key names are pairwise different. */
  lemma DistinctNames(names: seq<string>, i: int, j: int)
    requires names == FlagNames + ["schedule_frequency"]
    requires 0 <= i < j < |names|
    ensures names[i] != names[j]
  {
    // Each name is told apart by its length or a character near its start.
    assert names[0] == "cleanup_revisions" && names[1] == "cleanup_auto_drafts" && names[2] == "cleanup_trashed_posts";
    assert names[3] == "cleanup_spam_comments" && names[4] == "cleanup_trash_comments" && names[5] == "cleanup_orphans";
    assert names[6] == "cleanup_expired_transients" && names[7] == "cleanup_oembed_cache";
    assert names[8] == "optimize_tables" && names[9] == "schedule_frequency";
  }

  /** The frequency is the validated array's last entry and found under its key. */
  lemma ValidatedFrequency(input: Value, frequency: Value)
    ensures Lookup(Validated(input, frequency), KStr("schedule_frequency")) == Some(frequency)
  {
    var r := Validated(input, frequency);
    ValidatedUnique(input, frequency);
    LookupAtUnique(r, |FlagNames|);
  }

  /** Each flag reads as `(int)` of the submitted field, or 0 when the field is not set. */
  lemma ValidatedFlag(input: Value, frequency: Value, i: int)
    requires 0 <= i < |FlagNames|
    ensures Lookup(Validated(input, frequency), KStr(FlagNames[i])) ==
      Some(if IsSetIn(input, FlagNames[i]) then VInt(IntVal(Field(input, FlagNames[i]))) else VInt(0))
  {
    ValidatedUnique(input, frequency);
    LookupAtUnique(Validated(input, frequency), i);
  }

  /** In an array with distinct keys, each entry is what its key looks up. */
  lemma LookupAtUnique(a: seq<Entry>, i: int)
    requires UniqueKeys(a) && 0 <= i < |a|
    ensures Lookup(a, a[i].key) == Some(a[i].val)
  {
    assert IndexOfKey(a, a[i].key) == i;
  }

  /** The intended check keeps exactly the four words, and the scheduler gets one of three. */
  lemma FrequencyKept(input: Value)
    ensures Frequency(input) != VStr("disabled") ==>
      IsSetIn(input, "schedule_frequency") && Frequency(input) == Field(input, "schedule_frequency")
    ensures forall b :: UpdateScheduledCleanup(Frequency(input), b) == [RemoveScheduledCleanup] <==>
      b && Frequency(input) == VStr("disabled")
  {
  }

  /** The loose check as written lets through the four words and also the boolean `true`. */
  lemma FrequencyAsWrittenAccepts(input: Value)
    requires IsSetIn(input, "schedule_frequency")
    ensures FrequencyAsWritten(input) == Field(input, "schedule_frequency") <==>
      IsFrequency(Field(input, "schedule_frequency")) || Field(input, "schedule_frequency") == VBool(true)
  {
    InArrayLooseWords(Field(input, "schedule_frequency"), "daily", "weekly", "monthly", "disabled");
  }

  /** A word that does not look like a number. */
  predicate Word(w: string)
  {
    |w| > 0 && !IsDigit(w[0]) && w[0] !in IntWhitespace && w[0] != '-' && w[0] != '+'
  }

  /** Loose `in_array` against four words: one of the words, or `true`. */
  lemma InArrayLooseWords(v: Value, a: string, b: string, c: string, d: string)
    requires Word(a) && Word(b) && Word(c) && Word(d)
    ensures InArrayLoose(v, [VStr(a), VStr(b), VStr(c), VStr(d)]) <==>
      v == VStr(a) || v == VStr(b) || v == VStr(c) || v == VStr(d) || v == VBool(true)
  {
    var words := [VStr(a), VStr(b), VStr(c), VStr(d)];
    LooseEqualsWord(v, a);
    LooseEqualsWord(v, b);
    LooseEqualsWord(v, c);
    LooseEqualsWord(v, d);
    if v == VStr(a) || v == VBool(true) {
      assert LooseEquals(v, words[0]);
    } else if v == VStr(b) {
      assert LooseEquals(v, words[1]);
    } else if v == VStr(c) {
      assert LooseEquals(v, words[2]);
    } else if v == VStr(d) {
      assert LooseEquals(v, words[3]);
    }
  }

  /** A submitted `true` is saved as the frequency and handed to the scheduler as one. */
  lemma FrequencyAsWrittenTrue(input: Value)
    requires input == VArr([Entry(KStr("schedule_frequency"), VBool(true))])
    ensures FrequencyAsWritten(input) == VBool(true) && !IsFrequency(FrequencyAsWritten(input))
    ensures ValidateSettingsAsWritten(input, true).1 == [SetScheduledCleanup(VBool(true))]
    ensures ValidateSettings(input, true).1 == [RemoveScheduledCleanup]
  {
    assert IndexOfKey(input.entries, KStr("schedule_frequency")) == 0;
    assert Field(input, "schedule_frequency") == VBool(true);
    var words := [VStr("daily"), VStr("weekly"), VStr("monthly"), VStr("disabled")];
    assert LooseEquals(VBool(true), words[0]);
  }

  // ---------------------------------------------------------------------
  // get_settings

  /** The defaults: every flag on, a weekly schedule. */
  function DefaultSettings(): (d: seq<Entry>)
    ensures |d| == |FlagNames| + 1
  {
    seq(|FlagNames|, i requires 0 <= i < |FlagNames| => Entry(KStr(FlagNames[i]), VInt(1)))
      + [Entry(KStr("schedule_frequency"), VStr("weekly"))]
  }

  /** The defaults are the validated shape of an input with every flag 1 and a weekly schedule. */
  lemma DefaultsLikeValidated(input: Value)
    requires forall i :: 0 <= i < |FlagNames| ==> IsSetIn(input, FlagNames[i]) && Field(input, FlagNames[i]) == VInt(1)
    ensures DefaultSettings() == Validated(input, VStr("weekly"))
  {
    var d := DefaultSettings();
    var v := Validated(input, VStr("weekly"));
    forall i | 0 <= i < |d| ensures d[i] == v[i] {
      if i < |FlagNames| {
        assert IsSetIn(input, FlagNames[i]) && Field(input, FlagNames[i]) == VInt(1);
      }
    }
  }

  /** get_settings: `array_merge($defaults, $stored)`, which is what `wp_parse_args` does for an array. */
  function GetSettings(stored: seq<Entry>): seq<Entry>
  {
    Merge(DefaultSettings(), stored)
  }

  /** A stored value wins; a key the option lacks keeps its default, and every default key is there. */
  lemma GetSettingsLookup(stored: seq<Entry>, s: string)
    requires UniqueKeys(stored)
    ensures HasKey(stored, KStr(s)) ==> Lookup(GetSettings(stored), KStr(s)) == Lookup(stored, KStr(s))
    ensures !HasKey(stored, KStr(s)) ==> Lookup(GetSettings(stored), KStr(s)) == Lookup(DefaultSettings(), KStr(s))
  {
    DefaultsUnique();
    MergeLookup(DefaultSettings(), stored, s);
  }

  /** Without a stored value each flag is 1 and the schedule is weekly. */
  lemma GetSettingsDefault(stored: seq<Entry>, i: int)
    requires UniqueKeys(stored) && 0 <= i <= |FlagNames|
    ensures var k := (FlagNames + ["schedule_frequency"])[i];
      !HasKey(stored, KStr(k)) ==> Lookup(GetSettings(stored), KStr(k)) == Some(if i < |FlagNames| then VInt(1) else VStr("weekly"))
  {
    var k := (FlagNames + ["schedule_frequency"])[i];
    GetSettingsLookup(stored, k);
    DefaultsUnique();
    assert DefaultSettings()[i].key == KStr(k);
    LookupAtUnique(DefaultSettings(), i);
  }

  lemma DefaultsUnique()
    ensures UniqueKeys(DefaultSettings())
  {
    var d := DefaultSettings();
    var names := FlagNames + ["schedule_frequency"];
    forall i, j | 0 <= i < j < |d| ensures d[i].key != d[j].key {
      assert d[i].key == KStr(names[i]) && d[j].key == KStr(names[j]);
      DistinctNames(names, i, j);
    }
  }
}
