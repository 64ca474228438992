/**
 * The settings filter for users who may not manage the plugin: the user's
 * capabilities are parameters (`current_user_can('manage_options')` and
 * the user's `allcaps` array), and four menu-related settings are removed
 * for everyone else.
 */
module UserRoles {
  import opened Wrappers
  import opened PhpValues

  const SensitiveSettings: seq<string> := ["menu_toggles", "menu_order", "menu_toggle", "hide_admin_bar_items"]

  /** A truthy `wpca_manage_all` in the user's capability array. */
  predicate ManagesAll(allcaps: Value)
  {
    allcaps.VArr? && IsSetKey(allcaps.entries, KStr("wpca_manage_all"))
      && Truthy(Lookup(allcaps.entries, KStr("wpca_manage_all")).value)
  }

  /** `if (isset($a[$k])) unset($a[$k]);` */
  function UnsetIfSet(a: seq<Entry>, k: string): seq<Entry>
  {
    if IsSetKey(a, KStr(k)) then Remove(a, KStr(k)) else a
  }

  /** The foreach over the listed keys, first to last. */
  function Strip(a: seq<Entry>, keys: seq<string>): seq<Entry>
    decreases |keys|
  {
    if |keys| == 0 then a else Strip(UnsetIfSet(a, keys[0]), keys[1..])
  }

  /** filter_settings_for_roles. */
  function Filtered(settings: Value, manageOptions: bool, allcaps: Value): Value
  {
    if !settings.VArr? then VArr([])
    else if manageOptions || ManagesAll(allcaps) then settings
    else VArr(Strip(settings.entries, SensitiveSettings))
  }

  /** filter_settings_for_roles, unsetting one key per iteration. */
  method FilterSettingsForRoles(settings: Value, manageOptions: bool, allcaps: Value) returns (r: Value)
    ensures r == Filtered(settings, manageOptions, allcaps)
  {
    if !settings.VArr? {
      return VArr([]);
    }
    if manageOptions || ManagesAll(allcaps) {
      return settings;
    }
    var a := settings.entries;
    var keys := SensitiveSettings;
    var i := 0;
    while i < |keys|
      invariant 0 <= i <= |keys|
      invariant Strip(a, keys[i..]) == Strip(settings.entries, keys)
    {
      assert keys[i..][1..] == keys[i + 1..];
      if IsSetKey(a, KStr(keys[i])) {
        a := Remove(a, KStr(keys[i]));
      }
      i := i + 1;
    }
    assert keys[i..] == [];
    return VArr(a);
  }

  /** After the foreach a listed key that held a value is gone; every other key reads as before. */
  lemma {:induction false} StripLookup(a: seq<Entry>, keys: seq<string>, k: Key)
    ensures Lookup(Strip(a, keys), k) ==
      if k.KStr? && k.s in keys && IsSetKey(a, k) then None else Lookup(a, k)
    decreases |keys|
  {
    if |keys| > 0 {
      var b := UnsetIfSet(a, keys[0]);
      StripLookup(b, keys[1..], k);
      if IsSetKey(a, KStr(keys[0])) {
        RemoveLookup(a, KStr(keys[0]), k);
      }
      assert k.KStr? && k.s in keys <==> k.KStr? && (k.s == keys[0] || k.s in keys[1..]);
    }
  }

  /** The foreach changes nothing when none of the keys holds a value. */
  lemma {:induction false} StripNoop(a: seq<Entry>, keys: seq<string>)
    requires forall s :: s in keys ==> !IsSetKey(a, KStr(s))
    ensures Strip(a, keys) == a
    decreases |keys|
  {
    if |keys| > 0 {
      assert keys[0] in keys;
      StripNoop(a, keys[1..]);
    }
  }

  /** A user without the capabilities never sees a value under a sensitive key; other keys are kept. */
  lemma FilteredHidesSensitive(settings: Value, allcaps: Value, k: Key)
    requires settings.VArr? && !ManagesAll(allcaps)
    ensures k.KStr? && k.s in SensitiveSettings ==> !IsSetKey(Filtered(settings, false, allcaps).entries, k)
    ensures !(k.KStr? && k.s in SensitiveSettings) ==>
      Lookup(Filtered(settings, false, allcaps).entries, k) == Lookup(settings.entries, k)
  {
    StripLookup(settings.entries, SensitiveSettings, k);
  }

  /** Administrators and holders of wpca_manage_all get the settings as they are; a non-array gives []. */
  lemma FilteredPassThrough(settings: Value, manageOptions: bool, allcaps: Value)
    ensures !settings.VArr? ==> Filtered(settings, manageOptions, allcaps) == VArr([])
    ensures settings.VArr? && (manageOptions || ManagesAll(allcaps)) ==> Filtered(settings, manageOptions, allcaps) == settings
  {
  }

  /** Filtering twice is filtering once. */
  lemma FilteredIdempotent(settings: Value, manageOptions: bool, allcaps: Value)
    ensures Filtered(Filtered(settings, manageOptions, allcaps), manageOptions, allcaps) == Filtered(settings, manageOptions, allcaps)
  {
    if settings.VArr? && !manageOptions && !ManagesAll(allcaps) {
      var once := Strip(settings.entries, SensitiveSettings);
      forall s | s in SensitiveSettings ensures !IsSetKey(once, KStr(s)) {
        StripLookup(settings.entries, SensitiveSettings, KStr(s));
      }
      StripNoop(once, SensitiveSettings);
    }
  }
}
