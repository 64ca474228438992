/**
 * The settings object: the `wpca_settings` option loaded over ten
 * defaults, read and written one key at a time, reset, and the
 * validation callback WordPress runs before saving. Every update_option
 * call is recorded in `saves`; sanitize_text_field is a parameter.
 * The object loads with the version always brought up to date
 * (LoadSettings); LoadSettingsAsWritten keeps the source's isset test,
 * under which a stored null version survives.
 */
module WpcaSettings {
  import opened Wrappers
  import opened PhpValues

  /** WPCA_VERSION. */
  const Version: string := "1.7.13"

  const DefaultKeys: seq<string> := ["version", "menu_order", "submenu_order", "menu_toggles", "dashboard_widgets",
    "login_style", "custom_admin_bar", "disable_help_tabs", "cleanup_header", "minify_admin_assets"]

  /** The ten settings in the order both the defaults and the validated array use. */
  function Layout(version: Value, menuOrder: Value, submenuOrder: Value, menuToggles: Value, widgets: Value,
                  loginStyle: Value, adminBar: Value, helpTabs: Value, header: Value, minify: Value): (r: seq<Entry>)
    ensures |r| == 10
  {
    [ Entry(KStr("version"), version),
      Entry(KStr("menu_order"), menuOrder),
      Entry(KStr("submenu_order"), submenuOrder),
      Entry(KStr("menu_toggles"), menuToggles),
      Entry(KStr("dashboard_widgets"), widgets),
      Entry(KStr("login_style"), loginStyle),
      Entry(KStr("custom_admin_bar"), adminBar),
      Entry(KStr("disable_help_tabs"), helpTabs),
      Entry(KStr("cleanup_header"), header),
      Entry(KStr("minify_admin_assets"), minify) ]
  }

  /** get_default_settings. */
  function Defaults(): (d: seq<Entry>)
    ensures |d| == 10
  {
    Layout(VStr(Version), VArr([]), VArr([]), VArr([]), VArr([]), VStr("default"), VInt(0), VInt(0), VInt(0), VInt(0))
  }

  /** `$input[$name]` when it is set; a non-array input has nothing set. */
  function InputField(input: Value, name: string): Option<Value>
  {
    if input.VArr? && IsSetKey(input.entries, KStr(name)) then Lookup(input.entries, KStr(name)) else None
  }

  /** An array-valued field is copied when it is an array, otherwise it is []. */
  function ArrayField(input: Value, name: string): (r: Value)
    ensures r.VArr?
  {
    var f := InputField(input, name);
    if f.Some? && f.value.VArr? then f.value else VArr([])
  }

  /** A flag is `(int)` of the field when it is set, otherwise 0. */
  function FlagField(input: Value, name: string): Value
  {
    var f := InputField(input, name);
    if f.Some? then VInt(IntVal(f.value)) else VInt(0)
  }

  /** validate_settings. */
  function Validate(input: Value, sanitizeText: string -> string): (r: seq<Entry>)
    ensures |r| == 10
  {
    var style := InputField(input, "login_style");
    Layout(VStr(Version),
      ArrayField(input, "menu_order"),
      ArrayField(input, "submenu_order"),
      ArrayField(input, "menu_toggles"),
      ArrayField(input, "dashboard_widgets"),
      if style.Some? && style.value.VStr? then VStr(sanitizeText(style.value.s)) else VStr("default"),
      FlagField(input, "custom_admin_bar"),
      FlagField(input, "disable_help_tabs"),
      FlagField(input, "cleanup_header"),
      FlagField(input, "minify_admin_assets"))
  }

  /** The merged settings before the version check. */
  function Overlaid(defaults: seq<Entry>, stored: seq<Entry>): seq<Entry>
  {
    Merge(defaults, stored)
  }

  /** Whether load_settings falls back to the defaults. */
  predicate Missing(stored: Value) { IsEmpty(stored) || !stored.VArr? }

  /** The version check as written: only a version that is set and differs is replaced. */
  predicate VersionStale(m: seq<Entry>)
  {
    IsSetKey(m, KStr("version")) && Lookup(m, KStr("version")).value != VStr(Version)
  }

  /** load_settings as written. */
  function LoadedAsWritten(defaults: seq<Entry>, stored: Value): seq<Entry>
  {
    if Missing(stored) then defaults
    else
      var m := Overlaid(defaults, stored.entries);
      if VersionStale(m) then Put(m, KStr("version"), VStr(Version)) else m
  }

  /** load_settings as its comment intends: the version is always the current one. */
  function Loaded(defaults: seq<Entry>, stored: Value): seq<Entry>
  {
    if Missing(stored) then defaults else Put(Overlaid(defaults, stored.entries), KStr("version"), VStr(Version))
  }

  /** get_setting. */
  function Setting(settings: seq<Entry>, key: string, default: Value): (r: Value)
    ensures !HasKey(settings, KeyOf(key)) ==> r == default
  {
    if IsSetKey(settings, KeyOf(key)) then Lookup(settings, KeyOf(key)).value else default
  }

  /** Whether the merged settings already carry the current version. */
  predicate VersionCurrent(m: seq<Entry>)
  {
    Lookup(m, KStr("version")) == Some(VStr(Version))
  }

  /** load_settings as written over the given defaults: the loaded settings and the update_option calls it makes. */
  method LoadSettingsAsWritten(defaults: seq<Entry>, stored: Value) returns (settings: seq<Entry>, saves: seq<seq<Entry>>)
    ensures settings == LoadedAsWritten(defaults, stored)
    ensures Missing(stored) ==> saves == [defaults]
    ensures !Missing(stored) && VersionStale(Overlaid(defaults, stored.entries)) ==> saves == [settings]
    ensures !Missing(stored) && !VersionStale(Overlaid(defaults, stored.entries)) ==> saves == []
  {
    if Missing(stored) {
      settings := defaults;
      saves := [defaults];
    } else {
      var m := Merge(defaults, stored.entries);
      if IsSetKey(m, KStr("version")) && Lookup(m, KStr("version")).value != VStr(Version) {
        m := Put(m, KStr("version"), VStr(Version));
        settings := m;
        saves := [m];
      } else {
        settings := m;
        saves := [];
      }
    }
  }

  /**
   * load_settings with the version always brought up to date: the option is
   * saved once whenever its version is not the current one, a null version
   * included.
   */
  method LoadSettings(defaults: seq<Entry>, stored: Value) returns (settings: seq<Entry>, saves: seq<seq<Entry>>)
    ensures settings == Loaded(defaults, stored)
    ensures Missing(stored) ==> saves == [defaults]
    ensures !Missing(stored) && !VersionCurrent(Overlaid(defaults, stored.entries)) ==> saves == [settings]
    ensures !Missing(stored) && VersionCurrent(Overlaid(defaults, stored.entries)) ==> saves == []
  {
    if Missing(stored) {
      settings := defaults;
      saves := [defaults];
    } else {
      var m := Merge(defaults, stored.entries);
      if Lookup(m, KStr("version")) != Some(VStr(Version)) {
        m := Put(m, KStr("version"), VStr(Version));
        settings := m;
        saves := [m];
      } else {
        PutPresent(m, KStr("version"), VStr(Version));
        settings := m;
        saves := [];
      }
    }
  }

  class SettingsStore {
    var defaults: seq<Entry>
    var settings: seq<Entry>
    /** The values written to `wpca_settings`, oldest first. */
    var saves: seq<seq<Entry>>

    /** The constructor: the defaults, then load_settings (corrected version check) over the stored option. */
    constructor(stored: Value)
      ensures defaults == Defaults()
      ensures settings == Loaded(defaults, stored)
      ensures Missing(stored) ==> saves == [defaults]
      ensures !Missing(stored) && !VersionCurrent(Overlaid(defaults, stored.entries)) ==> saves == [settings]
      ensures !Missing(stored) && VersionCurrent(Overlaid(defaults, stored.entries)) ==> saves == []
    {
      var d := Defaults();
      var loaded, written := LoadSettings(d, stored);
      defaults, settings, saves := d, loaded, written;
    }

    method GetSetting(key: string, default: Value) returns (r: Value)
      ensures r == Setting(settings, key, default)
    {
      if IsSetKey(settings, KeyOf(key)) {
        r := Lookup(settings, KeyOf(key)).value;
      } else {
        r := default;
      }
    }

    method SetSetting(key: string, value: Value)
      modifies this
      ensures settings == Put(old(settings), KeyOf(key), value)
      ensures saves == old(saves) + [settings] && defaults == old(defaults)
    {
      settings := Put(settings, KeyOf(key), value);
      saves := saves + [settings];
    }

    method GetAllSettings() returns (all: seq<Entry>)
      ensures all == settings
    {
      all := settings;
    }

    method ResetSettings()
      modifies this
      ensures settings == defaults && defaults == old(defaults)
      ensures saves == old(saves) + [defaults]
    {
      settings := defaults;
      saves := saves + [settings];
    }
  }

  // ---------------------------------------------------------------------
  // Properties

  /** The keys of the layout, whatever its values. */
  lemma LayoutKeys(v0: Value, v1: Value, v2: Value, v3: Value, v4: Value, v5: Value, v6: Value, v7: Value, v8: Value, v9: Value)
    ensures forall i :: 0 <= i < 10 ==> Layout(v0, v1, v2, v3, v4, v5, v6, v7, v8, v9)[i].key == KStr(DefaultKeys[i])
    ensures UniqueKeys(Layout(v0, v1, v2, v3, v4, v5, v6, v7, v8, v9))
  {
  }

  /** The validated array has exactly the ten default keys, in the defaults' order, and the current version. */
  lemma ValidateKeys(input: Value, sanitizeText: string -> string)
    ensures forall i :: 0 <= i < 10 ==> Validate(input, sanitizeText)[i].key == Defaults()[i].key
    ensures UniqueKeys(Validate(input, sanitizeText))
    ensures Validate(input, sanitizeText)[0].val == VStr(Version)
  {
    var style := InputField(input, "login_style");
    LayoutKeys(VStr(Version), ArrayField(input, "menu_order"), ArrayField(input, "submenu_order"),
      ArrayField(input, "menu_toggles"), ArrayField(input, "dashboard_widgets"),
      if style.Some? && style.value.VStr? then VStr(sanitizeText(style.value.s)) else VStr("default"),
      FlagField(input, "custom_admin_bar"), FlagField(input, "disable_help_tabs"),
      FlagField(input, "cleanup_header"), FlagField(input, "minify_admin_assets"));
    DefaultsKeys();
  }

  /** The four list fields keep an array input and replace anything else by []. */
  lemma ValidateArrays(input: Value, name: string)
    ensures InputField(input, name).Some? && InputField(input, name).value.VArr? ==>
      ArrayField(input, name) == InputField(input, name).value
    ensures !(InputField(input, name).Some? && InputField(input, name).value.VArr?) ==> ArrayField(input, name) == VArr([])
  {
  }

  /** login_style is sanitised when it is a string and "default" otherwise. */
  lemma ValidateLoginStyle(input: Value, sanitizeText: string -> string)
    ensures var f := InputField(input, "login_style");
      Validate(input, sanitizeText)[5].val == if f.Some? && f.value.VStr? then VStr(sanitizeText(f.value.s)) else VStr("default")
  {
  }

  /** The four flags are `(int)` of the input when set, otherwise 0. */
  lemma ValidateFlags(input: Value, sanitizeText: string -> string)
    ensures Validate(input, sanitizeText)[6].val == FlagField(input, "custom_admin_bar")
    ensures Validate(input, sanitizeText)[7].val == FlagField(input, "disable_help_tabs")
    ensures Validate(input, sanitizeText)[8].val == FlagField(input, "cleanup_header")
    ensures Validate(input, sanitizeText)[9].val == FlagField(input, "minify_admin_assets")
  {
  }

  lemma FlagFieldValue(input: Value, name: string)
    ensures InputField(input, name).Some? ==> FlagField(input, name) == VInt(IntVal(InputField(input, name).value))
    ensures InputField(input, name).None? ==> FlagField(input, name) == VInt(0)
    ensures !input.VArr? ==> FlagField(input, name) == VInt(0)
  {
  }

  /** The defaults have the ten distinct keys, the first being version. */
  lemma DefaultsKeys()
    ensures UniqueKeys(Defaults())
    ensures forall i :: 0 <= i < 10 ==> Defaults()[i].key == KStr(DefaultKeys[i])
    ensures Lookup(Defaults(), KStr("version")) == Some(VStr(Version))
  {
    LayoutKeys(VStr(Version), VArr([]), VArr([]), VArr([]), VArr([]), VStr("default"), VInt(0), VInt(0), VInt(0), VInt(0));
    assert IndexOfKey(Defaults(), KStr("version")) == 0;
  }

  /**
   * Stored settings overlay the defaults: a key the stored array has keeps
   * the stored value, any other key keeps its default. The version is
   * treated separately (LoadedVersion).
   */
  lemma LoadedOverlay(defaults: seq<Entry>, stored: Value, s: string)
    requires UniqueKeys(defaults)
    requires stored.VArr? && !IsEmpty(stored) && UniqueKeys(stored.entries)
    requires s != "version"
    ensures Lookup(Loaded(defaults, stored), KStr(s)) ==
      if HasKey(stored.entries, KStr(s)) then Lookup(stored.entries, KStr(s)) else Lookup(defaults, KStr(s))
    ensures Lookup(LoadedAsWritten(defaults, stored), KStr(s)) == Lookup(Loaded(defaults, stored), KStr(s))
  {
    MergeLookup(defaults, stored.entries, s);
    var m := Overlaid(defaults, stored.entries);
    PutLookup(m, KStr("version"), VStr(Version), KStr(s));
  }

  /** With the correction the version is always the current one. */
  lemma LoadedVersion(defaults: seq<Entry>, stored: Value)
    requires Lookup(defaults, KStr("version")) == Some(VStr(Version))
    ensures Lookup(Loaded(defaults, stored), KStr("version")) == Some(VStr(Version))
  {
    if !Missing(stored) {
      PutLookup(Overlaid(defaults, stored.entries), KStr("version"), VStr(Version), KStr("version"));
    }
  }

  /** As written, a stored version of null survives the load, because isset treats it as unset. */
  lemma LoadedAsWrittenKeepsNull(defaults: seq<Entry>, stored: Value)
    requires UniqueKeys(defaults)
    requires stored.VArr? && !IsEmpty(stored) && UniqueKeys(stored.entries)
    requires Lookup(stored.entries, KStr("version")) == Some(VNull)
    ensures Lookup(LoadedAsWritten(defaults, stored), KStr("version")) == Some(VNull)
  {
    MergeLookup(defaults, stored.entries, "version");
    assert !VersionStale(Overlaid(defaults, stored.entries));
  }

  /** The smallest such input: the stored option `['version' => null]` over the real defaults. */
  lemma LoadedAsWrittenNullVersion()
    ensures Lookup(LoadedAsWritten(Defaults(), VArr([Entry(KStr("version"), VNull)])), KStr("version")) == Some(VNull)
  {
    var e := [Entry(KStr("version"), VNull)];
    assert IndexOfKey(e, KStr("version")) == 0;
    DefaultsKeys();
    LoadedAsWrittenKeepsNull(Defaults(), VArr(e));
  }

  /** Setting a key and reading it back gives the value, unless the value is null. */
  lemma SetThenGet(settings: seq<Entry>, key: string, v: Value, other: string, default: Value)
    ensures v != VNull ==> Setting(Put(settings, KeyOf(key), v), key, default) == v
    ensures v == VNull ==> Setting(Put(settings, KeyOf(key), v), key, default) == default
    ensures other != key ==> Setting(Put(settings, KeyOf(key), v), other, default) == Setting(settings, other, default)
  {
    PutLookup(settings, KeyOf(key), v, KeyOf(key));
    PutLookup(settings, KeyOf(key), v, KeyOf(other));
    if other != key {
      KeyOfRoundTrip(key);
      KeyOfRoundTrip(other);
    }
  }

  /** get_setting finds the entry at any position of an array with distinct keys; after a reset this reads the defaults. */
  lemma SettingAt(settings: seq<Entry>, i: int, name: string, default: Value)
    requires UniqueKeys(settings) && 0 <= i < |settings|
    requires settings[i].key == KeyOf(name) && settings[i].val != VNull
    ensures Setting(settings, name, default) == settings[i].val
  {
    assert IndexOfKey(settings, KeyOf(name)) == i;
  }
}
