/**
 * The extension API: a registry of third-party extensions keyed by their
 * sanitised id, each stored as the extension's own array plus
 * `registered_at` and `active` (and `activated_at` while active), and two
 * tables of callbacks, hooks and filters, keyed by name. sanitize_key has
 * its WordPress definition; callbacks are functions
 * from their argument list to their result; `current_time('mysql')` is a
 * parameter.
 */
module ExtensionApi {
  import opened Wrappers
  import opened PhpValues
  import opened SanitizeKeys

  const ApiVersion: string := "1.0.0"
  const RequiredKeys: seq<string> := ["id", "name", "version", "file"]

  // ---------------------------------------------------------------------
  // Extension records

  /** `$a[$name]`, null when missing. */
  function FieldOf(rec: seq<Entry>, name: string): (r: Value)
    ensures !HasKey(rec, KStr(name)) ==> r == VNull
  {
    var f := Lookup(rec, KStr(name));
    if f.Some? then f.value else VNull
  }

  /** The array a store entry holds. */
  function RecordOf(v: Value): seq<Entry>
  {
    if v.VArr? then v.entries else []
  }

  /** `isset($a[$name]) && !empty($a[$name])`. */
  predicate Filled(rec: seq<Entry>, name: string)
  {
    IsSetKey(rec, KStr(name)) && !IsEmpty(FieldOf(rec, name))
  }

  /** The required-keys loop passes: every listed field is set and not empty. */
  predicate HasRequired(rec: seq<Entry>, names: seq<string>)
  {
    forall i :: 0 <= i < |names| ==> Filled(rec, names[i])
  }

  predicate ActiveRecord(rec: seq<Entry>) { Truthy(FieldOf(rec, "active")) }

  /** The required-field check, in the source's loop form. */
  method CheckRequired(rec: seq<Entry>, names: seq<string>) returns (ok: bool)
    ensures ok <==> HasRequired(rec, names)
  {
    var i := 0;
    while i < |names|
      invariant 0 <= i <= |names|
      invariant forall j :: 0 <= j < i ==> Filled(rec, names[j])
    {
      if !IsSetKey(rec, KStr(names[i])) || IsEmpty(FieldOf(rec, names[i])) {
        return false;
      }
      i := i + 1;
    }
    return true;
  }

  // ---------------------------------------------------------------------
  // The registry as a function of its state

  /** The store key for an id passed to the API: `sanitize_key($extension_id)`. */
  function KeyFor(id: string): Key
  {
    KeyOf(SanitizeKey(id))
  }

  /** The store key register_extension computes: `sanitize_key($extension['id'])`. */
  function RecordKey(rec: seq<Entry>): Key
  {
    KeyOf(SanitizeKeyValue(FieldOf(rec, "id")))
  }

  /** The store after a successful register_extension. */
  function Registered(exts: seq<Entry>, id: Key, rec: seq<Entry>, now: string): seq<Entry>
  {
    Put(exts, id, VArr(Put(Put(rec, KStr("registered_at"), VStr(now)), KStr("active"), VBool(false))))
  }

  /** The store after register_extension, whether or not it succeeds. */
  function AfterRegister(exts: seq<Entry>, rec: seq<Entry>, now: string): seq<Entry>
  {
    if HasRequired(rec, RequiredKeys) && !IsSetKey(exts, RecordKey(rec)) then Registered(exts, RecordKey(rec), rec, now)
    else exts
  }

  /** The store after register_extension for each record in turn. */
  function RegisterAll(exts: seq<Entry>, list: seq<seq<Entry>>, now: string): seq<Entry>
    decreases |list|
  {
    if |list| == 0 then exts else RegisterAll(AfterRegister(exts, list[0], now), list[1..], now)
  }

  /** The record after activate_extension changed it. */
  function Activated(rec: seq<Entry>, now: string): seq<Entry>
  {
    Put(Put(rec, KStr("active"), VBool(true)), KStr("activated_at"), VStr(now))
  }

  /** The record after deactivate_extension changed it. */
  function Deactivated(rec: seq<Entry>): seq<Entry>
  {
    Remove(Put(rec, KStr("active"), VBool(false)), KStr("activated_at"))
  }

  /** is_extension_active for an already sanitised key. */
  predicate IsActive(exts: seq<Entry>, id: Key)
  {
    IsSetKey(exts, id) && Truthy(Lookup(exts, id).value) && ActiveRecord(RecordOf(Lookup(exts, id).value))
  }

  /** The inner loop of get_extensions: the entries whose `active` is `want`. */
  function WithActive(exts: seq<Entry>, want: bool): (r: seq<Entry>)
    ensures |r| <= |exts|
    decreases |exts|
  {
    if |exts| == 0 then []
    else
      var rest := WithActive(exts[..|exts| - 1], want);
      var e := exts[|exts| - 1];
      if ActiveRecord(RecordOf(e.val)) == want then rest + [e] else rest
  }

  /** get_extensions($status). */
  function View(exts: seq<Entry>, status: string): seq<Entry>
  {
    if status == "all" then exts
    else if status == "active" then WithActive(exts, true)
    else if status == "inactive" then WithActive(exts, false)
    else []
  }

  /** get_extension_info: the public fields, or [] for an unknown id. */
  function Info(exts: seq<Entry>, id: Key): (r: seq<Entry>)
    ensures !IsSetKey(exts, id) ==> r == []
    ensures IsSetKey(exts, id) && Truthy(Lookup(exts, id).value) ==>
      |r| == 7 && r[4] == Entry(KStr("author"),
        if IsSetKey(RecordOf(Lookup(exts, id).value), KStr("author"))
        then FieldOf(RecordOf(Lookup(exts, id).value), "author") else VStr(""))
  {
    if !IsSetKey(exts, id) || !Truthy(Lookup(exts, id).value) then []
    else
      var rec := RecordOf(Lookup(exts, id).value);
      [ Entry(KStr("id"), FieldOf(rec, "id")),
        Entry(KStr("name"), FieldOf(rec, "name")),
        Entry(KStr("version"), FieldOf(rec, "version")),
        Entry(KStr("active"), FieldOf(rec, "active")),
        Entry(KStr("author"), if IsSetKey(rec, KStr("author")) then FieldOf(rec, "author") else VStr("")),
        Entry(KStr("description"), if IsSetKey(rec, KStr("description")) then FieldOf(rec, "description") else VStr("")),
        Entry(KStr("file"), FieldOf(rec, "file")) ]
  }

  // ---------------------------------------------------------------------
  // Hooks and filters

  datatype Registration = Registration(callback: seq<Value> -> Value, priority: int, acceptedArgs: int)

  /** `array_slice($args, 0, $n)`: a negative length stops that many before the end. */
  function SliceArgs(args: seq<Value>, n: int): (r: seq<Value>)
    ensures IsPrefixOf(r, args)
    ensures n >= 0 ==> |r| == if n <= |args| then n else |args|
  {
    if n >= 0 then (if n <= |args| then args[..n] else args)
    else if |args| + n >= 0 then args[..|args| + n] else []
  }

  predicate IsPrefixOf(a: seq<Value>, b: seq<Value>) { |a| <= |b| && a == b[..|a|] }

  /** apply_filter's loop: each callback receives the previous result. */
  function FilterChain(regs: seq<Registration>, v: Value): Value
    decreases |regs|
  {
    if |regs| == 0 then v
    else regs[|regs| - 1].callback([FilterChain(regs[..|regs| - 1], v)])
  }

  /** execute_hook's loop: every callback receives the same arguments; the last non-null result wins. */
  function HookResult(regs: seq<Registration>, args: seq<Value>, arg: Value): Value
    decreases |regs|
  {
    if |regs| == 0 then arg
    else
      var prev := HookResult(regs[..|regs| - 1], args, arg);
      var last := regs[|regs| - 1];
      var r := last.callback(SliceArgs(args, last.acceptedArgs));
      if r != VNull then r else prev
  }

  /** The table after add_hook or add_filter: the new entry goes at the end of its name's list. */
  function Added(table: map<string, seq<Registration>>, name: string, reg: Registration): map<string, seq<Registration>>
  {
    table[name := (if name in table then table[name] else []) + [reg]]
  }

  datatype Export = Export(exportedAt: string, apiVersion: string, extensions: seq<Entry>, totalCount: int, activeCount: int)

  // ---------------------------------------------------------------------
  // The API object

  class ExtensionRegistry {
    var extensions: seq<Entry>
    var hooks: map<string, seq<Registration>>
    var filters: map<string, seq<Registration>>
    constructor()
      ensures extensions == [] && hooks == map[] && filters == map[]
    {
      extensions := [];
      hooks := map[];
      filters := map[];
    }

    method RegisterExtension(rec: seq<Entry>, now: string) returns (ok: bool)
      modifies this
      ensures hooks == old(hooks) && filters == old(filters)
      ensures !HasRequired(rec, RequiredKeys) ==> !ok && extensions == old(extensions)
      ensures HasRequired(rec, RequiredKeys) && IsSetKey(old(extensions), RecordKey(rec)) ==>
        !ok && extensions == old(extensions)
      ensures HasRequired(rec, RequiredKeys) && !IsSetKey(old(extensions), RecordKey(rec)) ==>
        ok && extensions == Registered(old(extensions), RecordKey(rec), rec, now)
      ensures extensions == AfterRegister(old(extensions), rec, now)
    {
      var filled := CheckRequired(rec, RequiredKeys);
      if !filled {
        return false;
      }
      var id := KeyOf(SanitizeKeyValue(FieldOf(rec, "id")));
      if IsSetKey(extensions, id) {
        return false;
      }
      var stored := Put(Put(rec, KStr("registered_at"), VStr(now)), KStr("active"), VBool(false));
      extensions := Put(extensions, id, VArr(stored));
      return true;
    }

    /** load_extensions: registers each extension the `wpca_register_extensions` filter returned. */
    method LoadExtensions(list: seq<seq<Entry>>, now: string)
      modifies this
      ensures hooks == old(hooks) && filters == old(filters)
      ensures extensions == RegisterAll(old(extensions), list, now)
    {
      var i := 0;
      while i < |list|
        invariant 0 <= i <= |list|
        invariant hooks == old(hooks) && filters == old(filters)
        invariant RegisterAll(extensions, list[i..], now) == RegisterAll(old(extensions), list, now)
      {
        assert list[i..][1..] == list[i + 1..];
        var _ := RegisterExtension(list[i], now);
        i := i + 1;
      }
    }

    method ActivateExtension(id: string, now: string) returns (ok: bool)
      modifies this
      ensures hooks == old(hooks) && filters == old(filters)
      ensures ok <==> IsSetKey(old(extensions), KeyFor(id))
      ensures !ok ==> extensions == old(extensions)
      ensures ok && ActiveRecord(RecordOf(Lookup(old(extensions), KeyFor(id)).value)) ==> extensions == old(extensions)
      ensures ok && !ActiveRecord(RecordOf(Lookup(old(extensions), KeyFor(id)).value)) ==>
        extensions == Put(old(extensions), KeyFor(id), VArr(Activated(RecordOf(Lookup(old(extensions), KeyFor(id)).value), now)))
    {
      var key := KeyFor(id);
      if !IsSetKey(extensions, key) {
        return false;
      }
      var rec := RecordOf(Lookup(extensions, key).value);
      if ActiveRecord(rec) {
        return true;
      }
      rec := Put(Put(rec, KStr("active"), VBool(true)), KStr("activated_at"), VStr(now));
      extensions := Put(extensions, key, VArr(rec));
      return true;
    }

    method DeactivateExtension(id: string) returns (ok: bool)
      modifies this
      ensures hooks == old(hooks) && filters == old(filters)
      ensures ok <==> IsSetKey(old(extensions), KeyFor(id))
      ensures !ok ==> extensions == old(extensions)
      ensures ok && !ActiveRecord(RecordOf(Lookup(old(extensions), KeyFor(id)).value)) ==> extensions == old(extensions)
      ensures ok && ActiveRecord(RecordOf(Lookup(old(extensions), KeyFor(id)).value)) ==>
        extensions == Put(old(extensions), KeyFor(id), VArr(Deactivated(RecordOf(Lookup(old(extensions), KeyFor(id)).value))))
    {
      var key := KeyFor(id);
      if !IsSetKey(extensions, key) {
        return false;
      }
      var rec := RecordOf(Lookup(extensions, key).value);
      if !ActiveRecord(rec) {
        return true;
      }
      rec := Remove(Put(rec, KStr("active"), VBool(false)), KStr("activated_at"));
      extensions := Put(extensions, key, VArr(rec));
      return true;
    }

    /** unregister_extension: deactivates an active extension (sanitising its key once more), then removes it. */
    method UnregisterExtension(id: string) returns (ok: bool)
      modifies this
      ensures hooks == old(hooks) && filters == old(filters)
      ensures ok <==> IsSetKey(old(extensions), KeyFor(id))
      ensures !ok ==> extensions == old(extensions)
      ensures ok ==> !HasKey(extensions, KeyFor(id)) && !IsActive(extensions, KeyFor(id))
      ensures ok ==> extensions == Remove(old(extensions), KeyFor(id))
    {
      var key := KeyFor(id);
      if !IsSetKey(extensions, key) {
        return false;
      }
      var rec := RecordOf(Lookup(extensions, key).value);
      if ActiveRecord(rec) {
        SanitizeKeyIdempotent(id);
        var _ := DeactivateExtension(SanitizeKey(id));
        RemovePut(old(extensions), key, VArr(Deactivated(rec)));
      }
      extensions := Remove(extensions, key);
      RemoveLookup(extensions, key, key);
      assert !HasKey(extensions, key) by {
        RemoveLookup(old(extensions), key, key);
      }
      return true;
    }

    method GetExtensions(status: string) returns (r: seq<Entry>)
      ensures r == View(extensions, status)
    {
      if status == "all" {
        return extensions;
      }
      r := [];
      var i := 0;
      while i < |extensions|
        invariant 0 <= i <= |extensions|
        invariant status == "active" ==> r == WithActive(extensions[..i], true)
        invariant status == "inactive" ==> r == WithActive(extensions[..i], false)
        invariant status != "active" && status != "inactive" ==> r == []
      {
        assert extensions[..i + 1][..i] == extensions[..i];
        var active := ActiveRecord(RecordOf(extensions[i].val));
        if status == "active" && active {
          r := r + [extensions[i]];
        } else if status == "inactive" && !active {
          r := r + [extensions[i]];
        }
        i := i + 1;
      }
      assert extensions[..i] == extensions;
    }

    method GetExtension(id: string) returns (r: Option<seq<Entry>>)
      ensures r.Some? <==> IsSetKey(extensions, KeyFor(id))
      ensures r.Some? ==> r.value == RecordOf(Lookup(extensions, KeyFor(id)).value)
    {
      var key := KeyFor(id);
      if IsSetKey(extensions, key) {
        return Some(RecordOf(Lookup(extensions, key).value));
      }
      return None;
    }

    method IsExtensionActive(id: string) returns (active: bool)
      ensures active == IsActive(extensions, KeyFor(id))
    {
      var key := KeyFor(id);
      active := IsSetKey(extensions, key) && Truthy(Lookup(extensions, key).value)
        && ActiveRecord(RecordOf(Lookup(extensions, key).value));
    }

    method GetExtensionCount(status: string) returns (n: int)
      ensures n == |View(extensions, status)|
    {
      var v := GetExtensions(status);
      n := |v|;
    }

    method ExportExtensions(now: string) returns (x: Export)
      ensures x.extensions == extensions && x.apiVersion == ApiVersion
      ensures x.totalCount == |extensions| && x.activeCount == |WithActive(extensions, true)|
      ensures x.activeCount <= x.totalCount
    {
      var all := GetExtensions("all");
      var total := GetExtensionCount("all");
      var active := GetExtensionCount("active");
      x := Export(now, ApiVersion, all, total, active);
    }

    /** add_hook; the `callable` parameter type already rules out non-callables. */
    method AddHook(name: string, callback: seq<Value> -> Value, priority: int, acceptedArgs: int) returns (ok: bool)
      modifies this
      ensures ok && hooks == Added(old(hooks), name, Registration(callback, priority, acceptedArgs))
      ensures extensions == old(extensions) && filters == old(filters)
    {
      var list := if name in hooks then hooks[name] else [];
      hooks := hooks[name := list + [Registration(callback, priority, acceptedArgs)]];
      return true;
    }

    method AddFilter(name: string, callback: seq<Value> -> Value, priority: int, acceptedArgs: int) returns (ok: bool)
      modifies this
      ensures ok && filters == Added(old(filters), name, Registration(callback, priority, acceptedArgs))
      ensures extensions == old(extensions) && hooks == old(hooks)
    {
      var list := if name in filters then filters[name] else [];
      filters := filters[name := list + [Registration(callback, priority, acceptedArgs)]];
      return true;
    }

    /** execute_hook; `passed` is what func_get_args gives after the hook name. */
    method ExecuteHook(name: string, passed: seq<Value>) returns (r: Value)
      ensures name !in hooks ==> r == (if |passed| > 0 then passed[0] else VStr(""))
      ensures name in hooks ==> r == HookResult(hooks[name], passed, if |passed| > 0 then passed[0] else VStr(""))
    {
      var arg := if |passed| > 0 then passed[0] else VStr("");
      if name !in hooks {
        return arg;
      }
      var regs := hooks[name];
      r := arg;
      var i := 0;
      while i < |regs|
        invariant 0 <= i <= |regs|
        invariant r == HookResult(regs[..i], passed, arg)
      {
        assert regs[..i + 1][..i] == regs[..i];
        var result := regs[i].callback(SliceArgs(passed, regs[i].acceptedArgs));
        if result != VNull {
          r := result;
        }
        i := i + 1;
      }
      assert regs[..i] == regs;
    }

    /** apply_filter: priorities are stored but the callbacks run in the order they were added. */
    method ApplyFilter(name: string, value: Value) returns (r: Value)
      ensures name !in filters ==> r == value
      ensures name in filters ==> r == FilterChain(filters[name], value)
    {
      if name !in filters {
        return value;
      }
      var regs := filters[name];
      r := value;
      var i := 0;
      while i < |regs|
        invariant 0 <= i <= |regs|
        invariant r == FilterChain(regs[..i], value)
      {
        assert regs[..i + 1][..i] == regs[..i];
        r := regs[i].callback([r]);
        i := i + 1;
      }
      assert regs[..i] == regs;
    }
  }

  // ---------------------------------------------------------------------
  // Menu items and settings sections

  /**
   * register_menu_item: the merged item the `wpca_admin_menu` action will
   * hand to add_submenu_page, or None when title, slug or callback is missing.
   */
  function MenuItemToAdd(item: seq<Entry>): (r: Option<seq<Entry>>)
    ensures r.Some? <==> HasRequired(item, ["title", "slug", "callback"])
  {
    if HasRequired(item, ["title", "slug", "callback"]) then
      Some(Merge([ Entry(KStr("parent"), VStr("wp-clean-admin")),
                   Entry(KStr("capability"), VStr("manage_options")),
                   Entry(KStr("icon"), VStr("dashicons-admin-plugins")),
                   Entry(KStr("position"), VNull) ], item))
    else None
  }

  /** register_settings_section: the merged section, or None when id, title or callback is missing. */
  function SectionToAdd(section: seq<Entry>): (r: Option<seq<Entry>>)
    ensures r.Some? <==> HasRequired(section, ["id", "title", "callback"])
  {
    if HasRequired(section, ["id", "title", "callback"]) then
      Some(Merge([Entry(KStr("page"), VStr("wpca_settings"))], section))
    else None
  }

  /** register_settings_field: the merged field, or None when id, title, callback or section is missing. */
  function FieldToAdd(field: seq<Entry>): (r: Option<seq<Entry>>)
    ensures r.Some? <==> HasRequired(field, ["id", "title", "callback", "section"])
  {
    if HasRequired(field, ["id", "title", "callback", "section"]) then
      Some(Merge([Entry(KStr("page"), VStr("wpca_settings")), Entry(KStr("args"), VArr([]))], field))
    else None
  }

  // ---------------------------------------------------------------------
  // Properties

  /** A registration never changes an extension that is already set. */
  lemma AfterRegisterKeeps(exts: seq<Entry>, rec: seq<Entry>, now: string, k: Key)
    requires IsSetKey(exts, k)
    ensures Lookup(AfterRegister(exts, rec, now), k) == Lookup(exts, k)
  {
    if HasRequired(rec, RequiredKeys) && !IsSetKey(exts, RecordKey(rec)) {
      PutLookup(exts, RecordKey(rec), VArr(Put(Put(rec, KStr("registered_at"), VStr(now)), KStr("active"), VBool(false))), k);
    }
  }

  /** After register_extension of a record with the required fields, its key is set. */
  lemma AfterRegisterSets(exts: seq<Entry>, rec: seq<Entry>, now: string)
    requires HasRequired(rec, RequiredKeys)
    ensures IsSetKey(AfterRegister(exts, rec, now), RecordKey(rec))
  {
    if !IsSetKey(exts, RecordKey(rec)) {
      PutLookup(exts, RecordKey(rec), VArr(Put(Put(rec, KStr("registered_at"), VStr(now)), KStr("active"), VBool(false))), RecordKey(rec));
    }
  }

  /** load_extensions leaves every extension that was already registered as it was. */
  lemma {:induction false} RegisterAllKeeps(exts: seq<Entry>, list: seq<seq<Entry>>, now: string, k: Key)
    requires IsSetKey(exts, k)
    ensures Lookup(RegisterAll(exts, list, now), k) == Lookup(exts, k)
    decreases |list|
  {
    if |list| > 0 {
      AfterRegisterKeeps(exts, list[0], now, k);
      RegisterAllKeeps(AfterRegister(exts, list[0], now), list[1..], now, k);
    }
  }

  /** After load_extensions, every returned record that has the required fields has its key registered. */
  lemma {:induction false} LoadRegistersEach(exts: seq<Entry>, list: seq<seq<Entry>>, now: string, i: int)
    requires 0 <= i < |list| && HasRequired(list[i], RequiredKeys)
    ensures IsSetKey(RegisterAll(exts, list, now), RecordKey(list[i]))
    decreases |list|
  {
    var next := AfterRegister(exts, list[0], now);
    if i == 0 {
      AfterRegisterSets(exts, list[0], now);
      RegisterAllKeeps(next, list[1..], now, RecordKey(list[0]));
    } else {
      assert list[1..][i - 1] == list[i];
      LoadRegistersEach(next, list[1..], now, i - 1);
      assert RegisterAll(exts, list, now) == RegisterAll(next, list[1..], now);
    }
  }

  /** The first record for a new id is the one stored: later records with the same id are ignored. */
  lemma FirstRecordStored(exts: seq<Entry>, list: seq<seq<Entry>>, now: string)
    requires |list| > 0 && HasRequired(list[0], RequiredKeys) && !IsSetKey(exts, RecordKey(list[0]))
    ensures Lookup(RegisterAll(exts, list, now), RecordKey(list[0])) ==
      Some(VArr(Put(Put(list[0], KStr("registered_at"), VStr(now)), KStr("active"), VBool(false))))
  {
    var stored := VArr(Put(Put(list[0], KStr("registered_at"), VStr(now)), KStr("active"), VBool(false)));
    PutLookup(exts, RecordKey(list[0]), stored, RecordKey(list[0]));
    RegisterAllKeeps(AfterRegister(exts, list[0], now), list[1..], now, RecordKey(list[0]));
  }

  /** A registered extension starts inactive, and nothing else in the store changes. */
  lemma RegisteredInactive(exts: seq<Entry>, id: Key, rec: seq<Entry>, now: string, k: Key)
    ensures !IsActive(Registered(exts, id, rec, now), id)
    ensures Lookup(Registered(exts, id, rec, now), id).Some?
    ensures k != id ==> Lookup(Registered(exts, id, rec, now), k) == Lookup(exts, k)
  {
    var stored := Put(Put(rec, KStr("registered_at"), VStr(now)), KStr("active"), VBool(false));
    PutLookup(exts, id, VArr(stored), k);
    PutLookup(exts, id, VArr(stored), id);
    PutLookup(Put(rec, KStr("registered_at"), VStr(now)), KStr("active"), VBool(false), KStr("active"));
  }

  /** Activation sets `active` and `activated_at`; deactivation clears `active` and drops `activated_at`. */
  lemma ActivationFields(rec: seq<Entry>, now: string)
    ensures ActiveRecord(Activated(rec, now))
    ensures FieldOf(Activated(rec, now), "activated_at") == VStr(now)
    ensures !ActiveRecord(Deactivated(rec))
    ensures !HasKey(Deactivated(rec), KStr("activated_at"))
  {
    var a := Put(rec, KStr("active"), VBool(true));
    PutLookup(rec, KStr("active"), VBool(true), KStr("active"));
    PutLookup(a, KStr("activated_at"), VStr(now), KStr("active"));
    PutLookup(a, KStr("activated_at"), VStr(now), KStr("activated_at"));
    var d := Put(rec, KStr("active"), VBool(false));
    PutLookup(rec, KStr("active"), VBool(false), KStr("active"));
    RemoveLookup(d, KStr("activated_at"), KStr("active"));
    RemoveLookup(d, KStr("activated_at"), KStr("activated_at"));
  }

  /**
   * After activation the stored entry is active, so a second activation
   * changes nothing; after deactivation it is inactive, so a second
   * deactivation changes nothing.
   */
  lemma ActivationStored(exts: seq<Entry>, key: Key, rec: seq<Entry>, now: string)
    ensures IsActive(Put(exts, key, VArr(Activated(rec, now))), key)
    ensures IsSetKey(Put(exts, key, VArr(Deactivated(rec))), key)
    ensures !IsActive(Put(exts, key, VArr(Deactivated(rec))), key)
  {
    ActivationFields(rec, now);
    PutLookup(exts, key, VArr(Activated(rec, now)), key);
    PutLookup(exts, key, VArr(Deactivated(rec)), key);
  }

  /** The active and inactive views split the whole registry. */
  lemma {:induction false} ViewsPartition(exts: seq<Entry>)
    ensures |View(exts, "active")| + |View(exts, "inactive")| == |View(exts, "all")|
    ensures multiset(View(exts, "active")) + multiset(View(exts, "inactive")) == multiset(View(exts, "all"))
    decreases |exts|
  {
    if |exts| > 0 {
      var init := exts[..|exts| - 1];
      ViewsPartition(init);
      assert init + [exts[|exts| - 1]] == exts;
    }
  }

  /** Any status other than all, active and inactive gives nothing. */
  lemma ViewOther(exts: seq<Entry>, status: string)
    requires status != "all" && status != "active" && status != "inactive"
    ensures View(exts, status) == []
  {
  }

  /** Every entry in a filtered view is an entry of the registry with that state. */
  lemma {:induction false} WithActiveSound(exts: seq<Entry>, want: bool, i: int)
    requires 0 <= i < |WithActive(exts, want)|
    ensures WithActive(exts, want)[i] in exts
    ensures ActiveRecord(RecordOf(WithActive(exts, want)[i].val)) == want
    decreases |exts|
  {
    var init := exts[..|exts| - 1];
    var rest := WithActive(init, want);
    if i < |rest| {
      WithActiveSound(init, want, i);
      assert rest[i] in init;
    }
  }

  /** A filter chain over two lists is the second applied to the first's result: left to right. */
  lemma {:induction false} FilterChainSplit(a: seq<Registration>, b: seq<Registration>, v: Value)
    ensures FilterChain(a + b, v) == FilterChain(b, FilterChain(a, v))
    decreases |b|
  {
    if |b| == 0 {
      assert a + b == a;
    } else {
      var b' := b[..|b| - 1];
      FilterChainSplit(a, b', v);
      assert (a + b)[..|a + b| - 1] == a + b';
    }
  }

  /** With one callback the filter is that callback. */
  lemma FilterChainOne(r: Registration, v: Value)
    ensures FilterChain([r], v) == r.callback([v])
  {
    assert [r][..0] == [];
  }

  /** Hooks whose callbacks all return null leave the argument as it was. */
  lemma {:induction false} HookAllNull(regs: seq<Registration>, args: seq<Value>, arg: Value)
    requires forall i :: 0 <= i < |regs| ==> regs[i].callback(SliceArgs(args, regs[i].acceptedArgs)) == VNull
    ensures HookResult(regs, args, arg) == arg
    decreases |regs|
  {
    if |regs| > 0 {
      var init := regs[..|regs| - 1];
      assert forall i :: 0 <= i < |init| ==> init[i] == regs[i];
      HookAllNull(init, args, arg);
    }
  }

  /** The newest filter runs last. */
  lemma FilterAddedRunsLast(table: map<string, seq<Registration>>, name: string, reg: Registration, v: Value)
    ensures FilterChain(Added(table, name, reg)[name], v) ==
      reg.callback([if name in table then FilterChain(table[name], v) else v])
  {
    var list := if name in table then table[name] else [];
    FilterChainSplit(list, [reg], v);
    FilterChainOne(reg, FilterChain(list, v));
  }
}
