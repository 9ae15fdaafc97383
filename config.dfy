/**
 * Runtime configuration: built-in defaults, deep-merged with the optional JSON config
 * files, then overridden by environment variables, and cached while the relevant
 * environment variables keep their values. Reading the files is outside the model:
 * their merged content is a parameter.
 */
module Config {
  import opened Wrappers
  import opened JsonValue
  import Js

  /* ---------- deepMerge ---------- */

  /** The own enumerable properties of an object or array, as Object.entries lists them. */
  function Entries(j: Json): (es: seq<Field>)
    ensures forall i :: 0 <= i < |es| ==> es[i].value < j
    ensures j.Obj? ==> es == j.fields
  {
    match j
    case Obj(fs) => fs
    case Arr(items) => seq(|items|, i requires 0 <= i < |items| => Field(Js.NatToString(i), items[i]))
    case _ => []
  }

  /** `base[k]`. */
  function Prop(base: Json, k: string): Option<Json>
  {
    Lookup(Entries(base), k)
  }

  /** Whether a patch value is merged into the base value at its key rather than replacing it. */
  predicate MergesInto(base: Json, k: string, v: Json)
  {
    v.Obj? && Truthy(base) && Prop(base, k).Some? && IsObjectType(Prop(base, k).value)
  }

  /**
   * deepMerge: a patch that is falsy or not an object leaves the base as it is; otherwise
   * the patch's entries are written in order over a copy of the base, a plain-object
   * value being merged into an object the base holds at the same key.
   */
  function DeepMerge(base: Json, patch: Json): (r: Json)
    ensures !Truthy(patch) || !IsObjectType(patch) ==> r == base
    ensures Truthy(patch) && IsObjectType(patch) ==> r.Obj?
    decreases patch, |Entries(patch)| + 1
  {
    if !Truthy(patch) || !IsObjectType(patch) then base
    else Obj(MergeEntries(Entries(base), base, patch, 0))
  }

  function MergeEntries(out: seq<Field>, base: Json, patch: Json, i: nat): seq<Field>
    requires i <= |Entries(patch)|
    decreases patch, |Entries(patch)| - i
  {
    if i == |Entries(patch)| then out
    else
      var e := Entries(patch)[i];
      var nv := if MergesInto(base, e.key, e.value) then DeepMerge(Prop(base, e.key).value, e.value) else e.value;
      MergeEntries(Assign(out, e.key, nv), base, patch, i + 1)
  }

  /** The value deepMerge leaves at a key the patch holds. */
  function MergedValue(base: Json, k: string, v: Json): Json
    decreases v, 0
  {
    if MergesInto(base, k, v) then DeepMerge(Prop(base, k).value, v) else v
  }

  /** The value a key has in fields with distinct keys is the one at that key's position. */
  lemma {:induction false} LookupAt(fs: seq<Field>, j: nat)
    requires j < |fs| && DistinctKeys(fs)
    ensures Lookup(fs, fs[j].key) == Some(fs[j].value)
    decreases j
  {
    if j > 0 {
      assert fs[0].key != fs[j].key;
      assert fs[1..][j - 1] == fs[j];
      assert DistinctKeys(fs[1..]) by {
        forall a, b | 0 <= a < b < |fs[1..]| ensures fs[1..][a].key != fs[1..][b].key {
          assert fs[1..][a] == fs[a + 1] && fs[1..][b] == fs[b + 1];
        }
      }
      LookupAt(fs[1..], j - 1);
    }
  }

  /** A key that is present sits at some position. */
  lemma {:induction false} LookupSome(fs: seq<Field>, k: string)
    requires Lookup(fs, k).Some?
    ensures exists j :: 0 <= j < |fs| && fs[j].key == k && fs[j].value == Lookup(fs, k).value
    decreases |fs|
  {
    if fs[0].key != k {
      LookupSome(fs[1..], k);
      var j :| 0 <= j < |fs[1..]| && fs[1..][j].key == k && fs[1..][j].value == Lookup(fs[1..], k).value;
      assert fs[j + 1] == fs[1..][j];
    }
  }

  /**
   * Writing the patch entries from position i on: a key none of them holds keeps its
   * value in out, and a key one of them holds gets that entry's merged value.
   */
  lemma {:induction false} MergeEntriesLookup(out: seq<Field>, base: Json, patch: Json, i: nat, k: string)
    requires i <= |Entries(patch)| && DistinctKeys(Entries(patch))
    ensures (forall j :: i <= j < |Entries(patch)| ==> Entries(patch)[j].key != k) ==>
      Lookup(MergeEntries(out, base, patch, i), k) == Lookup(out, k)
    ensures forall j :: i <= j < |Entries(patch)| && Entries(patch)[j].key == k ==>
      Lookup(MergeEntries(out, base, patch, i), k) == Some(MergedValue(base, k, Entries(patch)[j].value))
    decreases |Entries(patch)| - i
  {
    var es := Entries(patch);
    if i < |es| {
      var e := es[i];
      var nv := MergedValue(base, e.key, e.value);
      var out' := Assign(out, e.key, nv);
      assert MergeEntries(out, base, patch, i) == MergeEntries(out', base, patch, i + 1);
      MergeEntriesLookup(out', base, patch, i + 1, k);
      if e.key == k {
        assert forall j :: i + 1 <= j < |es| ==> es[j].key != k;
        assert Lookup(out', k) == Some(nv);
      } else {
        assert Lookup(out', k) == Lookup(out, k);
      }
    }
  }

  /**
   * deepMerge of an object patch, key by key: a key the patch lacks keeps the base's
   * value; a key it holds gets the patch value, or, where both sides hold objects,
   * their merge.
   */
  lemma DeepMergeLookup(base: Json, patch: Json, k: string)
    requires patch.Obj? && DistinctKeys(patch.fields)
    ensures Get(DeepMerge(base, patch), k) ==
      if Lookup(patch.fields, k).Some? then Some(MergedValue(base, k, Lookup(patch.fields, k).value))
      else Prop(base, k)
  {
    MergeEntriesLookup(Entries(base), base, patch, 0, k);
    if Lookup(patch.fields, k).Some? {
      LookupSome(patch.fields, k);
    } else {
      forall j | 0 <= j < |patch.fields| ensures patch.fields[j].key != k {
        LookupAt(patch.fields, j);
      }
    }
  }

  /** What MergedValue is: replacement by a scalar or array, recursive merge of objects. */
  lemma MergedValueCases(base: Json, k: string, v: Json)
    ensures !v.Obj? ==> MergedValue(base, k, v) == v
    ensures v.Obj? && (Prop(base, k).None? || !IsObjectType(Prop(base, k).value)) ==> MergedValue(base, k, v) == v
    ensures v.Obj? && Truthy(base) && Prop(base, k).Some? && Prop(base, k).value.Obj? ==>
      MergedValue(base, k, v) == DeepMerge(Prop(base, k).value, v)
  {
  }

  /* ---------- environment parsing ---------- */

  /** asBool: trimmed, lower-cased 1/true/yes/y/on and 0/false/no/n/off; anything else is undefined. */
  function AsBool(v: Option<string>): (r: Option<bool>)
    ensures v.None? ==> r.None?
    ensures r == Some(true) <==> v.Some? && Js.ToLower(Js.Trim(v.value)) in ["1", "true", "yes", "y", "on"]
    ensures r == Some(false) <==> v.Some? && Js.ToLower(Js.Trim(v.value)) in ["0", "false", "no", "n", "off"]
  {
    if v.None? then None
    else
      var s := Js.ToLower(Js.Trim(v.value));
      if s in ["1", "true", "yes", "y", "on"] then Some(true)
      else if s in ["0", "false", "no", "n", "off"] then Some(false)
      else None
  }

  /** asNumber: Number(v) when it is finite; otherwise undefined. */
  function AsNumber(v: Option<string>): (r: Option<real>)
    ensures r.Some? <==> v.Some? && Js.StringToNumber(v.value).Finite?
    ensures r.Some? ==> Js.StringToNumber(v.value) == Js.Finite(r.value)
  {
    if v.None? then None
    else
      var n := Js.StringToNumber(v.value);
      if n.Finite? then Some(n.value) else None
  }

  /** A decimal variable always parses as its value. */
  lemma AsNumberOfDigits(n: nat)
    ensures AsNumber(Some(Js.NatToString(n))) == Some(n as real)
  {
    Js.NumberOfNatString(n);
  }

  /* ---------- environment overrides ---------- */

  /** The value at a path of property names. */
  function GetPath(j: Json, path: seq<string>): Option<Json>
    decreases |path|
  {
    if path == [] then Some(j)
    else if !j.Obj? || Lookup(j.fields, path[0]).None? then None
    else GetPath(Lookup(j.fields, path[0]).value, path[1..])
  }

  /**
   * An assignment `cfg.a.b = v`: every step but the last must reach an object, or the
   * assignment throws (None).
   */
  function SetPath(j: Json, path: seq<string>, v: Json): (r: Option<Json>)
    requires path != []
    ensures r.Some? ==> r.value.Obj?
    decreases |path|
  {
    if !j.Obj? then None
    else if |path| == 1 then Some(Obj(Assign(j.fields, path[0], v)))
    else
      var child := Lookup(j.fields, path[0]);
      if child.None? then None
      else
        var c := SetPath(child.value, path[1..], v);
        if c.None? then None else Some(Obj(Assign(j.fields, path[0], c.value)))
  }

  /** Objects all along the path, so that an assignment to it cannot throw. */
  predicate ObjectsAlong(j: Json, path: seq<string>)
    decreases |path|
  {
    path != [] && j.Obj?
    && (|path| == 1 || (Lookup(j.fields, path[0]).Some? && ObjectsAlong(Lookup(j.fields, path[0]).value, path[1..])))
  }

  /** Two paths that part at some step name different places. */
  predicate Diverge(p: seq<string>, q: seq<string>)
    decreases |p|
  {
    p != [] && q != [] && (p[0] != q[0] || Diverge(p[1..], q[1..]))
  }

  lemma {:induction false} SetPathSucceeds(j: Json, path: seq<string>, v: Json)
    requires path != []
    ensures SetPath(j, path, v).Some? <==> ObjectsAlong(j, path)
    decreases |path|
  {
    if j.Obj? && |path| > 1 && Lookup(j.fields, path[0]).Some? {
      SetPathSucceeds(Lookup(j.fields, path[0]).value, path[1..], v);
    }
  }

  /** After an assignment the path holds the value. */
  lemma {:induction false} SetThenGet(j: Json, path: seq<string>, v: Json)
    requires path != [] && SetPath(j, path, v).Some?
    ensures GetPath(SetPath(j, path, v).value, path) == Some(v)
    decreases |path|
  {
    if |path| > 1 {
      SetThenGet(Lookup(j.fields, path[0]).value, path[1..], v);
    }
  }

  /** An assignment leaves every path that parts from it unchanged, and objects where they were. */
  lemma {:induction false} SetKeepsOthers(j: Json, p: seq<string>, v: Json, q: seq<string>)
    requires p != [] && SetPath(j, p, v).Some? && Diverge(p, q)
    ensures GetPath(SetPath(j, p, v).value, q) == GetPath(j, q)
    ensures ObjectsAlong(j, q) ==> ObjectsAlong(SetPath(j, p, v).value, q)
    decreases |p|
  {
    var r := SetPath(j, p, v).value;
    if p[0] == q[0] {
      var child := Lookup(j.fields, p[0]).value;
      SetKeepsOthers(child, p[1..], v, q[1..]);
    }
  }

  /** How a variable's text becomes a configuration value. */
  datatype Kind = NumberVar | TextVar | BoolVar

  datatype Override = Override(variable: string, path: seq<string>, kind: Kind)

  /** The environment: variable names to values; an absent name is undefined. */
  type Env = map<string, string>

  function EnvGet(env: Env, name: string): Option<string>
  {
    if name in env then Some(env[name]) else None
  }

  /** The value a variable sets, or None when it is unset or does not parse (an empty text sets nothing). */
  function OverrideValue(env: Env, o: Override): (r: Option<Json>)
    ensures EnvGet(env, o.variable).None? ==> r.None?
  {
    var v := EnvGet(env, o.variable);
    match o.kind
    case NumberVar => if AsNumber(v).Some? then Some(Num(Js.Finite(AsNumber(v).value))) else None
    case TextVar => if v.Some? && v.value != "" then Some(Str(v.value)) else None
    case BoolVar => if AsBool(v).Some? then Some(Bool(AsBool(v).value)) else None
  }

  /** The ten overrides, in the order applyEnvOverrides applies them. */
  const OVERRIDES: seq<Override> := [
    Override("PORT", ["server", "port"], NumberVar),
    Override("CORS_ORIGIN_REGEX", ["server", "cors", "originRegex"], TextVar),
    Override("JWT_SECRET", ["security", "jwt", "secret"], TextVar),
    Override("JWT_EXP", ["security", "jwt", "exp"], TextVar),
    Override("DATABASE_URL", ["database", "url"], TextVar),
    Override("DB_LOGGER", ["database", "logger"], BoolVar),
    Override("RATE_LIMIT_WINDOW_MS", ["rateLimit", "windowMs"], NumberVar),
    Override("RATE_LIMIT_LIMIT", ["rateLimit", "limit"], NumberVar),
    Override("STORAGE_ROOT", ["storage", "root"], TextVar),
    Override("ADMIN_BOOTSTRAP", ["admin", "bootstrap"], BoolVar)]

  /** Apply the overrides from position i on; an assignment that throws ends with None. */
  function ApplyFrom(cfg: Json, env: Env, ovs: seq<Override>, i: nat): Option<Json>
    requires i <= |ovs| && forall k :: 0 <= k < |ovs| ==> ovs[k].path != []
    decreases |ovs| - i
  {
    if i == |ovs| then Some(cfg)
    else
      var v := OverrideValue(env, ovs[i]);
      if v.None? then ApplyFrom(cfg, env, ovs, i + 1)
      else
        var next := SetPath(cfg, ovs[i].path, v.value);
        if next.None? then None else ApplyFrom(next.value, env, ovs, i + 1)
  }

  /** applyEnvOverrides. */
  function ApplyEnvOverrides(cfg: Json, env: Env): Option<Json>
  {
    ApplyFrom(cfg, env, OVERRIDES, 0)
  }

  /** Every pair of paths in the list parts somewhere. */
  predicate PathsDiverge(ovs: seq<Override>)
  {
    forall a, b :: 0 <= a < b < |ovs| ==> Diverge(ovs[a].path, ovs[b].path)
  }

  lemma {:induction false} DivergeSymmetric(p: seq<string>, q: seq<string>)
    requires Diverge(p, q)
    ensures Diverge(q, p)
    decreases |p|
  {
    if p[0] == q[0] {
      DivergeSymmetric(p[1..], q[1..]);
    }
  }

  /**
   * With paths that pairwise part and objects all along them, each override's path
   * ends up holding the variable's value when it is set and parses, and otherwise
   * what it held before.
   */
  lemma {:induction false} ApplyFromEffect(cfg: Json, env: Env, ovs: seq<Override>, i: nat, t: nat)
    requires i <= t < |ovs| && forall k :: 0 <= k < |ovs| ==> ovs[k].path != []
    requires PathsDiverge(ovs)
    requires forall k :: i <= k < |ovs| ==> ObjectsAlong(cfg, ovs[k].path)
    ensures ApplyFrom(cfg, env, ovs, i).Some?
    ensures GetPath(ApplyFrom(cfg, env, ovs, i).value, ovs[t].path) ==
      if OverrideValue(env, ovs[t]).Some? then OverrideValue(env, ovs[t]) else GetPath(cfg, ovs[t].path)
    decreases |ovs| - i
  {
    var v := OverrideValue(env, ovs[i]);
    if v.None? {
      assert ApplyFrom(cfg, env, ovs, i) == ApplyFrom(cfg, env, ovs, i + 1);
      if i + 1 <= t {
        ApplyFromEffect(cfg, env, ovs, i + 1, t);
      } else {
        ApplyFromUntouched(cfg, env, ovs, i + 1, t);
      }
    } else {
      StepKeepsObjects(cfg, ovs, i, v.value);
      var next := SetPath(cfg, ovs[i].path, v.value).value;
      assert ApplyFrom(cfg, env, ovs, i) == ApplyFrom(next, env, ovs, i + 1);
      if i < t {
        SetKeepsOthers(cfg, ovs[i].path, v.value, ovs[t].path);
        ApplyFromEffect(next, env, ovs, i + 1, t);
      } else {
        SetThenGet(cfg, ovs[i].path, v.value);
        ApplyFromUntouched(next, env, ovs, i + 1, t);
      }
    }
  }

  /** One assignment succeeds and keeps objects along the later overrides' paths. */
  lemma StepKeepsObjects(cfg: Json, ovs: seq<Override>, i: nat, v: Json)
    requires i < |ovs| && forall k :: 0 <= k < |ovs| ==> ovs[k].path != []
    requires PathsDiverge(ovs)
    requires forall k :: i <= k < |ovs| ==> ObjectsAlong(cfg, ovs[k].path)
    ensures SetPath(cfg, ovs[i].path, v).Some?
    ensures forall k :: i + 1 <= k < |ovs| ==> ObjectsAlong(SetPath(cfg, ovs[i].path, v).value, ovs[k].path)
  {
    SetPathSucceeds(cfg, ovs[i].path, v);
    forall k | i + 1 <= k < |ovs| ensures ObjectsAlong(SetPath(cfg, ovs[i].path, v).value, ovs[k].path) {
      SetKeepsOthers(cfg, ovs[i].path, v, ovs[k].path);
    }
  }

  /** Overrides after position t leave t's path alone. */
  lemma {:induction false} ApplyFromUntouched(cfg: Json, env: Env, ovs: seq<Override>, i: nat, t: nat)
    requires t < i <= |ovs| && forall k :: 0 <= k < |ovs| ==> ovs[k].path != []
    requires PathsDiverge(ovs)
    requires forall k :: i <= k < |ovs| ==> ObjectsAlong(cfg, ovs[k].path)
    ensures ApplyFrom(cfg, env, ovs, i).Some?
    ensures GetPath(ApplyFrom(cfg, env, ovs, i).value, ovs[t].path) == GetPath(cfg, ovs[t].path)
    decreases |ovs| - i
  {
    if i < |ovs| {
      var v := OverrideValue(env, ovs[i]);
      if v.None? {
        ApplyFromUntouched(cfg, env, ovs, i + 1, t);
      } else {
        var next := StepUntouched(cfg, ovs, i, t, v.value);
        assert ApplyFrom(cfg, env, ovs, i) == ApplyFrom(next, env, ovs, i + 1);
        ApplyFromUntouched(next, env, ovs, i + 1, t);
      }
    }
  }

  /** One later assignment succeeds, keeps the objects the rest need and leaves t's path alone. */
  lemma StepUntouched(cfg: Json, ovs: seq<Override>, i: nat, t: nat, v: Json) returns (next: Json)
    requires t < i < |ovs| && forall k :: 0 <= k < |ovs| ==> ovs[k].path != []
    requires PathsDiverge(ovs)
    requires forall k :: i <= k < |ovs| ==> ObjectsAlong(cfg, ovs[k].path)
    ensures SetPath(cfg, ovs[i].path, v) == Some(next)
    ensures forall k :: i + 1 <= k < |ovs| ==> ObjectsAlong(next, ovs[k].path)
    ensures GetPath(next, ovs[t].path) == GetPath(cfg, ovs[t].path)
  {
    StepKeepsObjects(cfg, ovs, i, v);
    next := SetPath(cfg, ovs[i].path, v).value;
    DivergeSymmetric(ovs[t].path, ovs[i].path);
    SetKeepsOthers(cfg, ovs[i].path, v, ovs[t].path);
  }

  /** With none of the override variables set, applyEnvOverrides returns the configuration as it was. */
  lemma {:induction false} NoOverridesKeepConfig(cfg: Json, env: Env, ovs: seq<Override>, i: nat)
    requires i <= |ovs| && forall k :: 0 <= k < |ovs| ==> ovs[k].path != []
    requires forall k :: i <= k < |ovs| ==> ovs[k].variable !in env
    ensures ApplyFrom(cfg, env, ovs, i) == Some(cfg)
    decreases |ovs| - i
  {
    if i < |ovs| {
      assert EnvGet(env, ovs[i].variable).None?;
      NoOverridesKeepConfig(cfg, env, ovs, i + 1);
    }
  }

  /** Paths that differ at some step part there, or earlier. */
  lemma {:induction false} DivergeAt(p: seq<string>, q: seq<string>, k: nat)
    requires k < |p| && k < |q| && p[k] != q[k]
    ensures Diverge(p, q)
    decreases k
  {
    if k > 0 && p[0] == q[0] {
      DivergeAt(p[1..], q[1..], k - 1);
    }
  }

  /** The override at position a parts from every later one. */
  lemma OverrideDivergesFrom(a: nat)
    requires a < |OVERRIDES|
    ensures forall b :: a < b < |OVERRIDES| ==> Diverge(OVERRIDES[a].path, OVERRIDES[b].path)
  {
    forall b | a < b < |OVERRIDES| ensures Diverge(OVERRIDES[a].path, OVERRIDES[b].path) {
      var p, q := OVERRIDES[a].path, OVERRIDES[b].path;
      if p[0] != q[0] {
        DivergeAt(p, q, 0);
      } else if p[1] != q[1] {
        DivergeAt(p, q, 1);
      } else {
        DivergeAt(p, q, 2);
      }
    }
  }

  lemma OverridePathsDiverge()
    ensures PathsDiverge(OVERRIDES)
  {
    forall a | 0 <= a < |OVERRIDES| ensures forall b :: a < b < |OVERRIDES| ==> Diverge(OVERRIDES[a].path, OVERRIDES[b].path) {
      OverrideDivergesFrom(a);
    }
  }

  /* ---------- defaults and getConfig ---------- */

  function Text(key: string, s: string): Field { Field(key, Str(s)) }

  function Number(key: string, n: real): Field { Field(key, Num(Js.Finite(n))) }

  const SERVICE_DEFAULTS: Json := Obj([
    Text("name", "Course Management Platform"),
    Text("version", "1.0.0"),
    Text("description", "Software Engineering Case Practice Course Management Platform")])
  const SERVER_DEFAULTS: Json := Obj([
    Number("port", 3000.0),
    Field("cors", Obj([Text("originRegex", "localhost:\\d+$")]))])
  const SECURITY_DEFAULTS: Json := Obj([
    Field("jwt", Obj([Text("secret", ""), Text("exp", "7d")])),
    Field("csrf", Obj([Field("enabled", Bool(true))]))])
  const RATE_LIMIT_DEFAULTS: Json := Obj([Number("windowMs", 60000.0), Number("limit", 120.0)])
  const DATABASE_DEFAULTS: Json := Obj([Text("url", "sqlite.db"), Field("logger", Bool(true))])
  const STORAGE_DEFAULTS: Json := Obj([Text("root", "storage")])
  const ADMIN_DEFAULTS: Json := Obj([Field("bootstrap", Bool(true))])

  const DEFAULTS: Json := Obj([
    Field("service", SERVICE_DEFAULTS),
    Field("server", SERVER_DEFAULTS),
    Field("security", SECURITY_DEFAULTS),
    Field("rateLimit", RATE_LIMIT_DEFAULTS),
    Field("database", DATABASE_DEFAULTS),
    Field("storage", STORAGE_DEFAULTS),
    Field("admin", ADMIN_DEFAULTS)])

  lemma ServerPaths()
    ensures ObjectsAlong(DEFAULTS, ["server", "port"])
    ensures ObjectsAlong(DEFAULTS, ["server", "cors", "originRegex"])
  {
    LookupFirst(DEFAULTS.fields, 1);
  }

  lemma SecurityPaths()
    ensures ObjectsAlong(DEFAULTS, ["security", "jwt", "secret"])
    ensures ObjectsAlong(DEFAULTS, ["security", "jwt", "exp"])
  {
    LookupFirst(DEFAULTS.fields, 2);
  }

  lemma DatabasePaths()
    ensures ObjectsAlong(DEFAULTS, ["database", "url"]) && ObjectsAlong(DEFAULTS, ["database", "logger"])
  {
    LookupFirst(DEFAULTS.fields, 4);
  }

  lemma RateLimitPaths()
    ensures ObjectsAlong(DEFAULTS, ["rateLimit", "windowMs"]) && ObjectsAlong(DEFAULTS, ["rateLimit", "limit"])
  {
    LookupFirst(DEFAULTS.fields, 3);
  }

  lemma StoragePath()
    ensures ObjectsAlong(DEFAULTS, ["storage", "root"])
  {
    LookupFirst(DEFAULTS.fields, 5);
  }

  lemma AdminPath()
    ensures ObjectsAlong(DEFAULTS, ["admin", "bootstrap"])
  {
    LookupFirst(DEFAULTS.fields, 6);
  }

  /** A configuration with objects along the ten paths written out has them along every override path. */
  lemma HoldsOverridePaths(d: Json)
    requires ObjectsAlong(d, ["server", "port"]) && ObjectsAlong(d, ["server", "cors", "originRegex"])
    requires ObjectsAlong(d, ["security", "jwt", "secret"]) && ObjectsAlong(d, ["security", "jwt", "exp"])
    requires ObjectsAlong(d, ["database", "url"]) && ObjectsAlong(d, ["database", "logger"])
    requires ObjectsAlong(d, ["rateLimit", "windowMs"]) && ObjectsAlong(d, ["rateLimit", "limit"])
    requires ObjectsAlong(d, ["storage", "root"]) && ObjectsAlong(d, ["admin", "bootstrap"])
    ensures forall k :: 0 <= k < |OVERRIDES| ==> ObjectsAlong(d, OVERRIDES[k].path)
  {
  }

  /** The defaults hold an object at every step of every override path. */
  lemma DefaultsHoldOverridePaths()
    ensures forall k :: 0 <= k < |OVERRIDES| ==> ObjectsAlong(DEFAULTS, OVERRIDES[k].path)
  {
    ServerPaths();
    SecurityPaths();
    DatabasePaths();
    RateLimitPaths();
    StoragePath();
    AdminPath();
    HoldsOverridePaths(DEFAULTS);
  }

  /**
   * Over the defaults every override takes effect: each path holds the variable's value
   * when it is set and parses, and the default otherwise.
   */
  lemma OverridesOverDefaults(env: Env, t: nat)
    requires t < |OVERRIDES|
    ensures ApplyEnvOverrides(DEFAULTS, env).Some?
    ensures GetPath(ApplyEnvOverrides(DEFAULTS, env).value, OVERRIDES[t].path) ==
      if OverrideValue(env, OVERRIDES[t]).Some? then OverrideValue(env, OVERRIDES[t])
      else GetPath(DEFAULTS, OVERRIDES[t].path)
  {
    OverridePathsDiverge();
    DefaultsHoldOverridePaths();
    ApplyFromEffect(DEFAULTS, env, OVERRIDES, 0, t);
  }

  /** loadFromFiles: the default file and the NODE_ENV file, each merged over `{}` when present and truthy. */
  function LoadFromFiles(baseFile: Json, envFile: Json): Json
  {
    var m0 := Obj([]);
    var m1 := if Truthy(baseFile) then DeepMerge(m0, baseFile) else m0;
    if Truthy(envFile) then DeepMerge(m1, envFile) else m1
  }

  /** normalize: the defaults deep-merged with the configuration, so that missing sections exist. */
  function Normalize(cfg: Json): Json
  {
    DeepMerge(DEFAULTS, cfg)
  }

  /** The configuration a cache miss builds: None when an override assignment throws. */
  function Build(fileCfg: Json, env: Env): Option<Json>
  {
    ApplyEnvOverrides(Normalize(DeepMerge(DEFAULTS, fileCfg)), env)
  }

  /** The variables whose values make up the cache signature, in order. */
  const SIG_VARS: seq<string> := ["NODE_ENV", "PORT", "JWT_SECRET", "JWT_EXP", "DATABASE_URL", "DB_LOGGER",
    "RATE_LIMIT_WINDOW_MS", "RATE_LIMIT_LIMIT", "CORS_ORIGIN_REGEX", "STORAGE_ROOT", "ADMIN_BOOTSTRAP"]

  /** The signature: the variables' values, an unset one as "", joined with '|'. */
  function Sig(env: Env): string
  {
    Signature(SIG_VARS, env)
  }

  function Signature(vars: seq<string>, env: Env): string
  {
    Js.Join(seq(|vars|, k requires 0 <= k < |vars| => EnvGet(env, vars[k]).GetOr("")), '|')
  }

  /** Every override variable is part of the signature. */
  lemma OverrideVariablesSigned()
    ensures forall k :: 0 <= k < |OVERRIDES| ==> OVERRIDES[k].variable in SIG_VARS
  {
  }

  /** The module-level cache of getConfig. */
  class ConfigCache {
    var cached: Option<Json>
    var cachedSig: string
    /** The file configuration and environment the cached value was built from. */
    ghost var builtFrom: (Json, Env)

    /** The cached value, when there is one, was built under its recorded file configuration and environment. */
    ghost predicate Valid()
      reads this
    {
      cached.Some? ==> Build(builtFrom.0, builtFrom.1) == cached
    }

    /** The cache is current: the cached value was built under the environment its signature names. */
    ghost predicate Current()
      reads this
    {
      Valid() && (cached.Some? ==> Sig(builtFrom.1) == cachedSig)
    }

    constructor()
      ensures cached == None && cachedSig == "" && Current()
    {
      cached := None;
      cachedSig := "";
      builtFrom := (Null, map[]);
    }

    /**
     * getConfig as written: a hit (a cached value under the same signature) returns the
     * cached value and changes nothing; a miss records the new signature before applying
     * the overrides, so an assignment that throws leaves the new signature beside the old
     * cached value.
     */
    method GetConfigAsWritten(env: Env, fileCfg: Json) returns (r: Option<Json>)
      requires Valid()
      modifies this
      ensures Valid()
      ensures old(cached).Some? && old(cachedSig) == Sig(env) ==>
        r == old(cached) && cached == old(cached) && cachedSig == old(cachedSig)
      ensures !(old(cached).Some? && old(cachedSig) == Sig(env)) ==> cachedSig == Sig(env)
      ensures !(old(cached).Some? && old(cachedSig) == Sig(env)) ==>
        r == Build(fileCfg, env) && (r.Some? ==> cached == r) && (r.None? ==> cached == old(cached))
    {
      var sig := Sig(env);
      if cached.Some? && cachedSig == sig {
        r := cached;
      } else {
        r := RefreshAsWritten(env, fileCfg, sig);
      }
    }

    /** The miss path as written: the signature is recorded first, the cache only on success. */
    method RefreshAsWritten(env: Env, fileCfg: Json, sig: string) returns (r: Option<Json>)
      requires Valid()
      modifies this
      ensures Valid() && cachedSig == sig && r == Build(fileCfg, env)
      ensures r.Some? ==> cached == r
      ensures r.None? ==> cached == old(cached)
    {
      cachedSig := sig;
      r := Build(fileCfg, env);
      if r.Some? {
        cached := r;
        builtFrom := (fileCfg, env);
      }
    }

    /**
     * getConfig with the signature recorded only once the overrides have been applied:
     * whatever it returns was built under the current signature, and the cache stays current.
     */
    method GetConfig(env: Env, fileCfg: Json) returns (r: Option<Json>)
      requires Current()
      modifies this
      ensures Current()
      ensures r.Some? ==> Sig(builtFrom.1) == Sig(env) && r == Build(builtFrom.0, builtFrom.1)
      ensures old(cached).Some? && old(cachedSig) == Sig(env) ==>
        r == old(cached) && cached == old(cached) && cachedSig == old(cachedSig)
      ensures !(old(cached).Some? && old(cachedSig) == Sig(env)) ==>
        r == Build(fileCfg, env)
        && (r.Some? ==> cached == r && cachedSig == Sig(env))
        && (r.None? ==> cached == old(cached) && cachedSig == old(cachedSig))
    {
      var sig := Sig(env);
      if cached.Some? && cachedSig == sig {
        return cached;
      }
      r := Build(fileCfg, env);
      if r.Some? {
        cached := r;
        cachedSig := sig;
        builtFrom := (fileCfg, env);
      }
    }
  }

  /**
   * As written, a miss whose overrides throw leaves the cache stale: asking again under the
   * same environment returns the configuration built under the earlier environment.
   */
  method StaleAfterFailedRefresh(fileCfg: Json, env1: Env, env2: Env) returns (first: Option<Json>, second: Option<Json>, third: Option<Json>)
    requires Build(fileCfg, env1).Some? && Build(fileCfg, env2).None? && Sig(env1) != Sig(env2)
    ensures first == Build(fileCfg, env1) && second.None?
    ensures third == first && third != Build(fileCfg, env2)
  {
    var c := new ConfigCache();
    first := c.GetConfigAsWritten(env1, fileCfg);
    second := c.GetConfigAsWritten(env2, fileCfg);
    third := c.GetConfigAsWritten(env2, fileCfg);
  }

  /** With the signature recorded after success, asking again fails again. */
  method NoStaleAfterFailedRefresh(fileCfg: Json, env1: Env, env2: Env) returns (first: Option<Json>, second: Option<Json>, third: Option<Json>)
    requires Build(fileCfg, env1).Some? && Build(fileCfg, env2).None? && Sig(env1) != Sig(env2)
    ensures first == Build(fileCfg, env1) && second.None? && third.None?
  {
    var c := new ConfigCache();
    first := c.GetConfig(env1, fileCfg);
    second := c.GetConfig(env2, fileCfg);
    third := c.GetConfig(env2, fileCfg);
  }

  /** Merging keeps the keys of an object base distinct. */
  lemma {:induction false} MergeEntriesDistinct(out: seq<Field>, base: Json, patch: Json, i: nat)
    requires i <= |Entries(patch)| && DistinctKeys(out)
    ensures DistinctKeys(MergeEntries(out, base, patch, i))
    decreases |Entries(patch)| - i
  {
    if i < |Entries(patch)| {
      var e := Entries(patch)[i];
      MergeEntriesDistinct(Assign(out, e.key, MergedValue(base, e.key, e.value)), base, patch, i + 1);
    }
  }

  lemma DeepMergeDistinct(base: Json, patch: Json)
    requires base.Obj? && DistinctKeys(base.fields)
    ensures DeepMerge(base, patch).Obj? && DistinctKeys(DeepMerge(base, patch).fields)
  {
    if Truthy(patch) && IsObjectType(patch) {
      MergeEntriesDistinct(Entries(base), base, patch, 0);
    }
  }

  lemma DefaultsDistinct()
    ensures DistinctKeys(DEFAULTS.fields)
  {
  }

  /** A configuration file that makes `server` a string. */
  const STRING_SERVER: Json := Obj([Field("server", Str("x"))])

  /** An environment that sets only CORS_ORIGIN_REGEX. */
  const CORS_ONLY: Env := map["CORS_ORIGIN_REGEX" := "x"]

  /** After normalisation the string-server file still holds a string at `server`. */
  lemma StringServerSurvives()
    ensures Get(Normalize(DeepMerge(DEFAULTS, STRING_SERVER)), "server") == Some(Str("x"))
  {
    DefaultsDistinct();
    var merged := DeepMerge(DEFAULTS, STRING_SERVER);
    DeepMergeLookup(DEFAULTS, STRING_SERVER, "server");
    MergedValueCases(DEFAULTS, "server", Str("x"));
    DeepMergeDistinct(DEFAULTS, STRING_SERVER);
    DeepMergeLookup(DEFAULTS, merged, "server");
    LookupSome(merged.fields, "server");
    MergedValueCases(DEFAULTS, "server", Str("x"));
  }

  /** With no variables set a miss builds the normalised merge of the defaults and the files. */
  lemma EmptyEnvironmentBuilds(fileCfg: Json)
    ensures Build(fileCfg, map[]) == Some(Normalize(DeepMerge(DEFAULTS, fileCfg)))
  {
    EmptyEnvironmentKeeps(Normalize(DeepMerge(DEFAULTS, fileCfg)));
  }

  /** An empty environment changes nothing. */
  lemma EmptyEnvironmentKeeps(cfg: Json)
    ensures ApplyEnvOverrides(cfg, map[]) == Some(cfg)
  {
    NoOverridesKeepConfig(cfg, map[], OVERRIDES, 0);
  }

  /** Setting CORS_ORIGIN_REGEX throws when `server` holds something other than an object. */
  lemma CorsOverrideThrows(cfg: Json)
    requires Get(cfg, "server").Some? && !Get(cfg, "server").value.Obj?
    ensures ApplyEnvOverrides(cfg, CORS_ONLY).None?
  {
    assert OverrideValue(CORS_ONLY, OVERRIDES[0]).None?;
    assert OverrideValue(CORS_ONLY, OVERRIDES[1]) == Some(Str("x"));
    assert SetPath(cfg, OVERRIDES[1].path, Str("x")).None?;
  }

  lemma SignaturesDiffer()
    ensures Sig(map[]) != Sig(CORS_ONLY)
  {
    var none := seq(|SIG_VARS|, k requires 0 <= k < |SIG_VARS| => EnvGet(map[], SIG_VARS[k]).GetOr(""));
    var cors := seq(|SIG_VARS|, k requires 0 <= k < |SIG_VARS| => EnvGet(CORS_ONLY, SIG_VARS[k]).GetOr(""));
    Js.JoinOfEmpties(none, '|');
    assert cors[8] == "x";
    Js.JoinKeeps(cors, '|', 8, 'x');
  }

  /**
   * The inputs StaleAfterFailedRefresh needs exist: with the string-server file, an empty
   * environment builds a configuration, and setting CORS_ORIGIN_REGEX makes the build throw.
   */
  lemma FailedRefreshInputs()
    ensures Build(STRING_SERVER, map[]).Some?
    ensures Build(STRING_SERVER, CORS_ONLY).None?
    ensures Sig(map[]) != Sig(CORS_ONLY)
  {
    EmptyEnvironmentBuilds(STRING_SERVER);
    StringServerSurvives();
    CorsOverrideThrows(Normalize(DeepMerge(DEFAULTS, STRING_SERVER)));
    SignaturesDiffer();
  }
}
