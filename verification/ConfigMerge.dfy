/**
 The recursive configuration merge, and the Codex configuration built with it. An object is a map
 here, because merging looks fields up by key and their order plays no part.
 */
module ConfigMerge {
  import opened Bytes

  datatype Value =
    | Null
    | Bool(b: bool)
    | Number(numeral: string)
    | Text(s: string)
    | Arr(items: seq<Value>)
    | Obj(fields: map<string, Value>)

  /** What `deep_merge` leaves in place of `base`: objects merge field by field, anything else is replaced. */
  function Merge(base: Value, overlay: Value): Value
    decreases overlay
  {
    if !base.Obj? || !overlay.Obj? then overlay
    else
      Obj(map k | k in base.fields.Keys + overlay.fields.Keys ::
            if k !in overlay.fields then base.fields[k]
            else if k !in base.fields then overlay.fields[k]
            else Merge(base.fields[k], overlay.fields[k]))
  }

  /** The in-place loop, visiting the overlay's entries in any order. */
  method DeepMerge(base: Value, overlay: Value) returns (merged: Value)
    requires base.Obj? && overlay.Obj?
    ensures merged == Merge(base, overlay)
    decreases overlay
  {
    var fields := base.fields;
    var todo := overlay.fields.Keys;
    while todo != {}
      invariant todo <= overlay.fields.Keys
      invariant fields.Keys == base.fields.Keys + (overlay.fields.Keys - todo)
      invariant forall k :: k in fields ==>
        fields[k] == if k in overlay.fields && k !in todo then Merge(base, overlay).fields[k] else base.fields[k]
      decreases todo
    {
      var k :| k in todo;
      todo := todo - {k};
      var value := overlay.fields[k];
      if k in fields && fields[k].Obj? && value.Obj? {
        var inner := DeepMerge(fields[k], value);
        fields := fields[k := inner];
      } else {
        fields := fields[k := value];
      }
    }
    merged := Obj(fields);
  }

  // ---- The path law ----

  type Path = seq<string>

  function Lookup(v: Value, p: Path): Option<Value>
    decreases |p|
  {
    if |p| == 0 then Some(v)
    else if v.Obj? && p[0] in v.fields then Lookup(v.fields[p[0]], p[1..])
    else None
  }

  /** On the way to `p` the overlay has something that is not an object. */
  predicate CutsOff(overlay: Value, p: Path)
    decreases |p|
  {
    |p| > 0 && (!overlay.Obj? || (p[0] in overlay.fields && CutsOff(overlay.fields[p[0]], p[1..])))
  }

  /**
   The merge at every depth: where the overlay has a value it wins, merged into the base's value
   only when both are objects; every base path the overlay neither sets nor cuts off survives; and
   nothing else appears.
   */
  lemma {:induction false} MergePathLaw(base: Value, overlay: Value, p: Path)
    ensures Lookup(Merge(base, overlay), p)
      == match Lookup(overlay, p)
         case Some(x) => Some(if Lookup(base, p).Some? then Merge(Lookup(base, p).value, x) else x)
         case None => if CutsOff(overlay, p) then None else Lookup(base, p)
    decreases |p|
  {
    if |p| > 0 && overlay.Obj? && p[0] in overlay.fields && base.Obj? && p[0] in base.fields {
      MergePathLaw(base.fields[p[0]], overlay.fields[p[0]], p[1..]);
    } else if |p| > 0 && overlay.Obj? && p[0] in overlay.fields {
      NotCutByMissing(overlay.fields[p[0]], p[1..]);
    }
  }

  lemma {:induction false} NotCutByMissing(overlay: Value, p: Path)
    ensures CutsOff(overlay, p) ==> Lookup(overlay, p) == None
    decreases |p|
  {
    if |p| > 0 && overlay.Obj? && p[0] in overlay.fields {
      NotCutByMissing(overlay.fields[p[0]], p[1..]);
    }
  }

  /** A value that is not an object always wins; an object that meets no object is taken whole. */
  lemma OverlayWins(base: Value, overlay: Value, p: Path, x: Value)
    requires Lookup(overlay, p) == Some(x)
    requires !x.Obj? || Lookup(base, p).None? || !Lookup(base, p).value.Obj?
    ensures Lookup(Merge(base, overlay), p) == Some(x)
  {
    MergePathLaw(base, overlay, p);
  }

  // ---- The Codex configuration ----

  /** A configuration text, already parsed. */
  datatype Raw = BadJson | Parsed(value: Value)

  datatype EnvVar = EnvVar(name: string, raw: Raw)

  const CODEX_CONFIG: string := "CODEX_CONFIG"
  const SANDBOX: string := "sandbox_workspace_write"
  const NETWORK: string := "network_access"

  datatype Built = NoConfig | Config(value: Value) | Rejected

  function CodexEntries(env: seq<EnvVar>): seq<Raw> {
    if |env| == 0 then []
    else CodexEntries(env[..|env| - 1]) + if env[|env| - 1].name == CODEX_CONFIG then [env[|env| - 1].raw] else []
  }

  predicate IsObject(raw: Raw) {
    raw.Parsed? && raw.value.Obj?
  }

  predicate AllObjects(raws: seq<Raw>) {
    forall i :: 0 <= i < |raws| ==> IsObject(raws[i])
  }

  /** The first source with each later one merged over it. */
  function Folded(sources: seq<Raw>): (v: Value)
    requires |sources| > 0 && AllObjects(sources)
    ensures v.Obj?
  {
    var n := |sources| - 1;
    if n == 0 then sources[0].value else Merge(Folded(sources[..n]), sources[n].value)
  }

  /** Everything that is merged: the entries in order, then the parent's. */
  function Sources(env: seq<EnvVar>, parent: Option<Raw>): seq<Raw> {
    CodexEntries(env) + if parent.Some? then [parent.value] else []
  }

  function ForceNetwork(v: Value): Built
    requires v.Obj?
  {
    var sandbox := if SANDBOX in v.fields then v.fields[SANDBOX] else Obj(map[]);
    if sandbox.Obj? then Config(Obj(v.fields[SANDBOX := Obj(sandbox.fields[NETWORK := Bool(true)])])) else Rejected
  }

  /** The merged and forced configuration, once there is at least one source. */
  function BuiltFrom(sources: seq<Raw>): Built
    requires |sources| > 0
  {
    if !AllObjects(sources) then Rejected else ForceNetwork(Folded(sources))
  }

  function Build(env: seq<EnvVar>, parent: Option<Raw>, generated: bool): Built {
    if !generated || CodexEntries(env) == [] then NoConfig else BuiltFrom(Sources(env, parent))
  }

  /** `build_codex_config_env`. */
  method BuildCodexConfigEnv(env: seq<EnvVar>, parent: Option<Raw>, generated: bool) returns (built: Built)
    ensures built == Build(env, parent, generated)
  {
    if !generated {
      return NoConfig;
    }
    var entries := [];
    for i := 0 to |env|
      invariant entries == CodexEntries(env[..i])
    {
      assert env[..i + 1][..i] == env[..i];
      if env[i].name == CODEX_CONFIG {
        entries := entries + [env[i].raw];
      }
    }
    assert env[..|env|] == env;
    if |entries| == 0 {
      return NoConfig;
    }
    ghost var sources := Sources(env, parent);
    for i := 0 to |entries|
      invariant AllObjects(entries[..i])
    {
      if !IsObject(entries[i]) {
        assert sources[i] == entries[i];
        return Rejected;
      }
      assert entries[..i + 1] == entries[..i] + [entries[i]];
    }
    assert entries[..|entries|] == entries;
    var base := entries[0].value;
    assert entries[..1] == [entries[0]];
    for i := 1 to |entries|
      invariant base == Folded(entries[..i])
    {
      base := DeepMerge(base, entries[i].value);
      assert entries[..i + 1][..i] == entries[..i];
    }
    if parent.Some? {
      if !IsObject(parent.value) {
        assert sources[|entries|] == parent.value;
        return Rejected;
      }
      base := DeepMerge(base, parent.value.value);
      assert sources[..|entries|] == entries;
    } else {
      assert sources == entries;
    }
    if SANDBOX in base.fields && !base.fields[SANDBOX].Obj? {
      return Rejected;
    }
    var sandbox := if SANDBOX in base.fields then base.fields[SANDBOX].fields else map[];
    built := Config(Obj(base.fields[SANDBOX := Obj(sandbox[NETWORK := Bool(true)])]));
  }

  /** What the last source that mentions `key` sets it to. */
  function LastSetting(sources: seq<Raw>, key: string): Option<Value>
    requires AllObjects(sources)
  {
    if |sources| == 0 then None
    else
      var last := sources[|sources| - 1].value;
      if key in last.fields then Some(last.fields[key]) else LastSetting(sources[..|sources| - 1], key)
  }

  /** A top-level key survives the fold, and is an object exactly when its last setting is one. */
  lemma {:induction false} FoldedKey(sources: seq<Raw>, key: string)
    requires |sources| > 0 && AllObjects(sources)
    ensures key in Folded(sources).fields <==> LastSetting(sources, key).Some?
    ensures key in Folded(sources).fields ==>
      (Folded(sources).fields[key].Obj? <==> LastSetting(sources, key).value.Obj?)
  {
    var n := |sources| - 1;
    if n > 0 {
      FoldedKey(sources[..n], key);
      var f, last := Folded(sources[..n]), sources[n].value;
      if key in last.fields && key in f.fields {
        assert Merge(f, last).fields[key] == Merge(f.fields[key], last.fields[key]);
      }
    } else {
      assert LastSetting(sources[..0], key) == None;
    }
  }

  /**
   Building fails exactly when some source is not an object, or the last source to set
   `sandbox_workspace_write` sets it to something else than an object.
   */
  lemma RejectedIff(sources: seq<Raw>)
    requires |sources| > 0
    ensures BuiltFrom(sources) == Rejected <==>
      !AllObjects(sources)
      || (LastSetting(sources, SANDBOX).Some? && !LastSetting(sources, SANDBOX).value.Obj?)
  {
    if AllObjects(sources) {
      FoldedKey(sources, SANDBOX);
    }
  }

  /** A built configuration always allows network access, and differs from the merged sources nowhere else. */
  lemma NetworkIsAlwaysAllowed(sources: seq<Raw>, p: Path)
    requires |sources| > 0 && BuiltFrom(sources).Config?
    ensures Lookup(BuiltFrom(sources).value, [SANDBOX, NETWORK]) == Some(Bool(true))
    ensures |p| > 0 && p[0] != SANDBOX ==> Lookup(BuiltFrom(sources).value, p) == Lookup(Folded(sources), p)
    ensures |p| > 1 && p[0] == SANDBOX && p[1] != NETWORK ==>
      Lookup(BuiltFrom(sources).value, p) == Lookup(Folded(sources), p)
  {
    var v := BuiltFrom(sources).value;
    var q := [SANDBOX, NETWORK];
    assert Lookup(v, q) == Lookup(v.fields[SANDBOX], q[1..]);
    assert q[1..][0] == NETWORK && q[1..][1..] == [];
    if |p| > 1 && p[0] == SANDBOX && p[1] != NETWORK {
      assert p[1..][0] == p[1];
      assert Lookup(v, p) == Lookup(v.fields[SANDBOX], p[1..]);
    }
  }

  /** The parent's settings beat every entry's, at every depth. */
  lemma ParentWins(entries: seq<Raw>, parent: Raw, p: Path, x: Value)
    requires |entries| > 0 && AllObjects(entries) && IsObject(parent)
    requires Lookup(parent.value, p) == Some(x) && !x.Obj?
    ensures AllObjects(entries + [parent]) && Lookup(Folded(entries + [parent]), p) == Some(x)
  {
    assert (entries + [parent])[..|entries|] == entries;
    MergePathLaw(Folded(entries), parent.value, p);
  }

  // ---- The whole build, told on the variables and the parent ----

  predicate IsEntry(env: seq<EnvVar>, i: nat) {
    i < |env| && env[i].name == "CODEX_CONFIG"
  }

  /** The source leaves whatever stands at the path below it alone. */
  predicate LeavesAlone(raw: Raw, p: Path) {
    IsObject(raw) && Lookup(raw.value, p).None? && !CutsOff(raw.value, p)
  }

  /** The source sets the path to this value, which is not an object. */
  predicate Sets(raw: Raw, p: Path, x: Value) {
    IsObject(raw) && Lookup(raw.value, p) == Some(x) && !x.Obj?
  }

  lemma {:induction false} EntriesConcat(a: seq<EnvVar>, b: seq<EnvVar>)
    ensures CodexEntries(a + b) == CodexEntries(a) + CodexEntries(b)
  {
    if |b| == 0 {
      assert a + b == a;
    } else {
      EntriesConcat(a, b[..|b| - 1]);
      assert (a + b)[..|a + b| - 1] == a + b[..|b| - 1];
    }
  }

  /** The sources before an entry, the entry, and those after it. */
  lemma EntriesAround(env: seq<EnvVar>, i: nat)
    requires IsEntry(env, i)
    ensures CodexEntries(env) == CodexEntries(env[..i]) + [env[i].raw] + CodexEntries(env[i + 1..])
  {
    assert env == env[..i] + ([env[i]] + env[i + 1..]);
    EntriesConcat(env[..i], [env[i]] + env[i + 1..]);
    EntriesConcat([env[i]], env[i + 1..]);
    assert [env[i]][..0] == [];
  }

  lemma {:induction false} EntryComesFrom(env: seq<EnvVar>, k: nat) returns (i: nat)
    requires k < |CodexEntries(env)|
    ensures IsEntry(env, i) && env[i].raw == CodexEntries(env)[k]
  {
    var n := |env| - 1;
    if k < |CodexEntries(env[..n])| {
      i := EntryComesFrom(env[..n], k);
    } else {
      i := n;
    }
  }

  /** A setting survives the fold when no later source touches it. */
  lemma {:induction false} SettingSurvives(sources: seq<Raw>, k: nat, p: Path, x: Value)
    requires k < |sources| && AllObjects(sources) && Sets(sources[k], p, x)
    requires forall j :: k < j < |sources| ==> LeavesAlone(sources[j], p)
    ensures Lookup(Folded(sources), p) == Some(x)
  {
    hide Lookup, CutsOff;
    var n := |sources| - 1;
    if n > 0 {
      MergePathLaw(Folded(sources[..n]), sources[n].value, p);
      if k < n {
        SettingSurvives(sources[..n], k, p, x);
      }
    }
  }

  lemma {:induction false} NothingAppears(sources: seq<Raw>, p: Path)
    requires |sources| > 0 && AllObjects(sources)
    requires forall j :: 0 <= j < |sources| ==> Lookup(sources[j].value, p).None?
    ensures Lookup(Folded(sources), p).None?
  {
    hide Lookup, CutsOff;
    var n := |sources| - 1;
    if n > 0 {
      NothingAppears(sources[..n], p);
      MergePathLaw(Folded(sources[..n]), sources[n].value, p);
    }
  }

  /** Paths the forced setting has no part in. */
  predicate IsOwnPath(p: Path) {
    |p| > 0 && (p[0] == "sandbox_workspace_write" ==> |p| > 1 && p[1] != "network_access")
  }

  /** No configuration is built exactly when none was generated or no variable is an entry. */
  lemma NoConfigIff(env: seq<EnvVar>, parent: Option<Raw>, generated: bool)
    ensures Build(env, parent, generated) == NoConfig <==> !generated || forall i: nat :: !IsEntry(env, i)
  {
    if CodexEntries(env) == [] {
      forall i: nat ensures !IsEntry(env, i) {
        if IsEntry(env, i) {
          EntriesAround(env, i);
        }
      }
    } else {
      var i := EntryComesFrom(env, 0);
    }
  }

  /** The parent's setting of a path, if it has one that is not an object, is the one built, before every entry's. */
  lemma ParentIsBuilt(env: seq<EnvVar>, parent: Raw, p: Path, x: Value)
    requires Build(env, Some(parent), true).Config? && IsOwnPath(p) && Sets(parent, p, x)
    ensures Lookup(Build(env, Some(parent), true).value, p) == Some(x)
  {
    var sources := Sources(env, Some(parent));
    SettingSurvives(sources, |sources| - 1, p, x);
    NetworkIsAlwaysAllowed(sources, p);
  }

  /** Else an entry's is, when no later entry and not the parent touches the path. */
  lemma LastEntryIsBuilt(env: seq<EnvVar>, parent: Option<Raw>, i: nat, p: Path, x: Value)
    requires Build(env, parent, true).Config? && IsOwnPath(p)
    requires IsEntry(env, i) && Sets(env[i].raw, p, x)
    requires forall j: nat :: i < j && IsEntry(env, j) ==> LeavesAlone(env[j].raw, p)
    requires parent.Some? ==> LeavesAlone(parent.value, p)
    ensures Lookup(Build(env, parent, true).value, p) == Some(x)
  {
    hide Lookup, CutsOff, BuiltFrom;
    var sources := Sources(env, parent);
    EntriesAround(env, i);
    var k := |CodexEntries(env[..i])|;
    forall j | k < j < |sources| ensures LeavesAlone(sources[j], p) {
      if j < |CodexEntries(env)| {
        var m := EntryComesFrom(env[i + 1..], j - k - 1);
        assert IsEntry(env, i + 1 + m) && env[i + 1 + m].raw == sources[j];
      }
    }
    assert AllObjects(sources) by { BuiltMeansObjects(sources); }
    SettingSurvives(sources, k, p, x);
    NetworkIsAlwaysAllowed(sources, p);
  }

  lemma BuiltMeansObjects(sources: seq<Raw>)
    requires |sources| > 0 && BuiltFrom(sources).Config?
    ensures AllObjects(sources)
  {
  }

  /** And nothing is built at a path that no source sets. */
  lemma NothingElseIsBuilt(env: seq<EnvVar>, parent: Option<Raw>, p: Path)
    requires Build(env, parent, true).Config? && IsOwnPath(p)
    requires forall i: nat :: IsEntry(env, i) && IsObject(env[i].raw) ==> Lookup(env[i].raw.value, p).None?
    requires parent.Some? && IsObject(parent.value) ==> Lookup(parent.value.value, p).None?
    ensures Lookup(Build(env, parent, true).value, p).None?
  {
    hide Lookup, BuiltFrom;
    var sources := Sources(env, parent);
    BuiltMeansObjects(sources);
    forall j | 0 <= j < |sources| ensures Lookup(sources[j].value, p).None? {
      if j < |CodexEntries(env)| {
        var i := EntryComesFrom(env, j);
      }
    }
    NothingAppears(sources, p);
    NetworkIsAlwaysAllowed(sources, p);
  }

  /** The value of the last source that has this key at its top: the parent's, else the last entry's. */
  ghost predicate LastSets(env: seq<EnvVar>, parent: Option<Raw>, key: string, x: Value) {
    if parent.Some? && IsObject(parent.value) && key in parent.value.value.fields
    then x == parent.value.value.fields[key]
    else exists i: nat :: IsLastWith(env, key, i) && env[i].raw.value.fields[key] == x
  }

  ghost predicate IsLastWith(env: seq<EnvVar>, key: string, i: nat) {
    && IsEntry(env, i) && IsObject(env[i].raw) && key in env[i].raw.value.fields
    && forall j: nat :: i < j && IsEntry(env, j) && IsObject(env[j].raw) ==> key !in env[j].raw.value.fields
  }

  lemma LastSettingPush(sources: seq<Raw>, raw: Raw, key: string)
    requires AllObjects(sources + [raw])
    ensures AllObjects(sources) && IsObject(raw)
    ensures LastSetting(sources + [raw], key)
      == if key in raw.value.fields then Some(raw.value.fields[key]) else LastSetting(sources, key)
  {
    var all := sources + [raw];
    assert forall i :: 0 <= i < |sources| ==> IsObject(all[i]) && all[i] == sources[i];
    assert IsObject(all[|sources|]);
    assert all[..|sources|] == sources;
  }

  lemma {:induction false} LastEntryIff(env: seq<EnvVar>, key: string, x: Value)
    requires AllObjects(CodexEntries(env))
    ensures LastSetting(CodexEntries(env), key) == Some(x)
      <==> exists i: nat :: IsLastWith(env, key, i) && env[i].raw.value.fields[key] == x
  {
    if |env| == 0 {
      NoLastEntry(key);
    } else {
      hide IsLastWith, LastSetting;
      var n := |env| - 1;
      var init := env[..n];
      if IsEntry(env, n) {
        LastSettingPush(CodexEntries(init), env[n].raw, key);
        if key in env[n].raw.value.fields {
          LastIsNewest(env, key);
        } else {
          LastIsOlder(env, key);
          LastEntryIff(init, key, x);
        }
      } else {
        assert CodexEntries(env) == CodexEntries(init);
        LastIsOlder(env, key);
        LastEntryIff(init, key, x);
      }
    }
  }

  lemma LastIsNewest(env: seq<EnvVar>, key: string)
    requires |env| > 0 && IsEntry(env, |env| - 1) && IsObject(env[|env| - 1].raw)
    requires key in env[|env| - 1].raw.value.fields
    ensures forall i: nat :: IsLastWith(env, key, i) <==> i == |env| - 1
  {
  }

  lemma LastIsOlder(env: seq<EnvVar>, key: string)
    requires |env| > 0
    requires IsEntry(env, |env| - 1) ==>
      IsObject(env[|env| - 1].raw) && key !in env[|env| - 1].raw.value.fields
    ensures forall i: nat :: IsLastWith(env, key, i) <==> IsLastWith(env[..|env| - 1], key, i)
  {
    var init := env[..|env| - 1];
    assert forall j: nat :: j < |init| ==> init[j] == env[j] && (IsEntry(init, j) <==> IsEntry(env, j));
  }

  lemma NoLastEntry(key: string)
    ensures LastSetting([], key) == None && forall i: nat :: !IsLastWith([], key, i)
  {
  }

  lemma LastSettingIff(env: seq<EnvVar>, parent: Option<Raw>, key: string, x: Value)
    requires AllObjects(Sources(env, parent))
    ensures LastSetting(Sources(env, parent), key) == Some(x) <==> LastSets(env, parent, key, x)
  {
    if parent.Some? {
      LastSettingPush(CodexEntries(env), parent.value, key);
    } else {
      assert Sources(env, parent) == CodexEntries(env);
    }
    LastEntryIff(env, key, x);
  }

  /**
   The build fails exactly when one was generated and there is an entry, and some entry or the parent is not
   an object, or `sandbox_workspace_write` is last set to something else than an object.
   */
  lemma BuildFailsIff(env: seq<EnvVar>, parent: Option<Raw>, generated: bool)
    ensures Build(env, parent, generated) == Rejected
      <==> && generated && (exists i: nat :: IsEntry(env, i))
           && (|| (exists i: nat :: IsEntry(env, i) && !IsObject(env[i].raw))
               || (parent.Some? && !IsObject(parent.value))
               || (exists x :: LastSets(env, parent, "sandbox_workspace_write", x) && !x.Obj?))
  {
    hide CodexEntries, LastSetting, IsLastWith, Folded;
    NoConfigIff(env, parent, generated);
    var sources := Sources(env, parent);
    if Build(env, parent, generated) != NoConfig {
      RejectedIff(sources);
      ObjectsIff(env, parent);
      if AllObjects(sources) {
        forall x ensures LastSetting(sources, SANDBOX) == Some(x) <==> LastSets(env, parent, SANDBOX, x) {
          LastSettingIff(env, parent, SANDBOX, x);
        }
        if LastSetting(sources, SANDBOX).Some? {
          assert LastSets(env, parent, SANDBOX, LastSetting(sources, SANDBOX).value);
        }
      }
    }
  }

  lemma ObjectsIff(env: seq<EnvVar>, parent: Option<Raw>)
    ensures AllObjects(Sources(env, parent))
      <==> (forall i: nat :: IsEntry(env, i) ==> IsObject(env[i].raw)) && (parent.Some? ==> IsObject(parent.value))
  {
    var entries, sources := CodexEntries(env), Sources(env, parent);
    assert parent.Some? ==> sources[|entries|] == parent.value;
    assert forall k :: 0 <= k < |entries| ==> sources[k] == entries[k];
    if AllObjects(sources) {
      forall i: nat | IsEntry(env, i) ensures IsObject(env[i].raw) {
        EntriesAround(env, i);
        assert IsObject(sources[|CodexEntries(env[..i])|]);
      }
    } else {
      var k :| 0 <= k < |sources| && !IsObject(sources[k]);
      if k < |entries| {
        var i := EntryComesFrom(env, k);
      }
    }
  }
}
