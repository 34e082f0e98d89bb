/** `Main`: the registry of editor enhancements. Every concrete subclass of
    `EditorEnhancement` is instantiated once; each is enabled at start-up
    unless switched off, and the one "Enhancements" preferences page holds,
    per enhancement, an enable toggle and a foldout showing its own
    preferences. The per-enhancement preferences live in `EditorPrefs` under
    "EE_<prefix>_<name>". */
module Enhancements {
  import opened Wrappers
  import opened EditorPrefs
  import Text
  import Common

  /** What reflection tells about a type of the add-on's assembly: its full
      name, whether it is a class and abstract, the full names of all its
      base types, and its overrides of the `Name` and `Prefix` properties. */
  datatype TypeDecl = TypeDecl(
    fullName: string,
    isClass: bool,
    isAbstract: bool,
    ancestors: set<string>,
    nameOverride: Option<string>,
    prefixOverride: Option<string>)

  const EnhancementType := "Tenebrous.EditorEnhancements.EditorEnhancement"

  /** `EditorEnhancement.Name`, "Nothing" unless overridden. */
  function Name(e: TypeDecl): string {
    e.nameOverride.GetOr("Nothing")
  }

  /** `EditorEnhancement.Prefix`, "nothing" unless overridden. */
  function Prefix(e: TypeDecl): string {
    e.prefixOverride.GetOr("nothing")
  }

  /** The test the static constructor applies: a class, not abstract, and
      strictly derived from `EditorEnhancement`. */
  predicate IsEnhancement(t: TypeDecl) {
    t.isClass && !t.isAbstract && EnhancementType in t.ancestors
  }

  /** The registered enhancements, in the assembly's order. */
  function Registered(types: seq<TypeDecl>): (r: seq<TypeDecl>)
    ensures |r| <= |types|
  {
    if types == [] then []
    else
      var init := Registered(types[..|types| - 1]);
      if IsEnhancement(types[|types| - 1]) then init + [types[|types| - 1]] else init
  }

  /** Exactly the concrete enhancement classes are registered. */
  lemma {:induction false} RegisteredExactly(types: seq<TypeDecl>)
    ensures forall t | t in Registered(types) :: t in types && IsEnhancement(t)
    ensures forall t | t in types && IsEnhancement(t) :: t in Registered(types)
  {
    if types != [] {
      var init := types[..|types| - 1];
      RegisteredExactly(init);
      assert types == init + [types[|types| - 1]];
    }
  }

  /** `EditorEnhancement` itself is not registered: a type is not among its
      own base types. */
  lemma BaseClassNotRegistered(types: seq<TypeDecl>, t: TypeDecl)
    requires t.fullName == EnhancementType && t.fullName !in t.ancestors
    ensures t !in Registered(types)
  {
    RegisteredExactly(types);
  }

  /** The key `Bool[e, name]` and `Int[e, name]` use. */
  function Key(prefix: string, name: string): string {
    "EE_" + prefix + "_" + name
  }

  /** The key is "EE_", the prefix, "_" and the name. */
  lemma KeyShape(prefix: string, name: string)
    ensures Text.StartsWith(Key(prefix, name), "EE_" + prefix + "_")
    ensures Text.EndsWith(Key(prefix, name), "_" + name)
    ensures |Key(prefix, name)| == |prefix| + |name| + 4
  {
    var k := Key(prefix, name);
    assert k[|k| - |"_" + name|..] == "_" + name;
  }

  /** For one enhancement, different names give different keys. */
  lemma KeyInjective(prefix: string, a: string, b: string)
    requires Key(prefix, a) == Key(prefix, b)
    ensures a == b
  {
    var n := |"EE_" + prefix + "_"|;
    assert a == Key(prefix, a)[n..];
    assert b == Key(prefix, b)[n..];
  }

  /** For one name, different prefixes give different keys. */
  lemma PrefixInjective(p: string, q: string, name: string)
    requires Key(p, name) == Key(q, name)
    ensures p == q
  {
    assert p == Key(p, name)[3..|Key(p, name)| - |name| - 1];
    assert q == Key(q, name)[3..|Key(q, name)| - |name| - 1];
  }

  /** No two enhancements share a prefix, so none shares a key. */
  predicate DistinctPrefixes(list: seq<TypeDecl>) {
    forall a, b | 0 <= a < b < |list| :: Prefix(list[a]) != Prefix(list[b])
  }

  /** An "Enabled" key is never an "Expanded" key, whatever the prefixes:
      the two end differently. */
  lemma EnabledNotExpanded(p: string, q: string)
    ensures Key(p, "Enabled") != Key(q, "Expanded")
  {
    var a := Key(p, "Enabled");
    var b := Key(q, "Expanded");
    if |a| == |b| {
      assert a[|a| - 3] == 'l';
      assert b[|b| - 3] == 'd';
    }
  }

  /** `Bool[e, name, default]`. */
  function GetPrefBool(m: PrefMap, e: TypeDecl, name: string, default: bool): bool {
    GetBool(m, Key(Prefix(e), name), default)
  }

  /** `Int[e, name, default]`. */
  function GetPrefInt(m: PrefMap, e: TypeDecl, name: string, default: int): int {
    GetInt(m, Key(Prefix(e), name), default)
  }

  /** `Bool[e, name] = value`. */
  method SetPrefBool(prefs: PrefStore, e: TypeDecl, name: string, value: bool)
    modifies prefs
    ensures prefs.entries == old(prefs.entries)[Key(Prefix(e), name) := BoolPref(value)]
  {
    prefs.SetBool(Key(Prefix(e), name), value);
  }

  /** `Int[e, name] = value`. */
  method SetPrefInt(prefs: PrefStore, e: TypeDecl, name: string, value: int)
    modifies prefs
    ensures prefs.entries == old(prefs.entries)[Key(Prefix(e), name) := IntPref(value)]
  {
    prefs.SetInt(Key(Prefix(e), name), value);
  }

  /** A Bool written for an enhancement reads back, whatever the default;
      the other names of that enhancement keep their values. */
  lemma BoolRoundTrip(m: PrefMap, e: TypeDecl, name: string, value: bool, other: string, default: bool)
    requires other != name
    ensures GetPrefBool(m[Key(Prefix(e), name) := BoolPref(value)], e, name, default) == value
    ensures GetPrefBool(m[Key(Prefix(e), name) := BoolPref(value)], e, other, default) == GetPrefBool(m, e, other, default)
  {
    if Key(Prefix(e), other) == Key(Prefix(e), name) {
      KeyInjective(Prefix(e), other, name);
    }
  }

  /** An Int written for an enhancement reads back, whatever the default;
      the other names of that enhancement keep their values. */
  lemma IntRoundTrip(m: PrefMap, e: TypeDecl, name: string, value: int, other: string, default: int)
    requires other != name
    ensures GetPrefInt(m[Key(Prefix(e), name) := IntPref(value)], e, name, default) == value
    ensures GetPrefInt(m[Key(Prefix(e), name) := IntPref(value)], e, other, default) == GetPrefInt(m, e, other, default)
  {
    if Key(Prefix(e), other) == Key(Prefix(e), name) {
      KeyInjective(Prefix(e), other, name);
    }
  }

  /** Nothing written for an enhancement reads back as the default. */
  lemma UnsetReadsDefault(m: PrefMap, e: TypeDecl, name: string, default: bool)
    requires Key(Prefix(e), name) !in m
    ensures GetPrefBool(m, e, name, default) == default
    ensures GetPrefInt(m, e, name, if default then 1 else 0) == (if default then 1 else 0)
  {
  }

  /** What the registry asks of an enhancement (`i` is its place in the
      list). */
  datatype Call = OnEnable(i: nat) | OnDisable(i: nat) | DrawPreferences(i: nat)

  /** The key the static constructor reads to decide whether an enhancement
      starts enabled: "<prefix>_Enabled", without the "EE_" the toggle
      writes. */
  function StartupKey(prefix: string): string {
    prefix + "_Enabled"
  }

  /** The key it evidently means: the toggle's own. */
  function IntendedStartupKey(prefix: string): string {
    Key(prefix, "Enabled")
  }

  /** The `OnEnable` calls at start-up for the first `n` enhancements: one
      per enhancement whose key (`key` of its prefix) holds true, or is
      absent. */
  function StartupCalls(list: seq<TypeDecl>, m: PrefMap, key: string -> string, n: nat): (r: seq<Call>)
    requires n <= |list|
    ensures |r| <= n
  {
    if n == 0 then []
    else
      StartupCalls(list, m, key, n - 1)
        + (if GetBool(m, key(Prefix(list[n - 1])), true) then [OnEnable(n - 1)] else [])
  }

  /** Start-up enables, in list order, exactly the enhancements whose key
      does not hold false, and does nothing else. */
  lemma {:induction false} StartupCallsExactly(list: seq<TypeDecl>, m: PrefMap, key: string -> string, n: nat)
    requires n <= |list|
    ensures forall c | c in StartupCalls(list, m, key, n) :: c.OnEnable? && c.i < n
    ensures forall i | 0 <= i < n :: OnEnable(i) in StartupCalls(list, m, key, n) <==> GetBool(m, key(Prefix(list[i])), true)
    ensures forall a, b | 0 <= a < b < |StartupCalls(list, m, key, n)| ::
      StartupCalls(list, m, key, n)[a].i < StartupCalls(list, m, key, n)[b].i
  {
    if n > 0 {
      StartupCallsExactly(list, m, key, n - 1);
    }
  }

  /** The start-up key is never the toggle's key, so turning an enhancement
      off in the preferences does not stop it from being enabled at the next
      start-up. */
  lemma StartupIgnoresToggle(list: seq<TypeDecl>, m: PrefMap, i: nat)
    requires i < |list|
    ensures var off := m[Key(Prefix(list[i]), "Enabled") := BoolPref(false)];
      GetBool(off, StartupKey(Prefix(list[i])), true) == GetBool(m, StartupKey(Prefix(list[i])), true)
  {
    var p := Prefix(list[i]);
    assert |StartupKey(p)| < |Key(p, "Enabled")|;
  }

  /** An enhancement switched off with a fresh store of preferences is still
      enabled at start-up. */
  lemma StartupEnablesSwitchedOff()
    ensures var list := [TypeDecl("A", true, false, {EnhancementType}, None, Some("A"))];
      var off := map[Key("A", "Enabled") := BoolPref(false)];
      StartupCalls(list, off, StartupKey, 1) == [OnEnable(0)]
  {
    assert StartupKey("A") != Key("A", "Enabled");
  }

  /** With the evidently intended key, start-up follows the toggle. */
  lemma IntendedStartupFollowsToggle(list: seq<TypeDecl>, m: PrefMap, i: nat, on: bool)
    requires i < |list|
    ensures var m' := m[Key(Prefix(list[i]), "Enabled") := BoolPref(on)];
      OnEnable(i) in StartupCalls(list, m', IntendedStartupKey, |list|) <==> on
  {
    var m' := m[Key(Prefix(list[i]), "Enabled") := BoolPref(on)];
    StartupCallsExactly(list, m', IntendedStartupKey, |list|);
  }

  /** The static constructor's first loop: every type of the assembly that
      is a concrete enhancement class is instantiated and listed. */
  method Register(types: seq<TypeDecl>) returns (list: seq<TypeDecl>)
    ensures list == Registered(types)
    ensures forall t | t in list :: t in types && IsEnhancement(t)
    ensures forall t | t in types && IsEnhancement(t) :: t in list
  {
    list := [];
    var i := 0;
    while i < |types|
      invariant 0 <= i <= |types|
      invariant list == Registered(types[..i])
    {
      assert types[..i + 1][..i] == types[..i];
      if IsEnhancement(types[i]) {
        list := list + [types[i]];
      }
      i := i + 1;
    }
    assert types[..i] == types;
    RegisteredExactly(types);
  }

  /** The static constructor's second loop, with the key it reads. */
  method EnableAtStartup(list: seq<TypeDecl>, m: PrefMap, key: string -> string) returns (calls: seq<Call>)
    ensures calls == StartupCalls(list, m, key, |list|)
    ensures forall i | 0 <= i < |list| :: OnEnable(i) in calls <==> GetBool(m, key(Prefix(list[i])), true)
  {
    calls := [];
    var i := 0;
    while i < |list|
      invariant 0 <= i <= |list|
      invariant calls == StartupCalls(list, m, key, i)
    {
      if GetBool(m, key(Prefix(list[i])), true) {
        calls := calls + [OnEnable(i)];
      }
      i := i + 1;
    }
    StartupCallsExactly(list, m, key, |list|);
  }

  /** The type test `e is T`: `t` is the type itself or one of
      its base types. */
  predicate IsA(e: TypeDecl, t: string) {
    e.fullName == t || t in e.ancestors
  }

  /** At most one enhancement whose preferences are unfolded — counting
      enhancements that share a prefix, and so a key, as one. */
  ghost predicate AtMostOneExpanded(list: seq<TypeDecl>, m: PrefMap) {
    forall a, b | 0 <= a < |list| && 0 <= b < |list| && Expanded(m, list[a]) && Expanded(m, list[b]) ::
      Prefix(list[a]) == Prefix(list[b])
  }

  /** Whether an enhancement's preferences are unfolded: `Bool[e, "Expanded"]`. */
  predicate Expanded(m: PrefMap, e: TypeDecl) {
    GetPrefBool(m, e, "Expanded", false)
  }

  /** The "Expanded" keys of the enhancements other than the `i`-th. */
  function OtherExpandedKeys(list: seq<TypeDecl>, i: int): (r: set<string>)
    ensures forall j | 0 <= j < |list| && j != i :: Key(Prefix(list[j]), "Expanded") in r
    ensures forall k | k in r :: exists j | 0 <= j < |list| && j != i :: k == Key(Prefix(list[j]), "Expanded")
  {
    set j | 0 <= j < |list| && j != i :: Key(Prefix(list[j]), "Expanded")
  }

  /** The keys drawing the `i`-th row may write: its own "Enabled" and
      "Expanded" keys and every other entry's "Expanded" key. */
  function RowKeys(list: seq<TypeDecl>, i: nat): set<string>
    requires i < |list|
  {
    {Key(Prefix(list[i]), "Enabled"), Key(Prefix(list[i]), "Expanded")} + OtherExpandedKeys(list, i)
  }

  /** The "Enabled" and "Expanded" keys of every registered enhancement. */
  function PrefKeys(list: seq<TypeDecl>): set<string> {
    (set j | 0 <= j < |list| :: Key(Prefix(list[j]), "Enabled"))
      + (set j | 0 <= j < |list| :: Key(Prefix(list[j]), "Expanded"))
  }

  /** A row's keys are among the registry's keys. */
  lemma RowKeysInside(list: seq<TypeDecl>, i: nat)
    requires i < |list|
    ensures RowKeys(list, i) <= PrefKeys(list)
  {
    forall k | k in OtherExpandedKeys(list, i)
      ensures k in PrefKeys(list)
    {
      var j :| 0 <= j < |list| && j != i && k == Key(Prefix(list[j]), "Expanded");
    }
  }

  /** The "Enabled" toggle's effect on the calls: `OnEnable` when it was
      switched on, `OnDisable` when switched off, nothing when left alone. */
  function ToggleCalls(i: nat, enabled: bool, newEnabled: bool): (r: seq<Call>)
    ensures |r| <= 1
    ensures forall c | c in r :: c.i == i && !c.DrawPreferences?
    ensures OnEnable(i) in r <==> !enabled && newEnabled
    ensures OnDisable(i) in r <==> enabled && !newEnabled
    ensures r == [] <==> enabled == newEnabled
  {
    if newEnabled == enabled then []
    else if newEnabled then [OnEnable(i)]
    else [OnDisable(i)]
  }

  /** The calls one row makes: the toggle's, then the enhancement's own
      preferences when it was unfolded. */
  function RowCalls(i: nat, enabled: bool, toggleClicked: bool, expanded: bool): (r: seq<Call>)
    ensures forall c | c in r :: c.i == i
    ensures forall c | c in r :: (c.OnEnable? || c.OnDisable?) ==> toggleClicked
    ensures DrawPreferences(i) in r <==> expanded
    ensures toggleClicked ==> OnEnable(i) in r || OnDisable(i) in r
  {
    ToggleCalls(i, enabled, enabled != toggleClicked) + (if expanded then [DrawPreferences(i)] else [])
  }

  /** `calls` extends `base`, and every `OnEnable` or `OnDisable` added is
      for an enhancement in `toggles`. */
  ghost predicate CallsAfter(calls: seq<Call>, base: seq<Call>, toggles: set<nat>) {
    && |calls| >= |base| && calls[..|base|] == base
    && forall k | |base| <= k < |calls| :: calls[k].OnEnable? || calls[k].OnDisable? ==> calls[k].i in toggles
  }

  /** An `OnEnable` or `OnDisable` call for the `j`-th enhancement was made
      at or after position `start`. */
  ghost predicate Announced(calls: seq<Call>, start: nat, j: nat) {
    start <= |calls| && (OnEnable(j) in calls[start..] || OnDisable(j) in calls[start..])
  }

  /** Every clicked toggle before row `n` has been announced. */
  ghost predicate AnnouncedUpTo(calls: seq<Call>, start: nat, toggles: set<nat>, n: nat) {
    forall j | 0 <= j < n && j in toggles :: Announced(calls, start, j)
  }

  /** Appending row `i`'s calls keeps earlier announcements, and announces
      row `i` when its toggle was clicked. */
  lemma AnnouncedStep(calls: seq<Call>, start: nat, toggles: set<nat>, i: nat, row: seq<Call>)
    requires start <= |calls| && AnnouncedUpTo(calls, start, toggles, i)
    requires i in toggles ==> OnEnable(i) in row || OnDisable(i) in row
    ensures AnnouncedUpTo(calls + row, start, toggles, i + 1)
  {
    assert (calls + row)[start..] == calls[start..] + row;
  }

  /** The "Enabled" value of every row before `n` is its value in `base`,
      flipped when its toggle was clicked; every later row's is as in
      `base`. */
  ghost predicate TogglesUpTo(list: seq<TypeDecl>, m: PrefMap, base: PrefMap, toggles: set<nat>, n: nat) {
    forall j | 0 <= j < |list| ::
      GetPrefBool(m, list[j], "Enabled", true) == (GetPrefBool(base, list[j], "Enabled", true) != (j < n && j in toggles))
  }

  /** Drawing row `i` flips its own toggle when clicked and, with distinct
      prefixes, no other row's. */
  lemma TogglesStep(list: seq<TypeDecl>, base: PrefMap, before: PrefMap, after: PrefMap, toggles: set<nat>, i: nat)
    requires i < |list| && DistinctPrefixes(list) && TogglesUpTo(list, before, base, toggles, i)
    requires GetPrefBool(after, list[i], "Enabled", true) == (GetPrefBool(before, list[i], "Enabled", true) != (i in toggles))
    requires forall j | 0 <= j < |list| && Prefix(list[j]) != Prefix(list[i]) ::
      GetPrefBool(after, list[j], "Enabled", true) == GetPrefBool(before, list[j], "Enabled", true)
    ensures TogglesUpTo(list, after, base, toggles, i + 1)
  {
    forall j | 0 <= j < |list| && j != i
      ensures Prefix(list[j]) != Prefix(list[i])
    {
      if j < i {
        assert Prefix(list[j]) != Prefix(list[i]);
      } else {
        assert Prefix(list[i]) != Prefix(list[j]);
      }
    }
  }

  /** Appending calls that only toggle enhancements in `toggles` keeps
      `CallsAfter`. */
  lemma ExtendCalls(calls: seq<Call>, base: seq<Call>, toggles: set<nat>, row: seq<Call>)
    requires CallsAfter(calls, base, toggles)
    requires forall c | c in row :: c.OnEnable? || c.OnDisable? ==> c.i in toggles
    ensures CallsAfter(calls + row, base, toggles)
  {
    var all := calls + row;
    assert all[..|base|] == calls[..|base|];
    forall k | |base| <= k < |all|
      ensures all[k].OnEnable? || all[k].OnDisable? ==> all[k].i in toggles
    {
      if k >= |calls| {
        assert all[k] == row[k - |calls|];
        assert all[k] in row;
      }
    }
  }

  /** Two stores that agree outside `keys` agree on every key outside it. */
  lemma KeptOutside(a: PrefMap, b: PrefMap, keys: set<string>, k: string)
    requires a - keys == b - keys && k !in keys
    ensures (k in a <==> k in b) && (k in a ==> a[k] == b[k])
  {
    assert k in a <==> k in a - keys;
    assert k in b <==> k in b - keys;
    if k in a {
      assert (a - keys)[k] == a[k];
      assert (b - keys)[k] == b[k];
    }
  }

  /** No "Enabled" key is among the keys a foldout writes. */
  lemma EnabledNotFolded(list: seq<TypeDecl>, i: nat, p: string)
    requires i < |list|
    ensures Key(p, "Enabled") !in OtherExpandedKeys(list, i) + {Key(Prefix(list[i]), "Expanded")}
  {
    forall j | 0 <= j < |list|
      ensures Key(p, "Enabled") != Key(Prefix(list[j]), "Expanded")
    {
      EnabledNotExpanded(p, Prefix(list[j]));
    }
  }

  /** A row writes its own "Enabled" key and "Expanded" keys only, so the
      toggles of enhancements with another prefix keep their values. */
  lemma OtherTogglesKept(list: seq<TypeDecl>, i: nat, before: PrefMap, v: bool, after: PrefMap)
    requires i < |list|
    requires var keys := OtherExpandedKeys(list, i) + {Key(Prefix(list[i]), "Expanded")};
      before[Key(Prefix(list[i]), "Enabled") := BoolPref(v)] - keys == after - keys
    ensures forall j | 0 <= j < |list| && Prefix(list[j]) != Prefix(list[i]) ::
      GetPrefBool(after, list[j], "Enabled", true) == GetPrefBool(before, list[j], "Enabled", true)
  {
    var own := Key(Prefix(list[i]), "Enabled");
    var toggled := before[own := BoolPref(v)];
    var keys := OtherExpandedKeys(list, i) + {Key(Prefix(list[i]), "Expanded")};
    forall j | 0 <= j < |list| && Prefix(list[j]) != Prefix(list[i])
      ensures GetPrefBool(after, list[j], "Enabled", true) == GetPrefBool(before, list[j], "Enabled", true)
    {
      var other := Key(Prefix(list[j]), "Enabled");
      if other == own {
        PrefixInjective(Prefix(list[j]), Prefix(list[i]), "Enabled");
      }
      EnabledNotFolded(list, i, Prefix(list[j]));
      KeptOutside(toggled, after, keys, other);
    }
  }

  /** Concatenation of calls is associative. */
  lemma Associative(a: seq<Call>, b: seq<Call>, c: seq<Call>)
    ensures (a + b) + c == a + (b + c)
  {
  }

  /** Writing a key inside `keys` changes nothing outside it. */
  lemma UpdateInside(m: PrefMap, k: string, v: PrefValue, keys: set<string>)
    requires k in keys
    ensures m[k := v] - keys == m - keys
  {
  }

  /** The registry: the enhancements, and the calls made into them so far. */
  class Registry {
    var list: seq<TypeDecl>
    var calls: seq<Call>

    /** The static constructor, as written: registers the enhancements and
        enables those whose "<prefix>_Enabled" key does not hold false. */
    constructor(types: seq<TypeDecl>, prefs: PrefStore)
      ensures list == Registered(types)
      ensures calls == StartupCalls(list, prefs.entries, StartupKey, |list|)
    {
      var l := Register(types);
      var c := EnableAtStartup(l, prefs.entries, StartupKey);
      list, calls := l, c;
    }

    /** The static constructor reading the toggle's own key. */
    constructor Intended(types: seq<TypeDecl>, prefs: PrefStore)
      ensures list == Registered(types)
      ensures calls == StartupCalls(list, prefs.entries, IntendedStartupKey, |list|)
    {
      var l := Register(types);
      var c := EnableAtStartup(l, prefs.entries, IntendedStartupKey);
      list, calls := l, c;
    }

    /** `Enhancement<T>()`: the first enhancement that is a `t`, or null. */
    method Enhancement(t: string) returns (r: Option<TypeDecl>)
      ensures r.None? <==> forall i | 0 <= i < |list| :: !IsA(list[i], t)
      ensures r.Some? ==> exists i | 0 <= i < |list| ::
        list[i] == r.value && IsA(r.value, t) && forall j | 0 <= j < i :: !IsA(list[j], t)
    {
      var i := 0;
      while i < |list|
        invariant 0 <= i <= |list|
        invariant forall j | 0 <= j < i :: !IsA(list[j], t)
      {
        if IsA(list[i], t) {
          return Some(list[i]);
        }
        i := i + 1;
      }
      return None;
    }

    /** The inner loop of an expansion: every other enhancement that is
        unfolded is folded. No key but their "Expanded" keys changes. */
    method CollapseOthers(i: nat, prefs: PrefStore)
      requires i < |list|
      modifies prefs
      ensures forall k | k in OtherExpandedKeys(list, i) :: !GetBool(prefs.entries, k, false)
      ensures prefs.entries - OtherExpandedKeys(list, i) == old(prefs.entries) - OtherExpandedKeys(list, i)
    {
      ghost var keys := OtherExpandedKeys(list, i);
      var j := 0;
      while j < |list|
        invariant 0 <= j <= |list|
        invariant forall a | 0 <= a < j && a != i :: !GetPrefBool(prefs.entries, list[a], "Expanded", false)
        invariant prefs.entries - keys == old(prefs.entries) - keys
      {
        if j != i && GetPrefBool(prefs.entries, list[j], "Expanded", false) {
          SetPrefBool(prefs, list[j], "Expanded", false);
        }
        j := j + 1;
      }
    }

    /** The toggle of the `i`-th row: its "Enabled" value (true when unset)
        is flipped when clicked and written back either way; switching it on
        calls `OnEnable`, switching it off `OnDisable`. */
    method Toggle(i: nat, clicked: bool, prefs: PrefStore) returns (enabled: bool)
      requires i < |list|
      modifies this`calls, prefs
      ensures enabled == old(GetPrefBool(prefs.entries, list[i], "Enabled", true))
      ensures prefs.entries == old(prefs.entries)[Key(Prefix(list[i]), "Enabled") := BoolPref(enabled != clicked)]
      ensures calls == old(calls) + ToggleCalls(i, enabled, enabled != clicked)
    {
      enabled := GetPrefBool(prefs.entries, list[i], "Enabled", true);
      var newEnabled := enabled != clicked;
      SetPrefBool(prefs, list[i], "Enabled", newEnabled);
      if newEnabled != enabled {
        if newEnabled {
          calls := calls + [OnEnable(i)];
        } else {
          calls := calls + [OnDisable(i)];
        }
      }
    }

    /** The foldout of the `i`-th row: its "Expanded" value (false when
        unset) is flipped when clicked and written back either way; unfolding
        it folds every other enhancement. Only "Expanded" keys change. */
    method Fold(i: nat, clicked: bool, prefs: PrefStore) returns (expanded: bool)
      requires i < |list|
      modifies prefs
      ensures expanded == old(GetPrefBool(prefs.entries, list[i], "Expanded", false))
      ensures clicked && !expanded ==> AtMostOneExpanded(list, prefs.entries)
      ensures clicked && !expanded ==> GetPrefBool(prefs.entries, list[i], "Expanded", false)
                                       == (Key(Prefix(list[i]), "Expanded") !in OtherExpandedKeys(list, i))
      ensures !(clicked && !expanded) ==>
        prefs.entries == old(prefs.entries)[Key(Prefix(list[i]), "Expanded") := BoolPref(expanded != clicked)]
      ensures AtMostOneExpanded(list, old(prefs.entries)) ==> AtMostOneExpanded(list, prefs.entries)
      ensures var keys := OtherExpandedKeys(list, i) + {Key(Prefix(list[i]), "Expanded")};
        prefs.entries - keys == old(prefs.entries) - keys
    {
      var e := list[i];
      ghost var keys := OtherExpandedKeys(list, i);
      ghost var own := Key(Prefix(e), "Expanded");
      expanded := GetPrefBool(prefs.entries, e, "Expanded", false);
      var newExpanded := expanded != clicked;
      SetPrefBool(prefs, e, "Expanded", newExpanded);
      if newExpanded != expanded {
        if newExpanded {
          ghost var unfolded := prefs.entries;
          CollapseOthers(i, prefs);
          ExpandedAlone(list, i, prefs.entries);
          Common.SubtractMore(prefs.entries, unfolded, keys, keys + {own});
          if own !in keys {
            KeptOutside(unfolded, prefs.entries, keys, own);
          }
          UpdateInside(old(prefs.entries), own, BoolPref(true), keys + {own});
        } else {
          FoldingKeepsAtMostOne(list, i, old(prefs.entries));
        }
      } else {
        UnchangedExpansion(list, i, old(prefs.entries), expanded);
      }
    }

    /** One row of `DrawPreferences`, for the `i`-th enhancement: its toggle,
        then its foldout; when it was unfolded, the enhancement draws its own
        preferences. */
    method DrawRow(i: nat, toggleClicked: bool, foldClicked: bool, prefs: PrefStore)
      returns (enabled: bool, expanded: bool)
      requires i < |list|
      modifies this`calls, prefs
      ensures enabled == old(GetPrefBool(prefs.entries, list[i], "Enabled", true))
      ensures expanded == old(GetPrefBool(prefs.entries, list[i], "Expanded", false))
      ensures calls == old(calls) + RowCalls(i, enabled, toggleClicked, expanded)
      ensures GetPrefBool(prefs.entries, list[i], "Enabled", true) == (enabled != toggleClicked)
      ensures foldClicked && !expanded ==> AtMostOneExpanded(list, prefs.entries)
      ensures AtMostOneExpanded(list, old(prefs.entries)) ==> AtMostOneExpanded(list, prefs.entries)
      ensures forall j | 0 <= j < |list| && Prefix(list[j]) != Prefix(list[i]) ::
        GetPrefBool(prefs.entries, list[j], "Enabled", true) == old(GetPrefBool(prefs.entries, list[j], "Enabled", true))
      ensures GetPrefBool(prefs.entries, list[i], "Expanded", false) ==
        ((expanded != foldClicked) && !(foldClicked && Key(Prefix(list[i]), "Expanded") in OtherExpandedKeys(list, i)))
      ensures prefs.entries - RowKeys(list, i) == old(prefs.entries) - RowKeys(list, i)
    {
      var e := list[i];
      var enabledKey := Key(Prefix(e), "Enabled");
      enabled := Toggle(i, toggleClicked, prefs);
      ghost var toggled := prefs.entries;
      ghost var toggleCalls := ToggleCalls(i, enabled, enabled != toggleClicked);
      assert GetBool(toggled, enabledKey, true) == (enabled != toggleClicked);
      EnabledWriteKeepsFolds(list, old(prefs.entries), Prefix(e), enabled != toggleClicked);
      assert AtMostOneExpanded(list, old(prefs.entries)) ==> AtMostOneExpanded(list, toggled);
      EnabledNotExpanded(Prefix(e), Prefix(e));
      expanded := Fold(i, foldClicked, prefs);
      ghost var keys := OtherExpandedKeys(list, i) + {Key(Prefix(e), "Expanded")};
      EnabledNotFolded(list, i, Prefix(e));
      KeptOutside(toggled, prefs.entries, keys, enabledKey);
      OtherTogglesKept(list, i, old(prefs.entries), enabled != toggleClicked, prefs.entries);
      Common.SubtractMore(prefs.entries, toggled, keys, RowKeys(list, i));
      UpdateInside(old(prefs.entries), enabledKey, BoolPref(enabled != toggleClicked), RowKeys(list, i));
      ghost var ownExpanded := Key(Prefix(e), "Expanded");
      if !(foldClicked && !expanded) {
        assert prefs.entries[ownExpanded] == BoolPref(expanded != foldClicked);
      }
      if expanded {
        calls := calls + [DrawPreferences(i)];
        Associative(old(calls), toggleCalls, [DrawPreferences(i)]);
      } else {
        assert toggleCalls + [] == toggleCalls;
      }
    }

    /** `DrawPreferences`: every row in list order; `toggles` and `folds`
        are the rows whose toggle and foldout the user clicked. Only clicked
        toggles call into enhancements' `OnEnable` and `OnDisable`, and at
        most one enhancement stays unfolded. */
    method DrawAll(toggles: set<nat>, folds: set<nat>, prefs: PrefStore)
      modifies this`calls, prefs
      ensures |calls| >= |old(calls)| && calls[..|old(calls)|] == old(calls)
      ensures forall k | |old(calls)| <= k < |calls| :: calls[k].OnEnable? || calls[k].OnDisable? ==> calls[k].i in toggles
      ensures AtMostOneExpanded(list, old(prefs.entries)) ==> AtMostOneExpanded(list, prefs.entries)
      ensures AnnouncedUpTo(calls, |old(calls)|, toggles, |list|)
      ensures DistinctPrefixes(list) ==> TogglesUpTo(list, prefs.entries, old(prefs.entries), toggles, |list|)
      ensures prefs.entries - PrefKeys(list) == old(prefs.entries) - PrefKeys(list)
    {
      var i := 0;
      while i < |list|
        invariant 0 <= i <= |list|
        invariant CallsAfter(calls, old(calls), toggles)
        invariant AtMostOneExpanded(list, old(prefs.entries)) ==> AtMostOneExpanded(list, prefs.entries)
        invariant AnnouncedUpTo(calls, |old(calls)|, toggles, i)
        invariant DistinctPrefixes(list) ==> TogglesUpTo(list, prefs.entries, old(prefs.entries), toggles, i)
        invariant prefs.entries - PrefKeys(list) == old(prefs.entries) - PrefKeys(list)
      {
        ghost var before := calls;
        ghost var entries := prefs.entries;
        var enabled, expanded := DrawRow(i, i in toggles, i in folds, prefs);
        ghost var row := RowCalls(i, enabled, i in toggles, expanded);
        ExtendCalls(before, old(calls), toggles, row);
        AnnouncedStep(before, |old(calls)|, toggles, i, row);
        if DistinctPrefixes(list) {
          TogglesStep(list, old(prefs.entries), entries, prefs.entries, toggles, i);
        }
        RowKeysInside(list, i);
        Common.SubtractMore(prefs.entries, entries, RowKeys(list, i), PrefKeys(list));
        i := i + 1;
      }
    }
  }

  /** After an expansion every other enhancement is folded, so at most one
      (prefix) is unfolded. */
  lemma ExpandedAlone(list: seq<TypeDecl>, i: nat, m: PrefMap)
    requires i < |list|
    requires forall k | k in OtherExpandedKeys(list, i) :: !GetBool(m, k, false)
    ensures AtMostOneExpanded(list, m)
  {
    forall a, b | 0 <= a < |list| && 0 <= b < |list| &&
      GetPrefBool(m, list[a], "Expanded", false) && GetPrefBool(m, list[b], "Expanded", false)
      ensures Prefix(list[a]) == Prefix(list[b])
    {
    }
  }

  /** Writing an "Enabled" key leaves every foldout as it was. */
  lemma EnabledWriteKeepsFolds(list: seq<TypeDecl>, m: PrefMap, p: string, v: bool)
    ensures forall j | 0 <= j < |list| ::
      GetPrefBool(m[Key(p, "Enabled") := BoolPref(v)], list[j], "Expanded", false) == GetPrefBool(m, list[j], "Expanded", false)
    ensures AtMostOneExpanded(list, m) <==> AtMostOneExpanded(list, m[Key(p, "Enabled") := BoolPref(v)])
  {
    forall j | 0 <= j < |list|
      ensures GetPrefBool(m[Key(p, "Enabled") := BoolPref(v)], list[j], "Expanded", false) == GetPrefBool(m, list[j], "Expanded", false)
    {
      EnabledNotExpanded(p, Prefix(list[j]));
    }
  }

  /** Folding one enhancement (writing false to its key) keeps at most one
      unfolded. */
  lemma FoldingKeepsAtMostOne(list: seq<TypeDecl>, i: nat, m: PrefMap)
    requires i < |list|
    ensures AtMostOneExpanded(list, m) ==>
      AtMostOneExpanded(list, m[Key(Prefix(list[i]), "Expanded") := BoolPref(false)])
  {
  }

  /** Writing back the value an "Expanded" key already reads as keeps at most
      one unfolded. */
  lemma UnchangedExpansion(list: seq<TypeDecl>, i: nat, m: PrefMap, expanded: bool)
    requires i < |list| && GetPrefBool(m, list[i], "Expanded", false) == expanded
    ensures AtMostOneExpanded(list, m) ==>
      AtMostOneExpanded(list, m[Key(Prefix(list[i]), "Expanded") := BoolPref(expanded)])
  {
  }
}
