/** The Unity `EditorPrefs` store, as the editor add-ons use it: a persistent
    dictionary from string keys to string, int or bool values. A getter whose
    key is absent, or holds a value of another type, returns its default. */
module EditorPrefs {

  datatype PrefValue = StringPref(s: string) | IntPref(i: int) | BoolPref(b: bool)

  type PrefMap = map<string, PrefValue>

  /** `EditorPrefs.GetString(key)`: "" when there is no string under `key`. */
  function GetString(m: PrefMap, key: string): string {
    if key in m && m[key].StringPref? then m[key].s else ""
  }

  /** `EditorPrefs.GetBool(key, default)`. */
  function GetBool(m: PrefMap, key: string, default: bool): bool {
    if key in m && m[key].BoolPref? then m[key].b else default
  }

  /** `EditorPrefs.GetInt(key, default)`. */
  function GetInt(m: PrefMap, key: string, default: int): int {
    if key in m && m[key].IntPref? then m[key].i else default
  }

  /** The store, updated in place by the setters. */
  class PrefStore {
    var entries: PrefMap

    constructor(initial: PrefMap)
      ensures entries == initial
    {
      entries := initial;
    }

    /** `EditorPrefs.HasKey(key)`. */
    predicate HasKey(key: string)
      reads this
    {
      key in entries
    }

    /** `EditorPrefs.SetString(key, value)`. */
    method SetString(key: string, value: string)
      modifies this
      ensures entries == old(entries)[key := StringPref(value)]
      ensures GetString(entries, key) == value
    {
      entries := entries[key := StringPref(value)];
    }

    /** `EditorPrefs.SetBool(key, value)`. */
    method SetBool(key: string, value: bool)
      modifies this
      ensures entries == old(entries)[key := BoolPref(value)]
      ensures forall default :: GetBool(entries, key, default) == value
    {
      entries := entries[key := BoolPref(value)];
    }

    /** `EditorPrefs.SetInt(key, value)`. */
    method SetInt(key: string, value: int)
      modifies this
      ensures entries == old(entries)[key := IntPref(value)]
      ensures forall default :: GetInt(entries, key, default) == value
    {
      entries := entries[key := IntPref(value)];
    }

    /** `EditorPrefs.DeleteKey(key)`. */
    method DeleteKey(key: string)
      modifies this
      ensures entries == old(entries) - {key}
      ensures !HasKey(key)
    {
      entries := entries - {key};
    }
  }
}
