/** `Tenebrous.EditorEnhancements.Common`: long string preferences stored in
    1000-character pieces, and the project path strings derived from the
    editor's data path. */
module Common {
  import opened Wrappers
  import Text
  import opened EditorPrefs

  /** The largest piece `SetLongPref` stores under one key. */
  const ChunkLength: nat := 1000

  /** The key of piece `index` of the long preference `name`: C# `name + index`. */
  function ChunkKey(name: string, index: nat): string {
    name + Text.NatToString(index)
  }

  /** Distinct pieces of one preference live under distinct keys. */
  lemma ChunkKeyInjective(name: string, i: nat, j: nat)
    ensures ChunkKey(name, i) == ChunkKey(name, j) ==> i == j
  {
    if ChunkKey(name, i) == ChunkKey(name, j) {
      assert Text.NatToString(i) == ChunkKey(name, i)[|name|..];
      assert Text.NatToString(j) == ChunkKey(name, j)[|name|..];
      Text.NatToStringInjective(i, j);
    }
  }

  /** The keys of pieces `0 .. n-1`. */
  function ChunkKeys(name: string, n: nat): set<string> {
    set j | 0 <= j < n :: ChunkKey(name, j)
  }

  lemma NotAChunkKeyBelow(name: string, n: nat, j: nat)
    requires n <= j
    ensures ChunkKey(name, j) !in ChunkKeys(name, n)
  {
    forall i | 0 <= i < n
      ensures ChunkKey(name, i) != ChunkKey(name, j)
    {
      ChunkKeyInjective(name, i, j);
    }
  }

  /** The pieces `SetLongPref` cuts `value` into; put together they give
      `value` back. */
  function Chunks(value: string): (chunks: seq<string>)
    ensures |chunks| >= 1
    ensures Text.Concat(chunks) == value
    decreases |value|
  {
    if |value| > ChunkLength then
      var rest := Chunks(value[ChunkLength..]);
      assert ([value[..ChunkLength]] + rest)[1..] == rest;
      [value[..ChunkLength]] + rest
    else
      [value]
  }

  /** Every piece but the last is exactly 1000 characters long, the last at
      most 1000; the empty value is one empty piece; there are as many pieces
      as 1000-character blocks are needed to hold the value. */
  lemma {:induction false} ChunkSizes(value: string)
    ensures var chunks := Chunks(value);
      && (forall i :: 0 <= i < |chunks| - 1 ==> |chunks[i]| == ChunkLength)
      && |chunks[|chunks| - 1]| <= ChunkLength
      && (value == "" ==> chunks == [""])
      && |chunks| == if value == "" then 1 else (|value| + ChunkLength - 1) / ChunkLength
    decreases |value|
  {
    if |value| > ChunkLength {
      ChunkSizes(value[ChunkLength..]);
    }
  }

  /** What `GetLongPref(name)` reads from index `i` on: the strings under
      `name+i`, `name+(i+1)`, ... up to the first absent key, in order. */
  function ReadChunks(m: PrefMap, name: string, i: nat): string
    decreases |m|
  {
    var key := ChunkKey(name, i);
    if key in m then
      assert |m - {key}| < |m| by {
        assert (m - {key}).Keys == m.Keys - {key};
      }
      GetString(m, key) + ReadChunks(m - {key}, name, i + 1)
    else
      ""
  }

  /** The first index at or after `i` whose key is absent; `SetLongPref`
      deletes the stale pieces before it. */
  function FirstAbsent(m: PrefMap, name: string, i: nat): (end: nat)
    ensures i <= end
    ensures ChunkKey(name, end) !in m
    ensures forall j :: i <= j < end ==> ChunkKey(name, j) in m
    decreases |m|
  {
    var key := ChunkKey(name, i);
    if key in m then
      assert |m - {key}| < |m| by {
        assert (m - {key}).Keys == m.Keys - {key};
      }
      var end := FirstAbsent(m - {key}, name, i + 1);
      ChunkKeyInjective(name, i, end);
      end
    else
      i
  }

  /** `m1` and `m2` hold the same pieces of `name` from index `i` on. */
  ghost predicate AgreeFrom(m1: PrefMap, m2: PrefMap, name: string, i: nat) {
    forall j: nat {:trigger ChunkKey(name, j)} :: i <= j ==>
      && (ChunkKey(name, j) in m1 <==> ChunkKey(name, j) in m2)
      && (ChunkKey(name, j) in m1 ==> m1[ChunkKey(name, j)] == m2[ChunkKey(name, j)])
  }

  /** Keys written below `i` do not move the first absent index after `i`. */
  lemma {:induction false} FirstAbsentAgree(m1: PrefMap, m2: PrefMap, name: string, i: nat)
    requires AgreeFrom(m1, m2, name, i)
    ensures FirstAbsent(m1, name, i) == FirstAbsent(m2, name, i)
    decreases |m1|
  {
    var key := ChunkKey(name, i);
    if key in m1 {
      assert key in m2;
      assert |m1 - {key}| < |m1| by {
        assert (m1 - {key}).Keys == m1.Keys - {key};
      }
      forall j: nat | i + 1 <= j
        ensures ChunkKey(name, j) != key
      {
        ChunkKeyInjective(name, i, j);
      }
      FirstAbsentAgree(m1 - {key}, m2 - {key}, name, i + 1);
    }
  }

  /** Pieces laid out under consecutive keys, followed by an absent key, read
      back as their concatenation. */
  lemma {:induction false} ReadLaidOut(m: PrefMap, name: string, chunks: seq<string>, i: nat)
    requires i <= |chunks|
    requires forall j :: i <= j < |chunks| ==>
      ChunkKey(name, j) in m && m[ChunkKey(name, j)] == StringPref(chunks[j])
    requires ChunkKey(name, |chunks|) !in m
    ensures ReadChunks(m, name, i) == Text.Concat(chunks[i..])
    decreases |chunks| - i
  {
    if i < |chunks| {
      var key := ChunkKey(name, i);
      forall j | i + 1 <= j <= |chunks|
        ensures ChunkKey(name, j) != key
      {
        ChunkKeyInjective(name, i, j);
      }
      ReadLaidOut(m - {key}, name, chunks, i + 1);
      assert chunks[i..][1..] == chunks[i + 1..];
    } else {
      assert chunks[i..] == [];
    }
  }

  /** `GetLongPref(pName)`: reads the pieces from index 0 until a key is
      missing; "" when `name+"0"` is absent. */
  method GetLongPref(prefs: PrefStore, name: string) returns (result: string)
    ensures result == ReadChunks(prefs.entries, name, 0)
    ensures !prefs.HasKey(ChunkKey(name, 0)) ==> result == ""
  {
    result := "";
    var index: nat := 0;
    ghost var rest := prefs.entries;
    while prefs.HasKey(ChunkKey(name, index))
      invariant AgreeFrom(rest, prefs.entries, name, index)
      invariant result + ReadChunks(rest, name, index) == ReadChunks(prefs.entries, name, 0)
      decreases |rest|
    {
      var key := ChunkKey(name, index);
      ReadStep(rest, prefs.entries, name, index);
      result := result + GetString(prefs.entries, key);
      rest := rest - {key};
      index := index + 1;
    }
  }

  /** One step of `GetLongPref`: the piece at `index` is read and its key
      dropped from what is left to read. */
  lemma ReadStep(rest: PrefMap, m: PrefMap, name: string, index: nat)
    requires AgreeFrom(rest, m, name, index) && ChunkKey(name, index) in m
    ensures var key := ChunkKey(name, index);
      && key in rest && |rest - {key}| < |rest|
      && AgreeFrom(rest - {key}, m, name, index + 1)
      && ReadChunks(rest, name, index) == GetString(m, key) + ReadChunks(rest - {key}, name, index + 1)
  {
    var key := ChunkKey(name, index);
    assert key in rest;
    assert |rest - {key}| < |rest| by {
      assert (rest - {key}).Keys == rest.Keys - {key};
    }
    forall j: nat | index + 1 <= j
      ensures ChunkKey(name, j) != key
    {
      ChunkKeyInjective(name, index, j);
    }
  }

  /** `SetLongPref(pName, pValue)`: piece `j` of `value` goes to `name+j`;
      then the stale pieces of an older, longer value are deleted, from the
      first index not written up to the first index already absent. No other
      key changes, and `GetLongPref(name)` afterwards reads `value` back. */
  method SetLongPref(prefs: PrefStore, name: string, value: string)
    modifies prefs
    ensures forall j :: 0 <= j < |Chunks(value)| ==>
      ChunkKey(name, j) in prefs.entries && prefs.entries[ChunkKey(name, j)] == StringPref(Chunks(value)[j])
    ensures var end := FirstAbsent(old(prefs.entries), name, |Chunks(value)|);
      forall j :: |Chunks(value)| <= j <= end ==> ChunkKey(name, j) !in prefs.entries
    ensures var end := FirstAbsent(old(prefs.entries), name, |Chunks(value)|);
      prefs.entries - ChunkKeys(name, end) == old(prefs.entries) - ChunkKeys(name, end)
    ensures ReadChunks(prefs.entries, name, 0) == value
  {
    ghost var before := prefs.entries;
    var count := WritePieces(prefs, name, value);
    ghost var written := prefs.entries;
    AgreeOutsideChunks(written, before, name, count);
    FirstAbsentAgree(written, before, name, count);
    DeleteStalePieces(prefs, name, count, Chunks(value));
    ghost var end := FirstAbsent(before, name, count);
    assert ChunkKeys(name, count) <= ChunkKeys(name, end);
    SubtractMore(written, before, ChunkKeys(name, count), ChunkKeys(name, end));
    ReadLaidOut(prefs.entries, name, Chunks(value), 0);
  }

  /** Maps equal outside the first `n` piece keys hold the same pieces from
      index `n` on. */
  lemma AgreeOutsideChunks(m1: PrefMap, m2: PrefMap, name: string, n: nat)
    requires m1 - ChunkKeys(name, n) == m2 - ChunkKeys(name, n)
    ensures AgreeFrom(m1, m2, name, n)
  {
    forall j: nat | n <= j
      ensures && (ChunkKey(name, j) in m1 <==> ChunkKey(name, j) in m2)
              && (ChunkKey(name, j) in m1 ==> m1[ChunkKey(name, j)] == m2[ChunkKey(name, j)])
    {
      var key := ChunkKey(name, j);
      NotAChunkKeyBelow(name, n, j);
      assert key in m1 <==> key in m1 - ChunkKeys(name, n);
      assert key in m2 <==> key in m2 - ChunkKeys(name, n);
      if key in m1 {
        assert m1[key] == (m1 - ChunkKeys(name, n))[key];
        assert m2[key] == (m2 - ChunkKeys(name, n))[key];
      }
    }
  }

  /** Maps equal outside `small` are equal outside any `large` containing it. */
  lemma SubtractMore(m1: PrefMap, m2: PrefMap, small: set<string>, large: set<string>)
    requires m1 - small == m2 - small && small <= large
    ensures m1 - large == m2 - large
  {
    forall k | k !in large
      ensures (k in m1 <==> k in m2) && (k in m1 ==> m1[k] == m2[k])
    {
      assert k !in small;
      assert k in m1 <==> k in m1 - small;
      assert k in m2 <==> k in m2 - small;
      if k in m1 {
        assert m1[k] == (m1 - small)[k];
        assert m2[k] == (m2 - small)[k];
      }
    }
  }

  /** The first loop of `SetLongPref`: every piece of `value` written to its
      key; returns the number of pieces. */
  method WritePieces(prefs: PrefStore, name: string, value: string) returns (count: nat)
    modifies prefs
    ensures count == |Chunks(value)|
    ensures forall j :: 0 <= j < count ==>
      ChunkKey(name, j) in prefs.entries && prefs.entries[ChunkKey(name, j)] == StringPref(Chunks(value)[j])
    ensures prefs.entries - ChunkKeys(name, count) == old(prefs.entries) - ChunkKeys(name, count)
  {
    ghost var chunks := Chunks(value);
    var rest := value;
    var index: nat := 0;
    while |rest| > ChunkLength
      invariant index < |chunks| && Chunks(rest) == chunks[index..]
      invariant forall j :: 0 <= j < index ==>
        ChunkKey(name, j) in prefs.entries && prefs.entries[ChunkKey(name, j)] == StringPref(chunks[j])
      invariant prefs.entries - ChunkKeys(name, index) == old(prefs.entries) - ChunkKeys(name, index)
      decreases |rest|
    {
      assert chunks[index..][1..] == chunks[index + 1..];
      WriteChunk(prefs, name, index, rest[..ChunkLength], chunks);
      rest := rest[ChunkLength..];
      index := index + 1;
    }
    assert chunks[index..] == [rest];
    WriteChunk(prefs, name, index, rest, chunks);
    count := index + 1;
  }

  /** The second loop of `SetLongPref`: deletes `name+from`, `name+(from+1)`,
      ... up to the first absent key; the pieces below `from` stay. */
  method DeleteStalePieces(prefs: PrefStore, name: string, from: nat, ghost chunks: seq<string>)
    requires |chunks| == from
    requires forall j :: 0 <= j < from ==>
      ChunkKey(name, j) in prefs.entries && prefs.entries[ChunkKey(name, j)] == StringPref(chunks[j])
    modifies prefs
    ensures forall j :: 0 <= j < from ==>
      ChunkKey(name, j) in prefs.entries && prefs.entries[ChunkKey(name, j)] == StringPref(chunks[j])
    ensures var end := FirstAbsent(old(prefs.entries), name, from);
      && (forall j :: from <= j <= end ==> ChunkKey(name, j) !in prefs.entries)
      && prefs.entries - ChunkKeys(name, end) == old(prefs.entries) - ChunkKeys(name, end)
  {
    ghost var end := FirstAbsent(prefs.entries, name, from);
    var index := from;
    while prefs.HasKey(ChunkKey(name, index))
      invariant from <= index <= end
      invariant FirstAbsent(prefs.entries, name, index) == end
      invariant forall j :: 0 <= j < from ==>
        ChunkKey(name, j) in prefs.entries && prefs.entries[ChunkKey(name, j)] == StringPref(chunks[j])
      invariant forall j :: from <= j < index ==> ChunkKey(name, j) !in prefs.entries
      invariant prefs.entries - ChunkKeys(name, end) == old(prefs.entries) - ChunkKeys(name, end)
      decreases |prefs.entries|
    {
      var key := ChunkKey(name, index);
      assert |prefs.entries - {key}| < |prefs.entries| by {
        assert (prefs.entries - {key}).Keys == prefs.entries.Keys - {key};
      }
      assert key in ChunkKeys(name, end);
      forall j | 0 <= j < from
        ensures ChunkKey(name, j) != key
      {
        ChunkKeyInjective(name, j, index);
      }
      prefs.DeleteKey(key);
      index := index + 1;
    }
  }

  /** One write of the first loop of `SetLongPref`: piece `index` goes to its
      key, and the keys of later pieces and of other preferences stay as
      they were. */
  method WriteChunk(prefs: PrefStore, name: string, index: nat, piece: string, ghost chunks: seq<string>)
    requires index < |chunks| && chunks[index] == piece
    requires forall j :: 0 <= j < index ==>
      ChunkKey(name, j) in prefs.entries && prefs.entries[ChunkKey(name, j)] == StringPref(chunks[j])
    modifies prefs
    ensures forall j :: 0 <= j <= index ==>
      ChunkKey(name, j) in prefs.entries && prefs.entries[ChunkKey(name, j)] == StringPref(chunks[j])
    ensures prefs.entries - ChunkKeys(name, index + 1) == old(prefs.entries) - ChunkKeys(name, index)
      - {ChunkKey(name, index)}
  {
    var key := ChunkKey(name, index);
    forall j | 0 <= j < index
      ensures ChunkKey(name, j) != key
    {
      ChunkKeyInjective(name, j, index);
    }
    assert ChunkKeys(name, index + 1) == ChunkKeys(name, index) + {key};
    prefs.SetString(key, piece);
  }

  /** `Path.DirectorySeparatorChar` and `Path.AltDirectorySeparatorChar` of the
      platform the editor runs on. */
  datatype Platform = Platform(separator: char, altSeparator: char)

  /** `dataPath.Replace(AltDirectorySeparatorChar, DirectorySeparatorChar)`. */
  function Normalized(dataPath: string, platform: Platform): (r: string)
    ensures |r| == |dataPath|
    ensures platform.separator != platform.altSeparator ==> platform.altSeparator !in r
    ensures forall i :: 0 <= i < |r| && dataPath[i] != platform.altSeparator ==> r[i] == dataPath[i]
  {
    seq(|dataPath|, i requires 0 <= i < |dataPath| =>
      if dataPath[i] == platform.altSeparator then platform.separator else dataPath[i])
  }

  /** The `ProjectPath` getter on a base path: the base path without its last
      seven characters ("/Assets"); `Substring` throws on a shorter one. */
  function ProjectPathOf(basePath: string): (r: Outcome<string>)
    ensures r.Done? <==> |basePath| >= 7
    ensures r.Done? ==> |r.value| == |basePath| - 7 && Text.StartsWith(basePath, r.value)
  {
    if |basePath| < 7 then Thrown(ArgumentOutOfRange) else Done(basePath[..|basePath| - 7])
  }

  /** The project folder is the data folder's parent when the data folder is
      named "Assets". */
  lemma ProjectPathOfAssetsFolder(project: string, platform: Platform)
    ensures ProjectPathOf(project + [platform.separator] + "Assets") == Done(project)
  {
    var base := project + [platform.separator] + "Assets";
    assert base[..|base| - 7] == project;
  }

  /** The `TempRecompilationList` getter on a project path. */
  function TempRecompilationListOf(projectPath: string, platform: Platform): (r: string)
    ensures Text.StartsWith(r, projectPath)
    ensures Text.EndsWith(r, [platform.separator] + "tene_recompile.txt")
    ensures |r| == |projectPath| + 24
    ensures r[|projectPath|..] == [platform.separator] + "Temp" + [platform.separator] + "tene_recompile.txt"
  {
    var tail := [platform.separator] + "Temp" + [platform.separator] + "tene_recompile.txt";
    assert (projectPath + tail)[..|projectPath|] == projectPath;
    assert (projectPath + tail)[|projectPath|..] == tail;
    assert (projectPath + tail)[|projectPath + tail| - 19..] == [platform.separator] + "tene_recompile.txt";
    projectPath + tail
  }

  /** The static state of `Common`: the memoised `_basePath`. */
  class PathCache {
    const platform: Platform
    var basePath: Option<string>

    /** A memoised base path is a normalised path. */
    ghost predicate Valid()
      reads this
    {
      basePath.Some? && platform.separator != platform.altSeparator ==>
        platform.altSeparator !in basePath.value
    }

    constructor(platform: Platform)
      ensures this.platform == platform && basePath == None && Valid()
    {
      this.platform := platform;
      basePath := None;
    }

    /** The `BasePath` getter: normalised `Application.dataPath` on the first
        call, the remembered string on every later one. */
    method BasePath(dataPath: string) returns (r: string)
      requires Valid()
      modifies this`basePath
      ensures Valid()
      ensures old(basePath).Some? ==> r == old(basePath).value && basePath == old(basePath)
      ensures old(basePath).None? ==> r == Normalized(dataPath, platform) && basePath == Some(r)
      ensures platform.separator != platform.altSeparator ==> platform.altSeparator !in r
    {
      if basePath.None? {
        basePath := Some(Normalized(dataPath, platform));
      }
      r := basePath.value;
    }

    /** The `ProjectPath` getter. */
    method ProjectPath(dataPath: string) returns (r: Outcome<string>)
      requires Valid()
      modifies this`basePath
      ensures Valid() && basePath.Some?
      ensures old(basePath).Some? ==> basePath == old(basePath)
      ensures old(basePath).None? ==> basePath == Some(Normalized(dataPath, platform))
      ensures r == ProjectPathOf(basePath.value)
    {
      var b := BasePath(dataPath);
      r := ProjectPathOf(b);
    }

    /** The `TempRecompilationList` getter. */
    method TempRecompilationList(dataPath: string) returns (r: Outcome<string>)
      requires Valid()
      modifies this`basePath
      ensures Valid() && basePath.Some?
      ensures old(basePath).Some? ==> basePath == old(basePath)
      ensures old(basePath).None? ==> basePath == Some(Normalized(dataPath, platform))
      ensures ProjectPathOf(basePath.value).Thrown? ==> r == ProjectPathOf(basePath.value)
      ensures ProjectPathOf(basePath.value).Done? ==>
        r == Done(TempRecompilationListOf(ProjectPathOf(basePath.value).value, platform))
    {
      var p := ProjectPath(dataPath);
      if p.Thrown? {
        r := p;
      } else {
        r := Done(TempRecompilationListOf(p.value, platform));
      }
    }
  }
}
