/** `Tenebrous.EditorEnhancements.AssetInfo`: the one-line descriptions the
    project pane shows as tooltips, built from an object's kind, and the
    "any renderer below this game object" test. */
module AssetInfo {
  import opened Wrappers
  import Text
  import opened UnityObjects

  const EngineNamespace: string := "UnityEngine."

  /** A full type name with every "UnityEngine." removed, as
      `ToString().Replace("UnityEngine.", "")` leaves it. */
  function TypeDisplayName(fullName: string): (r: string)
    ensures |r| <= |fullName|
  {
    Text.RemoveAll(fullName, EngineNamespace)
  }

  /** An engine type is shown by its short name; a name outside the engine
      namespace is shown as it is. */
  lemma TypeDisplayNameOfEngineType(shortName: string)
    requires !Text.Contains(shortName, EngineNamespace)
    ensures TypeDisplayName(EngineNamespace + shortName) == shortName
    ensures TypeDisplayName(shortName) == shortName
  {
    Text.RemoveAllLeading(EngineNamespace, shortName);
    Text.RemoveAllWithoutMatch(shortName, EngineNamespace);
  }

  /** The type-name suffix rule: no type name leaves the text as it is; with
      an empty text the type name is the whole text; otherwise it follows in
      parentheses. */
  function WithTypeSuffix(info: string, typeName: string): (r: string)
    ensures typeName == "" ==> r == info
    ensures Text.StartsWith(r, info)
    ensures typeName != "" && info == "" ==> r == typeName
    ensures typeName != "" && info != "" ==>
      Text.EndsWith(r, " (" + typeName + ")") && |r| == |info| + |typeName| + 3
  {
    if typeName == "" then info
    else if info == "" then typeName
    else info + " (" + typeName + ")"
  }

  /** `GetPreviewInfo(this object)`: the text of the first matching overload
      in the order AudioClip, Texture2D, Material, Mesh, MeshFilter,
      MeshRenderer, GameObject, MonoScript, Shader, MonoBehaviour, Behaviour,
      followed by the type-name suffix. A MonoScript has no suffix; a
      MonoBehaviour is suffixed with its base type. A null object throws. */
  function PreviewInfo(o: Option<UObject>): (r: Outcome<string>)
    ensures o.None? ==> r == Thrown(NullReference)
    ensures r.Thrown? ==> r.error == NullReference
    ensures r.Thrown? <==> o.None? || (o.value.kind.AudioSourceKind? && o.value.kind.clip.None?)
  {
    match o
    case None => Thrown(NullReference)
    case Some(obj) =>
      var typeName := TypeDisplayName(obj.typeName);
      var k := obj.kind;
      if k.AudioClipKind? then Done(WithTypeSuffix(AudioClipInfo(k.lengthMs, k.channels), typeName))
      else if k.Texture2DKind? then Done(WithTypeSuffix(Texture2DInfo(k.format, k.width, k.height), typeName))
      else if k.MaterialKind? then Done(WithTypeSuffix(MaterialInfo(k.shaderName, k.dependencies), typeName))
      else if k.MeshKind? then Done(WithTypeSuffix(MeshInfo(obj.name, k.vertexCount, k.triangleIndices), typeName))
      else if k.MeshFilterKind? then Done(WithTypeSuffix(MeshFilterInfo(k.sharedMesh), typeName))
      else if k.MeshRendererKind? then Done(WithTypeSuffix("", typeName))
      else if k.GameObjectKind? then Done(WithTypeSuffix(GameObjectInfo(k.gameObject), typeName))
      else if k.MonoScriptKind? then Done(WithTypeSuffix(MonoScriptInfo(k.scriptClass), ""))
      else if k.ShaderKind? then Done(WithTypeSuffix(Text.IntToString(k.renderQueue), typeName))
      else if k.MonoBehaviourKind? then Done(WithTypeSuffix(k.scriptName, TypeDisplayName(k.baseTypeName)))
      else if IsBehaviour(k) then
        match BehaviourInfo(k)
        case Thrown(e) => Thrown(e)
        case Done(info) => Done(WithTypeSuffix(info, typeName))
      else Done(WithTypeSuffix("", typeName))
  }

  /** A MonoScript's text carries no type name. */
  lemma MonoScriptHasNoSuffix(o: UObject)
    requires o.kind.MonoScriptKind?
    ensures PreviewInfo(Some(o)) == Done(MonoScriptInfo(o.kind.scriptClass))
  {
  }

  /** A MonoBehaviour is caught by its own overload before the Behaviour one,
      although it is a Behaviour: its text is its script's name, suffixed with
      the name of the class it derives from, not its own type name. */
  lemma MonoBehaviourBeforeBehaviour(o: UObject)
    requires o.kind.MonoBehaviourKind?
    ensures IsBehaviour(o.kind)
    ensures PreviewInfo(Some(o)) ==
      Done(WithTypeSuffix(o.kind.scriptName, TypeDisplayName(o.kind.baseTypeName)))
  {
  }

  /** Every other object that does not throw gets its own type name as the
      suffix. */
  lemma OwnTypeNameSuffix(o: UObject)
    requires !o.kind.MonoScriptKind? && !o.kind.MonoBehaviourKind?
    requires PreviewInfo(Some(o)).Done?
    ensures exists info :: PreviewInfo(Some(o)) == Done(WithTypeSuffix(info, TypeDisplayName(o.typeName)))
  {
    var k := o.kind;
    var t := TypeDisplayName(o.typeName);
    if k.AudioClipKind? { assert PreviewInfo(Some(o)) == Done(WithTypeSuffix(AudioClipInfo(k.lengthMs, k.channels), t)); }
    else if k.Texture2DKind? { assert PreviewInfo(Some(o)) == Done(WithTypeSuffix(Texture2DInfo(k.format, k.width, k.height), t)); }
    else if k.MaterialKind? { assert PreviewInfo(Some(o)) == Done(WithTypeSuffix(MaterialInfo(k.shaderName, k.dependencies), t)); }
    else if k.MeshKind? { assert PreviewInfo(Some(o)) == Done(WithTypeSuffix(MeshInfo(o.name, k.vertexCount, k.triangleIndices), t)); }
    else if k.MeshFilterKind? { assert PreviewInfo(Some(o)) == Done(WithTypeSuffix(MeshFilterInfo(k.sharedMesh), t)); }
    else if k.GameObjectKind? { assert PreviewInfo(Some(o)) == Done(WithTypeSuffix(GameObjectInfo(k.gameObject), t)); }
    else if k.ShaderKind? { assert PreviewInfo(Some(o)) == Done(WithTypeSuffix(Text.IntToString(k.renderQueue), t)); }
    else if IsBehaviour(k) { assert PreviewInfo(Some(o)) == Done(WithTypeSuffix(BehaviourInfo(k).value, t)); }
    else { assert PreviewInfo(Some(o)) == Done(WithTypeSuffix("", t)); }
  }

  /** The `Hours`, `Minutes`, `Seconds` and `Milliseconds` components of a
      `TimeSpan` of `ms` milliseconds; `Hours` drops whole days (86400000
      ms). */
  function Hours(ms: nat): nat { (ms / 3600000) % 24 }
  function Minutes(ms: nat): nat { (ms / 60000) % 60 }
  function Seconds(ms: nat): nat { (ms / 1000) % 60 }
  function Milliseconds(ms: nat): nat { ms % 1000 }

  /** A clip length as `[H:]mm:ss.fff`: the hours and their ':' only when
      the hours component is positive. */
  function DurationText(ms: nat): (r: string)
    ensures |r| >= 9
    ensures Hours(ms) == 0 <==> |r| == 9
    ensures r[|r| - 7] == ':' && r[|r| - 4] == '.'
    ensures Hours(ms) > 0 ==> r[|r| - 10] == ':' && r[..|r| - 10] == Text.NatToString(Hours(ms))
  {
    Text.ZeroPaddedValue(Minutes(ms), 2);
    Text.ZeroPaddedValue(Seconds(ms), 2);
    Text.ZeroPaddedValue(Milliseconds(ms), 3);
    (if Hours(ms) > 0 then Text.NatToString(Hours(ms)) + ":" else "")
    + Text.ZeroPadded(Minutes(ms), 2) + ":" + Text.ZeroPadded(Seconds(ms), 2)
    + "." + Text.ZeroPadded(Milliseconds(ms), 3)
  }

  /** Reads a `[H:]mm:ss.fff` text back as milliseconds. */
  function ReadDuration(t: string): nat
    requires |t| >= 9
  {
    var n := |t|;
    (if n > 9 then Text.DecimalValue(t[..n - 10]) * 3600000 else 0)
    + Text.DecimalValue(t[n - 9..n - 7]) * 60000
    + Text.DecimalValue(t[n - 6..n - 4]) * 1000
    + Text.DecimalValue(t[n - 3..])
  }

  /** The duration text gives the clip length back, less whole days: the
      format shows hours, minutes, seconds and milliseconds and nothing
      longer. */
  lemma DurationTextRoundTrip(ms: nat)
    ensures ReadDuration(DurationText(ms)) == ms % 86400000
  {
    var h, m, s, f := Hours(ms), Minutes(ms), Seconds(ms), Milliseconds(ms);
    Text.ZeroPaddedValue(m, 2);
    Text.ZeroPaddedValue(s, 2);
    Text.ZeroPaddedValue(f, 3);
    Text.NatToStringValue(h);
    var head := if h > 0 then Text.NatToString(h) + ":" else "";
    if h > 0 {
      assert head[..|head| - 1] == Text.NatToString(h);
    }
    ReadFields(head, Text.ZeroPadded(m, 2), Text.ZeroPadded(s, 2), Text.ZeroPadded(f, 3));
    DayDecomposition(ms);
  }

  /** `ReadDuration` takes each field from its place in the text. */
  lemma ReadFields(head: string, mm: string, ss: string, fff: string)
    requires |mm| == 2 && |ss| == 2 && |fff| == 3
    requires head != [] ==> |head| >= 2
    ensures var t := head + mm + ":" + ss + "." + fff;
      ReadDuration(t) ==
        (if head != [] then Text.DecimalValue(head[..|head| - 1]) * 3600000 else 0)
        + Text.DecimalValue(mm) * 60000 + Text.DecimalValue(ss) * 1000 + Text.DecimalValue(fff)
  {
    var t := head + mm + ":" + ss + "." + fff;
    var n := |t|;
    assert t[n - 9..n - 7] == mm;
    assert t[n - 6..n - 4] == ss;
    assert t[n - 3..] == fff;
    if head != [] {
      assert t[..n - 10] == head[..|head| - 1];
    }
  }

  /** The time-of-day components add up to the length less whole days. */
  lemma DayDecomposition(ms: nat)
    ensures Hours(ms) * 3600000 + Minutes(ms) * 60000 + Seconds(ms) * 1000
      + Milliseconds(ms) == ms % 86400000
  {
    var days, r := ms / 86400000, ms % 86400000;
    var h, rh := r / 3600000, r % 3600000;
    var m, rm := rh / 60000, rh % 60000;
    var s, f := rm / 1000, rm % 1000;
    assert ms == days * 86400000 + h * 3600000 + m * 60000 + s * 1000 + f;
    assert ms / 3600000 == days * 24 + h;
    assert ms / 60000 == (days * 24 + h) * 60 + m;
    assert ms / 1000 == ((days * 24 + h) * 60 + m) * 60 + s;
    assert h < 24 && m < 60 && s < 60;
    assert Hours(ms) == h;
    assert Minutes(ms) == m;
    assert Seconds(ms) == s;
    assert Milliseconds(ms) == f;
  }

  /** The channel wording: "Mono", "Stereo" or "<n> channels", each ending
      the line. */
  function ChannelText(channels: int): (r: string)
    ensures Text.EndsWith(r, "\n")
    ensures r == "Mono\n" <==> channels == 1
    ensures r == "Stereo\n" <==> channels == 2
    ensures channels != 1 && channels != 2 ==> r == Text.IntToString(channels) + " channels\n"
  {
    if channels == 1 then "Mono\n"
    else if channels == 2 then "Stereo\n"
    else Text.IntToString(channels) + " channels\n"
  }

  /** Distinct channel counts are worded differently. */
  lemma ChannelTextInjective(a: int, b: int)
    ensures ChannelText(a) == ChannelText(b) ==> a == b
  {
    if ChannelText(a) == ChannelText(b) && a != 1 && a != 2 {
      var ta, tb := Text.IntToString(a), Text.IntToString(b);
      assert ChannelText(a)[..|ta|] == ta;
      assert ChannelText(b)[..|tb|] == tb;
      Text.IntToStringInjective(a, b);
    }
  }

  /** `GetPreviewInfo(this AudioClip)`: duration, a space, channel wording. */
  function AudioClipInfo(lengthMs: nat, channels: int): (r: string)
    ensures Text.StartsWith(r, DurationText(lengthMs) + " ")
    ensures Text.EndsWith(r, ChannelText(channels))
    ensures |r| == |DurationText(lengthMs)| + 1 + |ChannelText(channels)|
  {
    var d, c := DurationText(lengthMs) + " ", ChannelText(channels);
    assert (d + c)[..|d|] == d;
    assert (d + c)[|d + c| - |c|..] == c;
    d + c
  }

  /** `GetPreviewInfo(this Texture2D)`: format, then "<width>x<height>". */
  function Texture2DInfo(format: string, width: int, height: int): (r: string)
    ensures Text.StartsWith(r, format + "\n")
    ensures r[|format| + 1..] == Text.IntToString(width) + "x" + Text.IntToString(height)
  {
    var tail := Text.IntToString(width) + "x" + Text.IntToString(height);
    assert (format + "\n" + tail)[..|format + "\n"|] == format + "\n";
    assert (format + "\n" + tail)[|format| + 1..] == tail;
    format + "\n" + tail
  }

  /** A texture's text names its format and size: equal texts come from
      equal formats, widths and heights (a format name is one line). */
  lemma Texture2DInfoInjective(f1: string, w1: int, h1: int, f2: string, w2: int, h2: int)
    requires '\n' !in f1 && '\n' !in f2
    requires Texture2DInfo(f1, w1, h1) == Texture2DInfo(f2, w2, h2)
    ensures f1 == f2 && w1 == w2 && h1 == h2
  {
    var a1, b1 := Text.IntToString(w1), Text.IntToString(h1);
    var a2, b2 := Text.IntToString(w2), Text.IntToString(h2);
    assert f1 + ['\n'] + (a1 + ['x'] + b1) == Texture2DInfo(f1, w1, h1);
    assert f2 + ['\n'] + (a2 + ['x'] + b2) == Texture2DInfo(f2, w2, h2);
    Text.SplitAtFirst(f1, '\n', a1 + ['x'] + b1, f2, a2 + ['x'] + b2);
    Text.SplitAtFirst(a1, 'x', b1, a2, b2);
    Text.IntToStringInjective(w1, w2);
    Text.IntToStringInjective(h1, h2);
  }

  /** The line a material lists for one dependency: "\n - <name>" for a
      texture, nothing otherwise. */
  function TextureLine(o: UObject): string
  {
    if IsTexture(o.kind) then "\n - " + o.name else ""
  }

  /** One "\n - <name>" line per texture among the dependencies, in order. */
  function TextureLines(dependencies: seq<UObject>): (r: string)
    ensures r == "" <==> forall i :: 0 <= i < |dependencies| ==> !IsTexture(dependencies[i].kind)
    ensures r != "" ==> Text.StartsWith(r, "\n - ")
  {
    if dependencies == [] then ""
    else
      var line, rest := TextureLine(dependencies[0]), TextureLines(dependencies[1..]);
      assert forall i :: 1 <= i < |dependencies| ==> dependencies[1..][i - 1] == dependencies[i];
      assert line != "" ==> (line + rest)[..4] == "\n - ";
      line + rest
  }

  /** The texture lines are the lines of the dependencies one after the
      other. */
  lemma {:induction false} TextureLinesAreConcat(dependencies: seq<UObject>)
    ensures TextureLines(dependencies)
      == Text.Concat(seq(|dependencies|, i requires 0 <= i < |dependencies| => TextureLine(dependencies[i])))
    decreases |dependencies|
  {
    var lines := seq(|dependencies|, i requires 0 <= i < |dependencies| => TextureLine(dependencies[i]));
    if dependencies != [] {
      var tail := dependencies[1..];
      TextureLinesAreConcat(tail);
      assert lines[1..] == seq(|tail|, i requires 0 <= i < |tail| => TextureLine(tail[i]));
    }
  }

  /** The texture lines of a split dependency list are the lines of its two
      parts. */
  lemma {:induction false} TextureLinesAppend(a: seq<UObject>, b: seq<UObject>)
    ensures TextureLines(a + b) == TextureLines(a) + TextureLines(b)
    decreases |a|
  {
    if a != [] {
      assert (a + b)[0] == a[0];
      assert (a + b)[1..] == a[1..] + b;
      TextureLinesAppend(a[1..], b);
    } else {
      assert a + b == b;
    }
  }

  /** `GetPreviewInfo(this Material)`: the shader's name, then one line per
      texture it depends on. */
  function MaterialInfo(shaderName: string, dependencies: seq<UObject>): (r: string)
    ensures Text.StartsWith(r, shaderName)
    ensures (forall i :: 0 <= i < |dependencies| ==> !IsTexture(dependencies[i].kind)) <==> r == shaderName
    ensures r[|shaderName|..] == TextureLines(dependencies)
  {
    var lines := TextureLines(dependencies);
    assert (shaderName + lines)[..|shaderName|] == shaderName;
    assert (shaderName + lines)[|shaderName|..] == lines;
    shaderName + lines
  }

  /** `GetPreviewInfo(this Mesh)`: "<v> verts <t> tris", then the name. */
  function MeshInfo(name: string, vertexCount: int, triangleIndices: int): (r: string)
    ensures Text.StartsWith(r, Text.IntToString(vertexCount) + " verts ")
    ensures Text.EndsWith(r, "\n" + name)
    ensures |r| == |Text.IntToString(vertexCount)| + 7 + |Text.IntToString(triangleIndices)| + 6 + |name|
    ensures r[|Text.IntToString(vertexCount)| + 7..|r| - |name| - 1] == Text.IntToString(triangleIndices) + " tris"
  {
    var head := Text.IntToString(vertexCount) + " verts ";
    var tail := "\n" + name;
    var r := head + Text.IntToString(triangleIndices) + " tris" + tail;
    assert r[..|head|] == head;
    assert r[|r| - |tail|..] == tail;
    assert r[|head|..|r| - |tail|] == Text.IntToString(triangleIndices) + " tris";
    r
  }

  /** A mesh's text names its vertex count, its triangle index count and
      its name: equal texts come from equal meshes. */
  lemma MeshInfoInjective(n1: string, v1: int, t1: int, n2: string, v2: int, t2: int)
    requires MeshInfo(n1, v1, t1) == MeshInfo(n2, v2, t2)
    ensures n1 == n2 && v1 == v2 && t1 == t2
  {
    var a1, b1 := Text.IntToString(v1), Text.IntToString(t1);
    var a2, b2 := Text.IntToString(v2), Text.IntToString(t2);
    MeshInfoFields(n1, v1, t1);
    MeshInfoFields(n2, v2, t2);
    var r1, r2 := "verts " + (b1 + [' '] + ("tris\n" + n1)), "verts " + (b2 + [' '] + ("tris\n" + n2));
    Text.SplitAtFirst(a1, ' ', r1, a2, r2);
    Text.IntToStringInjective(v1, v2);
    assert r1[6..] == r2[6..];
    Text.SplitAtFirst(b1, ' ', "tris\n" + n1, b2, "tris\n" + n2);
    Text.IntToStringInjective(t1, t2);
    assert n1 == ("tris\n" + n1)[5..] && n2 == ("tris\n" + n2)[5..];
  }

  /** The mesh text cut at the spaces that follow the two numbers. */
  lemma MeshInfoFields(n: string, v: int, t: int)
    ensures var r := "verts " + (Text.IntToString(t) + [' '] + ("tris\n" + n));
      MeshInfo(n, v, t) == Text.IntToString(v) + [' '] + r && r[6..] == Text.IntToString(t) + [' '] + ("tris\n" + n)
  {
    MeshTextFields(Text.IntToString(v), Text.IntToString(t), n);
  }

  /** The mesh text's layout, for any two numerals. */
  lemma MeshTextFields(a: string, b: string, n: string)
    ensures var r := "verts " + (b + [' '] + ("tris\n" + n));
      a + " verts " + b + " tris" + "\n" + n == a + [' '] + r && r[6..] == b + [' '] + ("tris\n" + n)
  {
    var rest := b + [' '] + ("tris\n" + n);
    assert b + " tris" + "\n" + n == rest;
    assert ("verts " + rest)[6..] == rest;
  }

  /** `GetPreviewInfo(this MeshFilter)`: the shared mesh's text, "" without
      one. */
  function MeshFilterInfo(sharedMesh: Option<MeshAsset>): (r: string)
    ensures sharedMesh.None? ==> r == ""
    ensures sharedMesh.Some? ==> Text.EndsWith(r, "\n" + sharedMesh.value.name)
    ensures sharedMesh.Some? ==> r == MeshInfo(sharedMesh.value.name, sharedMesh.value.vertexCount, sharedMesh.value.triangleIndices)
  {
    match sharedMesh
    case None => ""
    case Some(m) => MeshInfo(m.name, m.vertexCount, m.triangleIndices)
  }

  /** `GetPreviewInfo(this MonoScript)`: the class and its base type, or
      "(multiple classes)" when the script declares no single class. */
  function MonoScriptInfo(scriptClass: Option<ScriptClass>): (r: string)
    ensures scriptClass.None? <==> r == "(multiple classes)"
    ensures scriptClass.Some? ==> Text.StartsWith(r, scriptClass.value.className + "\n(") && Text.EndsWith(r, ")")
    ensures scriptClass.Some? ==> |r| == |scriptClass.value.className| + 3 + |TypeDisplayName(scriptClass.value.baseTypeName)|
    ensures scriptClass.Some? ==> r[|scriptClass.value.className| + 2..|r| - 1] == TypeDisplayName(scriptClass.value.baseTypeName)
  {
    match scriptClass
    case None => "(multiple classes)"
    case Some(c) =>
      var r := c.className + "\n(" + TypeDisplayName(c.baseTypeName) + ")";
      assert r[|c.className|] == '\n';
      assert forall i :: 0 <= i < |"(multiple classes)"| ==> "(multiple classes)"[i] != '\n';
      r
  }

  /** `GetPreviewInfo(this GameObject)`: the asset path of the prefab it
      comes from, "" when it does not come from a prefab game object. */
  function GameObjectInfo(g: GameObject): (r: string)
    ensures (g.prefabParent.None? || !g.prefabParent.value.kind.GameObjectKind?) ==> r == ""
    ensures g.prefabParent.Some? && g.prefabParent.value.kind.GameObjectKind? ==> r == g.prefabParent.value.assetPath
  {
    match g.prefabParent
    case Some(p) => if p.kind.GameObjectKind? then p.assetPath else ""
    case None => ""
  }

  /** `GetPreviewInfo(this Camera)`. */
  function CameraInfo(orthographic: bool): (r: string)
    ensures r == "Orthographic" <==> orthographic
    ensures r == "Perspective" <==> !orthographic
  {
    if orthographic then "Orthographic" else "Perspective"
  }

  /** `GetPreviewInfo(this Behaviour)`: a light's type, a camera's
      projection, an audio source's clip name (which throws without a clip),
      a reverb filter's preset, "" for any other behaviour. */
  function BehaviourInfo(k: Kind): (r: Outcome<string>)
    requires IsBehaviour(k)
    ensures r.Thrown? <==> k.AudioSourceKind? && k.clip.None?
    ensures k.CameraKind? ==> r == Done(CameraInfo(k.orthographic))
    ensures k.MonoBehaviourKind? || k.BehaviourKind? ==> r == Done("")
    ensures k.LightKind? ==> r == Done(k.lightType)
    ensures k.AudioSourceKind? && k.clip.Some? ==> r == Done(k.clip.value.name)
    ensures k.AudioReverbFilterKind? ==> r == Done(k.reverbPreset)
  {
    match k
    case LightKind(t) => Done(t)
    case CameraKind(ortho) => Done(CameraInfo(ortho))
    case AudioSourceKind(clip) =>
      (match clip
       case None => Thrown(NullReference)
       case Some(c) => Done(c.name))
    case AudioReverbFilterKind(preset) => Done(preset)
    case _ => Done("")
  }

  /** `HasAnyRenderers(this GameObject)`: the object has a renderer, or one
      of its children has any. */
  function HasAnyRenderers(g: GameObject): bool
    decreases g, 1
  {
    g.hasRenderer || AnyChildHasRenderers(g.children)
  }

  function AnyChildHasRenderers(children: seq<GameObject>): bool
    decreases children, 0
  {
    children != [] && (HasAnyRenderers(children[0]) || AnyChildHasRenderers(children[1..]))
  }

  /** The game object and every descendant, in depth-first order. */
  function Subtree(g: GameObject): (nodes: seq<GameObject>)
    ensures |nodes| >= 1 && nodes[0] == g
    decreases g, 1
  {
    [g] + Subtrees(g.children)
  }

  function Subtrees(children: seq<GameObject>): seq<GameObject>
    decreases children, 0
  {
    if children == [] then [] else Subtree(children[0]) + Subtrees(children[1..])
  }

  /** Some node of the subtree has a renderer. */
  predicate SomeRenderer(nodes: seq<GameObject>) {
    exists i :: 0 <= i < |nodes| && nodes[i].hasRenderer
  }

  lemma SomeRendererAppend(a: seq<GameObject>, b: seq<GameObject>)
    ensures SomeRenderer(a + b) <==> SomeRenderer(a) || SomeRenderer(b)
  {
    if SomeRenderer(a + b) {
      var i :| 0 <= i < |a + b| && (a + b)[i].hasRenderer;
      if i >= |a| { assert b[i - |a|].hasRenderer; }
      else { assert a[i].hasRenderer; }
    }
    if SomeRenderer(b) {
      var i :| 0 <= i < |b| && b[i].hasRenderer;
      assert (a + b)[|a| + i].hasRenderer;
    }
    if SomeRenderer(a) {
      var i :| 0 <= i < |a| && a[i].hasRenderer;
      assert (a + b)[i].hasRenderer;
    }
  }

  /** `HasAnyRenderers` holds exactly when some object of the subtree, the
      game object itself or a descendant, has a renderer. */
  lemma {:induction false} HasAnyRenderersInSubtree(g: GameObject)
    ensures HasAnyRenderers(g) <==> SomeRenderer(Subtree(g))
    decreases g, 1
  {
    SomeRendererAppend([g], Subtrees(g.children));
    AnyChildInSubtrees(g.children);
  }

  lemma {:induction false} AnyChildInSubtrees(children: seq<GameObject>)
    ensures AnyChildHasRenderers(children) <==> SomeRenderer(Subtrees(children))
    decreases children, 0
  {
    if children != [] {
      HasAnyRenderersInSubtree(children[0]);
      AnyChildInSubtrees(children[1..]);
      SomeRendererAppend(Subtree(children[0]), Subtrees(children[1..]));
    }
  }
}
