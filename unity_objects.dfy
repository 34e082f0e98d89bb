/** The Unity objects the editor add-ons inspect, written as plain data: an
    asset or component is a `UObject` whose `kind` carries the few properties
    the add-ons read; the asset database is a pair of lookup maps. */
module UnityObjects {
  import opened Wrappers

  /** `UnityEngine.Rect`, in whole pixels. */
  datatype Rect = Rect(x: int, y: int, width: int, height: int) {
    /** `Rect.Contains(point)`: left and top edges inclusive, right and
        bottom edges exclusive. */
    predicate Contains(p: Point) {
      x <= p.x < x + width && y <= p.y < y + height
    }
  }

  /** `UnityEngine.Vector2`, in whole pixels. */
  datatype Point = Point(x: int, y: int)

  /** A `UnityEngine.Object`. `typeName` is `GetType().ToString()` (the full
      name, such as "UnityEngine.AudioClip"); `instanceOf` holds the full
      names of every type the object is an instance of (its class, the base
      classes and the interfaces), which is what `Type.IsInstanceOfType`
      asks; `assetPath` is `AssetDatabase.GetAssetPath` of the object ("" for
      an object that is not an asset). */
  datatype UObject = UObject(
    typeName: string,
    name: string,
    assetPath: string,
    instanceOf: set<string>,
    kind: Kind)

  /** What kind of object it is, with the properties the add-ons read. The
      kinds are disjoint; the classification predicates below say which C#
      base classes each kind derives from. */
  datatype Kind =
    // assets
    | AudioClipKind(lengthMs: nat, channels: int)
    | Texture2DKind(format: string, width: int, height: int)
    | TextureKind                       // any other Texture (Cubemap, RenderTexture, ...)
    | MaterialKind(shaderName: string, dependencies: seq<UObject>)
    | MeshKind(vertexCount: int, triangleIndices: int)
    | ShaderKind(renderQueue: int)
    | MonoScriptKind(scriptClass: Option<ScriptClass>)
    | GameObjectKind(gameObject: GameObject)
    // components
    | MeshFilterKind(sharedMesh: Option<MeshAsset>)
    | MeshRendererKind
    | MonoBehaviourKind(baseTypeName: string, scriptName: string)
    | LightKind(lightType: string)
    | CameraKind(orthographic: bool)
    | AudioSourceKind(clip: Option<ClipAsset>)
    | AudioReverbFilterKind(reverbPreset: string)
    | BehaviourKind                     // any other Behaviour
    | ColliderKind
    | TransformKind
    | ComponentKind                     // any other Component
    // anything else, including a plain `UnityEngine.Object`
    | OtherKind

  /** The class a `MonoScript` declares: `GetClass()` and its base type. */
  datatype ScriptClass = ScriptClass(className: string, baseTypeName: string)

  /** A `Mesh` as a `MeshFilter.sharedMesh` holds it. */
  datatype MeshAsset = MeshAsset(name: string, assetPath: string, vertexCount: int, triangleIndices: int) {
    /** The same mesh seen as a `UnityEngine.Object`. */
    function AsObject(): (o: UObject)
      ensures o.kind.MeshKind? && o.name == name && o.typeName == "UnityEngine.Mesh"
    {
      UObject("UnityEngine.Mesh", name, assetPath,
        {"UnityEngine.Mesh", "UnityEngine.Object", "System.Object"},
        MeshKind(vertexCount, triangleIndices))
    }
  }

  /** An `AudioClip` as an `AudioSource.clip` holds it. */
  datatype ClipAsset = ClipAsset(name: string, assetPath: string, lengthMs: nat, channels: int) {
    /** The same clip seen as a `UnityEngine.Object`. */
    function AsObject(): (o: UObject)
      ensures o.kind.AudioClipKind? && o.name == name && o.typeName == "UnityEngine.AudioClip"
    {
      UObject("UnityEngine.AudioClip", name, assetPath,
        {"UnityEngine.AudioClip", "UnityEngine.Object", "System.Object"},
        AudioClipKind(lengthMs, channels))
    }
  }

  /** A `GameObject`: whether it has a renderer, the game objects of its
      child transforms, and `PrefabUtility.GetPrefabParent` of it. */
  datatype GameObject = GameObject(
    hasRenderer: bool,
    children: seq<GameObject>,
    prefabParent: Option<UObject>)

  predicate IsBehaviour(k: Kind) {
    k.MonoBehaviourKind? || k.LightKind? || k.CameraKind? || k.AudioSourceKind?
    || k.AudioReverbFilterKind? || k.BehaviourKind?
  }

  predicate IsComponent(k: Kind) {
    IsBehaviour(k) || k.MeshFilterKind? || k.MeshRendererKind? || k.ColliderKind?
    || k.TransformKind? || k.ComponentKind?
  }

  predicate IsTexture(k: Kind) {
    k.Texture2DKind? || k.TextureKind?
  }

  /** The asset database: GUIDs to asset paths, asset paths to the main
      asset stored there. */
  datatype AssetDatabase = AssetDatabase(paths: map<string, string>, assets: map<string, UObject>) {
    /** `AssetDatabase.GUIDToAssetPath(guid)`: "" for an unknown GUID. */
    function GUIDToAssetPath(guid: string): (path: string)
      ensures guid !in paths ==> path == ""
      ensures guid in paths ==> path == paths[guid]
    {
      if guid in paths then paths[guid] else ""
    }

    /** `AssetDatabase.LoadAssetAtPath(path, typeof(Object))`: null when
        nothing is stored there. */
    function LoadAssetAtPath(path: string): (asset: Option<UObject>)
      ensures asset.Some? <==> path in assets
      ensures asset.Some? ==> asset.value == assets[path]
    {
      if path in assets then Some(assets[path]) else None
    }
  }
}
