/** `TeneEnhPreviewWindow`: the preview popup other add-ons open next to a
    pane for a GUID or an object. The object is first resolved to what is
    worth previewing (a mesh filter's mesh, an audio source's clip, a prefab
    instance's prefab); whether a preview is shown at all depends on what it
    resolves to. One window is shared: the static part opens, moves and
    closes it. */
module TeneEnhPreviewWindow {
  import opened Wrappers
  import opened UnityObjects
  import AssetInfo
  import ProjectWindow
  import ProjectWindowPreview

  /** The last step of `Resolve`: a mesh filter stands for its shared mesh,
      an audio source for its clip (either possibly none), and a game object
      for the game object it is an instance of, when there is one. */
  function Follow(a: Option<UObject>): (r: Option<UObject>)
    ensures r.Some? ==> !r.value.kind.MeshFilterKind? && !r.value.kind.AudioSourceKind?
    ensures a.None? ==> r.None?
    ensures a.Some? && a.value.kind.GameObjectKind? ==> r.Some? && r.value.kind.GameObjectKind?
    ensures (a.Some? && !a.value.kind.MeshFilterKind? && !a.value.kind.AudioSourceKind?
             && !a.value.kind.GameObjectKind?) ==> r == a
    ensures a.Some? && a.value.kind.MeshFilterKind? ==>
      r == (if a.value.kind.sharedMesh.Some? then Some(a.value.kind.sharedMesh.value.AsObject()) else None)
    ensures a.Some? && a.value.kind.AudioSourceKind? ==>
      r == (if a.value.kind.clip.Some? then Some(a.value.kind.clip.value.AsObject()) else None)
    ensures a.Some? && a.value.kind.GameObjectKind? ==>
      var parent := a.value.kind.gameObject.prefabParent;
      r == (if parent.Some? && parent.value.kind.GameObjectKind? then parent else a)
  {
    match a
    case None => None
    case Some(o) =>
      match o.kind
      case MeshFilterKind(mesh) => if mesh.Some? then Some(mesh.value.AsObject()) else None
      case AudioSourceKind(clip) => if clip.Some? then Some(clip.value.AsObject()) else None
      case GameObjectKind(g) =>
        if g.prefabParent.Some? && g.prefabParent.value.kind.GameObjectKind? then g.prefabParent else a
      case _ => a
  }

  /** `Resolve(ref guid, ref path, ref asset)`: a GUID gives the path, a path
      gives the asset stored there (replacing the asset passed in), and the
      asset is then followed. */
  function Resolve(guid: Option<string>, path: Option<string>, asset: Option<UObject>, db: AssetDatabase): (r: Option<UObject>)
    ensures guid.Some? ==> r == Follow(db.LoadAssetAtPath(db.GUIDToAssetPath(guid.value)))
    ensures guid.None? && path.Some? ==> r == Follow(db.LoadAssetAtPath(path.value))
    ensures guid.None? && path.None? ==> r == Follow(asset)
  {
    var p := if guid.Some? then Some(db.GUIDToAssetPath(guid.value)) else path;
    var a := if p.Some? then db.LoadAssetAtPath(p.value) else asset;
    Follow(a)
  }

  /** Once a GUID is given, the asset passed along makes no difference. */
  lemma GUIDOverridesAsset(guid: string, a1: Option<UObject>, a2: Option<UObject>, db: AssetDatabase)
    ensures Resolve(Some(guid), None, a1, db) == Resolve(Some(guid), None, a2, db)
  {
  }

  /** `CanShowPreviewFor(guid, path, asset)`, on the resolved object: a
      camera always; a game object when it or a descendant has a renderer;
      anything else when it exists, is not a plain `UnityEngine.Object`, a
      script or a component. */
  function CanShowPreviewFor(guid: Option<string>, asset: Option<UObject>, db: AssetDatabase): (r: bool)
    ensures var a := Resolve(guid, None, asset, db);
      && (r ==> a.Some?)
      && (r && IsComponent(a.value.kind) ==> a.value.kind.CameraKind?)
      && (a.Some? && a.value.kind.CameraKind? ==> r)
      && (a.Some? && a.value.kind.GameObjectKind? ==>
            (r <==> AssetInfo.SomeRenderer(AssetInfo.Subtree(a.value.kind.gameObject))))
      && (a.Some? && !a.value.kind.CameraKind? && !a.value.kind.GameObjectKind? ==>
            (r <==> a.value.typeName != "UnityEngine.Object" && !a.value.kind.MonoScriptKind?
                    && !IsComponent(a.value.kind)))
  {
    var a := Resolve(guid, None, asset, db);
    if a.Some? && a.value.kind.CameraKind? then true
    else if a.Some? && a.value.kind.GameObjectKind? then
      AssetInfo.HasAnyRenderersInSubtree(a.value.kind.gameObject);
      AssetInfo.HasAnyRenderers(a.value.kind.gameObject)
    else
      && a.Some?
      && a.value.typeName != "UnityEngine.Object"
      && !a.value.kind.MonoScriptKind?
      && !a.value.kind.MonoBehaviourKind?
      && !IsBehaviour(a.value.kind)
      && !a.value.kind.ColliderKind?
      && !IsComponent(a.value.kind)
  }

  /** The popup's state. */
  class PreviewWindow {
    var anchoredToRight: bool
    var asset: Option<UObject>
    var tex: Option<UObject>
    var noPreview: bool
    var hasAlpha: bool
    var info: string
    var timeStartMs: int
    var position: Rect

    /** Only a 2D texture is drawn with its alpha channel, and it is its own
        preview. */
    ghost predicate Valid()
      reads this
    {
      hasAlpha ==> asset.Some? && asset.value.kind.Texture2DKind? && tex == asset
    }

    /** `EditorWindow.GetWindow<TeneEnhPreviewWindow>()`: a new window with
        every field at its default and the host's initial position. */
    constructor(initial: Rect)
      ensures asset.None? && tex.None? && !noPreview && !hasAlpha && !anchoredToRight
      ensures info == "" && position == initial
      ensures Valid()
    {
      anchoredToRight := false;
      asset := None;
      tex := None;
      noPreview := false;
      hasAlpha := false;
      info := "";
      timeStartMs := 0;
      position := initial;
    }

    /** `SetPosition(anchor, mouse)`: 200 by 200, left of the anchoring pane
        with a gap of 10, or right of it (and anchored to the right) when
        that would leave the screen; 90 above the mouse, kept on the screen
        of height `screenHeight`. */
    method SetPosition(anchor: Rect, mouse: Point, screenHeight: int)
      modifies this`anchoredToRight, this`position
      ensures anchoredToRight <==> anchor.x - 210 < 0
      ensures position == ProjectWindow.PreviewPosition(anchor, mouse, screenHeight)
      ensures anchoredToRight ==> position.x == anchor.x + anchor.width
      ensures !anchoredToRight ==> position.x + position.width + 10 == anchor.x
    {
      var newPos := Rect(anchor.x - 210, mouse.y - 90, 200, 200);
      anchoredToRight := false;
      if newPos.x < 0 {
        newPos := newPos.(x := anchor.x + anchor.width);
        anchoredToRight := true;
      }
      newPos := newPos.(y := ProjectWindow.Clamp(newPos.y, 0, screenHeight - 250));
      position := newPos;
    }

    /** `SetPreview(guid, path, asset)`: resolves the object; an object that
        resolves to nothing throws when the title is built, before anything
        changes. Otherwise the per-asset state is reset; a 2D texture is its
        own preview and widens the window by 200, away from the pane (to the
        right when anchored to the right, to the left otherwise); anything
        else takes the host's preview (`preview`). The text is the object's
        `ProjectWindowPreviewInfo`, and the clock starts at `nowMs`. */
    method SetPreview(guid: Option<string>, assetIn: Option<UObject>, db: AssetDatabase,
                      preview: Option<UObject>, nowMs: int)
      returns (thrown: Option<Exception>)
      requires Valid()
      modifies this`asset, this`tex, this`noPreview, this`hasAlpha, this`info, this`timeStartMs, this`position
      ensures var a := Resolve(guid, None, assetIn, db);
        && (a.None? ==>
              && thrown == Some(NullReference) && asset == old(asset) && tex == old(tex)
              && hasAlpha == old(hasAlpha) && info == old(info) && position == old(position)
              && noPreview == old(noPreview) && timeStartMs == old(timeStartMs))
        && (a.Some? ==>
              && thrown.None? && asset == a && !noPreview && timeStartMs == nowMs
              && (hasAlpha <==> a.value.kind.Texture2DKind?)
              && tex == (if hasAlpha then a else preview)
              && info == ProjectWindowPreview.PreviewInfo(a)
              && position == (if !hasAlpha then old(position)
                 else if anchoredToRight then old(position).(width := old(position).width + 200)
                 else old(position).(x := old(position).x - 200, width := old(position).width + 200)))
      ensures Valid()
    {
      var a := Resolve(guid, None, assetIn, db);
      if a.None? {
        return Some(NullReference);
      }
      asset := a;
      noPreview := false;
      hasAlpha := false;
      info := "";
      if a.value.kind.Texture2DKind? {
        tex := a;
        hasAlpha := true;
        if anchoredToRight {
          position := Rect(position.x, position.y, position.width + 200, position.height);
        } else {
          position := Rect(position.x - 200, position.y, position.width + 200, position.height);
        }
      } else {
        tex := preview;
      }
      info := info + ProjectWindowPreview.PreviewInfo(a);
      timeStartMs := nowMs;
      thrown := None;
    }

    /** `Update`: while there is no texture yet for an asset, asks the host
        again (`preview` is its answer now); still none more than three
        seconds after the preview was set gives up with "No preview". */
    method Update(preview: Option<UObject>, nowMs: int)
      requires Valid()
      modifies this`tex, this`noPreview
      ensures Valid()
      ensures old(tex).Some? || asset.None? ==> tex == old(tex) && noPreview == old(noPreview)
      ensures old(tex).None? && asset.Some? ==>
        tex == preview && noPreview == (old(noPreview) || (preview.None? && nowMs - timeStartMs > 3000))
      ensures noPreview && !old(noPreview) ==> nowMs - timeStartMs > 3000 && tex.None?
    {
      if tex.None? && asset.Some? {
        tex := preview;
        if tex.None? && nowMs - timeStartMs > 3000 {
          noPreview := true;
        }
      }
    }
  }

  /** The static part: the one shared window. */
  class PreviewHost {
    var window: PreviewWindow?

    /** The shared window, when open, keeps its own invariant. */
    ghost predicate Valid()
      reads this, window
    {
      window != null ==> window.Valid()
    }

    constructor()
      ensures window == null && Valid()
    {
      window := null;
    }

    /** The static `Update(anchor, mouse, guid, asset)`: with neither a GUID
        nor an object, or with nothing worth previewing, the window is closed
        and forgotten. Otherwise the window (opened at `initial` when there
        is none) is placed next to the anchor and shows the resolved object;
        as that object exists, setting the preview cannot throw. */
    method Update(anchor: Rect, mouse: Point, guid: Option<string>, asset: Option<UObject>,
                  db: AssetDatabase, screenHeight: int, preview: Option<UObject>, nowMs: int, initial: Rect)
      requires Valid()
      modifies this, window
      ensures Valid()
      ensures (guid.None? && asset.None?) || !CanShowPreviewFor(guid, asset, db) ==> window == null
      ensures (guid.Some? || asset.Some?) && CanShowPreviewFor(guid, asset, db) ==>
        var a := Resolve(guid, None, asset, db);
        var base := ProjectWindow.PreviewPosition(anchor, mouse, screenHeight);
        && window != null && (old(window) != null ==> window == old(window))
        && a.Some? && window.asset == a
        && window.info == ProjectWindowPreview.PreviewInfo(a)
        && (old(window) == null ==> fresh(window))
        && !window.noPreview && window.timeStartMs == nowMs
        && (window.hasAlpha <==> a.value.kind.Texture2DKind?)
        && window.tex == (if window.hasAlpha then a else preview)
        && (window.anchoredToRight <==> anchor.x - 210 < 0)
        && (a.value.kind.Texture2DKind? ==> window.position == (if window.anchoredToRight
              then base.(width := 400) else base.(x := base.x - 200, width := 400)))
        && (!a.value.kind.Texture2DKind? ==> window.position == base)
    {
      if (guid.None? && asset.None?) || !CanShowPreviewFor(guid, asset, db) {
        window := null;
        return;
      }
      if window == null {
        window := new PreviewWindow(initial);
      }
      var w := window;
      w.SetPosition(anchor, mouse, screenHeight);
      var thrown := w.SetPreview(guid, asset, db, preview, nowMs);
    }
  }
}
