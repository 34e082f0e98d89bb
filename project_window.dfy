/** `TeneProjectWindow`: the project pane add-on. For every row it draws a
    tooltip (cached per asset path), an extension badge (shown when another
    file shares the asset's base name, or always when "Show all" is on) and,
    when the mouse rests on an asset, a floating preview window. The caches
    are cleared for every asset the asset postprocessor reports. */
module ProjectWindow {
  import opened Wrappers
  import Text
  import opened UnityObjects
  import opened EditorPrefs
  import AssetInfo
  import FilePaths
  import Common
  import ProjectWindowPreview

  const AllKey: string := "TeneProjectWindow_All"
  const HoverKey: string := "TeneProjectWindow_PreviewOnHover"
  const ColorMapKey: string := "TeneProjectWindow_ColorMap"

  /** The text with its leading line breaks removed: `s` is a run of line
      breaks followed by the result, which does not start with one. */
  function StripLeadingNewlines(s: string): (r: string)
    ensures !Text.StartsWith(r, "\n")
    ensures |r| <= |s| && s[|s| - |r|..] == r
    ensures forall i :: 0 <= i < |s| - |r| ==> s[i] == '\n'
    decreases |s|
  {
    if |s| > 0 && s[0] == '\n' then StripLeadingNewlines(s[1..]) else s
  }

  /** The file-count cache key of a file name in a folder: the folder, '/'
      and the name. */
  function FileCountKey(path: string, filename: string): (key: string)
    ensures Text.StartsWith(key, path) && Text.EndsWith(key, "/" + filename)
  {
    var head, tail := path, "/" + filename;
    assert (head + tail)[..|head|] == head;
    assert (head + tail)[|head + tail| - |tail|..] == tail;
    head + tail
  }

  /** The key's layout: the folder, one '/', then the name, and nothing
      else. */
  lemma FileCountKeyLayout(path: string, filename: string)
    ensures var key := FileCountKey(path, filename);
      && |key| == |path| + 1 + |filename|
      && key[..|path|] == path && key[|path|] == '/' && key[|path| + 1..] == filename
  {
    var key := FileCountKey(path, filename);
    assert key[|path| + 1..] == filename;
  }

  /** A name without '/' is the part of the key after its last '/': two
      folders and names give one key only when they are the same. */
  lemma FileCountKeyInjective(p1: string, f1: string, p2: string, f2: string)
    requires '/' !in f1 && '/' !in f2
    requires FileCountKey(p1, f1) == FileCountKey(p2, f2)
    ensures p1 == p2 && f1 == f2
  {
    assert FileCountKey(p1, f1) == p1 + ['/'] + f1;
    assert FileCountKey(p2, f2) == p2 + ['/'] + f2;
    Text.SplitAtLast(p1, '/', f1, p2, f2);
  }

  /** The file-count key of an asset path, as `ClearCache` computes it and
      as `Draw` asks `GetFileCount` for it. */
  function AssetFileCountKey(asset: string): string {
    FileCountKey(FilePaths.DirectoryName(asset), FilePaths.FileNameWithoutExtension(asset))
  }

  /** The keys `key` gives to a list of asset paths. */
  function KeysOf(assets: seq<string>, key: string -> string): set<string> {
    if assets == [] then {} else KeysOf(assets[..|assets| - 1], key) + {key(assets[|assets| - 1])}
  }

  /** The key set holds exactly the keys of the listed paths. */
  lemma {:induction false} KeysOfExactly(assets: seq<string>, key: string -> string)
    ensures forall a | a in assets :: key(a) in KeysOf(assets, key)
    ensures forall k | k in KeysOf(assets, key) :: exists a | a in assets :: k == key(a)
  {
    if assets != [] {
      var init := assets[..|assets| - 1];
      KeysOfExactly(init, key);
      assert assets == init + [assets[|assets| - 1]];
      assert forall a | a in init :: a in assets;
    }
  }

  /** The paths of a list of asset paths, as a set. */
  function AssetPaths(assets: seq<string>): (paths: set<string>)
    ensures forall a :: a in paths <==> a in assets
  {
    if assets == [] then {} else AssetPaths(assets[..|assets| - 1]) + {assets[|assets| - 1]}
  }

  /** The keys of two lists put together. */
  lemma {:induction false} KeysOfAppend(a: seq<string>, b: seq<string>, key: string -> string)
    ensures KeysOf(a + b, key) == KeysOf(a, key) + KeysOf(b, key)
    decreases |b|
  {
    if b == [] {
      assert a + b == a;
    } else {
      assert (a + b)[..|a + b| - 1] == a + b[..|b| - 1];
      KeysOfAppend(a, b[..|b| - 1], key);
    }
  }

  /** A listed file counts as another file of the same base name unless it
      is the asset itself (ends with its name and extension) or a ".meta"
      file. */
  predicate IsOtherFile(listed: string, filename: string, extension: string) {
    !Text.EndsWith(listed, filename + extension) && !Text.EndsWith(listed, ".meta")
  }

  /** A row that can carry a badge: its asset path, extension and file name
      are all non-empty. */
  predicate Listed(assetPath: string) {
    assetPath != "" && FilePaths.Extension(assetPath) != "" && FilePaths.FileNameWithoutExtension(assetPath) != ""
  }

  /** The assets `Update` opens no preview for: scripts, shaders and plain
      `UnityEngine.Object`s. */
  predicate Skipped(a: UObject) {
    a.kind.MonoScriptKind? || a.kind.ShaderKind? || a.typeName == "UnityEngine.Object"
  }

  /** `Mathf.Clamp(value, min, max)`. */
  function Clamp(value: int, min: int, max: int): (r: int)
    ensures min <= max ==> min <= r <= max
    ensures min <= value <= max ==> r == value
  {
    if value < min then min else if value > max then max else value
  }

  /** Where `Update` places the preview window: 210 to the left of the
      project pane, or just right of it when that would leave the screen;
      90 above the mouse, kept between the top of the screen and 250 above
      its bottom; 200 by 200. */
  function PreviewPosition(pane: Rect, mouse: Point, screenHeight: int): (r: Rect)
    ensures r.width == 200 && r.height == 200
    ensures pane.x - 210 >= 0 ==> r.x == pane.x - 210
    ensures pane.x - 210 < 0 ==> r.x == pane.x + pane.width
    ensures screenHeight >= 250 ==> 0 <= r.y <= screenHeight - 250
    ensures r.y == Clamp(mouse.y - 90, 0, screenHeight - 250)
  {
    var x := if pane.x - 210 < 0 then pane.x + pane.width else pane.x - 210;
    Rect(x, Clamp(mouse.y - 90, 0, screenHeight - 250), 200, 200)
  }

  /** The badge text: the extension without its dot when the row is drawn
      as an icon (taller than 20), with it in the list view. */
  function BadgeText(extension: string, icons: bool): string
    requires extension != []
  {
    if icons then extension[1..] else "." + extension[1..]
  }

  /** The static state of the add-on. */
  class ProjectPane {
    var fileCount: map<string, int>
    var tooltips: map<string, string>
    var showAllExtensions: bool
    var showHoverPreview: bool
    var lastGUID: Option<string>
    var currentGUID: Option<string>
    var updateThrottle: int
    var mousePosition: Point
    var previewWindow: ProjectWindowPreview.PreviewWindow?

    /** Every cached count is 1 or 2, no cached tooltip starts with a line
        break, and the throttle counter stays within 0..20. */
    ghost predicate Valid()
      reads this
    {
      && (forall k | k in fileCount :: fileCount[k] == 1 || fileCount[k] == 2)
      && (forall k | k in tooltips :: !Text.StartsWith(tooltips[k], "\n"))
      && 0 <= updateThrottle <= 20
    }

    /** The static constructor: empty caches, no GUIDs, no window, and the
        settings read from the preferences. */
    constructor(prefs: PrefMap)
      ensures fileCount == map[] && tooltips == map[]
      ensures lastGUID.None? && currentGUID.None? && updateThrottle == 0 && previewWindow == null
      ensures showAllExtensions == GetBool(prefs, AllKey, true)
      ensures showHoverPreview == GetBool(prefs, HoverKey, true)
      ensures Valid()
    {
      fileCount := map[];
      tooltips := map[];
      lastGUID := None;
      currentGUID := None;
      updateThrottle := 0;
      mousePosition := Point(0, 0);
      previewWindow := null;
      showAllExtensions := GetBool(prefs, AllKey, true);
      showHoverPreview := GetBool(prefs, HoverKey, true);
    }

    /** `ReadSettings`: both settings default to on. */
    method ReadSettings(prefs: PrefMap)
      modifies this`showAllExtensions, this`showHoverPreview
      ensures showAllExtensions == GetBool(prefs, AllKey, true)
      ensures showHoverPreview == GetBool(prefs, HoverKey, true)
    {
      showAllExtensions := GetBool(prefs, AllKey, true);
      showHoverPreview := GetBool(prefs, HoverKey, true);
    }

    /** `SaveSettings` as written: "Show all" is stored, but the hover
        setting is only read back (`GetBool` where `SetBool` was meant), so
        its stored value stays what it was; the colour map (`colorMap`, its
        text given) is stored in pieces. */
    method SaveSettings(prefs: PrefStore, colorMap: string)
      modifies prefs
      ensures GetBool(prefs.entries, AllKey, true) == showAllExtensions
      ensures HoverKey in prefs.entries <==> HoverKey in old(prefs.entries)
      ensures HoverKey in prefs.entries ==> prefs.entries[HoverKey] == old(prefs.entries)[HoverKey]
      ensures Common.ReadChunks(prefs.entries, ColorMapKey, 0) == colorMap
      ensures var written := {AllKey} + ColorMapPieces(old(prefs.entries), colorMap);
        prefs.entries - written == old(prefs.entries) - written
    {
      prefs.SetBool(AllKey, showAllExtensions);
      ghost var saved := prefs.entries;
      assert saved - {AllKey} == old(prefs.entries) - {AllKey};
      Common.SetLongPref(prefs, ColorMapKey, colorMap);
      SettingsKeptBy(saved, prefs.entries, colorMap);
      ColorMapFrame(old(prefs.entries), saved, prefs.entries, {AllKey}, colorMap);
    }

    /** `SaveSettings` as evidently intended: both settings are stored. */
    method SaveSettingsIntended(prefs: PrefStore, colorMap: string)
      modifies prefs
      ensures GetBool(prefs.entries, AllKey, true) == showAllExtensions
      ensures GetBool(prefs.entries, HoverKey, true) == showHoverPreview
      ensures Common.ReadChunks(prefs.entries, ColorMapKey, 0) == colorMap
      ensures var written := {AllKey, HoverKey} + ColorMapPieces(old(prefs.entries), colorMap);
        prefs.entries - written == old(prefs.entries) - written
    {
      prefs.SetBool(AllKey, showAllExtensions);
      prefs.SetBool(HoverKey, showHoverPreview);
      ghost var saved := prefs.entries;
      assert saved - {AllKey, HoverKey} == old(prefs.entries) - {AllKey, HoverKey};
      Common.SetLongPref(prefs, ColorMapKey, colorMap);
      SettingsKeptBy(saved, prefs.entries, colorMap);
      ColorMapFrame(old(prefs.entries), saved, prefs.entries, {AllKey, HoverKey}, colorMap);
    }

    /** `DrawPrefs`: the two toggles take the values the user left them at
        (`showAll`, `showHover`); when either changed, the settings are
        saved. */
    method DrawPrefs(showAll: bool, showHover: bool, prefs: PrefStore, colorMap: string)
      modifies this`showAllExtensions, this`showHoverPreview, prefs
      ensures showAllExtensions == showAll && showHoverPreview == showHover
      ensures old(showAllExtensions) == showAll && old(showHoverPreview) == showHover ==>
        prefs.entries == old(prefs.entries)
      ensures old(showAllExtensions) != showAll || old(showHoverPreview) != showHover ==>
        GetBool(prefs.entries, AllKey, true) == showAll
        && Common.ReadChunks(prefs.entries, ColorMapKey, 0) == colorMap
        && prefs.entries - ({AllKey} + ColorMapPieces(old(prefs.entries), colorMap))
           == old(prefs.entries) - ({AllKey} + ColorMapPieces(old(prefs.entries), colorMap))
    {
      var changed := showAllExtensions != showAll || showHoverPreview != showHover;
      showAllExtensions := showAll;
      showHoverPreview := showHover;
      if changed {
        SaveSettings(prefs, colorMap);
      }
    }

    /** `GetTooltip`: a cached text is returned as it is; otherwise the
        asset's preview info, with its leading line breaks stripped one at a
        time, is cached and returned. A path without an asset throws, and
        nothing is cached. */
    method GetTooltip(assetPath: string, db: AssetDatabase) returns (r: Outcome<string>)
      requires Valid()
      modifies this`tooltips
      ensures Valid()
      ensures assetPath in old(tooltips) ==> r == Done(old(tooltips)[assetPath]) && tooltips == old(tooltips)
      ensures assetPath !in old(tooltips) ==>
        match AssetInfo.PreviewInfo(db.LoadAssetAtPath(assetPath))
        case Thrown(e) => r == Thrown(e) && tooltips == old(tooltips)
        case Done(info) =>
          r == Done(StripLeadingNewlines(info)) && tooltips == old(tooltips)[assetPath := r.value]
      ensures r.Done? ==> !Text.StartsWith(r.value, "\n") && assetPath in tooltips && tooltips[assetPath] == r.value
    {
      if assetPath in tooltips {
        return Done(tooltips[assetPath]);
      }
      var info := AssetInfo.PreviewInfo(db.LoadAssetAtPath(assetPath));
      if info.Thrown? {
        return Thrown(info.error);
      }
      var tooltip := info.value;
      while Text.StartsWith(tooltip, "\n")
        invariant StripLeadingNewlines(tooltip) == StripLeadingNewlines(info.value)
        decreases |tooltip|
      {
        tooltip := tooltip[1..];
      }
      tooltips := tooltips[assetPath := tooltip];
      r := Done(tooltip);
    }

    /** `GetFileCount`: 2 when the folder listing (`listing`, the files
        named `filename.*`) holds another file than the asset itself and its
        ".meta", 1 otherwise; the answer is cached under the folder and base
        name, and a cached answer is returned as it is. The folder name is
        cut after its first six characters ("Assets") before anything else,
        so a shorter one throws. */
    method GetFileCount(extension: string, filename: string, path: string, listing: seq<string>)
      returns (r: Outcome<int>)
      requires Valid()
      modifies this`fileCount
      ensures Valid()
      ensures r.Thrown? <==> |path| < 6
      ensures r.Thrown? ==> r.error == ArgumentOutOfRange
      ensures r.Thrown? ==> fileCount == old(fileCount)
      ensures var key := FileCountKey(path, filename);
        && (r.Done? && key in old(fileCount) ==> r.value == old(fileCount)[key] && fileCount == old(fileCount))
        && (r.Done? && key !in old(fileCount) ==>
              (r.value == 2 <==> exists i | 0 <= i < |listing| :: IsOtherFile(listing[i], filename, extension))
              && fileCount == old(fileCount)[key := r.value])
      ensures r.Done? ==> r.value == 1 || r.value == 2
    {
      if |path| < 6 {
        return Thrown(ArgumentOutOfRange);
      }
      var key := FileCountKey(path, filename);
      if key in fileCount {
        return Done(fileCount[key]);
      }
      var files := 1;
      var i := 0;
      while i < |listing|
        invariant 0 <= i <= |listing|
        invariant files == 1 ==> forall j | 0 <= j < i :: !IsOtherFile(listing[j], filename, extension)
        invariant files == 2 ==> 0 < i && IsOtherFile(listing[i - 1], filename, extension)
        invariant files == 1 || files == 2
      {
        if Text.EndsWith(listing[i], filename + extension) {
          i := i + 1;
          continue;
        }
        if Text.EndsWith(listing[i], ".meta") {
          i := i + 1;
          continue;
        }
        files := files + 1;
        i := i + 1;
        break;
      }
      fileCount := fileCount[key := files];
      r := Done(files);
    }

    /** `Update`, run on every editor tick. Nothing happens while hover
        previews are off or no asset has been hovered. When the hovered GUID
        (`currentGUID`, set by `Draw`) differs from the last one seen, it is
        taken over: no GUID closes the preview window; the GUID of a script,
        a shader or a plain `UnityEngine.Object` is skipped; a GUID without
        an asset throws; any other asset is shown in the preview window
        (opened at `initial` when there is none), which is then placed at
        `PreviewPosition`, overriding the widening the window gave itself
        for a 2D texture. When the GUID is unchanged the throttle counter
        goes up, and once past 20 the hover is forgotten and the counter
        starts again. */
    method Update(db: AssetDatabase, paneRect: Rect, screenHeight: int,
                  preview: Option<UObject>, nowMs: int, initial: Rect)
      returns (thrown: Option<Exception>)
      requires Valid()
      modifies this`lastGUID, this`currentGUID, this`updateThrottle, this`previewWindow, previewWindow
      ensures Valid()
      ensures !old(showHoverPreview) || (old(lastGUID).None? && old(currentGUID).None?) ==>
        && lastGUID == old(lastGUID) && currentGUID == old(currentGUID)
        && updateThrottle == old(updateThrottle) && previewWindow == old(previewWindow) && thrown.None?
        && (previewWindow != null ==> unchanged(previewWindow))
      ensures old(showHoverPreview) && old(lastGUID) == old(currentGUID) && old(currentGUID).Some? ==>
        && lastGUID == old(lastGUID) && previewWindow == old(previewWindow) && thrown.None?
        && (previewWindow != null ==> unchanged(previewWindow))
        && (old(updateThrottle) < 20 ==> updateThrottle == old(updateThrottle) + 1 && currentGUID == old(currentGUID))
        && (old(updateThrottle) == 20 ==> updateThrottle == 0 && currentGUID.None?)
      ensures old(showHoverPreview) && old(lastGUID) != old(currentGUID) ==>
        lastGUID == old(currentGUID) && currentGUID == old(currentGUID) && updateThrottle == old(updateThrottle)
      ensures old(showHoverPreview) && old(lastGUID).Some? && old(currentGUID).None? ==>
        previewWindow == null && thrown.None?
      ensures old(showHoverPreview) && old(lastGUID) != old(currentGUID) && old(currentGUID).Some? ==>
        var path := db.GUIDToAssetPath(old(currentGUID).value);
        var a := db.LoadAssetAtPath(path);
        && (a.None? ==> thrown == Some(NullReference) && previewWindow == old(previewWindow))
        && (a.Some? && Skipped(a.value) ==> thrown.None? && previewWindow == old(previewWindow))
        && (a.None? || Skipped(a.value) ==> previewWindow != null ==> unchanged(previewWindow))
        && (a.Some? && !Skipped(a.value) ==>
              && thrown.None? && previewWindow != null
              && (old(previewWindow) != null ==> previewWindow == old(previewWindow))
              && (old(previewWindow) == null ==> fresh(previewWindow))
              && previewWindow.guid == old(currentGUID) && previewWindow.path == Some(path)
              && previewWindow.asset == a
              && !previewWindow.noPreview && previewWindow.timeStartMs == nowMs
              && previewWindow.info == ProjectWindowPreview.WindowText(a.value)
              && (previewWindow.hasAlpha <==> a.value.kind.Texture2DKind?)
              && previewWindow.tex == (if previewWindow.hasAlpha then a else preview)
              && previewWindow.position == PreviewPosition(paneRect, old(mousePosition), screenHeight))
    {
      thrown := None;
      if !showHoverPreview {
        return;
      }
      if lastGUID.None? && currentGUID.None? {
        return;
      }
      if lastGUID != currentGUID {
        lastGUID := currentGUID;
        if lastGUID.Some? {
          var a := db.LoadAssetAtPath(db.GUIDToAssetPath(lastGUID.value));
          if a.None? {
            thrown := Some(NullReference);
            return;
          }
          if Skipped(a.value) {
            return;
          }
          if previewWindow == null {
            previewWindow := new ProjectWindowPreview.PreviewWindow(initial);
          }
          var window := previewWindow;
          var newPos := PreviewPosition(paneRect, mousePosition, screenHeight);
          var ignored := window.SetGUID(lastGUID.value, db, preview, nowMs);
          window.position := newPos;
        } else {
          previewWindow := null;
        }
      } else {
        updateThrottle := updateThrottle + 1;
        if updateThrottle > 20 {
          currentGUID := None;
          updateThrottle := 0;
        }
      }
    }

    /** The part of `Draw` that is not painting, for the row of `guid` at
        `rowRect` with the mouse at `mouse` (in the pane's coordinates).
        Rows without an asset path are left alone. Otherwise the tooltip is
        fetched (which throws for a path without an asset); rows whose file
        name or extension is empty stop there. The mouse position is
        recorded on screen, a row under the mouse becomes the hovered GUID,
        and the extension badge is decided by `Badge`. */
    method Draw(guid: string, rowRect: Rect, mouse: Point, paneRect: Rect, db: AssetDatabase, listing: seq<string>)
      returns (badge: Option<string>, thrown: Option<Exception>)
      requires Valid()
      modifies this`tooltips, this`fileCount, this`mousePosition, this`currentGUID
      ensures Valid()
      ensures db.GUIDToAssetPath(guid) == "" ==> badge.None? && thrown.None? && currentGUID == old(currentGUID)
      ensures !rowRect.Contains(mouse) ==> currentGUID == old(currentGUID)
      ensures badge.Some? ==> thrown.None? && Listed(db.GUIDToAssetPath(guid))
      ensures thrown.None? && Listed(db.GUIDToAssetPath(guid)) ==>
        var assetPath := db.GUIDToAssetPath(guid);
        && assetPath in tooltips
        && (rowRect.Contains(mouse) ==> currentGUID == Some(guid))
        && BadgeShown(badge, FilePaths.Extension(assetPath), FilePaths.FileNameWithoutExtension(assetPath),
             FilePaths.DirectoryName(assetPath), rowRect.height > 20)
      ensures var assetPath := db.GUIDToAssetPath(guid);
        && (tooltips == old(tooltips) || (assetPath in tooltips && tooltips == old(tooltips)[assetPath := tooltips[assetPath]]))
        && (fileCount == old(fileCount)
            || (AssetFileCountKey(assetPath) in fileCount
                && fileCount == old(fileCount)[AssetFileCountKey(assetPath) := fileCount[AssetFileCountKey(assetPath)]]))
        && (Listed(assetPath) && assetPath in tooltips ==> mousePosition == Point(mouse.x + paneRect.x, mouse.y + paneRect.y))
        && (!(Listed(assetPath) && assetPath in tooltips) ==> mousePosition == old(mousePosition))
    {
      var assetPath := db.GUIDToAssetPath(guid);
      var extension := FilePaths.Extension(assetPath);
      var filename := FilePaths.FileNameWithoutExtension(assetPath);
      var icons := rowRect.height > 20;
      badge, thrown := None, None;
      if |assetPath| == 0 {
        return;
      }
      var path := FilePaths.DirectoryName(assetPath);
      thrown := LabelTooltip(assetPath, db);
      if thrown.Some? {
        return;
      }
      if |extension| == 0 || |filename| == 0 {
        return;
      }
      mousePosition := Point(mouse.x + paneRect.x, mouse.y + paneRect.y);
      if rowRect.Contains(mouse) {
        currentGUID := Some(guid);
      }
      badge, thrown := Badge(extension, filename, path, icons, listing);
    }

    /** The tooltip step of `Draw`: the row's tooltip label is the cached
        tooltip, which may throw on the way. */
    method LabelTooltip(assetPath: string, db: AssetDatabase) returns (thrown: Option<Exception>)
      requires Valid()
      modifies this`tooltips
      ensures Valid()
      ensures thrown.None? <==> assetPath in tooltips
      ensures thrown.Some? ==> thrown == Some(NullReference) && tooltips == old(tooltips)
      ensures assetPath in old(tooltips) ==> thrown.None? && tooltips == old(tooltips)
      ensures assetPath !in old(tooltips) ==>
        match AssetInfo.PreviewInfo(db.LoadAssetAtPath(assetPath))
        case Thrown(_) => thrown.Some?
        case Done(info) => tooltips == old(tooltips)[assetPath := StripLeadingNewlines(info)]
    {
      var tooltip := GetTooltip(assetPath, db);
      thrown := if tooltip.Thrown? then Some(tooltip.error) else None;
    }

    /** Whether the badge was drawn as it should be: with "Show all" on,
        always; otherwise exactly when the cached count says another file
        shares the base name. */
    ghost predicate BadgeShown(badge: Option<string>, extension: string, filename: string, path: string, icons: bool)
      requires extension != []
      reads this
    {
      var key := FileCountKey(path, filename);
      && (badge.Some? ==> badge.value == BadgeText(extension, icons))
      && (showAllExtensions ==> badge.Some?)
      && (!showAllExtensions ==> key in fileCount && (badge.Some? <==> fileCount[key] == 2))
    }

    /** The end of `Draw`: with "Show all" off, a base name no other file
        shares gets no badge; otherwise the badge is the extension, without
        its dot on an icon row. */
    method Badge(extension: string, filename: string, path: string, icons: bool, listing: seq<string>)
      returns (badge: Option<string>, thrown: Option<Exception>)
      requires Valid() && extension != []
      modifies this`fileCount
      ensures Valid()
      ensures thrown.None? ==> BadgeShown(badge, extension, filename, path, icons)
      ensures thrown.Some? ==> badge.None? && !showAllExtensions && |path| < 6
      ensures var key := FileCountKey(path, filename);
        && (showAllExtensions || thrown.Some? || key in old(fileCount) ==> fileCount == old(fileCount))
        && (!showAllExtensions && thrown.None? && key !in old(fileCount) ==>
              && fileCount == old(fileCount)[key := fileCount[key]]
              && (fileCount[key] == 2 <==> exists i | 0 <= i < |listing| :: IsOtherFile(listing[i], filename, extension)))
    {
      badge, thrown := None, None;
      if !showAllExtensions {
        var count := GetFileCount(extension, filename, path, listing);
        if count.Thrown? {
          thrown := Some(count.error);
          return;
        }
        if count.value <= 1 {
          return;
        }
      }
      badge := Some(BadgeText(extension, icons));
    }

    /** `ClearCache`: forgets the asset's file count and its tooltip, and
        nothing else. */
    method ClearCache(asset: string)
      requires Valid()
      modifies this`fileCount, this`tooltips
      ensures Valid()
      ensures fileCount == old(fileCount) - {AssetFileCountKey(asset)}
      ensures tooltips == old(tooltips) - {asset}
    {
      fileCount := fileCount - {AssetFileCountKey(asset)};
      tooltips := tooltips - {asset};
    }

    /** One `foreach` of `OnPostprocessAllAssets`: `ClearCache` for every
        path of the list. */
    method ClearCaches(assets: seq<string>)
      requires Valid()
      modifies this`fileCount, this`tooltips
      ensures Valid()
      ensures fileCount == old(fileCount) - KeysOf(assets, AssetFileCountKey)
      ensures tooltips == old(tooltips) - AssetPaths(assets)
    {
      var i := 0;
      while i < |assets|
        invariant 0 <= i <= |assets| && Valid()
        invariant fileCount == old(fileCount) - KeysOf(assets[..i], AssetFileCountKey)
        invariant tooltips == old(tooltips) - AssetPaths(assets[..i])
      {
        ClearCache(assets[i]);
        PrefixStep(assets, i, AssetFileCountKey);
        SubtractTwice(old(fileCount), KeysOf(assets[..i], AssetFileCountKey), {AssetFileCountKey(assets[i])});
        SubtractTwice(old(tooltips), AssetPaths(assets[..i]), {assets[i]});
        i := i + 1;
      }
      assert assets[..i] == assets;
    }

    /** `ProjectWindowExtensionsClass.OnPostprocessAllAssets`: the caches
        of every imported, deleted, moved and moved-from asset are cleared,
        and no other entry. */
    method OnPostprocessAllAssets(imported: seq<string>, deleted: seq<string>, moved: seq<string>, movedFrom: seq<string>)
      requires Valid()
      modifies this`fileCount, this`tooltips
      ensures Valid()
      ensures var all := imported + deleted + moved + movedFrom;
        && fileCount == old(fileCount) - KeysOf(all, AssetFileCountKey)
        && tooltips == old(tooltips) - AssetPaths(all)
    {
      ClearCaches(imported);
      ClearCaches(deleted);
      SubtractTwice(old(fileCount), KeysOf(imported, AssetFileCountKey), KeysOf(deleted, AssetFileCountKey));
      SubtractTwice(old(tooltips), AssetPaths(imported), AssetPaths(deleted));
      KeysOfAppend(imported, deleted, AssetFileCountKey);
      AssetPathsAppend(imported, deleted);
      ClearCaches(moved);
      SubtractTwice(old(fileCount), KeysOf(imported + deleted, AssetFileCountKey), KeysOf(moved, AssetFileCountKey));
      SubtractTwice(old(tooltips), AssetPaths(imported + deleted), AssetPaths(moved));
      KeysOfAppend(imported + deleted, moved, AssetFileCountKey);
      AssetPathsAppend(imported + deleted, moved);
      ClearCaches(movedFrom);
      SubtractTwice(old(fileCount), KeysOf(imported + deleted + moved, AssetFileCountKey), KeysOf(movedFrom, AssetFileCountKey));
      SubtractTwice(old(tooltips), AssetPaths(imported + deleted + moved), AssetPaths(movedFrom));
      KeysOfAppend(imported + deleted + moved, movedFrom, AssetFileCountKey);
      AssetPathsAppend(imported + deleted + moved, movedFrom);
    }
  }

  /** The keys and paths of one more list entry. */
  lemma PrefixStep(assets: seq<string>, i: nat, key: string -> string)
    requires i < |assets|
    ensures KeysOf(assets[..i + 1], key) == KeysOf(assets[..i], key) + {key(assets[i])}
    ensures AssetPaths(assets[..i + 1]) == AssetPaths(assets[..i]) + {assets[i]}
  {
    assert assets[..i + 1][..i] == assets[..i];
  }

  /** Removing two sets of keys one after the other removes their union. */
  lemma SubtractTwice<V>(m: map<string, V>, a: set<string>, b: set<string>)
    ensures m - a - b == m - (a + b)
  {
  }

  /** The paths of two lists put together. */
  lemma AssetPathsAppend(a: seq<string>, b: seq<string>)
    ensures AssetPaths(a + b) == AssetPaths(a) + AssetPaths(b)
  {
    assert forall p :: p in a + b <==> p in a || p in b;
  }

  /** Storing the colour map leaves both settings as they were. */
  lemma SettingsKeptBy(before: PrefMap, after: PrefMap, colorMap: string)
    requires var end := Common.FirstAbsent(before, ColorMapKey, |Common.Chunks(colorMap)|);
      after - Common.ChunkKeys(ColorMapKey, end) == before - Common.ChunkKeys(ColorMapKey, end)
    ensures forall key | key == AllKey || key == HoverKey ::
      (key in after <==> key in before) && (key in after ==> after[key] == before[key])
  {
    var keys := Common.ChunkKeys(ColorMapKey, Common.FirstAbsent(before, ColorMapKey, |Common.Chunks(colorMap)|));
    NotAColorMapKey(AllKey);
    NotAColorMapKey(HoverKey);
    assert AllKey in after <==> AllKey in after - keys;
    assert AllKey in before <==> AllKey in before - keys;
    assert HoverKey in after <==> HoverKey in after - keys;
    assert HoverKey in before <==> HoverKey in before - keys;
    if AllKey in after { assert (after - keys)[AllKey] == after[AllKey]; }
    if HoverKey in after { assert (after - keys)[HoverKey] == after[HoverKey]; }
  }

  /** The keys `SetLongPref` writes or deletes when it stores `colorMap`
      over the preferences `m`: the pieces up to the first piece key `m`
      does not hold. */
  function ColorMapPieces(m: PrefMap, colorMap: string): set<string> {
    Common.ChunkKeys(ColorMapKey, Common.FirstAbsent(m, ColorMapKey, |Common.Chunks(colorMap)|))
  }

  /** Setting keys written before the colour map do not move where its
      stale pieces end, so only the settings and the pieces change. */
  lemma ColorMapFrame(before: PrefMap, mid: PrefMap, after: PrefMap, settings: set<string>, colorMap: string)
    requires settings <= {AllKey, HoverKey}
    requires mid - settings == before - settings
    requires after - ColorMapPieces(mid, colorMap) == mid - ColorMapPieces(mid, colorMap)
    ensures after - (settings + ColorMapPieces(before, colorMap)) == before - (settings + ColorMapPieces(before, colorMap))
  {
    var n := |Common.Chunks(colorMap)|;
    NotAColorMapKey(AllKey);
    NotAColorMapKey(HoverKey);
    forall j: nat | n <= j
      ensures && (Common.ChunkKey(ColorMapKey, j) in mid <==> Common.ChunkKey(ColorMapKey, j) in before)
              && (Common.ChunkKey(ColorMapKey, j) in mid ==>
                    mid[Common.ChunkKey(ColorMapKey, j)] == before[Common.ChunkKey(ColorMapKey, j)])
    {
      var key := Common.ChunkKey(ColorMapKey, j);
      assert key in Common.ChunkKeys(ColorMapKey, j + 1);
      assert key !in settings;
      assert key in mid <==> key in mid - settings;
      assert key in before <==> key in before - settings;
      if key in mid {
        assert mid[key] == (mid - settings)[key];
        assert before[key] == (before - settings)[key];
      }
    }
    Common.FirstAbsentAgree(mid, before, ColorMapKey, n);
    var pieces := ColorMapPieces(before, colorMap);
    assert pieces == ColorMapPieces(mid, colorMap);
    forall k | k !in settings + pieces
      ensures (k in after <==> k in before) && (k in after ==> after[k] == before[k])
    {
      assert k in after <==> k in after - pieces;
      assert k in mid <==> k in mid - pieces;
      assert k in mid <==> k in mid - settings;
      assert k in before <==> k in before - settings;
      if k in after {
        assert after[k] == (after - pieces)[k] == (mid - pieces)[k] == mid[k];
        assert mid[k] == (mid - settings)[k] == (before - settings)[k] == before[k];
      }
    }
  }

  /** The colour map's pieces are stored under keys that differ from both
      settings' keys. */
  lemma NotAColorMapKey(key: string)
    requires key == AllKey || key == HoverKey
    ensures forall n: nat :: key !in Common.ChunkKeys(ColorMapKey, n)
  {
    forall j: nat
      ensures Common.ChunkKey(ColorMapKey, j) != key
    {
      var k := Common.ChunkKey(ColorMapKey, j);
      assert k[..|ColorMapKey|] == ColorMapKey;
      if key == HoverKey {
        assert |k| >= 19 && k[18] == 'C' && key[18] == 'P';
      } else {
        assert k[18] == 'C' && key[18] == 'A';
      }
    }
  }
}
