/** `ProjectWindowPreview`: the floating window the project pane opens on an
    asset under the mouse, and `ProjectWindowPreviewInfo`, the shorter
    description that window shows (only audio clips and 2D textures have
    one). */
module ProjectWindowPreview {
  import opened Wrappers
  import Text
  import opened UnityObjects
  import AssetInfo

  /** `ProjectWindowPreviewInfo.GetPreviewInfo(this Object)`: audio clips and
      2D textures are described, everything else (null included) gives "". */
  function PreviewInfo(o: Option<UObject>): (r: string)
    ensures o.None? ==> r == ""
    ensures o.Some? && !o.value.kind.AudioClipKind? && !o.value.kind.Texture2DKind? ==> r == ""
  {
    match o
    case None => ""
    case Some(obj) =>
      match obj.kind
      case AudioClipKind(length, channels) => AudioInfo(length, channels)
      case Texture2DKind(format, w, h) => TextureInfo(format, w, h)
      case _ => ""
  }

  /** `GetPreviewInfo(this AudioClip)`: the duration on its own line, then
      the channel wording. */
  function AudioInfo(lengthMs: nat, channels: int): (r: string)
    ensures var d := AssetInfo.DurationText(lengthMs);
      |r| > |d| && r[..|d|] == d && r[|d|] == '\n'
    ensures Text.EndsWith(r, AssetInfo.ChannelText(channels))
    ensures |r| == |AssetInfo.DurationText(lengthMs)| + 1 + |AssetInfo.ChannelText(channels)|
  {
    var d, c := AssetInfo.DurationText(lengthMs) + "\n", AssetInfo.ChannelText(channels);
    assert (d + c)[|d + c| - |c|..] == c;
    d + c
  }

  /** The pane's audio text and the tooltip's audio text differ only in the
      character after the duration: a line break here, a space there. */
  lemma AudioInfoAgainstTooltip(lengthMs: nat, channels: int)
    ensures var here, there := AudioInfo(lengthMs, channels), AssetInfo.AudioClipInfo(lengthMs, channels);
      var k := |AssetInfo.DurationText(lengthMs)|;
      && |here| == |there| && here[k] == '\n' && there[k] == ' '
      && (forall i :: 0 <= i < |here| && i != k ==> here[i] == there[i])
  {
    var d, c := AssetInfo.DurationText(lengthMs), AssetInfo.ChannelText(channels);
    var here, there := AudioInfo(lengthMs, channels), AssetInfo.AudioClipInfo(lengthMs, channels);
    assert here == d + "\n" + c;
    assert there == d + " " + c;
    forall i | 0 <= i < |here| && i != |d|
      ensures here[i] == there[i]
    {
      if i < |d| {
        assert here[i] == d[i] == there[i];
      } else {
        assert here[i] == c[i - |d| - 1] == there[i];
      }
    }
  }

  /** The first line of the audio text reads back as the clip length, less
      whole days. */
  lemma AudioInfoDuration(lengthMs: nat, channels: int)
    ensures var r := AudioInfo(lengthMs, channels);
      var d := |AssetInfo.DurationText(lengthMs)|;
      d >= 9 && AssetInfo.ReadDuration(r[..d]) == lengthMs % 86400000
  {
    AssetInfo.DurationTextRoundTrip(lengthMs);
  }

  /** `GetPreviewInfo(this Texture2D)`: the format, then "<width> x
      <height>" on the next line. */
  function TextureInfo(format: string, width: int, height: int): (r: string)
    ensures Text.StartsWith(r, format + "\n")
    ensures |r| == |AssetInfo.Texture2DInfo(format, width, height)| + 2
    ensures r[|format| + 1..] == Text.IntToString(width) + " x " + Text.IntToString(height)
  {
    var head := format + "\n";
    var r := head + Text.IntToString(width) + " x " + Text.IntToString(height);
    assert r[..|head|] == head;
    assert r[|head|..] == Text.IntToString(width) + " x " + Text.IntToString(height);
    r
  }

  /** The pane's texture text names the format and size: equal texts come
      from equal formats, widths and heights (a format name is one line). */
  lemma TextureInfoInjective(f1: string, w1: int, h1: int, f2: string, w2: int, h2: int)
    requires '\n' !in f1 && '\n' !in f2
    requires TextureInfo(f1, w1, h1) == TextureInfo(f2, w2, h2)
    ensures f1 == f2 && w1 == w2 && h1 == h2
  {
    var a1, b1 := Text.IntToString(w1), Text.IntToString(h1);
    var a2, b2 := Text.IntToString(w2), Text.IntToString(h2);
    var t1, t2 := a1 + [' '] + ("x " + b1), a2 + [' '] + ("x " + b2);
    TextureInfoFields(f1, w1, h1);
    TextureInfoFields(f2, w2, h2);
    Text.SplitAtFirst(f1, '\n', t1, f2, t2);
    Text.SplitAtFirst(a1, ' ', "x " + b1, a2, "x " + b2);
    assert b1 == ("x " + b1)[2..] && b2 == ("x " + b2)[2..];
    Text.IntToStringInjective(w1, w2);
    Text.IntToStringInjective(h1, h2);
  }

  /** The texture text cut at its line break and at the space after the
      width. */
  lemma TextureInfoFields(f: string, w: int, h: int)
    ensures TextureInfo(f, w, h) == f + ['\n'] + (Text.IntToString(w) + [' '] + ("x " + Text.IntToString(h)))
  {
  }

  /** The text under the preview: the preview info, a line break and the
      full type name of the asset. */
  function WindowText(o: UObject): (r: string)
    ensures Text.EndsWith(r, "\n" + o.typeName)
    ensures Text.StartsWith(r, PreviewInfo(Some(o)))
    ensures |r| == |PreviewInfo(Some(o))| + 1 + |o.typeName|
  {
    var head, tail := PreviewInfo(Some(o)), "\n" + o.typeName;
    assert (head + tail)[|head + tail| - |tail|..] == tail;
    assert (head + tail)[..|head|] == head;
    head + tail
  }

  /** The preview window's state: the asset shown, its texture, when the
      texture was first asked for, whether to give up on it, and the text
      under it. */
  class PreviewWindow {
    var guid: Option<string>
    var path: Option<string>
    var asset: Option<UObject>
    var tex: Option<UObject>
    var timeStartMs: int
    var noPreview: bool
    var info: string
    var hasAlpha: bool
    var position: Rect

    /** Only a 2D texture is drawn with its alpha channel, and it is its own
        preview. */
    ghost predicate Valid()
      reads this
    {
      hasAlpha ==> asset.Some? && asset.value.kind.Texture2DKind? && tex == asset
    }

    /** `EditorWindow.GetWindow<ProjectWindowPreview>()`: a new window with
        every field at its default and the host's initial position. */
    constructor(initial: Rect)
      ensures guid.None? && path.None? && asset.None? && tex.None?
      ensures !noPreview && !hasAlpha && info == "" && position == initial
      ensures Valid()
    {
      guid := None;
      path := None;
      asset := None;
      tex := None;
      timeStartMs := 0;
      noPreview := false;
      info := "";
      hasAlpha := false;
      position := initial;
    }

    /** The `GUID` setter: looks the asset up, resets the per-asset state,
        takes a 2D texture as its own preview (widening the window 200 to the
        left) and asks the host for a preview of anything else, then writes
        the text. A GUID without an asset throws when the type name is read,
        after the resets. */
    method SetGUID(value: string, db: AssetDatabase, preview: Option<UObject>, nowMs: int)
      returns (thrown: Option<Exception>)
      modifies this
      ensures guid == Some(value) && path == Some(db.GUIDToAssetPath(value))
      ensures var a := db.LoadAssetAtPath(db.GUIDToAssetPath(value));
        && asset == a
        && !noPreview
        && (hasAlpha <==> a.Some? && a.value.kind.Texture2DKind?)
        && tex == (if hasAlpha then a else preview)
        && position == (if hasAlpha
          then Rect(old(position).x - 200, old(position).y, old(position).width + 200, old(position).height)
          else old(position))
        && (a.None? ==> thrown == Some(NullReference) && info == "" && timeStartMs == old(timeStartMs))
        && (a.Some? ==> thrown.None? && timeStartMs == nowMs && info == WindowText(a.value))
      ensures Valid()
    {
      var p := db.GUIDToAssetPath(value);
      var a := db.LoadAssetAtPath(p);
      guid := Some(value);
      path := Some(p);
      asset := a;
      noPreview := false;
      hasAlpha := false;
      info := "";
      if a.Some? && a.value.kind.Texture2DKind? {
        tex := a;
        hasAlpha := true;
        position := Rect(position.x - 200, position.y, position.width + 200, position.height);
      } else {
        tex := preview;
      }
      if a.None? {
        thrown := Some(NullReference);
        return;
      }
      info := WindowText(a.value);
      timeStartMs := nowMs;
      thrown := None;
    }

    /** `Update`: while there is no texture yet for a known asset, asks the
        host again (`preview` is its answer now); still none more than three
        seconds after the asset was set gives up with "No preview". */
    method Update(preview: Option<UObject>, nowMs: int)
      requires Valid()
      modifies this`tex, this`noPreview
      ensures Valid()
      ensures old(tex).Some? || guid.None? || asset.None? ==> tex == old(tex) && noPreview == old(noPreview)
      ensures old(tex).None? && guid.Some? && asset.Some? ==>
        tex == preview && noPreview == (old(noPreview) || (preview.None? && nowMs - timeStartMs > 3000))
      ensures noPreview && !old(noPreview) ==> nowMs - timeStartMs > 3000 && tex.None?
    {
      if tex.None? && guid.Some? && asset.Some? {
        tex := preview;
        if tex.None? && nowMs - timeStartMs > 3000 {
          noPreview := true;
        }
      }
    }
  }
}
