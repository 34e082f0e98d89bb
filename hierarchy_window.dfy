/** `TeneHierarchyWindow`: decorations of each row of the hierarchy pane. A
    game object on a layer the scene camera does not render is underlined,
    and the row ends with a strip of icons, one per component, right to left;
    clicking an icon switches that component on or off. */
module TeneHierarchyWindow {
  import opened Wrappers
  import opened UnityObjects
  import Text

  /** The scene view's camera; its culling mask is read when a row is
      drawn. */
  class Camera {
    var cullingMask: bv32

    constructor(mask: bv32)
      ensures cullingMask == mask
    {
      cullingMask := mask;
    }
  }

  /** Whether bit `k` of a 32-bit mask is set. */
  predicate Bit(mask: bv32, k: bv32)
    requires k < 32
  {
    (mask >> k) & 1 == 1
  }

  /** The layer test of `Draw`: `(1 << layer) & cullingMask`, where C#
      takes the shift count modulo 32. */
  function LayerRendered(mask: bv32, layer: int): (r: bool)
    ensures r <==> Bit(mask, (layer % 32) as bv32)
  {
    var k := (layer % 32) as bv32;
    LayerBit(mask, k);
    ((1 as bv32) << k) & mask != 0
  }

  /** The mask with bit `k` alone, against the mask shifted down by `k`. */
  lemma LayerBit(mask: bv32, k: bv32)
    requires k < 32
    ensures ((1 as bv32) << k) & mask != 0 <==> Bit(mask, k)
  {
  }

  /** A row is underlined when there is a scene camera and it does not
      render the object's layer. */
  function Culled(mask: Option<bv32>, layer: int): (r: bool)
    ensures r <==> mask.Some? && !Bit(mask.value, (layer % 32) as bv32)
  {
    mask.Some? && !LayerRendered(mask.value, layer)
  }

  /** A camera that renders everything underlines nothing; one that renders
      nothing underlines every row. */
  lemma EverythingOrNothing(layer: int)
    ensures !Culled(Some(0xFFFF_FFFF), layer)
    ensures Culled(Some(0), layer)
  {
    LayerBit(0xFFFF_FFFF, (layer % 32) as bv32);
    LayerBit(0, (layer % 32) as bv32);
  }

  /** Layers 32 apart are the same layer to the test. */
  lemma LayerWraps(mask: Option<bv32>, layer: int)
    ensures Culled(mask, layer + 32) == Culled(mask, layer)
  {
    assert (layer + 32) % 32 == layer % 32;
  }

  /** The underline: `"".PadRight(name.Length, '_')`. */
  function Underline(name: string): (r: string)
    ensures |r| == |name|
    ensures forall i | 0 <= i < |r| :: r[i] == '_'
  {
    Text.Repeat('_', |name|)
  }

  /** A component of the row's game object: whether it is the transform,
      the full name of its type, whether an icon is found for it (its
      script's cached icon or its mini thumbnail), and its bool `enabled`
      property when its type has one. A missing script is a null
      component. */
  class Component {
    const isTransform: bool
    const typeName: string
    const hasIcon: bool
    var enabled: Option<bool>

    constructor(isTransform: bool, typeName: string, hasIcon: bool, enabled: Option<bool>)
      ensures this.isTransform == isTransform && this.typeName == typeName
      ensures this.hasIcon == hasIcon && this.enabled == enabled
    {
      this.isTransform := isTransform;
      this.typeName := typeName;
      this.hasIcon := hasIcon;
      this.enabled := enabled;
    }
  }

  /** `GetEnabled`: true for no component or one without the property. */
  function GetEnabled(c: Component?): (r: bool)
    reads c
    ensures !r <==> c != null && c.enabled == Some(false)
  {
    if c == null then true
    else if c.enabled.None? then true
    else c.enabled.value
  }

  /** `SetEnabled`: nothing for no component; otherwise the property is
      written when the type has one. */
  method SetEnabled(c: Component?, value: bool)
    modifies c
    ensures c != null && old(c.enabled).Some? ==> c.enabled == Some(value) && GetEnabled(c) == value
    ensures c != null && old(c.enabled).None? ==> c.enabled == old(c.enabled)
  {
    if c == null {
      return;
    }
    if c.enabled.Some? {
      c.enabled := Some(value);
    }
  }

  /** The tooltip of a component's icon: its type's name without
      "UnityEngine.". */
  function Tooltip(typeName: string): (r: string)
    ensures |r| <= |typeName|
  {
    Text.RemoveAll(typeName, "UnityEngine.")
  }

  /** A built-in component loses its namespace. */
  lemma TooltipOfBuiltIn(name: string)
    ensures Tooltip("UnityEngine." + name) == Tooltip(name)
  {
    Text.RemoveAllLeading("UnityEngine.", name);
  }

  /** How far a component moves the next icon to the left: a missing
      script 9, a component with an icon 16, the transform and a component
      without an icon nothing. */
  function Width(c: Component?): (w: nat)
    ensures w <= 16
    ensures c == null ==> w == 9
    ensures c != null && !c.isTransform && c.hasIcon ==> w == 16
    ensures c != null && (c.isTransform || !c.hasIcon) ==> w == 0
  {
    if c == null then 9
    else if c.isTransform then 0
    else if c.hasIcon then 16
    else 0
  }

  /** How far left of the strip's start the `n`-th component is drawn. */
  function Offset(comps: seq<Component?>, n: nat): (d: nat)
    requires n <= |comps|
    ensures d <= 16 * n
  {
    if n == 0 then 0 else Offset(comps, n - 1) + Width(comps[n - 1])
  }

  /** The positions before `n` that hold a component drawn with an icon. */
  ghost function IconSlots(comps: seq<Component?>, n: nat): set<nat>
    requires n <= |comps|
  {
    set j: nat | j < n && comps[j] != null && !comps[j].isTransform && comps[j].hasIcon
  }

  /** The positions before `n` that hold a missing script. */
  ghost function MissingSlots(comps: seq<Component?>, n: nat): set<nat>
    requires n <= |comps|
  {
    set j: nat | j < n && comps[j] == null
  }

  /** The offset counts what came before: 16 for each icon, 9 for each
      missing script. */
  lemma {:induction false} OffsetCounts(comps: seq<Component?>, n: nat)
    requires n <= |comps|
    ensures Offset(comps, n) == 16 * |IconSlots(comps, n)| + 9 * |MissingSlots(comps, n)|
  {
    if n == 0 {
      assert IconSlots(comps, 0) == {};
      assert MissingSlots(comps, 0) == {};
    } else {
      OffsetCounts(comps, n - 1);
      IconSlotsStep(comps, n);
      MissingSlotsStep(comps, n);
    }
  }

  /** One more position adds one icon slot when it holds an icon. */
  lemma IconSlotsStep(comps: seq<Component?>, n: nat)
    requires 0 < n <= |comps|
    ensures var c := comps[n - 1];
      |IconSlots(comps, n)| == |IconSlots(comps, n - 1)| + (if c != null && !c.isTransform && c.hasIcon then 1 else 0)
  {
    var c := comps[n - 1];
    var before, after := IconSlots(comps, n - 1), IconSlots(comps, n);
    if c != null && !c.isTransform && c.hasIcon {
      assert after == before + {n - 1};
    } else {
      assert after == before;
    }
  }

  /** One more position adds one missing slot when it holds no script. */
  lemma MissingSlotsStep(comps: seq<Component?>, n: nat)
    requires 0 < n <= |comps|
    ensures |MissingSlots(comps, n)| == |MissingSlots(comps, n - 1)| + (if comps[n - 1] == null then 1 else 0)
  {
    var before, after := MissingSlots(comps, n - 1), MissingSlots(comps, n);
    if comps[n - 1] == null {
      assert after == before + {n - 1};
    } else {
      assert after == before;
    }
  }

  /** The strip only moves left. */
  lemma {:induction false} OffsetGrows(comps: seq<Component?>, a: nat, b: nat)
    requires a <= b <= |comps|
    ensures Offset(comps, a) + (if a < b then Width(comps[a]) else 0) <= Offset(comps, b)
    decreases b - a
  {
    if a < b {
      OffsetGrows(comps, a, b - 1);
      if a < b - 1 {
        assert Offset(comps, a) + Width(comps[a]) <= Offset(comps, b - 1);
      }
    }
  }

  /** Two icons never overlap: a later one lies at least its width to the
      left of an earlier one, so no click hits two of them. */
  lemma IconsDisjoint(comps: seq<Component?>, a: nat, b: nat)
    requires a < b < |comps| && comps[a] != null && !comps[a].isTransform && comps[a].hasIcon
    ensures Offset(comps, a) + 16 <= Offset(comps, b)
  {
    OffsetGrows(comps, a, b);
  }

  /** What the strip shows for one component. */
  datatype Mark =
    | Skipped                                        // the transform
    | MissingScript(x: int)                          // a red "X" at `x`
    | Icon(x: int, tooltip: string, dimmed: bool)    // an icon button at `x`
    | NoIcon(dimmed: bool)                           // nothing shown

  /** The mark of a component whose icon slot starts at `x`; a disabled
      component is drawn dimmed. */
  function MarkFor(c: Component?, x: int): (m: Mark)
    reads c
    ensures c == null <==> m.MissingScript?
    ensures m.MissingScript? ==> m.x == x + 4
    ensures m.Icon? ==> m.x == x && (m.dimmed <==> !GetEnabled(c))
  {
    if c == null then MissingScript(x + 4)
    else if c.isTransform then Skipped
    else if c.hasIcon then Icon(x, Tooltip(c.typeName), !GetEnabled(c))
    else NoIcon(!GetEnabled(c))
  }

  /** The icon rectangle of a slot starting at `x` in a row at height `y`. */
  function IconRect(x: int, y: int): Rect {
    Rect(x, y - 1, 16, 16)
  }

  /** Whether the click lands on component `j`'s icon. */
  predicate HitAt(comps: seq<Component?>, start: int, y: int, click: Option<Point>, j: nat)
    requires j < |comps|
  {
    && comps[j] != null && !comps[j].isTransform && comps[j].hasIcon
    && click.Some? && IconRect(start - Offset(comps, j), y).Contains(click.value)
  }

  /** The first of the first `n` components whose icon the click lands on. */
  function FirstHit(comps: seq<Component?>, start: int, y: int, click: Option<Point>, n: nat): (r: Option<nat>)
    requires n <= |comps|
    ensures r.Some? ==> r.value < n
  {
    if n == 0 then None
    else
      var r := FirstHit(comps, start, y, click, n - 1);
      if r.Some? then r
      else if HitAt(comps, start, y, click, n - 1) then Some(n - 1)
      else None
  }

  /** `FirstHit` is the first component whose icon the click lands on, and
      none means the click lands on no icon. */
  lemma {:induction false} FirstHitIsFirst(comps: seq<Component?>, start: int, y: int, click: Option<Point>, n: nat)
    requires n <= |comps|
    ensures var r := FirstHit(comps, start, y, click, n);
      && (r.Some? ==> HitAt(comps, start, y, click, r.value))
      && (r.Some? ==> forall j | 0 <= j < r.value :: !HitAt(comps, start, y, click, j))
      && (r.None? <==> forall j | 0 <= j < n :: !HitAt(comps, start, y, click, j))
  {
    if n > 0 {
      FirstHitIsFirst(comps, start, y, click, n - 1);
    }
  }

  /** A click lands on one icon at most. */
  lemma OneHitAtMost(comps: seq<Component?>, start: int, y: int, click: Option<Point>, a: nat, b: nat)
    requires a < b < |comps|
    ensures !(HitAt(comps, start, y, click, a) && HitAt(comps, start, y, click, b))
  {
    if HitAt(comps, start, y, click, a) && comps[b] != null {
      IconsDisjoint(comps, a, b);
    }
  }

  /** The scene camera the row decorations use, captured once. */
  class HierarchyState {
    var sceneCam: Camera?

    constructor()
      ensures sceneCam == null
    {
      sceneCam := null;
    }

    /** `Updated`, on every scene view event: on a repaint, with no camera
        yet, the first of the scene cameras (when there is one) is kept. */
    method Updated(isRepaint: bool, cameras: seq<Camera>)
      modifies this
      ensures old(sceneCam) != null ==> sceneCam == old(sceneCam)
      ensures !isRepaint ==> sceneCam == old(sceneCam)
      ensures isRepaint && old(sceneCam) == null ==> sceneCam == (if cameras == [] then null else cameras[0])
    {
      if isRepaint && sceneCam == null && |cameras| > 0 {
        sceneCam := cameras[0];
      }
    }

    /** The mask the layer test reads. */
    function SceneMask(): Option<bv32>
      reads this, sceneCam
    {
      if sceneCam == null then None else Some(sceneCam.cullingMask)
    }

    /** `Draw(instanceID, rect)` for a row showing a game object (`None` when
        the row's object is not one): the underline when culled, then the
        strip of marks from 16 left of the row's right edge. A click on an
        icon flips that component's `enabled` (when it has the property) and
        ends the strip there; `toggled` is its place. */
    method Draw(gameObject: Option<seq<Component?>>, name: string, layer: int, row: Rect, click: Option<Point>)
      returns (underline: Option<string>, marks: seq<Mark>, toggled: Option<nat>)
      requires gameObject.Some? ==> forall a, b | 0 <= a < b < |gameObject.value| ::
        gameObject.value[a] != null ==> gameObject.value[a] != gameObject.value[b]
      modifies if gameObject.Some? then set c: Component | c in gameObject.value else {}
      ensures gameObject.None? ==> underline.None? && marks == [] && toggled.None?
      ensures gameObject.Some? ==> (underline.Some? <==> Culled(old(SceneMask()), layer))
      ensures underline.Some? ==> underline.value == Underline(name)
      ensures gameObject.Some? ==>
        toggled == FirstHit(gameObject.value, row.x + row.width - 16, row.y, click, |gameObject.value|)
      ensures gameObject.Some? ==>
        |marks| == (if toggled.Some? then toggled.value + 1 else |gameObject.value|)
      ensures gameObject.Some? ==> forall k {:trigger marks[k]} | 0 <= k < |marks| ::
        marks[k] == old(MarkFor(gameObject.value[k], row.x + row.width - 16 - Offset(gameObject.value, k)))
      ensures gameObject.Some? ==> forall k | 0 <= k < |gameObject.value| && gameObject.value[k] != null && toggled != Some(k) ::
        gameObject.value[k].enabled == old(gameObject.value[k].enabled)
      ensures toggled.Some? && gameObject.Some? ==>
        var c := gameObject.value[toggled.value];
        c != null && (old(c.enabled).Some? ==> c.enabled == Some(!old(c.enabled).value))
        && (old(c.enabled).None? ==> c.enabled.None?)
    {
      underline, marks, toggled := None, [], None;
      if gameObject.None? {
        return;
      }
      var comps := gameObject.value;
      if Culled(SceneMask(), layer) {
        underline := Some(Underline(name));
      }
      marks, toggled := Strip(comps, row.x + row.width - 16, row.y, click);
      if toggled.Some? {
        var j := toggled.value;
        var c := comps[j];
        FirstHitIsFirst(comps, row.x + row.width - 16, row.y, click, |comps|);
        SetEnabled(c, !GetEnabled(c));
        forall k | 0 <= k < |comps| && comps[k] != null && k != j
          ensures comps[k] != c
        {
          if k < j {
            assert comps[k] != comps[j];
          }
        }
      }
    }
  }

  /** The strip of marks, right to left from `start`, up to and including
      the first icon the click lands on (`hit`). */
  method Strip(comps: seq<Component?>, start: int, y: int, click: Option<Point>)
    returns (marks: seq<Mark>, hit: Option<nat>)
    ensures hit == FirstHit(comps, start, y, click, |comps|)
    ensures |marks| == (if hit.Some? then hit.value + 1 else |comps|)
    ensures forall k {:trigger marks[k]} | 0 <= k < |marks| :: marks[k] == MarkFor(comps[k], start - Offset(comps, k))
  {
    marks, hit := [], None;
    var x := start;
    var j := 0;
    while j < |comps|
      invariant 0 <= j <= |comps|
      invariant x == start - Offset(comps, j)
      invariant |marks| == j
      invariant forall k {:trigger marks[k]} | 0 <= k < j :: marks[k] == MarkFor(comps[k], start - Offset(comps, k))
      invariant FirstHit(comps, start, y, click, j).None?
    {
      var c := comps[j];
      marks := marks + [MarkFor(c, x)];
      if c != null && !c.isTransform && c.hasIcon && click.Some? && IconRect(x, y).Contains(click.value) {
        assert HitAt(comps, start, y, click, j);
        FirstHitAfter(comps, start, y, click, j + 1, |comps|);
        return marks, Some(j);
      }
      assert !HitAt(comps, start, y, click, j);
      x := x - Width(c);
      j := j + 1;
    }
  }

  /** Once found, the first hit stays the first. */
  lemma {:induction false} FirstHitAfter(comps: seq<Component?>, start: int, y: int, click: Option<Point>, m: nat, n: nat)
    requires 0 < m <= n <= |comps| && FirstHit(comps, start, y, click, m).Some?
    ensures FirstHit(comps, start, y, click, n) == FirstHit(comps, start, y, click, m)
    decreases n - m
  {
    if m < n {
      FirstHitAfter(comps, start, y, click, m, n - 1);
    }
  }
}
