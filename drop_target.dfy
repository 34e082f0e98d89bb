/** `TeneDropTarget`: the popup that lists, while an object is dragged over
    a game object in the hierarchy, every field of the game object's
    components the dragged object could be assigned to, and assigns it when
    the user drops it on one. */
module TeneDropTarget {
  import opened Wrappers
  import opened UnityObjects

  /** What reflection tells about a field: its name, the full name of its
      type, whether it is static, public or private, whether it is declared
      by a base class of the component's type, and its `[NonSerialized]` and
      `[SerializeField]` attributes. */
  datatype FieldInfo = FieldInfo(
    name: string,
    fieldType: string,
    isStatic: bool,
    isPublic: bool,
    isPrivate: bool,
    inherited: bool,
    nonSerialized: bool,
    serializeField: bool)

  /** The events `OnGUI` tells apart. */
  datatype EventType = MouseMove | DragUpdated | Repaint | OtherEvent

  /** `FieldsFor(type)`: `GetFields(Instance | Public | NonPublic)` keeps the
      instance fields, in order, except the private fields of base classes. */
  function FieldsFor(fields: seq<FieldInfo>): (r: seq<FieldInfo>)
    ensures |r| <= |fields|
  {
    if fields == [] then []
    else
      var f := fields[0];
      var rest := FieldsFor(fields[1..]);
      if !f.isStatic && !(f.inherited && f.isPrivate) then [f] + rest else rest
  }

  /** A field is listed exactly when it is an instance field that is not a
      private field of a base class. */
  lemma {:induction false} FieldsForExactly(fields: seq<FieldInfo>)
    ensures forall f | f in FieldsFor(fields) :: f in fields && !f.isStatic && !(f.inherited && f.isPrivate)
    ensures forall f | f in fields && !f.isStatic && !(f.inherited && f.isPrivate) :: f in FieldsFor(fields)
  {
    if fields != [] {
      FieldsForExactly(fields[1..]);
      assert fields == [fields[0]] + fields[1..];
    }
  }

  /** `IsCompatibleField(field, value)`: the rules in order — the field's
      type must hold the value; a static field never takes it; a
      `[NonSerialized]` field never does; a `[SerializeField]` one does;
      otherwise a public one does. */
  function IsCompatibleField(f: FieldInfo, value: UObject): (r: bool)
    ensures f.fieldType !in value.instanceOf ==> !r
    ensures f.isStatic ==> !r
    ensures f.nonSerialized ==> !r
    ensures r <==> f.fieldType in value.instanceOf && !f.isStatic && !f.nonSerialized
                   && (f.serializeField || f.isPublic)
  {
    if f.fieldType !in value.instanceOf then false
    else if f.isStatic then false
    else if f.nonSerialized then false
    else if f.serializeField then true
    else f.isPublic
  }

  /** `[SerializeField]` opens a private or protected field that fits. */
  lemma SerializeFieldAdmitsNonPublic(f: FieldInfo, value: UObject)
    requires f.fieldType in value.instanceOf && !f.isStatic && !f.nonSerialized && f.serializeField
    ensures IsCompatibleField(f, value)
  {
  }

  /** `[NonSerialized]` wins over `[SerializeField]` and over being public,
      because it is tested first. */
  lemma NonSerializedWins(f: FieldInfo, value: UObject)
    requires f.nonSerialized
    ensures !IsCompatibleField(f, value)
    ensures !IsCompatibleField(f.(isPublic := true, serializeField := true), value)
  {
  }

  /** The fields offered for one component: the compatible ones among those
      `FieldsFor` lists. */
  function CompatibleCount(listed: seq<FieldInfo>, value: UObject): (n: nat)
    ensures n <= |listed|
  {
    if listed == [] then 0
    else
      CompatibleCount(listed[..|listed| - 1], value)
        + (if IsCompatibleField(listed[|listed| - 1], value) then 1 else 0)
  }

  /** No field is offered exactly when none of the listed fields fits. */
  lemma {:induction false} NoneCompatible(listed: seq<FieldInfo>, value: UObject)
    ensures CompatibleCount(listed, value) == 0 <==> forall f | f in listed :: !IsCompatibleField(f, value)
  {
    if listed != [] {
      var init := listed[..|listed| - 1];
      NoneCompatible(init, value);
      assert listed == init + [listed[|listed| - 1]];
    }
  }

  /** The current value of a field, as `FieldInfo.GetValue` reads it: none
      when it was never set. */
  function ValueOf(values: map<string, Option<UObject>>, name: string): Option<UObject> {
    if name in values then values[name] else None
  }

  /** The field values after the first `n` listed fields of component `i`
      were offered: a compatible field whose object field came back with
      another value (`picks[(i, j)]`) takes it. */
  function AfterPicks(values: map<string, Option<UObject>>, listed: seq<FieldInfo>, value: UObject,
                      picks: map<(int, int), Option<UObject>>, i: int, n: nat): map<string, Option<UObject>>
    requires n <= |listed|
  {
    if n == 0 then values
    else
      var before := AfterPicks(values, listed, value, picks, i, n - 1);
      var f := listed[n - 1];
      if IsCompatibleField(f, value) && (i, n - 1) in picks && picks[(i, n - 1)] != ValueOf(before, f.name)
      then before[f.name := picks[(i, n - 1)]]
      else before
  }

  /** Whether any of the first `n` listed fields of component `i` changed. */
  function PickedAny(values: map<string, Option<UObject>>, listed: seq<FieldInfo>, value: UObject,
                     picks: map<(int, int), Option<UObject>>, i: int, n: nat): bool
    requires n <= |listed|
  {
    n > 0 &&
      (PickedAny(values, listed, value, picks, i, n - 1)
       || (var before := AfterPicks(values, listed, value, picks, i, n - 1);
           var f := listed[n - 1];
           IsCompatibleField(f, value) && (i, n - 1) in picks && picks[(i, n - 1)] != ValueOf(before, f.name)))
  }

  /** Only fields the dragged object fits can change. */
  lemma {:induction false} OnlyCompatibleFieldsChange(values: map<string, Option<UObject>>, listed: seq<FieldInfo>,
                                                      value: UObject, picks: map<(int, int), Option<UObject>>, i: int, n: nat)
    requires n <= |listed|
    ensures forall name | ValueOf(AfterPicks(values, listed, value, picks, i, n), name) != ValueOf(values, name) ::
      exists j | 0 <= j < n :: listed[j].name == name && IsCompatibleField(listed[j], value)
    ensures !PickedAny(values, listed, value, picks, i, n) ==> AfterPicks(values, listed, value, picks, i, n) == values
  {
    if n > 0 {
      OnlyCompatibleFieldsChange(values, listed, value, picks, i, n - 1);
    }
  }

  /** A component of the target game object: the fields its type has (static
      ones and those of base classes included), and their values. */
  class Component {
    const fields: seq<FieldInfo>
    var values: map<string, Option<UObject>>

    constructor(fields: seq<FieldInfo>, values: map<string, Option<UObject>>)
      ensures this.fields == fields && this.values == values
    {
      this.fields := fields;
      this.values := values;
    }

    /** The inner loop of `OnGUI` for this component (the `i`-th): every
        listed field the dragged object fits is counted, and takes the value
        its object field came back with. */
    method Offer(value: UObject, picks: map<(int, int), Option<UObject>>, i: int)
      returns (items: nat, changed: bool)
      modifies this`values
      ensures items == CompatibleCount(FieldsFor(fields), value)
      ensures values == AfterPicks(old(values), FieldsFor(fields), value, picks, i, |FieldsFor(fields)|)
      ensures changed == PickedAny(old(values), FieldsFor(fields), value, picks, i, |FieldsFor(fields)|)
    {
      var listed := FieldsFor(fields);
      items, changed := 0, false;
      var j := 0;
      while j < |listed|
        invariant 0 <= j <= |listed|
        invariant items == CompatibleCount(listed[..j], value)
        invariant values == AfterPicks(old(values), listed, value, picks, i, j)
        invariant changed == PickedAny(old(values), listed, value, picks, i, j)
      {
        var f := listed[j];
        assert listed[..j + 1][..j] == listed[..j];
        if IsCompatibleField(f, value) {
          var oldValue := ValueOf(values, f.name);
          var newValue := if (i, j) in picks then picks[(i, j)] else oldValue;
          if newValue != oldValue {
            values := values[f.name := newValue];
            changed := true;
          }
          items := items + 1;
        }
        j := j + 1;
      }
      assert listed[..j] == listed;
    }
  }

  /** The popup's state: the target's components (none when no target was
      set), whether it is about to close and since when, whether the mouse
      was over it, and where it wants to be. */
  class DropTarget {
    var target: Option<seq<Component?>>
    var close: bool
    var closeTimeMs: int
    var hadMouseOver: bool
    var repositioned: bool
    var desiredPosition: Rect

    constructor()
      ensures target.None? && !close && !hadMouseOver && !repositioned
      ensures closeTimeMs == 0 && desiredPosition == Rect(0, 0, 0, 0)
    {
      target := None;
      close := false;
      closeTimeMs := 0;
      hadMouseOver := false;
      repositioned := false;
      desiredPosition := Rect(0, 0, 0, 0);
    }

    /** The components `OnGUI` may change. */
    ghost function Components(): set<object>
      reads this
    {
      if target.Some? then set c: Component | c in target.value else {}
    }

    /** `OnGUI` without the painting: nothing while nothing is dragged; a
        mouse move or drag update records that the mouse was over the popup;
        then every component of the target, in order, offers its compatible
        fields for the first dragged object, and a field whose value changed
        starts the close delay. With no field offered the popup says "No
        suitable variables for <type>". A missing target, or a missing
        component, throws. */
    method OnGUI(dragged: seq<UObject>, event: EventType, picks: map<(int, int), Option<UObject>>, nowMs: int)
      returns (items: nat, message: Option<string>, thrown: Option<Exception>)
      requires target.Some? ==> Distinct(target.value)
      modifies this`hadMouseOver, this`close, this`closeTimeMs, this`repositioned, Components()
      ensures dragged == [] ==> items == 0 && message.None? && thrown.None? && close == old(close)
      ensures dragged != [] && (event.MouseMove? || event.DragUpdated?) ==> hadMouseOver
      ensures dragged != [] && target.None? ==> thrown == Some(NullReference)
      ensures Live(dragged, target) ==> thrown.None? && items == Offered(target.value, dragged[0], |target.value|)
      ensures Live(dragged, target) ==> (message.Some? <==> items == 0)
      ensures Live(dragged, target) && message.Some? ==>
        message.value == "No suitable variables for " + dragged[0].typeName
      ensures Live(dragged, target) ==> AppliedUpTo(target.value, old(ValuesOf(target.value)), dragged[0], picks, |target.value|)
      ensures !old(close) && close ==> closeTimeMs == nowMs
      ensures dragged == [] ==> closeTimeMs == old(closeTimeMs)
      ensures Live(dragged, target) ==>
        var changed := ChangedBefore(target.value, old(ValuesOf(target.value)), dragged[0], picks, |target.value|);
        && (close <==> old(close) || changed)
        && closeTimeMs == (if changed then nowMs else old(closeTimeMs))
      ensures dragged != [] && target.Some? && null in target.value ==>
        var changed := ChangedBefore(target.value, old(ValuesOf(target.value)), dragged[0], picks, FirstNull(target.value));
        && AppliedUpTo(target.value, old(ValuesOf(target.value)), dragged[0], picks, FirstNull(target.value))
        && UntouchedFrom(target.value, old(ValuesOf(target.value)), FirstNull(target.value))
        && (close <==> old(close) || changed)
        && closeTimeMs == (if changed then nowMs else old(closeTimeMs))
      ensures thrown.Some? ==> thrown == Some(NullReference) && dragged != [] && (target.None? || null in target.value)
      ensures dragged == [] ==> hadMouseOver == old(hadMouseOver) && repositioned == old(repositioned) && unchanged(Components())
      ensures !(event.MouseMove? || event.DragUpdated?) ==> hadMouseOver == old(hadMouseOver)
    {
      items, message, thrown := 0, None, None;
      if |dragged| == 0 {
        return;
      }
      if event.MouseMove? || event.DragUpdated? {
        hadMouseOver := true;
      }
      if target.None? {
        return 0, None, Some(NullReference);
      }
      assert ValuesOf(target.value) == old(ValuesOf(target.value));
      items, message, thrown := ListFields(dragged[0], event, picks, nowMs);
    }

    /** The listing part of `OnGUI`, for the dragged object `value`. */
    method ListFields(value: UObject, event: EventType, picks: map<(int, int), Option<UObject>>, nowMs: int)
      returns (items: nat, message: Option<string>, thrown: Option<Exception>)
      requires target.Some? && Distinct(target.value)
      modifies this`close, this`closeTimeMs, this`repositioned, Components()
      ensures thrown.Some? <==> null in target.value
      ensures thrown.Some? ==> thrown == Some(NullReference)
      ensures thrown.None? ==> items == Offered(target.value, value, |target.value|)
      ensures thrown.None? ==> (message.Some? <==> items == 0)
      ensures thrown.None? && message.Some? ==> message.value == "No suitable variables for " + value.typeName
      ensures thrown.None? ==> AppliedUpTo(target.value, old(ValuesOf(target.value)), value, picks, |target.value|)
      ensures !old(close) && close ==> closeTimeMs == nowMs
      ensures thrown.None? ==>
        var changed := ChangedBefore(target.value, old(ValuesOf(target.value)), value, picks, |target.value|);
        && (close <==> old(close) || changed)
        && closeTimeMs == (if changed then nowMs else old(closeTimeMs))
      ensures thrown.Some? ==>
        var changed := ChangedBefore(target.value, old(ValuesOf(target.value)), value, picks, FirstNull(target.value));
        && AppliedUpTo(target.value, old(ValuesOf(target.value)), value, picks, FirstNull(target.value))
        && UntouchedFrom(target.value, old(ValuesOf(target.value)), FirstNull(target.value))
        && (close <==> old(close) || changed)
        && closeTimeMs == (if changed then nowMs else old(closeTimeMs))
    {
      items, message := 0, None;
      var changed;
      items, changed, thrown := OfferAll(target.value, value, picks);
      if changed {
        close := true;
        closeTimeMs := nowMs;
      }
      if thrown.Some? {
        return 0, None, thrown;
      }
      if items == 0 {
        message := Some("No suitable variables for " + value.typeName);
      }
      if !repositioned && event.Repaint? {
        repositioned := true;
      }
    }
  }

  /** The number of fields offered by the first `n` components. */
  function Offered(comps: seq<Component?>, value: UObject, n: nat): nat
    requires n <= |comps| && null !in comps[..n]
  {
    if n == 0 then 0
    else
      assert comps[..n - 1] <= comps[..n];
      Offered(comps, value, n - 1) + CompatibleCount(FieldsFor(comps[n - 1].fields), value)
  }

  /** One more component adds the number of its fields the value fits. */
  lemma OfferedStep(comps: seq<Component?>, value: UObject, i: nat)
    requires i < |comps| && null !in comps[..i] && comps[i] != null
    ensures null !in comps[..i + 1]
    ensures Offered(comps, value, i + 1) == Offered(comps, value, i) + CompatibleCount(FieldsFor(comps[i].fields), value)
  {
    assert comps[..i + 1] == comps[..i] + [comps[i]];
  }

  /** The popup says "No suitable variables" exactly when no listed field
      of any component fits the dragged object. */
  lemma {:induction false} NothingOffered(comps: seq<Component?>, value: UObject, n: nat)
    requires n <= |comps| && null !in comps[..n]
    ensures Offered(comps, value, n) == 0 <==>
      forall k | 0 <= k < n :: forall f | f in FieldsFor(comps[k].fields) :: !IsCompatibleField(f, value)
  {
    if n > 0 {
      assert comps[..n - 1] <= comps[..n];
      NothingOffered(comps, value, n - 1);
      assert comps[n - 1] in comps[..n];
      NoneCompatible(FieldsFor(comps[n - 1].fields), value);
    }
  }

  /** Component `c`, the `k`-th, whose values were `was`, now holds what
      offering its fields for `value` gives. */
  ghost predicate Applied(c: Component?, was: map<string, Option<UObject>>, value: UObject,
                          picks: map<(int, int), Option<UObject>>, k: int)
    reads c
  {
    c != null && c.values == AfterPicks(was, FieldsFor(c.fields), value, picks, k, |FieldsFor(c.fields)|)
  }

  /** Offering the fields of component `c`, the `k`-th, whose values were
      `was`, gives one of them a new value. */
  ghost predicate Changes(c: Component?, was: map<string, Option<UObject>>, value: UObject,
                          picks: map<(int, int), Option<UObject>>, k: int)
  {
    c != null && PickedAny(was, FieldsFor(c.fields), value, picks, k, |FieldsFor(c.fields)|)
  }

  /** No component is listed twice. */
  ghost predicate Distinct(comps: seq<Component?>) {
    forall a, b | 0 <= a < b < |comps| :: comps[a] != null ==> comps[a] != comps[b]
  }

  /** Two positions of a list of distinct components hold different ones. */
  lemma DistinctAt(comps: seq<Component?>, a: nat, b: nat)
    requires Distinct(comps) && a < b < |comps| && comps[a] != null
    ensures comps[a] != comps[b]
  {
  }

  /** The values each component holds, no values for a missing one. */
  ghost function ValuesOf(comps: seq<Component?>): (r: seq<map<string, Option<UObject>>>)
    reads set c: Component | c in comps
    ensures |r| == |comps|
  {
    if comps == [] then []
    else
      var last := comps[|comps| - 1];
      ValuesOf(comps[..|comps| - 1]) + [if last != null then last.values else map[]]
  }

  /** `ValuesOf` holds each component's values at its position. */
  lemma {:induction false} ValuesOfAt(comps: seq<Component?>)
    ensures forall k | 0 <= k < |comps| && comps[k] != null :: ValuesOf(comps)[k] == comps[k].values
  {
    if comps != [] {
      var init := comps[..|comps| - 1];
      ValuesOfAt(init);
      assert forall k | 0 <= k < |init| :: init[k] == comps[k];
    }
  }

  /** Offering the fields of one of the first `n` components, which held
      `was`, changed a value. */
  ghost predicate ChangedBefore(comps: seq<Component?>, was: seq<map<string, Option<UObject>>>, value: UObject,
                                picks: map<(int, int), Option<UObject>>, n: nat)
    requires n <= |comps| == |was|
  {
    exists k | 0 <= k < n :: Changes(comps[k], was[k], value, picks, k)
  }

  /** One more component changed a value when it did or an earlier one did. */
  lemma ChangedStep(comps: seq<Component?>, was: seq<map<string, Option<UObject>>>, value: UObject,
                    picks: map<(int, int), Option<UObject>>, i: nat, changed: bool, any: bool)
    requires i < |comps| == |was|
    requires changed <==> ChangedBefore(comps, was, value, picks, i)
    requires any == Changes(comps[i], was[i], value, picks, i)
    ensures changed || any <==> ChangedBefore(comps, was, value, picks, i + 1)
  {
    if any {
      assert Changes(comps[i], was[i], value, picks, i);
    }
  }

  /** The outer loop of `OnGUI`: every component, in order, offers its
      compatible fields (the `k`-th one under the index `k` of `picks`); a
      missing component throws, and the components after it are left as
      they were. `changed` tells whether any field took a new value. */
  method OfferAll(comps: seq<Component?>, value: UObject, picks: map<(int, int), Option<UObject>>)
    returns (items: nat, changed: bool, thrown: Option<Exception>)
    requires Distinct(comps)
    modifies set c: Component | c in comps
    ensures thrown.Some? <==> null in comps
    ensures thrown.Some? ==> thrown == Some(NullReference)
    ensures thrown.None? ==> items == Offered(comps, value, |comps|)
    ensures thrown.None? ==> AppliedUpTo(comps, old(ValuesOf(comps)), value, picks, |comps|)
    ensures thrown.None? ==> (changed <==> ChangedBefore(comps, old(ValuesOf(comps)), value, picks, |comps|))
    ensures changed ==> ChangedBefore(comps, old(ValuesOf(comps)), value, picks, |comps|)
    ensures thrown.Some? ==>
      && AppliedUpTo(comps, old(ValuesOf(comps)), value, picks, FirstNull(comps))
      && UntouchedFrom(comps, old(ValuesOf(comps)), FirstNull(comps))
      && (changed <==> ChangedBefore(comps, old(ValuesOf(comps)), value, picks, FirstNull(comps)))
  {
    items, changed, thrown := 0, false, None;
    ghost var before := ValuesOf(comps);
    ValuesOfAt(comps);
    var i := 0;
    while i < |comps|
      invariant 0 <= i <= |comps|
      invariant null !in comps[..i]
      invariant items == Offered(comps, value, i)
      invariant AppliedUpTo(comps, before, value, picks, i)
      invariant UntouchedFrom(comps, before, i)
      invariant changed <==> ChangedBefore(comps, before, value, picks, i)
    {
      var c := comps[i];
      if c == null {
        FirstNullIsFirst(comps, i);
        return items, changed, Some(NullReference);
      }
      var n, any := OfferAt(comps, value, picks, i, before);
      OfferedStep(comps, value, i);
      ChangedStep(comps, before, value, picks, i, changed, any);
      changed := changed || any;
      items := items + n;
      i := i + 1;
    }
    assert comps[..i] == comps;
  }

  /** The position of the first missing component. */
  function FirstNull(comps: seq<Component?>): (i: nat)
    requires null in comps
    ensures i < |comps| && comps[i] == null && null !in comps[..i]
  {
    if comps[0] == null then 0
    else
      assert null in comps[1..];
      var j := FirstNull(comps[1..]);
      assert comps[..j + 1] == [comps[0]] + comps[1..][..j];
      j + 1
  }

  /** A missing component with none before it is the first missing one. */
  lemma FirstNullIsFirst(comps: seq<Component?>, i: nat)
    requires i < |comps| && comps[i] == null && null !in comps[..i]
    ensures FirstNull(comps) == i
  {
  }

  /** One step of the outer loop: the `i`-th component offers its fields,
      and only it changes. */
  method OfferAt(comps: seq<Component?>, value: UObject, picks: map<(int, int), Option<UObject>>,
                 i: nat, ghost before: seq<map<string, Option<UObject>>>)
    returns (items: nat, changed: bool)
    requires i < |comps| == |before| && comps[i] != null && Distinct(comps)
    requires AppliedUpTo(comps, before, value, picks, i) && UntouchedFrom(comps, before, i)
    modifies comps[i]
    ensures items == CompatibleCount(FieldsFor(comps[i].fields), value)
    ensures changed == Changes(comps[i], before[i], value, picks, i)
    ensures AppliedUpTo(comps, before, value, picks, i + 1) && UntouchedFrom(comps, before, i + 1)
  {
    var c := comps[i];
    assert c.values == before[i];
    items, changed := c.Offer(value, picks, i);
    forall k | 0 <= k < i
      ensures Applied(comps[k], before[k], value, picks, k)
    {
      DistinctAt(comps, k, i);
    }
    forall k | i < k < |comps| && comps[k] != null
      ensures comps[k].values == before[k]
    {
      DistinctAt(comps, i, k);
    }
  }

  /** Every one of the first `n` components holds what offering its fields
      gives, from the values `was` it held. */
  ghost predicate AppliedUpTo(comps: seq<Component?>, was: seq<map<string, Option<UObject>>>, value: UObject,
                              picks: map<(int, int), Option<UObject>>, n: nat)
    requires n <= |comps| == |was|
    reads set c: Component | c in comps
  {
    forall k | 0 <= k < n :: Applied(comps[k], was[k], value, picks, k)
  }

  /** The components from `n` on still hold the values `was`. */
  ghost predicate UntouchedFrom(comps: seq<Component?>, was: seq<map<string, Option<UObject>>>, n: nat)
    requires n <= |comps| == |was|
    reads set c: Component | c in comps
  {
    forall k | n <= k < |comps| && comps[k] != null :: comps[k].values == was[k]
  }

  /** Something is dragged, and the popup targets a game object none of
      whose components is missing: `OnGUI` gets through the listing. */
  predicate Live(dragged: seq<UObject>, target: Option<seq<Component?>>) {
    dragged != [] && target.Some? && null !in target.value
  }

  /** The static part: the one shared popup. */
  class DropHost {
    var window: DropTarget?

    constructor()
      ensures window == null
    {
      window := null;
    }

    /** The static `Update(anchor, mouse, object)`: opens the popup when
        there is none and resets its flags; the object's name is read for the
        title, which throws for no object; otherwise the popup targets it
        and is moved to the anchor at the mouse's height. */
    method Update(anchor: Rect, mouse: Point, target: Option<seq<Component?>>)
      returns (thrown: Option<Exception>)
      modifies this, window
      ensures window != null && (old(window) != null ==> window == old(window))
      ensures !window.close && !window.repositioned && !window.hadMouseOver
      ensures target.None? ==> thrown == Some(NullReference)
      ensures target.Some? ==>
        (thrown.None? && window.target == target && window.desiredPosition == anchor.(y := mouse.y))
      ensures old(window) == null ==> fresh(window) && window.closeTimeMs == 0
      ensures old(window) == null && target.None? ==> window.target.None? && window.desiredPosition == Rect(0, 0, 0, 0)
      ensures old(window) != null ==> window.closeTimeMs == old(window.closeTimeMs)
      ensures old(window) != null && target.None? ==>
        window.target == old(window.target) && window.desiredPosition == old(window.desiredPosition)
    {
      if window == null {
        window := new DropTarget();
      }
      var w := window;
      w.close := false;
      w.repositioned := false;
      w.hadMouseOver := false;
      if target.None? {
        return Some(NullReference);
      }
      w.target := target;
      w.desiredPosition := anchor.(y := mouse.y);
      thrown := None;
    }

    /** `Hide`: the popup is destroyed and forgotten. */
    method Hide()
      modifies this
      ensures window == null
    {
      window := null;
    }

    /** The popup's `Update`, on every editor tick: once a field was set,
        it hides more than half a second later; before that, it hides as soon
        as nothing is dragged (`dragCount`). */
    method Tick(dragCount: nat, nowMs: int)
      modifies this
      ensures old(window) == null ==> window == null
      ensures old(window) != null && old(window.close) ==>
        (window == null <==> nowMs - old(window.closeTimeMs) > 500)
      ensures old(window) != null && !old(window.close) ==> (window == null <==> dragCount == 0)
      ensures window != null ==> window == old(window)
    {
      if window == null {
        return;
      }
      if window.close {
        if nowMs - window.closeTimeMs > 500 {
          Hide();
        }
      } else if dragCount == 0 {
        Hide();
      }
    }
  }
}
