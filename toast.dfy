/** The toast queue of `useToast`, the defaults `addToast` fills in, the
    container's grouping by screen corner and the animation phase of one
    toast. Toast ids (`Date.now() + Math.random()`) are passed in. */
module Toast {
  import opened Wrappers
  import opened Sequences

  type ToastId = int

  const DefaultKind: string := "info"
  const DefaultDuration: int := 3000
  const DefaultDirection: string := "top-right"

  /** The `options` object; `None` is a property left undefined. */
  datatype ToastOptions = ToastOptions(
    kind: Option<string>,
    duration: Option<int>,
    direction: Option<string>,
    showCloseButton: Option<bool>)

  const NoOptions := ToastOptions(None, None, None, None)

  datatype ToastRecord = ToastRecord(
    id: ToastId,
    message: string,
    kind: string,
    duration: int,
    direction: string,
    showCloseButton: bool)

  /** The record `addToast` builds. `type` and `direction` fall back with
      `||`, so an empty string gets the default too; `duration` and
      `showCloseButton` fall back only when undefined, so 0 and false are
      kept. */
  function MakeToast(id: ToastId, message: string, options: ToastOptions): (t: ToastRecord)
    ensures t.id == id && t.message == message
    ensures t.kind != "" && t.direction != ""
    ensures options.kind.Some? && options.kind.value != "" ==> t.kind == options.kind.value
    ensures options.kind.None? || options.kind == Some("") ==> t.kind == DefaultKind
    ensures options.duration.Some? ==> t.duration == options.duration.value
    ensures options.duration.None? ==> t.duration == DefaultDuration
    ensures options.direction.Some? && options.direction.value != "" ==> t.direction == options.direction.value
    ensures options.direction.None? || options.direction == Some("") ==> t.direction == DefaultDirection
    ensures options.showCloseButton.Some? ==> t.showCloseButton == options.showCloseButton.value
    ensures options.showCloseButton.None? ==> t.showCloseButton
  {
    ToastRecord(
      id,
      message,
      if options.kind.Some? && options.kind.value != "" then options.kind.value else DefaultKind,
      if options.duration.Some? then options.duration.value else DefaultDuration,
      if options.direction.Some? && options.direction.value != "" then options.direction.value else DefaultDirection,
      if options.showCloseButton.Some? then options.showCloseButton.value else true)
  }

  /** With no options at all every field takes its default. */
  lemma AllDefaults(id: ToastId, message: string)
    ensures MakeToast(id, message, NoOptions) == ToastRecord(id, message, "info", 3000, "top-right", true)
  {
  }

  /** `{ ...options, type: kind }`: the typed helpers override `type`. */
  function WithKind(options: ToastOptions, kind: string): (o: ToastOptions)
    ensures o.kind == Some(kind)
    ensures o.duration == options.duration && o.direction == options.direction
    ensures o.showCloseButton == options.showCloseButton
  {
    options.(kind := Some(kind))
  }

  /** Whatever `type` the caller passes, a typed helper's toast has the
      helper's own type, and every other option is kept. */
  lemma TypedHelperForcesKind(id: ToastId, message: string, options: ToastOptions, kind: string)
    requires kind != ""
    ensures MakeToast(id, message, WithKind(options, kind)).kind == kind
    ensures MakeToast(id, message, WithKind(options, kind)).(kind := DefaultKind)
         == MakeToast(id, message, options.(kind := None))
  {
  }

  /** How many toasts carry the id. */
  function CountId(toasts: seq<ToastRecord>, id: ToastId): nat
    decreases |toasts|
  {
    if toasts == [] then 0
    else (if toasts[0].id == id then 1 else 0) + CountId(toasts[1..], id)
  }

  /** `prev.filter(toast => toast.id !== id)`: every toast with the id is
      gone, every other one stays, in order, and nothing else is dropped. */
  function RemoveById(toasts: seq<ToastRecord>, id: ToastId): (r: seq<ToastRecord>)
    ensures forall t :: t in r <==> t in toasts && t.id != id
    ensures IsSubsequence(r, toasts)
    ensures |r| == |toasts| - CountId(toasts, id)
    ensures CountId(toasts, id) == 0 ==> r == toasts
    decreases |toasts|
  {
    if toasts == [] then []
    else if toasts[0].id == id then RemoveById(toasts[1..], id)
    else
      var rest := RemoveById(toasts[1..], id);
      assert ([toasts[0]] + rest)[1..] == rest;
      [toasts[0]] + rest
  }

  /** Filtering distributes over concatenation. */
  lemma {:induction false} RemoveByIdConcat(a: seq<ToastRecord>, b: seq<ToastRecord>, id: ToastId)
    ensures RemoveById(a + b, id) == RemoveById(a, id) + RemoveById(b, id)
    decreases |a|
  {
    if a == [] {
      assert a + b == b;
    } else {
      assert (a + b)[1..] == a[1..] + b;
      RemoveByIdConcat(a[1..], b, id);
    }
  }

  /** Removing a toast right after adding it under a fresh id gives back the
      queue as it was: `removeToast` undoes `addToast`. */
  lemma AddThenRemove(toasts: seq<ToastRecord>, id: ToastId, message: string, options: ToastOptions)
    requires forall t :: t in toasts ==> t.id != id
    ensures RemoveById(toasts + [MakeToast(id, message, options)], id) == toasts
  {
    RemoveByIdConcat(toasts, [MakeToast(id, message, options)], id);
    NoIdCountsZero(toasts, id);
  }

  lemma {:induction false} NoIdCountsZero(toasts: seq<ToastRecord>, id: ToastId)
    requires forall t :: t in toasts ==> t.id != id
    ensures CountId(toasts, id) == 0
    decreases |toasts|
  {
    if toasts != [] {
      assert toasts[0] in toasts;
      NoIdCountsZero(toasts[1..], id);
    }
  }

  /** The `toasts` state of `useToast`. */
  class ToastQueue {
    var toasts: seq<ToastRecord>

    constructor ()
      ensures toasts == []
    {
      toasts := [];
    }

    /** Appends the new toast and returns its id. */
    method AddToast(message: string, options: ToastOptions, freshId: ToastId) returns (id: ToastId)
      modifies this
      ensures id == freshId
      ensures toasts == old(toasts) + [MakeToast(freshId, message, options)]
    {
      id := freshId;
      toasts := toasts + [MakeToast(id, message, options)];
    }

    method RemoveToast(id: ToastId)
      modifies this
      ensures toasts == RemoveById(old(toasts), id)
    {
      toasts := RemoveById(toasts, id);
    }

    method RemoveAllToasts()
      modifies this
      ensures toasts == []
    {
      toasts := [];
    }

    method Success(message: string, options: ToastOptions, freshId: ToastId) returns (id: ToastId)
      modifies this
      ensures id == freshId
      ensures toasts == old(toasts) + [MakeToast(freshId, message, WithKind(options, "success"))]
    {
      id := AddToast(message, WithKind(options, "success"), freshId);
    }

    method Error(message: string, options: ToastOptions, freshId: ToastId) returns (id: ToastId)
      modifies this
      ensures id == freshId
      ensures toasts == old(toasts) + [MakeToast(freshId, message, WithKind(options, "error"))]
    {
      id := AddToast(message, WithKind(options, "error"), freshId);
    }

    method Warning(message: string, options: ToastOptions, freshId: ToastId) returns (id: ToastId)
      modifies this
      ensures id == freshId
      ensures toasts == old(toasts) + [MakeToast(freshId, message, WithKind(options, "warning"))]
    {
      id := AddToast(message, WithKind(options, "warning"), freshId);
    }

    method Info(message: string, options: ToastOptions, freshId: ToastId) returns (id: ToastId)
      modifies this
      ensures id == freshId
      ensures toasts == old(toasts) + [MakeToast(freshId, message, WithKind(options, "info"))]
    {
      id := AddToast(message, WithKind(options, "info"), freshId);
    }
  }

  /** The corner a toast is grouped under: `toast.direction || 'top-right'`. */
  function GroupKey(t: ToastRecord): (d: string)
    ensures d != ""
    ensures t.direction != "" ==> d == t.direction
  {
    if t.direction != "" then t.direction else DefaultDirection
  }

  /** The corners in the order they first occur, which is the order of
      `Object.entries` on the accumulator. */
  function Corners(toasts: seq<ToastRecord>): seq<string>
    decreases |toasts|
  {
    if toasts == [] then []
    else
      var prefix := Corners(toasts[..|toasts| - 1]);
      var d := GroupKey(toasts[|toasts| - 1]);
      if d in prefix then prefix else prefix + [d]
  }

  /** The toasts of one corner, in queue order. */
  function InCorner(toasts: seq<ToastRecord>, d: string): seq<ToastRecord>
    decreases |toasts|
  {
    if toasts == [] then []
    else if GroupKey(toasts[0]) == d then [toasts[0]] + InCorner(toasts[1..], d)
    else InCorner(toasts[1..], d)
  }

  /** A corner's group holds exactly the toasts of that corner, in queue
      order; a corner no toast has gets an empty group. */
  lemma {:induction false} InCornerProperties(toasts: seq<ToastRecord>, d: string)
    ensures forall t :: t in InCorner(toasts, d) <==> t in toasts && GroupKey(t) == d
    ensures IsSubsequence(InCorner(toasts, d), toasts)
    ensures (forall t :: t in toasts ==> GroupKey(t) != d) ==> InCorner(toasts, d) == []
    decreases |toasts|
  {
    if toasts != [] {
      InCornerProperties(toasts[1..], d);
      var rest := InCorner(toasts[1..], d);
      assert forall t :: t in toasts <==> t == toasts[0] || t in toasts[1..];
      if GroupKey(toasts[0]) == d {
        assert ([toasts[0]] + rest)[1..] == rest;
      }
    }
  }

  /** Appending a toast extends its own corner's group and no other. */
  lemma {:induction false} InCornerSnoc(toasts: seq<ToastRecord>, t: ToastRecord, d: string)
    ensures InCorner(toasts + [t], d) == InCorner(toasts, d) + (if GroupKey(t) == d then [t] else [])
    decreases |toasts|
  {
    if toasts == [] {
      assert toasts + [t] == [t];
      assert [t][1..] == [];
    } else {
      assert (toasts + [t])[1..] == toasts[1..] + [t];
      InCornerSnoc(toasts[1..], t, d);
    }
  }

  predicate Distinct(s: seq<string>) {
    forall i, j :: 0 <= i < j < |s| ==> s[i] != s[j]
  }

  /** Each corner occurs once, and exactly the corners of the toasts occur. */
  lemma {:induction false} CornersProperties(toasts: seq<ToastRecord>)
    ensures Distinct(Corners(toasts))
    ensures forall d :: d in Corners(toasts) <==> exists t :: t in toasts && GroupKey(t) == d
    decreases |toasts|
  {
    if toasts != [] {
      var init := toasts[..|toasts| - 1];
      var last := toasts[|toasts| - 1];
      CornersProperties(init);
      assert toasts == init + [last];
      forall d | d in Corners(toasts)
        ensures exists t :: t in toasts && GroupKey(t) == d
      {
        if d in Corners(init) {
          var t :| t in init && GroupKey(t) == d;
          assert t in toasts;
        } else {
          assert last in toasts;
        }
      }
      forall d | exists t :: t in toasts && GroupKey(t) == d
        ensures d in Corners(toasts)
      {
        var t :| t in toasts && GroupKey(t) == d;
        if t != last {
          assert t in init;
        }
      }
    }
  }

  /** `groups` is the container's grouping of `toasts`: one entry per
      corner, in first-seen order, each with its toasts in queue order. */
  ghost predicate GroupsFor(groups: seq<(string, seq<ToastRecord>)>, toasts: seq<ToastRecord>) {
    |groups| == |Corners(toasts)| &&
    forall k :: 0 <= k < |groups| ==>
      groups[k].0 == Corners(toasts)[k] && groups[k].1 == InCorner(toasts, groups[k].0)
  }

  /** Pushing onto the array of a corner already seen. */
  lemma PushExisting(groups: seq<(string, seq<ToastRecord>)>, toasts: seq<ToastRecord>, t: ToastRecord, j: nat)
    requires GroupsFor(groups, toasts)
    requires j < |groups| && groups[j].0 == GroupKey(t)
    ensures GroupsFor(groups[j := (GroupKey(t), groups[j].1 + [t])], toasts + [t])
  {
    var s := toasts + [t];
    assert s[..|s| - 1] == toasts;
    CornersProperties(toasts);
    assert Corners(s) == Corners(toasts);
    forall k | 0 <= k < |groups|
      ensures InCorner(s, groups[k].0) == groups[k].1 + (if k == j then [t] else [])
    {
      InCornerSnoc(toasts, t, groups[k].0);
    }
  }

  /** Creating the array of a corner seen for the first time. */
  lemma PushNew(groups: seq<(string, seq<ToastRecord>)>, toasts: seq<ToastRecord>, t: ToastRecord)
    requires GroupsFor(groups, toasts)
    requires forall k :: 0 <= k < |groups| ==> groups[k].0 != GroupKey(t)
    ensures GroupsFor(groups + [(GroupKey(t), [t])], toasts + [t])
  {
    var s := toasts + [t];
    assert s[..|s| - 1] == toasts;
    assert GroupKey(t) !in Corners(toasts);
    forall k | 0 <= k < |groups|
      ensures InCorner(s, groups[k].0) == groups[k].1
    {
      InCornerSnoc(toasts, t, groups[k].0);
    }
    InCornerSnoc(toasts, t, GroupKey(t));
    assert InCorner(toasts, GroupKey(t)) == [] by {
      CornersProperties(toasts);
      InCornerProperties(toasts, GroupKey(t));
    }
  }

  /** `if (!acc[direction])`: the position of the corner's group, or the
      number of groups when the corner has none yet. */
  method FindGroup(groups: seq<(string, seq<ToastRecord>)>, d: string) returns (j: nat)
    ensures j <= |groups|
    ensures j < |groups| ==> groups[j].0 == d
    ensures forall k :: 0 <= k < j ==> groups[k].0 != d
  {
    j := 0;
    while j < |groups| && groups[j].0 != d
      invariant 0 <= j <= |groups|
      invariant forall k :: 0 <= k < j ==> groups[k].0 != d
    {
      j := j + 1;
    }
  }

  /** `toastsByDirection`: the reduce over the queue, as the loop it is.
      Each toast is pushed onto the array of its corner, which is created
      the first time the corner is seen. */
  method GroupByDirection(toasts: seq<ToastRecord>) returns (groups: seq<(string, seq<ToastRecord>)>)
    ensures GroupsFor(groups, toasts)
  {
    groups := [];
    var i := 0;
    while i < |toasts|
      invariant 0 <= i <= |toasts|
      invariant GroupsFor(groups, toasts[..i])
    {
      var t := toasts[i];
      var d := GroupKey(t);
      assert toasts[..i + 1] == toasts[..i] + [t];
      var j := FindGroup(groups, d);
      if j < |groups| {
        PushExisting(groups, toasts[..i], t, j);
        groups := groups[j := (d, groups[j].1 + [t])];
      } else {
        PushNew(groups, toasts[..i], t);
        groups := groups + [(d, [t])];
      }
      i := i + 1;
    }
    assert toasts[..i] == toasts;
  }

  /** Every toast lands in exactly one group, the one of its corner. */
  lemma GroupingPartitions(toasts: seq<ToastRecord>, groups: seq<(string, seq<ToastRecord>)>, t: ToastRecord)
    requires GroupsFor(groups, toasts)
    requires t in toasts
    ensures exists k :: 0 <= k < |groups| && groups[k].0 == GroupKey(t) && t in groups[k].1
    ensures forall k :: 0 <= k < |groups| && t in groups[k].1 ==> groups[k].0 == GroupKey(t)
    ensures forall k1, k2 :: 0 <= k1 < k2 < |groups| ==> !(t in groups[k1].1 && t in groups[k2].1)
  {
    CornersProperties(toasts);
    assert GroupKey(t) in Corners(toasts);
    forall k | 0 <= k < |groups|
      ensures t in groups[k].1 <==> groups[k].0 == GroupKey(t)
    {
      InCornerProperties(toasts, groups[k].0);
    }
    var k :| 0 <= k < |Corners(toasts)| && Corners(toasts)[k] == GroupKey(t);
    assert t in groups[k].1;
  }

  /** The three animation classes of a toast. */
  datatype Phase = Enter | Show | Exit

  /** `getTransformClass`: exiting wins over visible, and a toast neither
      exiting nor yet visible is entering. */
  function TransformPhase(isExiting: bool, isVisible: bool): (p: Phase)
    ensures p == Exit <==> isExiting
    ensures p == Show <==> !isExiting && isVisible
    ensures p == Enter <==> !isExiting && !isVisible
  {
    if isExiting then Exit else if isVisible then Show else Enter
  }

  /** One entry of the `DIRECTIONS` table. */
  datatype DirectionConfig = DirectionConfig(container: string, enter: string, show: string, exit: string)

  const Transparent: string := "opacity-0"
  const Opaque: string := "opacity-100"

  predicate EndsWith(s: string, suffix: string) {
    |suffix| <= |s| && s[|s| - |suffix|..] == suffix
  }

  lemma EndsWithConcat(s: string, suffix: string)
    ensures EndsWith(s + suffix, suffix)
  {
    assert (s + suffix)[|s + suffix| - |suffix|..] == suffix;
  }

  /** `DIRECTIONS[direction]`; `None` for a corner the table lacks. */
  function Directions(direction: string): Option<DirectionConfig> {
    if direction == "top-right" then
      Some(DirectionConfig("top-4 right-4", "translate-x-full opacity-0", "translate-x-0 opacity-100", "translate-x-full opacity-0"))
    else if direction == "top-left" then
      Some(DirectionConfig("top-4 left-4", "-translate-x-full opacity-0", "translate-x-0 opacity-100", "-translate-x-full opacity-0"))
    else if direction == "bottom-right" then
      Some(DirectionConfig("bottom-4 right-4", "translate-x-full opacity-0", "translate-x-0 opacity-100", "translate-x-full opacity-0"))
    else if direction == "bottom-left" then
      Some(DirectionConfig("bottom-4 left-4", "-translate-x-full opacity-0", "translate-x-0 opacity-100", "-translate-x-full opacity-0"))
    else if direction == "top-center" then
      Some(DirectionConfig("top-4 left-1/2 transform -translate-x-1/2", "-translate-y-full opacity-0", "translate-y-0 opacity-100", "-translate-y-full opacity-0"))
    else if direction == "bottom-center" then
      Some(DirectionConfig("bottom-4 left-1/2 transform -translate-x-1/2", "translate-y-full opacity-0", "translate-y-0 opacity-100", "translate-y-full opacity-0"))
    else None
  }

  /** The table's two resting classes are fully opaque. */
  lemma ShowClassesOpaque()
    ensures EndsWith("translate-x-0 opacity-100", Opaque)
    ensures EndsWith("translate-y-0 opacity-100", Opaque)
  {
    assert "translate-x-0 opacity-100" == "translate-x-0 " + Opaque;
    EndsWithConcat("translate-x-0 ", Opaque);
    assert "translate-y-0 opacity-100" == "translate-y-0 " + Opaque;
    EndsWithConcat("translate-y-0 ", Opaque);
  }

  /** The table's four moved-away classes are transparent. */
  lemma EnterClassesTransparent()
    ensures EndsWith("translate-x-full opacity-0", Transparent)
    ensures EndsWith("-translate-x-full opacity-0", Transparent)
    ensures EndsWith("translate-y-full opacity-0", Transparent)
    ensures EndsWith("-translate-y-full opacity-0", Transparent)
  {
    assert "translate-x-full opacity-0" == "translate-x-full " + Transparent;
    EndsWithConcat("translate-x-full ", Transparent);
    assert "-translate-x-full opacity-0" == "-translate-x-full " + Transparent;
    EndsWithConcat("-translate-x-full ", Transparent);
    assert "translate-y-full opacity-0" == "translate-y-full " + Transparent;
    EndsWithConcat("translate-y-full ", Transparent);
    assert "-translate-y-full opacity-0" == "-translate-y-full " + Transparent;
    EndsWithConcat("-translate-y-full ", Transparent);
  }

  /** The six corners the demo offers. */
  predicate KnownDirection(direction: string) {
    direction in {"top-right", "top-left", "bottom-right", "bottom-left", "top-center", "bottom-center"}
  }

  /** Every corner has a table entry, in which a toast leaves the way it
      came in (the exit class is the enter class), is transparent on entry
      and fully opaque while shown; the default corner is one of them. */
  lemma DirectionsTable(direction: string)
    ensures Directions(direction).Some? <==> KnownDirection(direction)
    ensures Directions(direction).Some? ==> Directions(direction).value.enter == Directions(direction).value.exit
    ensures Directions(direction).Some? ==> EndsWith(Directions(direction).value.show, Opaque)
    ensures Directions(direction).Some? ==> EndsWith(Directions(direction).value.enter, Transparent)
    ensures KnownDirection(DefaultDirection)
  {
    ShowClassesOpaque();
    EnterClassesTransparent();
  }

  /** The class the toast's transform takes: the table entry of its corner
      chosen by the phase. A corner missing from the table has no entry,
      which the component would dereference: `None`. */
  function TransformClass(direction: string, isExiting: bool, isVisible: bool): (c: Option<string>)
    ensures c.Some? <==> KnownDirection(direction)
    ensures c.Some? && isExiting ==> c.value == Directions(direction).value.exit
    ensures c.Some? && !isExiting && isVisible ==> c.value == Directions(direction).value.show
    ensures c.Some? && !isExiting && !isVisible ==> c.value == Directions(direction).value.enter
  {
    DirectionsTable(direction);
    match Directions(direction)
    case None => None
    case Some(config) =>
      Some(match TransformPhase(isExiting, isVisible)
           case Exit => config.exit
           case Show => config.show
           case Enter => config.enter)
  }
}
