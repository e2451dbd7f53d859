/** The viewer's own logic: building one scene-graph node per primitive and
    one group per frame, deriving the effective group list, propagating
    group visibility over a node tree, and the viewer state that attaches
    one frame group at a time.  Rendering, cameras, lights, controls and
    geometry are outside the model; a node keeps only what the viewer's
    logic reads and writes. */
module SceneViewer {
  import opened Wrappers
  import opened Schema
  import StringOrder

  /** A THREE.Color: three channels. */
  datatype ThreeColor = ThreeColor(r: real, g: real, b: real)

  /** `makeThreeColor` / `colorToThree`: opaque white when no colour is
      given, otherwise the colour's first three channels (alpha dropped). */
  function ToThreeColor(c: Option<Color>): (t: ThreeColor)
    ensures c.None? ==> t == ThreeColor(1.0, 1.0, 1.0)
    ensures c.Some? ==> [t.r, t.g, t.b] == Channels(c.value)[..3]
  {
    match c
    case None => ThreeColor(1.0, 1.0, 1.0)
    case Some(col) => ThreeColor(col.r, col.g, col.b)
  }

  /** The `userData` the builder attaches to an object. */
  datatype UserData = UserData(groupId: Option<string>, isCone: bool, tip: Option<Vec3>)

  const NoUserData: UserData := UserData(None, false, None)

  /** A THREE.Object3D reduced to its user data, the colour of its material
      (none for a plain group, and none for a text sprite, whose material
      holds only the canvas texture), its `visible` flag and its children. */
  datatype Node = Node(userData: UserData, material: Option<ThreeColor>, visible: bool, children: seq<Node>)

  /** JavaScript truthiness of an optional string: present and non-empty. */
  predicate Truthy(s: Option<string>)
  {
    s.Some? && s.value != ""
  }

  /** `if (prim.group) obj.userData.groupId = prim.group` on a fresh object. */
  function TagIfTruthy(group: Option<string>): UserData
  {
    if Truthy(group) then UserData(group, false, None) else NoUserData
  }

  /** A freshly built, visible object without children. */
  function Leaf(data: UserData, color: Option<Color>): Node
  {
    Node(data, Some(ToThreeColor(color)), true, [])
  }

  /** `buildPrimitiveObject`: the object built for one primitive, if any.
      A cylinder whose start equals its end yields `null`; the kinds without
      a case in the switch (`polygonMesh`, `lineSegments`, `pointCloud`)
      yield `undefined`; both are `None` here. */
  function BuildPrimitiveObject(p: Primitive): (r: Option<Node>)
    ensures r.None? <==> (p.Cylinder? && p.start == p.end) || p.PolygonMesh? || p.LineSegments? || p.PointCloud?
    ensures r.Some? ==> r.value.visible && r.value.children == []
    ensures r.Some? ==> r.value.material == if p.Text? then None else Some(ToThreeColor(p.color))
    ensures r.Some? && !p.Cone? ==>
      && r.value.userData.groupId == (if Truthy(p.group) then p.group else None)
      && !r.value.userData.isCone && r.value.userData.tip.None?
    ensures p.Cone? ==> r.Some? && r.value.userData == UserData(p.group, true, Some(p.tip))
  {
    match p
    case Point(_, c, _, g) => Some(Leaf(TagIfTruthy(g), c))
    case Line(_, _, c, _, g) => Some(Leaf(TagIfTruthy(g), c))
    case Sphere(_, _, c, _, g) => Some(Leaf(TagIfTruthy(g), c))
    case Cone(tip, _, _, _, c, g) => Some(Leaf(UserData(g, true, Some(tip)), c))
    case Rect(_, _, _, c, _, g) => Some(Leaf(TagIfTruthy(g), c))
    case Text(_, _, _, _, _, g) => Some(Node(TagIfTruthy(g), None, true, []))
    case Cylinder(s, e, _, c, _, g) => if s == e then None else Some(Leaf(TagIfTruthy(g), c))
    case PolygonMesh(_, _, _, _, _, _) => None
    case LineSegments(_, _, _, _) => None
    case PointCloud(_, _, _, _) => None
  }

  /** `Object3D.add`: an object becomes the last child; `null` and
      `undefined` are refused by three.js, which adds nothing. */
  function Add(children: seq<Node>, obj: Option<Node>): seq<Node>
  {
    if obj.Some? then children + [obj.value] else children
  }

  /** The children of a frame group after one `add` per primitive, in
      primitive order. */
  function Built(ps: seq<Primitive>): seq<Node>
  {
    if ps == [] then [] else Add(Built(ps[..|ps| - 1]), BuildPrimitiveObject(ps[|ps| - 1]))
  }

  /** The group built for a frame: untagged, visible, holding `Built`. */
  function FrameGroup(f: Frame): Node
  {
    Node(NoUserData, None, true, Built(f.primitives))
  }

  /** `buildFrameGroup`: a new group and one `add` per primitive. */
  method BuildFrameGroup(frame: Frame) returns (group: Node)
    ensures group == FrameGroup(frame)
  {
    var ps := frame.primitives;
    var children: seq<Node> := [];
    for i := 0 to |ps|
      invariant children == Built(ps[..i])
    {
      var obj := BuildPrimitiveObject(ps[i]);
      children := Add(children, obj);
      assert ps[..i + 1][..i] == ps[..i];
    }
    assert ps[..|ps|] == ps;
    group := Node(NoUserData, None, true, children);
  }

  /** Building a concatenation builds each part in turn: children keep the
      order of their primitives. */
  lemma {:induction false} BuiltAppend(ps: seq<Primitive>, qs: seq<Primitive>)
    ensures Built(ps + qs) == Built(ps) + Built(qs)
    decreases |qs|
  {
    if qs != [] {
      var last := qs[|qs| - 1];
      assert (ps + qs)[..|ps + qs| - 1] == ps + qs[..|qs| - 1];
      BuiltAppend(ps, qs[..|qs| - 1]);
    } else {
      assert ps + qs == ps;
    }
  }

  /** When every primitive builds, the group has exactly one child per
      primitive, the i-th child built from the i-th primitive. */
  lemma {:induction false} BuiltAllRenderable(ps: seq<Primitive>)
    requires forall i :: 0 <= i < |ps| ==> BuildPrimitiveObject(ps[i]).Some?
    ensures |Built(ps)| == |ps|
    ensures forall i :: 0 <= i < |ps| ==> Built(ps)[i] == BuildPrimitiveObject(ps[i]).value
    decreases |ps|
  {
    if ps != [] {
      var init := ps[..|ps| - 1];
      assert forall i :: 0 <= i < |init| ==> init[i] == ps[i];
      BuiltAllRenderable(init);
      var last := BuildPrimitiveObject(ps[|ps| - 1]);
      assert Built(ps) == Built(init) + [last.value];
      forall i | 0 <= i < |ps| ensures Built(ps)[i] == BuildPrimitiveObject(ps[i]).value {
        if i < |init| {
          assert Built(ps)[i] == Built(init)[i];
        }
      }
    }
  }

  /** Every child of a frame group was built from one of its primitives,
      and there are never more children than primitives. */
  lemma {:induction false} BuiltFromPrimitives(ps: seq<Primitive>)
    ensures |Built(ps)| <= |ps|
    ensures forall c :: c in Built(ps) ==> exists i :: 0 <= i < |ps| && BuildPrimitiveObject(ps[i]) == Some(c)
    decreases |ps|
  {
    if ps != [] {
      var init := ps[..|ps| - 1];
      BuiltFromPrimitives(init);
      forall c | c in Built(ps)
        ensures exists i :: 0 <= i < |ps| && BuildPrimitiveObject(ps[i]) == Some(c)
      {
        if c in Built(init) {
          var i :| 0 <= i < |init| && BuildPrimitiveObject(init[i]) == Some(c);
          assert ps[i] == init[i];
        } else {
          assert BuildPrimitiveObject(ps[|ps| - 1]) == Some(c);
        }
      }
    }
  }

  // ----- Visibility -----

  /** `vis[id] !== false`: ids the map does not know are visible. */
  predicate VisibleFor(vis: map<string, bool>, id: string)
  {
    !(id in vis && !vis[id])
  }

  /** A node whose `userData.groupId` is truthy. */
  predicate Tagged(n: Node)
  {
    Truthy(n.userData.groupId)
  }

  /** The tree after `applyGroupVisibilityToObject(n, vis)`. */
  function Applied(n: Node, vis: map<string, bool>): Node
    decreases n
  {
    Node(n.userData, n.material,
         if Tagged(n) then VisibleFor(vis, n.userData.groupId.value) else n.visible,
         seq(|n.children|, i requires 0 <= i < |n.children| => Applied(n.children[i], vis)))
  }

  /** Every tagged node of the tree has the flag the map gives its group. */
  predicate FlagsFollow(n: Node, vis: map<string, bool>)
    decreases n
  {
    && (Tagged(n) ==> n.visible == VisibleFor(vis, n.userData.groupId.value))
    && forall i :: 0 <= i < |n.children| ==> FlagsFollow(n.children[i], vis)
  }

  /** Two trees of the same shape, with the same user data and materials
      at every position; only `visible` flags may differ. */
  predicate SameShape(a: Node, b: Node)
    decreases a
  {
    && a.userData == b.userData && a.material == b.material
    && |a.children| == |b.children|
    && forall i :: 0 <= i < |a.children| ==> SameShape(a.children[i], b.children[i])
  }

  /** Every untagged node of `a` has the same flag at the same position in `b`. */
  predicate UntaggedKept(a: Node, b: Node)
    decreases a
  {
    && (!Tagged(a) ==> b.visible == a.visible)
    && |a.children| == |b.children|
    && forall i :: 0 <= i < |a.children| ==> UntaggedKept(a.children[i], b.children[i])
  }

  /** Every node of the tree is visible. */
  predicate AllVisible(n: Node)
    decreases n
  {
    n.visible && forall i :: 0 <= i < |n.children| ==> AllVisible(n.children[i])
  }

  /** `applyGroupVisibilityToObject`: sets the flag of each tagged node and
      visits every child. */
  method ApplyGroupVisibility(n: Node, vis: map<string, bool>) returns (r: Node)
    ensures r == Applied(n, vis)
    decreases n
  {
    var visible := n.visible;
    if Tagged(n) {
      visible := VisibleFor(vis, n.userData.groupId.value);
    }
    var children: seq<Node> := [];
    for i := 0 to |n.children|
      invariant |children| == i
      invariant forall k :: 0 <= k < i ==> children[k] == Applied(n.children[k], vis)
    {
      var c := ApplyGroupVisibility(n.children[i], vis);
      children := children + [c];
    }
    r := Node(n.userData, n.material, visible, children);
  }

  /** After the walk, every tagged node anywhere in the tree shows exactly
      when its group is not switched off. */
  lemma {:induction false} AppliedFollows(n: Node, vis: map<string, bool>)
    ensures FlagsFollow(Applied(n, vis), vis)
    decreases n
  {
    forall i | 0 <= i < |n.children|
      ensures FlagsFollow(Applied(n, vis).children[i], vis)
    {
      AppliedFollows(n.children[i], vis);
    }
  }

  /** The walk changes no tag, material or child: only flags. */
  lemma {:induction false} AppliedKeepsShape(n: Node, vis: map<string, bool>)
    ensures SameShape(Applied(n, vis), n)
    decreases n
  {
    forall i | 0 <= i < |n.children|
      ensures SameShape(Applied(n, vis).children[i], n.children[i])
    {
      AppliedKeepsShape(n.children[i], vis);
    }
  }

  /** The walk leaves the flag of every untagged node as it was. */
  lemma {:induction false} AppliedKeepsUntagged(n: Node, vis: map<string, bool>)
    ensures UntaggedKept(n, Applied(n, vis))
    decreases n
  {
    forall i | 0 <= i < |n.children|
      ensures UntaggedKept(n.children[i], Applied(n, vis).children[i])
    {
      AppliedKeepsUntagged(n.children[i], vis);
    }
  }

  /** A tree whose flags already follow the map is left as it is. */
  lemma {:induction false} FollowingIsFixed(n: Node, vis: map<string, bool>)
    requires FlagsFollow(n, vis)
    ensures Applied(n, vis) == n
    decreases n
  {
    forall i | 0 <= i < |n.children|
      ensures Applied(n, vis).children[i] == n.children[i]
    {
      FollowingIsFixed(n.children[i], vis);
    }
    assert Applied(n, vis).children == n.children;
  }

  /** Applying the same map twice gives the same tree as applying it once. */
  lemma AppliedIdempotent(n: Node, vis: map<string, bool>)
    ensures Applied(Applied(n, vis), vis) == Applied(n, vis)
  {
    AppliedFollows(n, vis);
    FollowingIsFixed(Applied(n, vis), vis);
  }

  lemma {:induction false} SameShapeTransitive(a: Node, b: Node, c: Node)
    requires SameShape(a, b) && SameShape(b, c)
    ensures SameShape(a, c)
    decreases a
  {
    forall i | 0 <= i < |a.children|
      ensures SameShape(a.children[i], c.children[i])
    {
      SameShapeTransitive(a.children[i], b.children[i], c.children[i]);
    }
  }

  lemma {:induction false} SameShapeReflexive(a: Node)
    ensures SameShape(a, a)
    decreases a
  {
    forall i | 0 <= i < |a.children|
      ensures SameShape(a.children[i], a.children[i])
    {
      SameShapeReflexive(a.children[i]);
    }
  }

  /** A tree that is visible everywhere follows every map that switches no
      group off. */
  lemma {:induction false} AllVisibleFollows(n: Node, vis: map<string, bool>)
    requires AllVisible(n)
    requires forall id :: id in vis ==> vis[id]
    ensures FlagsFollow(n, vis)
    decreases n
  {
    forall i | 0 <= i < |n.children|
      ensures FlagsFollow(n.children[i], vis)
    {
      AllVisibleFollows(n.children[i], vis);
    }
  }

  /** A freshly built frame group is visible everywhere. */
  lemma {:induction false} FrameGroupAllVisible(f: Frame)
    ensures AllVisible(FrameGroup(f))
  {
    BuiltFromPrimitives(f.primitives);
    var g := FrameGroup(f);
    forall i | 0 <= i < |g.children|
      ensures AllVisible(g.children[i])
    {
      assert g.children[i] in Built(f.primitives);
    }
  }

  // ----- Groups -----

  /** The display list names its groups: `groups` present and non-empty. */
  predicate ExplicitGroups(dl: DisplayList)
  {
    dl.groups.Some? && |dl.groups.value| > 0
  }

  /** `t` is the truthy group tag of some primitive of some frame. */
  ghost predicate IsTag(dl: DisplayList, t: string)
  {
    t != "" && exists i, j :: 0 <= i < |dl.frames| && 0 <= j < |dl.frames[i].primitives|
                              && dl.frames[i].primitives[j].group == Some(t)
  }

  function Ids(groups: seq<GroupDef>): (ids: seq<string>)
    ensures |ids| == |groups| && forall i :: 0 <= i < |groups| ==> ids[i] == groups[i].id
  {
    seq(|groups|, i requires 0 <= i < |groups| => groups[i].id)
  }

  /** What `collectGroupDefs` promises: the explicit groups unchanged when
      there are any; otherwise one `{id, label: id}` per distinct truthy tag,
      ascending and without duplicates. */
  ghost predicate GroupDefsFor(dl: DisplayList, groups: seq<GroupDef>)
  {
    if ExplicitGroups(dl) then groups == dl.groups.value
    else
      && StringOrder.StrictlySorted(Ids(groups))
      && (forall t :: t in Ids(groups) <==> IsTag(dl, t))
      && forall g :: g in groups ==> g.caption == g.id
  }

  /** The truthy tags of a sequence of primitives. */
  function PrimitiveTags(ps: seq<Primitive>): set<string>
  {
    if ps == [] then {}
    else PrimitiveTags(ps[..|ps| - 1]) + (if Truthy(ps[|ps| - 1].group) then {ps[|ps| - 1].group.value} else {})
  }

  /** The truthy tags of a sequence of frames. */
  function FrameTags(fs: seq<Frame>): set<string>
  {
    if fs == [] then {} else FrameTags(fs[..|fs| - 1]) + PrimitiveTags(fs[|fs| - 1].primitives)
  }

  lemma {:induction false} PrimitiveTagsMembership(ps: seq<Primitive>, t: string)
    ensures t in PrimitiveTags(ps) <==> t != "" && exists j :: 0 <= j < |ps| && ps[j].group == Some(t)
    decreases |ps|
  {
    if ps != [] {
      var init := ps[..|ps| - 1];
      PrimitiveTagsMembership(init, t);
      if t != "" && exists j :: 0 <= j < |ps| && ps[j].group == Some(t) {
        var j :| 0 <= j < |ps| && ps[j].group == Some(t);
        if j < |init| {
          assert init[j] == ps[j];
        }
      }
      if t in PrimitiveTags(init) {
        var j :| 0 <= j < |init| && init[j].group == Some(t);
        assert ps[j] == init[j];
      }
    }
  }

  lemma {:induction false} FrameTagsMembership(dl: DisplayList, n: nat, t: string)
    requires n <= |dl.frames|
    ensures t in FrameTags(dl.frames[..n]) <==>
      t != "" && exists i, j :: 0 <= i < n && 0 <= j < |dl.frames[i].primitives| && dl.frames[i].primitives[j].group == Some(t)
    decreases n
  {
    var fs := dl.frames[..n];
    if n > 0 {
      assert fs[..n - 1] == dl.frames[..n - 1];
      FrameTagsMembership(dl, n - 1, t);
      PrimitiveTagsMembership(dl.frames[n - 1].primitives, t);
      if t != "" && exists i, j :: 0 <= i < n && 0 <= j < |dl.frames[i].primitives| && dl.frames[i].primitives[j].group == Some(t) {
        var i, j :| 0 <= i < n && 0 <= j < |dl.frames[i].primitives| && dl.frames[i].primitives[j].group == Some(t);
        if i == n - 1 {
          assert t in PrimitiveTags(dl.frames[n - 1].primitives);
        }
      }
    }
  }

  /** `collectGroupDefs`: the explicit groups, or the distinct truthy tags
      of all primitives, gathered in a set and sorted, each as `{id, label: id}`. */
  method CollectGroupDefs(dl: DisplayList) returns (groups: seq<GroupDef>)
    ensures GroupDefsFor(dl, groups)
  {
    if dl.groups.Some? && |dl.groups.value| > 0 {
      return dl.groups.value;
    }
    var ids: set<string> := {};
    for i := 0 to |dl.frames|
      invariant ids == FrameTags(dl.frames[..i])
    {
      var ps := dl.frames[i].primitives;
      for j := 0 to |ps|
        invariant ids == FrameTags(dl.frames[..i]) + PrimitiveTags(ps[..j])
      {
        var g := ps[j].group;
        if g.Some? && g.value != "" {
          ids := ids + {g.value};
        }
        assert ps[..j + 1][..j] == ps[..j];
      }
      assert ps[..|ps|] == ps;
      assert dl.frames[..i + 1][..i] == dl.frames[..i];
    }
    var sorted := StringOrder.SortSet(ids);
    groups := seq(|sorted|, k requires 0 <= k < |sorted| => GroupDef(sorted[k], sorted[k]));
    assert Ids(groups) == sorted;
    forall t
      ensures t in sorted <==> IsTag(dl, t)
    {
      FrameTagsMembership(dl, |dl.frames|, t);
      assert dl.frames[..|dl.frames|] == dl.frames;
    }
  }

  /** The contract of `collectGroupDefs` leaves no choice: two group lists
      that both meet it are equal. */
  lemma GroupDefsDetermined(dl: DisplayList, a: seq<GroupDef>, b: seq<GroupDef>)
    requires GroupDefsFor(dl, a) && GroupDefsFor(dl, b)
    ensures a == b
  {
    if !ExplicitGroups(dl) {
      StringOrder.SortedUnique(Ids(a), Ids(b));
      assert |a| == |b|;
      forall i | 0 <= i < |a|
        ensures a[i] == b[i]
      {
        assert a[i] in a && b[i] in b;
      }
    }
  }

  /** The ids of a group list. */
  function GroupIds(groups: seq<GroupDef>): set<string>
  {
    set g | g in groups :: g.id
  }

  /** `for (const g of groups) vis[g.id] = true`: every group starts visible. */
  method AllGroupsVisible(groups: seq<GroupDef>) returns (vis: map<string, bool>)
    ensures vis.Keys == GroupIds(groups)
    ensures forall id :: id in vis ==> vis[id]
  {
    vis := map[];
    for i := 0 to |groups|
      invariant vis.Keys == GroupIds(groups[..i])
      invariant forall id :: id in vis ==> vis[id]
    {
      vis := vis[groups[i].id := true];
      assert groups[..i + 1] == groups[..i] + [groups[i]];
    }
    assert groups[..|groups|] == groups;
  }

  // ----- The viewer -----

  /** `Math.min(Math.max(initialFrame, 0), frameCount - 1)`. */
  function InitialIndex(initialFrame: int, count: nat): (r: int)
    ensures count == 0 ==> r == -1
    ensures count > 0 ==> 0 <= r < count
    ensures count > 0 && 0 <= initialFrame < count ==> r == initialFrame
  {
    var lower := if initialFrame < 0 then 0 else initialFrame;
    if lower < count - 1 then lower else count - 1
  }

  /** The frame group `frameGroups[index]` refers to, if any. */
  function Attached(index: int, count: nat): Option<nat>
  {
    if 0 <= index < count then Some(index) else None
  }

  /** The viewer returned by `initViewer`: the frame groups built once, the
      group-visibility record, the current index and the attached group
      (as an index into `frameGroups`). */
  class Viewer {
    ghost const displayList: DisplayList
    const groups: seq<GroupDef>
    var groupVisibility: map<string, bool>
    var frameGroups: seq<Node>
    var currentIndex: int
    var currentGroup: Option<nat>

    /** Everything but the attachment: the groups are the collected ones and
        all known; there is one frame group per frame, never reshaped; and
        every frame group's flags follow the visibility record. */
    ghost predicate Consistent()
      reads this
    {
      && GroupDefsFor(displayList, groups)
      && GroupIds(groups) <= groupVisibility.Keys
      && |frameGroups| == |displayList.frames|
      && (forall i :: 0 <= i < |frameGroups| ==> SameShape(frameGroups[i], FrameGroup(displayList.frames[i])))
      && (forall i :: 0 <= i < |frameGroups| ==> FlagsFollow(frameGroups[i], groupVisibility))
    }

    ghost predicate Valid()
      reads this
    {
      Consistent() && currentGroup == Attached(currentIndex, |frameGroups|)
    }

    /** `initViewer(container, displayList, initialFrame)`. */
    constructor (dl: DisplayList, initialFrame: int)
      ensures Valid() && displayList == dl
      ensures groupVisibility.Keys == GroupIds(groups)
      ensures forall id :: id in groupVisibility ==> groupVisibility[id]
      ensures frameGroups == seq(|dl.frames|, i requires 0 <= i < |dl.frames| => FrameGroup(dl.frames[i]))
      ensures currentIndex == InitialIndex(initialFrame, |dl.frames|)
    {
      displayList := dl;
      var gs := CollectGroupDefs(dl);
      groups := gs;
      var vis := AllGroupsVisible(gs);
      groupVisibility := vis;
      var built: seq<Node> := [];
      for i := 0 to |dl.frames|
        invariant |built| == i
        invariant forall k :: 0 <= k < i ==> built[k] == FrameGroup(dl.frames[k])
      {
        var fg := BuildFrameGroup(dl.frames[i]);
        built := built + [fg];
      }
      frameGroups := built;
      currentIndex := InitialIndex(initialFrame, |dl.frames|);
      currentGroup := None;
      new;
      forall i | 0 <= i < |frameGroups|
        ensures SameShape(frameGroups[i], FrameGroup(displayList.frames[i]))
        ensures FlagsFollow(frameGroups[i], groupVisibility)
      {
        SameShapeReflexive(frameGroups[i]);
        FrameGroupAllVisible(displayList.frames[i]);
        AllVisibleFollows(frameGroups[i], groupVisibility);
      }
      AttachFrame(currentIndex);
    }

    /** `attachFrame(index)`: detach the current group, attach
        `frameGroups[index]` (nothing when the index is out of range) and
        reapply visibility to it. */
    method AttachFrame(index: int)
      requires Consistent()
      modifies this
      ensures Consistent()
      ensures currentGroup == Attached(index, |frameGroups|)
      ensures 0 <= index < |frameGroups| ==>
        frameGroups == old(frameGroups)[index := Applied(old(frameGroups)[index], groupVisibility)]
      ensures frameGroups == old(frameGroups)
      ensures groupVisibility == old(groupVisibility) && currentIndex == old(currentIndex)
    {
      currentGroup := Attached(index, |frameGroups|);
      if 0 <= index < |frameGroups| {
        var applied := ApplyGroupVisibility(frameGroups[index], groupVisibility);
        FollowingIsFixed(frameGroups[index], groupVisibility);
        frameGroups := frameGroups[index := applied];
      }
    }

    /** `setFrame(index)`: an index outside `[0, frameCount)` is ignored;
        otherwise it becomes current and its group is attached. */
    method SetFrame(index: int)
      requires Valid()
      modifies this
      ensures Valid()
      ensures !(0 <= index < |old(frameGroups)|) ==>
        currentIndex == old(currentIndex) && currentGroup == old(currentGroup)
      ensures 0 <= index < |old(frameGroups)| ==> currentIndex == index && currentGroup == Some(index)
      ensures frameGroups == old(frameGroups) && groupVisibility == old(groupVisibility)
    {
      if index < 0 || index >= |frameGroups| {
        return;
      }
      currentIndex := index;
      AttachFrame(currentIndex);
    }

    /** `setGroupVisibility(groupId, visible)`: record the flag and reapply
        visibility to every frame group, attached or not. */
    method SetGroupVisibility(groupId: string, visible: bool)
      requires Valid()
      modifies this
      ensures Valid()
      ensures groupVisibility == old(groupVisibility)[groupId := visible]
      ensures |frameGroups| == |old(frameGroups)|
      ensures forall i :: 0 <= i < |frameGroups| ==> frameGroups[i] == Applied(old(frameGroups)[i], groupVisibility)
      ensures currentIndex == old(currentIndex) && currentGroup == old(currentGroup)
    {
      var vis := groupVisibility[groupId := visible];
      var orig := frameGroups;
      var fgs := orig;
      for i := 0 to |orig|
        invariant |fgs| == |orig|
        invariant forall k :: 0 <= k < i ==> fgs[k] == Applied(orig[k], vis)
        invariant forall k :: i <= k < |fgs| ==> fgs[k] == orig[k]
        invariant unchanged(this)
      {
        var fg := ApplyGroupVisibility(fgs[i], vis);
        fgs := fgs[i := fg];
      }
      groupVisibility, frameGroups := vis, fgs;
      forall i | 0 <= i < |frameGroups|
        ensures SameShape(frameGroups[i], FrameGroup(displayList.frames[i]))
        ensures FlagsFollow(frameGroups[i], groupVisibility)
      {
        AppliedKeepsShape(old(frameGroups)[i], groupVisibility);
        SameShapeTransitive(frameGroups[i], old(frameGroups)[i], FrameGroup(displayList.frames[i]));
        AppliedFollows(old(frameGroups)[i], groupVisibility);
      }
    }

    /** `getGroups()`: the collected group definitions. */
    function GetGroups(): (r: seq<GroupDef>)
      reads this
      requires Valid()
      ensures GroupDefsFor(displayList, r)
    {
      groups
    }

    /** `getFrameCount()`: one frame group per frame of the display list. */
    function GetFrameCount(): (n: nat)
      reads this
      requires Valid()
      ensures n == |displayList.frames|
    {
      |frameGroups|
    }
  }
}
