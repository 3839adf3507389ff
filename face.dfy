/** The rig driver of the face model: the per-frame write of blendshape
    controls into each mesh's morph-target influences and of the bone controls
    into the head and eye nodes, the node-name lookups behind them, the pass
    that hides the model's own eyes and caches each mesh's original material,
    and the placement of the two custom eyes on the eye nodes.

    The scene graph is seen only through `traverse`: a sequence of the objects
    in the order the traversal visits them. */
module Face {
  import opened Numeric

  datatype Option<T> = None | Some(value: T)

  /** A three.js material, identified by the object it is. */
  datatype Material = Material(id: nat)

  /** The fields of a scene-graph object the component reads or writes. A
      missing `morphTargetDictionary` is `None`, missing influences are
      `null`. */
  class Object3D {
    var name: string
    var parent: Object3D?
    var isMesh: bool
    var rotX: real
    var rotY: real
    var rotZ: real
    var visible: bool
    var material: Material
    var originalMaterial: Option<Material>
    var morphTargetDictionary: Option<map<string, nat>>
    var morphTargetInfluences: array?<real>

    constructor (name: string, parent: Object3D?, isMesh: bool, material: Material)
      ensures this.name == name && this.parent == parent && this.isMesh == isMesh
      ensures this.material == material && originalMaterial == None
      ensures rotX == 0.0 && rotY == 0.0 && rotZ == 0.0 && visible
      ensures morphTargetDictionary == None && morphTargetInfluences == null
    {
      this.name := name;
      this.parent := parent;
      this.isMesh := isMesh;
      rotX, rotY, rotZ := 0.0, 0.0, 0.0;
      visible := true;
      this.material := material;
      originalMaterial := None;
      morphTargetDictionary := None;
      morphTargetInfluences := null;
    }
  }

  // ---------------------------------------------------------------------
  // Collecting the morph meshes and the node map

  /** A mesh the blendshape loop keeps: `isMesh` and influences present. */
  predicate IsMorphMesh(o: Object3D)
    reads o
  {
    o.isMesh && o.morphTargetInfluences != null
  }

  /** The morph meshes of a traversal, in traversal order. */
  function MorphMeshes(scene: seq<Object3D>): (ms: seq<Object3D>)
    reads scene
    ensures forall i :: 0 <= i < |ms| ==> ms[i] in scene && IsMorphMesh(ms[i])
    ensures forall i :: 0 <= i < |scene| && IsMorphMesh(scene[i]) ==> scene[i] in ms
    ensures |ms| <= |scene|
    decreases |scene|
  {
    if scene == [] then []
    else
      var last := scene[|scene| - 1];
      var front := MorphMeshes(scene[..|scene| - 1]);
      assert forall i :: 0 <= i < |scene| - 1 ==> scene[i] == scene[..|scene| - 1][i];
      if IsMorphMesh(last) then front + [last] else front
  }

  /** The `traverse` callback that pushes every morph mesh. */
  method CollectMorphMeshes(scene: seq<Object3D>) returns (meshes: seq<Object3D>)
    ensures meshes == MorphMeshes(scene)
  {
    meshes := [];
    var i := 0;
    while i < |scene|
      invariant 0 <= i <= |scene|
      invariant meshes == MorphMeshes(scene[..i])
    {
      assert scene[..i + 1][..i] == scene[..i];
      var child := scene[i];
      if child.isMesh && child.morphTargetInfluences != null {
        meshes := meshes + [child];
      }
      i := i + 1;
    }
    assert scene[..i] == scene;
  }

  /** The record `n[child.name] = child` after visiting `scene`. */
  function NameMap(scene: seq<Object3D>): (n: map<string, Object3D>)
    reads scene
    ensures forall k :: k in n <==> exists i :: 0 <= i < |scene| && scene[i].name == k
    ensures forall k :: k in n ==> n[k] in scene && n[k].name == k
    decreases |scene|
  {
    if scene == [] then map[]
    else
      var front := scene[..|scene| - 1];
      var last := scene[|scene| - 1];
      assert forall i :: 0 <= i < |front| ==> front[i] == scene[i];
      NameMap(front)[last.name := last]
  }

  /** Every name present maps to the LAST object of the traversal carrying it:
      a later child with the same name overwrites an earlier one. */
  lemma {:induction false} NameMapLastWins(scene: seq<Object3D>, i: int)
    requires 0 <= i < |scene|
    requires forall j :: i < j < |scene| ==> scene[j].name != scene[i].name
    ensures scene[i].name in NameMap(scene) && NameMap(scene)[scene[i].name] == scene[i]
    decreases |scene|
  {
    var front := scene[..|scene| - 1];
    if i < |scene| - 1 {
      assert forall j :: i < j < |front| ==> front[j] == scene[j];
      NameMapLastWins(front, i);
    }
  }

  /** The `traverse` callback that fills the node record. */
  method BuildNodeMap(scene: seq<Object3D>) returns (n: map<string, Object3D>)
    ensures n == NameMap(scene)
  {
    n := map[];
    var i := 0;
    while i < |scene|
      invariant 0 <= i <= |scene|
      invariant n == NameMap(scene[..i])
    {
      assert scene[..i + 1][..i] == scene[..i];
      var child := scene[i];
      n := n[child.name := child];
      i := i + 1;
    }
    assert scene[..i] == scene;
  }

  // ---------------------------------------------------------------------
  // Fallback lookups

  /** `nodes[k0] || nodes[k1] || ...`: the node under the first key present. */
  function FirstPresent(n: map<string, Object3D>, keys: seq<string>): (r: Option<Object3D>)
    ensures r == None <==> forall k :: k in keys ==> k !in n
    ensures r != None ==> r.value in n.Values
    ensures r != None ==> exists i :: 0 <= i < |keys| && keys[i] in n && n[keys[i]] == r.value &&
                                     (forall j :: 0 <= j < i ==> keys[j] !in n)
    decreases |keys|
  {
    if keys == [] then None
    else if keys[0] in n then Some(n[keys[0]])
    else
      var r := FirstPresent(n, keys[1..]);
      assert forall k :: k in keys ==> k == keys[0] || k in keys[1..];
      if r != None then
        var i :| 0 <= i < |keys[1..]| && keys[1..][i] in n && keys[1..][i] in n && n[keys[1..][i]] == r.value &&
          forall j :: 0 <= j < i ==> keys[1..][j] !in n;
        assert keys[i + 1] in n && n[keys[i + 1]] == r.value;
        assert forall j :: 0 <= j < i + 1 ==> keys[j] !in n by {
          forall j | 0 <= j < i + 1 ensures keys[j] !in n {
            if j > 0 {
              assert keys[j] == keys[1..][j - 1];
            }
          }
        }
        r
      else
        r
  }

  const HeadKeys: seq<string> := ["grp_transform", "head", "Head"]
  /** The frame loop rotates the group node in preference to the mesh node. */
  const FrameLeftEyeKeys: seq<string> := ["grp_eyeLeft", "eyeLeft"]
  const FrameRightEyeKeys: seq<string> := ["grp_eyeRight", "eyeRight"]
  /** The custom eyes are attached to the mesh node in preference to the group. */
  const PortalLeftEyeKeys: seq<string> := ["eyeLeft", "grp_eyeLeft"]
  const PortalRightEyeKeys: seq<string> := ["eyeRight", "grp_eyeRight"]

  /** When a model has both an eye group and an eye node, the frame loop turns
      the group while the custom eye is attached to the node; with only one of
      them both uses agree. */
  lemma EyeLookupOrder(n: map<string, Object3D>)
    ensures "grp_eyeLeft" in n ==> FirstPresent(n, FrameLeftEyeKeys) == Some(n["grp_eyeLeft"])
    ensures "eyeLeft" in n ==> FirstPresent(n, PortalLeftEyeKeys) == Some(n["eyeLeft"])
    ensures "grp_eyeRight" in n ==> FirstPresent(n, FrameRightEyeKeys) == Some(n["grp_eyeRight"])
    ensures "eyeRight" in n ==> FirstPresent(n, PortalRightEyeKeys) == Some(n["eyeRight"])
    ensures ("eyeLeft" in n) != ("grp_eyeLeft" in n) ==>
      FirstPresent(n, FrameLeftEyeKeys) == FirstPresent(n, PortalLeftEyeKeys)
    ensures ("eyeRight" in n) != ("grp_eyeRight" in n) ==>
      FirstPresent(n, FrameRightEyeKeys) == FirstPresent(n, PortalRightEyeKeys)
  {
    assert FrameLeftEyeKeys[1..] == ["eyeLeft"] && PortalLeftEyeKeys[1..] == ["grp_eyeLeft"];
    assert FrameRightEyeKeys[1..] == ["eyeRight"] && PortalRightEyeKeys[1..] == ["grp_eyeRight"];
  }

  // ---------------------------------------------------------------------
  // Per-frame rig update

  /** A blendshape control: an entry of the control panel's value record. */
  datatype Control = Control(name: string, value: real)

  /** The bone controls. */
  datatype Rig = Rig(headPitch: real, headYaw: real, headRoll: real, leftEyeYaw: real, rightEyeYaw: real)

  /** Every index of a morph-target dictionary addresses an influence; three.js
      builds the two together, one influence per target. */
  predicate IndexesWithin(dict: map<string, nat>, count: nat)
  {
    forall k :: k in dict ==> dict[k] < count
  }

  /** The influences after writing `controls` in order: a control whose name
      the dictionary maps to an index sets that influence; other names are
      skipped. */
  function ApplyControls(infl: seq<real>, dict: map<string, nat>, controls: seq<Control>): (r: seq<real>)
    requires IndexesWithin(dict, |infl|)
    ensures |r| == |infl|
    decreases |controls|
  {
    if controls == [] then infl
    else
      var c := controls[0];
      var next := if c.name in dict then infl[dict[c.name] := c.value] else infl;
      ApplyControls(next, dict, controls[1..])
  }

  /** An influence no control's name maps to keeps its value. */
  lemma {:induction false} ControlsLeaveOthers(infl: seq<real>, dict: map<string, nat>, controls: seq<Control>, k: int)
    requires IndexesWithin(dict, |infl|)
    requires 0 <= k < |infl|
    requires forall c :: c in controls && c.name in dict ==> dict[c.name] != k
    ensures ApplyControls(infl, dict, controls)[k] == infl[k]
    decreases |controls|
  {
    if controls != [] {
      var c := controls[0];
      var next := if c.name in dict then infl[dict[c.name] := c.value] else infl;
      assert forall d :: d in controls[1..] ==> d in controls;
      ControlsLeaveOthers(next, dict, controls[1..], k);
    }
  }

  /** A control whose index no later control writes leaves its value there. */
  lemma {:induction false} ControlsLastWins(infl: seq<real>, dict: map<string, nat>, controls: seq<Control>, i: int)
    requires IndexesWithin(dict, |infl|)
    requires 0 <= i < |controls| && controls[i].name in dict
    requires forall j :: i < j < |controls| && controls[j].name in dict ==>
      dict[controls[j].name] != dict[controls[i].name]
    ensures ApplyControls(infl, dict, controls)[dict[controls[i].name]] == controls[i].value
    decreases |controls|
  {
    var c := controls[0];
    var next := if c.name in dict then infl[dict[c.name] := c.value] else infl;
    var rest := controls[1..];
    if i == 0 {
      forall d | d in rest && d.name in dict
        ensures dict[d.name] != dict[c.name]
      {
        var j :| 0 <= j < |rest| && rest[j] == d;
        assert controls[j + 1] == d;
      }
      ControlsLeaveOthers(next, dict, rest, dict[c.name]);
    } else {
      assert forall j :: i - 1 < j < |rest| ==> rest[j] == controls[j + 1];
      ControlsLastWins(next, dict, rest, i - 1);
    }
  }

  /** The inner `forEach` over the controls for one mesh, in place. */
  method WriteControls(infl: array<real>, dict: map<string, nat>, controls: seq<Control>)
    requires IndexesWithin(dict, infl.Length)
    modifies infl
    ensures infl[..] == ApplyControls(old(infl[..]), dict, controls)
  {
    var i := 0;
    while i < |controls|
      invariant 0 <= i <= |controls|
      invariant ApplyControls(infl[..], dict, controls[i..]) == ApplyControls(old(infl[..]), dict, controls)
    {
      var name, value := controls[i].name, controls[i].value;
      assert controls[i..][1..] == controls[i + 1..];
      if name in dict {
        var index := dict[name];
        infl[index] := value;
      }
      i := i + 1;
    }
  }

  predicate MorphReady(m: Object3D)
    reads m
  {
    m.morphTargetDictionary.Some? && m.morphTargetInfluences != null
  }

  /** Every morph-ready mesh's dictionary indexes its own influences. */
  predicate Consistent(meshes: seq<Object3D>)
    reads meshes
  {
    forall k :: 0 <= k < |meshes| && MorphReady(meshes[k]) ==>
      IndexesWithin(meshes[k].morphTargetDictionary.value, meshes[k].morphTargetInfluences.Length)
  }

  /** No two entries share an influence array: each mesh owns its own, and the
      traversal lists each mesh once. */
  predicate OwnInfluences(meshes: seq<Object3D>)
    reads meshes
  {
    forall i, j :: 0 <= i < j < |meshes| && meshes[i].morphTargetInfluences != null ==>
      meshes[i].morphTargetInfluences != meshes[j].morphTargetInfluences
  }

  /** Step 1 of the frame callback: write the controls into every morph-ready
      mesh; a mesh without a dictionary or influences is skipped. */
  method ApplyBlendshapes(meshes: seq<Object3D>, controls: seq<Control>)
    requires Consistent(meshes) && OwnInfluences(meshes)
    modifies set m | m in meshes && MorphReady(m) :: m.morphTargetInfluences
    ensures forall k :: 0 <= k < |meshes| && MorphReady(meshes[k]) ==>
      meshes[k].morphTargetInfluences[..] ==
        ApplyControls(old(meshes[k].morphTargetInfluences[..]), meshes[k].morphTargetDictionary.value, controls)
  {
    var i := 0;
    while i < |meshes|
      invariant 0 <= i <= |meshes|
      invariant forall k :: 0 <= k < i && MorphReady(meshes[k]) ==>
        meshes[k].morphTargetInfluences[..] ==
          ApplyControls(old(meshes[k].morphTargetInfluences[..]), meshes[k].morphTargetDictionary.value, controls)
      invariant forall k :: i <= k < |meshes| && meshes[k].morphTargetInfluences != null ==>
        meshes[k].morphTargetInfluences[..] == old(meshes[k].morphTargetInfluences[..])
    {
      var mesh := meshes[i];
      if mesh.morphTargetDictionary.Some? && mesh.morphTargetInfluences != null {
        WriteControls(mesh.morphTargetInfluences, mesh.morphTargetDictionary.value, controls);
      }
      i := i + 1;
    }
  }

  /** The objects an optional lookup result holds. */
  function Found(r: Option<Object3D>): set<Object3D>
  {
    if r.Some? then {r.value} else {}
  }

  /** Write `i` hits `o`, and no later write does. */
  predicate LastHit(o: Object3D, writes: seq<(Option<Object3D>, real)>, i: int)
  {
    0 <= i < |writes| && writes[i].0 == Some(o) &&
    forall j :: i < j < |writes| ==> writes[j].0 != Some(o)
  }

  /** The value an object holds after a sequence of writes, each to the node a
      lookup found (if any): the last write to it, or `initial` when none. */
  function LastWrite(o: Object3D, writes: seq<(Option<Object3D>, real)>, initial: real): (r: real)
    ensures (forall i :: 0 <= i < |writes| ==> writes[i].0 != Some(o)) ==> r == initial
    ensures forall i :: LastHit(o, writes, i) ==> r == writes[i].1
    ensures r == initial || exists i :: 0 <= i < |writes| && writes[i].0 == Some(o) && writes[i].1 == r
    decreases |writes|
  {
    if writes == [] then initial
    else if writes[|writes| - 1].0 == Some(o) then writes[|writes| - 1].1
    else
      var front := writes[..|writes| - 1];
      assert forall i :: 0 <= i < |front| ==> front[i] == writes[i];
      assert forall i :: LastHit(o, writes, i) ==> LastHit(o, front, i);
      LastWrite(o, front, initial)
  }

  /** The new rotation of a node after the bone writes, in their order: head
      pitch, yaw and roll, then the left eye's yaw, then the right eye's. */
  function RigYaw(o: Object3D, head: Option<Object3D>, left: Option<Object3D>, right: Option<Object3D>,
                  rig: Rig, oldYaw: real): (yaw: real)
    ensures yaw == LastWrite(o, [(head, rig.headYaw), (left, rig.leftEyeYaw), (right, rig.rightEyeYaw)], oldYaw)
  {
    var w1 := [(head, rig.headYaw)];
    var w2 := w1 + [(left, rig.leftEyeYaw)];
    var w3 := w2 + [(right, rig.rightEyeYaw)];
    assert w3 == [(head, rig.headYaw), (left, rig.leftEyeYaw), (right, rig.rightEyeYaw)];
    assert w3[..2] == w2 && w2[..1] == w1 && w1[..0] == [];
    assert LastWrite(o, w1, oldYaw) == if head == Some(o) then rig.headYaw else oldYaw;
    assert LastWrite(o, w2, oldYaw) == if left == Some(o) then rig.leftEyeYaw else LastWrite(o, w1, oldYaw);
    assert LastWrite(o, w3, oldYaw) == if right == Some(o) then rig.rightEyeYaw else LastWrite(o, w2, oldYaw);
    if right == Some(o) then rig.rightEyeYaw
    else if left == Some(o) then rig.leftEyeYaw
    else if head == Some(o) then rig.headYaw
    else oldYaw
  }

  /** The bone writes on the nodes the lookups found. */
  method RotateNodes(head: Option<Object3D>, left: Option<Object3D>, right: Option<Object3D>, rig: Rig)
    modifies Found(head)`rotX, Found(head)`rotZ, Found(head)`rotY, Found(left)`rotY, Found(right)`rotY
    ensures forall o :: o in Found(head) ==> o.rotX == rig.headPitch && o.rotZ == rig.headRoll
    ensures forall o :: o in Found(head) + Found(left) + Found(right) ==>
      o.rotY == RigYaw(o, head, left, right, rig, old(o.rotY))
  {
    if head.Some? {
      head.value.rotX := rig.headPitch;
      head.value.rotY := rig.headYaw;
      head.value.rotZ := rig.headRoll;
    }
    if left.Some? {
      left.value.rotY := rig.leftEyeYaw;
    }
    if right.Some? {
      right.value.rotY := rig.rightEyeYaw;
    }
  }

  /** Step 2 of the frame callback: the head node, when one is found, takes the
      head pitch, yaw and roll; the eye nodes take their yaw. The writes happen
      in that order, so a node found under several roles keeps the last yaw. */
  method ApplyRig(n: map<string, Object3D>, rig: Rig)
    modifies n.Values`rotX, n.Values`rotY, n.Values`rotZ
    ensures var head := FirstPresent(n, HeadKeys);
      forall o :: o in n.Values ==>
        o.rotX == (if head == Some(o) then rig.headPitch else old(o.rotX)) &&
        o.rotZ == (if head == Some(o) then rig.headRoll else old(o.rotZ))
    ensures forall o :: o in n.Values ==>
      o.rotY == RigYaw(o, FirstPresent(n, HeadKeys), FirstPresent(n, FrameLeftEyeKeys), FirstPresent(n, FrameRightEyeKeys),
                       rig, old(o.rotY))
  {
    var headNode := FirstPresent(n, HeadKeys);
    var leftEyeNode := FirstPresent(n, FrameLeftEyeKeys);
    var rightEyeNode := FirstPresent(n, FrameRightEyeKeys);
    RotateNodes(headNode, leftEyeNode, rightEyeNode, rig);
  }

  // ---------------------------------------------------------------------
  // Visibility and materials

  /** `toLowerCase` on the ASCII letters. */
  function LowerChar(c: char): (d: char)
    ensures !('A' <= d <= 'Z')
    ensures 'A' <= c <= 'Z' ==> d as int == c as int + 32
    ensures !('A' <= c <= 'Z') ==> d == c
  {
    if 'A' <= c <= 'Z' then (c as int + 32) as char else c
  }

  function Lower(s: string): (t: string)
    ensures |t| == |s|
    ensures forall i :: 0 <= i < |t| ==> !('A' <= t[i] <= 'Z')
    ensures forall i :: 0 <= i < |s| && 'A' <= s[i] <= 'Z' ==> t[i] as int == s[i] as int + 32
    ensures forall i :: 0 <= i < |s| && !('A' <= s[i] <= 'Z') ==> t[i] == s[i]
  {
    seq(|s|, i requires 0 <= i < |s| => LowerChar(s[i]))
  }

  /** Lowering is idempotent and keeps the length, so lowered names contain no
      upper-case letters. */
  lemma LowerIdempotent(s: string)
    ensures |Lower(s)| == |s|
    ensures Lower(Lower(s)) == Lower(s)
    ensures forall i :: 0 <= i < |s| ==> !('A' <= Lower(s)[i] <= 'Z')
  {
  }

  /** `sub` occurs in `s` at offset `i`. */
  predicate OccursAt(s: string, sub: string, i: int)
  {
    0 <= i && i + |sub| <= |s| && s[i..i + |sub|] == sub
  }

  /** `s.includes(sub)`: `sub` occurs at some offset of `s`. */
  function Includes(s: string, sub: string): (b: bool)
    ensures b <==> exists i :: OccursAt(s, sub, i)
    decreases |s|
  {
    if |s| < |sub| then false
    else if s[..|sub|] == sub then
      assert OccursAt(s, sub, 0);
      true
    else
      IncludesShift(s, sub);
      Includes(s[1..], sub)
  }

  /** When `sub` is not a prefix of `s`, it occurs in `s` iff it occurs in the
      tail. */
  lemma IncludesShift(s: string, sub: string)
    requires |sub| <= |s| && s[..|sub|] != sub
    ensures (exists i :: OccursAt(s, sub, i)) <==> (exists i :: OccursAt(s[1..], sub, i))
  {
    if exists i :: OccursAt(s, sub, i) {
      var i :| OccursAt(s, sub, i);
      assert i > 0;
      assert s[1..][i - 1..i - 1 + |sub|] == s[i..i + |sub|];
      assert OccursAt(s[1..], sub, i - 1);
    }
    if exists i :: OccursAt(s[1..], sub, i) {
      var i :| OccursAt(s[1..], sub, i);
      assert s[i + 1..i + 1 + |sub|] == s[1..][i..i + |sub|];
      assert OccursAt(s, sub, i + 1);
    }
  }

  /** `mesh.parent?.name.toLowerCase() || ''`, before lowering. */
  function ParentName(o: Object3D): (r: string)
    reads o, o.parent
    // the `|| ''` fallback yields the empty name exactly when there is no
    // parent or the parent's own name is empty
    ensures r == "" <==> o.parent == null || o.parent.name == ""
    ensures o.parent != null ==> r == o.parent.name
  {
    if o.parent == null then "" else o.parent.name
  }

  /** The built-in eyes are hidden while the custom eyes are shown: a mesh is
      hidden exactly when its own or its parent's lower-cased name contains
      `eye`. */
  function EyeHidden(showCustomEyes: bool, name: string, parentName: string): (hidden: bool)
    ensures hidden <==> (showCustomEyes &&
      ((exists i :: OccursAt(Lower(name), "eye", i)) || (exists i :: OccursAt(Lower(parentName), "eye", i))))
  {
    showCustomEyes && (Includes(Lower(name), "eye") || Includes(Lower(parentName), "eye"))
  }

  /** The test ignores case, and showing the built-in eyes hides nothing. */
  lemma EyeHiddenIgnoresCase(show: bool, name: string, parentName: string)
    ensures EyeHidden(show, Lower(name), Lower(parentName)) == EyeHidden(show, name, parentName)
    ensures !EyeHidden(false, name, parentName)
    ensures EyeHidden(true, "EyeLeft", "") && EyeHidden(true, "mesh_2", "grp_eyeRight")
    ensures !EyeHidden(true, "head", "")
  {
    LowerIdempotent(name);
    LowerIdempotent(parentName);
    assert OccursAt(Lower("EyeLeft"), "eye", 0);
    assert OccursAt(Lower("grp_eyeRight"), "eye", 4);
    assert Lower("head") == "head" && Lower("") == "";
    assert "head"[..3][2] != "eye"[2] && "head"[1..] == "ead";
    assert "ead"[..3][1] != "eye"[1] && "ead"[1..] == "ad";

  }

  /** While custom eyes are shown, a mesh named like the nodes the portals
      prefer is hidden, whatever its parent. */
  lemma PortalEyeNodesHidden(parentName: string)
    ensures EyeHidden(true, "eyeLeft", parentName) && EyeHidden(true, "eyeRight", parentName)
  {
    assert OccursAt(Lower("eyeLeft"), "eye", 0);
    assert OccursAt(Lower("eyeRight"), "eye", 0);
  }

  /** What the view-mode effect builds for a mode; every mode but `Unknown`
      replaces the material. */
  datatype ViewMode = Beauty | Wireframe | Normals | Depth | Basic | Unknown

  /** The `isMesh` branch of the view-mode effect for one mesh. `build(mode,
      original)` stands for the material constructed for the mode from the
      cached original material (only `Beauty` reads the original). */
  method StyleMesh(mesh: Object3D, showCustomEyes: bool, mode: ViewMode, build: (ViewMode, Material) -> Material)
    modifies mesh`visible, mesh`material, mesh`originalMaterial
    ensures mesh.visible == !EyeHidden(showCustomEyes, mesh.name, ParentName(mesh))
    // the original material is cached on the first pass and never replaced
    ensures mesh.originalMaterial ==
      if old(mesh.originalMaterial).None? then Some(old(mesh.material)) else old(mesh.originalMaterial)
    ensures mesh.material == if mode == Unknown then old(mesh.material) else build(mode, mesh.originalMaterial.value)
  {
    var name := Lower(mesh.name);
    var parentName := if mesh.parent == null then "" else Lower(mesh.parent.name);
    if showCustomEyes && (Includes(name, "eye") || Includes(parentName, "eye")) {
      mesh.visible := false;
    } else {
      mesh.visible := true;
    }
    if mesh.originalMaterial.None? {
      mesh.originalMaterial := Some(mesh.material);
    }
    if mode != Unknown {
      mesh.material := build(mode, mesh.originalMaterial.value);
    }
  }

  /** Two passes of the effect, as happen when the view mode changes: the
      cache still holds the material the mesh had before the first pass, so
      the second pass builds from it and not from the first pass's result. */
  method RestyleKeepsOriginal(mesh: Object3D, show: bool, first: ViewMode, second: ViewMode,
                              build: (ViewMode, Material) -> Material)
    requires mesh.originalMaterial.None?
    modifies mesh`visible, mesh`material, mesh`originalMaterial
    ensures mesh.originalMaterial == Some(old(mesh.material))
    ensures second != Unknown ==> mesh.material == build(second, old(mesh.material))
  {
    StyleMesh(mesh, show, first, build);
    StyleMesh(mesh, show, second, build);
  }

  /** The whole effect: every mesh of the traversal is styled, every other
      object is left alone. */
  method StyleScene(scene: seq<Object3D>, showCustomEyes: bool, mode: ViewMode, build: (ViewMode, Material) -> Material)
    requires forall i, j :: 0 <= i < j < |scene| ==> scene[i] != scene[j]
    modifies scene`visible, scene`material, scene`originalMaterial
    ensures forall k :: 0 <= k < |scene| && scene[k].isMesh ==>
      scene[k].visible == !EyeHidden(showCustomEyes, scene[k].name, ParentName(scene[k])) &&
      scene[k].originalMaterial ==
        (if old(scene[k].originalMaterial).None? then Some(old(scene[k].material)) else old(scene[k].originalMaterial)) &&
      scene[k].material == (if mode == Unknown then old(scene[k].material) else build(mode, scene[k].originalMaterial.value))
    ensures forall k :: 0 <= k < |scene| && !scene[k].isMesh ==>
      scene[k].visible == old(scene[k].visible) && scene[k].material == old(scene[k].material) &&
      scene[k].originalMaterial == old(scene[k].originalMaterial)
  {
    var i := 0;
    while i < |scene|
      invariant 0 <= i <= |scene|
      invariant forall k :: 0 <= k < i && scene[k].isMesh ==>
        scene[k].visible == !EyeHidden(showCustomEyes, scene[k].name, ParentName(scene[k])) &&
        scene[k].originalMaterial ==
          (if old(scene[k].originalMaterial).None? then Some(old(scene[k].material)) else old(scene[k].originalMaterial)) &&
        scene[k].material == (if mode == Unknown then old(scene[k].material) else build(mode, scene[k].originalMaterial.value))
      invariant forall k :: (i <= k < |scene| || (0 <= k < i && !scene[k].isMesh)) ==>
        scene[k].visible == old(scene[k].visible) && scene[k].material == old(scene[k].material) &&
        scene[k].originalMaterial == old(scene[k].originalMaterial)
    {
      var child := scene[i];
      if child.isMesh {
        StyleMesh(child, showCustomEyes, mode, build);
      }
      i := i + 1;
    }
  }

  // ---------------------------------------------------------------------
  // Custom-eye placement

  /** The transform of the group a custom eye is mounted in. */
  datatype Placement = Placement(position: Vec3, rotation: Vec3, scale: real)

  /** The right eye's group: the left one reflected in the face's mid-plane
      (x negated in position, y and z negated in rotation). */
  function Mirror(p: Placement): (q: Placement)
    ensures q.scale == p.scale
  {
    Placement(Vec3(-p.position.x, p.position.y, p.position.z),
              Vec3(p.rotation.x, -p.rotation.y, -p.rotation.z), p.scale)
  }

  /** Mirroring twice gives the left placement back, and a placement is its own
      mirror exactly when it sits on the mid-plane without yaw or roll. */
  lemma MirrorInvolution(p: Placement)
    ensures Mirror(Mirror(p)) == p
    ensures Mirror(p) == p <==> p.position.x == 0.0 && p.rotation.y == 0.0 && p.rotation.z == 0.0
  {
  }

  /** A custom eye mounted under a node of the face. */
  datatype Mount = Mount(node: Object3D, placement: Placement, isRightEye: bool)

  /** The two portals: each eye is mounted when custom eyes are shown and its
      node is found, the left with the configured placement and the right
      with its mirror. */
  function EyePortals(showCustomEyes: bool, n: map<string, Object3D>, left: Placement): (ms: seq<Mount>)
    ensures !showCustomEyes ==> ms == []
    ensures forall m :: m in ms ==> m.node in n.Values
    ensures forall m :: m in ms ==> m.placement == if m.isRightEye then Mirror(left) else left
    ensures (exists m :: m in ms && !m.isRightEye) <==> showCustomEyes && FirstPresent(n, PortalLeftEyeKeys).Some?
    ensures (exists m :: m in ms && m.isRightEye) <==> showCustomEyes && FirstPresent(n, PortalRightEyeKeys).Some?
    ensures forall m :: m in ms ==>
      Some(m.node) == FirstPresent(n, if m.isRightEye then PortalRightEyeKeys else PortalLeftEyeKeys)
  {
    var l := FirstPresent(n, PortalLeftEyeKeys);
    var r := FirstPresent(n, PortalRightEyeKeys);
    if !showCustomEyes then []
    else
      var ls := if l.Some? then [Mount(l.value, left, false)] else [];
      var rs := if r.Some? then [Mount(r.value, Mirror(left), true)] else [];
      ls + rs
  }
}
