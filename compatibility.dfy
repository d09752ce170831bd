/** When two skinned mesh renderers may be merged (`AreSMRsCompatible`): their renderer
    settings and shared blendshape values agree, neither is an excluded root "Body", and no
    animation of one would, after the merge, animate a blendshape or material property of the
    other differently from before. */
module Compatibility {
  import opened Base
  import opened Strings
  import opened Unity

  // ---------------------------------------------------------------------------------------------
  // Base values

  /** `AreBlendshapeValuesCompatible`: every blendshape name both meshes have carries the same
      value on both renderers. */
  predicate BlendShapeValuesCompatible(r1: Renderer, r2: Renderer)
    requires r1.mesh.Some? && r2.mesh.Some?
  {
    forall n :: n in BlendShapeNames(r1.mesh.value.blendShapes) && n in BlendShapeNames(r2.mesh.value.blendShapes) ==>
      BlendShapeWeight(r1, n) == BlendShapeWeight(r2, n)
  }

  /** The root-level "Body" mesh, when it is not to be merged. */
  predicate ExcludedBody(r: Renderer, mergeBodyMesh: bool) {
    IsBodyMesh(r) && !mergeBodyMesh
  }

  /** `AreSMRBaseValuesCompatible`. */
  predicate BaseValuesCompatible(r1: Renderer, r2: Renderer, mergeBodyMesh: bool)
    requires r1.mesh.Some? && r2.mesh.Some?
  {
    && r1.settings == r2.settings
    && BlendShapeValuesCompatible(r1, r2)
    && !ExcludedBody(r1, mergeBodyMesh)
    && !ExcludedBody(r2, mergeBodyMesh)
  }

  // ---------------------------------------------------------------------------------------------
  // Curves

  /** `AnimationCurvesEquivalent` on two float curves: same length, same wrap modes and equal
      keys. */
  predicate CurvesEquivalent(c1: Curve, c2: Curve)
    requires c1.FloatCurve? && c2.FloatCurve?
  {
    && |c1.keys| == |c2.keys|
    && c1.preWrapMode == c2.preWrapMode
    && c1.postWrapMode == c2.postWrapMode
    && forall i :: 0 <= i < |c1.keys| ==> c1.keys[i] == c2.keys[i]
  }

  /** Equivalent float curves are the same curve. */
  lemma CurvesEquivalentIsEquality(c1: Curve, c2: Curve)
    requires c1.FloatCurve? && c2.FloatCurve?
    ensures CurvesEquivalent(c1, c2) <==> c1 == c2
  {
    if CurvesEquivalent(c1, c2) {
      assert c1.keys == c2.keys;
    }
  }

  method AnimationCurvesEquivalent(c1: Curve, c2: Curve) returns (eq: bool)
    requires c1.FloatCurve? && c2.FloatCurve?
    ensures eq <==> CurvesEquivalent(c1, c2)
  {
    if |c1.keys| != |c2.keys| { return false; }
    if c1.preWrapMode != c2.preWrapMode { return false; }
    if c1.postWrapMode != c2.postWrapMode { return false; }
    var i := 0;
    while i < |c1.keys|
      invariant 0 <= i <= |c1.keys|
      invariant forall j :: 0 <= j < i ==> c1.keys[j] == c2.keys[j]
    {
      if c1.keys[i] != c2.keys[i] { return false; }
      i := i + 1;
    }
    return true;
  }

  // ---------------------------------------------------------------------------------------------
  // Animations

  /** The bindings of clip `c` that reference the renderer, empty when none does. */
  function BindingsIn(anims: map<ClipId, set<Binding>>, c: ClipId): set<Binding> {
    if c in anims then anims[c] else {}
  }

  /** The clips whose referencing bindings include an `m_IsActive` one. */
  function ActiveClips(anims: map<ClipId, set<Binding>>): (cs: set<ClipId>)
    ensures forall c :: c in cs <==> c in anims && exists b :: b in anims[c] && b.prop == IsActiveProperty
  {
    set c | c in anims && exists b :: b in anims[c] && b.prop == IsActiveProperty
  }

  /** The first part of the one-way check: as many clips toggle each renderer's objects, and each
      clip toggling the first has the same number of bindings for the second, all of them among
      the first's. */
  predicate ActiveAnimsAgree(a1: map<ClipId, set<Binding>>, a2: map<ClipId, set<Binding>>) {
    && |ActiveClips(a1)| == |ActiveClips(a2)|
    && forall c :: c in ActiveClips(a1) ==> c in a2 && |a2[c]| == |a1[c]| && a1[c] <= a2[c]
  }

  /** The bindings of the other renderer in the same clip with the same property name. */
  function Partners(a2: map<ClipId, set<Binding>>, c: ClipId, prop: string): (ps: set<Binding>)
    ensures forall b :: b in ps <==> b in BindingsIn(a2, c) && b.prop == prop
  {
    set b | b in BindingsIn(a2, c) && b.prop == prop
  }

  function BlendShapeName(prop: string): string
    requires StartsWith(prop, BlendShapePrefix)
  {
    prop[|BlendShapePrefix|..]
  }

  function MaterialPropertyName(prop: string): string
    requires StartsWith(prop, MaterialPrefix)
  {
    prop[|MaterialPrefix|..]
  }

  /** The blendshape rule for one binding `b` of clip `c` on the first renderer: a shape both
      meshes have must be animated on the second renderer in the same clip, by an equivalent curve. */
  predicate BlendShapeBindingOk(clips: map<ClipId, Clip>, r1: Renderer, r2: Renderer,
                                a2: map<ClipId, set<Binding>>, c: ClipId, b: Binding)
    requires r1.mesh.Some? && r2.mesh.Some?
    requires c in clips && b in clips[c] && ValidClip(clips[c])
    requires forall b2 :: b2 in BindingsIn(a2, c) ==> b2 in clips[c]
  {
    StartsWith(b.prop, BlendShapePrefix) ==>
      var name := BlendShapeName(b.prop);
      HasBlendShape(r1.mesh.value, name) && HasBlendShape(r2.mesh.value, name) ==>
        Partners(a2, c, b.prop) != {} &&
        forall b2 :: b2 in Partners(a2, c, b.prop) ==> CurvesEquivalent(clips[c][b], clips[c][b2])
  }

  /** The material rule for one binding: a property some material of each renderer has, when the
      second renderer animates it in the same clip, must be animated by an equivalent curve. */
  predicate MaterialBindingOk(clips: map<ClipId, Clip>, r1: Renderer, r2: Renderer,
                              a2: map<ClipId, set<Binding>>, c: ClipId, b: Binding)
    requires c in clips && b in clips[c] && ValidClip(clips[c])
    requires forall b2 :: b2 in BindingsIn(a2, c) ==> b2 in clips[c]
  {
    StartsWith(b.prop, MaterialPrefix) ==>
      var name := MaterialPropertyName(b.prop);
      PropertyExistsAmong(name, r2.materials) && PropertyExistsAmong(name, r1.materials) ==>
        forall b2 :: b2 in Partners(a2, c, b.prop) ==> CurvesEquivalent(clips[c][b], clips[c][b2])
  }

  lemma AnimsInClips(clips: map<ClipId, Clip>, r: Renderer)
    ensures forall c, b :: c in AnimationsReferencing(clips, r) && b in AnimationsReferencing(clips, r)[c] ==>
              c in clips && b in clips[c]
    ensures forall c, b :: b in BindingsIn(AnimationsReferencing(clips, r), c) ==> c in clips && b in clips[c]
  {
  }

  /** `AreSMRAnimationsCompatibleOneWay`. */
  predicate CompatibleOneWay(clips: map<ClipId, Clip>, r1: Renderer, r2: Renderer)
    requires ValidClips(clips) && r1.mesh.Some? && r2.mesh.Some?
  {
    var a1 := AnimationsReferencing(clips, r1);
    var a2 := AnimationsReferencing(clips, r2);
    AnimsInClips(clips, r1);
    AnimsInClips(clips, r2);
    && ActiveAnimsAgree(a1, a2)
    && (forall c, b :: c in a1 && b in a1[c] ==> BlendShapeBindingOk(clips, r1, r2, a2, c, b))
    && (forall c, b :: c in a1 && b in a1[c] ==> MaterialBindingOk(clips, r1, r2, a2, c, b))
  }

  /** `AreSMRsCompatible`. */
  predicate Compatible(clips: map<ClipId, Clip>, r1: Renderer, r2: Renderer, mergeBodyMesh: bool)
    requires ValidClips(clips) && r1.mesh.Some? && r2.mesh.Some?
  {
    BaseValuesCompatible(r1, r2, mergeBodyMesh) && CompatibleOneWay(clips, r1, r2) && CompatibleOneWay(clips, r2, r1)
  }

  /** Compatibility does not depend on the order of the two renderers. */
  lemma CompatibleSymmetric(clips: map<ClipId, Clip>, r1: Renderer, r2: Renderer, mergeBodyMesh: bool)
    requires ValidClips(clips) && r1.mesh.Some? && r2.mesh.Some?
    ensures Compatible(clips, r1, r2, mergeBodyMesh) <==> Compatible(clips, r2, r1, mergeBodyMesh)
  {
  }

  // ---------------------------------------------------------------------------------------------
  // The one-way check as the loops it is

  method CheckBlendShapeBinding(clips: map<ClipId, Clip>, r1: Renderer, r2: Renderer,
                                a2: map<ClipId, set<Binding>>, c: ClipId, b: Binding)
    returns (ok: bool)
    requires r1.mesh.Some? && r2.mesh.Some?
    requires c in clips && b in clips[c] && ValidClip(clips[c])
    requires forall b2 :: b2 in BindingsIn(a2, c) ==> b2 in clips[c]
    requires forall b2, b3 :: b2 in Partners(a2, c, b.prop) && b3 in Partners(a2, c, b.prop) ==> b2 == b3
    ensures ok <==> BlendShapeBindingOk(clips, r1, r2, a2, c, b)
  {
    if !StartsWith(b.prop, BlendShapePrefix) { return true; }
    var name := BlendShapeName(b.prop);
    if BlendShapeIndex(r1.mesh.value.blendShapes, name) == -1 || BlendShapeIndex(r2.mesh.value.blendShapes, name) == -1 {
      return true;
    }
    var partners := Partners(a2, c, b.prop);
    if partners == {} { return false; }
    var b2 :| b2 in partners;
    ok := AnimationCurvesEquivalent(clips[c][b], clips[c][b2]);
  }

  method CheckMaterialBinding(clips: map<ClipId, Clip>, r1: Renderer, r2: Renderer,
                              a2: map<ClipId, set<Binding>>, c: ClipId, b: Binding)
    returns (ok: bool)
    requires c in clips && b in clips[c] && ValidClip(clips[c])
    requires forall b2 :: b2 in BindingsIn(a2, c) ==> b2 in clips[c]
    requires forall b2, b3 :: b2 in Partners(a2, c, b.prop) && b3 in Partners(a2, c, b.prop) ==> b2 == b3
    ensures ok <==> MaterialBindingOk(clips, r1, r2, a2, c, b)
  {
    if !StartsWith(b.prop, MaterialPrefix) { return true; }
    var name := MaterialPropertyName(b.prop);
    if PropertyExistsAmong(name, r2.materials) && PropertyExistsAmong(name, r1.materials) {
      var partners := Partners(a2, c, b.prop);
      if partners != {} {
        var b2 :| b2 in partners;
        ok := AnimationCurvesEquivalent(clips[c][b], clips[c][b2]);
        return;
      }
    }
    return true;
  }

  /** Two bindings of one renderer's bindings for a clip with the same blendshape or material
      property are the same binding: both address that renderer's own path. */
  lemma PartnersUnique(clips: map<ClipId, Clip>, r2: Renderer, c: ClipId, prop: string)
    requires StartsWith(prop, BlendShapePrefix) || StartsWith(prop, MaterialPrefix)
    ensures var a2 := AnimationsReferencing(clips, r2);
            forall b2, b3 :: b2 in Partners(a2, c, prop) && b3 in Partners(a2, c, prop) ==> b2 == b3
  {
    assert IsActiveProperty[1] != BlendShapePrefix[1] && IsActiveProperty[1] != MaterialPrefix[1];
  }

  /** The `m_IsActive` part of the one-way check. */
  method CheckActiveAnims(a1: map<ClipId, set<Binding>>, a2: map<ClipId, set<Binding>>) returns (ok: bool)
    ensures ok <==> ActiveAnimsAgree(a1, a2)
  {
    var active1 := ActiveClips(a1);
    if |active1| != |ActiveClips(a2)| { return false; }
    var todo := active1;
    while todo != {}
      invariant todo <= active1
      invariant forall c :: c in active1 - todo ==> c in a2 && |a2[c]| == |a1[c]| && a1[c] <= a2[c]
      decreases todo
    {
      var c :| c in todo;
      if !(c in a2 && |a2[c]| == |a1[c]| && a1[c] <= a2[c]) { return false; }
      todo := todo - {c};
    }
    return true;
  }

  /** The bindings of one clip, for the blendshape or the material loop. */
  method CheckClip(clips: map<ClipId, Clip>, r1: Renderer, r2: Renderer, c: ClipId, materials: bool)
    returns (ok: bool)
    requires ValidClips(clips) && r1.mesh.Some? && r2.mesh.Some?
    requires c in AnimationsReferencing(clips, r1)
    ensures AnimsInClipsOk(clips, r1, r2)
    ensures ok <==> forall b :: b in AnimationsReferencing(clips, r1)[c] ==>
                      BindingOk(clips, r1, r2, AnimationsReferencing(clips, r2), c, b, materials)
  {
    var a1 := AnimationsReferencing(clips, r1);
    var a2 := AnimationsReferencing(clips, r2);
    AnimsInClips(clips, r1);
    AnimsInClips(clips, r2);
    var left := a1[c];
    while left != {}
      invariant left <= a1[c]
      invariant forall b :: b in a1[c] - left ==> BindingOk(clips, r1, r2, a2, c, b, materials)
      decreases left
    {
      var b :| b in left;
      var fine := true;
      if !materials && StartsWith(b.prop, BlendShapePrefix) {
        PartnersUnique(clips, r2, c, b.prop);
        fine := CheckBlendShapeBinding(clips, r1, r2, a2, c, b);
      } else if materials && StartsWith(b.prop, MaterialPrefix) {
        PartnersUnique(clips, r2, c, b.prop);
        fine := CheckMaterialBinding(clips, r1, r2, a2, c, b);
      }
      if !fine { return false; }
      left := left - {b};
    }
    return true;
  }

  /** The blendshape rule, or the material rule. */
  predicate BindingOk(clips: map<ClipId, Clip>, r1: Renderer, r2: Renderer,
                      a2: map<ClipId, set<Binding>>, c: ClipId, b: Binding, materials: bool)
    requires r1.mesh.Some? && r2.mesh.Some?
    requires c in clips && b in clips[c] && ValidClip(clips[c])
    requires forall b2 :: b2 in BindingsIn(a2, c) ==> b2 in clips[c]
  {
    if materials then MaterialBindingOk(clips, r1, r2, a2, c, b) else BlendShapeBindingOk(clips, r1, r2, a2, c, b)
  }

  /** The blendshape loop (`materials` false) or the material property loop (`materials` true) of
      the one-way check, over every clip and binding referencing the first renderer. */
  method CheckAnims(clips: map<ClipId, Clip>, r1: Renderer, r2: Renderer, materials: bool) returns (ok: bool)
    requires ValidClips(clips) && r1.mesh.Some? && r2.mesh.Some?
    ensures AnimsInClipsOk(clips, r1, r2)
    ensures ok <==> forall c, b :: c in AnimationsReferencing(clips, r1) && b in AnimationsReferencing(clips, r1)[c] ==>
                      BindingOk(clips, r1, r2, AnimationsReferencing(clips, r2), c, b, materials)
  {
    var a1 := AnimationsReferencing(clips, r1);
    var a2 := AnimationsReferencing(clips, r2);
    AnimsInClips(clips, r1);
    AnimsInClips(clips, r2);
    var clipsLeft := a1.Keys;
    while clipsLeft != {}
      invariant clipsLeft <= a1.Keys
      invariant forall c, b :: c in a1 && c !in clipsLeft && b in a1[c] ==> BindingOk(clips, r1, r2, a2, c, b, materials)
      decreases clipsLeft
    {
      var c :| c in clipsLeft;
      var fine := CheckClip(clips, r1, r2, c, materials);
      if !fine { return false; }
      clipsLeft := clipsLeft - {c};
    }
    return true;
  }

  ghost predicate AnimsInClipsOk(clips: map<ClipId, Clip>, r1: Renderer, r2: Renderer) {
    && (forall c, b :: c in AnimationsReferencing(clips, r1) && b in AnimationsReferencing(clips, r1)[c] ==>
          c in clips && b in clips[c])
    && (forall c, b :: b in BindingsIn(AnimationsReferencing(clips, r2), c) ==> c in clips && b in clips[c])
  }

  method AreSMRAnimationsCompatibleOneWay(clips: map<ClipId, Clip>, r1: Renderer, r2: Renderer) returns (ok: bool)
    requires ValidClips(clips) && r1.mesh.Some? && r2.mesh.Some?
    ensures ok <==> CompatibleOneWay(clips, r1, r2)
  {
    ok := CheckActiveAnims(AnimationsReferencing(clips, r1), AnimationsReferencing(clips, r2));
    if !ok { return; }
    ok := CheckAnims(clips, r1, r2, false);
    if !ok { return; }
    ok := CheckAnims(clips, r1, r2, true);
  }

  method AreSMRsCompatible(clips: map<ClipId, Clip>, r1: Renderer, r2: Renderer, mergeBodyMesh: bool)
    returns (ok: bool)
    requires ValidClips(clips) && r1.mesh.Some? && r2.mesh.Some?
    ensures ok <==> Compatible(clips, r1, r2, mergeBodyMesh)
  {
    if !BaseValuesCompatible(r1, r2, mergeBodyMesh) { return false; }
    ok := AreSMRAnimationsCompatibleOneWay(clips, r1, r2);
    if ok {
      ok := AreSMRAnimationsCompatibleOneWay(clips, r2, r1);
    }
  }

  // ---------------------------------------------------------------------------------------------
  // What compatibility guarantees

  /** Once two renderers are compatible, every blendshape curve on the first for a shape the
      second's mesh also has is matched, in the same clip, by a binding on the second with the
      same property and the very same curve; so after the merge the shape moves the same way on
      both parts. */
  lemma CompatibleBlendShapeCurvesMatch(clips: map<ClipId, Clip>, r1: Renderer, r2: Renderer, c: ClipId, b: Binding)
    requires ValidClips(clips) && r1.mesh.Some? && r2.mesh.Some? && CompatibleOneWay(clips, r1, r2)
    requires c in clips && b in clips[c] && References(r1, b) && StartsWith(b.prop, BlendShapePrefix)
    requires HasBlendShape(r1.mesh.value, BlendShapeName(b.prop)) && HasBlendShape(r2.mesh.value, BlendShapeName(b.prop))
    ensures exists b2 :: b2 in clips[c] && References(r2, b2) && b2.prop == b.prop && clips[c][b2] == clips[c][b]
  {
    var a1 := AnimationsReferencing(clips, r1);
    var a2 := AnimationsReferencing(clips, r2);
    AnimsInClips(clips, r2);
    assert c in a1 && b in a1[c];
    assert BlendShapeBindingOk(clips, r1, r2, a2, c, b);
    var b2 :| b2 in Partners(a2, c, b.prop);
    assert clips[c][b].FloatCurve? && clips[c][b2].FloatCurve?;
    CurvesEquivalentIsEquality(clips[c][b], clips[c][b2]);
  }

  /** A blendshape both meshes have, animated on the first renderer in some clip where the second
      renderer does not animate it, rules the merge out. */
  lemma UnmatchedBlendShapeIncompatible(clips: map<ClipId, Clip>, r1: Renderer, r2: Renderer, c: ClipId, b: Binding)
    requires ValidClips(clips) && r1.mesh.Some? && r2.mesh.Some?
    requires c in clips && b in clips[c] && References(r1, b) && StartsWith(b.prop, BlendShapePrefix)
    requires HasBlendShape(r1.mesh.value, BlendShapeName(b.prop)) && HasBlendShape(r2.mesh.value, BlendShapeName(b.prop))
    requires forall b2 :: b2 in clips[c] && References(r2, b2) ==> b2.prop != b.prop
    ensures !CompatibleOneWay(clips, r1, r2)
  {
    var a2 := AnimationsReferencing(clips, r2);
    AnimsInClips(clips, r2);
    assert Partners(a2, c, b.prop) == {};
  }

  /** Once the one-way check passes, every clip that toggles an object of the first renderer
      references the second renderer through exactly the same bindings. */
  lemma CompatibleActiveClipsAgree(clips: map<ClipId, Clip>, r1: Renderer, r2: Renderer, c: ClipId)
    requires ValidClips(clips) && r1.mesh.Some? && r2.mesh.Some? && CompatibleOneWay(clips, r1, r2)
    requires c in ActiveClips(AnimationsReferencing(clips, r1))
    ensures c in AnimationsReferencing(clips, r2)
    ensures AnimationsReferencing(clips, r2)[c] == AnimationsReferencing(clips, r1)[c]
  {
    var a1 := AnimationsReferencing(clips, r1);
    var a2 := AnimationsReferencing(clips, r2);
    SubsetOfSameSize(a1[c], a2[c]);
  }

  lemma {:induction false} SubsetSize<T>(s: set<T>, t: set<T>)
    requires s <= t
    ensures |s| <= |t|
    decreases |s|
  {
    if s != {} {
      var x :| x in s;
      SubsetSize(s - {x}, t - {x});
    }
  }

  lemma SubsetOfSameSize<T>(s: set<T>, t: set<T>)
    requires s <= t && |s| == |t|
    ensures s == t
  {
    if s != t {
      var x :| x in t && x !in s;
      SubsetSize(s, t - {x});
    }
  }
}
