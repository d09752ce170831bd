/** The engine objects the tools work on, as plain values.
    Transforms, bind-pose matrices, materials and vectors are opaque values
    compared by exact equality; a null reference is `None`. */
module Unity {
  import opened Base
  import opened Strings

  datatype Transform = Transform(id: nat)

  /** A bind-pose matrix; only its exact equality matters to the tools. */
  datatype Matrix = Matrix(id: int)

  /** A vertex attribute value (position, normal, tangent, uv or colour). */
  datatype Vector = Vector(x: real, y: real, z: real, w: real)

  /** What `new T[len]` fills an attribute array with. */
  const ZeroVector := Vector(0.0, 0.0, 0.0, 0.0)

  datatype Material = Material(id: nat, name: string, shaderName: string, properties: set<string>,
                               renderQueue: int, enableInstancing: bool)

  datatype Topology = Triangles | Quads | Lines | LineStrip | Points

  datatype SubMesh = SubMesh(indices: seq<int>, topology: Topology)

  /** Four bone influences of one vertex. */
  datatype BoneWeight = BoneWeight(boneIndex0: int, boneIndex1: int, boneIndex2: int, boneIndex3: int,
                                   weight0: real, weight1: real, weight2: real, weight3: real)

  datatype Frame = Frame(weight: real, deltaVertices: seq<Vector>, deltaNormals: seq<Vector>,
                         deltaTangents: seq<Vector>)

  datatype BlendShape = BlendShape(name: string, frames: seq<Frame>)

  /** The optional per-vertex channels, in this order:
      uv, uv2, ..., uv8, normals, tangents, colors. */
  const NumChannels := 11
  const ColorsChannel := 10
  const UvChannel := 0

  datatype Mesh = Mesh(name: string, vertices: seq<Vector>, channels: seq<seq<Vector>>,
                       boneWeights: seq<BoneWeight>, bindposes: seq<Matrix>,
                       subMeshes: seq<SubMesh>, blendShapes: seq<BlendShape>)

  function BlendShapeNames(bs: seq<BlendShape>): (names: seq<string>)
    ensures |names| == |bs| && forall i :: 0 <= i < |bs| ==> names[i] == bs[i].name
  {
    if bs == [] then [] else [bs[0].name] + BlendShapeNames(bs[1..])
  }

  /** `Mesh.GetBlendShapeIndex`: the index of the shape with that name, or -1. */
  function BlendShapeIndex(bs: seq<BlendShape>, name: string): (k: int)
    ensures -1 <= k < |bs|
    ensures k >= 0 ==> bs[k].name == name && forall j :: 0 <= j < k ==> bs[j].name != name
    ensures k == -1 <==> forall j :: 0 <= j < |bs| ==> bs[j].name != name
  {
    if bs == [] then -1
    else if bs[0].name == name then 0
    else var k := BlendShapeIndex(bs[1..], name); if k == -1 then -1 else k + 1
  }

  predicate HasBlendShape(m: Mesh, name: string) {
    BlendShapeIndex(m.blendShapes, name) != -1
  }

  predicate FrameFits(f: Frame, n: nat) {
    |f.deltaVertices| == n && |f.deltaNormals| == n && |f.deltaTangents| == n
  }

  /** What the engine guarantees of every mesh: each optional channel is empty or has one
      entry per vertex, blendshape names are distinct and every frame has one delta per vertex. */
  predicate ValidMesh(m: Mesh) {
    && |m.channels| == NumChannels
    && (forall c :: 0 <= c < NumChannels ==> |m.channels[c]| == 0 || |m.channels[c]| == |m.vertices|)
    && (forall i, j :: 0 <= i < j < |m.blendShapes| ==> m.blendShapes[i].name != m.blendShapes[j].name)
    && (forall i, f :: 0 <= i < |m.blendShapes| && 0 <= f < |m.blendShapes[i].frames| ==>
          FrameFits(m.blendShapes[i].frames[f], |m.vertices|))
  }

  predicate ValidRenderer(r: Renderer) {
    r.mesh.Some? ==> ValidMesh(r.mesh.value)
  }

  datatype RendererKind =
    | MeshRendererKind
    | SkinnedMeshRendererKind
    | ParticleSystemRendererKind
    | OtherRendererKind

  /** The component type named in an animation binding or looked up by full name. */
  datatype ComponentType =
    | SkinnedMeshRendererType
    | MeshRendererType
    | ParticleSystemRendererType
    | GameObjectType
    | OtherType(fullName: string)

  function RendererType(k: RendererKind): ComponentType {
    match k
    case MeshRendererKind => MeshRendererType
    case SkinnedMeshRendererKind => SkinnedMeshRendererType
    case ParticleSystemRendererKind => ParticleSystemRendererType
    case OtherRendererKind => OtherType("UnityEngine.Renderer")
  }

  /** The renderer settings that must agree for two skinned meshes to merge. */
  datatype RenderSettings = RenderSettings(
    activeSelf: bool, activeInHierarchy: bool, probeAnchor: Option<Transform>, rootBone: Option<Transform>,
    quality: int, updateWhenOffscreen: bool, shadowCastingMode: int, receiveShadows: bool,
    lightProbeUsage: int, reflectionProbeUsage: int, skinnedMotionVectors: bool,
    allowOcclusionWhenDynamic: bool)

  /** A renderer component. `path` is its object's path below the avatar root, `activePaths` the
      paths of that object and of its ancestors below the root, `parentIsRoot` whether its
      object's parent is the avatar root, `underNestedAnimator` whether an animator other than the
      root's is above it. `mesh` is the shared mesh (through the mesh filter for a mesh renderer,
      the particle mesh for a particle renderer). `blendShapeWeights` holds the renderer's current
      blendshape values by name. */
  datatype Renderer = Renderer(
    kind: RendererKind, path: string, name: string, parentIsRoot: bool, underNestedAnimator: bool,
    activePaths: set<string>, settings: RenderSettings, mesh: Option<Mesh>,
    materials: seq<Option<Material>>, bones: seq<Option<Transform>>,
    blendShapeWeights: map<string, real>)

  /** `GetBlendShapeWeight` of the shape with that name; zero when the renderer holds no value. */
  function BlendShapeWeight(r: Renderer, name: string): real {
    if name in r.blendShapeWeights then r.blendShapeWeights[name] else 0.0
  }

  /** `MaterialPropertyExistsAmongMaterials`: some non-null material has the property. */
  predicate PropertyExistsAmong(property: string, materials: seq<Option<Material>>) {
    exists i :: 0 <= i < |materials| && materials[i].Some? && property in materials[i].value.properties
  }

  /** The root-level "Body" mesh. */
  predicate IsBodyMesh(r: Renderer) {
    r.name == "Body" && r.parentIsRoot
  }

  /** The address of an animation curve: (path, type, propertyName). */
  datatype Binding = Binding(path: string, typ: ComponentType, prop: string)

  datatype Keyframe = Keyframe(time: real, value: real, inTangent: real, outTangent: real,
                               inWeight: real, outWeight: real, weightedMode: int)

  datatype WrapMode = DefaultWrap | Once | Loop | PingPong | ClampForever

  datatype ObjectKeyframe = ObjectKeyframe(time: real, value: Option<Material>)

  /** A float curve, or an object-reference ("PPtr") curve. */
  datatype Curve =
    | FloatCurve(keys: seq<Keyframe>, preWrapMode: WrapMode, postWrapMode: WrapMode)
    | ObjectCurve(objectKeys: seq<ObjectKeyframe>)

  type Clip = map<Binding, Curve>

  type ClipId = nat

  predicate IsPPtr(clip: Clip, b: Binding)
    requires b in clip
  {
    clip[b].ObjectCurve?
  }

  const IsActiveProperty := "m_IsActive"
  const BlendShapePrefix := "blendShape."
  const MaterialPrefix := "material."
  const SlotPrefix := "m_Materials.Array.data["

  /** `$"m_Materials.Array.data[{k}]"` */
  function SlotProperty(k: int): string {
    SlotPrefix + IntToString(k) + "]"
  }

  /** The slot index of a material-slot property: the text after the prefix up to the first
      character of `stops`, through `int.Parse`. */
  function SlotIndex(prop: string, stops: set<char>): Option<int>
    requires StartsWith(prop, SlotPrefix)
  {
    ParseInt(TakeUntil(prop[|SlotPrefix|..], stops))
  }

  lemma SlotIndexOfSlotProperty(k: int, stops: set<char>)
    requires stops <= {'[', ']'} && ']' in stops
    ensures StartsWith(SlotProperty(k), SlotPrefix)
    ensures SlotIndex(SlotProperty(k), stops) == Some(k)
  {
    var p := SlotProperty(k);
    var digits := IntToString(k);
    assert p[..|SlotPrefix|] == SlotPrefix;
    assert p[|SlotPrefix|..] == digits + "]";
    IntToStringHasNoBrackets(k);
    TakeUntilStopsAtEnd(digits, "]", stops);
    ParseIntRoundTrip(k);
  }

  lemma SlotPropertyInjective(i: int, j: int)
    requires SlotProperty(i) == SlotProperty(j)
    ensures i == j
  {
    SlotIndexOfSlotProperty(i, {']'});
    SlotIndexOfSlotProperty(j, {']'});
  }

  /** A slot property name is neither a blendshape nor a material property name. */
  lemma SlotPropertyPrefixes(k: int)
    ensures !StartsWith(SlotProperty(k), BlendShapePrefix) && !StartsWith(SlotProperty(k), MaterialPrefix)
  {
    var p := SlotProperty(k);
    assert p[0] == 'm' && BlendShapePrefix[0] == 'b';
    assert p[1] == '_' && MaterialPrefix[1] == 'a';
  }

  /** A slot property name is not the active-state property. */
  lemma SlotPrefixNotActive(p: string)
    requires StartsWith(p, SlotPrefix)
    ensures p != IsActiveProperty
  {
    assert p[2] == SlotPrefix[2] == 'M';
    assert IsActiveProperty[2] == 'I';
  }

  lemma TakeUntilStopsAtEnd(s: string, t: string, stops: set<char>)
    requires forall i :: 0 <= i < |s| ==> s[i] !in stops
    requires |t| > 0 && t[0] in stops
    ensures TakeUntil(s + t, stops) == s
  {
    assert (s + t)[..|s|] == s;
    assert (s + t)[|s|] == t[0];
  }

  /** Material-slot property names have the canonical form `m_Materials.Array.data[<k>]`,
      and they address object-reference curves; blendshape and material properties are float curves. */
  predicate ValidClip(clip: Clip) {
    forall b :: b in clip ==>
      && (StartsWith(b.prop, SlotPrefix) ==>
            SlotIndex(b.prop, {']'}).Some? && b.prop == SlotProperty(SlotIndex(b.prop, {']'}).value)
            && clip[b].ObjectCurve?)
      && (StartsWith(b.prop, BlendShapePrefix) || StartsWith(b.prop, MaterialPrefix) ==> clip[b].FloatCurve?)
  }

  predicate ValidClips(clips: map<ClipId, Clip>) {
    forall c :: c in clips ==> ValidClip(clips[c])
  }

  /** A binding that animates renderer `r` as `GetAnimationsReferencingSMR` collects them:
      skinned-renderer bindings on its own path, and `m_IsActive` bindings on its object or an ancestor. */
  predicate References(r: Renderer, b: Binding) {
    || (b.typ == SkinnedMeshRendererType && b.path == r.path)
    || (b.typ == GameObjectType && b.path in r.activePaths && b.prop == IsActiveProperty)
  }

  function ReferencingIn(clip: Clip, r: Renderer): (bs: set<Binding>)
    ensures forall b :: b in bs <==> b in clip && References(r, b)
  {
    set b | b in clip && References(r, b)
  }

  /** `GetAnimationsReferencingSMR`: for every clip with at least one binding referencing `r`,
      the set of those bindings. */
  function AnimationsReferencing(clips: map<ClipId, Clip>, r: Renderer): (anims: map<ClipId, set<Binding>>)
    ensures forall c :: c in anims <==> c in clips && ReferencingIn(clips[c], r) != {}
    ensures forall c :: c in anims ==> anims[c] == ReferencingIn(clips[c], r)
  {
    map c | c in clips && ReferencingIn(clips[c], r) != {} :: ReferencingIn(clips[c], r)
  }
}
