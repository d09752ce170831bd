# DuckDucks-Tools avatar build steps, modelled in Dafny

DuckDucks-Tools adds a set of VRCFury build features for VRChat avatars in the Unity editor. This
project models the core of those features and proves properties about them:

- **Mesh Merger** (`MeshMergeBuilder`). Before the blendshape optimiser runs, it groups the
  avatar's skinned mesh renderers that can be merged. Two renderers can merge when they have the
  same activity, root bone, anchor and render settings, agree on shared blendshape values, and
  their animations are compatible. For each group the builder:
  - picks the root "Body" mesh or the first member as the merge target;
  - re-points every other member's animation curves at the target;
  - appends that member's mesh to the target's mesh (vertices, channels, bone table, weights,
    submeshes and blendshapes);
  - finally merges the target's material slots that hold the same unanimated material.
- **Quest compatibility** (`QuestCompatibilityBuilder`), for Quest builds only:
  - deletes the dynamics components the user marks for deletion;
  - counts physbones, transforms, colliders and collision checks, warns when the Quest limits
    are exceeded, and on the user's confirmation removes the over-limit component kinds;
  - replaces each renderer's materials with mobile ones, either from the user's override list or
    by building a copy with the default mobile shader, with one cache for particle renderers and
    one for the others;
  - nulls the material slots the user lists, then deletes every null slot and its submesh, and
    renames the material-swap animations of the slots that moved;
  - destroys components Quest does not allow;
  - strips vertex colours from meshes, sharing each converted mesh between renderers.
- **Mesh Deleter** (`MeshDeleterBuilder`). It removes the triangles of one submesh whose UV
  centre samples a mask texture as white, or as black in the inverse mode. It can be restricted
  to one platform.
- **Mesh Deleter window** (`MeshDeleter`). This is the editor tool that masks every submesh of a
  skinned mesh the same way, then saves the copy under the first free `_masked` file name.
- **Platform Specific Object Deleter** (`PlatformSpecificDeleterBuilder`). On the selected
  platform it destroys a list of objects, each with everything below it in the hierarchy. It
  fails the build when an object is already gone, for example a child listed after its parent.

How the model represents Unity objects:

- Unity objects are values: `Renderer`, `Mesh`, `SubMesh`, `BlendShape`, `Frame` and
  `BoneWeight` datatypes.
- An animation clip is a map from curve bindings (path, component type, property name) to
  curves. The avatar's clips are a map from clip identities to clips.
- A null reference is `None`.
- An exception is an `Err` of `Result`.
- Where the source keeps state in a long-lived object, the model uses a `class` with those
  fields:
  - the material caches (`QuestMaterials.MaterialSelector`);
  - the mesh cache (`QuestVertexColors.VertexColorRemover`);
  - the delete list (`PlatformDeleting.PlatformSpecificDeleter`).
- Each loop of the source is a `method` proved against a function that states what the loop
  computes. The properties are lemmas about those functions.

Files:

- `base.dfy`, `strings.dfy`, `seqs.dfy`, `platform.dfy` and `unity.dfy` hold the shared
  vocabulary.
- `mesh_merge.dfy`, `compatibility.dfy`, `curve_fixup.dfy`, `slot_merge.dfy` and
  `merge_apply.dfy` model the Mesh Merger.
- `quest_dynamics.dfy`, `quest_materials.dfy`, `quest_slots.dfy`, `quest_components.dfy` and
  `quest_vertex_colors.dfy` model Quest compatibility.
- `mesh_deleter.dfy` and `mask_window.dfy` model the two mesh deleters.
- `platform_deleter.dfy` models the object deleter.

## Model

| member | source | states |
|---|---|---|
| Strings.NatToString | Editor/DuckDucksTools/VRCFury-Extensions/MeshMergeBuilder.cs:383 | the decimal form of a slot index is a non-empty string of digits |
| Strings.TakeUntil | Editor/DuckDucksTools/VRCFury-Extensions/MeshMergeBuilder.cs:381 | `Split(...)[0]`: the longest prefix with no stop character, ending where the first stop character begins |
| Strings.ParseIntRoundTrip | Editor/DuckDucksTools/VRCFury-Extensions/MeshMergeBuilder.cs:381-383 | parsing a formatted slot index gives the index back, for every integer |
| Strings.IntToStringInjective | Editor/DuckDucksTools/VRCFury-Extensions/MeshMergeBuilder.cs:383 | different slot indices give different property names |
| Strings.IntToStringHasNoBrackets | Assets/Editor/DuckDucksTools/VRCFury-Extensions/QuestCompatibility/QuestCompatibilityBuilder.cs:823 | a formatted index holds no bracket, so splitting a slot property at brackets recovers it |
| Seqs.FilterMembers | Assets/Editor/DuckDucksTools/VRCFury-Extensions/QuestCompatibility/QuestCompatibilityBuilder.cs:911-914 | `Where` keeps exactly the elements that pass the test |
| Seqs.FilterAppend | Assets/Editor/DuckDucksTools/VRCFury-Extensions/QuestCompatibility/QuestCompatibilityBuilder.cs:911-914 | filtering distributes over concatenation |
| Seqs.FilterTwice | Editor/DuckDucksTools/VRCFury-Extensions/QuestCompatibility/PlatformSpecificDeleterBuilder.cs:66 | removing nulls a second time changes nothing |
| Platforms.Applies | Editor/DuckDucksTools/VRCFury-Extensions/QuestCompatibility/PlatformSpecificDeleterBuilder.cs:72-80 | the feature runs iff the selection is all platforms, desktop-only on a desktop build, or Quest-only on a Quest build |
| Unity.BlendShapeNames | Editor/DuckDucksTools/VRCFury-Extensions/MeshMergeBuilder.cs:42-50 | one name per blendshape, in mesh order |
| Unity.BlendShapeIndex | Editor/DuckDucksTools/VRCFury-Extensions/MeshMergeBuilder.cs:79-80 | `GetBlendShapeIndex` is the first shape with that name, and -1 iff no shape has it |
| Unity.SlotIndexOfSlotProperty | Editor/DuckDucksTools/VRCFury-Extensions/MeshMergeBuilder.cs:381 | the slot index read back from `m_Materials.Array.data[k]` is k |
| Unity.SlotPropertyInjective | Editor/DuckDucksTools/VRCFury-Extensions/MeshMergeBuilder.cs:383 | distinct slots have distinct property names |
| Unity.SlotPropertyPrefixes | Editor/DuckDucksTools/VRCFury-Extensions/MeshMergeBuilder.cs:271-282 | a slot property is neither a blendshape nor a material property |
| Unity.SlotPrefixNotActive | Editor/DuckDucksTools/VRCFury-Extensions/MeshMergeBuilder.cs:332 | a slot property is not `m_IsActive` |
| Unity.TakeUntilStopsAtEnd | Editor/DuckDucksTools/VRCFury-Extensions/MeshMergeBuilder.cs:381 | splitting stops at the first closing bracket after the digits |
| Unity.ReferencingIn | Editor/DuckDucksTools/VRCFury-Extensions/MeshMergeBuilder.cs:137-152 | the bindings of a clip that animate the renderer or the active state of it or an ancestor |
| Unity.AnimationsReferencing | Editor/DuckDucksTools/VRCFury-Extensions/MeshMergeBuilder.cs:104-155 | `GetAnimationsReferencingSMR`: exactly the clips with such a binding, each with those bindings |
| MeshMerge.Register | Editor/DuckDucksTools/VRCFury-Extensions/MeshMergeBuilder.cs:605-638 | the bone table only grows |
| MeshMerge.IndexMap | Editor/DuckDucksTools/VRCFury-Extensions/MeshMergeBuilder.cs:611-635 | one new index per bind pose |
| MeshMerge.FindEntry | Editor/DuckDucksTools/VRCFury-Extensions/MeshMergeBuilder.cs:620-629 | the search finds the first table entry equal to the pair, or -1 iff none is |
| MeshMerge.BuildIndices | Editor/DuckDucksTools/VRCFury-Extensions/MeshMergeBuilder.cs:605-638 | fails with an index error iff a bind pose has no bone; otherwise it extends the table to cover every non-null bone and returns the old-to-new index map |
| MeshMerge.RegisterCovers | Editor/DuckDucksTools/VRCFury-Extensions/MeshMergeBuilder.cs:617-635 | every non-null bone's (transform, bind pose) pair is in the table |
| MeshMerge.RegisterEntries | Editor/DuckDucksTools/VRCFury-Extensions/MeshMergeBuilder.cs:617-635 | the table holds each pair once, and each new entry comes from a non-null bone |
| MeshMerge.BindPosesOf | Editor/DuckDucksTools/VRCFury-Extensions/MeshMergeBuilder.cs:645-653 | the merged bind poses follow the table |
| MeshMerge.BonesOf | Editor/DuckDucksTools/VRCFury-Extensions/MeshMergeBuilder.cs:782-783 | the merged bone array follows the table |
| MeshMerge.FillBoneArrays | Editor/DuckDucksTools/VRCFury-Extensions/MeshMergeBuilder.cs:645-653 | the fill loops produce the table's bind poses and bones |
| MeshMerge.IndexMapSound | Editor/DuckDucksTools/VRCFury-Extensions/MeshMergeBuilder.cs:605-653 | an old bone's new index names the same transform and bind pose, and two old bones share a new index iff they have the same transform and bind pose |
| MeshMerge.Zeros | Editor/DuckDucksTools/VRCFury-Extensions/MeshMergeBuilder.cs:664-665 | `MakeArray` of zeros has the requested length |
| MeshMerge.MergeChannel | Editor/DuckDucksTools/VRCFury-Extensions/MeshMergeBuilder.cs:664-678 | a channel missing from both meshes stays empty; otherwise it has one entry per merged vertex, zero-filled for a mesh without it |
| MeshMerge.MergeChannels | Editor/DuckDucksTools/VRCFury-Extensions/MeshMergeBuilder.cs:668-678 | every vertex channel is merged |
| MeshMerge.RemapWeights | Editor/DuckDucksTools/VRCFury-Extensions/MeshMergeBuilder.cs:686-699 | succeeds iff every bone index is known; each weight is remapped through the index map |
| MeshMerge.RemapWeightsStops | Editor/DuckDucksTools/VRCFury-Extensions/MeshMergeBuilder.cs:686-699 | the first vertex with an unknown index decides the failure |
| MeshMerge.RemapInto | Editor/DuckDucksTools/VRCFury-Extensions/MeshMergeBuilder.cs:686-699 | one weight loop writes exactly the remapped weights after the offset and leaves earlier slots alone; it fails as the specification says |
| MeshMerge.RemapBoneWeights | Editor/DuckDucksTools/VRCFury-Extensions/MeshMergeBuilder.cs:680-702 | the two weight loops compute the combined remapped weights |
| MeshMerge.Shifted | Editor/DuckDucksTools/VRCFury-Extensions/MeshMergeBuilder.cs:705-711 | a second-mesh submesh keeps its topology, and every index moves up by the first mesh's vertex count |
| MeshMerge.MergedSubMeshes | Editor/DuckDucksTools/VRCFury-Extensions/MeshMergeBuilder.cs:705-711 | one submesh per submesh of either mesh |
| MeshMerge.MergeSubMeshes | Editor/DuckDucksTools/VRCFury-Extensions/MeshMergeBuilder.cs:705-711 | the submesh loop builds the merged submesh list |
| MeshMerge.SubMeshVerticesPreserved | Editor/DuckDucksTools/VRCFury-Extensions/MeshMergeBuilder.cs:658-711 | every merged triangle refers to the same vertex positions as in its own mesh |
| MeshMerge.AppendNew | Editor/DuckDucksTools/VRCFury-Extensions/MeshMergeBuilder.cs:718-720 | adding to a `HashSet` keeps the earlier names and adds exactly the new ones, each once |
| MeshMerge.UnionNames | Editor/DuckDucksTools/VRCFury-Extensions/MeshMergeBuilder.cs:718-720 | the blendshape names of both meshes, each once |
| MeshMerge.FirstIncompatible | Editor/DuckDucksTools/VRCFury-Extensions/MeshMergeBuilder.cs:722-746 | the first name whose frame counts or frame weights differ, or -1 iff none |
| MeshMerge.MergeFrames | Editor/DuckDucksTools/VRCFury-Extensions/MeshMergeBuilder.cs:738-763 | succeeds iff the frame weights agree (otherwise a weight-mismatch error), producing the merged frames |
| MeshMerge.MergedShapeFrames | Editor/DuckDucksTools/VRCFury-Extensions/MeshMergeBuilder.cs:738-763 | a merged frame has the weight both meshes agree on; its deltas are the first mesh's then the second's, zeros for a mesh without the shape |
| MeshMerge.MergeShape | Editor/DuckDucksTools/VRCFury-Extensions/MeshMergeBuilder.cs:722-764 | one name: succeeds iff the two shapes are compatible, with the error of the first failing check otherwise |
| MeshMerge.MergeBlendShapes | Editor/DuckDucksTools/VRCFury-Extensions/MeshMergeBuilder.cs:722-764 | the blendshape loop equals its specification, which stops at the first incompatible name |
| MeshMerge.MergedShapesFit | Editor/DuckDucksTools/VRCFury-Extensions/MeshMergeBuilder.cs:722-764 | merged shapes have distinct names and one delta per merged vertex in every frame |
| MeshMerge.LastWinsMeaning | Editor/DuckDucksTools/VRCFury-Extensions/MeshMergeBuilder.cs:799-807 | setting values in order keeps exactly the names set, each with its last value |
| MeshMerge.CopyBlendShapeWeights | Editor/DuckDucksTools/VRCFury-Extensions/MeshMergeBuilder.cs:799-807 | the `SetBlendShapeWeight` loop computes the last-wins map |
| MeshMerge.KeptValues | Editor/DuckDucksTools/VRCFury-Extensions/MeshMergeBuilder.cs:799-807 | the target's values are read for every merged name |
| MeshMerge.ShapeValues | Editor/DuckDucksTools/VRCFury-Extensions/MeshMergeBuilder.cs:42-50 | the other renderer's values, one per shape |
| MeshMerge.MergedValuesSecond | Editor/DuckDucksTools/VRCFury-Extensions/MeshMergeBuilder.cs:799-807 | a shape of the merged-away mesh takes that renderer's value |
| MeshMerge.MergedValuesFirst | Editor/DuckDucksTools/VRCFury-Extensions/MeshMergeBuilder.cs:799-807 | a shape only the target has keeps the target's value |
| MeshMerge.MergedValuesDomain | Editor/DuckDucksTools/VRCFury-Extensions/MeshMergeBuilder.cs:799-807 | values are set for exactly the shapes of either mesh |
| MeshMerge.MergeBlendShapeValues | Editor/DuckDucksTools/VRCFury-Extensions/MeshMergeBuilder.cs:799-807 | the merged renderer's blendshape values: the second renderer's for its shapes, the target's for the rest |
| MeshMerge.Table1 | Editor/DuckDucksTools/VRCFury-Extensions/MeshMergeBuilder.cs:641 | the table after the first mesh covers its bones |
| MeshMerge.Table | Editor/DuckDucksTools/VRCFury-Extensions/MeshMergeBuilder.cs:641-642 | the table after both meshes extends the first and covers the second mesh's bones |
| MeshMerge.MergeParts | Editor/DuckDucksTools/VRCFury-Extensions/MeshMergeBuilder.cs:579-808 | a merge that succeeds is the assembly of the merged weights and blendshapes |
| MeshMerge.MergeSMRs | Editor/DuckDucksTools/VRCFury-Extensions/MeshMergeBuilder.cs:579-808 | `MergeSMRs` equals the merge function |
| MeshMerge.MergeSucceedsIff | Editor/DuckDucksTools/VRCFury-Extensions/MeshMergeBuilder.cs:579-808 | the merge fails iff a mesh lacks bones for its bind poses or weights for its vertices, a weight names an unknown bone, two shapes of one name disagree, or the target has no root bone |
| MeshMerge.RemappedSame | Editor/DuckDucksTools/VRCFury-Extensions/MeshMergeBuilder.cs:686-699 | a remapped weight pulls on the same transforms with the same bind poses and weights |
| MeshMerge.RemapKeepsSkinning | Editor/DuckDucksTools/VRCFury-Extensions/MeshMergeBuilder.cs:686-699 | every remapped weight keeps its influence |
| MeshMerge.WeightsKeepSkinning | Editor/DuckDucksTools/VRCFury-Extensions/MeshMergeBuilder.cs:680-702 | every vertex of either mesh keeps its skinning in the merged weights |
| MeshMerge.MergeKeepsSkinning | Editor/DuckDucksTools/VRCFury-Extensions/MeshMergeBuilder.cs:579-808 | every vertex of either mesh is skinned to the same bones in the merged renderer |
| MeshMerge.MergeKeepsSlots | Editor/DuckDucksTools/VRCFury-Extensions/MeshMergeBuilder.cs:705-711 | the merged mesh has the target's submeshes and materials first, then the other's with shifted indices, one material per submesh |
| MeshMerge.MergeKeepsMeshValid | Editor/DuckDucksTools/VRCFury-Extensions/MeshMergeBuilder.cs:579-808 | the merged renderer is well formed, with the vertices of both meshes |
| Compatibility.CurvesEquivalentIsEquality | Editor/DuckDucksTools/VRCFury-Extensions/MeshMergeBuilder.cs:157-165 | two float curves are equivalent iff they are the same curve |
| Compatibility.AnimationCurvesEquivalent | Editor/DuckDucksTools/VRCFury-Extensions/MeshMergeBuilder.cs:157-165 | the keyframe loop answers curve equivalence |
| Compatibility.ActiveClips | Editor/DuckDucksTools/VRCFury-Extensions/MeshMergeBuilder.cs:176-187 | the clips that animate the renderer's `m_IsActive` |
| Compatibility.Partners | Editor/DuckDucksTools/VRCFury-Extensions/MeshMergeBuilder.cs:190-224 | the other renderer's bindings in a clip with the same property |
| Compatibility.PartnersUnique | Editor/DuckDucksTools/VRCFury-Extensions/MeshMergeBuilder.cs:190-224 | a renderer has at most one binding of a property per clip |
| Compatibility.CheckActiveAnims | Editor/DuckDucksTools/VRCFury-Extensions/MeshMergeBuilder.cs:176-187 | the active-state check: the same active clips with the same bindings |
| Compatibility.CheckBlendShapeBinding | Editor/DuckDucksTools/VRCFury-Extensions/MeshMergeBuilder.cs:190-224 | answers the blendshape rule for one binding |
| Compatibility.CheckMaterialBinding | Editor/DuckDucksTools/VRCFury-Extensions/MeshMergeBuilder.cs:228-257 | answers the material-property rule for one binding |
| Compatibility.CheckClip | Editor/DuckDucksTools/VRCFury-Extensions/MeshMergeBuilder.cs:190-257 | one clip passes iff every binding follows its rule |
| Compatibility.CheckAnims | Editor/DuckDucksTools/VRCFury-Extensions/MeshMergeBuilder.cs:190-257 | the clip loop passes iff every binding of every clip follows its rule |
| Compatibility.AreSMRAnimationsCompatibleOneWay | Editor/DuckDucksTools/VRCFury-Extensions/MeshMergeBuilder.cs:172-260 | the method answers the one-way animation check |
| Compatibility.AreSMRsCompatible | Editor/DuckDucksTools/VRCFury-Extensions/MeshMergeBuilder.cs:262-268 | the method answers full compatibility, checks in both directions |
| Compatibility.CompatibleSymmetric | Editor/DuckDucksTools/VRCFury-Extensions/MeshMergeBuilder.cs:262-268 | compatibility does not depend on argument order |
| Compatibility.AnimsInClips | Editor/DuckDucksTools/VRCFury-Extensions/MeshMergeBuilder.cs:104-155 | every collected binding is a binding of its clip |
| Compatibility.CompatibleBlendShapeCurvesMatch | Editor/DuckDucksTools/VRCFury-Extensions/MeshMergeBuilder.cs:190-224 | a shared blendshape that one renderer animates is animated by the other with the same curve |
| Compatibility.UnmatchedBlendShapeIncompatible | Editor/DuckDucksTools/VRCFury-Extensions/MeshMergeBuilder.cs:190-224 | a shared blendshape animated on one side only blocks the merge |
| Compatibility.CompatibleActiveClipsAgree | Editor/DuckDucksTools/VRCFury-Extensions/MeshMergeBuilder.cs:176-187 | an active-state clip of one renderer holds the same bindings for the other |
| CurveFixup.Moving | Editor/DuckDucksTools/VRCFury-Extensions/MeshMergeBuilder.cs:284-391 | the bindings the fix-up moves are bindings of the clip |
| CurveFixup.Dest | Editor/DuckDucksTools/VRCFury-Extensions/MeshMergeBuilder.cs:345-383 | a moved binding's destination is on the target's path, with the same type |
| CurveFixup.DestInjective | Editor/DuckDucksTools/VRCFury-Extensions/MeshMergeBuilder.cs:381-383 | distinct moved bindings go to distinct destinations |
| CurveFixup.FloatCurveNotSlot | Editor/DuckDucksTools/VRCFury-Extensions/MeshMergeBuilder.cs:331-378 | only object curves carry slot property names |
| CurveFixup.MovingOnSourcePath | Editor/DuckDucksTools/VRCFury-Extensions/MeshMergeBuilder.cs:271-282 | every moved binding is a skinned-renderer binding of the source |
| CurveFixup.RelocateStep | Editor/DuckDucksTools/VRCFury-Extensions/MeshMergeBuilder.cs:340-390 | one move keeps the relocation invariant |
| CurveFixup.MovedAlongKeeps | Editor/DuckDucksTools/VRCFury-Extensions/MeshMergeBuilder.cs:340-390 | a binding not yet moved keeps its curve |
| CurveFixup.MoveOne | Editor/DuckDucksTools/VRCFury-Extensions/MeshMergeBuilder.cs:340-390 | one more move takes the binding out and puts its curve at its destination |
| CurveFixup.MovedAlongRelocates | Editor/DuckDucksTools/VRCFury-Extensions/MeshMergeBuilder.cs:340-390 | moving the bindings one by one, in any order, relocates them all |
| CurveFixup.ListOf | Editor/DuckDucksTools/VRCFury-Extensions/MeshMergeBuilder.cs:298-324 | a list holds a set's bindings once each |
| CurveFixup.OverwriteTargetIsDest | Editor/DuckDucksTools/VRCFury-Extensions/MeshMergeBuilder.cs:345 | the target binding an overwrite writes to is the binding's destination |
| CurveFixup.OverwriteList | Editor/DuckDucksTools/VRCFury-Extensions/MeshMergeBuilder.cs:298-337 | overwritten bindings are among the moving ones |
| CurveFixup.RewriteList | Editor/DuckDucksTools/VRCFury-Extensions/MeshMergeBuilder.cs:298-337 | rewritten bindings are among the moving ones |
| CurveFixup.SwapList | Editor/DuckDucksTools/VRCFury-Extensions/MeshMergeBuilder.cs:372-378 | material swaps are among the moving ones |
| CurveFixup.ListsPartitionMoving | Editor/DuckDucksTools/VRCFury-Extensions/MeshMergeBuilder.cs:298-390 | the overwrite, rewrite and swap lists split the moving bindings with no overlap |
| CurveFixup.EraseThenSet | Editor/DuckDucksTools/VRCFury-Extensions/MeshMergeBuilder.cs:364-367 | erase-then-set performs one move |
| CurveFixup.SetThenErase | Editor/DuckDucksTools/VRCFury-Extensions/MeshMergeBuilder.cs:348-351 | set-then-erase performs one move |
| CurveFixup.OverwritePass | Editor/DuckDucksTools/VRCFury-Extensions/MeshMergeBuilder.cs:340-353 | the overwrite loop moves its list |
| CurveFixup.RewritePass | Editor/DuckDucksTools/VRCFury-Extensions/MeshMergeBuilder.cs:356-369 | the rewrite loop moves its list |
| CurveFixup.SwapPass | Editor/DuckDucksTools/VRCFury-Extensions/MeshMergeBuilder.cs:372-390 | the swap loop moves its list |
| CurveFixup.FixUpClip | Editor/DuckDucksTools/VRCFury-Extensions/MeshMergeBuilder.cs:340-390 | the three passes relocate every moving binding of a clip |
| CurveFixup.FixUpAnimations | Editor/DuckDucksTools/VRCFury-Extensions/MeshMergeBuilder.cs:284-391 | every clip is fixed up, with slots shifted by the target's submesh count; the result is the relocation `FixUp` |
| CurveFixup.MovedOnto | Editor/DuckDucksTools/VRCFury-Extensions/MeshMergeBuilder.cs:284-391 | the moved binding a destination binding came from |
| CurveFixup.MovingDestsDistinct | Editor/DuckDucksTools/VRCFury-Extensions/MeshMergeBuilder.cs:284-391 | two moved curves never land on the same binding |
| CurveFixup.RelocateAtDest | Editor/DuckDucksTools/VRCFury-Extensions/MeshMergeBuilder.cs:284-391 | a moved curve sits unchanged at its destination |
| CurveFixup.RelocateRelocated | Editor/DuckDucksTools/VRCFury-Extensions/MeshMergeBuilder.cs:284-391 | the relocation meets the fixed-up relation |
| CurveFixup.RelocatedIsRelocate | Editor/DuckDucksTools/VRCFury-Extensions/MeshMergeBuilder.cs:284-391 | any clip meeting the fixed-up relation is the relocation |
| CurveFixup.FixUpMeaning | Editor/DuckDucksTools/VRCFury-Extensions/MeshMergeBuilder.cs:284-391 | `FixUp` fixes up every clip, and it is the only result that does |
| CurveFixup.FixUpShiftsSlot | Editor/DuckDucksTools/VRCFury-Extensions/MeshMergeBuilder.cs:372-390 | the source's slot k swap curve is now slot n+k on the target, and the source binding is gone |
| CurveFixup.FixUpRetargetsCurve | Editor/DuckDucksTools/VRCFury-Extensions/MeshMergeBuilder.cs:340-369 | a retargeted blendshape or material curve sits on the target path under the same property, and the source binding is gone |
| CurveFixup.FixUpKeepsExcluded | Editor/DuckDucksTools/VRCFury-Extensions/MeshMergeBuilder.cs:330-337 | `m_IsActive` curves and non-slot object curves are left in place |
| CurveFixup.FixUpKeepsValid | Editor/DuckDucksTools/VRCFury-Extensions/MeshMergeBuilder.cs:284-391 | fixed-up clips stay well formed |
| CurveFixup.RelocatedKeepsValid | Editor/DuckDucksTools/VRCFury-Extensions/MeshMergeBuilder.cs:340-390 | relocation keeps a clip well formed |
| CurveFixup.DestKeepsKind | Editor/DuckDucksTools/VRCFury-Extensions/MeshMergeBuilder.cs:381-388 | a destination carries the curve kind its property calls for |
| CurveFixup.FixUpTargetsTarget | Editor/DuckDucksTools/VRCFury-Extensions/MeshMergeBuilder.cs:362-384 | every moved binding now animates the target |
| SlotMerge.SwapProperties | Editor/DuckDucksTools/VRCFury-Extensions/MeshMergeBuilder.cs:396-407 | the collected swap properties are slot properties |
| SlotMerge.FirstJoinable | Editor/DuckDucksTools/VRCFury-Extensions/MeshMergeBuilder.cs:433-448 | the first group the slot may join, or none |
| SlotMerge.SlotGroups | Editor/DuckDucksTools/VRCFury-Extensions/MeshMergeBuilder.cs:424-457 | the grouping only uses slots seen so far |
| SlotMerge.NewGroupKeeps | Editor/DuckDucksTools/VRCFury-Extensions/MeshMergeBuilder.cs:450-453 | opening a new group keeps the grouping invariant |
| SlotMerge.JoinKeeps | Editor/DuckDucksTools/VRCFury-Extensions/MeshMergeBuilder.cs:454-455 | joining a group keeps the grouping invariant |
| SlotMerge.AddSlotKeeps | Editor/DuckDucksTools/VRCFury-Extensions/MeshMergeBuilder.cs:424-457 | one step of the loop keeps the invariant |
| SlotMerge.SlotGroupsInv | Editor/DuckDucksTools/VRCFury-Extensions/MeshMergeBuilder.cs:424-457 | every slot is grouped once; groups are ordered and share material and topology; animated slots are alone; no two groups could have been one |
| SlotMerge.SameSlotsMerged | Editor/DuckDucksTools/VRCFury-Extensions/MeshMergeBuilder.cs:424-457 | two unanimated slots with the same material and topology end up in one group |
| SlotMerge.UnanimatedGroup | Editor/DuckDucksTools/VRCFury-Extensions/MeshMergeBuilder.cs:438-440 | a group holding an unanimated slot holds no animated one |
| SlotMerge.MergedSlots | Editor/DuckDucksTools/VRCFury-Extensions/MeshMergeBuilder.cs:463-492 | one new submesh per group |
| SlotMerge.GroupOf | Editor/DuckDucksTools/VRCFury-Extensions/MeshMergeBuilder.cs:467-469 | the group holding a slot |
| SlotMerge.SlotPropertyPrefix | Editor/DuckDucksTools/VRCFury-Extensions/MeshMergeBuilder.cs:478 | one slot's property starts with another's only for the same slot |
| SlotMerge.NewKeyInjective | Editor/DuckDucksTools/VRCFury-Extensions/MeshMergeBuilder.cs:477-486 | renaming never makes two bindings collide |
| SlotMerge.RenameInjective | Editor/DuckDucksTools/VRCFury-Extensions/MeshMergeBuilder.cs:473-488 | renaming is one-to-one on a clip |
| SlotMerge.RenameSlots | Editor/DuckDucksTools/VRCFury-Extensions/MeshMergeBuilder.cs:473-488 | each binding's curve is under its new key, and there are no other keys |
| SlotMerge.RenameAll | Editor/DuckDucksTools/VRCFury-Extensions/MeshMergeBuilder.cs:473-488 | every clip is renamed |
| SlotMerge.FirstMaterials | Editor/DuckDucksTools/VRCFury-Extensions/MeshMergeBuilder.cs:495 | one material per group |
| SlotMerge.MergedSameMaterials | Editor/DuckDucksTools/VRCFury-Extensions/MeshMergeBuilder.cs:393-496 | fails iff the mesh is null or there are more materials than submeshes; the renderer keeps its path and vertices |
| SlotMerge.GroupsOf | Editor/DuckDucksTools/VRCFury-Extensions/MeshMergeBuilder.cs:424-457 | the renderer's groups satisfy the grouping invariant |
| SlotMerge.FindGroup | Editor/DuckDucksTools/VRCFury-Extensions/MeshMergeBuilder.cs:433-448 | the search finds the first group the slot may join |
| SlotMerge.GroupSlots | Editor/DuckDucksTools/VRCFury-Extensions/MeshMergeBuilder.cs:424-457 | the slot loop builds the grouping |
| SlotMerge.CollectIndices | Editor/DuckDucksTools/VRCFury-Extensions/MeshMergeBuilder.cs:468-470 | a group's index list is its slots' lists in order |
| SlotMerge.MergeSameMaterials | Editor/DuckDucksTools/VRCFury-Extensions/MeshMergeBuilder.cs:393-496 | the method yields the merged renderer and the renamed clips, and leaves the clips unchanged on failure |
| SlotMerge.GroupIndicesHoldSlot | Editor/DuckDucksTools/VRCFury-Extensions/MeshMergeBuilder.cs:468-470 | each slot's triangles are inside its group's index list |
| SlotMerge.GroupIndicesSingleton | Editor/DuckDucksTools/VRCFury-Extensions/MeshMergeBuilder.cs:468-470 | a one-slot group keeps its triangles |
| SlotMerge.MergedSlotContents | Editor/DuckDucksTools/VRCFury-Extensions/MeshMergeBuilder.cs:463-495 | new slot i has the material and topology of each of its group's slots and holds their triangles; an animated slot is unchanged |
| SlotMerge.RenameMovesSwaps | Editor/DuckDucksTools/VRCFury-Extensions/MeshMergeBuilder.cs:473-488 | an animated slot's swap curve moves to its group's slot; other bindings stay |
| SlotMerge.RenameKeys | Editor/DuckDucksTools/VRCFury-Extensions/MeshMergeBuilder.cs:473-488 | a renamed clip has as many bindings as before |
| SlotMerge.RenameKeepsValid | Editor/DuckDucksTools/VRCFury-Extensions/MeshMergeBuilder.cs:473-488 | renamed clips stay well formed |
| MergeApply.Eligible | Editor/DuckDucksTools/VRCFury-Extensions/MeshMergeBuilder.cs:523-527 | the renderers not under a nested animator |
| MergeApply.Compat | Editor/DuckDucksTools/VRCFury-Extensions/MeshMergeBuilder.cs:539 | the pair test is `AreSMRsCompatible` |
| MergeApply.GrowGroup | Editor/DuckDucksTools/VRCFury-Extensions/MeshMergeBuilder.cs:538-542 | the group keeps its members and adds candidates only |
| MergeApply.Without | Editor/DuckDucksTools/VRCFury-Extensions/MeshMergeBuilder.cs:544 | removes exactly the grouped renderers |
| MergeApply.MeshGroups | Editor/DuckDucksTools/VRCFury-Extensions/MeshMergeBuilder.cs:531-547 | groups are non-empty and hold candidates only |
| MergeApply.GroupsOf | Editor/DuckDucksTools/VRCFury-Extensions/MeshMergeBuilder.cs:529-547 | the groups index the eligible renderers |
| MergeApply.GrowGroupOrdered | Editor/DuckDucksTools/VRCFury-Extensions/MeshMergeBuilder.cs:538-542 | a grown group is ascending and pairwise compatible |
| MergeApply.GrowGroupRejects | Editor/DuckDucksTools/VRCFury-Extensions/MeshMergeBuilder.cs:538-542 | a candidate left out was incompatible with a member that joined before it |
| MergeApply.MeshGroupsGreedy | Editor/DuckDucksTools/VRCFury-Extensions/MeshMergeBuilder.cs:531-547 | the groups partition the candidates, are pairwise compatible, come in the order of their first members, and a later renderer was rejected by an earlier group |
| MergeApply.GroupsOfGreedy | Editor/DuckDucksTools/VRCFury-Extensions/MeshMergeBuilder.cs:529-547 | the grouping of the eligible renderers has those properties |
| MergeApply.GroupsIncreasing | Editor/DuckDucksTools/VRCFury-Extensions/MeshMergeBuilder.cs:531-547 | each group lists renderers in hierarchy order |
| MergeApply.BodyPosition | Editor/DuckDucksTools/VRCFury-Extensions/MeshMergeBuilder.cs:558 | the first root "Body" member of a group, or none |
| MergeApply.MergeTarget | Editor/DuckDucksTools/VRCFury-Extensions/MeshMergeBuilder.cs:555-559 | the target is the first root "Body" member, else the first member |
| MergeApply.RemoveFirst | Editor/DuckDucksTools/VRCFury-Extensions/MeshMergeBuilder.cs:561 | removing the target leaves only group members |
| MergeApply.RemoveFirstDistinct | Editor/DuckDucksTools/VRCFury-Extensions/MeshMergeBuilder.cs:561 | removing the target takes out exactly it |
| MergeApply.VertexCountConcat | Editor/DuckDucksTools/VRCFury-Extensions/MeshMergeBuilder.cs:567-571 | vertex counts add up over concatenation |
| MergeApply.VertexCountRemove | Editor/DuckDucksTools/VRCFury-Extensions/MeshMergeBuilder.cs:561-571 | removing a member takes away exactly its vertices |
| MergeApply.CollectCompatible | Editor/DuckDucksTools/VRCFury-Extensions/MeshMergeBuilder.cs:538-542 | the candidate loop grows the group |
| MergeApply.MeshGroupsStep | Editor/DuckDucksTools/VRCFury-Extensions/MeshMergeBuilder.cs:531-547 | one round takes the first group, then groups the rest |
| MergeApply.GroupRenderers | Editor/DuckDucksTools/VRCFury-Extensions/MeshMergeBuilder.cs:529-547 | the grouping loop computes the groups |
| MergeApply.Members | Editor/DuckDucksTools/VRCFury-Extensions/MeshMergeBuilder.cs:561-567 | the group's members other than the target, in group order |
| MergeApply.MembersMerged | Editor/DuckDucksTools/VRCFury-Extensions/MeshMergeBuilder.cs:567-571 | fixing up and merging the members one by one keeps the clips well formed with the same identities, and a merged renderer valid at the target's path |
| MergeApply.MergeMembers | Editor/DuckDucksTools/VRCFury-Extensions/MeshMergeBuilder.cs:567-571 | the result and the clips equal the fold `MembersMerged` of `FixUpAnimations` and `MergeSMRs` over the members, with all vertices |
| MergeApply.OthersOffTarget | Editor/DuckDucksTools/VRCFury-Extensions/MeshMergeBuilder.cs:555-561 | the members other than the target are in range and at other paths |
| MergeApply.SlotsMerged | Editor/DuckDucksTools/VRCFury-Extensions/MeshMergeBuilder.cs:574 | merging the same-material slots of a merged renderer, with the swap curves renamed |
| MergeApply.GroupMerged | Editor/DuckDucksTools/VRCFury-Extensions/MeshMergeBuilder.cs:549-575 | merging one group keeps the clips well formed with the same identities |
| MergeApply.MergeGroup | Editor/DuckDucksTools/VRCFury-Extensions/MeshMergeBuilder.cs:549-575 | equals `GroupMerged`: the members merged into the target, then its slots merged; the merged group sits at its target's path with every member's vertices |
| MergeApply.Prepend | Editor/DuckDucksTools/VRCFury-Extensions/MeshMergeBuilder.cs:549-575 | a merged group in front of the later groups' outcome |
| MergeApply.AllMerged | Editor/DuckDucksTools/VRCFury-Extensions/MeshMergeBuilder.cs:549-575 | merging the groups in order, stopping at the first failure |
| MergeApply.MergeAll | Editor/DuckDucksTools/VRCFury-Extensions/MeshMergeBuilder.cs:549-575 | equals `AllMerged`; on success one merged renderer per group, at its target, with its members' vertices |
| MergeApply.Concat | Editor/DuckDucksTools/VRCFury-Extensions/MeshMergeBuilder.cs:549-575 | the groups merged so far in front of the rest's outcome |
| MergeApply.GroupResultsAppend | Editor/DuckDucksTools/VRCFury-Extensions/MeshMergeBuilder.cs:549-575 | one more merged group keeps the per-group results |
| MergeApply.AllMergedStep | Editor/DuckDucksTools/VRCFury-Extensions/MeshMergeBuilder.cs:549-575 | merging from group `i` is merging group `i`, then the rest |
| MergeApply.ConcatNil | Editor/DuckDucksTools/VRCFury-Extensions/MeshMergeBuilder.cs:549-575 | nothing merged yet leaves the outcome unchanged |
| MergeApply.ConcatPrepend | Editor/DuckDucksTools/VRCFury-Extensions/MeshMergeBuilder.cs:549-575 | merged groups and one more group in front of the rest compose |
| MergeApply.EligibleValid | Editor/DuckDucksTools/VRCFury-Extensions/MeshMergeBuilder.cs:499-510 | the eligible renderers are valid skinned renderers |
| MergeApply.Merged | Editor/DuckDucksTools/VRCFury-Extensions/MeshMergeBuilder.cs:499-577 | the whole merge as a value: the eligible renderers grouped greedily, then every group merged |
| MergeApply.Apply | Editor/DuckDucksTools/VRCFury-Extensions/MeshMergeBuilder.cs:499-577 | equals `Merged`: a null mesh among the eligible renderers fails; otherwise one merged renderer per greedy group, at its target, holding the group's vertices |
| QuestDynamics.UsedColliders | Assets/Editor/DuckDucksTools/VRCFury-Extensions/QuestCompatibility/QuestCompatibilityBuilder.cs:472 | counts at most the listed colliders |
| QuestDynamics.CalculatePhysbonePerformanceStats | Assets/Editor/DuckDucksTools/VRCFury-Extensions/QuestCompatibility/QuestCompatibilityBuilder.cs:458-482 | the loop computes the counts of the components still present |
| QuestDynamics.CollisionChecksMonotone | Assets/Editor/DuckDucksTools/VRCFury-Extensions/QuestCompatibility/QuestCompatibilityBuilder.cs:472-473 | destroying colliders never adds collision checks |
| QuestDynamics.UsedCollidersMonotone | Assets/Editor/DuckDucksTools/VRCFury-Extensions/QuestCompatibility/QuestCompatibilityBuilder.cs:472 | destroying colliders never adds used colliders |
| QuestDynamics.UsedCollidersNone | Assets/Editor/DuckDucksTools/VRCFury-Extensions/QuestCompatibility/QuestCompatibilityBuilder.cs:472 | no live collider, no used collider |
| QuestDynamics.CollisionChecksNone | Assets/Editor/DuckDucksTools/VRCFury-Extensions/QuestCompatibility/QuestCompatibilityBuilder.cs:472-473 | no live collider, no collision check |
| QuestDynamics.WarningsExactly | Assets/Editor/DuckDucksTools/VRCFury-Extensions/QuestCompatibility/QuestCompatibilityBuilder.cs:502-510 | a warning for exactly each exceeded limit, none iff no limit is exceeded |
| QuestDynamics.RemoveOverLimitsDynamics | Assets/Editor/DuckDucksTools/VRCFury-Extensions/QuestCompatibility/QuestCompatibilityBuilder.cs:518-530 | a component stays iff its kind is within its limits |
| QuestDynamics.RemovalKinds | Assets/Editor/DuckDucksTools/VRCFury-Extensions/QuestCompatibility/QuestCompatibilityBuilder.cs:518-530 | each kind is either removed whole or kept whole |
| QuestDynamics.WithinLimitsAfterRemoval | Assets/Editor/DuckDucksTools/VRCFury-Extensions/QuestCompatibility/QuestCompatibilityBuilder.cs:512-530 | after the removal the avatar is within every limit |
| QuestDynamics.WarnOnDynamicsLimits | Assets/Editor/DuckDucksTools/VRCFury-Extensions/QuestCompatibility/QuestCompatibilityBuilder.cs:484-516 | a dialog is shown iff a limit is exceeded, with the listed warnings; cancelling fails the build; accepting removes the over-limit kinds |
| QuestDynamics.Marked | Assets/Editor/DuckDucksTools/VRCFury-Extensions/QuestCompatibility/QuestCompatibilityBuilder.cs:440-441 | the ids of the entries marked for deletion |
| QuestDynamics.Without | Assets/Editor/DuckDucksTools/VRCFury-Extensions/QuestCompatibility/QuestCompatibilityBuilder.cs:442 | destroys exactly the given components |
| QuestDynamics.WithoutUnion | Assets/Editor/DuckDucksTools/VRCFury-Extensions/QuestCompatibility/QuestCompatibilityBuilder.cs:439-445 | destroying in two steps is destroying the union |
| QuestDynamics.WithoutAbsent | Assets/Editor/DuckDucksTools/VRCFury-Extensions/QuestCompatibility/QuestCompatibilityBuilder.cs:441 | destroying absent components changes nothing |
| QuestDynamics.DeleteDynamics | Assets/Editor/DuckDucksTools/VRCFury-Extensions/QuestCompatibility/QuestCompatibilityBuilder.cs:439-445 | every marked component still present is destroyed |
| QuestMaterials.ShaderName | Assets/Editor/DuckDucksTools/VRCFury-Extensions/QuestCompatibility/QuestCompatibilityBuilder.cs:622-632 | only the remove choice has no shader; the others are mobile shaders |
| QuestMaterials.FirstOverride | Assets/Editor/DuckDucksTools/VRCFury-Extensions/QuestCompatibility/QuestCompatibilityBuilder.cs:637-640 | the first override whose source is the material, or none |
| QuestMaterials.SelectMeaning | Assets/Editor/DuckDucksTools/VRCFury-Extensions/QuestCompatibility/QuestCompatibilityBuilder.cs:635-677 | the decision order: first override, null stays null, mobile stays, remove gives null, otherwise a copy named with the `_QuestCompat` suffix, with the mobile shader and the same render queue and instancing |
| QuestMaterials.SelectAgain | Assets/Editor/DuckDucksTools/VRCFury-Extensions/QuestCompatibility/QuestCompatibilityBuilder.cs:650-655 | asking again for the same material gives the same answer and cache |
| QuestMaterials.SelectResolves | Assets/Editor/DuckDucksTools/VRCFury-Extensions/QuestCompatibility/QuestCompatibilityBuilder.cs:650-674 | a call only adds the material it converts to the cache |
| QuestMaterials.CacheValidInsert | Assets/Editor/DuckDucksTools/VRCFury-Extensions/QuestCompatibility/QuestCompatibilityBuilder.cs:662-674 | adding a new material keeps the cache well formed |
| QuestMaterials.StateValidInsert | Assets/Editor/DuckDucksTools/VRCFury-Extensions/QuestCompatibility/QuestCompatibilityBuilder.cs:543-544 | adding to either cache keeps both caches well formed |
| QuestMaterials.ResolveExtends | Assets/Editor/DuckDucksTools/VRCFury-Extensions/QuestCompatibility/QuestCompatibilityBuilder.cs:650-655 | an answer does not change as the cache grows |
| QuestMaterials.SlotsResolvedExtends | Assets/Editor/DuckDucksTools/VRCFury-Extensions/QuestCompatibility/QuestCompatibilityBuilder.cs:547-552 | answered slots stay answered as the cache grows |
| QuestMaterials.SlotsResolvedAppend | Assets/Editor/DuckDucksTools/VRCFury-Extensions/QuestCompatibility/QuestCompatibilityBuilder.cs:547-552 | one more slot answered |
| QuestMaterials.MaterialSelector.constructor | Assets/Editor/DuckDucksTools/VRCFury-Extensions/QuestCompatibility/QuestCompatibilityBuilder.cs:543-544 | starts with empty caches |
| QuestMaterials.MaterialSelector.QuestMaterialFromMaterial | Assets/Editor/DuckDucksTools/VRCFury-Extensions/QuestCompatibility/QuestCompatibilityBuilder.cs:635-677 | the result and the cache of the renderer's kind follow the decision; the other cache is unchanged |
| QuestMaterials.MaterialSelector.ReplaceSlots | Assets/Editor/DuckDucksTools/VRCFury-Extensions/QuestCompatibility/QuestCompatibilityBuilder.cs:547-552 | each slot is replaced by the decision for it; the caches only grow |
| QuestMaterials.MaterialSelector.ReplaceIncompatibleMaterials | Assets/Editor/DuckDucksTools/VRCFury-Extensions/QuestCompatibility/QuestCompatibilityBuilder.cs:541-552 | every renderer's slots are replaced, by the particle or the non-particle decision |
| QuestMaterials.MaterialSelector.RenderersResolvedAppend | Assets/Editor/DuckDucksTools/VRCFury-Extensions/QuestCompatibility/QuestCompatibilityBuilder.cs:547-552 | one more renderer answered |
| QuestMaterials.MaterialSelector.RenderersResolvedExtends | Assets/Editor/DuckDucksTools/VRCFury-Extensions/QuestCompatibility/QuestCompatibilityBuilder.cs:547-552 | answered renderers stay answered as the caches grow |
| QuestSlots.NullSlot | Assets/Editor/DuckDucksTools/VRCFury-Extensions/QuestCompatibility/QuestCompatibilityBuilder.cs:686-693 | a slot past the end fails with "doesn't exist"; a negative slot fails with an index error; otherwise exactly that slot is nulled |
| QuestSlots.NullOne | Assets/Editor/DuckDucksTools/VRCFury-Extensions/QuestCompatibility/QuestCompatibilityBuilder.cs:682-693 | one entry keeps the renderer count |
| QuestSlots.NullOneKeepsExist | Assets/Editor/DuckDucksTools/VRCFury-Extensions/QuestCompatibility/QuestCompatibilityBuilder.cs:682-694 | the remaining entries still name existing renderers |
| QuestSlots.NullAllSucceeds | Assets/Editor/DuckDucksTools/VRCFury-Extensions/QuestCompatibility/QuestCompatibilityBuilder.cs:681-695 | the pass succeeds iff every entry names an existing slot |
| QuestSlots.NullAllExactly | Assets/Editor/DuckDucksTools/VRCFury-Extensions/QuestCompatibility/QuestCompatibilityBuilder.cs:681-695 | on success exactly the listed slots are nulled |
| QuestSlots.NullAnyMaterialSlots | Assets/Editor/DuckDucksTools/VRCFury-Extensions/QuestCompatibility/QuestCompatibilityBuilder.cs:681-695 | the loop computes the pass |
| QuestSlots.Survivors | Assets/Editor/DuckDucksTools/VRCFury-Extensions/QuestCompatibility/QuestCompatibilityBuilder.cs:731-742 | the renderers kept are exactly those not destroyed |
| QuestSlots.Rank | Assets/Editor/DuckDucksTools/VRCFury-Extensions/QuestCompatibility/QuestCompatibilityBuilder.cs:785-794 | the output submesh number never exceeds the input one |
| QuestSlots.KeptSubs | Assets/Editor/DuckDucksTools/VRCFury-Extensions/QuestCompatibility/QuestCompatibilityBuilder.cs:785-801 | one output submesh per kept slot |
| QuestSlots.RankMonotone | Assets/Editor/DuckDucksTools/VRCFury-Extensions/QuestCompatibility/QuestCompatibilityBuilder.cs:785-794 | output numbers grow with input numbers, strictly past a kept slot |
| QuestSlots.SlotRemapCompacts | Assets/Editor/DuckDucksTools/VRCFury-Extensions/QuestCompatibility/QuestCompatibilityBuilder.cs:772-794 | the remap holds exactly the kept slots, moves none up, keeps their order and is onto the new submeshes |
| QuestSlots.RankOnto | Assets/Editor/DuckDucksTools/VRCFury-Extensions/QuestCompatibility/QuestCompatibilityBuilder.cs:785-794 | every output submesh comes from a kept slot |
| QuestSlots.KeptSubsAt | Assets/Editor/DuckDucksTools/VRCFury-Extensions/QuestCompatibility/QuestCompatibilityBuilder.cs:786-794 | output submesh `remap[i]` is input submesh i |
| QuestSlots.NonNull | Assets/Editor/DuckDucksTools/VRCFury-Extensions/QuestCompatibility/QuestCompatibilityBuilder.cs:854 | removing nulls leaves only non-null materials |
| QuestSlots.NonNullAt | Assets/Editor/DuckDucksTools/VRCFury-Extensions/QuestCompatibility/QuestCompatibilityBuilder.cs:854-855 | material i moves to slot `remap[i]` |
| QuestSlots.NonNullLength | Assets/Editor/DuckDucksTools/VRCFury-Extensions/QuestCompatibility/QuestCompatibilityBuilder.cs:797-855 | as many materials remain as submeshes |
| QuestSlots.RankPrefix | Assets/Editor/DuckDucksTools/VRCFury-Extensions/QuestCompatibility/QuestCompatibilityBuilder.cs:785-794 | output numbers depend only on earlier slots |
| QuestSlots.CompactSubMeshes | Assets/Editor/DuckDucksTools/VRCFury-Extensions/QuestCompatibility/QuestCompatibilityBuilder.cs:783-801 | the copy loop computes the remap and the kept submeshes |
| QuestSlots.SlotKeyInjective | Assets/Editor/DuckDucksTools/VRCFury-Extensions/QuestCompatibility/QuestCompatibilityBuilder.cs:841 | different slots have different bindings |
| QuestSlots.SwapIsSlotBinding | Assets/Editor/DuckDucksTools/VRCFury-Extensions/QuestCompatibility/QuestCompatibilityBuilder.cs:818-823 | a swap binding is the canonical binding of its parsed slot |
| QuestSlots.RemapKeeps | Assets/Editor/DuckDucksTools/VRCFury-Extensions/QuestCompatibility/QuestCompatibilityBuilder.cs:808-845 | bindings the renames do not touch keep their curves |
| QuestSlots.Untouched | Assets/Editor/DuckDucksTools/VRCFury-Extensions/QuestCompatibility/QuestCompatibilityBuilder.cs:808-845 | a slot's binding is untouched before its turn |
| QuestSlots.RemapMoves | Assets/Editor/DuckDucksTools/VRCFury-Extensions/QuestCompatibility/QuestCompatibilityBuilder.cs:826-843 | a moved slot's curve lands on its new slot; the old binding stays only if a later slot moved onto it |
| QuestSlots.RemapAddsOnlyTargets | Assets/Editor/DuckDucksTools/VRCFury-Extensions/QuestCompatibility/QuestCompatibilityBuilder.cs:826-843 | the renames add no binding but a moved slot's new one |
| QuestSlots.FixSlotBindings | Assets/Editor/DuckDucksTools/VRCFury-Extensions/QuestCompatibility/QuestCompatibilityBuilder.cs:813-844 | the binding loop computes the renaming |
| QuestSlots.SlotBindingValid | Assets/Editor/DuckDucksTools/VRCFury-Extensions/QuestCompatibility/QuestCompatibilityBuilder.cs:841 | a renamed binding is a canonical slot binding |
| QuestSlots.StepKeepsValid | Assets/Editor/DuckDucksTools/VRCFury-Extensions/QuestCompatibility/QuestCompatibilityBuilder.cs:834-843 | one rename keeps the clip well formed |
| QuestSlots.RemapKeepsValid | Assets/Editor/DuckDucksTools/VRCFury-Extensions/QuestCompatibility/QuestCompatibilityBuilder.cs:808-845 | all renames keep the clip well formed |
| QuestSlots.SwapCounts | Assets/Editor/DuckDucksTools/VRCFury-Extensions/QuestCompatibility/QuestCompatibilityBuilder.cs:718-722 | a count for every clip |
| QuestSlots.Repeat | Assets/Editor/DuckDucksTools/VRCFury-Extensions/QuestCompatibility/QuestCompatibilityBuilder.cs:722 | a state added once per counted binding |
| QuestSlots.ListedInSplit | Assets/Editor/DuckDucksTools/VRCFury-Extensions/QuestCompatibility/QuestCompatibilityBuilder.cs:709-724 | being listed splits over the last state |
| QuestSlots.StateOccurrencesListed | Assets/Editor/DuckDucksTools/VRCFury-Extensions/QuestCompatibility/QuestCompatibilityBuilder.cs:709-724 | the list names exactly the clips of states with a slot binding for some renderer |
| QuestSlots.CollectStates | Assets/Editor/DuckDucksTools/VRCFury-Extensions/QuestCompatibility/QuestCompatibilityBuilder.cs:705-724 | the layer loop computes the list |
| QuestSlots.FixStates | Assets/Editor/DuckDucksTools/VRCFury-Extensions/QuestCompatibility/QuestCompatibilityBuilder.cs:808-845 | the corrected state loop keeps every clip |
| QuestSlots.FixStatesMoves | Assets/Editor/DuckDucksTools/VRCFury-Extensions/QuestCompatibility/QuestCompatibilityBuilder.cs:808-845 | in a listed clip a moved slot's curve lands on its new slot |
| QuestSlots.FixStatesAdd | Assets/Editor/DuckDucksTools/VRCFury-Extensions/QuestCompatibility/QuestCompatibilityBuilder.cs:808-845 | a clip is renamed the first time it comes up, and only then |
| QuestSlots.FixAnimations | Assets/Editor/DuckDucksTools/VRCFury-Extensions/QuestCompatibility/QuestCompatibilityBuilder.cs:808-845 | the corrected state loop renames each listed clip once |
| QuestSlots.RenamedTwice | Assets/Editor/DuckDucksTools/VRCFury-Extensions/QuestCompatibility/QuestCompatibilityBuilder.cs:808-845 | renaming a clip twice loses slot 1's curve; renaming once keeps both |
| QuestSlots.ListedTwice | Assets/Editor/DuckDucksTools/VRCFury-Extensions/QuestCompatibility/QuestCompatibilityBuilder.cs:718-722 | a clip with two slot bindings is listed twice |
| QuestSlots.ExampleRemap | Assets/Editor/DuckDucksTools/VRCFury-Extensions/QuestCompatibility/QuestCompatibilityBuilder.cs:785-794 | materials [null, m, m] map slots 1 and 2 to 0 and 1 |
| QuestSlots.DuplicateStateRenamedTwice | Assets/Editor/DuckDucksTools/VRCFury-Extensions/QuestCompatibility/QuestCompatibilityBuilder.cs:705-845 | the full counterexample of the double rename |
| QuestSlots.DeleteNullMatsAndFixAnims | Assets/Editor/DuckDucksTools/VRCFury-Extensions/QuestCompatibility/QuestCompatibilityBuilder.cs:756-856 | fails with a renderer-type error iff the renderer is neither skinned nor a mesh renderer; otherwise the cleaned renderer and the clips renamed by the corrected `FixAnimations` (see Findings) |
| QuestSlots.CleanHasNoNull | Assets/Editor/DuckDucksTools/VRCFury-Extensions/QuestCompatibility/QuestCompatibilityBuilder.cs:766-855 | a cleaned renderer with a mesh has no null slot; without a mesh nothing changes |
| QuestSlots.CleanPairs | Assets/Editor/DuckDucksTools/VRCFury-Extensions/QuestCompatibility/QuestCompatibilityBuilder.cs:783-855 | new slot v pairs the material and the submesh of the same old slot |
| QuestSlots.CleanAllClipsValid | Assets/Editor/DuckDucksTools/VRCFury-Extensions/QuestCompatibility/QuestCompatibilityBuilder.cs:726-750 | all clips stay, and stay well formed |
| QuestSlots.CleanedRenderers | Assets/Editor/DuckDucksTools/VRCFury-Extensions/QuestCompatibility/QuestCompatibilityBuilder.cs:726-750 | every surviving renderer is cleaned |
| QuestSlots.CleanAllClipsStep | Assets/Editor/DuckDucksTools/VRCFury-Extensions/QuestCompatibility/QuestCompatibilityBuilder.cs:726-750 | one renderer of the loop |
| QuestSlots.SurvivorsStep | Assets/Editor/DuckDucksTools/VRCFury-Extensions/QuestCompatibility/QuestCompatibilityBuilder.cs:731-742 | one renderer of the destroy rule |
| QuestSlots.CleanAllFails | Assets/Editor/DuckDucksTools/VRCFury-Extensions/QuestCompatibility/QuestCompatibilityBuilder.cs:726-750 | the loop fails iff some surviving renderer with a null slot is of another kind |
| QuestSlots.CleanAllSucceeds | Assets/Editor/DuckDucksTools/VRCFury-Extensions/QuestCompatibility/QuestCompatibilityBuilder.cs:726-750 | on success every surviving renderer is cleaned and the clips are renamed in order |
| QuestSlots.RemoveAllNullMats | Assets/Editor/DuckDucksTools/VRCFury-Extensions/QuestCompatibility/QuestCompatibilityBuilder.cs:698-751 | `RemoveAllNullMats` computes the loop over the collected states, with the clip renames of the corrected `FixAnimations` (see Findings) |
| QuestComponents.DeleteIncompatibleComponentsAsWritten | Assets/Editor/DuckDucksTools/VRCFury-Extensions/QuestCompatibility/QuestCompatibilityBuilder.cs:905-915 | a component survives iff its own full type name is not listed |
| QuestComponents.DeleteIncompatibleComponents | Assets/Editor/DuckDucksTools/VRCFury-Extensions/QuestCompatibility/QuestCompatibilityBuilder.cs:861-915 | corrected: a component survives iff neither its type nor a base type is listed |
| QuestComponents.DeleteIncompatibleComponentsProperties | Assets/Editor/DuckDucksTools/VRCFury-Extensions/QuestCompatibility/QuestCompatibilityBuilder.cs:905-915 | deleting twice is deleting once; transforms stay; the corrected filter deletes at least as much |
| QuestComponents.NoListedNameHasH | Assets/Editor/DuckDucksTools/VRCFury-Extensions/QuestCompatibility/QuestCompatibilityBuilder.cs:861-903 | no listed name is a `UnityEngine.H...` type |
| QuestComponents.HingeJointSurvives | Assets/Editor/DuckDucksTools/VRCFury-Extensions/QuestCompatibility/QuestCompatibilityBuilder.cs:893-912 | a hinge joint survives the filter as written and not the corrected one |
| QuestVertexColors.StripColors | Assets/Editor/DuckDucksTools/VRCFury-Extensions/QuestCompatibility/QuestCompatibilityBuilder.cs:927-931 | the copy has no colours and every other channel and field as before; a mesh without colours is returned as is |
| QuestVertexColors.StripColorsIdempotent | Assets/Editor/DuckDucksTools/VRCFury-Extensions/QuestCompatibility/QuestCompatibilityBuilder.cs:922-937 | stripping twice is stripping once |
| QuestVertexColors.StripColorsValid | Assets/Editor/DuckDucksTools/VRCFury-Extensions/QuestCompatibility/QuestCompatibilityBuilder.cs:931 | a stripped mesh stays well formed |
| QuestVertexColors.StripMesh | Assets/Editor/DuckDucksTools/VRCFury-Extensions/QuestCompatibility/QuestCompatibilityBuilder.cs:922-937 | null stays null; otherwise no colours |
| QuestVertexColors.VertexColorRemover.constructor | Assets/Editor/DuckDucksTools/VRCFury-Extensions/QuestCompatibility/QuestCompatibilityBuilder.cs:920 | the cache starts empty |
| QuestVertexColors.VertexColorRemover.RemoveVertexColorsFromMesh | Assets/Editor/DuckDucksTools/VRCFury-Extensions/QuestCompatibility/QuestCompatibilityBuilder.cs:922-937 | returns the stripped mesh and caches it iff the input had colours |
| QuestVertexColors.VertexColorRemover.RemoveVertexColors | Assets/Editor/DuckDucksTools/VRCFury-Extensions/QuestCompatibility/QuestCompatibilityBuilder.cs:940-948 | skinned and mesh renderers get the stripped mesh, others are untouched; the cache gains the coloured meshes |
| QuestVertexColors.RemoveVertexColorsEffect | Assets/Editor/DuckDucksTools/VRCFury-Extensions/QuestCompatibility/QuestCompatibilityBuilder.cs:940-948 | after the pass no processed renderer's mesh has colours, and valid renderers stay valid |
| MeshDeleting.KeepShade | Assets/Editor/DuckDucksTools/VRCFury-Extensions/MeshDeleterBuilder.cs:296-303 | delete-white keeps darker triangles, delete-black lighter ones, and exactly one half is dropped in both modes |
| MeshDeleting.TrianglesOf | Assets/Editor/DuckDucksTools/VRCFury-Extensions/MeshDeleterBuilder.cs:278-281 | an index list read three at a time |
| MeshDeleting.IndicesOf | Assets/Editor/DuckDucksTools/VRCFury-Extensions/MeshDeleterBuilder.cs:300-302 | triangles written back as indices |
| MeshDeleting.IndicesOfTrianglesOf | Assets/Editor/DuckDucksTools/VRCFury-Extensions/MeshDeleterBuilder.cs:278-302 | reading triangles and writing them back gives the list |
| MeshDeleting.TrianglesOfIndicesOf | Assets/Editor/DuckDucksTools/VRCFury-Extensions/MeshDeleterBuilder.cs:278-302 | writing triangles and reading them back gives the triangles |
| MeshDeleting.MaskedMeaning | Assets/Editor/DuckDucksTools/VRCFury-Extensions/MeshDeleterBuilder.cs:272-306 | fails with an index error iff a triple is cut short or indexes past the UVs; otherwise exactly the surviving triangles in order, none at one half, and a second pass keeps them all |
| MeshDeleting.KeptFits | Assets/Editor/DuckDucksTools/VRCFury-Extensions/MeshDeleterBuilder.cs:300-306 | kept triangles can be read again |
| MeshDeleting.MaskStep | Assets/Editor/DuckDucksTools/VRCFury-Extensions/MeshDeleterBuilder.cs:278-304 | one step appends the triangle iff it survives |
| MeshDeleting.ShortTail | Assets/Editor/DuckDucksTools/VRCFury-Extensions/MeshDeleterBuilder.cs:279-281 | a list ending inside a triple fails |
| MeshDeleting.BadTriangle | Assets/Editor/DuckDucksTools/VRCFury-Extensions/MeshDeleterBuilder.cs:284-286 | a triangle indexing past the UVs fails |
| MeshDeleting.FitsStep | Assets/Editor/DuckDucksTools/VRCFury-Extensions/MeshDeleterBuilder.cs:278-286 | a readable prefix grows by one triple |
| MeshDeleting.MaskTriangles | Assets/Editor/DuckDucksTools/VRCFury-Extensions/MeshDeleterBuilder.cs:272-304 | the stride-3 loop computes the filtered list |
| MeshDeleting.GetMesh | Assets/Editor/DuckDucksTools/VRCFury-Extensions/MeshDeleterBuilder.cs:326-336 | fails iff the renderer is of another kind; otherwise its mesh |
| MeshDeleting.SetMesh | Assets/Editor/DuckDucksTools/VRCFury-Extensions/MeshDeleterBuilder.cs:338-348 | fails iff the renderer is of another kind; otherwise the renderer with the new mesh |
| MeshDeleting.GetSetMesh | Assets/Editor/DuckDucksTools/VRCFury-Extensions/MeshDeleterBuilder.cs:326-348 | reading back a set mesh gives it; setting the mesh just read changes nothing |
| MeshDeleting.Apply | Assets/Editor/DuckDucksTools/VRCFury-Extensions/MeshDeleterBuilder.cs:225-316 | `Apply` computes the build result |
| MeshDeleting.ApplySanityChecks | Assets/Editor/DuckDucksTools/VRCFury-Extensions/MeshDeleterBuilder.cs:225-264 | no target, off-platform or no mask changes nothing; unsupported renderer, unreadable mask, missing mesh and a submesh past the end each fail |
| MeshDeleting.AppliedFilters | Assets/Editor/DuckDucksTools/VRCFury-Extensions/MeshDeleterBuilder.cs:268-309 | past the checks the result is the target with the filtered submesh |
| MeshDeleting.ApplyEffect | Assets/Editor/DuckDucksTools/VRCFury-Extensions/MeshDeleterBuilder.cs:268-309 | only the chosen submesh changes, to a triangle list of exactly its surviving triangles; it fails iff its list cannot be read |
| MeshDeleting.ApplyTwice | Assets/Editor/DuckDucksTools/VRCFury-Extensions/MeshDeleterBuilder.cs:225-316 | running the feature again on its own result changes nothing |
| MeshDeleting.MaskedTwice | Assets/Editor/DuckDucksTools/VRCFury-Extensions/MeshDeleterBuilder.cs:278-304 | filtering twice is filtering once |
| MaskWindow.MaskedSubMeshesOk | Editor/DuckDucksTools/MeshDeleter.cs:45-73 | masking fails exactly when some submesh cannot be read |
| MaskWindow.MaskedSubMeshesAt | Editor/DuckDucksTools/MeshDeleter.cs:45-73 | each submesh is its delete-white filtering |
| MaskWindow.MaskedMeshMeaning | Editor/DuckDucksTools/MeshDeleter.cs:37-73 | only the submeshes change, each to exactly its triangles whose mask sample is dark; a second masking changes nothing |
| MaskWindow.MaskAllSubMeshes | Editor/DuckDucksTools/MeshDeleter.cs:45-73 | the submesh loop computes the masked mesh |
| MaskWindow.AssetFileInjective | Editor/DuckDucksTools/MeshDeleter.cs:78-84 | different candidates name different files |
| MaskWindow.NotTried | Editor/DuckDucksTools/MeshDeleter.cs:78-84 | a later candidate has not been tried |
| MaskWindow.ChooseSavePath | Editor/DuckDucksTools/MeshDeleter.cs:78-84 | the first candidate whose file does not exist |
| MaskWindow.MaskMesh | Editor/DuckDucksTools/MeshDeleter.cs:26-88 | nothing without a renderer or a readable mask; a null mesh or an unreadable triangle fails; otherwise the renderer gets the masked mesh, saved under the first free name |
| PlatformDeleting.Ids | Editor/DuckDucksTools/VRCFury-Extensions/QuestCompatibility/PlatformSpecificDeleterBuilder.cs:82-91 | the objects named by the list |
| PlatformDeleting.FirstNullMeaning | Editor/DuckDucksTools/VRCFury-Extensions/QuestCompatibility/PlatformSpecificDeleterBuilder.cs:82-91 | the first entry that is null when the loop reaches it, the subtrees of the entries before it being destroyed |
| PlatformDeleting.AllPresentNoNull | Editor/DuckDucksTools/VRCFury-Extensions/QuestCompatibility/PlatformSpecificDeleterBuilder.cs:82-91 | existing objects, none listed after itself or after an object above it, never fail |
| PlatformDeleting.Subtree | Editor/DuckDucksTools/VRCFury-Extensions/QuestCompatibility/PlatformSpecificDeleterBuilder.cs:90 | destroying an object destroys exactly it and the objects below it |
| PlatformDeleting.DestroyedMeaning | Editor/DuckDucksTools/VRCFury-Extensions/QuestCompatibility/PlatformSpecificDeleterBuilder.cs:82-91 | destroying the list destroys exactly the subtrees of its entries |
| PlatformDeleting.DestroyedStep | Editor/DuckDucksTools/VRCFury-Extensions/QuestCompatibility/PlatformSpecificDeleterBuilder.cs:90 | destroying one more entry destroys its subtree as well |
| PlatformDeleting.FirstNullStep | Editor/DuckDucksTools/VRCFury-Extensions/QuestCompatibility/PlatformSpecificDeleterBuilder.cs:82-91 | an entry that is not null when reached extends the null-free prefix |
| PlatformDeleting.ListedBelowEarlierFails | Editor/DuckDucksTools/VRCFury-Extensions/QuestCompatibility/PlatformSpecificDeleterBuilder.cs:85-90 | an entry listed after an object above it (for example a child after its parent) fails at that entry at the latest |
| PlatformDeleting.DuplicateFails | Editor/DuckDucksTools/VRCFury-Extensions/QuestCompatibility/PlatformSpecificDeleterBuilder.cs:85-90 | an object listed twice fails at the second entry at the latest |
| PlatformDeleting.StrippedMembers | Editor/DuckDucksTools/VRCFury-Extensions/QuestCompatibility/PlatformSpecificDeleterBuilder.cs:66 | stripping keeps exactly the non-null entries |
| PlatformDeleting.FirstNullAt | Editor/DuckDucksTools/VRCFury-Extensions/QuestCompatibility/PlatformSpecificDeleterBuilder.cs:82-91 | the first entry null when reached is the failure point |
| PlatformDeleting.PlatformSpecificDeleter.constructor | Editor/DuckDucksTools/VRCFury-Extensions/QuestCompatibility/PlatformSpecificDeleterBuilder.cs:21-23 | the list and the platform selection |
| PlatformDeleting.PlatformSpecificDeleter.StripNulls | Editor/DuckDucksTools/VRCFury-Extensions/QuestCompatibility/PlatformSpecificDeleterBuilder.cs:65-67 | null entries are removed; the others keep their order |
| PlatformDeleting.PlatformSpecificDeleter.Apply | Editor/DuckDucksTools/VRCFury-Extensions/QuestCompatibility/PlatformSpecificDeleterBuilder.cs:71-92 | off-platform nothing happens; otherwise every listed object is destroyed with everything below it, or the subtrees of the entries before the first one null when reached are destroyed and the build fails |

## Left out

- Editor user interface: `CreateEditor`, `GetEditorTitle`, help boxes and the window layout
  are not modelled. The window's button press is the call of `MaskWindow.MaskMesh`.
- Floating-point geometry: mesh bounds and the root-bone position (MeshMergeBuilder.cs
  lines 779 and 790-794) are not modelled. Bind poses and positions are opaque values.
- The mask sampling is not modelled as arithmetic. The UV centroid, `GetPixelBilinear` and
  `grayscale` become a `Sampler` parameter that returns darker, lighter or exactly one half.
- Unity asset machinery is not modelled: `Shader.Find`, copying material properties,
  sanitising materials, `MakeMutable`, `SaveAsset`, `CreateDirectory` and `CreateAsset`. The
  file system is the set of existing files given to `MaskWindow.MaskMesh`.
- Clip discovery is a parameter. The animator walk (`GetAllUsedControllers`, the state
  iterator) and the avatar's clip collection are inputs. `GetAnimatedObject` is replaced by
  matching a binding's path and type against the renderer.
- The clip loop of `ReplaceIncompatibleMaterials` (QuestCompatibilityBuilder.cs lines 555-602)
  is not modelled. It resolves material-swap targets through `transform.Find`, and its `return`
  at line 568 ends the whole method. `QuestMaterials.MaterialSelector.ReplaceIncompatibleMaterials`
  covers the renderer loop only.
- The confirmation dialog of `WarnOnDynamicsLimits` is the input `accept`.
- `physbone.InitTransforms` is not modelled. Each physbone carries its bone count.
- The top-level `QuestCompatibilityBuilder.Apply` (lines 410-434) is not modelled. It only
  sequences the steps above, and its debug flag is left out.
- The scene hierarchy is given to the object deleter as a map from each object to the objects
  below it; only destruction uses it.
- Object identity and aliasing are not modelled. Renderers, meshes and materials are values;
  the mesh cache is keyed by mesh value; a destroyed object is one no longer in the avatar.
- `smrBaseValuesCompatibleCache` is not modelled. It is a memo of a pure result.
- MergeApply.Apply: returns the null-reference error up front when an eligible renderer has
  no mesh, where the source throws at the first use of that mesh.
- SlotMerge.MergeSameMaterials: performs the swap renames at once instead of one binding at a
  time. This is the same result, because every animated slot is alone in its group.
- QuestSlots.FixSlotBindings: visits slots in ascending order. The source follows the clip's
  binding order, which the model does not know.
- Unity.ValidClip: the model assumes every material-slot binding has the canonical form
  `m_Materials.Array.data[<k>]` and holds an object curve. The source parses the index with
  `int.Parse` (MeshMergeBuilder.cs lines 381-383), which throws on any other form; that throw is
  not modelled. The members that require `ValidClips` inherit this assumption.
- MergeApply.Apply: requires the eligible renderers to sit at distinct paths. The source does not
  enforce this, and two same-named siblings share a path and so share their animation curves;
  that case is not modelled.
- QuestDynamics.UsedColliders: counts only references to colliders still on the avatar. The
  source tests `c != null`, which is the same only when every referenced collider belongs to
  the avatar; a collider outside the avatar is not modelled. `QuestDynamics.WithinLimitsAfterRemoval`
  relies on this.
- QuestSlots.DeleteNullMatsAndFixAnims, QuestVertexColors.VertexColorRemover.RemoveVertexColors,
  MeshDeleting.GetMesh: a mesh renderer without a mesh filter reads as a renderer without a mesh.
  The source then throws a null-reference exception; the model does not.
- MeshDeleting.Applied: returns an error for a negative submesh index. The source checks only
  `subMesh >= subMeshCount` (MeshDeleterBuilder.cs line 262), and Unity's `GetTriangles` then
  logs an error rather than throwing; that logging behaviour is not modelled.
- SlotMerge.MergedSameMaterials: returns an error when there are more materials than submeshes.
  Unity's `GetTopology` logs an error and returns a default topology instead; that is not
  modelled.
- MeshDeleting.Applied, MaskWindow.MaskedMesh: a submesh's indices are read as a triangle list
  whatever its topology, and the result is marked as triangles. Unity's `GetTriangles` on a
  submesh of another topology is not modelled.
- Integer widths are not modelled: counts and indices are unbounded integers.

## Findings

| source | as written | input that shows it | evidently intended | confidence | as-written member | corrected member |
|---|---|---|---|---|---|---|
| Assets/Editor/DuckDucksTools/VRCFury-Extensions/QuestCompatibility/QuestCompatibilityBuilder.cs:709-845 | a state is added to `states` once per slot binding, so a clip is renamed once per entry | materials [null, m, m]; one state whose clip swaps slots 1 and 2 | each clip renamed once: slot 1 to 0 and slot 2 to 1 | not executed | QuestSlots.DuplicateStateRenamedTwice | QuestSlots.FixAnimations |
| Assets/Editor/DuckDucksTools/VRCFury-Extensions/QuestCompatibility/QuestCompatibilityBuilder.cs:893-912 | `UnityEngine.Joint` is matched against the component's own full type name, which for a joint is `UnityEngine.HingeJoint` and the like | a `HingeJoint` component | every joint type is deleted on Quest | not executed | QuestComponents.HingeJointSurvives | QuestComponents.DeleteIncompatibleComponents |
