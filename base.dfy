/** Failure-carrying wrappers shared by every module: `Option` stands for a
    reference that may be null, `Result` for an operation that may throw. */
module Base {

  datatype Option<+T> = None | Some(value: T)

  /** The exceptions the modelled code throws, one constructor per `throw`
      (or per runtime exception the code runs into). The builders share one type;
      the comment on each constructor names where it is raised. */
  datatype Error =
      /** .NET's `IndexOutOfRangeException` / `ArgumentOutOfRangeException`: an array or
          list index past the end (bone weights and submeshes in the mesh merger, material
          slots in the Quest slot cleanup and slot merger, triangle indices in both mesh
          deleters) or a negative slot or submesh index. */
    | IndexOutOfRange
      /** `KeyNotFoundException`: a bone-index lookup in `MergeSMRs` (MeshMergeBuilder.cs lines 688-698). */
    | KeyNotFound
      /** `NullReferenceException`: a missing mesh, root bone or renderer (mesh merger,
          slot merger, Quest slot deletions, mesh deleter window). */
    | NullReference
      /** MeshMergeBuilder.cs line 732 (`MergeSMRs`). */
    | BlendShapeFrameCountMismatch(shape: string)
      /** MeshMergeBuilder.cs line 744 (`MergeSMRs`). */
    | BlendShapeWeightMismatch(shape: string)
      /** QuestCompatibilityBuilder.cs line 687 (`NullAnyMaterialSlotsInTheDeletionList`). */
    | MaterialSlotDoesNotExist(slot: int)
      /** QuestCompatibilityBuilder.cs line 763 (`DeleteNullMatsAndFixAnims`). */
    | IncompatibleRendererType
      /** MeshDeleterBuilder.cs lines 334 and 346 (`GetMesh`, `SetMesh`). */
    | UnsupportedRendererType
      /** MeshDeleterBuilder.cs line 253. */
    | MaskNotReadable
      /** MeshDeleterBuilder.cs line 258. */
    | TargetHasNoMesh
      /** MeshDeleterBuilder.cs line 263. */
    | SubMeshOutOfBounds
      /** PlatformSpecificDeleterBuilder.cs line 86. */
    | ObjectAlreadyDestroyed
      /** QuestCompatibilityBuilder.cs line 514 (`WarnOnDynamicsLimits`). */
    | UserCancelledBuild

  datatype Result<+T> = Ok(value: T) | Err(error: Error) {
    predicate IsFailure() { Err? }
    function PropagateFailure<U>(): Result<U>
      requires Err?
    {
      Err(error)
    }
    function Extract(): T
      requires Ok?
    {
      value
    }
  }
}
