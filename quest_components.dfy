/** The removal of component types that mobile avatars do not allow (`DeleteIncompatibleComponents`). */
module QuestComponents {
  import opened Seqs

  /** A component on the hierarchy: its identity, the full name of its type, and the full names
      of that type's base classes, nearest first. */
  datatype Component = Component(id: nat, fullName: string, baseNames: seq<string>)

  const TransformName := "UnityEngine.Transform"

  /** `disallowedComponents` */
  const DisallowedComponents: seq<string> := [
    "VRC.SDK3.Avatars.Components.VRCSpatialAudioSource",
    "DynamicBone",
    "DynamicBoneCollider",
    "RootMotion.FinalIK.IKExecutionOrder",
    "RootMotion.FinalIK.VRIK",
    "RootMotion.FinalIK.FullBodyBipedIK",
    "RootMotion.FinalIK.LimbIK",
    "RootMotion.FinalIK.AimIK",
    "RootMotion.FinalIK.BipedIK",
    "RootMotion.FinalIK.GrounderIK",
    "RootMotion.FinalIK.GrounderFBBIK",
    "RootMotion.FinalIK.GrounderVRIK",
    "RootMotion.FinalIK.GrounderQuadruped",
    "RootMotion.FinalIK.TwistRelaxer",
    "RootMotion.FinalIK.ShoulderRotator",
    "RootMotion.FinalIK.FBBIKArmBending",
    "RootMotion.FinalIK.FBBIKHeadEffector",
    "RootMotion.FinalIK.FABRIK",
    "RootMotion.FinalIK.FABRIKChain",
    "RootMotion.FinalIK.FABRIKRoot",
    "RootMotion.FinalIK.CCDIK",
    "RootMotion.FinalIK.RotationLimit",
    "RootMotion.FinalIK.RotationLimitHinge",
    "RootMotion.FinalIK.RotationLimitPolygonal",
    "RootMotion.FinalIK.RotationLimitSpline",
    "UnityEngine.Cloth",
    "UnityEngine.Light",
    "UnityEngine.BoxCollider",
    "UnityEngine.SphereCollider",
    "UnityEngine.CapsuleCollider",
    "UnityEngine.Rigidbody",
    "UnityEngine.Joint",
    "UnityEngine.Animations.AimConstraint",
    "UnityEngine.Animations.LookAtConstraint",
    "UnityEngine.Animations.ParentConstraint",
    "UnityEngine.Animations.PositionConstraint",
    "UnityEngine.Animations.RotationConstraint",
    "UnityEngine.Animations.ScaleConstraint",
    "UnityEngine.Camera",
    "UnityEngine.AudioSource",
    "ONSPAudioSource"
  ]

  /** The filter as written: the type's own full name is looked up in the list. */
  predicate DisallowedAsWritten(c: Component) {
    c.fullName != TransformName && c.fullName in DisallowedComponents
  }

  /** The filter as intended: a component is disallowed when its type or one of its base types
      is listed, so that every joint type goes with `UnityEngine.Joint`. */
  predicate Disallowed(c: Component) {
    c.fullName != TransformName &&
    (c.fullName in DisallowedComponents || exists k :: 0 <= k < |c.baseNames| && c.baseNames[k] in DisallowedComponents)
  }

  /** `DeleteIncompatibleComponents` as written: the surviving components, in order. */
  function DeleteIncompatibleComponentsAsWritten(cs: seq<Component>): (r: seq<Component>)
    ensures forall c :: c in r <==> c in cs && !DisallowedAsWritten(c)
  {
    FilterMembers(cs, c => !DisallowedAsWritten(c));
    Filter(cs, c => !DisallowedAsWritten(c))
  }

  /** `DeleteIncompatibleComponents` with the base-type check: the surviving components, in order. */
  function DeleteIncompatibleComponents(cs: seq<Component>): (r: seq<Component>)
    ensures forall c :: c in r <==> c in cs && !Disallowed(c)
  {
    FilterMembers(cs, c => !Disallowed(c));
    Filter(cs, c => !Disallowed(c))
  }

  /** A second pass deletes nothing more; transforms are never deleted; the corrected filter
      deletes everything the written one does. */
  lemma DeleteIncompatibleComponentsProperties(cs: seq<Component>)
    ensures DeleteIncompatibleComponents(DeleteIncompatibleComponents(cs)) == DeleteIncompatibleComponents(cs)
    ensures forall c :: c in cs && c.fullName == TransformName ==> c in DeleteIncompatibleComponents(cs)
    ensures forall c :: c in DeleteIncompatibleComponents(cs) ==> c in DeleteIncompatibleComponentsAsWritten(cs)
  {
    FilterTwice(cs, c => !Disallowed(c));
  }

  /** No listed name has an `H` right after a twelve-character prefix such as `UnityEngine.`. */
  lemma NoListedNameHasH()
    ensures forall k :: 0 <= k < |DisallowedComponents| ==>
      |DisallowedComponents[k]| <= 12 || DisallowedComponents[k][12] != 'H'
  {
  }

  /** A hinge joint: its own type is not listed, its base type is. */
  const HingeJoint := Component(0, "UnityEngine.HingeJoint", ["UnityEngine.Joint", "UnityEngine.Component", "UnityEngine.Object"])

  /** As written, a hinge joint survives although `UnityEngine.Joint` is on the list: the listed
      name is the joints' common base type, which no joint component has as its own type. */
  lemma HingeJointSurvives()
    ensures HingeJoint in DeleteIncompatibleComponentsAsWritten([HingeJoint])
    ensures HingeJoint !in DeleteIncompatibleComponents([HingeJoint])
  {
    assert HingeJoint.baseNames[0] == DisallowedComponents[31];
    assert HingeJoint.fullName[12] == 'H';
    NoListedNameHasH();
  }
}
