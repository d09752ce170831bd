/** The platform-specific object deleter: empty entries are dropped from its list early in the
    build (`StripNulls`), and late in the build, on the selected platform, every listed object
    is destroyed in list order together with everything below it in the hierarchy, failing at an
    entry whose object is already gone (`Apply`). */
module PlatformDeleting {
  import opened Base
  import opened Seqs
  import opened Platforms

  type ObjectId = nat

  /** An entry reads as null when it was never assigned or its object is no longer in the
      scene. */
  predicate IsNull(o: Option<ObjectId>, scene: set<ObjectId>) {
    o.None? || o.value !in scene
  }

  function NotNull(scene: set<ObjectId>): Option<ObjectId> -> bool {
    o => !IsNull(o, scene)
  }

  /** The objects named by a list. */
  function Ids(objs: seq<Option<ObjectId>>): (ids: set<ObjectId>)
    ensures forall x :: x in ids <==> Some(x) in objs
  {
    if objs == [] then {}
    else
      var last := objs[|objs| - 1];
      assert objs == objs[..|objs| - 1] + [last];
      Ids(objs[..|objs| - 1]) + (if last.Some? then {last.value} else {})
  }

  /** The objects `DestroyImmediate(o)` destroys: `o` and every object below it, where `below`
      maps an object to the objects under it in the hierarchy. */
  function Subtree(below: map<ObjectId, set<ObjectId>>, o: ObjectId): (t: set<ObjectId>)
    ensures o in t
    ensures forall x :: x in t <==> x == o || (o in below && x in below[o])
  {
    {o} + (if o in below then below[o] else {})
  }

  /** The objects destroyed by destroying every entry of a list. */
  function Destroyed(objs: seq<Option<ObjectId>>, below: map<ObjectId, set<ObjectId>>): set<ObjectId> {
    if objs == [] then {}
    else
      var last := objs[|objs| - 1];
      Destroyed(objs[..|objs| - 1], below) + (if last.Some? then Subtree(below, last.value) else {})
  }

  /** Destroying a list destroys exactly the subtrees of its entries. */
  lemma {:induction false} DestroyedMeaning(objs: seq<Option<ObjectId>>, below: map<ObjectId, set<ObjectId>>)
    ensures forall k :: 0 <= k < |objs| && objs[k].Some? ==> Subtree(below, objs[k].value) <= Destroyed(objs, below)
    ensures forall x :: x in Destroyed(objs, below) ==>
      exists k :: 0 <= k < |objs| && objs[k].Some? && x in Subtree(below, objs[k].value)
  {
    if objs != [] {
      var p := objs[..|objs| - 1];
      DestroyedMeaning(p, below);
      assert forall k :: 0 <= k < |p| ==> p[k] == objs[k];
    }
  }

  /** Destroying one more entry adds its subtree. */
  lemma DestroyedStep(objs: seq<Option<ObjectId>>, i: nat, below: map<ObjectId, set<ObjectId>>)
    requires i < |objs|
    ensures Destroyed(objs[..i + 1], below) ==
      Destroyed(objs[..i], below) + (if objs[i].Some? then Subtree(below, objs[i].value) else {})
  {
    assert objs[..i + 1][..i] == objs[..i];
  }

  /** Entry `k` reads as null when reached: destroying the earlier entries' subtrees comes first. */
  predicate NullWhenReached(objs: seq<Option<ObjectId>>, k: nat, scene: set<ObjectId>, below: map<ObjectId, set<ObjectId>>)
    requires k < |objs|
  {
    IsNull(objs[k], scene - Destroyed(objs[..k], below))
  }

  /** The first entry that reads as null when reached, or -1. */
  function FirstNull(objs: seq<Option<ObjectId>>, scene: set<ObjectId>, below: map<ObjectId, set<ObjectId>>): (k: int)
    ensures -1 <= k < |objs|
  {
    if objs == [] then -1
    else
      var k := FirstNull(objs[..|objs| - 1], scene, below);
      if k >= 0 then k
      else if NullWhenReached(objs, |objs| - 1, scene, below) then |objs| - 1
      else -1
  }

  /** `FirstNull` is the first entry that reads as null when reached. */
  lemma {:induction false} FirstNullMeaning(objs: seq<Option<ObjectId>>, scene: set<ObjectId>, below: map<ObjectId, set<ObjectId>>)
    ensures var k := FirstNull(objs, scene, below);
      && (k >= 0 ==> NullWhenReached(objs, k, scene, below) &&
                     forall j :: 0 <= j < k ==> !NullWhenReached(objs, j, scene, below))
      && (k == -1 ==> forall j :: 0 <= j < |objs| ==> !NullWhenReached(objs, j, scene, below))
  {
    if objs != [] {
      var p := objs[..|objs| - 1];
      FirstNullMeaning(p, scene, below);
      forall j | 0 <= j < |p| ensures NullWhenReached(p, j, scene, below) == NullWhenReached(objs, j, scene, below) {
        assert p[..j] == objs[..j] && p[j] == objs[j];
      }
    }
  }

  /** A list of objects all in the scene, none of them listed after itself or after an object
      above it, never reaches a null entry. */
  lemma AllPresentNoNull(objs: seq<Option<ObjectId>>, scene: set<ObjectId>, below: map<ObjectId, set<ObjectId>>)
    requires forall k :: 0 <= k < |objs| ==> !IsNull(objs[k], scene)
    requires forall i, j :: 0 <= i < j < |objs| && objs[i].Some? && objs[j].Some? ==> objs[j].value !in Subtree(below, objs[i].value)
    ensures FirstNull(objs, scene, below) == -1
  {
    FirstNullMeaning(objs, scene, below);
    forall k | 0 <= k < |objs| ensures !NullWhenReached(objs, k, scene, below) {
      DestroyedMeaning(objs[..k], below);
      assert forall i :: 0 <= i < k ==> objs[..k][i] == objs[i];
    }
  }

  /** An entry listed after an object above it in the hierarchy, or after itself, is gone by
      the time it is reached: the build fails there at the latest. */
  lemma ListedBelowEarlierFails(objs: seq<Option<ObjectId>>, scene: set<ObjectId>, below: map<ObjectId, set<ObjectId>>,
                                i: nat, j: nat)
    requires i < j < |objs| && objs[i].Some? && objs[j].Some?
    requires objs[j].value in Subtree(below, objs[i].value)
    ensures 0 <= FirstNull(objs, scene, below) <= j
  {
    FirstNullMeaning(objs, scene, below);
    DestroyedMeaning(objs[..j], below);
    assert objs[..j][i] == objs[i];
    assert NullWhenReached(objs, j, scene, below);
  }

  /** In particular a list naming the same object twice fails at the second entry at the latest. */
  lemma DuplicateFails(objs: seq<Option<ObjectId>>, scene: set<ObjectId>, below: map<ObjectId, set<ObjectId>>, i: nat, j: nat)
    requires i < j < |objs| && objs[i] == objs[j] && objs[i].Some?
    ensures 0 <= FirstNull(objs, scene, below) <= j
  {
    ListedBelowEarlierFails(objs, scene, below, i, j);
  }

  lemma StrippedMembers(objs: seq<Option<ObjectId>>, scene: set<ObjectId>)
    ensures forall o :: o in Filter(objs, NotNull(scene)) <==> o in objs && !IsNull(o, scene)
  {
    FilterMembers(objs, NotNull(scene));
  }

  class PlatformSpecificDeleter {
    var deleteObjects: seq<Option<ObjectId>>
    const platformSelection: PlatformSelection

    constructor (deleteObjects: seq<Option<ObjectId>>, platformSelection: PlatformSelection)
      ensures this.deleteObjects == deleteObjects && this.platformSelection == platformSelection
    {
      this.deleteObjects := deleteObjects;
      this.platformSelection := platformSelection;
    }

    /** `StripNulls`: the entries that are null now are removed; the others keep their order. */
    method StripNulls(scene: set<ObjectId>)
      modifies this
      ensures deleteObjects == Filter(old(deleteObjects), NotNull(scene))
      ensures forall o :: o in deleteObjects <==> o in old(deleteObjects) && !IsNull(o, scene)
    {
      StrippedMembers(deleteObjects, scene);
      deleteObjects := Filter(deleteObjects, NotNull(scene));
    }

    /** `Apply`: off the selected platform nothing happens. Otherwise the listed objects are
        destroyed in order, each with the objects below it; on reaching an entry that reads as
        null the build fails, with the entries before it already destroyed. `scene` is the set
        of objects alive before, `below` the hierarchy, and `after` the set alive afterwards. */
    method Apply(isQuestBuild: bool, scene: set<ObjectId>, below: map<ObjectId, set<ObjectId>>)
      returns (res: Result<()>, after: set<ObjectId>)
      ensures !Applies(platformSelection, isQuestBuild) ==> res == Ok(()) && after == scene
      ensures Applies(platformSelection, isQuestBuild) ==>
        var k := FirstNull(deleteObjects, scene, below);
        && (k == -1 ==> res == Ok(()) && after == scene - Destroyed(deleteObjects, below))
        && (k >= 0 ==> res == Err(ObjectAlreadyDestroyed) && after == scene - Destroyed(deleteObjects[..k], below))
    {
      after := scene;
      if !Applies(platformSelection, isQuestBuild) {
        return Ok(()), after;
      }
      var objs := deleteObjects;
      for i := 0 to |objs|
        invariant after == scene - Destroyed(objs[..i], below)
        invariant FirstNull(objs[..i], scene, below) == -1
      {
        var obj := objs[i];
        if obj.None? || obj.value !in after {
          assert NullWhenReached(objs, i, scene, below);
          FirstNullAt(objs, i, scene, below);
          return Err(ObjectAlreadyDestroyed), after;
        }
        FirstNullStep(objs, i, scene, below);
        DestroyedStep(objs, i, below);
        after := after - Subtree(below, obj.value);
      }
      assert objs[..|objs|] == objs;
      res := Ok(());
    }
  }

  /** An entry not null when reached, after none of the earlier ones, extends the null-free prefix. */
  lemma FirstNullStep(objs: seq<Option<ObjectId>>, i: nat, scene: set<ObjectId>, below: map<ObjectId, set<ObjectId>>)
    requires i < |objs|
    requires FirstNull(objs[..i], scene, below) == -1
    requires !NullWhenReached(objs, i, scene, below)
    ensures FirstNull(objs[..i + 1], scene, below) == -1
  {
    assert objs[..i + 1][..i] == objs[..i];
    assert objs[..i + 1][..i + 1][..i] == objs[..i] && objs[..i + 1][i] == objs[i];
  }

  /** The first entry of a list that is null when reached, after none of the earlier ones. */
  lemma FirstNullAt(objs: seq<Option<ObjectId>>, i: nat, scene: set<ObjectId>, below: map<ObjectId, set<ObjectId>>)
    requires i < |objs|
    requires FirstNull(objs[..i], scene, below) == -1
    requires NullWhenReached(objs, i, scene, below)
    ensures FirstNull(objs, scene, below) == i
  {
    FirstNullMeaning(objs, scene, below);
    FirstNullMeaning(objs[..i], scene, below);
    forall j | 0 <= j < i ensures !NullWhenReached(objs, j, scene, below) {
      assert !NullWhenReached(objs[..i], j, scene, below);
      assert objs[..i][..j] == objs[..j] && objs[..i][j] == objs[j];
    }
  }
}
