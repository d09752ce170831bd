/** Merging one skinned mesh renderer into another (`MergeSMRs`): the combined bone table,
    the vertex channels, the remapped bone weights, the shifted submeshes, the union of
    blendshapes and the concatenated material list. */
module MeshMerge {
  import opened Base
  import opened Unity

  /** One bone of the merged mesh: its transform and its bind pose. */
  type BonePair = (Transform, Matrix)

  function IndexOf<T(==)>(s: seq<T>, x: T): (k: nat)
    requires x in s
    ensures k < |s| && s[k] == x && forall j :: 0 <= j < k ==> s[j] != x
  {
    if s[0] == x then 0 else 1 + IndexOf(s[1..], x)
  }

  predicate Distinct<T(==)>(s: seq<T>) {
    forall i, j :: 0 <= i < j < |s| ==> s[i] != s[j]
  }

  // ---------------------------------------------------------------------------------------------
  // Bone table

  /** The merged bone table (entry k is new bone k) after the first `n` bones of one mesh were
      entered into `order`: a bone with a null transform adds nothing, a (transform, bind pose)
      pair already present is reused, any other pair becomes the next new bone. */
  function Register(order: seq<BonePair>, bindposes: seq<Matrix>, bones: seq<Option<Transform>>, n: nat)
    : (o: seq<BonePair>)
    requires n <= |bindposes| && n <= |bones|
    ensures order <= o
  {
    if n == 0 then order
    else
      var o := Register(order, bindposes, bones, n - 1);
      match bones[n - 1]
      case None => o
      case Some(t) => if (t, bindposes[n - 1]) in o then o else o + [(t, bindposes[n - 1])]
  }

  /** Every non-null bone of the mesh is in the table that was built from it. */
  predicate Covers(order: seq<BonePair>, bindposes: seq<Matrix>, bones: seq<Option<Transform>>) {
    |bindposes| <= |bones| &&
    forall i :: 0 <= i < |bindposes| && bones[i].Some? ==> (bones[i].value, bindposes[i]) in order
  }

  /** Old bone index to new bone index (`indexToIndexNew`): a null transform goes to bone 0,
      any other bone to the table entry of its (transform, bind pose) pair. */
  function IndexMap(order: seq<BonePair>, bindposes: seq<Matrix>, bones: seq<Option<Transform>>): (m: seq<nat>)
    requires Covers(order, bindposes, bones)
    ensures |m| == |bindposes|
  {
    seq(|bindposes|, i requires 0 <= i < |bindposes| =>
      if bones[i].None? then 0 else IndexOf(order, (bones[i].value, bindposes[i])))
  }

  lemma IndexOfPrefix<T>(s: seq<T>, t: seq<T>, x: T)
    requires x in s && s <= t
    ensures x in t && IndexOf(t, x) == IndexOf(s, x)
  {
    var k := IndexOf(s, x);
    assert t[k] == x;
    assert forall j :: 0 <= j < k ==> t[j] == s[j];
  }

  /** The inner search of `BuildIndices`: the table entry holding (transform, bind pose),
      or -1 when there is none. */
  method FindEntry(order: seq<BonePair>, p: BonePair) returns (k: int)
    ensures k == -1 <==> p !in order
    ensures k != -1 ==> 0 <= k < |order| && k == IndexOf(order, p)
  {
    k := -1;
    var j := 0;
    while j < |order|
      invariant 0 <= j <= |order|
      invariant forall i :: 0 <= i < j ==> order[i] != p
    {
      if order[j] == p {
        k := j;
        return;
      }
      j := j + 1;
    }
  }

  /** `BuildIndices`: enters the bones of one mesh into the shared table and returns the old to
      new index map. Reading the bone array past its end is the engine's index error. */
  method BuildIndices(order: seq<BonePair>, bindposes: seq<Matrix>, bones: seq<Option<Transform>>)
    returns (r: Result<seq<nat>>, order': seq<BonePair>)
    ensures r.Ok? <==> |bindposes| <= |bones|
    ensures r.Err? ==> r.error == IndexOutOfRange
    ensures r.Ok? ==> order' == Register(order, bindposes, bones, |bindposes|)
                      && Covers(order', bindposes, bones)
                      && r.value == IndexMap(order', bindposes, bones)
  {
    order' := order;
    var m: seq<nat> := [];
    var i := 0;
    while i < |bindposes|
      invariant 0 <= i <= |bindposes| && i <= |bones|
      invariant order' == Register(order, bindposes, bones, i)
      invariant |m| == i
      invariant forall k :: 0 <= k < i && bones[k].None? ==> m[k] == 0
      invariant forall k :: 0 <= k < i && bones[k].Some? ==>
                  (bones[k].value, bindposes[k]) in order' && m[k] == IndexOf(order', (bones[k].value, bindposes[k]))
    {
      if i >= |bones| {
        return Err(IndexOutOfRange), order';
      }
      if bones[i].None? {
        m := m + [0];
      } else {
        var p := (bones[i].value, bindposes[i]);
        var newIndex := FindEntry(order', p);
        if newIndex == -1 {
          ghost var before := order';
          newIndex := |order'|;
          order' := order' + [p];
          forall k | 0 <= k < i && bones[k].Some?
            ensures m[k] == IndexOf(order', (bones[k].value, bindposes[k]))
          {
            IndexOfPrefix(before, order', (bones[k].value, bindposes[k]));
          }
          assert IndexOf(order', p) == newIndex;
        }
        m := m + [newIndex as nat];
      }
      i := i + 1;
    }
    if |bindposes| > |bones| {
      return Err(IndexOutOfRange), order';
    }
    r := Ok(m);
  }

  lemma {:induction false} RegisterCovers(order: seq<BonePair>, bindposes: seq<Matrix>, bones: seq<Option<Transform>>, n: nat)
    requires n <= |bindposes| && n <= |bones|
    ensures forall i :: 0 <= i < n && bones[i].Some? ==> (bones[i].value, bindposes[i]) in Register(order, bindposes, bones, n)
  {
    if n > 0 {
      RegisterCovers(order, bindposes, bones, n - 1);
    }
  }

  /** The table holds each pair once, and every new entry is the pair of a non-null bone. */
  lemma {:induction false} RegisterEntries(order: seq<BonePair>, bindposes: seq<Matrix>, bones: seq<Option<Transform>>, n: nat)
    requires n <= |bindposes| && n <= |bones|
    requires Distinct(order)
    ensures Distinct(Register(order, bindposes, bones, n))
    ensures forall k :: |order| <= k < |Register(order, bindposes, bones, n)| ==>
              exists i :: 0 <= i < n && bones[i] == Some(Register(order, bindposes, bones, n)[k].0)
                          && bindposes[i] == Register(order, bindposes, bones, n)[k].1
  {
    if n > 0 {
      RegisterEntries(order, bindposes, bones, n - 1);
    }
  }

  /** The bind pose array of the merged mesh (`bindPosesNew`). */
  function BindPosesOf(order: seq<BonePair>): (bp: seq<Matrix>)
    ensures |bp| == |order| && forall k :: 0 <= k < |order| ==> bp[k] == order[k].1
  {
    seq(|order|, k requires 0 <= k < |order| => order[k].1)
  }

  /** The bone array of the merged renderer (`SMRBones`). */
  function BonesOf(order: seq<BonePair>): (bs: seq<Option<Transform>>)
    ensures |bs| == |order| && forall k :: 0 <= k < |order| ==> bs[k] == Some(order[k].0)
  {
    seq(|order|, k requires 0 <= k < |order| => Some(order[k].0))
  }

  /** The two loops that fill `bindPosesNew` and `SMRBones` from the table. */
  method FillBoneArrays(order: seq<BonePair>) returns (bindposes: seq<Matrix>, bones: seq<Option<Transform>>)
    ensures bindposes == BindPosesOf(order) && bones == BonesOf(order)
  {
    var bp := new Matrix[|order|](_ => Matrix(0));
    var bs := new Option<Transform>[|order|](_ => None);
    var k := 0;
    while k < |order|
      invariant 0 <= k <= |order|
      invariant forall j :: 0 <= j < k ==> bp[j] == order[j].1 && bs[j] == Some(order[j].0)
    {
      bp[k] := order[k].1;
      bs[k] := Some(order[k].0);
      k := k + 1;
    }
    bindposes, bones := bp[..], bs[..];
  }

  /** A non-null bone keeps its transform and bind pose under the new index, and two non-null
      bones of either mesh share a new index exactly when they have the same transform and
      bind pose. */
  lemma IndexMapSound(order: seq<BonePair>, bp1: seq<Matrix>, bs1: seq<Option<Transform>>,
                      bp2: seq<Matrix>, bs2: seq<Option<Transform>>, i: nat, j: nat)
    requires Covers(order, bp1, bs1) && Covers(order, bp2, bs2)
    requires i < |bp1| && bs1[i].Some? && j < |bp2| && bs2[j].Some?
    ensures IndexMap(order, bp1, bs1)[i] < |order|
    ensures BonesOf(order)[IndexMap(order, bp1, bs1)[i]] == bs1[i]
    ensures BindPosesOf(order)[IndexMap(order, bp1, bs1)[i]] == bp1[i]
    ensures IndexMap(order, bp1, bs1)[i] == IndexMap(order, bp2, bs2)[j] <==> bs1[i] == bs2[j] && bp1[i] == bp2[j]
  {
  }

  // ---------------------------------------------------------------------------------------------
  // Vertex channels

  function Zeros(n: nat): (z: seq<Vector>)
    ensures |z| == n && forall i :: 0 <= i < n ==> z[i] == ZeroVector
  {
    seq(n, _ => ZeroVector)
  }

  /** `MakeArray`: a channel of the merged mesh. It is empty when the channel is empty in both
      meshes; otherwise it has one entry per merged vertex, taken from the mesh the vertex comes
      from, with zeros standing in for a mesh that lacks the channel. */
  function MergeChannel(c1: seq<Vector>, c2: seq<Vector>, len1: nat, len2: nat): (c: seq<Vector>)
    requires |c1| == 0 || |c1| == len1
    requires |c2| == 0 || |c2| == len2
    ensures c1 == [] && c2 == [] ==> c == []
    ensures c1 != [] || c2 != [] ==>
              && |c| == len1 + len2
              && (forall i :: 0 <= i < len1 ==> c[i] == if c1 == [] then ZeroVector else c1[i])
              && (forall i :: 0 <= i < len2 ==> c[len1 + i] == if c2 == [] then ZeroVector else c2[i])
  {
    if |c1| + |c2| > 0 then
      (if |c1| == 0 then Zeros(len1) else c1) + (if |c2| == 0 then Zeros(len2) else c2)
    else []
  }

  function MergeChannels(m1: Mesh, m2: Mesh): (chs: seq<seq<Vector>>)
    requires ValidMesh(m1) && ValidMesh(m2)
    ensures |chs| == NumChannels
  {
    seq(NumChannels, c requires 0 <= c < NumChannels =>
      MergeChannel(m1.channels[c], m2.channels[c], |m1.vertices|, |m2.vertices|))
  }

  // ---------------------------------------------------------------------------------------------
  // Bone weights

  /** All four bone indices of a weight are keys of an index map with `n` entries. */
  predicate IndicesKnown(w: BoneWeight, n: nat) {
    0 <= w.boneIndex0 < n && 0 <= w.boneIndex1 < n && 0 <= w.boneIndex2 < n && 0 <= w.boneIndex3 < n
  }

  function Remapped(w: BoneWeight, m: seq<nat>): BoneWeight
    requires IndicesKnown(w, |m|)
  {
    w.(boneIndex0 := m[w.boneIndex0], boneIndex1 := m[w.boneIndex1],
       boneIndex2 := m[w.boneIndex2], boneIndex3 := m[w.boneIndex3])
  }

  /** The weights of the first `n` vertices with their bone indices sent through the index map:
      an index error when the weight array is shorter, a missing key when a weight names a bone
      the map does not have, whichever comes first. */
  function RemapWeights(ws: seq<BoneWeight>, m: seq<nat>, n: nat): (r: Result<seq<BoneWeight>>)
    ensures r.Ok? <==> n <= |ws| && forall i :: 0 <= i < n ==> IndicesKnown(ws[i], |m|)
    ensures r.Ok? ==> |r.value| == n && forall i :: 0 <= i < n ==> r.value[i] == Remapped(ws[i], m)
  {
    if n == 0 then Ok([])
    else match RemapWeights(ws, m, n - 1)
      case Err(e) => Err(e)
      case Ok(prefix) =>
        if n - 1 >= |ws| then Err(IndexOutOfRange)
        else if !IndicesKnown(ws[n - 1], |m|) then Err(KeyNotFound)
        else Ok(prefix + [Remapped(ws[n - 1], m)])
  }

  function CombineWeights(ws1: seq<BoneWeight>, m1: seq<nat>, len1: nat,
                          ws2: seq<BoneWeight>, m2: seq<nat>, len2: nat): Result<seq<BoneWeight>>
  {
    match RemapWeights(ws1, m1, len1)
    case Err(e) => Err(e)
    case Ok(a) =>
      match RemapWeights(ws2, m2, len2)
      case Err(e) => Err(e)
      case Ok(b) => Ok(a + b)
  }

  /** The first failing vertex decides the error. */
  lemma {:induction false} RemapWeightsStops(ws: seq<BoneWeight>, m: seq<nat>, i: nat, n: nat)
    requires i < n && RemapWeights(ws, m, i).Ok? && RemapWeights(ws, m, i + 1).Err?
    ensures RemapWeights(ws, m, n) == RemapWeights(ws, m, i + 1)
    decreases n
  {
    if n > i + 1 {
      RemapWeightsStops(ws, m, i, n - 1);
    }
  }

  /** One of the two weight loops: vertex `i` of the mesh goes to slot `off + i` of the array.
      Nothing below `off` changes; on failure the error is the one the specification names. */
  method RemapInto(a: array<BoneWeight>, off: nat, ws: seq<BoneWeight>, m: seq<nat>, n: nat)
    returns (e: Option<Error>)
    requires off + n <= a.Length
    modifies a
    ensures a[..off] == old(a[..off])
    ensures e.None? <==> RemapWeights(ws, m, n).Ok?
    ensures e.Some? ==> RemapWeights(ws, m, n) == Err(e.value)
    ensures e.None? ==> a[off..off + n] == RemapWeights(ws, m, n).value
  {
    var i := 0;
    while i < n
      invariant 0 <= i <= n
      invariant a[..off] == old(a[..off])
      invariant RemapWeights(ws, m, i).Ok? && a[off..off + i] == RemapWeights(ws, m, i).value
    {
      if i >= |ws| || !IndicesKnown(ws[i], |m|) {
        RemapWeightsStops(ws, m, i, n);
        return Some(if i >= |ws| then IndexOutOfRange else KeyNotFound);
      }
      a[off + i] := Remapped(ws[i], m);
      assert a[off..off + i + 1] == a[off..off + i] + [a[off + i]];
      i := i + 1;
    }
    return None;
  }

  /** The two loops that fill the merged bone weight array. */
  method RemapBoneWeights(ws1: seq<BoneWeight>, m1: seq<nat>, len1: nat,
                          ws2: seq<BoneWeight>, m2: seq<nat>, len2: nat)
    returns (r: Result<seq<BoneWeight>>)
    ensures r == CombineWeights(ws1, m1, len1, ws2, m2, len2)
  {
    var a := new BoneWeight[len1 + len2](_ => BoneWeight(0, 0, 0, 0, 0.0, 0.0, 0.0, 0.0));
    var e := RemapInto(a, 0, ws1, m1, len1);
    if e.Some? {
      return Err(e.value);
    }
    assert a[..len1] == a[0..0 + len1];
    e := RemapInto(a, len1, ws2, m2, len2);
    if e.Some? {
      return Err(e.value);
    }
    assert a[..] == a[..len1] + a[len1..len1 + len2];
    r := Ok(a[..]);
  }

  // ---------------------------------------------------------------------------------------------
  // Submeshes

  function Shifted(sm: SubMesh, d: int): (r: SubMesh)
    ensures r.topology == sm.topology && |r.indices| == |sm.indices|
    ensures forall k :: 0 <= k < |sm.indices| ==> r.indices[k] == sm.indices[k] + d
  {
    SubMesh(seq(|sm.indices|, k requires 0 <= k < |sm.indices| => sm.indices[k] + d), sm.topology)
  }

  function MergedSubMeshes(s1: seq<SubMesh>, s2: seq<SubMesh>, len1: nat): (s: seq<SubMesh>)
    ensures |s| == |s1| + |s2|
  {
    s1 + seq(|s2|, i requires 0 <= i < |s2| => Shifted(s2[i], len1))
  }

  /** The two `SetIndices` loops: the submeshes of the first mesh, then those of the second
      with their vertex indices moved past the first mesh's vertices. */
  method MergeSubMeshes(s1: seq<SubMesh>, s2: seq<SubMesh>, len1: nat) returns (s: seq<SubMesh>)
    ensures s == MergedSubMeshes(s1, s2, len1)
  {
    s := [];
    var i := 0;
    while i < |s1|
      invariant 0 <= i <= |s1| && s == s1[..i]
    {
      s := s + [s1[i]];
      i := i + 1;
    }
    i := 0;
    while i < |s2|
      invariant 0 <= i <= |s2| && s == s1 + seq(i, j requires 0 <= j < i => Shifted(s2[j], len1))
    {
      s := s + [Shifted(s2[i], len1)];
      i := i + 1;
    }
  }

  predicate IndicesInRange(subs: seq<SubMesh>, n: nat) {
    forall i, k :: 0 <= i < |subs| && 0 <= k < |subs[i].indices| ==> 0 <= subs[i].indices[k] < n
  }

  /** Every triangle of the merged mesh refers to the same vertex positions it referred to in
      its own mesh. */
  lemma SubMeshVerticesPreserved(v1: seq<Vector>, s1: seq<SubMesh>, v2: seq<Vector>, s2: seq<SubMesh>)
    requires IndicesInRange(s1, |v1|) && IndicesInRange(s2, |v2|)
    ensures IndicesInRange(MergedSubMeshes(s1, s2, |v1|), |v1| + |v2|)
    ensures forall i, k :: 0 <= i < |s1| && 0 <= k < |s1[i].indices| ==>
              (v1 + v2)[MergedSubMeshes(s1, s2, |v1|)[i].indices[k]] == v1[s1[i].indices[k]]
    ensures forall i, k :: 0 <= i < |s2| && 0 <= k < |s2[i].indices| ==>
              MergedSubMeshes(s1, s2, |v1|)[|s1| + i].topology == s2[i].topology &&
              (v1 + v2)[MergedSubMeshes(s1, s2, |v1|)[|s1| + i].indices[k]] == v2[s2[i].indices[k]]
  {
    var s := MergedSubMeshes(s1, s2, |v1|);
    assert forall i :: 0 <= i < |s1| ==> s[i] == s1[i];
    assert forall i :: 0 <= i < |s2| ==> s[|s1| + i] == Shifted(s2[i], |v1|);
  }

  // ---------------------------------------------------------------------------------------------
  // Blendshapes

  /** Appends the elements of `xs` not yet present, in order (adding to a `HashSet`). */
  function AppendNew(acc: seq<string>, xs: seq<string>): (r: seq<string>)
    ensures acc <= r
    ensures forall x :: x in r <==> x in acc || x in xs
    ensures Distinct(acc) ==> Distinct(r)
    decreases |xs|
  {
    if xs == [] then acc
    else AppendNew(if xs[0] in acc then acc else acc + [xs[0]], xs[1..])
  }

  /** The blendshape names of both meshes, those of the first mesh first. */
  function UnionNames(bs1: seq<BlendShape>, bs2: seq<BlendShape>): (names: seq<string>)
    ensures Distinct(names)
    ensures forall n :: n in names <==> n in BlendShapeNames(bs1) || n in BlendShapeNames(bs2)
  {
    AppendNew(AppendNew([], BlendShapeNames(bs1)), BlendShapeNames(bs2))
  }

  /** A shape both meshes have must have as many frames in each, with equal frame weights. */
  predicate Compatible(bs1: seq<BlendShape>, bs2: seq<BlendShape>, name: string) {
    var i1 := BlendShapeIndex(bs1, name);
    var i2 := BlendShapeIndex(bs2, name);
    i1 == -1 || i2 == -1 ||
    (|bs1[i1].frames| == |bs2[i2].frames| &&
     forall f :: 0 <= f < |bs1[i1].frames| ==> bs1[i1].frames[f].weight == bs2[i2].frames[f].weight)
  }

  function MismatchError(bs1: seq<BlendShape>, bs2: seq<BlendShape>, name: string): Error
    requires !Compatible(bs1, bs2, name)
  {
    var i1 := BlendShapeIndex(bs1, name);
    var i2 := BlendShapeIndex(bs2, name);
    if |bs1[i1].frames| != |bs2[i2].frames| then BlendShapeFrameCountMismatch(name)
    else BlendShapeWeightMismatch(name)
  }

  function FirstIncompatible(bs1: seq<BlendShape>, bs2: seq<BlendShape>, names: seq<string>): (k: int)
    ensures -1 <= k < |names|
    ensures k == -1 <==> forall j :: 0 <= j < |names| ==> Compatible(bs1, bs2, names[j])
    ensures k >= 0 ==> !Compatible(bs1, bs2, names[k]) && forall j :: 0 <= j < k ==> Compatible(bs1, bs2, names[j])
  {
    if names == [] then -1
    else if !Compatible(bs1, bs2, names[0]) then 0
    else var k := FirstIncompatible(bs1, bs2, names[1..]); if k == -1 then -1 else k + 1
  }

  function FrameAt(bs: seq<BlendShape>, idx: int, f: nat): Option<Frame>
    requires -1 <= idx < |bs|
  {
    if idx == -1 || f >= |bs[idx].frames| then None else Some(bs[idx].frames[f])
  }

  /** One frame of a merged shape: the weight of the first mesh that has the shape, and the
      deltas of both meshes one after the other, zeros for a mesh without the shape. */
  function MergedFrame(f1: Option<Frame>, f2: Option<Frame>, len1: nat, len2: nat): Frame {
    Frame(if f1.Some? then f1.value.weight else if f2.Some? then f2.value.weight else 0.0,
          (if f1.Some? then f1.value.deltaVertices else Zeros(len1)) + (if f2.Some? then f2.value.deltaVertices else Zeros(len2)),
          (if f1.Some? then f1.value.deltaNormals else Zeros(len1)) + (if f2.Some? then f2.value.deltaNormals else Zeros(len2)),
          (if f1.Some? then f1.value.deltaTangents else Zeros(len1)) + (if f2.Some? then f2.value.deltaTangents else Zeros(len2)))
  }

  function MergedShape(bs1: seq<BlendShape>, bs2: seq<BlendShape>, name: string, len1: nat, len2: nat): BlendShape
    requires InEither(bs1, bs2, name)
  {
    var i1 := BlendShapeIndex(bs1, name);
    var i2 := BlendShapeIndex(bs2, name);
    var n := if i1 != -1 then |bs1[i1].frames| else |bs2[i2].frames|;
    BlendShape(name, seq(n, f requires 0 <= f < n => MergedFrame(FrameAt(bs1, i1, f), FrameAt(bs2, i2, f), len1, len2)))
  }

  /** One delta list of a merged frame: the first mesh's part, then the second mesh's part. */
  predicate Joined(d: seq<Vector>, d1: seq<Vector>, d2: seq<Vector>) {
    d == d1 + d2 && d[..|d1|] == d1 && d[|d1|..] == d2
  }

  /** A merged frame of two compatible shapes carries the weight both meshes agree on, and its
      deltas are the first mesh's followed by the second mesh's, zeros for a mesh lacking the
      shape; one delta per merged vertex. */
  lemma MergedShapeFrames(bs1: seq<BlendShape>, bs2: seq<BlendShape>, name: string, len1: nat, len2: nat)
    requires InEither(bs1, bs2, name) && Compatible(bs1, bs2, name)
    requires forall i, f :: 0 <= i < |bs1| && 0 <= f < |bs1[i].frames| ==> FrameFits(bs1[i].frames[f], len1)
    requires forall i, f :: 0 <= i < |bs2| && 0 <= f < |bs2[i].frames| ==> FrameFits(bs2[i].frames[f], len2)
    ensures var s := MergedShape(bs1, bs2, name, len1, len2);
      var i1 := BlendShapeIndex(bs1, name);
      var i2 := BlendShapeIndex(bs2, name);
      && s.name == name
      && (i1 != -1 ==> |s.frames| == |bs1[i1].frames|)
      && (i2 != -1 ==> |s.frames| == |bs2[i2].frames|)
      && forall f :: 0 <= f < |s.frames| ==>
           var g := s.frames[f];
           var g1 := if i1 != -1 then bs1[i1].frames[f] else Frame(0.0, Zeros(len1), Zeros(len1), Zeros(len1));
           var g2 := if i2 != -1 then bs2[i2].frames[f] else Frame(0.0, Zeros(len2), Zeros(len2), Zeros(len2));
           && FrameFits(g, len1 + len2)
           && (i1 != -1 ==> g.weight == g1.weight)
           && (i2 != -1 ==> g.weight == g2.weight)
           && Joined(g.deltaVertices, g1.deltaVertices, g2.deltaVertices)
           && Joined(g.deltaNormals, g1.deltaNormals, g2.deltaNormals)
           && Joined(g.deltaTangents, g1.deltaTangents, g2.deltaTangents)
  {
  }

  lemma NameIndex(bs: seq<BlendShape>, name: string)
    ensures name in BlendShapeNames(bs) <==> BlendShapeIndex(bs, name) != -1
  {
  }

  predicate InEither(bs1: seq<BlendShape>, bs2: seq<BlendShape>, name: string) {
    BlendShapeIndex(bs1, name) != -1 || BlendShapeIndex(bs2, name) != -1
  }

  lemma UnionNamesInEither(bs1: seq<BlendShape>, bs2: seq<BlendShape>)
    ensures forall n :: n in UnionNames(bs1, bs2) ==> InEither(bs1, bs2, n)
  {
    forall n | n in UnionNames(bs1, bs2) ensures InEither(bs1, bs2, n) {
      NameIndex(bs1, n);
      NameIndex(bs2, n);
    }
  }

  function MergedShapes(bs1: seq<BlendShape>, bs2: seq<BlendShape>, names: seq<string>, len1: nat, len2: nat)
    : (shapes: seq<BlendShape>)
    requires forall n :: n in names ==> InEither(bs1, bs2, n)
    ensures |shapes| == |names|
  {
    seq(|names|, j requires 0 <= j < |names| => MergedShape(bs1, bs2, names[j], len1, len2))
  }

  /** The blendshapes of the merged mesh, or the error for the first incompatible name. */
  function MergeBlendShapesSpec(bs1: seq<BlendShape>, bs2: seq<BlendShape>, len1: nat, len2: nat): Result<seq<BlendShape>>
  {
    var names := UnionNames(bs1, bs2);
    var k := FirstIncompatible(bs1, bs2, names);
    if k != -1 then Err(MismatchError(bs1, bs2, names[k]))
    else
      UnionNamesInEither(bs1, bs2);
      Ok(MergedShapes(bs1, bs2, names, len1, len2))
  }

  /** The frame loop for one name: the weight check and the concatenated deltas, frame by frame. */
  method MergeFrames(bs1: seq<BlendShape>, bs2: seq<BlendShape>, name: string, len1: nat, len2: nat)
    returns (r: Result<seq<Frame>>)
    requires InEither(bs1, bs2, name)
    requires BlendShapeIndex(bs1, name) != -1 && BlendShapeIndex(bs2, name) != -1 ==>
               |bs1[BlendShapeIndex(bs1, name)].frames| == |bs2[BlendShapeIndex(bs2, name)].frames|
    ensures r.Ok? <==> Compatible(bs1, bs2, name)
    ensures r.Ok? ==> r.value == MergedShape(bs1, bs2, name, len1, len2).frames
    ensures r.Err? ==> r.error == BlendShapeWeightMismatch(name)
  {
    var i1 := BlendShapeIndex(bs1, name);
    var i2 := BlendShapeIndex(bs2, name);
    var numFrames := if i1 != -1 then |bs1[i1].frames| else |bs2[i2].frames|;
    var frames: seq<Frame> := [];
    var f := 0;
    while f < numFrames
      invariant 0 <= f <= numFrames
      invariant i1 != -1 && i2 != -1 ==> forall g :: 0 <= g < f ==> bs1[i1].frames[g].weight == bs2[i2].frames[g].weight
      invariant |frames| == f
      invariant forall g :: 0 <= g < f ==> frames[g] == MergedFrame(FrameAt(bs1, i1, g), FrameAt(bs2, i2, g), len1, len2)
    {
      if i1 != -1 && i2 != -1 && bs1[i1].frames[f].weight != bs2[i2].frames[f].weight {
        return Err(BlendShapeWeightMismatch(name));
      }
      frames := frames + [MergedFrame(FrameAt(bs1, i1, f), FrameAt(bs2, i2, f), len1, len2)];
      f := f + 1;
    }
    r := Ok(frames);
  }

  predicate AllCompatible(bs1: seq<BlendShape>, bs2: seq<BlendShape>, names: seq<string>) {
    forall j :: 0 <= j < |names| ==> Compatible(bs1, bs2, names[j])
  }

  lemma FirstIncompatibleAt(bs1: seq<BlendShape>, bs2: seq<BlendShape>, names: seq<string>, k: nat)
    requires k < |names| && !Compatible(bs1, bs2, names[k])
    requires AllCompatible(bs1, bs2, names[..k])
    ensures FirstIncompatible(bs1, bs2, names) == k
  {
    assert forall j :: 0 <= j < k ==> names[..k][j] == names[j];
  }

  lemma AllCompatibleStep(bs1: seq<BlendShape>, bs2: seq<BlendShape>, names: seq<string>, k: nat)
    requires k < |names| && Compatible(bs1, bs2, names[k])
    requires AllCompatible(bs1, bs2, names[..k])
    ensures AllCompatible(bs1, bs2, names[..k + 1])
  {
    assert names[..k + 1] == names[..k] + [names[k]];
  }

  lemma MergedShapesStep(bs1: seq<BlendShape>, bs2: seq<BlendShape>, names: seq<string>, k: nat, len1: nat, len2: nat)
    requires k < |names| && forall n :: n in names ==> InEither(bs1, bs2, n)
    ensures InEither(bs1, bs2, names[k])
    ensures MergedShapes(bs1, bs2, names[..k + 1], len1, len2)
            == MergedShapes(bs1, bs2, names[..k], len1, len2) + [MergedShape(bs1, bs2, names[k], len1, len2)]
  {
    assert names[..k + 1] == names[..k] + [names[k]];
  }

  /** One name of the blendshape loop: the frame count check, then the frames. */
  method MergeShape(bs1: seq<BlendShape>, bs2: seq<BlendShape>, name: string, len1: nat, len2: nat)
    returns (r: Result<BlendShape>)
    requires InEither(bs1, bs2, name)
    ensures r.Ok? <==> Compatible(bs1, bs2, name)
    ensures r.Ok? ==> r.value == MergedShape(bs1, bs2, name, len1, len2)
    ensures r.Err? ==> !Compatible(bs1, bs2, name) && r.error == MismatchError(bs1, bs2, name)
  {
    var i1 := BlendShapeIndex(bs1, name);
    var i2 := BlendShapeIndex(bs2, name);
    if i1 != -1 && i2 != -1 && |bs1[i1].frames| != |bs2[i2].frames| {
      return Err(BlendShapeFrameCountMismatch(name));
    }
    var frames := MergeFrames(bs1, bs2, name, len1, len2);
    if frames.Err? {
      return Err(frames.error);
    }
    r := Ok(BlendShape(name, frames.value));
  }

  /** The blendshape loop of `MergeSMRs`, over the names of either mesh. */
  method MergeBlendShapes(bs1: seq<BlendShape>, bs2: seq<BlendShape>, len1: nat, len2: nat)
    returns (r: Result<seq<BlendShape>>)
    ensures r == MergeBlendShapesSpec(bs1, bs2, len1, len2)
  {
    var names := UnionNames(bs1, bs2);
    UnionNamesInEither(bs1, bs2);
    var shapes: seq<BlendShape> := [];
    var k := 0;
    while k < |names|
      invariant 0 <= k <= |names|
      invariant AllCompatible(bs1, bs2, names[..k])
      invariant shapes == MergedShapes(bs1, bs2, names[..k], len1, len2)
    {
      var shape := MergeShape(bs1, bs2, names[k], len1, len2);
      if shape.Err? {
        FirstIncompatibleAt(bs1, bs2, names, k);
        return Err(shape.error);
      }
      AllCompatibleStep(bs1, bs2, names, k);
      MergedShapesStep(bs1, bs2, names, k, len1, len2);
      shapes := shapes + [shape.value];
      k := k + 1;
    }
    assert names[..k] == names;
    assert FirstIncompatible(bs1, bs2, names) == -1;
    r := Ok(shapes);
  }

  // ---------------------------------------------------------------------------------------------
  // Blendshape values on the renderer

  /** Applying (name, value) pairs in order: a later value for a name replaces an earlier one. */
  function LastWins(values: seq<(string, real)>): map<string, real> {
    if values == [] then map[]
    else
      var last := values[|values| - 1];
      LastWins(values[..|values| - 1])[last.0 := last.1]
  }

  /** The names set are exactly the names of the pairs, and a name's value is the one of its last
      pair. */
  lemma {:induction false} LastWinsMeaning(values: seq<(string, real)>)
    ensures forall n :: n in LastWins(values) <==> exists i :: 0 <= i < |values| && values[i].0 == n
    ensures forall i :: 0 <= i < |values| && (forall j :: i < j < |values| ==> values[j].0 != values[i].0) ==>
              values[i].0 in LastWins(values) && LastWins(values)[values[i].0] == values[i].1
  {
    if values != [] {
      var p := values[..|values| - 1];
      LastWinsMeaning(p);
      assert forall i :: 0 <= i < |p| ==> p[i] == values[i];
    }
  }

  /** The `SetBlendShapeWeight` loop over the values of both renderers. */
  method CopyBlendShapeWeights(values: seq<(string, real)>) returns (w: map<string, real>)
    ensures w == LastWins(values)
  {
    w := map[];
    var i := 0;
    while i < |values|
      invariant 0 <= i <= |values| && w == LastWins(values[..i])
    {
      ghost var next := values[..i + 1];
      assert next[..|next| - 1] == values[..i] && next[|next| - 1] == values[i];
      assert LastWins(next) == LastWins(values[..i])[values[i].0 := values[i].1];
      w := w[values[i].0 := values[i].1];
      i := i + 1;
    }
    assert values[..|values|] == values;
  }

  /** `GetBSValues` of the kept renderer, read after its mesh was replaced: every merged name,
      with the renderer's value for the names its old mesh had and zero for the others. */
  function KeptValues(r1: Renderer, bs1: seq<BlendShape>, names: seq<string>): (vs: seq<(string, real)>)
    ensures |vs| == |names| && forall i :: 0 <= i < |names| ==> vs[i].0 == names[i]
  {
    seq(|names|, i requires 0 <= i < |names| =>
      (names[i], if names[i] in BlendShapeNames(bs1) then BlendShapeWeight(r1, names[i]) else 0.0))
  }

  /** `GetBSValues` of the merged-away renderer. */
  function ShapeValues(r: Renderer, bs: seq<BlendShape>): (vs: seq<(string, real)>)
    ensures |vs| == |bs| && forall i :: 0 <= i < |bs| ==> vs[i].0 == bs[i].name
  {
    seq(|bs|, i requires 0 <= i < |bs| => (bs[i].name, BlendShapeWeight(r, bs[i].name)))
  }

  // ---------------------------------------------------------------------------------------------
  // The whole merge

  function MergedMesh(m1: Mesh, m2: Mesh, bindposes: seq<Matrix>, weights: seq<BoneWeight>, shapes: seq<BlendShape>): Mesh
    requires ValidMesh(m1) && ValidMesh(m2)
  {
    Mesh(m1.name, m1.vertices + m2.vertices, MergeChannels(m1, m2), weights, bindposes,
         MergedSubMeshes(m1.subMeshes, m2.subMeshes, |m1.vertices|), shapes)
  }

  /** Both renderers have a mesh, with a bone for every bind pose. */
  predicate HasBones(r1: Renderer, r2: Renderer) {
    && r1.mesh.Some? && r2.mesh.Some?
    && |r1.mesh.value.bindposes| <= |r1.bones| && |r2.mesh.value.bindposes| <= |r2.bones|
  }

  /** The bone table after the first mesh. */
  function Table1(r1: Renderer, r2: Renderer): (o: seq<BonePair>)
    requires HasBones(r1, r2)
    ensures Covers(o, r1.mesh.value.bindposes, r1.bones)
  {
    RegisterCovers([], r1.mesh.value.bindposes, r1.bones, |r1.mesh.value.bindposes|);
    Register([], r1.mesh.value.bindposes, r1.bones, |r1.mesh.value.bindposes|)
  }

  /** The bone table after both meshes. */
  function Table(r1: Renderer, r2: Renderer): (o: seq<BonePair>)
    requires HasBones(r1, r2)
    ensures Table1(r1, r2) <= o && Covers(o, r2.mesh.value.bindposes, r2.bones)
  {
    RegisterCovers(Table1(r1, r2), r2.mesh.value.bindposes, r2.bones, |r2.mesh.value.bindposes|);
    Register(Table1(r1, r2), r2.mesh.value.bindposes, r2.bones, |r2.mesh.value.bindposes|)
  }

  function Weights(r1: Renderer, r2: Renderer): Result<seq<BoneWeight>>
    requires HasBones(r1, r2)
  {
    var m1 := r1.mesh.value;
    var m2 := r2.mesh.value;
    CombineWeights(m1.boneWeights, IndexMap(Table1(r1, r2), m1.bindposes, r1.bones), |m1.vertices|,
                   m2.boneWeights, IndexMap(Table(r1, r2), m2.bindposes, r2.bones), |m2.vertices|)
  }

  function MergedValues(r1: Renderer, bs1: seq<BlendShape>, r2: Renderer, bs2: seq<BlendShape>): map<string, real> {
    LastWins(KeptValues(r1, bs1, UnionNames(bs1, bs2)) + ShapeValues(r2, bs2))
  }

  function Assemble(r1: Renderer, r2: Renderer, weights: seq<BoneWeight>, shapes: seq<BlendShape>): Renderer
    requires ValidRenderer(r1) && ValidRenderer(r2) && HasBones(r1, r2)
  {
    var m1 := r1.mesh.value;
    var m2 := r2.mesh.value;
    r1.(mesh := Some(MergedMesh(m1, m2, BindPosesOf(Table(r1, r2)), weights, shapes)),
        bones := BonesOf(Table(r1, r2)),
        materials := r1.materials + r2.materials,
        blendShapeWeights := MergedValues(r1, m1.blendShapes, r2, m2.blendShapes))
  }

  /** `MergeSMRs` as a value: the kept renderer `r1` after the merged-away renderer `r2`'s mesh,
      bones, materials and blendshape values have been folded in, or the error it stops with. */
  function Merge(r1: Renderer, r2: Renderer): Result<Renderer>
    requires ValidRenderer(r1) && ValidRenderer(r2)
  {
    if r1.mesh.None? || r2.mesh.None? then Err(NullReference)
    else if !HasBones(r1, r2) then Err(IndexOutOfRange)
    else
      match Weights(r1, r2)
      case Err(e) => Err(e)
      case Ok(weights) =>
        match MergeBlendShapesSpec(r1.mesh.value.blendShapes, r2.mesh.value.blendShapes,
                                   |r1.mesh.value.vertices|, |r2.mesh.value.vertices|)
        case Err(e) => Err(e)
        case Ok(shapes) =>
          if r1.settings.rootBone.None? then Err(NullReference)
          else Ok(Assemble(r1, r2, weights, shapes))
  }

  /** A merge that goes through is the assembly of its parts. */
  lemma MergeParts(r1: Renderer, r2: Renderer)
    requires ValidRenderer(r1) && ValidRenderer(r2) && Merge(r1, r2).Ok?
    ensures HasBones(r1, r2) && Weights(r1, r2).Ok?
    ensures MergeBlendShapesSpec(r1.mesh.value.blendShapes, r2.mesh.value.blendShapes,
                                 |r1.mesh.value.vertices|, |r2.mesh.value.vertices|).Ok?
    ensures Merge(r1, r2).value ==
              Assemble(r1, r2, Weights(r1, r2).value,
                       MergeBlendShapesSpec(r1.mesh.value.blendShapes, r2.mesh.value.blendShapes,
                                            |r1.mesh.value.vertices|, |r2.mesh.value.vertices|).value)
  {
  }

  method MergeSMRs(r1: Renderer, r2: Renderer) returns (res: Result<Renderer>)
    requires ValidRenderer(r1) && ValidRenderer(r2)
    ensures res == Merge(r1, r2)
  {
    if r1.mesh.None? || r2.mesh.None? {
      return Err(NullReference);
    }
    var m1 := r1.mesh.value;
    var m2 := r2.mesh.value;
    var map1, order1 := BuildIndices([], m1.bindposes, r1.bones);
    if map1.Err? {
      return Err(map1.error);
    }
    var map2, order := BuildIndices(order1, m2.bindposes, r2.bones);
    if map2.Err? {
      return Err(map2.error);
    }
    assert HasBones(r1, r2) && order1 == Table1(r1, r2) && order == Table(r1, r2);
    var bindposes, bones := FillBoneArrays(order);
    var weights := RemapBoneWeights(m1.boneWeights, map1.value, |m1.vertices|, m2.boneWeights, map2.value, |m2.vertices|);
    if weights.Err? {
      return Err(weights.error);
    }
    var subMeshes := MergeSubMeshes(m1.subMeshes, m2.subMeshes, |m1.vertices|);
    var shapes := MergeBlendShapes(m1.blendShapes, m2.blendShapes, |m1.vertices|, |m2.vertices|);
    if shapes.Err? {
      return Err(shapes.error);
    }
    if r1.settings.rootBone.None? {
      return Err(NullReference);
    }
    var outMesh := Mesh(m1.name, m1.vertices + m2.vertices, MergeChannels(m1, m2), weights.value, bindposes,
                        subMeshes, shapes.value);
    var values := CopyBlendShapeWeights(KeptValues(r1, m1.blendShapes, UnionNames(m1.blendShapes, m2.blendShapes))
                                        + ShapeValues(r2, m2.blendShapes));
    res := Ok(r1.(mesh := Some(outMesh), bones := bones, materials := r1.materials + r2.materials,
                  blendShapeWeights := values));
  }

  /** The merge goes through exactly when both renderers have a mesh, each renderer has a bone
      for every bind pose, every vertex has a bone weight whose four indices are bind poses of its
      mesh, every blendshape both meshes have agrees in frame count and frame weights, and the
      kept renderer has a root bone. */
  lemma MergeSucceedsIff(r1: Renderer, r2: Renderer)
    requires ValidRenderer(r1) && ValidRenderer(r2)
    ensures Merge(r1, r2).Ok? <==>
      && HasBones(r1, r2)
      && |r1.mesh.value.vertices| <= |r1.mesh.value.boneWeights|
      && |r2.mesh.value.vertices| <= |r2.mesh.value.boneWeights|
      && (forall i :: 0 <= i < |r1.mesh.value.vertices| ==>
            IndicesKnown(r1.mesh.value.boneWeights[i], |r1.mesh.value.bindposes|))
      && (forall i :: 0 <= i < |r2.mesh.value.vertices| ==>
            IndicesKnown(r2.mesh.value.boneWeights[i], |r2.mesh.value.bindposes|))
      && AllCompatible(r1.mesh.value.blendShapes, r2.mesh.value.blendShapes,
                       UnionNames(r1.mesh.value.blendShapes, r2.mesh.value.blendShapes))
      && r1.settings.rootBone.Some?
  {
  }

  /** Both influences name the same transform and bind pose wherever the old bone is not null,
      with the same weights. */
  predicate SameInfluence(w: BoneWeight, bones: seq<Option<Transform>>, bp: seq<Matrix>,
                          w': BoneWeight, bones': seq<Option<Transform>>, bp': seq<Matrix>)
  {
    && w'.weight0 == w.weight0 && w'.weight1 == w.weight1 && w'.weight2 == w.weight2 && w'.weight3 == w.weight3
    && SameBone(w.boneIndex0, bones, bp, w'.boneIndex0, bones', bp')
    && SameBone(w.boneIndex1, bones, bp, w'.boneIndex1, bones', bp')
    && SameBone(w.boneIndex2, bones, bp, w'.boneIndex2, bones', bp')
    && SameBone(w.boneIndex3, bones, bp, w'.boneIndex3, bones', bp')
  }

  predicate SameBone(b: int, bones: seq<Option<Transform>>, bp: seq<Matrix>,
                     b': int, bones': seq<Option<Transform>>, bp': seq<Matrix>)
  {
    0 <= b < |bones| && 0 <= b < |bp| && bones[b].Some? ==>
      0 <= b' < |bones'| && 0 <= b' < |bp'| && bones'[b'] == bones[b] && bp'[b'] == bp[b]
  }

  lemma RemappedSame(w: BoneWeight, order: seq<BonePair>, bp: seq<Matrix>, bones: seq<Option<Transform>>, order': seq<BonePair>)
    requires Covers(order, bp, bones) && order <= order'
    requires IndicesKnown(w, |bp|)
    ensures SameInfluence(w, bones, bp, Remapped(w, IndexMap(order, bp, bones)), BonesOf(order'), BindPosesOf(order'))
  {
    var m := IndexMap(order, bp, bones);
    forall b | 0 <= b < |bp| && bones[b].Some?
      ensures m[b] < |order'| && BonesOf(order')[m[b]] == bones[b] && BindPosesOf(order')[m[b]] == bp[b]
    {
      IndexOfPrefix(order, order', (bones[b].value, bp[b]));
    }
  }

  lemma RemapKeepsSkinning(ws: seq<BoneWeight>, order: seq<BonePair>, bp: seq<Matrix>, bones: seq<Option<Transform>>,
                           order': seq<BonePair>, n: nat)
    requires Covers(order, bp, bones) && order <= order'
    requires RemapWeights(ws, IndexMap(order, bp, bones), n).Ok?
    ensures forall i :: 0 <= i < n ==>
              SameInfluence(ws[i], bones, bp, RemapWeights(ws, IndexMap(order, bp, bones), n).value[i],
                            BonesOf(order'), BindPosesOf(order'))
  {
    forall i | 0 <= i < n
      ensures SameInfluence(ws[i], bones, bp, RemapWeights(ws, IndexMap(order, bp, bones), n).value[i],
                            BonesOf(order'), BindPosesOf(order'))
    {
      RemappedSame(ws[i], order, bp, bones, order');
    }
  }

  lemma WeightsKeepSkinning(r1: Renderer, r2: Renderer)
    requires HasBones(r1, r2) && Weights(r1, r2).Ok?
    ensures var m1 := r1.mesh.value; var m2 := r2.mesh.value; var w := Weights(r1, r2).value;
            var o := Table(r1, r2);
            |w| == |m1.vertices| + |m2.vertices| &&
            (forall i :: 0 <= i < |m1.vertices| ==>
               SameInfluence(m1.boneWeights[i], r1.bones, m1.bindposes, w[i], BonesOf(o), BindPosesOf(o))) &&
            (forall i :: 0 <= i < |m2.vertices| ==>
               SameInfluence(m2.boneWeights[i], r2.bones, m2.bindposes, w[|m1.vertices| + i], BonesOf(o), BindPosesOf(o)))
  {
    var m1 := r1.mesh.value;
    var m2 := r2.mesh.value;
    var o1 := Table1(r1, r2);
    var o := Table(r1, r2);
    var a := RemapWeights(m1.boneWeights, IndexMap(o1, m1.bindposes, r1.bones), |m1.vertices|);
    var b := RemapWeights(m2.boneWeights, IndexMap(o, m2.bindposes, r2.bones), |m2.vertices|);
    assert a.Ok? && b.Ok? && Weights(r1, r2).value == a.value + b.value;
    RemapKeepsSkinning(m1.boneWeights, o1, m1.bindposes, r1.bones, o, |m1.vertices|);
    RemapKeepsSkinning(m2.boneWeights, o, m2.bindposes, r2.bones, o, |m2.vertices|);
    assert forall i :: 0 <= i < |m1.vertices| ==> (a.value + b.value)[i] == a.value[i];
    assert forall i :: 0 <= i < |m2.vertices| ==> (a.value + b.value)[|m1.vertices| + i] == b.value[i];
  }

  /** Skinning survives the merge: every vertex of either mesh keeps its four weights, and each
      influence on a non-null bone points at a bone of the merged renderer with the same transform
      and bind pose. */
  lemma MergeKeepsSkinning(r1: Renderer, r2: Renderer)
    requires ValidRenderer(r1) && ValidRenderer(r2) && Merge(r1, r2).Ok?
    ensures r1.mesh.Some? && r2.mesh.Some?
    ensures var r := Merge(r1, r2).value;
            var m1 := r1.mesh.value; var m2 := r2.mesh.value;
            r.mesh.Some? && |r.mesh.value.boneWeights| == |m1.vertices| + |m2.vertices| &&
            (forall i :: 0 <= i < |m1.vertices| ==>
               SameInfluence(m1.boneWeights[i], r1.bones, m1.bindposes,
                             r.mesh.value.boneWeights[i], r.bones, r.mesh.value.bindposes)) &&
            (forall i :: 0 <= i < |m2.vertices| ==>
               SameInfluence(m2.boneWeights[i], r2.bones, m2.bindposes,
                             r.mesh.value.boneWeights[|m1.vertices| + i], r.bones, r.mesh.value.bindposes))
  {
    MergeParts(r1, r2);
    WeightsKeepSkinning(r1, r2);
  }

  /** The merged renderer lists the submeshes of the first mesh, then those of the second moved
      past the first mesh's vertices, and its materials are both material lists one after the
      other; so when each renderer had one material per submesh, every submesh keeps its material. */
  lemma MergeKeepsSlots(r1: Renderer, r2: Renderer)
    requires ValidRenderer(r1) && ValidRenderer(r2) && Merge(r1, r2).Ok?
    requires r1.mesh.Some? && |r1.materials| == |r1.mesh.value.subMeshes|
    requires r2.mesh.Some? && |r2.materials| == |r2.mesh.value.subMeshes|
    ensures var r := Merge(r1, r2).value;
            var s1 := r1.mesh.value.subMeshes; var s2 := r2.mesh.value.subMeshes;
            && r.mesh.Some? && |r.mesh.value.subMeshes| == |r.materials| == |s1| + |s2|
            && (forall j :: 0 <= j < |s1| ==> r.mesh.value.subMeshes[j] == s1[j] && r.materials[j] == r1.materials[j])
            && (forall j :: 0 <= j < |s2| ==>
                  r.mesh.value.subMeshes[|s1| + j] == Shifted(s2[j], |r1.mesh.value.vertices|) &&
                  r.materials[|s1| + j] == r2.materials[j])
  {
    MergeParts(r1, r2);
    var r := Merge(r1, r2).value;
    var s1 := r1.mesh.value.subMeshes;
    var s2 := r2.mesh.value.subMeshes;
    var len1 := |r1.mesh.value.vertices|;
    assert r.mesh.value.subMeshes == MergedSubMeshes(s1, s2, len1);
    assert r.materials == r1.materials + r2.materials;
    MergedSubMeshesAt(s1, s2, len1);
  }

  lemma MergedSubMeshesAt(s1: seq<SubMesh>, s2: seq<SubMesh>, len1: nat)
    ensures forall j :: 0 <= j < |s1| ==> MergedSubMeshes(s1, s2, len1)[j] == s1[j]
    ensures forall j :: 0 <= j < |s2| ==> MergedSubMeshes(s1, s2, len1)[|s1| + j] == Shifted(s2[j], len1)
  {
  }

  lemma LastWinsSecond(kept: seq<(string, real)>, other: seq<(string, real)>, i: nat)
    requires i < |other| && forall j :: i < j < |other| ==> other[j].0 != other[i].0
    ensures other[i].0 in LastWins(kept + other) && LastWins(kept + other)[other[i].0] == other[i].1
  {
    var values := kept + other;
    LastWinsMeaning(values);
    assert values[|kept| + i] == other[i];
    forall j | |kept| + i < j < |values| ensures values[j].0 != other[i].0 {
      assert values[j] == other[j - |kept|];
    }
  }

  lemma LastWinsFirst(kept: seq<(string, real)>, other: seq<(string, real)>, i: nat)
    requires i < |kept| && forall j :: 0 <= j < |other| ==> other[j].0 != kept[i].0
    requires forall j :: i < j < |kept| ==> kept[j].0 != kept[i].0
    ensures kept[i].0 in LastWins(kept + other) && LastWins(kept + other)[kept[i].0] == kept[i].1
  {
    var values := kept + other;
    LastWinsMeaning(values);
    assert values[i] == kept[i];
    forall j | i < j < |values| ensures values[j].0 != kept[i].0 {
      if j < |kept| { assert values[j] == kept[j]; } else { assert values[j] == other[j - |kept|]; }
    }
  }

  lemma LastWinsDomain(kept: seq<(string, real)>, other: seq<(string, real)>, n: string)
    ensures n in LastWins(kept + other) <==>
              (exists i :: 0 <= i < |kept| && kept[i].0 == n) || (exists i :: 0 <= i < |other| && other[i].0 == n)
  {
    var values := kept + other;
    LastWinsMeaning(values);
    if n in LastWins(values) {
      var i :| 0 <= i < |values| && values[i].0 == n;
      if i < |kept| { assert kept[i] == values[i]; } else { assert other[i - |kept|] == values[i]; }
    }
    if i :| 0 <= i < |kept| && kept[i].0 == n { assert values[i] == kept[i]; }
    if i :| 0 <= i < |other| && other[i].0 == n { assert values[|kept| + i] == other[i]; }
  }

  lemma MergedValuesSecond(r1: Renderer, bs1: seq<BlendShape>, r2: Renderer, bs2: seq<BlendShape>)
    requires Distinct(BlendShapeNames(bs2))
    ensures forall n :: n in BlendShapeNames(bs2) ==>
              n in MergedValues(r1, bs1, r2, bs2) && MergedValues(r1, bs1, r2, bs2)[n] == BlendShapeWeight(r2, n)
  {
    var kept := KeptValues(r1, bs1, UnionNames(bs1, bs2));
    var other := ShapeValues(r2, bs2);
    forall n | n in BlendShapeNames(bs2)
      ensures n in MergedValues(r1, bs1, r2, bs2) && MergedValues(r1, bs1, r2, bs2)[n] == BlendShapeWeight(r2, n)
    {
      var i :| 0 <= i < |bs2| && bs2[i].name == n;
      assert forall j :: i < j < |bs2| ==> BlendShapeNames(bs2)[j] != BlendShapeNames(bs2)[i];
      LastWinsSecond(kept, other, i);
    }
  }

  lemma MergedValuesFirst(r1: Renderer, bs1: seq<BlendShape>, r2: Renderer, bs2: seq<BlendShape>)
    ensures forall n :: n in BlendShapeNames(bs1) && n !in BlendShapeNames(bs2) ==>
              n in MergedValues(r1, bs1, r2, bs2) && MergedValues(r1, bs1, r2, bs2)[n] == BlendShapeWeight(r1, n)
  {
    var names := UnionNames(bs1, bs2);
    var kept := KeptValues(r1, bs1, names);
    var other := ShapeValues(r2, bs2);
    forall n | n in BlendShapeNames(bs1) && n !in BlendShapeNames(bs2)
      ensures n in MergedValues(r1, bs1, r2, bs2) && MergedValues(r1, bs1, r2, bs2)[n] == BlendShapeWeight(r1, n)
    {
      var i :| 0 <= i < |names| && names[i] == n;
      assert forall j :: i < j < |names| ==> names[j] != names[i];
      LastWinsFirst(kept, other, i);
    }
  }

  lemma MergedValuesDomain(r1: Renderer, bs1: seq<BlendShape>, r2: Renderer, bs2: seq<BlendShape>)
    ensures forall n :: n in MergedValues(r1, bs1, r2, bs2) <==> n in BlendShapeNames(bs1) || n in BlendShapeNames(bs2)
  {
    var kept := KeptValues(r1, bs1, UnionNames(bs1, bs2));
    var other := ShapeValues(r2, bs2);
    forall n ensures n in MergedValues(r1, bs1, r2, bs2) <==> n in BlendShapeNames(bs1) || n in BlendShapeNames(bs2) {
      LastWinsDomain(kept, other, n);
    }
  }

  lemma DistinctNames(m: Mesh)
    requires ValidMesh(m)
    ensures Distinct(BlendShapeNames(m.blendShapes))
  {
  }

  /** The merged renderer's blendshape values: the merged-away renderer's value for each of its
      mesh's names, the kept renderer's value for the other names, and nothing else. */
  lemma MergeBlendShapeValues(r1: Renderer, r2: Renderer)
    requires ValidRenderer(r1) && ValidRenderer(r2) && Merge(r1, r2).Ok?
    ensures r1.mesh.Some? && r2.mesh.Some?
    ensures var w := Merge(r1, r2).value.blendShapeWeights;
            var n1 := BlendShapeNames(r1.mesh.value.blendShapes);
            var n2 := BlendShapeNames(r2.mesh.value.blendShapes);
            && (forall n :: n in w <==> n in n1 || n in n2)
            && (forall n :: n in n2 ==> n in w && w[n] == BlendShapeWeight(r2, n))
            && (forall n :: n in n1 && n !in n2 ==> n in w && w[n] == BlendShapeWeight(r1, n))
  {
    MergeParts(r1, r2);
    DistinctNames(r2.mesh.value);
    MergedValuesSecond(r1, r1.mesh.value.blendShapes, r2, r2.mesh.value.blendShapes);
    MergedValuesFirst(r1, r1.mesh.value.blendShapes, r2, r2.mesh.value.blendShapes);
    MergedValuesDomain(r1, r1.mesh.value.blendShapes, r2, r2.mesh.value.blendShapes);
  }

  lemma MergedShapesFit(bs1: seq<BlendShape>, bs2: seq<BlendShape>, len1: nat, len2: nat)
    requires forall i, f :: 0 <= i < |bs1| && 0 <= f < |bs1[i].frames| ==> FrameFits(bs1[i].frames[f], len1)
    requires forall i, f :: 0 <= i < |bs2| && 0 <= f < |bs2[i].frames| ==> FrameFits(bs2[i].frames[f], len2)
    requires MergeBlendShapesSpec(bs1, bs2, len1, len2).Ok?
    ensures var shapes := MergeBlendShapesSpec(bs1, bs2, len1, len2).value;
            && (forall i, j :: 0 <= i < j < |shapes| ==> shapes[i].name != shapes[j].name)
            && (forall i, f :: 0 <= i < |shapes| && 0 <= f < |shapes[i].frames| ==>
                  FrameFits(shapes[i].frames[f], len1 + len2))
  {
    var names := UnionNames(bs1, bs2);
    UnionNamesInEither(bs1, bs2);
    var shapes := MergedShapes(bs1, bs2, names, len1, len2);
    assert forall i :: 0 <= i < |shapes| ==> shapes[i].name == names[i];
    forall i, f | 0 <= i < |shapes| && 0 <= f < |shapes[i].frames|
      ensures FrameFits(shapes[i].frames[f], len1 + len2)
    {
      var i1 := BlendShapeIndex(bs1, names[i]);
      var i2 := BlendShapeIndex(bs2, names[i]);
      assert shapes[i].frames[f] == MergedFrame(FrameAt(bs1, i1, f), FrameAt(bs2, i2, f), len1, len2);
    }
  }

  /** A merge that goes through yields a mesh the engine accepts: every channel empty or one
      entry per merged vertex, distinct blendshape names, one delta per merged vertex in every
      frame. */
  lemma MergeKeepsMeshValid(r1: Renderer, r2: Renderer)
    requires ValidRenderer(r1) && ValidRenderer(r2) && Merge(r1, r2).Ok?
    ensures ValidRenderer(Merge(r1, r2).value) && Merge(r1, r2).value.mesh.Some?
    ensures |Merge(r1, r2).value.mesh.value.vertices| == |r1.mesh.value.vertices| + |r2.mesh.value.vertices|
  {
    MergeParts(r1, r2);
    var m1 := r1.mesh.value;
    var m2 := r2.mesh.value;
    MergedShapesFit(m1.blendShapes, m2.blendShapes, |m1.vertices|, |m2.vertices|);
    var chs := MergeChannels(m1, m2);
    assert forall c :: 0 <= c < NumChannels ==>
      chs[c] == MergeChannel(m1.channels[c], m2.channels[c], |m1.vertices|, |m2.vertices|);
  }
}
