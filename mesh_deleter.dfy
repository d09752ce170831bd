/** The mesh deleter feature: the triangles of one submesh whose UV centre falls on the deleted
    side of a mask are removed (`MeshDeleterBuilder.Apply`), and the renderer mesh accessors it
    uses (`RendererExtensions.GetMesh`, `SetMesh`). */
module MeshDeleting {
  import opened Base
  import opened Unity
  import opened Seqs
  import opened Platforms

  /** Where the mask's grayscale at a triangle's UV centre lies relative to one half. */
  datatype Shade = Darker | Half | Lighter

  /** The mask sampled at the centre of the three UVs of a triangle and classified: the
      centroid, `GetPixelBilinear` and `grayscale` are floating point and not modelled. */
  type Sampler = (Vector, Vector, Vector) -> Shade

  datatype DeleterMode = DeleteWhite | DeleteBlack

  /** A mask texture: whether it is marked readable, and its sampling. */
  datatype Mask = Mask(readable: bool, sample: Sampler)

  /** The feature's settings. */
  datatype MeshDeleter = MeshDeleter(target: Option<Renderer>, subMesh: int, mask: Option<Mask>,
                                     mode: DeleterMode, platformSelection: PlatformSelection)

  /** The keep test of one triangle. A triangle exactly at one half is dropped in both modes. */
  function KeepShade(s: Shade, mode: DeleterMode): (keep: bool)
    ensures s == Half ==> !keep
    ensures mode == DeleteWhite ==> (keep <==> s == Darker)
    ensures mode == DeleteBlack ==> (keep <==> s == Lighter)
  {
    (s == Darker && mode == DeleteWhite) || (s == Lighter && mode == DeleteBlack)
  }

  /** `mesh.uv`: the first UV channel. */
  function Uvs(m: Mesh): seq<Vector> {
    if |m.channels| > UvChannel then m.channels[UvChannel] else []
  }

  datatype Triangle = Triangle(i0: int, i1: int, i2: int)

  /** An index list read three at a time. */
  function TrianglesOf(ind: seq<int>): (ts: seq<Triangle>)
    requires |ind| % 3 == 0
    ensures 3 * |ts| == |ind|
    decreases |ind|
  {
    if ind == [] then []
    else TrianglesOf(ind[..|ind| - 3]) + [Triangle(ind[|ind| - 3], ind[|ind| - 2], ind[|ind| - 1])]
  }

  /** The index list of a list of triangles. */
  function IndicesOf(ts: seq<Triangle>): (ind: seq<int>)
    ensures |ind| == 3 * |ts|
  {
    if ts == [] then []
    else var t := ts[|ts| - 1]; IndicesOf(ts[..|ts| - 1]) + [t.i0, t.i1, t.i2]
  }

  lemma {:induction false} IndicesOfTrianglesOf(ind: seq<int>)
    requires |ind| % 3 == 0
    ensures IndicesOf(TrianglesOf(ind)) == ind
    decreases |ind|
  {
    if ind != [] {
      var p := ind[..|ind| - 3];
      IndicesOfTrianglesOf(p);
      var ts := TrianglesOf(ind);
      assert ts[..|ts| - 1] == TrianglesOf(p);
      assert ind == p + [ind[|ind| - 3], ind[|ind| - 2], ind[|ind| - 1]];
    }
  }

  lemma {:induction false} TrianglesOfIndicesOf(ts: seq<Triangle>)
    ensures TrianglesOf(IndicesOf(ts)) == ts
  {
    if ts != [] {
      var p := ts[..|ts| - 1];
      TrianglesOfIndicesOf(p);
      var ind := IndicesOf(ts);
      assert ind[..|ind| - 3] == IndicesOf(p);
      assert ts == p + [ts[|ts| - 1]];
    }
  }

  predicate InRange(t: Triangle, n: int) {
    0 <= t.i0 < n && 0 <= t.i1 < n && 0 <= t.i2 < n
  }

  /** Whether a triangle stays. */
  predicate Survives(t: Triangle, uv: seq<Vector>, sample: Sampler, mode: DeleterMode) {
    InRange(t, |uv|) && KeepShade(sample(uv[t.i0], uv[t.i1], uv[t.i2]), mode)
  }

  function SurvivalTest(uv: seq<Vector>, sample: Sampler, mode: DeleterMode): Triangle -> bool {
    t => Survives(t, uv, sample, mode)
  }

  /** Every triple of the list can be read: whole triangles, each index within the UVs. */
  predicate Fits(ind: seq<int>, n: int) {
    |ind| % 3 == 0 && forall k :: 0 <= k < |ind| ==> 0 <= ind[k] < n
  }

  /** The filtered index list of one submesh; reading past the list or past the UVs throws. */
  function Masked(ind: seq<int>, uv: seq<Vector>, sample: Sampler, mode: DeleterMode): Result<seq<int>> {
    if Fits(ind, |uv|) then Ok(IndicesOf(Filter(TrianglesOf(ind), SurvivalTest(uv, sample, mode))))
    else Err(IndexOutOfRange)
  }

  /** The filtered list read as triangles is exactly the input's surviving triangles, in their
      order: whole triples, no longer than the input, none at one half, and a second pass with the
      same mask and mode keeps everything. A list that cannot be read throws. */
  lemma MaskedMeaning(ind: seq<int>, uv: seq<Vector>, sample: Sampler, mode: DeleterMode)
    ensures Masked(ind, uv, sample, mode).Err? <==> !Fits(ind, |uv|)
    ensures Masked(ind, uv, sample, mode).Err? ==> Masked(ind, uv, sample, mode).error == IndexOutOfRange
    ensures Fits(ind, |uv|) ==>
      var out := Masked(ind, uv, sample, mode).value;
      && Fits(out, |uv|)
      && |out| <= |ind|
      && TrianglesOf(out) == Filter(TrianglesOf(ind), SurvivalTest(uv, sample, mode))
      && (forall t :: t in TrianglesOf(out) <==> t in TrianglesOf(ind) && Survives(t, uv, sample, mode))
      && (forall t :: t in TrianglesOf(out) ==> InRange(t, |uv|) && sample(uv[t.i0], uv[t.i1], uv[t.i2]) != Half)
      && Masked(out, uv, sample, mode) == Ok(out)
  {
    if Fits(ind, |uv|) {
      var test := SurvivalTest(uv, sample, mode);
      var kept := Filter(TrianglesOf(ind), test);
      var out := IndicesOf(kept);
      TrianglesOfIndicesOf(kept);
      FilterMembers(TrianglesOf(ind), test);
      assert forall t :: t in kept ==> InRange(t, |uv|);
      KeptFits(kept, |uv|);
      FilterTwice(TrianglesOf(ind), test);
    }
  }

  /** The indices of in-range triangles are in range. */
  lemma {:induction false} KeptFits(ts: seq<Triangle>, n: int)
    requires forall t :: t in ts ==> InRange(t, n)
    ensures Fits(IndicesOf(ts), n)
  {
    if ts != [] {
      var p := ts[..|ts| - 1];
      assert forall t :: t in p ==> t in ts;
      KeptFits(p, n);
      assert InRange(ts[|ts| - 1], n);
      var ind := IndicesOf(ts);
      assert ind[..|ind| - 3] == IndicesOf(p);
      forall k | 0 <= k < |ind| ensures 0 <= ind[k] < n {
        if k < |ind| - 3 {
          assert ind[k] == IndicesOf(p)[k];
        }
      }
    }
  }

  /** One step of the loop: the triangle at `i` is appended when it survives. */
  lemma MaskStep(ind: seq<int>, i: int, keep: Triangle -> bool)
    requires 0 <= i && i + 3 <= |ind| && i % 3 == 0
    ensures var t := Triangle(ind[i], ind[i + 1], ind[i + 2]);
      IndicesOf(Filter(TrianglesOf(ind[..i + 3]), keep))
      == IndicesOf(Filter(TrianglesOf(ind[..i]), keep)) + (if keep(t) then [t.i0, t.i1, t.i2] else [])
  {
    var t := Triangle(ind[i], ind[i + 1], ind[i + 2]);
    var s := ind[..i + 3];
    assert s[..|s| - 3] == ind[..i];
    var a := TrianglesOf(ind[..i]);
    assert TrianglesOf(s) == a + [t];
    assert (a + [t])[..|a + [t]| - 1] == a;
    var f := Filter(a, keep);
    if keep(t) {
      assert Filter(a + [t], keep) == f + [t];
      assert (f + [t])[..|f + [t]| - 1] == f;
    } else {
      assert Filter(a + [t], keep) == f;
    }
  }

  /** A list that ends inside a triple cannot be read. */
  lemma ShortTail(ind: seq<int>, i: int, n: int)
    requires 0 <= i < |ind| <= i + 2 && i % 3 == 0
    ensures !Fits(ind, n)
  {
  }

  /** A triangle with an index outside the UVs cannot be read. */
  lemma BadTriangle(ind: seq<int>, i: int, n: int)
    requires 0 <= i && i + 2 < |ind|
    requires !InRange(Triangle(ind[i], ind[i + 1], ind[i + 2]), n)
    ensures !Fits(ind, n)
  {
    if !(0 <= ind[i] < n) {
      assert !(0 <= ind[i] < n);
    } else if !(0 <= ind[i + 1] < n) {
      assert !(0 <= ind[i + 1] < n);
    } else {
      assert !(0 <= ind[i + 2] < n);
    }
  }

  lemma FitsStep(ind: seq<int>, i: int, n: int)
    requires 0 <= i && i + 3 <= |ind| && i % 3 == 0
    requires Fits(ind[..i], n)
    requires 0 <= ind[i] < n && 0 <= ind[i + 1] < n && 0 <= ind[i + 2] < n
    ensures Fits(ind[..i + 3], n)
  {
    assert forall k :: 0 <= k < i ==> ind[..i + 3][k] == ind[..i][k];
  }

  /** The stride-3 loop of `Apply` over the submesh's triangle list. */
  method MaskTriangles(indices: seq<int>, uv: seq<Vector>, sample: Sampler, mode: DeleterMode)
    returns (r: Result<seq<int>>)
    ensures r == Masked(indices, uv, sample, mode)
  {
    var newIndices: seq<int> := [];
    var i := 0;
    while i < |indices|
      invariant 0 <= i <= |indices| && i % 3 == 0
      invariant Fits(indices[..i], |uv|)
      invariant newIndices == IndicesOf(Filter(TrianglesOf(indices[..i]), SurvivalTest(uv, sample, mode)))
    {
      if i + 2 >= |indices| {
        ShortTail(indices, i, |uv|);
        return Err(IndexOutOfRange);
      }
      var i0 := indices[i];
      var i1 := indices[i + 1];
      var i2 := indices[i + 2];
      if !(0 <= i0 < |uv| && 0 <= i1 < |uv| && 0 <= i2 < |uv|) {
        BadTriangle(indices, i, |uv|);
        return Err(IndexOutOfRange);
      }
      MaskStep(indices, i, SurvivalTest(uv, sample, mode));
      FitsStep(indices, i, |uv|);
      assert SurvivalTest(uv, sample, mode)(Triangle(i0, i1, i2)) == KeepShade(sample(uv[i0], uv[i1], uv[i2]), mode);
      if KeepShade(sample(uv[i0], uv[i1], uv[i2]), mode) {
        newIndices := newIndices + [i0, i1, i2];
      }
      assert newIndices == IndicesOf(Filter(TrianglesOf(indices[..i + 3]), SurvivalTest(uv, sample, mode)));
      i := i + 3;
    }
    assert indices[..i] == indices;
    return Ok(newIndices);
  }

  /** `GetMesh`: the mesh filter's, skinned renderer's or particle renderer's mesh; any other
      renderer type throws. */
  function GetMesh(r: Renderer): (m: Result<Option<Mesh>>)
    ensures m.Err? <==> r.kind == OtherRendererKind
    ensures m.Err? ==> m.error == UnsupportedRendererType
    ensures m.Ok? ==> m.value == r.mesh
  {
    match r.kind
    case MeshRendererKind => Ok(r.mesh)
    case SkinnedMeshRendererKind => Ok(r.mesh)
    case ParticleSystemRendererKind => Ok(r.mesh)
    case OtherRendererKind => Err(UnsupportedRendererType)
  }

  /** `SetMesh`: the same three renderer types, with the mesh replaced. */
  function SetMesh(r: Renderer, m: Option<Mesh>): (res: Result<Renderer>)
    ensures res.Err? <==> r.kind == OtherRendererKind
    ensures res.Err? ==> res.error == UnsupportedRendererType
    ensures res.Ok? ==> res.value == r.(mesh := m)
  {
    match r.kind
    case MeshRendererKind => Ok(r.(mesh := m))
    case SkinnedMeshRendererKind => Ok(r.(mesh := m))
    case ParticleSystemRendererKind => Ok(r.(mesh := m))
    case OtherRendererKind => Err(UnsupportedRendererType)
  }

  /** Reading back a mesh just set gives it, and setting the mesh just read changes nothing. */
  lemma GetSetMesh(r: Renderer, m: Option<Mesh>)
    ensures SetMesh(r, m).Ok? ==> GetMesh(SetMesh(r, m).value) == Ok(m)
    ensures GetMesh(r).Ok? ==> SetMesh(r, GetMesh(r).value) == Ok(r)
  {
  }

  /** The target after the build: `None` stays `None`. */
  function Applied(d: MeshDeleter, isQuestBuild: bool): Result<Option<Renderer>> {
    if d.target.None? then Ok(None)
    else if !Applies(d.platformSelection, isQuestBuild) then Ok(d.target)
    else
      var r := d.target.value;
      var mesh :- GetMesh(r);
      if d.mask.None? then Ok(d.target)
      else if !d.mask.value.readable then Err(MaskNotReadable)
      else if mesh.None? then Err(TargetHasNoMesh)
      else if d.subMesh >= |mesh.value.subMeshes| then Err(SubMeshOutOfBounds)
      else if d.subMesh < 0 then Err(IndexOutOfRange)
      else
        var m := mesh.value;
        var ks :- Masked(m.subMeshes[d.subMesh].indices, Uvs(m), d.mask.value.sample, d.mode);
        match SetMesh(r, Some(WithSubMesh(m, d.subMesh, ks)))
        case Ok(r') => Ok(Some(r'))
        case Err(e) => Err(e)
  }

  /** `Apply`. */
  method Apply(d: MeshDeleter, isQuestBuild: bool) returns (res: Result<Option<Renderer>>)
    ensures res == Applied(d, isQuestBuild)
  {
    if d.target.None? {
      return Ok(None);
    }
    if !Applies(d.platformSelection, isQuestBuild) {
      return Ok(d.target);
    }
    var target := d.target.value;
    var mesh :- GetMesh(target);
    if d.mask.None? {
      return Ok(d.target);
    }
    if !d.mask.value.readable {
      return Err(MaskNotReadable);
    }
    if mesh.None? {
      return Err(TargetHasNoMesh);
    }
    if d.subMesh >= |mesh.value.subMeshes| {
      return Err(SubMeshOutOfBounds);
    }
    if d.subMesh < 0 {
      return Err(IndexOutOfRange);
    }
    var m := mesh.value;
    var newIndices :- MaskTriangles(m.subMeshes[d.subMesh].indices, Uvs(m), d.mask.value.sample, d.mode);
    m := m.(subMeshes := m.subMeshes[d.subMesh := SubMesh(newIndices, Triangles)]);
    match SetMesh(target, Some(m))
    case Ok(r) => return Ok(Some(r));
    case Err(e) => return Err(e);
  }

  /** The settings under which the filter runs: a target on the selected platform with a
      readable mask and a mesh. */
  predicate Filters(d: MeshDeleter, isQuestBuild: bool) {
    && d.target.Some? && Applies(d.platformSelection, isQuestBuild)
    && d.target.value.kind != OtherRendererKind
    && d.mask.Some? && d.mask.value.readable && d.target.value.mesh.Some?
  }

  /** Nothing changes without a target, off the selected platform, or without a mask; an
      unsupported renderer, an unreadable mask, a missing mesh and a submesh past the last one
      each fail the build. */
  lemma ApplySanityChecks(d: MeshDeleter, isQuestBuild: bool)
    ensures d.target.None? ==> Applied(d, isQuestBuild) == Ok(None)
    ensures d.target.Some? && !Applies(d.platformSelection, isQuestBuild) ==> Applied(d, isQuestBuild) == Ok(d.target)
    ensures d.target.Some? && Applies(d.platformSelection, isQuestBuild) ==>
      var r := d.target.value;
      && (r.kind == OtherRendererKind ==> Applied(d, isQuestBuild) == Err(UnsupportedRendererType))
      && (r.kind != OtherRendererKind && d.mask.None? ==> Applied(d, isQuestBuild) == Ok(d.target))
      && (r.kind != OtherRendererKind && d.mask.Some? && !d.mask.value.readable ==>
            Applied(d, isQuestBuild) == Err(MaskNotReadable))
      && (r.kind != OtherRendererKind && d.mask.Some? && d.mask.value.readable && r.mesh.None? ==>
            Applied(d, isQuestBuild) == Err(TargetHasNoMesh))
      && (Filters(d, isQuestBuild) && d.subMesh >= |r.mesh.value.subMeshes| ==>
            Applied(d, isQuestBuild) == Err(SubMeshOutOfBounds))
  {
  }

  /** The mesh the filter produces. */
  function WithSubMesh(m: Mesh, k: nat, ks: seq<int>): Mesh
    requires k < |m.subMeshes|
  {
    m.(subMeshes := m.subMeshes[k := SubMesh(ks, Triangles)])
  }

  /** When the filter runs on an existing submesh, the result is the submesh's filtered list
      set back on the renderer. */
  lemma AppliedFilters(d: MeshDeleter, isQuestBuild: bool)
    requires Filters(d, isQuestBuild)
    requires 0 <= d.subMesh < |d.target.value.mesh.value.subMeshes|
    ensures var r := d.target.value;
      var m := r.mesh.value;
      Applied(d, isQuestBuild) ==
        match Masked(m.subMeshes[d.subMesh].indices, Uvs(m), d.mask.value.sample, d.mode)
        case Ok(ks) => Ok(Some(r.(mesh := Some(WithSubMesh(m, d.subMesh, ks)))))
        case Err(e) => Err(e)
  {
  }

  /** When the filter runs on an existing submesh, only that submesh's triangle list changes, to
      the input's surviving triangles, and a list that cannot be read throws. */
  lemma ApplyEffect(d: MeshDeleter, isQuestBuild: bool)
    requires Filters(d, isQuestBuild)
    requires 0 <= d.subMesh < |d.target.value.mesh.value.subMeshes|
    ensures var r := d.target.value;
      var m := r.mesh.value;
      var ind := m.subMeshes[d.subMesh].indices;
      var res := Applied(d, isQuestBuild);
      && (res.Err? <==> !Fits(ind, |Uvs(m)|))
      && (res.Ok? ==>
            && res.value.Some?
            && var m' := res.value.value.mesh.value;
            && res.value.value == r.(mesh := Some(m'))
            && m' == m.(subMeshes := m'.subMeshes)
            && |m'.subMeshes| == |m.subMeshes|
            && (forall k :: 0 <= k < |m.subMeshes| && k != d.subMesh ==> m'.subMeshes[k] == m.subMeshes[k])
            && m'.subMeshes[d.subMesh].topology == Triangles
            && TrianglesOf(m'.subMeshes[d.subMesh].indices)
               == Filter(TrianglesOf(ind), SurvivalTest(Uvs(m), d.mask.value.sample, d.mode)))
  {
    var r := d.target.value;
    var m := r.mesh.value;
    MaskedMeaning(m.subMeshes[d.subMesh].indices, Uvs(m), d.mask.value.sample, d.mode);
    AppliedFilters(d, isQuestBuild);
  }

  /** Running the feature again on its own result changes nothing. */
  lemma ApplyTwice(d: MeshDeleter, isQuestBuild: bool)
    requires Applied(d, isQuestBuild).Ok?
    ensures Applied(d.(target := Applied(d, isQuestBuild).value), isQuestBuild) == Applied(d, isQuestBuild)
  {
    if Filters(d, isQuestBuild) && 0 <= d.subMesh < |d.target.value.mesh.value.subMeshes| {
      FilterTwiceApplied(d, isQuestBuild);
    } else {
      assert Applied(d, isQuestBuild).value == d.target;
      assert d.(target := d.target) == d;
    }
  }

  lemma FilterTwiceApplied(d: MeshDeleter, isQuestBuild: bool)
    requires Filters(d, isQuestBuild)
    requires 0 <= d.subMesh < |d.target.value.mesh.value.subMeshes|
    requires Applied(d, isQuestBuild).Ok?
    ensures Applied(d.(target := Applied(d, isQuestBuild).value), isQuestBuild) == Applied(d, isQuestBuild)
  {
    var r := d.target.value;
    var m := r.mesh.value;
    var uv := Uvs(m);
    var ind := m.subMeshes[d.subMesh].indices;
    AppliedFilters(d, isQuestBuild);
    var ks := Masked(ind, uv, d.mask.value.sample, d.mode).value;
    MaskedTwice(ind, uv, d.mask.value.sample, d.mode);
    var m' := WithSubMesh(m, d.subMesh, ks);
    var d' := d.(target := Some(r.(mesh := Some(m'))));
    assert Uvs(m') == uv && m'.subMeshes[d.subMesh].indices == ks;
    AppliedFilters(d', isQuestBuild);
    assert WithSubMesh(m', d.subMesh, ks) == m';
  }

  lemma MaskedTwice(ind: seq<int>, uv: seq<Vector>, sample: Sampler, mode: DeleterMode)
    requires Masked(ind, uv, sample, mode).Ok?
    ensures Masked(Masked(ind, uv, sample, mode).value, uv, sample, mode) == Masked(ind, uv, sample, mode)
  {
    MaskedMeaning(ind, uv, sample, mode);
  }
}
