/** The "Mesh Deleter" editor window's "Mask Mesh" action: a copy of the skinned mesh keeps, in
    every submesh, the triangles whose UV centre the mask shows darker than one half; the copy is
    saved under the first free `name_masked`, `name_masked1`, `name_masked2`, ... and put on
    the renderer. */
module MaskWindow {
  import opened Base
  import opened Strings
  import opened Unity
  import opened Seqs
  import opened MeshDeleting

  /** Every submesh filtered in delete-white mode, as triangle lists. */
  function MaskedSubMeshes(subs: seq<SubMesh>, uv: seq<Vector>, sample: Sampler): Result<seq<SubMesh>> {
    if subs == [] then Ok([])
    else
      var init :- MaskedSubMeshes(subs[..|subs| - 1], uv, sample);
      var ks :- Masked(subs[|subs| - 1].indices, uv, sample, DeleteWhite);
      Ok(init + [SubMesh(ks, Triangles)])
  }

  /** The masked copy of a mesh; only its submeshes change. */
  function MaskedMesh(m: Mesh, sample: Sampler): Result<Mesh> {
    var subs :- MaskedSubMeshes(m.subMeshes, Uvs(m), sample);
    Ok(m.(subMeshes := subs))
  }

  /** The masking fails exactly when some submesh cannot be read. */
  lemma {:induction false} MaskedSubMeshesOk(subs: seq<SubMesh>, uv: seq<Vector>, sample: Sampler)
    ensures MaskedSubMeshes(subs, uv, sample).Ok? <==> forall k :: 0 <= k < |subs| ==> Fits(subs[k].indices, |uv|)
    ensures MaskedSubMeshes(subs, uv, sample).Err? ==> MaskedSubMeshes(subs, uv, sample).error == IndexOutOfRange
  {
    if subs != [] {
      var p := subs[..|subs| - 1];
      var x := subs[|subs| - 1];
      MaskedSubMeshesOk(p, uv, sample);
      assert forall k :: 0 <= k < |p| ==> p[k] == subs[k];
      assert Masked(x.indices, uv, sample, DeleteWhite).Ok? <==> Fits(x.indices, |uv|);
      if MaskedSubMeshes(p, uv, sample).Ok? && Fits(x.indices, |uv|) {
        assert MaskedSubMeshes(subs, uv, sample).Ok?;
      }
    }
  }

  /** The submesh count is kept and each submesh becomes the filtered triangle list of the one it
      replaces. */
  lemma {:induction false} MaskedSubMeshesAt(subs: seq<SubMesh>, uv: seq<Vector>, sample: Sampler)
    requires forall k :: 0 <= k < |subs| ==> Fits(subs[k].indices, |uv|)
    ensures MaskedSubMeshes(subs, uv, sample).Ok?
    ensures var out := MaskedSubMeshes(subs, uv, sample).value;
      && |out| == |subs|
      && forall k :: 0 <= k < |subs| ==> out[k] == SubMesh(Masked(subs[k].indices, uv, sample, DeleteWhite).value, Triangles)
  {
    if subs != [] {
      var p := subs[..|subs| - 1];
      var x := subs[|subs| - 1];
      assert forall k :: 0 <= k < |p| ==> p[k] == subs[k];
      MaskedSubMeshesAt(p, uv, sample);
      var out := MaskedSubMeshes(subs, uv, sample).value;
      var init := MaskedSubMeshes(p, uv, sample).value;
      assert out == init + [SubMesh(Masked(x.indices, uv, sample, DeleteWhite).value, Triangles)];
      assert forall k :: 0 <= k < |p| ==> p[k] == subs[k] && out[k] == init[k];
    }
  }

  /** What `MaskedMesh` does to each submesh, and that masking the masked mesh again changes
      nothing. */
  lemma MaskedMeshMeaning(m: Mesh, sample: Sampler)
    ensures MaskedMesh(m, sample).Ok? <==> forall k :: 0 <= k < |m.subMeshes| ==> Fits(m.subMeshes[k].indices, |Uvs(m)|)
    ensures MaskedMesh(m, sample).Err? ==> MaskedMesh(m, sample).error == IndexOutOfRange
    ensures MaskedMesh(m, sample).Ok? ==>
      var m' := MaskedMesh(m, sample).value;
      && m' == m.(subMeshes := m'.subMeshes)
      && |m'.subMeshes| == |m.subMeshes|
      && (forall k :: 0 <= k < |m.subMeshes| ==>
            && m'.subMeshes[k].topology == Triangles
            && Fits(m.subMeshes[k].indices, |Uvs(m)|)
            && Fits(m'.subMeshes[k].indices, |Uvs(m)|)
            && TrianglesOf(m'.subMeshes[k].indices)
               == Filter(TrianglesOf(m.subMeshes[k].indices), SurvivalTest(Uvs(m), sample, DeleteWhite)))
      && MaskedMesh(m', sample) == MaskedMesh(m, sample)
  {
    var uv := Uvs(m);
    MaskedSubMeshesOk(m.subMeshes, uv, sample);
    if MaskedMesh(m, sample).Ok? {
      MaskedSubMeshesAt(m.subMeshes, uv, sample);
      var m' := MaskedMesh(m, sample).value;
      var out := m'.subMeshes;
      forall k | 0 <= k < |m.subMeshes|
        ensures Fits(out[k].indices, |uv|)
        ensures Masked(out[k].indices, uv, sample, DeleteWhite) == Ok(out[k].indices)
        ensures TrianglesOf(out[k].indices) == Filter(TrianglesOf(m.subMeshes[k].indices), SurvivalTest(uv, sample, DeleteWhite))
      {
        MaskedMeaning(m.subMeshes[k].indices, uv, sample, DeleteWhite);
      }
      assert Uvs(m') == uv;
      MaskedSubMeshesOk(out, uv, sample);
      MaskedSubMeshesAt(out, uv, sample);
      var again := MaskedSubMeshes(out, uv, sample).value;
      assert forall k :: 0 <= k < |out| ==> again[k] == out[k];
      assert again == out;
      assert m'.(subMeshes := out) == m';
    }
  }

  /** The submesh loop of the action; the mesh copy is updated one submesh at a time. */
  method MaskAllSubMeshes(m: Mesh, sample: Sampler) returns (r: Result<Mesh>)
    ensures r == MaskedMesh(m, sample)
  {
    var mesh := m;
    var uv := Uvs(m);
    for sm := 0 to |m.subMeshes|
      invariant |mesh.subMeshes| == |m.subMeshes|
      invariant mesh == m.(subMeshes := mesh.subMeshes)
      invariant mesh.subMeshes[sm..] == m.subMeshes[sm..]
      invariant MaskedSubMeshes(m.subMeshes[..sm], uv, sample) == Ok(mesh.subMeshes[..sm])
    {
      assert mesh.subMeshes[sm] == m.subMeshes[sm] by {
        assert mesh.subMeshes[sm..][0] == m.subMeshes[sm..][0];
      }
      var res := MaskTriangles(mesh.subMeshes[sm].indices, uv, sample, DeleteWhite);
      if res.Err? {
        MaskedSubMeshesOk(m.subMeshes, uv, sample);
        MaskedMeaning(m.subMeshes[sm].indices, uv, sample, DeleteWhite);
        return Err(IndexOutOfRange);
      }
      var before := mesh.subMeshes;
      mesh := mesh.(subMeshes := mesh.subMeshes[sm := SubMesh(res.value, Triangles)]);
      assert m.subMeshes[..sm + 1][..sm] == m.subMeshes[..sm];
      assert mesh.subMeshes[..sm + 1] == before[..sm] + [SubMesh(res.value, Triangles)];
      assert mesh.subMeshes[sm + 1..] == before[sm + 1..];
    }
    assert m.subMeshes[..|m.subMeshes|] == m.subMeshes;
    assert mesh.subMeshes[..|m.subMeshes|] == mesh.subMeshes;
    return Ok(mesh);
  }

  /** The `k`-th save path tried: `name_masked`, then `name_masked1`, `name_masked2`, ... */
  function Candidate(saveLocation: string, name: string, k: nat): string {
    saveLocation + "/" + name + "_masked" + (if k == 0 then "" else NatToString(k))
  }

  function AssetFile(saveLocation: string, name: string, k: nat): string {
    Candidate(saveLocation, name, k) + ".asset"
  }

  /** Different candidates name different files. */
  lemma AssetFileInjective(saveLocation: string, name: string, j: nat, k: nat)
    ensures AssetFile(saveLocation, name, j) == AssetFile(saveLocation, name, k) ==> j == k
  {
    var p := saveLocation + "/" + name + "_masked";
    var sj := if j == 0 then "" else NatToString(j);
    var sk := if k == 0 then "" else NatToString(k);
    assert AssetFile(saveLocation, name, j) == p + sj + ".asset";
    assert AssetFile(saveLocation, name, k) == p + sk + ".asset";
    if AssetFile(saveLocation, name, j) == AssetFile(saveLocation, name, k) {
      assert |sj| == |sk|;
      assert (p + sj + ".asset")[|p|..|p| + |sj|] == sj;
      assert (p + sk + ".asset")[|p|..|p| + |sk|] == sk;
      assert sj == sk;
      if j != 0 && k != 0 {
        DigitsValueOfNatToString(j);
        DigitsValueOfNatToString(k);
      }
    }
  }

  /** The files tried before the `n`-th candidate. */
  function Tried(saveLocation: string, name: string, n: nat): set<string> {
    if n == 0 then {} else Tried(saveLocation, name, n - 1) + {AssetFile(saveLocation, name, n - 1)}
  }

  lemma {:induction false} NotTried(saveLocation: string, name: string, n: nat, k: nat)
    requires n <= k
    ensures AssetFile(saveLocation, name, k) !in Tried(saveLocation, name, n)
  {
    if n > 0 {
      NotTried(saveLocation, name, n - 1, k);
      AssetFileInjective(saveLocation, name, n - 1, k);
    }
  }

  /** The save-path loop: the first candidate whose file does not exist yet. Since each step
      tries a file not tried before, the loop ends for any finite set of existing files. */
  method ChooseSavePath(saveLocation: string, name: string, existing: set<string>)
    returns (path: string, suffix: nat)
    ensures path == Candidate(saveLocation, name, suffix)
    ensures path + ".asset" !in existing
    ensures forall j :: 0 <= j < suffix ==> AssetFile(saveLocation, name, j) in existing
  {
    path := saveLocation + "/" + name + "_masked";
    assert path == Candidate(saveLocation, name, 0);
    var counter := 1;
    while path + ".asset" in existing
      invariant counter >= 1
      invariant path == Candidate(saveLocation, name, counter - 1)
      invariant forall j :: 0 <= j < counter - 1 ==> AssetFile(saveLocation, name, j) in existing
      invariant Tried(saveLocation, name, counter - 1) <= existing
      decreases existing - Tried(saveLocation, name, counter - 1)
    {
      var file := AssetFile(saveLocation, name, counter - 1);
      NotTried(saveLocation, name, counter - 1, counter - 1);
      assert file in existing - Tried(saveLocation, name, counter - 1);
      assert file !in existing - Tried(saveLocation, name, counter);
      path := saveLocation + "/" + name + "_masked" + NatToString(counter);
      counter := counter + 1;
    }
    suffix := counter - 1;
  }

  /** What the action leaves: the renderer with the masked mesh, and the asset file written. */
  datatype Saved = Saved(renderer: Renderer, assetFile: string)

  /** The action: nothing without a renderer, a mask, or a readable mask; a renderer without a
      mesh cannot be copied; otherwise the masked copy is saved as a new file and set on the
      renderer. */
  method MaskMesh(smr: Option<Renderer>, mask: Option<Mask>, saveLocation: string, existing: set<string>)
    returns (res: Result<Option<Saved>>)
    requires smr.Some? ==> smr.value.kind == SkinnedMeshRendererKind
    ensures smr.None? || mask.None? || !mask.value.readable ==> res == Ok(None)
    ensures smr.Some? && mask.Some? && mask.value.readable ==>
      && (smr.value.mesh.None? ==> res == Err(NullReference))
      && (smr.value.mesh.Some? && MaskedMesh(smr.value.mesh.value, mask.value.sample).Err? ==> res == Err(IndexOutOfRange))
      && (smr.value.mesh.Some? && MaskedMesh(smr.value.mesh.value, mask.value.sample).Ok? ==>
            && res.Ok? && res.value.Some?
            && res.value.value.renderer == smr.value.(mesh := Some(MaskedMesh(smr.value.mesh.value, mask.value.sample).value))
            && res.value.value.assetFile !in existing
            && exists k: nat :: res.value.value.assetFile == AssetFile(saveLocation, smr.value.name, k)
                             && forall j :: 0 <= j < k ==> AssetFile(saveLocation, smr.value.name, j) in existing)
  {
    if smr.None? || mask.None? {
      return Ok(None);
    }
    if !mask.value.readable {
      return Ok(None);
    }
    if smr.value.mesh.None? {
      return Err(NullReference);
    }
    var masked := MaskAllSubMeshes(smr.value.mesh.value, mask.value.sample);
    if masked.Err? {
      MaskedMeshMeaning(smr.value.mesh.value, mask.value.sample);
      return Err(IndexOutOfRange);
    }
    var path, suffix := ChooseSavePath(saveLocation, smr.value.name, existing);
    assert path + ".asset" == AssetFile(saveLocation, smr.value.name, suffix);
    return Ok(Some(Saved(smr.value.(mesh := Some(masked.value)), path + ".asset")));
  }
}
