/** Removing vertex colours from the meshes of mesh and skinned-mesh renderers
    (`RemoveVertexColorsFromMesh`, `RemoveVertexColors`), converting each mesh once. */
module QuestVertexColors {
  import opened Base
  import opened Unity

  predicate HasColors(m: Mesh) {
    |m.channels| > ColorsChannel && |m.channels[ColorsChannel]| > 0
  }

  /** The mesh with an empty colour channel and everything else as it was. */
  function StripColors(m: Mesh): (r: Mesh)
    ensures !HasColors(r)
    ensures |r.channels| == |m.channels|
    ensures forall c :: 0 <= c < |m.channels| && c != ColorsChannel ==> r.channels[c] == m.channels[c]
    ensures r.(channels := m.channels) == m
    ensures !HasColors(m) ==> r == m
  {
    if |m.channels| > ColorsChannel then m.(channels := m.channels[ColorsChannel := []]) else m
  }

  lemma StripColorsIdempotent(m: Mesh)
    ensures StripColors(StripColors(m)) == StripColors(m)
  {
  }

  /** An empty colour channel is allowed, so stripping keeps a mesh well formed. */
  lemma StripColorsValid(m: Mesh)
    requires ValidMesh(m)
    ensures ValidMesh(StripColors(m))
  {
    var r := StripColors(m);
    assert r.vertices == m.vertices && r.blendShapes == m.blendShapes;
    forall c | 0 <= c < NumChannels ensures |r.channels[c]| == 0 || |r.channels[c]| == |r.vertices| {
      if c != ColorsChannel {
        assert r.channels[c] == m.channels[c];
      }
    }
  }

  function StripMesh(m: Option<Mesh>): (r: Option<Mesh>)
    ensures r.None? <==> m.None?
    ensures r.Some? ==> !HasColors(r.value)
  {
    if m.None? then None else Some(StripColors(m.value))
  }

  /** The renderers whose mesh is processed: skinned meshes, and mesh renderers through their
      mesh filter. */
  predicate Processed(r: Renderer) {
    r.kind == SkinnedMeshRendererKind || r.kind == MeshRendererKind
  }

  /** The coloured meshes of processed renderers: the ones a pass converts. */
  function Converted(rs: seq<Renderer>): set<Mesh> {
    if rs == [] then {}
    else
      var r := rs[|rs| - 1];
      Converted(rs[..|rs| - 1]) + (if Processed(r) && r.mesh.Some? && HasColors(r.mesh.value) then {r.mesh.value} else {})
  }

  /** The builder's `meshCache`: each coloured mesh already converted, with its copy. */
  class VertexColorRemover {
    var meshCache: map<Mesh, Mesh>

    ghost predicate Valid()
      reads this
    {
      forall m :: m in meshCache ==> HasColors(m) && meshCache[m] == StripColors(m)
    }

    constructor ()
      ensures meshCache == map[] && Valid()
    {
      meshCache := map[];
    }

    /** `RemoveVertexColorsFromMesh`: null stays null, a converted mesh gives its cached copy,
        a mesh without colours is returned as it is, and any other mesh is copied without colours
        and cached. */
    method RemoveVertexColorsFromMesh(input: Option<Mesh>) returns (output: Option<Mesh>)
      requires Valid()
      modifies this
      ensures Valid()
      ensures output == StripMesh(input)
      ensures meshCache == if input.Some? && HasColors(input.value)
                           then old(meshCache)[input.value := StripColors(input.value)]
                           else old(meshCache)
    {
      if input.None? {
        return None;
      }
      var m := input.value;
      if m in meshCache {
        return Some(meshCache[m]);
      }
      if !HasColors(m) {
        return input;
      }
      var copy := m.(channels := m.channels[ColorsChannel := []]);
      meshCache := meshCache[m := copy];
      output := Some(copy);
    }

    /** `RemoveVertexColors`: every processed renderer's mesh goes through the conversion; other
        renderers are untouched. */
    method RemoveVertexColors(rs: seq<Renderer>) returns (out: seq<Renderer>)
      requires Valid()
      modifies this
      ensures Valid()
      ensures |out| == |rs|
      ensures forall i :: 0 <= i < |rs| ==>
        out[i] == if Processed(rs[i]) then rs[i].(mesh := StripMesh(rs[i].mesh)) else rs[i]
      ensures meshCache.Keys == old(meshCache).Keys + Converted(rs)
    {
      out := [];
      for i := 0 to |rs|
        invariant Valid()
        invariant |out| == i
        invariant forall j :: 0 <= j < i ==>
          out[j] == if Processed(rs[j]) then rs[j].(mesh := StripMesh(rs[j].mesh)) else rs[j]
        invariant meshCache.Keys == old(meshCache).Keys + Converted(rs[..i])
      {
        assert rs[..i + 1][..i] == rs[..i];
        var r := rs[i];
        if Processed(r) {
          var m := RemoveVertexColorsFromMesh(r.mesh);
          r := r.(mesh := m);
        }
        out := out + [r];
      }
      assert rs[..|rs|] == rs;
    }
  }

  /** After the pass no processed renderer's mesh has colours, and every processed renderer that
      is well formed stays so. */
  lemma RemoveVertexColorsEffect(rs: seq<Renderer>, out: seq<Renderer>)
    requires |out| == |rs|
    requires forall i :: 0 <= i < |rs| ==>
      out[i] == if Processed(rs[i]) then rs[i].(mesh := StripMesh(rs[i].mesh)) else rs[i]
    ensures forall i :: 0 <= i < |rs| && Processed(rs[i]) && out[i].mesh.Some? ==> !HasColors(out[i].mesh.value)
    ensures forall i :: 0 <= i < |rs| && ValidRenderer(rs[i]) ==> ValidRenderer(out[i])
  {
    forall i | 0 <= i < |rs| && ValidRenderer(rs[i]) ensures ValidRenderer(out[i]) {
      if Processed(rs[i]) && rs[i].mesh.Some? {
        StripColorsValid(rs[i].mesh.value);
      }
    }
  }
}
