/** The mobile replacement of every material (`QuestMaterialFromMaterial`), and its application
    to every renderer's material slots (the renderer part of `ReplaceIncompatibleMaterials`). */
module QuestMaterials {
  import opened Base
  import opened Strings
  import opened Unity

  /** The shader choices offered for replaced materials. */
  datatype MobileShader =
    | StandardLite
    | Diffuse
    | BumpedDiffuse
    | BumpedMappedSpecular
    | ToonLit
    | MatCapLit
    | ParticlesAdditive
    | ParticlesMultiply
    | RemoveAllParticles

  /** Shaders under this prefix are left alone. */
  const MobilePrefix := "VRChat/Mobile/"
  const QuestSuffix := "_QuestCompat"

  /** `mobileShaderEnumToShaderString`: `None` is the "remove" choice. */
  function ShaderName(s: MobileShader): (name: Option<string>)
    ensures name.None? <==> s == RemoveAllParticles
    ensures name.Some? ==> StartsWith(name.value, MobilePrefix)
  {
    match s
    case StandardLite => Some(MobilePrefix + "Standard Lite")
    case Diffuse => Some(MobilePrefix + "Diffuse")
    case BumpedDiffuse => Some(MobilePrefix + "Bumped Diffuse")
    case BumpedMappedSpecular => Some(MobilePrefix + "Bumped Mapped Specular")
    case ToonLit => Some(MobilePrefix + "Toon Lit")
    case MatCapLit => Some(MobilePrefix + "MatCap Lit")
    case ParticlesAdditive => Some(MobilePrefix + "Particles/Additive")
    case ParticlesMultiply => Some(MobilePrefix + "Particles/Multiply")
    case RemoveAllParticles => None
  }

  /** One row of the material override list; `None` is an unset reference. */
  datatype MaterialSwap = MaterialSwap(from: Option<Material>, to: Option<Material>)

  /** `materialOverrides.FirstOrDefault(m => m.from == mat)`, as an index (-1 for none).
      An unset `from` matches a null material. */
  function FirstOverride(overrides: seq<MaterialSwap>, mat: Option<Material>): (k: int)
    ensures -1 <= k < |overrides|
    ensures k >= 0 ==> overrides[k].from == mat && forall j :: 0 <= j < k ==> overrides[j].from != mat
    ensures k == -1 <==> forall j :: 0 <= j < |overrides| ==> overrides[j].from != mat
  {
    if overrides == [] then -1
    else if overrides[0].from == mat then 0
    else var k := FirstOverride(overrides[1..], mat); if k == -1 then -1 else k + 1
  }

  /** The material `new Material(replacementShader)` builds from `mat`; `id` is the new object. */
  function NewMaterial(mat: Material, shader: string, id: nat): Material {
    Material(id, mat.name + QuestSuffix, shader, mat.properties, mat.renderQueue, mat.enableInstancing)
  }

  /** One call of `QuestMaterialFromMaterial` against the cache of the renderer's kind, with
      `next` the identity the next created material gets: the result and the cache after it. */
  function Select(overrides: seq<MaterialSwap>, shader: Option<string>, cache: map<Material, Material>,
                  next: nat, mat: Option<Material>): (Option<Material>, map<Material, Material>)
  {
    var k := FirstOverride(overrides, mat);
    if k >= 0 then (overrides[k].to, cache)
    else if mat.None? then (None, cache)
    else if StartsWith(mat.value.shaderName, MobilePrefix) then (mat, cache)
    else if mat.value in cache then (Some(cache[mat.value]), cache)
    else if shader.None? then (None, cache)
    else
      var created := NewMaterial(mat.value, shader.value, next);
      (Some(created), cache[mat.value := created])
  }

  /** What the cache holds: for each source material that was not a mobile one, its copy on the
      configured shader, a distinct object created before `next`. */
  predicate CacheValid(cache: map<Material, Material>, shader: Option<string>, next: nat) {
    && (forall m :: m in cache ==>
          && shader.Some? && !StartsWith(m.shaderName, MobilePrefix)
          && cache[m] == NewMaterial(m, shader.value, cache[m].id) && cache[m].id < next)
    && (forall m1, m2 :: m1 in cache && m2 in cache && m1 != m2 ==> cache[m1].id != cache[m2].id)
  }

  predicate DisjointIds(c1: map<Material, Material>, c2: map<Material, Material>) {
    forall m1, m2 :: m1 in c1 && m2 in c2 ==> c1[m1].id != c2[m2].id
  }

  /** Every entry of `c` is still in `c'`, unchanged. */
  predicate Extends(c: map<Material, Material>, c': map<Material, Material>) {
    forall m :: m in c ==> m in c' && c'[m] == c[m]
  }

  /** The decision does not need a new material: `mat` is overridden, null, mobile, already
      cached, or its kind's shader is the remove choice. */
  predicate Resolvable(overrides: seq<MaterialSwap>, shader: Option<string>, cache: map<Material, Material>,
                       mat: Option<Material>) {
    (FirstOverride(overrides, mat) == -1 && mat.Some? && !StartsWith(mat.value.shaderName, MobilePrefix)
       && shader.Some?) ==> mat.value in cache
  }

  /** What a call returns for `mat` once the cache is `cache`. (The remove choice is tested
      before the cache here; a valid cache of a removed kind is empty, so the answer is the same.) */
  function Resolve(overrides: seq<MaterialSwap>, shader: Option<string>, cache: map<Material, Material>,
                   mat: Option<Material>): Option<Material>
    requires Resolvable(overrides, shader, cache, mat)
  {
    var k := FirstOverride(overrides, mat);
    if k >= 0 then overrides[k].to
    else if mat.None? then None
    else if StartsWith(mat.value.shaderName, MobilePrefix) then mat
    else if shader.None? then None
    else Some(cache[mat.value])
  }

  /** The choice order: the first override with that source wins (also for a null material);
      a null material stays null; a mobile material is kept; any other material becomes its copy
      renamed with the suffix, on the configured mobile shader and with the same render queue and
      instancing flag, or is removed when the configured shader is the remove choice. */
  lemma SelectMeaning(overrides: seq<MaterialSwap>, s: MobileShader, cache: map<Material, Material>,
                      next: nat, mat: Option<Material>)
    requires CacheValid(cache, ShaderName(s), next)
    ensures var (r, _) := Select(overrides, ShaderName(s), cache, next, mat);
      && (forall i :: (0 <= i < |overrides| && overrides[i].from == mat
            && (forall j :: 0 <= j < i ==> overrides[j].from != mat)) ==> r == overrides[i].to)
      && ((forall i :: 0 <= i < |overrides| ==> overrides[i].from != mat) ==>
            && (mat.None? ==> r.None?)
            && (mat.Some? && StartsWith(mat.value.shaderName, MobilePrefix) ==> r == mat)
            && (mat.Some? && !StartsWith(mat.value.shaderName, MobilePrefix) ==>
                  && (r.None? <==> s == RemoveAllParticles)
                  && (r.Some? ==>
                        && r.value.name == mat.value.name + QuestSuffix
                        && r.value.shaderName == ShaderName(s).value
                        && StartsWith(r.value.shaderName, MobilePrefix)
                        && r.value.renderQueue == mat.value.renderQueue
                        && r.value.enableInstancing == mat.value.enableInstancing)))
  {
    var k := FirstOverride(overrides, mat);
    if k == -1 && mat.Some? && !StartsWith(mat.value.shaderName, MobilePrefix) && mat.value in cache {
      assert ShaderName(s).Some?;
    }
  }

  /** A second call for the same material returns the same object and adds nothing to the
      cache: a source material is converted at most once. */
  lemma SelectAgain(overrides: seq<MaterialSwap>, shader: Option<string>, cache: map<Material, Material>,
                    next: nat, next': nat, mat: Option<Material>)
    ensures var (r, c) := Select(overrides, shader, cache, next, mat);
      Select(overrides, shader, c, next', mat) == (r, c)
  {
  }

  /** A call only adds to the cache, adds at most the material asked for, under the identity
      `next`, and leaves that material resolved. */
  lemma SelectResolves(overrides: seq<MaterialSwap>, shader: Option<string>, cache: map<Material, Material>,
                       next: nat, mat: Option<Material>)
    requires CacheValid(cache, shader, next)
    ensures var (r, c) := Select(overrides, shader, cache, next, mat);
      && Extends(cache, c)
      && (c != cache ==>
            (mat.Some? && mat.value !in cache && c.Keys == cache.Keys + {mat.value} && c[mat.value].id == next))
      && Resolvable(overrides, shader, c, mat) && r == Resolve(overrides, shader, c, mat)
  {
  }

  /** The invariant of the two caches (`c0` for ordinary renderers on shader `s0`, `c1` for
      particle renderers on `s1`): each is valid, and no material was created twice. */
  predicate StateValid(c0: map<Material, Material>, c1: map<Material, Material>,
                       s0: Option<string>, s1: Option<string>, next: nat) {
    CacheValid(c0, s0, next) && CacheValid(c1, s1, next) && DisjointIds(c0, c1)
  }

  lemma CacheValidInsert(c: map<Material, Material>, s: Option<string>, next: nat, m: Material)
    requires CacheValid(c, s, next) && s.Some? && m !in c && !StartsWith(m.shaderName, MobilePrefix)
    ensures CacheValid(c[m := NewMaterial(m, s.value, next)], s, next + 1)
  {
    var c' := c[m := NewMaterial(m, s.value, next)];
    forall m1, m2 | m1 in c' && m2 in c' && m1 != m2 ensures c'[m1].id != c'[m2].id {
      if m1 != m && m2 != m {
        assert c'[m1] == c[m1] && c'[m2] == c[m2];
      }
    }
  }

  /** Creating a material for cache `p` keeps the invariant. */
  lemma StateValidInsert(c0: map<Material, Material>, c1: map<Material, Material>,
                         s0: Option<string>, s1: Option<string>, next: nat, p: bool, m: Material)
    requires StateValid(c0, c1, s0, s1, next)
    requires (if p then s1 else s0).Some? && m !in (if p then c1 else c0)
    requires !StartsWith(m.shaderName, MobilePrefix)
    ensures p ==> StateValid(c0, c1[m := NewMaterial(m, s1.value, next)], s0, s1, next + 1)
    ensures !p ==> StateValid(c0[m := NewMaterial(m, s0.value, next)], c1, s0, s1, next + 1)
  {
    if p {
      CacheValidInsert(c1, s1, next, m);
    } else {
      CacheValidInsert(c0, s0, next, m);
    }
  }

  /** A resolved answer does not change when the cache grows. */
  lemma ResolveExtends(overrides: seq<MaterialSwap>, shader: Option<string>, c: map<Material, Material>,
                       c': map<Material, Material>, mat: Option<Material>)
    requires Resolvable(overrides, shader, c, mat) && Extends(c, c')
    ensures Resolvable(overrides, shader, c', mat)
    ensures Resolve(overrides, shader, c', mat) == Resolve(overrides, shader, c, mat)
  {
  }

  /** Every slot of `dst` is what a call returns for the same slot of `src`. */
  predicate SlotsResolved(overrides: seq<MaterialSwap>, shader: Option<string>, cache: map<Material, Material>,
                          src: seq<Option<Material>>, dst: seq<Option<Material>>) {
    |dst| == |src| &&
    forall j :: 0 <= j < |src| ==>
      Resolvable(overrides, shader, cache, src[j]) && dst[j] == Resolve(overrides, shader, cache, src[j])
  }

  lemma SlotsResolvedExtends(overrides: seq<MaterialSwap>, shader: Option<string>, c: map<Material, Material>,
                             c': map<Material, Material>, src: seq<Option<Material>>, dst: seq<Option<Material>>)
    requires SlotsResolved(overrides, shader, c, src, dst) && Extends(c, c')
    ensures SlotsResolved(overrides, shader, c', src, dst)
  {
    forall j | 0 <= j < |src|
      ensures Resolvable(overrides, shader, c', src[j]) && dst[j] == Resolve(overrides, shader, c', src[j])
    {
      ResolveExtends(overrides, shader, c, c', src[j]);
    }
  }

  lemma SlotsResolvedAppend(overrides: seq<MaterialSwap>, shader: Option<string>, c: map<Material, Material>,
                            src: seq<Option<Material>>, dst: seq<Option<Material>>, x: Option<Material>,
                            y: Option<Material>)
    requires SlotsResolved(overrides, shader, c, src, dst)
    requires Resolvable(overrides, shader, c, x) && y == Resolve(overrides, shader, c, x)
    ensures SlotsResolved(overrides, shader, c, src + [x], dst + [y])
  {
  }

  predicate IsParticle(r: Renderer) {
    r.kind == ParticleSystemRendererKind
  }

  /** The builder's material state: the override list, the two default shaders, and the two
      caches `materialCache` and `materialCacheParticle`. `nextId` is the identity the next
      created material gets. */
  class MaterialSelector {
    const overrides: seq<MaterialSwap>
    const defaultShader: MobileShader
    const defaultParticleShader: MobileShader
    var materialCache: map<Material, Material>
    var materialCacheParticle: map<Material, Material>
    var nextId: nat

    function Shader(particle: bool): Option<string> {
      ShaderName(if particle then defaultParticleShader else defaultShader)
    }

    function Cache(particle: bool): map<Material, Material>
      reads this
    {
      if particle then materialCacheParticle else materialCache
    }

    ghost predicate Valid()
      reads this
    {
      StateValid(materialCache, materialCacheParticle, Shader(false), Shader(true), nextId)
    }

    /** Renderer slots resolved against the cache of each renderer's kind, `c0` for the others and
        `c1` for particle renderers. */
    predicate RenderersResolvedIn(rs: seq<Renderer>, out: seq<Renderer>,
                                  c0: map<Material, Material>, c1: map<Material, Material>) {
      |out| == |rs| &&
      forall i :: 0 <= i < |rs| ==>
        out[i] == rs[i].(materials := out[i].materials) &&
        SlotsResolved(overrides, Shader(IsParticle(rs[i])), if IsParticle(rs[i]) then c1 else c0,
                      rs[i].materials, out[i].materials)
    }

    predicate RenderersResolved(rs: seq<Renderer>, out: seq<Renderer>)
      reads this
    {
      RenderersResolvedIn(rs, out, materialCache, materialCacheParticle)
    }

    constructor (overrides: seq<MaterialSwap>, defaultShader: MobileShader, defaultParticleShader: MobileShader,
                 firstId: nat)
      ensures this.overrides == overrides && this.defaultShader == defaultShader
      ensures this.defaultParticleShader == defaultParticleShader
      ensures materialCache == map[] && materialCacheParticle == map[] && nextId == firstId
      ensures Valid()
    {
      this.overrides := overrides;
      this.defaultShader := defaultShader;
      this.defaultParticleShader := defaultParticleShader;
      materialCache := map[];
      materialCacheParticle := map[];
      nextId := firstId;
    }

    /** `QuestMaterialFromMaterial(mat, particleRenderer)`. */
    method QuestMaterialFromMaterial(mat: Option<Material>, particle: bool) returns (r: Option<Material>)
      requires Valid()
      modifies this
      ensures Valid()
      ensures (r, Cache(particle)) == Select(overrides, Shader(particle), old(Cache(particle)), old(nextId), mat)
      ensures Cache(!particle) == old(Cache(!particle))
      ensures nextId == if Cache(particle) == old(Cache(particle)) then old(nextId) else old(nextId) + 1
    {
      var k := FirstOverride(overrides, mat);
      if k >= 0 {
        return overrides[k].to;
      }
      if mat.None? {
        return None;
      }
      if StartsWith(mat.value.shaderName, MobilePrefix) {
        return mat;
      }
      var matCache := if particle then materialCacheParticle else materialCache;
      if mat.value in matCache {
        return Some(matCache[mat.value]);
      }
      var shaderName := Shader(particle);
      if shaderName.None? {
        return None;
      }
      StateValidInsert(materialCache, materialCacheParticle, Shader(false), Shader(true), nextId, particle, mat.value);
      var newMat := NewMaterial(mat.value, shaderName.value, nextId);
      if particle {
        materialCacheParticle := materialCacheParticle[mat.value := newMat];
      } else {
        materialCache := materialCache[mat.value := newMat];
      }
      nextId := nextId + 1;
      r := Some(newMat);
    }

    /** `renderer.sharedMaterials.Select(materialSelector)`, slot by slot in order. */
    method ReplaceSlots(mats: seq<Option<Material>>, p: bool) returns (out: seq<Option<Material>>)
      requires Valid()
      modifies this
      ensures Valid()
      ensures SlotsResolved(overrides, Shader(p), Cache(p), mats, out)
      ensures Extends(old(materialCache), materialCache)
      ensures Extends(old(materialCacheParticle), materialCacheParticle)
    {
      out := [];
      for j := 0 to |mats|
        invariant Valid()
        invariant SlotsResolved(overrides, Shader(p), Cache(p), mats[..j], out)
        invariant Extends(old(materialCache), materialCache)
        invariant Extends(old(materialCacheParticle), materialCacheParticle)
      {
        ghost var c := Cache(p);
        SelectResolves(overrides, Shader(p), c, nextId, mats[j]);
        var m := QuestMaterialFromMaterial(mats[j], p);
        SlotsResolvedExtends(overrides, Shader(p), c, Cache(p), mats[..j], out);
        SlotsResolvedAppend(overrides, Shader(p), Cache(p), mats[..j], out, mats[j], m);
        assert mats[..j + 1] == mats[..j] + [mats[j]];
        out := out + [m];
      }
      assert mats[..|mats|] == mats;
    }

    /** The renderer part of `ReplaceIncompatibleMaterials`: fresh caches, then every slot of every
        renderer replaced by its choice, particle renderers using the particle cache and shader.
        The same source material gets the same replacement everywhere. */
    method ReplaceIncompatibleMaterials(rs: seq<Renderer>) returns (out: seq<Renderer>)
      requires Valid()
      modifies this
      ensures Valid()
      ensures RenderersResolved(rs, out)
    {
      materialCache := map[];
      materialCacheParticle := map[];
      out := [];
      for i := 0 to |rs|
        invariant Valid()
        invariant RenderersResolved(rs[..i], out)
      {
        var r := rs[i];
        var p := IsParticle(r);
        ghost var c0, c1 := materialCache, materialCacheParticle;
        var mats := ReplaceSlots(r.materials, p);
        RenderersResolvedExtends(rs[..i], out, c0, c1, materialCache, materialCacheParticle);
        RenderersResolvedAppend(rs[..i], out, materialCache, materialCacheParticle, r, mats);
        assert rs[..i + 1] == rs[..i] + [r];
        out := out + [r.(materials := mats)];
      }
      assert rs[..|rs|] == rs;
    }

    lemma RenderersResolvedAppend(rs: seq<Renderer>, out: seq<Renderer>,
                                  c0: map<Material, Material>, c1: map<Material, Material>,
                                  r: Renderer, mats: seq<Option<Material>>)
      requires RenderersResolvedIn(rs, out, c0, c1)
      requires SlotsResolved(overrides, Shader(IsParticle(r)), if IsParticle(r) then c1 else c0, r.materials, mats)
      ensures RenderersResolvedIn(rs + [r], out + [r.(materials := mats)], c0, c1)
    {
    }

    /** Slots resolved against caches stay resolved against caches that extend them. */
    lemma RenderersResolvedExtends(rs: seq<Renderer>, out: seq<Renderer>,
                                   c0: map<Material, Material>, c1: map<Material, Material>,
                                   c0': map<Material, Material>, c1': map<Material, Material>)
      requires RenderersResolvedIn(rs, out, c0, c1)
      requires Extends(c0, c0') && Extends(c1, c1')
      ensures RenderersResolvedIn(rs, out, c0', c1')
    {
      forall i | 0 <= i < |rs|
        ensures SlotsResolved(overrides, Shader(IsParticle(rs[i])), if IsParticle(rs[i]) then c1' else c0',
                              rs[i].materials, out[i].materials)
      {
        var p := IsParticle(rs[i]);
        SlotsResolvedExtends(overrides, Shader(p), if p then c1 else c0, if p then c1' else c0',
                             rs[i].materials, out[i].materials);
      }
    }
  }
}
