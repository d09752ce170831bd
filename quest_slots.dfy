/** The Quest-compatibility builder's material-slot passes: slots named in the deletion list
    are set to null, a renderer whose single slot is null is destroyed, and on every other
    renderer the null slots are deleted, the surviving submeshes are compacted and the
    material-swap animations of the slots that moved are renamed to their new index. */
module QuestSlots {
  import opened Base
  import opened Strings
  import opened Unity

  // ---------------------------------------------------------------------------------------------
  // Nulling the listed slots

  /** An entry of `materialSlotDeletes`: the renderer (an index among the avatar's renderers,
      `None` for a null reference) and the slot. */
  datatype SlotDelete = SlotDelete(renderer: Option<nat>, slot: int)

  /** `mats[deletion.slot] = null` after the bounds check. */
  function NullSlot(mats: seq<Option<Material>>, slot: int): (r: Result<seq<Option<Material>>>)
    ensures r.Ok? <==> 0 <= slot < |mats|
    ensures slot >= |mats| ==> r == Err(MaterialSlotDoesNotExist(slot))
    ensures slot < 0 ==> r == Err(IndexOutOfRange)
    ensures r.Ok? ==> |r.value| == |mats| && r.value[slot] == None &&
                      forall j :: 0 <= j < |mats| && j != slot ==> r.value[j] == mats[j]
  {
    if slot >= |mats| then Err(MaterialSlotDoesNotExist(slot))
    else if slot < 0 then Err(IndexOutOfRange)
    else Ok(mats[slot := None])
  }

  predicate RenderersExist(n: nat, dels: seq<SlotDelete>) {
    forall i :: 0 <= i < |dels| && dels[i].renderer.Some? ==> dels[i].renderer.value < n
  }

  /** One entry of the deletion list. */
  function NullOne(rs: seq<Renderer>, d: SlotDelete): (res: Result<seq<Renderer>>)
    requires d.renderer.Some? ==> d.renderer.value < |rs|
    ensures res.Ok? ==> |res.value| == |rs|
  {
    if d.renderer.None? then Err(NullReference)
    else
      var i := d.renderer.value;
      var m :- NullSlot(rs[i].materials, d.slot);
      Ok(rs[i := rs[i].(materials := m)])
  }

  /** The whole deletion list, in order; the first bad entry aborts the build. */
  function NullAll(rs: seq<Renderer>, dels: seq<SlotDelete>): Result<seq<Renderer>>
    requires RenderersExist(|rs|, dels)
    decreases |dels|
  {
    if dels == [] then Ok(rs)
    else
      var rs' :- NullOne(rs, dels[0]);
      NullAll(rs', dels[1..])
  }

  /** An entry that names an existing renderer and one of its slots. */
  predicate ValidDelete(rs: seq<Renderer>, d: SlotDelete) {
    d.renderer.Some? && d.renderer.value < |rs| && 0 <= d.slot < |rs[d.renderer.value].materials|
  }

  /** The tail of the list still names existing renderers after one entry is applied. */
  lemma NullOneKeepsExist(rs: seq<Renderer>, dels: seq<SlotDelete>)
    requires dels != [] && RenderersExist(|rs|, dels) && NullOne(rs, dels[0]).Ok?
    ensures RenderersExist(|NullOne(rs, dels[0]).value|, dels[1..])
  {
    forall k | 0 <= k < |dels[1..]| && dels[1..][k].renderer.Some?
      ensures dels[1..][k].renderer.value < |rs|
    {
      assert dels[1..][k] == dels[k + 1];
    }
  }

  /** The pass succeeds iff every entry names an existing renderer and one of its slots. */
  lemma {:induction false} NullAllSucceeds(rs: seq<Renderer>, dels: seq<SlotDelete>)
    requires RenderersExist(|rs|, dels)
    ensures NullAll(rs, dels).Ok? <==> forall k :: 0 <= k < |dels| ==> ValidDelete(rs, dels[k])
    decreases |dels|
  {
    if dels != [] {
      if NullOne(rs, dels[0]).Ok? {
        var rs1 := NullOne(rs, dels[0]).value;
        NullOneKeepsExist(rs, dels);
        NullAllSucceeds(rs1, dels[1..]);
        assert forall i :: 0 <= i < |rs| ==> |rs1[i].materials| == |rs[i].materials|;
        assert forall k :: 0 <= k < |dels[1..]| ==> (ValidDelete(rs1, dels[1..][k]) <==> ValidDelete(rs, dels[k + 1]));
      } else {
        assert !ValidDelete(rs, dels[0]);
      }
    }
  }

  /** When it succeeds it nulls exactly the listed slots and changes nothing else. */
  lemma {:induction false} NullAllExactly(rs: seq<Renderer>, dels: seq<SlotDelete>)
    requires RenderersExist(|rs|, dels) && NullAll(rs, dels).Ok?
    ensures var rs' := NullAll(rs, dels).value;
            && |rs'| == |rs|
            && forall i :: 0 <= i < |rs| ==>
                 && rs'[i] == rs[i].(materials := rs'[i].materials)
                 && |rs'[i].materials| == |rs[i].materials|
                 && forall j :: 0 <= j < |rs[i].materials| ==>
                      rs'[i].materials[j] == if SlotDelete(Some(i), j) in dels then None else rs[i].materials[j]
    decreases |dels|
  {
    if dels != [] {
      var d := dels[0];
      var rs1 := NullOne(rs, d).value;
      NullOneKeepsExist(rs, dels);
      NullAllExactly(rs1, dels[1..]);
      forall i, j | 0 <= i < |rs| && 0 <= j < |rs[i].materials|
        ensures SlotDelete(Some(i), j) in dels <==> SlotDelete(Some(i), j) == d || SlotDelete(Some(i), j) in dels[1..]
      {
        assert dels == [d] + dels[1..];
      }
    }
  }

  /** `NullAnyMaterialSlotsInTheDeletionList` over the avatar's renderers. */
  method NullAnyMaterialSlots(rs: seq<Renderer>, dels: seq<SlotDelete>) returns (res: Result<seq<Renderer>>)
    requires RenderersExist(|rs|, dels)
    ensures res == NullAll(rs, dels)
  {
    var cur := rs;
    for k := 0 to |dels|
      invariant |cur| == |rs| && RenderersExist(|cur|, dels[k..])
      invariant NullAll(cur, dels[k..]) == NullAll(rs, dels)
    {
      assert dels[k..][1..] == dels[k + 1..];
      var d := dels[k];
      if d.renderer.None? {
        return Err(NullReference);
      }
      var i := d.renderer.value;
      var mats := cur[i].materials;
      if d.slot >= |mats| {
        return Err(MaterialSlotDoesNotExist(d.slot));
      }
      if d.slot < 0 {
        return Err(IndexOutOfRange);
      }
      mats := mats[d.slot := None];
      cur := cur[i := cur[i].(materials := mats)];
    }
    assert dels[|dels|..] == [];
    res := Ok(cur);
  }

  // ---------------------------------------------------------------------------------------------
  // Which renderers lose their null slots

  /** `RemoveAllNullMats`: a renderer whose only slot is null is destroyed, unless it is a skinned
      renderer without a mesh. */
  predicate Destroyed(r: Renderer) {
    |r.materials| == 1 && r.materials[0].None? && !(r.kind == SkinnedMeshRendererKind && r.mesh.None?)
  }

  function Survivors(rs: seq<Renderer>): (out: seq<Renderer>)
    ensures |out| <= |rs| && forall j :: 0 <= j < |out| ==> out[j] in rs && !Destroyed(out[j])
    ensures forall r :: r in rs && !Destroyed(r) ==> r in out
  {
    if rs == [] then [] else Survivors(rs[..|rs| - 1]) + (if Destroyed(rs[|rs| - 1]) then [] else [rs[|rs| - 1]])
  }

  // ---------------------------------------------------------------------------------------------
  // Compacting the submeshes

  /** A slot survives unless it has a material entry and that entry is null (`deletions`). */
  predicate Kept(mats: seq<Option<Material>>, i: nat) {
    !(i < |mats| && mats[i].None?)
  }

  /** The number of surviving slots below `i`: the value of `output_submesh_num` when the copy
      loop reaches submesh `i`. */
  function Rank(mats: seq<Option<Material>>, i: nat): (k: nat)
    ensures k <= i
  {
    if i == 0 then 0 else Rank(mats, i - 1) + (if Kept(mats, i - 1) then 1 else 0)
  }

  /** `remapSlots` after the copy loop has visited submeshes `0..n-1`. */
  function SlotRemap(mats: seq<Option<Material>>, n: nat): (m: map<int, int>)
  {
    map i: int | 0 <= i < n && Kept(mats, i) :: Rank(mats, i)
  }

  /** The submeshes the copy loop writes, in order; the mesh keeps exactly these. */
  function KeptSubs(mats: seq<Option<Material>>, subs: seq<SubMesh>): (ks: seq<SubMesh>)
    ensures |ks| == Rank(mats, |subs|)
  {
    if subs == [] then []
    else KeptSubs(mats, subs[..|subs| - 1]) + (if Kept(mats, |subs| - 1) then [subs[|subs| - 1]] else [])
  }

  /** A slot remap that only moves slots down and keeps their order. */
  predicate Compacting(remap: map<int, int>) {
    && (forall i :: i in remap ==> 0 <= remap[i] <= i)
    && (forall i, j :: i in remap && j in remap && i < j ==> remap[i] < remap[j])
  }

  lemma {:induction false} RankMonotone(mats: seq<Option<Material>>, i: nat, j: nat)
    requires i <= j
    ensures Rank(mats, i) <= Rank(mats, j)
    ensures i < j && Kept(mats, i) ==> Rank(mats, i) < Rank(mats, j)
    decreases j
  {
    if i < j {
      RankMonotone(mats, i, j - 1);
    }
  }

  /** Some slot is sent to `v`. */
  predicate HasPreimage(m: map<int, int>, v: int) {
    exists i :: i in m && m[i] == v
  }

  /** The remap is strictly increasing, moves no slot up, and maps the surviving slots onto
      `0..k-1`, where `k` is the new submesh count. */
  lemma SlotRemapCompacts(mats: seq<Option<Material>>, n: nat)
    ensures Compacting(SlotRemap(mats, n))
    ensures forall i :: i in SlotRemap(mats, n) <==> 0 <= i < n && Kept(mats, i)
    ensures forall v: nat :: v < Rank(mats, n) ==> HasPreimage(SlotRemap(mats, n), v)
  {
    var m := SlotRemap(mats, n);
    forall i, j | i in m && j in m && i < j
      ensures m[i] < m[j]
    {
      RankMonotone(mats, i, j);
    }
    forall v: nat | v < Rank(mats, n)
      ensures HasPreimage(m, v)
    {
      var i := RankOnto(mats, n, v);
      assert i in m;
    }
  }

  lemma {:induction false} RankOnto(mats: seq<Option<Material>>, n: nat, v: nat) returns (i: nat)
    requires v < Rank(mats, n)
    ensures i < n && Kept(mats, i) && Rank(mats, i) == v
    decreases n
  {
    if Rank(mats, n - 1) == v {
      i := n - 1;
    } else {
      i := RankOnto(mats, n - 1, v);
    }
  }

  /** Kept submesh `remap[i]` is old submesh `i`, indices and topology unchanged. */
  lemma {:induction false} KeptSubsAt(mats: seq<Option<Material>>, subs: seq<SubMesh>, i: nat)
    requires i < |subs| && Kept(mats, i)
    ensures Rank(mats, i) < |KeptSubs(mats, subs)| && KeptSubs(mats, subs)[Rank(mats, i)] == subs[i]
    decreases |subs|
  {
    var init := subs[..|subs| - 1];
    RankMonotone(mats, i, |subs|);
    if i < |subs| - 1 {
      KeptSubsAt(mats, init, i);
      assert init[i] == subs[i];
    }
  }

  /** `mats.RemoveAll(m => m == null)` */
  function NonNull(mats: seq<Option<Material>>): (r: seq<Option<Material>>)
    ensures |r| <= |mats| && forall j :: 0 <= j < |r| ==> r[j].Some? && r[j] in mats
  {
    if mats == [] then []
    else NonNull(mats[..|mats| - 1]) + (if mats[|mats| - 1].None? then [] else [mats[|mats| - 1]])
  }

  /** The material list keeps every non-null material, in order: a surviving slot's material
      stays paired with its submesh. */
  lemma {:induction false} NonNullAt(mats: seq<Option<Material>>, i: nat)
    requires i < |mats| && mats[i].Some?
    ensures Rank(mats, i) < |NonNull(mats)| && NonNull(mats)[Rank(mats, i)] == mats[i]
    decreases |mats|
  {
    var init := mats[..|mats| - 1];
    NonNullLength(mats);
    RankMonotone(mats, i, |mats|);
    if i < |mats| - 1 {
      NonNullAt(init, i);
      RankPrefix(mats, init, i);
      assert init[i] == mats[i];
    } else {
      RankPrefix(mats, init, i);
      NonNullLength(init);
    }
  }

  lemma {:induction false} NonNullLength(mats: seq<Option<Material>>)
    ensures |NonNull(mats)| == Rank(mats, |mats|)
    decreases |mats|
  {
    if mats != [] {
      var init := mats[..|mats| - 1];
      NonNullLength(init);
      RankPrefix(mats, init, |init|);
    }
  }

  /** Ranks below `i` depend only on the first `i` entries. */
  lemma {:induction false} RankPrefix(mats: seq<Option<Material>>, pre: seq<Option<Material>>, i: nat)
    requires |pre| <= |mats| && pre == mats[..|pre|] && i <= |pre|
    ensures Rank(mats, i) == Rank(pre, i)
    decreases i
  {
    if i > 0 {
      RankPrefix(mats, pre, i - 1);
      assert pre[i - 1] == mats[i - 1];
    }
  }

  /** The copy loop of `DeleteNullMatsAndFixAnims`: surviving submeshes are written to
      consecutive output slots and the remap records where each went. */
  method CompactSubMeshes(mats: seq<Option<Material>>, subs: seq<SubMesh>)
    returns (remap: map<int, int>, kept: seq<SubMesh>)
    ensures remap == SlotRemap(mats, |subs|) && kept == KeptSubs(mats, subs)
  {
    remap := map[];
    kept := [];
    var out := 0;
    for i := 0 to |subs|
      invariant out == |kept| == Rank(mats, i)
      invariant remap == SlotRemap(mats, i) && kept == KeptSubs(mats, subs[..i])
    {
      assert subs[..i + 1][..i] == subs[..i];
      if i < |mats| && mats[i].None? {
        continue;
      }
      kept := kept + [subs[i]];
      remap := remap[i := out];
      out := out + 1;
    }
    assert subs[..|subs|] == subs;
  }

  // ---------------------------------------------------------------------------------------------
  // Renaming the material-swap animations
  //
  // The renaming is stated over `key`, the binding of each slot index, which need only be
  // injective; `SlotKey(r)` is the one the builder uses.

  /** The object-reference binding of material slot `k` of renderer `r`, in canonical form. */
  function SlotBinding(r: Renderer, k: int): Binding {
    Binding(r.path, RendererType(r.kind), SlotProperty(k))
  }

  function SlotKey(r: Renderer): int -> Binding {
    k => SlotBinding(r, k)
  }

  ghost predicate KeyInjective(key: int -> Binding) {
    forall i, j :: key(i) == key(j) ==> i == j
  }

  lemma SlotKeyInjective(r: Renderer)
    ensures KeyInjective(SlotKey(r))
  {
    forall i, j | SlotKey(r)(i) == SlotKey(r)(j)
      ensures i == j
    {
      SlotPropertyInjective(i, j);
    }
  }

  /** A binding the fix-up loop looks at: an object-reference curve of `r` (`GetAnimatedObject`
      is the renderer) whose property starts with the slot prefix. */
  predicate SwapOf(r: Renderer, clip: Clip, b: Binding)
    requires b in clip
  {
    b.path == r.path && b.typ == RendererType(r.kind) && clip[b].ObjectCurve? && StartsWith(b.prop, SlotPrefix)
  }

  /** `int.Parse(bindingName.Split('[', ']')[1])` */
  function AnimatedSlot(b: Binding): Option<int>
    requires StartsWith(b.prop, SlotPrefix)
  {
    SlotIndex(b.prop, {'[', ']'})
  }

  /** With canonical names, every binding the loop looks at is the slot binding of the slot it
      parses to. */
  lemma SwapIsSlotBinding(r: Renderer, clip: Clip, b: Binding)
    requires ValidClip(clip) && b in clip && SwapOf(r, clip, b)
    ensures AnimatedSlot(b).Some? && b == SlotBinding(r, AnimatedSlot(b).value)
  {
    var k := SlotIndex(b.prop, {']'}).value;
    SlotIndexOfSlotProperty(k, {'[', ']'});
  }

  /** Slot `k`'s binding moves: it is present, and the slot survived under a different index. */
  predicate Moves(clip: Clip, key: int -> Binding, remap: map<int, int>, k: int) {
    k in remap && remap[k] != k && key(k) in clip && clip[key(k)].ObjectCurve?
  }

  /** Slot `k`'s binding receives the curve of a moved slot below `n`. */
  predicate Targeted(clip: Clip, key: int -> Binding, remap: map<int, int>, n: nat, k: int) {
    exists j :: 0 <= j < n && Moves(clip, key, remap, j) && remap[j] == k
  }

  /** One slot of the fix-up loop on the clip as it stands: a present object-reference curve
      of a slot that moved is taken off (`SetObjectReferenceCurve(binding, null)`) and set on
      the binding of the slot's new index. */
  function Step(c: Clip, key: int -> Binding, remap: map<int, int>, k: int): Clip {
    if key(k) in c && c[key(k)].ObjectCurve? && k in remap && remap[k] != k then
      (c - {key(k)})[key(remap[k]) := c[key(k)]]
    else c
  }

  /** The clip once the slots below `n` have been handled in ascending order. */
  function Remap(clip: Clip, key: int -> Binding, remap: map<int, int>, n: nat): Clip
    decreases n
  {
    if n == 0 then clip else Step(Remap(clip, key, remap, n - 1), key, remap, n - 1)
  }

  /** A binding that is neither a moved slot's old binding nor a moved slot's new binding
      keeps its curve, or stays absent: other renderers, other properties, slots outside the
      remap and slots the remap leaves in place. */
  lemma {:induction false} RemapKeeps(clip: Clip, key: int -> Binding, remap: map<int, int>, n: nat, b: Binding)
    requires KeyInjective(key) && Compacting(remap)
    requires forall k :: 0 <= k < n && Moves(clip, key, remap, k) ==> b != key(k) && b != key(remap[k])
    ensures b in Remap(clip, key, remap, n) <==> b in clip
    ensures b in clip ==> Remap(clip, key, remap, n)[b] == clip[b]
    decreases n, 0
  {
    if n > 0 {
      RemapKeeps(clip, key, remap, n - 1, b);
      Untouched(clip, key, remap, n - 1);
    }
  }

  /** When the loop reaches slot `k`, no earlier step has removed or written its binding:
      the slots below `k` only move down, and to distinct places. */
  lemma {:induction false} Untouched(clip: Clip, key: int -> Binding, remap: map<int, int>, k: nat)
    requires KeyInjective(key) && Compacting(remap)
    ensures key(k) in Remap(clip, key, remap, k) <==> key(k) in clip
    ensures key(k) in clip ==> Remap(clip, key, remap, k)[key(k)] == clip[key(k)]
    decreases k, 1
  {
    forall j | 0 <= j < k && Moves(clip, key, remap, j)
      ensures key(k) != key(j) && key(k) != key(remap[j])
    {
      assert remap[j] <= j < k;
    }
    RemapKeeps(clip, key, remap, k, key(k));
  }

  /** A moved slot's curve ends on the binding of its new index, and its old binding is gone
      unless a later moved slot landed there. */
  lemma {:induction false} RemapMoves(clip: Clip, key: int -> Binding, remap: map<int, int>, n: nat, k: nat)
    requires KeyInjective(key) && Compacting(remap) && k < n && Moves(clip, key, remap, k)
    ensures var clip' := Remap(clip, key, remap, n);
            && key(remap[k]) in clip' && clip'[key(remap[k])] == clip[key(k)]
            && (key(k) in clip' <==> Targeted(clip, key, remap, n, k))
    decreases n
  {
    Untouched(clip, key, remap, n - 1);
    if n - 1 == k {
      forall j | 0 <= j < n && Moves(clip, key, remap, j)
        ensures remap[j] != k
      {
        assert remap[j] <= j;
      }
    } else {
      RemapMoves(clip, key, remap, n - 1, k);
      var last := n - 1;
      if last in remap {
        assert remap[k] < remap[last] by { assert k < last; }
      }
      if Moves(clip, key, remap, last) && remap[last] == k {
        assert Targeted(clip, key, remap, n, k);
      } else if Targeted(clip, key, remap, n, k) {
        var j :| 0 <= j < n && Moves(clip, key, remap, j) && remap[j] == k;
        assert j != last;
        assert Targeted(clip, key, remap, n - 1, k);
      }
    }
  }

  /** The loop adds no binding but the new binding of a moved slot. */
  lemma {:induction false} RemapAddsOnlyTargets(clip: Clip, key: int -> Binding, remap: map<int, int>, n: nat, b: Binding)
    requires KeyInjective(key) && Compacting(remap) && b in Remap(clip, key, remap, n) && b !in clip
    ensures exists k :: 0 <= k < n && Moves(clip, key, remap, k) && b == key(remap[k])
    decreases n
  {
    Untouched(clip, key, remap, n - 1);
    if b in Remap(clip, key, remap, n - 1) {
      RemapAddsOnlyTargets(clip, key, remap, n - 1, b);
      var k :| 0 <= k < n - 1 && Moves(clip, key, remap, k) && b == key(remap[k]);
      assert 0 <= k < n;
    } else {
      assert Moves(clip, key, remap, n - 1) && b == key(remap[n - 1]);
    }
  }

  /** The inner `foreach (var binding in bindings)` loop for one clip, visiting the slots in
      ascending order; a binding whose slot does not move is left alone. */
  method FixSlotBindings(clip: Clip, key: int -> Binding, remap: map<int, int>, n: nat) returns (clip': Clip)
    ensures clip' == Remap(clip, key, remap, n)
  {
    clip' := clip;
    for k := 0 to n
      invariant clip' == Remap(clip, key, remap, k)
    {
      var b := key(k);
      if b in clip' && clip'[b].ObjectCurve? && k in remap && remap[k] != k {
        var curve := clip'[b];
        clip' := clip' - {b};
        clip' := clip'[key(remap[k]) := curve];
      }
    }
  }

  /** The binding of slot `k` is a canonical slot binding. */
  lemma SlotBindingValid(r: Renderer, k: int)
    ensures var p := SlotBinding(r, k).prop;
            && StartsWith(p, SlotPrefix) && SlotIndex(p, {']'}) == Some(k)
            && !StartsWith(p, BlendShapePrefix) && !StartsWith(p, MaterialPrefix)
  {
    SlotIndexOfSlotProperty(k, {']'});
    SlotPropertyPrefixes(k);
  }

  lemma StepKeepsValid(c: Clip, r: Renderer, remap: map<int, int>, k: int)
    requires ValidClip(c)
    ensures ValidClip(Step(c, SlotKey(r), remap, k))
  {
    var key := SlotKey(r);
    if key(k) in c && c[key(k)].ObjectCurve? && k in remap && remap[k] != k {
      SlotBindingValid(r, remap[k]);
    }
  }

  /** Renaming a renderer's slot bindings keeps the clip's canonical form. */
  lemma {:induction false} RemapKeepsValid(clip: Clip, r: Renderer, remap: map<int, int>, n: nat)
    requires ValidClip(clip)
    ensures ValidClip(Remap(clip, SlotKey(r), remap, n))
  {
    if n > 0 {
      RemapKeepsValid(clip, r, remap, n - 1);
      StepKeepsValid(Remap(clip, SlotKey(r), remap, n - 1), r, remap, n - 1);
    }
  }

  // ---------------------------------------------------------------------------------------------
  // The states whose clips are renamed

  /** A binding the state collection counts: an object-reference curve on one of the avatar's
      renderers (`GetAnimatedObject(...) is Renderer`) whose property starts with the slot prefix. */
  predicate AnimatesSlot(rs: seq<Renderer>, clip: Clip, b: Binding)
    requires b in clip
  {
    && clip[b].ObjectCurve? && StartsWith(b.prop, SlotPrefix)
    && exists i :: 0 <= i < |rs| && rs[i].path == b.path && RendererType(rs[i].kind) == b.typ
  }

  function SwapCount(rs: seq<Renderer>, clip: Clip): nat {
    |set b | b in clip && AnimatesSlot(rs, clip, b)|
  }

  /** How many counted bindings each clip holds. */
  function SwapCounts(rs: seq<Renderer>, clips: map<ClipId, Clip>): (counts: map<ClipId, nat>)
    ensures counts.Keys == clips.Keys
  {
    map c | c in clips :: SwapCount(rs, clips[c])
  }

  /** Every state's motion is one of the avatar's clips, or not a clip at all (`None`). */
  predicate MotionsKnown(ids: set<ClipId>, states: seq<Option<ClipId>>) {
    forall i :: 0 <= i < |states| && states[i].Some? ==> states[i].value in ids
  }

  /** `n` copies of `x`. */
  function Repeat(x: ClipId, n: nat): (s: seq<ClipId>)
    ensures |s| == n && forall i :: 0 <= i < n ==> s[i] == x
  {
    if n == 0 then [] else [x] + Repeat(x, n - 1)
  }

  /** The clips of the states list of `RemoveAllNullMats`, in order: a state whose motion is a
      clip is listed once per counted binding of that clip (`counts`). */
  function StateOccurrences(counts: map<ClipId, nat>, states: seq<Option<ClipId>>): seq<ClipId>
    requires MotionsKnown(counts.Keys, states)
    decreases |states|
  {
    if states == [] then []
    else
      var last := states[|states| - 1];
      StateOccurrences(counts, states[..|states| - 1])
      + (if last.None? then [] else Repeat(last.value, counts[last.value]))
  }

  /** The state is a clip with at least one counted binding. */
  predicate Listed(counts: map<ClipId, nat>, s: Option<ClipId>, c: ClipId) {
    s == Some(c) && c in counts && counts[c] > 0
  }

  predicate ListedIn(counts: map<ClipId, nat>, states: seq<Option<ClipId>>, c: ClipId) {
    exists i :: 0 <= i < |states| && Listed(counts, states[i], c)
  }

  lemma ListedInSplit(counts: map<ClipId, nat>, states: seq<Option<ClipId>>, c: ClipId)
    requires states != []
    ensures ListedIn(counts, states, c) <==>
              ListedIn(counts, states[..|states| - 1], c) || Listed(counts, states[|states| - 1], c)
  {
    var init := states[..|states| - 1];
    if ListedIn(counts, states, c) {
      var i :| 0 <= i < |states| && Listed(counts, states[i], c);
      if i < |init| {
        assert Listed(counts, init[i], c);
      }
    }
    if ListedIn(counts, init, c) {
      var i :| 0 <= i < |init| && Listed(counts, init[i], c);
      assert Listed(counts, states[i], c);
    }
  }

  /** The list names exactly the clips of the states with a counted binding. */
  lemma {:induction false} StateOccurrencesListed(counts: map<ClipId, nat>, states: seq<Option<ClipId>>, c: ClipId)
    requires MotionsKnown(counts.Keys, states)
    ensures c in StateOccurrences(counts, states) <==> ListedIn(counts, states, c)
    decreases |states|
  {
    if states != [] {
      var init := states[..|states| - 1];
      var last := states[|states| - 1];
      assert MotionsKnown(counts.Keys, init);
      StateOccurrencesListed(counts, init, c);
      ListedInSplit(counts, states, c);
      var here := if last.None? then [] else Repeat(last.value, counts[last.value]);
      assert StateOccurrences(counts, states) == StateOccurrences(counts, init) + here;
      if Listed(counts, last, c) {
        assert here[0] == c;
      }
    }
  }

  /** The collection loop over the layers' states. */
  method CollectStates(rs: seq<Renderer>, clips: map<ClipId, Clip>, states: seq<Option<ClipId>>) returns (occ: seq<ClipId>)
    requires MotionsKnown(clips.Keys, states)
    ensures occ == StateOccurrences(SwapCounts(rs, clips), states)
  {
    occ := [];
    for k := 0 to |states|
      invariant occ == StateOccurrences(SwapCounts(rs, clips), states[..k])
    {
      assert states[..k + 1][..k] == states[..k];
      if states[k].Some? {
        var c := states[k].value;
        occ := occ + Repeat(c, SwapCount(rs, clips[c]));
      }
    }
    assert states[..|states|] == states;
  }

  /** The state loop as written: the renaming runs once per entry of the states list, so a clip
      listed twice is renamed twice. */
  function FixStatesAsWritten(clips: map<ClipId, Clip>, key: int -> Binding, remap: map<int, int>, n: nat,
                              occ: seq<ClipId>): map<ClipId, Clip>
    decreases |occ|
  {
    if occ == [] then clips
    else
      var c := occ[0];
      FixStatesAsWritten(if c in clips then clips[c := Remap(clips[c], key, remap, n)] else clips, key, remap, n, occ[1..])
  }

  /** The state loop as intended: each listed clip renamed once. */
  function FixStates(clips: map<ClipId, Clip>, key: int -> Binding, remap: map<int, int>, n: nat,
                     ids: set<ClipId>): (clips': map<ClipId, Clip>)
    ensures clips'.Keys == clips.Keys
  {
    map c | c in clips :: if c in ids then Remap(clips[c], key, remap, n) else clips[c]
  }

  /** In every listed clip each moved slot's curve ends on the binding of its new index, and the
      clips not listed are untouched. */
  lemma FixStatesMoves(clips: map<ClipId, Clip>, key: int -> Binding, remap: map<int, int>, n: nat,
                       ids: set<ClipId>, c: ClipId, k: nat)
    requires KeyInjective(key) && Compacting(remap)
    requires c in clips && c in ids && k < n && Moves(clips[c], key, remap, k)
    ensures var clip' := FixStates(clips, key, remap, n, ids)[c];
            key(remap[k]) in clip' && clip'[key(remap[k])] == clips[c][key(k)]
  {
    RemapMoves(clips[c], key, remap, n, k);
  }

  lemma FixStatesAdd(clips: map<ClipId, Clip>, key: int -> Binding, remap: map<int, int>, n: nat,
                     seen: set<ClipId>, c: ClipId)
    ensures var now := FixStates(clips, key, remap, n, seen);
            FixStates(clips, key, remap, n, seen + {c}) ==
              if c !in seen && c in now then now[c := Remap(now[c], key, remap, n)] else now
  {
  }

  /** The state loop, renaming each clip the first time it comes up. */
  method FixAnimations(clips: map<ClipId, Clip>, key: int -> Binding, remap: map<int, int>, n: nat, occ: seq<ClipId>)
    returns (clips': map<ClipId, Clip>)
    ensures clips' == FixStates(clips, key, remap, n, set c | c in occ)
  {
    clips' := clips;
    var seen: set<ClipId> := {};
    for i := 0 to |occ|
      invariant seen == set c | c in occ[..i]
      invariant clips' == FixStates(clips, key, remap, n, seen)
    {
      var c := occ[i];
      assert occ[..i + 1] == occ[..i] + [c];
      FixStatesAdd(clips, key, remap, n, seen, c);
      if c !in seen && c in clips' {
        var fixed := FixSlotBindings(clips'[c], key, remap, n);
        clips' := clips'[c := fixed];
      }
      seen := seen + {c};
    }
    assert occ[..|occ|] == occ;
  }

  /** The two renamings of the duplicated state, for any injective key. */
  lemma RenamedTwice(key: int -> Binding, c1: Curve, c2: Curve)
    requires KeyInjective(key) && c1.ObjectCurve? && c2.ObjectCurve?
    ensures var remap := map[1 := 0, 2 := 1];
            var clips := map[0 := map[key(1) := c1, key(2) := c2]];
            && Moves(clips[0], key, remap, 1)
            && FixStatesAsWritten(clips, key, remap, 3, [0, 0])[0] == map[key(0) := c2]
            && FixStates(clips, key, remap, 3, {0})[0] == map[key(0) := c1, key(1) := c2]
  {
    var remap := map[1 := 0, 2 := 1];
    var clip := map[key(1) := c1, key(2) := c2];
    var once := map[key(0) := c1, key(1) := c2];
    assert key(0) != key(1) && key(1) != key(2) && key(0) != key(2);
    assert Remap(clip, key, remap, 1) == clip;
    assert Remap(clip, key, remap, 2) == map[key(0) := c1, key(2) := c2];
    assert Remap(clip, key, remap, 3) == once;
    assert Remap(once, key, remap, 1) == once;
    assert Remap(once, key, remap, 2) == map[key(0) := c2];
    assert Remap(once, key, remap, 3) == map[key(0) := c2];
    assert [0, 0][1..] == [0] && [0][1..] == [];
    assert FixStatesAsWritten(map[0 := clip], key, remap, 3, [0, 0]) == FixStatesAsWritten(map[0 := once], key, remap, 3, [0]);
  }

  /** The clip holds two counted bindings, so its state is listed twice. */
  lemma ListedTwice(r: Renderer, c1: Curve, c2: Curve)
    requires c1.ObjectCurve? && c2.ObjectCurve?
    ensures var key := SlotKey(r);
            StateOccurrences(SwapCounts([r], map[0 := map[key(1) := c1, key(2) := c2]]), [Some(0)]) == [0, 0]
  {
    var key := SlotKey(r);
    var clip := map[key(1) := c1, key(2) := c2];
    var clips := map[0 := clip];
    SlotKeyInjective(r);
    assert key(1) != key(2);
    SlotIndexOfSlotProperty(1, {']'});
    SlotIndexOfSlotProperty(2, {']'});
    assert key(1) == SlotBinding(r, 1) && key(2) == SlotBinding(r, 2);
    assert [r][0] == r;
    assert AnimatesSlot([r], clip, key(1)) && AnimatesSlot([r], clip, key(2));
    assert (set b | b in clip && AnimatesSlot([r], clip, b)) == {key(1), key(2)};
    assert SwapCount([r], clip) == 2;
    assert SwapCounts([r], clips) == map[0 := 2];
    assert [Some(0)][..0] == [];
    assert Repeat(0, 2) == [0, 0];
  }

  lemma ExampleRemap(m: Material)
    ensures SlotRemap([None, Some(m), Some(m)], 3) == map[1 := 0, 2 := 1]
  {
    var mats := [None, Some(m), Some(m)];
    assert !Kept(mats, 0) && Kept(mats, 1) && Kept(mats, 2);
    assert Rank(mats, 1) == 0 && Rank(mats, 2) == 1;
  }

  /** A clip with two slot bindings puts its state on the list twice. The first renaming moves
      slot 1 to slot 0 and slot 2 to slot 1; the second moves slot 1 to slot 0 again, so slot 2's
      curve ends on slot 0 and slot 1's curve is lost. Renaming each listed clip once leaves
      both curves one slot down. */
  lemma DuplicateStateRenamedTwice(r: Renderer, m: Material)
    ensures var mats := [None, Some(m), Some(m)];
            var remap := SlotRemap(mats, 3);
            var key := SlotKey(r);
            var c1 := ObjectCurve([ObjectKeyframe(0.0, Some(m))]);
            var c2 := ObjectCurve([]);
            var clips := map[0 := map[key(1) := c1, key(2) := c2]];
            && StateOccurrences(SwapCounts([r], clips), [Some(0)]) == [0, 0]
            && Moves(clips[0], key, remap, 1)
            && FixStatesAsWritten(clips, key, remap, 3, [0, 0])[0] == map[key(0) := c2]
            && FixStates(clips, key, remap, 3, {0})[0] == map[key(0) := c1, key(1) := c2]
  {
    var c1 := ObjectCurve([ObjectKeyframe(0.0, Some(m))]);
    var c2 := ObjectCurve([]);
    ExampleRemap(m);
    SlotKeyInjective(r);
    ListedTwice(r, c1, c2);
    RenamedTwice(SlotKey(r), c1, c2);
  }

  // ---------------------------------------------------------------------------------------------
  // Deleting the null slots of one renderer and of all of them

  /** A renderer `DeleteNullMatsAndFixAnims` accepts: a skinned or a plain mesh renderer. */
  predicate Compactable(r: Renderer) {
    r.kind == SkinnedMeshRendererKind || r.kind == MeshRendererKind
  }

  /** A renderer that has a mesh and a null slot loses the null slots and their submeshes. */
  function Clean(r: Renderer): Renderer {
    if r.mesh.Some? && None in r.materials then
      r.(mesh := Some(r.mesh.value.(subMeshes := KeptSubs(r.materials, r.mesh.value.subMeshes))),
         materials := NonNull(r.materials))
    else r
  }

  /** The renaming that goes with it, on the listed clips. */
  function CleanClips(clips: map<ClipId, Clip>, r: Renderer, occ: seq<ClipId>): map<ClipId, Clip> {
    if r.mesh.Some? && None in r.materials then
      var n := |r.mesh.value.subMeshes|;
      FixStates(clips, SlotKey(r), SlotRemap(r.materials, n), n, set c | c in occ)
    else clips
  }

  datatype Fixed = Fixed(renderer: Renderer, clips: map<ClipId, Clip>)

  /** `DeleteNullMatsAndFixAnims`: other renderer kinds are an error; without a mesh or without
      a null slot nothing changes. */
  method DeleteNullMatsAndFixAnims(r: Renderer, clips: map<ClipId, Clip>, occ: seq<ClipId>) returns (res: Result<Fixed>)
    ensures res.Err? <==> !Compactable(r)
    ensures res.Err? ==> res.error == IncompatibleRendererType
    ensures res.Ok? ==> res.value == Fixed(Clean(r), CleanClips(clips, r, occ))
  {
    if !Compactable(r) {
      return Err(IncompatibleRendererType);
    }
    if r.mesh.None? {
      return Ok(Fixed(r, clips));
    }
    var mats := r.materials;
    if |mats| == 0 || None !in mats {
      return Ok(Fixed(r, clips));
    }
    var mesh := r.mesh.value;
    var remap, kept := CompactSubMeshes(mats, mesh.subMeshes);
    var clips' := FixAnimations(clips, SlotKey(r), remap, |mesh.subMeshes|, occ);
    var r' := r.(mesh := Some(mesh.(subMeshes := kept)), materials := NonNull(mats));
    return Ok(Fixed(r', clips'));
  }

  /** A cleaned renderer with a mesh has no null slot. */
  lemma CleanHasNoNull(r: Renderer)
    ensures Clean(r).mesh.Some? ==> None !in Clean(r).materials
    ensures r.mesh.None? ==> Clean(r) == r
  {
    var ms := NonNull(r.materials);
    assert forall j :: 0 <= j < |ms| ==> ms[j] != None;
  }

  /** Each material of a cleaned renderer stays paired with the submesh it was drawn with:
      new slot `v` holds the material and the submesh of some surviving old slot `i`, and the
      remap sends `i` to `v`. */
  lemma CleanPairs(r: Renderer, v: nat) returns (i: nat)
    requires r.mesh.Some? && None in r.materials
    requires v < |Clean(r).materials| && v < |Clean(r).mesh.value.subMeshes|
    ensures var subs := r.mesh.value.subMeshes;
            && i < |subs| && i < |r.materials| && r.materials[i].Some?
            && SlotRemap(r.materials, |subs|)[i] == v
            && Clean(r).materials[v] == r.materials[i]
            && Clean(r).mesh.value.subMeshes[v] == subs[i]
  {
    var mats := r.materials;
    var subs := r.mesh.value.subMeshes;
    i := RankOnto(mats, |subs|, v);
    if i >= |mats| {
      NonNullLength(mats);
      RankMonotone(mats, |mats|, i);
      assert false;
    }
    KeptSubsAt(mats, subs, i);
    NonNullAt(mats, i);
  }

  /** The clips once the renderer loop has handled `rs` in order. */
  function CleanAllClips(clips: map<ClipId, Clip>, rs: seq<Renderer>, occ: seq<ClipId>): map<ClipId, Clip>
    decreases |rs|
  {
    if rs == [] then clips else CleanClips(CleanAllClips(clips, rs[..|rs| - 1], occ), rs[|rs| - 1], occ)
  }

  /** All clips stay, and in canonical form. */
  lemma {:induction false} CleanAllClipsValid(clips: map<ClipId, Clip>, rs: seq<Renderer>, occ: seq<ClipId>)
    requires ValidClips(clips)
    ensures CleanAllClips(clips, rs, occ).Keys == clips.Keys && ValidClips(CleanAllClips(clips, rs, occ))
    decreases |rs|
  {
    if rs != [] {
      var before := CleanAllClips(clips, rs[..|rs| - 1], occ);
      CleanAllClipsValid(clips, rs[..|rs| - 1], occ);
      var r := rs[|rs| - 1];
      if r.mesh.Some? && None in r.materials {
        var n := |r.mesh.value.subMeshes|;
        forall c | c in before && c in occ
          ensures ValidClip(Remap(before[c], SlotKey(r), SlotRemap(r.materials, n), n))
        {
          RemapKeepsValid(before[c], r, SlotRemap(r.materials, n), n);
        }
      }
    }
  }

  /** The renderers once the loop has handled `ss` in order. */
  function CleanedRenderers(ss: seq<Renderer>): (out: seq<Renderer>)
    ensures |out| == |ss| && forall j :: 0 <= j < |ss| ==> out[j] == Clean(ss[j])
  {
    if ss == [] then [] else CleanedRenderers(ss[..|ss| - 1]) + [Clean(ss[|ss| - 1])]
  }

  lemma CleanAllClipsStep(clips: map<ClipId, Clip>, ss: seq<Renderer>, r: Renderer, occ: seq<ClipId>)
    ensures CleanAllClips(clips, ss + [r], occ) == CleanClips(CleanAllClips(clips, ss, occ), r, occ)
    ensures CleanedRenderers(ss + [r]) == CleanedRenderers(ss) + [Clean(r)]
  {
    assert (ss + [r])[..|ss|] == ss;
  }

  lemma SurvivorsStep(rs: seq<Renderer>, i: nat)
    requires i < |rs|
    ensures Survivors(rs[..i + 1]) == Survivors(rs[..i]) + (if Destroyed(rs[i]) then [] else [rs[i]])
  {
    assert rs[..i + 1][..i] == rs[..i];
  }

  /** A surviving renderer with a null slot that `DeleteNullMatsAndFixAnims` refuses. */
  predicate Refused(r: Renderer) {
    !Destroyed(r) && None in r.materials && !Compactable(r)
  }

  datatype Cleaned = Cleaned(renderers: seq<Renderer>, clips: map<ClipId, Clip>)

  /** The renderer loop over `rs`, in order. */
  function CleanAll(rs: seq<Renderer>, clips: map<ClipId, Clip>, occ: seq<ClipId>): Result<Cleaned>
    decreases |rs|
  {
    if rs == [] then Ok(Cleaned([], clips))
    else
      var acc :- CleanAll(rs[..|rs| - 1], clips, occ);
      var r := rs[|rs| - 1];
      if Destroyed(r) then Ok(acc)
      else if None in r.materials && !Compactable(r) then Err(IncompatibleRendererType)
      else Ok(Cleaned(acc.renderers + [Clean(r)], CleanClips(acc.clips, r, occ)))
  }

  /** The loop fails iff some surviving renderer with a null slot has a refused kind, and then
      with `IncompatibleRendererType`. */
  lemma {:induction false} CleanAllFails(rs: seq<Renderer>, clips: map<ClipId, Clip>, occ: seq<ClipId>)
    ensures CleanAll(rs, clips, occ).Err? <==> exists i :: 0 <= i < |rs| && Refused(rs[i])
    ensures CleanAll(rs, clips, occ).Err? ==> CleanAll(rs, clips, occ).error == IncompatibleRendererType
    decreases |rs|
  {
    if rs != [] {
      var init := rs[..|rs| - 1];
      CleanAllFails(init, clips, occ);
      assert forall i :: 0 <= i < |init| ==> init[i] == rs[i];
      if i :| 0 <= i < |rs| && Refused(rs[i]) {
        if i < |init| {
          assert Refused(init[i]);
        }
      }
    }
  }

  /** Otherwise the survivors come out cleaned, in order, and the clips renamed once per
      cleaned renderer. */
  lemma {:induction false} CleanAllSucceeds(rs: seq<Renderer>, clips: map<ClipId, Clip>, occ: seq<ClipId>)
    requires CleanAll(rs, clips, occ).Ok?
    ensures CleanAll(rs, clips, occ).value.renderers == CleanedRenderers(Survivors(rs))
    ensures CleanAll(rs, clips, occ).value.clips == CleanAllClips(clips, Survivors(rs), occ)
    decreases |rs|
  {
    if rs != [] {
      var init := rs[..|rs| - 1];
      var r := rs[|rs| - 1];
      assert CleanAll(init, clips, occ).Ok?;
      CleanAllSucceeds(init, clips, occ);
      if !Destroyed(r) {
        CleanAllClipsStep(clips, Survivors(init), r, occ);
      } else {
        assert Survivors(init) + [] == Survivors(init);
      }
    }
  }

  /** `RemoveAllNullMats` after the states are collected: the destroyed renderers are dropped,
      every other renderer with a null slot is cleaned, and the first one of another kind aborts
      the build. */
  method RemoveAllNullMats(rs: seq<Renderer>, clips: map<ClipId, Clip>, states: seq<Option<ClipId>>)
    returns (res: Result<Cleaned>)
    requires MotionsKnown(clips.Keys, states)
    ensures res == CleanAll(rs, clips, StateOccurrences(SwapCounts(rs, clips), states))
  {
    var occ := CollectStates(rs, clips, states);
    var out: seq<Renderer> := [];
    var cur := clips;
    for i := 0 to |rs|
      invariant CleanAll(rs[..i], clips, occ) == Ok(Cleaned(out, cur))
    {
      var r := rs[i];
      assert rs[..i + 1][..i] == rs[..i];
      if Destroyed(r) {
        continue;
      }
      if None in r.materials {
        var f := DeleteNullMatsAndFixAnims(r, cur, occ);
        if f.Err? {
          CleanAllFails(rs, clips, occ);
          assert Refused(rs[i]);
          return Err(f.error);
        }
        out := out + [f.value.renderer];
        cur := f.value.clips;
      } else {
        assert CleanClips(cur, r, occ) == cur && Clean(r) == r;
        out := out + [r];
      }
    }
    assert rs[..|rs|] == rs;
    res := Ok(Cleaned(out, cur));
  }
}
