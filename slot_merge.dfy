/** `MergeSameMaterials`: after the meshes of a group are merged, material slots of the kept
    renderer that hold the same material, draw with the same topology and are not the target
    of any material-swap animation are coalesced into one submesh. Slots are taken in ascending
    order; each joins the first existing group it is compatible with, or starts a new one. */
module SlotMerge {
  import opened Base
  import opened Strings
  import opened Unity

  /** Groups of slot indices. */
  type Groups = seq<seq<nat>>

  /** The property names of the renderer's bindings, over all clips, that start with the
      material-slot prefix (`materialSwapAnims`). */
  function SwapProperties(clips: map<ClipId, Clip>, r: Renderer): (ps: set<string>)
    ensures forall p :: p in ps ==> StartsWith(p, SlotPrefix)
  {
    set c, b | c in clips && b in clips[c] && References(r, b) && StartsWith(b.prop, SlotPrefix) :: b.prop
  }

  /** Some swap binding's property starts with `m_Materials.Array.data[<slot>]`. */
  predicate Animated(swaps: set<string>, slot: nat) {
    exists p :: p in swaps && StartsWith(p, SlotProperty(slot))
  }

  predicate AnyAnimated(swaps: set<string>, group: seq<nat>) {
    exists j :: 0 <= j < |group| && Animated(swaps, group[j])
  }

  /** Every group is non-empty and holds slots below `k`. */
  predicate Below(groups: Groups, k: nat) {
    forall i :: 0 <= i < |groups| ==> groups[i] != [] && forall j :: 0 <= j < |groups[i]| ==> groups[i][j] < k
  }

  /** The test `slot` must pass to join `group`: every member has the same material, neither the
      slot nor any member is animated, and the slot's topology is that of the group's first slot. */
  predicate Joinable(mats: seq<Option<Material>>, subs: seq<SubMesh>, swaps: set<string>, group: seq<nat>, slot: nat)
    requires |mats| <= |subs| && slot < |mats| && group != []
    requires forall j :: 0 <= j < |group| ==> group[j] < |mats|
  {
    && (forall j :: 0 <= j < |group| ==> mats[group[j]] == mats[slot])
    && !Animated(swaps, slot)
    && !AnyAnimated(swaps, group)
    && subs[slot].topology == subs[group[0]].topology
  }

  /** The index of the first group from `from` on that `slot` may join, or `|groups|`. */
  function FirstJoinable(mats: seq<Option<Material>>, subs: seq<SubMesh>, swaps: set<string>, groups: Groups,
                         slot: nat, from: nat): (i: nat)
    requires |mats| <= |subs| && slot < |mats| && Below(groups, |mats|) && from <= |groups|
    ensures from <= i <= |groups|
    ensures i < |groups| ==> Joinable(mats, subs, swaps, groups[i], slot)
    ensures forall j :: from <= j < i ==> !Joinable(mats, subs, swaps, groups[j], slot)
    decreases |groups| - from
  {
    if from == |groups| then from
    else if Joinable(mats, subs, swaps, groups[from], slot) then from
    else FirstJoinable(mats, subs, swaps, groups, slot, from + 1)
  }

  /** One step of the grouping loop. */
  function AddSlot(mats: seq<Option<Material>>, subs: seq<SubMesh>, swaps: set<string>, groups: Groups, slot: nat): Groups
    requires |mats| <= |subs| && slot < |mats| && Below(groups, slot)
  {
    var i := FirstJoinable(mats, subs, swaps, groups, slot, 0);
    if i == |groups| then groups + [[slot]] else groups[i := groups[i] + [slot]]
  }

  /** The groups after slots `0 .. k-1`. */
  function SlotGroups(mats: seq<Option<Material>>, subs: seq<SubMesh>, swaps: set<string>, k: nat): (groups: Groups)
    requires k <= |mats| <= |subs|
    ensures Below(groups, k)
  {
    if k == 0 then [] else AddSlot(mats, subs, swaps, SlotGroups(mats, subs, swaps, k - 1), k - 1)
  }

  // ---------------------------------------------------------------------------------------------
  // What the grouping guarantees

  /** Slot `s` is in some group. */
  predicate InGroups(groups: Groups, s: nat) {
    exists i, j :: 0 <= i < |groups| && 0 <= j < |groups[i]| && groups[i][j] == s
  }

  /** Every slot below `k` is in some group. */
  predicate Covers(groups: Groups, k: nat) {
    forall s :: 0 <= s < k ==> InGroups(groups, s)
  }

  /** No slot is in two places. */
  predicate Unique(groups: Groups) {
    forall i, j, i', j' ::
      (0 <= i < |groups| && 0 <= j < |groups[i]| && 0 <= i' < |groups| && 0 <= j' < |groups[i']| &&
       groups[i][j] == groups[i'][j']) ==> i == i' && j == j'
  }

  /** Slots appear in ascending order inside a group, and groups in the order of their first slot. */
  predicate Ordered(groups: Groups) {
    && (forall i, j, j' :: 0 <= i < |groups| && 0 <= j < j' < |groups[i]| ==> groups[i][j] < groups[i][j'])
    && (forall i, i' :: 0 <= i < i' < |groups| && groups[i] != [] && groups[i'] != [] ==> groups[i][0] < groups[i'][0])
  }

  /** All slots of a group share the material and the topology of its first slot. */
  predicate Uniform(mats: seq<Option<Material>>, subs: seq<SubMesh>, groups: Groups)
    requires Below(groups, |mats|) && |mats| <= |subs|
  {
    forall i, j :: 0 <= i < |groups| && 0 <= j < |groups[i]| ==>
      mats[groups[i][j]] == mats[groups[i][0]] && subs[groups[i][j]].topology == subs[groups[i][0]].topology
  }

  /** A slot with a swap animation is alone in its group. */
  predicate AnimatedAlone(swaps: set<string>, groups: Groups) {
    forall i, j :: 0 <= i < |groups| && 0 <= j < |groups[i]| && Animated(swaps, groups[i][j]) ==> |groups[i]| == 1
  }

  /** Two groups that could have been one. */
  predicate Mergeable(mats: seq<Option<Material>>, subs: seq<SubMesh>, swaps: set<string>, g: seq<nat>, h: seq<nat>)
    requires |mats| <= |subs| && g != [] && h != [] && g[0] < |mats| && h[0] < |mats|
  {
    && mats[g[0]] == mats[h[0]] && subs[g[0]].topology == subs[h[0]].topology
    && !AnyAnimated(swaps, g) && !AnyAnimated(swaps, h)
  }

  predicate Separate(mats: seq<Option<Material>>, subs: seq<SubMesh>, swaps: set<string>, groups: Groups)
    requires Below(groups, |mats|) && |mats| <= |subs|
  {
    forall i, i' :: 0 <= i < i' < |groups| ==> !Mergeable(mats, subs, swaps, groups[i], groups[i'])
  }

  predicate GroupsInv(mats: seq<Option<Material>>, subs: seq<SubMesh>, swaps: set<string>, groups: Groups, k: nat)
    requires k <= |mats| <= |subs|
  {
    && Below(groups, k) && Covers(groups, k) && Unique(groups) && Ordered(groups)
    && Uniform(mats, subs, groups) && AnimatedAlone(swaps, groups) && Separate(mats, subs, swaps, groups)
  }

  /** A new group of its own keeps the invariant. */
  lemma NewGroupKeeps(mats: seq<Option<Material>>, subs: seq<SubMesh>, swaps: set<string>, groups: Groups, k: nat)
    requires k < |mats| <= |subs| && GroupsInv(mats, subs, swaps, groups, k)
    requires forall i :: 0 <= i < |groups| ==> !Joinable(mats, subs, swaps, groups[i], k)
    ensures GroupsInv(mats, subs, swaps, groups + [[k]], k + 1)
  {
    var gs := groups + [[k]];
    forall s | 0 <= s < k + 1
      ensures InGroups(gs, s)
    {
      if s == k {
        assert gs[|groups|][0] == k;
      } else {
        assert InGroups(groups, s);
        var i, j :| 0 <= i < |groups| && 0 <= j < |groups[i]| && groups[i][j] == s;
        assert gs[i][j] == s;
      }
    }
    forall i | 0 <= i < |groups|
      ensures !Mergeable(mats, subs, swaps, gs[i], gs[|groups|])
    {
      assert gs[i] == groups[i] && gs[|groups|] == [k];
      JoinableIfMergeable(mats, subs, swaps, groups, k, i);
    }
  }

  /** A group that could take slot `k`'s own new group could take `k`. */
  lemma JoinableIfMergeable(mats: seq<Option<Material>>, subs: seq<SubMesh>, swaps: set<string>, groups: Groups, k: nat, i: nat)
    requires k < |mats| <= |subs| && GroupsInv(mats, subs, swaps, groups, k) && i < |groups|
    ensures Mergeable(mats, subs, swaps, groups[i], [k]) ==> Joinable(mats, subs, swaps, groups[i], k)
  {
    if Mergeable(mats, subs, swaps, groups[i], [k]) {
      assert !Animated(swaps, k) by {
        assert [k][0] == k;
      }
    }
  }

  /** Joining group `g` keeps every slot covered. */
  lemma JoinCovers(groups: Groups, k: nat, g: nat)
    requires Covers(groups, k) && g < |groups|
    ensures Covers(groups[g := groups[g] + [k]], k + 1)
  {
    var gs := groups[g := groups[g] + [k]];
    forall s | 0 <= s < k + 1
      ensures InGroups(gs, s)
    {
      if s == k {
        assert gs[g][|groups[g]|] == k;
      } else {
        assert InGroups(groups, s);
        var i, j :| 0 <= i < |groups| && 0 <= j < |groups[i]| && groups[i][j] == s;
        assert gs[i][j] == s;
      }
    }
  }

  /** Appending slot `k`, above every grouped slot, keeps groups ordered and slots unique. */
  lemma JoinOrderedUnique(groups: Groups, k: nat, g: nat)
    requires Below(groups, k) && Unique(groups) && Ordered(groups) && g < |groups|
    ensures Unique(groups[g := groups[g] + [k]]) && Ordered(groups[g := groups[g] + [k]])
  {
    var gs := groups[g := groups[g] + [k]];
    assert gs[g][0] == groups[g][0];
    forall i, j, i', j' | 0 <= i < |gs| && 0 <= j < |gs[i]| && 0 <= i' < |gs| && 0 <= j' < |gs[i']|
      && gs[i][j] == gs[i'][j']
      ensures i == i' && j == j'
    {
      assert (i != g || j < |groups[g]|) ==> gs[i][j] == groups[i][j];
      assert (i' != g || j' < |groups[g]|) ==> gs[i'][j'] == groups[i'][j'];
    }
    forall i, j, j' | 0 <= i < |gs| && 0 <= j < j' < |gs[i]|
      ensures gs[i][j] < gs[i][j']
    {
      if i == g && j' == |groups[g]| {
        assert gs[i][j] == groups[g][j];
      } else {
        assert gs[i][j] == groups[i][j] && gs[i][j'] == groups[i][j'];
      }
    }
  }

  /** Joining keeps materials, topologies, lone animated slots, and separation. */
  lemma JoinUniformSeparate(mats: seq<Option<Material>>, subs: seq<SubMesh>, swaps: set<string>, groups: Groups, k: nat, g: nat)
    requires k < |mats| <= |subs| && GroupsInv(mats, subs, swaps, groups, k)
    requires g < |groups| && Joinable(mats, subs, swaps, groups[g], k)
    ensures Below(groups[g := groups[g] + [k]], |mats|)
    ensures Uniform(mats, subs, groups[g := groups[g] + [k]])
    ensures AnimatedAlone(swaps, groups[g := groups[g] + [k]])
    ensures Separate(mats, subs, swaps, groups[g := groups[g] + [k]])
  {
    var gs := groups[g := groups[g] + [k]];
    assert gs[g][0] == groups[g][0];
    assert !AnyAnimated(swaps, gs[g]) by {
      forall j | 0 <= j < |gs[g]|
        ensures !Animated(swaps, gs[g][j])
      {
        assert j < |groups[g]| ==> gs[g][j] == groups[g][j];
      }
    }
    forall i, j | 0 <= i < |gs| && 0 <= j < |gs[i]|
      ensures mats[gs[i][j]] == mats[gs[i][0]] && subs[gs[i][j]].topology == subs[gs[i][0]].topology
    {
      if i == g && j == |groups[g]| {
        assert mats[groups[g][0]] == mats[k];
      } else {
        assert gs[i][j] == groups[i][j];
      }
    }
    forall i, j | 0 <= i < |gs| && 0 <= j < |gs[i]| && Animated(swaps, gs[i][j])
      ensures |gs[i]| == 1
    {
      assert i != g;
      assert gs[i] == groups[i];
    }
    forall i, i' | 0 <= i < i' < |gs|
      ensures !Mergeable(mats, subs, swaps, gs[i], gs[i'])
    {
      assert !Mergeable(mats, subs, swaps, groups[i], groups[i']);
      assert gs[i][0] == groups[i][0] && gs[i'][0] == groups[i'][0];
    }
  }

  /** Joining group `g` keeps the invariant. */
  lemma JoinKeeps(mats: seq<Option<Material>>, subs: seq<SubMesh>, swaps: set<string>, groups: Groups, k: nat, g: nat)
    requires k < |mats| <= |subs| && GroupsInv(mats, subs, swaps, groups, k)
    requires g < |groups| && Joinable(mats, subs, swaps, groups[g], k)
    ensures GroupsInv(mats, subs, swaps, groups[g := groups[g] + [k]], k + 1)
  {
    JoinCovers(groups, k, g);
    JoinOrderedUnique(groups, k, g);
    JoinUniformSeparate(mats, subs, swaps, groups, k, g);
  }

  lemma AddSlotKeeps(mats: seq<Option<Material>>, subs: seq<SubMesh>, swaps: set<string>, groups: Groups, k: nat)
    requires k < |mats| <= |subs| && GroupsInv(mats, subs, swaps, groups, k)
    ensures GroupsInv(mats, subs, swaps, AddSlot(mats, subs, swaps, groups, k), k + 1)
  {
    var i := FirstJoinable(mats, subs, swaps, groups, k, 0);
    if i == |groups| {
      NewGroupKeeps(mats, subs, swaps, groups, k);
    } else {
      JoinKeeps(mats, subs, swaps, groups, k, i);
    }
  }

  /** The grouping partitions the slots into ordered, uniform groups in which an animated slot is
      alone, and no two groups could have been one. */
  lemma {:induction false} SlotGroupsInv(mats: seq<Option<Material>>, subs: seq<SubMesh>, swaps: set<string>, k: nat)
    requires k <= |mats| <= |subs|
    ensures GroupsInv(mats, subs, swaps, SlotGroups(mats, subs, swaps, k), k)
  {
    if k > 0 {
      SlotGroupsInv(mats, subs, swaps, k - 1);
      AddSlotKeeps(mats, subs, swaps, SlotGroups(mats, subs, swaps, k - 1), k - 1);
    }
  }

  /** Two unanimated slots with the same material and topology end up in the same group. */
  lemma SameSlotsMerged(mats: seq<Option<Material>>, subs: seq<SubMesh>, swaps: set<string>, groups: Groups,
                        i: nat, j: nat, i': nat, j': nat)
    requires |mats| <= |subs| && GroupsInv(mats, subs, swaps, groups, |mats|)
    requires i < |groups| && j < |groups[i]| && i' < |groups| && j' < |groups[i']|
    requires !Animated(swaps, groups[i][j]) && !Animated(swaps, groups[i'][j'])
    requires mats[groups[i][j]] == mats[groups[i'][j']]
    requires subs[groups[i][j]].topology == subs[groups[i'][j']].topology
    ensures i == i'
  {
    UnanimatedGroup(swaps, groups, i, j);
    UnanimatedGroup(swaps, groups, i', j');
  }

  /** A group holding an unanimated slot holds no animated one. */
  lemma UnanimatedGroup(swaps: set<string>, groups: Groups, i: nat, j: nat)
    requires AnimatedAlone(swaps, groups) && i < |groups| && j < |groups[i]| && !Animated(swaps, groups[i][j])
    ensures !AnyAnimated(swaps, groups[i])
  {
  }

  // ---------------------------------------------------------------------------------------------
  // The merged submeshes, materials and swap bindings

  /** The index lists of a group's slots, one after another. */
  function GroupIndices(subs: seq<SubMesh>, group: seq<nat>): seq<int>
    requires forall j :: 0 <= j < |group| ==> group[j] < |subs|
  {
    if group == [] then [] else GroupIndices(subs, group[..|group| - 1]) + subs[group[|group| - 1]].indices
  }

  /** The new submeshes: group i draws its slots' triangles with their shared topology. */
  function MergedSlots(subs: seq<SubMesh>, groups: Groups): (ms: seq<SubMesh>)
    requires Below(groups, |subs|)
    ensures |ms| == |groups|
  {
    seq(|groups|, i requires 0 <= i < |groups| => SubMesh(GroupIndices(subs, groups[i]), subs[groups[i][0]].topology))
  }

  /** The index of the group holding slot `s`. */
  function GroupOf(groups: Groups, s: nat): (i: nat)
    requires InGroups(groups, s)
    ensures i < |groups| && s in groups[i]
  {
    if s in groups[0] then 0
    else
      assert InGroups(groups[1..], s) by {
        var i, j :| 0 <= i < |groups| && 0 <= j < |groups[i]| && groups[i][j] == s;
        assert i > 0 && groups[1..][i - 1][j] == s;
      }
      GroupOf(groups[1..], s) + 1
  }

  /** A binding of the renderer whose slot property names a slot below `numMats`: the source
      renames it to the slot's group. */
  predicate Renamed(r: Renderer, numMats: nat, b: Binding)
  {
    References(r, b) && StartsWith(b.prop, SlotPrefix) && SlotIndex(b.prop, {']'}).Some?
    && 0 <= SlotIndex(b.prop, {']'}).value < numMats
  }

  function NewKey(r: Renderer, numMats: nat, groups: Groups, b: Binding): Binding
    requires Covers(groups, numMats)
  {
    if Renamed(r, numMats, b) then
      Binding(b.path, b.typ, SlotProperty(GroupOf(groups, SlotIndex(b.prop, {']'}).value)))
    else b
  }

  /** `StartsWith($"…data[{j}]", $"…data[{k}]")` only when j == k. */
  lemma SlotPropertyPrefix(j: int, k: int)
    requires StartsWith(SlotProperty(j), SlotProperty(k))
    ensures j == k
  {
    var dj, dk := IntToString(j), IntToString(k);
    var pj, pk := SlotProperty(j), SlotProperty(k);
    IntToStringHasNoBrackets(j);
    IntToStringHasNoBrackets(k);
    assert pk[|SlotPrefix| + |dk|] == ']';
    assert |dk| == |dj|;
    assert dk == pk[|SlotPrefix|..|SlotPrefix| + |dk|] == pj[|SlotPrefix|..|SlotPrefix| + |dj|] == dj;
    IntToStringInjective(j, k);
  }

  /** A renamed binding's slot is animated. */
  lemma RenamedIsAnimated(clips: map<ClipId, Clip>, r: Renderer, numMats: nat, c: ClipId, b: Binding)
    requires ValidClips(clips) && c in clips && b in clips[c] && Renamed(r, numMats, b)
    ensures b.prop == SlotProperty(SlotIndex(b.prop, {']'}).value)
    ensures Animated(SwapProperties(clips, r), SlotIndex(b.prop, {']'}).value)
  {
    var s := SlotIndex(b.prop, {']'}).value;
    assert b.prop in SwapProperties(clips, r);
    assert StartsWith(b.prop, SlotProperty(s));
  }

  /** The source's rename finds exactly the renamed bindings: with canonical names, a binding's
      property starts with the name of slot `s` iff it is the name of slot `s`. */
  lemma RenameMatchesSlot(clip: Clip, b: Binding, s: nat)
    requires ValidClip(clip) && b in clip && StartsWith(b.prop, SlotPrefix)
    ensures StartsWith(b.prop, SlotProperty(s)) <==> SlotIndex(b.prop, {']'}) == Some(s)
  {
    var s0 := SlotIndex(b.prop, {']'}).value;
    SlotIndexOfSlotProperty(s, {']'});
    if StartsWith(b.prop, SlotProperty(s)) {
      SlotPropertyPrefix(s0, s);
    }
  }

  /** Distinct bindings keep distinct keys. */
  lemma NewKeyInjective(clips: map<ClipId, Clip>, r: Renderer, numMats: nat, groups: Groups, c: ClipId,
                        b1: Binding, b2: Binding, mats: seq<Option<Material>>, subs: seq<SubMesh>)
    requires ValidClips(clips) && c in clips && b1 in clips[c] && b2 in clips[c]
    requires numMats == |mats| <= |subs| && GroupsInv(mats, subs, SwapProperties(clips, r), groups, numMats)
    requires NewKey(r, numMats, groups, b1) == NewKey(r, numMats, groups, b2)
    ensures b1 == b2
  {
    var swaps := SwapProperties(clips, r);
    if Renamed(r, numMats, b1) && Renamed(r, numMats, b2) {
      var s1, s2 := SlotIndex(b1.prop, {']'}).value, SlotIndex(b2.prop, {']'}).value;
      RenamedIsAnimated(clips, r, numMats, c, b1);
      RenamedIsAnimated(clips, r, numMats, c, b2);
      var g1, g2 := GroupOf(groups, s1), GroupOf(groups, s2);
      SlotPropertyInjective(g1, g2);
      AloneInGroup(swaps, groups, g1, s1);
      AloneInGroup(swaps, groups, g2, s2);
    } else if Renamed(r, numMats, b1) {
      RenamedStaysRenamed(r, numMats, groups, b1, b2);
    } else if Renamed(r, numMats, b2) {
      RenamedStaysRenamed(r, numMats, groups, b2, b1);
    }
  }

  lemma AloneInGroup(swaps: set<string>, groups: Groups, g: nat, s: nat)
    requires AnimatedAlone(swaps, groups) && g < |groups| && s in groups[g] && Animated(swaps, s)
    ensures groups[g] == [s]
  {
    var j :| 0 <= j < |groups[g]| && groups[g][j] == s;
    assert |groups[g]| == 1;
  }

  /** A group's index is at most its first slot. */
  lemma GroupIndexAtMostSlot(groups: Groups, i: nat, s: nat)
    requires Ordered(groups) && (forall k :: 0 <= k < |groups| ==> groups[k] != []) && i < |groups| && s in groups[i]
    ensures i <= s
  {
    var j :| 0 <= j < |groups[i]| && groups[i][j] == s;
    if j > 0 {
      assert groups[i][0] < groups[i][j];
    }
    HeadAtLeastIndex(groups, i);
  }

  lemma {:induction false} HeadAtLeastIndex(groups: Groups, i: nat)
    requires Ordered(groups) && i < |groups| && forall k :: 0 <= k < |groups| ==> groups[k] != []
    ensures groups[i][0] >= i
  {
    if i > 0 {
      HeadAtLeastIndex(groups, i - 1);
      assert groups[i - 1][0] < groups[i][0];
    }
  }

  /** The key a renamed binding moves to is not an untouched binding's key. */
  lemma RenamedStaysRenamed(r: Renderer, numMats: nat, groups: Groups, b: Binding, other: Binding)
    requires Below(groups, numMats) && Covers(groups, numMats) && Ordered(groups)
    requires Renamed(r, numMats, b) && NewKey(r, numMats, groups, b) == other
    ensures Renamed(r, numMats, other)
  {
    var s := SlotIndex(b.prop, {']'}).value;
    var g := GroupOf(groups, s);
    GroupIndexAtMostSlot(groups, g, s);
    SlotIndexOfSlotProperty(g, {']'});
    SlotPrefixNotActive(b.prop);
  }

  lemma RenameInjective(clips: map<ClipId, Clip>, r: Renderer, mats: seq<Option<Material>>, subs: seq<SubMesh>,
                        groups: Groups, c: ClipId)
    requires ValidClips(clips) && c in clips
    requires |mats| <= |subs| && GroupsInv(mats, subs, SwapProperties(clips, r), groups, |mats|)
    ensures forall b1, b2 :: b1 in clips[c] && b2 in clips[c] && NewKey(r, |mats|, groups, b1) == NewKey(r, |mats|, groups, b2) ==>
      b1 == b2
  {
    forall b1, b2 | b1 in clips[c] && b2 in clips[c] && NewKey(r, |mats|, groups, b1) == NewKey(r, |mats|, groups, b2)
      ensures b1 == b2
    {
      NewKeyInjective(clips, r, |mats|, groups, c, b1, b2, mats, subs);
    }
  }

  /** One clip after the swap bindings are renamed to their slot's group. */
  function RenameSlots(clips: map<ClipId, Clip>, r: Renderer, mats: seq<Option<Material>>, subs: seq<SubMesh>,
                       groups: Groups, c: ClipId): (clip': Clip)
    requires ValidClips(clips) && c in clips
    requires |mats| <= |subs| && GroupsInv(mats, subs, SwapProperties(clips, r), groups, |mats|)
    ensures forall b :: b in clips[c] ==> NewKey(r, |mats|, groups, b) in clip' && clip'[NewKey(r, |mats|, groups, b)] == clips[c][b]
    ensures forall b' :: b' in clip' ==> exists b :: b in clips[c] && NewKey(r, |mats|, groups, b) == b'
  {
    RenameInjective(clips, r, mats, subs, groups, c);
    map b | b in clips[c] :: NewKey(r, |mats|, groups, b) := clips[c][b]
  }

  /** Every clip after the renames. */
  function RenameAll(clips: map<ClipId, Clip>, r: Renderer, mats: seq<Option<Material>>, subs: seq<SubMesh>,
                     groups: Groups): (clips': map<ClipId, Clip>)
    requires ValidClips(clips)
    requires |mats| <= |subs| && GroupsInv(mats, subs, SwapProperties(clips, r), groups, |mats|)
    ensures clips'.Keys == clips.Keys
  {
    map c | c in clips :: RenameSlots(clips, r, mats, subs, groups, c)
  }

  /** The new material list: each group's first material. */
  function FirstMaterials(mats: seq<Option<Material>>, groups: Groups): (ms: seq<Option<Material>>)
    requires Below(groups, |mats|)
    ensures |ms| == |groups|
  {
    seq(|groups|, i requires 0 <= i < |groups| => mats[groups[i][0]])
  }

  /** What `MergeSameMaterials` leaves on the renderer. A null mesh fails; a renderer with more
      material slots than submeshes fails at the first out-of-range submesh query, before any
      change is made. */
  function MergedSameMaterials(clips: map<ClipId, Clip>, r: Renderer): (res: Result<Renderer>)
    ensures res.Err? <==> r.mesh.None? || |r.materials| > |r.mesh.value.subMeshes|
    ensures res.Err? ==> res.error == (if r.mesh.None? then NullReference else IndexOutOfRange)
    ensures res.Ok? ==> res.value.mesh.Some? && res.value.path == r.path && res.value.kind == r.kind
    ensures res.Ok? ==> res.value.mesh.value.vertices == r.mesh.value.vertices
  {
    if r.mesh.None? then Err(NullReference)
    else if |r.materials| > |r.mesh.value.subMeshes| then Err(IndexOutOfRange)
    else
      var subs := r.mesh.value.subMeshes;
      var groups := SlotGroups(r.materials, subs, SwapProperties(clips, r), |r.materials|);
      Ok(r.(mesh := Some(r.mesh.value.(subMeshes := MergedSlots(subs, groups))),
            materials := FirstMaterials(r.materials, groups)))
  }

  /** The groups `MergeSameMaterials` forms for `r`. */
  function GroupsOf(clips: map<ClipId, Clip>, r: Renderer): (groups: Groups)
    requires r.mesh.Some? && |r.materials| <= |r.mesh.value.subMeshes|
    ensures groups == SlotGroups(r.materials, r.mesh.value.subMeshes, SwapProperties(clips, r), |r.materials|)
    ensures GroupsInv(r.materials, r.mesh.value.subMeshes, SwapProperties(clips, r), groups, |r.materials|)
  {
    SlotGroupsInv(r.materials, r.mesh.value.subMeshes, SwapProperties(clips, r), |r.materials|);
    SlotGroups(r.materials, r.mesh.value.subMeshes, SwapProperties(clips, r), |r.materials|)
  }

  // ---------------------------------------------------------------------------------------------
  // The imperative operation

  /** The `foreach (var group in compatibilityGroups)` search for the first group `slot` may join. */
  method FindGroup(mats: seq<Option<Material>>, subs: seq<SubMesh>, swaps: set<string>, groups: Groups, slot: nat)
    returns (found: nat)
    requires |mats| <= |subs| && slot < |mats| && Below(groups, |mats|)
    ensures found == FirstJoinable(mats, subs, swaps, groups, slot, 0)
  {
    found := 0;
    while found < |groups| && !Joinable(mats, subs, swaps, groups[found], slot)
      invariant found <= |groups|
      invariant FirstJoinable(mats, subs, swaps, groups, slot, found) == FirstJoinable(mats, subs, swaps, groups, slot, 0)
      decreases |groups| - found
    {
      found := found + 1;
    }
  }

  /** The `while (slots.Count > 0)` loop: slots are consumed from the front in ascending order. */
  method GroupSlots(mats: seq<Option<Material>>, subs: seq<SubMesh>, swaps: set<string>) returns (groups: Groups)
    requires |mats| <= |subs|
    ensures groups == SlotGroups(mats, subs, swaps, |mats|)
  {
    var slots: seq<nat> := seq(|mats|, k => k);
    groups := [];
    while |slots| > 0
      invariant |slots| <= |mats|
      invariant forall k :: 0 <= k < |slots| ==> slots[k] == |mats| - |slots| + k
      invariant groups == SlotGroups(mats, subs, swaps, |mats| - |slots|)
      decreases |slots|
    {
      var slot := slots[0];
      slots := slots[1..];
      var i := FindGroup(mats, subs, swaps, groups, slot);
      if i == |groups| {
        groups := groups + [[slot]];
      } else {
        groups := groups[i := groups[i] + [slot]];
      }
    }
  }

  /** `indices.AddRange(oldMesh.GetIndices(slot))` over one group. */
  method CollectIndices(subs: seq<SubMesh>, group: seq<nat>) returns (indices: seq<int>)
    requires forall j :: 0 <= j < |group| ==> group[j] < |subs|
    ensures indices == GroupIndices(subs, group)
  {
    indices := [];
    for j := 0 to |group|
      invariant indices == GroupIndices(subs, group[..j])
    {
      assert group[..j + 1][..j] == group[..j];
      indices := indices + subs[group[j]].indices;
    }
    assert group[..|group|] == group;
  }

  /** `MergeSameMaterials(smr)`: returns the renderer with its coalesced mesh and material list,
      and the clips with every material-swap binding re-pointed to its slot's group. On failure
      nothing changes. */
  method MergeSameMaterials(clips: map<ClipId, Clip>, r: Renderer) returns (res: Result<Renderer>, clips': map<ClipId, Clip>)
    requires ValidClips(clips)
    ensures res == MergedSameMaterials(clips, r)
    ensures res.Err? ==> clips' == clips
    ensures res.Ok? ==> clips' == RenameAll(clips, r, r.materials, r.mesh.value.subMeshes, GroupsOf(clips, r))
  {
    clips' := clips;
    var swaps := SwapProperties(clips, r);
    if r.mesh.None? {
      return Err(NullReference), clips';
    }
    var subs := r.mesh.value.subMeshes;
    if |r.materials| > |subs| {
      return Err(IndexOutOfRange), clips';
    }
    var groups := GroupSlots(r.materials, subs, swaps);
    SlotGroupsInv(r.materials, subs, swaps, |r.materials|);
    var newSubs: seq<SubMesh> := [];
    for i := 0 to |groups|
      invariant |newSubs| == i
      invariant forall k :: 0 <= k < i ==> newSubs[k] == MergedSlots(subs, groups)[k]
    {
      var indices := CollectIndices(subs, groups[i]);
      newSubs := newSubs + [SubMesh(indices, subs[groups[i][0]].topology)];
    }
    assert newSubs == MergedSlots(subs, groups);
    clips' := RenameAll(clips, r, r.materials, subs, groups);
    res := Ok(r.(mesh := Some(r.mesh.value.(subMeshes := newSubs)), materials := FirstMaterials(r.materials, groups)));
  }

  // ---------------------------------------------------------------------------------------------
  // Properties of the result

  /** Each slot's triangles are inside its group's index list. */
  lemma {:induction false} GroupIndicesHoldSlot(subs: seq<SubMesh>, group: seq<nat>, j: nat)
    requires forall k :: 0 <= k < |group| ==> group[k] < |subs|
    requires j < |group|
    ensures multiset(subs[group[j]].indices) <= multiset(GroupIndices(subs, group))
  {
    if j < |group| - 1 {
      GroupIndicesHoldSlot(subs, group[..|group| - 1], j);
    }
  }

  /** A one-slot group keeps that slot's triangles as they were. */
  lemma GroupIndicesSingleton(subs: seq<SubMesh>, s: nat)
    requires s < |subs|
    ensures GroupIndices(subs, [s]) == subs[s].indices
  {
    assert [s][..0] == [];
  }

  /** New slot i holds the material of every slot of group i, draws with their topology and
      holds their triangles; a slot with a swap animation keeps its submesh unchanged. */
  lemma MergedSlotContents(clips: map<ClipId, Clip>, r: Renderer, i: nat, j: nat)
    requires MergedSameMaterials(clips, r).Ok?
    requires i < |GroupsOf(clips, r)| && j < |GroupsOf(clips, r)[i]|
    ensures var r' := MergedSameMaterials(clips, r).value;
            var s := GroupsOf(clips, r)[i][j];
            var subs := r.mesh.value.subMeshes;
            && i < |r'.materials| == |r'.mesh.value.subMeshes|
            && r'.materials[i] == r.materials[s]
            && r'.mesh.value.subMeshes[i].topology == subs[s].topology
            && multiset(subs[s].indices) <= multiset(r'.mesh.value.subMeshes[i].indices)
            && (Animated(SwapProperties(clips, r), s) ==> r'.mesh.value.subMeshes[i] == subs[s])
  {
    var groups := GroupsOf(clips, r);
    var subs := r.mesh.value.subMeshes;
    var swaps := SwapProperties(clips, r);
    SlotGroupsInv(r.materials, subs, swaps, |r.materials|);
    GroupIndicesHoldSlot(subs, groups[i], j);
    if Animated(swaps, groups[i][j]) {
      assert groups[i] == [groups[i][j]];
      GroupIndicesSingleton(subs, groups[i][j]);
    }
  }

  /** A renamed swap binding's curve is found under its slot's group index, the slot being
      alone in that group; every other binding keeps its curve. */
  lemma RenameMovesSwaps(clips: map<ClipId, Clip>, r: Renderer, mats: seq<Option<Material>>, subs: seq<SubMesh>,
                         groups: Groups, c: ClipId, b: Binding)
    requires ValidClips(clips) && c in clips && b in clips[c]
    requires |mats| <= |subs| && GroupsInv(mats, subs, SwapProperties(clips, r), groups, |mats|)
    ensures var clip' := RenameSlots(clips, r, mats, subs, groups, c);
            if Renamed(r, |mats|, b) then
              var s := SlotIndex(b.prop, {']'}).value;
              var g := GroupOf(groups, s);
              && groups[g] == [s]
              && Binding(b.path, b.typ, SlotProperty(g)) in clip'
              && clip'[Binding(b.path, b.typ, SlotProperty(g))] == clips[c][b]
            else b in clip' && clip'[b] == clips[c][b]
  {
    var clip' := RenameSlots(clips, r, mats, subs, groups, c);
    assert NewKey(r, |mats|, groups, b) in clip';
    if Renamed(r, |mats|, b) {
      var s := SlotIndex(b.prop, {']'}).value;
      RenamedIsAnimated(clips, r, |mats|, c, b);
      AloneInGroup(SwapProperties(clips, r), groups, GroupOf(groups, s), s);
    }
  }

  /** The rename drops no curve: the renamed clip is the image of the old clip under `NewKey`,
      and has as many curves. */
  lemma RenameKeys(clips: map<ClipId, Clip>, r: Renderer, mats: seq<Option<Material>>, subs: seq<SubMesh>,
                   groups: Groups, c: ClipId)
    requires ValidClips(clips) && c in clips
    requires |mats| <= |subs| && GroupsInv(mats, subs, SwapProperties(clips, r), groups, |mats|)
    ensures var clip' := RenameSlots(clips, r, mats, subs, groups, c);
            && |clip'.Keys| == |clips[c].Keys|
            && forall b' :: b' in clip' <==> exists b :: b in clips[c] && NewKey(r, |mats|, groups, b) == b'
  {
    var clip := clips[c];
    var clip' := RenameSlots(clips, r, mats, subs, groups, c);
    var f := (b: Binding) requires Covers(groups, |mats|) => NewKey(r, |mats|, groups, b);
    RenameInjective(clips, r, mats, subs, groups, c);
    ImageSize(clip.Keys, clip'.Keys, f);
  }

  /** A set in one-to-one correspondence with another has its size. */
  lemma {:induction false} ImageSize<A, B>(s: set<A>, t: set<B>, f: A --> B)
    requires forall a :: a in s ==> f.requires(a) && f(a) in t
    requires forall y :: y in t ==> exists a :: a in s && f(a) == y
    requires forall a1, a2 :: a1 in s && a2 in s && f(a1) == f(a2) ==> a1 == a2
    ensures |t| == |s|
  {
    if s != {} {
      var a :| a in s;
      ImageSize(s - {a}, t - {f(a)}, f);
    }
  }

  /** Renamed clips keep the canonical form of slot bindings. */
  lemma RenameKeepsValid(clips: map<ClipId, Clip>, r: Renderer)
    requires ValidClips(clips) && MergedSameMaterials(clips, r).Ok?
    ensures ValidClips(RenameAll(clips, r, r.materials, r.mesh.value.subMeshes, GroupsOf(clips, r)))
  {
    var groups := GroupsOf(clips, r);
    var subs := r.mesh.value.subMeshes;
    SlotGroupsInv(r.materials, subs, SwapProperties(clips, r), |r.materials|);
    var all' := RenameAll(clips, r, r.materials, subs, groups);
    forall c | c in all'
      ensures ValidClip(all'[c])
    {
      forall b': Binding | b' in all'[c]
        ensures StartsWith(b'.prop, SlotPrefix) ==>
                  SlotIndex(b'.prop, {']'}).Some? && b'.prop == SlotProperty(SlotIndex(b'.prop, {']'}).value)
                  && all'[c][b'].ObjectCurve?
        ensures StartsWith(b'.prop, BlendShapePrefix) || StartsWith(b'.prop, MaterialPrefix) ==> all'[c][b'].FloatCurve?
      {
        RenameKeys(clips, r, r.materials, subs, groups, c);
        var b :| b in clips[c] && NewKey(r, |r.materials|, groups, b) == b';
        RenameMovesSwaps(clips, r, r.materials, subs, groups, c, b);
        if Renamed(r, |r.materials|, b) {
          var g := GroupOf(groups, SlotIndex(b.prop, {']'}).value);
          SlotIndexOfSlotProperty(g, {']'});
          SlotPropertyPrefixes(g);
        }
      }
    }
  }
}
