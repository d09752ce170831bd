/** The mesh-merge builder's `Apply`: renderers below a nested animator are left alone; the
    others are partitioned greedily into groups of pairwise compatible renderers; in each group
    the root "Body" mesh (or else the first member) is kept, every other member's animations
    are moved onto it and its mesh merged into it, and finally the kept renderer's equal
    material slots are coalesced. Compatibility is decided on the avatar as it was before any
    merge, since all groups are formed first. */
module MergeApply {
  import opened Base
  import opened Unity
  import opened Compatibility
  import MeshMerge
  import CurveFixup
  import SlotMerge

  // ---------------------------------------------------------------------------------------------
  // Candidates

  /** `allSMRs.RemoveAll(...)`: the renderers not below an animator other than the root's, in
      their order. */
  function Eligible(rs: seq<Renderer>): (es: seq<Renderer>)
    ensures |es| <= |rs|
    ensures forall r :: r in es <==> r in rs && !r.underNestedAnimator
  {
    if rs == [] then []
    else (if rs[0].underNestedAnimator then [] else [rs[0]]) + Eligible(rs[1..])
  }

  predicate AllMeshes(es: seq<Renderer>) {
    forall i :: 0 <= i < |es| ==> es[i].mesh.Some?
  }

  /** Animations address renderers by path, so renderers are told apart by their paths. */
  predicate DistinctPaths(es: seq<Renderer>) {
    forall i, j :: 0 <= i < j < |es| ==> es[i].path != es[j].path
  }

  predicate InRange(s: seq<nat>, n: nat) {
    forall j :: 0 <= j < |s| ==> s[j] < n
  }

  predicate Increasing(s: seq<nat>) {
    forall i, j :: 0 <= i < j < |s| ==> s[i] < s[j]
  }

  // ---------------------------------------------------------------------------------------------
  // Grouping, over a compatibility relation `ok` on candidate indices

  /** `AreSMRsCompatible` on candidate indices. */
  function Compat(clips: map<ClipId, Clip>, es: seq<Renderer>, mergeBodyMesh: bool): (ok: (nat, nat) -> bool)
    requires ValidClips(clips) && AllMeshes(es)
    ensures forall i: nat, j: nat :: i < |es| && j < |es| ==> (ok(i, j) <==> Compatible(clips, es[i], es[j], mergeBodyMesh))
  {
    (i: nat, j: nat) => i < |es| && j < |es| && Compatible(clips, es[i], es[j], mergeBodyMesh)
  }

  /** `meshGroup.All(s => AreSMRsCompatible(s, smr))` */
  predicate CompatibleWithAll(ok: (nat, nat) -> bool, group: seq<nat>, k: nat) {
    forall j :: 0 <= j < |group| ==> ok(group[j], k)
  }

  /** The `foreach (var smr in allSMRs)` pass: each candidate, in order, joins when it is
      compatible with every member so far. */
  function GrowGroup(ok: (nat, nat) -> bool, group: seq<nat>, cands: seq<nat>): (g: seq<nat>)
    ensures |group| <= |g| && g[..|group|] == group
    ensures forall j :: 0 <= j < |g| ==> g[j] in group || g[j] in cands
    decreases |cands|
  {
    if cands == [] then group
    else
      var group' := if CompatibleWithAll(ok, group, cands[0]) then group + [cands[0]] else group;
      var g := GrowGroup(ok, group', cands[1..]);
      assert g[..|group|] == g[..|group'|][..|group|];
      assert forall j :: 0 <= j < |g| && g[j] in cands[1..] ==> g[j] in cands;
      g
  }

  /** `allSMRs.RemoveAll(s => meshGroup.Contains(s))` */
  function Without(s: seq<nat>, g: seq<nat>): (r: seq<nat>)
    ensures |r| <= |s| && (s != [] && s[0] in g ==> |r| < |s|)
    ensures forall x :: x in r <==> x in s && x !in g
    ensures forall j :: 0 <= j < |r| ==> r[j] in s
  {
    if s == [] then [] else (if s[0] in g then [] else [s[0]]) + Without(s[1..], g)
  }

  /** The `while (allSMRs.Count > 0)` loop over the remaining candidate indices `rest`. */
  function MeshGroups(ok: (nat, nat) -> bool, rest: seq<nat>): (gs: seq<seq<nat>>)
    ensures forall i :: 0 <= i < |gs| ==> gs[i] != [] && forall j :: 0 <= j < |gs[i]| ==> gs[i][j] in rest
    decreases |rest|
  {
    if rest == [] then []
    else
      var g := GrowGroup(ok, [rest[0]], rest[1..]);
      assert g[0] == rest[0];
      assert forall j :: 0 <= j < |g| ==> g[j] in rest;
      var gs' := MeshGroups(ok, Without(rest, g));
      assert forall i :: 0 < i < |[g] + gs'| ==> ([g] + gs')[i] == gs'[i - 1];
      [g] + gs'
  }

  function Indices(n: nat): (s: seq<nat>)
    ensures |s| == n && forall k :: 0 <= k < n ==> s[k] == k
  {
    seq(n, k => k)
  }

  /** The groups `Apply` forms from the eligible renderers `es`: indices into `es`. */
  function GroupsOf(clips: map<ClipId, Clip>, es: seq<Renderer>, mergeBodyMesh: bool): (gs: seq<seq<nat>>)
    requires ValidClips(clips) && AllMeshes(es)
    ensures forall i :: 0 <= i < |gs| ==> gs[i] != [] && InRange(gs[i], |es|)
  {
    var gs := MeshGroups(Compat(clips, es, mergeBodyMesh), Indices(|es|));
    assert forall i, j :: 0 <= i < |gs| && 0 <= j < |gs[i]| ==> gs[i][j] in Indices(|es|);
    gs
  }

  // ---------------------------------------------------------------------------------------------
  // What the grouping guarantees

  predicate PairwiseCompatible(ok: (nat, nat) -> bool, g: seq<nat>) {
    forall j, j' :: 0 <= j < j' < |g| ==> ok(g[j], g[j'])
  }

  /** Candidate `x`, left out of `g`, is incompatible with a member that joined before it. */
  predicate Rejected(ok: (nat, nat) -> bool, g: seq<nat>, x: nat) {
    exists j :: 0 <= j < |g| && g[j] < x && !ok(g[j], x)
  }

  /** Every element of `a` is below every element of `b`. */
  predicate Below(a: seq<nat>, b: seq<nat>) {
    forall x, y :: x in a && y in b ==> x < y
  }

  /** The grown group is ascending and pairwise compatible. */
  lemma {:induction false} GrowGroupOrdered(ok: (nat, nat) -> bool, group: seq<nat>, cands: seq<nat>)
    requires Increasing(group) && Increasing(cands) && Below(group, cands) && PairwiseCompatible(ok, group)
    ensures var g := GrowGroup(ok, group, cands); Increasing(g) && PairwiseCompatible(ok, g)
    decreases |cands|
  {
    if cands != [] {
      var c := cands[0];
      IncreasingTail(cands);
      if CompatibleWithAll(ok, group, c) {
        AppendKeeps(ok, group, cands);
        GrowGroupOrdered(ok, group + [c], cands[1..]);
      } else {
        BelowTail(group, cands);
        GrowGroupOrdered(ok, group, cands[1..]);
      }
    }
  }

  /** Every candidate left out of the grown group was rejected by a member that came before it. */
  lemma {:induction false} GrowGroupRejects(ok: (nat, nat) -> bool, group: seq<nat>, cands: seq<nat>)
    requires Increasing(cands) && Below(group, cands)
    ensures var g := GrowGroup(ok, group, cands);
            forall k :: 0 <= k < |cands| && cands[k] !in g ==> Rejected(ok, g, cands[k])
    decreases |cands|
  {
    if cands != [] {
      var c := cands[0];
      IncreasingTail(cands);
      var joins := CompatibleWithAll(ok, group, c);
      var group' := if joins then group + [c] else group;
      if joins {
        AppendBelow(group, cands);
      } else {
        BelowTail(group, cands);
      }
      GrowGroupRejects(ok, group', cands[1..]);
      var g := GrowGroup(ok, group', cands[1..]);
      assert g[..|group'|] == group';
      assert joins ==> c in g by {
        if joins {
          assert g[|group|] == group'[|group|] == c;
        }
      }
      forall k | 0 <= k < |cands| && cands[k] !in g
        ensures Rejected(ok, g, cands[k])
      {
        if k == 0 {
          var j :| 0 <= j < |group| && !ok(group[j], c);
          assert g[j] == group[j] && group[j] in group && c in cands;
        } else {
          assert cands[k] == cands[1..][k - 1];
        }
      }
    }
  }

  lemma IncreasingTail(s: seq<nat>)
    requires Increasing(s) && s != []
    ensures Increasing(s[1..])
  {
    forall i, j | 0 <= i < j < |s[1..]|
      ensures s[1..][i] < s[1..][j]
    {
      assert s[1..][i] == s[i + 1] && s[1..][j] == s[j + 1];
    }
  }

  lemma BelowTail(a: seq<nat>, b: seq<nat>)
    requires Below(a, b) && b != []
    ensures Below(a, b[1..])
  {
    forall x, y | x in a && y in b[1..]
      ensures x < y
    {
      assert y in b;
    }
  }

  /** The first candidate, appended, is still below the remaining ones. */
  lemma AppendBelow(group: seq<nat>, cands: seq<nat>)
    requires Increasing(cands) && Below(group, cands) && cands != []
    ensures Below(group + [cands[0]], cands[1..])
  {
    forall x, y | x in group + [cands[0]] && y in cands[1..]
      ensures x < y
    {
      assert y in cands;
      var k :| 0 <= k < |cands[1..]| && cands[1..][k] == y;
      assert cands[k + 1] == y;
    }
  }

  /** Appending the first candidate, when it joins, keeps the group ascending and compatible. */
  lemma AppendKeeps(ok: (nat, nat) -> bool, group: seq<nat>, cands: seq<nat>)
    requires Increasing(group) && Increasing(cands) && Below(group, cands) && cands != []
    requires PairwiseCompatible(ok, group) && CompatibleWithAll(ok, group, cands[0])
    ensures var g := group + [cands[0]];
            Increasing(g) && Below(g, cands[1..]) && PairwiseCompatible(ok, g)
  {
    var c := cands[0];
    var g := group + [c];
    AppendBelow(group, cands);
    forall i, j | 0 <= i < j < |g|
      ensures g[i] < g[j]
    {
      assert g[i] == group[i] && group[i] in group;
      if j < |group| {
        assert g[j] == group[j];
      } else {
        assert g[j] == c && c in cands;
      }
    }
    forall j, j' | 0 <= j < j' < |g|
      ensures ok(g[j], g[j'])
    {
      assert g[j] == group[j];
      assert j' < |group| ==> g[j'] == group[j'];
    }
  }

  lemma IncreasingCons(a: nat, t: seq<nat>)
    requires Increasing(t) && forall j :: 0 <= j < |t| ==> a < t[j]
    ensures Increasing([a] + t)
  {
    var r := [a] + t;
    forall i, j | 0 <= i < j < |r|
      ensures r[i] < r[j]
    {
      assert r[j] == t[j - 1];
      assert i > 0 ==> r[i] == t[i - 1];
    }
  }

  lemma {:induction false} WithoutIncreasing(s: seq<nat>, g: seq<nat>)
    requires Increasing(s)
    ensures Increasing(Without(s, g))
  {
    if s != [] {
      WithoutIncreasing(s[1..], g);
      var t := Without(s[1..], g);
      if s[0] !in g {
        forall j | 0 <= j < |t|
          ensures s[0] < t[j]
        {
          assert t[j] in s[1..];
          var k :| 0 <= k < |s[1..]| && s[1..][k] == t[j];
          assert s[k + 1] == t[j];
        }
        IncreasingCons(s[0], t);
        assert Without(s, g) == [s[0]] + t;
      } else {
        assert Without(s, g) == [] + t;
      }
    }
  }

  /** The groups partition the candidates, each is ascending and pairwise compatible, groups
      come in the order of their first member, and a renderer placed in a later group was
      incompatible with a member of every earlier group that it followed. */
  predicate GreedyGroups(ok: (nat, nat) -> bool, rest: seq<nat>, gs: seq<seq<nat>>) {
    && NonEmpty(gs)
    && EachCompatible(ok, gs)
    && Partition(rest, gs)
    && HeadsAscending(gs)
    && LaterRejected(ok, gs)
  }

  predicate NonEmpty(gs: seq<seq<nat>>) {
    forall i :: 0 <= i < |gs| ==> gs[i] != []
  }

  predicate EachCompatible(ok: (nat, nat) -> bool, gs: seq<seq<nat>>) {
    forall i :: 0 <= i < |gs| ==> Increasing(gs[i]) && PairwiseCompatible(ok, gs[i])
  }

  predicate HeadsAscending(gs: seq<seq<nat>>)
    requires NonEmpty(gs)
  {
    forall i, i' :: 0 <= i < i' < |gs| ==> gs[i][0] < gs[i'][0]
  }

  /** Every candidate is in exactly one group, and groups hold candidates only. */
  predicate Partition(rest: seq<nat>, gs: seq<seq<nat>>) {
    && (forall i, x :: 0 <= i < |gs| && x in gs[i] ==> x in rest)
    && (forall x :: x in rest ==> exists i :: 0 <= i < |gs| && x in gs[i])
    && (forall i, i', x :: 0 <= i < i' < |gs| && x in gs[i'] ==> x !in gs[i])
  }

  predicate LaterRejected(ok: (nat, nat) -> bool, gs: seq<seq<nat>>)
    requires NonEmpty(gs)
  {
    forall i, i', j :: 0 <= i < i' < |gs| && 0 <= j < |gs[i']| && gs[i'][j] > gs[i][0] ==>
      Rejected(ok, gs[i], gs[i'][j])
  }

  /** The first group and the groups of what remains form a partition of the candidates. */
  lemma ConsPartition(rest: seq<nat>, g: seq<nat>, gs': seq<seq<nat>>)
    requires forall j :: 0 <= j < |g| ==> g[j] in rest
    requires Partition(Without(rest, g), gs')
    ensures Partition(rest, [g] + gs')
  {
    var gs := [g] + gs';
    assert forall i :: 0 < i < |gs| ==> gs[i] == gs'[i - 1];
    forall x | x in rest
      ensures exists i :: 0 <= i < |gs| && x in gs[i]
    {
      if x in g {
        assert gs[0] == g;
      } else {
        var i :| 0 <= i < |gs'| && x in gs'[i];
        assert gs[i + 1] == gs'[i];
      }
    }
    forall i, x | 0 <= i < |gs| && x in gs[i]
      ensures x in rest
    {
      if i == 0 {
        var j :| 0 <= j < |g| && g[j] == x;
      }
    }
    forall i, i', x | 0 <= i < i' < |gs| && x in gs[i']
      ensures x !in gs[i]
    {
      assert x in gs'[i' - 1];
    }
  }

  /** A renderer in a later group that follows the first group's head was rejected by it. */
  lemma ConsRejected(ok: (nat, nat) -> bool, rest: seq<nat>, g: seq<nat>, gs': seq<seq<nat>>)
    requires rest != [] && g != [] && g[0] == rest[0] && NonEmpty(gs')
    requires forall k :: 0 < k < |rest| && rest[k] !in g ==> Rejected(ok, g, rest[k])
    requires Partition(Without(rest, g), gs') && LaterRejected(ok, gs')
    ensures NonEmpty([g] + gs') && LaterRejected(ok, [g] + gs')
  {
    var gs := [g] + gs';
    assert forall i :: 0 < i < |gs| ==> gs[i] == gs'[i - 1];
    forall i, i', j | 0 <= i < i' < |gs| && 0 <= j < |gs[i']| && gs[i'][j] > gs[i][0]
      ensures Rejected(ok, gs[i], gs[i'][j])
    {
      var x := gs[i'][j];
      if i == 0 {
        assert x in gs'[i' - 1];
        assert x in rest && x !in g;
        var k :| 0 <= k < |rest| && rest[k] == x;
      }
    }
  }

  /** The later groups' heads come after the first candidate. */
  lemma HeadsAfter(rest: seq<nat>, g: seq<nat>, gs': seq<seq<nat>>)
    requires rest != [] && g != [] && g[0] == rest[0] && Increasing(rest) && NonEmpty(gs')
    requires Partition(Without(rest, g), gs')
    ensures forall i :: 0 <= i < |gs'| ==> rest[0] < gs'[i][0]
  {
    forall i | 0 <= i < |gs'|
      ensures rest[0] < gs'[i][0]
    {
      var x := gs'[i][0];
      assert x in gs'[i];
      assert x in rest && x !in g;
      var k :| 0 <= k < |rest| && rest[k] == x;
    }
  }

  /** Groups come in the order of their heads. */
  lemma ConsHeads(g: seq<nat>, gs': seq<seq<nat>>)
    requires g != [] && NonEmpty(gs') && HeadsAscending(gs')
    requires forall i :: 0 <= i < |gs'| ==> g[0] < gs'[i][0]
    ensures NonEmpty([g] + gs') && HeadsAscending([g] + gs')
  {
    var gs := [g] + gs';
    assert forall i :: 0 < i < |gs| ==> gs[i] == gs'[i - 1];
  }

  lemma ConsCompatible(ok: (nat, nat) -> bool, g: seq<nat>, gs': seq<seq<nat>>)
    requires Increasing(g) && PairwiseCompatible(ok, g) && EachCompatible(ok, gs')
    ensures EachCompatible(ok, [g] + gs')
  {
    var gs := [g] + gs';
    assert forall i :: 0 < i < |gs| ==> gs[i] == gs'[i - 1];
  }

  /** Putting a greedy first group in front of the greedy grouping of what it leaves. */
  lemma ConsGreedy(ok: (nat, nat) -> bool, rest: seq<nat>, g: seq<nat>, gs': seq<seq<nat>>)
    requires rest != [] && g != [] && g[0] == rest[0] && Increasing(rest)
    requires Increasing(g) && PairwiseCompatible(ok, g)
    requires forall j :: 0 <= j < |g| ==> g[j] in rest
    requires forall k :: 0 < k < |rest| && rest[k] !in g ==> Rejected(ok, g, rest[k])
    requires GreedyGroups(ok, Without(rest, g), gs')
    ensures GreedyGroups(ok, rest, [g] + gs')
  {
    ConsPartition(rest, g, gs');
    ConsRejected(ok, rest, g, gs');
    HeadsAfter(rest, g, gs');
    ConsHeads(g, gs');
    ConsCompatible(ok, g, gs');
  }

  lemma {:induction false} MeshGroupsGreedy(ok: (nat, nat) -> bool, rest: seq<nat>)
    requires Increasing(rest)
    ensures GreedyGroups(ok, rest, MeshGroups(ok, rest))
    decreases |rest|
  {
    if rest != [] {
      var head, cands := [rest[0]], rest[1..];
      assert Below(head, cands) by {
        forall x, y | x in head && y in cands
          ensures x < y
        {
          var k :| 0 <= k < |cands| && cands[k] == y;
          assert rest[k + 1] == y;
        }
      }
      IncreasingTail(rest);
      GrowGroupOrdered(ok, head, cands);
      GrowGroupRejects(ok, head, cands);
      var g := GrowGroup(ok, head, cands);
      assert forall k :: 0 < k < |rest| ==> rest[k] == cands[k - 1];
      assert forall j :: 0 <= j < |g| ==> g[j] in rest by {
        forall j | 0 <= j < |g|
          ensures g[j] in rest
        {
          if g[j] !in head {
            assert g[j] in cands;
          }
        }
      }
      var rest' := Without(rest, g);
      WithoutIncreasing(rest, g);
      MeshGroupsGreedy(ok, rest');
      ConsGreedy(ok, rest, g, MeshGroups(ok, rest'));
    }
  }

  /** The grouping of all eligible renderers has those properties. */
  lemma GroupsOfGreedy(clips: map<ClipId, Clip>, es: seq<Renderer>, mergeBodyMesh: bool)
    requires ValidClips(clips) && AllMeshes(es)
    ensures GreedyGroups(Compat(clips, es, mergeBodyMesh), Indices(|es|), GroupsOf(clips, es, mergeBodyMesh))
  {
    var s := Indices(|es|);
    assert Increasing(s);
    MeshGroupsGreedy(Compat(clips, es, mergeBodyMesh), s);
  }

  lemma GroupsIncreasing(clips: map<ClipId, Clip>, es: seq<Renderer>, mergeBodyMesh: bool)
    requires ValidClips(clips) && AllMeshes(es)
    ensures var gs := GroupsOf(clips, es, mergeBodyMesh); forall i :: 0 <= i < |gs| ==> Increasing(gs[i])
  {
    GroupsOfGreedy(clips, es, mergeBodyMesh);
    assert EachCompatible(Compat(clips, es, mergeBodyMesh), GroupsOf(clips, es, mergeBodyMesh));
  }

  // ---------------------------------------------------------------------------------------------
  // Target and merge order

  /** `group.FirstOrDefault(s => s is the root "Body")` as a position in the group, or `|group|`. */
  function BodyPosition(es: seq<Renderer>, group: seq<nat>): (k: nat)
    requires InRange(group, |es|)
    ensures k <= |group|
    ensures k < |group| ==> IsBodyMesh(es[group[k]])
    ensures forall j :: 0 <= j < k ==> !IsBodyMesh(es[group[j]])
  {
    if group == [] then 0
    else if IsBodyMesh(es[group[0]]) then 0
    else BodyPosition(es, group[1..]) + 1
  }

  /** The kept renderer: the group's first root "Body" mesh, or else its first member. */
  function MergeTarget(es: seq<Renderer>, group: seq<nat>): (t: nat)
    requires InRange(group, |es|) && group != []
    ensures t in group && t < |es|
    ensures (exists j :: 0 <= j < |group| && IsBodyMesh(es[group[j]])) ==>
              IsBodyMesh(es[t]) && exists k :: 0 <= k < |group| && group[k] == t &&
                                     forall j :: 0 <= j < k ==> !IsBodyMesh(es[group[j]])
    ensures (forall j :: 0 <= j < |group| ==> !IsBodyMesh(es[group[j]])) ==> t == group[0]
  {
    var k := BodyPosition(es, group);
    if k < |group| then group[k] else group[0]
  }

  /** `group.Remove(mergeTarget)`: the first occurrence goes. */
  function RemoveFirst(s: seq<nat>, x: nat): (r: seq<nat>)
    ensures forall y :: y in r ==> y in s
    ensures forall j :: 0 <= j < |r| ==> r[j] in s
  {
    if s == [] then [] else if s[0] == x then s[1..] else [s[0]] + RemoveFirst(s[1..], x)
  }

  lemma {:induction false} RemoveFirstDistinct(s: seq<nat>, x: nat)
    requires Increasing(s) && x in s
    ensures |RemoveFirst(s, x)| == |s| - 1 && x !in RemoveFirst(s, x)
    ensures forall y :: y in s && y != x ==> y in RemoveFirst(s, x)
  {
    if s[0] != x {
      RemoveFirstDistinct(s[1..], x);
    } else {
      assert forall y :: y in s[1..] ==> s[0] < y;
    }
  }

  /** The number of vertices of the listed renderers together. */
  function VertexCount(es: seq<Renderer>, s: seq<nat>): nat
    requires AllMeshes(es) && InRange(s, |es|)
  {
    if s == [] then 0 else VertexCount(es, s[..|s| - 1]) + |es[s[|s| - 1]].mesh.value.vertices|
  }

  lemma {:induction false} VertexCountConcat(es: seq<Renderer>, a: seq<nat>, b: seq<nat>)
    requires AllMeshes(es) && InRange(a, |es|) && InRange(b, |es|)
    ensures VertexCount(es, a + b) == VertexCount(es, a) + VertexCount(es, b)
  {
    if b != [] {
      assert (a + b)[..|a + b| - 1] == a + b[..|b| - 1];
      VertexCountConcat(es, a, b[..|b| - 1]);
    } else {
      assert a + b == a;
    }
  }

  /** Removing one member takes away exactly its vertices. */
  lemma {:induction false} VertexCountRemove(es: seq<Renderer>, s: seq<nat>, x: nat)
    requires AllMeshes(es) && InRange(s, |es|) && x in s
    ensures VertexCount(es, s) == |es[x].mesh.value.vertices| + VertexCount(es, RemoveFirst(s, x))
  {
    assert s == [s[0]] + s[1..];
    VertexCountConcat(es, [s[0]], s[1..]);
    assert [s[0]][..0] == [];
    if s[0] != x {
      VertexCountRemove(es, s[1..], x);
      VertexCountConcat(es, [s[0]], RemoveFirst(s[1..], x));
    }
  }

  // ---------------------------------------------------------------------------------------------
  // The imperative operation

  /** One pass of the `foreach` over the remaining candidates. */
  method CollectCompatible(ok: (nat, nat) -> bool, head: nat, cands: seq<nat>) returns (group: seq<nat>)
    ensures group == GrowGroup(ok, [head], cands)
  {
    group := [head];
    for k := 0 to |cands|
      invariant GrowGroup(ok, group, cands[k..]) == GrowGroup(ok, [head], cands)
    {
      assert cands[k..][1..] == cands[k + 1..];
      if CompatibleWithAll(ok, group, cands[k]) {
        group := group + [cands[k]];
      }
    }
    assert cands[|cands|..] == [];
  }

  /** One round of the grouping loop: the first group, then the groups of what it leaves. */
  lemma MeshGroupsStep(ok: (nat, nat) -> bool, rest: seq<nat>)
    requires rest != []
    ensures var g := GrowGroup(ok, [rest[0]], rest[1..]);
            && |Without(rest, g)| < |rest|
            && MeshGroups(ok, rest) == [g] + MeshGroups(ok, Without(rest, g))
  {
    var g := GrowGroup(ok, [rest[0]], rest[1..]);
    assert g[..1] == [rest[0]];
  }

  /** The grouping loop: `allSMRs` is consumed from the front. */
  method GroupRenderers(clips: map<ClipId, Clip>, es: seq<Renderer>, mergeBodyMesh: bool) returns (gs: seq<seq<nat>>)
    requires ValidClips(clips) && AllMeshes(es)
    ensures gs == GroupsOf(clips, es, mergeBodyMesh)
  {
    var ok := Compat(clips, es, mergeBodyMesh);
    var rest := Indices(|es|);
    ghost var all := MeshGroups(ok, rest);
    gs := [];
    while |rest| > 0
      invariant gs + MeshGroups(ok, rest) == all
      decreases |rest|
    {
      var group := CollectCompatible(ok, rest[0], rest[1..]);
      MeshGroupsStep(ok, rest);
      var tail := MeshGroups(ok, Without(rest, group));
      assert (gs + [group]) + tail == gs + ([group] + tail);
      rest := Without(rest, group);
      gs := gs + [group];
    }
  }

  // ---------------------------------------------------------------------------------------------
  // The merge as values

  /** The renderers that indices `others` name, in order. */
  function Members(es: seq<Renderer>, others: seq<nat>): (ms: seq<Renderer>)
    requires InRange(others, |es|)
    ensures |ms| == |others| && forall j :: 0 <= j < |others| ==> ms[j] == es[others[j]]
  {
    seq(|others|, j requires 0 <= j < |others| => es[others[j]])
  }

  /** The member loop as a value: each of `smrs` in turn has its animations moved onto the
      target and is merged into it; the first merge that fails ends the loop, with the clips as
      rewritten up to and including that member. Along the way the clips stay well formed with
      the same keys, and the target keeps its path and a valid mesh. */
  ghost function MembersMerged(clips: map<ClipId, Clip>, target: Renderer, smrs: seq<Renderer>)
    : (o: (Result<Renderer>, map<ClipId, Clip>))
    requires ValidClips(clips) && ValidRenderer(target) && target.mesh.Some?
    requires forall j :: 0 <= j < |smrs| ==> ValidRenderer(smrs[j]) && smrs[j].mesh.Some? && smrs[j].path != target.path
    ensures ValidClips(o.1) && o.1.Keys == clips.Keys
    ensures o.0.Ok? ==> ValidRenderer(o.0.value) && o.0.value.mesh.Some? && o.0.value.path == target.path
    decreases |smrs|
  {
    if smrs == [] then (Ok(target), clips)
    else
      var next := CurveFixup.FixUp(clips, target, smrs[0]);
      CurveFixup.FixUpMeaning(clips, next, target, smrs[0]);
      CurveFixup.FixUpKeepsValid(clips, next, target, smrs[0], |target.mesh.value.subMeshes|);
      var merged := MeshMerge.Merge(target, smrs[0]);
      if merged.Err? then (Err(merged.error), next)
      else
        MeshMerge.MergeKeepsMeshValid(target, smrs[0]);
        MembersMerged(next, merged.value, smrs[1..])
  }

  /** `MergeSameMaterials` as a value: the coalesced renderer and the renamed clips, or the
      error with the clips untouched. */
  function SlotsMerged(clips: map<ClipId, Clip>, r: Renderer): (o: (Result<Renderer>, map<ClipId, Clip>))
    requires ValidClips(clips)
    ensures o.0.Err? ==> o.1 == clips
    ensures ValidClips(o.1) && o.1.Keys == clips.Keys
  {
    var res := SlotMerge.MergedSameMaterials(clips, r);
    if res.Err? then (res, clips)
    else
      SlotMerge.RenameKeepsValid(clips, r);
      (res, SlotMerge.RenameAll(clips, r, r.materials, r.mesh.value.subMeshes, SlotMerge.GroupsOf(clips, r)))
  }

  /** In a group with distinct increasing indices, no member other than the target shares its path. */
  lemma OthersOffTarget(es: seq<Renderer>, group: seq<nat>)
    requires DistinctPaths(es) && group != [] && InRange(group, |es|) && Increasing(group)
    ensures var t := MergeTarget(es, group);
            var others := RemoveFirst(group, t);
            InRange(others, |es|) && forall j :: 0 <= j < |others| ==> es[others[j]].path != es[t].path
  {
    var t := MergeTarget(es, group);
    var others := RemoveFirst(group, t);
    RemoveFirstDistinct(group, t);
    forall j | 0 <= j < |others|
      ensures others[j] < |es| && es[others[j]].path != es[t].path
    {
      var x := others[j];
      assert x in others && x != t && x in group;
      var a :| 0 <= a < |group| && group[a] == x;
    }
  }

  /** One group as a value: the members merged into the target, then its equal slots coalesced.
      The clips stay well formed with the same keys. */
  ghost function GroupMerged(clips: map<ClipId, Clip>, es: seq<Renderer>, group: seq<nat>)
    : (o: (Result<Renderer>, map<ClipId, Clip>))
    requires ValidClips(clips) && AllMeshes(es) && DistinctPaths(es) && forall i :: 0 <= i < |es| ==> ValidRenderer(es[i])
    requires group != [] && InRange(group, |es|) && Increasing(group)
    ensures ValidClips(o.1) && o.1.Keys == clips.Keys
  {
    var t := MergeTarget(es, group);
    OthersOffTarget(es, group);
    var m := MembersMerged(clips, es[t], Members(es, RemoveFirst(group, t)));
    if m.0.Err? then m
    else
      SlotsMerged(m.1, m.0.value)
  }

  /** The merged renderers, one per group in group order, and the clips after every rewrite. */
  datatype Outcome = Outcome(merged: seq<Renderer>, clips: map<ClipId, Clip>)

  /** A group's renderer in front of the renderers and clips the later groups give. */
  function Prepend(r: Renderer, rest: Result<Outcome>): (res: Result<Outcome>)
    ensures res.Ok? <==> rest.Ok?
    ensures res.Ok? ==> res.value.merged == [r] + rest.value.merged && res.value.clips == rest.value.clips
  {
    if rest.Err? then rest else Ok(Outcome([r] + rest.value.merged, rest.value.clips))
  }

  /** The group loop as a value: each group merged in turn with the clips threaded through; the
      first failure is the result. */
  ghost function AllMerged(clips: map<ClipId, Clip>, es: seq<Renderer>, gs: seq<seq<nat>>): (res: Result<Outcome>)
    requires ValidClips(clips) && AllMeshes(es) && DistinctPaths(es) && forall i :: 0 <= i < |es| ==> ValidRenderer(es[i])
    requires forall i :: 0 <= i < |gs| ==> gs[i] != [] && InRange(gs[i], |es|) && Increasing(gs[i])
    ensures res.Ok? ==> |res.value.merged| == |gs| && ValidClips(res.value.clips) && res.value.clips.Keys == clips.Keys
    decreases |gs|
  {
    if gs == [] then Ok(Outcome([], clips))
    else
      var g := GroupMerged(clips, es, gs[0]);
      if g.0.Err? then Err(g.0.error) else Prepend(g.0.value, AllMerged(g.1, es, gs[1..]))
  }

  /** `Apply()` as a value. */
  ghost function Merged(clips: map<ClipId, Clip>, renderers: seq<Renderer>, mergeBodyMesh: bool): (res: Result<Outcome>)
    requires ValidClips(clips) && DistinctPaths(Eligible(renderers))
    requires forall r :: r in renderers ==> ValidRenderer(r)
    ensures res.Ok? ==> ValidClips(res.value.clips) && res.value.clips.Keys == clips.Keys
  {
    var es := Eligible(renderers);
    if !AllMeshes(es) then Err(NullReference)
    else
      EligibleValid(renderers);
      GroupsIncreasing(clips, es, mergeBodyMesh);
      AllMerged(clips, es, GroupsOf(clips, es, mergeBodyMesh))
  }

  lemma EligibleValid(renderers: seq<Renderer>)
    requires forall r :: r in renderers ==> ValidRenderer(r)
    ensures forall i :: 0 <= i < |Eligible(renderers)| ==> ValidRenderer(Eligible(renderers)[i])
  {
    var es := Eligible(renderers);
    forall i | 0 <= i < |es|
      ensures ValidRenderer(es[i])
    {
      assert es[i] in es;
    }
  }

  /** The `foreach (var smr in meshGroup)` loop: every other member's animations are moved to
      the target, then its mesh is merged into the target's, then it is destroyed. */
  method MergeMembers(clips: map<ClipId, Clip>, es: seq<Renderer>, t: nat, others: seq<nat>)
    returns (res: Result<Renderer>, clips': map<ClipId, Clip>)
    requires ValidClips(clips) && AllMeshes(es) && forall i :: 0 <= i < |es| ==> ValidRenderer(es[i])
    requires t < |es| && InRange(others, |es|) && forall j :: 0 <= j < |others| ==> es[others[j]].path != es[t].path
    ensures (res, clips') == MembersMerged(clips, es[t], Members(es, others))
    ensures res.Ok? ==> |res.value.mesh.value.vertices| == |es[t].mesh.value.vertices| + VertexCount(es, others)
  {
    var target := es[t];
    var ms := Members(es, others);
    clips' := clips;
    for j := 0 to |others|
      invariant ValidClips(clips') && clips'.Keys == clips.Keys
      invariant ValidRenderer(target) && target.mesh.Some? && target.path == es[t].path
      invariant |target.mesh.value.vertices| == |es[t].mesh.value.vertices| + VertexCount(es, others[..j])
      invariant MembersMerged(clips, es[t], ms) == MembersMerged(clips', target, ms[j..])
    {
      var smr := es[others[j]];
      assert ms[j..][0] == smr && ms[j..][1..] == ms[j + 1..];
      var next := CurveFixup.FixUpAnimations(clips', target, smr);
      CurveFixup.FixUpKeepsValid(clips', next, target, smr, |target.mesh.value.subMeshes|);
      clips' := next;
      var merged := MeshMerge.MergeSMRs(target, smr);
      if merged.Err? {
        return Err(merged.error), clips';
      }
      MeshMerge.MergeKeepsMeshValid(target, smr);
      assert others[..j + 1][..j] == others[..j];
      target := merged.value;
    }
    assert others[..|others|] == others;
    res := Ok(target);
  }

  /** One group: the members are merged into the target, then the target's equal material
      slots are coalesced. */
  method MergeGroup(clips: map<ClipId, Clip>, es: seq<Renderer>, group: seq<nat>)
    returns (res: Result<Renderer>, clips': map<ClipId, Clip>)
    requires ValidClips(clips) && AllMeshes(es) && DistinctPaths(es) && forall i :: 0 <= i < |es| ==> ValidRenderer(es[i])
    requires group != [] && InRange(group, |es|) && Increasing(group)
    ensures (res, clips') == GroupMerged(clips, es, group)
    ensures res.Ok? ==> var t := MergeTarget(es, group);
                        && res.value.mesh.Some? && res.value.path == es[t].path
                        && |res.value.mesh.value.vertices| == VertexCount(es, group)
  {
    var t := MergeTarget(es, group);
    var others := RemoveFirst(group, t);
    OthersOffTarget(es, group);
    res, clips' := MergeMembers(clips, es, t, others);
    if res.Err? {
      return;
    }
    var target := res.value;
    VertexCountRemove(es, group, t);
    var slotted, renamed := SlotMerge.MergeSameMaterials(clips', target);
    if slotted.Ok? {
      clips' := renamed;
    }
    res := slotted;
  }

  /** The `foreach (var meshGroup in meshGroups)` loop: each group in turn, the clips threaded through. */
  method MergeAll(clips: map<ClipId, Clip>, es: seq<Renderer>, gs: seq<seq<nat>>)
    returns (res: Result<Outcome>)
    requires ValidClips(clips) && AllMeshes(es) && DistinctPaths(es) && forall i :: 0 <= i < |es| ==> ValidRenderer(es[i])
    requires forall i :: 0 <= i < |gs| ==> gs[i] != [] && InRange(gs[i], |es|) && Increasing(gs[i])
    ensures res == AllMerged(clips, es, gs)
    ensures res.Ok? ==>
              && |res.value.merged| == |gs| && ValidClips(res.value.clips) && res.value.clips.Keys == clips.Keys
              && GroupResults(es, gs, res.value.merged)
  {
    var cl := clips;
    var merged: seq<Renderer> := [];
    assert gs[0..] == gs;
    ConcatNil(AllMerged(clips, es, gs));
    for i := 0 to |gs|
      invariant ValidClips(cl) && cl.Keys == clips.Keys && |merged| == i
      invariant GroupResults(es, gs, merged)
      invariant AllMerged(clips, es, gs) == Concat(merged, AllMerged(cl, es, gs[i..]))
    {
      AllMergedStep(cl, es, gs, i);
      var r, cl' := MergeGroup(cl, es, gs[i]);
      if r.Err? {
        return Err(r.error);
      }
      ConcatPrepend(merged, r.value, AllMerged(cl', es, gs[i + 1..]));
      GroupResultsAppend(es, gs, merged, r.value);
      merged := merged + [r.value];
      cl := cl';
    }
    assert gs[|gs|..] == [] && merged + [] == merged;
    res := Ok(Outcome(merged, cl));
  }

  /** The renderers of earlier groups in front of the outcome of the later ones. */
  function Concat(rs: seq<Renderer>, rest: Result<Outcome>): (res: Result<Outcome>)
    ensures res.Ok? <==> rest.Ok?
    ensures res.Ok? ==> res.value.merged == rs + rest.value.merged && res.value.clips == rest.value.clips
  {
    if rest.Err? then rest else Ok(Outcome(rs + rest.value.merged, rest.value.clips))
  }

  /** A merged renderer sits on its group's target, with the group's vertices. */
  predicate GroupResult(es: seq<Renderer>, g: seq<nat>, r: Renderer)
    requires AllMeshes(es) && g != [] && InRange(g, |es|)
  {
    r.path == es[MergeTarget(es, g)].path && r.mesh.Some? && |r.mesh.value.vertices| == VertexCount(es, g)
  }

  predicate GroupResults(es: seq<Renderer>, gs: seq<seq<nat>>, merged: seq<Renderer>)
    requires AllMeshes(es) && |merged| <= |gs|
    requires forall i :: 0 <= i < |gs| ==> gs[i] != [] && InRange(gs[i], |es|)
  {
    forall k :: 0 <= k < |merged| ==> GroupResult(es, gs[k], merged[k])
  }

  lemma GroupResultsAppend(es: seq<Renderer>, gs: seq<seq<nat>>, merged: seq<Renderer>, r: Renderer)
    requires AllMeshes(es) && |merged| < |gs|
    requires forall i :: 0 <= i < |gs| ==> gs[i] != [] && InRange(gs[i], |es|)
    requires GroupResults(es, gs, merged) && GroupResult(es, gs[|merged|], r)
    ensures GroupResults(es, gs, merged + [r])
  {
    var m := merged + [r];
    forall k | 0 <= k < |m|
      ensures GroupResult(es, gs[k], m[k])
    {
      if k < |merged| {
        assert m[k] == merged[k];
      } else {
        assert m[k] == r;
      }
    }
  }

  /** The group loop takes the groups from the front. */
  lemma AllMergedStep(clips: map<ClipId, Clip>, es: seq<Renderer>, gs: seq<seq<nat>>, i: nat)
    requires ValidClips(clips) && AllMeshes(es) && DistinctPaths(es) && forall i :: 0 <= i < |es| ==> ValidRenderer(es[i])
    requires forall i :: 0 <= i < |gs| ==> gs[i] != [] && InRange(gs[i], |es|) && Increasing(gs[i])
    requires i < |gs|
    ensures var g := GroupMerged(clips, es, gs[i]);
            AllMerged(clips, es, gs[i..]) == if g.0.Err? then Err(g.0.error) else Prepend(g.0.value, AllMerged(g.1, es, gs[i + 1..]))
  {
    assert gs[i..][0] == gs[i] && gs[i..][1..] == gs[i + 1..];
  }

  lemma ConcatNil(rest: Result<Outcome>)
    ensures Concat([], rest) == rest
  {
    if rest.Ok? {
      assert [] + rest.value.merged == rest.value.merged;
    }
  }

  lemma ConcatPrepend(rs: seq<Renderer>, r: Renderer, rest: Result<Outcome>)
    ensures Concat(rs, Prepend(r, rest)) == Concat(rs + [r], rest)
  {
    if rest.Ok? {
      assert rs + ([r] + rest.value.merged) == (rs + [r]) + rest.value.merged;
    }
  }

  /** `Apply()`. A missing mesh on a candidate renderer fails the build (in the compatibility
      check, the merge or the material pass, whichever reaches it first). */
  method Apply(clips: map<ClipId, Clip>, renderers: seq<Renderer>, mergeBodyMesh: bool) returns (res: Result<Outcome>)
    requires ValidClips(clips) && DistinctPaths(Eligible(renderers))
    requires forall r :: r in renderers ==> ValidRenderer(r)
    ensures res == Merged(clips, renderers, mergeBodyMesh)
    ensures !AllMeshes(Eligible(renderers)) ==> res == Err(NullReference)
    ensures res.Ok? ==>
              var es := Eligible(renderers);
              var gs := GroupsOf(clips, es, mergeBodyMesh);
              && AllMeshes(es) && |res.value.merged| == |gs| && ValidClips(res.value.clips)
              && res.value.clips.Keys == clips.Keys
              && GroupResults(es, gs, res.value.merged)
  {
    var es := Eligible(renderers);
    if !AllMeshes(es) {
      return Err(NullReference);
    }
    EligibleValid(renderers);
    var gs := GroupRenderers(clips, es, mergeBodyMesh);
    GroupsIncreasing(clips, es, mergeBodyMesh);
    res := MergeAll(clips, es, gs);
  }
}
