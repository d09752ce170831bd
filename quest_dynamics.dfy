/** The avatar-dynamics passes of the mobile conversion: the user's deletion list
    (`DeleteDynamics`), the physbone statistics (`CalculatePhysbonePerformanceStats`), the limit
    check with its dialog (`WarnOnDynamicsLimits`) and the removal of over-limit kinds
    (`RemoveOverLimitsDynamics`). */
module QuestDynamics {
  import opened Base
  import opened Strings
  import opened Seqs

  type ComponentId = nat

  /** A dynamics component on the avatar. A physbone holds the number of transforms it drives
      and its collider references, `None` for an empty one. */
  datatype Dynamic =
    | Contact(id: ComponentId)
    | PhysBone(id: ComponentId, bones: nat, colliders: seq<Option<ComponentId>>)
    | Collider(id: ComponentId)

  /** The avatar's dynamics components, in hierarchy order. */
  type Avatar = seq<Dynamic>

  const MaxContacts := 16
  const MaxPhysBones := 8
  const MaxTransforms := 64
  const MaxColliders := 16
  const MaxCollisionChecks := 64

  predicate IsContact(d: Dynamic) { d.Contact? }
  predicate IsPhysBone(d: Dynamic) { d.PhysBone? }
  predicate IsCollider(d: Dynamic) { d.Collider? }

  /** The components of each kind, in hierarchy order (`GetComponentsInChildren<T>`). */
  function Contacts(a: Avatar): Avatar { Filter(a, IsContact) }
  function PhysBones(a: Avatar): Avatar { Filter(a, IsPhysBone) }
  function Colliders(a: Avatar): Avatar { Filter(a, IsCollider) }

  /** The colliders still on the avatar; a reference to anything else reads as null. */
  function ColliderIds(a: Avatar): set<ComponentId> {
    set d | d in Colliders(a) :: d.id
  }

  /** `colliders.Where(c => c != null).Count()` */
  function UsedColliders(refs: seq<Option<ComponentId>>, live: set<ComponentId>): (n: nat)
    ensures n <= |refs|
  {
    if refs == [] then 0
    else UsedColliders(refs[..|refs| - 1], live) + (if refs[|refs| - 1].Some? && refs[|refs| - 1].value in live then 1 else 0)
  }

  function Bones(d: Dynamic): nat {
    if d.PhysBone? then d.bones else 0
  }

  function CollisionChecksOf(d: Dynamic, live: set<ComponentId>): nat {
    if d.PhysBone? then UsedColliders(d.colliders, live) * d.bones else 0
  }

  /** The total number of transforms the physbones drive. */
  function Transforms(pbs: Avatar): nat {
    if pbs == [] then 0 else Transforms(pbs[..|pbs| - 1]) + Bones(pbs[|pbs| - 1])
  }

  /** The total of used colliders times bones, over the physbones. */
  function CollisionChecks(pbs: Avatar, live: set<ComponentId>): nat {
    if pbs == [] then 0 else CollisionChecks(pbs[..|pbs| - 1], live) + CollisionChecksOf(pbs[|pbs| - 1], live)
  }

  datatype PhysboneStats = PhysboneStats(componentCount: nat, transformCount: nat, colliderCount: nat,
                                         collisionCheckCount: nat)

  /** The statistics of an avatar, counting only components that are still present. */
  function StatsOf(a: Avatar): PhysboneStats {
    PhysboneStats(|PhysBones(a)|, Transforms(PhysBones(a)), |Colliders(a)|,
                  CollisionChecks(PhysBones(a), ColliderIds(a)))
  }

  /** `CalculatePhysbonePerformanceStats` */
  method CalculatePhysbonePerformanceStats(a: Avatar) returns (stats: PhysboneStats)
    ensures stats == StatsOf(a)
  {
    var physbones := PhysBones(a);
    var colliders := Colliders(a);
    var live := ColliderIds(a);
    var numTransforms := 0;
    var numCollisionChecks := 0;
    for i := 0 to |physbones|
      invariant numTransforms == Transforms(physbones[..i])
      invariant numCollisionChecks == CollisionChecks(physbones[..i], live)
    {
      var pb := physbones[i];
      var numBones := Bones(pb);
      numTransforms := numTransforms + numBones;
      var usedColliders := if pb.PhysBone? then UsedColliders(pb.colliders, live) else 0;
      numCollisionChecks := numCollisionChecks + usedColliders * numBones;
      assert physbones[..i + 1][..i] == physbones[..i];
    }
    assert physbones[..|physbones|] == physbones;
    stats := PhysboneStats(|physbones|, numTransforms, |colliders|, numCollisionChecks);
  }

  /** Destroying colliders never adds collision checks. */
  lemma {:induction false} CollisionChecksMonotone(pbs: Avatar, live: set<ComponentId>, live': set<ComponentId>)
    requires live' <= live
    ensures CollisionChecks(pbs, live') <= CollisionChecks(pbs, live)
  {
    if pbs != [] {
      CollisionChecksMonotone(pbs[..|pbs| - 1], live, live');
      var d := pbs[|pbs| - 1];
      if d.PhysBone? {
        UsedCollidersMonotone(d.colliders, live, live');
        MulMonotone(UsedColliders(d.colliders, live'), UsedColliders(d.colliders, live), d.bones);
      }
    }
  }

  lemma MulMonotone(x: nat, y: nat, k: nat)
    requires x <= y
    ensures x * k <= y * k
  {
  }

  lemma {:induction false} UsedCollidersMonotone(refs: seq<Option<ComponentId>>, live: set<ComponentId>,
                                                 live': set<ComponentId>)
    requires live' <= live
    ensures UsedColliders(refs, live') <= UsedColliders(refs, live)
  {
    if refs != [] {
      UsedCollidersMonotone(refs[..|refs| - 1], live, live');
    }
  }

  lemma {:induction false} UsedCollidersNone(refs: seq<Option<ComponentId>>)
    ensures UsedColliders(refs, {}) == 0
  {
    if refs != [] {
      UsedCollidersNone(refs[..|refs| - 1]);
    }
  }

  lemma {:induction false} CollisionChecksNone(pbs: Avatar)
    ensures CollisionChecks(pbs, {}) == 0
  {
    if pbs != [] {
      CollisionChecksNone(pbs[..|pbs| - 1]);
      var d := pbs[|pbs| - 1];
      if d.PhysBone? {
        UsedCollidersNone(d.colliders);
      }
    }
  }

  /** One exceeded limit, with the count that exceeds it. */
  datatype LimitWarning =
    | TooManyContacts(n: nat)
    | TooManyPhysBones(n: nat)
    | TooManyTransforms(n: nat)
    | TooManyColliders(n: nat)
    | TooManyCollisionChecks(n: nat)

  function Limit(w: LimitWarning): nat {
    match w
    case TooManyContacts(_) => MaxContacts
    case TooManyPhysBones(_) => MaxPhysBones
    case TooManyTransforms(_) => MaxTransforms
    case TooManyColliders(_) => MaxColliders
    case TooManyCollisionChecks(_) => MaxCollisionChecks
  }

  /** `if (count > max) warn(...)`: the warning is added when its count exceeds its limit. */
  function Warn(ws: seq<LimitWarning>, w: LimitWarning): seq<LimitWarning> {
    if w.n > Limit(w) then ws + [w] else ws
  }

  /** The exceeded limits, in the order they are checked. */
  function Warnings(numContacts: nat, s: PhysboneStats): seq<LimitWarning> {
    var ws := Warn([], TooManyContacts(numContacts));
    var ws := Warn(ws, TooManyPhysBones(s.componentCount));
    var ws := Warn(ws, TooManyTransforms(s.transformCount));
    var ws := Warn(ws, TooManyColliders(s.colliderCount));
    Warn(ws, TooManyCollisionChecks(s.collisionCheckCount))
  }

  /** A dialog is shown exactly when some limit is exceeded, and it lists exactly the exceeded
      limits with their counts. */
  lemma WarningsExactly(numContacts: nat, s: PhysboneStats)
    ensures Warnings(numContacts, s) == [] <==> !Exceeds(numContacts, s)
    ensures forall w :: w in Warnings(numContacts, s) <==>
      w.n > Limit(w) && w in {TooManyContacts(numContacts), TooManyPhysBones(s.componentCount),
                              TooManyTransforms(s.transformCount), TooManyColliders(s.colliderCount),
                              TooManyCollisionChecks(s.collisionCheckCount)}
  {
  }

  predicate Exceeds(numContacts: nat, s: PhysboneStats) {
    || numContacts > MaxContacts
    || s.componentCount > MaxPhysBones
    || s.transformCount > MaxTransforms
    || s.colliderCount > MaxColliders
    || s.collisionCheckCount > MaxCollisionChecks
  }

  /** The text passed to `warn`; the contacts line carries an extra line break. */
  function Message(w: LimitWarning): string {
    match w
    case TooManyContacts(n) => NatToString(n) + " contacts (max 16)\n"
    case TooManyPhysBones(n) => NatToString(n) + " physbone components (max 8)"
    case TooManyTransforms(n) => NatToString(n) + " physbone transforms (max 64)"
    case TooManyColliders(n) => NatToString(n) + " physbone colliders (max 16)"
    case TooManyCollisionChecks(n) => NatToString(n) + " physbone collision checks (max 64)"
  }

  const DialogHeader := "Avatar exceeds the following Avatar Dynamics limits:\n"
  const DialogFooter := "These components will be removed."

  /** One `- {s}` line per warning. */
  function WarningLines(ws: seq<LimitWarning>): string {
    if ws == [] then "" else WarningLines(ws[..|ws| - 1]) + "- " + Message(ws[|ws| - 1]) + "\n"
  }

  function DialogText(ws: seq<LimitWarning>): string {
    DialogHeader + WarningLines(ws) + DialogFooter
  }

  /** Whether `RemoveOverLimitsDynamics` destroys this component: every contact when the
      contacts are over the limit, every physbone when the component or transform count is, and
      every collider when the collider or collision-check count is. */
  predicate Removed(d: Dynamic, s: PhysboneStats, numContacts: nat) {
    match d
    case Contact(_) => numContacts > MaxContacts
    case PhysBone(_, _, _) => s.componentCount > MaxPhysBones || s.transformCount > MaxTransforms
    case Collider(_) => s.colliderCount > MaxColliders || s.collisionCheckCount > MaxCollisionChecks
  }

  /** `RemoveOverLimitsDynamics` */
  function RemoveOverLimitsDynamics(a: Avatar, s: PhysboneStats, numContacts: nat): (r: Avatar)
    ensures forall d :: d in r <==> d in a && !Removed(d, s, numContacts)
  {
    FilterMembers(a, d => !Removed(d, s, numContacts));
    Filter(a, d => !Removed(d, s, numContacts))
  }

  /** Removal takes whole kinds: each kind is either gone or untouched. */
  lemma {:induction false} RemovalKinds(a: Avatar, s: PhysboneStats, n: nat)
    ensures var r := Filter(a, d => !Removed(d, s, n));
      && Contacts(r) == (if n > MaxContacts then [] else Contacts(a))
      && PhysBones(r) == (if s.componentCount > MaxPhysBones || s.transformCount > MaxTransforms then [] else PhysBones(a))
      && Colliders(r) == (if s.colliderCount > MaxColliders || s.collisionCheckCount > MaxCollisionChecks then [] else Colliders(a))
  {
    if a != [] {
      var p := a[..|a| - 1];
      var x := a[|a| - 1];
      var keep := d => !Removed(d, s, n);
      RemovalKinds(p, s, n);
      var r := Filter(a, keep);
      assert r == Filter(p, keep) + (if keep(x) then [x] else []);
      FilterAppend(Filter(p, keep), if keep(x) then [x] else [], IsContact);
      FilterAppend(Filter(p, keep), if keep(x) then [x] else [], IsPhysBone);
      FilterAppend(Filter(p, keep), if keep(x) then [x] else [], IsCollider);
      var e: Avatar := [];
      assert Filter(e, IsContact) == [] && Filter(e, IsPhysBone) == [] && Filter(e, IsCollider) == [];
      assert Filter([x], IsContact) == (if IsContact(x) then [x] else []) by {
        assert [x][..0] == e;
      }
      assert Filter([x], IsPhysBone) == (if IsPhysBone(x) then [x] else []) by {
        assert [x][..0] == e;
      }
      assert Filter([x], IsCollider) == (if IsCollider(x) then [x] else []) by {
        assert [x][..0] == e;
      }
    }
  }

  /** After the user accepts the removal, the avatar is within every dynamics limit. */
  lemma WithinLimitsAfterRemoval(a: Avatar)
    ensures var r := RemoveOverLimitsDynamics(a, StatsOf(a), |Contacts(a)|);
      !Exceeds(|Contacts(r)|, StatsOf(r))
  {
    var s := StatsOf(a);
    var n := |Contacts(a)|;
    var r := RemoveOverLimitsDynamics(a, s, n);
    RemovalKinds(a, s, n);
    var noPhysBones := s.componentCount > MaxPhysBones || s.transformCount > MaxTransforms;
    var noColliders := s.colliderCount > MaxColliders || s.collisionCheckCount > MaxCollisionChecks;
    var t := StatsOf(r);
    assert |Contacts(r)| <= MaxContacts;
    assert t.componentCount <= MaxPhysBones && t.transformCount <= MaxTransforms by {
      if noPhysBones {
        assert PhysBones(r) == [];
      }
    }
    assert t.colliderCount <= MaxColliders;
    assert t.collisionCheckCount <= MaxCollisionChecks by {
      if noPhysBones {
        assert PhysBones(r) == [];
      } else if noColliders {
        assert ColliderIds(r) == {};
        CollisionChecksNone(PhysBones(r));
      } else {
        assert ColliderIds(r) == ColliderIds(a);
      }
    }
  }

  /** `WarnOnDynamicsLimits`: the contacts are counted, the statistics computed, and each exceeded
      limit adds a line to the dialog text. Without a warning nothing happens. Otherwise the
      dialog is shown: `accept` is the button the user picks, and cancelling aborts the build. */
  method WarnOnDynamicsLimits(a: Avatar, accept: bool) returns (res: Result<Avatar>, dialog: Option<string>)
    ensures dialog.Some? <==> Exceeds(|Contacts(a)|, StatsOf(a))
    ensures dialog.Some? ==> dialog.value == DialogText(Warnings(|Contacts(a)|, StatsOf(a)))
    ensures dialog.None? ==> res == Ok(a)
    ensures dialog.Some? && !accept ==> res == Err(UserCancelledBuild)
    ensures dialog.Some? && accept ==> res == Ok(RemoveOverLimitsDynamics(a, StatsOf(a), |Contacts(a)|))
  {
    var numContacts := |Contacts(a)|;
    var perfStats := CalculatePhysbonePerformanceStats(a);
    var doWarning := false;
    var warnings: seq<LimitWarning> := [];
    ghost var w0 := Warn(warnings, TooManyContacts(numContacts));
    if numContacts > MaxContacts {
      doWarning, warnings := true, warnings + [TooManyContacts(numContacts)];
    }
    assert warnings == w0 && (doWarning <==> warnings != []);
    ghost var w1 := Warn(warnings, TooManyPhysBones(perfStats.componentCount));
    if perfStats.componentCount > MaxPhysBones {
      doWarning, warnings := true, warnings + [TooManyPhysBones(perfStats.componentCount)];
    }
    assert warnings == w1 && (doWarning <==> warnings != []);
    ghost var w2 := Warn(warnings, TooManyTransforms(perfStats.transformCount));
    if perfStats.transformCount > MaxTransforms {
      doWarning, warnings := true, warnings + [TooManyTransforms(perfStats.transformCount)];
    }
    assert warnings == w2 && (doWarning <==> warnings != []);
    ghost var w3 := Warn(warnings, TooManyColliders(perfStats.colliderCount));
    if perfStats.colliderCount > MaxColliders {
      doWarning, warnings := true, warnings + [TooManyColliders(perfStats.colliderCount)];
    }
    assert warnings == w3 && (doWarning <==> warnings != []);
    ghost var w4 := Warn(warnings, TooManyCollisionChecks(perfStats.collisionCheckCount));
    if perfStats.collisionCheckCount > MaxCollisionChecks {
      doWarning, warnings := true, warnings + [TooManyCollisionChecks(perfStats.collisionCheckCount)];
    }
    assert warnings == w4 && (doWarning <==> warnings != []);
    WarningsExactly(numContacts, perfStats);
    if !doWarning {
      return Ok(a), None;
    }
    dialog := Some(DialogText(warnings));
    if !accept {
      res := Err(UserCancelledBuild);
    } else {
      res := Ok(RemoveOverLimitsDynamics(a, perfStats, numContacts));
    }
  }

  /** One row of the user's deletion list. */
  datatype ComponentDelete = ComponentDelete(component: Option<ComponentId>, delete: bool)

  /** The components the user marked for deletion. */
  function Marked(deletes: seq<ComponentDelete>): (ids: set<ComponentId>)
    ensures forall id :: id in ids <==> exists k :: 0 <= k < |deletes| && deletes[k].delete && deletes[k].component == Some(id)
  {
    if deletes == [] then {}
    else
      var last := deletes[|deletes| - 1];
      var rest := Marked(deletes[..|deletes| - 1]);
      assert forall k :: 0 <= k < |deletes| - 1 ==> deletes[..|deletes| - 1][k] == deletes[k];
      if last.delete && last.component.Some? then rest + {last.component.value} else rest
  }

  /** The avatar with the components whose identity is in `ids` destroyed. */
  function Without(a: Avatar, ids: set<ComponentId>): (r: Avatar)
    ensures forall d :: d in r <==> d in a && d.id !in ids
  {
    FilterMembers(a, (d: Dynamic) => d.id !in ids);
    Filter(a, (d: Dynamic) => d.id !in ids)
  }

  lemma {:induction false} WithoutUnion(a: Avatar, s: set<ComponentId>, t: set<ComponentId>)
    ensures Without(Without(a, s), t) == Without(a, s + t)
  {
    if a != [] {
      var p, x := a[..|a| - 1], a[|a| - 1];
      WithoutUnion(p, s, t);
      var w := Without(p, s);
      var tail: Avatar := if x.id !in s then [x] else [];
      assert Without(a, s) == w + tail;
      FilterAppend(w, tail, (d: Dynamic) => d.id !in t);
      var e: Avatar := [];
      assert [x][..0] == e;
    }
  }

  lemma {:induction false} WithoutAbsent(a: Avatar, ids: set<ComponentId>)
    requires forall d :: d in a ==> d.id !in ids
    ensures Without(a, ids) == a
  {
    if a != [] {
      var p := a[..|a| - 1];
      assert forall d :: d in p ==> d in a;
      WithoutAbsent(p, ids);
      assert p + [a[|a| - 1]] == a;
    }
  }

  /** `DeleteDynamics`: every marked component that is still present is destroyed. */
  method DeleteDynamics(a: Avatar, deletes: seq<ComponentDelete>) returns (r: Avatar)
    ensures r == Without(a, Marked(deletes))
  {
    r := a;
    assert Without(a, {}) == a by {
      WithoutAbsent(a, {});
    }
    for i := 0 to |deletes|
      invariant r == Without(a, Marked(deletes[..i]))
    {
      var item := deletes[i];
      assert deletes[..i + 1][..i] == deletes[..i];
      if item.delete && item.component.Some? && exists k :: 0 <= k < |r| && r[k].id == item.component.value {
        WithoutUnion(a, Marked(deletes[..i]), {item.component.value});
        r := Without(r, {item.component.value});
      } else if item.delete && item.component.Some? {
        WithoutUnion(a, Marked(deletes[..i]), {item.component.value});
        WithoutAbsent(r, {item.component.value});
      }
    }
    assert deletes[..|deletes|] == deletes;
  }
}
