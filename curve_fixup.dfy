/** `FixUpAnimations`: before a source renderer is merged into a target renderer, every animation
    binding that drives the source is moved to the target's path. A material-slot swap on slot k
    of the source moves to slot `target.subMeshCount + k`, where the source's submeshes land once
    the meshes are concatenated. */
module CurveFixup {
  import opened Base
  import opened Strings
  import opened Unity
  import opened Compatibility

  /** `CurveBindingReallyAffectsSMR(r, b)`: an object curve always counts; a blendshape curve
      counts when the mesh has that shape, a material curve when some material has that property. */
  predicate ReallyAffects(r: Renderer, clip: Clip, b: Binding)
    requires b in clip && r.mesh.Some?
  {
    if IsPPtr(clip, b) then true
    else if StartsWith(b.prop, BlendShapePrefix) then HasBlendShape(r.mesh.value, BlendShapeName(b.prop))
    else if StartsWith(b.prop, MaterialPrefix) then PropertyExistsAmong(MaterialPropertyName(b.prop), r.materials)
    else true
  }

  /** A source binding that goes to the overwrite or the rewrite list and survives the removal of
      object curves and `m_IsActive` bindings. */
  predicate Retargeted(clip: Clip, source: Renderer, b: Binding)
    requires b in clip && source.mesh.Some?
  {
    References(source, b) && ReallyAffects(source, clip, b) && !IsPPtr(clip, b) && b.prop != IsActiveProperty
  }

  /** A material swap of the source. */
  predicate SlotSwap(clip: Clip, source: Renderer, b: Binding)
    requires b in clip
  {
    References(source, b) && IsPPtr(clip, b) && StartsWith(b.prop, SlotPrefix)
  }

  /** Every binding of the clip that the fix-up moves. */
  function Moving(clip: Clip, source: Renderer): (ms: set<Binding>)
    requires source.mesh.Some?
    ensures ms <= clip.Keys
  {
    set b | b in clip && (Retargeted(clip, source, b) || SlotSwap(clip, source, b))
  }

  /** Where a moved binding ends up: the same component type and property on the target path,
      with a material-slot index shifted by `n`. */
  function Dest(b: Binding, targetPath: string, n: int): (d: Binding)
    ensures d.path == targetPath && d.typ == b.typ
  {
    if StartsWith(b.prop, SlotPrefix) && SlotIndex(b.prop, {']'}).Some? then
      Binding(targetPath, b.typ, SlotProperty(n + SlotIndex(b.prop, {']'}).value))
    else Binding(targetPath, b.typ, b.prop)
  }

  /** `clip'` is `clip` with every binding of `moved` taken away and its curve put at its
      destination; every other binding keeps its curve unless a destination overwrote it. */
  ghost predicate Relocated(clip: Clip, clip': Clip, moved: set<Binding>, targetPath: string, n: int)
    requires moved <= clip.Keys
  {
    && (forall b :: b in clip' <==> (b in clip && b !in moved) || exists m :: m in moved && Dest(m, targetPath, n) == b)
    && (forall m :: m in moved ==> Dest(m, targetPath, n) in clip' && clip'[Dest(m, targetPath, n)] == clip[m])
    && (forall b :: b in clip && b !in moved && (forall m :: m in moved ==> Dest(m, targetPath, n) != b) ==>
          b in clip' && clip'[b] == clip[b])
  }

  /** Slot property names are canonical, so distinct moved bindings have distinct destinations. */
  lemma DestInjective(m1: Binding, m2: Binding, targetPath: string, n: int, clip: Clip)
    requires ValidClip(clip) && m1 in clip && m2 in clip
    requires m1.path == m2.path && m1.typ == m2.typ
    requires Dest(m1, targetPath, n) == Dest(m2, targetPath, n)
    ensures m1 == m2
  {
    var s1 := StartsWith(m1.prop, SlotPrefix);
    var s2 := StartsWith(m2.prop, SlotPrefix);
    if s1 {
      SlotIndexOfSlotProperty(n + SlotIndex(m1.prop, {']'}).value, {']'});
    }
    if s2 {
      SlotIndexOfSlotProperty(n + SlotIndex(m2.prop, {']'}).value, {']'});
    }
    if s1 && s2 {
      SlotPropertyInjective(n + SlotIndex(m1.prop, {']'}).value, n + SlotIndex(m2.prop, {']'}).value);
    }
  }

  /** Only object curves carry slot property names. */
  lemma FloatCurveNotSlot(clip: Clip, b: Binding)
    requires ValidClip(clip) && b in clip && !IsPPtr(clip, b)
    ensures !StartsWith(b.prop, SlotPrefix)
  {
  }

  /** Every moved binding is a skinned-renderer binding on the source's own path. */
  lemma MovingOnSourcePath(clip: Clip, source: Renderer, m: Binding)
    requires source.mesh.Some? && m in Moving(clip, source)
    ensures m.path == source.path && m.typ == SkinnedMeshRendererType
  {
    if SlotSwap(clip, source, m) {
      assert m.prop[1] == '_' && IsActiveProperty[1] == '_';
      assert m.prop[2] == 'M' && IsActiveProperty[2] == 'I';
    }
  }

  /** Bindings of the clip that are skinned-renderer bindings on `path`. */
  predicate OnPath(clip: Clip, ms: set<Binding>, path: string) {
    forall m :: m in ms ==> m in clip && m.path == path && m.typ == SkinnedMeshRendererType
  }

  lemma MovingIsOnSourcePath(clip: Clip, source: Renderer)
    requires source.mesh.Some?
    ensures OnPath(clip, Moving(clip, source), source.path)
  {
    forall m | m in Moving(clip, source)
      ensures m in clip && m.path == source.path && m.typ == SkinnedMeshRendererType
    {
      MovingOnSourcePath(clip, source, m);
    }
  }

  /** One move: take `b` out and put its curve at its destination. */
  lemma RelocateStep(clip: Clip, cur: Clip, done: set<Binding>, b: Binding, sourcePath: string, targetPath: string, n: int)
    requires ValidClip(clip) && sourcePath != targetPath
    requires OnPath(clip, done + {b}, sourcePath) && b !in done
    requires Relocated(clip, cur, done, targetPath, n)
    ensures b in cur && cur[b] == clip[b]
    ensures Relocated(clip, (cur - {b})[Dest(b, targetPath, n) := clip[b]], done + {b}, targetPath, n)
  {
    var d := Dest(b, targetPath, n);
    var next := (cur - {b})[d := clip[b]];
    var done' := done + {b};
    forall m | m in done
      ensures Dest(m, targetPath, n) != d
    {
      if Dest(m, targetPath, n) == d {
        DestInjective(m, b, targetPath, n, clip);
      }
    }
    assert b != d && b in clip;
    forall x
      ensures x in next <==> (x in clip && x !in done') || exists m :: m in done' && Dest(m, targetPath, n) == x
    {
      if x == d {
        assert b in done' && Dest(b, targetPath, n) == x;
      } else if x != b {
        assert x in next <==> x in cur;
        assert (exists m :: m in done' && Dest(m, targetPath, n) == x) <==> exists m :: m in done && Dest(m, targetPath, n) == x;
      }
    }
    forall m | m in done'
      ensures Dest(m, targetPath, n) in next && next[Dest(m, targetPath, n)] == clip[m]
    {
      if m != b {
        assert Dest(m, targetPath, n) != d && Dest(m, targetPath, n) != b;
      }
    }
    forall x | x in clip && x !in done' && (forall m :: m in done' ==> Dest(m, targetPath, n) != x)
      ensures x in next && next[x] == clip[x]
    {
      assert x != d && x != b && x in cur && cur[x] == clip[x];
    }
  }

  function Elems(s: seq<Binding>): set<Binding> {
    set x | x in s
  }

  predicate NoRepeats(s: seq<Binding>) {
    forall i, j :: 0 <= i < j < |s| ==> s[i] != s[j]
  }

  lemma NoRepeatsConcat(a: seq<Binding>, b: seq<Binding>)
    requires NoRepeats(a) && NoRepeats(b) && Elems(a) !! Elems(b)
    ensures NoRepeats(a + b) && Elems(a + b) == Elems(a) + Elems(b)
  {
    forall i, j | 0 <= i < j < |a + b|
      ensures (a + b)[i] != (a + b)[j]
    {
      if i < |a| && j >= |a| {
        assert (a + b)[i] in Elems(a) && (a + b)[j] in Elems(b);
      }
    }
  }

  lemma NotInPrefix(s: seq<Binding>, k: nat)
    requires NoRepeats(s) && k < |s|
    ensures s[k] !in s[..k]
  {
  }

  /** The clip after the moves of `s`, one after another, each taking the binding out and putting
      its curve at its destination. */
  function MovedAlong(clip: Clip, s: seq<Binding>, targetPath: string, n: int): Clip
    requires forall b :: b in s ==> b in clip
  {
    if s == [] then clip
    else
      var b := s[|s| - 1];
      (MovedAlong(clip, s[..|s| - 1], targetPath, n) - {b})[Dest(b, targetPath, n) := clip[b]]
  }

  /** A binding off the target path that has not been moved yet still has its original curve. */
  lemma {:induction false} MovedAlongKeeps(clip: Clip, s: seq<Binding>, b: Binding, targetPath: string, n: int)
    requires forall x :: x in s ==> x in clip
    requires b in clip && b !in s && b.path != targetPath
    ensures b in MovedAlong(clip, s, targetPath, n) && MovedAlong(clip, s, targetPath, n)[b] == clip[b]
  {
    if s != [] {
      MovedAlongKeeps(clip, s[..|s| - 1], b, targetPath, n);
    }
  }

  /** One more move. */
  lemma MoveOne(clip: Clip, s: seq<Binding>, b: Binding, d: Binding, targetPath: string, n: int)
    requires forall x :: x in s ==> x in clip
    requires b in clip && b !in s && b.path != targetPath && d == Dest(b, targetPath, n)
    ensures forall x :: x in s + [b] ==> x in clip
    ensures b in MovedAlong(clip, s, targetPath, n) && MovedAlong(clip, s, targetPath, n)[b] == clip[b]
    ensures MovedAlong(clip, s + [b], targetPath, n) == (MovedAlong(clip, s, targetPath, n) - {b})[d := clip[b]]
  {
    MovedAlongKeeps(clip, s, b, targetPath, n);
    assert (s + [b])[..|s + [b]| - 1] == s;
  }

  /** The bookkeeping of step `i` of a pass over `todo` after the moves `done`. */
  lemma PassStep(clip: Clip, done: seq<Binding>, todo: seq<Binding>, i: nat)
    requires NoRepeats(done + todo) && (forall x :: x in done + todo ==> x in clip) && i < |todo|
    ensures forall x :: x in done + todo[..i] ==> x in clip
    ensures todo[i] !in done + todo[..i] && todo[i] in clip
    ensures done + todo[..i + 1] == (done + todo[..i]) + [todo[i]]
  {
    assert (done + todo)[..|done| + i] == done + todo[..i];
    assert (done + todo)[|done| + i] == todo[i];
    NotInPrefix(done + todo, |done| + i);
    assert todo[..i + 1] == todo[..i] + [todo[i]];
  }

  /** Moving the bindings one by one, in any order, relocates them all at once. */
  lemma {:induction false} MovedAlongRelocates(clip: Clip, s: seq<Binding>, sourcePath: string, targetPath: string, n: int)
    requires ValidClip(clip) && sourcePath != targetPath
    requires OnPath(clip, Elems(s), sourcePath) && NoRepeats(s)
    ensures forall x :: x in s ==> x in clip
    ensures Relocated(clip, MovedAlong(clip, s, targetPath, n), Elems(s), targetPath, n)
  {
    assert forall x :: x in s ==> x in Elems(s);
    if s != [] {
      var init, b := s[..|s| - 1], s[|s| - 1];
      assert Elems(s) == Elems(init) + {b} by {
        assert s == init + [b];
      }
      NotInPrefix(s, |s| - 1);
      MovedAlongRelocates(clip, init, sourcePath, targetPath, n);
      RelocateStep(clip, MovedAlong(clip, init, targetPath, n), Elems(init), b, sourcePath, targetPath, n);
    }
  }

  /** A list holding the elements of a set once each, in some order. */
  method ListOf(s: set<Binding>) returns (bs: seq<Binding>)
    ensures Elems(bs) == s && NoRepeats(bs)
  {
    bs := [];
    var left := s;
    while left != {}
      invariant left <= s && Elems(bs) == s - left && NoRepeats(bs)
      decreases left
    {
      var b :| b in left;
      assert b !in Elems(bs);
      assert forall i :: 0 <= i < |bs| ==> bs[i] in Elems(bs);
      assert Elems(bs + [b]) == Elems(bs) + {b};
      bs := bs + [b];
      left := left - {b};
    }
  }

  /** The overwrite case: the target's binding with the same property name, which the source
      looks up with `First`, is exactly where the rewrite case would put the curve. */
  lemma OverwriteTargetIsDest(clips: map<ClipId, Clip>, target: Renderer, source: Renderer, c: ClipId, b: Binding, tb: Binding)
    requires ValidClips(clips) && c in clips && b in clips[c] && source.mesh.Some?
    requires Retargeted(clips[c], source, b)
    requires tb in BindingsIn(AnimationsReferencing(clips, target), c) && tb.prop == b.prop
    ensures tb == Dest(b, target.path, 0)
    ensures forall n :: Dest(b, target.path, n) == tb
  {
    AnimsInClips(clips, target);
    FloatCurveNotSlot(clips[c], b);
  }

  /** The bindings of clip `c` that the overwrite list holds after the removals. */
  function OverwriteList(clips: map<ClipId, Clip>, target: Renderer, source: Renderer, c: ClipId): (ow: set<Binding>)
    requires c in clips && source.mesh.Some?
    ensures ow <= Moving(clips[c], source)
  {
    var ta := AnimationsReferencing(clips, target);
    set b | b in clips[c] && Retargeted(clips[c], source, b) && c in ta && (exists tb :: tb in ta[c] && tb.prop == b.prop)
  }

  /** The bindings of clip `c` that the rewrite list holds after the removals. */
  function RewriteList(clips: map<ClipId, Clip>, target: Renderer, source: Renderer, c: ClipId): (rw: set<Binding>)
    requires c in clips && source.mesh.Some?
    ensures rw <= Moving(clips[c], source)
  {
    var ta := AnimationsReferencing(clips, target);
    set b | b in clips[c] && Retargeted(clips[c], source, b) && !(c in ta && exists tb :: tb in ta[c] && tb.prop == b.prop)
  }

  /** The material swaps of clip `c`. */
  function SwapList(clip: Clip, source: Renderer): (sw: set<Binding>)
    requires source.mesh.Some?
    ensures sw <= Moving(clip, source)
  {
    set b | b in clip && SlotSwap(clip, source, b)
  }

  /** Together the three lists are the moving bindings, and no binding is in two of them. */
  lemma ListsPartitionMoving(clips: map<ClipId, Clip>, target: Renderer, source: Renderer, c: ClipId)
    requires c in clips && source.mesh.Some?
    ensures OverwriteList(clips, target, source, c) + RewriteList(clips, target, source, c) + SwapList(clips[c], source)
              == Moving(clips[c], source)
    ensures OverwriteList(clips, target, source, c) !! RewriteList(clips, target, source, c)
    ensures OverwriteList(clips, target, source, c) !! SwapList(clips[c], source)
    ensures RewriteList(clips, target, source, c) !! SwapList(clips[c], source)
  {
  }

  /** Clear the source binding `b`, then write its curve to `tb` (the rewrite and swap order). */
  method EraseThenSet(clip: Clip, cur: Clip, ghost s: seq<Binding>, b: Binding, tb: Binding, targetPath: string, n: int)
    returns (next: Clip)
    requires forall x :: x in s ==> x in clip
    requires b in clip && b !in s && b.path != targetPath && tb == Dest(b, targetPath, n)
    requires cur == MovedAlong(clip, s, targetPath, n)
    ensures forall x :: x in s + [b] ==> x in clip
    ensures next == MovedAlong(clip, s + [b], targetPath, n)
  {
    MoveOne(clip, s, b, tb, targetPath, n);
    var curve := cur[b];
    next := cur - {b};
    next := next[tb := curve];
  }

  /** Write the curve of `b` to `tb`, then clear `b` (the overwrite order). */
  method SetThenErase(clip: Clip, cur: Clip, ghost s: seq<Binding>, b: Binding, tb: Binding, targetPath: string, n: int)
    returns (next: Clip)
    requires forall x :: x in s ==> x in clip
    requires b in clip && b !in s && b.path != targetPath && tb == Dest(b, targetPath, n)
    requires cur == MovedAlong(clip, s, targetPath, n)
    ensures forall x :: x in s + [b] ==> x in clip
    ensures next == MovedAlong(clip, s + [b], targetPath, n)
  {
    MoveOne(clip, s, b, tb, targetPath, n);
    var curve := cur[b];
    next := cur[tb := curve];
    next := next - {b};
    assert next == (cur - {b})[tb := curve];
  }

  /** The overwrite pass: each listed binding's curve is written to the target binding with the
      same property name, then the source binding is cleared. */
  method OverwritePass(clips: map<ClipId, Clip>, target: Renderer, source: Renderer, c: ClipId, n: int,
                       cur: Clip, ghost done: seq<Binding>, todo: seq<Binding>)
    returns (next: Clip)
    requires ValidClips(clips) && c in clips && source.mesh.Some? && source.path != target.path
    requires forall b :: b in todo ==> b in OverwriteList(clips, target, source, c)
    requires forall b :: b in done + todo ==> b in clips[c] && b.path == source.path
    requires NoRepeats(done + todo)
    requires cur == MovedAlong(clips[c], done, target.path, n)
    ensures next == MovedAlong(clips[c], done + todo, target.path, n)
  {
    var ta := AnimationsReferencing(clips, target);
    next := cur;
    assert done + todo[..0] == done;
    for i := 0 to |todo|
      invariant next == MovedAlong(clips[c], done + todo[..i], target.path, n)
    {
      var b := todo[i];
      assert b in OverwriteList(clips, target, source, c);
      var tb: Binding :| tb in ta[c] && tb.prop == b.prop;
      OverwriteTargetIsDest(clips, target, source, c, b, tb);
      PassStep(clips[c], done, todo, i);
      next := SetThenErase(clips[c], next, done + todo[..i], b, tb, target.path, n);
    }
    assert todo[..|todo|] == todo;
  }

  /** The rewrite pass: each listed binding's curve moves to the same property on the target path. */
  method RewritePass(clip: Clip, sourcePath: string, targetPath: string, n: int,
                     cur: Clip, ghost done: seq<Binding>, todo: seq<Binding>)
    returns (next: Clip)
    requires ValidClip(clip) && sourcePath != targetPath
    requires forall b :: b in todo ==> b in clip && !IsPPtr(clip, b)
    requires forall b :: b in done + todo ==> b in clip && b.path == sourcePath
    requires NoRepeats(done + todo)
    requires cur == MovedAlong(clip, done, targetPath, n)
    ensures next == MovedAlong(clip, done + todo, targetPath, n)
  {
    next := cur;
    assert done + todo[..0] == done;
    for i := 0 to |todo|
      invariant next == MovedAlong(clip, done + todo[..i], targetPath, n)
    {
      var b := todo[i];
      FloatCurveNotSlot(clip, b);
      var tb := Binding(targetPath, b.typ, b.prop);
      PassStep(clip, done, todo, i);
      next := EraseThenSet(clip, next, done + todo[..i], b, tb, targetPath, n);
    }
    assert todo[..|todo|] == todo;
  }

  /** The material-swap pass: the swap of source slot k moves to target slot n + k, with k parsed
      from the property name up to the first ']'. */
  method SwapPass(clip: Clip, sourcePath: string, targetPath: string, n: int,
                  cur: Clip, ghost done: seq<Binding>, todo: seq<Binding>)
    returns (next: Clip)
    requires ValidClip(clip) && sourcePath != targetPath
    requires forall b :: b in todo ==> b in clip && StartsWith(b.prop, SlotPrefix)
    requires forall b :: b in done + todo ==> b in clip && b.path == sourcePath
    requires NoRepeats(done + todo)
    requires cur == MovedAlong(clip, done, targetPath, n)
    ensures next == MovedAlong(clip, done + todo, targetPath, n)
  {
    next := cur;
    assert done + todo[..0] == done;
    for i := 0 to |todo|
      invariant next == MovedAlong(clip, done + todo[..i], targetPath, n)
    {
      var b := todo[i];
      var k := SlotIndex(b.prop, {']'}).value;
      var tb := Binding(targetPath, b.typ, SlotProperty(n + k));
      PassStep(clip, done, todo, i);
      next := EraseThenSet(clip, next, done + todo[..i], b, tb, targetPath, n);
    }
    assert todo[..|todo|] == todo;
  }

  /** The three passes of `FixUpAnimations` on one clip: overwrites, rewrites, material swaps. */
  method FixUpClip(clips: map<ClipId, Clip>, target: Renderer, source: Renderer, c: ClipId, n: int)
    returns (clip': Clip)
    requires ValidClips(clips) && c in clips && source.mesh.Some? && source.path != target.path
    ensures Relocated(clips[c], clip', Moving(clips[c], source), target.path, n)
  {
    var clip := clips[c];
    var ow := ListOf(OverwriteList(clips, target, source, c));
    var rw := ListOf(RewriteList(clips, target, source, c));
    var sw := ListOf(SwapList(clip, source));
    ListsPartitionMoving(clips, target, source, c);
    MovingIsOnSourcePath(clip, source);
    NoRepeatsConcat(ow, rw);
    NoRepeatsConcat(ow + rw, sw);
    assert forall b :: b in ow + rw + sw ==> b in Elems(ow + rw + sw);
    assert forall b :: b in rw ==> b in Elems(rw);
    assert forall b :: b in sw ==> b in Elems(sw);
    clip' := OverwritePass(clips, target, source, c, n, clip, [], ow);
    assert [] + ow == ow;
    clip' := RewritePass(clip, source.path, target.path, n, clip', ow, rw);
    clip' := SwapPass(clip, source.path, target.path, n, clip', ow + rw, sw);
    MovedAlongRelocates(clip, ow + rw + sw, source.path, target.path, n);
  }

  /** The clips after `FixUpAnimations(target, source)`, with `n` the target mesh's submesh count. */
  ghost predicate FixedUp(clips: map<ClipId, Clip>, clips': map<ClipId, Clip>, target: Renderer, source: Renderer, n: int)
    requires source.mesh.Some?
  {
    && clips'.Keys == clips.Keys
    && forall c :: c in clips ==> ClipFixedUp(clips[c], clips'[c], source, target.path, n)
  }

  /** One clip after the fix-up. */
  ghost predicate ClipFixedUp(clip: Clip, clip': Clip, source: Renderer, targetPath: string, n: int)
    requires source.mesh.Some?
  {
    Relocated(clip, clip', Moving(clip, source), targetPath, n)
  }

  /** The one clip `Relocated` describes: the moved bindings taken away and every destination
      added, a destination holding the curve of the binding moved onto it and every other key
      keeping its own curve. */
  ghost function Relocate(clip: Clip, moved: set<Binding>, targetPath: string, n: int): Clip
    requires moved <= clip.Keys
  {
    map b | b in (clip.Keys - moved) + (set m | m in moved :: Dest(m, targetPath, n)) ::
      if exists m :: m in moved && Dest(m, targetPath, n) == b then clip[MovedOnto(moved, targetPath, n, b)]
      else clip[b]
  }

  /** A binding of `moved` whose destination is `b`. */
  ghost function MovedOnto(moved: set<Binding>, targetPath: string, n: int, b: Binding): (m: Binding)
    requires exists m :: m in moved && Dest(m, targetPath, n) == b
    ensures m in moved && Dest(m, targetPath, n) == b
  {
    var m :| m in moved && Dest(m, targetPath, n) == b; m
  }

  /** The clips after `FixUpAnimations(target, source)`, as a value. */
  ghost function FixUp(clips: map<ClipId, Clip>, target: Renderer, source: Renderer): map<ClipId, Clip>
    requires target.mesh.Some? && source.mesh.Some?
  {
    map c | c in clips :: Relocate(clips[c], Moving(clips[c], source), target.path, |target.mesh.value.subMeshes|)
  }

  /** No two bindings of `moved` share a destination. */
  predicate DestsDistinct(moved: set<Binding>, targetPath: string, n: int) {
    forall m1, m2 :: m1 in moved && m2 in moved && Dest(m1, targetPath, n) == Dest(m2, targetPath, n) ==> m1 == m2
  }

  /** Slot property names are canonical and moving bindings share a path and a type, so their
      destinations are distinct. */
  lemma MovingDestsDistinct(clip: Clip, source: Renderer, targetPath: string, n: int)
    requires ValidClip(clip) && source.mesh.Some?
    ensures DestsDistinct(Moving(clip, source), targetPath, n)
  {
    MovingIsOnSourcePath(clip, source);
    forall m1, m2 | m1 in Moving(clip, source) && m2 in Moving(clip, source) &&
                    Dest(m1, targetPath, n) == Dest(m2, targetPath, n)
      ensures m1 == m2
    {
      DestInjective(m1, m2, targetPath, n, clip);
    }
  }

  /** A destination of `Relocate` holds the curve moved onto it. */
  lemma RelocateAtDest(clip: Clip, moved: set<Binding>, targetPath: string, n: int, m: Binding)
    requires moved <= clip.Keys && DestsDistinct(moved, targetPath, n) && m in moved
    ensures Dest(m, targetPath, n) in Relocate(clip, moved, targetPath, n)
    ensures Relocate(clip, moved, targetPath, n)[Dest(m, targetPath, n)] == clip[m]
  {
    var d := Dest(m, targetPath, n);
    assert d in (set m | m in moved :: Dest(m, targetPath, n));
    assert exists m' :: m' in moved && Dest(m', targetPath, n) == d;
  }

  /** `Relocate` meets `Relocated` when the destinations are distinct. */
  lemma RelocateRelocated(clip: Clip, moved: set<Binding>, targetPath: string, n: int)
    requires moved <= clip.Keys && DestsDistinct(moved, targetPath, n)
    ensures Relocated(clip, Relocate(clip, moved, targetPath, n), moved, targetPath, n)
  {
    forall m | m in moved
      ensures Dest(m, targetPath, n) in Relocate(clip, moved, targetPath, n)
      ensures Relocate(clip, moved, targetPath, n)[Dest(m, targetPath, n)] == clip[m]
    {
      RelocateAtDest(clip, moved, targetPath, n, m);
    }
  }

  /** ... and is the only clip that does. */
  lemma RelocatedIsRelocate(clip: Clip, clip': Clip, moved: set<Binding>, targetPath: string, n: int)
    requires moved <= clip.Keys && DestsDistinct(moved, targetPath, n)
    requires Relocated(clip, clip', moved, targetPath, n)
    ensures clip' == Relocate(clip, moved, targetPath, n)
  {
    var r := Relocate(clip, moved, targetPath, n);
    assert clip'.Keys == r.Keys;
    forall b | b in r
      ensures clip'[b] == r[b]
    {
      if m :| m in moved && Dest(m, targetPath, n) == b {
        RelocateAtDest(clip, moved, targetPath, n, m);
      }
    }
  }

  /** `FixUp` is what `FixedUp` describes, and the only clips it describes. */
  lemma {:induction false} FixUpMeaning(clips: map<ClipId, Clip>, clips': map<ClipId, Clip>, target: Renderer, source: Renderer)
    requires ValidClips(clips) && target.mesh.Some? && source.mesh.Some?
    ensures FixedUp(clips, FixUp(clips, target, source), target, source, |target.mesh.value.subMeshes|)
    ensures FixedUp(clips, clips', target, source, |target.mesh.value.subMeshes|) ==> clips' == FixUp(clips, target, source)
  {
    var n := |target.mesh.value.subMeshes|;
    var f := FixUp(clips, target, source);
    forall c | c in clips
      ensures ClipFixedUp(clips[c], f[c], source, target.path, n)
      ensures c in clips' && ClipFixedUp(clips[c], clips'[c], source, target.path, n) ==> clips'[c] == f[c]
    {
      MovingDestsDistinct(clips[c], source, target.path, n);
      RelocateRelocated(clips[c], Moving(clips[c], source), target.path, n);
      if c in clips' && ClipFixedUp(clips[c], clips'[c], source, target.path, n) {
        RelocatedIsRelocate(clips[c], clips'[c], Moving(clips[c], source), target.path, n);
      }
    }
  }

  /** Clips with no binding on the source get empty lists and come out unchanged, so the loop
      runs over every clip rather than only those `GetAnimationsReferencingSMR(source)` returns. */
  method FixUpAnimations(clips: map<ClipId, Clip>, target: Renderer, source: Renderer) returns (clips': map<ClipId, Clip>)
    requires ValidClips(clips) && target.mesh.Some? && source.mesh.Some? && source.path != target.path
    ensures FixedUp(clips, clips', target, source, |target.mesh.value.subMeshes|)
    ensures clips' == FixUp(clips, target, source)
  {
    var n := |target.mesh.value.subMeshes|;
    clips' := clips;
    var todo := clips.Keys;
    while todo != {}
      invariant todo <= clips.Keys && clips'.Keys == clips.Keys
      invariant forall c :: c in clips && c !in todo ==> ClipFixedUp(clips[c], clips'[c], source, target.path, n)
      decreases todo
    {
      var c :| c in todo;
      var clip' := FixUpClip(clips, target, source, c, n);
      clips' := clips'[c := clip'];
      todo := todo - {c};
    }
    FixUpMeaning(clips, clips', target, source);
  }

  // ---------------------------------------------------------------------------------------------
  // Properties of the fix-up

  /** A material swap of source slot k ends up on the target at slot n + k with the same curve,
      and the source binding is gone. */
  lemma {:induction false} FixUpShiftsSlot(clips: map<ClipId, Clip>, clips': map<ClipId, Clip>, target: Renderer,
                                           source: Renderer, n: int, c: ClipId, k: int)
    requires ValidClips(clips) && source.mesh.Some? && source.path != target.path
    requires FixedUp(clips, clips', target, source, n)
    requires c in clips && Binding(source.path, SkinnedMeshRendererType, SlotProperty(k)) in clips[c]
    requires IsPPtr(clips[c], Binding(source.path, SkinnedMeshRendererType, SlotProperty(k)))
    ensures Binding(target.path, SkinnedMeshRendererType, SlotProperty(n + k)) in clips'[c]
    ensures clips'[c][Binding(target.path, SkinnedMeshRendererType, SlotProperty(n + k))]
            == clips[c][Binding(source.path, SkinnedMeshRendererType, SlotProperty(k))]
    ensures Binding(source.path, SkinnedMeshRendererType, SlotProperty(k)) !in clips'[c]
  {
    var b := Binding(source.path, SkinnedMeshRendererType, SlotProperty(k));
    SlotIndexOfSlotProperty(k, {']'});
    assert SlotSwap(clips[c], source, b);
    assert b in Moving(clips[c], source);
    assert Dest(b, target.path, n) == Binding(target.path, SkinnedMeshRendererType, SlotProperty(n + k));
  }

  /** A retargeted blendshape or material curve keeps its property and curve on the target path. */
  lemma {:induction false} FixUpRetargetsCurve(clips: map<ClipId, Clip>, clips': map<ClipId, Clip>, target: Renderer,
                                               source: Renderer, n: int, c: ClipId, prop: string)
    requires ValidClips(clips) && source.mesh.Some? && source.path != target.path
    requires FixedUp(clips, clips', target, source, n)
    requires c in clips && Binding(source.path, SkinnedMeshRendererType, prop) in clips[c]
    requires Retargeted(clips[c], source, Binding(source.path, SkinnedMeshRendererType, prop))
    ensures Binding(target.path, SkinnedMeshRendererType, prop) in clips'[c]
    ensures clips'[c][Binding(target.path, SkinnedMeshRendererType, prop)]
            == clips[c][Binding(source.path, SkinnedMeshRendererType, prop)]
    ensures Binding(source.path, SkinnedMeshRendererType, prop) !in clips'[c]
  {
    var b := Binding(source.path, SkinnedMeshRendererType, prop);
    assert b in Moving(clips[c], source);
    FloatCurveNotSlot(clips[c], b);
    assert Dest(b, target.path, n) == Binding(target.path, SkinnedMeshRendererType, prop);
  }

  /** Object curves other than material swaps and `m_IsActive` bindings are never moved: they
      keep their curve unless they sit on the target path and a moved curve landed on them. */
  lemma {:induction false} FixUpKeepsExcluded(clips: map<ClipId, Clip>, clips': map<ClipId, Clip>, target: Renderer,
                                              source: Renderer, n: int, c: ClipId, b: Binding)
    requires ValidClips(clips) && source.mesh.Some? && source.path != target.path
    requires FixedUp(clips, clips', target, source, n)
    requires c in clips && b in clips[c] && b.path != target.path
    requires b.prop == IsActiveProperty || (IsPPtr(clips[c], b) && !StartsWith(b.prop, SlotPrefix))
    ensures b in clips'[c] && clips'[c][b] == clips[c][b]
  {
    assert b !in Moving(clips[c], source);
  }

  /** The fix-up keeps clips well formed. */
  lemma {:induction false} FixUpKeepsValid(clips: map<ClipId, Clip>, clips': map<ClipId, Clip>, target: Renderer,
                                           source: Renderer, n: int)
    requires ValidClips(clips) && source.mesh.Some? && source.path != target.path
    requires FixedUp(clips, clips', target, source, n)
    ensures ValidClips(clips')
  {
    forall c | c in clips'
      ensures ValidClip(clips'[c])
    {
      RelocatedKeepsValid(clips[c], clips'[c], Moving(clips[c], source), target.path, n);
    }
  }

  lemma RelocatedKeepsValid(clip: Clip, clip': Clip, ms: set<Binding>, targetPath: string, n: int)
    requires ValidClip(clip) && ms <= clip.Keys
    requires Relocated(clip, clip', ms, targetPath, n)
    ensures ValidClip(clip')
  {
    forall b | b in clip'
      ensures StartsWith(b.prop, SlotPrefix) ==>
                SlotIndex(b.prop, {']'}).Some? && b.prop == SlotProperty(SlotIndex(b.prop, {']'}).value)
                && clip'[b].ObjectCurve?
      ensures StartsWith(b.prop, BlendShapePrefix) || StartsWith(b.prop, MaterialPrefix) ==> clip'[b].FloatCurve?
    {
      if m :| m in ms && Dest(m, targetPath, n) == b {
        DestKeepsKind(clip, m, targetPath, n);
      }
    }
  }

  /** A destination binding carries a curve of the kind its property name calls for. */
  lemma DestKeepsKind(clip: Clip, m: Binding, targetPath: string, n: int)
    requires ValidClip(clip) && m in clip
    ensures var d := Dest(m, targetPath, n);
      && (StartsWith(d.prop, SlotPrefix) ==>
            SlotIndex(d.prop, {']'}).Some? && d.prop == SlotProperty(SlotIndex(d.prop, {']'}).value)
            && clip[m].ObjectCurve?)
      && (StartsWith(d.prop, BlendShapePrefix) || StartsWith(d.prop, MaterialPrefix) ==> clip[m].FloatCurve?)
  {
    if StartsWith(m.prop, SlotPrefix) {
      var j := n + SlotIndex(m.prop, {']'}).value;
      SlotIndexOfSlotProperty(j, {']'});
      SlotPropertyPrefixes(j);
    }
  }

  /** Every moved binding now references the target. */
  lemma FixUpTargetsTarget(clip: Clip, target: Renderer, source: Renderer, n: int, m: Binding)
    requires source.mesh.Some? && m in Moving(clip, source)
    ensures References(target, Dest(m, target.path, n))
  {
    MovingOnSourcePath(clip, source, m);
  }
}
