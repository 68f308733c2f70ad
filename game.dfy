/** The per-frame sprite logic of src/game/game.c: update_sprites (every
    sprite moves and collides with the walls, bullets are switched off on a
    wall hit, player sprites animate and switch off the foreign bullets that
    touch them), render_sprites (projection, culling and the back-to-front
    insertion into the draw list) and invert_color. */
module GameSim {
  import opened Common
  import opened Sprites
  import opened Grid

  /** g_sprite_radius. */
  const PLAYER_RADIUS: real := 0.2
  const BULLET_RADIUS: real := 0.01

  function Radius(kind: u8): (r: real)
    requires kind < SPRITE_MAX
    ensures r > 0.0
  {
    if kind == SPRITE_PLAYER then PLAYER_RADIUS else BULLET_RADIUS
  }

  const PLAYER_ANIM_FPS: real := 6.0
  /** Frames 0 to 3 are the walk cycle, 4 the standing frame and the frames
      above 4 the firing animation. */
  const STAND_FRAME: real := 4.0

  // ---------------------------------------------------------------------------
  // update_sprites, on values

  /** modf of include/gloom/math.h: val - (i32)(val / mod) * mod. */
  function ModF(val: real, mod: real): real
    requires mod != 0.0
  {
    val - (Trunc(val / mod) as real) * mod
  }

  lemma ModFRange(val: real)
    requires val >= 0.0
    ensures 0.0 <= ModF(val, STAND_FRAME) < STAND_FRAME
  {
    var q := val / STAND_FRAME;
    var t := Trunc(q) as real;
    assert t <= q < t + 1.0;
    assert q * STAND_FRAME == val;
    assert t * STAND_FRAME <= val < t * STAND_FRAME + STAND_FRAME;
  }

  /** A player sprite's animation frame after a step of `delta` seconds. */
  function Animated(frame: real, vel: Vec, delta: real): real
  {
    if frame > STAND_FRAME then
      var f := frame - delta * PLAYER_ANIM_FPS;
      if f < STAND_FRAME then STAND_FRAME else f
    else if Length2(vel) > 0.01 then ModF(frame + delta * PLAYER_ANIM_FPS, STAND_FRAME)
    else STAND_FRAME
  }

  /** The firing frames only count down to the standing frame, and a walk
      cycle started from a frame in [0, 4] stays in [0, 4]. */
  lemma AnimationBounded(frame: real, vel: Vec, delta: real)
    requires 0.0 <= frame && 0.0 <= delta
    ensures frame > STAND_FRAME ==> STAND_FRAME <= Animated(frame, vel, delta) <= frame
    ensures frame <= STAND_FRAME ==> 0.0 <= Animated(frame, vel, delta) <= STAND_FRAME
  {
    if frame <= STAND_FRAME && Length2(vel) > 0.01 {
      ModFRange(frame + delta * PLAYER_ANIM_FPS);
    }
  }

  /** game_move_and_collide for every live sprite, from where it stands at
      the start of the update with its velocity and its type's radius: the
      new position and whether a wall stopped it. Each sprite moves from
      that position because no iteration touches another sprite's position
      (UpdateMovesEach). */
  function Motions(m: MapView, live: seq<Sprite>, delta: real): (r: seq<(Vec, bool)>)
    requires WellFormed(m) && KnownKinds(live)
    ensures |r| == |live|
  {
    seq(|live|, j requires 0 <= j < |live| =>
      Collide(m, live[j].pos, Scale(live[j].vel, delta), Radius(live[j].desc.kind)))
  }

  /** The first half of an update_sprites iteration, given the sprite's move
      (mv): it takes the new position; a bullet's flag becomes (not disabled)
      and collided, any other sprite animates. */
  function Moved(sp: Sprite, mv: (Vec, bool), delta: real): (r: Sprite)
    ensures Kept(r, sp) && r.pos == mv.0
    ensures sp.desc.kind == SPRITE_PLAYER ==> r.disabled == sp.disabled
  {
    if sp.desc.kind == SPRITE_BULLET then sp.(pos := mv.0, disabled := !sp.disabled && mv.1)
    else sp.(pos := mv.0, animFrame := Animated(sp.animFrame, sp.vel, delta))
  }

  /** What an update leaves alone in every sprite: the descriptor, the
      velocity and the rotation. */
  predicate Kept(a: Sprite, b: Sprite)
  {
    a.desc == b.desc && a.vel == b.vel && a.rot == b.rot
  }

  /** The inner loop's test for the pair (s, other): other is enabled, a
      bullet fired by someone else, and nearer than the sum of the radii. */
  predicate Strikes(s: Sprite, other: Sprite)
    requires s.desc.kind < SPRITE_MAX && other.desc.kind < SPRITE_MAX
  {
    var reach := Radius(s.desc.kind) + Radius(other.desc.kind);
    && !other.disabled
    && Length2(Sub(other.pos, s.pos)) < reach * reach
    && other.desc.kind == SPRITE_BULLET && other.desc.owner != s.desc.id
  }

  /** The inner loop for sprite i: every other sprite it strikes is switched
      off; nothing else changes. */
  function Disable(c: seq<Sprite>, i: nat): (r: seq<Sprite>)
    requires i < |c| && KnownKinds(c)
    ensures |r| == |c| && KnownKinds(r)
    ensures forall j :: 0 <= j < |c| ==> r[j].desc == c[j].desc && r[j].pos == c[j].pos
    ensures forall j :: 0 <= j < |c| && r[j] != c[j] ==>
              j != i && c[j].desc.kind == SPRITE_BULLET && c[j].desc.owner != c[i].desc.id
              && !c[j].disabled && r[j] == c[j].(disabled := true)
  {
    seq(|c|, j requires 0 <= j < |c| => if j != i && Strikes(c[i], c[j]) then c[j].(disabled := true) else c[j])
  }

  /** One iteration of update_sprites' outer loop, on slot i, whose move
      is mv. */
  function Process(c: seq<Sprite>, i: nat, mv: (Vec, bool), delta: real): (r: seq<Sprite>)
    requires i < |c| && KnownKinds(c)
    ensures |r| == |c| && KnownKinds(r)
    ensures forall j :: 0 <= j < |c| ==> Kept(r[j], c[j])
    ensures forall j :: 0 <= j < |c| ==> r[j].pos == if j == i then mv.0 else c[j].pos
    ensures forall j :: 0 <= j < |c| && c[j].desc.kind == SPRITE_PLAYER ==> r[j].disabled == c[j].disabled
  {
    var s := Moved(c[i], mv, delta);
    var c' := c[i := s];
    if s.disabled || s.desc.kind != SPRITE_PLAYER then c' else Disable(c', i)
  }

  /** The live sprites after the first k iterations of update_sprites, with
      the moves mvs. */
  function UpdatedUpTo(live: seq<Sprite>, mvs: seq<(Vec, bool)>, delta: real, k: nat): (r: seq<Sprite>)
    requires KnownKinds(live) && k <= |live| == |mvs|
    ensures |r| == |live| && KnownKinds(r)
  {
    if k == 0 then live else Process(UpdatedUpTo(live, mvs, delta, k - 1), k - 1, mvs[k - 1], delta)
  }

  /** update_sprites on the live sprites. */
  function Updated(m: MapView, live: seq<Sprite>, delta: real): seq<Sprite>
    requires WellFormed(m) && KnownKinds(live)
  {
    UpdatedUpTo(live, Motions(m, live, delta), delta, |live|)
  }

  // ---------------------------------------------------------------------------
  // Properties of update_sprites

  /** Descriptors, velocities and rotations are untouched, and each of the
      first k sprites has taken its move while the others still stand. */
  lemma {:induction false} UpdateMovesEach(live: seq<Sprite>, mvs: seq<(Vec, bool)>, delta: real, k: nat)
    requires KnownKinds(live) && k <= |live| == |mvs|
    ensures forall j :: 0 <= j < |live| ==> Kept(UpdatedUpTo(live, mvs, delta, k)[j], live[j])
    ensures forall j :: 0 <= j < |live| ==>
              UpdatedUpTo(live, mvs, delta, k)[j].pos == if j < k then mvs[j].0 else live[j].pos
  {
    if k > 0 {
      UpdateMovesEach(live, mvs, delta, k - 1);
    }
  }

  /** A player sprite's flag never changes during an update: neither its own
      move nor any other player's contact test touches it. */
  lemma {:induction false} PlayersKeepFlags(live: seq<Sprite>, mvs: seq<(Vec, bool)>, delta: real, k: nat, j: nat)
    requires KnownKinds(live) && k <= |live| == |mvs| && j < |live|
    requires live[j].desc.kind == SPRITE_PLAYER
    ensures UpdatedUpTo(live, mvs, delta, k)[j].disabled == live[j].disabled
  {
    if k > 0 {
      PlayersKeepFlags(live, mvs, delta, k - 1, j);
      UpdateMovesEach(live, mvs, delta, k - 1);
    }
  }

  /** After update_sprites every sprite stands where game_move_and_collide
      took it from its starting position, and nothing but positions, flags
      and animation frames has changed. */
  lemma UpdatedPositions(m: MapView, live: seq<Sprite>, delta: real)
    requires WellFormed(m) && KnownKinds(live)
    ensures forall j :: 0 <= j < |live| ==>
      && Kept(Updated(m, live, delta)[j], live[j])
      && Updated(m, live, delta)[j].pos == Collide(m, live[j].pos, Scale(live[j].vel, delta), Radius(live[j].desc.kind)).0
  {
    UpdateMovesEach(live, Motions(m, live, delta), delta, |live|);
  }

  /** Every sprite that ends an update switched off after starting it
      enabled is a bullet: contact only ever switches off bullets. */
  lemma OnlyBulletsSwitchedOff(m: MapView, live: seq<Sprite>, delta: real, j: nat)
    requires WellFormed(m) && KnownKinds(live) && j < |live|
    ensures !live[j].disabled && Updated(m, live, delta)[j].disabled ==> live[j].desc.kind == SPRITE_BULLET
  {
    if live[j].desc.kind == SPRITE_PLAYER {
      PlayersKeepFlags(live, Motions(m, live, delta), delta, |live|, j);
    }
  }

  /** A bullet's own iteration sets its flag to (not disabled) and collided,
      from the flag it holds when its turn comes. */
  lemma {:induction false} BulletFlagStep(live: seq<Sprite>, mvs: seq<(Vec, bool)>, delta: real, j: nat)
    requires KnownKinds(live) && j < |live| == |mvs| && live[j].desc.kind == SPRITE_BULLET
    ensures UpdatedUpTo(live, mvs, delta, j + 1)[j].disabled
            == (!UpdatedUpTo(live, mvs, delta, j)[j].disabled && mvs[j].1)
  {
    UpdateMovesEach(live, mvs, delta, j);
  }

  /** So a bullet that is switched off when its turn comes, whether by a
      wall in the previous frame or by an earlier player's contact test in
      this pass, is switched on again by its own move. */
  lemma SwitchedOffBulletReenabled(live: seq<Sprite>, mvs: seq<(Vec, bool)>, delta: real, j: nat)
    requires KnownKinds(live) && j < |live| == |mvs| && live[j].desc.kind == SPRITE_BULLET
    requires UpdatedUpTo(live, mvs, delta, j)[j].disabled
    ensures !UpdatedUpTo(live, mvs, delta, j + 1)[j].disabled
  {
    BulletFlagStep(live, mvs, delta, j);
  }

  /** The same pass switching a bullet off and on again: player 5 stands in
      slot 0 and an enabled bullet of player 7 lies a tenth of a unit away in
      slot 1. The player's contact test switches the bullet off, and the
      bullet's own move, meeting no wall, switches it back on, so the update
      ends with the bullet enabled although it touched the player. */
  lemma StruckBulletReenabledSamePass(mvs: seq<(Vec, bool)>, delta: real)
    requires |mvs| == 2 && mvs[0].0 == Vec(0.0, 0.0) && !mvs[1].1
    ensures var p := Sprite(Desc(SPRITE_PLAYER as u8, 5, 0, 0), 0.0, Vec(0.0, 0.0), Vec(0.0, 0.0),
                            false, 0, 0, 0.0, 0.0, STAND_FRAME);
            var b := Sprite(Desc(SPRITE_BULLET as u8, 1, 7, 0), 0.0, Vec(0.1, 0.0), Vec(0.0, 0.0),
                            false, 0, 0, 0.0, 0.0, 0.0);
            && Strikes(UpdatedUpTo([p, b], mvs, delta, 1)[0], b)
            && UpdatedUpTo([p, b], mvs, delta, 1)[1].disabled
            && !UpdatedUpTo([p, b], mvs, delta, 2)[1].disabled
  {
    var p := Sprite(Desc(SPRITE_PLAYER as u8, 5, 0, 0), 0.0, Vec(0.0, 0.0), Vec(0.0, 0.0),
                    false, 0, 0, 0.0, 0.0, STAND_FRAME);
    var b := Sprite(Desc(SPRITE_BULLET as u8, 1, 7, 0), 0.0, Vec(0.1, 0.0), Vec(0.0, 0.0),
                    false, 0, 0, 0.0, 0.0, 0.0);
    var c1 := UpdatedUpTo([p, b], mvs, delta, 1);
    assert UpdatedUpTo([p, b], mvs, delta, 0) == [p, b];
    assert c1 == Process([p, b], 0, mvs[0], delta);
    assert Strikes(c1[0], b);
    SwitchedOffBulletReenabled([p, b], mvs, delta, 1);
  }

  // ---------------------------------------------------------------------------
  // update_sprites on the table

  /** update_sprites: every live sprite, in slot order, takes its move and
      its flag or animation step; an enabled player then runs the contact
      test against every other slot. */
  method UpdateSprites(t: SpriteTable, g: TileMap, delta: real)
    requires t.Valid() && KnownKinds(t.s[..t.n]) && g.Valid()
    modifies t.s
    ensures t.s[..t.n] == Updated(g.View(), old(t.s[..t.n]), delta)
    ensures t.s[t.n..] == old(t.s[t.n..])
  {
    ghost var L := t.s[..t.n];
    ghost var mvs := Motions(g.View(), L, delta);
    var i := 0;
    while i < t.n
      invariant i <= t.n
      invariant t.s[..t.n] == UpdatedUpTo(L, mvs, delta, i)
      invariant t.s[t.n..] == old(t.s[t.n..])
    {
      StepSprite(t, g, i, delta, L, mvs);
      i := i + 1;
    }
  }

  /** The sprite in slot i stands where it started, so its move is the one
      Motions computed for it. */
  lemma MotionAt(m: MapView, live: seq<Sprite>, delta: real, i: nat, sp: Sprite)
    requires WellFormed(m) && KnownKinds(live) && i < |live| && Kept(sp, live[i]) && sp.pos == live[i].pos
    ensures Motions(m, live, delta)[i] == Collide(m, sp.pos, Scale(sp.vel, delta), Radius(sp.desc.kind))
  {
  }

  /** One iteration of update_sprites' outer loop, from the state after the
      first i iterations over the live sprites L. */
  method StepSprite(t: SpriteTable, g: TileMap, i: nat, delta: real, ghost L: seq<Sprite>, ghost mvs: seq<(Vec, bool)>)
    requires t.Valid() && g.Valid() && i < t.n == |L| && KnownKinds(L)
    requires mvs == Motions(g.View(), L, delta) && t.s[..t.n] == UpdatedUpTo(L, mvs, delta, i)
    modifies t.s
    ensures t.s[..t.n] == UpdatedUpTo(L, mvs, delta, i + 1)
    ensures t.s[t.n..] == old(t.s[t.n..])
  {
    UpdateMovesEach(L, mvs, delta, i);
    MotionAt(g.View(), L, delta, i, t.s[i]);
    var sp := t.s[i];
    var pos, collided := g.MoveAndCollide(sp.pos, Scale(sp.vel, delta), Radius(sp.desc.kind));
    var moved := Moved(sp, (pos, collided), delta);
    t.s[i] := moved;
    if !moved.disabled && moved.desc.kind == SPRITE_PLAYER {
      StrikeFrom(t, i);
    }
  }

  /** update_sprites' inner loop for the player in slot i: switch off every
      other enabled sprite it strikes. */
  method StrikeFrom(t: SpriteTable, i: nat)
    requires t.Valid() && i < t.n && KnownKinds(t.s[..t.n])
    modifies t.s
    ensures t.s[..t.n] == Disable(old(t.s[..t.n]), i)
    ensures t.s[t.n..] == old(t.s[t.n..])
  {
    ghost var C := t.s[..t.n];
    ghost var D := Disable(C, i);
    var j := 0;
    while j < t.n
      invariant j <= t.n
      invariant forall k :: 0 <= k < t.n ==> t.s[k] == if k < j then D[k] else C[k]
      invariant t.s[t.n..] == old(t.s[t.n..])
    {
      var s, other := t.s[i], t.s[j];
      if !other.disabled && j != i {
        var diff := Sub(other.pos, s.pos);
        var minDist2 := Radius(s.desc.kind) + Radius(other.desc.kind);
        minDist2 := minDist2 * minDist2;
        if Length2(diff) < minDist2 && other.desc.kind == SPRITE_BULLET && other.desc.owner != s.desc.id {
          t.s[j] := other.(disabled := true);
        }
      }
      j := j + 1;
    }
    assert t.s[..t.n] == D;
  }

  // ---------------------------------------------------------------------------
  // The radius lookup of the contact test

  /** The contact test's reach as written: the other sprite's radius is
      looked up with its id instead of its type, reading past the two-entry
      g_sprite_radius for every id above 1 (None). */
  function ReachAsWritten(s: Sprite, other: Sprite): (r: Option<real>)
    requires s.desc.kind < SPRITE_MAX
    ensures r.Some? <==> other.desc.id < SPRITE_MAX
  {
    if other.desc.id < SPRITE_MAX then Some(Radius(s.desc.kind) + Radius(other.desc.id)) else None
  }

  /** A bullet with id 0 fired by player 7 and standing 0.3 from player 5:
      as written the reach is 0.2 + 0.2 and the bullet is switched off; by
      type the reach is 0.2 + 0.01 and the bullet flies past. */
  lemma BulletReachByIdTooLarge()
    ensures var p := Player(5).(pos := Vec(1.0, 1.0));
      var b := Sprite(Desc(SPRITE_BULLET as u8, 0, 7, 0), 0.0, Vec(1.3, 1.0), Vec(0.0, 0.0), false, 0, 0, 0.0, 0.0, 0.0);
      && ReachAsWritten(p, b) == Some(0.4)
      && Length2(Sub(b.pos, p.pos)) < 0.4 * 0.4
      && !Strikes(p, b)
  {
  }

  /** With the radius taken from the type, a player strikes an enabled
      foreign bullet exactly when the bullet is nearer than 0.21, whatever
      the bullet's id. */
  lemma BulletReachByType(p: Sprite, b: Sprite)
    requires p.desc.kind == SPRITE_PLAYER && b.desc.kind == SPRITE_BULLET
    ensures Strikes(p, b) <==>
      !b.disabled && b.desc.owner != p.desc.id && Length2(Sub(b.pos, p.pos)) < 0.21 * 0.21
  {
  }

  // ---------------------------------------------------------------------------
  // render_sprites, on values

  const FB_WIDTH: int := 640

  /** g_camera as render_sprites reads it: its position and the inverse of
      the [dir, plane] basis. */
  datatype Camera = Camera(pos: Vec, m11: real, m12: real, m21: real, m22: real)

  /** A world point in camera space: x across the view, y the depth. */
  function Project(cam: Camera, p: Vec): Vec
  {
    var d := Sub(p, cam.pos);
    Vec(cam.m11 * d.x + cam.m12 * d.y, cam.m21 * d.x + cam.m22 * d.y)
  }

  /** The fields render_sprites writes before the on-screen test, for a
      sprite in front of the camera whose type is `width` pixels wide. */
  function Placed(sp: Sprite, proj: Vec, width: int): (r: Sprite)
    requires proj.y > 0.0
    ensures r.invDepth * proj.y == 1.0
    ensures r == sp.(invDepth := r.invDepth, screenX := r.screenX, screenHalfW := r.screenHalfW)
  {
    var inv := 1.0 / proj.y;
    sp.(invDepth := inv,
        screenX := Trunc((FB_WIDTH / 2) as real * (1.0 + proj.x / proj.y)),
        screenHalfW := Trunc(width as real * inv) / 2)
  }

  /** The culling test: the sprite's horizontal extent misses the screen. */
  predicate OffScreen(sp: Sprite)
  {
    sp.screenX + sp.screenHalfW < 0 || sp.screenX - sp.screenHalfW >= FB_WIDTH
  }

  /** Whether render_sprites puts sprite j, as it stood before the pass, on
      the draw list: enabled, not the tracked one, in front of the camera
      and not culled. */
  predicate Shown(sp: Sprite, j: nat, tracked: int, cam: Camera, widths: seq<int>)
    requires sp.desc.kind < SPRITE_MAX && |widths| == SPRITE_MAX
  {
    var proj := Project(cam, sp.pos);
    !sp.disabled && j != tracked && proj.y > 0.0 && !OffScreen(Placed(sp, proj, widths[sp.desc.kind]))
  }

  predicate InRange(order: seq<nat>, n: nat)
  {
    forall k :: 0 <= k < |order| ==> order[k] < n
  }

  /** The draw order: deeper first, and among equal depths the lower slot
      (the one met first) first. */
  predicate Before(live: seq<Sprite>, a: nat, b: nat)
    requires a < |live| && b < |live|
  {
    live[a].depth2 > live[b].depth2 || (live[a].depth2 == live[b].depth2 && a < b)
  }

  predicate DrawOrder(order: seq<nat>, live: seq<Sprite>)
    requires InRange(order, |live|)
  {
    forall p, q :: 0 <= p < q < |order| ==> Before(live, order[p], order[q])
  }

  /** The insertion point the search loop finds for depth d: the first
      entry strictly shallower than d, or the end. */
  function SlotFor(order: seq<nat>, live: seq<Sprite>, d: real): (j: nat)
    requires InRange(order, |live|)
    ensures j <= |order|
    ensures forall k :: 0 <= k < j ==> live[order[k]].depth2 >= d
    ensures j < |order| ==> live[order[j]].depth2 < d
  {
    if |order| == 0 || live[order[0]].depth2 < d then 0 else 1 + SlotFor(order[1..], live, d)
  }

  /** a differs from b at most in the fields the renderer writes. */
  predicate ScreenOnly(a: Sprite, b: Sprite)
  {
    a.desc == b.desc && a.rot == b.rot && a.pos == b.pos && a.vel == b.vel
    && a.disabled == b.disabled && a.animFrame == b.animFrame
  }

  /** The sprites and the draw list render_sprites builds. */
  datatype Frame = Frame(live: seq<Sprite>, order: seq<nat>)

  /** The squared camera depth render_sprites sorts by. */
  function Depth2(cam: Camera, sp: Sprite): real
  {
    var y := Project(cam, sp.pos).y;
    y * y
  }

  /** What render_sprites does with one sprite: skips it, writes its
      screen fields and culls it, or writes them and its depth and lists it. */
  datatype Visit = Skipped | Culled(placed: Sprite) | Listed(shown: Sprite)

  function VisitSlot(sp: Sprite, i: nat, tracked: int, cam: Camera, widths: seq<int>): (v: Visit)
    requires sp.desc.kind < SPRITE_MAX && |widths| == SPRITE_MAX
    ensures v.Culled? ==> ScreenOnly(v.placed, sp) && v.placed.depth2 == sp.depth2
    ensures v.Listed? ==> ScreenOnly(v.shown, sp) && v.shown.depth2 == Depth2(cam, sp)
    ensures v.Listed? <==> Shown(sp, i, tracked, cam, widths)
    ensures v.Skipped? <==> sp.disabled || i == tracked || Project(cam, sp.pos).y <= 0.0
  {
    if sp.disabled || i == tracked then Skipped
    else
      var proj := Project(cam, sp.pos);
      if proj.y <= 0.0 then Skipped
      else
        var placed := Placed(sp, proj, widths[sp.desc.kind]);
        if OffScreen(placed) then Culled(placed)
        else Listed(placed.(depth2 := proj.y * proj.y))
  }

  /** v is what VisitSlot can give for sp: the written sprite differs from
      sp in its screen fields only. */
  predicate Fits(v: Visit, sp: Sprite)
  {
    match v
    case Skipped => true
    case Culled(placed) => ScreenOnly(placed, sp)
    case Listed(shown) => ScreenOnly(shown, sp)
  }

  /** The decision for every slot, each taken on the sprite as it stands
      when the loop reaches it (no earlier iteration touches it). */
  function Visits(live: seq<Sprite>, tracked: int, cam: Camera, widths: seq<int>): (r: seq<Visit>)
    requires KnownKinds(live) && |widths| == SPRITE_MAX
    ensures |r| == |live|
    ensures forall j :: 0 <= j < |live| ==> Fits(r[j], live[j])
  {
    seq(|live|, j requires 0 <= j < |live| => VisitSlot(live[j], j, tracked, cam, widths))
  }

  lemma VisitsAt(live: seq<Sprite>, tracked: int, cam: Camera, widths: seq<int>, i: nat)
    requires KnownKinds(live) && |widths| == SPRITE_MAX && i < |live|
    ensures Visits(live, tracked, cam, widths)[i] == VisitSlot(live[i], i, tracked, cam, widths)
  {
  }

  /** One iteration of render_sprites' loop, on slot i, given its decision v. */
  function RenderStep(f: Frame, i: nat, v: Visit): (r: Frame)
    requires i < |f.live| && InRange(f.order, |f.live|) && Fits(v, f.live[i])
    ensures |r.live| == |f.live| && InRange(r.order, |f.live|) && |r.order| <= |f.order| + 1
    ensures ScreenOnly(r.live[i], f.live[i])
    ensures forall j :: 0 <= j < |f.live| && j != i ==> r.live[j] == f.live[j]
  {
    match v
    case Skipped => f
    case Culled(placed) => Frame(f.live[i := placed], f.order)
    case Listed(shown) =>
      var live := f.live[i := shown];
      var j := SlotFor(f.order, live, shown.depth2);
      InsertMembers(f.order, j, i);
      Frame(live, f.order[..j] + [i] + f.order[j..])
  }

  /** The pass over the first k slots with decisions vs; once MAX_SPRITES
      entries are listed the loop has stopped. */
  function RenderUpTo(live: seq<Sprite>, vs: seq<Visit>, k: nat): (r: Frame)
    requires |vs| == |live| && k <= |live|
    requires forall j :: 0 <= j < |live| ==> Fits(vs[j], live[j])
    ensures |r.live| == |live| && InRange(r.order, |live|) && |r.order| <= k
    ensures forall j :: 0 <= j < |live| ==> ScreenOnly(r.live[j], live[j])
    ensures forall j :: k <= j < |live| ==> r.live[j] == live[j]
  {
    if k == 0 then Frame(live, [])
    else
      var f := RenderUpTo(live, vs, k - 1);
      if |f.order| >= MAX_SPRITES then f else RenderStep(f, k - 1, vs[k - 1])
  }

  /** What render_sprites leaves behind: the sprites with their screen
      fields written, and the draw list. */
  function Rendered(live: seq<Sprite>, tracked: int, cam: Camera, widths: seq<int>): Frame
    requires KnownKinds(live) && |widths| == SPRITE_MAX
  {
    RenderUpTo(live, Visits(live, tracked, cam, widths), |live|)
  }

  /** Inserting slot i, higher than every listed slot, at the position the
      search finds keeps the list in draw order. */
  lemma InsertKeepsDrawOrder(order: seq<nat>, live: seq<Sprite>, i: nat, s: Sprite)
    requires i < |live| && InRange(order, i) && DrawOrder(order, live)
    ensures InRange(order, |live[i := s]|)
    ensures DrawOrder(order[..SlotFor(order, live[i := s], s.depth2)] + [i]
                      + order[SlotFor(order, live[i := s], s.depth2)..], live[i := s])
  {
    var L := live[i := s];
    assert forall k :: 0 <= k < |order| ==> L[order[k]] == live[order[k]];
    var j := SlotFor(order, L, s.depth2);
    var o := order[..j] + [i] + order[j..];
    forall p, q | 0 <= p < q < |o|
      ensures Before(L, o[p], o[q])
    {
      if q < j {
        assert o[p] == order[p] && o[q] == order[q];
        assert Before(live, order[p], order[q]);
      } else if q == j {
        assert o[p] == order[p] && o[q] == i;
      } else if p == j {
        assert o[p] == i && o[q] == order[q - 1];
        if q - 1 > j {
          assert Before(live, order[j], order[q - 1]);
        }
      } else if p < j {
        assert o[p] == order[p] && o[q] == order[q - 1];
        assert Before(live, order[p], order[q - 1]);
      } else {
        assert o[p] == order[p - 1] && o[q] == order[q - 1];
        assert Before(live, order[p - 1], order[q - 1]);
      }
    }
  }

  /** The list after an insertion holds the old entries and the new one. */
  lemma InsertMembers(order: seq<nat>, j: nat, i: nat)
    requires j <= |order|
    ensures forall x :: x in order[..j] + [i] + order[j..] <==> x in order || x == i
  {
    assert order == order[..j] + order[j..];
  }

  /** One iteration keeps the list in draw order, adds slot i exactly when
      its decision lists it, and then with the listed sprite's depth. */
  lemma RenderStepLists(f: Frame, i: nat, v: Visit)
    requires i < |f.live| && InRange(f.order, i) && Fits(v, f.live[i]) && DrawOrder(f.order, f.live)
    ensures var r := RenderStep(f, i, v);
      InRange(r.order, i + 1) && DrawOrder(r.order, r.live)
      && (forall x :: x in r.order <==> x in f.order || (x == i && v.Listed?))
      && (v.Listed? ==> r.live[i] == v.shown)
  {
    var r := RenderStep(f, i, v);
    match v
    case Skipped =>
    case Culled(placed) =>
      assert forall p :: 0 <= p < |f.order| ==> r.live[f.order[p]] == f.live[f.order[p]];
    case Listed(shown) =>
      var j := SlotFor(f.order, f.live[i := shown], shown.depth2);
      InsertKeepsDrawOrder(f.order, f.live, i, shown);
      InsertMembers(f.order, j, i);
  }

  /** With at most MAX_SPRITES sprites the cap is never reached, so slot
      k - 1 gets its iteration. */
  lemma RenderUpToNext(live: seq<Sprite>, vs: seq<Visit>, k: nat)
    requires |vs| == |live| <= MAX_SPRITES && 0 < k <= |live|
    requires forall j :: 0 <= j < |live| ==> Fits(vs[j], live[j])
    ensures var f := RenderUpTo(live, vs, k - 1);
      f.live[k - 1] == live[k - 1] && RenderUpTo(live, vs, k) == RenderStep(f, k - 1, vs[k - 1])
  {
  }

  /** The draw list after the first k slots, with at most MAX_SPRITES
      sprites: x is on it iff x < k and x's decision lists it, each listed
      sprite carries the depth its decision gave it, and the list is in
      draw order, hence without a repeated entry. */
  lemma {:induction false} RenderUpToLists(live: seq<Sprite>, vs: seq<Visit>, k: nat)
    requires |vs| == |live| <= MAX_SPRITES && k <= |live|
    requires forall j :: 0 <= j < |live| ==> Fits(vs[j], live[j])
    ensures var r := RenderUpTo(live, vs, k);
      InRange(r.order, k) && DrawOrder(r.order, r.live)
      && (forall x :: 0 <= x < |live| ==> (x in r.order <==> x < k && vs[x].Listed?))
      && (forall x :: x in r.order ==> r.live[x] == vs[x].shown)
  {
    if k > 0 {
      var i := k - 1;
      RenderUpToLists(live, vs, i);
      var f := RenderUpTo(live, vs, i);
      var r := RenderUpTo(live, vs, k);
      RenderUpToNext(live, vs, k);
      RenderStepLists(f, i, vs[i]);
      forall x | x in r.order
        ensures r.live[x] == vs[x].shown
      {
        if x != i {
          assert x in f.order;
        }
      }
    }
  }

  /** render_sprites lists exactly the sprites it shows: x is on the list
      iff sprite x is enabled, is not the tracked one, is in front of the
      camera and overlaps the screen (with at most MAX_SPRITES sprites the
      cap never drops one); the list runs back to front by squared camera
      depth, ties in slot order, and has no repeated entry. */
  lemma RenderListsShown(live: seq<Sprite>, tracked: int, cam: Camera, widths: seq<int>)
    requires KnownKinds(live) && |live| <= MAX_SPRITES && |widths| == SPRITE_MAX
    ensures var r := Rendered(live, tracked, cam, widths);
      DrawOrder(r.order, r.live)
      && (forall x :: 0 <= x < |live| ==> (x in r.order <==> Shown(live[x], x, tracked, cam, widths)))
      && (forall x :: x in r.order ==> r.live[x].depth2 == Depth2(cam, live[x]))
      && (forall p, q :: 0 <= p < q < |r.order| ==> r.order[p] != r.order[q])
  {
    var vs := Visits(live, tracked, cam, widths);
    var r := Rendered(live, tracked, cam, widths);
    RenderUpToLists(live, vs, |live|);
    forall x | x in r.order
      ensures r.live[x].depth2 == Depth2(cam, live[x])
    {
      assert vs[x] == VisitSlot(live[x], x, tracked, cam, widths);
    }
    forall p, q | 0 <= p < q < |r.order|
      ensures r.order[p] != r.order[q]
    {
      assert Before(r.live, r.order[p], r.order[q]);
    }
  }

  /** The search loop of render_sprites: the first listed sprite strictly
      shallower than d. */
  method FindSlot(t: SpriteTable, onScreen: array<nat>, n: nat, d: real) returns (j: nat)
    requires t.Valid() && n <= onScreen.Length && InRange(onScreen[..n], t.n)
    ensures j == SlotFor(onScreen[..n], t.s[..t.n], d)
  {
    ghost var O := onScreen[..n];
    ghost var L := t.s[..t.n];
    j := 0;
    while j < n && !(t.s[onScreen[j]].depth2 < d)
      invariant j <= n && InRange(O[j..], t.n)
      invariant SlotFor(O, L, d) == j + SlotFor(O[j..], L, d)
    {
      assert O[j..][1..] == O[j + 1..];
      j := j + 1;
    }
  }

  /** The shift loop of render_sprites followed by the store: entry i goes
      in at position j and the entries from j on move up by one. */
  method ShiftIn(onScreen: array<nat>, n: nat, j: nat, i: nat)
    requires j <= n < onScreen.Length
    modifies onScreen
    ensures onScreen[..n + 1] == old(onScreen[..n])[..j] + [i] + old(onScreen[..n])[j..]
    ensures onScreen[n + 1..] == old(onScreen[n + 1..])
  {
    ghost var O := onScreen[..];
    var k := n;
    while k > j
      invariant j <= k <= n
      invariant forall p :: 0 <= p <= k ==> onScreen[p] == O[p]
      invariant forall p :: k < p <= n ==> onScreen[p] == O[p - 1]
      invariant onScreen[n + 1..] == O[n + 1..]
    {
      onScreen[k] := onScreen[k - 1];
      k := k - 1;
    }
    onScreen[j] := i;
    assert onScreen[..n + 1] == O[..n][..j] + [i] + O[..n][j..];
  }

  /** The search, the shift and the store for a sprite just given its depth. */
  method InsertDrawn(t: SpriteTable, onScreen: array<nat>, n: nat, i: nat)
    requires t.Valid() && i < t.n && n < onScreen.Length && InRange(onScreen[..n], t.n)
    modifies onScreen
    ensures var O := old(onScreen[..n]); var j := SlotFor(O, t.s[..t.n], t.s[i].depth2);
      onScreen[..n + 1] == O[..j] + [i] + O[j..]
  {
    var j := FindSlot(t, onScreen, n, t.s[i].depth2);
    ShiftIn(onScreen, n, j, i);
  }

  /** One iteration of render_sprites' loop on slot i, as RenderStep says. */
  method RenderSlot(t: SpriteTable, onScreen: array<nat>, n: nat, i: nat, cam: Camera, widths: seq<int>,
                    ghost f: Frame) returns (n': nat)
    requires t.Valid() && onScreen.Length == MAX_SPRITES && n <= i < t.n && |widths| == SPRITE_MAX
    requires f.live == t.s[..t.n] && f.order == onScreen[..n]
    requires KnownKinds(f.live) && InRange(f.order, t.n)
    modifies t.s, onScreen
    ensures n' <= i + 1
    ensures RenderStep(f, i, VisitSlot(f.live[i], i, t.tracked, cam, widths)) == Frame(t.s[..t.n], onScreen[..n'])
    ensures t.s[t.n..] == old(t.s[t.n..])
  {
    n' := n;
    var sp := t.s[i];
    ghost var v := VisitSlot(sp, i, t.tracked, cam, widths);
    if sp.disabled || i == t.tracked {
      assert v == Skipped;
      return;
    }
    var proj := Project(cam, sp.pos);
    if proj.y <= 0.0 {
      assert v == Skipped;
      return;
    }
    var placed := Placed(sp, proj, widths[sp.desc.kind]);
    t.s[i] := placed;
    if OffScreen(placed) {
      assert v == Culled(placed);
      assert t.s[..t.n] == f.live[i := placed];
      return;
    }
    var shown := placed.(depth2 := proj.y * proj.y);
    t.s[i] := shown;
    assert v == Listed(shown);
    assert t.s[..t.n] == f.live[i := shown];
    InsertDrawn(t, onScreen, n, i);
    n' := n + 1;
  }

  /** render_sprites up to the draw calls: the sprites' screen fields are
      written and onScreen[..n] lists the sprites to draw, back to front. */
  method RenderSprites(t: SpriteTable, cam: Camera, widths: seq<int>) returns (onScreen: array<nat>, n: nat)
    requires t.Valid() && KnownKinds(t.s[..t.n]) && |widths| == SPRITE_MAX
    modifies t.s
    ensures onScreen.Length == MAX_SPRITES && n <= MAX_SPRITES
    ensures Frame(t.s[..t.n], onScreen[..n]) == Rendered(old(t.s[..t.n]), t.tracked, cam, widths)
    ensures t.s[t.n..] == old(t.s[t.n..])
  {
    ghost var L := t.s[..t.n];
    ghost var V := Visits(L, t.tracked, cam, widths);
    onScreen := new nat[MAX_SPRITES];
    n := 0;
    var i := 0;
    while i < t.n
      invariant i <= t.n && n <= i
      invariant Frame(t.s[..t.n], onScreen[..n]) == RenderUpTo(L, V, i)
      invariant t.s[t.n..] == old(t.s[t.n..])
    {
      ghost var f := RenderUpTo(L, V, i);
      RenderUpToNext(L, V, i + 1);
      VisitsAt(L, t.tracked, cam, widths, i);
      assert KnownKinds(f.live);
      n := RenderSlot(t, onScreen, n, i, cam, widths, f);
      i := i + 1;
      if n >= MAX_SPRITES {
        assert i == t.n;
        break;
      }
    }
  }

  // ---------------------------------------------------------------------------
  // invert_color

  /** Channel k of a 0xAABBGGRR pixel: 0 red, 1 green, 2 blue, 3 alpha. */
  function Channel(c: bv32, k: bv5): bv8
    requires k < 4
  {
    ((c >> (8 * k)) & 0xFF) as bv8
  }

  /** invert_color: each colour channel becomes 0xFF minus itself, the
      alpha byte is cleared and the platform's alpha mask is or-ed in. */
  function InvertColor(color: bv32, alphaMask: bv32): (r: bv32)
    ensures alphaMask & 0xFF_FFFF == 0 ==>
      Channel(r, 0) == 0xFF - Channel(color, 0) && Channel(r, 1) == 0xFF - Channel(color, 1)
      && Channel(r, 2) == 0xFF - Channel(color, 2) && Channel(r, 3) == Channel(alphaMask, 3)
  {
    var red := 0xFF - Channel(color, 0);
    var green := 0xFF - Channel(color, 1);
    var blue := 0xFF - Channel(color, 2);
    red as bv32 | (green as bv32 << 8) | (blue as bv32 << 16) | alphaMask
  }

  /** Inverting twice gives back the colour channels, with the alpha byte
      replaced by the mask's. */
  lemma InvertTwice(color: bv32, alphaMask: bv32)
    requires alphaMask & 0xFF_FFFF == 0
    ensures InvertColor(InvertColor(color, alphaMask), alphaMask) == (color & 0xFF_FFFF) | alphaMask
  {
  }
}
