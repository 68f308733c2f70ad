/** The tile map of src/game/game.c and its ray walk: `trace_ray`'s DDA cell
    walk and `game_move_and_collide`'s axis-separated clamp. Floats are reals;
    the one infinity the walk can produce (|1/0| for an axis-aligned ray) is
    an extended value. */
module Grid {
  import opened Common

  const MAX_MAP_WIDTH: int := 64
  const MAX_MAP_HEIGHT: int := 64
  /** Size of g_map.tiles. */
  const TILE_COUNT: int := 4096
  /** Reduced ray depth used for collision rays. */
  const COLL_DOF: int := 8

  /** A float of the walk: finite, +infinity, or NaN. */
  datatype Ext = Fin(v: real) | Inf | NaN

  /** absf(1.0f / x). With a real 0 standing for +0.0 the quotient is +infinity. */
  function AbsRecip(x: real): (r: Ext)
    ensures r.Inf? <==> x == 0.0
    ensures r.Fin? ==> r.v > 0.0 && r.v * Abs(x) == 1.0
  {
    if x == 0.0 then Inf else Fin(Abs(1.0 / x))
  }

  /** a * b for a non-NaN a; an infinite a is only ever scaled by a positive b. */
  function Mul(a: Ext, b: real): Ext
    requires !a.NaN? && (a.Inf? ==> b > 0.0)
  {
    if a.Inf? then Inf else Fin(a.v * b)
  }

  function Plus(a: Ext, b: Ext): Ext
  {
    match (a, b)
    case (Fin(x), Fin(y)) => Fin(x + y)
    case (NaN, _) => NaN
    case (_, NaN) => NaN
    case _ => Inf
  }

  /** a - b, where a finite a never meets an infinite b. */
  function Minus(a: Ext, b: Ext): Ext
    requires !(a.Fin? && b.Inf?)
  {
    match (a, b)
    case (Fin(x), Fin(y)) => Fin(x - y)
    case (Inf, Fin(_)) => Inf
    case _ => NaN
  }

  /** The float `<`: false whenever a NaN is involved. */
  predicate Less(a: Ext, b: Ext)
  {
    match (a, b)
    case (Fin(x), Fin(y)) => x < y
    case (Fin(_), Inf) => true
    case _ => false
  }

  /** A snapshot of g_map: width, height and the 4096 tiles, row-major. */
  datatype MapView = MapView(w: int, h: int, tiles: seq<u8>)

  /** The map sizes the hello handler lets through. */
  predicate WellFormed(m: MapView)
  {
    0 <= m.w < MAX_MAP_WIDTH && 0 <= m.h < MAX_MAP_HEIGHT && |m.tiles| == TILE_COUNT
  }

  /** The unsigned test `x >= w || y >= h`: a negative coordinate has wrapped
      to a huge u32. */
  predicate Outside(m: MapView, x: int, y: int)
  {
    x < 0 || x >= m.w || y < 0 || y >= m.h
  }

  lemma IndexBound(x: int, y: int, w: int, h: int)
    requires 0 <= x < w < MAX_MAP_WIDTH && 0 <= y < h < MAX_MAP_HEIGHT
    ensures 0 <= x + y * w < w * h <= 63 * 63
  {
    MulLe(y + 1, h, w);
    MulLe(h, 63, w);
    MulLe(w, 63, 63);
    assert (y + 1) * w == y * w + w;
    assert w * h == h * w && w * 63 == 63 * w;
  }

  /** g_map.tiles[x + y * g_map.w] for an in-bounds cell. */
  function TileAt(m: MapView, x: int, y: int): u8
    requires WellFormed(m) && !Outside(m, x, y)
  {
    IndexBound(x, y, m.w, m.h);
    m.tiles[x + y * m.w]
  }

  // ---------------------------------------------------------------------------
  // trace_ray

  /** What trace_ray fixes before its loop. As in the C, `ddy` (delta_dist.y)
      is the distance between vertical grid lines, |1/dir.x|, and `ddx` the
      one between horizontal grid lines, |1/dir.y|. */
  datatype Setup = Setup(ddx: Ext, ddy: Ext, sx: int, sy: int)

  /** The loop state: map_coords, intersec_dist and `vertical`. */
  datatype Ray = Ray(mx: int, my: int, ix: Ext, iy: Ext, vertical: bool)

  datatype Hit = Hit(dist: Ext, vertical: bool)

  /** The outcome of a walk: the returned cell id, the hit, and (for the
      lemmas) the number of iterations taken and the final cell. */
  datatype Trace = Trace(cell: u8, hit: Hit, steps: nat, mx: int, my: int)

  /** The walk is well defined: nothing is NaN yet, and an intersection
      distance is infinite exactly when its delta is. */
  predicate Consistent(su: Setup, r: Ray)
  {
    && !su.ddx.NaN? && !su.ddy.NaN? && !r.ix.NaN? && !r.iy.NaN?
    && (r.ix.Inf? <==> su.ddx.Inf?) && (r.iy.Inf? <==> su.ddy.Inf?)
    && (su.sx == 1 || su.sx == -1) && (su.sy == 1 || su.sy == -1)
  }

  /** The distance from pos to the next grid line along one axis: from
      dpos = pos - (i32)pos, either 1 - dpos (positive direction) or dpos. */
  function Gap(p: real, d: real): (r: real)
    ensures d >= 0.0 ==> r > 0.0
  {
    var dp := p - Trunc(p) as real;
    if d >= 0.0 then 1.0 - dp else dp
  }

  function MakeSetup(dir: Vec): (su: Setup)
  {
    Setup(AbsRecip(dir.y), AbsRecip(dir.x), Sign(dir.x).Floor, Sign(dir.y).Floor)
  }

  /** The start of trace_ray: the cell holding pos, and the first
      intercepts (StartRayFromPosition says what they measure). */
  function StartRay(pos: Vec, dir: Vec): (r: Ray)
    ensures Consistent(MakeSetup(dir), r)
  {
    var su := MakeSetup(dir);
    Ray(Trunc(pos.x), Trunc(pos.y), Mul(su.ddx, Gap(pos.y, dir.y)),
        Mul(su.ddy, Gap(pos.x, dir.x)), true)
  }

  /** The ray begins in the cell holding pos, steps towards the sign of each
      direction component (+1 for 0, as signf), and its first intercepts are
      the distances along the ray to the first cell boundary in the step
      direction: |1/dir.x| times the x gap for the vertical lines (iy),
      |1/dir.y| times the y gap for the horizontal ones (ix). */
  lemma StartRayFromPosition(pos: Vec, dir: Vec)
    ensures var su, r := MakeSetup(dir), StartRay(pos, dir);
      && r.vertical
      && su.sx == (if dir.x >= 0.0 then 1 else -1)
      && su.sy == (if dir.y >= 0.0 then 1 else -1)
      && (pos.x >= 0.0 ==> r.mx as real <= pos.x < r.mx as real + 1.0)
      && (pos.y >= 0.0 ==> r.my as real <= pos.y < r.my as real + 1.0)
      && (pos.x >= 0.0 ==>
            r.iy == Mul(AbsRecip(dir.x), if dir.x >= 0.0 then (r.mx + 1) as real - pos.x else pos.x - r.mx as real))
      && (pos.y >= 0.0 ==>
            r.ix == Mul(AbsRecip(dir.y), if dir.y >= 0.0 then (r.my + 1) as real - pos.y else pos.y - r.my as real))
  {
  }

  /** One iteration past an empty cell: an x-step when intersec_dist.y <
      intersec_dist.x, otherwise a y-step. */
  function Step(su: Setup, r: Ray): (r': Ray)
    requires Consistent(su, r)
    ensures Consistent(su, r')
  {
    if Less(r.iy, r.ix) then Ray(r.mx + su.sx, r.my, r.ix, Plus(r.iy, su.ddy), true)
    else Ray(r.mx, r.my + su.sy, Plus(r.ix, su.ddx), r.iy, false)
  }

  function Finish(su: Setup, r: Ray, cell: u8, d: nat): Trace
    requires Consistent(su, r)
  {
    var dist := if r.vertical then Minus(r.iy, su.ddy) else Minus(r.ix, su.ddx);
    Trace(cell, Hit(dist, r.vertical), d, r.mx, r.my)
  }

  /** The loop of trace_ray from iteration d on. */
  function Walk(m: MapView, su: Setup, r: Ray, d: nat, dof: nat): Trace
    requires WellFormed(m) && Consistent(su, r)
    decreases dof - d
  {
    if d >= dof || Outside(m, r.mx, r.my) then Finish(su, r, 0, d)
    else if TileAt(m, r.mx, r.my) != 0 then Finish(su, r, TileAt(m, r.mx, r.my), d)
    else Walk(m, su, Step(su, r), d + 1, dof)
  }

  function TraceOf(m: MapView, pos: Vec, dir: Vec, dof: nat): Trace
    requires WellFormed(m)
  {
    Walk(m, MakeSetup(dir), StartRay(pos, dir), 0, dof)
  }

  /** trace_ray stops within `dof` iterations; it returns 0 only when the
      walk left the map or ran out of iterations, and otherwise the non-zero
      tile of the in-bounds cell it stopped on. */
  lemma {:induction false} WalkOutcome(m: MapView, su: Setup, r: Ray, d: nat, dof: nat)
    requires WellFormed(m) && Consistent(su, r) && d <= dof
    ensures var t := Walk(m, su, r, d, dof);
      && d <= t.steps <= dof
      && (t.cell == 0 ==> t.steps == dof || Outside(m, t.mx, t.my))
      && (t.cell != 0 ==> !Outside(m, t.mx, t.my) && t.cell == TileAt(m, t.mx, t.my))
      && (t.steps == d ==> t == Finish(su, r, t.cell, d))
    decreases dof - d
  {
    if !(d >= dof || Outside(m, r.mx, r.my)) && TileAt(m, r.mx, r.my) == 0 {
      WalkOutcome(m, su, Step(su, r), d + 1, dof);
    }
  }

  /** Each iteration moves exactly one map coordinate by the sign of that ray
      component, so after the walk the cell is reached by `steps - d` unit
      moves, each in the ray's own direction. */
  lemma {:induction false} WalkDisplacement(m: MapView, su: Setup, r: Ray, d: nat, dof: nat)
    requires WellFormed(m) && Consistent(su, r) && d <= dof
    ensures var t := Walk(m, su, r, d, dof);
      && (t.mx - r.mx) * su.sx >= 0 && (t.my - r.my) * su.sy >= 0
      && (t.mx - r.mx) * su.sx + (t.my - r.my) * su.sy == t.steps - d
    decreases dof - d
  {
    if !(d >= dof || Outside(m, r.mx, r.my)) && TileAt(m, r.mx, r.my) == 0 {
      var r' := Step(su, r);
      WalkDisplacement(m, su, r', d + 1, dof);
      var t := Walk(m, su, r, d, dof);
      if r'.vertical {
        assert (t.mx - r.mx) * su.sx == (t.mx - r'.mx) * su.sx + 1;
      } else {
        assert (t.my - r.my) * su.sy == (t.my - r'.my) * su.sy + 1;
      }
    }
  }

  /** A walk along the y-axis (delta_dist.y infinite, delta_dist.x = 1): only
      y-steps are taken, and a stop after k >= 1 of them reports the distance
      intersec_dist.x - 1 = (gap at the start) + (k - 1) with vertical false. */
  lemma {:induction false} AxisWalkY(m: MapView, su: Setup, r: Ray, d: nat, dof: nat, gap: real)
    requires WellFormed(m) && Consistent(su, r) && d <= dof
    requires su.ddy.Inf? && su.ddx == Fin(1.0) && r.ix == Fin(gap + (d as real))
    requires d > 0 ==> !r.vertical
    ensures var t := Walk(m, su, r, d, dof);
      && t.mx == r.mx && t.my == r.my + su.sy * (t.steps - d)
      && (t.steps > 0 ==> t.hit == Hit(Fin(gap + (t.steps - 1) as real), false))
    decreases dof - d
  {
    if !(d >= dof || Outside(m, r.mx, r.my)) && TileAt(m, r.mx, r.my) == 0 {
      var r' := Step(su, r);
      assert r' == Ray(r.mx, r.my + su.sy, Fin(gap + ((d + 1) as real)), r.iy, false);
      AxisWalkY(m, su, r', d + 1, dof, gap);
    }
  }

  /** The same for a walk along the x-axis (delta_dist.x infinite, delta_dist.y
      = 1): only x-steps, and a stop after k >= 1 of them reports (gap at the
      start) + (k - 1) with vertical true. */
  lemma {:induction false} AxisWalkX(m: MapView, su: Setup, r: Ray, d: nat, dof: nat, gap: real)
    requires WellFormed(m) && Consistent(su, r) && d <= dof
    requires su.ddx.Inf? && su.ddy == Fin(1.0) && r.iy == Fin(gap + (d as real)) && r.vertical
    ensures var t := Walk(m, su, r, d, dof);
      && t.my == r.my && t.mx == r.mx + su.sx * (t.steps - d)
      && t.hit == Hit(Fin(gap + (t.steps as real) - 1.0), true)
    decreases dof - d
  {
    if !(d >= dof || Outside(m, r.mx, r.my)) && TileAt(m, r.mx, r.my) == 0 {
      var r' := Step(su, r);
      assert r' == Ray(r.mx + su.sx, r.my, r.ix, Fin(gap + ((d + 1) as real)), true);
      AxisWalkX(m, su, r', d + 1, dof, gap);
    }
  }

  /** For the vertical probe (0, s) of game_move_and_collide: the x cell
      never changes, the y cell moves by s per iteration, and a wall met after
      k >= 1 steps is at distance gap + (k - 1). A wall in the starting cell
      gives a NaN distance (infinity minus infinity). */
  lemma VerticalProbe(m: MapView, pos: Vec, s: real, dof: nat)
    requires WellFormed(m) && (s == 1.0 || s == -1.0)
    ensures var t := TraceOf(m, pos, Vec(0.0, s), dof);
      && t.mx == Trunc(pos.x) && t.my == Trunc(pos.y) + s.Floor * t.steps
      && (t.steps > 0 ==> t.hit == Hit(Fin(Gap(pos.y, s) + (t.steps - 1) as real), false))
      && (t.steps == 0 ==> t.hit == Hit(NaN, true))
  {
    var su := MakeSetup(Vec(0.0, s));
    assert su.ddx == Fin(1.0);
    AxisWalkY(m, su, StartRay(pos, Vec(0.0, s)), 0, dof, Gap(pos.y, s));
    WalkOutcome(m, su, StartRay(pos, Vec(0.0, s)), 0, dof);
  }

  /** For the horizontal probe (s, 0): only x-steps, and the reported
      distance is gap + (k - 1) after k steps, including k = 0. */
  lemma HorizontalProbe(m: MapView, pos: Vec, s: real, dof: nat)
    requires WellFormed(m) && (s == 1.0 || s == -1.0)
    ensures var t := TraceOf(m, pos, Vec(s, 0.0), dof);
      && t.my == Trunc(pos.y) && t.mx == Trunc(pos.x) + s.Floor * t.steps
      && t.hit == Hit(Fin(Gap(pos.x, s) + (t.steps as real) - 1.0), true)
  {
    var su := MakeSetup(Vec(s, 0.0));
    assert su.ddy == Fin(1.0);
    AxisWalkX(m, su, StartRay(pos, Vec(s, 0.0)), 0, dof, Gap(pos.x, s));
  }

  // ---------------------------------------------------------------------------
  // game_move_and_collide

  /** One axis of game_move_and_collide: the probe's outcome and the distance
      left to travel along that axis (clamped to hit.dist - radius on a hit). */
  function Clamp(t: Trace, want: real, radius: real): (r: (real, bool))
  {
    if t.cell != 0 && Less(t.hit.dist, Fin(want + radius)) then (t.hit.dist.v - radius, true)
    else (want, false)
  }

  /** game_move_and_collide: the new position and whether either probe hit. */
  function Collide(m: MapView, pos: Vec, diff: Vec, radius: real): (Vec, bool)
    requires WellFormed(m)
  {
    var vDir := Vec(0.0, Sign(diff.y));
    var (vDist, vHit) := Clamp(TraceOf(m, pos, vDir, COLL_DOF), Abs(diff.y), radius);
    var hDir := Vec(Sign(diff.x), 0.0);
    var (hDist, hHit) := Clamp(TraceOf(m, pos, hDir, COLL_DOF), Abs(diff.x), radius);
    (Vec(pos.x + hDir.x * hDist, pos.y + vDir.y * vDist), vHit || hHit)
  }

  /** With no wall nearer than |component| + radius on either probe, the
      position moves by exactly diff and no collision is reported. */
  lemma CollideFree(m: MapView, pos: Vec, diff: Vec, radius: real)
    requires WellFormed(m)
    requires !Clamp(TraceOf(m, pos, Vec(0.0, Sign(diff.y)), COLL_DOF), Abs(diff.y), radius).1
    requires !Clamp(TraceOf(m, pos, Vec(Sign(diff.x), 0.0), COLL_DOF), Abs(diff.x), radius).1
    ensures Collide(m, pos, diff, radius) == (Add(pos, diff), false)
  {
  }

  /** On a nearer hit the axis moves by sign * (hit.dist - radius), which can
      be backwards; the report is a collision. */
  lemma CollideClamps(m: MapView, pos: Vec, diff: Vec, radius: real)
    requires WellFormed(m)
    ensures var t := TraceOf(m, pos, Vec(Sign(diff.x), 0.0), COLL_DOF);
      Clamp(t, Abs(diff.x), radius).1 ==>
        && t.hit.dist.Fin?
        && Collide(m, pos, diff, radius).0.x == pos.x + Sign(diff.x) * (t.hit.dist.v - radius)
        && Collide(m, pos, diff, radius).1
    ensures var t := TraceOf(m, pos, Vec(0.0, Sign(diff.y)), COLL_DOF);
      Clamp(t, Abs(diff.y), radius).1 ==>
        && t.hit.dist.Fin?
        && Collide(m, pos, diff, radius).0.y == pos.y + Sign(diff.y) * (t.hit.dist.v - radius)
        && Collide(m, pos, diff, radius).1
  {
    var tx := TraceOf(m, pos, Vec(Sign(diff.x), 0.0), COLL_DOF);
    var ty := TraceOf(m, pos, Vec(0.0, Sign(diff.y)), COLL_DOF);
    ClampHit(tx, Abs(diff.x), radius);
    ClampHit(ty, Abs(diff.y), radius);
    CollideParts(m, pos, diff, radius, tx, ty);
  }

  /** A reported hit is a finite distance, and the axis travels hit.dist - radius. */
  lemma ClampHit(t: Trace, want: real, radius: real)
    ensures Clamp(t, want, radius).1 ==> t.hit.dist.Fin? && Clamp(t, want, radius).0 == t.hit.dist.v - radius
  {
  }

  /** Collide in terms of its two probes. */
  lemma CollideParts(m: MapView, pos: Vec, diff: Vec, radius: real, tx: Trace, ty: Trace)
    requires WellFormed(m)
    requires tx == TraceOf(m, pos, Vec(Sign(diff.x), 0.0), COLL_DOF)
    requires ty == TraceOf(m, pos, Vec(0.0, Sign(diff.y)), COLL_DOF)
    ensures Collide(m, pos, diff, radius)
      == (Vec(pos.x + Sign(diff.x) * Clamp(tx, Abs(diff.x), radius).0,
              pos.y + Sign(diff.y) * Clamp(ty, Abs(diff.y), radius).0),
          Clamp(ty, Abs(diff.y), radius).1 || Clamp(tx, Abs(diff.x), radius).1)
  {
  }

  /** Both probes start from the original position, so each axis of the
      result depends on that axis of diff only. */
  lemma CollideAxesIndependent(m: MapView, pos: Vec, a: Vec, b: Vec, radius: real)
    requires WellFormed(m)
    ensures a.x == b.x ==> Collide(m, pos, a, radius).0.x == Collide(m, pos, b, radius).0.x
    ensures a.y == b.y ==> Collide(m, pos, a, radius).0.y == Collide(m, pos, b, radius).0.y
  {
  }

  /** A zero component still probes the positive direction: signf(0) = +1. */
  lemma ZeroProbesPositive(m: MapView, pos: Vec, diff: Vec, radius: real)
    requires WellFormed(m) && diff.y == 0.0
    ensures var t := TraceOf(m, pos, Vec(0.0, 1.0), COLL_DOF);
      Collide(m, pos, diff, radius).0.y
        == pos.y + (if t.cell != 0 && Less(t.hit.dist, Fin(radius)) then t.hit.dist.v - radius else 0.0)
  {
  }

  // ---------------------------------------------------------------------------
  // The map object (g_map) and the two procedures over it

  class TileMap {
    var w: u32
    var h: u32
    const tiles: array<u8>

    ghost predicate Valid()
      reads this
    {
      tiles.Length == TILE_COUNT && w < MAX_MAP_WIDTH && h < MAX_MAP_HEIGHT
    }

    function View(): (m: MapView)
      reads this, tiles
      requires Valid()
      ensures WellFormed(m)
    {
      MapView(w, h, tiles[..])
    }

    /** The zero-initialised global: an empty 0x0 map. */
    constructor ()
      ensures Valid() && w == 0 && h == 0 && fresh(tiles)
    {
      w, h := 0, 0;
      tiles := new u8[TILE_COUNT];
    }

    /** trace_ray: walk the grid from pos along dir for at most dof cells. */
    method TraceRay(pos: Vec, dir: Vec, dof: u32) returns (cell: u8, hit: Hit)
      requires Valid()
      ensures var t := TraceOf(View(), pos, dir, dof); cell == t.cell && hit == t.hit
    {
      var m := View();
      var dpx := pos.x - Trunc(pos.x) as real;
      var dpy := pos.y - Trunc(pos.y) as real;
      var ddy := AbsRecip(dir.x);
      var ddx := AbsRecip(dir.y);
      var distX := if dir.x >= 0.0 then 1.0 - dpx else dpx;
      var distY := if dir.y >= 0.0 then 1.0 - dpy else dpy;
      var iy := Mul(ddy, distX);
      var ix := Mul(ddx, distY);
      var sx := Sign(dir.x).Floor;
      var sy := Sign(dir.y).Floor;
      var mx := Trunc(pos.x);
      var my := Trunc(pos.y);
      var vertical := true;
      cell := 0;
      ghost var su := Setup(ddx, ddy, sx, sy);
      assert su == MakeSetup(dir);
      var d: nat := 0;
      while d < dof
        invariant d <= dof && Consistent(su, Ray(mx, my, ix, iy, vertical))
        invariant Walk(m, su, Ray(mx, my, ix, iy, vertical), d, dof) == TraceOf(m, pos, dir, dof)
        invariant cell == 0
      {
        if mx < 0 || mx >= w as int || my < 0 || my >= h as int {
          break;
        }
        IndexBound(mx, my, w, h);
        cell := tiles[mx + my * w];
        if cell != 0 {
          break;
        }
        if Less(iy, ix) {
          iy := Plus(iy, ddy);
          mx := mx + sx;
          vertical := true;
        } else {
          ix := Plus(ix, ddx);
          my := my + sy;
          vertical := false;
        }
        d := d + 1;
      }
      hit := Hit(if vertical then Minus(iy, ddy) else Minus(ix, ddx), vertical);
    }

    /** game_move_and_collide: probe each axis from pos and clamp the move
        along it; the new position is returned rather than written through. */
    method MoveAndCollide(pos: Vec, diff: Vec, radius: real) returns (p: Vec, collided: bool)
      requires Valid()
      ensures (p, collided) == Collide(View(), pos, diff, radius)
    {
      var vDir := Vec(0.0, Sign(diff.y));
      var vDist, vHit := ClampAxis(pos, vDir, Abs(diff.y), radius);
      var hDir := Vec(Sign(diff.x), 0.0);
      var hDist, hHit := ClampAxis(pos, hDir, Abs(diff.x), radius);
      collided := vHit || hHit;
      p := Vec(pos.x + hDir.x * hDist, pos.y + vDir.y * vDist);
    }

    /** One of the two identical blocks of game_move_and_collide: trace a
        collision ray and shorten the wanted distance on a nearer wall. */
    method ClampAxis(pos: Vec, dir: Vec, want: real, radius: real) returns (dist: real, hitWall: bool)
      requires Valid()
      ensures (dist, hitWall) == Clamp(TraceOf(View(), pos, dir, COLL_DOF), want, radius)
    {
      var cell, hit := TraceRay(pos, dir, COLL_DOF);
      dist, hitWall := want, false;
      if cell != 0 && Less(hit.dist, Fin(want + radius)) {
        dist, hitWall := hit.dist.v - radius, true;
      }
    }
  }

  /** The 4x4 map with a single wall at (2, 1). */
  function WallAt21(): (m: MapView)
    ensures WellFormed(m)
  {
    MapView(4, 4, seq(TILE_COUNT, k => if k == 2 + 1 * 4 then 1 else 0))
  }

  /** Moving a player (radius 0.2) from (1.5, 1.5) by (0.6, 0) stops 0.2 short
      of the wall face at x = 2: the result is x = 1.8 and a collision. */
  lemma CollideAgainstWall()
    ensures Collide(WallAt21(), Vec(1.5, 1.5), Vec(0.6, 0.0), 0.2) == (Vec(1.8, 1.5), true)
  {
    var m := WallAt21();
    var pos := Vec(1.5, 1.5);
    HorizontalProbe(m, pos, 1.0, COLL_DOF);
    var th := TraceOf(m, pos, Vec(1.0, 0.0), COLL_DOF);
    var su := MakeSetup(Vec(1.0, 0.0));
    var r0 := StartRay(pos, Vec(1.0, 0.0));
    assert TileAt(m, 1, 1) == 0 && TileAt(m, 2, 1) == 1;
    assert Walk(m, su, r0, 0, COLL_DOF) == Walk(m, su, Step(su, r0), 1, COLL_DOF);
    assert th.steps == 1 && th.cell == 1;
    VerticalProbe(m, pos, 1.0, COLL_DOF);
    WalkOutcome(m, MakeSetup(Vec(0.0, 1.0)), StartRay(pos, Vec(0.0, 1.0)), 0, COLL_DOF);
    var tv := TraceOf(m, pos, Vec(0.0, 1.0), COLL_DOF);
    assert tv.mx == 1;
    assert tv.cell == 0;
  }
}
