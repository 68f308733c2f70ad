/** The sprite table of src/game/multiplayer.c (g_sprites and
    g_tracked_sprite): a densely packed array of at most 255 sprites with
    lookup by id, allocation at the end, creation from packet data, removal
    by shifting the later entries down, and the tracked-sprite pointer. */
module Sprites {
  import opened Common

  const MAX_SPRITES: int := 255
  const SPRITE_PLAYER: int := 0
  const SPRITE_BULLET: int := 1
  /** Number of sprite types: init_sprite rejects a type at or above it. */
  const SPRITE_MAX: int := 2

  /** struct sprite_desc: four 8-bit fields, type in the low byte. */
  datatype Desc = Desc(kind: u8, id: u8, owner: u8, field: u8)

  /** struct sprite_transform. */
  datatype Transform = Transform(rot: real, pos: Vec, vel: Vec)

  /** struct sprite: the descriptor, the transform, and the fields the game
      loop and the renderer keep (rel_rot is not modelled). */
  datatype Sprite = Sprite(desc: Desc, rot: real, pos: Vec, vel: Vec, disabled: bool,
                           screenX: int, screenHalfW: int, invDepth: real, depth2: real,
                           animFrame: real)

  /** A zeroed sprite that then received a descriptor and a transform, as
      init_sprite builds it. */
  function Created(d: Desc, t: Transform): (sp: Sprite)
    ensures sp.desc == d && !sp.disabled && sp.animFrame == 0.0
    ensures sp.rot == t.rot && sp.pos == t.pos && sp.vel == t.vel
  {
    Sprite(d, t.rot, t.pos, t.vel, false, 0, 0, 0.0, 0.0, 0.0)
  }

  /** apply_sprite_transform: new rot/pos/vel, and the disabled flag reset. */
  function Applied(sp: Sprite, t: Transform): (r: Sprite)
    ensures r.rot == t.rot && r.pos == t.pos && r.vel == t.vel && !r.disabled
    ensures r.desc == sp.desc && r.animFrame == sp.animFrame
    ensures r.screenX == sp.screenX && r.screenHalfW == sp.screenHalfW
    ensures r.invDepth == sp.invDepth && r.depth2 == sp.depth2
  {
    sp.(rot := t.rot, pos := t.pos, vel := t.vel, disabled := false)
  }

  // ---------------------------------------------------------------------------
  // The live prefix as a value

  /** get_sprite's search: the first live entry with the id, if any. */
  function IndexOf(live: seq<Sprite>, id: u8): (r: Option<nat>)
    ensures r.Some? ==> r.value < |live| && live[r.value].desc.id == id
    ensures r.Some? ==> forall k :: 0 <= k < r.value ==> live[k].desc.id != id
    ensures r.None? ==> forall k :: 0 <= k < |live| ==> live[k].desc.id != id
  {
    if |live| == 0 then None
    else if live[0].desc.id == id then Some(0)
    else match IndexOf(live[1..], id)
      case None => None
      case Some(k) => Some(k + 1)
  }

  predicate UniqueIds(live: seq<Sprite>)
  {
    forall i, j :: 0 <= i < j < |live| ==> live[i].desc.id != live[j].desc.id
  }

  predicate KnownKinds(live: seq<Sprite>)
  {
    forall i :: 0 <= i < |live| ==> live[i].desc.kind < SPRITE_MAX
  }

  /** get_sprite(id, true) followed by the write of the new sprite: replace
      the entry with that id, or append when there is none and room is left. */
  function Upsert(live: seq<Sprite>, sp: Sprite): seq<Sprite>
  {
    match IndexOf(live, sp.desc.id)
    case Some(i) => live[i := sp]
    case None => if |live| < MAX_SPRITES then live + [sp] else live
  }

  /** The firing animation a new bullet starts on its owner's sprite. */
  function MarkFiring(live: seq<Sprite>, owner: u8): seq<Sprite>
  {
    match IndexOf(live, owner)
    case Some(i) => live[i := live[i].(animFrame := 6.0)]
    case None => live
  }

  /** init_sprite on the live entries. */
  function InitLive(live: seq<Sprite>, d: Desc, t: Transform): seq<Sprite>
  {
    if d.kind >= SPRITE_MAX || (IndexOf(live, d.id).None? && |live| >= MAX_SPRITES) then live
    else
      var live' := Upsert(live, Created(d, t));
      if d.kind == SPRITE_BULLET then MarkFiring(live', d.owner) else live'
  }

  /** destroy_sprite on the live entries: the entry with the id is removed
      and the later ones keep their order. */
  function DestroyLive(live: seq<Sprite>, id: u8): seq<Sprite>
  {
    match IndexOf(live, id)
    case Some(p) => live[..p] + live[p + 1..]
    case None => live
  }

  /** Where the tracked pointer must point once the entry at p was removed:
      one slot lower when it was above p, unchanged otherwise. */
  function Retrack(tracked: int, p: nat): int
  {
    if tracked > p then tracked - 1 else tracked
  }

  /** Where track_sprite points for an id: its live slot, or NULL (-1). */
  function TrackOf(live: seq<Sprite>, id: u8): (r: int)
    ensures r == -1 || (0 <= r < |live| && live[r].desc.id == id)
    ensures r == -1 <==> forall k :: 0 <= k < |live| ==> live[k].desc.id != id
  {
    match IndexOf(live, id)
    case Some(i) => i
    case None => -1
  }

  function CountKind(live: seq<Sprite>, kind: u8): (r: nat)
    ensures r <= |live|
  {
    if |live| == 0 then 0
    else CountKind(live[..|live| - 1], kind) + (if live[|live| - 1].desc.kind == kind then 1 else 0)
  }

  // ---------------------------------------------------------------------------
  // Properties of the table operations

  /** init_sprite keeps ids unique and types known, and afterwards the id is
      present exactly when the type is known and the id was present or there
      was room for it. */
  lemma InitLiveKeepsTable(live: seq<Sprite>, d: Desc, t: Transform)
    requires UniqueIds(live) && KnownKinds(live) && |live| <= MAX_SPRITES
    ensures var r := InitLive(live, d, t);
      && UniqueIds(r) && KnownKinds(r) && |r| <= MAX_SPRITES
      && (d.kind >= SPRITE_MAX ==> r == live)
      && (d.kind < SPRITE_MAX ==>
            (IndexOf(r, d.id).Some? <==> IndexOf(live, d.id).Some? || |live| < MAX_SPRITES))
      && (IndexOf(live, d.id).Some? ==> |r| == |live|)
  {
    if d.kind < SPRITE_MAX && (IndexOf(live, d.id).Some? || |live| < MAX_SPRITES) {
      var u := Upsert(live, Created(d, t));
      UpsertKeeps(live, Created(d, t));
      if d.kind == SPRITE_BULLET {
        var r := MarkFiring(u, d.owner);
        assert |r| == |u|;
        assert forall k :: 0 <= k < |r| ==> r[k].desc == u[k].desc;
        assert UniqueIds(r) && KnownKinds(r);
        SameIds(u, r, d.id);
        assert r == InitLive(live, d, t);
      } else {
        assert u == InitLive(live, d, t);
      }
    }
  }

  /** Writing a sprite of known type keeps the table sound, and the sprite's
      id is present afterwards unless the table was full. */
  lemma UpsertKeeps(live: seq<Sprite>, sp: Sprite)
    requires UniqueIds(live) && KnownKinds(live) && |live| <= MAX_SPRITES
    requires sp.desc.kind < SPRITE_MAX
    ensures var u := Upsert(live, sp);
      && UniqueIds(u) && KnownKinds(u) && |u| <= MAX_SPRITES
      && (IndexOf(u, sp.desc.id).Some? <==> IndexOf(live, sp.desc.id).Some? || |live| < MAX_SPRITES)
      && (IndexOf(live, sp.desc.id).Some? ==> |u| == |live|)
  {
    var u := Upsert(live, sp);
    match IndexOf(live, sp.desc.id)
    case Some(i) =>
      assert u == live[i := sp];
      assert u[i] == sp;
      IdFound(u, sp.desc.id, sp);
    case None =>
      if |live| < MAX_SPRITES {
        assert u == live + [sp];
        assert u[|live|] == sp;
        IdFound(u, sp.desc.id, sp);
      }
  }

  lemma IdFound(live: seq<Sprite>, id: u8, sp: Sprite)
    requires sp in live && sp.desc.id == id
    ensures IndexOf(live, id).Some?
  {
  }

  lemma SameIds(a: seq<Sprite>, b: seq<Sprite>, id: u8)
    requires |a| == |b| && forall k :: 0 <= k < |a| ==> a[k].desc == b[k].desc
    ensures IndexOf(a, id) == IndexOf(b, id)
  {
    if IndexOf(a, id).Some? {
      var i := IndexOf(a, id).value;
      assert b[i].desc.id == id;
    }
  }

  /** destroy_sprite removes exactly the entry with the id: afterwards no
      entry has it, every other entry is still there, and the table shrank
      by one exactly when the id was present. */
  lemma DestroyLiveRemoves(live: seq<Sprite>, id: u8)
    requires UniqueIds(live)
    ensures var r := DestroyLive(live, id);
      && UniqueIds(r) && (KnownKinds(live) ==> KnownKinds(r)) && IndexOf(r, id).None?
      && (forall x :: x in r <==> x in live && x.desc.id != id)
      && |r| == (if IndexOf(live, id).Some? then |live| - 1 else |live|)
  {
    if IndexOf(live, id).Some? {
      var p := IndexOf(live, id).value;
      RemovedAt(live, p);
      RemovedMembers(live, p, id);
      RemovedUnique(live, p, id);
      AbsentId(live[..p] + live[p + 1..], id);
    }
  }

  /** With ids unique, removing the entry holding id leaves exactly the
      entries with other ids. */
  lemma RemovedMembers(live: seq<Sprite>, p: nat, id: u8)
    requires UniqueIds(live) && p < |live| && live[p].desc.id == id
    ensures forall x :: x in live[..p] + live[p + 1..] <==> x in live && x.desc.id != id
  {
    var r := live[..p] + live[p + 1..];
    RemovedAt(live, p);
    forall x | x in live && x.desc.id != id
      ensures x in r
    {
      var k :| 0 <= k < |live| && live[k] == x;
      if k < p {
        assert r[k] == x;
      } else {
        assert r[k - 1] == x;
      }
    }
    forall x | x in r
      ensures x in live && x.desc.id != id
    {
      var k :| 0 <= k < |r| && r[k] == x;
      if k >= p {
        assert x == live[k + 1];
      }
    }
  }

  /** Removing the entry holding id keeps the ids unique and the kinds
      known, and no entry left holds id. */
  lemma RemovedUnique(live: seq<Sprite>, p: nat, id: u8)
    requires UniqueIds(live) && p < |live| && live[p].desc.id == id
    ensures var r := live[..p] + live[p + 1..];
      && UniqueIds(r) && (KnownKinds(live) ==> KnownKinds(r))
      && forall k :: 0 <= k < |r| ==> r[k].desc.id != id
  {
    RemovedAt(live, p);
  }

  /** No entry with the id: the search finds nothing. */
  lemma AbsentId(live: seq<Sprite>, id: u8)
    requires forall k :: 0 <= k < |live| ==> live[k].desc.id != id
    ensures IndexOf(live, id).None?
  {
  }

  /** Removing the entry at p moves every later entry one index down. */
  lemma RemovedAt(live: seq<Sprite>, p: nat)
    requires p < |live|
    ensures var r := live[..p] + live[p + 1..];
      && |r| == |live| - 1
      && (forall k :: 0 <= k < p ==> r[k] == live[k])
      && (forall k :: p <= k < |r| ==> r[k] == live[k + 1])
  {
  }

  /** The slot-by-slot effect of the shift loop, read as sequences. */
  lemma ShiftedSlices(a: seq<Sprite>, b: seq<Sprite>, p: nat, n: nat)
    requires p < n <= |a| == |b|
    requires forall k :: 0 <= k < |a| && !(p <= k < n - 1) ==> b[k] == a[k]
    requires forall k :: p <= k < n - 1 ==> b[k] == a[k + 1]
    ensures b[..n - 1] == a[..n][..p] + a[..n][p + 1..] && b[n - 1..] == a[n - 1..]
  {
    var l := a[..n][..p] + a[..n][p + 1..];
    assert |l| == n - 1;
    forall k | 0 <= k < n - 1
      ensures b[k] == l[k]
    {
      if k < p {
        assert l[k] == a[k];
      } else {
        assert l[k] == a[..n][p + 1..][k - p] == a[k + 1];
      }
    }
    assert b[..n - 1] == l;
    assert forall k :: n - 1 <= k < |a| ==> b[k] == a[k];
    assert b[n - 1..] == a[n - 1..];
  }

  /** After the removal of the entry at p, every surviving entry is found at
      its Retrack'ed position. */
  lemma RetrackFollows(live: seq<Sprite>, p: nat, tracked: nat)
    requires p < |live| && tracked < |live| && tracked != p
    ensures var r := live[..p] + live[p + 1..];
      Retrack(tracked, p) < |r| && r[Retrack(tracked, p)] == live[tracked]
  {
  }

  /** The game is over when no player sprite is left: the count of player
      sprites is zero exactly when none of the entries is a player. */
  lemma {:induction false} NoPlayersLeft(live: seq<Sprite>)
    ensures CountKind(live, SPRITE_PLAYER as u8) == 0 <==>
      forall k :: 0 <= k < |live| ==> live[k].desc.kind != SPRITE_PLAYER
  {
    if |live| > 0 {
      var init := live[..|live| - 1];
      NoPlayersLeft(init);
      assert forall k :: 0 <= k < |init| ==> init[k] == live[k];
    }
  }

  // ---------------------------------------------------------------------------
  // The table object

  class SpriteTable {
    /** g_sprites.s: slots n and above hold whatever was there before. */
    const s: array<Sprite>
    /** g_sprites.n */
    var n: nat
    /** g_tracked_sprite as a slot index, -1 for NULL. */
    var tracked: int

    ghost predicate Valid()
      reads this
    {
      s.Length == MAX_SPRITES && n <= MAX_SPRITES && -1 <= tracked < MAX_SPRITES
    }

    /** What every operation but a bare allocation keeps: the live ids are
        unique and the live types are known. */
    ghost predicate Sound()
      reads this, s
      requires Valid()
    {
      UniqueIds(s[..n]) && KnownKinds(s[..n])
    }

    /** The zero-initialised globals: no sprites, no tracked sprite. */
    constructor (filler: Sprite)
      ensures Valid() && Sound() && n == 0 && tracked == -1 && fresh(s)
    {
      s := new Sprite[MAX_SPRITES](_ => filler);
      n := 0;
      tracked := -1;
    }

    /** The reset of g_sprites.n at the start of a hello. */
    method Clear()
      requires Valid()
      modifies this
      ensures Valid() && Sound() && n == 0 && tracked == old(tracked)
    {
      n := 0;
    }

    /** alloc_sprite: the next free slot, or -1 when the table is full. */
    method Alloc() returns (r: int)
      requires Valid()
      modifies this
      ensures Valid() && tracked == old(tracked)
      ensures old(n) < MAX_SPRITES ==> r == old(n) && n == old(n) + 1
      ensures old(n) >= MAX_SPRITES ==> r == -1 && n == old(n)
    {
      if n < MAX_SPRITES {
        r := n;
        n := n + 1;
      } else {
        r := -1;
      }
    }

    /** get_sprite: the slot of the first live sprite with the id; otherwise
        a newly allocated slot when allowed and there is room; otherwise -1. */
    method Get(id: u8, canAlloc: bool) returns (r: int)
      requires Valid()
      modifies this
      ensures Valid() && tracked == old(tracked)
      ensures IndexOf(old(s[..n]), id).Some? ==>
        r == IndexOf(old(s[..n]), id).value && n == old(n)
      ensures IndexOf(old(s[..n]), id).None? ==>
        if canAlloc && old(n) < MAX_SPRITES then r == old(n) && n == old(n) + 1
        else r == -1 && n == old(n)
    {
      var i := 0;
      while i < n
        invariant i <= n
        invariant forall k :: 0 <= k < i ==> s[k].desc.id != id
      {
        if s[i].desc.id == id {
          return i;
        }
        i := i + 1;
      }
      r := -1;
      if canAlloc {
        r := Alloc();
      }
    }

    /** get_sprite(id, false): a lookup that changes nothing. */
    method Find(id: u8) returns (r: int)
      requires Valid()
      ensures IndexOf(s[..n], id).Some? ==> r == IndexOf(s[..n], id).value
      ensures IndexOf(s[..n], id).None? ==> r == -1
    {
      var i := 0;
      while i < n
        invariant i <= n
        invariant forall k :: 0 <= k < i ==> s[k].desc.id != id
      {
        if s[i].desc.id == id {
          return i;
        }
        i := i + 1;
      }
      r := -1;
    }

    /** track_sprite: point at the sprite with the id, or at nothing. */
    method Track(id: u8)
      requires Valid()
      modifies this
      ensures Valid() && n == old(n)
      ensures tracked == TrackOf(s[..n], id)
    {
      tracked := Find(id);
    }

    /** count_player_sprites. */
    method CountPlayers() returns (c: nat)
      requires Valid()
      ensures c == CountKind(s[..n], SPRITE_PLAYER as u8)
    {
      c := 0;
      var i := 0;
      while i < n
        invariant i <= n && c == CountKind(s[..i], SPRITE_PLAYER as u8)
      {
        assert s[..i + 1][..i] == s[..i];
        c := c + if s[i].desc.kind == SPRITE_PLAYER then 1 else 0;
        i := i + 1;
      }
      assert s[..n] == s[..i];
    }

    /** init_sprite: ignore an unknown type; otherwise create (or re-create)
        the sprite with the packet's id and, for a bullet, start the firing
        animation of its owner. */
    method Init(d: Desc, t: Transform)
      requires Valid() && Sound()
      modifies this, s
      ensures Valid() && Sound() && tracked == old(tracked)
      ensures s[..n] == InitLive(old(s[..n]), d, t) && s[n..] == old(s[..])[n..]
    {
      ghost var live := s[..n];
      InitLiveKeepsTable(live, d, t);
      if d.kind >= SPRITE_MAX {
        return;
      }
      var i := Get(d.id, true);
      if i < 0 {
        return;
      }
      s[i] := Created(d, t);
      assert s[n..] == old(s[..])[n..];
      ghost var live' := s[..n];
      assert live' == Upsert(live, Created(d, t)) by {
        if IndexOf(live, d.id).None? {
          assert live' == live + [Created(d, t)];
        }
      }
      if d.kind == SPRITE_BULLET {
        var o := Find(d.owner);
        if o >= 0 {
          s[o] := s[o].(animFrame := 6.0);
        }
        assert s[n..] == old(s[..])[n..];
        assert s[..n] == MarkFiring(live', d.owner);
      }
    }

    /** destroy_sprite, with the tracked pointer corrected to follow the
        shift by position (see DestroyTrackedAsWritten). */
    method Destroy(id: u8)
      requires Valid() && Sound()
      modifies this, s
      ensures Valid() && Sound()
      ensures s[..n] == DestroyLive(old(s[..n]), id)
      ensures match IndexOf(old(s[..n]), id)
        case Some(p) => n == old(n) - 1 && tracked == Retrack(old(tracked), p)
                        && s[n..] == old(s[..])[n..]
        case None => n == old(n) && tracked == old(tracked) && s[..] == old(s[..])
    {
      ghost var live := s[..n];
      DestroyLiveRemoves(live, id);
      var p := Find(id);
      if p < 0 {
        return;
      }
      ShiftDown(p);
      n := n - 1;
      tracked := Retrack(tracked, p);
      assert s[..n] == DestroyLive(live, id);
    }

    /** destroy_sprite's loop: every live sprite above slot p moves one slot
        down; the last live slot keeps its old content. */
    method ShiftDown(p: nat)
      requires Valid() && p < n
      modifies s
      ensures s[..n - 1] == old(s[..n])[..p] + old(s[..n])[p + 1..]
      ensures s[n - 1..] == old(s[n - 1..])
    {
      var i := p + 1;
      while i < n
        invariant p + 1 <= i <= n
        invariant forall k :: 0 <= k < s.Length && !(p <= k < i - 1) ==> s[k] == old(s[k])
        invariant forall k :: p <= k < i - 1 ==> s[k] == old(s[k + 1])
      {
        s[i - 1] := s[i];
        i := i + 1;
      }
      ShiftedSlices(old(s[..]), s[..], p, n);
    }

    /** apply_sprite_transform on the live sprite in slot i. */
    method Apply(i: nat, t: Transform)
      requires Valid() && Sound() && i < n
      modifies s
      ensures Sound() && s[..] == old(s[..])[i := Applied(old(s[i]), t)]
    {
      s[i] := Applied(s[i], t);
      assert forall k :: 0 <= k < n ==> s[k].desc == old(s[k].desc);
    }
  }

  // ---------------------------------------------------------------------------
  // The tracked-pointer defect of destroy_sprite

  /** destroy_sprite as written decides whether to re-resolve the tracked
      pointer by comparing ids: it re-tracks only when the tracked sprite's id
      is greater than the destroyed one's (and non-zero); otherwise the
      pointer keeps its slot. Returns the new tracked slot (-1 for NULL). */
  function DestroyTrackedAsWritten(live: seq<Sprite>, tracked: int, p: nat): int
    requires p < |live| && -1 <= tracked < |live|
  {
    var tid := if tracked >= 0 && live[tracked].desc.id > live[p].desc.id then live[tracked].desc.id else 0;
    if tid > 0 then
      match IndexOf(live[..p] + live[p + 1..], tid as u8)
      case Some(i) => i
      case None => -1
    else tracked
  }

  function Player(id: u8): Sprite
  {
    Sprite(Desc(SPRITE_PLAYER as u8, id, 0, 0), 0.0, Vec(0.0, 0.0), Vec(0.0, 0.0), false, 0, 0, 0.0, 0.0, 0.0)
  }

  /** With sprites [id 5, id 2], the tracked one in slot 1, destroying id 5
      leaves the pointer on slot 1, past the single remaining live sprite. */
  lemma TrackedLeftBehind()
    ensures var live := [Player(5), Player(2)];
      && DestroyTrackedAsWritten(live, 1, 0) == 1
      && |live[..0] + live[1..]| == 1
      && Retrack(1, 0) == 0
  {
  }
}
