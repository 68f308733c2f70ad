/** The network session of src/game/multiplayer.c and
    include/gloom/multiplayer.h: the globals of the multiplayer layer as one
    object, the client packets it sends, the server packet handlers and the
    receive entry point.

    The platform is outside the model: the time, the result of each send
    and the f32 bit-pattern conversions are parameters, and what the client
    state machine (src/client.c) would do on a state switch or a new wait
    time is recorded as an event. */
module Session {
  import opened Common
  import opened Protocol
  import opened Sprites
  import opened InputRing
  import opened Grid
  import opened GameSim

  const PLAYER_RUN_SPEED: real := 3.5
  const BULLET_DAMAGE: int := 25

  /** enum client_state (include/gloom/client.h). */
  const CLIENT_ERROR: nat := 0
  const CLIENT_WAITING: nat := 2
  const CLIENT_OVER: nat := 6
  const CLIENT_STATE_MAX: nat := 7

  /** Calls into the rest of the client. */
  datatype Event = ClientSwitch(state: nat) | WaitTimeSet(seconds: real)

  /** The scalar globals, for stating what an operation changes. */
  datatype Globals = Globals(state: MpState, clientSeq: u32, serverSeq: u32, playerId: u8,
                             gameId: u32, token: u32, gameStart: real,
                             playerPos: Vec, playerRot: real, health: i32,
                             clientState: nat, events: seq<Event>, sent: seq<ClientPkt>)

  /** g_player.health -= 25 on the i32 health: a signed subtraction, which
      the wasm build wraps in two's complement (modulo 2^32) on overflow. */
  function Damaged(health: i32): (r: i32)
    ensures health >= I32_MIN + BULLET_DAMAGE ==> r == health - BULLET_DAMAGE
  {
    ToI32((health - BULLET_DAMAGE) % U32_LIMIT)
  }

  lemma MapArea(w: int, h: int)
    requires 0 <= w < 64 && 0 <= h < 64
    ensures w * h <= 63 * 63
  {
    MulLe(w, 63, h);
    MulLe(h, 63, 63);
    assert 63 * h == h * 63;
  }

  lemma NextRow(y: int, w: int)
    ensures (y + 1) * w == y * w + w
  {
  }

  lemma ProductOfZero(w: int, h: int)
    ensures w == 0 ==> w * h == 0
  {
  }

  // ---------------------------------------------------------------------------
  // Hello: sprite records and the player's own record

  /** Sprite record k of a hello packet: its descriptor and transform. */
  function RecordDesc(b: seq<u8>, k: nat): Desc
    requires HELLO_FIXED_SIZE + SPRITE_INIT_SIZE * (k + 1) <= |b|
  {
    DescAt(b, HELLO_FIXED_SIZE + SPRITE_INIT_SIZE * k)
  }

  function RecordTransform(b: seq<u8>, k: nat, f32: u32 -> real): Transform
    requires HELLO_FIXED_SIZE + SPRITE_INIT_SIZE * (k + 1) <= |b|
  {
    TransformAt(b, HELLO_FIXED_SIZE + SPRITE_INIT_SIZE * k + 4, f32)
  }

  /** The live sprites after the first k records of a hello: every record
      with another id goes through init_sprite. */
  function HelloLive(b: seq<u8>, k: nat, pid: u8, f32: u32 -> real): seq<Sprite>
    requires HELLO_FIXED_SIZE + SPRITE_INIT_SIZE * k <= |b|
  {
    if k == 0 then []
    else
      var live := HelloLive(b, k - 1, pid, f32);
      var d := RecordDesc(b, k - 1);
      if d.id != pid then InitLive(live, d, RecordTransform(b, k - 1, f32)) else live
  }

  /** The player's position and rotation after the first k records: the
      last record with the player's id wins. */
  function HelloPose(b: seq<u8>, k: nat, pid: u8, f32: u32 -> real, pos: Vec, rot: real): (Vec, real)
    requires HELLO_FIXED_SIZE + SPRITE_INIT_SIZE * k <= |b|
  {
    if k == 0 then (pos, rot)
    else if RecordDesc(b, k - 1).id == pid then
      var t := RecordTransform(b, k - 1, f32); (t.pos, t.rot)
    else HelloPose(b, k - 1, pid, f32, pos, rot)
  }

  /** init_sprite never adds an id other than its record's. */
  lemma InitLiveIds(live: seq<Sprite>, d: Desc, t: Transform, id: u8)
    requires id != d.id && IndexOf(live, id).None?
    ensures IndexOf(InitLive(live, d, t), id).None?
  {
    var r := InitLive(live, d, t);
    if d.kind < SPRITE_MAX && (IndexOf(live, d.id).Some? || |live| < MAX_SPRITES) {
      var u := Upsert(live, Created(d, t));
      assert forall k :: 0 <= k < |u| ==> u[k].desc.id == id ==> k >= |live| || u[k] == live[k];
      if d.kind == SPRITE_BULLET {
        assert forall k :: 0 <= k < |r| ==> r[k].desc == u[k].desc;
      }
    }
  }

  /** The table a hello leaves is sound, and the player's own id is never
      in it: the player's record only moves the player. */
  lemma {:induction false} HelloTable(b: seq<u8>, k: nat, pid: u8, f32: u32 -> real)
    requires HELLO_FIXED_SIZE + SPRITE_INIT_SIZE * k <= |b|
    ensures var live := HelloLive(b, k, pid, f32);
      UniqueIds(live) && KnownKinds(live) && |live| <= MAX_SPRITES && IndexOf(live, pid).None?
  {
    if k > 0 {
      var live := HelloLive(b, k - 1, pid, f32);
      HelloTable(b, k - 1, pid, f32);
      var d := RecordDesc(b, k - 1);
      if d.id != pid {
        var t := RecordTransform(b, k - 1, f32);
        InitLiveKeepsTable(live, d, t);
        InitLiveIds(live, d, t, pid);
      }
    }
  }

  // ---------------------------------------------------------------------------
  // Reconciliation of the player's position

  /** The position, velocity and timestamp reconcile carries along. */
  datatype Motion = Motion(pos: Vec, vel: Vec, ts: real)

  /** One replayed input: move with the current velocity up to the entry's
      timestamp, then take the entry's velocity. */
  function ReplayStep(m: MapView, s: Motion, e: InputLog): (r: Motion)
    requires WellFormed(m)
    ensures r.vel == e.vel && r.ts == e.ts
  {
    Motion(Collide(m, s.pos, Scale(s.vel, e.ts - s.ts), PLAYER_RADIUS).0, e.vel, e.ts)
  }

  function Replay(m: MapView, s: Motion, es: seq<InputLog>): (r: Motion)
    requires WellFormed(m)
    ensures es == [] ==> r == s
    ensures es != [] ==> r.vel == es[|es| - 1].vel && r.ts == es[|es| - 1].ts
  {
    if es == [] then s else ReplayStep(m, Replay(m, s, es[..|es| - 1]), es[|es| - 1])
  }

  /** The player position reconcile computes from the server's (ts, pos,
      vel): replay the pending inputs newer than ts, then move on to now. */
  function Reconciled(m: MapView, p: seq<InputLog>, ts: real, pos: Vec, vel: Vec, now: real): Vec
    requires WellFormed(m)
  {
    var s := Replay(m, Motion(pos, vel, ts), p[Stale(p, ts)..]);
    Collide(m, s.pos, Scale(s.vel, now - s.ts), PLAYER_RADIUS).0
  }

  /** With no input newer than the server's timestamp, the player simply
      moves from the server position with the server velocity. */
  lemma ReconcileWithoutInputs(m: MapView, p: seq<InputLog>, ts: real, pos: Vec, vel: Vec, now: real)
    requires WellFormed(m) && forall j :: 0 <= j < |p| ==> p[j].ts <= ts
    ensures Reconciled(m, p, ts, pos, vel, now) == Collide(m, pos, Scale(vel, now - ts), PLAYER_RADIUS).0
  {
    StaleUnique(p, ts, |p|);
    assert p[|p|..] == [];
  }

  /** Replaying one more input of a log is one more step. */
  lemma ReplayPrefix(m: MapView, start: Motion, es: seq<InputLog>, j: nat)
    requires WellFormed(m) && j < |es|
    ensures Replay(m, start, es[..j + 1]) == ReplayStep(m, Replay(m, start, es[..j]), es[j])
  {
    assert es[..j + 1][..j] == es[..j];
  }

  /** The final move of reconcile, from where the replay ended. */
  lemma ReconciledFrom(m: MapView, P: seq<InputLog>, ts: real, pos: Vec, vel: Vec, now: real, cur: Motion)
    requires WellFormed(m) && cur == Replay(m, Motion(pos, vel, ts), P[Stale(P, ts)..])
    ensures Reconciled(m, P, ts, pos, vel, now) == Collide(m, cur.pos, Scale(cur.vel, now - cur.ts), PLAYER_RADIUS).0
  {
  }

  // ---------------------------------------------------------------------------
  // The session object

  /** g_player: the fields of the player the multiplayer code reads and
      writes (its facing direction belongs to the renderer). */
  class Player {
    var pos: Vec
    var rot: real
    var health: i32

    constructor ()
      ensures pos == Vec(0.0, 0.0) && rot == 0.0 && health == 0
    {
      pos, rot, health := Vec(0.0, 0.0), 0.0, 0;
    }
  }

  class Session {
    var state: MpState
    var clientSeq: u32
    var serverSeq: u32
    var playerId: u8
    var gameId: u32
    var token: u32
    var gameStart: real
    /** _g_client_state, and the calls made into the rest of the client. */
    var clientState: nat
    var events: seq<Event>
    /** The packets handed to platform_send_packet, in order. */
    var sent: seq<ClientPkt>
    const player: Player
    const ring: Ring
    const table: SpriteTable
    const grid: TileMap

    ghost predicate Valid()
      reads this, ring, table, table.s, grid
    {
      Parts() && clientState < CLIENT_STATE_MAX
    }

    /** The ring, the sprite table and the map are each well formed. */
    ghost predicate Parts()
      reads ring, table, table.s, grid
    {
      ring.Valid() && table.Valid() && table.Sound() && grid.Valid()
    }

    ghost function G(): Globals
      reads this, player
    {
      Globals(state, clientSeq, serverSeq, playerId, gameId, token, gameStart,
              player.pos, player.rot, player.health, clientState, events, sent)
    }

    /** The zero-initialised globals. */
    constructor (log: InputLog, filler: Sprite)
      ensures Valid() && fresh(player) && fresh(ring) && fresh(table) && fresh(grid)
      ensures G() == Globals(Disconnected, 0, 0, 0, 0, 0, 0.0, Vec(0.0, 0.0), 0.0, 0, CLIENT_ERROR, [], [])
      ensures ring.Pending() == [] && table.n == 0 && table.tracked == -1 && grid.w == 0 && grid.h == 0
    {
      state := Disconnected;
      clientSeq, serverSeq, playerId, gameId, token := 0, 0, 0, 0, 0;
      gameStart := 0.0;
      clientState, events, sent := CLIENT_ERROR, [], [];
      player := new Player();
      ring := new Ring(log);
      table := new SpriteTable(filler);
      grid := new TileMap();
    }

    // -------------------------------------------------------------------------
    // State queries (include/gloom/multiplayer.h)

    /** multiplayer_get_state: the enum value of the stored state. */
    function GetState(): (r: nat)
      reads this
      ensures r < 5 && StateOf(r) == Some(state)
    {
      StateCode(state)
    }

    /** multiplayer_is_disconnected: the enum value is MULTIPLAYER_DISCONNECTED. */
    function IsDisconnected(): (r: bool)
      reads this
      ensures r <==> state == Disconnected
    {
      GetState() == 0
    }

    /** multiplayer_is_in_game: the enum value is MULTIPLAYER_UPDATING. */
    function IsInGame(): (r: bool)
      reads this
      ensures r <==> state == Updating
    {
      GetState() == 4
    }

    // -------------------------------------------------------------------------
    // Local transitions

    /** multiplayer_set_state (the log line is not modelled). */
    method SetState(s: MpState)
      modifies this
      ensures G() == old(G()).(state := s)
    {
      state := s;
    }

    /** client_switch_state: takes effect while the stored client state is a
        valid one; the new state's on_enter runs in the rest of the client. */
    method SwitchClient(st: nat)
      requires st < CLIENT_STATE_MAX
      modifies this
      ensures old(clientState) < CLIENT_STATE_MAX ==>
        G() == old(G()).(clientState := st, events := old(events) + [ClientSwitch(st)])
      ensures old(clientState) >= CLIENT_STATE_MAX ==> G() == old(G())
    {
      if clientState < CLIENT_STATE_MAX {
        clientState := st;
        events := events + [ClientSwitch(st)];
      }
    }

    /** multiplayer_init. */
    method Init(gid: u32, tok: u32)
      requires Valid()
      modifies this, ring
      ensures Valid() && ring.Pending() == [] && ring.head == 0
      ensures G() == old(G()).(gameId := gid, token := tok, clientSeq := 0, serverSeq := 0,
                               state := Connected)
    {
      gameId := gid;
      token := tok;
      clientSeq, serverSeq := 0, 0;
      ring.Reset();
      SetState(Connected);
    }

    /** init_game_pkt: a header with the current client sequence number
        (kept in 30 bits) and the token; the counter is post-incremented in
        u32 arithmetic. */
    method NewPacket(body: ClientBody) returns (p: ClientPkt)
      modifies this
      ensures p == ClientPkt(old(clientSeq) % SEQ30, token, body)
      ensures G() == old(G()).(clientSeq := (old(clientSeq) + 1) % U32_LIMIT)
    {
      p := ClientPkt(clientSeq % SEQ30, token, body);
      clientSeq := (clientSeq + 1) % U32_LIMIT;
    }

    /** send_packet_checked: a send that does not report the full size
        drops the connection. */
    method SendChecked(p: ClientPkt, result: int)
      modifies this
      ensures G() == old(G()).(sent := old(sent) + [p],
                               state := if result != SizeOf(p.body) then Disconnected else old(state))
    {
      sent := sent + [p];
      if result != SizeOf(p.body) {
        SetState(Disconnected);
      }
    }

    /** multiplayer_signal_ready. */
    method SignalReady(yes: bool, result: int)
      modifies this
      ensures var p := ClientPkt(old(clientSeq) % SEQ30, token, Ready(yes));
        G() == old(G()).(clientSeq := (old(clientSeq) + 1) % U32_LIMIT, sent := old(sent) + [p],
                         state := if result != 9 then Disconnected else old(state))
    {
      var p := NewPacket(Ready(yes));
      SendChecked(p, result);
    }

    /** multiplayer_leave: back to CONNECTED before the send, so a failed
        send still ends DISCONNECTED. */
    method Leave(result: int)
      modifies this
      ensures var p := ClientPkt(old(clientSeq) % SEQ30, token, ClientBody.Leave);
        G() == old(G()).(clientSeq := (old(clientSeq) + 1) % U32_LIMIT, sent := old(sent) + [p],
                         state := if result != 8 then Disconnected else Connected)
    {
      var p := NewPacket(ClientBody.Leave);
      SetState(Connected);
      SendChecked(p, result);
    }

    /** multiplayer_send_update: the keys, the player's rotation and the
        time since the game started. */
    method SendUpdate(keys: u32, now: real, result: int)
      modifies this
      ensures var p := ClientPkt(old(clientSeq) % SEQ30, token,
                                 ClientBody.Update(keys, player.rot, now - gameStart));
        G() == old(G()).(clientSeq := (old(clientSeq) + 1) % U32_LIMIT, sent := old(sent) + [p],
                         state := if result != 20 then Disconnected else old(state))
    {
      var p := NewPacket(ClientBody.Update(keys, player.rot, now - gameStart));
      SendChecked(p, result);
    }

    /** multiplayer_fire_bullet: the send result is ignored. */
    method FireBullet()
      modifies this
      ensures var p := ClientPkt(old(clientSeq) % SEQ30, token, Fire);
        G() == old(G()).(clientSeq := (old(clientSeq) + 1) % U32_LIMIT, sent := old(sent) + [p])
    {
      var p := NewPacket(Fire);
      sent := sent + [p];
    }

    /** multiplayer_join_game: signal not-ready, then JOINING whatever the
        send did. */
    method JoinGame(result: int)
      modifies this
      ensures state == Joining
      ensures var p := ClientPkt(old(clientSeq) % SEQ30, token, Ready(false));
        G() == old(G()).(clientSeq := (old(clientSeq) + 1) % U32_LIMIT, sent := old(sent) + [p],
                         state := Joining)
    {
      SignalReady(false, result);
      SetState(Joining);
    }

    /** multiplayer_queue_key_input: log the walking velocity for the
        direction the keys give, stamped with the game time. */
    method QueueKeyInput(dir: Vec, now: real)
      requires Valid()
      modifies ring, ring.buf
      ensures Valid()
      ensures ring.Pending() ==
        Appended(old(ring.Pending()), InputLog(now - old(gameStart), Scale(dir, PLAYER_RUN_SPEED)))
    {
      var e := InputLog(now - gameStart, Scale(dir, PLAYER_RUN_SPEED));
      ring.Push(e);
    }

    // -------------------------------------------------------------------------
    // Receiving

    /** gloom_on_recv_packet: `b` is the packet buffer and `len` the length
        the platform reported. */
    method OnRecvPacket(b: seq<u8>, len: u32, now: real, f32: u32 -> real)
      requires Valid() && |b| == PKT_BUF_SIZE
      modifies this, player, ring, table, table.s, grid, grid.tiles
      ensures Valid()
      ensures var (v, s') := Gate(len, LeU32(b, 0), old(serverSeq));
        && serverSeq == s'
        && state == (if v.Deliver? then NextState(v.kind, old(state), b, len) else old(state))
        && (!v.Deliver? ==> (G() == old(G()).(serverSeq := s')
                             && unchanged(ring, table, table.s, grid, grid.tiles)))
      // A delivered packet its handler refuses (wrong state or length) changes nothing else.
      ensures var (v, s') := Gate(len, LeU32(b, 0), old(serverSeq));
        v.Deliver? && !Admits(v.kind, old(state), b, len) ==>
          G() == old(G()).(serverSeq := s') && unchanged(ring, table, table.s, grid, grid.tiles)
      // hello: the player id, pose, sprites, map and WAITING.
      ensures var (v, s') := Gate(len, LeU32(b, 0), old(serverSeq));
        v == Deliver(SPKT_HELLO) && Admits(SPKT_HELLO, old(state), b, len) ==>
          var n, pid, w, h := HelloSprites(b), HelloPlayer(b), HelloW(b), HelloH(b);
          var pose := HelloPose(b, n, pid, f32, old(player.pos), old(player.rot));
          && G() == old(G()).(serverSeq := s', state := Waiting, playerId := pid,
                              playerPos := pose.0, playerRot := pose.1)
          && table.s[..table.n] == HelloLive(b, n, pid, f32) && table.tracked == old(table.tracked)
          && grid.w == w && grid.h == h
          && (forall k :: 0 <= k < TILE_COUNT ==>
                grid.tiles[k] == if k < 8 * MapBytes(w, h) then TileBit(b, n, k) else old(grid.tiles[k]))
          && unchanged(ring)
      // update: the player's own reconciles at the game time, another sprite takes the transform.
      ensures var (v, s') := Gate(len, LeU32(b, 0), old(serverSeq));
        v == Deliver(SPKT_UPDATE) && Admits(SPKT_UPDATE, old(state), b, len) ==>
          var id, t, ts := b[8], TransformAt(b, 9, f32), f32(LeU32(b, 4));
          && unchanged(table, grid, grid.tiles)
          && if id == old(playerId) then
               && ring.Pending() == old(ring.Pending())[Stale(old(ring.Pending()), ts)..]
               && G() == old(G()).(serverSeq := s', playerPos := Reconciled(old(grid.View()),
                                     old(ring.Pending()), ts, t.pos, t.vel, now - old(gameStart)))
               && unchanged(table.s)
             else
               && G() == old(G()).(serverSeq := s') && unchanged(ring)
               && table.s[..] == match IndexOf(old(table.s[..table.n]), id)
                                 case Some(i) => old(table.s[..])[i := Applied(old(table.s[i]), t)]
                                 case None => old(table.s[..])
      // create: init_sprite on the packet's record.
      ensures var (v, s') := Gate(len, LeU32(b, 0), old(serverSeq));
        v == Deliver(SPKT_CREATE) && Admits(SPKT_CREATE, old(state), b, len) ==>
          && G() == old(G()).(serverSeq := s') && unchanged(ring, grid, grid.tiles)
          && table.tracked == old(table.tracked)
          && table.s[..table.n] == InitLive(old(table.s[..table.n]), DescAt(b, 4), TransformAt(b, 8, f32))
          && table.s[table.n..] == old(table.s[..])[table.n..]
      // destroy of the player's own sprite: game over, the camera follows the killer.
      ensures var (v, s') := Gate(len, LeU32(b, 0), old(serverSeq));
        v == Deliver(SPKT_DESTROY) && Admits(SPKT_DESTROY, old(state), b, len)
        && DescAt(b, 4).id == old(playerId) ==>
          && G() == old(G()).(serverSeq := s', playerId := 0, clientState := CLIENT_OVER,
                              events := old(events) + [ClientSwitch(CLIENT_OVER)])
          && table.tracked == TrackOf(old(table.s[..table.n]), DescAt(b, 4).field)
          && table.n == old(table.n) && unchanged(table.s, ring, grid, grid.tiles)
      // destroy of another sprite: removal, re-tracking, damage and the last-player check.
      ensures var (v, s') := Gate(len, LeU32(b, 0), old(serverSeq));
        v == Deliver(SPKT_DESTROY) && Admits(SPKT_DESTROY, old(state), b, len)
        && DescAt(b, 4).id != old(playerId) ==>
          var d, live := DescAt(b, 4), old(table.s[..table.n]);
          var t1 := if old(table.tracked) != -1 && d.id == old(table.s[table.tracked]).desc.id
                    then TrackOf(live, d.field) else old(table.tracked);
          var live' := DestroyLive(live, d.id);
          var over := d.kind == SPRITE_PLAYER && old(clientState) != CLIENT_WAITING
                      && CountKind(live', SPRITE_PLAYER as u8) == 0;
          && table.s[..table.n] == live'
          && table.tracked == (match IndexOf(live, d.id) case Some(p) => Retrack(t1, p) case None => t1)
          && unchanged(ring, grid, grid.tiles)
          && G() == old(G()).(
               serverSeq := s',
               health := if d.kind == SPRITE_BULLET && d.field != 0 && d.owner != old(playerId)
                            && d.field == old(playerId) then Damaged(old(player.health)) else old(player.health),
               clientState := if over then CLIENT_OVER else old(clientState),
               events := if over then old(events) + [ClientSwitch(CLIENT_OVER)] else old(events))
      // wait: start the game now, or pass the remaining time on.
      ensures var (v, s') := Gate(len, LeU32(b, 0), old(serverSeq));
        v == Deliver(SPKT_WAIT) && Admits(SPKT_WAIT, old(state), b, len) ==>
          && unchanged(ring, table, table.s, grid, grid.tiles)
          && if !WaitFlag(b) && WaitSeconds(b) == 0 then
               G() == old(G()).(serverSeq := s', state := Updating, gameStart := now)
             else
               G() == old(G()).(serverSeq := s', events := old(events) +
                                  [WaitTimeSet(if WaitFlag(b) then -1.0 else WaitSeconds(b) as real)])
      // terminate: DISCONNECTED, and the error screen unless the game is over.
      ensures var (v, s') := Gate(len, LeU32(b, 0), old(serverSeq));
        v == Deliver(SPKT_TERMINATE) && Admits(SPKT_TERMINATE, old(state), b, len) ==>
          var err := old(clientState) != CLIENT_OVER;
          && unchanged(ring, table, table.s, grid, grid.tiles)
          && G() == old(G()).(serverSeq := s', state := Disconnected,
                              clientState := if err then CLIENT_ERROR else old(clientState),
                              events := if err then old(events) + [ClientSwitch(CLIENT_ERROR)] else old(events))
    {
      var (v, s') := Gate(len, LeU32(b, 0), serverSeq);
      if v.Deliver? {
        Handle(v.kind, b, len, now, f32);
      }
      // g_server_seq is stored before the dispatch in the C; no handler reads
      // it, so storing it afterwards leaves the same state.
      ghost var g := G();
      label handled:
      serverSeq := s';
      assert G() == g.(serverSeq := s');
      assert unchanged@handled(player, ring, table, table.s, grid, grid.tiles);
    }

    /** The handler table serv_pkt_handlers, indexed by a delivered packet's
        type: each kind's handler runs on the buffer, and the state moves as
        the handler's own contract says. */
    method Handle(kind: nat, b: seq<u8>, len: nat, now: real, f32: u32 -> real)
      requires Valid() && |b| == PKT_BUF_SIZE && len <= PKT_BUF_SIZE && kind < SPKT_MAX
      modifies this, player, ring, table, table.s, grid, grid.tiles
      ensures Valid()
      // A delivered packet its handler refuses (wrong state or length) changes nothing else.
      ensures !Admits(kind, old(state), b, len) ==>
        G() == old(G()) && unchanged(ring, table, table.s, grid, grid.tiles)
      // hello: the player id, pose, sprites, map and WAITING.
      ensures kind == SPKT_HELLO && Admits(SPKT_HELLO, old(state), b, len) ==>
        var n, pid, w, h := HelloSprites(b), HelloPlayer(b), HelloW(b), HelloH(b);
        var pose := HelloPose(b, n, pid, f32, old(player.pos), old(player.rot));
        && G() == old(G()).(state := Waiting, playerId := pid,
                            playerPos := pose.0, playerRot := pose.1)
        && table.s[..table.n] == HelloLive(b, n, pid, f32) && table.tracked == old(table.tracked)
        && grid.w == w && grid.h == h
        && (forall k :: 0 <= k < TILE_COUNT ==>
              grid.tiles[k] == if k < 8 * MapBytes(w, h) then TileBit(b, n, k) else old(grid.tiles[k]))
        && unchanged(ring)
      // update: the player's own reconciles at the game time, another sprite takes the transform.
      ensures kind == SPKT_UPDATE && Admits(SPKT_UPDATE, old(state), b, len) ==>
        unchanged(table, grid, grid.tiles)
      ensures kind == SPKT_UPDATE && Admits(SPKT_UPDATE, old(state), b, len) ==>
        var id, t, ts := b[8], TransformAt(b, 9, f32), f32(LeU32(b, 4));
        if id == playerId then
          ring.Pending() == old(ring.Pending())[Stale(old(ring.Pending()), ts)..]
          && G() == old(G()).(playerPos := Reconciled(old(grid.View()), old(ring.Pending()),
                                                      ts, t.pos, t.vel, now - old(gameStart)))
          && unchanged(table.s)
        else
          G() == old(G()) && unchanged(ring)
          && table.s[..] == match IndexOf(old(table.s[..table.n]), id)
                            case Some(i) => old(table.s[..])[i := Applied(old(table.s[i]), t)]
                            case None => old(table.s[..])
      // create: init_sprite on the packet's record.
      ensures kind == SPKT_CREATE && Admits(SPKT_CREATE, old(state), b, len) ==>
        && G() == old(G()) && unchanged(ring, grid, grid.tiles)
        && table.tracked == old(table.tracked)
        && table.s[..table.n] == InitLive(old(table.s[..table.n]), DescAt(b, 4), TransformAt(b, 8, f32))
        && table.s[table.n..] == old(table.s[..])[table.n..]
      // destroy of the player's own sprite: game over, the camera follows the killer.
      ensures kind == SPKT_DESTROY && Admits(SPKT_DESTROY, old(state), b, len)
              && DescAt(b, 4).id == old(playerId) ==>
        && G() == old(G()).(playerId := 0, clientState := CLIENT_OVER,
                            events := old(events) + [ClientSwitch(CLIENT_OVER)])
        && table.tracked == TrackOf(old(table.s[..table.n]), DescAt(b, 4).field)
        && table.n == old(table.n) && unchanged(table.s, ring, grid, grid.tiles)
      // destroy of another sprite: removal, re-tracking, damage and the last-player check.
      ensures kind == SPKT_DESTROY && Admits(SPKT_DESTROY, old(state), b, len)
              && DescAt(b, 4).id != old(playerId) ==>
        var d, live := DescAt(b, 4), old(table.s[..table.n]);
        var t1 := if old(table.tracked) != -1 && d.id == old(table.s[table.tracked]).desc.id
                  then TrackOf(live, d.field) else old(table.tracked);
        var live' := DestroyLive(live, d.id);
        var over := d.kind == SPRITE_PLAYER && old(clientState) != CLIENT_WAITING
                    && CountKind(live', SPRITE_PLAYER as u8) == 0;
        && table.s[..table.n] == live'
        && table.tracked == (match IndexOf(live, d.id) case Some(p) => Retrack(t1, p) case None => t1)
        && unchanged(ring, grid, grid.tiles)
        && G() == old(G()).(
             health := if d.kind == SPRITE_BULLET && d.field != 0 && d.owner != old(playerId)
                          && d.field == old(playerId) then Damaged(old(player.health)) else old(player.health),
             clientState := if over then CLIENT_OVER else old(clientState),
             events := if over then old(events) + [ClientSwitch(CLIENT_OVER)] else old(events))
      // wait: start the game now, or pass the remaining time on.
      ensures kind == SPKT_WAIT && Admits(SPKT_WAIT, old(state), b, len) ==>
        && unchanged(ring, table, table.s, grid, grid.tiles)
        && if !WaitFlag(b) && WaitSeconds(b) == 0 then
             G() == old(G()).(state := Updating, gameStart := now)
           else
             G() == old(G()).(events := old(events) +
                                [WaitTimeSet(if WaitFlag(b) then -1.0 else WaitSeconds(b) as real)])
      // terminate: DISCONNECTED, and the error screen unless the game is over.
      ensures kind == SPKT_TERMINATE && Admits(SPKT_TERMINATE, old(state), b, len) ==>
        var err := old(clientState) != CLIENT_OVER;
        && unchanged(ring, table, table.s, grid, grid.tiles)
        && G() == old(G()).(state := Disconnected,
                            clientState := if err then CLIENT_ERROR else old(clientState),
                            events := if err then old(events) + [ClientSwitch(CLIENT_ERROR)] else old(events))
    {
      if kind == SPKT_HELLO {
        OnHello(b, len, f32);
      } else if kind == SPKT_UPDATE {
        OnUpdate(b, len, now, f32);
      } else if kind == SPKT_CREATE {
        OnCreate(b, len, f32);
      } else if kind == SPKT_DESTROY {
        OnDestroy(b, len);
      } else if kind == SPKT_WAIT {
        OnWait(b, len, now);
      } else {
        OnTerminate(len);
      }
    }

    /** serv_hello_handler. */
    method OnHello(b: seq<u8>, len: nat, f32: u32 -> real)
      requires Valid() && |b| == PKT_BUF_SIZE && len <= PKT_BUF_SIZE
      modifies this, player, table, table.s, grid, grid.tiles
      ensures Valid()
      ensures !Admits(SPKT_HELLO, old(state), b, len) ==>
        G() == old(G()) && unchanged(table, table.s, grid, grid.tiles)
      ensures Admits(SPKT_HELLO, old(state), b, len) ==>
        var n, pid, w, h := HelloSprites(b), HelloPlayer(b), HelloW(b), HelloH(b);
        var pose := HelloPose(b, n, pid, f32, old(player.pos), old(player.rot));
        && G() == old(G()).(state := Waiting, playerId := pid, playerPos := pose.0, playerRot := pose.1)
        && table.s[..table.n] == HelloLive(b, n, pid, f32) && table.tracked == old(table.tracked)
        && grid.w == w && grid.h == h
        && (forall k :: 0 <= k < TILE_COUNT ==>
              grid.tiles[k] == if k < 8 * MapBytes(w, h) then TileBit(b, n, k) else old(grid.tiles[k]))
    {
      if state != Joining {
        return;
      }
      var n, pid, w, h := b[4], b[5], LeU32(b, 6), LeU32(b, 10);
      var mb := MapBytes(w, h);
      if HELLO_FIXED_SIZE + mb + SPRITE_INIT_SIZE * n != len {
        return;
      }
      if w >= MAX_MAP_WIDTH || h >= MAX_MAP_HEIGHT {
        return;
      }
      MapBytesCover(w, h);
      table.Clear();
      grid.w, grid.h := w, h;
      playerId := pid;
      LoadSprites(b, n, f32);
      UnpackMap(b, HELLO_FIXED_SIZE + SPRITE_INIT_SIZE * n, mb);
      SetState(Waiting);
    }

    /** The sprite-record loop of the hello handler. */
    method LoadSprites(b: seq<u8>, n: nat, f32: u32 -> real)
      requires Valid() && table.n == 0 && HELLO_FIXED_SIZE + SPRITE_INIT_SIZE * n <= |b|
      modifies player, table, table.s
      ensures Valid() && table.tracked == old(table.tracked)
      ensures table.s[..table.n] == HelloLive(b, n, playerId, f32)
      ensures var pose := HelloPose(b, n, playerId, f32, old(player.pos), old(player.rot));
        G() == old(G()).(playerPos := pose.0, playerRot := pose.1)
    {
      var k := 0;
      while k < n
        invariant k <= n && Valid() && table.tracked == old(table.tracked)
        invariant table.s[..table.n] == HelloLive(b, k, playerId, f32)
        invariant var pose := HelloPose(b, k, playerId, f32, old(player.pos), old(player.rot));
          G() == old(G()).(playerPos := pose.0, playerRot := pose.1)
      {
        LoadRecord(b, k, f32);
        k := k + 1;
      }
    }

    /** Sprite record k of a hello: another sprite goes through init_sprite,
        the player's own record sets the player's position and rotation. */
    method LoadRecord(b: seq<u8>, k: nat, f32: u32 -> real)
      requires Valid() && HELLO_FIXED_SIZE + SPRITE_INIT_SIZE * (k + 1) <= |b|
      modifies player, table, table.s
      ensures Valid() && table.tracked == old(table.tracked)
      ensures var d, t := RecordDesc(b, k), RecordTransform(b, k, f32);
        if d.id != playerId then
          table.s[..table.n] == InitLive(old(table.s[..table.n]), d, t) && G() == old(G())
        else
          table.s[..table.n] == old(table.s[..table.n])
          && G() == old(G()).(playerPos := t.pos, playerRot := t.rot)
    {
      var d := DescAt(b, HELLO_FIXED_SIZE + SPRITE_INIT_SIZE * k);
      var t := TransformAt(b, HELLO_FIXED_SIZE + SPRITE_INIT_SIZE * k + 4, f32);
      if d.id != playerId {
        table.Init(d, t);
      } else {
        player.pos, player.rot := t.pos, t.rot;
      }
    }

    /** The map-data loop of the hello handler: each byte gives eight tiles,
        least significant bit first, filled row by row. */
    method UnpackMap(b: seq<u8>, off: nat, mb: nat)
      requires grid.Valid() && off + mb <= |b|
      requires 8 * mb < grid.w * grid.h + 8
      modifies grid.tiles
      ensures forall k :: 0 <= k < TILE_COUNT ==>
        grid.tiles[k] == if k < 8 * mb then Bit(b[off + k / 8], k % 8) else old(grid.tiles[k])
    {
      var w: int := grid.w;
      MapArea(grid.w, grid.h);
      if mb > 0 {
        assert w > 0 by {
          ProductOfZero(grid.w, grid.h);
        }
      }
      var x: int, y: int := 0, 0;
      var i := 0;
      while i < mb
        invariant i <= mb && 0 <= x && 0 <= y && x + y * w == 8 * i && (i < mb ==> x < w)
        invariant forall k :: 0 <= k < TILE_COUNT ==>
          grid.tiles[k] == if k < 8 * i then Bit(b[off + k / 8], k % 8) else old(grid.tiles[k])
      {
        x, y := UnpackByte(b[off + i], i, x, y);
        assert forall k :: 8 * i <= k < 8 * i + 8 ==> k / 8 == i;
        i := i + 1;
      }
    }

    /** One byte of the map data: eight tiles from position (x0, y0), the
        tiles 8i to 8i+7 of the row-by-row order. */
    method UnpackByte(v: u8, i: nat, x0: int, y0: int) returns (x: int, y: int)
      requires grid.Valid() && 8 * i + 8 <= TILE_COUNT
      requires 0 <= x0 < grid.w && 0 <= y0 && x0 + y0 * grid.w == 8 * i
      modifies grid.tiles
      ensures 0 <= x < grid.w && 0 <= y && x + y * grid.w == 8 * i + 8
      ensures forall k :: 0 <= k < TILE_COUNT ==>
        grid.tiles[k] == if 8 * i <= k < 8 * i + 8 then Bit(v, k - 8 * i) else old(grid.tiles[k])
    {
      var w: int := grid.w;
      var byte := v;
      x, y := x0, y0;
      var j := 0;
      while j < 8
        invariant j <= 8 && 0 <= x < w && 0 <= y && x + y * w == 8 * i + j
        invariant forall jj :: 0 <= jj < 8 - j ==> Bit(v, jj + j) == Bit(byte, jj)
        invariant forall k :: 0 <= k < TILE_COUNT ==>
          grid.tiles[k] == if 8 * i <= k < 8 * i + j then Bit(v, k - 8 * i) else old(grid.tiles[k])
      {
        assert Bit(byte, 0) == byte % 2;
        assert Bit(v, j) == Bit(byte, 0);
        assert forall jj :: 0 <= jj < 7 - j ==> Bit(byte, jj + 1) == Bit(byte / 2, jj);
        grid.tiles[x + y * w] := byte % 2;
        byte := byte / 2;
        x := x + 1;
        if x == w {
          NextRow(y, w);
          x, y := 0, y + 1;
        }
        j := j + 1;
      }
    }

    /** serv_update_handler: the player's own update reconciles, another
        sprite's replaces its transform; `now` is the platform clock. */
    method OnUpdate(b: seq<u8>, len: nat, now: real, f32: u32 -> real)
      requires Valid() && |b| == PKT_BUF_SIZE && len <= PKT_BUF_SIZE
      modifies player`pos, ring, table.s
      ensures Valid()
      ensures !Admits(SPKT_UPDATE, old(state), b, len) ==>
        G() == old(G()) && unchanged(ring, table.s)
      ensures Admits(SPKT_UPDATE, old(state), b, len) ==>
        var id, t, ts := b[8], TransformAt(b, 9, f32), f32(LeU32(b, 4));
        if id == playerId then
          ring.Pending() == old(ring.Pending())[Stale(old(ring.Pending()), ts)..]
          && G() == old(G()).(playerPos := Reconciled(old(grid.View()), old(ring.Pending()),
                                                      ts, t.pos, t.vel, now - old(gameStart)))
          && unchanged(table.s)
        else
          G() == old(G()) && unchanged(ring)
          && table.s[..] == match IndexOf(old(table.s[..table.n]), id)
                            case Some(i) => old(table.s[..])[i := Applied(old(table.s[i]), t)]
                            case None => old(table.s[..])
    {
      if state != Updating || len != SERV_UPDATE_SIZE {
        return;
      }
      var id, t := b[8], TransformAt(b, 9, f32);
      if id == playerId {
        Reconcile(grid.View(), ring.Pending(), f32(LeU32(b, 4)), t.pos, t.vel, now);
      } else {
        var i := table.Find(id);
        if i >= 0 {
          table.Apply(i, t);
        }
      }
    }

    /** reconcile: drop the inputs the server has already seen, replay the
        newer ones from the server's position, move on to the game time
        get_ts reads (the clock `now` minus g_game_start) and place the
        player there. `m` and `P` name the
        map and the pending inputs on entry. */
    method Reconcile(ghost m: MapView, ghost P: seq<InputLog>, ts: real, pos: Vec, vel: Vec, now: real)
      requires ring.Valid() && grid.Valid() && m == grid.View() && P == ring.Pending()
      modifies ring, player`pos
      ensures ring.Valid() && ring.Pending() == P[Stale(P, ts)..]
      ensures player.pos == Reconciled(m, P, ts, pos, vel, now - old(gameStart))
    {
      var at := now - gameStart;
      var i := ring.DropStale(ts);
      var cur := ReplayInputs(Motion(pos, vel, ts), i);
      var final, collided := grid.MoveAndCollide(cur.pos, Scale(cur.vel, at - cur.ts), PLAYER_RADIUS);
      ReconciledFrom(m, P, ts, pos, vel, at, cur);
      player.pos := final;
    }

    /** reconcile's second loop: walk the pending entries from the cursor
        and replay each one. */
    method ReplayInputs(start: Motion, p0: int) returns (cur: Motion)
      requires ring.Valid() && grid.Valid()
      requires p0 == -1 <==> ring.Pending() == []
      requires p0 != -1 ==> p0 == ring.tail
      ensures cur == Replay(grid.View(), start, ring.Pending())
    {
      ghost var L := ring.Pending();
      ghost var m := grid.View();
      var p := p0;
      cur := start;
      ghost var j := 0;
      while p != -1
        invariant p != -1 ==> j < |L| && p == Slot(ring.tail, j)
        invariant p == -1 ==> j == |L|
        invariant 0 <= j <= |L| && cur == Replay(m, start, L[..j])
        decreases |L| - j
      {
        ReplayPrefix(m, start, L, j);
        cur := ReplayEntry(cur, ring.buf[p]);
        ring.AfterWalksPending(j);
        p := ring.After(p);
        j := j + 1;
      }
      assert L[..j] == L;
    }

    /** One replayed input: move up to the entry's time, take its velocity. */
    method ReplayEntry(cur: Motion, e: InputLog) returns (r: Motion)
      requires grid.Valid()
      ensures r == ReplayStep(grid.View(), cur, e)
    {
      var moved, collided := grid.MoveAndCollide(cur.pos, Scale(cur.vel, e.ts - cur.ts), PLAYER_RADIUS);
      r := Motion(moved, e.vel, e.ts);
    }

    /** serv_create_handler. */
    method OnCreate(b: seq<u8>, len: nat, f32: u32 -> real)
      requires Valid() && |b| == PKT_BUF_SIZE && len <= PKT_BUF_SIZE
      modifies table, table.s
      ensures Valid() && table.tracked == old(table.tracked)
      ensures !Admits(SPKT_CREATE, state, b, len) ==> unchanged(table, table.s)
      ensures Admits(SPKT_CREATE, state, b, len) ==>
        table.s[..table.n] == InitLive(old(table.s[..table.n]), DescAt(b, 4), TransformAt(b, 8, f32))
        && table.s[table.n..] == old(table.s[..])[table.n..]
    {
      if (state != Updating && state != Waiting) || len != SERV_CREATE_SIZE {
        return;
      }
      table.Init(DescAt(b, 4), TransformAt(b, 8, f32));
    }

    /** serv_destroy_handler. */
    method OnDestroy(b: seq<u8>, len: nat)
      requires Valid() && |b| == PKT_BUF_SIZE && len <= PKT_BUF_SIZE
      modifies this, player, table, table.s
      ensures Valid()
      ensures !Admits(SPKT_DESTROY, old(state), b, len) ==>
        G() == old(G()) && unchanged(table, table.s)
      ensures Admits(SPKT_DESTROY, old(state), b, len) && DescAt(b, 4).id == old(playerId) ==>
        G() == old(G()).(playerId := 0, clientState := CLIENT_OVER,
                         events := old(events) + [ClientSwitch(CLIENT_OVER)])
        && table.tracked == TrackOf(old(table.s[..table.n]), DescAt(b, 4).field)
        && table.n == old(table.n) && unchanged(table.s)
      ensures Admits(SPKT_DESTROY, old(state), b, len) && DescAt(b, 4).id != old(playerId) ==>
        var d, live := DescAt(b, 4), old(table.s[..table.n]);
        var t1 := if old(table.tracked) != -1 && d.id == old(table.s[table.tracked]).desc.id
                  then TrackOf(live, d.field) else old(table.tracked);
        var live' := DestroyLive(live, d.id);
        var over := d.kind == SPRITE_PLAYER && old(clientState) != CLIENT_WAITING
                    && CountKind(live', SPRITE_PLAYER as u8) == 0;
        && table.s[..table.n] == live'
        && table.tracked == (match IndexOf(live, d.id) case Some(p) => Retrack(t1, p) case None => t1)
        && G() == old(G()).(
             health := if d.kind == SPRITE_BULLET && d.field != 0 && d.owner != old(playerId)
                          && d.field == old(playerId) then Damaged(old(player.health)) else old(player.health),
             clientState := if over then CLIENT_OVER else old(clientState),
             events := if over then old(events) + [ClientSwitch(CLIENT_OVER)] else old(events))
    {
      if (state != Updating && state != Waiting) || len != SERV_DESTROY_SIZE {
        return;
      }
      var d := DescAt(b, 4);
      if d.id == playerId {
        SwitchClient(CLIENT_OVER);
        table.Track(d.field);
        playerId := 0;
        return;
      }
      FollowKiller(d);
      table.Destroy(d.id);
      TakeHit(d);
      CheckLastPlayer(d);
    }

    /** When the tracked sprite is the one destroyed, the camera moves on to
        the sprite named in the packet's field (the killer). */
    method FollowKiller(d: Desc)
      requires table.Valid() && table.Sound()
      modifies table
      ensures table.Valid() && table.Sound() && table.n == old(table.n)
      ensures table.tracked == if old(table.tracked) != -1 && d.id == table.s[old(table.tracked)].desc.id
                               then TrackOf(table.s[..table.n], d.field) else old(table.tracked)
    {
      if table.tracked != -1 && d.id == table.s[table.tracked].desc.id {
        table.Track(d.field);
      }
    }

    /** A bullet that hit the player, fired by someone else, costs health. */
    method TakeHit(d: Desc)
      modifies player
      ensures G() == old(G()).(health := if d.kind == SPRITE_BULLET && d.field != 0 && d.owner != playerId
                                            && d.field == playerId then Damaged(old(player.health))
                                         else old(player.health))
    {
      if d.kind == SPRITE_BULLET && d.field != 0 {
        if d.owner == playerId {
        } else if d.field == playerId {
          player.health := Damaged(player.health);
        }
      }
    }

    /** Losing the last player sprite outside the waiting room ends the game. */
    method CheckLastPlayer(d: Desc)
      requires table.Valid() && clientState < CLIENT_STATE_MAX
      modifies this
      ensures var over := d.kind == SPRITE_PLAYER && old(clientState) != CLIENT_WAITING
                          && CountKind(table.s[..table.n], SPRITE_PLAYER as u8) == 0;
        G() == old(G()).(clientState := if over then CLIENT_OVER else old(clientState),
                         events := if over then old(events) + [ClientSwitch(CLIENT_OVER)] else old(events))
    {
      if d.kind == SPRITE_PLAYER && clientState != CLIENT_WAITING {
        var c := table.CountPlayers();
        if c == 0 {
          SwitchClient(CLIENT_OVER);
        }
      }
    }

    /** serv_wait_handler: start the game when the server says so, or pass
        the wait time on (-1 for an open-ended wait). */
    method OnWait(b: seq<u8>, len: nat, now: real)
      requires |b| == PKT_BUF_SIZE && len <= PKT_BUF_SIZE
      modifies this
      ensures !Admits(SPKT_WAIT, old(state), b, len) ==> G() == old(G())
      ensures Admits(SPKT_WAIT, old(state), b, len) ==>
        if !WaitFlag(b) && WaitSeconds(b) == 0 then G() == old(G()).(state := Updating, gameStart := now)
        else G() == old(G()).(events := old(events) +
                                [WaitTimeSet(if WaitFlag(b) then -1.0 else WaitSeconds(b) as real)])
    {
      if state != Waiting || len != SERV_WAIT_SIZE {
        return;
      }
      var word := LeU32(b, 4);
      var seconds, wait := word % BIT31, word >= BIT31;
      if !wait && seconds == 0 {
        SetState(Updating);
        gameStart := now;
      } else {
        events := events + [WaitTimeSet(if wait then -1.0 else seconds as real)];
      }
    }

    /** serv_terminate_handler: accepted in every state; an end that is not
        a game over shows the error screen. */
    method OnTerminate(len: nat)
      requires Valid()
      modifies this
      ensures Valid()
      ensures len != SERV_TERMINATE_SIZE ==> G() == old(G())
      ensures len == SERV_TERMINATE_SIZE ==>
        if old(clientState) != CLIENT_OVER then
          G() == old(G()).(state := Disconnected, clientState := CLIENT_ERROR,
                           events := old(events) + [ClientSwitch(CLIENT_ERROR)])
        else G() == old(G()).(state := Disconnected)
    {
      if len != SERV_TERMINATE_SIZE {
        return;
      }
      SetState(Disconnected);
      if clientState != CLIENT_OVER {
        SwitchClient(CLIENT_ERROR);
      }
    }
  }
}
