# gloom-core: multiplayer session, sprite logic and freestanding libc

A Dafny model of the core of gloom-core, a WebAssembly raycasting shooter client written in C. The model covers four parts of the client:

- **The multiplayer layer** (`src/game/multiplayer.c`, `include/gloom/multiplayer.h`):
  - the connection state machine;
  - the 128-slot input log used for client-side prediction;
  - the client packets and the checked send;
  - the receive gate with its sequence window;
  - the five server packet handlers;
  - reconciliation against the server's position;
  - the packed sprite table with its tracked-sprite pointer.
- **The per-frame game logic** (`src/game/game.c`):
  - the DDA ray walk over the tile map and the axis-separated wall collision;
  - sprite update: movement, animation and bullet hits;
  - the projection, culling and back-to-front insertion of sprite rendering;
  - colour inversion.
- **The freestanding libc** (`src/utils/libc.c`):
  - the bounded `printf` buffer;
  - decimal, signed and zero-padded hexadecimal conversion;
  - directive handling and `vsnprintf`;
  - `memset` and `strlen`.

Files:

| file | module | content |
|---|---|---|
| `common.dfy` | `Common` | integer widths, vectors, truncating casts, little-endian words |
| `libc.dfy` | `Libc` | the formatter |
| `grid.dfy` | `Grid` | the tile map, `trace_ray`, `game_move_and_collide` |
| `ring.dfy` | `InputRing` | the input-log ring |
| `sprites.dfy` | `Sprites` | the sprite table |
| `protocol.dfy` | `Protocol` | the wire formats, the receive gate, the state transitions |
| `session.dfy` | `Session` | the multiplayer globals as one object, the senders and handlers |
| `game.dfy` | `GameSim` | `update_sprites`, `render_sprites`, `invert_color` |

How the C is represented:

- Code that mutates globals becomes classes (`Ring`, `SpriteTable`, `TileMap`, `PrintfBuf`, `Session`) whose methods are proved against specification functions on sequences. Properties of those functions are then proved as lemmas.
- C pointers into arrays become slot indices, with -1 standing for NULL.
- `f32` values are exact reals.
- Machine integers are `int` subsets, with wrap-around written out where the C relies on it.
- The time, the return value of each send, and the conversion between `f32` values and their bit patterns are parameters.

## Model

| member | source | states |
|---|---|---|
| Libc.PrintfBuf.constructor | src/utils/libc.c:180-185 | a buffer starts empty with nothing emitted or flushed |
| Libc.PrintfBuf.Putc | src/utils/libc.c:21-29 | every character is emitted; without a file descriptor a full buffer keeps its first `len` characters and drops the rest; with one, a full buffer hands its `len` characters to `platform_write` and the character starts the buffer again (end 1), and otherwise the character is appended with nothing flushed; the buffer invariant keeps flushed text plus buffer equal to everything emitted |
| Libc.PrintfBuf.Putr | src/utils/libc.c:38-41 | the first `l` characters of the temporary are emitted in reverse order |
| Libc.PrintfBuf.Puts | src/utils/libc.c:46-49 | the string up to (not including) its terminator is emitted |
| Libc.ConvertU32ToStr | src/utils/libc.c:52-64 | writes the least-significant-first decimal digits of n, cut to the buffer length, and leaves the rest of the buffer alone |
| Libc.DecLsfValue | src/utils/libc.c:52-64 | the digits `convert_u32_to_str` produces are decimal digits whose least-significant-first value is n |
| Libc.DecLsfLength | src/utils/libc.c:67-76 | a number below 10^k has at most k digits, so a u32 fits the 32-character temporary |
| Libc.PrintfBuf.Putu | src/utils/libc.c:66-78 | emits the decimal text of n |
| Libc.DecimalCorrect | src/utils/libc.c:66-78 | that text is made of decimal digits, reads back as n, is "0" exactly for 0 and has no leading zero otherwise |
| Libc.PrintfBuf.Putd | src/utils/libc.c:80-86 | emits the signed decimal text of n |
| Libc.SignedDecimalCorrect | src/utils/libc.c:80-86 | a negative number gives '-' followed by digits that read back as its magnitude (including -2^31), a non-negative one gives its digits with no sign |
| Libc.HexToStr | src/utils/libc.c:98-106 | fills the temporary with the least-significant-first hexadecimal digits of n padded with '0' to eight |
| Libc.HexLsfValue | src/utils/libc.c:98-103 | those digits are 0-9/A-F and read back as n |
| Libc.HexLsfLength | src/utils/libc.c:98-103 | a number below 16^k has at most k hexadecimal digits |
| Libc.PadZerosValue | src/utils/libc.c:104-106 | zero padding keeps the digits, appends only '0' and does not change the value |
| Libc.PrintfBuf.Putx | src/utils/libc.c:88-109 | emits the hexadecimal text of n |
| Libc.HexCorrect | src/utils/libc.c:88-109 | that text is upper-case hexadecimal reading back as n, is "0" exactly for 0, and has exactly eight digits for every other u32 |
| Libc.PrintfBuf.PutDirective | src/utils/libc.c:149-168 | each of %d %i %u %x %s %c emits the text of its argument as defined by `Directive` |
| Libc.PrintfBuf.PutStep | src/utils/libc.c:142-176 | one iteration of the scan emits what the format defines for the consumed characters and leaves the rest of the format conforming |
| Libc.PrintfBuf.ProcessFmt | src/utils/libc.c:138-178 | emits exactly the text `Format(fmt, args)` |
| Libc.FormatPlainAndUnknown | src/utils/libc.c:142-175 | an ordinary character is copied, "%%" gives one '%', and an unknown directive is printed as '%' followed by that character |
| Libc.FormatVerbatim | src/utils/libc.c:142-146 | a format with no '%' before its terminator is reproduced verbatim, with no argument needed |
| Libc.Vsnprintf | src/utils/libc.c:180-190 | the buffer holds the longest prefix of the formatted text that leaves room for the terminator, then the terminator; the bytes after it are untouched |
| Libc.Memset | src/utils/libc.c:217-233 | exactly the l bytes from p are set to b, whole words first then the remainder, and every other byte is unchanged |
| Libc.SplatBytes | src/utils/libc.c:222-223 | the word built from b holds b in each of its four bytes |
| Libc.Strlen | src/utils/libc.c:235-240 | returns the index of the first NUL: every earlier character is non-NUL |
| Libc.LoneTrailingPercentOverreads | src/utils/libc.c:142-148 | for the format "%" the scan as written reads one character past the terminator (it models the index the scan reads, not the text emitted from there) |
| Libc.CorrectedScanStopsAtTerminator | src/utils/libc.c:142-148 | the corrected scan stops exactly at the terminator of any C string |
| Grid.AbsRecip | src/game/game.c:96-97 | \|1/d\| is infinite exactly for a zero component and otherwise a positive reciprocal |
| Grid.StartRay | src/game/game.c:93-111 | the initial deltas and intercepts are never NaN, an intercept is infinite exactly when its delta is, and each step is +1 or -1 |
| Grid.StartRayFromPosition | src/game/game.c:93-111 | the ray starts in the cell holding the position, steps by the sign of each direction component (+1 for 0), and its first intercepts are the reciprocal deltas times the distance to the next cell boundary in the step direction |
| Grid.Step | src/game/game.c:119-128 | one DDA step keeps the ray consistent with its direction |
| Grid.WalkOutcome | src/game/game.c:113-133 | the walk stops within the depth limit; a wall result is the tile at the cell reached, and an empty result means the depth ran out or the cell left the map |
| Grid.WalkDisplacement | src/game/game.c:119-128 | each step moves one cell along x or y in the step direction, so the cells moved equal the steps taken |
| Grid.AxisWalkY | src/game/game.c:113-133 | a ray along y walks one row per step with the hit distance growing by one per row |
| Grid.AxisWalkX | src/game/game.c:113-133 | a ray along x walks one column per step with the hit distance growing by one per column |
| Grid.VerticalProbe | src/game/game.c:145-148 | the y probe of the collision walks the player's column, and its distance is the gap to the next row plus the rows crossed |
| Grid.HorizontalProbe | src/game/game.c:155-158 | the x probe walks the player's row, and its distance is the gap to the next column plus the columns crossed |
| Grid.TileMap.View | src/game/game.c:114-117 | the map is well formed: dimensions below 64 and 4096 tiles |
| Grid.TileMap.TraceRay | src/game/game.c:85-136 | the loop returns the cell and hit of the walk `TraceOf` |
| Grid.TileMap.ClampAxis | src/game/game.c:148-152 | one axis probe clamps the distance to the wall distance minus the radius when the wall is nearer than distance plus radius |
| Grid.TileMap.MoveAndCollide | src/game/game.c:138-168 | the result is `Collide`: each axis is moved independently and clamped |
| Grid.CollideFree | src/game/game.c:138-168 | with no wall within reach on either axis, the position moves by the full displacement and no collision is reported |
| Grid.CollideClamps | src/game/game.c:148-162 | a blocked axis ends exactly radius short of the wall along that axis and reports a collision |
| Grid.CollideParts | src/game/game.c:144-167 | the new position and flag are composed from the two axis probes |
| Grid.CollideAxesIndependent | src/game/game.c:144-165 | the x result depends only on the x displacement and the y result only on the y displacement |
| Grid.ZeroProbesPositive | src/game/game.c:145-146 | with no y movement the y probe still looks towards +y (sign of 0 is +1), so a wall closer than the radius there pushes the position back |
| Grid.CollideAgainstWall | src/game/game.c:138-168 | a player at (1.5, 1.5) moving 0.6 towards a wall at x = 2 stops at x = 1.8 and reports a collision |
| InputRing.Ring.constructor | src/game/multiplayer.c:120-123 | the zeroed ring is empty |
| InputRing.Ring.Reset | src/game/multiplayer.c:125-129 | both pointers go to slot 0 and nothing is pending |
| InputRing.Ring.Push | src/game/multiplayer.c:131-139 | the entry is appended to the pending log; when the ring is full the oldest entry is dropped |
| InputRing.PushRoom | src/game/multiplayer.c:131-136 | with room left, a push appends to the window between tail and head |
| InputRing.PushFull | src/game/multiplayer.c:137-138 | with the ring full, a push drops the oldest entry and appends the new one |
| InputRing.Ring.SetTail | src/game/multiplayer.c:141-145 | the tail moves only to a slot inside the buffer |
| InputRing.Ring.GetNext | src/game/multiplayer.c:147-156 | returns -1 exactly when nothing is pending; otherwise returns the oldest pending slot, which holds the first pending entry, and removes it |
| InputRing.Ring.AfterWalksPending | src/game/multiplayer.c:158-163 | stepping from a pending slot gives the next pending slot, or -1 after the newest |
| InputRing.Ring.DropStale | src/game/multiplayer.c:454-457 | the inputs with a timestamp at or before the server's are dropped from the front of the log |
| InputRing.Ring.SkipSeen | src/game/multiplayer.c:454-457 | the loop consumes the seen prefix and stops at the first entry newer than the server timestamp |
| InputRing.Ring.Rewind | src/game/multiplayer.c:456-457 | putting the tail back one slot re-queues the entry in that slot |
| InputRing.StaleSplits | src/game/multiplayer.c:454-457 | every dropped entry is at or before the server timestamp, and the first kept one is after it |
| InputRing.StaleUnique | src/game/multiplayer.c:454-457 | the stale prefix is the only prefix with that split |
| InputRing.TailLeavesBuffer | src/game/multiplayer.c:137-138 | as written, a push into a full ring whose tail is in the last slot moves the tail to slot 128 |
| InputRing.TailReaches128 | src/game/multiplayer.c:131-139 | as written, from an empty ring the pushes reach the state where the tail is one past the head |
| InputRing.TailOutOfRange | src/game/multiplayer.c:137-138 | as written, 255 pushes from an empty ring leave the tail outside the buffer |
| Sprites.Created | src/game/multiplayer.c:338-358 | a new sprite has the received descriptor and the transform's rotation, position and velocity, is enabled and starts with animation frame 0 |
| Sprites.Applied | src/game/multiplayer.c:271-277 | a transform sets the rotation, position and velocity to the packet's and re-enables the sprite; the descriptor, animation frame and screen projection fields are unchanged |
| Sprites.IndexOf | src/game/multiplayer.c:296-308 | the search finds the first live entry with the id, or reports that none has it |
| Sprites.TrackOf | src/game/multiplayer.c:310-313 | the tracked slot holds the id, and is NULL exactly when no live entry has it |
| Sprites.InitLiveKeepsTable | src/game/multiplayer.c:338-358 | init keeps ids unique and kinds known; an unknown type changes nothing; afterwards the id is present unless the table was full |
| Sprites.UpsertKeeps | src/game/multiplayer.c:296-308 | writing a known-type sprite by id keeps the table sound and does not grow it when the id is already present |
| Sprites.DestroyLiveRemoves | src/game/multiplayer.c:315-334 | destroying removes exactly the entries with the id, keeps every other entry, and shrinks the table by one when the id was present |
| Sprites.RetrackFollows | src/game/multiplayer.c:326-333 | after a removal the corrected tracked index still points at the same sprite |
| Sprites.NoPlayersLeft | src/game/multiplayer.c:284-290 | the player count is zero exactly when no live sprite is a player |
| Sprites.SpriteTable.constructor | src/game/multiplayer.c:114-123 | the zeroed table is empty and tracks nothing |
| Sprites.SpriteTable.Clear | src/game/multiplayer.c:401 | resetting the count empties the table and keeps it sound |
| Sprites.SpriteTable.Alloc | src/game/multiplayer.c:279-282 | returns the next free slot and grows the table, or -1 when 255 sprites are live |
| Sprites.SpriteTable.Get | src/game/multiplayer.c:296-308 | returns the slot of the first sprite with the id; otherwise a new slot when allocation is allowed and there is room, else -1 |
| Sprites.SpriteTable.Find | src/game/multiplayer.c:296-308 | a lookup without allocation returns the slot with the id or -1 and changes nothing |
| Sprites.SpriteTable.Track | src/game/multiplayer.c:310-313 | the tracked slot becomes the sprite with the id, or NULL |
| Sprites.SpriteTable.CountPlayers | src/game/multiplayer.c:284-290 | returns the number of live player sprites |
| Sprites.SpriteTable.Init | src/game/multiplayer.c:338-358 | the live entries become `InitLive`; unknown types are ignored, and ids stay unique |
| Sprites.SpriteTable.Destroy | src/game/multiplayer.c:315-334 | the live entries become `DestroyLive`; the count drops by one when the id was present, and the tracked index follows the sprite it pointed at |
| Sprites.SpriteTable.ShiftDown | src/game/multiplayer.c:322-325 | the entries above slot p move one slot down and the slots past the count are untouched |
| Sprites.SpriteTable.Apply | src/game/multiplayer.c:271-277 | only slot i changes, to the transformed sprite |
| Sprites.TrackedLeftBehind | src/game/multiplayer.c:326-333 | as written, re-tracking happens only when the tracked id is greater than the destroyed id, so destroying id 5 below a tracked id 2 leaves the tracked index past the live entries |
| Protocol.StateCode | include/gloom/multiplayer.h:6-12 | each connection state has a number below 5 |
| Protocol.StateNumbering | include/gloom/multiplayer.h:6-12 | the numbering is a bijection between the five states and 0..4 |
| Protocol.DecodeServHdr | src/game/multiplayer.c:54-57 | a server header has a 29-bit sequence number and a 3-bit type |
| Protocol.ServHdrRoundTrip | src/game/multiplayer.c:54-57 | decoding and encoding the header word are mutual inverses |
| Protocol.AbsU32 | include/gloom/math.h:45-47 | the absolute value of an i32, as a u32 |
| Protocol.WindowIsSignedDistance | src/game/multiplayer.c:666-672 | a packet is in the window exactly when its sequence number differs from the server counter by less than 10 in signed 32-bit arithmetic |
| Protocol.GateOrder | src/game/multiplayer.c:647-682 | oversize and undersize packets are rejected first; a packet is accepted exactly when its size is valid and it is in the window, and then the counter becomes its sequence number plus one; only types below 6 are delivered |
| Protocol.GateExamples | src/game/multiplayer.c:666-672 | packets 5 ahead or 5 behind are accepted and move the counter, 10 ahead or 50 behind are dropped |
| Protocol.NoSeqWrap | src/game/multiplayer.c:666-672 | a sequence number that wrapped to 0 is dropped once the counter reached 2^29 |
| Protocol.DescAt | src/game/multiplayer.c:59-68 | a descriptor is four consecutive bytes: type, id, owner, field |
| Protocol.MapBytes | src/game/multiplayer.c:377 | the map-data size fits a 29-bit value |
| Protocol.MapBytesCover | src/game/multiplayer.c:377-441 | for accepted dimensions the map data holds enough bits for every tile and fewer than 8 more |
| Protocol.Bit | src/game/multiplayer.c:428-441 | each unpacked tile is 0 or 1 |
| Protocol.NextState | src/game/multiplayer.c:360-636 | a rejected packet leaves the state; a terminate of the right size disconnects; a hello changes the state exactly when it is admitted |
| Protocol.Transitions | src/game/multiplayer.c:360-636 | only hello in JOINING leads to WAITING; only a zero-second wait in WAITING leads to UPDATING; only terminate disconnects; update, create and destroy never change the state |
| Protocol.KindOf | src/game/multiplayer.c:10-16 | client packet types are below 4 and fit the 2-bit field |
| Protocol.EncodeHdr | src/game/multiplayer.c:18-22 | a client header is 8 bytes |
| Protocol.Encode | src/game/multiplayer.c:24-42 | each client packet has its packed size |
| Protocol.HeaderRoundTrip | src/game/multiplayer.c:18-22 | the sequence number, type and token of every client packet read back from its bytes |
| Session.Damaged | src/game/multiplayer.c:567 | a hit lowers the health by 25 when that does not leave the i32 range |
| Session.HelloTable | src/game/multiplayer.c:412-426 | the sprites a hello loads have unique ids and known types, fit the table, and never include the player's own id |
| Session.InitLiveIds | src/game/multiplayer.c:412-426 | loading a record never adds an id other than its own |
| Session.ReplayStep | src/game/multiplayer.c:460-470 | one replayed input leaves the entry's velocity and timestamp as the current ones |
| Session.Replay | src/game/multiplayer.c:460-470 | replaying no inputs changes nothing; otherwise the last input's velocity and timestamp are current |
| Session.ReplayPrefix | src/game/multiplayer.c:460-470 | replaying one more input is one more step |
| Session.ReconcileWithoutInputs | src/game/multiplayer.c:446-478 | with no input newer than the server's, the player moves from the server's position with the server's velocity up to now |
| Session.Player.constructor | src/globals.c:4 | the player starts zeroed |
| Session.Session.constructor | src/game/multiplayer.c:114-123 | the globals start zeroed: DISCONNECTED, counters 0, nothing sent, empty ring and table |
| Session.Session.GetState | include/gloom/multiplayer.h:26-29 | returns the number of the stored state |
| Session.Session.IsDisconnected | include/gloom/multiplayer.h:16-19 | true exactly in DISCONNECTED |
| Session.Session.IsInGame | include/gloom/multiplayer.h:21-24 | true exactly in UPDATING |
| Session.Session.SetState | src/game/multiplayer.c:217-223 | only the connection state changes |
| Session.Session.SwitchClient | src/client.c:27-33 | a valid switch records the new client state and an event; otherwise nothing changes |
| Session.Session.Init | src/game/multiplayer.c:208-215 | stores the game id and token, zeroes both counters, empties the ring and connects |
| Session.Session.NewPacket | src/game/multiplayer.c:194-200 | the header carries the client counter cut to 30 bits and the token, and the counter increments with u32 wrap-around |
| Session.Session.SendChecked | src/game/multiplayer.c:202-206 | the packet is sent; a short send disconnects |
| Session.Session.SignalReady | src/game/multiplayer.c:230-235 | sends a 9-byte ready packet |
| Session.Session.Leave | src/game/multiplayer.c:237-242 | the state is CONNECTED before the send, so only a failed send ends DISCONNECTED |
| Session.Session.SendUpdate | src/game/multiplayer.c:244-251 | sends the keys, the player's rotation and the game time |
| Session.Session.FireBullet | src/game/multiplayer.c:253-257 | sends a fire packet whose result is ignored |
| Session.Session.JoinGame | include/gloom/multiplayer.h:43-47 | sends not-ready and ends in JOINING whatever the send did |
| Session.Session.QueueKeyInput | src/game/multiplayer.c:225-228 | logs the walking velocity at the game time |
| Session.Session.OnRecvPacket | src/game/multiplayer.c:647-682 | the receive gate decides, the server counter follows it, and a rejected packet or one its handler refuses changes nothing else; for each delivered kind the new state is the handler's: hello loads the id, pose, sprites and map; the player's own update reconciles to `Reconciled` and another sprite's takes its transform; create runs `InitLive`; destroy ends the game on the player's own death or removes the sprite with re-tracking, damage and the last-player check; wait starts the game or records the wait time; terminate disconnects |
| Session.Session.Handle | src/game/multiplayer.c:638-645 | the handler table: each delivered kind runs its own handler, whose admitted and refused outcomes it restates kind by kind |
| Session.Session.OnHello | src/game/multiplayer.c:360-444 | when admitted: WAITING, the player id stored, the sprites loaded, the map dimensions set and the map bits unpacked; otherwise nothing changes |
| Session.Session.LoadSprites | src/game/multiplayer.c:412-426 | the table holds the hello's sprites and the player takes the pose of its own record |
| Session.Session.LoadRecord | src/game/multiplayer.c:413-425 | the own record sets the player's pose, any other goes through `init_sprite` |
| Session.Session.UnpackMap | src/game/multiplayer.c:428-441 | tile k becomes bit k mod 8 of map byte k / 8, for every bit sent |
| Session.Session.UnpackByte | src/game/multiplayer.c:430-439 | eight tiles take the bits of one byte and the row/column cursor advances by eight |
| Session.Session.OnUpdate | src/game/multiplayer.c:480-505 | the player's own update reconciles, another sprite's update is applied to it, and an unknown id is ignored |
| Session.Session.Reconcile | src/game/multiplayer.c:446-478 | the stale inputs are dropped and the player lands at `Reconciled` at the game time, the clock minus `g_game_start` |
| Session.Session.ReplayInputs | src/game/multiplayer.c:460-470 | the loop replays every pending input |
| Session.Session.ReplayEntry | src/game/multiplayer.c:462-469 | one input is replayed |
| Session.Session.OnCreate | src/game/multiplayer.c:507-526 | when admitted the sprite is initialised from the packet; otherwise nothing changes |
| Session.Session.OnDestroy | src/game/multiplayer.c:528-578 | the player's own death ends the game and follows the killer; any other sprite is removed, with the camera following the killer, a foreign bullet on the player costing health, and the last player's removal ending the game outside the waiting room |
| Session.Session.FollowKiller | src/game/multiplayer.c:555-558 | tracking moves to the killer only when the tracked sprite is the one destroyed |
| Session.Session.TakeHit | src/game/multiplayer.c:563-568 | a foreign bullet that hit the player costs 25 health; nothing else does |
| Session.Session.CheckLastPlayer | src/game/multiplayer.c:573-577 | the game ends when no player sprite is left and the client is not waiting |
| Session.Session.OnWait | src/game/multiplayer.c:580-615 | a zero-second wait starts the game at the current time; otherwise the remaining time (or -1) is passed on |
| Session.Session.OnTerminate | src/game/multiplayer.c:617-636 | a terminate disconnects, and switches the client to the error state unless the game is already over |
| GameSim.Radius | src/game/game.c:40-43 | every sprite type has a positive collision radius |
| GameSim.ModFRange | src/game/game.c:248 | the walking animation frame stays in [0, 4) |
| GameSim.AnimationBounded | src/game/game.c:238-252 | a firing frame counts down to 4 and never below; otherwise the frame stays within [0, 4] |
| GameSim.Motions | src/game/game.c:230-234 | one wall-collision result per sprite |
| GameSim.Moved | src/game/game.c:232-252 | a sprite keeps its descriptor and velocity and takes the new position; a player keeps its disabled flag (the bullet flag rule is `BulletFlagStep`) |
| GameSim.Disable | src/game/game.c:260-285 | only enabled foreign bullets can be switched off by a player, and nothing else changes |
| GameSim.Process | src/game/game.c:227-286 | one outer iteration moves sprite i only and never switches a player off |
| GameSim.UpdatedUpTo | src/game/game.c:227-286 | the table after k iterations keeps its length and known types |
| GameSim.UpdateMovesEach | src/game/game.c:227-286 | after k iterations exactly the first k sprites have moved to their collision results |
| GameSim.PlayersKeepFlags | src/game/game.c:236-258 | update never changes a player's disabled flag |
| GameSim.UpdatedPositions | src/game/game.c:227-286 | after the update every sprite is at its own wall-collision result |
| GameSim.OnlyBulletsSwitchedOff | src/game/game.c:236-284 | a sprite that goes from enabled to disabled is a bullet |
| GameSim.BulletFlagStep | src/game/game.c:236-237 | a bullet's own iteration sets its flag to `!disabled && collided`, from the flag it holds when its turn comes |
| GameSim.SwitchedOffBulletReenabled | src/game/game.c:236-237 | a bullet that is switched off when its turn comes is switched on again by its own move |
| GameSim.StruckBulletReenabledSamePass | src/game/game.c:227-285 | player 5 in slot 0 switches off player 7's bullet 0.1 away in slot 1, and the bullet's own move, meeting no wall, switches it on again in the same pass |
| GameSim.MotionAt | src/game/game.c:232-234 | a sprite's motion depends only on its own position, velocity and type |
| GameSim.UpdateSprites | src/game/game.c:219-289 | the table becomes `Updated` |
| GameSim.StepSprite | src/game/game.c:227-286 | one iteration of the outer loop |
| GameSim.StrikeFrom | src/game/game.c:260-285 | the inner loop switches off the bullets sprite i strikes |
| GameSim.ReachAsWritten | src/game/game.c:272 | as written, the other sprite's radius is read by id, in bounds only for ids 0 and 1 |
| GameSim.BulletReachByIdTooLarge | src/game/game.c:272 | a bullet with id 0 is checked against a player radius (0.4 reach instead of 0.21) |
| GameSim.BulletReachByType | src/game/game.c:272-284 | with the radius read by type, a bullet strikes a player exactly when it is enabled, foreign and within 0.21 |
| GameSim.Placed | src/game/game.c:486-495 | the inverse depth is the reciprocal of the camera-space depth and only the screen fields change |
| GameSim.SlotFor | src/game/game.c:516-520 | the insertion point is after every entry at least as deep and before the first shallower one |
| GameSim.VisitSlot | src/game/game.c:466-502 | disabled, tracked and behind-camera sprites are skipped; a sprite is listed exactly when it is shown, with its squared depth |
| GameSim.Visits | src/game/game.c:463-529 | one decision per live sprite |
| GameSim.RenderStep | src/game/game.c:463-528 | one iteration changes only the screen fields of sprite i and lists at most one more index |
| GameSim.RenderUpTo | src/game/game.c:463-529 | the loop changes only screen fields, and only of sprites already visited |
| GameSim.InsertKeepsDrawOrder | src/game/game.c:516-525 | inserting at the search point keeps the list ordered deepest first, ties in table order |
| GameSim.RenderStepLists | src/game/game.c:516-528 | one iteration adds index i exactly when listed and keeps the list ordered |
| GameSim.RenderUpToLists | src/game/game.c:463-529 | after k iterations the list holds exactly the listed sprites among the first k, ordered, with their computed screen fields |
| GameSim.RenderListsShown | src/game/game.c:457-533 | the draw list is ordered back to front, without duplicates, and holds exactly the sprites that are shown |
| GameSim.FindSlot | src/game/game.c:516-520 | the search loop returns the insertion point `SlotFor` |
| GameSim.ShiftIn | src/game/game.c:521-525 | the list becomes the prefix, the new index, and the suffix |
| GameSim.InsertDrawn | src/game/game.c:516-525 | the new index lands at the insertion point |
| GameSim.RenderSlot | src/game/game.c:464-528 | one iteration performs `RenderStep` on the table and the list |
| GameSim.RenderSprites | src/game/game.c:457-533 | the table and draw list become `Rendered`; the table beyond the count is untouched |
| GameSim.InvertColor | src/game/game.c:536-555 | with an alpha-only mask, each colour channel becomes 255 minus itself and the alpha byte is the mask's |

## Left out

- Floating point: `f32` values are exact reals, with no rounding, NaN or infinity except the one infinity `trace_ray` relies on.
- Wire floats: `f32` fields on the wire go through a function the caller supplies from bit pattern to value. IEEE-754 decoding is not modelled.
- The platform calls are parameters: `platform_get_time`, the result of `platform_send_packet`, `platform_write`, and `color_get_alpha_mask`. The game-side query `game_get_player_dir` is too: it is the `dir` argument of `QueueKeyInput`.
- The rest of the client: the calls into it (`client_switch_state`, `g_wait_time_set`) are recorded as events. The states in `src/client.c` are not part of this model.
- Logging: every `printf`/`eprintf` line (state switches, size and type errors) is left out.
- `multiplayer_draw_game_id`, `gloom_packet_buffer` and `gloom_packet_buffer_size`: drawing and buffer accessors.
- `buf_putf` and `%f`: floating-point formatting is left out. `Conforms` excludes `%f` from the formats the model accepts.
- `vfdprintf` and `buf_flush`: the final flush to a file descriptor is left out. `PrintfBuf` records what a full buffer flushes.
- `malloc` and `free_all`: heap bookkeeping outside the core.
- Libc.Memset: the byte array is one `bv8` array. The word stores are shown to write the same bytes (`SplatBytes`), but the aliasing of the `u32*` view is not modelled.
- GameSim.VisitSlot: a sprite exactly on the camera plane (depth 0) is skipped. In the C it is divided by zero.
- GameSim.Placed: the truncating `f32`-to-`i32` casts do not saturate or wrap for huge values.
- GameSim.Placed: the relative rotation for player sprites (`acos` and normalisation) is not computed. It affects only drawing.
- `draw_sprite`: the pixel drawing of the listed sprites (render_sprites lines 531-532) and the rest of the renderer are left out.
- The sprite width table `g_sprite_dims`: it is a parameter, `widths`.
- Concurrency: none exists; every handler runs to completion.

## Findings

| source | as written | input that shows it | evidently intended | confidence | as-written member | corrected member |
|---|---|---|---|---|---|---|
| src/game/multiplayer.c:137-138 | when a push catches up with the tail, `++g_iring.tail` is not wrapped | 255 pushes into an empty ring leave the tail at slot 128, one past the buffer, which `iring_get_next` then returns | the tail wraps to slot 0 like the head | not executed | InputRing.TailOutOfRange | InputRing.Ring.Push |
| src/game/multiplayer.c:326-333 | the tracked pointer is re-resolved only when the tracked sprite's id is greater than the destroyed one's, as if ids grew with the slot | live [id 5, id 2] tracking slot 1; destroying id 5 shifts id 2 to slot 0 but tracking stays at slot 1, past the live sprites | the tracked index follows its sprite down one slot | not executed | Sprites.TrackedLeftBehind | Sprites.RetrackFollows |
| src/game/game.c:272 | the other sprite's radius is read as `g_sprite_radius[other->desc.id]` | a bullet with id 0 next to a player 0.3 away: read by id it gets the player radius 0.2, so the reach is 0.4 and the hit counts; ids of 2 and up read outside the two-entry table | `g_sprite_radius[other->desc.type]` | not executed | GameSim.BulletReachByIdTooLarge | GameSim.BulletReachByType |
| src/utils/libc.c:142-148 | after a '%' the next character is consumed even when it is the terminator | the format "%" reads the byte after its terminator and keeps scanning | stop at the terminator after a lone '%' | not executed | Libc.LoneTrailingPercentOverreads | Libc.CorrectedScanStopsAtTerminator |

The model uses the corrected behaviour in each case:

- the ring wraps its tail;
- the sprite table re-tracks after a removal;
- the hit test reads the radius by type;
- the formatter stops at the terminator.

One more behaviour is kept exactly as written: a bullet's flag becomes `!disabled && collided` on its own move. A bullet that is disabled when its move comes is therefore always enabled again. This holds even when a player earlier in the same pass has just switched it off (`StruckBulletReenabledSamePass`). A bullet that keeps pressing against a wall alternates between disabled and enabled from one frame to the next.
