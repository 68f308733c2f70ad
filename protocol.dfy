/** The wire layer of src/game/multiplayer.c and include/gloom/multiplayer.h:
    the connection states, the packed packet layouts, the receive gate and
    the state each server packet leads to.

    Packets are byte sequences. Bit-fields are laid out low bits first and
    multi-byte fields little-endian (clang targeting little-endian wasm). */
module Protocol {
  import opened Common
  import opened Sprites

  // ---------------------------------------------------------------------------
  // Connection states (enum multiplayer_state)

  datatype MpState = Disconnected | Connected | Joining | Waiting | Updating

  /** The enum's numbering. */
  function StateCode(s: MpState): (r: nat)
    ensures r < 5
  {
    match s
    case Disconnected => 0
    case Connected => 1
    case Joining => 2
    case Waiting => 3
    case Updating => 4
  }

  function StateOf(n: nat): (r: Option<MpState>)
    ensures n < 5 <==> r.Some?
  {
    if n == 0 then Some(Disconnected)
    else if n == 1 then Some(Connected)
    else if n == 2 then Some(Joining)
    else if n == 3 then Some(Waiting)
    else if n == 4 then Some(Updating)
    else None
  }

  /** The states are numbered 0..4 in declaration order, one number each. */
  lemma StateNumbering(s: MpState, n: nat)
    ensures StateOf(StateCode(s)) == Some(s)
    ensures n < 5 ==> StateCode(StateOf(n).value) == n
  {
  }

  // ---------------------------------------------------------------------------
  // Sizes of the packed layouts

  const PKT_BUF_SIZE: int := 0x1000
  const MAX_PACKET_DROP: int := 10

  const SERV_HDR_SIZE: int := 4
  const HELLO_FIXED_SIZE: int := 14
  const SPRITE_INIT_SIZE: int := 24
  const SERV_UPDATE_SIZE: int := 29
  const SERV_CREATE_SIZE: int := 28
  const SERV_DESTROY_SIZE: int := 8
  const SERV_WAIT_SIZE: int := 8
  const SERV_TERMINATE_SIZE: int := 4

  const GAME_HDR_SIZE: int := 8

  /** enum serv_pkt_type. */
  const SPKT_HELLO: int := 0
  const SPKT_UPDATE: int := 1
  const SPKT_CREATE: int := 2
  const SPKT_DESTROY: int := 3
  const SPKT_WAIT: int := 4
  const SPKT_TERMINATE: int := 5
  const SPKT_MAX: int := 6

  const SEQ29: int := 0x2000_0000
  const SEQ30: int := 0x4000_0000
  const BIT31: int := 0x8000_0000

  // ---------------------------------------------------------------------------
  // Server header: seqNo in the low 29 bits, type in the top 3

  datatype ServHdr = ServHdr(seqNo: nat, kind: nat)

  function DecodeServHdr(w: u32): (h: ServHdr)
    ensures h.seqNo < SEQ29 && h.kind < 8
  {
    ServHdr(w % SEQ29, w / SEQ29)
  }

  function EncodeServHdr(h: ServHdr): u32
    requires h.seqNo < SEQ29 && h.kind < 8
  {
    h.seqNo + SEQ29 * h.kind
  }

  lemma ServHdrRoundTrip(h: ServHdr, w: u32)
    ensures h.seqNo < SEQ29 && h.kind < 8 ==> DecodeServHdr(EncodeServHdr(h)) == h
    ensures EncodeServHdr(DecodeServHdr(w)) == w
  {
  }

  // ---------------------------------------------------------------------------
  // The receive gate (gloom_on_recv_packet)

  /** abs(i32) of include/gloom/math.h, whose result is a u32. */
  function AbsU32(v: i32): (r: u32)
    ensures r == if v < 0 then -(v as int) else v
  {
    if v > 0 then v else (-(v as int)) % U32_LIMIT
  }

  /** The sequence test: the 29-bit field is promoted to int, the
      difference with the u32 server counter is taken modulo 2^32 and passed
      to abs as an i32. */
  predicate InWindow(seqNo: nat, serverSeq: u32)
  {
    AbsU32(ToI32((seqNo - serverSeq) % U32_LIMIT)) < MAX_PACKET_DROP
  }

  /** What the gate does with a packet. */
  datatype Verdict = TooBig | TooShort | OutOfWindow | UnknownType | Deliver(kind: nat)

  /** The gate's verdict and the server sequence counter it leaves. */
  function Gate(len: u32, w: u32, serverSeq: u32): (r: (Verdict, u32))
  {
    var h := DecodeServHdr(w);
    if len > PKT_BUF_SIZE then (TooBig, serverSeq)
    else if len < SERV_HDR_SIZE then (TooShort, serverSeq)
    else if !InWindow(h.seqNo, serverSeq) then (OutOfWindow, serverSeq)
    else if h.kind >= SPKT_MAX then (UnknownType, h.seqNo + 1)
    else (Deliver(h.kind), h.seqNo + 1)
  }

  /** The window test is |seqNo - serverSeq| < 10 on the signed 32-bit
      difference. */
  lemma WindowIsSignedDistance(seqNo: nat, serverSeq: u32)
    requires seqNo < SEQ29
    ensures InWindow(seqNo, serverSeq) <==> -MAX_PACKET_DROP < ToI32((seqNo - serverSeq) % U32_LIMIT) < MAX_PACKET_DROP
  {
  }

  /** The gate checks the size bounds, then the sequence window, then the
      type; the counter moves to seqNo + 1 exactly when the window test passes,
      even for an unknown type, and a packet is delivered only when all
      three pass. */
  lemma GateOrder(len: u32, w: u32, serverSeq: u32)
    ensures var (v, s') := Gate(len, w, serverSeq); var h := DecodeServHdr(w);
      && (len > PKT_BUF_SIZE ==> v == TooBig)
      && (len <= PKT_BUF_SIZE && len < SERV_HDR_SIZE ==> v == TooShort)
      && (v.Deliver? || v == UnknownType <==>
            SERV_HDR_SIZE <= len <= PKT_BUF_SIZE && InWindow(h.seqNo, serverSeq))
      && (v.Deliver? || v == UnknownType ==> s' == h.seqNo + 1)
      && (!(v.Deliver? || v == UnknownType) ==> s' == serverSeq)
      && (v.Deliver? ==> v.kind == h.kind < SPKT_MAX)
  {
  }

  /** A jump backwards inside the window is accepted and moves the counter
      back; a forward jump of ten is refused. */
  lemma GateExamples()
    ensures Gate(4, 105, 100) == (Deliver(0), 106)
    ensures Gate(4, 95, 100) == (Deliver(0), 96)
    ensures Gate(4, 110, 100) == (OutOfWindow, 100)
    ensures Gate(4, 50, 100) == (OutOfWindow, 100)
  {
  }

  /** There is no wrap handling for the 29-bit field: once the counter has
      reached 2^29, the next sequence number 0 is refused. */
  lemma NoSeqWrap()
    ensures !InWindow(0, SEQ29)
  {
  }

  // ---------------------------------------------------------------------------
  // Server packet bodies

  /** struct sprite_desc read at `off`. */
  function DescAt(b: seq<u8>, off: nat): (d: Desc)
    requires off + 4 <= |b|
    ensures d.kind == b[off] && d.id == b[off + 1] && d.owner == b[off + 2] && d.field == b[off + 3]
  {
    Desc(b[off], b[off + 1], b[off + 2], b[off + 3])
  }

  /** struct sprite_transform read at `off`; `f32` gives the value of an
      IEEE-754 bit pattern. */
  function TransformAt(b: seq<u8>, off: nat, f32: u32 -> real): Transform
    requires off + 20 <= |b|
  {
    Transform(f32(LeU32(b, off)), Vec(f32(LeU32(b, off + 4)), f32(LeU32(b, off + 8))),
              Vec(f32(LeU32(b, off + 12)), f32(LeU32(b, off + 16))))
  }

  /** struct serv_pkt_hello's fixed part. */
  function HelloSprites(b: seq<u8>): u8 requires |b| >= HELLO_FIXED_SIZE { b[4] }
  function HelloPlayer(b: seq<u8>): u8 requires |b| >= HELLO_FIXED_SIZE { b[5] }
  function HelloW(b: seq<u8>): u32 requires |b| >= HELLO_FIXED_SIZE { LeU32(b, 6) }
  function HelloH(b: seq<u8>): u32 requires |b| >= HELLO_FIXED_SIZE { LeU32(b, 10) }

  /** (map_h * map_w + 7) >> 3 in u32 arithmetic: the bytes of bit-packed
      map data. */
  function MapBytes(w: u32, h: u32): (r: u32)
    ensures r < SEQ29
  {
    ((h * w % U32_LIMIT) + 7) % U32_LIMIT / 8
  }

  /** The hello length the handler requires. */
  function HelloLen(n: u8, w: u32, h: u32): u32
  {
    HELLO_FIXED_SIZE + MapBytes(w, h) + SPRITE_INIT_SIZE * n
  }

  /** For a map of the sizes the handler accepts, the map data is
      ceil(w*h/8) bytes: enough for one bit per tile, with fewer than 8 spare
      bits. */
  lemma MapBytesCover(w: u32, h: u32)
    requires w < 64 && h < 64
    ensures MapBytes(w, h) == (w * h + 7) / 8
    ensures w * h <= 8 * MapBytes(w, h) < w * h + 8
  {
    var x := h * w;
    assert x <= 63 * 63 by {
      MulLe(h, 63, w);
      MulLe(w, 63, 63);
      assert 63 * w == w * 63;
    }
    SmallMod(x);
    SmallMod(x + 7);
    assert MapBytes(w, h) == (x + 7) / 8;
    assert w * h == x;
    CeilDiv8(x);
  }

  lemma SmallMod(x: int)
    requires 0 <= x < U32_LIMIT
    ensures x % U32_LIMIT == x
  {
  }

  lemma CeilDiv8(x: nat)
    ensures x <= 8 * ((x + 7) / 8) < x + 8
  {
  }

  /** Bit j (0 = least significant) of a byte. */
  function Bit(b: u8, j: nat): (r: u8)
    requires j < 8
    ensures r < 2
  {
    if j == 0 then b % 2 else Bit(b / 2, j - 1)
  }

  /** The value hello stores in tile k: bit k mod 8 of map byte k / 8, the
      map bytes following the n sprite records. */
  function TileBit(b: seq<u8>, n: nat, k: nat): u8
    requires HELLO_FIXED_SIZE + SPRITE_INIT_SIZE * n + k / 8 < |b|
  {
    Bit(b[HELLO_FIXED_SIZE + SPRITE_INIT_SIZE * n + k / 8], k % 8)
  }

  /** The wait packet's word: seconds in the low 31 bits, the wait flag in
      the top bit. */
  function WaitSeconds(b: seq<u8>): nat requires |b| >= SERV_WAIT_SIZE { LeU32(b, 4) % BIT31 }
  function WaitFlag(b: seq<u8>): bool requires |b| >= SERV_WAIT_SIZE { LeU32(b, 4) >= BIT31 }

  // ---------------------------------------------------------------------------
  // Handler gating

  /** Whether the handler for `kind` acts on a packet of length len in state
      st, with the packet bytes b (|b| covers the length). */
  predicate Admits(kind: nat, st: MpState, b: seq<u8>, len: nat)
    requires len <= |b|
  {
    if kind == SPKT_HELLO then
      st == Joining && len >= HELLO_FIXED_SIZE
      && len == HelloLen(HelloSprites(b), HelloW(b), HelloH(b))
      && HelloW(b) < 64 && HelloH(b) < 64
    else if kind == SPKT_UPDATE then st == Updating && len == SERV_UPDATE_SIZE
    else if kind == SPKT_CREATE then (st == Waiting || st == Updating) && len == SERV_CREATE_SIZE
    else if kind == SPKT_DESTROY then (st == Waiting || st == Updating) && len == SERV_DESTROY_SIZE
    else if kind == SPKT_WAIT then st == Waiting && len == SERV_WAIT_SIZE
    else kind == SPKT_TERMINATE && len == SERV_TERMINATE_SIZE
  }

  /** The connection state after the handler for `kind` ran. */
  function NextState(kind: nat, st: MpState, b: seq<u8>, len: nat): (r: MpState)
    requires len <= |b|
    ensures !Admits(kind, st, b, len) ==> r == st
    ensures kind == SPKT_TERMINATE && len == SERV_TERMINATE_SIZE ==> r == Disconnected
    ensures kind == SPKT_HELLO ==> (r != st <==> Admits(kind, st, b, len))
  {
    if !Admits(kind, st, b, len) then st
    else if kind == SPKT_HELLO then Waiting
    else if kind == SPKT_WAIT then (if !WaitFlag(b) && WaitSeconds(b) == 0 then Updating else st)
    else if kind == SPKT_TERMINATE then Disconnected
    else st
  }

  /** Which handlers can move the connection state, and where to. */
  lemma Transitions(kind: nat, st: MpState, b: seq<u8>, len: nat)
    requires len <= |b|
    ensures var r := NextState(kind, st, b, len);
      && (r == Waiting && st != Waiting ==> kind == SPKT_HELLO && st == Joining)
      && (r == Updating && st != Updating ==>
            kind == SPKT_WAIT && st == Waiting && !WaitFlag(b) && WaitSeconds(b) == 0)
      && (kind == SPKT_WAIT && st == Waiting && len == SERV_WAIT_SIZE ==>
            (r == Updating <==> !WaitFlag(b) && WaitSeconds(b) == 0))
      && (r == Disconnected && st != Disconnected ==> kind == SPKT_TERMINATE)
      && (kind == SPKT_UPDATE || kind == SPKT_CREATE || kind == SPKT_DESTROY ==> r == st)
  {
  }

  // ---------------------------------------------------------------------------
  // Client packets

  /** enum game_pkt_type and the packet bodies. */
  datatype ClientBody = Ready(yes: bool) | Leave | Update(keys: u32, rot: real, ts: real) | Fire

  datatype ClientPkt = ClientPkt(seqNo: nat, token: u32, body: ClientBody)

  function KindOf(body: ClientBody): (r: nat)
    ensures r < 4
  {
    match body
    case Ready(_) => 0
    case Leave => 1
    case Update(_, _, _) => 2
    case Fire => 3
  }

  /** sizeof of each packed client packet. */
  function SizeOf(body: ClientBody): nat
  {
    match body
    case Ready(_) => 9
    case Leave => 8
    case Update(_, _, _) => 20
    case Fire => 8
  }

  /** struct game_pkt_hdr: seqNo in the low 30 bits, type in the top 2, then
      the token. */
  function EncodeHdr(seqNo: nat, kind: nat, token: u32): (r: seq<u8>)
    requires seqNo < SEQ30 && kind < 4
    ensures |r| == GAME_HDR_SIZE
  {
    LeBytes(seqNo + SEQ30 * kind) + LeBytes(token)
  }

  /** The bytes sent for a packet; `bits` gives the IEEE-754 pattern of an
      f32 value. */
  function Encode(p: ClientPkt, bits: real -> u32): (r: seq<u8>)
    requires p.seqNo < SEQ30
    ensures |r| == SizeOf(p.body)
  {
    EncodeHdr(p.seqNo, KindOf(p.body), p.token) +
    match p.body
    case Ready(yes) => [if yes then 1 else 0]
    case Leave => []
    case Update(keys, rot, ts) => LeBytes(keys) + LeBytes(bits(rot)) + LeBytes(bits(ts))
    case Fire => []
  }

  /** What a server reads back from a client header. */
  function DecodeHdr(b: seq<u8>): (nat, nat, u32)
    requires |b| >= GAME_HDR_SIZE
  {
    var w := LeU32(b, 0);
    (w % SEQ30, w / SEQ30, LeU32(b, 4))
  }

  /** Every client packet's header decodes to the sequence number, type and
      token it was built with. */
  lemma HeaderRoundTrip(p: ClientPkt, bits: real -> u32)
    requires p.seqNo < SEQ30
    ensures DecodeHdr(Encode(p, bits)) == (p.seqNo, KindOf(p.body), p.token)
  {
    var e := Encode(p, bits);
    var w := p.seqNo + SEQ30 * KindOf(p.body);
    LeRoundTrip(w);
    LeRoundTrip(p.token);
    assert e[..4] == LeBytes(w) && e[4..8] == LeBytes(p.token);
    assert LeU32(e, 0) == LeU32(LeBytes(w), 0);
    assert LeU32(e, 4) == LeU32(LeBytes(p.token), 0);
  }
}
