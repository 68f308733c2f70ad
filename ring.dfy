/** The input-log ring of src/game/multiplayer.c (g_iring): 128 slots of
    (timestamp, velocity) records written at `head` and read from `tail`.
    The C pointers are slot indices here; -1 stands for NULL. */
module InputRing {
  import opened Common

  const IRING_SIZE: int := 128

  /** struct input_log. */
  datatype InputLog = InputLog(ts: real, vel: Vec)

  /** The slot `j` places after slot `s`. */
  function Slot(s: int, j: int): (r: nat)
    requires 0 <= s < IRING_SIZE && 0 <= j <= IRING_SIZE
    ensures r < IRING_SIZE
  {
    if s + j < IRING_SIZE then s + j else s + j - IRING_SIZE
  }

  /** The number of entries from slot `t` up to (not including) slot `h`. */
  function Dist(t: int, h: int): (r: nat)
    requires 0 <= t < IRING_SIZE && 0 <= h < IRING_SIZE
    ensures r < IRING_SIZE
  {
    if t <= h then h - t else h - t + IRING_SIZE
  }

  /** The `c` entries of `a` starting at slot `s`, in ring order. */
  function Window(a: seq<InputLog>, s: nat, c: nat): (w: seq<InputLog>)
    requires |a| == IRING_SIZE && s < IRING_SIZE && c <= IRING_SIZE
    ensures |w| == c && forall j :: 0 <= j < c ==> w[j] == a[Slot(s, j)]
  {
    if c == 0 then [] else Window(a, s, c - 1) + [a[Slot(s, c - 1)]]
  }

  /** The bounded queue behaviour push promises: append, dropping the oldest
      entry once 127 entries are already pending. */
  function Appended(pending: seq<InputLog>, e: InputLog): seq<InputLog>
  {
    if |pending| >= IRING_SIZE - 1 then pending[1..] + [e] else pending + [e]
  }

  lemma SlotStep(s: int, j: int)
    requires 0 <= s < IRING_SIZE && 0 <= j < IRING_SIZE
    ensures Slot(Slot(s, 1), j) == Slot(s, j + 1)
  {
  }

  lemma SlotNext(s: int, j: int)
    requires 0 <= s < IRING_SIZE && 0 <= j < IRING_SIZE
    ensures Slot(Slot(s, j), 1) == Slot(s, j + 1)
  {
  }

  lemma SlotOfDist(t: nat, h: nat)
    requires t < IRING_SIZE && h < IRING_SIZE
    ensures Slot(t, Dist(t, h)) == h
    ensures forall j :: 0 <= j < Dist(t, h) ==> Slot(t, j) != h
  {
  }

  /** The pending window after storing at the head and advancing head (and,
      when they meet, tail) by one slot. */
  lemma PushWindow(a: seq<InputLog>, h: nat, t: nat, e: InputLog)
    requires |a| == IRING_SIZE && h < IRING_SIZE && t < IRING_SIZE
    ensures var h' := Slot(h, 1);
      var t' := if h' == t then Slot(t, 1) else t;
      Window(a[h := e], t', Dist(t', h')) == Appended(Window(a, t, Dist(t, h)), e)
  {
    SlotOfDist(t, h);
    if Slot(h, 1) == t {
      PushFull(a, h, t, e);
    } else {
      PushRoom(a, h, t, e);
    }
  }

  lemma DistStep(t: nat, h: nat)
    requires t < IRING_SIZE && h < IRING_SIZE && Slot(h, 1) != t
    ensures Dist(t, Slot(h, 1)) == Dist(t, h) + 1
  {
  }

  lemma PushRoom(a: seq<InputLog>, h: nat, t: nat, e: InputLog)
    requires |a| == IRING_SIZE && h < IRING_SIZE && t < IRING_SIZE && Slot(h, 1) != t
    ensures Window(a[h := e], t, Dist(t, Slot(h, 1))) == Window(a, t, Dist(t, h)) + [e]
  {
    var c := Dist(t, h);
    var p := Window(a, t, c);
    DistStep(t, h);
    SlotOfDist(t, h);
    var w := Window(a[h := e], t, c + 1);
    forall j | 0 <= j < c + 1
      ensures w[j] == (p + [e])[j]
    {
      if j < c {
        assert Slot(t, j) != h;
        assert w[j] == a[Slot(t, j)];
      } else {
        assert Slot(t, j) == h;
      }
    }
    assert w == p + [e];
  }

  lemma PushFull(a: seq<InputLog>, h: nat, t: nat, e: InputLog)
    requires |a| == IRING_SIZE && h < IRING_SIZE && t < IRING_SIZE && Slot(h, 1) == t
    ensures Window(a[h := e], Slot(t, 1), Dist(Slot(t, 1), t)) == Window(a, t, Dist(t, h))[1..] + [e]
  {
    var c := Dist(t, h);
    var p := Window(a, t, c);
    assert c == IRING_SIZE - 1 && Dist(Slot(t, 1), t) == c;
    SlotOfDist(t, h);
    forall j | 0 <= j < c
      ensures Window(a[h := e], Slot(t, 1), c)[j] == (p[1..] + [e])[j]
    {
      SlotStep(t, j);
    }
  }

  lemma DistAfter(t: nat, h: nat, j: nat)
    requires t < IRING_SIZE && h < IRING_SIZE && j <= Dist(t, h)
    ensures Dist(Slot(t, j), h) == Dist(t, h) - j
  {
    var d := if h >= t then h - t else h - t + IRING_SIZE;
    assert Dist(t, h) == d;
    if t + j < IRING_SIZE {
      assert Slot(t, j) == t + j;
    } else {
      assert Slot(t, j) == t + j - IRING_SIZE;
    }
  }

  /** Moving the read cursor back onto the slot just read puts that entry
      back in front of the window. */
  lemma WindowBack(a: seq<InputLog>, i: nat, h: nat)
    requires |a| == IRING_SIZE && i < IRING_SIZE && h < IRING_SIZE && i != h
    ensures Dist(i, h) == Dist(Slot(i, 1), h) + 1
    ensures Window(a, i, Dist(i, h)) == [a[i]] + Window(a, Slot(i, 1), Dist(Slot(i, 1), h))
  {
    WindowCons(a, i, Dist(i, h));
  }

  /** A non-empty window is its first slot followed by the window one slot on. */
  lemma {:induction false} WindowCons(a: seq<InputLog>, s: nat, n: nat)
    requires |a| == IRING_SIZE && s < IRING_SIZE && 1 <= n <= IRING_SIZE
    ensures Window(a, s, n) == [a[s]] + Window(a, Slot(s, 1), n - 1)
  {
    if n > 1 {
      WindowCons(a, s, n - 1);
      SlotStep(s, n - 2);
      assert Window(a, s, n) == [a[s]] + Window(a, Slot(s, 1), n - 2) + [a[Slot(s, n - 1)]];
    }
  }

  /** A read cursor c entries into the window from t: it meets the head
      exactly at the end, it sees entry c, and one step takes it to c + 1. */
  lemma Cursor(a: seq<InputLog>, t: nat, h: nat, c: nat)
    requires |a| == IRING_SIZE && t < IRING_SIZE && h < IRING_SIZE && c <= Dist(t, h)
    ensures Slot(t, c) == h <==> c == Dist(t, h)
    ensures c < Dist(t, h) ==> a[Slot(t, c)] == Window(a, t, Dist(t, h))[c]
    ensures Slot(Slot(t, c), 1) == Slot(t, c + 1)
  {
    DistAfter(t, h, c);
    SlotOfDist(t, h);
  }

  /** Starting the window j slots later drops its first j entries. */
  lemma WindowSuffix(a: seq<InputLog>, t: nat, h: nat, j: nat)
    requires |a| == IRING_SIZE && t < IRING_SIZE && h < IRING_SIZE && j <= Dist(t, h)
    ensures Dist(Slot(t, j), h) == Dist(t, h) - j
    ensures Window(a, Slot(t, j), Dist(t, h) - j) == Window(a, t, Dist(t, h))[j..]
  {
    DistAfter(t, h, j);
    var w := Window(a, t, Dist(t, h));
    forall i | 0 <= i < Dist(t, h) - j
      ensures Window(a, Slot(t, j), Dist(t, h) - j)[i] == w[j..][i]
    {
      assert Slot(Slot(t, j), i) == Slot(t, j + i);
    }
  }

  /** The number of leading entries at or before the server timestamp. */
  function Stale(p: seq<InputLog>, ts: real): (k: nat)
    ensures k <= |p|
  {
    if |p| == 0 || ts < p[0].ts then 0 else 1 + Stale(p[1..], ts)
  }

  /** The entries Stale counts are exactly the leading ones no newer than
      ts: all of them are, and the next one is newer. */
  lemma {:induction false} StaleSplits(p: seq<InputLog>, ts: real)
    ensures forall j :: 0 <= j < Stale(p, ts) ==> p[j].ts <= ts
    ensures Stale(p, ts) < |p| ==> ts < p[Stale(p, ts)].ts
  {
    if |p| > 0 && p[0].ts <= ts {
      StaleSplits(p[1..], ts);
      forall j | 0 <= j < Stale(p, ts)
        ensures p[j].ts <= ts
      {
        if j > 0 {
          assert p[j] == p[1..][j - 1];
        }
      }
    }
  }

  /** Stale is the only count whose entries are all old enough and whose
      next entry is newer. */
  lemma {:induction false} StaleUnique(p: seq<InputLog>, ts: real, k: nat)
    requires k <= |p| && forall j :: 0 <= j < k ==> p[j].ts <= ts
    requires k < |p| ==> ts < p[k].ts
    ensures Stale(p, ts) == k
    decreases k
  {
    if k > 0 {
      assert p[0].ts <= ts;
      forall j | 0 <= j < k - 1
        ensures p[1..][j].ts <= ts
      {
        assert p[1..][j] == p[j + 1];
      }
      StaleUnique(p[1..], ts, k - 1);
    }
  }

  /** The first n entries are no newer than ts. */
  ghost predicate Seen(p: seq<InputLog>, n: nat, ts: real)
    requires n <= |p|
  {
    forall j :: 0 <= j < n ==> p[j].ts <= ts
  }

  lemma SeenOneMore(p: seq<InputLog>, n: nat, ts: real)
    requires n < |p| && Seen(p, n, ts) && p[n].ts <= ts
    ensures Seen(p, n + 1, ts)
  {
  }

  /** Giving back the last consumed entry. */
  lemma Unconsume(p: seq<InputLog>, c: nat)
    requires 1 <= c <= |p|
    ensures p[c - 1..] == [p[c - 1]] + p[c..]
  {
  }

  class Ring {
    const buf: array<InputLog>
    var head: int
    var tail: int

    ghost predicate Valid()
      reads this
    {
      buf.Length == IRING_SIZE && 0 <= head < IRING_SIZE && 0 <= tail < IRING_SIZE
    }

    /** The entries pushed and not yet consumed, oldest first. */
    ghost function Pending(): (p: seq<InputLog>)
      reads this, buf
      requires Valid()
      ensures |p| < IRING_SIZE
    {
      Window(buf[..], tail, Dist(tail, head))
    }

    /** The static buffer after iring_init: head and tail at slot 0. */
    constructor (filler: InputLog)
      ensures Valid() && head == 0 && tail == 0 && Pending() == [] && fresh(buf)
    {
      buf := new InputLog[IRING_SIZE](_ => filler);
      head := 0;
      tail := 0;
    }

    /** iring_init. */
    method Reset()
      requires Valid()
      modifies this
      ensures Valid() && head == 0 && tail == 0 && Pending() == []
    {
      head := 0;
      tail := 0;
    }

    /** iring_push_elem with the tail advance wrapped like the head's
        (see PushAsWritten for the code as written). */
    method Push(e: InputLog)
      requires Valid()
      modifies this, buf
      ensures Valid() && Pending() == Appended(old(Pending()), e)
      ensures head == Slot(old(head), 1)
    {
      PushWindow(buf[..], head, tail, e);
      buf[head] := e;
      head := Slot(head, 1);
      if head == tail {
        tail := Slot(tail, 1);
      }
    }

    /** iring_get_next: -1 when nothing is pending; otherwise the oldest
        pending slot, which is consumed. */
    method GetNext() returns (r: int)
      requires Valid()
      modifies this
      ensures Valid() && head == old(head)
      ensures r == -1 <==> old(Pending()) == []
      ensures r == -1 <==> old(tail) == head
      ensures r != -1 ==> r == old(tail) && tail == Slot(r, 1) && buf[r] == old(Pending())[0]
                          && Pending() == old(Pending())[1..]
      ensures r == -1 ==> tail == old(tail)
    {
      if tail == head {
        return -1;
      }
      ghost var p := Pending();
      r := tail;
      tail := Slot(tail, 1);
      assert Dist(tail, head) == |p| - 1;
      forall j | 0 <= j < |p| - 1
        ensures Pending()[j] == p[1..][j]
      {
        SlotStep(r, j);
      }
    }

    /** iring_set_tail: move the read cursor to a slot inside the buffer,
        ignore anything else. */
    method SetTail(p: int)
      requires Valid()
      modifies this
      ensures Valid() && head == old(head)
      ensures tail == if 0 <= p < IRING_SIZE then p else old(tail)
    {
      if 0 <= p < IRING_SIZE {
        tail := p;
      }
    }

    /** The first loop of reconcile (src/game/multiplayer.c): consume
        entries up to the server's timestamp; the first newer entry is
        consumed too, so the cursor is set back onto it. Returns that
        entry's slot, or -1. */
    method DropStale(ts: real) returns (i: int)
      requires Valid()
      modifies this
      ensures Valid() && head == old(head)
      ensures Pending() == old(Pending())[Stale(old(Pending()), ts)..]
      ensures i == -1 <==> Pending() == []
      ensures i != -1 ==> i == tail
    {
      ghost var P := Pending();
      ghost var c;
      i, c := SkipSeen(ts);
      StaleUnique(P, ts, if i == -1 then c else c - 1);
      if i != -1 {
        Rewind(i);
        Unconsume(P, c);
      }
    }

    /** iring_set_tail onto the slot just read: that entry is pending again. */
    method Rewind(i: int)
      requires Valid() && 0 <= i < IRING_SIZE && i != head && tail == Slot(i, 1)
      modifies this
      ensures Valid() && head == old(head) && tail == i
      ensures Pending() == [buf[i]] + old(Pending())
    {
      WindowBack(buf[..], i, head);
      SetTail(i);
    }

    /** The consuming loop itself: c entries are consumed; when it stops at
        slot i, the entry there is the first newer than ts. */
    method SkipSeen(ts: real) returns (i: int, ghost c: nat)
      requires Valid()
      modifies this
      ensures Valid() && head == old(head) && c <= |old(Pending())|
      ensures Pending() == old(Pending())[c..]
      ensures i == -1 ==> c == |old(Pending())|
      ensures i != -1 ==> 1 <= c && 0 <= i < IRING_SIZE && i != head && tail == Slot(i, 1)
                          && buf[i] == old(Pending())[c - 1] && ts < buf[i].ts
      ensures Seen(old(Pending()), if i == -1 then c else c - 1, ts)
    {
      ghost var P := Pending();
      i := GetNext();
      c := if i == -1 then 0 else 1;
      while i != -1
        invariant Valid() && head == old(head) && 0 <= c <= |P|
        invariant Pending() == P[c..]
        invariant i == -1 ==> c == |P|
        invariant i != -1 ==> 1 <= c && 0 <= i < IRING_SIZE && i != head && tail == Slot(i, 1)
                              && buf[i] == P[c - 1]
        invariant c >= 1 ==> Seen(P, c - 1, ts)
        invariant i == -1 ==> Seen(P, c, ts)
        decreases |P| - c + (if i == -1 then 0 else 1)
      {
        if ts < buf[i].ts {
          return;
        }
        SeenOneMore(P, c - 1, ts);
        if c < |P| {
          assert P[c..][1..] == P[c + 1..];
        }
        i := GetNext();
        if i != -1 {
          c := c + 1;
        }
      }
    }

    /** iring_get_after: the slot after p, or -1 when that is the head. */
    function After(p: int): int
      reads this
      requires Valid() && 0 <= p < IRING_SIZE
    {
      if Slot(p, 1) == head then -1 else Slot(p, 1)
    }

    /** Walking with After from the tail visits exactly the pending slots,
        in order, and then stops. */
    lemma AfterWalksPending(j: nat)
      requires Valid() && j < |Pending()|
      ensures j + 1 < |Pending()| ==> After(Slot(tail, j)) == Slot(tail, j + 1)
      ensures j + 1 == |Pending()| ==> After(Slot(tail, j)) == -1
    {
      SlotStep(Slot(tail, j), 0);
      SlotOfDist(tail, head);
      assert Slot(Slot(tail, j), 1) == Slot(tail, j + 1);
    }
  }

  // ---------------------------------------------------------------------------
  // The tail defect of iring_push_elem

  /** The (head, tail) update of iring_push_elem as written: the head wraps
      at the end of the buffer, the tail advance does not. */
  function PushAsWritten(head: nat, tail: nat): (nat, nat)
  {
    var h := if head + 1 >= IRING_SIZE then 0 else head + 1;
    (h, if h == tail then tail + 1 else tail)
  }

  /** `k` pushes in a row from (head, tail). */
  function PushesAsWritten(head: nat, tail: nat, k: nat): (nat, nat)
    decreases k
  {
    if k == 0 then (head, tail)
    else var (h, t) := PushAsWritten(head, tail); PushesAsWritten(h, t, k - 1)
  }

  /** With one slot free before the tail at slot 127, a push moves the tail
      to 128, one past the last slot. */
  lemma TailLeavesBuffer()
    ensures PushAsWritten(126, 127) == (127, 128)
  {
  }

  /** The first 127 pushes from an empty ring move only the head. */
  lemma {:induction false} FillFromEmpty(k: nat)
    requires k < IRING_SIZE
    ensures PushesAsWritten(0, 0, k) == (k, 0)
  {
    if k > 0 {
      FillFromEmpty(k - 1);
      PushesAfter(0, 0, k - 1);
    }
  }

  /** Splitting a run of pushes into its last push and the ones before. */
  lemma {:induction false} PushesAfter(head: nat, tail: nat, k: nat)
    ensures var (h, t) := PushesAsWritten(head, tail, k);
      PushesAsWritten(head, tail, k + 1) == PushAsWritten(h, t)
    decreases k
  {
    if k > 0 {
      var (h1, t1) := PushAsWritten(head, tail);
      PushesAfter(h1, t1, k - 1);
    }
  }

  /** Once the ring is full, every push moves head and tail together, so
      the tail reaches slot 128 after 255 pushes from an empty ring; the
      next iring_get_next then reads the record one past the buffer. */
  lemma {:induction false} TailReaches128(j: nat)
    requires j < IRING_SIZE
    ensures PushesAsWritten(0, 0, IRING_SIZE + j) == (j, j + 1)
  {
    if j == 0 {
      FillFromEmpty(IRING_SIZE - 1);
      PushesAfter(0, 0, IRING_SIZE - 1);
    } else {
      TailReaches128(j - 1);
      PushesAfter(0, 0, IRING_SIZE + j - 1);
    }
  }

  lemma TailOutOfRange()
    ensures PushesAsWritten(0, 0, 255).1 == IRING_SIZE
  {
    TailReaches128(IRING_SIZE - 1);
  }
}
