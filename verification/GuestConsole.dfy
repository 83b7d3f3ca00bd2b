/** The crash handler's view of the guest console: a ring of the last 64 KiB, a rolling tail of the last
    64 bytes, and the search of that tail for kernel panic markers after every write. */
module GuestConsole {
  import opened Options
  import opened Sequences

  const RING_SIZE: nat := 65536
  const TAIL_LEN: nat := 64

  const PANIC_MARKERS: seq<string> := [
    "Kernel panic - not syncing",
    "end Kernel panic",
    "BUG: unable to handle",
    "Oops: ",
    "general protection fault:",
    "Call Trace:"
  ]

  predicate OccursAt(marker: string, s: string, i: nat) {
    i + |marker| <= |s| && s[i..i + |marker|] == marker
  }

  predicate Occurs(marker: string, s: string) {
    exists i: nat | i <= |s| :: OccursAt(marker, s, i)
  }

  predicate Panics(s: string) {
    exists k | 0 <= k < |PANIC_MARKERS| :: Occurs(PANIC_MARKERS[k], s)
  }

  // ---- what recording a write does, on values

  /** Everything the guest has written, and whether a panic has been dumped. */
  datatype Console = Console(stream: string, dumped: bool)

  function Snapshot(stream: string): string {
    LastN(stream, RING_SIZE)
  }

  function Recorded(c: Console, data: string): (Console, Option<string>) {
    if data == "" then (c, None)
    else
      var stream := c.stream + data;
      if !c.dumped && Panics(LastN(stream, TAIL_LEN)) then (Console(stream, true), Some(Snapshot(stream)))
      else (Console(stream, c.dumped), None)
  }

  // ---- the ring itself

  class GuestRing {
    const buf: array<char>
    var head: nat
    var filled: nat
    const tail: array<char>
    var tailLen: nat
    var panicDumped: bool

    /** Byte `i` of the stream, if still kept, is at position `i % RING_SIZE`. */
    ghost predicate RingHolds(stream: string)
      reads this, buf
    {
      && buf.Length == RING_SIZE
      && head == |stream| % RING_SIZE
      && filled == (if |stream| < RING_SIZE then |stream| else RING_SIZE)
      && forall i | |stream| - filled <= i < |stream| :: buf[i % RING_SIZE] == stream[i]
    }

    ghost predicate TailHolds(stream: string)
      reads this, tail
    {
      tail.Length == TAIL_LEN && tailLen <= TAIL_LEN && tail[..tailLen] == LastN(stream, TAIL_LEN)
    }

    ghost predicate Holds(c: Console)
      reads this, buf, tail
    {
      buf != tail && RingHolds(c.stream) && TailHolds(c.stream) && panicDumped == c.dumped
    }

    constructor ()
      ensures Holds(Console("", false)) && fresh(buf) && fresh(tail)
    {
      buf, head, filled := new char[RING_SIZE], 0, 0;
      tail, tailLen := new char[TAIL_LEN], 0;
      panicDumped := false;
    }

    method PushByte(c: char, ghost stream: string)
      requires RingHolds(stream)
      modifies `head, `filled, buf
      ensures RingHolds(stream + [c])
    {
      buf[head] := c;
      head := (head + 1) % RING_SIZE;
      if filled < RING_SIZE { filled := filled + 1; }
      NextSlot(|stream|);
      forall i | |stream| + 1 - filled <= i < |stream| + 1
        ensures buf[i % RING_SIZE] == (stream + [c])[i]
      {
        if i < |stream| { OtherSlot(i, |stream|); }
      }
    }

    method Append(data: string, ghost stream: string)
      requires RingHolds(stream)
      modifies `head, `filled, buf
      ensures RingHolds(stream + data)
    {
      assert stream + data[..0] == stream;
      for i := 0 to |data|
        invariant RingHolds(stream + data[..i])
      {
        assert stream + data[..i] + [data[i]] == stream + data[..i + 1];
        PushByte(data[i], stream + data[..i]);
      }
      assert data[..|data|] == data;
    }

    /** `memmove` of the kept part to the front of the tail. */
    method DropFromTail(drop: nat)
      requires tail.Length == TAIL_LEN && drop <= tailLen <= TAIL_LEN
      modifies `tailLen, tail
      ensures tailLen == old(tailLen) - drop && tail[..tailLen] == old(tail[drop..tailLen])
    {
      forall i | 0 <= i < tailLen - drop { tail[i] := tail[i + drop]; }
      tailLen := tailLen - drop;
    }

    /** `memcpy` of the data behind the kept part. */
    method AddToTail(data: string)
      requires tail.Length == TAIL_LEN && tailLen + |data| <= TAIL_LEN
      modifies `tailLen, tail
      ensures tailLen == old(tailLen) + |data| && tail[..tailLen] == old(tail[..tailLen]) + data
    {
      forall i | 0 <= i < |data| { tail[tailLen + i] := data[i]; }
      tailLen := tailLen + |data|;
    }

    method UpdateTail(data: string, ghost stream: string)
      requires TailHolds(stream) && data != ""
      modifies `tailLen, tail
      ensures TailHolds(stream + data)
    {
      var take := if |data| < TAIL_LEN then |data| else TAIL_LEN;
      if take < |data| {
        LastNOfAppend(stream, data, TAIL_LEN);
        tailLen := 0;
        assert tail[..0] == "";
        AddToTail(data[|data| - take..]);
      } else {
        GrowTail(data, stream);
      }
    }

    /** A write that fits the tail: what no longer fits is dropped first. */
    method GrowTail(data: string, ghost stream: string)
      requires TailHolds(stream) && |data| <= TAIL_LEN
      modifies `tailLen, tail
      ensures TailHolds(stream + data)
    {
      hide LastN;
      ghost var kept := tail[..tailLen];
      LastNGrows(stream, data, TAIL_LEN);
      if tailLen + |data| > TAIL_LEN {
        var drop := tailLen + |data| - TAIL_LEN;
        assert tail[drop..tailLen] == kept[drop..];
        DropFromTail(drop);
      }
      AddToTail(data);
    }

    method TailMatchesPanic(ghost stream: string) returns (found: bool)
      requires TailHolds(stream)
      ensures found == Panics(LastN(stream, TAIL_LEN))
    {
      ghost var text := tail[..tailLen];
      for k := 0 to |PANIC_MARKERS|
        invariant forall j | 0 <= j < k :: !Occurs(PANIC_MARKERS[j], text)
      {
        var here := TailContains(PANIC_MARKERS[k]);
        if here { return true; }
      }
      return false;
    }

    method TailContains(marker: string) returns (found: bool)
      requires tailLen <= tail.Length
      ensures found == Occurs(marker, tail[..tailLen])
    {
      ghost var text := tail[..tailLen];
      var i := 0;
      while i + |marker| <= tailLen
        invariant forall j | 0 <= j < i :: !OccursAt(marker, text, j)
      {
        assert tail[i..i + |marker|] == text[i..i + |marker|];
        if tail[i..i + |marker|] == marker {
          assert OccursAt(marker, text, i);
          return true;
        }
        i := i + 1;
      }
      return false;
    }

    method SnapshotLocked(ghost stream: string) returns (out: string)
      requires RingHolds(stream)
      ensures out == Snapshot(stream)
    {
      if filled == RING_SIZE {
        out := buf[head..] + buf[..head];
        forall j | 0 <= j < RING_SIZE
          ensures out[j] == stream[|stream| - RING_SIZE + j]
        {
          UnrolledSlot(|stream|, j);
        }
      } else {
        out := buf[..filled];
        assert forall j | 0 <= j < |stream| :: j % RING_SIZE == j;
      }
    }

    method RecordGuestConsole(data: string, ghost c: Console) returns (dump: Option<string>)
      requires Holds(c)
      modifies this, buf, tail
      ensures Holds(Recorded(c, data).0) && dump == Recorded(c, data).1
    {
      if data == "" { return None; }
      Append(data, c.stream);
      UpdateTail(data, c.stream);
      if !panicDumped {
        var hit := TailMatchesPanic(c.stream + data);
        if hit {
          panicDumped := true;
          var snap := SnapshotLocked(c.stream + data);
          return Some(snap);
        }
      }
      return None;
    }
  }

  lemma NextSlot(n: nat)
    ensures (n % RING_SIZE + 1) % RING_SIZE == (n + 1) % RING_SIZE
  {
  }

  lemma OtherSlot(i: nat, n: nat)
    requires i < n < i + RING_SIZE
    ensures i % RING_SIZE != n % RING_SIZE
  {
  }

  lemma UnrolledSlot(n: nat, j: nat)
    requires n >= RING_SIZE && j < RING_SIZE
    ensures var head := n % RING_SIZE;
            (n - RING_SIZE + j) % RING_SIZE == if j < RING_SIZE - head then head + j else j - (RING_SIZE - head)
  {
  }

  lemma LastNGrows<T>(s: seq<T>, t: seq<T>, n: nat)
    requires |t| <= n
    ensures var kept := LastN(s, n);
            LastN(s + t, n) == (if |kept| + |t| > n then kept[|kept| + |t| - n..] else kept) + t
  {
  }

  // ---- every run of writes

  function Run(writes: seq<string>): (r: (Console, seq<string>))
    ensures r.0.stream == Concat(writes)
  {
    if writes == [] then (Console("", false), [])
    else
      var (c, dumps) := Run(writes[..|writes| - 1]);
      var (c', dump) := Recorded(c, writes[|writes| - 1]);
      assert c.stream + "" == c.stream;
      (c', if dump.Some? then dumps + [dump.value] else dumps)
  }

  function Concat(writes: seq<string>): string {
    if writes == [] then "" else Concat(writes[..|writes| - 1]) + writes[|writes| - 1]
  }

  lemma OccursInLast(marker: string, s: string, n: nat, i: nat)
    requires OccursAt(marker, s, i) && i + n >= |s|
    ensures Occurs(marker, LastN(s, n))
  {
    var j := if |s| <= n then i else i - (|s| - n);
    var t := LastN(s, n);
    assert t[j..j + |marker|] == s[i..i + |marker|];
    assert OccursAt(marker, t, j);
  }

  lemma OccursInWhole(marker: string, s: string, m: nat, n: nat)
    requires n <= m && Occurs(marker, LastN(s, n))
    ensures Occurs(marker, LastN(s, m))
  {
    var t, u := LastN(s, n), LastN(s, m);
    var i: nat :| i <= |t| && OccursAt(marker, t, i);
    var d := |u| - |t|;
    LastNTwice(s, m, n);
    assert t == u[d..];
    OccursLater(marker, u, d, i);
  }

  lemma OccursLater(marker: string, u: string, d: nat, i: nat)
    requires d <= |u| && OccursAt(marker, u[d..], i)
    ensures Occurs(marker, u)
  {
    assert u[d..][i..i + |marker|] == u[d + i..d + i + |marker|];
    assert OccursAt(marker, u, d + i);
  }

  lemma OccursInPrefix(marker: string, a: string, b: string)
    requires Occurs(marker, a)
    ensures Occurs(marker, a + b)
  {
    var i: nat :| i <= |a| && OccursAt(marker, a, i);
    assert (a + b)[i..i + |marker|] == a[i..i + |marker|];
    assert OccursAt(marker, a + b, i);
  }

  /** Some marker is in both texts. */
  predicate ShareMarker(a: string, b: string) {
    exists k | 0 <= k < |PANIC_MARKERS| :: Occurs(PANIC_MARKERS[k], a) && Occurs(PANIC_MARKERS[k], b)
  }

  lemma ShareMarkerExtends(a: string, b: string, c: string)
    requires ShareMarker(a, b)
    ensures ShareMarker(a, b + c)
  {
    var k :| 0 <= k < |PANIC_MARKERS| && Occurs(PANIC_MARKERS[k], a) && Occurs(PANIC_MARKERS[k], b);
    OccursInPrefix(PANIC_MARKERS[k], b, c);
  }

  lemma TailMarkerShared(stream: string)
    requires Panics(LastN(stream, TAIL_LEN))
    ensures ShareMarker(Snapshot(stream), stream)
  {
    var k :| 0 <= k < |PANIC_MARKERS| && Occurs(PANIC_MARKERS[k], LastN(stream, TAIL_LEN));
    OccursInWhole(PANIC_MARKERS[k], stream, RING_SIZE, TAIL_LEN);
    OccursInWhole(PANIC_MARKERS[k], stream, if |stream| < TAIL_LEN then TAIL_LEN else |stream|, TAIL_LEN);
  }

  /** There is one dump if the flag went up and none otherwise, and it contains a marker of the stream. */
  lemma {:induction false} DumpSound(writes: seq<string>)
    ensures var (c, dumps) := Run(writes);
            |dumps| == (if c.dumped then 1 else 0) && (c.dumped ==> ShareMarker(dumps[0], Concat(writes)))
  {
    if writes != [] {
      var before, data := writes[..|writes| - 1], writes[|writes| - 1];
      DumpSound(before);
      var (c, dumps) := Run(before);
      if c.dumped {
        ShareMarkerExtends(dumps[0], Concat(before), data);
      } else if data != "" && Panics(LastN(c.stream + data, TAIL_LEN)) {
        TailMarkerShared(c.stream + data);
      }
    }
  }

  /** If every write has at most `65 - |marker|` bytes, a marker anywhere in the stream is dumped, even when
      it straddles writes. */
  lemma {:induction false} DumpComplete(writes: seq<string>, k: nat, i: nat)
    requires k < |PANIC_MARKERS| && OccursAt(PANIC_MARKERS[k], Concat(writes), i)
    requires forall j | 0 <= j < |writes| :: |writes[j]| <= TAIL_LEN + 1 - |PANIC_MARKERS[k]|
    ensures Run(writes).0.dumped
  {
    MarkersShort(k);
    if writes != [] {
      var marker := PANIC_MARKERS[k];
      var before, data := writes[..|writes| - 1], writes[|writes| - 1];
      var stream := Concat(writes);
      if i + |marker| <= |Concat(before)| {
        assert Concat(before)[i..i + |marker|] == stream[i..i + |marker|];
        DumpComplete(before, k, i);
      } else {
        OccursInLast(marker, stream, TAIL_LEN, i);
      }
    }
  }

  lemma MarkersShort(k: nat)
    requires k < |PANIC_MARKERS|
    ensures 0 < |PANIC_MARKERS[k]| <= 26
  {
  }

  /** Writes of this size are always caught. */
  ghost predicate AlwaysCaught(size: nat) {
    forall writes: seq<string>, k: nat |
      k < |PANIC_MARKERS| && Occurs(PANIC_MARKERS[k], Concat(writes)) && (forall w | w in writes :: |w| <= size) ::
      Run(writes).0.dumped
  }

  lemma AbsentChar(marker: string, s: string, c: char)
    requires c in marker && c !in s
    ensures !Occurs(marker, s)
  {
    forall i: nat | i <= |s|
      ensures !OccursAt(marker, s, i)
    {
      if i + |marker| <= |s| {
        var j :| 0 <= j < |marker| && marker[j] == c;
        assert s[i..i + |marker|][j] == s[i + j];
      }
    }
  }

  const SPLIT_MARKER := "Kernel panic - not syncin"
  const SPLIT_TAIL := "ernel panic - not syncing"
  const FILLER: string := seq(39, i => '.')

  /** A letter of the marker's beginning. */
  predicate InBeginning(c: char) {
    c in "Kernel pasotyci-"
  }

  lemma BeginningChars(c: char)
    requires c in "dBO:C"
    ensures c !in SPLIT_MARKER
  {
    assert forall i | 0 <= i < |SPLIT_MARKER| :: InBeginning(SPLIT_MARKER[i]);
    assert !InBeginning(c);
  }

  lemma BeginningIsQuiet()
    ensures !Panics(SPLIT_MARKER)
  {
    MarkerChars();
    forall k | 0 <= k < |PANIC_MARKERS|
      ensures !Occurs(PANIC_MARKERS[k], SPLIT_MARKER)
    {
      if k > 0 {
        var c := "KdBO:C"[k];
        BeginningChars(c);
        AbsentChar(PANIC_MARKERS[k], SPLIT_MARKER, c);
      }
    }
  }

  lemma RemainderChars(c: char)
    requires c in "KBO:C"
    ensures c !in SPLIT_TAIL + FILLER
  {
    assert c !in SPLIT_TAIL;
    assert c !in FILLER;
  }

  lemma MarkerChars()
    ensures 'K' in PANIC_MARKERS[0] && 'K' in PANIC_MARKERS[1] && 'B' in PANIC_MARKERS[2]
    ensures 'd' in PANIC_MARKERS[1]
    ensures 'O' in PANIC_MARKERS[3] && ':' in PANIC_MARKERS[4] && 'C' in PANIC_MARKERS[5]
  {
    assert PANIC_MARKERS[0][0] == 'K' && PANIC_MARKERS[1][4] == 'K' && PANIC_MARKERS[2][0] == 'B';
    assert PANIC_MARKERS[1][2] == 'd';
    assert PANIC_MARKERS[3][0] == 'O' && PANIC_MARKERS[4][24] == ':' && PANIC_MARKERS[5][0] == 'C';
  }

  lemma RemainderIsQuiet()
    ensures !Panics(SPLIT_TAIL + FILLER)
  {
    MarkerChars();
    var s := SPLIT_TAIL + FILLER;
    forall k | 0 <= k < |PANIC_MARKERS|
      ensures !Occurs(PANIC_MARKERS[k], s)
    {
      var c := "KKBO:C"[k];
      RemainderChars(c);
      AbsentChar(PANIC_MARKERS[k], s, c);
    }
  }

  lemma QuietWrite(writes: seq<string>, data: string)
    requires !Run(writes).0.dumped && !Panics(LastN(Concat(writes) + data, TAIL_LEN))
    ensures !Run(writes + [data]).0.dumped && Concat(writes + [data]) == Concat(writes) + data
  {
    assert (writes + [data])[..|writes|] == writes;
  }

  /** The longest marker in two writes of at most 40 bytes, missed. */
  lemma MissedMarker() returns (writes: seq<string>)
    ensures forall w | w in writes :: |w| <= 40
    ensures OccursAt(PANIC_MARKERS[0], Concat(writes), 0) && !Run(writes).0.dumped
  {
    var second := ['g'] + FILLER;
    BeginningIsQuiet();
    assert "" + SPLIT_MARKER == SPLIT_MARKER;
    QuietWrite([], SPLIT_MARKER);
    var stream := SPLIT_MARKER + second;
    assert LastN(stream, TAIL_LEN) == SPLIT_TAIL + FILLER by { StraddlingTail(stream); }
    RemainderIsQuiet();
    assert [] + [SPLIT_MARKER] == [SPLIT_MARKER];
    QuietWrite([SPLIT_MARKER], second);
    writes := [SPLIT_MARKER] + [second];
    StraddlingTail(stream);
  }

  lemma StraddlingTail(stream: string)
    requires stream == SPLIT_MARKER + (['g'] + FILLER)
    ensures LastN(stream, TAIL_LEN) == SPLIT_TAIL + FILLER
    ensures OccursAt(PANIC_MARKERS[0], stream, 0)
  {
    assert SPLIT_MARKER + ['g'] == PANIC_MARKERS[0];
    assert SPLIT_MARKER[1..] + ['g'] == SPLIT_TAIL;
    assert stream == PANIC_MARKERS[0] + FILLER;
    assert stream[1..] == SPLIT_TAIL + FILLER;
  }

  lemma SmallWritesCaught(size: nat)
    requires size <= 39
    ensures AlwaysCaught(size)
  {
    forall writes: seq<string>, k: nat |
      k < |PANIC_MARKERS| && Occurs(PANIC_MARKERS[k], Concat(writes)) && (forall w | w in writes :: |w| <= size)
      ensures Run(writes).0.dumped
    {
      MarkersShort(k);
      var i: nat :| i <= |Concat(writes)| && OccursAt(PANIC_MARKERS[k], Concat(writes), i);
      DumpComplete(writes, k, i);
    }
  }

  /** 39 bytes is the exact bound: in writes of 40 the longest marker can straddle two writes and have left
      the tail by the end of the second. */
  lemma CaughtUpTo39(size: nat)
    ensures AlwaysCaught(size) <==> size <= 39
  {
    if size <= 39 {
      SmallWritesCaught(size);
    } else {
      var writes := MissedMarker();
      assert Occurs(PANIC_MARKERS[0], Concat(writes));
    }
  }

  /** The first write after which a marker stands in the last 64 bytes. */
  function FirstPanic(writes: seq<string>): (k: Option<nat>)
    ensures k.Some? ==> k.value < |writes|
  {
    if writes == [] then None
    else if FirstPanic(writes[..|writes| - 1]).Some? then FirstPanic(writes[..|writes| - 1])
    else if writes[|writes| - 1] != "" && Panics(LastN(Concat(writes), TAIL_LEN)) then Some(|writes| - 1)
    else None
  }

  /** The dump of a run, if there is one, is the last 65536 bytes written up to that moment. */
  lemma {:induction false} DumpIs(writes: seq<string>)
    ensures var (c, dumps) := Run(writes);
            match FirstPanic(writes)
            case None => !c.dumped && dumps == []
            case Some(k) => c.dumped && dumps == [LastN(Concat(writes[..k + 1]), 65536)]
  {
    hide Panics, LastN;
    if writes != [] {
      var before := writes[..|writes| - 1];
      DumpIs(before);
      if FirstPanic(before).Some? {
        var k := FirstPanic(before).value;
        assert before[..k + 1] == writes[..k + 1];
      } else {
        assert writes[..|writes|] == writes;
      }
    }
  }
}
