/** Conversion of an H.264 byte stream with start codes (Annex B) to length-prefixed NAL units. */
module AnnexB {
  import opened Bytes
  import opened Options
  import opened Sequences

  const MAX_UNIT: nat := 0xffff_ffff

  /** Length of the start code at the front of the text: 3, 4, or 0 for none. */
  function CodeLength(s: seq<byte>): (n: nat)
    ensures n <= |s|
  {
    if |s| >= 3 && s[0] == 0 && s[1] == 0 && s[2] == 1 then 3
    else if |s| >= 4 && s[0] == 0 && s[1] == 0 && s[2] == 0 && s[3] == 1 then 4
    else 0
  }

  /** Position of the first start code, or the length of the text. */
  function FindCode(s: seq<byte>): (i: nat)
    ensures i <= |s| && (i < |s| ==> CodeLength(s[i..]) != 0)
  {
    if |s| < 3 then |s| else if CodeLength(s) != 0 then 0 else 1 + FindCode(s[1..])
  }

  function Trim(s: seq<byte>): (r: seq<byte>)
    ensures r <= s && (r != [] ==> r[|r| - 1] != 0)
  {
    if s != [] && s[|s| - 1] == 0 then Trim(s[..|s| - 1]) else s
  }

  /** The units of a stream that begins with a start code: what lies between start codes, without trailing
      zeros, empty units dropped. */
  function Units(s: seq<byte>): seq<seq<byte>>
    requires s == [] || CodeLength(s) != 0
    decreases |s|
  {
    if s == [] then []
    else
      var body := s[CodeLength(s)..];
      var unit := Trim(body[..FindCode(body)]);
      (if unit == [] then [] else [unit]) + Units(body[FindCode(body)..])
  }

  function Prefixed(units: seq<seq<byte>>): seq<byte>
    requires forall u | u in units :: |u| <= MAX_UNIT
  {
    if units == [] then []
    else BigEndian32(|units[0]|) + units[0] + Prefixed(units[1..])
  }

  /** Reading units back by their lengths. */
  function ParsePrefixed(s: seq<byte>): Option<seq<seq<byte>>>
    decreases |s|
  {
    if s == [] then Some([])
    else if |s| < 4 then None
    else
      var n := Read32(s[..4]);
      if 4 + n > |s| then None
      else
        var more :- ParsePrefixed(s[4 + n..]);
        Some([s[4..4 + n]] + more)
  }

  // ---- the conversion

  function StartCodeLength(data: seq<byte>, offset: nat): (n: nat)
    requires offset <= |data|
    ensures n == CodeLength(data[offset..])
  {
    if offset + 3 <= |data| && data[offset] == 0 && data[offset + 1] == 0 && data[offset + 2] == 1 then 3
    else if offset + 4 <= |data| && data[offset] == 0 && data[offset + 1] == 0 && data[offset + 2] == 0
            && data[offset + 3] == 1 then 4
    else 0
  }

  method FindStartCode(data: seq<byte>, offset: nat) returns (i: nat)
    requires offset <= |data|
    ensures i == offset + FindCode(data[offset..])
  {
    hide CodeLength, StartCodeLength;
    i := offset;
    while i + 3 <= |data|
      invariant offset <= i <= |data|
      invariant i + FindCode(data[i..]) == offset + FindCode(data[offset..])
    {
      if StartCodeLength(data, i) != 0 { return; }
      assert data[i..][1..] == data[i + 1..];
      i := i + 1;
    }
    i := |data|;
  }

  method TrimmedEnd(data: seq<byte>, start: nat, end: nat) returns (e: nat)
    requires start <= end <= |data|
    ensures start <= e <= end && data[start..e] == Trim(data[start..end])
  {
    e := end;
    while e > start && data[e - 1] == 0
      invariant start <= e <= end
      invariant Trim(data[start..e]) == Trim(data[start..end])
    {
      assert data[start..e][..e - start - 1] == data[start..e - 1];
      e := e - 1;
    }
  }

  /** The units of a whole stream. */
  function StreamUnits(s: seq<byte>): seq<seq<byte>> {
    Units(s[FindCode(s)..])
  }

  predicate Fits(units: seq<seq<byte>>) {
    forall u | u in units :: |u| <= MAX_UNIT
  }

  /** Succeeds exactly when there is a unit and none is too long; the output is then the units in order,
      each behind its 32-bit length. */
  method AnnexBToLengthPrefixed(input: seq<byte>) returns (output: Option<seq<byte>>)
    ensures output.Some? <==> StreamUnits(input) != [] && Fits(StreamUnits(input))
    ensures output.Some? ==> output.value == Prefixed(StreamUnits(input))
  {
    var out: seq<byte> := [];
    assert input[0..] == input;
    var start := FindStartCode(input, 0);
    ghost var goal := StreamUnits(input);
    ghost var done: seq<seq<byte>>, left := [], goal;
    while start < |input|
      invariant start <= |input| && (start < |input| ==> CodeLength(input[start..]) != 0)
      invariant left == Units(input[start..]) && done + left == goal
      invariant Fits(done) && out == Prefixed(done)
    {
      var unit, next := NextUnit(input, start);
      ghost var left' := Units(input[next..]);
      TakeUnit(done, unit, left', goal);
      if |unit| > MAX_UNIT { return None; }
      if |unit| > 0 {
        out := out + BigEndian32(|unit|) + unit;
        done := done + [unit];
      }
      left := left';
      start := next;
    }
    assert done + [] == done;
    if out == [] { return None; }
    return Some(out);
  }

  lemma TakeUnit(done: seq<seq<byte>>, unit: seq<byte>, left: seq<seq<byte>>, goal: seq<seq<byte>>)
    requires Fits(done) && done + ((if unit == [] then [] else [unit]) + left) == goal
    ensures |unit| > MAX_UNIT ==> !Fits(goal)
    ensures unit == [] ==> done + left == goal
    ensures 0 < |unit| <= MAX_UNIT ==>
              && Fits(done + [unit]) && (done + [unit]) + left == goal
              && Prefixed(done + [unit]) == Prefixed(done) + BigEndian32(|unit|) + unit
  {
    if unit == [] {
      assert [] + left == left;
    } else {
      assert done + ([unit] + left) == (done + [unit]) + left;
      assert goal[|done|] == unit;
      if |unit| <= MAX_UNIT { PrefixedSnoc(done, unit); }
    }
  }

  /** The unit behind the start code at `start` (perhaps empty) and the position of the next start code. */
  method NextUnit(input: seq<byte>, start: nat) returns (unit: seq<byte>, next: nat)
    requires start < |input| && CodeLength(input[start..]) != 0
    ensures start < next <= |input| && (next < |input| ==> CodeLength(input[next..]) != 0)
    ensures Units(input[start..]) == (if unit == [] then [] else [unit]) + Units(input[next..])
  {
    var naluStart := start + StartCodeLength(input, start);
    next := FindStartCode(input, naluStart);
    var naluEnd := TrimmedEnd(input, naluStart, next);
    unit := input[naluStart..naluEnd];
    UnitAt(input, start, naluStart, next);
  }

  lemma UnitAt(input: seq<byte>, start: nat, naluStart: nat, next: nat)
    requires start < |input| && CodeLength(input[start..]) != 0
    requires naluStart == start + CodeLength(input[start..]) <= |input|
    requires next == naluStart + FindCode(input[naluStart..])
    ensures naluStart <= next <= |input| && (next < |input| ==> CodeLength(input[next..]) != 0)
    ensures var unit := Trim(input[naluStart..next]);
            Units(input[start..]) == (if unit == [] then [] else [unit]) + Units(input[next..])
  {
    hide Units, Trim, FindCode, CodeLength;
    var s, body := input[start..], input[naluStart..];
    DropDrop(input, start, CodeLength(s));
    DropTake(input, naluStart, FindCode(body));
    DropDrop(input, naluStart, FindCode(body));
    UnitsStep(s, body, input[naluStart..next], input[next..]);
  }

  lemma UnitsStep(s: seq<byte>, body: seq<byte>, unit: seq<byte>, rest: seq<byte>)
    requires s != [] && CodeLength(s) != 0 && body == s[CodeLength(s)..]
    requires unit == body[..FindCode(body)] && rest == body[FindCode(body)..]
    ensures Units(s) == (if Trim(unit) == [] then [] else [Trim(unit)]) + Units(rest)
  {
  }

  lemma {:induction false} PrefixedSnoc(units: seq<seq<byte>>, unit: seq<byte>)
    requires Fits(units) && |unit| <= MAX_UNIT
    ensures Fits(units + [unit])
    ensures Prefixed(units + [unit]) == Prefixed(units) + BigEndian32(|unit|) + unit
  {
    hide BigEndian32;
    if units == [] {
      assert [] + [unit] == [unit] && [unit][1..] == [];
    } else {
      PrefixedSnoc(units[1..], unit);
      assert (units + [unit])[1..] == units[1..] + [unit];
      Regrouped(BigEndian32(|units[0]|) + units[0], Prefixed(units[1..]), BigEndian32(|unit|), unit);
    }
  }

  lemma Regrouped(a: seq<byte>, b: seq<byte>, c: seq<byte>, d: seq<byte>)
    ensures a + (b + c + d) == a + b + c + d
  {
  }

  // ---- reading back

  lemma {:induction false} ParseOfPrefixed(units: seq<seq<byte>>)
    requires Fits(units)
    ensures ParsePrefixed(Prefixed(units)) == Some(units)
  {
    if units != [] {
      var n, rest := |units[0]|, Prefixed(units[1..]);
      var s := BigEndian32(n) + units[0] + rest;
      assert Prefixed(units) == s;
      assert s[..4] == BigEndian32(n) && s[4..4 + n] == units[0] && s[4 + n..] == rest;
      assert [units[0]] + units[1..] == units;
      ParseOfPrefixed(units[1..]);
    }
  }

  /** Whatever the input, a successful output parses completely into non-empty units. */
  lemma OutputParses(input: seq<byte>)
    requires Fits(StreamUnits(input))
    ensures ParsePrefixed(Prefixed(StreamUnits(input))) == Some(StreamUnits(input))
    ensures forall u | u in StreamUnits(input) :: u != [] && u[|u| - 1] != 0
  {
    ParseOfPrefixed(StreamUnits(input));
    UnitsShape(input[FindCode(input)..]);
  }

  lemma {:induction false} UnitsShape(s: seq<byte>)
    requires s == [] || CodeLength(s) != 0
    ensures forall u | u in Units(s) :: u != [] && u[|u| - 1] != 0
    decreases |s|
  {
    hide Trim, FindCode;
    if s != [] {
      var body := s[CodeLength(s)..];
      UnitsShape(body[FindCode(body)..]);
      UnitsStep(s, body, body[..FindCode(body)], body[FindCode(body)..]);
    }
  }

  // ---- well-formed streams

  const START_CODE: seq<byte> := [0, 0, 1]

  /** A NAL unit as the standard has it: not empty, no start code inside, last byte not zero. */
  predicate WellFormedNal(u: seq<byte>) {
    && u != [] && u[|u| - 1] != 0
    && forall i | 0 <= i <= |u| - 3 :: !(u[i] == 0 && u[i + 1] == 0 && u[i + 2] == 1)
  }

  /** Units joined by start codes, each behind any number of extra zero bytes (one makes it a four-byte
      code), and trailing zeros. */
  function Joined(units: seq<seq<byte>>, gaps: seq<nat>, trailing: nat): seq<byte>
    requires |units| == |gaps|
  {
    if units == [] then Zeros(trailing)
    else Zeros(gaps[0]) + START_CODE + (units[0] + Joined(units[1..], gaps[1..], trailing))
  }

  lemma {:induction false} FindInZeros(n: nat)
    ensures FindCode(Zeros(n)) == n
  {
    if n >= 3 {
      FindInZeros(n - 1);
      assert Zeros(n)[1..] == Zeros(n - 1);
    }
  }

  /** A gap is skipped up to the last four bytes of zeros and one. */
  lemma FindAfterGap(gap: nat, rest: seq<byte>)
    ensures var s := Zeros(gap) + START_CODE + rest;
            var i := if gap == 0 then 0 else gap - 1;
            && FindCode(s) == i && s[..i] == Zeros(i)
            && CodeLength(s[i..]) == (if gap == 0 then 3 else 4)
            && s[i..][CodeLength(s[i..])..] == rest
  {
    hide Zeros, FindCode;
    var s := Zeros(gap) + START_CODE + rest;
    GapSkipped(gap, rest);
    if gap == 0 {
      assert s[0..] == s == START_CODE + rest;
    } else {
      assert s[gap - 1..] == [0] + START_CODE + rest;
      assert s[..gap - 1] == Zeros(gap - 1);
    }
  }

  lemma {:induction false} GapSkipped(gap: nat, rest: seq<byte>)
    ensures FindCode(Zeros(gap) + START_CODE + rest) == if gap == 0 then 0 else gap - 1
  {
    hide Zeros;
    var s := Zeros(gap) + START_CODE + rest;
    if gap >= 2 {
      GapSkipped(gap - 1, rest);
      assert s[1..] == Zeros(gap - 1) + START_CODE + rest;
    }
  }

  /** No start code begins inside a well-formed unit. */
  lemma {:induction false} FindAfterUnit(u: seq<byte>, rest: seq<byte>)
    requires u == [] || WellFormedNal(u)
    ensures FindCode(u + rest) == |u| + FindCode(rest)
  {
    if u == [] {
      assert u + rest == rest;
    } else {
      var s := u + rest;
      assert s[1..] == u[1..] + rest;
      assert |s| < 3 ==> FindCode(rest) == |rest|;
      FindAfterUnit(u[1..], rest);
    }
  }

  lemma {:induction false} TrimZeros(u: seq<byte>, n: nat)
    requires u != [] && u[|u| - 1] != 0
    ensures Trim(u + Zeros(n)) == u
  {
    if n == 0 {
      assert u + Zeros(n) == u;
    } else {
      ZerosSnoc(n - 1);
      assert (u + Zeros(n))[..|u| + n - 1] == u + Zeros(n - 1);
      TrimZeros(u, n - 1);
    }
  }

  lemma {:induction false} ZerosSnoc(n: nat)
    ensures Zeros(n + 1) == Zeros(n) + [0]
  {
    if n > 0 { ZerosSnoc(n - 1); }
  }

  /** The part of a joined stream before its first start code is zeros. */
  lemma JoinedStart(units: seq<seq<byte>>, gaps: seq<nat>, trailing: nat)
    requires |units| == |gaps|
    ensures var s := Joined(units, gaps, trailing); s[..FindCode(s)] == Zeros(FindCode(s))
  {
    if units == [] {
      FindInZeros(trailing);
    } else {
      FindAfterGap(gaps[0], units[0] + Joined(units[1..], gaps[1..], trailing));
    }
  }

  /** A start code, a well-formed unit, and zeros up to the next start code. */
  lemma UnitThenMore(s: seq<byte>, unit: seq<byte>, more: seq<byte>)
    requires CodeLength(s) != 0 && s[CodeLength(s)..] == unit + more
    requires WellFormedNal(unit) && more[..FindCode(more)] == Zeros(FindCode(more))
    ensures Units(s) == [unit] + Units(more[FindCode(more)..])
  {
    hide Zeros, FindCode, CodeLength, Trim, Units, WellFormedNal;
    var body, n := unit + more, FindCode(more);
    assert unit != [] && unit[|unit| - 1] != 0 by { LastByte(unit); }
    FindAfterUnit(unit, more);
    assert body[..|unit| + n] == unit + more[..n];
    assert body[|unit| + n..] == more[n..];
    TrimZeros(unit, n);
    UnitsStep(s, body, unit + Zeros(n), more[n..]);
  }

  lemma LastByte(u: seq<byte>)
    requires WellFormedNal(u)
    ensures u != [] && u[|u| - 1] != 0
  {
  }

  /** Every list of well-formed units is recovered from any stream that joins them. */
  lemma {:induction false} UnitsOfJoined(units: seq<seq<byte>>, gaps: seq<nat>, trailing: nat)
    requires |units| == |gaps| && forall u | u in units :: WellFormedNal(u)
    ensures StreamUnits(Joined(units, gaps, trailing)) == units
  {
    hide WellFormedNal, CodeLength, FindCode, Zeros, Units;
    var s := Joined(units, gaps, trailing);
    if units == [] {
      FindInZeros(trailing);
      assert s[FindCode(s)..] == [];
      NoUnits();
    } else {
      var more := Joined(units[1..], gaps[1..], trailing);
      UnitsOfJoined(units[1..], gaps[1..], trailing);
      FindAfterGap(gaps[0], units[0] + more);
      JoinedStart(units[1..], gaps[1..], trailing);
      UnitThenMore(s[FindCode(s)..], units[0], more);
      assert [units[0]] + units[1..] == units;
    }
  }

  lemma NoUnits()
    ensures Units([]) == []
  {
  }

  /** So the converted output, read by its lengths, is exactly the list. */
  lemma ConversionRoundTrip(units: seq<seq<byte>>, gaps: seq<nat>, trailing: nat)
    requires |units| == |gaps| && Fits(units) && forall u | u in units :: WellFormedNal(u)
    ensures var found := StreamUnits(Joined(units, gaps, trailing));
            Fits(found) && ParsePrefixed(Prefixed(found)) == Some(units)
  {
    UnitsOfJoined(units, gaps, trailing);
    ParseOfPrefixed(units);
  }

  // ---- nothing else is lost

  /** A start code of three or four bytes, what the unit keeps, and the zeros trimmed off it. */
  datatype Piece = Piece(code: nat, unit: seq<byte>, zeros: nat)

  function PiecesOf(s: seq<byte>): seq<Piece>
    requires s == [] || CodeLength(s) != 0
    decreases |s|
  {
    if s == [] then []
    else
      var body := s[CodeLength(s)..];
      var between := body[..FindCode(body)];
      [Piece(CodeLength(s), Trim(between), |between| - |Trim(between)|)] + PiecesOf(body[FindCode(body)..])
  }

  function TextOf(p: Piece): seq<byte> {
    (if p.code == 3 then [0, 0, 1] else [0, 0, 0, 1]) + (p.unit + Zeros(p.zeros))
  }

  function Rebuilt(pieces: seq<Piece>): seq<byte> {
    if pieces == [] then [] else TextOf(pieces[0]) + Rebuilt(pieces[1..])
  }

  function Kept(pieces: seq<Piece>): seq<seq<byte>> {
    if pieces == [] then [] else (if pieces[0].unit == [] then [] else [pieces[0].unit]) + Kept(pieces[1..])
  }

  lemma {:induction false} FirstCode(s: seq<byte>, j: nat)
    requires j < FindCode(s)
    ensures CodeLength(s[j..]) == 0
  {
    if j > 0 {
      FirstCode(s[1..], j - 1);
      assert s[1..][j - 1..] == s[j..];
    } else {
      assert s[0..] == s;
    }
  }

  lemma {:induction false} TrimmedZeros(s: seq<byte>)
    ensures s == Trim(s) + Zeros(|s| - |Trim(s)|)
  {
    if s != [] && s[|s| - 1] == 0 {
      var t := s[..|s| - 1];
      TrimmedZeros(t);
      ZerosSnoc(|t| - |Trim(t)|);
      Associative(Trim(t), Zeros(|t| - |Trim(t)|), [0]);
      assert s == t + [0];
    }
  }

  lemma CodeText(s: seq<byte>)
    requires CodeLength(s) != 0
    ensures CodeLength(s) == 3 || CodeLength(s) == 4
    ensures s == (if CodeLength(s) == 3 then [0, 0, 1] else [0, 0, 0, 1]) + s[CodeLength(s)..]
  {
  }

  lemma {:induction false} PiecesRebuild(s: seq<byte>)
    requires s == [] || CodeLength(s) != 0
    ensures Rebuilt(PiecesOf(s)) == s && Kept(PiecesOf(s)) == Units(s)
    decreases |s|
  {
    hide CodeLength, FindCode, Trim, Rebuilt, Kept, TextOf;
    if s != [] {
      var body := s[CodeLength(s)..];
      var between, rest := body[..FindCode(body)], body[FindCode(body)..];
      PiecesRebuild(rest);
      var p := Piece(CodeLength(s), Trim(between), |between| - |Trim(between)|);
      PieceFirst(p, PiecesOf(rest));
      PieceText(s, body, between, rest, p);
      UnitsStep(s, body, between, rest);
    } else {
      NoPieces();
    }
  }

  lemma NoPieces()
    ensures Rebuilt([]) == [] && Kept([]) == [] && Units([]) == []
  {
  }

  lemma PieceText(s: seq<byte>, body: seq<byte>, between: seq<byte>, rest: seq<byte>, p: Piece)
    requires CodeLength(s) != 0 && body == s[CodeLength(s)..] && body == between + rest
    requires p == Piece(CodeLength(s), Trim(between), |between| - |Trim(between)|)
    ensures TextOf(p) + rest == s
  {
    hide CodeLength, Trim, Zeros;
    CodeText(s);
    TrimmedZeros(between);
    var code: seq<byte> := if p.code == 3 then [0, 0, 1] else [0, 0, 0, 1];
    Associative(code, between, rest);
  }

  lemma PieceFirst(p: Piece, more: seq<Piece>)
    ensures Rebuilt([p] + more) == TextOf(p) + Rebuilt(more)
    ensures Kept([p] + more) == (if p.unit == [] then [] else [p.unit]) + Kept(more)
  {
    assert ([p] + more)[1..] == more;
  }

  /** Whatever the input: the units are what lies between its start codes, and apart from them there are only
      start codes, zeros before the next, and what precedes the first, which holds no start code. */
  lemma InputDecomposes(input: seq<byte>) returns (pieces: seq<Piece>)
    ensures input == input[..FindCode(input)] + Rebuilt(pieces) && StreamUnits(input) == Kept(pieces)
    ensures forall j | 0 <= j < FindCode(input) :: CodeLength(input[j..]) == 0
  {
    hide CodeLength, Rebuilt, Kept, Units, PiecesOf;
    var at := FindCode(input);
    pieces := PiecesOf(input[at..]);
    PiecesRebuild(input[at..]);
    assert input == input[..at] + input[at..];
    NoneBefore(input);
  }

  lemma NoneBefore(input: seq<byte>)
    ensures forall j | 0 <= j < FindCode(input) :: CodeLength(input[j..]) == 0
  {
    hide CodeLength, FindCode;
    forall j | 0 <= j < FindCode(input)
      ensures CodeLength(input[j..]) == 0
    {
      FirstCode(input, j);
    }
  }
}
