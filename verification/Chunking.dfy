/** The chunked transfer coding of section 7.1 of RFC 9112, without extensions and trailers. */
module Chunking {
  import opened Options
  import opened Sequences
  import opened Numerals
  import opened Text

  const CRLF: string := "\r\n"
  const TERMINATOR: string := "0\r\n\r\n"

  /** `%zx` */
  function ToHex(n: nat): string {
    Print(n, 16, false)
  }

  function Chunk(data: string): string {
    (ToHex(|data|) + CRLF) + (data + CRLF)
  }

  function Chunked(pieces: seq<string>): string {
    if pieces == [] then "" else Chunk(pieces[0]) + Chunked(pieces[1..])
  }

  function Concat(pieces: seq<string>): string {
    if pieces == [] then "" else pieces[0] + Concat(pieces[1..])
  }

  ghost predicate NonEmpty(pieces: seq<string>) {
    forall i | 0 <= i < |pieces| :: |pieces[i]| > 0
  }

  /** What a receiver makes of a stream: the body and what follows its last chunk, or nothing while the
      last chunk is missing or the framing is broken. */
  function Dechunk(s: string): Option<(string, string)>
    decreases |s|, 1
  {
    var i := Find(s, '\r');
    if i == 0 || |s| < i + 2 || s[i + 1] != '\n' || !AllDigits(s[..i], 16) then None
    else DechunkData(Value(s[..i], 16), s[i + 2..])
  }

  function DechunkData(n: nat, s: string): Option<(string, string)>
    decreases |s|, 2
  {
    if |s| < n + 2 || s[n..n + 2] != CRLF then None
    else if n == 0 then Some(("", s[2..]))
    else Prepend(s[..n], Dechunk(s[n + 2..]))
  }

  function Prepend(data: string, r: Option<(string, string)>): Option<(string, string)> {
    if r.None? then None else Some((data + r.value.0, r.value.1))
  }

  lemma HexHasNoReturn(n: nat)
    ensures '\r' !in ToHex(n)
  {
  }

  lemma SizeLine(n: nat, rest: string)
    ensures Dechunk((ToHex(n) + CRLF) + rest) == DechunkData(n, rest)
  {
    var h := ToHex(n);
    var s := (h + CRLF) + rest;
    assert s == h + ['\r'] + ("\n" + rest);
    HexHasNoReturn(n);
    FindFirst(h, '\r', "\n" + rest);
    PrintValue(n, 16, false);
    assert s[..|h|] == h && s[|h| + 2..] == rest;
  }

  lemma DechunkChunk(data: string, rest: string)
    requires data != ""
    ensures Dechunk(Chunk(data) + rest) == Prepend(data, Dechunk(rest))
  {
    var s := (data + CRLF) + rest;
    Associative(ToHex(|data|) + CRLF, data + CRLF, rest);
    SizeLine(|data|, s);
    assert s[..|data|] == data && s[|data|..|data| + 2] == CRLF && s[|data| + 2..] == rest;
  }

  lemma {:induction false} DechunkChunked(pieces: seq<string>, rest: string)
    requires NonEmpty(pieces)
    ensures Dechunk(Chunked(pieces) + rest) == Prepend(Concat(pieces), Dechunk(rest))
  {
    if pieces == [] {
      assert Chunked(pieces) + rest == rest;
      assert Dechunk(rest).Some? ==> "" + Dechunk(rest).value.0 == Dechunk(rest).value.0;
    } else {
      var tail := Chunked(pieces[1..]) + rest;
      Associative(Chunk(pieces[0]), Chunked(pieces[1..]), rest);
      DechunkChunk(pieces[0], tail);
      DechunkChunked(pieces[1..], rest);
      if Dechunk(rest).Some? {
        Associative(pieces[0], Concat(pieces[1..]), Dechunk(rest).value.0);
      }
    }
  }

  lemma DechunkTerminator(rest: string)
    ensures Dechunk(TERMINATOR + rest) == Some(("", rest))
  {
    assert TERMINATOR + rest == (ToHex(0) + CRLF) + (CRLF + rest);
    SizeLine(0, CRLF + rest);
    assert (CRLF + rest)[0..2] == CRLF && (CRLF + rest)[2..] == rest;
  }

  /** A part of one chunk is not a complete body. */
  lemma PartOfChunk(data: string, k: nat)
    requires k < |Chunk(data)|
    ensures Dechunk(Chunk(data)[..k]) == None
  {
    var h := ToHex(|data|);
    var p := Chunk(data)[..k];
    HexHasNoReturn(|data|);
    if k <= |h| {
      assert p == h[..k];
    } else if k == |h| + 1 {
      assert p == h + ['\r'] + "";
      FindFirst(h, '\r', "");
    } else {
      var q := (data + CRLF)[..k - |h| - 2];
      assert p == (h + CRLF) + q;
      SizeLine(|data|, q);
    }
  }

  lemma PartOf(a: string, b: string, k: nat)
    requires k <= |a| + |b|
    ensures (a + b)[..k] == if k < |a| then a[..k] else a + b[..k - |a|]
  {
  }

  /** However much of the chunks has arrived, the body is not complete before the terminator. */
  lemma {:induction false} NoPrematureEnd(pieces: seq<string>, k: nat)
    requires NonEmpty(pieces) && k <= |Chunked(pieces)|
    ensures Dechunk(Chunked(pieces)[..k]) == None
  {
    if pieces == [] {
      assert Chunked(pieces)[..k] == "";
    } else {
      hide Dechunk, Chunk;
      var c, tail := Chunk(pieces[0]), Chunked(pieces[1..]);
      PartOf(c, tail, k);
      if k < |c| {
        PartOfChunk(pieces[0], k);
      } else {
        DechunkChunk(pieces[0], tail[..k - |c|]);
        NoPrematureEnd(pieces[1..], k - |c|);
      }
    }
  }
}
