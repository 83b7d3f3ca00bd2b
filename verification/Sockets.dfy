/** The kernel's two ends of a byte stream, which move any number of bytes per call, and the loops that
    move a whole buffer through them. */
module Sockets {
  import opened Options

  /** The kernel's end of a stream: `read` returns any non-empty part that fits, and nothing at the end. */
  class Source<T> {
    var pending: seq<T>

    constructor (bytes: seq<T>)
      ensures pending == bytes
    {
      pending := bytes;
    }

    method Read(max: nat) returns (data: seq<T>)
      requires 0 < max
      modifies this
      ensures |data| <= max && old(pending) == data + pending
      ensures data == [] <==> old(pending) == []
    {
      if pending == [] { return []; }
      var n :| 1 <= n <= |pending| && n <= max;
      data := pending[..n];
      pending := pending[n..];
    }
  }

  /** The sending end: `send` takes a prefix of what it is given, and nothing when the peer is gone. */
  class Sink<T> {
    var sent: seq<T>

    constructor ()
      ensures sent == []
    {
      sent := [];
    }

    method Send(data: seq<T>) returns (n: nat)
      modifies this
      ensures n <= |data| && sent == old(sent) + data[..n]
    {
      n :| 0 <= n <= |data|;
      sent := sent + data[..n];
    }
  }

  /** What a peer may have received of `data` on top of `before`: all of it when the call succeeds, and
      otherwise a part that lacks at least the last byte. */
  ghost predicate Delivered<T>(before: seq<T>, data: seq<T>, after: seq<T>, ok: bool) {
    if ok then after == before + data else before <= after && after < before + data
  }

  method SendAll<T>(sink: Sink<T>, data: seq<T>) returns (ok: bool)
    modifies sink
    ensures Delivered(old(sink.sent), data, sink.sent, ok)
  {
    ghost var before := sink.sent;
    var sent := 0;
    assert sink.sent == before + data[..0];
    while sent < |data|
      invariant 0 <= sent <= |data| && sink.sent == before + data[..sent]
      decreases |data| - sent
    {
      var n := sink.Send(data[sent..]);
      if n == 0 {
        return false;
      }
      assert data[..sent] + data[sent..][..n] == data[..sent + n];
      sent := sent + n;
    }
    assert data[..sent] == data;
    return true;
  }

  /** The first `n` bytes of a stream and the rest; a stream that is too short is used up. */
  function Take<T>(s: seq<T>, n: nat): (Option<seq<T>>, seq<T>) {
    if n <= |s| then (Some(s[..n]), s[n..]) else (None, [])
  }

  method ReceiveAll<T>(source: Source<T>, size: nat) returns (data: Option<seq<T>>)
    modifies source
    ensures (data, source.pending) == Take(old(source.pending), size)
  {
    ghost var stream := source.pending;
    var got: seq<T> := [];
    while |got| < size
      invariant |got| <= size && got + source.pending == stream
      decreases size - |got|
    {
      var n := source.Read(size - |got|);
      if n == [] {
        return None;
      }
      got := got + n;
    }
    assert stream[..size] == got && stream[size..] == source.pending;
    return Some(got);
  }
}
