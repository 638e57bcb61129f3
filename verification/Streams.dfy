/** Go's io.Reader and io.Writer, as objects whose behaviour the environment fixes in advance. */
module Streams {
  import opened Bytes

  function Concat(pieces: seq<Bytes>): Bytes {
    if pieces == [] then [] else pieces[0] + Concat(pieces[1..])
  }

  lemma {:induction false} ConcatAppend(a: seq<Bytes>, b: seq<Bytes>)
    ensures Concat(a + b) == Concat(a) + Concat(b)
  {
    if a == [] {
      assert a + b == b;
    } else {
      assert (a + b)[1..] == a[1..] + b;
      ConcatAppend(a[1..], b);
    }
  }

  function Min(a: int, b: int): int { if a <= b then a else b }

  datatype End = AtEof | IoError

  datatype ReadStatus = More | Ended(end: End)

  /** The outcome of io.ReadFull. */
  datatype FullStatus = Filled | EndOfFile | UnexpectedEof | ReadFailed

  /**
   * An io.Reader. `pieces` is what it will deliver, cut up as the calls to Read will see it (an empty piece is a
   * Read of zero bytes without an error); after them it reports `end`. When `eager`, the Read that delivers the last
   * byte already reports the end, which the io.Reader contract allows.
   */
  class Source {
    var pieces: seq<Bytes>
    const end: End
    const eager: bool

    constructor (pieces: seq<Bytes>, end: End, eager: bool)
      ensures this.pieces == pieces && this.end == end && this.eager == eager
    {
      this.pieces, this.end, this.eager := pieces, end, eager;
    }

    ghost function Rest(): Bytes
      reads this
    {
      Concat(pieces)
    }

    ghost function Left(): nat
      reads this
    {
      |pieces| + |Rest()|
    }

    /** Read into buf[lo..hi]. */
    method Read(buf: array<byte>, lo: nat, hi: nat) returns (n: nat, status: ReadStatus)
      requires lo <= hi <= buf.Length
      modifies this, buf
      ensures n <= hi - lo && buf[..lo] == old(buf[..lo])
      ensures old(Rest()) == buf[lo..lo + n] + Rest()
      ensures status.Ended? ==> Rest() == [] && status.end == end
      ensures status.More? && lo < hi ==> Left() < old(Left())
    {
      if pieces == [] {
        return 0, Ended(end);
      }
      var p := pieces[0];
      n := if |p| <= hi - lo then |p| else hi - lo;
      forall i | 0 <= i < n { buf[lo + i] := p[i]; }
      assert buf[lo..lo + n] == p[..n];
      assert p == p[..n] + p[n..];
      if n == |p| {
        pieces := pieces[1..];
      } else {
        assert pieces[0 := p[n..]][1..] == pieces[1..];
        pieces := pieces[0 := p[n..]];
      }
      status := if eager && pieces == [] then Ended(end) else More;
    }

    /** io.ReadFull: loops over Read until the buffer is full or the reader ends. */
    method ReadFull(buf: array<byte>) returns (n: nat, status: FullStatus)
      modifies this, buf
      ensures n == Min(buf.Length, old(|Rest()|))
      ensures buf[..n] == old(Rest())[..n] && Rest() == old(Rest())[n..]
      ensures status == if n == buf.Length then Filled
                        else if end.IoError? then ReadFailed
                        else if n == 0 then EndOfFile else UnexpectedEof
    {
      hide Concat;
      ghost var all := Rest();
      n := 0;
      var st := More;
      while n < buf.Length && st.More?
        invariant n <= buf.Length
        invariant all == buf[..n] + Rest()
        invariant st.Ended? ==> Rest() == [] && st.end == end
        decreases st.More?, Left()
      {
        var k;
        ghost var before := buf[..n];
        k, st := Read(buf, n, buf.Length);
        assert buf[..n + k] == before + buf[n..n + k];
        assert all == before + (buf[n..n + k] + Rest());
        assert all == buf[..n + k] + Rest();
        n := n + k;
      }
      assert all[..n] == buf[..n] && all[n..] == Rest();
      status := if n == buf.Length then Filled
                else if st.end.IoError? then ReadFailed
                else if n == 0 then EndOfFile else UnexpectedEof;
    }

    /** io.ReadFull into a fresh buffer of n bytes. */
    method Take(n: nat) returns (data: Bytes, ok: bool)
      modifies this
      ensures ok <==> n <= old(|Rest()|)
      ensures ok ==> data == old(Rest())[..n] && Rest() == old(Rest())[n..]
      ensures !ok ==> Rest() == []
    {
      var buf := new byte[n](i => 0);
      var k, status := ReadFull(buf);
      data, ok := buf[..], status.Filled?;
    }
  }

  /** An io.Writer that accepts `room` more bytes and then fails, keeping what fitted of the failing write. */
  class Sink {
    var data: Bytes
    var room: nat

    constructor (room: nat)
      ensures data == [] && this.room == room
    {
      data, this.room := [], room;
    }

    method Write(b: Bytes) returns (ok: bool)
      modifies this
      ensures ok <==> |b| <= old(room)
      ensures data == old(data) + b[..Min(|b|, old(room))]
      ensures room == old(room) - Min(|b|, old(room))
    {
      ok := |b| <= room;
      var k := if ok then |b| else room;
      data := data + b[..k];
      room := room - k;
    }
  }
}
