/** The LAN protocol's frames: [type][uint32 length][payload]. */
module LanFrames {
  import opened Bytes
  import opened Streams

  // The frame types of a transfer; those of the password handshake are constructors of PushSession.Msg.
  const MSG_HELLO: byte := 1
  const MSG_ACCEPT: byte := 4
  const MSG_DATA: byte := 5
  const MSG_EOF: byte := 6
  const MSG_DONE: byte := 7
  const MSG_ERROR: byte := 8

  const MAX_CONTROL_FRAME: nat := 65536
  const CHUNK_BYTES: nat := 65536
  const MAX_DATA_FRAME: nat := CHUNK_BYTES + 4096

  datatype Frame = Frame(typ: byte, payload: Bytes)

  function Encode(f: Frame): Bytes { [f.typ] + U32(|f.payload|) + f.payload }

  function EncodeAll(fs: seq<Frame>): Bytes {
    if fs == [] then [] else Encode(fs[0]) + EncodeAll(fs[1..])
  }

  datatype Why = EndOfStream | OverCap | ShortPayload

  datatype Parsed = Got(frame: Frame, rest: Bytes) | Bad(why: Why)

  /** What readFrame makes of the bytes s. */
  function Parse(s: Bytes, cap: nat): Parsed {
    if |s| < 5 then Bad(EndOfStream)
    else
      var n := FromBigEndian(s[1..5]);
      if n > cap then Bad(OverCap)
      else if |s| < 5 + n then Bad(ShortPayload)
      else Got(Frame(s[0], s[5..5 + n]), s[5 + n..])
  }

  /** The frames a reader gets from the bytes s before its first error. */
  function ParseAll(s: Bytes, cap: nat): seq<Frame>
    decreases |s|
  {
    match Parse(s, cap)
    case Bad(_) => []
    case Got(f, rest) => [f] + ParseAll(rest, cap)
  }

  predicate Fits(f: Frame, cap: nat) { |f.payload| <= cap < 0x1_0000_0000 }

  /** A frame within the cap is read back, and what follows it is left alone; one over the cap never is. */
  lemma ReadBack(f: Frame, t: Bytes, cap: nat)
    requires |f.payload| < 0x1_0000_0000
    ensures Parse(Encode(f) + t, cap) == if |f.payload| <= cap then Got(f, t) else Bad(OverCap)
  {
    U32RoundTrip(|f.payload|);
    var s := Encode(f) + t;
    assert s == [f.typ] + (U32(|f.payload|) + (f.payload + t));
    assert s[1..5] == U32(|f.payload|);
    assert s[5..] == f.payload + t;
    assert s[5..5 + |f.payload|] == f.payload && s[5 + |f.payload|..] == t;
  }

  /** The caps: 64 KiB for a control frame, and 4 KiB more for one of a stream. */
  lemma CapsExactly(f: Frame, t: Bytes)
    requires |f.payload| < 0x1_0000_0000
    ensures Parse(Encode(f) + t, MAX_CONTROL_FRAME) == if |f.payload| <= 65536 then Got(f, t) else Bad(OverCap)
    ensures Parse(Encode(f) + t, MAX_DATA_FRAME) == if |f.payload| <= 69632 then Got(f, t) else Bad(OverCap)
  {
    ReadBack(f, t, MAX_CONTROL_FRAME);
    ReadBack(f, t, MAX_DATA_FRAME);
    hide Parse, Encode;
  }

  /** No strict prefix of a frame is taken for a frame. */
  lemma CutFrame(f: Frame, k: nat, cap: nat)
    requires Fits(f, cap) && k < |Encode(f)|
    ensures Parse(Encode(f)[..k], cap).Bad?
  {
    ReadBack(f, [], cap);
    assert Encode(f) + [] == Encode(f);
    if k >= 5 {
      assert Encode(f)[..k][1..5] == Encode(f)[1..5];
    }
  }

  lemma SplitPrefix(s: Bytes, e: Bytes, t: Bytes)
    requires s <= e + t
    ensures |s| < |e| ==> s == e[..|s|]
    ensures |s| >= |e| ==> s == e + s[|e|..] && s[|e|..] <= t
  {
    assert s == (e + t)[..|s|];
    if |s| >= |e| {
      assert s[|e|..] == t[..|s| - |e|];
    }
  }

  lemma ParseFirst(f: Frame, t: Bytes, cap: nat)
    requires Fits(f, cap)
    ensures ParseAll(Encode(f) + t, cap) == [f] + ParseAll(t, cap)
  {
    ReadBack(f, t, cap);
    assert |Encode(f)| > 0;
    hide Parse, Encode;
  }

  lemma ParseCut(f: Frame, k: nat, cap: nat)
    requires Fits(f, cap) && k < |Encode(f)|
    ensures ParseAll(Encode(f)[..k], cap) == []
  {
    CutFrame(f, k, cap);
    hide Parse, Encode;
  }

  /**
   * A connection cut at any byte delivers a prefix of the frames that were written, never a different one; all of
   * them when nothing was lost. This is what lets the transfer loops be treated frame by frame.
   */
  lemma {:induction false} CutConnection(fs: seq<Frame>, s: Bytes, cap: nat)
    requires forall f :: f in fs ==> Fits(f, cap)
    requires s <= EncodeAll(fs)
    ensures ParseAll(s, cap) <= fs
    ensures s == EncodeAll(fs) ==> ParseAll(s, cap) == fs
  {
    if fs == [] {
      assert s == [] && Parse(s, cap).Bad?;
    } else {
      var e, t := Encode(fs[0]), EncodeAll(fs[1..]);
      assert fs[0] in fs && forall f :: f in fs[1..] ==> f in fs;
      hide Parse, Encode, EncodeAll, ParseAll, Fits;
      SplitPrefix(s, e, t);
      if |s| < |e| {
        ParseCut(fs[0], |s|, cap);
      } else {
        ParseFirst(fs[0], s[|e|..], cap);
        CutConnection(fs[1..], s[|e|..], cap);
        assert fs == [fs[0]] + fs[1..];
      }
    }
  }

  /** What two writes that fill the room one after the other leave is what one write of both would. */
  lemma TwoWrites(start: Bytes, h: Bytes, p: Bytes, room: nat)
    ensures room < |h| ==> (h + p)[..Min(|h + p|, room)] == h[..room]
    ensures |h| <= room ==>
      start + h[..|h|] + p[..Min(|p|, room - |h|)] == start + (h + p)[..Min(|h + p|, room)]
  {
    if |h| <= room {
      var k := Min(|p|, room - |h|);
      assert (h + p)[..|h| + k] == h + p[..k];
      assert start + h + p[..k] == start + (h + p[..k]);
    }
  }

  /** writeFrame: the header and then, if there is one, the payload. */
  method WriteFrame(w: Sink, typ: byte, payload: Bytes) returns (ok: bool)
    modifies w
    ensures |payload| >= 0x1_0000_0000 ==> !ok && w.data == old(w.data)
    ensures |payload| < 0x1_0000_0000 ==>
      var b := Encode(Frame(typ, payload));
      && (ok <==> |b| <= old(w.room))
      && w.data == old(w.data) + b[..Min(|b|, old(w.room))]
      && w.room == old(w.room) - Min(|b|, old(w.room))
  {
    hide BigEndian;
    if |payload| >= 0x1_0000_0000 {
      return false;
    }
    var header := [typ] + U32(|payload|);
    assert header + payload == Encode(Frame(typ, payload));
    hide Encode;
    TwoWrites(w.data, header, payload, w.room);
    ok := w.Write(header);
    if !ok { return; }
    if |payload| > 0 {
      ok := w.Write(payload);
    }
  }

  /** writeJSON, of a payload that is encoded already: a control frame over the cap is not written. */
  method WriteControl(w: Sink, typ: byte, payload: Bytes) returns (ok: bool)
    modifies w
    ensures |payload| > MAX_CONTROL_FRAME ==> !ok && w.data == old(w.data) && w.room == old(w.room)
    ensures |payload| <= MAX_CONTROL_FRAME ==>
      var b := Encode(Frame(typ, payload));
      && (ok <==> |b| <= old(w.room))
      && w.data == old(w.data) + b[..Min(|b|, old(w.room))]
      && w.room == old(w.room) - Min(|b|, old(w.room))
  {
    if |payload| > MAX_CONTROL_FRAME { return false; }
    ok := WriteFrame(w, typ, payload);
  }

  datatype Read = Ok(frame: Frame) | Err(why: Why)

  /** readFrame: the length is checked against the cap before the payload is read. */
  method ReadFrame(r: Source, cap: nat) returns (res: Read)
    modifies r
    ensures match Parse(old(r.Rest()), cap)
            case Bad(why) => res == Err(why)
            case Got(f, rest) => res == Ok(f) && r.Rest() == rest
  {
    hide FromBigEndian, Concat;
    ghost var s := r.Rest();
    var header, ok := r.Take(5);
    if !ok { return Err(EndOfStream); }
    assert header[1..] == s[1..5];
    var n := FromBigEndian(header[1..]);
    if n > cap { return Err(OverCap); }
    if n == 0 {
      assert s[5..5] == [];
      return Ok(Frame(header[0], []));
    }
    var payload;
    payload, ok := r.Take(n);
    if !ok { return Err(ShortPayload); }
    assert s[5..][..n] == s[5..5 + n] && s[5..][n..] == s[5 + n..];
    res := Ok(Frame(header[0], payload));
  }
}
