/** The sending loops of a push: hashing the source, re-hashing for a resume, and streaming the body in frames. */
module LanSend {
  import opened Bytes
  import opened Streams
  import opened LanFrames
  import opened Transfers
  import opened PushRuns

  /** A context that is found cancelled after `polls` more checks, or never. */
  class Context {
    var polls: Option<nat>

    constructor (polls: Option<nat>)
      ensures this.polls == polls
    {
      this.polls := polls;
    }

    method Done() returns (done: bool)
      modifies this
      ensures old(polls).None? ==> !done && polls == None
    {
      match polls
      case None => done := false;
      case Some(k) =>
        done := k == 0;
        if !done { polls := Some(k - 1); }
    }
  }

  datatype CopyEnd = Copied | Stopped | TooShort | SourceFailed

  const COPY_BUFFER: nat := 0x10_0000

  /** ctxCopyN into a digest: n bytes, or all of them when n is negative. */
  method CtxCopyN(ctx: Context, src: Source, n: int) returns (digest: Bytes, end: CopyEnd)
    modifies ctx, src
    ensures digest <= old(src.Rest()) && src.Rest() == old(src.Rest())[|digest|..]
    ensures n >= 0 ==> |digest| <= n
    ensures end.Copied? ==> if n >= 0 then |digest| == n else src.Rest() == [] && src.end.AtEof?
    ensures end.TooShort? ==> 0 <= |digest| < n && src.Rest() == []
    ensures old(ctx.polls).None? ==> ctx.polls.None?
    ensures old(ctx.polls).None? && src.end.AtEof? ==> end == if n <= old(|src.Rest()|) then Copied else TooShort
  {
    hide Concat;
    var buf := new byte[COPY_BUFFER](i => 0);
    ghost var all := src.Rest();
    digest := [];
    while n < 0 || |digest| < n
      invariant all == digest + src.Rest() && (n >= 0 ==> |digest| <= n)
      invariant old(ctx.polls).None? ==> ctx.polls.None?
      decreases src.Left()
    {
      var stop := ctx.Done();
      if stop { return digest, Stopped; }
      var chunk := buf.Length;
      if n >= 0 && n - |digest| < chunk { chunk := n - |digest|; }
      var r, status := src.Read(buf, 0, chunk);
      ghost var before := digest;
      digest := digest + buf[..r];
      assert buf[0..r] == buf[..r];
      assert all == before + (buf[..r] + src.Rest());
      if status.Ended? {
        if status.end.IoError? { return digest, SourceFailed; }
        return digest, if n >= 0 && |digest| < n then TooShort else Copied;
      }
    }
    end := Copied;
  }

  /** The frames of a stream that still has `tail` to carry; a closing EOF only when nothing is left. */
  predicate StreamFrames(frames: seq<Frame>, tail: Bytes)
    decreases |frames|
  {
    frames == [] ||
    (if frames[0].typ == MSG_DATA
     then frames[0].payload <= tail && 0 < |frames[0].payload| <= CHUNK_BYTES
          && StreamFrames(frames[1..], tail[|frames[0].payload|..])
     else frames == [Frame(MSG_EOF, [])] && tail == [])
  }

  predicate Complete(frames: seq<Frame>) { frames != [] && frames[|frames| - 1] == Frame(MSG_EOF, []) }

  function Payloads(frames: seq<Frame>): Bytes {
    if frames == [] then [] else frames[0].payload + Payloads(frames[1..])
  }

  predicate AllData(frames: seq<Frame>) {
    forall f :: f in frames ==> f.typ == MSG_DATA && 0 < |f.payload| <= CHUNK_BYTES
  }

  lemma {:induction false} PayloadsAppend(frames: seq<Frame>, f: Frame)
    ensures Payloads(frames + [f]) == Payloads(frames) + f.payload
  {
    if frames == [] {
      assert Payloads([f]) == f.payload + Payloads([]) == f.payload;
    } else {
      assert (frames + [f])[1..] == frames[1..] + [f];
      PayloadsAppend(frames[1..], f);
    }
  }

  lemma {:induction false} EncodeAllAppend(frames: seq<Frame>, f: Frame)
    ensures EncodeAll(frames + [f]) == EncodeAll(frames) + Encode(f)
  {
    hide Encode;
    if frames == [] {
      assert EncodeAll([f]) == Encode(f) + EncodeAll([]) == Encode(f);
    } else {
      assert (frames + [f])[1..] == frames[1..] + [f];
      EncodeAllAppend(frames[1..], f);
    }
  }

  lemma {:induction false} DataThenEof(frames: seq<Frame>, tail: Bytes)
    requires AllData(frames) && Payloads(frames) <= tail
    ensures StreamFrames(frames, tail)
    ensures Payloads(frames) == tail ==> StreamFrames(frames + [Frame(MSG_EOF, [])], tail)
  {
    if frames != [] {
      var p := frames[0].payload;
      assert frames[0] in frames && p <= tail;
      assert Payloads(frames[1..]) <= tail[|p|..];
      assert AllData(frames[1..]) by { assert forall f :: f in frames[1..] ==> f in frames; }
      DataThenEof(frames[1..], tail[|p|..]);
      assert (frames + [Frame(MSG_EOF, [])])[1..] == frames[1..] + [Frame(MSG_EOF, [])];
    }
  }

  /** `frames` have carried `digest`, `rest` is still to come, and everything is on the wire. */
  ghost predicate Sent(start: Bytes, all: Bytes, frames: seq<Frame>, digest: Bytes, rest: Bytes, data: Bytes) {
    && AllData(frames) && Payloads(frames) == digest && all == digest + rest
    && data == start + EncodeAll(frames)
  }

  lemma NothingSent(start: Bytes, all: Bytes)
    ensures Sent(start, all, [], [], all, start)
  {
  }

  lemma SentFrames(start: Bytes, all: Bytes, frames: seq<Frame>, digest: Bytes, rest: Bytes, data: Bytes)
    requires Sent(start, all, frames, digest, rest, data)
    ensures StreamFrames(frames, all) && start <= data <= start + EncodeAll(frames)
    ensures AllData(frames) && Payloads(frames) <= all && |data| == |start| + |EncodeAll(frames)|
  {
    DataThenEof(frames, all);
  }

  lemma SentMore(start: Bytes, all: Bytes, frames: seq<Frame>, digest: Bytes, chunk: Bytes, rest: Bytes, data: Bytes,
                 k: nat)
    requires Sent(start, all, frames, digest, chunk + rest, data) && 0 < |chunk| <= CHUNK_BYTES
    requires k <= |Encode(Frame(MSG_DATA, chunk))|
    ensures var f := Frame(MSG_DATA, chunk);
      && Sent(start, all, frames + [f], digest + chunk, rest, data + Encode(f))
      && StreamFrames(frames + [f], all) && data + Encode(f)[..k] <= start + EncodeAll(frames + [f])
  {
    var f := Frame(MSG_DATA, chunk);
    hide Encode;
    PayloadsAppend(frames, f);
    EncodeAllAppend(frames, f);
    assert digest + (chunk + rest) == digest + chunk + rest;
    assert start + (EncodeAll(frames) + Encode(f)) == data + Encode(f);
    assert data + Encode(f)[..k] <= data + Encode(f);
    assert AllData(frames + [f]);
    DataThenEof(frames + [f], all);
  }

  lemma SentEof(start: Bytes, all: Bytes, frames: seq<Frame>, data: Bytes, k: nat)
    requires Sent(start, all, frames, all, [], data) && k <= |Encode(Frame(MSG_EOF, []))|
    ensures var f := Frame(MSG_EOF, []);
      && StreamFrames(frames + [f], all) && Complete(frames + [f])
      && start <= data + Encode(f)[..k] <= start + EncodeAll(frames + [f])
      && data + Encode(f) == start + EncodeAll(frames + [f])
  {
    var f := Frame(MSG_EOF, []);
    hide Encode;
    EncodeAllAppend(frames, f);
    assert start + (EncodeAll(frames) + Encode(f)) == data + Encode(f);
    assert data + Encode(f)[..k] <= data + Encode(f);
    DataThenEof(frames, all);
  }

  /** What a loop that has set out to write `frames` promises, wherever it stops. */
  ghost predicate SetOut(start: Bytes, all: Bytes, frames: seq<Frame>, data: Bytes) {
    StreamFrames(frames, all) && start <= data <= start + EncodeAll(frames)
  }

  ghost predicate OnlyData(all: Bytes, frames: seq<Frame>) { AllData(frames) && Payloads(frames) <= all }

  /** One data frame of the stream. */
  method SendChunk(conn: Sink, chunk: Bytes, ghost start: Bytes, ghost all: Bytes, ghost frames: seq<Frame>,
                   ghost carried: Bytes, ghost rest: Bytes) returns (ok: bool)
    requires Sent(start, all, frames, carried, chunk + rest, conn.data) && 0 < |chunk| <= CHUNK_BYTES
    modifies conn
    ensures SetOut(start, all, frames + [Frame(MSG_DATA, chunk)], conn.data)
    ensures OnlyData(all, frames + [Frame(MSG_DATA, chunk)])
    ensures ok ==> Sent(start, all, frames + [Frame(MSG_DATA, chunk)], carried + chunk, rest, conn.data)
    ensures |conn.data| + conn.room == old(|conn.data| + conn.room)
    ensures ok <==> |start + EncodeAll(frames + [Frame(MSG_DATA, chunk)])| <= |conn.data| + conn.room
  {
    ghost var f := Frame(MSG_DATA, chunk);
    hide Encode, EncodeAll, Payloads, StreamFrames, Sent, AllData;
    ghost var data := conn.data;
    SentMore(start, all, frames, carried, chunk, rest, data, Min(|Encode(f)|, conn.room));
    SentFrames(start, all, frames, carried, chunk + rest, data);
    SentFrames(start, all, frames + [f], carried + chunk, rest, data + Encode(f));
    assert Encode(f)[..|Encode(f)|] == Encode(f);
    ok := WriteFrame(conn, MSG_DATA, chunk);
  }

  method SendEof(conn: Sink, ghost start: Bytes, ghost all: Bytes, ghost frames: seq<Frame>) returns (ok: bool)
    requires Sent(start, all, frames, all, [], conn.data)
    modifies conn
    ensures SetOut(start, all, frames + [Frame(MSG_EOF, [])], conn.data)
    ensures ok ==> conn.data == start + EncodeAll(frames + [Frame(MSG_EOF, [])])
    ensures |conn.data| + conn.room == old(|conn.data| + conn.room)
    ensures ok <==> |start + EncodeAll(frames + [Frame(MSG_EOF, [])])| <= |conn.data| + conn.room
  {
    ghost var f := Frame(MSG_EOF, []);
    hide Encode, EncodeAll, Payloads, StreamFrames, Sent, AllData;
    SentEof(start, all, frames, conn.data, Min(|Encode(f)|, conn.room));
    assert Encode(f)[..|Encode(f)|] == Encode(f);
    ok := WriteFrame(conn, MSG_EOF, []);
  }

  /**
   * streamBodyFrom. Every frame carries the next bytes of the body, at most a chunk of them, and the end-of-stream
   * frame goes out only after the last byte has. `frames` is what it set out to write; a failing connection cuts it.
   * The digest goes on from what it holds already.
   */
  method StreamBodyFrom(ctx: Context, conn: Sink, body: Source, before: Bytes)
    returns (ok: bool, digest: Bytes, ghost frames: seq<Frame>)
    modifies ctx, conn, body
    ensures StreamFrames(frames, old(body.Rest()))
    ensures old(conn.data) <= conn.data <= old(conn.data) + EncodeAll(frames)
    ensures ok ==> Complete(frames) && conn.data == old(conn.data) + EncodeAll(frames)
    ensures |conn.data| + conn.room == old(|conn.data| + conn.room)
    ensures ok ==> digest == before + old(body.Rest())
    ensures old(ctx.polls).None? && body.end.AtEof? ==> (ok <==> |EncodeAll(frames)| <= old(conn.room))
    ensures body.end.IoError? ==> !ok && OnlyData(old(body.Rest()), frames)
  {
    hide Concat, EncodeAll, Payloads, StreamFrames, Sent, AllData;
    var buf := new byte[CHUNK_BYTES](i => 0);
    ghost var all, start := body.Rest(), conn.data;
    ghost var carried: Bytes := [];
    frames, digest, ok := [], before, false;
    NothingSent(start, all);
    while true
      invariant Sent(start, all, frames, carried, body.Rest(), conn.data) && digest == before + carried
      invariant |conn.data| + conn.room == old(|conn.data| + conn.room)
      invariant old(ctx.polls).None? ==> ctx.polls.None?
      decreases body.Left()
    {
      SentFrames(start, all, frames, carried, body.Rest(), conn.data);
      var stop := ctx.Done();
      if stop { return; }
      var n, status := body.Read(buf, 0, buf.Length);
      assert buf[0..n] == buf[..n];
      if n > 0 {
        ghost var so := frames;
        frames := frames + [Frame(MSG_DATA, buf[..n])];
        var sent := SendChunk(conn, buf[..n], start, all, so, carried, body.Rest());
        if !sent { return; }
        carried := carried + buf[..n];
        digest := digest + buf[..n];
      } else {
        assert buf[..n] + body.Rest() == body.Rest();
      }
      if status.Ended? {
        SentFrames(start, all, frames, carried, body.Rest(), conn.data);
        if status.end.IoError? { return; }
        break;
      }
    }
    EverythingSent(start, all, frames, carried, conn.data);
    ghost var so := frames;
    frames := frames + [Frame(MSG_EOF, [])];
    ok := SendEof(conn, start, all, so);
  }

  lemma EverythingSent(start: Bytes, all: Bytes, frames: seq<Frame>, digest: Bytes, data: Bytes)
    requires Sent(start, all, frames, digest, [], data)
    ensures digest == all
  {
    assert digest + [] == digest;
  }

  // ---- a seekable body, read more than once ----

  /** How one reading of a file will go: cut into these pieces, up to its end or an error. */
  datatype Pass = Pass(pieces: seq<Bytes>, end: End, eager: bool)

  /** A pass over content that does not change while it is read. */
  ghost predicate PassOver(pass: Pass, content: Bytes) {
    if pass.end.AtEof? then Concat(pass.pieces) == content else Concat(pass.pieces) <= content
  }

  class BodyFile {
    const content: Bytes
    var reader: Source

    constructor (content: Bytes, pass: Pass)
      ensures this.content == content && fresh(reader)
      ensures reader.Rest() == Concat(pass.pieces) && reader.end == pass.end
    {
      this.content := content;
      reader := new Source(pass.pieces, pass.end, pass.eager);
    }

    /** Seek: what is read from now on starts at the offset. */
    method Seek(offset: nat, pass: Pass)
      requires offset <= |content| && PassOver(pass, content[offset..])
      modifies this
      ensures fresh(reader) && reader.Rest() == Concat(pass.pieces) && reader.end == pass.end
    {
      reader := new Source(pass.pieces, pass.end, pass.eager);
    }
  }

  /** hashSeekable: the digest of the whole file, which is rewound before and after. */
  method HashSeekable(ctx: Context, f: BodyFile, hash: Bytes -> Bytes, first: Pass, second: Pass)
    returns (sum: Option<Bytes>)
    requires PassOver(first, f.content) && PassOver(second, f.content)
    modifies ctx, f
    ensures sum.Some? ==> sum.value == hash(f.content)
    ensures sum.Some? ==> fresh(f.reader) && f.reader.Rest() == Concat(second.pieces) && f.reader.end == second.end
    ensures old(ctx.polls).None? && first.end.AtEof? ==> sum.Some? && ctx.polls.None?
  {
    hide Concat;
    assert f.content[0..] == f.content;
    f.Seek(0, first);
    var digest, end := CtxCopyN(ctx, f.reader, -1);
    if !end.Copied? { return None; }
    assert digest == f.content;
    f.Seek(0, second);
    return Some(hash(digest));
  }

  /**
   * The transfer half of Send, from the accept frame to the digest it compares with the receiver's: seek, feed what
   * the receiver holds already to the digest, stream the rest. `again` is the reading that starts with the seek.
   */
  method SendBody(ctx: Context, conn: Sink, f: BodyFile, resumable: bool, resumeAt: nat, again: Pass)
    returns (ok: bool, digest: Bytes, ghost frames: seq<Frame>)
    requires if resumable then PassOver(again, f.content)
             else if f.reader.end.AtEof? then f.reader.Rest() == f.content else f.reader.Rest() <= f.content
    modifies ctx, conn, f, f.reader
    ensures var offset := if resumable then resumeAt else 0;
      if offset > |f.content| then !ok && conn.data == old(conn.data)
      else
        && StreamFrames(frames, f.content[offset..])
        && old(conn.data) <= conn.data <= old(conn.data) + EncodeAll(frames)
        && (ok ==> Complete(frames) && conn.data == old(conn.data) + EncodeAll(frames) && digest == f.content)
    ensures
      && old(ctx.polls).None? && (if resumable then again.end else old(f.reader.end)).AtEof?
      && (resumable ==> resumeAt <= |f.content|) && old(conn.room) >= 6 * |f.content| + 5
      ==> ok
  {
    hide Concat, StreamFrames, EncodeAll, Complete, Payloads, AllData;
    frames, digest, ok := [], [], false;
    var offset := if resumable then resumeAt else 0;
    if offset > |f.content| { return; }
    NoFrames(f.content[offset..], conn.data);
    assert f.content[0..] == f.content;
    if resumable {
      f.Seek(0, again);
      if offset > 0 {
        var end;
        digest, end := CtxCopyN(ctx, f.reader, offset);
        if !end.Copied? { return; }
      }
    }
    ghost var rest := f.reader.Rest();
    assert f.reader.end.AtEof? ==> f.content[offset..] == rest && digest + rest == f.content;
    assert rest <= f.content[offset..];
    ok, digest, frames := StreamBodyFrom(ctx, conn, f.reader, digest);
    LongerTail(frames, rest, f.content[offset..]);
    StreamSize(frames, rest);
  }

  lemma NoFrames(tail: Bytes, data: Bytes)
    ensures StreamFrames([], tail) && data <= data + EncodeAll([])
  {
  }

  /** Data frames of a tail are data frames of a longer one. */
  lemma LongerTail(frames: seq<Frame>, tail: Bytes, longer: Bytes)
    requires tail <= longer
    ensures OnlyData(tail, frames) ==> StreamFrames(frames, longer)
  {
    if OnlyData(tail, frames) { DataThenEof(frames, longer); }
  }

  lemma {:induction false} StreamSize(frames: seq<Frame>, tail: Bytes)
    requires StreamFrames(frames, tail)
    ensures |EncodeAll(frames)| <= 6 * |tail| + 5
  {
    if frames != [] {
      if frames[0].typ == MSG_DATA {
        StreamSize(frames[1..], tail[|frames[0].payload|..]);
      } else {
        assert EncodeAll(frames[1..]) == [];
      }
    }
  }

  /** The inputs a receiver meets when it gets these frames, with `rooms` saying what the disk takes of each. */
  function Arrivals(frames: seq<Frame>, rooms: nat -> nat, stop: Input): seq<Input> {
    if frames == [] then [stop] else [Arrive(frames[0], rooms(|frames|))] + Arrivals(frames[1..], rooms, stop)
  }

  lemma {:induction false} StreamIsHonest(frames: seq<Frame>, got: seq<Frame>, tail: Bytes, rooms: nat -> nat,
                                          stop: Input)
    requires StreamFrames(frames, tail) && got <= frames && !stop.Arrive?
    ensures Honest(Arrivals(got, rooms, stop), tail)
    decreases |got|
  {
    if got != [] {
      assert got[0] == frames[0];
      if got[0].typ == MSG_DATA {
        assert got[1..] <= frames[1..];
        StreamIsHonest(frames[1..], got[1..], tail[|got[0].payload|..], rooms, stop);
      }
    }
  }

  lemma {:induction false} StreamFits(frames: seq<Frame>, tail: Bytes)
    requires StreamFrames(frames, tail)
    ensures forall f :: f in frames ==> Fits(f, MAX_DATA_FRAME)
  {
    if frames != [] && frames[0].typ == MSG_DATA {
      StreamFits(frames[1..], tail[|frames[0].payload|..]);
      assert forall f :: f in frames ==> f == frames[0] || f in frames[1..];
    }
  }

  /**
   * From bytes to transfers: cut the bytes StreamBodyFrom wrote anywhere, let the receiver parse them, let it be paused
   * or cancelled or its disk fill up; what its loop meets is what PushRuns calls honest.
   */
  lemma WireIsHonest(frames: seq<Frame>, tail: Bytes, wire: Bytes, rooms: nat -> nat, stop: Input)
    requires StreamFrames(frames, tail) && wire <= EncodeAll(frames) && !stop.Arrive?
    ensures Honest(Arrivals(ParseAll(wire, MAX_DATA_FRAME), rooms, stop), tail)
  {
    StreamFits(frames, tail);
    CutConnection(frames, wire, MAX_DATA_FRAME);
    StreamIsHonest(frames, ParseAll(wire, MAX_DATA_FRAME), tail, rooms, stop);
  }
}
