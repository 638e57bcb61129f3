/**
 * The broadcaster's side of a pull. What handleDownload puts on the wire, cut anywhere, is what PullRuns calls a
 * session of an honest broadcaster; all of it is what it calls a whole session.
 */
module Broadcasts {
  import opened Bytes
  import opened Streams
  import opened LanFrames
  import opened Transfers
  import opened PushRuns
  import opened PullRuns
  import opened LanSend

  /** The control frames of a connection: a yes, a no, an error, and the report with the digest of the file. */
  datatype Controls = Controls(yes: Bytes, no: Bytes, error: Bytes, report: Bytes)

  /** What goes out when nothing fails on the way: the accept frame, the stream, and after a whole one the report. */
  function Spoken(k: Controls, frames: seq<Frame>): seq<Frame> {
    [Frame(4, k.yes)] + frames + (if Complete(frames) then [Frame(7, k.report)] else [])
  }

  /** The one frame that goes out otherwise. */
  function Refusal(k: Controls, admitted: bool): Frame {
    if !admitted then Frame(4, k.no) else Frame(8, k.error)
  }

  /** What a connection with that much room takes of a control frame; one over 64 KiB is not sent at all. */
  function Fitting(f: Frame, room: nat): Bytes {
    if |f.payload| > 65536 then [] else Encode(f)[..Min(|Encode(f)|, room)]
  }

  predicate SmallControls(k: Controls) { |k.yes| <= MAX_CONTROL_FRAME && |k.report| <= MAX_CONTROL_FRAME }

  lemma EncodedSize(f: Frame)
    ensures |Encode(f)| == 5 + |f.payload|
  {
  }

  lemma SpokenBytes(k: Controls, frames: seq<Frame>)
    ensures EncodeAll(Spoken(k, frames))
         == Encode(Frame(MSG_ACCEPT, k.yes)) + EncodeAll(frames)
          + (if Complete(frames) then Encode(Frame(MSG_DONE, k.report)) else [])
  {
    hide Encode, Complete;
    var yes, report := Frame(MSG_ACCEPT, k.yes), Frame(MSG_DONE, k.report);
    assert ([yes] + frames)[1..] == frames;
    assert EncodeAll([yes] + frames) == Encode(yes) + EncodeAll(frames);
    if Complete(frames) {
      EncodeAllAppend([yes] + frames, report);
    } else {
      assert [yes] + frames + [] == [yes] + frames;
    }
  }

  lemma BetweenSpoken(start: Bytes, yes: Bytes, stream: Bytes, spoken: Bytes, data: Bytes)
    requires start + yes <= data && data <= start + yes + stream && yes + stream <= spoken
    ensures start <= data <= start + spoken
  {
    assert start + yes + stream == start + (yes + stream);
    assert start + (yes + stream) <= start + spoken;
  }

  lemma ReportSpoken(start: Bytes, yes: Bytes, stream: Bytes, report: Bytes, n: nat)
    requires n <= |report|
    ensures start <= start + yes + stream + report[..n] <= start + (yes + stream + report)
    ensures n == |report| ==> start + yes + stream + report[..n] == start + (yes + stream + report)
  {
    assert start + (yes + stream + report) == start + yes + stream + report;
    assert start + yes + stream + report[..n] == (start + yes + stream + report)[..|start + yes + stream| + n];
  }

  lemma StreamOf(frames: seq<Frame>, rest: Bytes, tail: Bytes)
    requires StreamFrames(frames, rest) && rest <= tail && (rest == tail || OnlyData(rest, frames))
    ensures StreamFrames(frames, tail) && |EncodeAll(frames)| <= 6 * |tail| + 5
  {
    LongerTail(frames, rest, tail);
    StreamSize(frames, tail);
  }

  /** From the accept frame on: the stream of `tail`, of which `body` is what can be read, and the report. */
  method Serve(ctx: Context, conn: Sink, body: Source, k: Controls, ghost start: Bytes, ghost tail: Bytes)
    returns (reported: bool, ghost frames: seq<Frame>)
    requires conn.data == start + Encode(Frame(MSG_ACCEPT, k.yes))
    requires body.Rest() <= tail && (body.end.AtEof? ==> body.Rest() == tail)
    modifies ctx, conn, body
    ensures StreamFrames(frames, tail)
    ensures start <= conn.data <= start + EncodeAll(Spoken(k, frames))
    ensures reported ==> Complete(frames) && conn.data == start + EncodeAll(Spoken(k, frames))
    ensures
      && old(ctx.polls).None? && body.end.AtEof? && |k.report| <= MAX_CONTROL_FRAME
      && old(conn.room) >= 6 * |tail| + |k.report| + 10
      ==> reported
  {
    hide Concat, StreamFrames, EncodeAll, Encode, Complete, Spoken, Payloads, AllData;
    ghost var yes, report := Encode(Frame(MSG_ACCEPT, k.yes)), Encode(Frame(MSG_DONE, k.report));
    EncodedSize(Frame(MSG_DONE, k.report));
    ghost var rest := body.Rest();
    reported := false;
    var ok, digest;
    ok, digest, frames := StreamBodyFrom(ctx, conn, body, []);
    StreamOf(frames, rest, tail);
    SpokenBytes(k, frames);
    BetweenSpoken(start, yes, EncodeAll(frames), EncodeAll(Spoken(k, frames)), conn.data);
    if !ok { return; }
    reported := WriteControl(conn, MSG_DONE, k.report);
    ReportSpoken(start, yes, EncodeAll(frames), report, |conn.data| - |start + yes + EncodeAll(frames)|);
  }

  /**
   * handleDownload from the answer of its access control on: the offset check, the seek and the accept frame, the
   * stream, and the report with the digest taken when the broadcast began. `frames` is the stream it set out to write.
   */
  method HandleDownload(ctx: Context, conn: Sink, f: BodyFile, k: Controls, admitted: bool, offset: int, pass: Pass)
    returns (started: bool, reported: bool, ghost frames: seq<Frame>)
    requires 0 <= offset <= |f.content| ==> PassOver(pass, f.content[offset..])
    modifies ctx, conn, f
    ensures started <==>
      admitted && 0 <= offset <= |f.content| && |k.yes| <= 65536 && |k.yes| + 5 <= old(conn.room)
    ensures !admitted || offset < 0 || offset > |f.content| ==>
      conn.data == old(conn.data) + Fitting(Refusal(k, admitted), old(conn.room))
    ensures admitted && 0 <= offset <= |f.content| && !started ==>
      conn.data == old(conn.data) + Fitting(Frame(4, k.yes), old(conn.room))
    ensures !started ==> !reported
    ensures started ==> StreamFrames(frames, f.content[offset..])
    ensures started ==> old(conn.data) <= conn.data <= old(conn.data) + EncodeAll(Spoken(k, frames))
    ensures reported ==> Complete(frames) && conn.data == old(conn.data) + EncodeAll(Spoken(k, frames))
    ensures
      && admitted && 0 <= offset <= |f.content| && SmallControls(k)
      && old(ctx.polls).None? && pass.end.AtEof?
      && old(conn.room) >= 6 * |f.content| + |k.yes| + |k.report| + 15
      ==> reported
  {
    hide Concat, StreamFrames, EncodeAll, Encode, Complete, Spoken;
    started, reported, frames := false, false, [];
    ghost var start, yes := conn.data, Encode(Frame(MSG_ACCEPT, k.yes));
    EncodedSize(Frame(MSG_ACCEPT, k.yes));
    if !admitted {
      var told := WriteControl(conn, MSG_ACCEPT, k.no);
      return;
    }
    if offset < 0 || offset > |f.content| {
      var told := WriteControl(conn, MSG_ERROR, k.error);
      return;
    }
    f.Seek(offset, pass);
    started := WriteControl(conn, MSG_ACCEPT, k.yes);
    if !started { return; }
    assert yes[..|yes|] == yes;
    reported, frames := Serve(ctx, conn, f.reader, k, start, f.content[offset..]);
  }

  // ---- what the downloader makes of it ----

  /** The frames of the stream among those that have arrived, the first of which is the accept frame. */
  function Streamed(got: seq<Frame>, frames: seq<Frame>): seq<Frame> {
    if |got| <= 1 then [] else if |got| <= 1 + |frames| then got[1..] else got[1..1 + |frames|]
  }

  /** What a downloader that asked for the right offset meets, when `wire` is what reaches it of the connection. */
  function Met(sum: Bytes, body: Bytes, frames: seq<Frame>, wire: Bytes, rooms: nat -> nat, stop: Input,
               space: bool, fate: Fate): Session {
    var got := ParseAll(wire, MAX_DATA_FRAME);
    Session(|body|, space, Arrivals(Streamed(got, frames), rooms, stop), fate,
            if Complete(frames) && |got| == |frames| + 2 then Done(sum) else NoReply)
  }

  lemma SpokenFits(k: Controls, frames: seq<Frame>, tail: Bytes)
    requires StreamFrames(frames, tail) && SmallControls(k)
    ensures forall f :: f in Spoken(k, frames) ==> Fits(f, MAX_DATA_FRAME)
  {
    StreamFits(frames, tail);
    hide StreamFrames, Complete;
  }

  /** A cut connection delivers the accept frame, then a prefix of the stream, and the report only after all of it. */
  lemma StreamedIsPrefix(k: Controls, frames: seq<Frame>, tail: Bytes, wire: Bytes)
    requires StreamFrames(frames, tail) && SmallControls(k) && wire <= EncodeAll(Spoken(k, frames))
    ensures Streamed(ParseAll(wire, MAX_DATA_FRAME), frames) <= frames
    ensures wire == EncodeAll(Spoken(k, frames)) && Complete(frames) ==>
      |ParseAll(wire, MAX_DATA_FRAME)| == |frames| + 2 && Streamed(ParseAll(wire, MAX_DATA_FRAME), frames) == frames
  {
    SpokenFits(k, frames, tail);
    hide StreamFrames, EncodeAll, ParseAll, Fits;
    CutConnection(Spoken(k, frames), wire, MAX_DATA_FRAME);
    var got, spoken := ParseAll(wire, MAX_DATA_FRAME), Spoken(k, frames);
    assert spoken[1..1 + |frames|] == frames;
    assert got == spoken[..|got|];
  }

  /** Cut anywhere, paused or cancelled, on a disk that fills up: it is an honest session. */
  lemma ServedIsHonest(hash: Bytes -> Bytes, o: Order, files: Files, k: Controls, body: Bytes, frames: seq<Frame>,
                       wire: Bytes, rooms: nat -> nat, stop: Input, space: bool, fate: Fate)
    requires hash(body) != [] && ResumeOffset(files, o.partial, o.size) <= |body| && SmallControls(k)
    requires StreamFrames(frames, body[ResumeOffset(files, o.partial, o.size)..]) && !stop.Arrive?
    requires wire <= EncodeAll(Spoken(k, frames))
    ensures HonestSession(hash, o, files, body, Met(hash(body), body, frames, wire, rooms, stop, space, fate))
  {
    var tail := body[ResumeOffset(files, o.partial, o.size)..];
    StreamedIsPrefix(k, frames, tail, wire);
    StreamIsHonest(frames, Streamed(ParseAll(wire, MAX_DATA_FRAME), frames), tail, rooms, stop);
    hide Honest, StreamFrames, EncodeAll, ParseAll, Arrivals, ResumeOffset, Streamed, Complete;
  }

  lemma {:induction false} CompleteIsUninterrupted(frames: seq<Frame>, tail: Bytes, rooms: nat -> nat, stop: Input)
    requires StreamFrames(frames, tail) && Complete(frames) && forall n :: rooms(n) >= CHUNK_BYTES
    ensures Uninterrupted(Arrivals(frames, rooms, stop), tail)
  {
    if frames[0].typ == MSG_DATA {
      CompleteIsUninterrupted(frames[1..], tail[|frames[0].payload|..], rooms, stop);
    }
  }

  /** When all of it arrives, and everything works, it is a whole session. */
  lemma ServedWhole(hash: Bytes -> Bytes, o: Order, files: Files, k: Controls, body: Bytes, frames: seq<Frame>,
                    rooms: nat -> nat, stop: Input, fate: Fate)
    requires hash(body) != [] && ResumeOffset(files, o.partial, o.size) <= |body| && SmallControls(k)
    requires StreamFrames(frames, body[ResumeOffset(files, o.partial, o.size)..]) && Complete(frames)
    requires !stop.Arrive? && Smooth(fate) && forall n :: rooms(n) >= CHUNK_BYTES
    ensures var wire := EncodeAll(Spoken(k, frames));
      WholeSession(hash, o, files, body, Met(hash(body), body, frames, wire, rooms, stop, true, fate))
  {
    var tail := body[ResumeOffset(files, o.partial, o.size)..];
    var wire := EncodeAll(Spoken(k, frames));
    ServedIsHonest(hash, o, files, k, body, frames, wire, rooms, stop, true, fate);
    StreamedIsPrefix(k, frames, tail, wire);
    CompleteIsUninterrupted(frames, tail, rooms, stop);
    hide StreamFrames, EncodeAll, ParseAll, Arrivals, Uninterrupted, HonestSession, ResumeOffset, Streamed, Complete;
  }

  /**
   * Both ends of a pull. Whatever reaches the downloader of what handleDownload wrote, the file it places has the
   * digest of the broadcast file, and is that file if what it resumed was a prefix of it.
   */
  lemma PulledIsBroadcast(hash: Bytes -> Bytes, o: Order, files: Files, k: Controls, body: Bytes, frames: seq<Frame>,
                          wire: Bytes, rooms: nat -> nat, stop: Input, space: bool, fate: Fate)
    requires o.partial != o.out && body != []
    requires hash(body) != [] && ResumeOffset(files, o.partial, o.size) <= |body| && SmallControls(k)
    requires StreamFrames(frames, body[ResumeOffset(files, o.partial, o.size)..]) && !stop.Arrive?
    requires wire <= EncodeAll(Spoken(k, frames))
    ensures var r := Downloaded(hash, o, files, Met(hash(body), body, frames, wire, rooms, stop, space, fate));
      var offset := ResumeOffset(files, o.partial, o.size);
      r.outcome.Placed? ==>
        && o.out in r.files && hash(r.files[o.out]) == hash(body)
        && r.files[o.out] == Base(files, o.partial, offset) + body[offset..]
        && (Base(files, o.partial, offset) <= body ==> r.files[o.out] == body)
  {
    var s := Met(hash(body), body, frames, wire, rooms, stop, space, fate);
    ServedIsHonest(hash, o, files, k, body, frames, wire, rooms, stop, space, fate);
    hide Met, HonestSession, StreamFrames, EncodeAll;
    if Downloaded(hash, o, files, s).outcome.Placed? {
      HonestDownload(hash, o, files, body, s);
    }
    hide Downloaded, Base;
  }

  /**
   * And an undisturbed pull ends well or clears the way: it places the file when what was resumed fits under the hash,
   * and discards the stale partial otherwise.
   */
  lemma UndisturbedPull(hash: Bytes -> Bytes, o: Order, files: Files, k: Controls, body: Bytes, frames: seq<Frame>,
                        rooms: nat -> nat, stop: Input, fate: Fate)
    requires o.partial != o.out && (o.out !in files || o.overwrite)
    requires 0 < |body| <= 0x100_0000_0000 && (o.size <= 0 || |body| <= o.size)
    requires hash(body) != [] && ResumeOffset(files, o.partial, o.size) <= |body| && SmallControls(k)
    requires StreamFrames(frames, body[ResumeOffset(files, o.partial, o.size)..]) && Complete(frames)
    requires !stop.Arrive? && Smooth(fate) && forall n :: rooms(n) >= CHUNK_BYTES
    ensures var offset := ResumeOffset(files, o.partial, o.size);
      var whole := Base(files, o.partial, offset) + body[offset..];
      var wire := EncodeAll(Spoken(k, frames));
      var r := Downloaded(hash, o, files, Met(hash(body), body, frames, wire, rooms, stop, true, fate));
      if hash(whole) == hash(body)
      then r.outcome.Placed? && r.files == (files - {o.partial})[o.out := whole]
      else r.outcome == Failed(Mismatch) && r.files == files - {o.partial}
  {
    var s := Met(hash(body), body, frames, EncodeAll(Spoken(k, frames)), rooms, stop, true, fate);
    ServedWhole(hash, o, files, k, body, frames, rooms, stop, fate);
    hide Met, WholeSession, StreamFrames, EncodeAll, Complete;
    StalePartialDiscarded(hash, o, files, body, s);
  }
}
