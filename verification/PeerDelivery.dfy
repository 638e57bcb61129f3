/**
 * A peer-to-peer transfer over two ordered, reliable data channels: one for the file, one for the two verification
 * MACs and the final ACK. Every interleaving of the two ends, the network, failures, cancels and closes is a run.
 */
module PeerDelivery {
  import opened Bytes

  const CHUNK: nat := 16384
  const QUEUE: nat := 128

  // ---- messages on the file channel ----

  datatype Frame = Data(data: Bytes) | Eof

  function EncodeFrame(payload: Bytes): Bytes { U32(|payload|) + payload }

  /** None stands for the error. The terminator is recognised by its header alone. */
  function DecodeFrame(msg: Bytes): Option<Frame> {
    if |msg| < 4 then None
    else
      var n := FromBigEndian(msg[..4]);
      if n == 0 then Some(Eof)
      else if n != |msg| - 4 then None
      else Some(Data(msg[4..]))
  }

  lemma FrameRoundTrip(payload: Bytes)
    requires |payload| < 0x1_0000_0000
    ensures DecodeFrame(EncodeFrame(payload)) == Some(if payload == [] then Eof else Data(payload))
  {
    U32RoundTrip(|payload|);
    var msg := EncodeFrame(payload);
    assert msg[..4] == U32(|payload|) && msg[4..] == payload;
  }

  /** Nothing but a framed payload decodes to data. */
  lemma DecodesExactly(msg: Bytes, d: Bytes)
    ensures DecodeFrame(msg) == Some(Data(d)) <==> 0 < |d| < 0x1_0000_0000 && msg == EncodeFrame(d)
  {
    if 0 < |d| < 0x1_0000_0000 && msg == EncodeFrame(d) { FrameRoundTrip(d); }
    if DecodeFrame(msg) == Some(Data(d)) {
      var h := msg[..4];
      EncodeOfDecode(h);
      BigEndianRoundTrip(FromBigEndian(h), 4);
      Pow256Values();
      hide BigEndian, FromBigEndian, Pow256;
      assert msg == h + msg[4..];
      assert FromBigEndian(h) < 0x1_0000_0000;
    }
  }

  lemma ZeroHeader(h: Bytes)
    requires |h| == 4
    ensures FromBigEndian(h) == 0 <==> h == [0, 0, 0, 0]
  {
    EncodeOfDecode(h);
    EncodeOfDecode([0, 0, 0, 0]);
    assert FromBigEndian([0, 0, 0, 0]) == 0 by {
      assert [0, 0, 0, 0][..3] == [0, 0, 0] && [0, 0, 0][..2] == [0, 0] && [0, 0][..1] == [0] && [0][..0] == [];
    }
    hide BigEndian, FromBigEndian;
  }

  /** The end of the stream is a zero length, whatever follows; anything but that and framed data is an error. */
  lemma EndsExactly(msg: Bytes)
    ensures DecodeFrame(msg) == Some(Eof) <==> |msg| >= 4 && msg[..4] == [0, 0, 0, 0]
    ensures DecodeFrame(msg) == None <==>
      (|msg| < 4 || msg[..4] != [0, 0, 0, 0]) && forall d :: 0 < |d| < 0x1_0000_0000 ==> msg != EncodeFrame(d)
  {
    if |msg| >= 4 { ZeroHeader(msg[..4]); }
    hide FromBigEndian, EncodeFrame;
    if DecodeFrame(msg) == None {
      forall d | 0 < |d| < 0x1_0000_0000 ensures msg != EncodeFrame(d) { DecodesExactly(msg, d); }
    } else if DecodeFrame(msg).value.Data? {
      DecodesExactly(msg, DecodeFrame(msg).value.data);
    }
  }

  // ---- both ends ----

  datatype Role = Sends | Receives

  /** A MAC is taken for its inputs: both ends see the same two fingerprints here. */
  datatype Ctrl = Mac(role: Role, secret: string) | Ack

  datatype Config = Config(
    source: Bytes,
    senderSecret: string, senderInsecure: bool,
    receiverSecret: string, receiverInsecure: bool,
    patient: bool) // the receiver's session is not closed before Receive has returned

  datatype Sender =
    | SenderConnects
    | SenderAwaitsMac
    | Streaming
    | Draining
    | AwaitingAck
    | SenderDone(ok: bool)

  datatype Ending = Complete | WriteFailed | PeerFailed | Unverified | GaveUp

  datatype Receiver =
    | ReceiverConnects
    | ReceiverAwaitsMac
    | Receiving
    | ReceiverDone(how: Ending)

  /** One direction of the control channel: in flight, and the one message its end has room for. */
  datatype Channel = Channel(slot: Option<Ctrl>, flying: seq<Ctrl>)

  datatype Session = Session(
    s: Sender, r: Receiver,
    sent: nat,             // bytes of the source written to the file channel
    wire: seq<Bytes>,      // file channel messages in flight
    queue: seq<Frame>,     // decoded, not yet taken by Receive
    delivered: Bytes,      // the data that has been put in the queue
    written: Bytes,        // what the destination has
    toS: Channel, toR: Channel,
    sClosed: bool, rClosed: bool,
    rFailed: bool)         // the receiver's failure latch

  const EMPTY := Channel(None, [])

  const START := Session(SenderConnects, ReceiverConnects, 0, [], [], [], [], EMPTY, EMPTY, false, false, false)

  datatype Move =
    | SenderOpens
    | SenderChecksMac
    | SenderWrites(n: nat)
    | SenderDrains
    | SenderTakesAck
    | SenderGivesUp                                           // any failure, cancel, close or timeout
    | ReceiverOpens
    | ReceiverChecksMac
    | ReceiverTakes(writes: bool, part: nat, acks: bool)
    | ReceiverSeesFailure                                     // the latch is set and the queue is empty
    | ReceiverGivesUp                                         // its context or its session is over
    | Arrives(drop: bool)                                     // OnMessage, file channel
    | CtrlArrivesAtSender(drop: bool)
    | CtrlArrivesAtReceiver(drop: bool)
    | ReceiverFails
    | SenderCloses
    | ReceiverCloses

  predicate Enabled(c: Config, st: Session, m: Move) {
    match m
    case SenderOpens => st.s.SenderConnects?
    case SenderChecksMac => st.s.SenderAwaitsMac? && st.toS.slot.Some?
    case SenderWrites(n) => st.s.Streaming? && (st.sent < |c.source| ==> 0 < n <= CHUNK)
    case SenderDrains => st.s.Draining?
    case SenderTakesAck => st.s.AwaitingAck? && st.toS.slot.Some?
    case SenderGivesUp => !st.s.SenderDone?
    case ReceiverOpens => st.r.ReceiverConnects?
    case ReceiverChecksMac => st.r.ReceiverAwaitsMac? && st.toR.slot.Some?
    case ReceiverTakes(_, _, _) => st.r.Receiving? && st.queue != []
    case ReceiverSeesFailure => st.r.Receiving? && st.rFailed && st.queue == []
    case ReceiverGivesUp => !st.r.ReceiverDone?
    case Arrives(drop) => st.wire != [] && (if drop then st.rClosed else |st.queue| < QUEUE)
    case CtrlArrivesAtSender(drop) => st.toS.flying != [] && (if drop then st.sClosed else st.toS.slot.None?)
    case CtrlArrivesAtReceiver(drop) => st.toR.flying != [] && (if drop then st.rClosed else st.toR.slot.None?)
    case ReceiverFails => true
    case SenderCloses => true
    case ReceiverCloses => c.patient ==> st.r.ReceiverDone?
  }

  function Land(ch: Channel, drop: bool): Channel
    requires ch.flying != []
  {
    Channel(if drop then ch.slot else Some(ch.flying[0]), ch.flying[1..])
  }

  function Post(ch: Channel, m: Ctrl): Channel { ch.(flying := ch.flying + [m]) }

  /** What Receive does with the next frame of the queue. */
  function Take(st: Session, writes: bool, part: nat, acks: bool): Session
    requires st.queue != []
  {
    var st' := st.(queue := st.queue[1..]);
    match st.queue[0]
    case Eof => st'.(r := ReceiverDone(Complete), toS := if acks then Post(st.toS, Ack) else st.toS)
    case Data(d) =>
      if writes then st'.(written := st.written + d)
      else st'.(written := st.written + (if part <= |d| then d[..part] else d), r := ReceiverDone(WriteFailed))
  }

  /** The pion callback: decode, then queue or drop; what does not decode sets the latch. */
  function Arrive(st: Session, drop: bool): Session
    requires st.wire != []
  {
    var st' := st.(wire := st.wire[1..]);
    match DecodeFrame(st.wire[0])
    case None => st'.(rFailed := true)
    case Some(f) =>
      if drop then st'
      else st'.(queue := st.queue + [f], delivered := st.delivered + if f.Data? then f.data else [])
  }

  function Next(c: Config, st: Session, m: Move): Session
    requires Enabled(c, st, m)
  {
    match m
    case SenderOpens =>
      if c.senderSecret != "" then st.(s := SenderAwaitsMac, toR := Post(st.toR, Mac(Sends, c.senderSecret)))
      else st.(s := if c.senderInsecure then Streaming else SenderDone(false))
    case SenderChecksMac =>
      st.(s := if st.toS.slot.value == Mac(Receives, c.senderSecret) then Streaming else SenderDone(false),
          toS := st.toS.(slot := None))
    case SenderWrites(n) =>
      if st.sent >= |c.source| then st.(s := Draining, wire := st.wire + [EncodeFrame([])])
      else
        var k := if n <= |c.source| - st.sent then n else |c.source| - st.sent;
        st.(sent := st.sent + k, wire := st.wire + [EncodeFrame(c.source[st.sent..st.sent + k])])
    case SenderDrains => st.(s := AwaitingAck)
    case SenderTakesAck => st.(s := SenderDone(true), toS := st.toS.(slot := None))
    case SenderGivesUp => st.(s := SenderDone(false))
    case ReceiverOpens =>
      if c.receiverSecret != "" then st.(r := ReceiverAwaitsMac, toS := Post(st.toS, Mac(Receives, c.receiverSecret)))
      else st.(r := if c.receiverInsecure then Receiving else ReceiverDone(Unverified))
    case ReceiverChecksMac =>
      st.(r := if st.toR.slot.value == Mac(Sends, c.receiverSecret) then Receiving else ReceiverDone(Unverified),
          toR := st.toR.(slot := None))
    case ReceiverTakes(writes, part, acks) => Take(st, writes, part, acks)
    case ReceiverSeesFailure => st.(r := ReceiverDone(PeerFailed))
    case ReceiverGivesUp => st.(r := ReceiverDone(GaveUp))
    case Arrives(drop) => Arrive(st, drop)
    case CtrlArrivesAtSender(drop) => st.(toS := Land(st.toS, drop))
    case CtrlArrivesAtReceiver(drop) => st.(toR := Land(st.toR, drop))
    case ReceiverFails => st.(rFailed := true)
    case SenderCloses => st.(sClosed := true)
    case ReceiverCloses => st.(rClosed := true)
  }

  /** Moves that are not possible when their turn comes are passed over. */
  function Run(c: Config, st: Session, moves: seq<Move>): Session
    decreases |moves|
  {
    if moves == [] then st
    else Run(c, if Enabled(c, st, moves[0]) then Next(c, st, moves[0]) else st, moves[1..])
  }

  // ---- what is on its way ----

  function Load(f: Frame): Bytes { if f.Data? then f.data else [] }

  function Queued(q: seq<Frame>): Bytes {
    if q == [] then [] else Load(q[0]) + Queued(q[1..])
  }

  predicate Decodes(wire: seq<Bytes>) {
    forall i :: 0 <= i < |wire| ==> DecodeFrame(wire[i]).Some?
  }

  /** The frames the messages in flight decode to. */
  function Decoded(wire: seq<Bytes>): seq<Frame> {
    if wire == [] then []
    else [if DecodeFrame(wire[0]).Some? then DecodeFrame(wire[0]).value else Eof] + Decoded(wire[1..])
  }

  /** Everything between what the sender has sent and what Receive has taken. */
  function Ahead(st: Session): seq<Frame> { st.queue + Decoded(st.wire) }

  lemma {:induction false} QueuedAppend(q: seq<Frame>, f: Frame)
    ensures Queued(q + [f]) == Queued(q) + Load(f)
  {
    if q == [] {
      assert q + [f] == [f] && [f][1..] == [];
    } else {
      assert (q + [f])[1..] == q[1..] + [f];
      QueuedAppend(q[1..], f);
      hide Load;
      assert Load(q[0]) + (Queued(q[1..]) + Load(f)) == (Load(q[0]) + Queued(q[1..])) + Load(f);
    }
  }

  lemma {:induction false} DecodedAppend(wire: seq<Bytes>, m: Bytes)
    requires DecodeFrame(m).Some?
    ensures Decoded(wire + [m]) == Decoded(wire) + [DecodeFrame(m).value]
  {
    hide DecodeFrame;
    if wire == [] {
      assert wire + [m] == [m] && [m][1..] == [];
    } else {
      assert (wire + [m])[1..] == wire[1..] + [m];
      DecodedAppend(wire[1..], m);
    }
  }

  // ---- delivery ----

  predicate Open(s: Sender) { s.Streaming? || s.SenderConnects? || s.SenderAwaitsMac? }

  /** What is written and what is ahead make up what has been sent; an end-of-stream comes last and after everything. */
  predicate Pieces(source: Bytes, sent: nat, written: Bytes, ahead: seq<Frame>, streaming: bool) {
    && sent <= |source| && written + Queued(ahead) == source[..sent]
    && forall i :: 0 <= i < |ahead| && ahead[i].Eof? ==> i == |ahead| - 1 && !streaming && sent == |source|
  }

  /** While Receive has not returned. */
  predicate InOrder(c: Config, st: Session) {
    Decodes(st.wire) && Pieces(c.source, st.sent, st.written, Ahead(st), Open(st.s))
  }

  predicate Delivery(c: Config, st: Session) {
    && (c.patient && st.rClosed ==> st.r.ReceiverDone?)
    && (st.r == ReceiverDone(Complete) ==> st.written == c.source)
    && st.written <= c.source
    && (!st.r.ReceiverDone? ==> InOrder(c, st))
  }

  lemma Continued(source: Bytes, sent: nat, more: nat, written: Bytes, q: Bytes)
    requires sent <= more <= |source| && written + q == source[..sent]
    ensures written + (q + source[sent..more]) == source[..more]
  {
    assert written + (q + source[sent..more]) == (written + q) + source[sent..more];
  }

  lemma PiecesMore(source: Bytes, sent: nat, written: Bytes, ahead: seq<Frame>, more: nat)
    requires Pieces(source, sent, written, ahead, true) && sent < more <= |source|
    ensures Pieces(source, more, written, ahead + [Data(source[sent..more])], true)
  {
    QueuedAppend(ahead, Data(source[sent..more]));
    Continued(source, sent, more, written, Queued(ahead));
    hide Queued;
  }

  lemma PiecesEnd(source: Bytes, written: Bytes, ahead: seq<Frame>)
    requires Pieces(source, |source|, written, ahead, true)
    ensures Pieces(source, |source|, written, ahead + [Eof], false)
  {
    QueuedAppend(ahead, Eof);
    assert Queued(ahead) + [] == Queued(ahead);
    hide Queued;
  }

  lemma PrefixSplit(source: Bytes, sent: nat, written: Bytes, d: Bytes, rest: Bytes, part: nat)
    requires sent <= |source| && written + (d + rest) == source[..sent]
    ensures (written + d) + rest == source[..sent] && written + d <= source
    ensures part <= |d| ==> written + d[..part] <= source
  {
    assert written + (d + rest) == (written + d) + rest;
    assert part <= |d| ==> written + d[..part] <= written + d;
  }

  lemma PiecesTaken(source: Bytes, sent: nat, written: Bytes, ahead: seq<Frame>, streaming: bool, part: nat)
    requires Pieces(source, sent, written, ahead, streaming) && ahead != []
    ensures ahead[0].Eof? ==> written == source
    ensures ahead[0].Data? ==>
      && Pieces(source, sent, written + ahead[0].data, ahead[1..], streaming)
      && written + ahead[0].data <= source
      && (part <= |ahead[0].data| ==> written + ahead[0].data[..part] <= source)
  {
    var f, tail := ahead[0], ahead[1..];
    assert Queued(ahead) == Load(f) + Queued(tail);
    if f.Eof? {
      assert |ahead| == 1 && Queued(tail) == [] && source[..|source|] == source;
    } else {
      assert forall i :: 0 <= i < |tail| ==> tail[i] == ahead[i + 1];
      hide Queued;
      PrefixSplit(source, sent, written, f.data, Queued(tail), part);
    }
  }

  lemma AheadGrows(st: Session, payload: Bytes)
    requires |payload| <= CHUNK && Decodes(st.wire)
    ensures Decodes(st.wire + [EncodeFrame(payload)])
    ensures st.queue + Decoded(st.wire + [EncodeFrame(payload)])
         == Ahead(st) + [if payload == [] then Eof else Data(payload)]
  {
    FrameRoundTrip(payload);
    hide EncodeFrame, DecodeFrame;
    DecodedAppend(st.wire, EncodeFrame(payload));
  }

  lemma SendInOrder(c: Config, st: Session, n: nat)
    requires InOrder(c, st) && Enabled(c, st, SenderWrites(n))
    ensures InOrder(c, Next(c, st, SenderWrites(n)))
  {
    hide EncodeFrame, Decodes, Decoded, Pieces;
    if st.sent >= |c.source| {
      AheadGrows(st, []);
      assert st.sent == |c.source| by { PiecesBound(c.source, st.sent, st.written, Ahead(st), true); }
      PiecesEnd(c.source, st.written, Ahead(st));
    } else {
      var k := if n <= |c.source| - st.sent then n else |c.source| - st.sent;
      AheadGrows(st, c.source[st.sent..st.sent + k]);
      PiecesMore(c.source, st.sent, st.written, Ahead(st), st.sent + k);
    }
  }

  lemma PiecesBound(source: Bytes, sent: nat, written: Bytes, ahead: seq<Frame>, streaming: bool)
    requires Pieces(source, sent, written, ahead, streaming)
    ensures sent <= |source|
  {
  }

  /** A message that arrives moves from the wire to the queue. */
  lemma ArriveInOrder(c: Config, st: Session)
    requires InOrder(c, st) && st.wire != []
    ensures InOrder(c, Arrive(st, false))
  {
    hide DecodeFrame, Pieces;
    assert DecodeFrame(st.wire[0]).Some?;
    assert Decodes(st.wire[1..]);
    assert Ahead(Arrive(st, false)) == Ahead(st);
  }

  lemma TakeInOrder(c: Config, st: Session, writes: bool, part: nat, acks: bool)
    requires InOrder(c, st) && st.queue != [] && st.r.Receiving?
    ensures var st' := Take(st, writes, part, acks);
      && (st.written <= c.source ==> st'.written <= c.source)
      && (st'.r == ReceiverDone(Complete) ==> st'.written == c.source)
      && (st'.r == st.r ==> InOrder(c, st'))
  {
    var ahead := Ahead(st);
    assert ahead[0] == st.queue[0] && ahead[1..] == st.queue[1..] + Decoded(st.wire);
    PiecesTaken(c.source, st.sent, st.written, ahead, Open(st.s), part);
    hide Decoded, Decodes, Pieces;
  }

  lemma NextDelivers(c: Config, st: Session, m: Move)
    requires c.patient && Delivery(c, st) && Enabled(c, st, m)
    ensures Delivery(c, Next(c, st, m))
  {
    match m {
      case SenderWrites(n) =>
        if !st.r.ReceiverDone? { SendInOrder(c, st, n); }
        hide InOrder, EncodeFrame;
      case Arrives(drop) =>
        if !st.r.ReceiverDone? { ArriveInOrder(c, st); }
        hide InOrder, DecodeFrame;
      case ReceiverTakes(writes, part, acks) =>
        TakeInOrder(c, st, writes, part, acks);
        hide InOrder;
      case _ =>
        QuietInOrder(c, st, m);
        hide InOrder;
    }
  }

  /** The moves that leave the stream alone. */
  lemma QuietInOrder(c: Config, st: Session, m: Move)
    requires Enabled(c, st, m) && !m.SenderWrites? && !m.Arrives? && !m.ReceiverTakes?
    ensures var st' := Next(c, st, m);
      && st'.written == st.written && (InOrder(c, st) ==> InOrder(c, st'))
      && (st'.r != ReceiverDone(Complete) || st'.r == st.r)
  {
    QuietStays(c, st, m);
    hide Decodes, Decoded, Queued, Next;
  }

  lemma QuietStays(c: Config, st: Session, m: Move)
    requires Enabled(c, st, m) && !m.SenderWrites? && !m.Arrives? && !m.ReceiverTakes?
    ensures var st' := Next(c, st, m);
      && st'.wire == st.wire && st'.queue == st.queue && st'.sent == st.sent && st'.written == st.written
      && st'.delivered == st.delivered
      && (Open(st'.s) ==> Open(st.s)) && (st'.r == st.r || st.r != ReceiverDone(WriteFailed))
      && (st'.r != ReceiverDone(Complete) || st'.r == st.r)
  {
    hide Post, Land, Arrive, Take, EncodeFrame;
    match m
    case SenderOpens =>
    case SenderChecksMac =>
    case SenderDrains =>
    case SenderTakesAck =>
    case SenderGivesUp =>
    case ReceiverOpens =>
    case ReceiverChecksMac =>
    case ReceiverSeesFailure =>
    case ReceiverGivesUp =>
    case _ =>
  }

  lemma {:induction false} RunDelivers(c: Config, st: Session, moves: seq<Move>)
    requires c.patient && Delivery(c, st)
    ensures Delivery(c, Run(c, st, moves))
    decreases |moves|
  {
    if moves != [] {
      hide Delivery, Next, Enabled;
      if Enabled(c, st, moves[0]) { NextDelivers(c, st, moves[0]); }
      RunDelivers(c, if Enabled(c, st, moves[0]) then Next(c, st, moves[0]) else st, moves[1..]);
    }
  }

  /**
   * Under every interleaving: what is written is a prefix of the source, and Receive returns nil only for all of it.
   */
  lemma WritesOnlyThePrefix(c: Config, moves: seq<Move>)
    requires c.patient
    ensures var end := Run(c, START, moves);
      end.written <= c.source && (end.r == ReceiverDone(Complete) ==> end.written == c.source)
  {
    assert Delivery(c, START);
    RunDelivers(c, START, moves);
    hide Run;
  }

  /** What has arrived is what is written and what is queued, except after a failed write. */
  predicate Tally(st: Session) {
    |st.queue| <= QUEUE && (st.r != ReceiverDone(WriteFailed) ==> st.delivered == st.written + Queued(st.queue))
  }

  lemma TallyArrive(st: Session, drop: bool)
    requires Tally(st) && st.wire != [] && (!drop ==> |st.queue| < QUEUE)
    ensures Tally(Arrive(st, drop))
  {
    if DecodeFrame(st.wire[0]).Some? {
      var f := DecodeFrame(st.wire[0]).value;
      QueuedAppend(st.queue, f);
      hide DecodeFrame, Queued;
      assert (st.written + Queued(st.queue)) + Load(f) == st.written + (Queued(st.queue) + Load(f));
    }
  }

  lemma TallyTake(st: Session, writes: bool, part: nat, acks: bool)
    requires Tally(st) && st.queue != [] && st.r.Receiving?
    ensures Tally(Take(st, writes, part, acks))
  {
    var f, rest := st.queue[0], Queued(st.queue[1..]);
    assert Queued(st.queue) == Load(f) + rest;
    hide Queued, Post;
    assert (st.written + Load(f)) + rest == st.written + (Load(f) + rest);
    assert f.Eof? ==> [] + rest == rest;
  }

  lemma NextTallies(c: Config, st: Session, m: Move)
    requires Tally(st) && Enabled(c, st, m)
    ensures Tally(Next(c, st, m))
  {
    match m
    case Arrives(drop) => TallyArrive(st, drop); hide Tally, Arrive;
    case ReceiverTakes(writes, part, acks) => TallyTake(st, writes, part, acks); hide Tally, Take;
    case SenderWrites(n) => TallyAfterWrites(c, st, n); hide *;
    case _ => QuietStays(c, st, m); hide Queued, Next;
  }

  lemma TallyAfterWrites(c: Config, st: Session, n: nat)
    requires Tally(st) && Enabled(c, st, SenderWrites(n))
    ensures Tally(Next(c, st, SenderWrites(n)))
  {
    hide EncodeFrame, Queued;
  }

  lemma {:induction false} RunTallies(c: Config, st: Session, moves: seq<Move>)
    requires Tally(st)
    ensures Tally(Run(c, st, moves))
    decreases |moves|
  {
    if moves != [] {
      hide Tally, Next, Enabled;
      if Enabled(c, st, moves[0]) { NextTallies(c, st, moves[0]); }
      RunTallies(c, if Enabled(c, st, moves[0]) then Next(c, st, moves[0]) else st, moves[1..]);
    }
  }

  /** When Receive returns the peer's failure, it has written everything that had arrived by then. */
  lemma DrainsBeforeFailing(c: Config, moves: seq<Move>)
    ensures var st := Run(c, START, moves);
      Enabled(c, st, ReceiverSeesFailure) ==> Next(c, st, ReceiverSeesFailure).written == st.delivered
  {
    RunTallies(c, START, moves);
    hide Run;
  }

  /**
   * What OnMessage does with a message: data and the end of the stream are queued behind what is there, or lost if the
   * session is closed; anything else sets the failure latch, and queues nothing.
   */
  lemma ArrivesExactly(st: Session, drop: bool)
    requires st.wire != []
    ensures var st' := Arrive(st, drop);
      && st'.wire == st.wire[1..] && st'.written == st.written && st'.s == st.s && st'.r == st.r
      && st'.queue == (if drop || DecodeFrame(st.wire[0]).None? then st.queue
                       else st.queue + [DecodeFrame(st.wire[0]).value])
      && st'.rFailed == (st.rFailed || DecodeFrame(st.wire[0]).None?)
  {
    hide DecodeFrame;
  }

  /** The failure latch is set by a failure or by a message that is not ours, and never reset; closing is for good. */
  lemma LatchesExactly(c: Config, st: Session, m: Move)
    requires Enabled(c, st, m)
    ensures var st' := Next(c, st, m);
      && (st'.rFailed <==> st.rFailed || m.ReceiverFails? || (m.Arrives? && DecodeFrame(st.wire[0]).None?))
      && (st'.sClosed <==> st.sClosed || m.SenderCloses?) && (st'.rClosed <==> st.rClosed || m.ReceiverCloses?)
  {
    hide DecodeFrame, EncodeFrame, Post, Land;
    match m
    case Arrives(drop) =>
    case ReceiverTakes(_, _, _) =>
    case SenderWrites(_) =>
    case SenderOpens =>
    case ReceiverOpens =>
    case _ =>
  }

  // ---- the acknowledgement ----

  function Pending(ch: Channel): seq<Ctrl> {
    (if ch.slot.Some? then [ch.slot.value] else []) + ch.flying
  }

  predicate Past(s: Sender) { s.Streaming? || s.Draining? || s.AwaitingAck? || s == SenderDone(true) }

  /** What the receiver has on its way to the sender: its MAC, its ACK, or the one before the other. */
  predicate Replies(c: Config, pending: seq<Ctrl>) {
    && |pending| <= 2
    && (|pending| == 2 ==> pending[0] == Mac(Receives, c.receiverSecret) && pending[1] == Ack)
    && (|pending| == 1 ==> pending[0] == Mac(Receives, c.receiverSecret) || pending[0] == Ack)
  }

  predicate HasMac(pending: seq<Ctrl>) { |pending| > 0 && pending[0].Mac? }
  predicate HasAck(pending: seq<Ctrl>) { |pending| > 0 && pending[|pending| - 1] == Ack }

  predicate SenderSatisfied(c: Config) {
    if c.senderSecret != "" then c.senderSecret == c.receiverSecret else c.senderInsecure
  }

  predicate ReceiverSatisfied(c: Config) {
    if c.receiverSecret != "" then c.senderSecret == c.receiverSecret else c.receiverInsecure
  }

  /** What the sender's channel end may hold, against where the two ends are. */
  predicate SenderSide(c: Config, s: Sender, r: Receiver, toS: seq<Ctrl>) {
    && Replies(c, toS)
    && (HasMac(toS) ==> c.receiverSecret != "" && !r.ReceiverConnects?)
    && (HasAck(toS) ==> r == ReceiverDone(Complete))
    && (s.SenderAwaitsMac? ==> c.senderSecret != "")
    && (Past(s) ==> SenderSatisfied(c))
    && (Past(s) && c.senderSecret != "" ==> !HasMac(toS) && !r.ReceiverConnects?)
    && (s == SenderDone(true) && !Mismatched(c) ==> r == ReceiverDone(Complete))
  }

  predicate OnlySenderMacs(c: Config, toR: seq<Ctrl>) {
    forall i :: 0 <= i < |toR| ==> toR[i] == Mac(Sends, c.senderSecret) && c.senderSecret != ""
  }

  predicate ReceiverSide(c: Config, r: Receiver, toR: seq<Ctrl>) {
    && OnlySenderMacs(c, toR)
    && (r.ReceiverAwaitsMac? ==> c.receiverSecret != "")
    && (r.Receiving? || r == ReceiverDone(Complete) ==> ReceiverSatisfied(c))
  }

  /** Nothing is sent, and nothing received, before the sender is satisfied. */
  predicate NothingEarly(c: Config, st: Session) {
    st.wire != [] || st.queue != [] || st.r == ReceiverDone(Complete) ==> SenderSatisfied(c)
  }

  predicate Handshaken(c: Config, st: Session) {
    && SenderSide(c, st.s, st.r, Pending(st.toS))
    && ReceiverSide(c, st.r, Pending(st.toR))
    && NothingEarly(c, st)
  }

  lemma PostPending(ch: Channel, m: Ctrl)
    ensures Pending(Post(ch, m)) == Pending(ch) + [m]
  {
  }

  lemma TakenPending(ch: Channel)
    requires ch.slot.Some?
    ensures Pending(ch) != [] && Pending(ch)[0] == ch.slot.value && Pending(ch.(slot := None)) == Pending(ch)[1..]
  {
  }

  /** A message that lands stays pending; a dropped one is gone from the middle. */
  lemma LandPending(ch: Channel, drop: bool)
    requires ch.flying != [] && (!drop ==> ch.slot.None?)
    ensures var after := Pending(Land(ch, drop));
      after == Pending(ch) || exists i :: 0 <= i < |Pending(ch)| && after == Pending(ch)[..i] + Pending(ch)[i + 1..]
  {
    if drop {
      var i := if ch.slot.Some? then 1 else 0;
      assert Pending(Land(ch, drop)) == Pending(ch)[..i] + Pending(ch)[i + 1..];
    } else {
      assert Pending(Land(ch, drop)) == Pending(ch);
    }
  }

  lemma SideAfterLanding(c: Config, s: Sender, r: Receiver, before: seq<Ctrl>, after: seq<Ctrl>)
    requires after == before || exists i :: 0 <= i < |before| && after == before[..i] + before[i + 1..]
    ensures SenderSide(c, s, r, before) ==> SenderSide(c, s, r, after)
    ensures ReceiverSide(c, r, before) ==> ReceiverSide(c, r, after)
  {
  }

  lemma SideSenderTakes(c: Config, s: Sender, r: Receiver, toS: seq<Ctrl>)
    requires SenderSide(c, s, r, toS) && toS != []
    ensures s.SenderAwaitsMac? ==>
      SenderSide(c, if toS[0] == Mac(Receives, c.senderSecret) then Streaming else SenderDone(false), r, toS[1..])
    ensures s.AwaitingAck? ==> SenderSide(c, SenderDone(true), r, toS[1..])
    ensures s.SenderAwaitsMac? && toS[0] == Mac(Receives, c.senderSecret) ==> SenderSatisfied(c)
  {
  }

  lemma SideSenderMoves(c: Config, s: Sender, r: Receiver, toS: seq<Ctrl>, s': Sender)
    requires SenderSide(c, s, r, toS)
    requires s' == SenderDone(false) || (Past(s) && Past(s') && s' != SenderDone(true))
          || (s'.SenderAwaitsMac? && c.senderSecret != "")
          || (s'.Streaming? && c.senderSecret == "" && c.senderInsecure)
    ensures SenderSide(c, s', r, toS)
  {
  }

  /** The receiver's two replies, and its other moves. */
  lemma SideReceiverMoves(c: Config, s: Sender, r: Receiver, toS: seq<Ctrl>, r': Receiver)
    requires SenderSide(c, s, r, toS)
    ensures r.ReceiverConnects? && r'.ReceiverAwaitsMac? && c.receiverSecret != "" ==>
      SenderSide(c, s, r', toS + [Mac(Receives, c.receiverSecret)])
    ensures r.Receiving? && r' == ReceiverDone(Complete) ==>
      SenderSide(c, s, r', toS) && SenderSide(c, s, r', toS + [Ack])
    ensures r != ReceiverDone(Complete) && !r'.ReceiverConnects? ==> SenderSide(c, s, r', toS)
  {
    if r.ReceiverConnects? { assert toS == []; }
  }

  lemma SideReceiverTakes(c: Config, r: Receiver, toR: seq<Ctrl>)
    requires ReceiverSide(c, r, toR) && toR != [] && r.ReceiverAwaitsMac?
    ensures var r' := if toR[0] == Mac(Sends, c.receiverSecret) then Receiving else ReceiverDone(Unverified);
      ReceiverSide(c, r', toR[1..])
  {
    assert toR[0] == Mac(Sends, c.senderSecret);
    assert forall i :: 0 <= i < |toR[1..]| ==> toR[1..][i] == toR[i + 1];
  }

  lemma ReceiverSideKept(c: Config, r: Receiver, r': Receiver, toR: seq<Ctrl>)
    requires ReceiverSide(c, r, toR) && (r'.ReceiverAwaitsMac? ==> c.receiverSecret != "")
    requires r'.Receiving? || r' == ReceiverDone(Complete) ==> ReceiverSatisfied(c)
    ensures ReceiverSide(c, r', toR)
  {
    hide ReceiverSatisfied, OnlySenderMacs;
  }

  lemma SenderMoveHandshakes(c: Config, st: Session, m: Move)
    requires Handshaken(c, st) && Enabled(c, st, m)
    requires m.SenderOpens? || m.SenderChecksMac? || m.SenderWrites? || m.SenderDrains? || m.SenderTakesAck?
        || m.SenderGivesUp?
    ensures Handshaken(c, Next(c, st, m))
  {
    var st', toS := Next(c, st, m), Pending(st.toS);
    if m.SenderChecksMac? || m.SenderTakesAck? {
      TakenPending(st.toS);
      SideSenderTakes(c, st.s, st.r, toS);
      hide Pending, SenderSide, ReceiverSide, SenderSatisfied;
    } else {
      PostPending(st.toR, Mac(Sends, c.senderSecret));
      assert Past(st.s) ==> SenderSatisfied(c);
      SideSenderMoves(c, st.s, st.r, toS, st'.s);
      hide Pending, SenderSide, EncodeFrame, Post;
    }
  }

  lemma TakeHandshakes(c: Config, st: Session, writes: bool, part: nat, acks: bool)
    requires Handshaken(c, st) && st.r.Receiving? && st.queue != []
    ensures Handshaken(c, Take(st, writes, part, acks))
  {
    var st' := Take(st, writes, part, acks);
    SideReceiverMoves(c, st.s, st.r, Pending(st.toS), st'.r);
    PostPending(st.toS, Ack);
    hide Pending, Post, SenderSide, SenderSatisfied, ReceiverSatisfied;
  }

  lemma CheckHandshakes(c: Config, st: Session)
    requires Handshaken(c, st) && Enabled(c, st, ReceiverChecksMac)
    ensures Handshaken(c, Next(c, st, ReceiverChecksMac))
  {
    TakenPending(st.toR);
    SideReceiverTakes(c, st.r, Pending(st.toR));
    hide Pending, ReceiverSide, SenderSatisfied, ReceiverSatisfied, Take, Post, Land, Arrive, EncodeFrame;
    SideReceiverMoves(c, st.s, st.r, Pending(st.toS), Next(c, st, ReceiverChecksMac).r);
    hide SenderSide;
  }

  lemma OpenHandshakes(c: Config, st: Session)
    requires Handshaken(c, st) && st.r.ReceiverConnects? && c.receiverSecret != ""
    ensures Handshaken(c, st.(r := ReceiverAwaitsMac, toS := Post(st.toS, Mac(Receives, c.receiverSecret))))
  {
    PostPending(st.toS, Mac(Receives, c.receiverSecret));
    hide Pending, Post, SenderSatisfied;
    var mac := Mac(Receives, c.receiverSecret);
    SideReceiverMoves(c, st.s, st.r, Pending(st.toS), ReceiverAwaitsMac);
    assert SenderSide(c, st.s, ReceiverAwaitsMac, Pending(st.toS) + [mac]);
    hide SenderSide;
    ReceiverSideKept(c, st.r, ReceiverAwaitsMac, Pending(st.toR));
    hide ReceiverSide;
    assert NothingEarly(c, st.(r := ReceiverAwaitsMac, toS := Post(st.toS, mac)));
  }

  /** The moves after which the receiver is past its handshake, or at its end, and has said nothing more. */
  lemma SilentHandshakes(c: Config, st: Session, r': Receiver)
    requires Handshaken(c, st) && !st.r.ReceiverDone?
    requires match r'
             case Receiving => ReceiverSatisfied(c)
             case ReceiverDone(how) => !how.Complete?
             case _ => false
    ensures Handshaken(c, st.(r := r'))
  {
    hide Pending, SenderSatisfied, ReceiverSatisfied;
    SideReceiverMoves(c, st.s, st.r, Pending(st.toS), r');
    assert SenderSide(c, st.s, r', Pending(st.toS));
    hide SenderSide;
    ReceiverSideKept(c, st.r, r', Pending(st.toR));
    hide ReceiverSide;
    assert NothingEarly(c, st.(r := r'));
  }

  lemma ReceiverMoveHandshakes(c: Config, st: Session, m: Move)
    requires Handshaken(c, st) && Enabled(c, st, m)
    requires m.ReceiverOpens? || m.ReceiverChecksMac? || m.ReceiverTakes? || m.ReceiverSeesFailure?
        || m.ReceiverGivesUp?
    ensures Handshaken(c, Next(c, st, m))
  {
    match m
    case ReceiverTakes(writes, part, acks) =>
      TakeHandshakes(c, st, writes, part, acks);
      hide Handshaken, Take;
    case ReceiverChecksMac =>
      hide *;
      CheckHandshakes(c, st);
    case ReceiverOpens =>
      if c.receiverSecret != "" {
        OpenHandshakes(c, st);
      } else {
        SilentHandshakes(c, st, if c.receiverInsecure then Receiving else ReceiverDone(Unverified));
      }
      hide Handshaken, Post;
    case ReceiverSeesFailure =>
      SilentHandshakes(c, st, ReceiverDone(PeerFailed));
      hide Handshaken;
    case ReceiverGivesUp =>
      SilentHandshakes(c, st, ReceiverDone(GaveUp));
      hide Handshaken;
  }

  lemma NetworkMoveHandshakes(c: Config, st: Session, m: Move)
    requires Handshaken(c, st) && Enabled(c, st, m)
    requires m.Arrives? || m.CtrlArrivesAtSender? || m.CtrlArrivesAtReceiver?
          || m.ReceiverFails? || m.SenderCloses? || m.ReceiverCloses?
    ensures Handshaken(c, Next(c, st, m))
  {
    match m
    case CtrlArrivesAtSender(drop) =>
      LandPending(st.toS, drop);
      SideAfterLanding(c, st.s, st.r, Pending(st.toS), Pending(Land(st.toS, drop)));
      hide Pending, Land, SenderSide, ReceiverSide;
    case CtrlArrivesAtReceiver(drop) =>
      LandPending(st.toR, drop);
      SideAfterLanding(c, st.s, st.r, Pending(st.toR), Pending(Land(st.toR, drop)));
      hide Pending, Land, SenderSide, ReceiverSide;
    case _ => hide Pending, SenderSide, ReceiverSide, DecodeFrame;
  }

  lemma {:induction false} RunHandshaken(c: Config, st: Session, moves: seq<Move>)
    requires Handshaken(c, st)
    ensures Handshaken(c, Run(c, st, moves))
    decreases |moves|
  {
    if moves != [] {
      hide Handshaken, Next, Enabled;
      var m := moves[0];
      if Enabled(c, st, m) {
        match m
        case SenderOpens => SenderMoveHandshakes(c, st, m);
        case SenderChecksMac => SenderMoveHandshakes(c, st, m);
        case SenderWrites(_) => SenderMoveHandshakes(c, st, m);
        case SenderDrains => SenderMoveHandshakes(c, st, m);
        case SenderTakesAck => SenderMoveHandshakes(c, st, m);
        case SenderGivesUp => SenderMoveHandshakes(c, st, m);
        case ReceiverOpens => ReceiverMoveHandshakes(c, st, m);
        case ReceiverChecksMac => ReceiverMoveHandshakes(c, st, m);
        case ReceiverTakes(_, _, _) => ReceiverMoveHandshakes(c, st, m);
        case ReceiverSeesFailure => ReceiverMoveHandshakes(c, st, m);
        case ReceiverGivesUp => ReceiverMoveHandshakes(c, st, m);
        case _ => NetworkMoveHandshakes(c, st, m);
      }
      RunHandshaken(c, if Enabled(c, st, m) then Next(c, st, m) else st, moves[1..]);
    }
  }

  /** The one pairing of modes in which awaitAck can take something else for the ACK: the receiver's MAC. */
  predicate Mismatched(c: Config) { c.senderSecret == "" && c.senderInsecure && c.receiverSecret != "" }

  /** In every other pairing, Send returns nil only after Receive has taken the end of the stream. */
  lemma AckMeansReceived(c: Config, moves: seq<Move>)
    requires !Mismatched(c)
    ensures var end := Run(c, START, moves);
      end.s == SenderDone(true) ==> end.r == ReceiverDone(Complete)
  {
    assert Handshaken(c, START);
    RunHandshaken(c, START, moves);
    hide Run;
  }

  /** Send nil, on a patient receiver and in matching modes: the destination has the whole source. */
  lemma SendMeansDelivered(c: Config, moves: seq<Move>)
    requires c.patient && !Mismatched(c)
    ensures var end := Run(c, START, moves);
      end.s == SenderDone(true) ==> end.r == ReceiverDone(Complete) && end.written == c.source
  {
    AckMeansReceived(c, moves);
    WritesOnlyThePrefix(c, moves);
  }

  // ---- the runs that go wrong ----

  lemma {:induction false} RunAppend(c: Config, st: Session, a: seq<Move>, b: seq<Move>)
    ensures Run(c, st, a + b) == Run(c, Run(c, st, a), b)
    decreases |a|
  {
    hide Next, Enabled;
    if a == [] {
      assert a + b == b;
    } else {
      assert (a + b)[1..] == a[1..] + b && (a + b)[0] == a[0];
      RunAppend(c, if Enabled(c, st, a[0]) then Next(c, st, a[0]) else st, a[1..], b);
    }
  }

  lemma RunFirst(c: Config, st: Session, m: Move, rest: seq<Move>)
    requires Enabled(c, st, m)
    ensures Run(c, st, [m] + rest) == Run(c, Next(c, st, m), rest)
  {
    hide Next, Enabled;
    assert ([m] + rest)[1..] == rest;
  }

  lemma RunNothing(c: Config, st: Session)
    ensures Run(c, st, []) == st
  {
  }

  lemma RunThree(c: Config, st: Session, a: Move, b: Move, d: Move)
    requires Enabled(c, st, a) && Enabled(c, Next(c, st, a), b) && Enabled(c, Next(c, Next(c, st, a), b), d)
    ensures Run(c, st, [a] + ([b] + ([d] + []))) == Next(c, Next(c, Next(c, st, a), b), d)
  {
    hide Next, Enabled;
    var st1 := Next(c, st, a);
    var st2 := Next(c, st1, b);
    RunNothing(c, Next(c, st2, d));
    hide Run;
    RunFirst(c, st2, d, []);
    RunFirst(c, st1, b, [d] + []);
    RunFirst(c, st, a, [b] + ([d] + []));
  }

  /** A streaming sender can send it all and come to wait for the ACK without anything else happening. */
  lemma SendsItAll(c: Config, st: Session) returns (moves: seq<Move>)
    requires st.s.Streaming? && st.sent <= |c.source|
    ensures var end := Run(c, st, moves);
      end.s == AwaitingAck && end.r == st.r && end.toS == st.toS
    decreases |c.source| - st.sent
  {
    var m := SenderWrites(CHUNK);
    var st' := Next(c, st, m);
    if st.sent == |c.source| {
      moves := [m] + ([SenderDrains] + []);
      RunFirst(c, st', SenderDrains, []);
      RunFirst(c, st, m, [SenderDrains] + []);
    } else {
      var rest := SendsItAll(c, st');
      moves := [m] + rest;
      RunFirst(c, st, m, rest);
    }
  }

  /** The sender skips verification, the receiver does not: its MAC is taken for the ACK of a file it never read. */
  lemma MacTakenForAck(c: Config) returns (moves: seq<Move>)
    requires Mismatched(c)
    ensures var end := Run(c, START, moves); end.s == SenderDone(true) && end.r == ReceiverAwaitsMac
  {
    var opening := [SenderOpens] + ([ReceiverOpens] + ([CtrlArrivesAtSender(false)] + []));
    var mac := Mac(Receives, c.receiverSecret);
    var st := START.(s := Streaming, r := ReceiverAwaitsMac, toS := Channel(Some(mac), []));
    OpensMismatched(c);
    var sending := SendsItAll(c, st);
    var st' := Run(c, st, sending);
    RunFirst(c, st', SenderTakesAck, []);
    RunAppend(c, st, sending, [SenderTakesAck] + []);
    RunAppend(c, START, opening, sending + ([SenderTakesAck] + []));
    moves := opening + (sending + ([SenderTakesAck] + []));
  }

  lemma OpensMismatched(c: Config)
    requires Mismatched(c)
    ensures Run(c, START, [SenderOpens] + ([ReceiverOpens] + ([CtrlArrivesAtSender(false)] + [])))
         == START.(s := Streaming, r := ReceiverAwaitsMac, toS := Channel(Some(Mac(Receives, c.receiverSecret)), []))
  {
    hide Run, Take, Arrive, EncodeFrame;
    var a := START.(s := Streaming);
    assert Next(c, START, SenderOpens) == a;
    var b := a.(r := ReceiverAwaitsMac, toS := Channel(None, [Mac(Receives, c.receiverSecret)]));
    assert Next(c, a, ReceiverOpens) == b;
    RunThree(c, START, SenderOpens, ReceiverOpens, CtrlArrivesAtSender(false));
  }

  /** Send returning nil stands for a received stream, on every run, exactly when the modes are not so mismatched. */
  lemma AckMeansReceivedExactly(c: Config)
    ensures (forall moves ::
              Run(c, START, moves).s == SenderDone(true) ==> Run(c, START, moves).r == ReceiverDone(Complete))
       <==> !Mismatched(c)
  {
    if Mismatched(c) {
      var moves := MacTakenForAck(c);
      assert Run(c, START, moves).s == SenderDone(true);
    } else {
      forall moves
        ensures Run(c, START, moves).s == SenderDone(true) ==> Run(c, START, moves).r == ReceiverDone(Complete)
      {
        AckMeansReceived(c, moves);
      }
    }
  }

  /** The two ends get past the verification: the same secret, or none and both opted out. */
  predicate Compatible(c: Config) { SenderSatisfied(c) && ReceiverSatisfied(c) }

  /** A data message sent and dropped leaves nothing but a longer way behind the sender. */
  lemma LosesOne(c: Config, st: Session)
    requires st.s.Streaming? && st.sent < |c.source| && st.rClosed && st.wire == []
    ensures var k := if CHUNK <= |c.source| - st.sent then CHUNK else |c.source| - st.sent;
      var st' := Next(c, st, SenderWrites(CHUNK));
      Enabled(c, st', Arrives(true)) && Next(c, st', Arrives(true)) == st.(sent := st.sent + k)
  {
    var k := if CHUNK <= |c.source| - st.sent then CHUNK else |c.source| - st.sent;
    FrameRoundTrip(c.source[st.sent..st.sent + k]);
    hide EncodeFrame, DecodeFrame;
    assert Next(c, st, SenderWrites(CHUNK)).wire == [EncodeFrame(c.source[st.sent..st.sent + k])];
  }

  lemma TakesTheEnd(c: Config, st: Session)
    requires st.s.Streaming? && st.sent == |c.source| && st.wire == [] && st.queue == [] && st.r.Receiving?
    ensures var st' := Next(c, st, SenderWrites(CHUNK));
      Enabled(c, st', Arrives(false)) && var st'' := Next(c, st', Arrives(false));
      && Enabled(c, st'', ReceiverTakes(true, 0, true))
      && var end := Next(c, st'', ReceiverTakes(true, 0, true));
         end.r == ReceiverDone(Complete) && end.written == st.written
  {
    FrameRoundTrip([]);
    hide EncodeFrame, DecodeFrame;
    assert Next(c, st, SenderWrites(CHUNK)).wire == [EncodeFrame([])];
  }

  /** With its session closed under it, Receive can lose every message but the last. */
  lemma LosesItAll(c: Config, st: Session) returns (moves: seq<Move>)
    requires st.s.Streaming? && st.sent <= |c.source| && st.r.Receiving? && st.rClosed
    requires st.wire == [] && st.queue == []
    ensures var end := Run(c, st, moves); end.r == ReceiverDone(Complete) && end.written == st.written
    decreases |c.source| - st.sent
  {
    var m := SenderWrites(CHUNK);
    var st' := Next(c, st, m);
    if st.sent == |c.source| {
      var a, b := Arrives(false), ReceiverTakes(true, 0, true);
      TakesTheEnd(c, st);
      Streams(c, st);
      hide Next, Enabled;
      var st'' := Next(c, st', a);
      moves := [m] + ([a] + ([b] + []));
      RunNothing(c, Next(c, st'', b));
      hide Run;
      RunFirst(c, st'', b, []);
      RunFirst(c, st', a, [b] + []);
      RunFirst(c, st, m, [a] + ([b] + []));
    } else {
      LosesOne(c, st);
      Streams(c, st);
      hide Next, Enabled;
      var rest := LosesItAll(c, Next(c, st', Arrives(true)));
      moves := [m] + ([Arrives(true)] + rest);
      hide Run;
      RunFirst(c, st', Arrives(true), rest);
      RunFirst(c, st, m, [Arrives(true)] + rest);
    }
  }

  lemma Streams(c: Config, st: Session)
    requires st.s.Streaming?
    ensures Enabled(c, st, SenderWrites(CHUNK))
  {
  }

  /** Both ends wait for the other's MAC; the receiver's has landed. */
  function MacsOut(c: Config): Session {
    START.(s := SenderAwaitsMac, r := ReceiverAwaitsMac,
           toS := Channel(Some(Mac(Receives, c.receiverSecret)), []),
           toR := Channel(None, [Mac(Sends, c.senderSecret)]))
  }

  lemma MacsGoOut(c: Config)
    requires Compatible(c) && c.senderSecret != ""
    ensures Run(c, START, [SenderOpens] + ([ReceiverOpens] + ([CtrlArrivesAtSender(false)] + []))) == MacsOut(c)
  {
    hide Run, Take, Arrive, EncodeFrame;
    var a := START.(s := SenderAwaitsMac, toR := Channel(None, [Mac(Sends, c.senderSecret)]));
    assert Next(c, START, SenderOpens) == a;
    var b := a.(r := ReceiverAwaitsMac, toS := Channel(None, [Mac(Receives, c.receiverSecret)]));
    assert Next(c, a, ReceiverOpens) == b;
    RunThree(c, START, SenderOpens, ReceiverOpens, CtrlArrivesAtSender(false));
  }

  lemma MacsMatch(c: Config)
    requires Compatible(c) && c.senderSecret != ""
    ensures Run(c, MacsOut(c), [CtrlArrivesAtReceiver(false)] + ([SenderChecksMac] + ([ReceiverChecksMac] + [])))
         == START.(s := Streaming, r := Receiving)
  {
    hide Run, Take, Arrive, EncodeFrame;
    var a := MacsOut(c).(toR := Channel(Some(Mac(Sends, c.senderSecret)), []));
    assert Next(c, MacsOut(c), CtrlArrivesAtReceiver(false)) == a;
    var b := a.(s := Streaming, toS := EMPTY);
    assert Next(c, a, SenderChecksMac) == b;
    RunThree(c, MacsOut(c), CtrlArrivesAtReceiver(false), SenderChecksMac, ReceiverChecksMac);
  }

  /** Compatible ends get to the stream. */
  lemma OpensCompatible(c: Config) returns (moves: seq<Move>)
    requires Compatible(c)
    ensures Run(c, START, moves) == START.(s := Streaming, r := Receiving)
  {
    if c.senderSecret == "" {
      var a := START.(s := Streaming);
      moves := [SenderOpens] + ([ReceiverOpens] + []);
      RunNothing(c, Next(c, a, ReceiverOpens));
      hide Run;
      RunFirst(c, a, ReceiverOpens, []);
      RunFirst(c, START, SenderOpens, [ReceiverOpens] + []);
    } else {
      MacsGoOut(c);
      MacsMatch(c);
      hide Run;
      var first := [SenderOpens] + ([ReceiverOpens] + ([CtrlArrivesAtSender(false)] + []));
      var closing := [CtrlArrivesAtReceiver(false)] + ([SenderChecksMac] + ([ReceiverChecksMac] + []));
      RunAppend(c, START, first, closing);
      moves := first + closing;
    }
  }

  lemma ClosedUnderReceive(c: Config) returns (moves: seq<Move>)
    requires Compatible(c) && !c.patient
    ensures var end := Run(c, START, moves); end.r == ReceiverDone(Complete) && end.written == []
  {
    var opening := OpensCompatible(c);
    var st := Run(c, START, opening);
    var st' := Next(c, st, ReceiverCloses);
    var rest := LosesItAll(c, st');
    RunFirst(c, st, ReceiverCloses, rest);
    RunAppend(c, START, opening, [ReceiverCloses] + rest);
    moves := opening + ([ReceiverCloses] + rest);
  }

  /** Of an empty source nothing is ever written. */
  predicate NothingToWrite(st: Session) {
    && st.written == []
    && (forall i :: 0 <= i < |st.wire| ==> st.wire[i] == EncodeFrame([]))
    && (forall i :: 0 <= i < |st.queue| ==> st.queue[i] == Eof)
  }

  lemma {:induction false} RunOfNothing(c: Config, st: Session, moves: seq<Move>)
    requires c.source == [] && NothingToWrite(st)
    ensures NothingToWrite(Run(c, st, moves))
    decreases |moves|
  {
    if moves != [] {
      FrameRoundTrip([]);
      hide EncodeFrame, DecodeFrame;
      var st' := if Enabled(c, st, moves[0]) then Next(c, st, moves[0]) else st;
      assert NothingToWrite(st') by { NextOfNothing(c, st, moves[0]); }
      RunOfNothing(c, st', moves[1..]);
    }
  }

  lemma NextOfNothing(c: Config, st: Session, m: Move)
    requires c.source == [] && NothingToWrite(st)
    ensures Enabled(c, st, m) ==> NothingToWrite(Next(c, st, m))
  {
    FrameRoundTrip([]);
    hide EncodeFrame, DecodeFrame;
    if m.SenderWrites? || m.Arrives? || m.ReceiverTakes? {
      hide Land, Post;
    } else if Enabled(c, st, m) {
      QuietStays(c, st, m);
      hide Next;
    }
  }

  /**
   * Receive returning nil stands for the whole source, on every run, exactly when its session is not closed under it,
   * or the source is empty, or the two ends never get to the stream.
   */
  lemma ReceivedMeansDeliveredExactly(c: Config)
    ensures (forall moves ::
              Run(c, START, moves).r == ReceiverDone(Complete) ==> Run(c, START, moves).written == c.source)
       <==> c.patient || c.source == [] || !Compatible(c)
  {
    if !c.patient && c.source != [] && Compatible(c) {
      var moves := ClosedUnderReceive(c);
      assert Run(c, START, moves).r == ReceiverDone(Complete);
    } else {
      forall moves
        ensures Run(c, START, moves).r == ReceiverDone(Complete) ==> Run(c, START, moves).written == c.source
      {
        if c.patient {
          WritesOnlyThePrefix(c, moves);
        } else if c.source == [] {
          RunOfNothing(c, START, moves);
        } else {
          RunHandshaken(c, START, moves);
        }
      }
    }
  }
}
