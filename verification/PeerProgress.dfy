/**
 * Whether a peer-to-peer transfer gets anywhere: what becomes of two ends that nothing disturbs, whatever the order
 * in which they and the network move.
 */
module PeerProgress {
  import opened Bytes
  import opened PeerDelivery

  /** The moves of a transfer in which nobody fails, gives up or closes, and nothing is dropped. */
  predicate Undisturbed(m: Move) {
    match m
    case SenderOpens => true
    case SenderChecksMac => true
    case SenderWrites(_) => true
    case SenderDrains => true
    case SenderTakesAck => true
    case ReceiverOpens => true
    case ReceiverChecksMac => true
    case ReceiverTakes(writes, _, acks) => writes && acks
    case Arrives(drop) => !drop
    case CtrlArrivesAtSender(drop) => !drop
    case CtrlArrivesAtReceiver(drop) => !drop
    case _ => false
  }

  predicate AllUndisturbed(moves: seq<Move>) { forall i :: 0 <= i < |moves| ==> Undisturbed(moves[i]) }

  /** Both calls have returned nil, and the file is there. */
  predicate Finished(c: Config, st: Session) {
    st.s == SenderDone(true) && st.r == ReceiverDone(Complete) && st.written == c.source
  }

  // ---- where undisturbed ends can be ----

  predicate Greeting(s: Sender) { s.SenderConnects? || s.SenderAwaitsMac? }

  /** How far the one can be while the other is where it is. */
  predicate Stages(c: Config, s: Sender, r: Receiver) {
    && (s.SenderDone? ==> s.ok && r.ReceiverDone?)
    && (r.ReceiverDone? ==> r.how.Complete? && !Open(s))
    && (s.SenderAwaitsMac? || r.ReceiverAwaitsMac? ==> c.senderSecret != "")
    && (c.senderSecret != "" && !Greeting(s) ==> !r.ReceiverConnects?)
    && (c.senderSecret != "" && (r.Receiving? || r.ReceiverDone?) ==> !s.SenderConnects?)
  }

  /** What is under way to the sender: the receiver's MAC until it is checked, the ACK until it is taken. */
  function DueToSender(c: Config, s: Sender, r: Receiver): seq<Ctrl> {
    if c.receiverSecret != "" && !r.ReceiverConnects? && Greeting(s) then [Mac(Receives, c.receiverSecret)]
    else if r.ReceiverDone? && !s.SenderDone? then [Ack]
    else []
  }

  function DueToReceiver(c: Config, s: Sender, r: Receiver): seq<Ctrl> {
    if c.senderSecret != "" && !s.SenderConnects? && (r.ReceiverConnects? || r.ReceiverAwaitsMac?)
    then [Mac(Sends, c.senderSecret)]
    else []
  }

  /** Once the end of the stream is sent, it is ahead of the receiver until it is taken. */
  predicate EndIsAhead(s: Sender, r: Receiver, ahead: seq<Frame>) {
    !Open(s) && !r.ReceiverDone? ==> ahead != [] && ahead[|ahead| - 1].Eof?
  }

  /** Where the two ends are, and what is under way between them on the control channel. */
  predicate Poised(c: Config, s: Sender, r: Receiver, toS: seq<Ctrl>, toR: seq<Ctrl>) {
    Stages(c, s, r) && toS == DueToSender(c, s, r) && toR == DueToReceiver(c, s, r)
  }

  predicate Steady(c: Config, st: Session) {
    && Poised(c, st.s, st.r, Pending(st.toS), Pending(st.toR))
    && EndIsAhead(st.s, st.r, Ahead(st))
    && Delivery(c.(patient := true), st)
  }

  lemma SameSecret(c: Config)
    requires Compatible(c)
    ensures c.senderSecret == c.receiverSecret && (c.senderSecret == "" ==> c.senderInsecure && c.receiverInsecure)
  {
  }

  // ---- the handshake and the acknowledgement ----

  lemma SenderOpensPoised(c: Config, r: Receiver, toS: seq<Ctrl>, toR: seq<Ctrl>)
    requires Compatible(c) && Poised(c, SenderConnects, r, toS, toR)
    ensures c.senderSecret != "" ==> Poised(c, SenderAwaitsMac, r, toS, toR + [Mac(Sends, c.senderSecret)])
    ensures c.senderSecret == "" ==> c.senderInsecure && Poised(c, Streaming, r, toS, toR)
  {
    SameSecret(c);
  }

  lemma SenderChecksPoised(c: Config, r: Receiver, toS: seq<Ctrl>, toR: seq<Ctrl>)
    requires Compatible(c) && Poised(c, SenderAwaitsMac, r, toS, toR) && toS != []
    ensures toS[0] == Mac(Receives, c.senderSecret) && Poised(c, Streaming, r, toS[1..], toR)
  {
    SameSecret(c);
  }

  lemma SenderAckedPoised(c: Config, r: Receiver, toS: seq<Ctrl>, toR: seq<Ctrl>)
    requires Poised(c, AwaitingAck, r, toS, toR) && toS != []
    ensures Poised(c, SenderDone(true), r, toS[1..], toR)
  {
  }

  lemma ReceiverOpensPoised(c: Config, s: Sender, toS: seq<Ctrl>, toR: seq<Ctrl>)
    requires Compatible(c) && Poised(c, s, ReceiverConnects, toS, toR)
    ensures c.receiverSecret != "" ==> Poised(c, s, ReceiverAwaitsMac, toS + [Mac(Receives, c.receiverSecret)], toR)
    ensures c.receiverSecret == "" ==> c.receiverInsecure && Poised(c, s, Receiving, toS, toR)
  {
    SameSecret(c);
  }

  lemma ReceiverChecksPoised(c: Config, s: Sender, toS: seq<Ctrl>, toR: seq<Ctrl>)
    requires Compatible(c) && Poised(c, s, ReceiverAwaitsMac, toS, toR) && toR != []
    ensures toR[0] == Mac(Sends, c.receiverSecret) && Poised(c, s, Receiving, toS, toR[1..])
  {
    SameSecret(c);
  }

  lemma ReceiverDonePoised(c: Config, s: Sender, toS: seq<Ctrl>, toR: seq<Ctrl>)
    requires Poised(c, s, Receiving, toS, toR) && !Open(s)
    ensures Poised(c, s, ReceiverDone(Complete), toS + [Ack], toR)
  {
  }

  lemma SenderGoesOnPoised(c: Config, s: Sender, r: Receiver, toS: seq<Ctrl>, toR: seq<Ctrl>)
    ensures Poised(c, Streaming, r, toS, toR) ==> Poised(c, Draining, r, toS, toR)
    ensures Poised(c, Draining, r, toS, toR) ==> Poised(c, AwaitingAck, r, toS, toR)
  {
  }

  lemma LandKeepsPending(ch: Channel)
    requires ch.flying != [] && ch.slot.None?
    ensures Pending(Land(ch, false)) == Pending(ch)
  {
  }

  // ---- every move ----

  lemma StillDelivers(c: Config, st: Session, m: Move)
    requires Delivery(c.(patient := true), st) && Undisturbed(m) && Enabled(c, st, m)
    ensures Delivery(c.(patient := true), Next(c, st, m))
  {
    AlsoPatient(c, st, m);
    hide Delivery, Next, Enabled;
    NextDelivers(c.(patient := true), st, m);
  }

  lemma AlsoPatient(c: Config, st: Session, m: Move)
    requires Undisturbed(m) && Enabled(c, st, m)
    ensures Enabled(c.(patient := true), st, m) && Next(c.(patient := true), st, m) == Next(c, st, m)
  {
    hide Land, Post, Take, Arrive, EncodeFrame;
  }

  lemma SenderStaysSteady(c: Config, st: Session, m: Move)
    requires Compatible(c) && Steady(c, st) && Enabled(c, st, m)
    requires m.SenderOpens? || m.SenderChecksMac? || m.SenderDrains? || m.SenderTakesAck?
    ensures var st' := Next(c, st, m);
      Poised(c, st'.s, st'.r, Pending(st'.toS), Pending(st'.toR)) && EndIsAhead(st'.s, st'.r, Ahead(st'))
  {
    var toS, toR := Pending(st.toS), Pending(st.toR);
    hide Delivery, Compatible, Pending, Post, Land, Take, Arrive, EncodeFrame;
    if m.SenderOpens? {
      PostPending(st.toR, Mac(Sends, c.senderSecret));
      SenderOpensPoised(c, st.r, toS, toR);
    } else if m.SenderDrains? {
      SenderGoesOnPoised(c, st.s, st.r, toS, toR);
    } else {
      TakenPending(st.toS);
      if m.SenderChecksMac? { SenderChecksPoised(c, st.r, toS, toR); } else { SenderAckedPoised(c, st.r, toS, toR); }
    }
    hide Poised, Decoded;
  }

  lemma ReceiverStaysSteady(c: Config, st: Session, m: Move)
    requires Compatible(c) && Steady(c, st) && Enabled(c, st, m)
    requires m.ReceiverOpens? || m.ReceiverChecksMac?
    ensures var st' := Next(c, st, m);
      Poised(c, st'.s, st'.r, Pending(st'.toS), Pending(st'.toR)) && EndIsAhead(st'.s, st'.r, Ahead(st'))
  {
    var toS, toR := Pending(st.toS), Pending(st.toR);
    hide Delivery, Compatible, Pending, Post, Land, Take, Arrive, EncodeFrame;
    if m.ReceiverOpens? {
      PostPending(st.toS, Mac(Receives, c.receiverSecret));
      ReceiverOpensPoised(c, st.s, toS, toR);
    } else {
      TakenPending(st.toR);
      ReceiverChecksPoised(c, st.s, toS, toR);
    }
    hide Poised, Decoded;
  }

  lemma EndIsAheadNow(st: Session)
    requires Decodes(st.wire)
    ensures st.queue + Decoded(st.wire + [EncodeFrame([])]) == Ahead(st) + [Eof]
  {
    AheadGrows(st, []);
    hide Decoded, Decodes, EncodeFrame;
  }

  lemma WritesStaySteady(c: Config, st: Session, n: nat)
    requires Steady(c, st) && Enabled(c, st, SenderWrites(n))
    ensures var st' := Next(c, st, SenderWrites(n));
      Poised(c, st'.s, st'.r, Pending(st'.toS), Pending(st'.toR)) && EndIsAhead(st'.s, st'.r, Ahead(st'))
  {
    assert !st.r.ReceiverDone?;
    assert Decodes(st.wire);
    EndIsAheadNow(st);
    hide Delivery, Pending, EncodeFrame, Decoded, Decodes, Take, Arrive, Land, Post;
    SenderGoesOnPoised(c, st.s, st.r, Pending(st.toS), Pending(st.toR));
    hide Poised;
  }

  lemma TakesStaySteady(c: Config, st: Session, part: nat)
    requires Steady(c, st) && Enabled(c, st, ReceiverTakes(true, part, true))
    ensures var st' := Next(c, st, ReceiverTakes(true, part, true));
      Poised(c, st'.s, st'.r, Pending(st'.toS), Pending(st'.toR)) && EndIsAhead(st'.s, st'.r, Ahead(st'))
  {
    var ahead := Ahead(st);
    assert InOrder(c.(patient := true), st);
    assert ahead[0] == st.queue[0] && ahead[1..] == st.queue[1..] + Decoded(st.wire);
    assert ahead[0].Eof? ==> !Open(st.s);
    hide Delivery, InOrder, Pending, Post, Decoded;
    if ahead[0].Eof? {
      PostPending(st.toS, Ack);
      ReceiverDonePoised(c, st.s, Pending(st.toS), Pending(st.toR));
    }
    hide Poised;
  }

  lemma NetworkStaysSteady(c: Config, st: Session, m: Move)
    requires Steady(c, st) && Undisturbed(m) && Enabled(c, st, m)
    requires m.Arrives? || m.CtrlArrivesAtSender? || m.CtrlArrivesAtReceiver?
    ensures var st' := Next(c, st, m);
      Poised(c, st'.s, st'.r, Pending(st'.toS), Pending(st'.toR)) && EndIsAhead(st'.s, st'.r, Ahead(st'))
  {
    if m.Arrives? {
      if !st.r.ReceiverDone? { ArriveAhead(st); }
    } else if m.CtrlArrivesAtSender? {
      LandKeepsPending(st.toS);
    } else {
      LandKeepsPending(st.toR);
    }
    hide Poised, Delivery, Decoded, Decodes, DecodeFrame, Pending, Land;
  }

  lemma ArriveAhead(st: Session)
    requires Decodes(st.wire) && st.wire != []
    ensures Ahead(Arrive(st, false)) == Ahead(st)
  {
    assert DecodeFrame(st.wire[0]).Some?;
    hide DecodeFrame;
  }

  lemma NextStaysSteady(c: Config, st: Session, m: Move)
    requires Compatible(c) && Steady(c, st) && Undisturbed(m) && Enabled(c, st, m)
    ensures Steady(c, Next(c, st, m))
  {
    StillDelivers(c, st, m);
    hide Next, Enabled, Poised, EndIsAhead, Delivery;
    match m
    case SenderWrites(n) => WritesStaySteady(c, st, n);
    case ReceiverTakes(_, part, _) => TakesStaySteady(c, st, part);
    case ReceiverOpens => ReceiverStaysSteady(c, st, m);
    case ReceiverChecksMac => ReceiverStaysSteady(c, st, m);
    case SenderOpens => SenderStaysSteady(c, st, m);
    case SenderChecksMac => SenderStaysSteady(c, st, m);
    case SenderDrains => SenderStaysSteady(c, st, m);
    case SenderTakesAck => SenderStaysSteady(c, st, m);
    case _ => NetworkStaysSteady(c, st, m);
  }

  lemma {:induction false} RunStaysSteady(c: Config, st: Session, moves: seq<Move>)
    requires Compatible(c) && Steady(c, st) && AllUndisturbed(moves)
    ensures Steady(c, Run(c, st, moves))
    decreases |moves|
  {
    if moves != [] {
      hide Steady, Next, Enabled;
      if Enabled(c, st, moves[0]) { NextStaysSteady(c, st, moves[0]); }
      RunStaysSteady(c, if Enabled(c, st, moves[0]) then Next(c, st, moves[0]) else st, moves[1..]);
    }
  }

  // ---- nobody waits for ever ----

  /** A control message that is due can be taken, or can arrive. */
  lemma DueIsNear(ch: Channel)
    requires Pending(ch) != []
    ensures ch.slot.Some? || ch.flying != []
  {
  }

  /** Short of the end, somebody can move. */
  lemma SomebodyMoves(c: Config, st: Session) returns (m: Move)
    requires Compatible(c) && Steady(c, st) && !Finished(c, st)
    ensures Undisturbed(m) && Enabled(c, st, m)
  {
    SameSecret(c);
    match st.s {
      case SenderConnects => m := SenderOpens;
      case SenderAwaitsMac =>
        if st.r.ReceiverConnects? {
          m := ReceiverOpens;
        } else {
          DueIsNear(st.toS);
          m := if st.toS.slot.Some? then SenderChecksMac else CtrlArrivesAtSender(false);
        }
      case Streaming => m := SenderWrites(CHUNK);
      case Draining => m := SenderDrains;
      case AwaitingAck => m := ReceiverMoves(c, st);
      case SenderDone(_) =>
        assert Finished(c, st);
        m := SenderOpens;
    }
  }

  lemma ReceiverMoves(c: Config, st: Session) returns (m: Move)
    requires Compatible(c) && Steady(c, st) && st.s.AwaitingAck?
    ensures Undisturbed(m) && Enabled(c, st, m)
  {
    match st.r {
      case ReceiverConnects => m := ReceiverOpens;
      case ReceiverAwaitsMac =>
        DueIsNear(st.toR);
        m := if st.toR.slot.Some? then ReceiverChecksMac else CtrlArrivesAtReceiver(false);
      case Receiving => m := if st.queue != [] then ReceiverTakes(true, 0, true) else Arrives(false);
      case ReceiverDone(_) =>
        DueIsNear(st.toS);
        m := if st.toS.slot.Some? then SenderTakesAck else CtrlArrivesAtSender(false);
    }
  }

  // ---- and there is an end to it ----

  function SenderStages(s: Sender): nat {
    match s
    case SenderConnects => 8
    case SenderAwaitsMac => 5
    case Streaming => 5
    case Draining => 2
    case AwaitingAck => 1
    case SenderDone(_) => 0
  }

  function ReceiverStages(r: Receiver): nat {
    match r
    case ReceiverConnects => 5
    case ReceiverAwaitsMac => 2
    case Receiving => 2
    case ReceiverDone(_) => 0
  }

  function InChannel(ch: Channel): nat { 2 * |ch.flying| + if ch.slot.Some? then 1 else 0 }

  /** What is left to do. */
  function Left(c: Config, st: Session): nat
    requires st.sent <= |c.source|
  {
    3 * (|c.source| - st.sent) + SenderStages(st.s) + ReceiverStages(st.r)
    + 2 * |st.wire| + |st.queue| + InChannel(st.toS) + InChannel(st.toR)
  }

  lemma LandLeavesLess(ch: Channel, drop: bool)
    requires ch.flying != [] && (!drop ==> ch.slot.None?)
    ensures InChannel(Land(ch, drop)) < InChannel(ch)
  {
  }

  lemma TakeLeavesLess(c: Config, st: Session, part: nat)
    requires st.sent <= |c.source| && st.r.Receiving? && st.queue != []
    ensures Left(c, Take(st, true, part, true)) < Left(c, st)
  {
  }

  lemma ArriveLeavesLess(c: Config, st: Session)
    requires st.sent <= |c.source| && st.wire != []
    ensures Arrive(st, false).sent == st.sent && Left(c, Arrive(st, false)) < Left(c, st)
  {
    hide DecodeFrame;
  }

  lemma SenderLeavesLess(c: Config, st: Session, m: Move)
    requires st.sent <= |c.source| && Enabled(c, st, m)
    requires m.SenderOpens? || m.SenderChecksMac? || m.SenderDrains? || m.SenderTakesAck?
    ensures var st' := Next(c, st, m); st'.sent <= |c.source| && Left(c, st') < Left(c, st)
  {
    hide EncodeFrame, Take, Arrive, Land;
  }

  lemma WriteLeavesLess(c: Config, st: Session, n: nat)
    requires st.sent <= |c.source| && Enabled(c, st, SenderWrites(n))
    ensures var st' := Next(c, st, SenderWrites(n)); st'.sent <= |c.source| && Left(c, st') < Left(c, st)
  {
    hide EncodeFrame, InChannel;
  }

  lemma ReceiverLeavesLess(c: Config, st: Session, m: Move)
    requires st.sent <= |c.source| && Enabled(c, st, m)
    requires m.ReceiverOpens? || m.ReceiverChecksMac?
    ensures var st' := Next(c, st, m); st'.sent <= |c.source| && Left(c, st') < Left(c, st)
  {
    hide EncodeFrame, Take, Arrive, Land;
  }

  lemma MoveLeavesLess(c: Config, st: Session, m: Move)
    requires st.sent <= |c.source| && Undisturbed(m) && Enabled(c, st, m)
    ensures var st' := Next(c, st, m); st'.sent <= |c.source| && Left(c, st') < Left(c, st)
  {
    match m
    case SenderWrites(n) => WriteLeavesLess(c, st, n); hide *;
    case ReceiverTakes(_, part, _) => TakeLeavesLess(c, st, part); hide Left, Enabled;
    case Arrives(_) => ArriveLeavesLess(c, st); hide Left, Enabled, Arrive;
    case CtrlArrivesAtSender(_) => LandLeavesLess(st.toS, false); hide Land, InChannel, Enabled;
    case CtrlArrivesAtReceiver(_) => LandLeavesLess(st.toR, false); hide Land, InChannel, Enabled;
    case ReceiverOpens => ReceiverLeavesLess(c, st, m); hide *;
    case ReceiverChecksMac => ReceiverLeavesLess(c, st, m); hide *;
    case _ => SenderLeavesLess(c, st, m); hide *;
  }

  /** How many of the moves are made, the others being passed over. */
  function Made(c: Config, st: Session, moves: seq<Move>): nat
    decreases |moves|
  {
    if moves == [] then 0
    else if Enabled(c, st, moves[0]) then 1 + Made(c, Next(c, st, moves[0]), moves[1..])
    else Made(c, st, moves[1..])
  }

  lemma {:induction false} MadeBounded(c: Config, st: Session, moves: seq<Move>)
    requires st.sent <= |c.source| && AllUndisturbed(moves)
    ensures Made(c, st, moves) <= Left(c, st)
    decreases |moves|
  {
    if moves != [] {
      hide Left, Next, Enabled;
      if Enabled(c, st, moves[0]) {
        MoveLeavesLess(c, st, moves[0]);
        MadeBounded(c, Next(c, st, moves[0]), moves[1..]);
      } else {
        MadeBounded(c, st, moves[1..]);
      }
    }
  }

  ghost predicate NobodyMoves(c: Config, st: Session) { forall m :: Undisturbed(m) ==> !Enabled(c, st, m) }

  /**
   * Compatible ends that nothing disturbs get there in every order of their moves: there is no run in which they wait
   * for each other, and none that goes on for ever.
   */
  lemma UndisturbedEndsFinish(c: Config, moves: seq<Move>)
    requires Compatible(c) && AllUndisturbed(moves)
    ensures Made(c, START, moves) <= 3 * |c.source| + 13
    ensures NobodyMoves(c, Run(c, START, moves)) ==> Finished(c, Run(c, START, moves))
  {
    StartsSteady(c);
    RunStaysSteady(c, START, moves);
    MadeBounded(c, START, moves);
    var end := Run(c, START, moves);
    hide Run, Made, Steady, Enabled, Compatible;
    if !Finished(c, end) {
      var m := SomebodyMoves(c, end);
      assert !NobodyMoves(c, end);
    }
  }

  lemma StartsSteady(c: Config)
    ensures Steady(c, START)
  {
  }

  lemma {:induction false} ComesToFinish(c: Config, st: Session) returns (moves: seq<Move>)
    requires Compatible(c) && Steady(c, st) && st.sent <= |c.source|
    ensures AllUndisturbed(moves) && Finished(c, Run(c, st, moves))
    decreases Left(c, st)
  {
    hide Steady, Next, Enabled, Compatible, Finished;
    if Finished(c, st) {
      moves := [];
    } else {
      var m := SomebodyMoves(c, st);
      NextStaysSteady(c, st, m);
      MoveLeavesLess(c, st, m);
      hide Left;
      var rest := ComesToFinish(c, Next(c, st, m));
      RunFirst(c, st, m, rest);
      moves := [m] + rest;
    }
  }

  /** Two ends can bring a transfer to its end on some run exactly when they get past the verification. */
  lemma FinishExactly(c: Config)
    ensures (exists moves :: Finished(c, Run(c, START, moves))) <==> Compatible(c)
  {
    if Compatible(c) {
      StartsSteady(c);
      var moves := ComesToFinish(c, START);
      assert Finished(c, Run(c, START, moves));
    }
    forall moves | Finished(c, Run(c, START, moves))
      ensures Compatible(c)
    {
      RunHandshaken(c, START, moves);
      FinishedHandshaken(c, Run(c, START, moves));
    }
  }

  lemma FinishedHandshaken(c: Config, st: Session)
    requires Handshaken(c, st) && Finished(c, st)
    ensures Compatible(c)
  {
  }

  // ---- and a failure comes through ----

  /**
   * However things stand, once the latch is set a receiver that works comes to an end by itself: it writes what has
   * arrived, and returns the failure after that, or nil if the end of the stream was there.
   */
  lemma {:induction false} FailureComesThrough(c: Config, st: Session) returns (moves: seq<Move>)
    requires st.r.Receiving? && st.rFailed
    ensures forall i :: 0 <= i < |moves| ==> moves[i] == ReceiverSeesFailure || moves[i] == ReceiverTakes(true, 0, true)
    ensures |moves| <= |st.queue| + 1
    ensures var end := Run(c, st, moves);
      if exists i :: 0 <= i < |st.queue| && st.queue[i].Eof? then end.r == ReceiverDone(Complete)
      else end.r == ReceiverDone(PeerFailed) && end.written == st.written + Queued(st.queue)
    decreases |st.queue|
  {
    if st.queue == [] {
      assert Enabled(c, st, ReceiverSeesFailure);
      moves := [ReceiverSeesFailure] + [];
      RunFirst(c, st, ReceiverSeesFailure, []);
      assert st.written + [] == st.written;
    } else {
      var m, st' := ReceiverTakes(true, 0, true), Take(st, true, 0, true);
      assert Enabled(c, st, m) && Next(c, st, m) == st';
      if st.queue[0].Eof? {
        moves := [m] + [];
        RunFirst(c, st, m, []);
        assert Run(c, st', []) == st';
      } else {
        var rest := FailureComesThrough(c, st');
        moves := [m] + rest;
        RunFirst(c, st, m, rest);
        EndAmongRest(st.queue);
        TakenThenQueued(st);
        hide Run, Next, Enabled;
      }
    }
  }

  lemma EndAmongRest(q: seq<Frame>)
    requires q != [] && !q[0].Eof?
    ensures (exists i :: 0 <= i < |q| && q[i].Eof?) <==> exists i :: 0 <= i < |q[1..]| && q[1..][i].Eof?
  {
    if i :| 0 <= i < |q| && q[i].Eof? { assert q[1..][i - 1] == q[i]; }
    if i :| 0 <= i < |q[1..]| && q[1..][i].Eof? { assert q[i + 1] == q[1..][i]; }
  }

  lemma TakenThenQueued(st: Session)
    requires st.queue != [] && st.queue[0].Data?
    ensures var st' := Take(st, true, 0, true);
      st'.written + Queued(st'.queue) == st.written + Queued(st.queue)
  {
    var d, rest := st.queue[0].data, Queued(st.queue[1..]);
    assert Queued(st.queue) == d + rest;
    hide Queued;
    assert (st.written + d) + rest == st.written + (d + rest);
  }
}
