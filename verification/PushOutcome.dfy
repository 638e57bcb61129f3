/**
 * What decides the outcome of a push session: a sender the receiver does not welcome never gets a byte onto its disk,
 * and one it welcomes gets its file placed on every schedule, unless something fails.
 */
module PushOutcome {
  import opened Bytes
  import opened Transfers
  import opened PushRuns
  import opened PushSession

  /** A password sender must know the password; one without is let in if none is set, or on a trusted identity. */
  predicate Authenticated(c: Config) {
    && |c.body| <= MAX_TRANSFER_BYTES
    && if c.sendPassword != "" then c.sendPassword == c.recvPassword
       else c.recvPassword == "" || (c.identity && c.trusts)
  }

  /** Everything the receiver requires before anything lands. */
  predicate Welcome(c: Config, start: Files) {
    Authenticated(c) && c.nameOk && c.approves && (c.overwrite || c.out !in start)
  }

  /** How far the receiver has got without that. */
  predicate Gated(c: Config, st: Session) {
    match st.r
    case AwaitHello => true
    case AwaitSenderPake => |c.body| <= MAX_TRANSFER_BYTES
    case SendReceiverPake => |c.body| <= MAX_TRANSFER_BYTES
    case AwaitSenderConfirm => |c.body| <= MAX_TRANSFER_BYTES
    case SendReceiverConfirm => Authenticated(c)
    case Decide => Authenticated(c)
    case Receiving(_) => Welcome(c, st.start)
    case Finished(placed) => Welcome(c, st.start) || (!placed && st.files == st.start)
    case Baffled => false
  }

  lemma GatedStream(hash: Bytes -> Bytes, c: Config, st: Session, room: nat)
    requires Inv(hash, c, st) && ReceiverEnabled(st) && Gated(c, st) && HasPartial(c, st) && st.r.Receiving?
    ensures Gated(c, ReceiverStep(hash, c, st, room))
  {
    ReceiverStart(hash, c, st, room);
    if Pending(st.sLog, st.rRead) {
      StreamStep(hash, c, st, room);
      hide Inv, ReceiverStep, Absorbs, ToInput, ConcludePush, ConcludeOnce, Welcome, HasPartial;
    } else {
      hide Inv, ReceiverStep, ConcludePush, ConcludeOnce, Welcome, HasPartial;
      assert ReceiverStep(hash, c, st, room) == Wind(hash, c, st, st.r.content, Cut) by {
        ReceiverCuts(hash, c, st, room);
      }
    }
  }

  lemma ReceiverCuts(hash: Bytes -> Bytes, c: Config, st: Session, room: nat)
    requires ReceiverEnabled(st) && HasPartial(c, st) && st.r.Receiving? && !Pending(st.sLog, st.rRead)
    ensures ReceiverStep(hash, c, st, room) == Wind(hash, c, st, st.r.content, Cut)
  {
    hide Wind;
  }

  lemma GatedHandshake(hash: Bytes -> Bytes, c: Config, st: Session, room: nat)
    requires Inv(hash, c, st) && ReceiverEnabled(st) && Gated(c, st) && HasPartial(c, st)
    requires !st.r.Receiving? && !st.r.Decide?
    ensures Gated(c, ReceiverStep(hash, c, st, room))
  {
    if Pending(st.sLog, st.rRead) { assert SenderFrameAt(hash, c, st.rRead, st.sLog[st.rRead]); }
    hide SenderScript, ReceiverScript, SenderAt, StreamComplete, OnStream, OnDecide, RightlyDone;
  }

  lemma GatedDecide(hash: Bytes -> Bytes, c: Config, st: Session, room: nat)
    requires Inv(hash, c, st) && Gated(c, st) && st.r.Decide? && c.partial != c.out
    ensures Gated(c, OnDecide(hash, c, st))
  {
    hide SenderScript, ReceiverScript, SenderAt, StreamComplete, Base, ResumeOffset, Authenticated;
  }

  lemma GatedReceiver(hash: Bytes -> Bytes, c: Config, st: Session, room: nat)
    requires Inv(hash, c, st) && ReceiverEnabled(st) && Gated(c, st) && HasPartial(c, st)
    ensures Gated(c, ReceiverStep(hash, c, st, room))
  {
    if st.r.Receiving? {
      GatedStream(hash, c, st, room);
    } else if st.r.Decide? {
      GatedDecide(hash, c, st, room);
      hide Inv, Gated, OnDecide;
    } else {
      GatedHandshake(hash, c, st, room);
    }
  }

  lemma GatedFailure(hash: Bytes -> Bytes, c: Config, st: Session, discard: bool)
    requires Inv(hash, c, st) && Gated(c, st) && HasPartial(c, st) && !st.r.Finished? && !st.r.Baffled?
    ensures Gated(c, Next(hash, c, st, ReceiverFails(discard)))
  {
    NextStart(hash, c, st, ReceiverFails(discard));
    hide SenderScript, ReceiverScript, SenderAt, StreamComplete, ConcludePush, ConcludeOnce, Welcome, Taken, Midway;
  }

  lemma GatedSender(hash: Bytes -> Bytes, c: Config, st: Session, m: Move)
    requires Enabled(st, m) && (m.SenderMoves? || m.SenderFails?) && Gated(c, st) && HasPartial(c, st)
    ensures Gated(c, Next(hash, c, st, m))
  {
    hide Welcome, Authenticated, HelloOf, OnReply, ReceiverStep, Wind, HasPartial;
  }

  lemma GatedNext(hash: Bytes -> Bytes, c: Config, st: Session, m: Move)
    requires Inv(hash, c, st) && Enabled(st, m) && Gated(c, st) && HasPartial(c, st)
    ensures Gated(c, Next(hash, c, st, m))
  {
    match m
    case ReceiverMoves(room) => GatedReceiver(hash, c, st, room); hide Inv, Gated, ReceiverStep, HasPartial;
    case ReceiverFails(discard) => hide Inv, Gated, Wind, HasPartial; GatedFailure(hash, c, st, discard);
    case _ => GatedSender(hash, c, st, m);
  }

  lemma {:induction false} GatedPlay(hash: Bytes -> Bytes, c: Config, st: Session, moves: seq<Move>)
    requires Inv(hash, c, st) && Gated(c, st)
    ensures Gated(c, Play(hash, c, st, moves))
    decreases |moves|
  {
    if moves != [] {
      hide Inv, HasPartial, Next, Enabled, Gated;
      if !Enabled(st, moves[0]) {
        GatedPlay(hash, c, st, moves[1..]);
      } else {
        NextKeeps(hash, c, st, moves[0]);
        GatedNext(hash, c, st, moves[0]);
        GatedPlay(hash, c, Next(hash, c, st, moves[0]), moves[1..]);
      }
    }
  }

  /**
   * On every schedule and with every failure: a sender that is not welcome changes no file, and Send returns nil to a
   * welcome sender only.
   */
  lemma OnlyWelcomeSendersLand(hash: Bytes -> Bytes, c: Config, files: Files, moves: seq<Move>)
    requires c.partial != c.out
    ensures Inv(hash, c, Init(files))
    ensures var end := Play(hash, c, Init(files), moves);
      !Welcome(c, files) ==> end.files == files && end.s != Quit(true)
  {
    InitInv(hash, c, files);
    GatedPlay(hash, c, Init(files), moves);
    StartStays(hash, c, Init(files), moves);
    hide Play, Welcome, SenderScript, ReceiverScript, StreamComplete, RightlyDone;
  }

  // ---- and a welcome one gets through ----

  /** The receiver's frames of a session in which nothing has gone wrong. */
  predicate GoodReplies(hash: Bytes -> Bytes, c: Config, log: seq<Msg>) {
    && NoError(log)
    && (WithPake(c) && |log| > 1 ==> log[1] == Confirm(c.recvPassword, "R"))
    && (|log| > RHead(c) ==> log[RHead(c)].Accept? && log[RHead(c)].ok && log[RHead(c)].resumeAt <= |c.body|)
    && (|log| == RHead(c) + 2 ==> log[RHead(c) + 1] == Done(true, hash(c.body)))
  }

  /** Nothing has gone wrong at either end. */
  predicate Flowing(hash: Bytes -> Bytes, c: Config, st: Session) {
    && GoodReplies(hash, c, st.rLog)
    && (st.s.Quit? ==> st.s.ok)
    && (st.r.Finished? ==> st.r.placed && c.out in st.files && st.files[c.out] == c.body)
  }

  /** The disk takes the file, and what would be resumed is part of it. */
  predicate GoodDisk(c: Config, start: Files) {
    && Smooth(c.fate)
    && (c.resume && ResumeOffset(start, c.partial, |c.body|) > 0 ==> start[c.partial] <= c.body)
  }

  /** A schedule without failures, on a disk that never runs out of room. */
  predicate Undisturbed(c: Config, moves: seq<Move>) {
    forall m :: m in moves ==> m.SenderMoves? || (m.ReceiverMoves? && m.room >= |c.body|)
  }

  lemma FlowingSender(hash: Bytes -> Bytes, c: Config, st: Session, chunk: nat)
    requires Inv(hash, c, st) && SenderEnabled(st) && Flowing(hash, c, st) && Welcome(c, st.start)
    ensures Flowing(hash, c, SenderStep(hash, c, st, chunk))
  {
    if SenderReads(st.s) {
      assert Pending(st.rLog, st.sRead) by { StillPending(hash, c, st); }
      ReadsExpected(hash, c, st);
      hide SenderScript, ReceiverScript, StreamComplete, ReceiverAt, Carried, Offset, NoError;
      assert !st.rLog[st.sRead].Error? by { NoErrorAt(st.rLog, st.sRead); }
    } else {
      hide Inv, GoodReplies;
    }
  }

  lemma NoErrorAt(log: seq<Msg>, i: nat)
    requires NoError(log) && i < |log|
    ensures !log[i].Error?
  {
  }

  lemma StillPending(hash: Bytes -> Bytes, c: Config, st: Session)
    requires Inv(hash, c, st) && SenderEnabled(st) && Flowing(hash, c, st) && SenderReads(st.s)
    ensures Pending(st.rLog, st.sRead)
  {
    hide SenderScript, ReceiverScript, StreamComplete, Carried, Offset, GoodReplies, Taken, Midway;
  }

  lemma GoodAppend(hash: Bytes -> Bytes, c: Config, log: seq<Msg>, m: Msg)
    requires GoodReplies(hash, c, log) && !m.Error? && |log| < RHead(c) + 2
    requires WithPake(c) && |log| == 1 ==> m == Confirm(c.recvPassword, "R")
    requires |log| == RHead(c) ==> m.Accept? && m.ok && m.resumeAt <= |c.body|
    requires |log| == RHead(c) + 1 ==> m == Done(true, hash(c.body))
    ensures GoodReplies(hash, c, log + [m])
  {
  }

  /** While it receives, the receiver has a prefix of the body, and what is pending continues it. */
  lemma OnTheWay(hash: Bytes -> Bytes, c: Config, st: Session)
    requires Inv(hash, c, st) && Flowing(hash, c, st) && GoodDisk(c, st.start) && st.r.Receiving?
    requires Pending(st.sLog, st.rRead) && (st.sLog[st.rRead].Data? || st.sLog[st.rRead].Eof?)
    ensures st.sLog[st.rRead].Data? ==> |st.r.content| + |st.sLog[st.rRead].payload| <= |c.body|
    ensures st.sLog[st.rRead].Eof? ==> st.r.content == c.body
  {
    var o := Offset(c, st.rLog);
    assert Midway(c, st.rLog, st.files, st.start, st.r.content);
    assert Taken(c, o, st.start, st.sLog, st.rRead, st.r.content);
    assert st.sLog[st.rRead].Eof? ==> st.rRead == |st.sLog| - 1;
    assert |st.sLog| > SHead(c);
    CarriedSoFar(hash, c, st);
    if st.sLog[st.rRead].Eof? {
      assert Carried(st.sLog[SHead(c)..]) == c.body[o..] by {
        hide Carried, SenderScript, ReceiverScript, ReceiverAt, SenderAt;
      }
    }
    assert o > 0 ==> c.resume && o == ResumeOffset(st.start, c.partial, |c.body|);
    hide Inv, Flowing, Taken, Midway;
    if st.sLog[st.rRead].Data? {
      TakenFits(c, o, st.start, st.sLog, st.rRead, st.r.content);
    } else {
      TakenIsBody(c, o, st.start, st.sLog, st.rRead, st.r.content);
    }
  }

  lemma BaseIsPrefix(c: Config, o: nat, start: Files)
    requires GoodDisk(c, start) && o <= |c.body|
    requires o > 0 ==> c.resume && o == ResumeOffset(start, c.partial, |c.body|)
    ensures (o > 0 ==> c.partial in start && o <= |start[c.partial]|) && Base(start, c.partial, o) == c.body[..o]
  {
  }

  lemma TakenFits(c: Config, o: nat, start: Files, sLog: seq<Msg>, rRead: nat, content: Bytes)
    requires Taken(c, o, start, sLog, rRead, content) && GoodDisk(c, start) && rRead < |sLog| && sLog[rRead].Data?
    requires o <= |c.body| && Carried(sLog[SHead(c)..]) <= c.body[o..]
    requires o > 0 ==> c.resume && o == ResumeOffset(start, c.partial, |c.body|)
    ensures |content| + |sLog[rRead].payload| <= |c.body|
  {
    BaseIsPrefix(c, o, start);
    var h, m := SHead(c), sLog[rRead];
    var got, whole := Carried(sLog[h..rRead]), Carried(sLog[h..]);
    CarriedOneMore(sLog, h, rRead);
    CarriedPart(sLog, h, rRead + 1);
    hide Carried, GoodDisk, Base, ResumeOffset, SHead;
    StillFits(c.body, o, content, got, m.payload, whole);
  }

  lemma TakenIsBody(c: Config, o: nat, start: Files, sLog: seq<Msg>, rRead: nat, content: Bytes)
    requires Taken(c, o, start, sLog, rRead, content) && GoodDisk(c, start)
    requires rRead == |sLog| - 1 && sLog[rRead].Eof?
    requires o <= |c.body| && Carried(sLog[SHead(c)..]) == c.body[o..]
    requires o > 0 ==> c.resume && o == ResumeOffset(start, c.partial, |c.body|)
    ensures content == c.body
  {
    BaseIsPrefix(c, o, start);
    TakenAll(c, o, start, sLog, rRead, content);
    hide Taken, GoodDisk, Base, ResumeOffset, SHead, Carried;
    assert c.body[..o] + c.body[o..] == c.body;
  }

  lemma StillFits(body: Bytes, o: nat, content: Bytes, got: Bytes, more: Bytes, whole: Bytes)
    requires o <= |body| && content == body[..o] + got && got + more <= whole && whole <= body[o..]
    ensures |content| + |more| <= |body|
  {
    assert |got + more| <= |whole| <= |body| - o;
  }

  lemma CarriedSoFar(hash: Bytes -> Bytes, c: Config, st: Session)
    requires Inv(hash, c, st) && Flowing(hash, c, st) && st.r.Receiving? && |st.sLog| > SHead(c)
    ensures Offset(c, st.rLog) <= |c.body| && Carried(st.sLog[SHead(c)..]) <= c.body[Offset(c, st.rLog)..]
  {
    hide Carried, SenderScript, ReceiverScript, GoodReplies, Taken, Offset;
    if st.s.Streaming? {
      var o := Offset(c, st.rLog);
      assert c.body[o..st.s.sent] == c.body[o..][..st.s.sent - o];
    }
  }

  lemma {:induction false} CarriedPart(log: seq<Msg>, h: nat, k: nat)
    requires h <= k <= |log|
    ensures Carried(log[h..k]) <= Carried(log[h..])
    decreases |log| - k
  {
    if k == |log| {
      assert log[h..k] == log[h..];
    } else {
      CarriedOneMore(log, h, k);
      CarriedPart(log, h, k + 1);
    }
  }

  lemma FlowingHandshake(hash: Bytes -> Bytes, c: Config, st: Session, room: nat)
    requires Inv(hash, c, st) && ReceiverEnabled(st) && HasPartial(c, st)
    requires Flowing(hash, c, st) && Welcome(c, st.start)
    requires !st.r.Decide? && !st.r.Receiving?
    ensures Flowing(hash, c, ReceiverStep(hash, c, st, room))
  {
    if st.r.SendReceiverPake? {
      GoodAppend(hash, c, st.rLog, Pake);
    } else if st.r.SendReceiverConfirm? {
      GoodAppend(hash, c, st.rLog, Confirm(c.recvPassword, "R"));
    } else {
      StillComing(hash, c, st);
      assert SenderFrameAt(hash, c, st.rRead, st.sLog[st.rRead]);
    }
    hide GoodReplies, SenderScript, ReceiverScript, SenderAt, StreamComplete, OnStream, OnDecide, Wind, RightlyDone;
  }

  /** The sender has not hung up on a receiver that still wants to read. */
  lemma StillComing(hash: Bytes -> Bytes, c: Config, st: Session)
    requires Inv(hash, c, st) && ReceiverEnabled(st) && Flowing(hash, c, st) && ReceiverReads(st.r)
    ensures Pending(st.sLog, st.rRead)
  {
    hide SenderScript, ReceiverScript, StreamComplete, GoodReplies, RightlyDone, Taken, Carried;
  }

  lemma FlowingDecide(hash: Bytes -> Bytes, c: Config, st: Session)
    requires Inv(hash, c, st) && Flowing(hash, c, st) && Welcome(c, st.start) && st.r.Decide? && c.fate.open
    ensures Flowing(hash, c, OnDecide(hash, c, st))
  {
    var offset := if c.resume then ResumeOffset(st.files, c.partial, |c.body|) else 0;
    OffsetBounded(st.files, c.partial, |c.body|);
    GoodAppend(hash, c, st.rLog, Accept(true, offset));
    hide GoodReplies, SenderScript, ReceiverScript, SenderAt, StreamComplete;
    hide Wind, RightlyDone, ResumeOffset, Authenticated;
  }

  /** The end of the stream, with the whole body in hand. */
  lemma WholeWind(hash: Bytes -> Bytes, c: Config, st: Session, room: nat)
    requires c.partial in st.files && c.partial != c.out && st.files[c.partial] == c.body
    requires Smooth(c.fate) && (c.overwrite || c.out !in st.files)
    ensures var w := Wind(hash, c, st, c.body, ToInput(Eof, room));
      && w.r == Finished(true) && w.s == st.s && w.rLog == st.rLog + [Done(true, hash(c.body))]
      && c.out in w.files && w.files[c.out] == c.body
  {
  }

  /** Nothing appears at the destination behind the receiver's back while it receives. */
  predicate OutUntouched(c: Config, st: Session) {
    !st.r.Finished? && c.out !in st.start ==> c.out !in st.files
  }

  lemma FlowingStream(hash: Bytes -> Bytes, c: Config, st: Session, room: nat)
    requires Inv(hash, c, st) && ReceiverEnabled(st) && HasPartial(c, st)
    requires Flowing(hash, c, st) && Welcome(c, st.start)
    requires st.r.Receiving? && GoodDisk(c, st.start) && room >= |c.body| && OutUntouched(c, st)
    ensures Flowing(hash, c, ReceiverStep(hash, c, st, room)) && OutUntouched(c, ReceiverStep(hash, c, st, room))
  {
    StillComing(hash, c, st);
    StreamStep(hash, c, st, room);
    OnTheWay(hash, c, st);
    var m := st.sLog[st.rRead];
    if m.Eof? {
      WholeWind(hash, c, st.(rRead := st.rRead + 1), room);
      assert |st.rLog| == RHead(c) + 1 by { MidwayLength(hash, c, st); }
      GoodAppend(hash, c, st.rLog, Done(true, hash(c.body)));
      hide Inv, ReceiverStep, Wind, GoodReplies;
    } else {
      hide Inv, ReceiverStep, Wind, GoodReplies;
    }
  }

  lemma MidwayLength(hash: Bytes -> Bytes, c: Config, st: Session)
    requires Inv(hash, c, st) && st.r.Receiving?
    ensures |st.rLog| == RHead(c) + 1
  {
    hide SenderScript, ReceiverScript, StreamComplete, SenderAt, Taken;
  }

  lemma OutStays(hash: Bytes -> Bytes, c: Config, st: Session, m: Move)
    requires Enabled(st, m) && HasPartial(c, st) && OutUntouched(c, st) && !st.r.Receiving?
    ensures OutUntouched(c, Next(hash, c, st, m))
  {
    hide OnReply, HelloOf, OnStream, ResumeOffset, ToInput, Base, JobOf;
  }

  lemma FlowingNext(hash: Bytes -> Bytes, c: Config, st: Session, m: Move)
    requires Inv(hash, c, st) && Enabled(st, m) && HasPartial(c, st)
    requires m.SenderMoves? || (m.ReceiverMoves? && m.room >= |c.body|)
    requires Flowing(hash, c, st) && OutUntouched(c, st) && Welcome(c, st.start) && GoodDisk(c, st.start)
    ensures Flowing(hash, c, Next(hash, c, st, m)) && OutUntouched(c, Next(hash, c, st, m))
  {
    match m
    case SenderMoves(chunk) =>
      FlowingSender(hash, c, st, chunk);
      SenderLeavesFiles(hash, c, st, chunk);
      hide Inv, Flowing, SenderStep, HasPartial;
    case ReceiverMoves(room) =>
      if st.r.Receiving? {
        FlowingStream(hash, c, st, room);
        hide Inv, Flowing, ReceiverStep, HasPartial, OutUntouched;
      } else if st.r.Decide? {
        OutStays(hash, c, st, m);
        FlowingDecide(hash, c, st);
        hide Inv, Flowing, OnDecide, HasPartial, OutUntouched;
      } else {
        OutStays(hash, c, st, m);
        FlowingHandshake(hash, c, st, room);
        hide Inv, Flowing, ReceiverStep, HasPartial, OutUntouched;
      }
  }

  lemma SenderLeavesFiles(hash: Bytes -> Bytes, c: Config, st: Session, chunk: nat)
    requires SenderEnabled(st)
    ensures var st' := SenderStep(hash, c, st, chunk);
      st'.files == st.files && st'.start == st.start && st'.r == st.r
  {
    hide OnReply, HelloOf;
  }

  lemma {:induction false} FlowingPlay(hash: Bytes -> Bytes, c: Config, st: Session, moves: seq<Move>)
    requires Inv(hash, c, st) && Undisturbed(c, moves)
    requires Flowing(hash, c, st) && OutUntouched(c, st) && Welcome(c, st.start) && GoodDisk(c, st.start)
    ensures Flowing(hash, c, Play(hash, c, st, moves))
    decreases |moves|
  {
    if moves != [] {
      hide Inv, HasPartial, Next, Enabled, Flowing, OutUntouched, Welcome, GoodDisk;
      assert moves[0] in moves && Undisturbed(c, moves[1..]);
      if !Enabled(st, moves[0]) {
        FlowingPlay(hash, c, st, moves[1..]);
      } else {
        NextKeeps(hash, c, st, moves[0]);
        NextStart(hash, c, st, moves[0]);
        FlowingNext(hash, c, st, moves[0]);
        FlowingPlay(hash, c, Next(hash, c, st, moves[0]), moves[1..]);
      }
    }
  }

  /**
   * Without failures, and on a good disk, being welcome is exactly what it takes: when both ends have finished, Send
   * has returned nil if and only if the sender was welcome, and then the destination holds the body.
   */
  lemma WelcomeSendersGetThrough(hash: Bytes -> Bytes, c: Config, files: Files, moves: seq<Move>)
    requires c.partial != c.out && GoodDisk(c, files) && Undisturbed(c, moves)
    ensures Inv(hash, c, Init(files))
    ensures var end := Play(hash, c, Init(files), moves);
      Over(end) ==>
        && (end.s == Quit(true) <==> Welcome(c, files))
        && (Welcome(c, files) ==> end.r == Finished(true) && c.out in end.files && end.files[c.out] == c.body)
  {
    OnlyWelcomeSendersLand(hash, c, files, moves);
    NeverConfused(hash, c, files, moves);
    if Welcome(c, files) {
      assert Flowing(hash, c, Init(files));
      FlowingPlay(hash, c, Init(files), moves);
      hide Inv, Play, GoodReplies, Welcome;
    }
  }

  // ---- every session can be brought to its end ----

  /**
   * However far an undisturbed session has got, undisturbed moves bring it to its end: nobody waits for ever, and the
   * outcome is decided by being welcome.
   */
  lemma UndisturbedSessionsFinish(hash: Bytes -> Bytes, c: Config, files: Files, moves: seq<Move>)
    returns (rest: seq<Move>)
    requires c.partial != c.out && GoodDisk(c, files) && Undisturbed(c, moves)
    ensures Undisturbed(c, rest) && Inv(hash, c, Init(files))
    ensures var end := Play(hash, c, Init(files), moves + rest);
      && Over(end) && (end.s == Quit(true) <==> Welcome(c, files))
      && (Welcome(c, files) ==> end.r == Finished(true) && c.out in end.files && end.files[c.out] == c.body)
  {
    InitInv(hash, c, files);
    var st := Play(hash, c, Init(files), moves);
    rest := Finishes(hash, c, st);
    PlayAppend(hash, c, Init(files), moves, rest);
    hide Play, Inv, Over, Welcome, GoodDisk;
    assert Undisturbed(c, rest) && Undisturbed(c, moves + rest);
    WelcomeSendersGetThrough(hash, c, files, moves + rest);
  }
}
