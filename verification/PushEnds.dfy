/**
 * Each end of a push against whatever the other end says; and pushes cut short, which the next session goes on from.
 * Limits stand here as the numbers they are.
 */
module PushEnds {
  import opened Bytes
  import opened LanFrames
  import opened Transfers
  import opened PushRuns
  import opened PushSession
  import opened PushOutcome
  import opened Endings

  // ---- the sender, against any replies ----

  /** The sender with these replies before it, on a connection that is closed after them. */
  function Facing(replies: seq<Msg>): Session { Session(SendHello, Finished(false), [], replies, 0, 0, map[], map[]) }

  /** So many steps of it, each taking so much of the body at most. */
  function SenderAlone(hash: Bytes -> Bytes, c: Config, st: Session, chunks: seq<nat>): Session
    decreases |chunks|
  {
    if chunks == [] then st
    else SenderAlone(hash, c, if SenderEnabled(st) then SenderStep(hash, c, st, chunks[0]) else st, chunks[1..])
  }

  /** The password exchange, if there is one, with the tag that only the same password gives. */
  predicate Confirmed(c: Config, replies: seq<Msg>) {
    c.sendPassword != "" ==> |replies| >= 2 && replies[0].Pake? && replies[1] == Confirm(c.sendPassword, "R")
  }

  function Handshakes(c: Config): nat { if c.sendPassword != "" then 2 else 0 }

  /** An acceptance, from an offset that is there. */
  predicate Agreeing(c: Config, replies: seq<Msg>) {
    var h := Handshakes(c);
    |replies| > h && replies[h].Accept? && replies[h].ok && (c.resume ==> replies[h].resumeAt <= |c.body|)
  }

  /** And a report of success, without a digest or with the body's. */
  predicate Satisfying(hash: Bytes -> Bytes, c: Config, replies: seq<Msg>) {
    var h := Handshakes(c);
    && Confirmed(c, replies) && Agreeing(c, replies)
    && |replies| > h + 1 && replies[h + 1].Done? && replies[h + 1].ok
    && (replies[h + 1].sum == [] || replies[h + 1].sum == hash(c.body))
  }

  function From(c: Config, replies: seq<Msg>): nat
    requires Agreeing(c, replies)
  {
    if c.resume && replies[Handshakes(c)].resumeAt > 0 then replies[Handshakes(c)].resumeAt else 0
  }

  /** What comes before the stream. */
  function Greetings(hash: Bytes -> Bytes, c: Config): seq<Msg> {
    [Hello(true, |c.body|, c.sendPassword != "", c.identity, if c.resume then Some(hash(c.body)) else None)]
    + if c.sendPassword != "" then [Pake, Confirm(c.sendPassword, "S")] else []
  }

  predicate AllData(log: seq<Msg>) { forall i :: 0 <= i < |log| ==> log[i].Data? && 0 < |log[i].payload| <= 65536 }

  /** The log: the greetings, and then this much of the body in data frames. */
  predicate Wrote(hash: Bytes -> Bytes, c: Config, log: seq<Msg>, from: nat, upTo: nat) {
    var g := Greetings(hash, c);
    && from <= upTo <= |c.body| && g <= log
    && AllData(log[|g|..]) && Carried(log[|g|..]) == c.body[from..upTo]
  }

  predicate WroteAll(hash: Bytes -> Bytes, c: Config, log: seq<Msg>, from: nat) {
    log != [] && log[|log| - 1] == Eof && Wrote(hash, c, log[..|log| - 1], from, |c.body|)
  }

  /** How far the sender has come with these replies. */
  predicate Facts(hash: Bytes -> Bytes, c: Config, replies: seq<Msg>, st: Session) {
    var h, g := Handshakes(c), Greetings(hash, c);
    && st.rLog == replies && st.r.Finished?
    && match st.s
       case SendHello => st.sRead == 0 && st.sLog == []
       case SendPake => h == 2 && st.sRead == 0 && st.sLog == g[..1]
       case AwaitPake => h == 2 && st.sRead == 0 && st.sLog == g[..2]
       case SendConfirm => h == 2 && st.sRead == 1 && st.sLog == g[..2] && |replies| > 0 && replies[0].Pake?
       case AwaitConfirm => h == 2 && st.sRead == 1 && st.sLog == g && |replies| > 0 && replies[0].Pake?
       case AwaitAccept => st.sRead == h && st.sLog == g && Confirmed(c, replies)
       case Streaming(sent) =>
         && st.sRead == h + 1 && Confirmed(c, replies) && Agreeing(c, replies)
         && Wrote(hash, c, st.sLog, From(c, replies), sent)
       case AwaitDone =>
         && st.sRead == h + 1 && Confirmed(c, replies) && Agreeing(c, replies)
         && WroteAll(hash, c, st.sLog, From(c, replies))
       case Quit(ok) =>
         && (ok <==> Satisfying(hash, c, replies)) && (ok ==> WroteAll(hash, c, st.sLog, From(c, replies)))
       case Confused => !Satisfying(hash, c, replies)
  }

  lemma StartsStreaming(hash: Bytes -> Bytes, c: Config, from: nat)
    requires from <= |c.body|
    ensures Wrote(hash, c, Greetings(hash, c), from, from)
  {
    var g := Greetings(hash, c);
    assert g[|g|..] == [] && c.body[from..from] == [];
    hide Greetings;
    assert Carried([]) == [];
  }

  lemma WritesData(hash: Bytes -> Bytes, c: Config, log: seq<Msg>, from: nat, sent: nat, k: nat)
    requires Wrote(hash, c, log, from, sent) && sent < k <= |c.body| && k - sent <= 65536
    ensures Wrote(hash, c, log + [Data(c.body[sent..k])], from, k)
  {
    hide Greetings;
    var g, m := Greetings(hash, c), Data(c.body[sent..k]);
    CarriedMore(c.body, log, |g|, from, sent, k);
    hide Carried;
    OneMoreData(log, |g|, m);
    hide AllData;
  }

  lemma OneMoreData(log: seq<Msg>, h: nat, m: Msg)
    requires h <= |log| && AllData(log[h..]) && m.Data? && 0 < |m.payload| <= 65536
    ensures AllData((log + [m])[h..])
  {
    assert (log + [m])[h..] == log[h..] + [m];
  }

  lemma WritesEof(hash: Bytes -> Bytes, c: Config, log: seq<Msg>, from: nat)
    requires Wrote(hash, c, log, from, |c.body|)
    ensures WroteAll(hash, c, log + [Eof], from)
  {
    assert (log + [Eof])[..|log|] == log;
    hide Wrote;
  }

  lemma GreetingSteps(hash: Bytes -> Bytes, c: Config)
    ensures var g := Greetings(hash, c);
      && |g| == 1 + Handshakes(c) && g[..1] == [HelloOf(hash, c)]
      && (c.sendPassword == "" ==> g == [HelloOf(hash, c)])
      && (c.sendPassword != "" ==> g[..2] == g[..1] + [Pake] && g == g[..2] + [Confirm(c.sendPassword, "S")])
  {
  }

  lemma FactsWriting(hash: Bytes -> Bytes, c: Config, replies: seq<Msg>, st: Session, chunk: nat)
    requires Facts(hash, c, replies, st) && SenderWrites(st.s)
    ensures Facts(hash, c, replies, SenderStep(hash, c, st, chunk))
  {
    hide Satisfying, Agreeing, Wrote, WroteAll, HelloOf, OnReply, Greetings;
    if st.s.Streaming? {
      StreamingWrites(hash, c, replies, st, chunk);
    } else {
      GreetingSteps(hash, c);
    }
  }

  lemma StreamingWrites(hash: Bytes -> Bytes, c: Config, replies: seq<Msg>, st: Session, chunk: nat)
    requires Facts(hash, c, replies, st) && st.s.Streaming?
    ensures Facts(hash, c, replies, SenderStep(hash, c, st, chunk))
  {
    var sent, from := st.s.sent, From(c, replies);
    assert sent <= |c.body|;
    hide Satisfying, Agreeing, Confirmed, Wrote, WroteAll, Greetings, OnReply, HelloOf;
    if sent < |c.body| {
      var st' := SenderStep(hash, c, st, chunk);
      var k := st'.s.sent;
      assert sent < k <= |c.body| && k - sent <= 65536 && st'.sLog == st.sLog + [Data(c.body[sent..k])];
      WritesData(hash, c, st.sLog, from, sent, k);
    } else {
      WritesEof(hash, c, st.sLog, from);
    }
  }

  lemma FactsReading(hash: Bytes -> Bytes, c: Config, replies: seq<Msg>, st: Session, chunk: nat)
    requires Facts(hash, c, replies, st) && SenderReads(st.s)
    ensures Facts(hash, c, replies, SenderStep(hash, c, st, chunk))
  {
    hide Wrote, WroteAll, Greetings;
    match st.s
    case AwaitPake =>
    case AwaitConfirm =>
    case AwaitAccept =>
      if Agreeing(c, replies) { StartsStreaming(hash, c, From(c, replies)); }
    case AwaitDone =>
  }

  lemma {:induction false} FactsAlone(hash: Bytes -> Bytes, c: Config, replies: seq<Msg>, st: Session,
                                      chunks: seq<nat>)
    requires Facts(hash, c, replies, st)
    ensures Facts(hash, c, replies, SenderAlone(hash, c, st, chunks))
    decreases |chunks|
  {
    if chunks != [] {
      hide Facts, SenderStep;
      if SenderWrites(st.s) {
        FactsWriting(hash, c, replies, st, chunks[0]);
      } else if SenderReads(st.s) {
        FactsReading(hash, c, replies, st, chunks[0]);
      }
      FactsAlone(hash, c, replies, if SenderEnabled(st) then SenderStep(hash, c, st, chunks[0]) else st, chunks[1..]);
    }
  }

  /**
   * Send against any receiver at all: when it returns, it returns nil exactly for replies that confirm the password,
   * accept, from an offset within the body, and report success and no digest or the body's own. By then it has written
   * the greetings, the body from that offset in data frames of 1 to 65536 bytes, and the end of the stream.
   */
  lemma NilExactly(hash: Bytes -> Bytes, c: Config, replies: seq<Msg>, chunks: seq<nat>)
    ensures var end := SenderAlone(hash, c, Facing(replies), chunks);
      end.s.Quit? || end.s.Confused? ==>
        && (end.s == Quit(true) <==> Satisfying(hash, c, replies))
        && (end.s == Quit(true) ==> WroteAll(hash, c, end.sLog, From(c, replies)))
  {
    FactsAlone(hash, c, replies, Facing(replies), chunks);
    hide SenderAlone, Satisfying, WroteAll, Agreeing;
  }

  // ---- the receiver's door, against any sender ----

  function Hearing(log: seq<Msg>, files: Files): Session {
    Session(Quit(false), AwaitHello, log, [], 0, 0, files, files)
  }

  predicate AtTheDoor(r: Receiver) { !r.Decide? && !r.Receiving? && !r.Finished? && !r.Baffled? }

  /** So many steps of the receiver up to its decision. */
  function DoorAlone(hash: Bytes -> Bytes, c: Config, st: Session, n: nat): Session
    requires c.partial != c.out
    decreases n
  {
    if n == 0 || !AtTheDoor(st.r) || !ReceiverEnabled(st) then st
    else DoorAlone(hash, c, ReceiverStep(hash, c, st, 0), n - 1)
  }

  /**
   * Who gets in: a valid hello of at most 1 TiB, and either the proof of the password that is set, or no password
   * where none is set or for an identity that is trusted.
   */
  predicate LetIn(c: Config, log: seq<Msg>) {
    && |log| > 0 && log[0].Hello? && log[0].valid && 0 <= log[0].size <= 1_099_511_627_776
    && if log[0].hasPassword
       then c.recvPassword != "" && |log| > 2 && log[1].Pake? && log[2] == Confirm(c.recvPassword, "S")
       else c.recvPassword == "" || (log[0].identity && c.trusts)
  }

  /** What is known of the log when the receiver is where it is, and how many steps it is from its decision. */
  predicate Heard(c: Config, log: seq<Msg>, files: Files, st: Session, n: nat) {
    && st.sLog == log && st.files == files && st.s == Quit(false) && st.rRead <= |log|
    && var begun := |log| > 0 && log[0].Hello? && log[0].valid && 0 <= log[0].size <= 1_099_511_627_776
                    && log[0].hasPassword && c.recvPassword != "";
    match st.r
    case AwaitHello => st.rRead == 0 && n >= 5
    case AwaitSenderPake => st.rRead == 1 && begun && n >= 4
    case SendReceiverPake => st.rRead == 2 && begun && log[1].Pake? && n >= 3
    case AwaitSenderConfirm => st.rRead == 2 && begun && log[1].Pake? && n >= 2
    case SendReceiverConfirm => LetIn(c, log) && n >= 1
    case Decide => LetIn(c, log)
    case Finished(placed) => !placed && !LetIn(c, log)
    case Baffled => !LetIn(c, log)
    case Receiving(_) => false
  }

  lemma HeardStep(hash: Bytes -> Bytes, c: Config, log: seq<Msg>, files: Files, st: Session, n: nat)
    requires c.partial != c.out && Heard(c, log, files, st, n) && AtTheDoor(st.r) && n > 0
    ensures ReceiverEnabled(st) && Heard(c, log, files, ReceiverStep(hash, c, st, 0), n - 1)
  {
    hide OnStream, OnDecide, Wind;
    match st.r
    case AwaitHello =>
    case AwaitSenderPake =>
    case AwaitSenderConfirm =>
    case _ =>
  }

  lemma {:induction false} HeardAlone(hash: Bytes -> Bytes, c: Config, log: seq<Msg>, files: Files, st: Session, n: nat)
    requires c.partial != c.out && Heard(c, log, files, st, n)
    ensures Heard(c, log, files, DoorAlone(hash, c, st, n), 0) && !AtTheDoor(DoorAlone(hash, c, st, n).r)
    decreases n
  {
    if n > 0 && AtTheDoor(st.r) {
      HeardStep(hash, c, log, files, st, n);
      hide ReceiverStep, Heard;
      HeardAlone(hash, c, log, files, ReceiverStep(hash, c, st, 0), n - 1);
    }
  }

  /** Whatever a sender says, the receiver comes to its decision exactly for those it lets in, and touches no file. */
  lemma LetInExactly(hash: Bytes -> Bytes, c: Config, log: seq<Msg>, files: Files)
    requires c.partial != c.out
    ensures var st := DoorAlone(hash, c, Hearing(log, files), 5);
      && !AtTheDoor(st.r) && st.files == files
      && (st.r == Decide <==> LetIn(c, log))
  {
    HeardAlone(hash, c, log, files, Hearing(log, files), 5);
    hide DoorAlone, LetIn;
  }

  /** The last frame tells the sender no. */
  predicate Refuses(log: seq<Msg>) {
    log != [] && (log[|log| - 1].Error? || (log[|log| - 1].Accept? && !log[|log| - 1].ok))
  }

  lemma WindTells(hash: Bytes -> Bytes, c: Config, st: Session, content: Bytes, stop: Input)
    requires c.partial in st.files && c.partial != c.out
    ensures var w := Wind(hash, c, st, content, stop);
      w.r == Finished(true) || (w.r == Finished(false) && w.rLog == st.rLog + [Error])
  {
    hide ConcludePush, ConcludeOnce;
  }

  /** A receiver that ends without the file on what it has read, or on its own decision, always says so. */
  lemma RefusalsAreTold(hash: Bytes -> Bytes, c: Config, st: Session, room: nat)
    requires ReceiverEnabled(st) && HasPartial(c, st)
    ensures var st' := ReceiverStep(hash, c, st, room);
      st'.r == Finished(false) && (ReceiverWrites(st.r) || Pending(st.sLog, st.rRead)) ==>
        st.rLog < st'.rLog && Refuses(st'.rLog)
  {
    hide Base, ResumeOffset, Absorbs, ToInput;
    if st.r.Receiving? && Pending(st.sLog, st.rRead) {
      StepIsOnStream(hash, c, st, room);
      var m, st' := st.sLog[st.rRead], st.(rRead := st.rRead + 1);
      WindTells(hash, c, st', st.r.content, ToInput(m, room));
      hide Wind, ReceiverStep;
    } else {
      hide Wind, OnStream;
    }
  }

  // ---- sessions that go on from each other ----

  /** What a session goes on from. */
  function Offered(c: Config, start: Files): Bytes {
    if c.resume then Leftover(start, c.partial, |c.body|) else []
  }

  /** An acceptance offers that, and while the receiver receives, nothing but its partial has changed. */
  predicate Faithful(c: Config, st: Session) {
    && (RHead(c) < |st.rLog| && st.rLog[RHead(c)].Accept? && st.rLog[RHead(c)].ok ==>
          st.rLog[RHead(c)].resumeAt == |Offered(c, st.start)|)
    && (st.r.Receiving? ==> st.files == st.start[c.partial := st.r.content])
  }

  lemma FaithfulSender(hash: Bytes -> Bytes, c: Config, st: Session, m: Move)
    requires Enabled(st, m) && (m.SenderMoves? || m.SenderFails?) && HasPartial(c, st) && Faithful(c, st)
    ensures Faithful(c, Next(hash, c, st, m))
  {
    hide HelloOf, OnReply, ReceiverStep, Wind, Offered, HasPartial;
  }

  lemma FaithfulDecide(hash: Bytes -> Bytes, c: Config, st: Session)
    requires Inv(hash, c, st) && st.r.Decide?
    ensures Faithful(c, OnDecide(hash, c, st))
  {
    LeftoverIsBase(st.files, c.partial, |c.body|);
    assert |st.rLog| == RHead(c) && st.files == st.start;
    hide Inv, ResumeOffset, Leftover, Base;
  }

  lemma FaithfulHandshake(hash: Bytes -> Bytes, c: Config, st: Session, room: nat)
    requires Inv(hash, c, st) && ReceiverEnabled(st) && HasPartial(c, st) && !st.r.Receiving? && !st.r.Decide?
    ensures Faithful(c, ReceiverStep(hash, c, st, room))
  {
    assert |st.rLog| <= RHead(c);
    hide SenderScript, ReceiverScript, SenderAt, StreamComplete, OnStream, OnDecide, Wind, Offered;
  }

  /** Ending the loop adds one frame, after the acceptance. */
  lemma FaithfulWind(hash: Bytes -> Bytes, c: Config, st: Session, content: Bytes, stop: Input)
    requires c.partial in st.files && c.partial != c.out && RHead(c) < |st.rLog| && Faithful(c, st)
    ensures Faithful(c, Wind(hash, c, st, content, stop))
  {
    WindEnds(hash, c, st, content, stop);
    WindStart(hash, c, st, content, stop);
    hide ConcludePush, ConcludeOnce, Offered;
  }

  lemma FaithfulStream(hash: Bytes -> Bytes, c: Config, st: Session, room: nat)
    requires Inv(hash, c, st) && ReceiverEnabled(st) && HasPartial(c, st) && st.r.Receiving? && Faithful(c, st)
    ensures Faithful(c, ReceiverStep(hash, c, st, room))
  {
    assert |st.rLog| == RHead(c) + 1;
    if Pending(st.sLog, st.rRead) {
      StreamStep(hash, c, st, room);
      var m, st' := st.sLog[st.rRead], st.(rRead := st.rRead + 1);
      FaithfulWind(hash, c, st', st.r.content, ToInput(m, room));
      hide Inv, Wind, ReceiverStep, Offered;
    } else {
      ReceiverCuts(hash, c, st, room);
      FaithfulWind(hash, c, st, st.r.content, Cut);
      hide Inv, Wind, ReceiverStep, Offered;
    }
  }

  lemma FaithfulNext(hash: Bytes -> Bytes, c: Config, st: Session, m: Move)
    requires Inv(hash, c, st) && Enabled(st, m) && HasPartial(c, st) && Faithful(c, st)
    ensures Faithful(c, Next(hash, c, st, m))
  {
    match m
    case ReceiverMoves(room) =>
      if st.r.Receiving? {
        FaithfulStream(hash, c, st, room);
        hide Inv, Faithful, ReceiverStep, HasPartial;
      } else if st.r.Decide? {
        FaithfulDecide(hash, c, st);
        hide Inv, Faithful, OnDecide, HasPartial;
      } else {
        FaithfulHandshake(hash, c, st, room);
        hide Inv, Faithful, ReceiverStep, HasPartial;
      }
    case ReceiverFails(discard) => FaithfulFailure(hash, c, st, discard); hide *;
    case _ => FaithfulSender(hash, c, st, m); hide *;
  }

  lemma FaithfulFailure(hash: Bytes -> Bytes, c: Config, st: Session, discard: bool)
    requires Inv(hash, c, st) && Enabled(st, ReceiverFails(discard)) && HasPartial(c, st) && Faithful(c, st)
    ensures Faithful(c, Next(hash, c, st, ReceiverFails(discard)))
  {
    if st.r.Receiving? {
      assert |st.rLog| == RHead(c) + 1;
      FaithfulWind(hash, c, st, st.r.content, Cancel(discard));
    }
    hide Inv, Wind, SenderStep, ReceiverStep, Offered;
  }

  lemma {:induction false} FaithfulPlay(hash: Bytes -> Bytes, c: Config, st: Session, moves: seq<Move>)
    requires Inv(hash, c, st) && Faithful(c, st)
    ensures Faithful(c, Play(hash, c, st, moves))
    decreases |moves|
  {
    if moves != [] {
      hide Inv, HasPartial, Next, Enabled, Faithful;
      if !Enabled(st, moves[0]) {
        FaithfulPlay(hash, c, st, moves[1..]);
      } else {
        NextKeeps(hash, c, st, moves[0]);
        FaithfulNext(hash, c, st, moves[0]);
        FaithfulPlay(hash, c, Next(hash, c, st, moves[0]), moves[1..]);
      }
    }
  }

  /** The frames of the stream that the receiver has read. */
  function Came(c: Config, st: Session): Bytes
    requires SHead(c) <= st.rRead <= |st.sLog|
  {
    Carried(st.sLog[SHead(c)..st.rRead])
  }

  /**
   * On every schedule: an acceptance offers exactly what a shorter partial holds, and nothing of any other; and while
   * the receiver receives, its partial is that and what has come, in order, and no other file has changed.
   */
  lemma PartialExactly(hash: Bytes -> Bytes, c: Config, files: Files, moves: seq<Move>)
    requires c.partial != c.out
    ensures Inv(hash, c, Init(files))
    ensures var st := Play(hash, c, Init(files), moves);
      var had := if c.resume then Leftover(files, c.partial, |c.body|) else [];
      && (RHead(c) < |st.rLog| && st.rLog[RHead(c)].Accept? && st.rLog[RHead(c)].ok ==>
            st.rLog[RHead(c)].resumeAt == |had|)
      && (st.r.Receiving? ==>
            && SHead(c) <= st.rRead <= |st.sLog|
            && st.r.content == had + Came(c, st) && st.files == files[c.partial := had + Came(c, st)])
  {
    InitInv(hash, c, files);
    FaithfulPlay(hash, c, Init(files), moves);
    StartStays(hash, c, Init(files), moves);
    var st := Play(hash, c, Init(files), moves);
    hide Play;
    if st.r.Receiving? {
      TakenFromOffer(hash, c, st);
    }
    hide Inv, Carried, Leftover;
  }

  lemma TakenFromOffer(hash: Bytes -> Bytes, c: Config, st: Session)
    requires Inv(hash, c, st) && Faithful(c, st) && st.r.Receiving?
    ensures SHead(c) <= st.rRead <= |st.sLog| && st.r.content == Offered(c, st.start) + Came(c, st)
  {
    var offset := Offset(c, st.rLog);
    assert Taken(c, offset, st.start, st.sLog, st.rRead, st.r.content);
    assert offset == |Offered(c, st.start)| by {
      hide SenderScript, ReceiverScript, SenderAt, StreamComplete, Carried, Leftover;
    }
    LeftoverIsBase(st.start, c.partial, |c.body|);
    assert c.resume ==> Base(st.start, c.partial, offset) == Offered(c, st.start);
    hide Inv, Carried, Leftover;
  }

  /** The receiver is cut off: the sender is gone, or it is paused or loses its connection itself. */
  predicate CutsOff(st: Session, m: Move) {
    st.r.Receiving? &&
    (m == ReceiverFails(false) || (m.ReceiverMoves? && !Pending(st.sLog, st.rRead) && ReceiverEnabled(st)))
  }

  /**
   * A session that is cut off keeps its partial as it is, and a later one is offered all of it; a cancelled one, and
   * one without resume, leaves none.
   */
  lemma CutSessionKeeps(hash: Bytes -> Bytes, c: Config, files: Files, moves: seq<Move>, m: Move)
    requires c.partial != c.out && Inv(hash, c, Init(files))
    ensures var st := Play(hash, c, Init(files), moves);
      && (CutsOff(st, m) ==>
            && Enabled(st, m) && HasPartial(c, st) && Next(hash, c, st, m).r == Finished(false)
            && Next(hash, c, st, m).files
               == (if c.resume then st.files else if c.fate.remove then files - {c.partial} else st.files)
            && (c.resume && |st.r.content| < |c.body| ==>
                  Offered(c, Next(hash, c, st, m).files) == st.r.content))
      && (st.r.Receiving? && m == ReceiverFails(true) ==>
            && Enabled(st, m) && HasPartial(c, st) && Next(hash, c, st, m).r == Finished(false)
            && Next(hash, c, st, m).files == (if c.fate.remove then files - {c.partial} else st.files))
  {
    var st := Play(hash, c, Init(files), moves);
    PartialExactly(hash, c, files, moves);
    hide Play, Came;
    if st.r.Receiving? {
      InvHasPartial(hash, c, st);
      assert st.files - {c.partial} == files - {c.partial};
      hide Inv;
      CutWinds(hash, c, st, Cut);
      CutWinds(hash, c, st, Cancel(false));
      CutWinds(hash, c, st, Cancel(true));
      if CutsOff(st, m) && m.ReceiverMoves? { ReceiverCuts(hash, c, st, m.room); }
      hide Wind, ReceiverStep, SenderStep;
    }
  }

  lemma CutWinds(hash: Bytes -> Bytes, c: Config, st: Session, stop: Input)
    requires st.r.Receiving? && HasPartial(c, st) && !stop.Arrive?
    ensures var w := Wind(hash, c, st, st.r.content, stop);
      && w.r == Finished(false)
      && w.files == (if (stop == Cancel(true) || !c.resume) && c.fate.remove then st.files - {c.partial} else st.files)
  {
  }

  /**
   * And so a push that is cut off is not lost. After any schedule of a first session, with whatever failures, that ends
   * with the receiver cut off, a second one without failures is offered all that came, sends the rest, and places the
   * body.
   */
  lemma SecondSessionFinishes(hash: Bytes -> Bytes, c: Config, files: Files, moves: seq<Move>, m: Move,
                              again: seq<Move>)
    requires c.partial != c.out && c.resume && Smooth(c.fate) && Welcome(c, files) && Undisturbed(c, again)
    requires Leftover(files, c.partial, |c.body|) <= c.body
    requires Inv(hash, c, Init(files)) && CutsOff(Play(hash, c, Init(files), moves), m)
    ensures var st := Play(hash, c, Init(files), moves);
      && Enabled(st, m) && HasPartial(c, st) && st.r.content <= c.body
      && var left := Next(hash, c, st, m).files;
      && Inv(hash, c, Init(left))
      && var end := Play(hash, c, Init(left), again);
      && (RHead(c) < |end.rLog| && end.rLog[RHead(c)].Accept? && end.rLog[RHead(c)].ok ==>
            end.rLog[RHead(c)].resumeAt == if |st.r.content| < |c.body| then |st.r.content| else 0)
      && (Over(end) ==> end.s == Quit(true) && c.out in end.files && end.files[c.out] == c.body)
  {
    var st := Play(hash, c, Init(files), moves);
    CutSessionKeeps(hash, c, files, moves, m);
    PartialExactly(hash, c, files, moves);
    CameIsPrefix(hash, c, files, moves);
    var left := Next(hash, c, st, m).files;
    hide Play, Inv, Next, Came, Undisturbed;
    assert left == st.files == files[c.partial := st.r.content];
    assert Welcome(c, left) by { hide Authenticated; }
    PartialExactly(hash, c, left, again);
    hide Welcome;
    assert GoodDisk(c, left);
    WelcomeSendersGetThrough(hash, c, left, again);
    hide GoodDisk;
  }

  // What has come is a part of the body from the offered offset on.

  predicate OnBody(c: Config, st: Session) {
    |st.sLog| > SHead(c) ==>
      && |st.rLog| > RHead(c) && Offset(c, st.rLog) <= |c.body|
      && Carried(st.sLog[SHead(c)..]) <= c.body[Offset(c, st.rLog)..]
  }

  lemma OnBodySender(hash: Bytes -> Bytes, c: Config, st: Session, chunk: nat)
    requires Inv(hash, c, st) && SenderEnabled(st) && OnBody(c, st)
    ensures OnBody(c, SenderStep(hash, c, st, chunk))
  {
    if st.s.Streaming? {
      SenderKeeps(hash, c, st, chunk);
      StreamingOnBody(hash, c, SenderStep(hash, c, st, chunk));
      hide Inv, OnBody;
    } else {
      hide SenderScript, ReceiverScript, ReceiverAt, StreamComplete, Carried, HelloOf, OnReply, Offset;
    }
  }

  lemma StreamingOnBody(hash: Bytes -> Bytes, c: Config, st: Session)
    requires Inv(hash, c, st) && (st.s.Streaming? || st.s.AwaitDone?)
    ensures OnBody(c, st)
  {
    hide SenderScript, ReceiverScript, ReceiverAt, Carried;
    if st.s.Streaming? {
      var o := Offset(c, st.rLog);
      assert c.body[o..st.s.sent] == c.body[o..][..st.s.sent - o];
    }
    hide Offset;
  }

  lemma OnBodyLonger(c: Config, st: Session, st': Session)
    requires OnBody(c, st) && st'.sLog == st.sLog && st.rLog <= st'.rLog
    ensures OnBody(c, st')
  {
    hide Carried;
  }

  lemma LogGrows(hash: Bytes -> Bytes, c: Config, st: Session, m: Move)
    requires Enabled(st, m) && HasPartial(c, st) && (m.ReceiverMoves? || m.ReceiverFails? || m.SenderFails?)
    ensures var st' := Next(hash, c, st, m); st'.sLog == st.sLog && st.rLog <= st'.rLog
  {
    match m
    case ReceiverMoves(room) => ReceiverLogGrows(hash, c, st, room); hide ReceiverStep, SenderStep, Wind;
    case ReceiverFails(discard) =>
      if st.r.Receiving? { WindGrows(hash, c, st, st.r.content, Cancel(discard)); }
      hide ReceiverStep, SenderStep, Wind;
    case _ => hide ReceiverStep, SenderStep, Wind;
  }

  lemma ReceiverLogGrows(hash: Bytes -> Bytes, c: Config, st: Session, room: nat)
    requires ReceiverEnabled(st) && HasPartial(c, st)
    ensures var st' := ReceiverStep(hash, c, st, room); st'.sLog == st.sLog && st.rLog <= st'.rLog
  {
    if st.r.Receiving? && Pending(st.sLog, st.rRead) {
      StepIsOnStream(hash, c, st, room);
      var m, st' := st.sLog[st.rRead], st.(rRead := st.rRead + 1);
      WindGrows(hash, c, st', st.r.content, ToInput(m, room));
      hide ReceiverStep, Wind, ToInput, Absorbs;
    } else if st.r.Receiving? {
      ReceiverCuts(hash, c, st, room);
      WindGrows(hash, c, st, st.r.content, Cut);
      hide ReceiverStep, Wind;
    } else {
      hide Wind, OnStream, Base, ResumeOffset;
    }
  }

  lemma WindGrows(hash: Bytes -> Bytes, c: Config, st: Session, content: Bytes, stop: Input)
    requires c.partial in st.files && c.partial != c.out
    ensures var w := Wind(hash, c, st, content, stop); w.sLog == st.sLog && st.rLog <= w.rLog
  {
    hide ConcludePush, ConcludeOnce;
  }

  lemma {:induction false} OnBodyPlay(hash: Bytes -> Bytes, c: Config, st: Session, moves: seq<Move>)
    requires Inv(hash, c, st) && OnBody(c, st)
    ensures OnBody(c, Play(hash, c, st, moves))
    decreases |moves|
  {
    if moves != [] {
      var m := moves[0];
      hide Inv, HasPartial, OnBody, SenderStep, ReceiverStep, Wind;
      if !Enabled(st, m) {
        OnBodyPlay(hash, c, st, moves[1..]);
      } else {
        NextKeeps(hash, c, st, m);
        if m.SenderMoves? {
          OnBodySender(hash, c, st, m.chunk);
        } else {
          LogGrows(hash, c, st, m);
          OnBodyLonger(c, st, Next(hash, c, st, m));
        }
        OnBodyPlay(hash, c, Next(hash, c, st, m), moves[1..]);
      }
    }
  }

  lemma CameIsPrefix(hash: Bytes -> Bytes, c: Config, files: Files, moves: seq<Move>)
    requires c.partial != c.out && c.resume && Leftover(files, c.partial, |c.body|) <= c.body
    requires Inv(hash, c, Init(files))
    ensures var st := Play(hash, c, Init(files), moves); st.r.Receiving? ==> st.r.content <= c.body
  {
    var st := Play(hash, c, Init(files), moves);
    PartialExactly(hash, c, files, moves);
    assert OnBody(c, Init(files));
    OnBodyPlay(hash, c, Init(files), moves);
    hide Play;
    if st.r.Receiving? {
      OfferIsOffset(hash, c, st);
      hide Inv;
      CameFits(c, st, Leftover(files, c.partial, |c.body|));
    }
  }

  lemma OfferIsOffset(hash: Bytes -> Bytes, c: Config, st: Session)
    requires Inv(hash, c, st) && st.r.Receiving? && c.resume
    ensures |st.rLog| > RHead(c) && st.rLog[RHead(c)].Accept? && st.rLog[RHead(c)].ok
    ensures Offset(c, st.rLog) == st.rLog[RHead(c)].resumeAt
  {
    hide SenderScript, ReceiverScript, SenderAt, StreamComplete, Carried, Taken;
  }

  lemma CameFits(c: Config, st: Session, had: Bytes)
    requires OnBody(c, st) && SHead(c) <= st.rRead <= |st.sLog| && Offset(c, st.rLog) == |had| && had <= c.body
    ensures had + Came(c, st) <= c.body
  {
    hide Offset;
    var h := SHead(c);
    if |st.sLog| > h {
      CarriedPart(st.sLog, h, st.rRead);
      hide Carried;
      assert c.body == had + c.body[|had|..];
    } else {
      assert st.sLog[h..st.rRead] == [];
      assert Came(c, st) == [];
    }
  }
}
