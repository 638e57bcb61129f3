/**
 * Send and handleConn running against each other over one connection, under every interleaving and with a failure of
 * either side possible at any point. TLS is honest here: both ends see the same exporter value, an identity proof
 * verifies when it is offered, and the two PAKE keys agree exactly when the passwords do.
 */
module PushSession {
  import opened Bytes
  import opened Streams
  import opened LanFrames
  import opened Transfers
  import opened PushRuns

  /** Everything fixed before the connection: both ends' options, the file, and how the receiver's disk will fare. */
  datatype Config = Config(
    body: Bytes,
    sendPassword: string,   // "" for none
    identity: bool,         // the sender proves an identity
    resume: bool,           // Resume is set, the body is seekable and not a directory
    recvPassword: string,   // "" for none
    trusts: bool,           // IsTrustedSender holds of the sender's key
    nameOk: bool,           // destPath accepts the file name
    approves: bool,         // OnRequest is absent or says yes
    overwrite: bool,
    partial: Path,          // the resumable partial, or else the temp file
    out: Path,
    fate: Fate)

  datatype Msg =
    | Hello(valid: bool, size: int, hasPassword: bool, identity: bool, sha: Option<Bytes>)
        // valid: of this version, and an identity proof is absent or verifies; identity: it is there
    | Pake
    | Confirm(key: string, tag: string)
    | Accept(ok: bool, resumeAt: int)
    | Data(payload: Bytes)
    | Eof
    | Done(ok: bool, sum: Bytes)
    | Error

  datatype Sender =
    | SendHello
    | SendPake
    | AwaitPake
    | SendConfirm
    | AwaitConfirm
    | AwaitAccept
    | Streaming(sent: nat)
    | AwaitDone
    | Quit(ok: bool)
    | Confused // read a frame of a type it did not expect

  datatype Receiver =
    | AwaitHello
    | AwaitSenderPake
    | SendReceiverPake
    | AwaitSenderConfirm
    | SendReceiverConfirm
    | Decide
    | Receiving(content: Bytes)
    | Finished(placed: bool)
    | Baffled // read a frame of a type it did not expect

  /** Each end's program counter, what each has written so far, and how much of it the other has read. */
  datatype Session = Session(
    s: Sender, r: Receiver,
    sLog: seq<Msg>, rLog: seq<Msg>,
    sRead: nat, rRead: nat,
    files: Files,
    start: Files)    // the receiver's files when it accepted the connection

  function JobOf(hash: Bytes -> Bytes, c: Config): Job {
    Job(c.partial, c.out, |c.body|, if c.resume then hash(c.body) else [], c.overwrite)
  }

  function HelloOf(hash: Bytes -> Bytes, c: Config): Msg {
    Hello(true, |c.body|, c.sendPassword != "", c.identity, if c.resume then Some(hash(c.body)) else None)
  }

  /** What has been written to each side but not read yet. */
  predicate Pending(log: seq<Msg>, read: nat) { read < |log| }

  predicate Over(st: Session) { (st.s.Quit? || st.s.Confused?) && (st.r.Finished? || st.r.Baffled?) }

  // ---- the sender's program: Send, pakeSender, streamBodyFrom ----

  predicate SenderWrites(s: Sender) {
    s.SendHello? || s.SendPake? || s.SendConfirm? || s.Streaming?
  }

  predicate SenderReads(s: Sender) {
    s.AwaitPake? || s.AwaitConfirm? || s.AwaitAccept? || s.AwaitDone?
  }

  predicate SenderEnabled(st: Session) {
    SenderWrites(st.s) || (SenderReads(st.s) && (Pending(st.rLog, st.sRead) || st.r.Finished? || st.r.Baffled?))
  }

  /** Where reading m takes the sender. */
  function OnReply(hash: Bytes -> Bytes, c: Config, s: Sender, m: Msg): Sender
    requires SenderReads(s)
  {
    if m.Error? then Quit(false)
    else match s
      case AwaitPake => if m.Pake? then SendConfirm else Confused
      case AwaitConfirm =>
        if !m.Confirm? then Confused
        else if m == Confirm(c.sendPassword, "R") then AwaitAccept else Quit(false)
      case AwaitAccept =>
        if !m.Accept? then Confused
        else if !m.ok then Quit(false)
        else if c.resume && m.resumeAt > 0 then (if m.resumeAt > |c.body| then Quit(false) else Streaming(m.resumeAt))
        else Streaming(0)
      case AwaitDone =>
        if !m.Done? then Confused
        else Quit(m.ok && (m.sum == [] || m.sum == hash(c.body)))
  }

  /** One step of the sender; `chunk` is how much of the body the next frame takes. */
  function SenderStep(hash: Bytes -> Bytes, c: Config, st: Session, chunk: nat): Session
    requires SenderEnabled(st)
  {
    match st.s
    case SendHello =>
      st.(s := if c.sendPassword != "" then SendPake else AwaitAccept, sLog := st.sLog + [HelloOf(hash, c)])
    case SendPake => st.(s := AwaitPake, sLog := st.sLog + [Pake])
    case SendConfirm => st.(s := AwaitConfirm, sLog := st.sLog + [Confirm(c.sendPassword, "S")])
    case Streaming(sent) =>
      if sent >= |c.body| then st.(s := AwaitDone, sLog := st.sLog + [Eof])
      else
        var k := Min(Min(if chunk == 0 then 1 else chunk, CHUNK_BYTES), |c.body| - sent);
        st.(s := Streaming(sent + k), sLog := st.sLog + [Data(c.body[sent..sent + k])])
    case _ =>
      if Pending(st.rLog, st.sRead)
      then st.(s := OnReply(hash, c, st.s, st.rLog[st.sRead]), sRead := st.sRead + 1)
      else st.(s := Quit(false)) // the receiver has closed the connection
  }

  // ---- the receiver's program: handleConn, pakeReceiver and the receive loops ----

  predicate ReceiverWrites(r: Receiver) { r.SendReceiverPake? || r.SendReceiverConfirm? || r.Decide? }

  predicate ReceiverReads(r: Receiver) {
    r.AwaitHello? || r.AwaitSenderPake? || r.AwaitSenderConfirm? || r.Receiving?
  }

  predicate ReceiverEnabled(st: Session) {
    ReceiverWrites(st.r) || (ReceiverReads(st.r) && (Pending(st.sLog, st.rRead) || st.s.Quit? || st.s.Confused?))
  }

  function Reject(st: Session): Session { st.(r := Finished(false), rLog := st.rLog + [Error]) }

  function OnHello(c: Config, st: Session, m: Msg): Session {
    if !m.Hello? then st.(r := Baffled)
    else if !m.valid || m.size < 0 || m.size > MAX_TRANSFER_BYTES then Reject(st)
    else if m.hasPassword then
      if c.recvPassword == "" then Reject(st) else st.(r := AwaitSenderPake)
    else if c.recvPassword != "" && !(m.identity && c.trusts) then Reject(st)
    else st.(r := Decide)
  }

  /** The destination check, the approval, and for an accepted push the opening of the partial. */
  function OnDecide(hash: Bytes -> Bytes, c: Config, st: Session): Session
    requires c.partial != c.out
  {
    if !c.nameOk then Reject(st)
    else if !c.approves || (c.out in st.files && !c.overwrite) then
      st.(r := Finished(false), rLog := st.rLog + [Accept(false, 0)])
    else
      var offset := if c.resume then ResumeOffset(st.files, c.partial, |c.body|) else 0;
      var accepted := st.(rLog := st.rLog + [Accept(true, offset)]);
      if !c.fate.open then Reject(accepted)
      else
        var base := Base(st.files, c.partial, offset);
        accepted.(r := Receiving(base), files := st.files[c.partial := base])
  }

  function ToInput(m: Msg, room: nat): Input {
    match m
    case Data(p) => Arrive(Frame(MSG_DATA, p), room)
    case Eof => Arrive(Frame(MSG_EOF, []), room)
    case _ => Arrive(Frame(MSG_HELLO, []), room) // anything else is an unexpected type
  }

  /** The end of the receive loop, resumable or one-shot, and the report or the error that follows it. */
  function Wind(hash: Bytes -> Bytes, c: Config, st: Session, content: Bytes, stop: Input): Session
    requires c.partial in st.files && c.partial != c.out
  {
    var job := JobOf(hash, c);
    var s := Stream(content, stop);
    var res := if c.resume then ConcludePush(hash, job, st.files, s, c.fate)
               else var once := ConcludeOnce(hash, job, st.files, s, c.fate);
                    if once.outcome.Placed? then once
                    else Result(Removed(once.files, c.partial, c.fate.remove), once.outcome);
    match res.outcome
    case Placed(_, sum) => st.(r := Finished(true), files := res.files, rLog := st.rLog + [Done(true, sum)])
    case Failed(_) => Reject(st.(files := res.files))
  }

  function OnStream(hash: Bytes -> Bytes, c: Config, st: Session, m: Msg, room: nat): Session
    requires st.r.Receiving? && c.partial in st.files && c.partial != c.out
  {
    var input := ToInput(m, room);
    if !m.Data? && !m.Eof? then Wind(hash, c, st, st.r.content, input).(r := Baffled)
    else if Absorbs(st.r.content, |c.body|, input) then
      st.(r := Receiving(st.r.content + m.payload), files := st.files[c.partial := st.r.content + m.payload])
    else Wind(hash, c, st, st.r.content, input)
  }

  predicate HasPartial(c: Config, st: Session) {
    c.partial != c.out && (st.r.Receiving? ==> c.partial in st.files && st.files[c.partial] == st.r.content)
  }

  function ReceiverStep(hash: Bytes -> Bytes, c: Config, st: Session, room: nat): Session
    requires ReceiverEnabled(st) && HasPartial(c, st)
  {
    if st.r.SendReceiverPake? then st.(r := AwaitSenderConfirm, rLog := st.rLog + [Pake])
    else if st.r.SendReceiverConfirm? then st.(r := Decide, rLog := st.rLog + [Confirm(c.recvPassword, "R")])
    else if st.r.Decide? then OnDecide(hash, c, st)
    else if !Pending(st.sLog, st.rRead) then // the sender has closed the connection
      if st.r.Receiving? then Wind(hash, c, st, st.r.content, Cut) else st.(r := Finished(false))
    else
      var m, st' := st.sLog[st.rRead], st.(rRead := st.rRead + 1);
      if st.r.AwaitHello? then OnHello(c, st', m)
      else if st.r.AwaitSenderPake? then st'.(r := if m.Pake? then SendReceiverPake else Baffled)
      else if st.r.AwaitSenderConfirm? then
        if !m.Confirm? then st'.(r := Baffled)
        else if m == Confirm(c.recvPassword, "S") then st'.(r := SendReceiverConfirm)
        else Reject(st')
      else OnStream(hash, c, st', m, room)
  }

  // ---- runs ----

  datatype Move =
    | SenderMoves(chunk: nat)
    | ReceiverMoves(room: nat)
    | SenderFails                   // network loss, a cancel, an unreadable source
    | ReceiverFails(discard: bool)  // network loss, a pause or a cancel

  predicate Enabled(st: Session, m: Move) {
    match m
    case SenderMoves(_) => SenderEnabled(st)
    case ReceiverMoves(_) => ReceiverEnabled(st)
    case SenderFails => !st.s.Quit? && !st.s.Confused?
    case ReceiverFails(_) => !st.r.Finished? && !st.r.Baffled?
  }

  function Next(hash: Bytes -> Bytes, c: Config, st: Session, m: Move): Session
    requires Enabled(st, m) && HasPartial(c, st)
  {
    match m
    case SenderMoves(chunk) => SenderStep(hash, c, st, chunk)
    case ReceiverMoves(room) => ReceiverStep(hash, c, st, room)
    case SenderFails => st.(s := Quit(false))
    case ReceiverFails(discard) =>
      if st.r.Receiving? then Wind(hash, c, st, st.r.content, Cancel(discard)) else st.(r := Finished(false))
  }

  function Init(files: Files): Session {
    Session(SendHello, AwaitHello, [], [], 0, 0, files, files)
  }

  // ---- the invariant ----

  predicate WithPake(c: Config) { c.sendPassword != "" }

  /** How many frames the sender writes, and the receiver, before the stream and the report. */
  function SHead(c: Config): nat { if WithPake(c) then 3 else 1 }
  function RHead(c: Config): nat { if WithPake(c) then 2 else 0 }

  /** What the sender's frames are, by position: the handshake, data, and nothing after the end of stream. */
  predicate SenderScript(hash: Bytes -> Bytes, c: Config, log: seq<Msg>) {
    forall i :: 0 <= i < |log| ==> SenderFrameAt(hash, c, i, log[i]) && (log[i].Eof? ==> i == |log| - 1)
  }

  /** And the receiver's: an Error ends it anywhere. */
  predicate ReceiverScript(c: Config, log: seq<Msg>) {
    && |log| <= RHead(c) + 2
    && forall i :: 0 <= i < |log| ==> (log[i].Error? && i == |log| - 1) || ReceiverFrameAt(c, i, log[i])
  }

  predicate NoError(log: seq<Msg>) { forall m :: m in log ==> !m.Error? }

  predicate SenderFrameAt(hash: Bytes -> Bytes, c: Config, i: nat, m: Msg) {
    if i == 0 then m == HelloOf(hash, c)
    else if i == 1 && WithPake(c) then m == Pake
    else if i == 2 && WithPake(c) then m == Confirm(c.sendPassword, "S")
    else m.Data? || m.Eof?
  }

  predicate ReceiverFrameAt(c: Config, i: nat, m: Msg) {
    if i == 0 && WithPake(c) then m == Pake
    else if i == 1 && WithPake(c) then m.Confirm?
    else if i == RHead(c) then m.Accept?
    else m.Done?
  }

  lemma SenderScriptGrows(hash: Bytes -> Bytes, c: Config, log: seq<Msg>, m: Msg)
    requires SenderScript(hash, c, log) && SenderFrameAt(hash, c, |log|, m) && (log != [] ==> !log[|log| - 1].Eof?)
    ensures SenderScript(hash, c, log + [m])
  {
  }

  lemma ReceiverScriptGrows(c: Config, log: seq<Msg>, m: Msg)
    requires ReceiverScript(c, log) && NoError(log) && |log| < RHead(c) + 2
    requires m.Error? || ReceiverFrameAt(c, |log|, m)
    ensures ReceiverScript(c, log + [m]) && (!m.Error? ==> NoError(log + [m]))
  {
  }

  function Carried(log: seq<Msg>): Bytes {
    if log == [] then []
    else Load(log[0]) + Carried(log[1..])
  }

  function Load(m: Msg): Bytes { if m.Data? then m.payload else [] }

  lemma {:induction false} CarriedAppend(log: seq<Msg>, m: Msg)
    ensures Carried(log + [m]) == Carried(log) + Load(m)
  {
    hide Load;
    if log == [] {
      assert [m][1..] == log && log + [m] == [m];
      assert Carried(log) == [];
      assert Carried([m]) == Load(m) + Carried([m][1..]);
    } else {
      var tail := log[1..];
      assert (log + [m])[1..] == tail + [m];
      CarriedAppend(tail, m);
      assert Carried(log + [m]) == Load(log[0]) + (Carried(tail) + Load(m));
      assert Carried(log) == Load(log[0]) + Carried(tail);
    }
  }

  lemma CarriedOneMore(log: seq<Msg>, h: nat, k: nat)
    requires h <= k < |log|
    ensures Carried(log[h..k + 1]) == Carried(log[h..k]) + Load(log[k])
  {
    assert log[h..k + 1] == log[h..k] + [log[k]];
    CarriedAppend(log[h..k], log[k]);
  }

  /** Where the sender streams from: what an acceptance it has read told it. */
  function Offset(c: Config, rLog: seq<Msg>): nat {
    if RHead(c) < |rLog| && rLog[RHead(c)].Accept? && c.resume && rLog[RHead(c)].resumeAt > 0
    then rLog[RHead(c)].resumeAt else 0
  }

  /** The sender's counter against what it has written and read. */
  predicate SenderAt(c: Config, st: Session) {
    && st.sRead <= |st.rLog|
    && match st.s
       case SendHello => |st.sLog| == 0 && st.sRead == 0
       case SendPake => WithPake(c) && |st.sLog| == 1 && st.sRead == 0
       case AwaitPake => WithPake(c) && |st.sLog| == 2 && st.sRead == 0
       case SendConfirm => WithPake(c) && |st.sLog| == 2 && st.sRead == 1
       case AwaitConfirm => WithPake(c) && |st.sLog| == 3 && st.sRead == 1
       case AwaitAccept => |st.sLog| == SHead(c) && st.sRead == RHead(c)
       case Streaming(sent) =>
         && |st.sLog| >= SHead(c) && st.sRead == RHead(c) + 1
         && st.rLog[RHead(c)].Accept? && st.rLog[RHead(c)].ok
         && Offset(c, st.rLog) <= sent <= |c.body|
         && Carried(st.sLog[SHead(c)..]) == c.body[Offset(c, st.rLog)..sent]
         && (st.sLog != [] ==> !st.sLog[|st.sLog| - 1].Eof?)
       case AwaitDone =>
         && |st.sLog| > SHead(c) && st.sRead == RHead(c) + 1 && st.sLog[|st.sLog| - 1].Eof?
       case Quit(ok) => ok ==> |st.rLog| == RHead(c) + 2 && st.rLog[RHead(c) + 1].Done?
       case Confused => false
  }

  /** Whatever the sender did after its stream was complete, what the log carries is the rest of the body. */
  predicate StreamComplete(c: Config, st: Session) {
    |st.sLog| > 0 && st.sLog[|st.sLog| - 1].Eof? ==>
      && |st.sLog| > SHead(c) && |st.rLog| > RHead(c)
      && Offset(c, st.rLog) <= |c.body|
      && Carried(st.sLog[SHead(c)..]) == c.body[Offset(c, st.rLog)..]
  }

  /** What the receiver knows while it receives: what it offered, and that its partial holds what it has. */
  predicate Midway(c: Config, rLog: seq<Msg>, files: Files, start: Files, content: Bytes) {
    var offset := Offset(c, rLog);
    && |rLog| == RHead(c) + 1 && rLog[RHead(c)] == Accept(true, offset)
    && offset <= |c.body| && |content| <= |c.body|
    && (offset > 0 ==> offset == ResumeOffset(start, c.partial, |c.body|))
    && c.partial in files && files[c.partial] == content
  }

  /** And what it has: the resumed bytes and all that the frames it has read carried, none of them the last. */
  predicate Taken(c: Config, offset: nat, start: Files, sLog: seq<Msg>, rRead: nat, content: Bytes) {
    && SHead(c) <= rRead <= |sLog|
    && (offset > 0 ==> c.partial in start && offset <= |start[c.partial]|)
    && content == Base(start, c.partial, offset) + Carried(sLog[SHead(c)..rRead])
    && !sLog[rRead - 1].Eof?
  }

  lemma GrowsBy(content: Bytes, base: Bytes, carried: Bytes, carried': Bytes, more: Bytes)
    requires content == base + carried && carried' == carried + more
    ensures content + more == base + carried'
  {
  }

  lemma TakenMore(c: Config, offset: nat, start: Files, sLog: seq<Msg>, rRead: nat, content: Bytes)
    requires Taken(c, offset, start, sLog, rRead, content) && rRead < |sLog| && sLog[rRead].Data?
    ensures Taken(c, offset, start, sLog, rRead + 1, content + sLog[rRead].payload)
  {
    var h, m := SHead(c), sLog[rRead];
    var carried, carried' := Carried(sLog[h..rRead]), Carried(sLog[h..rRead + 1]);
    CarriedOneMore(sLog, h, rRead);
    hide Carried, Base, SHead;
    GrowsBy(content, Base(start, c.partial, offset), carried, carried', m.payload);
  }

  /** With the end of the stream it has all that was carried. */
  lemma TakenAll(c: Config, offset: nat, start: Files, sLog: seq<Msg>, rRead: nat, content: Bytes)
    requires Taken(c, offset, start, sLog, rRead, content) && rRead == |sLog| - 1 && sLog[rRead].Eof?
    ensures content == Base(start, c.partial, offset) + Carried(sLog[SHead(c)..])
  {
    var h := SHead(c);
    CarriedOneMore(sLog, h, rRead);
    assert sLog[h..rRead + 1] == sLog[h..];
    hide Carried, Base, SHead;
    GrowsBy(content, Base(start, c.partial, offset), Carried(sLog[h..rRead]), Carried(sLog[h..]), []);
  }

  lemma TakenKept(c: Config, offset: nat, start: Files, sLog: seq<Msg>, rRead: nat, content: Bytes, m: Msg)
    requires Taken(c, offset, start, sLog, rRead, content)
    ensures Taken(c, offset, start, sLog + [m], rRead, content)
  {
    LogAppend(sLog, m, SHead(c), rRead);
  }

  /** The receiver's. */
  predicate ReceiverAt(hash: Bytes -> Bytes, c: Config, st: Session) {
    && st.rRead <= |st.sLog|
    && (!st.r.Finished? ==> NoError(st.rLog))
    && (!st.r.Finished? && !st.r.Receiving? ==> st.files == st.start)
    && match st.r
       case AwaitHello => |st.rLog| == 0 && st.rRead == 0
       case AwaitSenderPake => WithPake(c) && |st.rLog| == 0 && st.rRead == 1
       case SendReceiverPake => WithPake(c) && |st.rLog| == 0 && st.rRead == 2
       case AwaitSenderConfirm => WithPake(c) && |st.rLog| == 1 && st.rRead == 2
       case SendReceiverConfirm => WithPake(c) && |st.rLog| == 1 && st.rRead == 3
       case Decide => |st.rLog| == RHead(c) && st.rRead == SHead(c)
       case Receiving(content) =>
         && Midway(c, st.rLog, st.files, st.start, content)
         && Taken(c, Offset(c, st.rLog), st.start, st.sLog, st.rRead, content)
       case Finished(placed) => placed ==> RightlyDone(hash, c, st.rLog, st.files, st.start)
       case Baffled => false
  }

  /** What the receiver's report stands for. */
  predicate RightlyDone(hash: Bytes -> Bytes, c: Config, rLog: seq<Msg>, files: Files, start: Files) {
    var offset := Offset(c, rLog);
    && |rLog| == RHead(c) + 2 && rLog[RHead(c) + 1].Done?
    && c.out in files
    && (offset > 0 ==> offset == ResumeOffset(start, c.partial, |c.body|))
    && offset <= |c.body| == |files[c.out]|
    && rLog[RHead(c) + 1].sum == hash(files[c.out])
    && files[c.out] == Base(start, c.partial, offset) + c.body[offset..]
    && (c.resume && hash(c.body) != [] ==> hash(files[c.out]) == hash(c.body))
  }

  /** A report is only ever the receiver's last frame, after a placement. */
  predicate DoneMeansFinished(c: Config, st: Session) {
    |st.rLog| == RHead(c) + 2 && st.rLog[RHead(c) + 1].Done? ==> st.r == Finished(true)
  }

  predicate Inv(hash: Bytes -> Bytes, c: Config, st: Session) {
    && c.partial != c.out
    && SenderScript(hash, c, st.sLog) && ReceiverScript(c, st.rLog)
    && SenderAt(c, st) && ReceiverAt(hash, c, st)
    && StreamComplete(c, st) && DoneMeansFinished(c, st)
  }

  lemma InitInv(hash: Bytes -> Bytes, c: Config, files: Files)
    requires c.partial != c.out
    ensures Inv(hash, c, Init(files))
  {
  }

  lemma LogAppend(log: seq<Msg>, m: Msg, h: nat, k: nat)
    requires h <= k <= |log|
    ensures (log + [m])[h..] == log[h..] + [m]
    ensures (log + [m])[h..k] == log[h..k]
  {
  }

  lemma CarriedNothing()
    ensures Carried([]) == []
  {
  }

  /** What appending to the sender's log changes for the receiver: nothing. */
  lemma ReceiverUnmoved(hash: Bytes -> Bytes, c: Config, st: Session, s: Sender, m: Msg)
    requires ReceiverAt(hash, c, st) && DoneMeansFinished(c, st)
    ensures var st' := st.(s := s, sLog := st.sLog + [m]);
      ReceiverAt(hash, c, st') && DoneMeansFinished(c, st')
  {
    hide RightlyDone, Taken, Midway;
    if st.r.Receiving? { TakenKept(c, Offset(c, st.rLog), st.start, st.sLog, st.rRead, st.r.content, m); }
  }

  /** The sender's steps that write a handshake frame. */
  lemma SenderHandshakeKeeps(hash: Bytes -> Bytes, c: Config, st: Session, chunk: nat)
    requires Inv(hash, c, st) && (st.s.SendHello? || st.s.SendPake? || st.s.SendConfirm?)
    ensures Inv(hash, c, SenderStep(hash, c, st, chunk))
  {
    CarriedNothing();
    var st' := SenderStep(hash, c, st, chunk);
    var m := st'.sLog[|st.sLog|];
    assert st'.sLog == st.sLog + [m];
    ReceiverUnmoved(hash, c, st, st'.s, m);
    SenderScriptGrows(hash, c, st.sLog, m);
    hide ReceiverAt, Carried, SenderScript, ReceiverScript, HelloOf;
  }

  /** One more piece of the body in the log. */
  lemma CarriedMore(body: Bytes, log: seq<Msg>, h: nat, o: nat, sent: nat, k: nat)
    requires h <= |log| && o <= sent <= k <= |body| && Carried(log[h..]) == body[o..sent]
    ensures Carried((log + [Data(body[sent..k])])[h..]) == body[o..k]
  {
    CarriedTail(log, Data(body[sent..k]), h);
    hide Carried;
    PieceAfter(body, o, sent, k);
  }

  lemma CarriedTail(log: seq<Msg>, m: Msg, h: nat)
    requires h <= |log|
    ensures Carried((log + [m])[h..]) == Carried(log[h..]) + Load(m)
  {
    CarriedAppend(log[h..], m);
    hide Carried, Load;
    assert (log + [m])[h..] == log[h..] + [m];
  }

  lemma PieceAfter(body: Bytes, o: nat, sent: nat, k: nat)
    requires o <= sent <= k <= |body|
    ensures body[o..sent] + body[sent..k] == body[o..k]
  {
  }

  lemma CarriedAll(body: Bytes, log: seq<Msg>, h: nat, o: nat)
    requires h <= |log| && o <= |body| && Carried(log[h..]) == body[o..|body|]
    ensures Carried((log + [Eof])[h..]) == body[o..]
  {
    CarriedTail(log, Eof, h);
    hide Carried;
    assert Load(Eof) == [] && body[o..|body|] == body[o..];
  }

  lemma DataAt(c: Config, st: Session, sent: nat, k: nat)
    requires SenderAt(c, st) && StreamComplete(c, st) && st.s == Streaming(sent) && sent < k <= |c.body|
    ensures var st' := st.(s := Streaming(k), sLog := st.sLog + [Data(c.body[sent..k])]);
      SenderAt(c, st') && StreamComplete(c, st')
  {
    CarriedMore(c.body, st.sLog, SHead(c), Offset(c, st.rLog), sent, k);
    hide Carried, Offset;
  }

  lemma EofAt(c: Config, st: Session)
    requires SenderAt(c, st) && st.s == Streaming(|c.body|)
    ensures var st' := st.(s := AwaitDone, sLog := st.sLog + [Eof]); SenderAt(c, st') && StreamComplete(c, st')
  {
    CarriedAll(c.body, st.sLog, SHead(c), Offset(c, st.rLog));
    hide Carried, Offset;
  }

  /** While it streams, the next frame of the stream is in order. */
  lemma StreamsOn(hash: Bytes -> Bytes, c: Config, st: Session, m: Msg)
    requires SenderScript(hash, c, st.sLog) && SenderAt(c, st) && st.s.Streaming? && (m.Data? || m.Eof?)
    ensures SenderScript(hash, c, st.sLog + [m])
  {
    SenderScriptGrows(hash, c, st.sLog, m);
    hide SenderScript;
  }

  lemma DataKeeps(hash: Bytes -> Bytes, c: Config, st: Session, sent: nat, k: nat)
    requires Inv(hash, c, st) && st.s == Streaming(sent) && sent < k <= |c.body|
    ensures Inv(hash, c, st.(s := Streaming(k), sLog := st.sLog + [Data(c.body[sent..k])]))
  {
    hide Carried, ReceiverAt, SenderAt, SenderScript, ReceiverScript, StreamComplete, DoneMeansFinished;
    ReceiverUnmoved(hash, c, st, Streaming(k), Data(c.body[sent..k]));
    StreamsOn(hash, c, st, Data(c.body[sent..k]));
    DataAt(c, st, sent, k);
  }

  /** The sender's steps that write a part of the stream. */
  lemma SenderDataKeeps(hash: Bytes -> Bytes, c: Config, st: Session, chunk: nat)
    requires Inv(hash, c, st) && st.s.Streaming? && st.s.sent < |c.body|
    ensures Inv(hash, c, SenderStep(hash, c, st, chunk))
  {
    hide Inv;
    var sent := st.s.sent;
    var k := Min(Min(if chunk == 0 then 1 else chunk, CHUNK_BYTES), |c.body| - sent);
    DataKeeps(hash, c, st, sent, sent + k);
  }

  lemma EofKeeps(hash: Bytes -> Bytes, c: Config, st: Session)
    requires Inv(hash, c, st) && st.s == Streaming(|c.body|)
    ensures Inv(hash, c, st.(s := AwaitDone, sLog := st.sLog + [Eof]))
  {
    hide Carried, ReceiverAt, SenderAt, SenderScript, ReceiverScript, StreamComplete, DoneMeansFinished;
    ReceiverUnmoved(hash, c, st, AwaitDone, Eof);
    StreamsOn(hash, c, st, Eof);
    EofAt(c, st);
  }

  lemma SenderEofKeeps(hash: Bytes -> Bytes, c: Config, st: Session, chunk: nat)
    requires Inv(hash, c, st) && st.s.Streaming? && st.s.sent >= |c.body|
    ensures Inv(hash, c, SenderStep(hash, c, st, chunk))
  {
    assert st.s == Streaming(|c.body|) by { hide Carried, ReceiverAt, SenderScript, ReceiverScript, StreamComplete; }
    hide Inv;
    EofKeeps(hash, c, st);
  }

  /** What the sender's position says about the frame it reads next. */
  lemma ReadsExpected(hash: Bytes -> Bytes, c: Config, st: Session)
    requires Inv(hash, c, st) && SenderReads(st.s) && Pending(st.rLog, st.sRead)
    ensures var m := st.rLog[st.sRead];
      m.Error? || match st.s
        case AwaitPake => m.Pake?
        case AwaitConfirm => m.Confirm?
        case AwaitAccept => m.Accept?
        case _ => m.Done?
    ensures !st.rLog[st.sRead].Error? && st.s.AwaitAccept? && st.rLog[st.sRead].ok ==>
      Offset(c, st.rLog) == (if c.resume && st.rLog[st.sRead].resumeAt > 0 then st.rLog[st.sRead].resumeAt else 0)
  {
    hide ReceiverAt, Carried, SenderScript;
  }

  lemma ReceiverIgnores(hash: Bytes -> Bytes, c: Config, st: Session, s: Sender, sRead: nat)
    requires ReceiverAt(hash, c, st) && DoneMeansFinished(c, st)
    ensures ReceiverAt(hash, c, st.(s := s, sRead := sRead)) && DoneMeansFinished(c, st.(s := s, sRead := sRead))
  {
    hide RightlyDone, Taken, Midway;
  }

  lemma SenderAtAfterRead(hash: Bytes -> Bytes, c: Config, st: Session, chunk: nat)
    requires Inv(hash, c, st) && SenderReads(st.s) && SenderEnabled(st)
    ensures SenderAt(c, SenderStep(hash, c, st, chunk))
  {
    if Pending(st.rLog, st.sRead) {
      ReadsExpected(hash, c, st);
      if st.s.AwaitAccept? {
        SenderAtAccepted(hash, c, st, chunk);
      } else {
        SenderAtOther(c, st, OnReply(hash, c, st.s, st.rLog[st.sRead]));
        hide Inv, SenderAt;
      }
    }
  }

  lemma SenderAtOther(c: Config, st: Session, s: Sender)
    requires SenderAt(c, st) && Pending(st.rLog, st.sRead) && |st.rLog| <= RHead(c) + 2
    requires s == Quit(false) || (st.s.AwaitPake? && s.SendConfirm?) || (st.s.AwaitConfirm? && s.AwaitAccept?)
          || (st.s.AwaitDone? && st.rLog[st.sRead].Done? && s.Quit?)
    ensures SenderAt(c, st.(s := s, sRead := st.sRead + 1))
  {
    hide Carried, Offset;
  }

  lemma SenderAtAccepted(hash: Bytes -> Bytes, c: Config, st: Session, chunk: nat)
    requires Inv(hash, c, st) && st.s.AwaitAccept? && Pending(st.rLog, st.sRead)
    requires st.rLog[st.sRead].Error? || st.rLog[st.sRead].Accept?
    ensures SenderAt(c, SenderStep(hash, c, st, chunk))
  {
    CarriedNothing();
    assert st.sLog[|st.sLog|..] == [];
    NoEofYet(hash, c, st);
    hide ReceiverAt, Carried, SenderScript, ReceiverScript, StreamComplete, DoneMeansFinished;
  }

  lemma NoEofYet(hash: Bytes -> Bytes, c: Config, st: Session)
    requires SenderScript(hash, c, st.sLog) && SenderAt(c, st) && st.s.AwaitAccept?
    ensures !st.sLog[|st.sLog| - 1].Eof?
  {
    assert SenderFrameAt(hash, c, |st.sLog| - 1, st.sLog[|st.sLog| - 1]);
  }

  /** The sender's steps that read: it meets the frame it expects, an Error, or a closed connection. */
  lemma SenderReadKeeps(hash: Bytes -> Bytes, c: Config, st: Session, chunk: nat)
    requires Inv(hash, c, st) && SenderReads(st.s) && SenderEnabled(st)
    ensures Inv(hash, c, SenderStep(hash, c, st, chunk))
  {
    SenderAtAfterRead(hash, c, st, chunk);
    hide ReceiverAt, SenderAt, SenderScript, ReceiverScript, StreamComplete, DoneMeansFinished, OnReply;
    var st' := SenderStep(hash, c, st, chunk);
    ReceiverIgnores(hash, c, st, st'.s, st'.sRead);
    StreamIgnores(c, st, st'.s, st'.sRead);
  }

  lemma StreamIgnores(c: Config, st: Session, s: Sender, sRead: nat)
    requires StreamComplete(c, st)
    ensures StreamComplete(c, st.(s := s, sRead := sRead))
  {
    hide Carried;
  }

  lemma SenderKeeps(hash: Bytes -> Bytes, c: Config, st: Session, chunk: nat)
    requires Inv(hash, c, st) && SenderEnabled(st)
    ensures Inv(hash, c, SenderStep(hash, c, st, chunk))
  {
    hide Inv, SenderStep;
    if st.s.Streaming? {
      if st.s.sent < |c.body| { SenderDataKeeps(hash, c, st, chunk); } else { SenderEofKeeps(hash, c, st, chunk); }
    } else if SenderReads(st.s) {
      SenderReadKeeps(hash, c, st, chunk);
    } else {
      SenderHandshakeKeeps(hash, c, st, chunk);
    }
  }

  /** What the receiver can append to its log, or do besides, without moving the sender. */
  lemma SenderUnmoved(c: Config, st: Session, r: Receiver, rRead: nat, m: Msg, files: Files)
    requires SenderAt(c, st) && StreamComplete(c, st) && ReceiverScript(c, st.rLog) && NoError(st.rLog)
    requires |st.rLog| < RHead(c) + 2 && (m.Error? || ReceiverFrameAt(c, |st.rLog|, m))
    ensures var st' := st.(r := r, rRead := rRead, rLog := st.rLog + [m], files := files);
      SenderAt(c, st') && StreamComplete(c, st') && ReceiverScript(c, st'.rLog) && (!m.Error? ==> NoError(st'.rLog))
  {
    ReceiverScriptGrows(c, st.rLog, m);
    hide Carried, ReceiverScript;
  }

  /** Rejecting is always in order. */
  lemma RejectKeeps(hash: Bytes -> Bytes, c: Config, st: Session)
    requires c.partial != c.out && SenderScript(hash, c, st.sLog) && ReceiverScript(c, st.rLog)
    requires SenderAt(c, st) && StreamComplete(c, st) && NoError(st.rLog) && st.rRead <= |st.sLog|
    requires |st.rLog| < RHead(c) + 2
    ensures Inv(hash, c, Reject(st))
  {
    SenderUnmoved(c, st, Finished(false), st.rRead, Error, st.files);
    hide Carried, SenderScript, ReceiverScript, SenderAt, StreamComplete;
  }

  /** The receiver's steps before it decides. */
  lemma ReceiverHandshakeKeeps(hash: Bytes -> Bytes, c: Config, st: Session, room: nat)
    requires Inv(hash, c, st) && ReceiverEnabled(st) && !st.r.Decide? && !st.r.Receiving?
    ensures Inv(hash, c, ReceiverStep(hash, c, st, room))
  {
    if st.r.SendReceiverPake? {
      SenderUnmoved(c, st, AwaitSenderConfirm, st.rRead, Pake, st.files);
      hide Carried, SenderScript, ReceiverScript, SenderAt, StreamComplete;
    } else if st.r.SendReceiverConfirm? {
      SenderUnmoved(c, st, Decide, st.rRead, Confirm(c.recvPassword, "R"), st.files);
      hide Carried, SenderScript, ReceiverScript, SenderAt, StreamComplete;
    } else if Pending(st.sLog, st.rRead) {
      ReceiverReadKeeps(hash, c, st, room);
    } else {
      hide Carried, SenderScript, ReceiverScript;
    }
  }

  /** Reading a handshake frame: it is the one expected. */
  lemma ReceiverReadKeeps(hash: Bytes -> Bytes, c: Config, st: Session, room: nat)
    requires Inv(hash, c, st) && ReceiverReads(st.r) && !st.r.Receiving? && Pending(st.sLog, st.rRead)
    ensures Inv(hash, c, ReceiverStep(hash, c, st, room))
  {
    assert SenderFrameAt(hash, c, st.rRead, st.sLog[st.rRead]);
    var st' := st.(rRead := st.rRead + 1);
    SenderIgnores(c, st, st.r, st.rRead + 1, st.files);
    RejectKeeps(hash, c, st');
    hide Carried, SenderScript, ReceiverScript, StreamComplete, SenderAt;
    var r := ReceiverStep(hash, c, st, room).r;
    SenderIgnores(c, st, r, st.rRead + 1, st.files);
  }

  lemma SenderIgnores(c: Config, st: Session, r: Receiver, rRead: nat, files: Files)
    requires SenderAt(c, st) && StreamComplete(c, st)
    ensures var st' := st.(r := r, rRead := rRead, files := files); SenderAt(c, st') && StreamComplete(c, st')
  {
    hide Carried;
  }

  lemma OffsetBounded(files: Files, p: Path, total: nat)
    ensures var o := ResumeOffset(files, p, total); o <= total && (o > 0 ==> p in files && o == |files[p]|)
  {
  }

  lemma ReceiverDecideKeeps(hash: Bytes -> Bytes, c: Config, st: Session, room: nat)
    requires Inv(hash, c, st) && st.r.Decide?
    ensures Inv(hash, c, ReceiverStep(hash, c, st, room))
  {
    if !c.nameOk {
      RejectKeeps(hash, c, st);
    } else if !c.approves || (c.out in st.files && !c.overwrite) {
      SenderUnmoved(c, st, Finished(false), st.rRead, Accept(false, 0), st.files);
      hide Carried, SenderScript, ReceiverScript, SenderAt, StreamComplete, RightlyDone, ResumeOffset;
    } else {
      var m := Accept(true, if c.resume then ResumeOffset(st.files, c.partial, |c.body|) else 0);
      SenderUnmoved(c, st, st.r, st.rRead, m, st.files);
      if !c.fate.open {
        RejectKeeps(hash, c, st.(rLog := st.rLog + [m]));
      } else {
        OpenKeeps(hash, c, st);
      }
    }
  }

  lemma OpenKeeps(hash: Bytes -> Bytes, c: Config, st: Session)
    requires Inv(hash, c, st) && st.r.Decide?
    ensures var offset := if c.resume then ResumeOffset(st.files, c.partial, |c.body|) else 0;
      && (offset > 0 ==> c.partial in st.files && offset <= |st.files[c.partial]|)
      && var base := Base(st.files, c.partial, offset);
      Inv(hash, c, st.(r := Receiving(base), rLog := st.rLog + [Accept(true, offset)],
                       files := st.files[c.partial := base]))
  {
    CarriedNothing();
    OffsetBounded(st.files, c.partial, |c.body|);
    var offset := if c.resume then ResumeOffset(st.files, c.partial, |c.body|) else 0;
    var base := Base(st.files, c.partial, offset);
    var m := Accept(true, offset);
    SenderUnmoved(c, st, Receiving(base), st.rRead, m, st.files[c.partial := base]);
    assert st.sLog[SHead(c)..SHead(c)] == [] && base == base + [];
    hide Carried, SenderScript, ReceiverScript, SenderAt, StreamComplete, RightlyDone, ResumeOffset;
  }

  /** A placement comes of an end-of-stream and puts the content where it belongs. */
  lemma PlacedContent(hash: Bytes -> Bytes, job: Job, files: Files, s: Stream, fate: Fate)
    requires job.partial in files && job.partial != job.out && files[job.partial] == s.content
    ensures var r := ConcludePush(hash, job, files, s, fate);
      r.outcome.Placed? ==>
        && s.stop.Arrive? && s.stop.frame.typ == MSG_EOF && |s.content| == job.total
        && job.out in r.files && r.files[job.out] == s.content && r.outcome.sum == hash(s.content)
        && (job.want != [] ==> hash(s.content) == job.want)
    ensures var r := ConcludeOnce(hash, job, files, s, fate);
      r.outcome.Placed? ==>
        && s.stop.Arrive? && s.stop.frame.typ == MSG_EOF && |s.content| == job.total
        && job.out in r.files && r.files[job.out] == s.content && r.outcome.sum == hash(s.content)
  {
  }

  /** The two ways in which the receive loop can end. */
  lemma WindEither(hash: Bytes -> Bytes, c: Config, st: Session, content: Bytes, stop: Input)
    requires c.partial in st.files && c.partial != c.out && st.files[c.partial] == content
    ensures var w := Wind(hash, c, st, content, stop);
      if w.r == Finished(true) then
        && w == st.(r := Finished(true), files := w.files, rLog := st.rLog + [Done(true, hash(content))])
        && stop.Arrive? && stop.frame.typ == MSG_EOF && |content| == |c.body|
        && c.out in w.files && w.files[c.out] == content
        && (c.resume && hash(c.body) != [] ==> hash(content) == hash(c.body))
      else w == Reject(st.(files := w.files))
  {
    PlacedContent(hash, JobOf(hash, c), st.files, Stream(content, stop), c.fate);
    hide ConcludePush, ConcludeOnce;
  }

  lemma PlacedKeeps(hash: Bytes -> Bytes, c: Config, st: Session, content: Bytes, files: Files)
    requires c.partial != c.out && SenderScript(hash, c, st.sLog) && ReceiverScript(c, st.rLog)
    requires SenderAt(c, st) && StreamComplete(c, st) && NoError(st.rLog) && st.rRead <= |st.sLog|
    requires Midway(c, st.rLog, st.files, st.start, content)
    requires content == Base(st.start, c.partial, Offset(c, st.rLog)) + c.body[Offset(c, st.rLog)..]
    requires |content| == |c.body| && c.out in files && files[c.out] == content
    requires c.resume && hash(c.body) != [] ==> hash(content) == hash(c.body)
    ensures Inv(hash, c, st.(r := Finished(true), files := files, rLog := st.rLog + [Done(true, hash(content))]))
  {
    SenderUnmoved(c, st, Finished(true), st.rRead, Done(true, hash(content)), files);
    hide SenderScript, ReceiverScript, SenderAt, StreamComplete, Carried, Base, ResumeOffset;
    assert Offset(c, st.rLog + [Done(true, hash(content))]) == Offset(c, st.rLog);
  }

  /** However the receive loop ends, the invariant holds; a report follows only a right placement. */
  lemma WindKeeps(hash: Bytes -> Bytes, c: Config, st: Session, content: Bytes, stop: Input)
    requires c.partial != c.out && SenderScript(hash, c, st.sLog) && ReceiverScript(c, st.rLog)
    requires SenderAt(c, st) && StreamComplete(c, st) && NoError(st.rLog) && st.rRead <= |st.sLog|
    requires Midway(c, st.rLog, st.files, st.start, content)
    requires stop.Arrive? && stop.frame.typ == MSG_EOF ==>
      content == Base(st.start, c.partial, Offset(c, st.rLog)) + c.body[Offset(c, st.rLog)..]
    ensures Inv(hash, c, Wind(hash, c, st, content, stop))
  {
    var w := Wind(hash, c, st, content, stop);
    WindEither(hash, c, st, content, stop);
    hide Wind, SenderScript, ReceiverScript, SenderAt, StreamComplete, Carried, Base, ResumeOffset, Inv, NoError;
    if w.r == Finished(true) {
      PlacedKeeps(hash, c, st, content, w.files);
    } else {
      RejectKeeps(hash, c, st.(files := w.files));
    }
  }

  /** What the receiver reads of the stream. */
  lemma StreamFrame(hash: Bytes -> Bytes, c: Config, st: Session)
    requires Inv(hash, c, st) && st.r.Receiving? && Pending(st.sLog, st.rRead)
    ensures st.sLog[st.rRead].Data? || st.sLog[st.rRead].Eof?
  {
    assert SenderFrameAt(hash, c, st.rRead, st.sLog[st.rRead]);
    assert st.rRead >= SHead(c);
    hide SenderScript, ReceiverScript, SenderAt, HelloOf, Midway, Carried, StreamComplete;
  }

  lemma StepIsOnStream(hash: Bytes -> Bytes, c: Config, st: Session, room: nat)
    requires st.r.Receiving? && Pending(st.sLog, st.rRead) && HasPartial(c, st)
    ensures ReceiverStep(hash, c, st, room) == OnStream(hash, c, st.(rRead := st.rRead + 1), st.sLog[st.rRead], room)
  {
    hide OnStream, Wind, OnHello, OnDecide;
  }

  /** The frame a receive step meets is data or the end of the stream, and this is what the step does with it. */
  lemma StreamStep(hash: Bytes -> Bytes, c: Config, st: Session, room: nat)
    requires Inv(hash, c, st) && st.r.Receiving? && Pending(st.sLog, st.rRead) && HasPartial(c, st)
    ensures var m, content := st.sLog[st.rRead], st.r.content;
      && (m.Data? || m.Eof?)
      && ReceiverStep(hash, c, st, room) ==
           (if Absorbs(content, |c.body|, ToInput(m, room)) then
              st.(r := Receiving(content + m.payload), rRead := st.rRead + 1,
                  files := st.files[c.partial := content + m.payload])
            else Wind(hash, c, st.(rRead := st.rRead + 1), content, ToInput(m, room)))
  {
    StreamFrame(hash, c, st);
    StepIsOnStream(hash, c, st, room);
    hide Inv, Wind, ReceiverStep;
  }

  /** A step of the receive loop: more data, or its end. */
  lemma ReceiverStreamKeeps(hash: Bytes -> Bytes, c: Config, st: Session, room: nat)
    requires Inv(hash, c, st) && st.r.Receiving? && Pending(st.sLog, st.rRead) && HasPartial(c, st)
    ensures Inv(hash, c, ReceiverStep(hash, c, st, room))
  {
    StreamStep(hash, c, st, room);
    hide Inv, Wind, ReceiverStep, HasPartial;
    var m := st.sLog[st.rRead];
    if Absorbs(st.r.content, |c.body|, ToInput(m, room)) {
      AbsorbKeeps(hash, c, st, m);
    } else {
      EndKeeps(hash, c, st, m, room);
    }
  }

  /** When the end of the stream comes, what the receiver has is what it resumed and the rest of the body. */
  lemma EndHolds(hash: Bytes -> Bytes, c: Config, st: Session)
    requires Inv(hash, c, st) && st.r.Receiving? && Pending(st.sLog, st.rRead) && st.sLog[st.rRead].Eof?
    ensures var offset := Offset(c, st.rLog);
      && Midway(c, st.rLog, st.files, st.start, st.r.content)
      && st.r.content == Base(st.start, c.partial, offset) + c.body[offset..]
  {
    hide ReceiverScript, SenderAt, ResumeOffset, Base, Carried, DoneMeansFinished, Taken, Midway, RightlyDone, SHead;
    var o := Offset(c, st.rLog);
    assert st.rRead == |st.sLog| - 1;
    assert Taken(c, o, st.start, st.sLog, st.rRead, st.r.content);
    assert Carried(st.sLog[SHead(c)..]) == c.body[o..];
    hide *;
    TakenAll(c, o, st.start, st.sLog, st.rRead, st.r.content);
  }

  lemma EndKeeps(hash: Bytes -> Bytes, c: Config, st: Session, m: Msg, room: nat)
    requires Inv(hash, c, st) && st.r.Receiving? && Pending(st.sLog, st.rRead) && m == st.sLog[st.rRead]
    requires m.Data? || m.Eof?
    ensures Inv(hash, c, Wind(hash, c, st.(rRead := st.rRead + 1), st.r.content, ToInput(m, room)))
  {
    if m.Eof? { EndHolds(hash, c, st); }
    hide Taken, Wind, Carried, SenderScript, ReceiverScript, SenderAt, ResumeOffset, Base, StreamComplete, Midway;
    SenderIgnores(c, st, st.r, st.rRead + 1, st.files);
    WindKeeps(hash, c, st.(rRead := st.rRead + 1), st.r.content, ToInput(m, room));
  }

  lemma AbsorbKeeps(hash: Bytes -> Bytes, c: Config, st: Session, m: Msg)
    requires Inv(hash, c, st) && st.r.Receiving? && Pending(st.sLog, st.rRead) && m == st.sLog[st.rRead] && m.Data?
    requires |st.r.content| + |m.payload| <= |c.body|
    ensures var content := st.r.content + m.payload;
      Inv(hash, c, st.(r := Receiving(content), rRead := st.rRead + 1, files := st.files[c.partial := content]))
  {
    var content := st.r.content + m.payload;
    SenderIgnores(c, st, Receiving(content), st.rRead + 1, st.files[c.partial := content]);
    TakenMore(c, Offset(c, st.rLog), st.start, st.sLog, st.rRead, st.r.content);
    hide Taken, SenderScript, ReceiverScript, SenderAt, StreamComplete, ResumeOffset, RightlyDone;
  }

  /** The receiver's own failures, and the sender closing on it. */
  lemma ReceiverCutKeeps(hash: Bytes -> Bytes, c: Config, st: Session, stop: Input)
    requires Inv(hash, c, st) && !st.r.Finished? && !st.r.Baffled? && !stop.Arrive?
    ensures Inv(hash, c, if st.r.Receiving? then Wind(hash, c, st, st.r.content, stop) else st.(r := Finished(false)))
  {
    if st.r.Receiving? {
      hide Carried, SenderScript, ReceiverScript, SenderAt, StreamComplete, ResumeOffset, Wind;
      WindKeeps(hash, c, st, st.r.content, stop);
    } else {
      SenderIgnores(c, st, Finished(false), st.rRead, st.files);
      hide Carried, SenderScript, ReceiverScript, SenderAt, StreamComplete;
    }
  }

  lemma InvHasPartial(hash: Bytes -> Bytes, c: Config, st: Session)
    requires Inv(hash, c, st)
    ensures HasPartial(c, st)
  {
    hide SenderScript, ReceiverScript, StreamComplete, SenderAt;
  }

  lemma ReceiverKeeps(hash: Bytes -> Bytes, c: Config, st: Session, room: nat)
    requires Inv(hash, c, st) && ReceiverEnabled(st)
    ensures HasPartial(c, st) && Inv(hash, c, ReceiverStep(hash, c, st, room))
  {
    if st.r.Decide? {
      ReceiverDecideKeeps(hash, c, st, room);
    } else if !st.r.Receiving? {
      ReceiverHandshakeKeeps(hash, c, st, room);
    } else if Pending(st.sLog, st.rRead) {
      InvHasPartial(hash, c, st);
      hide Inv, ReceiverStep, HasPartial;
      ReceiverStreamKeeps(hash, c, st, room);
    } else {
      InvHasPartial(hash, c, st);
      hide Inv, Wind;
      ReceiverCutKeeps(hash, c, st, Cut);
    }
  }

  lemma SenderFailKeeps(hash: Bytes -> Bytes, c: Config, st: Session)
    requires Inv(hash, c, st)
    ensures Inv(hash, c, st.(s := Quit(false)))
  {
    ReceiverIgnores(hash, c, st, Quit(false), st.sRead);
    StreamIgnores(c, st, Quit(false), st.sRead);
    hide SenderScript, ReceiverScript, StreamComplete, ReceiverAt;
  }

  lemma NextKeeps(hash: Bytes -> Bytes, c: Config, st: Session, m: Move)
    requires Inv(hash, c, st) && Enabled(st, m)
    ensures HasPartial(c, st) && Inv(hash, c, Next(hash, c, st, m))
  {
    InvHasPartial(hash, c, st);
    hide Inv, HasPartial, Wind, SenderStep, ReceiverStep;
    match m
    case SenderMoves(chunk) => SenderKeeps(hash, c, st, chunk);
    case ReceiverMoves(room) => ReceiverKeeps(hash, c, st, room);
    case SenderFails => SenderFailKeeps(hash, c, st);
    case ReceiverFails(discard) => ReceiverCutKeeps(hash, c, st, Cancel(discard));
  }

  /** Any schedule of moves; a move that is not possible when its turn comes is passed over. */
  function Play(hash: Bytes -> Bytes, c: Config, st: Session, moves: seq<Move>): (end: Session)
    requires Inv(hash, c, st)
    ensures Inv(hash, c, end)
    decreases |moves|
  {
    if moves == [] then st
    else if !Enabled(st, moves[0]) then Play(hash, c, st, moves[1..])
    else
      NextKeeps(hash, c, st, moves[0]);
      Play(hash, c, Next(hash, c, st, moves[0]), moves[1..])
  }

  // ---- the theorems ----

  /** What a move leaves of the configuration it started from: all of it. */
  lemma WindStart(hash: Bytes -> Bytes, c: Config, st: Session, content: Bytes, stop: Input)
    requires c.partial in st.files && c.partial != c.out
    ensures Wind(hash, c, st, content, stop).start == st.start
  {
    hide ConcludePush, ConcludeOnce;
  }

  lemma ReceiverStart(hash: Bytes -> Bytes, c: Config, st: Session, room: nat)
    requires ReceiverEnabled(st) && HasPartial(c, st)
    ensures ReceiverStep(hash, c, st, room).start == st.start
  {
    if st.r.Receiving? {
      if Pending(st.sLog, st.rRead) {
        WindStart(hash, c, st.(rRead := st.rRead + 1), st.r.content, ToInput(st.sLog[st.rRead], room));
      } else {
        WindStart(hash, c, st, st.r.content, Cut);
      }
      hide Wind, Absorbs, ToInput;
    }
    hide Wind, OnStream;
  }

  lemma NextStart(hash: Bytes -> Bytes, c: Config, st: Session, m: Move)
    requires Enabled(st, m) && HasPartial(c, st)
    ensures Next(hash, c, st, m).start == st.start
  {
    match m
    case SenderMoves(chunk) => hide OnReply, HelloOf, ReceiverStep, Wind;
    case ReceiverMoves(room) => ReceiverStart(hash, c, st, room); hide ReceiverStep, SenderStep;
    case SenderFails =>
    case ReceiverFails(discard) =>
      if st.r.Receiving? { WindStart(hash, c, st, st.r.content, Cancel(discard)); }
      hide Wind, SenderStep, ReceiverStep;
  }

  lemma {:induction false} StartStays(hash: Bytes -> Bytes, c: Config, st: Session, moves: seq<Move>)
    requires Inv(hash, c, st)
    ensures Play(hash, c, st, moves).start == st.start
    decreases |moves|
  {
    if moves != [] {
      hide Inv, HasPartial, Next, Enabled;
      if !Enabled(st, moves[0]) {
        StartStays(hash, c, st, moves[1..]);
      } else {
        NextKeeps(hash, c, st, moves[0]);
        NextStart(hash, c, st, moves[0]);
        StartStays(hash, c, Next(hash, c, st, moves[0]), moves[1..]);
      }
    }
  }

  /** Neither end ever reads a frame of a type it does not expect, whatever the options and the schedule. */
  lemma NeverConfused(hash: Bytes -> Bytes, c: Config, files: Files, moves: seq<Move>)
    requires c.partial != c.out
    ensures Inv(hash, c, Init(files))
    ensures var end := Play(hash, c, Init(files), moves);
      !end.s.Confused? && !end.r.Baffled?
  {
    InitInv(hash, c, files);
  }

  /** Where a successful push resumed from. */
  function Resumed(c: Config, files: Files): nat {
    if c.resume then ResumeOffset(files, c.partial, |c.body|) else 0
  }

  /**
   * Send returns nil only after the receiver has placed a file of the body's size: what it resumed, followed by the
   * rest of the body. It has the body's digest, and it is the body itself unless a partial was resumed that is not a
   * prefix of the body, which takes a collision.
   */
  lemma SendMeansPlaced(hash: Bytes -> Bytes, c: Config, files: Files, moves: seq<Move>)
    requires c.partial != c.out && hash(c.body) != []
    ensures Inv(hash, c, Init(files))
    ensures var end := Play(hash, c, Init(files), moves);
      end.s == Quit(true) ==>
        && end.r == Finished(true) && c.out in end.files
        && var placed := end.files[c.out];
        && |placed| == |c.body| && hash(placed) == hash(c.body)
        && exists o :: 0 <= o <= |c.body| && (o == 0 || o == Resumed(c, files)) && (o > 0 ==> c.partial in files)
             && placed[o..] == c.body[o..]
             && (o == 0 || files[c.partial] <= c.body ==> placed == c.body)
  {
    InitInv(hash, c, files);
    StartStays(hash, c, Init(files), moves);
    var end := Play(hash, c, Init(files), moves);
    if end.s == Quit(true) {
      hide Play, SenderScript, ReceiverScript, StreamComplete, Base;
      assert RightlyDone(hash, c, end.rLog, end.files, files);
      PlacedIsBody(hash, c, end.rLog, end.files, files);
    }
  }

  lemma PlacedIsBody(hash: Bytes -> Bytes, c: Config, rLog: seq<Msg>, files: Files, start: Files)
    requires RightlyDone(hash, c, rLog, files, start) && hash(c.body) != []
    ensures var o, placed := Offset(c, rLog), files[c.out];
      && (o == 0 || o == Resumed(c, start)) && (o > 0 ==> c.partial in start)
      && hash(placed) == hash(c.body) && placed[o..] == c.body[o..]
      && (o == 0 || start[c.partial] <= c.body ==> placed == c.body)
  {
    var o := Offset(c, rLog);
    if o == 0 {
      assert c.body[0..] == c.body && [] + c.body == c.body;
    } else {
      var base := Base(start, c.partial, o);
      assert |base| == o;
      assert start[c.partial] <= c.body ==> base + c.body[o..] == c.body;
    }
  }

  /** As long as one end is still at it, one of them can take a step. */
  lemma SomeoneCanStep(hash: Bytes -> Bytes, c: Config, st: Session)
    requires Inv(hash, c, st)
    ensures Over(st) || SenderEnabled(st) || ReceiverEnabled(st)
  {
    if st.r.Receiving? {
      assert Midway(c, st.rLog, st.files, st.start, st.r.content);
      assert Taken(c, Offset(c, st.rLog), st.start, st.sLog, st.rRead, st.r.content);
    }
    hide Carried, SenderScript, ReceiverScript, StreamComplete, RightlyDone, HelloOf;
  }

  /** So no schedule deadlocks: one that cannot be extended is over. */
  lemma NoDeadlock(hash: Bytes -> Bytes, c: Config, files: Files, moves: seq<Move>)
    requires c.partial != c.out
    ensures Inv(hash, c, Init(files))
    ensures var end := Play(hash, c, Init(files), moves);
      && (Over(end) || SenderEnabled(end) || ReceiverEnabled(end))
      && ((forall m :: !Enabled(end, m)) ==> Over(end))
  {
    InitInv(hash, c, files);
    var end := Play(hash, c, Init(files), moves);
    SomeoneCanStep(hash, c, end);
    hide Play, Inv, SenderEnabled, ReceiverEnabled;
    assert Enabled(end, SenderMoves(0)) == SenderEnabled(end) && Enabled(end, ReceiverMoves(0)) == ReceiverEnabled(end);
  }

  /** How much either end may still do. */
  function SenderWork(c: Config, s: Sender): nat {
    match s
    case SendHello => |c.body| + 8
    case SendPake => |c.body| + 7
    case AwaitPake => |c.body| + 6
    case SendConfirm => |c.body| + 5
    case AwaitConfirm => |c.body| + 4
    case AwaitAccept => |c.body| + 3
    case Streaming(sent) => if sent <= |c.body| then |c.body| - sent + 2 else 2
    case AwaitDone => 1
    case _ => 0
  }

  function ReceiverWork(r: Receiver): nat {
    match r
    case AwaitHello => 7
    case AwaitSenderPake => 6
    case SendReceiverPake => 5
    case AwaitSenderConfirm => 4
    case SendReceiverConfirm => 3
    case Decide => 2
    case Receiving(_) => 1
    case _ => 0
  }

  function Work(c: Config, st: Session): int {
    2 * SenderWork(c, st.s) + ReceiverWork(st.r) + |st.sLog| - st.rRead
  }

  lemma SenderMoveCounts(hash: Bytes -> Bytes, c: Config, st: Session, chunk: nat)
    requires SenderEnabled(st) && st.rRead <= |st.sLog| && (st.s.Streaming? ==> st.s.sent <= |c.body|)
    ensures var st' := SenderStep(hash, c, st, chunk); Work(c, st') < Work(c, st) && st'.rRead <= |st'.sLog|
  {
    hide HelloOf, Carried;
    match st.s
    case Streaming(_) =>
    case AwaitAccept =>
    case AwaitPake =>
    case AwaitConfirm =>
    case _ =>
  }

  /** Winding up ends the receiver and touches nothing else that counts. */
  lemma WindEnds(hash: Bytes -> Bytes, c: Config, st: Session, content: Bytes, stop: Input)
    requires c.partial in st.files && c.partial != c.out
    ensures var w := Wind(hash, c, st, content, stop);
      w.r.Finished? && w.s == st.s && w.sLog == st.sLog && w.rRead == st.rRead
  {
    hide ConcludePush, ConcludeOnce;
  }

  lemma StreamCounts(hash: Bytes -> Bytes, c: Config, st: Session, m: Msg, room: nat)
    requires st.r.Receiving? && c.partial in st.files && c.partial != c.out
    ensures var st' := OnStream(hash, c, st, m, room);
      ReceiverWork(st'.r) <= 1 && st'.s == st.s && st'.sLog == st.sLog && st'.rRead == st.rRead
  {
    WindEnds(hash, c, st, st.r.content, ToInput(m, room));
    hide Wind, Absorbs, ToInput;
  }

  lemma ReceiverMoveCounts(hash: Bytes -> Bytes, c: Config, st: Session, room: nat)
    requires ReceiverEnabled(st) && HasPartial(c, st) && st.rRead <= |st.sLog|
    ensures var st' := ReceiverStep(hash, c, st, room); Work(c, st') < Work(c, st) && st'.rRead <= |st'.sLog|
  {
    hide SenderWork, Wind, Base, ResumeOffset, JobOf, Carried;
    match st.r
    case Receiving(content) =>
      if Pending(st.sLog, st.rRead) {
        StreamCounts(hash, c, st.(rRead := st.rRead + 1), st.sLog[st.rRead], room);
      } else {
        WindEnds(hash, c, st, content, Cut);
      }
      hide OnStream;
    case AwaitHello => hide OnStream, OnDecide;
    case Decide => hide OnStream, OnHello;
    case _ => hide OnStream, OnHello, OnDecide;
  }

  lemma FailureCounts(hash: Bytes -> Bytes, c: Config, st: Session, m: Move)
    requires Enabled(st, m) && HasPartial(c, st) && st.rRead <= |st.sLog| && (m.SenderFails? || m.ReceiverFails?)
    ensures var st' := Next(hash, c, st, m); Work(c, st') < Work(c, st) && st'.rRead <= |st'.sLog|
  {
    hide SenderStep, ReceiverStep, ConcludePush, ConcludeOnce;
  }

  lemma InvCounts(hash: Bytes -> Bytes, c: Config, st: Session)
    requires Inv(hash, c, st)
    ensures HasPartial(c, st) && st.rRead <= |st.sLog| && (st.s.Streaming? ==> st.s.sent <= |c.body|)
  {
    hide SenderScript, ReceiverScript, StreamComplete, Carried, RightlyDone, Taken;
  }

  /** Every move uses up some of it, so no schedule goes on for ever. */
  lemma EveryMoveCounts(hash: Bytes -> Bytes, c: Config, st: Session, m: Move)
    requires Inv(hash, c, st) && Enabled(st, m)
    ensures HasPartial(c, st) && 0 <= Work(c, Next(hash, c, st, m)) < Work(c, st)
  {
    InvCounts(hash, c, st);
    hide Inv, HasPartial, SenderStep, ReceiverStep, Wind;
    match m
    case SenderMoves(chunk) => SenderMoveCounts(hash, c, st, chunk);
    case ReceiverMoves(room) => ReceiverMoveCounts(hash, c, st, room);
    case _ => FailureCounts(hash, c, st, m);
  }

  /** How many moves of a schedule are possible when their turn comes. */
  function Effective(hash: Bytes -> Bytes, c: Config, st: Session, moves: seq<Move>): nat
    requires Inv(hash, c, st)
    decreases |moves|
  {
    if moves == [] then 0
    else if !Enabled(st, moves[0]) then Effective(hash, c, st, moves[1..])
    else
      NextKeeps(hash, c, st, moves[0]);
      1 + Effective(hash, c, Next(hash, c, st, moves[0]), moves[1..])
  }

  lemma {:induction false} EffectiveBounded(hash: Bytes -> Bytes, c: Config, st: Session, moves: seq<Move>)
    requires Inv(hash, c, st)
    ensures Effective(hash, c, st, moves) <= Work(c, st)
    decreases |moves|
  {
    hide Inv, HasPartial, Next, Enabled, Work;
    if moves == [] {
      WorkIsLeft(hash, c, st);
    } else if !Enabled(st, moves[0]) {
      EffectiveBounded(hash, c, st, moves[1..]);
    } else {
      NextKeeps(hash, c, st, moves[0]);
      EveryMoveCounts(hash, c, st, moves[0]);
      EffectiveBounded(hash, c, Next(hash, c, st, moves[0]), moves[1..]);
    }
  }

  lemma WorkIsLeft(hash: Bytes -> Bytes, c: Config, st: Session)
    requires Inv(hash, c, st)
    ensures Work(c, st) >= 0
  {
    InvCounts(hash, c, st);
    hide Inv, HasPartial;
  }

  /** Every schedule ends: however long it is, at most this many of its moves happen. */
  lemma EveryScheduleEnds(hash: Bytes -> Bytes, c: Config, files: Files, moves: seq<Move>)
    requires c.partial != c.out
    ensures Inv(hash, c, Init(files))
    ensures Effective(hash, c, Init(files), moves) <= 2 * |c.body| + 23
  {
    InitInv(hash, c, files);
    EffectiveBounded(hash, c, Init(files), moves);
    hide Inv, Effective;
  }

  lemma {:induction false} PlayAppend(hash: Bytes -> Bytes, c: Config, st: Session, a: seq<Move>, b: seq<Move>)
    requires Inv(hash, c, st)
    ensures Play(hash, c, st, a + b) == Play(hash, c, Play(hash, c, st, a), b)
    decreases |a|
  {
    hide Inv, HasPartial, Next, Enabled;
    if a == [] {
      assert a + b == b;
    } else {
      assert (a + b)[1..] == a[1..] + b && (a + b)[0] == a[0];
      if !Enabled(st, a[0]) {
        PlayAppend(hash, c, st, a[1..], b);
      } else {
        NextKeeps(hash, c, st, a[0]);
        PlayAppend(hash, c, Next(hash, c, st, a[0]), a[1..], b);
      }
    }
  }

  lemma PlayFirst(hash: Bytes -> Bytes, c: Config, st: Session, m: Move, rest: seq<Move>)
    requires Inv(hash, c, st) && Enabled(st, m)
    ensures HasPartial(c, st) && Inv(hash, c, Next(hash, c, st, m))
    ensures Play(hash, c, st, [m] + rest) == Play(hash, c, Next(hash, c, st, m), rest)
  {
    hide Inv, HasPartial, Next, Enabled;
    NextKeeps(hash, c, st, m);
    assert ([m] + rest)[1..] == rest && ([m] + rest)[0] == m;
  }

  /** From every state the two ends, left to themselves on a disk with room, come to an end. */
  lemma Finishes(hash: Bytes -> Bytes, c: Config, st: Session) returns (moves: seq<Move>)
    requires Inv(hash, c, st)
    ensures Over(Play(hash, c, st, moves))
    ensures forall m :: m in moves ==> m.SenderMoves? || (m.ReceiverMoves? && m.room >= |c.body|)
    decreases Work(c, st)
  {
    hide Inv, HasPartial, Next, Work, Over, SenderEnabled, ReceiverEnabled;
    if Over(st) {
      moves := [];
    } else {
      SomeoneCanStep(hash, c, st);
      var m := if SenderEnabled(st) then SenderMoves(0) else ReceiverMoves(|c.body|);
      assert Enabled(st, m);
      hide Enabled;
      EveryMoveCounts(hash, c, st, m);
      NextKeeps(hash, c, st, m);
      var rest := Finishes(hash, c, Next(hash, c, st, m));
      PlayFirst(hash, c, st, m, rest);
      hide Play;
      moves := [m] + rest;
    }
  }
}
