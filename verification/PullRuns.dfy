/** Pulling a broadcast file, over whole runs. The partial is keyed by pin, name and size, not by content. */
module PullRuns {
  import opened Bytes
  import opened Streams
  import opened LanFrames
  import opened Transfers
  import opened PushRuns

  /** What the downloader set out to get; `size` is the advertised size, an int64. */
  datatype Order = Order(partial: Path, out: Path, size: int, overwrite: bool)

  /** The last control frame: unreadable, or a completion report with a digest that may be empty. */
  datatype Reply = NoReply | Done(sum: Bytes)

  /** What one connection brings: the size in the accept frame, the free-space answer, the stream and the reply. */
  datatype Session = Session(accSize: int, space: bool, inputs: seq<Input>, fate: Fate, reply: Reply)

  function Total(o: Order, accSize: int): int { if accSize > 0 then accSize else o.size }

  predicate Plausible(o: Order, accSize: int) {
    var total := Total(o, accSize);
    0 <= total <= MAX_TRANSFER_BYTES && (o.size > 0 ==> total <= o.size)
  }

  function JobOf(o: Order, accSize: int): Job
    requires Plausible(o, accSize)
  {
    Job(o.partial, o.out, Total(o, accSize), [], o.overwrite)
  }

  /** Download, from its destination check on. */
  function Downloaded(hash: Bytes -> Bytes, o: Order, files: Files, s: Session): Result
    requires o.partial != o.out
  {
    if o.out in files && !o.overwrite then Result(files, Failed(PlaceFailed))
    else if !Plausible(o, s.accSize) then Result(files, Failed(BadSize))
    else if !s.space then Result(files, Failed(NoSpace))
    else
      var offset := ResumeOffset(files, o.partial, o.size);
      Settled(o, PullStream(hash, JobOf(o, s.accSize), files, offset, s.inputs, s.fate), s.fate, s.reply)
  }

  /** What Download does with the stream's result once it has the reply. */
  function Settled(o: Order, r: Result, fate: Fate, reply: Reply): Result
    requires o.partial != o.out && (r.outcome.Placed? ==> o.partial in r.files)
  {
    if !r.outcome.Placed? then r
    else match reply
      case NoReply => Result(r.files, Failed(ReadError))
      case Done(sum) =>
        if sum != [] && sum != r.outcome.sum then Result(Removed(r.files, o.partial, fate.remove), Failed(Mismatch))
        else
          var (fs, ok) := PlaceFile(r.files, o.partial, o.out, o.overwrite, fate);
          Result(fs, if ok then r.outcome else Failed(PlaceFailed))
  }

  method Download(disk: Disk, hash: Bytes -> Bytes, o: Order, s: Session) returns (outcome: Outcome)
    requires o.partial != o.out
    modifies disk
    ensures Result(disk.files, outcome) == Downloaded(hash, o, old(disk.files), s)
  {
    if o.out in disk.files && !o.overwrite { return Failed(PlaceFailed); }
    var offset := ResumeOffset(disk.files, o.partial, o.size);
    var total := o.size;
    if s.accSize > 0 { total := s.accSize; }
    if total < 0 || total > MAX_TRANSFER_BYTES { return Failed(BadSize); }
    if o.size > 0 && total > o.size { return Failed(BadSize); }
    if !s.space { return Failed(NoSpace); }
    PlacedKeepsPartial(hash, JobOf(o, s.accSize), disk.files, offset, s.inputs, s.fate);
    hide PullStream;
    outcome := disk.ReceiveResumable(hash, JobOf(o, s.accSize), offset, s.inputs, s.fate);
    if !outcome.Placed? { return; }
    if s.reply.NoReply? { return Failed(ReadError); }
    if s.reply.sum != [] && s.reply.sum != outcome.sum {
      disk.Drop(o.partial, s.fate.remove);
      return Failed(Mismatch);
    }
    var ok := disk.Place(o.partial, o.out, o.overwrite, s.fate);
    if !ok { outcome := Failed(PlaceFailed); }
  }

  /** The stream completes only with a partial of exactly the total, whose digest it reports. */
  lemma PlacedKeepsPartial(hash: Bytes -> Bytes, job: Job, files: Files, offset: nat, inputs: seq<Input>, fate: Fate)
    ensures var r := PullStream(hash, job, files, offset, inputs, fate);
      r.outcome.Placed? ==>
        job.partial in r.files && |r.files[job.partial]| == job.total == r.outcome.bytes
        && hash(r.files[job.partial]) == r.outcome.sum
  {
    hide Absorb;
  }

  /**
   * One download from anybody: what is placed has the plausible size that was agreed and the digest that was
   * reported, and without overwrite no existing destination changes, however late it appeared.
   */
  lemma DownloadSafe(hash: Bytes -> Bytes, o: Order, files: Files, s: Session)
    requires o.partial != o.out
    ensures var r := Downloaded(hash, o, files, s);
      && (r.outcome.Placed? ==>
            && Plausible(o, s.accSize) && o.out in r.files && |r.files[o.out]| == Total(o, s.accSize)
            && s.reply.Done? && (s.reply.sum != [] ==> hash(r.files[o.out]) == s.reply.sum))
      && (!o.overwrite && o.out in files ==> r.files == files)
      && (!o.overwrite && s.fate.rival.Some? ==> !r.outcome.Placed?)
      && (!o.overwrite && s.fate.rival.Some? && o.out !in files && o.out in r.files ==>
            r.files[o.out] == s.fate.rival.value)
  {
    if Plausible(o, s.accSize) {
      var offset := ResumeOffset(files, o.partial, o.size);
      PlacedKeepsPartial(hash, JobOf(o, s.accSize), files, offset, s.inputs, s.fate);
      StreamLeavesOthers(hash, JobOf(o, s.accSize), files, offset, s.inputs, s.fate);
      hide PullStream;
    }
  }

  lemma StreamLeavesOthers(hash: Bytes -> Bytes, job: Job, files: Files, offset: nat, inputs: seq<Input>, fate: Fate)
    ensures var r := PullStream(hash, job, files, offset, inputs, fate);
      forall q :: q != job.partial ==> SameAt(q, files, r.files)
  {
    hide Absorb, Base;
  }

  /** No write takes the partial past the total, or past what was resumed when that is longer already. */
  lemma StreamBounded(hash: Bytes -> Bytes, job: Job, files: Files, offset: nat, inputs: seq<Input>, fate: Fate)
    ensures var r := PullStream(hash, job, files, offset, inputs, fate);
      r.files == files ||
      (job.partial in r.files ==> |r.files[job.partial]| <= if offset <= job.total then job.total else offset)
  {
    if fate.open && (offset > 0 ==> job.partial in files && offset <= |files[job.partial]|) {
      if offset <= job.total {
        AbsorbBounded(Base(files, job.partial, offset), job.total, inputs);
        hide Absorb;
      }
    }
  }

  // ---- honest broadcasters ----

  /** What a broadcaster of `body` brings about, cut anywhere. It refuses an offset past the end of its file. */
  predicate HonestSession(hash: Bytes -> Bytes, o: Order, files: Files, body: Bytes, s: Session) {
    var offset := ResumeOffset(files, o.partial, o.size);
    && offset <= |body| && s.accSize == |body|
    && Honest(s.inputs, body[offset..])
    && (s.reply.Done? ==> s.reply.sum == hash(body) != [])
  }

  /**
   * A download from an honest broadcaster succeeds only with a file of the reported digest. It is what was resumed
   * followed by the rest of the broadcaster's file; so it is that file when the partial was a prefix of it, and a
   * splice of two files is placed only if the hash cannot tell them apart.
   */
  lemma HonestDownload(hash: Bytes -> Bytes, o: Order, files: Files, body: Bytes, s: Session)
    requires o.partial != o.out && HonestSession(hash, o, files, body, s)
    requires Downloaded(hash, o, files, s).outcome.Placed?
    ensures var offset := ResumeOffset(files, o.partial, o.size);
      var r := Downloaded(hash, o, files, s);
      && o.out in r.files && hash(r.files[o.out]) == hash(body)
      && (body != [] ==> r.files[o.out] == Base(files, o.partial, offset) + body[offset..])
      && (body != [] && Base(files, o.partial, offset) <= body ==> r.files[o.out] == body)
  {
    var offset := ResumeOffset(files, o.partial, o.size);
    var job := JobOf(o, s.accSize);
    PlacedKeepsPartial(hash, job, files, offset, s.inputs, s.fate);
    if body != [] {
      ResumedContent(hash, job, files, offset, body, s.inputs, s.fate);
    }
    hide PullStream, Honest;
  }

  lemma ResumedContent(hash: Bytes -> Bytes, job: Job, files: Files, offset: nat, body: Bytes, inputs: seq<Input>,
                       fate: Fate)
    requires job.total == |body| && offset <= |body| && Honest(inputs, body[offset..])
    requires PullStream(hash, job, files, offset, inputs, fate).outcome.Placed?
    ensures offset > 0 ==> job.partial in files && offset <= |files[job.partial]|
    ensures var c := Base(files, job.partial, offset) + body[offset..];
      && job.partial in PullStream(hash, job, files, offset, inputs, fate).files
      && PullStream(hash, job, files, offset, inputs, fate).files[job.partial] == c
      && (Base(files, job.partial, offset) <= body ==> c == body)
  {
    var base := Base(files, job.partial, offset);
    HonestAbsorb(base, body, |body|, inputs);
    hide Absorb, Honest;
    var c := Absorb(base, |body|, inputs).content;
    assert |c| == |body|;
    assert c == base + c[offset..] && body[offset..|body|] == body[offset..];
    assert base <= body ==> body == base + body[offset..];
  }

  lemma ConcludePullHonest(hash: Bytes -> Bytes, job: Job, body: Bytes, files: Files, s: Stream, fate: Fate)
    requires job.partial in files && files[job.partial] == s.content <= body && HonestStop(s, body)
    requires |body| <= job.total
    ensures var r := ConcludePull(hash, job, files, s, fate);
      && (job.partial in r.files ==> r.files[job.partial] <= body)
      && (r.outcome.Placed? ==> job.partial in r.files && r.files[job.partial] == body && r.outcome.sum == hash(body))
  {
    assert |s.content| == |body| ==> s.content == body;
    if s.stop.Arrive? && s.stop.frame.typ == MSG_DATA {
      AppendPrefix(s.content, s.stop.frame.payload, body, Min(|s.stop.frame.payload|, s.stop.room));
    }
  }

  lemma HonestStream(hash: Bytes -> Bytes, job: Job, body: Bytes, files: Files, offset: nat, inputs: seq<Input>,
                     fate: Fate)
    requires |body| <= job.total && (job.partial in files ==> files[job.partial] <= body)
    requires offset <= |body| && Honest(inputs, body[offset..])
    ensures var r := PullStream(hash, job, files, offset, inputs, fate);
      && (job.partial in r.files ==> r.files[job.partial] <= body)
      && (r.outcome.Placed? ==> job.partial in r.files && r.files[job.partial] == body && r.outcome.sum == hash(body))
  {
    if fate.open && (offset > 0 ==> job.partial in files && offset <= |files[job.partial]|) {
      var base := Base(files, job.partial, offset);
      assert base <= body && |base| == offset;
      HonestAbsorb(base, body, job.total, inputs);
      hide Absorb, Honest, ConcludePull;
      var s := Absorb(base, job.total, inputs);
      PrefixOfBody(base, s.content, body);
      ConcludePullHonest(hash, job, body, files[job.partial := s.content], s, fate);
    }
  }

  lemma HonestSessionStep(hash: Bytes -> Bytes, o: Order, files: Files, body: Bytes, s: Session)
    requires o.partial != o.out && HonestSession(hash, o, files, body, s)
    requires o.partial in files ==> files[o.partial] <= body
    ensures var r := Downloaded(hash, o, files, s);
      && (o.partial in r.files ==> r.files[o.partial] <= body)
      && r.outcome != Failed(Mismatch)
      && (r.outcome.Placed? ==> o.out in r.files && r.files[o.out] == body)
  {
    if Plausible(o, s.accSize) {
      var offset := ResumeOffset(files, o.partial, o.size);
      HonestStream(hash, JobOf(o, s.accSize), body, files, offset, s.inputs, s.fate);
      NoEarlyMismatch(hash, JobOf(o, s.accSize), files, offset, s.inputs, s.fate);
      hide PullStream, Honest;
    }
  }

  lemma NoEarlyMismatch(hash: Bytes -> Bytes, job: Job, files: Files, offset: nat, inputs: seq<Input>, fate: Fate)
    ensures PullStream(hash, job, files, offset, inputs, fate).outcome != Failed(Mismatch)
  {
    hide Absorb;
  }

  /** All of the rest arrives, everything works, and the report comes. */
  predicate WholeSession(hash: Bytes -> Bytes, o: Order, files: Files, body: Bytes, s: Session) {
    && HonestSession(hash, o, files, body, s)
    && Uninterrupted(s.inputs, body[ResumeOffset(files, o.partial, o.size)..])
    && Smooth(s.fate) && s.space && s.reply.Done?
  }

  /**
   * An uninterrupted session from an honest broadcaster places the file exactly when what was resumed fits it under
   * the hash, and otherwise discards the stale partial, so that the next one starts afresh and succeeds.
   */
  lemma StalePartialDiscarded(hash: Bytes -> Bytes, o: Order, files: Files, body: Bytes, s: Session)
    requires o.partial != o.out && (o.out !in files || o.overwrite)
    requires 0 < |body| <= 0x100_0000_0000 && (o.size <= 0 || |body| <= o.size)
    requires WholeSession(hash, o, files, body, s)
    ensures var offset := ResumeOffset(files, o.partial, o.size);
      var whole := Base(files, o.partial, offset) + body[offset..];
      var r := Downloaded(hash, o, files, s);
      if hash(whole) == hash(body)
      then r.outcome.Placed? && r.files == (files - {o.partial})[o.out := whole]
      else r.outcome == Failed(Mismatch) && r.files == files - {o.partial}
  {
    var offset := ResumeOffset(files, o.partial, o.size);
    var base := Base(files, o.partial, offset);
    UninterruptedAbsorb(base, body[offset..], |body|, s.inputs);
    hide Absorb, Uninterrupted, Honest;
  }

  // ---- runs ----

  datatype PullEvent = Fetch(body: Bytes, session: Session) | Sweep | Others(files: Files) | Tamper(content: Bytes)

  /** `placed` pairs each file placed with the broadcaster's own. */
  datatype PullState = PullState(files: Files, placed: seq<(Bytes, Bytes)>)

  function PullStep(hash: Bytes -> Bytes, o: Order, st: PullState, e: PullEvent): PullState
    requires o.partial != o.out
  {
    match e
    case Fetch(body, s) =>
      var r := Downloaded(hash, o, st.files, s);
      PullState(r.files,
                if r.outcome.Placed? && o.out in r.files then st.placed + [(r.files[o.out], body)] else st.placed)
    case Sweep => st.(files := st.files - {o.partial})
    case Others(fs) => st.(files := (fs - {o.partial}) + Untouched(st.files, o.partial))
    case Tamper(c) => st.(files := st.files[o.partial := c])
  }

  function PullRun(hash: Bytes -> Bytes, o: Order, st: PullState, events: seq<PullEvent>): PullState
    requires o.partial != o.out
    decreases |events|
  {
    if events == [] then st else PullRun(hash, o, PullStep(hash, o, st, events[0]), events[1..])
  }

  /** Every session is an honest broadcaster's; `same` says they all serve that file and nobody tampers. */
  predicate HonestPulls(hash: Bytes -> Bytes, o: Order, same: Option<Bytes>, st: PullState, events: seq<PullEvent>)
    requires o.partial != o.out
    decreases |events|
  {
    events == [] ||
    ((match events[0]
      case Fetch(body, s) => HonestSession(hash, o, st.files, body, s) && (same.Some? ==> body == same.value)
      case Tamper(_) => same.None?
      case _ => true)
     && HonestPulls(hash, o, same, PullStep(hash, o, st, events[0]), events[1..]))
  }

  predicate Matching(hash: Bytes -> Bytes, placed: seq<(Bytes, Bytes)>) {
    forall i :: 0 <= i < |placed| ==> hash(placed[i].0) == hash(placed[i].1)
  }

  /**
   * Whatever the partial held, whatever happened to it, and even if the broadcaster's file changed between attempts:
   * every download that succeeded left a file with the digest of the one being broadcast then.
   */
  lemma {:induction false} EveryPullRight(hash: Bytes -> Bytes, o: Order, st: PullState, events: seq<PullEvent>)
    requires o.partial != o.out && HonestPulls(hash, o, None, st, events)
    requires Matching(hash, st.placed)
    ensures Matching(hash, PullRun(hash, o, st, events).placed)
    decreases |events|
  {
    if events != [] {
      if events[0].Fetch? && Downloaded(hash, o, st.files, events[0].session).outcome.Placed? {
        HonestDownload(hash, o, st.files, events[0].body, events[0].session);
      }
      hide Downloaded, HonestSession;
      EveryPullRight(hash, o, PullStep(hash, o, st, events[0]), events[1..]);
    }
  }

  /** From one unchanging broadcast, the partial stays a prefix and exactly the file is placed, whatever the hash. */
  lemma {:induction false} SameBroadcastRun(hash: Bytes -> Bytes, o: Order, body: Bytes, st: PullState,
                                            events: seq<PullEvent>)
    requires o.partial != o.out && HonestPulls(hash, o, Some(body), st, events)
    requires o.partial in st.files ==> st.files[o.partial] <= body
    requires forall i :: 0 <= i < |st.placed| ==> st.placed[i] == (body, body)
    ensures var end := PullRun(hash, o, st, events);
      && (o.partial in end.files ==> end.files[o.partial] <= body)
      && forall i :: 0 <= i < |end.placed| ==> end.placed[i] == (body, body)
    decreases |events|
  {
    if events != [] {
      if events[0].Fetch? {
        HonestSessionStep(hash, o, st.files, body, events[0].session);
      }
      hide Downloaded, HonestSession;
      SameBroadcastRun(hash, o, body, PullStep(hash, o, st, events[0]), events[1..]);
    }
  }
}
