/**
 * What every ending of a transfer leaves on the disk, and how the next attempt goes on from there. The sizes, the frame
 * types (5 is data, 6 the end of the stream) and the size limits stand here as the numbers they are.
 */
module Endings {
  import opened Bytes
  import opened Streams
  import opened LanFrames
  import opened Transfers
  import opened PushRuns
  import opened PullRuns

  /** These inputs bring exactly these payloads, and the disk takes all of them. */
  predicate Delivers(inputs: seq<Input>, payloads: seq<Bytes>) {
    && |inputs| == |payloads|
    && forall i :: 0 <= i < |inputs| ==>
         inputs[i].Arrive? && inputs[i].frame == Frame(5, payloads[i]) && |payloads[i]| <= inputs[i].room
  }

  /** What an attempt goes on from: what is there, if that is something and less than the whole. */
  function Leftover(files: Files, p: Path, total: int): Bytes {
    if p in files && 0 < |files[p]| < total then files[p] else []
  }

  /** The connection is lost, the inputs run out, or the transfer is paused: what a later attempt can go on from. */
  predicate BreaksOff(rest: seq<Input>) { rest == [] || rest[0] == Cut || rest[0] == Cancel(false) }

  predicate Stops(have: Bytes, total: nat, rest: seq<Input>) { rest == [] || !Absorbs(have, total, rest[0]) }

  lemma ConcatFirst(p: Bytes, payloads: seq<Bytes>)
    ensures Concat([p] + payloads) == p + Concat(payloads)
  {
    assert ([p] + payloads)[1..] == payloads;
  }

  /** The loop takes in all that is delivered, and stops at what comes then. */
  lemma {:induction false} AbsorbDelivered(c: Bytes, total: nat, first: seq<Input>, payloads: seq<Bytes>,
                                           rest: seq<Input>)
    requires Delivers(first, payloads) && |c| + |Concat(payloads)| <= total
    requires Stops(c + Concat(payloads), total, rest)
    ensures Absorb(c, total, first + rest)
         == Stream(c + Concat(payloads), if rest == [] then Cut else rest[0])
    decreases |first|
  {
    if first == [] {
      assert first + rest == rest && c + [] == c;
    } else {
      var p := payloads[0];
      assert payloads == [p] + payloads[1..];
      ConcatFirst(p, payloads[1..]);
      assert (first + rest)[1..] == first[1..] + rest;
      assert c + Concat(payloads) == c + p + Concat(payloads[1..]);
      hide Concat;
      AbsorbDelivered(c + p, total, first[1..], payloads[1..], rest);
    }
  }

  /** There is no other course: all inputs are some payloads that are taken in, and something that stops the loop. */
  lemma {:induction false} EveryCourse(c: Bytes, total: nat, inputs: seq<Input>)
    returns (first: seq<Input>, payloads: seq<Bytes>, rest: seq<Input>)
    requires |c| <= total
    ensures inputs == first + rest && Delivers(first, payloads)
    ensures |c| + |Concat(payloads)| <= total && Stops(c + Concat(payloads), total, rest)
    decreases |inputs|
  {
    if inputs == [] || !Absorbs(c, total, inputs[0]) {
      first, payloads, rest := [], [], inputs;
      assert c + [] == c;
    } else {
      var p := inputs[0].frame.payload;
      var f, ps, r := EveryCourse(c + p, total, inputs[1..]);
      first, payloads, rest := [inputs[0]] + f, [p] + ps, r;
      ConcatFirst(p, ps);
      assert c + (p + Concat(ps)) == c + p + Concat(ps);
      hide Concat;
    }
  }

  // ---- a push ----

  /** The destination is free, or may be overwritten, and the partial opens. */
  predicate Starts(job: Job, files: Files, fate: Fate) {
    job.partial != job.out && (job.out !in files || job.overwrite) && fate.open
  }

  /** What the partial holds when the payloads are in. */
  function Have(files: Files, p: Path, total: int, payloads: seq<Bytes>): Bytes {
    Leftover(files, p, total) + Concat(payloads)
  }

  lemma LeftoverIsBase(files: Files, p: Path, total: int)
    ensures var o := ResumeOffset(files, p, total);
      && o == |Leftover(files, p, total)| && (o > 0 ==> p in files && o == |files[p]|)
      && Base(files, p, o) == Leftover(files, p, total)
  {
    var o := ResumeOffset(files, p, total);
    assert o > 0 ==> files[p][..o] == files[p];
  }

  lemma PushCourse(hash: Bytes -> Bytes, job: Job, files: Files, first: seq<Input>, payloads: seq<Bytes>,
                   rest: seq<Input>, fate: Fate)
    requires Starts(job, files, fate) && Delivers(first, payloads)
    requires var have := Have(files, job.partial, job.total, payloads);
      |have| <= job.total && Stops(have, job.total, rest)
    ensures var have := Have(files, job.partial, job.total, payloads);
      HandlePush(hash, job, files, first + rest, fate)
      == ConcludePush(hash, job, files[job.partial := have],
                      Stream(have, if rest == [] then Cut else rest[0]), fate)
  {
    LeftoverIsBase(files, job.partial, job.total);
    AbsorbDelivered(Leftover(files, job.partial, job.total), job.total, first, payloads, rest);
    hide Absorb, ConcludePush, Leftover, Concat, Delivers, Base, Stops;
  }

  /**
   * A push that breaks off keeps exactly what it resumed and what came in, and the next attempt resumes after all of
   * it; so does one whose disk fills up, with as much of the last payload as fitted.
   */
  lemma BrokenPushKeeps(hash: Bytes -> Bytes, job: Job, files: Files, first: seq<Input>, payloads: seq<Bytes>,
                        rest: seq<Input>, fate: Fate)
    requires Starts(job, files, fate) && Delivers(first, payloads)
    requires |Have(files, job.partial, job.total, payloads)| <= job.total
    ensures var have := Have(files, job.partial, job.total, payloads);
      var r := HandlePush(hash, job, files, first + rest, fate);
      && (BreaksOff(rest) ==>
            && r.files == files[job.partial := have]
            && r.outcome == Failed(if rest != [] && rest[0].Cancel? then Cancelled else ReadError)
            && (|have| < job.total ==> ResumeOffset(r.files, job.partial, job.total) == |have|))
      && (rest != [] && rest[0].Arrive? && rest[0].frame.typ == 5 && rest[0].room < |rest[0].frame.payload|
          && |have| + |rest[0].frame.payload| <= job.total ==>
            && r == Result(files[job.partial := have + rest[0].frame.payload[..rest[0].room]], Failed(WriteError))
            && ResumeOffset(r.files, job.partial, job.total) == |have| + rest[0].room)
  {
    if Stops(Have(files, job.partial, job.total, payloads), job.total, rest) {
      PushCourse(hash, job, files, first, payloads, rest, fate);
    }
    hide HandlePush, Have, Delivers;
  }

  /**
   * What cannot be trusted goes: after a cancel that is no pause, a stream that is too long or too short or has a frame
   * of another type, or a wrong digest, the partial is removed, and nothing else has changed.
   */
  lemma BadPushDrops(hash: Bytes -> Bytes, job: Job, files: Files, first: seq<Input>, payloads: seq<Bytes>,
                     rest: seq<Input>, fate: Fate)
    requires Starts(job, files, fate) && Delivers(first, payloads) && rest != []
    requires |Have(files, job.partial, job.total, payloads)| <= job.total
    ensures var have := Have(files, job.partial, job.total, payloads);
      var r := HandlePush(hash, job, files, first + rest, fate);
      var gone := if fate.remove then files - {job.partial} else files[job.partial := have];
      && (rest[0] == Cancel(true) ==> r == Result(gone, Failed(Cancelled)))
      && (rest[0].Arrive? ==>
            var typ, payload := rest[0].frame.typ, rest[0].frame.payload;
            && (typ == 5 && |have| + |payload| > job.total ==> r == Result(gone, Failed(Exceeded)))
            && (typ == 6 && |have| < job.total ==> r == Result(gone, Failed(Incomplete)))
            && (typ == 6 && |have| == job.total && job.want != [] && hash(have) != job.want ==>
                  r == Result(gone, Failed(Mismatch)))
            && (typ != 5 && typ != 6 ==> r == Result(gone, Failed(Unexpected))))
  {
    if Stops(Have(files, job.partial, job.total, payloads), job.total, rest) {
      PushCourse(hash, job, files, first, payloads, rest, fate);
    }
    hide HandlePush, Have, Delivers;
    RemovedAfterWrite(files, job.partial, Have(files, job.partial, job.total, payloads));
  }

  lemma SameWithout(before: Files, after: Files, p: Path, have: Bytes)
    requires after == before || after == before[p := have]
    ensures after - {p} == before - {p} && forall q :: q != p ==> (q in after <==> q in before)
  {
  }

  lemma RemovedAfterWrite(files: Files, p: Path, have: Bytes)
    ensures files[p := have] - {p} == files - {p}
  {
  }

  /** A complete push is placed when everything works, else kept, whole, with the destination as others left it. */
  lemma CompletePushIsPlaced(hash: Bytes -> Bytes, job: Job, files: Files, first: seq<Input>, payloads: seq<Bytes>,
                             rest: seq<Input>, fate: Fate)
    requires Starts(job, files, fate) && Delivers(first, payloads)
    requires rest != [] && rest[0].Arrive? && rest[0].frame.typ == 6
    requires var have := Have(files, job.partial, job.total, payloads);
      |have| == job.total && (job.want == [] || hash(have) == job.want)
    ensures var have := Have(files, job.partial, job.total, payloads);
      var r := HandlePush(hash, job, files, first + rest, fate);
      Settles(hash, have, job.partial, job.out, job.overwrite, files, fate, r)
  {
    var have := Have(files, job.partial, job.total, payloads);
    PushCourse(hash, job, files, first, payloads, rest, fate);
    hide HandlePush, Have, Delivers;
    RemovedAfterWrite(files, job.partial, have);
  }

  /** How a complete partial is put where it belongs. */
  predicate Settles(hash: Bytes -> Bytes, have: Bytes, partial: Path, out: Path, overwrite: bool, files: Files,
                    fate: Fate, r: Result) {
    var kept := files[partial := have];
    var met := if fate.rival.Some? then kept[out := fate.rival.value] else kept;
    if !fate.sync then r == Result(kept, Failed(SyncFailed))
    else if !fate.close then r == Result(kept, Failed(CloseFailed))
    else if !fate.place || (fate.rival.Some? && !overwrite) then r == Result(met, Failed(PlaceFailed))
    else
      && r.outcome == Placed(|have|, hash(have))
      && r.files == (if overwrite || fate.remove then files - {partial} else kept)[out := have]
  }

  /** An attempt that does not get as far as opening the partial changes nothing. */
  lemma NoStartNoChange(hash: Bytes -> Bytes, job: Job, files: Files, inputs: seq<Input>, fate: Fate)
    requires job.partial != job.out
    ensures job.out in files && !job.overwrite ==>
      HandlePush(hash, job, files, inputs, fate) == Result(files, Failed(PlaceFailed))
    ensures (job.out !in files || job.overwrite) && !fate.open ==>
      HandlePush(hash, job, files, inputs, fate) == Result(files, Failed(OpenFailed))
  {
    hide Absorb, ConcludePush;
  }

  // ---- pushes that go on from each other ----

  /** An attempt that brings these payloads and then breaks off. */
  predicate Breaks(e: Event, payloads: seq<Bytes>) {
    && e.Try? && e.fate.open && |payloads| <= |e.inputs|
    && Delivers(e.inputs[..|payloads|], payloads) && BreaksOff(e.inputs[|payloads|..])
  }

  function All(brought: seq<seq<Bytes>>): Bytes {
    if brought == [] then [] else Concat(brought[0]) + All(brought[1..])
  }

  lemma LeftoverAfter(files: Files, p: Path, total: int, have: Bytes)
    requires |have| < total
    ensures Leftover(files[p := have], p, total) == have && ResumeOffset(files[p := have], p, total) == |have|
  {
  }

  /**
   * Any number of attempts that break off, each going on where the last one stopped: the partial has all that any of
   * them brought, once and in order, and nothing else has changed.
   */
  lemma {:induction false} BrokenRunAddsUp(hash: Bytes -> Bytes, job: Job, st: State, events: seq<Event>,
                                           brought: seq<seq<Bytes>>)
    requires job.partial != job.out && (job.out !in st.files || job.overwrite)
    requires |events| == |brought| && forall i :: 0 <= i < |events| ==> Breaks(events[i], brought[i])
    requires |Leftover(st.files, job.partial, job.total) + All(brought)| < job.total
    ensures var have := Leftover(st.files, job.partial, job.total) + All(brought);
      var end := Run(hash, job, st, events);
      && (events != [] ==> end == st.(files := st.files[job.partial := have]))
      && Leftover(end.files, job.partial, job.total) == have
      && ResumeOffset(end.files, job.partial, job.total) == |have|
    decreases |events|
  {
    var had := Leftover(st.files, job.partial, job.total);
    if events == [] {
      assert had + [] == had;
    } else {
      var e, now := events[0], had + Concat(brought[0]);
      assert Breaks(e, brought[0]);
      assert had + All(brought) == now + All(brought[1..]);
      BrokenStep(hash, job, st, e, brought[0]);
      LeftoverAfter(st.files, job.partial, job.total, now);
      hide Step, Breaks, Leftover, Concat, ResumeOffset;
      var st' := st.(files := st.files[job.partial := now]);
      BrokenRunAddsUp(hash, job, st', events[1..], brought[1..]);
      assert st'.files[job.partial := now + All(brought[1..])] == st.files[job.partial := now + All(brought[1..])];
    }
  }

  lemma BrokenStep(hash: Bytes -> Bytes, job: Job, st: State, e: Event, payloads: seq<Bytes>)
    requires job.partial != job.out && (job.out !in st.files || job.overwrite) && Breaks(e, payloads)
    requires |Have(st.files, job.partial, job.total, payloads)| < job.total
    ensures Step(hash, job, st, e)
         == st.(files := st.files[job.partial := Have(st.files, job.partial, job.total, payloads)])
  {
    var first, rest := e.inputs[..|payloads|], e.inputs[|payloads|..];
    assert e.inputs == first + rest;
    BrokenPushKeeps(hash, job, st.files, first, payloads, rest, e.fate);
    hide HandlePush, Have, Delivers;
  }

  /**
   * So a sender may be cut off any number of times: when the rest of the body follows what the broken attempts brought,
   * the file is placed, and not a byte was sent twice.
   */
  lemma BrokenRunFinishes(hash: Bytes -> Bytes, job: Job, body: Bytes, st: State, events: seq<Event>,
                          brought: seq<seq<Bytes>>, inputs: seq<Input>, fate: Fate)
    requires job.partial != job.out && (job.out !in st.files || job.overwrite)
    requires job.total == |body| && job.want == hash(body) != []
    requires |events| == |brought| && forall i :: 0 <= i < |events| ==> Breaks(events[i], brought[i])
    requires Leftover(st.files, job.partial, job.total) + All(brought) < body
    requires Smooth(fate)
    requires Uninterrupted(inputs, body[|Leftover(st.files, job.partial, job.total) + All(brought)|..])
    ensures var end := Run(hash, job, st, events + [Try(inputs, fate)]);
      && end.files == (st.files - {job.partial})[job.out := body]
      && end.placed == st.placed + [body] && end.mismatches == st.mismatches
  {
    var have := Leftover(st.files, job.partial, job.total) + All(brought);
    BrokenRunAddsUp(hash, job, st, events, brought);
    var mid := Run(hash, job, st, events);
    if events == [] { assert mid == st; }
    LeftoverIsBase(mid.files, job.partial, job.total);
    SameWithout(st.files, mid.files, job.partial, have);
    assert mid.placed == st.placed && mid.mismatches == st.mismatches;
    assert job.out !in mid.files || job.overwrite;
    RunThen(hash, job, st, events, Try(inputs, fate));
    hide Run, Leftover, All, ResumeOffset, Base, Uninterrupted, Smooth, Breaks;
    WholeAttempt(hash, job, body, mid.files, inputs, fate);
    assert have + body[|have|..] == body;
    hide HandlePush;
  }

  lemma {:induction false} RunThen(hash: Bytes -> Bytes, job: Job, st: State, events: seq<Event>, e: Event)
    requires job.partial != job.out
    ensures Run(hash, job, st, events + [e]) == Step(hash, job, Run(hash, job, st, events), e)
    decreases |events|
  {
    hide Step;
    if events == [] {
      assert events + [e] == [e] && [e][1..] == [];
    } else {
      assert (events + [e])[1..] == events[1..] + [e];
      RunThen(hash, job, Step(hash, job, st, events[0]), events[1..], e);
    }
  }

  // ---- a pull ----

  /** The size that counts: the one in the accept frame, or the advertised one if that has none. */
  function Agreed(o: Order, accSize: int): int { if accSize > 0 then accSize else o.size }

  /** Not negative, at most 1 TiB, and at most what was advertised, if something was. */
  predicate Reasonable(o: Order, accSize: int) {
    0 <= Agreed(o, accSize) <= 1_099_511_627_776 && (o.size <= 0 || Agreed(o, accSize) <= o.size)
  }

  predicate Free(o: Order, files: Files) { o.partial != o.out && (o.out !in files || o.overwrite) }

  /** A size is refused exactly when it is unreasonable, and then nothing changes. */
  lemma BadSizeExactly(hash: Bytes -> Bytes, o: Order, files: Files, s: Session)
    requires Free(o, files)
    ensures var r := Downloaded(hash, o, files, s);
      && (r.outcome == Failed(BadSize) <==> !Reasonable(o, s.accSize))
      && (r.outcome == Failed(NoSpace) <==> Reasonable(o, s.accSize) && !s.space)
      && (r.outcome == Failed(BadSize) || r.outcome == Failed(NoSpace) ==> r.files == files)
      && (Reasonable(o, s.accSize) && s.space && !s.fate.open ==> r == Result(files, Failed(OpenFailed)))
  {
    if Reasonable(o, s.accSize) && s.space {
      StreamFailures(hash, JobOf(o, s.accSize), files, ResumeOffset(files, o.partial, o.size), s.inputs, s.fate);
      hide PullStream;
    }
  }

  lemma StreamFailures(hash: Bytes -> Bytes, job: Job, files: Files, offset: nat, inputs: seq<Input>, fate: Fate)
    ensures var r := PullStream(hash, job, files, offset, inputs, fate);
      && r.outcome != Failed(BadSize) && r.outcome != Failed(NoSpace)
      && (r.outcome.Placed? ==> job.partial in r.files)
      && (!fate.open ==> r == Result(files, Failed(OpenFailed)))
  {
    hide Absorb;
  }

  predicate Goes(o: Order, files: Files, s: Session) {
    Free(o, files) && Reasonable(o, s.accSize) && s.space && s.fate.open
  }

  lemma PullCourse(hash: Bytes -> Bytes, o: Order, files: Files, s: Session, first: seq<Input>,
                   payloads: seq<Bytes>, rest: seq<Input>)
    requires Goes(o, files, s) && s.inputs == first + rest && Delivers(first, payloads)
    requires var have := Have(files, o.partial, o.size, payloads);
      |have| <= Agreed(o, s.accSize) && Stops(have, Agreed(o, s.accSize), rest)
    ensures Plausible(o, s.accSize)
    ensures var have := Have(files, o.partial, o.size, payloads);
      PullStream(hash, JobOf(o, s.accSize), files, ResumeOffset(files, o.partial, o.size), s.inputs, s.fate)
      == ConcludePull(hash, JobOf(o, s.accSize), files[o.partial := have],
                      Stream(have, if rest == [] then Cut else rest[0]), s.fate)
  {
    LeftoverIsBase(files, o.partial, o.size);
    AbsorbDelivered(Leftover(files, o.partial, o.size), Agreed(o, s.accSize), first, payloads, rest);
    hide Absorb, ConcludePull, Leftover, Concat, Delivers, Base, Stops;
  }

  lemma DownloadCourse(hash: Bytes -> Bytes, o: Order, files: Files, s: Session, first: seq<Input>,
                       payloads: seq<Bytes>, rest: seq<Input>)
    requires Goes(o, files, s) && s.inputs == first + rest && Delivers(first, payloads)
    requires var have := Have(files, o.partial, o.size, payloads);
      |have| <= Agreed(o, s.accSize) && Stops(have, Agreed(o, s.accSize), rest)
    ensures Plausible(o, s.accSize)
    ensures var have := Have(files, o.partial, o.size, payloads);
      var r := ConcludePull(hash, JobOf(o, s.accSize), files[o.partial := have],
                            Stream(have, if rest == [] then Cut else rest[0]), s.fate);
      (r.outcome.Placed? ==> o.partial in r.files) && Downloaded(hash, o, files, s) == Settled(o, r, s.fate, s.reply)
  {
    PullCourse(hash, o, files, s, first, payloads, rest);
    StreamFailures(hash, JobOf(o, s.accSize), files, ResumeOffset(files, o.partial, o.size), s.inputs, s.fate);
    hide PullStream, ConcludePull, Settled, Have, Delivers, Stops, ResumeOffset;
  }

  /**
   * A pull that breaks off in any way, a cancel included, keeps exactly what it resumed and what came in, and the next
   * one asks for what follows; so does a stream that ends too early, and one that the disk has no more room for.
   */
  lemma BrokenPullKeeps(hash: Bytes -> Bytes, o: Order, files: Files, s: Session, first: seq<Input>,
                        payloads: seq<Bytes>, rest: seq<Input>)
    requires Goes(o, files, s) && s.inputs == first + rest && Delivers(first, payloads)
    requires |Have(files, o.partial, o.size, payloads)| <= Agreed(o, s.accSize)
    ensures var have := Have(files, o.partial, o.size, payloads);
      var r := Downloaded(hash, o, files, s);
      var kept := files[o.partial := have];
      && (BreaksOff(rest) || rest[0].Cancel? ==>
            r == Result(kept, Failed(if rest != [] && rest[0].Cancel? then Cancelled else ReadError)))
      && (rest != [] && rest[0].Arrive? && rest[0].frame.typ == 6 && |have| < Agreed(o, s.accSize) ==>
            r == Result(kept, Failed(Incomplete)))
      && (|have| < o.size ==> ResumeOffset(kept, o.partial, o.size) == |have|)
      && (rest != [] && rest[0].Arrive? && rest[0].frame.typ == 5 && rest[0].room < |rest[0].frame.payload|
          && |have| + |rest[0].frame.payload| <= Agreed(o, s.accSize) ==>
            r == Result(files[o.partial := have + rest[0].frame.payload[..rest[0].room]], Failed(WriteError)))
  {
    if Stops(Have(files, o.partial, o.size, payloads), Agreed(o, s.accSize), rest) {
      DownloadCourse(hash, o, files, s, first, payloads, rest);
    }
    hide Downloaded, Have, Delivers, PlaceFile;
  }

  /** A stream that is too long, or has a frame of another type, takes the partial with it. */
  lemma BadPullDrops(hash: Bytes -> Bytes, o: Order, files: Files, s: Session, first: seq<Input>,
                     payloads: seq<Bytes>, rest: seq<Input>)
    requires Goes(o, files, s) && s.inputs == first + rest && Delivers(first, payloads)
    requires |Have(files, o.partial, o.size, payloads)| <= Agreed(o, s.accSize)
    requires rest != [] && rest[0].Arrive?
    ensures var have := Have(files, o.partial, o.size, payloads);
      var r := Downloaded(hash, o, files, s);
      var gone := if s.fate.remove then files - {o.partial} else files[o.partial := have];
      var typ, payload := rest[0].frame.typ, rest[0].frame.payload;
      && (typ == 5 && |have| + |payload| > Agreed(o, s.accSize) ==> r == Result(gone, Failed(Exceeded)))
      && (typ != 5 && typ != 6 ==> r == Result(gone, Failed(Unexpected)))
  {
    if Stops(Have(files, o.partial, o.size, payloads), Agreed(o, s.accSize), rest) {
      DownloadCourse(hash, o, files, s, first, payloads, rest);
    }
    hide Downloaded, Have, Delivers, PlaceFile;
    RemovedAfterWrite(files, o.partial, Have(files, o.partial, o.size, payloads));
  }

  /**
   * A complete pull without a report is kept whole, one with another digest in its report is dropped, and one with the
   * same digest, or none, is placed when everything works.
   */
  lemma CompletePullIsPlaced(hash: Bytes -> Bytes, o: Order, files: Files, s: Session, first: seq<Input>,
                             payloads: seq<Bytes>, rest: seq<Input>)
    requires Goes(o, files, s) && s.inputs == first + rest && Delivers(first, payloads)
    requires |Have(files, o.partial, o.size, payloads)| == Agreed(o, s.accSize)
    requires rest != [] && rest[0].Arrive? && rest[0].frame.typ == 6
    ensures var have := Have(files, o.partial, o.size, payloads);
      var r := Downloaded(hash, o, files, s);
      var kept := files[o.partial := have];
      && (s.reply.NoReply? && s.fate.sync && s.fate.close ==> r == Result(kept, Failed(ReadError)))
      && (s.reply.Done? && s.reply.sum != [] && s.reply.sum != hash(have) && s.fate.sync && s.fate.close ==>
            r == Result(if s.fate.remove then files - {o.partial} else kept, Failed(Mismatch)))
      && (s.reply.Done? && (s.reply.sum == [] || s.reply.sum == hash(have)) ==>
            Settles(hash, have, o.partial, o.out, o.overwrite, files, s.fate, r))
  {
    var have := Have(files, o.partial, o.size, payloads);
    DownloadCourse(hash, o, files, s, first, payloads, rest);
    hide Downloaded, Have, Delivers;
    RemovedAfterWrite(files, o.partial, have);
  }

  /**
   * A whole session with an honest broadcaster of a file no larger than advertised, from nothing or from a part of that
   * file, places exactly that file.
   */
  lemma GoodPullSucceeds(hash: Bytes -> Bytes, o: Order, files: Files, body: Bytes, s: Session)
    requires Free(o, files) && Leftover(files, o.partial, o.size) <= body
    requires 0 < |body| <= 1_099_511_627_776 && (o.size <= 0 || |body| <= o.size)
    requires WholeSession(hash, o, files, body, s)
    ensures Downloaded(hash, o, files, s)
         == Result((files - {o.partial})[o.out := body], Placed(|body|, hash(body)))
  {
    var had := Leftover(files, o.partial, o.size);
    LeftoverIsBase(files, o.partial, o.size);
    assert had + body[|had|..] == body;
    StalePartialDiscarded(hash, o, files, body, s);
    DownloadTells(hash, o, files, s);
    hide Downloaded, WholeSession, Leftover;
  }

  /** What Download reports is what it has placed. */
  lemma DownloadTells(hash: Bytes -> Bytes, o: Order, files: Files, s: Session)
    requires o.partial != o.out
    ensures var r := Downloaded(hash, o, files, s);
      r.outcome.Placed? ==> o.out in r.files && r.outcome == Placed(|r.files[o.out]|, hash(r.files[o.out]))
  {
    if Plausible(o, s.accSize) {
      var offset := ResumeOffset(files, o.partial, o.size);
      PlacedKeepsPartial(hash, JobOf(o, s.accSize), files, offset, s.inputs, s.fate);
      hide PullStream;
    }
  }

  // ---- pulls that go on from each other ----

  predicate BreaksPull(o: Order, total: int, e: PullEvent, payloads: seq<Bytes>) {
    && e.Fetch? && Agreed(o, e.session.accSize) == total && e.session.space && e.session.fate.open
    && var inputs := e.session.inputs;
    && |payloads| <= |inputs| && Delivers(inputs[..|payloads|], payloads)
    && (BreaksOff(inputs[|payloads|..]) || inputs[|payloads|].Cancel?)
  }

  lemma BrokenPull(hash: Bytes -> Bytes, o: Order, st: PullState, e: PullEvent, payloads: seq<Bytes>)
    requires Free(o, st.files) && 0 < o.size <= 1_099_511_627_776 && BreaksPull(o, o.size, e, payloads)
    requires |Have(st.files, o.partial, o.size, payloads)| < o.size
    ensures PullStep(hash, o, st, e)
         == st.(files := st.files[o.partial := Have(st.files, o.partial, o.size, payloads)])
  {
    var first, rest := e.session.inputs[..|payloads|], e.session.inputs[|payloads|..];
    assert e.session.inputs == first + rest;
    BrokenPullKeeps(hash, o, st.files, e.session, first, payloads, rest);
    hide Downloaded, Have, Delivers;
  }

  /** The same of pulls: what any number of broken ones brought is there, once and in order, and the next goes on. */
  lemma {:induction false} BrokenPullsAddUp(hash: Bytes -> Bytes, o: Order, st: PullState, events: seq<PullEvent>,
                                            brought: seq<seq<Bytes>>)
    requires Free(o, st.files) && 0 < o.size <= 1_099_511_627_776
    requires |events| == |brought| && forall i :: 0 <= i < |events| ==> BreaksPull(o, o.size, events[i], brought[i])
    requires |Leftover(st.files, o.partial, o.size) + All(brought)| < o.size
    ensures var have := Leftover(st.files, o.partial, o.size) + All(brought);
      var end := PullRun(hash, o, st, events);
      && (events != [] ==> end == st.(files := st.files[o.partial := have]))
      && Leftover(end.files, o.partial, o.size) == have
      && ResumeOffset(end.files, o.partial, o.size) == |have|
    decreases |events|
  {
    var had := Leftover(st.files, o.partial, o.size);
    if events == [] {
      assert had + [] == had;
    } else {
      var e, now := events[0], had + Concat(brought[0]);
      assert BreaksPull(o, o.size, e, brought[0]);
      assert had + All(brought) == now + All(brought[1..]);
      BrokenPull(hash, o, st, e, brought[0]);
      LeftoverAfter(st.files, o.partial, o.size, now);
      hide PullStep, BreaksPull, Leftover, Concat, ResumeOffset;
      var st' := st.(files := st.files[o.partial := now]);
      BrokenPullsAddUp(hash, o, st', events[1..], brought[1..]);
      assert st'.files[o.partial := now + All(brought[1..])] == st.files[o.partial := now + All(brought[1..])];
    }
  }

  /** And when the rest follows, exactly the file is placed. */
  lemma BrokenPullsFinish(hash: Bytes -> Bytes, o: Order, body: Bytes, st: PullState, events: seq<PullEvent>,
                          brought: seq<seq<Bytes>>, s: Session)
    requires Free(o, st.files) && o.size == |body| && 0 < |body| <= 1_099_511_627_776
    requires |events| == |brought| && forall i :: 0 <= i < |events| ==> BreaksPull(o, o.size, events[i], brought[i])
    requires Leftover(st.files, o.partial, o.size) + All(brought) < body
    requires WholeSession(hash, o, PullRun(hash, o, st, events).files, body, s)
    ensures var mid := PullRun(hash, o, st, events);
      Downloaded(hash, o, mid.files, s) == Result((st.files - {o.partial})[o.out := body], Placed(|body|, hash(body)))
  {
    var have := Leftover(st.files, o.partial, o.size) + All(brought);
    BrokenPullsAddUp(hash, o, st, events, brought);
    if events == [] { assert PullRun(hash, o, st, events) == st; }
    hide PullRun, Leftover, All, BreaksPull, WholeSession, ResumeOffset, Downloaded;
    var mid := PullRun(hash, o, st, events);
    SameWithout(st.files, mid.files, o.partial, have);
    GoodPullSucceeds(hash, o, mid.files, body, s);
  }

  // ---- a push without resume ----

  /** It starts from nothing; complete, it is placed like any other, and after any other ending nothing is left. */
  lemma OneShotEndings(hash: Bytes -> Bytes, job: Job, files: Files, first: seq<Input>, payloads: seq<Bytes>,
                       rest: seq<Input>, fate: Fate)
    requires job.partial !in files && job.partial != job.out && fate.open
    requires Delivers(first, payloads) && |Concat(payloads)| <= job.total && Stops(Concat(payloads), job.total, rest)
    ensures var have := Concat(payloads);
      var r := OneShot(hash, job, files, first + rest, fate);
      if rest != [] && rest[0].Arrive? && rest[0].frame.typ == 6 && |have| == job.total
         && fate.sync && fate.close && fate.place
         && (job.overwrite || (fate.rival.None? && job.out !in files))
      then
        && r.outcome == Placed(|have|, hash(have))
        && r.files == (if job.overwrite || fate.remove then files else files[job.partial := have])[job.out := have]
      else r.outcome.Failed? && (fate.remove ==> job.partial !in r.files && SameElsewhere(job, files, r.files))
  {
    AbsorbDelivered([], job.total, first, payloads, rest);
    assert [] + Concat(payloads) == Concat(payloads);
    hide Absorb, Delivers, Concat;
    assert files[job.partial := Concat(payloads)] - {job.partial} == files;
  }
}
