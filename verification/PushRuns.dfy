/**
 * A resumable push over whole runs: any number of attempts on one (digest, name, size), each ending anywhere, with
 * other programs at work on the disk in between. One transfer at a time uses the partial (see the README).
 */
module PushRuns {
  import opened Bytes
  import opened Streams
  import opened LanFrames
  import opened Transfers

  /** Where to go on: after what is there, as long as that is something and less than the whole. */
  function ResumeOffset(files: Files, p: Path, total: int): nat {
    if p in files && 0 < |files[p]| < total then |files[p]| else 0
  }

  datatype Event =
    | Try(inputs: seq<Input>, fate: Fate) // a sender connects and is approved
    | Sweep                               // the partial is deleted
    | Others(files: Files)                // other programs leave every other path as in `files`
    | Tamper(content: Bytes)              // something replaces the partial

  datatype State = State(files: Files, placed: seq<Bytes>, mismatches: nat)

  function Untouched(files: Files, p: Path): Files {
    if p in files then map[p := files[p]] else map[]
  }

  /** handleConn from its destination check on. */
  function HandlePush(hash: Bytes -> Bytes, job: Job, files: Files, inputs: seq<Input>, fate: Fate): Result
    requires job.partial != job.out
  {
    if job.out in files && !job.overwrite then Result(files, Failed(PlaceFailed))
    else PushAttempt(hash, job, files, ResumeOffset(files, job.partial, job.total), inputs, fate)
  }

  /** The tail of handleConn for a resumable push. */
  method ReceivePush(disk: Disk, hash: Bytes -> Bytes, job: Job, inputs: seq<Input>, fate: Fate)
    returns (outcome: Outcome)
    requires job.partial != job.out
    modifies disk
    ensures Result(disk.files, outcome) == HandlePush(hash, job, old(disk.files), inputs, fate)
  {
    hide PushAttempt;
    if job.out in disk.files && !job.overwrite { return Failed(PlaceFailed); }
    var offset := ResumeOffset(disk.files, job.partial, job.total);
    outcome := disk.ReceiveResumableToFile(hash, job, offset, inputs, fate);
  }

  function Step(hash: Bytes -> Bytes, job: Job, st: State, e: Event): State
    requires job.partial != job.out
  {
    match e
    case Try(inputs, fate) =>
      var r := HandlePush(hash, job, st.files, inputs, fate);
      State(r.files,
            if r.outcome.Placed? && job.out in r.files then st.placed + [r.files[job.out]] else st.placed,
            if r.outcome == Failed(Mismatch) then st.mismatches + 1 else st.mismatches)
    case Sweep => st.(files := st.files - {job.partial})
    case Others(o) => st.(files := (o - {job.partial}) + Untouched(st.files, job.partial))
    case Tamper(c) => st.(files := st.files[job.partial := c])
  }

  function Run(hash: Bytes -> Bytes, job: Job, st: State, events: seq<Event>): State
    requires job.partial != job.out
    decreases |events|
  {
    if events == [] then st else Run(hash, job, Step(hash, job, st, events[0]), events[1..])
  }

  // ---- one attempt ----

  predicate SameAt(q: Path, a: Files, b: Files) {
    (q in a <==> q in b) && (q in a ==> a[q] == b[q])
  }

  lemma {:induction false} AbsorbBounded(c: Bytes, total: nat, inputs: seq<Input>)
    requires |c| <= total
    ensures c <= Absorb(c, total, inputs).content && |Absorb(c, total, inputs).content| <= total
    ensures !Absorbs(Absorb(c, total, inputs).content, total, Absorb(c, total, inputs).stop)
    decreases |inputs|
  {
    if inputs != [] && Absorbs(c, total, inputs[0]) {
      AbsorbBounded(c + inputs[0].frame.payload, total, inputs[1..]);
    }
  }

  /** No path but the partial and the destination differs. */
  ghost predicate SameElsewhere(job: Job, a: Files, b: Files) {
    forall q :: q != job.partial && q != job.out ==> SameAt(q, a, b)
  }

  lemma SameElsewhereAfter(job: Job, a: Files, c: Bytes, b: Files)
    requires SameElsewhere(job, a[job.partial := c], b)
    ensures SameElsewhere(job, a, b)
  {
    forall q | q != job.partial && q != job.out ensures SameAt(q, a, b) {
      assert SameAt(q, a[job.partial := c], b);
    }
  }

  lemma ConcludeSafe(hash: Bytes -> Bytes, job: Job, files: Files, s: Stream, fate: Fate)
    requires job.partial in files && job.partial != job.out && files[job.partial] == s.content
    requires |s.content| <= job.total && !Absorbs(s.content, job.total, s.stop)
    ensures var r := ConcludePush(hash, job, files, s, fate);
      && (r.outcome.Placed? ==> RightlyPlaced(hash, job, r))
      && (job.partial in r.files ==> |r.files[job.partial]| <= job.total)
      && SameElsewhere(job, files, r.files)
  {
  }

  predicate RightlyPlaced(hash: Bytes -> Bytes, job: Job, r: Result) {
    && r.outcome.Placed?
    && job.out in r.files && |r.files[job.out]| == job.total == r.outcome.bytes
    && hash(r.files[job.out]) == r.outcome.sum && (job.want != [] ==> r.outcome.sum == job.want)
  }

  /**
   * Whatever the sender does and wherever the attempt is cut: a placed file has the declared size and digest, and its
   * partial is the only other path touched, which never outgrows the declared size once the attempt has opened it.
   * Since `inputs` is arbitrary, this holds after every single write. A path stands for its file here: that no other
   * name leads to the partial's file is assumed (see SharedNames).
   */
  lemma AttemptSafe(hash: Bytes -> Bytes, job: Job, files: Files, inputs: seq<Input>, fate: Fate)
    requires job.partial != job.out
    ensures var r := HandlePush(hash, job, files, inputs, fate);
      && (r.outcome.Placed? ==> RightlyPlaced(hash, job, r))
      && (r.files == files || (job.partial in r.files ==> |r.files[job.partial]| <= job.total))
      && SameElsewhere(job, files, r.files)
  {
    assert SameElsewhere(job, files, files);
    if !(job.out in files && !job.overwrite) {
      var offset := ResumeOffset(files, job.partial, job.total);
      var base := Base(files, job.partial, offset);
      AbsorbBounded(base, job.total, inputs);
      hide Absorb, ConcludePush, Absorbs;
      var s := Absorb(base, job.total, inputs);
      ConcludeSafe(hash, job, files[job.partial := s.content], s, fate);
      hide RightlyPlaced, SameElsewhere;
      var r := ConcludePush(hash, job, files[job.partial := s.content], s, fate);
      SameElsewhereAfter(job, files, s.content, r.files);
    }
  }

  /**
   * Without overwrite an existing destination keeps its content, and so does one that another program creates between
   * the check and the link.
   */
  lemma NeverClobbers(hash: Bytes -> Bytes, job: Job, files: Files, inputs: seq<Input>, fate: Fate)
    requires job.partial != job.out && !job.overwrite
    ensures var r := HandlePush(hash, job, files, inputs, fate);
      && (job.out in files ==> r.files == files && !r.outcome.Placed?)
      && (fate.rival.Some? ==> !r.outcome.Placed?)
      && (fate.rival.Some? && job.out !in files && job.out in r.files ==> r.files[job.out] == fate.rival.value)
  {
    hide Absorb;
  }

  /** With or without overwrite, an attempt that does not place its file leaves the destination to the others. */
  lemma FailureLeavesDestination(hash: Bytes -> Bytes, job: Job, files: Files, inputs: seq<Input>, fate: Fate)
    requires job.partial != job.out
    ensures var r := HandlePush(hash, job, files, inputs, fate);
      !r.outcome.Placed? ==>
        || SameAt(job.out, files, r.files)
        || (fate.rival.Some? && job.out in r.files && r.files[job.out] == fate.rival.value)
  {
    hide Absorb, Absorbs, Base;
  }

  /**
   * Whatever a rival puts at the destination before the link, a one-shot push leaves it, or the file that was there.
   */
  lemma OneShotLeavesRival(hash: Bytes -> Bytes, job: Job, files: Files, inputs: seq<Input>, fate: Fate)
    requires job.partial !in files && job.partial != job.out && !job.overwrite && fate.rival.Some?
    ensures var r := OneShot(hash, job, files, inputs, fate);
      job.out in r.files ==>
        r.files[job.out] == fate.rival.value || (job.out in files && r.files[job.out] == files[job.out])
  {
    hide Absorb, Absorbs;
  }

  /**
   * The one-shot push: a placed file has the declared size and the reported digest, no write goes past that size, a
   * failure leaves no temp file behind, and without overwrite an existing destination is never changed.
   */
  lemma OneShotSafe(hash: Bytes -> Bytes, job: Job, files: Files, inputs: seq<Input>, fate: Fate)
    requires job.partial !in files && job.partial != job.out
    ensures var r := OneShot(hash, job, files, inputs, fate);
      && (r.outcome.Placed? ==>
            && job.out in r.files && |r.files[job.out]| == job.total == r.outcome.bytes
            && hash(r.files[job.out]) == r.outcome.sum)
      && (job.partial in r.files ==> |r.files[job.partial]| <= job.total)
      && (!r.outcome.Placed? && fate.remove ==> job.partial !in r.files)
      && (!job.overwrite && job.out in files && fate.rival.None? ==>
            !r.outcome.Placed? && SameAt(job.out, files, r.files))
      && (!job.overwrite && fate.rival.Some? ==> !r.outcome.Placed?)
      && (!job.overwrite && fate.rival.Some? && job.out in r.files ==>
            r.files[job.out] == fate.rival.value || (job.out in files && r.files[job.out] == files[job.out]))
  {
    AbsorbBounded([], job.total, inputs);
    if !job.overwrite && fate.rival.Some? { OneShotLeavesRival(hash, job, files, inputs, fate); }
    hide Absorb;
  }

  /** An honest one-shot push places exactly the sender's content. */
  lemma OneShotHonest(hash: Bytes -> Bytes, job: Job, body: Bytes, files: Files, inputs: seq<Input>, fate: Fate)
    requires job.partial !in files && job.partial != job.out && job.total == |body| && Honest(inputs, body)
    ensures var r := OneShot(hash, job, files, inputs, fate);
      r.outcome.Placed? ==> job.out in r.files && r.files[job.out] == body
  {
    assert body[0..] == body;
    HonestAbsorb([], body, |body|, inputs);
    hide Absorb, Honest;
    PrefixOfBody([], Absorb([], |body|, inputs).content, body);
  }

  // ---- every run ----

  predicate Right(hash: Bytes -> Bytes, job: Job, placed: seq<Bytes>) {
    forall i :: 0 <= i < |placed| ==> |placed[i]| == job.total && (job.want != [] ==> hash(placed[i]) == job.want)
  }

  /** Over every run, tampering included, every file placed has exactly the declared size and digest. */
  lemma {:induction false} EveryPlacementRight(hash: Bytes -> Bytes, job: Job, st: State, events: seq<Event>)
    requires job.partial != job.out && Right(hash, job, st.placed)
    ensures Right(hash, job, Run(hash, job, st, events).placed)
    decreases |events|
  {
    if events != [] {
      if events[0].Try? {
        AttemptSafe(hash, job, st.files, events[0].inputs, events[0].fate);
      }
      hide HandlePush;
      EveryPlacementRight(hash, job, Step(hash, job, st, events[0]), events[1..]);
    }
  }

  // ---- honest senders ----

  /** What an honest sender with `tail` still to send can make the receiver meet, cut anywhere. */
  predicate Honest(inputs: seq<Input>, tail: Bytes)
    decreases |inputs|
  {
    inputs == [] || match inputs[0]
      case Cancel(_) => true
      case Cut => true
      case Arrive(f, _) =>
        if f.typ == MSG_DATA then f.payload <= tail && Honest(inputs[1..], tail[|f.payload|..])
        else f.typ == MSG_EOF && tail == []
  }

  lemma {:induction false} HonestAbsorb(c: Bytes, body: Bytes, total: nat, inputs: seq<Input>)
    requires |c| <= |body| <= total && Honest(inputs, body[|c|..])
    ensures var s := Absorb(c, total, inputs);
      && c <= s.content && |s.content| <= |body| && s.content[|c|..] == body[|c|..|s.content|]
      && HonestStop(s, body)
    decreases |inputs|
  {
    if inputs != [] && Absorbs(c, total, inputs[0]) {
      var p := inputs[0].frame.payload;
      NextPiece(c, p, body);
      HonestAbsorb(c + p, body, total, inputs[1..]);
      hide Absorb, Honest;
      Spliced(c, p, body, Absorb(c + p, total, inputs[1..]).content);
    }
  }

  lemma NextPiece(c: Bytes, p: Bytes, body: Bytes)
    requires |c| <= |body| && p <= body[|c|..]
    ensures |c + p| <= |body| && body[|c|..][|p|..] == body[|c + p|..]
  {
  }

  lemma Spliced(c: Bytes, p: Bytes, body: Bytes, content: Bytes)
    requires c + p <= content && |content| <= |body| && p <= body[|c|..]
    requires content[|c + p|..] == body[|c + p|..|content|]
    ensures c <= content && content[|c|..] == body[|c|..|content|]
  {
    assert content[|c|..] == p + content[|c + p|..];
    assert body[|c|..|content|] == body[|c|..][..|p|] + body[|c + p|..|content|];
  }

  /** What can stop an honest stream whose content matches body's length so far. */
  predicate HonestStop(s: Stream, body: Bytes) {
    |s.content| <= |body| &&
    (s.stop.Arrive? ==>
      if s.stop.frame.typ == MSG_DATA
      then s.stop.frame.payload <= body[|s.content|..] && s.stop.room < |s.stop.frame.payload|
      else s.stop.frame.typ == MSG_EOF && |s.content| == |body|)
  }

  /** The attempts of a run are all made by senders streaming `body` from the offset they are given. */
  predicate HonestRun(hash: Bytes -> Bytes, job: Job, body: Bytes, st: State, events: seq<Event>)
    requires job.partial != job.out && job.total == |body|
    decreases |events|
  {
    events == [] ||
    ((match events[0]
      case Try(inputs, _) => Honest(inputs, body[ResumeOffset(st.files, job.partial, job.total)..])
      case Tamper(_) => false
      case _ => true)
     && HonestRun(hash, job, body, Step(hash, job, st, events[0]), events[1..]))
  }

  predicate Prefixed(job: Job, body: Bytes, files: Files) {
    job.partial in files ==> files[job.partial] <= body
  }

  lemma PrefixOfBody(c: Bytes, s: Bytes, body: Bytes)
    requires c <= body && c <= s && |s| <= |body| && s[|c|..] == body[|c|..|s|]
    ensures s <= body
  {
    assert s == c + s[|c|..];
    assert body[..|s|] == body[..|c|] + body[|c|..|s|];
  }

  lemma AppendPrefix(c: Bytes, p: Bytes, body: Bytes, k: nat)
    requires c <= body && p <= body[|c|..] && k <= |p|
    ensures c + p[..k] <= body
  {
    assert body == c + body[|c|..];
    assert p[..k] == body[|c|..][..k];
  }

  lemma ConcludeHonest(hash: Bytes -> Bytes, job: Job, body: Bytes, files: Files, s: Stream, fate: Fate)
    requires job.partial in files && job.partial != job.out && files[job.partial] == s.content <= body
    requires job.total == |body| && (job.want != [] ==> job.want == hash(body))
    requires HonestStop(s, body)
    ensures var r := ConcludePush(hash, job, files, s, fate);
      && Prefixed(job, body, r.files) && r.outcome != Failed(Mismatch)
      && (r.outcome.Placed? ==> job.out in r.files && r.files[job.out] == body)
  {
    assert |s.content| == |body| ==> s.content == body;
    if s.stop.Arrive? && s.stop.frame.typ == MSG_DATA {
      AppendPrefix(s.content, s.stop.frame.payload, body, Min(|s.stop.frame.payload|, s.stop.room));
    }
  }

  lemma HonestAttempt(hash: Bytes -> Bytes, job: Job, body: Bytes, files: Files, inputs: seq<Input>, fate: Fate)
    requires job.partial != job.out && job.total == |body| && (job.want != [] ==> job.want == hash(body))
    requires Prefixed(job, body, files)
    requires Honest(inputs, body[ResumeOffset(files, job.partial, job.total)..])
    ensures var r := HandlePush(hash, job, files, inputs, fate);
      && Prefixed(job, body, r.files) && r.outcome != Failed(Mismatch)
      && (r.outcome.Placed? ==> job.out in r.files && r.files[job.out] == body)
  {
    var offset := ResumeOffset(files, job.partial, job.total);
    var base := Base(files, job.partial, offset);
    assert base <= body && |base| == offset;
    HonestAbsorb(base, body, |body|, inputs);
    hide Absorb, Honest, ConcludePush;
    var s := Absorb(base, |body|, inputs);
    PrefixOfBody(base, s.content, body);
    ConcludeHonest(hash, job, body, files[job.partial := s.content], s, fate);
  }

  /**
   * When every sender streams the declared content, the kept partial is a prefix of it in every reachable state, no
   * attempt fails its digest check, and every file placed is exactly that content. Nothing is assumed of the hash.
   */
  lemma {:induction false} HonestRunKeepsPrefix(hash: Bytes -> Bytes, job: Job, body: Bytes, st: State,
                                                events: seq<Event>)
    requires job.partial != job.out && job.total == |body| && (job.want != [] ==> job.want == hash(body))
    requires HonestRun(hash, job, body, st, events) && Prefixed(job, body, st.files)
    requires forall i :: 0 <= i < |st.placed| ==> st.placed[i] == body
    ensures var end := Run(hash, job, st, events);
      && Prefixed(job, body, end.files) && end.mismatches == st.mismatches
      && forall i :: 0 <= i < |end.placed| ==> end.placed[i] == body
    decreases |events|
  {
    if events != [] {
      if events[0].Try? {
        HonestAttempt(hash, job, body, st.files, events[0].inputs, events[0].fate);
      }
      hide HandlePush;
      HonestRunKeepsPrefix(hash, job, body, Step(hash, job, st, events[0]), events[1..]);
    }
  }

  // ---- self-healing ----

  predicate Removable(events: seq<Event>) {
    forall e :: e in events ==> e.Try? ==> e.fate.remove
  }

  /** A mismatch takes the partial with it. */
  lemma MismatchDrops(hash: Bytes -> Bytes, job: Job, files: Files, inputs: seq<Input>, fate: Fate)
    requires job.partial != job.out && fate.remove
    requires HandlePush(hash, job, files, inputs, fate).outcome == Failed(Mismatch)
    ensures job.partial !in HandlePush(hash, job, files, inputs, fate).files
  {
    hide Absorb;
  }

  /**
   * Whatever the partial holds to begin with, honest senders pay for it at most once: a run of theirs has at most one
   * attempt that fails its digest check.
   */
  lemma {:induction false} AtMostOneMismatch(hash: Bytes -> Bytes, job: Job, body: Bytes, st: State, events: seq<Event>)
    requires job.partial != job.out && job.total == |body| && (job.want != [] ==> job.want == hash(body))
    requires HonestRun(hash, job, body, st, events) && Removable(events)
    ensures Run(hash, job, st, events).mismatches <= st.mismatches + 1
    decreases |events|
  {
    if events != [] {
      var e, st' := events[0], Step(hash, job, st, events[0]);
      assert e in events;
      assert Removable(events[1..]) by { assert forall d :: d in events[1..] ==> d in events; }
      if st'.mismatches > st.mismatches {
        MismatchDrops(hash, job, st.files, e.inputs, e.fate);
        MismatchesIgnorePlaced(hash, job, body, st', st'.(placed := []), events[1..]);
        HonestRunKeepsPrefix(hash, job, body, st'.(placed := []), events[1..]);
      } else {
        AtMostOneMismatch(hash, job, body, st', events[1..]);
      }
    }
  }

  lemma {:induction false} MismatchesIgnorePlaced(
      hash: Bytes -> Bytes, job: Job, body: Bytes, a: State, b: State, events: seq<Event>)
    requires job.partial != job.out && job.total == |body|
    requires a.files == b.files && a.mismatches == b.mismatches
    ensures Run(hash, job, a, events).mismatches == Run(hash, job, b, events).mismatches
    ensures HonestRun(hash, job, body, a, events) == HonestRun(hash, job, body, b, events)
    ensures Run(hash, job, a, events).files == Run(hash, job, b, events).files
    decreases |events|
  {
    if events != [] {
      hide HandlePush, Honest;
      var a', b' := Step(hash, job, a, events[0]), Step(hash, job, b, events[0]);
      MismatchesIgnorePlaced(hash, job, body, a', b', events[1..]);
    }
  }

  /** All of `tail` arrives, the disk takes it, and the end of stream follows. */
  predicate Uninterrupted(inputs: seq<Input>, tail: Bytes)
    decreases |inputs|
  {
    inputs != [] && inputs[0].Arrive? &&
    var f := inputs[0].frame;
    if f.typ == MSG_DATA
    then f.payload <= tail && |f.payload| <= inputs[0].room && Uninterrupted(inputs[1..], tail[|f.payload|..])
    else f.typ == MSG_EOF && tail == []
  }

  predicate Smooth(fate: Fate) {
    fate.open && fate.sync && fate.close && fate.place && fate.remove && fate.rival.None?
  }

  lemma {:induction false} UninterruptedAbsorb(c: Bytes, tail: Bytes, total: nat, inputs: seq<Input>)
    requires Uninterrupted(inputs, tail) && |c| + |tail| <= total
    ensures var s := Absorb(c, total, inputs);
      s.content == c + tail && s.stop.Arrive? && s.stop.frame.typ == MSG_EOF
    decreases |inputs|
  {
    var p := inputs[0].frame.payload;
    if inputs[0].frame.typ == MSG_DATA {
      UninterruptedAbsorb(c + p, tail[|p|..], total, inputs[1..]);
      assert tail == p + tail[|p|..];
      assert c + p + tail[|p|..] == c + tail;
    }
  }

  /**
   * An honest attempt that runs to its end places the file exactly when the resumed content has the declared digest,
   * and otherwise clears the partial away. A full-size or over-long partial is not resumed at all.
   */
  lemma WholeAttempt(hash: Bytes -> Bytes, job: Job, body: Bytes, files: Files, inputs: seq<Input>, fate: Fate)
    requires job.partial != job.out && job.total == |body| && job.want == hash(body) != []
    requires Smooth(fate) && (job.out !in files || job.overwrite)
    requires Uninterrupted(inputs, body[ResumeOffset(files, job.partial, job.total)..])
    ensures var offset := ResumeOffset(files, job.partial, job.total);
      var whole := Base(files, job.partial, offset) + body[offset..];
      var r := HandlePush(hash, job, files, inputs, fate);
      if hash(whole) == hash(body)
      then r.outcome.Placed? && r.files == (files - {job.partial})[job.out := whole]
      else r.outcome == Failed(Mismatch) && r.files == files - {job.partial}
  {
    var offset := ResumeOffset(files, job.partial, job.total);
    var base := Base(files, job.partial, offset);
    UninterruptedAbsorb(base, body[offset..], |body|, inputs);
    hide Absorb, Uninterrupted;
  }

  /**
   * Once a run of honest attempts has met its mismatch, or from a good partial on, the partial is a prefix of the
   * body.
   */
  lemma {:induction false} HealedRun(hash: Bytes -> Bytes, job: Job, body: Bytes, st: State, events: seq<Event>)
    requires job.partial != job.out && job.total == |body| && (job.want != [] ==> job.want == hash(body))
    requires HonestRun(hash, job, body, st, events) && Removable(events)
    requires Prefixed(job, body, st.files) || Run(hash, job, st, events).mismatches > st.mismatches
    ensures Prefixed(job, body, Run(hash, job, st, events).files)
    decreases |events|
  {
    if events != [] {
      var e, st' := events[0], Step(hash, job, st, events[0]);
      assert e in events;
      assert Removable(events[1..]) by { assert forall d :: d in events[1..] ==> d in events; }
      if e.Try? {
        if Prefixed(job, body, st.files) {
          HonestAttempt(hash, job, body, st.files, e.inputs, e.fate);
        } else if st'.mismatches > st.mismatches {
          MismatchDrops(hash, job, st.files, e.inputs, e.fate);
        }
      }
      hide HandlePush, Honest, Removable;
      HealedRun(hash, job, body, st', events[1..]);
    }
  }

  /**
   * Self-healing, from any disk: after any run of honest attempts, cut anywhere, an uninterrupted attempt either places
   * the file or is the run's only mismatch and clears the partial away; and once that has happened, or if the partial
   * was good to begin with, it places exactly the sender's content. So does one that meets no partial to resume.
   */
  lemma SelfHealing(hash: Bytes -> Bytes, job: Job, body: Bytes, st: State, events: seq<Event>,
                    inputs: seq<Input>, fate: Fate)
    requires job.partial != job.out && job.total == |body| && job.want == hash(body) != []
    requires HonestRun(hash, job, body, st, events) && Removable(events)
    requires Smooth(fate) && (job.out !in Run(hash, job, st, events).files || job.overwrite)
    requires Uninterrupted(inputs, body[ResumeOffset(Run(hash, job, st, events).files, job.partial, job.total)..])
    ensures var end := Run(hash, job, st, events);
      var r := HandlePush(hash, job, end.files, inputs, fate);
      && (r.outcome.Placed? || (r.outcome == Failed(Mismatch) && r.files == end.files - {job.partial}))
      && (r.outcome == Failed(Mismatch) ==> end.mismatches == st.mismatches)
      && (Prefixed(job, body, st.files) || end.mismatches > st.mismatches
          || ResumeOffset(end.files, job.partial, job.total) == 0 ==>
            r.outcome.Placed? && r.files == (end.files - {job.partial})[job.out := body])
  {
    var end := Run(hash, job, st, events);
    WholeAttempt(hash, job, body, end.files, inputs, fate);
    if Prefixed(job, body, st.files) || end.mismatches > st.mismatches { HealedRun(hash, job, body, st, events); }
    MismatchesOnlyGrow(hash, job, st, events);
    hide Run, HonestRun, Removable, Prefixed, Smooth;
    HealedAttempt(hash, job, body, end.files, inputs, fate);
    hide HandlePush, Uninterrupted, ResumeOffset, Base;
  }

  lemma HealedAttempt(hash: Bytes -> Bytes, job: Job, body: Bytes, files: Files, inputs: seq<Input>, fate: Fate)
    requires job.partial != job.out && job.total == |body| && job.want == hash(body) != []
    requires Smooth(fate) && (job.out !in files || job.overwrite)
    requires Uninterrupted(inputs, body[ResumeOffset(files, job.partial, job.total)..])
    ensures Prefixed(job, body, files) || ResumeOffset(files, job.partial, job.total) == 0 ==>
      var r := HandlePush(hash, job, files, inputs, fate);
      r.outcome.Placed? && r.files == (files - {job.partial})[job.out := body]
  {
    WholeAttempt(hash, job, body, files, inputs, fate);
    hide HandlePush, Uninterrupted;
    var base := Base(files, job.partial, ResumeOffset(files, job.partial, job.total));
    assert base <= body ==> base + body[|base|..] == body;
  }

  lemma {:induction false} MismatchesOnlyGrow(hash: Bytes -> Bytes, job: Job, st: State, events: seq<Event>)
    requires job.partial != job.out
    ensures Run(hash, job, st, events).mismatches >= st.mismatches
    decreases |events|
  {
    if events != [] {
      hide HandlePush;
      MismatchesOnlyGrow(hash, job, Step(hash, job, st, events[0]), events[1..]);
    }
  }
}
