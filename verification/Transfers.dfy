/**
 * Receiving one file: the three frame loops (push with resume, one-shot push, pull with resume) over a file system
 * that outlives them. `hash` stands for SHA-256 throughout; nothing is assumed of it.
 */
module Transfers {
  import opened Bytes
  import opened Streams
  import opened LanFrames

  type Path = string
  type Files = map<Path, Bytes>

  /** 1 TiB */
  const MAX_TRANSFER_BYTES: nat := 0x100_0000_0000

  /** What one turn of a receive loop meets. */
  datatype Input =
    | Cancel(discard: bool)           // the context is done; discard tells a cancel from a pause
    | Cut                             // reading the next frame fails
    | Arrive(frame: Frame, room: nat) // a frame arrives, and the disk would take `room` more bytes

  /** How the system calls around the loop turn out. A rival file may appear at the destination before placing. */
  datatype Fate = Fate(open: bool, sync: bool, close: bool, place: bool, remove: bool, rival: Option<Bytes>)

  datatype Why =
    | OpenFailed | RehashFailed | Cancelled | ReadError | Exceeded | WriteError | Incomplete | Mismatch
    | SyncFailed | CloseFailed | PlaceFailed | Unexpected
    | BadSize | NoSpace

  datatype Outcome = Placed(bytes: nat, sum: Bytes) | Failed(why: Why)

  datatype Job = Job(partial: Path, out: Path, total: nat, want: Bytes, overwrite: bool)

  // ---- the specification of a loop: absorb what fits, then conclude ----

  predicate Absorbs(c: Bytes, total: nat, input: Input) {
    && input.Arrive? && input.frame.typ == MSG_DATA
    && |c| + |input.frame.payload| <= total && |input.frame.payload| <= input.room
  }

  /** What has been absorbed, and what stopped the absorbing. */
  datatype Stream = Stream(content: Bytes, stop: Input)

  /** Takes the leading data frames that fit and can be written. Running out of inputs is a cut. */
  function Absorb(c: Bytes, total: nat, inputs: seq<Input>): Stream
    decreases |inputs|
  {
    if inputs != [] && Absorbs(c, total, inputs[0])
    then Absorb(c + inputs[0].frame.payload, total, inputs[1..])
    else Stream(c, if inputs == [] then Cut else inputs[0])
  }

  function Removed(files: Files, p: Path, works: bool): Files {
    if works then files - {p} else files
  }

  datatype Result = Result(files: Files, outcome: Outcome)

  /**
   * placeFile: a rename when overwriting, otherwise a hard link, which refuses an existing name, and a remove of the
   * old one. A map from names to contents stands for the disk here, which is right as long as nobody opens the old name
   * between the link and a remove that works; SharedNames has the names and the files apart.
   */
  function PlaceFile(files: Files, tmp: Path, out: Path, overwrite: bool, fate: Fate): (r: (Files, bool))
    requires tmp in files && tmp != out
  {
    var fs := if fate.rival.Some? then files[out := fate.rival.value] else files;
    if overwrite then
      if fate.place then ((fs - {tmp})[out := fs[tmp]], true) else (fs, false)
    else if out in fs || !fate.place then (fs, false)
    else (Removed(fs[out := fs[tmp]], tmp, fate.remove), true)
  }

  /** How receiveResumableToFile ends when its partial holds c and the next thing it meets is not absorbed. */
  function ConcludePush(hash: Bytes -> Bytes, job: Job, files: Files, s: Stream, fate: Fate): Result
    requires job.partial in files && job.partial != job.out
  {
    var dropped := Removed(files, job.partial, fate.remove);
    var c := s.content;
    match s.stop
    case Cut => Result(files, Failed(ReadError))
    case Cancel(discard) => Result(if discard then dropped else files, Failed(Cancelled))
    case Arrive(f, room) =>
      if f.typ == MSG_DATA then
        if |c| + |f.payload| > job.total then Result(dropped, Failed(Exceeded))
        else Result(files[job.partial := c + f.payload[..Min(|f.payload|, room)]], Failed(WriteError))
      else if f.typ == MSG_EOF then
        if |c| != job.total then Result(dropped, Failed(Incomplete))
        else if job.want != [] && hash(c) != job.want then Result(dropped, Failed(Mismatch))
        else if !fate.sync then Result(files, Failed(SyncFailed))
        else if !fate.close then Result(files, Failed(CloseFailed))
        else
          var (fs, ok) := PlaceFile(files, job.partial, job.out, job.overwrite, fate);
          Result(fs, if ok then Placed(|c|, hash(c)) else Failed(PlaceFailed))
      else Result(dropped, Failed(Unexpected))
  }

  function Base(files: Files, p: Path, offset: nat): Bytes
    requires offset > 0 ==> p in files && offset <= |files[p]|
  {
    if offset > 0 then files[p][..offset] else []
  }

  /** receiveResumableToFile as a whole. */
  function PushAttempt(hash: Bytes -> Bytes, job: Job, files: Files, offset: nat, inputs: seq<Input>,
                       fate: Fate): Result
    requires job.partial != job.out
  {
    if !fate.open || (offset > 0 && job.partial !in files) then Result(files, Failed(OpenFailed))
    else if offset > 0 && |files[job.partial]| < offset then Result(files, Failed(RehashFailed))
    else
      var s := Absorb(Base(files, job.partial, offset), job.total, inputs);
      ConcludePush(hash, job, files[job.partial := s.content], s, fate)
  }

  /** How receiveResumable, the pull loop, ends: a short stream keeps the partial, and no digest is checked yet. */
  function ConcludePull(hash: Bytes -> Bytes, job: Job, files: Files, s: Stream, fate: Fate): Result
    requires job.partial in files
  {
    var dropped := Removed(files, job.partial, fate.remove);
    var c := s.content;
    match s.stop
    case Cut => Result(files, Failed(ReadError))
    case Cancel(_) => Result(files, Failed(Cancelled))
    case Arrive(f, room) =>
      if f.typ == MSG_DATA then
        if |c| + |f.payload| > job.total then Result(dropped, Failed(Exceeded))
        else Result(files[job.partial := c + f.payload[..Min(|f.payload|, room)]], Failed(WriteError))
      else if f.typ == MSG_EOF then
        if |c| != job.total then Result(files, Failed(Incomplete))
        else if !fate.sync then Result(files, Failed(SyncFailed))
        else if !fate.close then Result(files, Failed(CloseFailed))
        else Result(files, Placed(|c|, hash(c)))
      else Result(dropped, Failed(Unexpected))
  }

  /** receiveResumable as a whole; Placed here means the partial is complete and synced. */
  function PullStream(hash: Bytes -> Bytes, job: Job, files: Files, offset: nat, inputs: seq<Input>,
                      fate: Fate): Result {
    if !fate.open || (offset > 0 && job.partial !in files) then Result(files, Failed(OpenFailed))
    else if offset > 0 && |files[job.partial]| < offset then Result(files, Failed(RehashFailed))
    else
      var s := Absorb(Base(files, job.partial, offset), job.total, inputs);
      ConcludePull(hash, job, files[job.partial := s.content], s, fate)
  }

  /** How the loop of receiveToFile ends; what is done about the temp file comes after. */
  function ConcludeOnce(hash: Bytes -> Bytes, job: Job, files: Files, s: Stream, fate: Fate): Result
    requires job.partial in files && job.partial != job.out
  {
    var c := s.content;
    match s.stop
    case Cut => Result(files, Failed(ReadError))
    case Cancel(_) => Result(files, Failed(Cancelled))
    case Arrive(f, room) =>
      if f.typ == MSG_DATA then
        if |c| + |f.payload| > job.total then Result(files, Failed(Exceeded))
        else Result(files[job.partial := c + f.payload[..Min(|f.payload|, room)]], Failed(WriteError))
      else if f.typ == MSG_EOF then
        if |c| != job.total then Result(files, Failed(Incomplete))
        else if !fate.sync then Result(files, Failed(SyncFailed))
        else if !fate.close then Result(files, Failed(CloseFailed))
        else
          var (fs, ok) := PlaceFile(files, job.partial, job.out, job.overwrite, fate);
          Result(fs, if ok then Placed(|c|, hash(c)) else Failed(PlaceFailed))
      else Result(files, Failed(Unexpected))
  }

  /** receiveToFile: a fresh temp file, removed again after any failure. */
  function OneShot(hash: Bytes -> Bytes, job: Job, files: Files, inputs: seq<Input>, fate: Fate): Result
    requires job.partial !in files && job.partial != job.out
  {
    if !fate.open then Result(files, Failed(OpenFailed))
    else
      var s := Absorb([], job.total, inputs);
      var r := ConcludeOnce(hash, job, files[job.partial := s.content], s, fate);
      if r.outcome.Placed? then r else Result(Removed(r.files, job.partial, fate.remove), r.outcome)
  }

  lemma AbsorbStep(c: Bytes, total: nat, inputs: seq<Input>, i: nat)
    requires i <= |inputs|
    ensures i < |inputs| && Absorbs(c, total, inputs[i]) ==>
      Absorb(c, total, inputs[i..]) == Absorb(c + inputs[i].frame.payload, total, inputs[i + 1..])
    ensures i < |inputs| && !Absorbs(c, total, inputs[i]) ==> Absorb(c, total, inputs[i..]) == Stream(c, inputs[i])
    ensures i == |inputs| ==> Absorb(c, total, inputs[i..]) == Stream(c, Cut)
  {
    if i < |inputs| {
      assert inputs[i..][1..] == inputs[i + 1..];
    }
  }

  // ---- the loops ----

  class Disk {
    var files: Files

    constructor (files: Files)
      ensures this.files == files
    {
      this.files := files;
    }

    method Drop(p: Path, works: bool)
      modifies this
      ensures files == Removed(old(files), p, works)
    {
      if works { files := files - {p}; }
    }

    method Place(tmp: Path, out: Path, overwrite: bool, fate: Fate) returns (ok: bool)
      requires tmp in files && tmp != out
      modifies this
      ensures (files, ok) == PlaceFile(old(files), tmp, out, overwrite, fate)
    {
      if fate.rival.Some? { files := files[out := fate.rival.value]; }
      if overwrite {
        if !fate.place { return false; }
        files := (files - {tmp})[out := files[tmp]];
        return true;
      }
      if out in files || !fate.place { return false; }
      files := files[out := files[tmp]];
      Drop(tmp, fate.remove);
      ok := true;
    }

    /** Opens the partial for this attempt: re-hashes and truncates to offset, or starts it afresh. */
    method OpenPartial(p: Path, offset: nat, opens: bool) returns (digest: Bytes, failure: Option<Why>)
      modifies this
      ensures failure == if !opens || (offset > 0 && p !in old(files)) then Some(OpenFailed)
                         else if offset > 0 && |old(files)[p]| < offset then Some(RehashFailed) else None
      ensures failure.Some? ==> files == old(files)
      ensures failure.None? ==> digest == Base(old(files), p, offset) && files == old(files)[p := digest]
    {
      digest, failure := [], None;
      if !opens || (offset > 0 && p !in files) { return [], Some(OpenFailed); }
      if offset > 0 {
        if |files[p]| < offset { return [], Some(RehashFailed); }
        digest := files[p][..offset];
      }
      files := files[p := digest];
    }

    /** The file write of one payload: all of it, or what the disk takes before it fails. */
    method Append(p: Path, payload: Bytes, room: nat) returns (ok: bool)
      requires p in files
      modifies this
      ensures ok <==> |payload| <= room
      ensures files == old(files)[p := old(files)[p] + payload[..Min(|payload|, room)]]
    {
      ok := |payload| <= room;
      var k := if ok then |payload| else room;
      files := files[p := files[p] + payload[..k]];
    }

    /** receiveResumableToFile. `digest` is the running hash's input, kept apart from the file as in the original. */
    method ReceiveResumableToFile(hash: Bytes -> Bytes, job: Job, offset: nat, inputs: seq<Input>, fate: Fate)
      returns (outcome: Outcome)
      requires job.partial != job.out
      modifies this
      ensures Result(files, outcome) == PushAttempt(hash, job, old(files), offset, inputs, fate)
    {
      hide Absorb, ConcludePush;
      var digest, failure := OpenPartial(job.partial, offset, fate.open);
      if failure.Some? { return Failed(failure.value); }
      ghost var all := Absorb(digest, job.total, inputs);
      var i := 0;
      assert inputs[0..] == inputs;
      while i < |inputs|
        invariant i <= |inputs|
        invariant files == old(files)[job.partial := digest]
        invariant Absorb(digest, job.total, inputs[i..]) == all
      {
        AbsorbStep(digest, job.total, inputs, i);
        var over;
        over, digest := PushTurn(hash, job, digest, inputs[i], fate);
        if over.Some? { return over.value; }
        i := i + 1;
      }
      AbsorbStep(digest, job.total, inputs, i);
      var over;
      over, digest := PushTurn(hash, job, digest, Cut, fate);
      outcome := over.value;
    }

    /** One turn of that loop: either the payload is absorbed, or the transfer is over. */
    method PushTurn(hash: Bytes -> Bytes, job: Job, digest: Bytes, input: Input, fate: Fate)
      returns (over: Option<Outcome>, grown: Bytes)
      requires job.partial in files && files[job.partial] == digest && job.partial != job.out
      modifies this
      ensures over.None? <==> Absorbs(digest, job.total, input)
      ensures over.None? ==> grown == digest + input.frame.payload && files == old(files)[job.partial := grown]
      ensures over.Some? ==>
        Result(files, over.value) == ConcludePush(hash, job, old(files), Stream(digest, input), fate)
    {
      grown := digest;
      match input
      case Cut => over := Some(Failed(ReadError));
      case Cancel(discard) =>
        if discard { Drop(job.partial, fate.remove); }
        over := Some(Failed(Cancelled));
      case Arrive(f, room) =>
        if f.typ == MSG_DATA {
          if |digest| + |f.payload| > job.total {
            Drop(job.partial, fate.remove);
            return Some(Failed(Exceeded)), grown;
          }
          var ok := Append(job.partial, f.payload, room);
          if !ok { return Some(Failed(WriteError)), grown; }
          assert f.payload[..|f.payload|] == f.payload;
          return None, digest + f.payload;
        }
        if f.typ != MSG_EOF {
          Drop(job.partial, fate.remove);
          return Some(Failed(Unexpected)), grown;
        }
        if |digest| != job.total {
          Drop(job.partial, fate.remove);
          return Some(Failed(Incomplete)), grown;
        }
        if job.want != [] && hash(digest) != job.want {
          Drop(job.partial, fate.remove);
          return Some(Failed(Mismatch)), grown;
        }
        if !fate.sync { return Some(Failed(SyncFailed)), grown; }
        if !fate.close { return Some(Failed(CloseFailed)), grown; }
        var ok := Place(job.partial, job.out, job.overwrite, fate);
        over := Some(if ok then Placed(|digest|, hash(digest)) else Failed(PlaceFailed));
    }

    /** receiveResumable, the loop of Download. */
    method ReceiveResumable(hash: Bytes -> Bytes, job: Job, offset: nat, inputs: seq<Input>, fate: Fate)
      returns (outcome: Outcome)
      modifies this
      ensures Result(files, outcome) == PullStream(hash, job, old(files), offset, inputs, fate)
    {
      hide Absorb, ConcludePull;
      var digest, failure := OpenPartial(job.partial, offset, fate.open);
      if failure.Some? { return Failed(failure.value); }
      ghost var all := Absorb(digest, job.total, inputs);
      var i := 0;
      assert inputs[0..] == inputs;
      while i < |inputs|
        invariant i <= |inputs|
        invariant files == old(files)[job.partial := digest]
        invariant Absorb(digest, job.total, inputs[i..]) == all
      {
        AbsorbStep(digest, job.total, inputs, i);
        var over;
        over, digest := PullTurn(hash, job, digest, inputs[i], fate);
        if over.Some? { return over.value; }
        i := i + 1;
      }
      AbsorbStep(digest, job.total, inputs, i);
      var over;
      over, digest := PullTurn(hash, job, digest, Cut, fate);
      outcome := over.value;
    }

    method PullTurn(hash: Bytes -> Bytes, job: Job, digest: Bytes, input: Input, fate: Fate)
      returns (over: Option<Outcome>, grown: Bytes)
      requires job.partial in files && files[job.partial] == digest
      modifies this
      ensures over.None? <==> Absorbs(digest, job.total, input)
      ensures over.None? ==> grown == digest + input.frame.payload && files == old(files)[job.partial := grown]
      ensures over.Some? ==>
        Result(files, over.value) == ConcludePull(hash, job, old(files), Stream(digest, input), fate)
    {
      grown := digest;
      match input
      case Cut => over := Some(Failed(ReadError));
      case Cancel(_) => over := Some(Failed(Cancelled));
      case Arrive(f, room) =>
        if f.typ == MSG_DATA {
          if |digest| + |f.payload| > job.total {
            Drop(job.partial, fate.remove);
            return Some(Failed(Exceeded)), grown;
          }
          var ok := Append(job.partial, f.payload, room);
          if !ok { return Some(Failed(WriteError)), grown; }
          assert f.payload[..|f.payload|] == f.payload;
          return None, digest + f.payload;
        }
        if f.typ != MSG_EOF {
          Drop(job.partial, fate.remove);
          return Some(Failed(Unexpected)), grown;
        }
        if |digest| != job.total { return Some(Failed(Incomplete)), grown; }
        if !fate.sync { return Some(Failed(SyncFailed)), grown; }
        if !fate.close { return Some(Failed(CloseFailed)), grown; }
        over := Some(Placed(|digest|, hash(digest)));
    }

    /** receiveToFile. The clean-up the original defers runs here after the loop. */
    method ReceiveToFile(hash: Bytes -> Bytes, job: Job, inputs: seq<Input>, fate: Fate) returns (outcome: Outcome)
      requires job.partial !in files && job.partial != job.out
      modifies this
      ensures Result(files, outcome) == OneShot(hash, job, old(files), inputs, fate)
    {
      hide Absorb, ConcludeOnce;
      if !fate.open { return Failed(OpenFailed); }
      ghost var before := files;
      files := files[job.partial := []];
      outcome := FillTemp(hash, job, inputs, fate);
      ghost var s := Absorb([], job.total, inputs);
      assert before[job.partial := []][job.partial := s.content] == before[job.partial := s.content];
      if !outcome.Placed? {
        Drop(job.partial, fate.remove);
      }
    }

    method FillTemp(hash: Bytes -> Bytes, job: Job, inputs: seq<Input>, fate: Fate) returns (outcome: Outcome)
      requires job.partial in files && files[job.partial] == [] && job.partial != job.out
      modifies this
      ensures var s := Absorb([], job.total, inputs);
        Result(files, outcome) == ConcludeOnce(hash, job, old(files)[job.partial := s.content], s, fate)
    {
      hide Absorb, ConcludeOnce;
      ghost var started, all := files, Absorb([], job.total, inputs);
      var digest, i := [], 0;
      assert inputs[0..] == inputs;
      while i < |inputs|
        invariant i <= |inputs|
        invariant files == started[job.partial := digest]
        invariant Absorb(digest, job.total, inputs[i..]) == all
      {
        AbsorbStep(digest, job.total, inputs, i);
        var over;
        over, digest := OnceTurn(hash, job, digest, inputs[i], fate);
        if over.Some? { return over.value; }
        i := i + 1;
      }
      AbsorbStep(digest, job.total, inputs, i);
      var over;
      over, digest := OnceTurn(hash, job, digest, Cut, fate);
      outcome := over.value;
    }

    method OnceTurn(hash: Bytes -> Bytes, job: Job, digest: Bytes, input: Input, fate: Fate)
      returns (over: Option<Outcome>, grown: Bytes)
      requires job.partial in files && files[job.partial] == digest && job.partial != job.out
      modifies this
      ensures over.None? <==> Absorbs(digest, job.total, input)
      ensures over.None? ==> grown == digest + input.frame.payload && files == old(files)[job.partial := grown]
      ensures over.Some? ==>
        Result(files, over.value) == ConcludeOnce(hash, job, old(files), Stream(digest, input), fate)
    {
      grown := digest;
      match input
      case Cut => over := Some(Failed(ReadError));
      case Cancel(_) => over := Some(Failed(Cancelled));
      case Arrive(f, room) =>
        if f.typ == MSG_DATA {
          if |digest| + |f.payload| > job.total { return Some(Failed(Exceeded)), grown; }
          var ok := Append(job.partial, f.payload, room);
          if !ok { return Some(Failed(WriteError)), grown; }
          assert f.payload[..|f.payload|] == f.payload;
          return None, digest + f.payload;
        }
        if f.typ != MSG_EOF { return Some(Failed(Unexpected)), grown; }
        if |digest| != job.total { return Some(Failed(Incomplete)), grown; }
        if !fate.sync { return Some(Failed(SyncFailed)), grown; }
        if !fate.close { return Some(Failed(CloseFailed)), grown; }
        var ok := Place(job.partial, job.out, job.overwrite, fate);
        over := Some(if ok then Placed(|digest|, hash(digest)) else Failed(PlaceFailed));
    }
  }
}
