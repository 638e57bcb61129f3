/**
 * Several handlers of serve mode on one partial. Each looks at its size, tells its sender to resume there, and opens it
 * only later: it re-hashes that many bytes, truncates to them, and writes on at its own offset. Its digest is taken
 * over what it re-hashed and received, not over the file. All senders stream one body, and nobody has reached its end
 * of stream yet. When is the file right for the first handler that does? What comes after, when the partial's name
 * moves on or leads to a placed file, is SharedNames.
 */
module SharedPartial {
  import opened Bytes

  type Handler = nat

  datatype Move =
    | Looks(h: Handler)            // resumeOffset, told to the sender in the accept frame
    | Opens(h: Handler)            // the start of receiveResumableToFile
    | Receives(h: Handler, n: nat) // the next n bytes of the body, as far as there are

  /** What each handler found when it looked, how far each open one has got, and what it has put into its digest. */
  datatype State = State(
    file: Bytes,
    looked: map<Handler, nat>,
    upTo: map<Handler, nat>,
    digest: map<Handler, Bytes>)

  const NOBODY := State([], map[], map[], map[])

  /** The size of a partial that is shorter than the file it is for, else 0. A missing one has size 0 here. */
  function Offset(size: nat, total: nat): nat { if size < total then size else 0 }

  /** A write at an offset; past the end it leaves a hole of zeros. */
  function WriteAt(file: Bytes, offset: nat, p: Bytes): Bytes {
    if p == [] then file
    else if offset > |file| then file + Zeros(offset - |file|) + p
    else file[..offset] + p + (if offset + |p| <= |file| then file[offset + |p|..] else [])
  }

  /** How many of n more bytes there are. */
  function Taken(at: nat, n: nat, total: nat): nat {
    if at >= total then 0 else if n <= total - at then n else total - at
  }

  function Step(body: Bytes, st: State, m: Move): State {
    match m
    case Looks(h) => st.(looked := st.looked[h := Offset(|st.file|, |body|)])
    case Opens(h) =>
      if h !in st.looked || st.looked[h] > |st.file| then st // the re-hash meets the end of the file
      else
        var o := st.looked[h];
        State(st.file[..o], st.looked, st.upTo[h := o], st.digest[h := st.file[..o]])
    case Receives(h, n) =>
      if h !in st.upTo || h !in st.digest then st
      else
        var u := st.upTo[h];
        var k := Taken(u, n, |body|);
        if k == 0 then st
        else
          var p := body[u..u + k];
          State(WriteAt(st.file, u, p), st.looked, st.upTo[h := u + k], st.digest[h := st.digest[h] + p])
  }

  function Run(body: Bytes, st: State, moves: seq<Move>): State
    decreases |moves|
  {
    if moves == [] then st else Run(body, Step(body, st, moves[0]), moves[1..])
  }

  // ---- the same schedule in numbers only ----

  /**
   * What can be known without any content: sizes, offsets, and which bytes h has received (or re-hashed) that a later
   * open cut off and that nobody has received again since.
   */
  datatype Book = Book(size: nat, looked: map<Handler, nat>, upTo: map<Handler, nat>, lost: set<nat>)

  const BLANK := Book(0, map[], map[], {})

  function Span(a: nat, b: nat): (s: set<nat>)
    ensures forall i :: i in s <==> a <= i < b
    decreases b - a
  {
    if a >= b then {} else {a} + Span(a + 1, b)
  }

  function Note(total: nat, h: Handler, b: Book, m: Move): Book {
    match m
    case Looks(g) => b.(looked := b.looked[g := Offset(b.size, total)])
    case Opens(g) =>
      if g !in b.looked || b.looked[g] > b.size then b
      else
        var o := b.looked[g];
        var cut := if h in b.upTo then Span(o, b.upTo[h]) else {};
        Book(o, b.looked, b.upTo[g := o], if g == h then {} else b.lost + cut)
    case Receives(g, n) =>
      if g !in b.upTo then b
      else
        var u := b.upTo[g];
        var k := Taken(u, n, total);
        if k == 0 then b
        else Book(if u + k > b.size then u + k else b.size, b.looked, b.upTo[g := u + k], b.lost - Span(u, u + k))
  }

  function Notes(total: nat, h: Handler, b: Book, moves: seq<Move>): Book
    decreases |moves|
  {
    if moves == [] then b else Notes(total, h, Note(total, h, b, moves[0]), moves[1..])
  }

  // ---- the book knows the file ----

  predicate SameNumbers(body: Bytes, st: State, b: Book) {
    && b.size == |st.file| <= |body| && b.looked == st.looked && b.upTo == st.upTo
    && st.digest.Keys == st.upTo.Keys
    && (forall g :: g in st.upTo ==> st.upTo[g] <= |body| && |st.digest[g]| == st.upTo[g])
    && (forall g :: g in st.looked ==> st.looked[g] <= |body| && (st.looked[g] == |body| ==> body == []))
  }

  /** Below upTo the file has body's bytes, but for the lost ones: those it lacks, or has zeros for. */
  predicate RightBut(body: Bytes, file: Bytes, upTo: nat, lost: set<nat>) {
    && |file| <= |body| && upTo <= |body|
    && (forall i :: i in lost ==> i < upTo)
    && (forall i :: 0 <= i < upTo && i !in lost ==> i < |file| && file[i] == body[i])
    && (forall i :: i in lost && i < |file| ==> file[i] == 0)
    && (|file| == |body| > 0 ==> |body| - 1 !in lost)
  }

  /** h has re-hashed, and received, nothing but the body. */
  predicate OnTrack(body: Bytes, st: State, h: Handler) {
    h in st.upTo && h in st.digest && st.upTo[h] <= |body| && st.digest[h] == body[..st.upTo[h]]
  }

  /** Once a handler has re-hashed something else than the body's prefix, nothing more is said of it. */
  predicate Tracks(body: Bytes, h: Handler, st: State, b: Book) {
    && SameNumbers(body, st, b)
    && (OnTrack(body, st, h) ==> RightBut(body, st.file, st.upTo[h], b.lost))
  }

  lemma WriteKeepsRight(body: Bytes, file: Bytes, upTo: nat, lost: set<nat>, u: nat, k: nat, grows: bool)
    requires RightBut(body, file, upTo, lost) && 0 < k && u + k <= |body| && (grows ==> u == upTo)
    ensures RightBut(body, WriteAt(file, u, body[u..u + k]), if grows then u + k else upTo, lost - Span(u, u + k))
  {
    var f := WriteAt(file, u, body[u..u + k]);
    assert forall i :: u <= i < u + k ==> f[i] == body[i];
    assert forall i :: 0 <= i < |file| && !(u <= i < u + k) ==> f[i] == file[i];
    assert forall i :: |file| <= i < u ==> f[i] == 0;
  }

  lemma CutKeepsRight(body: Bytes, file: Bytes, upTo: nat, lost: set<nat>, o: nat)
    requires RightBut(body, file, upTo, lost) && o <= |file| && (o < |body| || body == [])
    ensures RightBut(body, file[..o], upTo, lost + Span(o, upTo))
  {
  }

  lemma StepNumbers(body: Bytes, h: Handler, st: State, b: Book, m: Move)
    requires SameNumbers(body, st, b)
    ensures SameNumbers(body, Step(body, st, m), Note(|body|, h, b, m))
  {
    hide Span;
    if m.Receives? && m.h in st.upTo {
      WriteSize(st.file, st.upTo[m.h], body[st.upTo[m.h]..st.upTo[m.h] + Taken(st.upTo[m.h], m.n, |body|)]);
    }
    hide WriteAt;
  }

  lemma WriteSize(file: Bytes, u: nat, p: Bytes)
    ensures |WriteAt(file, u, p)| == if p != [] && u + |p| > |file| then u + |p| else |file|
  {
  }

  /** No receiving puts a handler back on track. */
  lemma ReceivesOnTrack(body: Bytes, st: State, h: Handler, g: Handler, n: nat)
    requires OnTrack(body, Step(body, st, Receives(g, n)), h)
    requires g in st.upTo ==> g in st.digest && |st.digest[g]| == st.upTo[g]
    ensures OnTrack(body, st, h)
  {
    hide WriteAt;
    if g == h && g in st.upTo && Taken(st.upTo[g], n, |body|) > 0 {
      var u, k := st.upTo[g], Taken(st.upTo[g], n, |body|);
      assert (st.digest[h] + body[u..u + k])[..u] == st.digest[h] && body[..u + k][..u] == body[..u];
    }
  }

  lemma ReceivesTracks(body: Bytes, h: Handler, st: State, b: Book, g: Handler, n: nat)
    requires Tracks(body, h, st, b) && g in st.upTo
    ensures Tracks(body, h, Step(body, st, Receives(g, n)), Note(|body|, h, b, Receives(g, n)))
  {
    StepNumbers(body, h, st, b, Receives(g, n));
    var m := Receives(g, n);
    var st', b' := Step(body, st, m), Note(|body|, h, b, m);
    var u, k := st.upTo[g], Taken(st.upTo[g], n, |body|);
    if k == 0 {
      assert st' == st && b' == b;
    } else {
      assert st'.file == WriteAt(st.file, u, body[u..u + k]) && st'.upTo == st.upTo[g := u + k];
      assert b'.lost == b.lost - Span(u, u + k);
      hide Step, Note, WriteAt, Span, RightBut, SameNumbers;
      if OnTrack(body, st', h) {
        ReceivesOnTrack(body, st, h, g, n);
        WriteKeepsRight(body, st.file, st.upTo[h], b.lost, u, k, g == h);
      }
    }
  }

  lemma OpensTracks(body: Bytes, h: Handler, st: State, b: Book, g: Handler)
    requires Tracks(body, h, st, b)
    ensures Tracks(body, h, Step(body, st, Opens(g)), Note(|body|, h, b, Opens(g)))
  {
    StepNumbers(body, h, st, b, Opens(g));
    var st' := Step(body, st, Opens(g));
    if g in st.looked && st.looked[g] <= |st.file| && g != h && OnTrack(body, st', h) {
      CutKeepsRight(body, st.file, st.upTo[h], b.lost, st.looked[g]);
    }
    hide Span, WriteAt;
  }

  lemma StepTracks(body: Bytes, h: Handler, st: State, b: Book, m: Move)
    requires Tracks(body, h, st, b)
    ensures Tracks(body, h, Step(body, st, m), Note(|body|, h, b, m))
  {
    match m
    case Looks(g) => StepNumbers(body, h, st, b, m); hide SameNumbers, RightBut;
    case Opens(g) => hide Tracks, Step, Note; OpensTracks(body, h, st, b, g);
    case Receives(g, n) =>
      if g in st.upTo {
        hide Tracks, Step, Note;
        ReceivesTracks(body, h, st, b, g, n);
      }
  }

  lemma {:induction false} RunTracks(body: Bytes, h: Handler, st: State, b: Book, moves: seq<Move>)
    requires Tracks(body, h, st, b)
    ensures Tracks(body, h, Run(body, st, moves), Notes(|body|, h, b, moves))
    decreases |moves|
  {
    if moves != [] {
      hide Tracks, Step, Note;
      StepTracks(body, h, st, b, moves[0]);
      RunTracks(body, h, Step(body, st, moves[0]), Note(|body|, h, b, moves[0]), moves[1..]);
    }
  }

  /** h has received the whole body, and its digest is the body's. */
  predicate Satisfied(body: Bytes, st: State, h: Handler) {
    h in st.upTo && h in st.digest && st.upTo[h] == |body| && st.digest[h] == body
  }

  predicate ZeroAt(body: Bytes, i: nat) { i < |body| && body[i] == 0 }

  /**
   * Over every schedule: a handler with the whole body and the right digest has the right file exactly when what it
   * lost to later opens, and nobody sent again, is zeros and not the end of the body.
   */
  lemma RightDigestRightFile(body: Bytes, h: Handler, moves: seq<Move>)
    requires Satisfied(body, Run(body, NOBODY, moves), h)
    ensures var lost := Notes(|body|, h, BLANK, moves).lost;
      Run(body, NOBODY, moves).file == body <==>
        (forall i :: i in lost ==> ZeroAt(body, i)) && (body != [] ==> |body| - 1 !in lost)
  {
    assert Tracks(body, h, NOBODY, BLANK);
    RunTracks(body, h, NOBODY, BLANK, moves);
    var st, lost := Run(body, NOBODY, moves), Notes(|body|, h, BLANK, moves).lost;
    assert body[..|body|] == body;
    assert RightBut(body, st.file, |body|, lost);
    hide Run, Notes;
    if body != [] && |body| - 1 !in lost { assert |body| - 1 < |st.file|; }
  }

  function Ones(n: nat): (s: Bytes)
    ensures |s| == n && forall i :: 0 <= i < n ==> s[i] == 1
  {
    seq(n, _ => 1)
  }

  lemma OnesLoseNothing(total: nat, h: Handler, moves: seq<Move>)
    requires Satisfied(Ones(total), Run(Ones(total), NOBODY, moves), h)
    ensures Run(Ones(total), NOBODY, moves).file == Ones(total) ==> Notes(total, h, BLANK, moves).lost == {}
  {
    var ones := Ones(total);
    RightDigestRightFile(ones, h, moves);
    hide Run, Notes, Satisfied;
    if Run(ones, NOBODY, moves).file == ones {
      var lost := Notes(|ones|, h, BLANK, moves).lost;
      assert lost == Notes(total, h, BLANK, moves).lost;
      forall i: nat ensures i !in lost {
        assert !ZeroAt(ones, i);
      }
    }
  }

  lemma LosingNothingIsRight(body: Bytes, h: Handler, moves: seq<Move>)
    requires Satisfied(body, Run(body, NOBODY, moves), h) && Notes(|body|, h, BLANK, moves).lost == {}
    ensures Run(body, NOBODY, moves).file == body
  {
    RightDigestRightFile(body, h, moves);
    hide Run, Notes, Satisfied;
  }

  /**
   * So a schedule that gives h the right digest for every body gives it the right file for every body iff it loses
   * nothing.
   */
  lemma RightForEveryBodyExactly(total: nat, h: Handler, moves: seq<Move>)
    requires forall body: Bytes :: |body| == total ==> Satisfied(body, Run(body, NOBODY, moves), h)
    ensures (forall body: Bytes :: |body| == total ==> Run(body, NOBODY, moves).file == body)
       <==> Notes(total, h, BLANK, moves).lost == {}
  {
    hide Run, Notes, Satisfied;
    if Notes(total, h, BLANK, moves).lost == {} {
      forall body: Bytes | |body| == total ensures Run(body, NOBODY, moves).file == body {
        LosingNothingIsRight(body, h, moves);
      }
    }
    assert |Ones(total)| == total;
    OnesLoseNothing(total, h, moves);
  }

  // ---- schedules that lose nothing, and schedules that do ----

  predicate OpensNoLower(b: Book, g: Handler, h: Handler) {
    g in b.looked && b.looked[g] <= b.size && h in b.upTo ==> b.looked[g] >= b.upTo[h]
  }

  /** Every other handler that opens the partial does so at no lower an offset than h has got to by then. */
  predicate NeverCutBack(total: nat, h: Handler, b: Book, moves: seq<Move>)
    decreases |moves|
  {
    moves != [] ==>
      && (moves[0].Opens? && moves[0].h != h ==> OpensNoLower(b, moves[0].h, h))
      && NeverCutBack(total, h, Note(total, h, b, moves[0]), moves[1..])
  }

  /** In particular a handler alone with the partial loses nothing, nor does one that others resume after. */
  lemma {:induction false} NeverCutBackLosesNothing(total: nat, h: Handler, b: Book, moves: seq<Move>)
    requires NeverCutBack(total, h, b, moves) && b.lost == {}
    ensures Notes(total, h, b, moves).lost == {}
    decreases |moves|
  {
    if moves != [] {
      hide Taken, Offset;
      assert Note(total, h, b, moves[0]).lost == {};
      NeverCutBackLosesNothing(total, h, Note(total, h, b, moves[0]), moves[1..]);
    }
  }

  lemma RunTwo(body: Bytes, st: State, a: Move, b: Move)
    ensures Run(body, st, [a, b]) == Step(body, Step(body, st, a), b)
  {
    hide Step;
    assert [a, b][1..] == [b] && [b][1..] == [];
    assert Run(body, Step(body, st, a), [b]) == Step(body, Step(body, st, a), b);
  }

  lemma RunThree(body: Bytes, st: State, a: Move, b: Move, c: Move)
    ensures Run(body, st, [a, b, c]) == Step(body, Step(body, Step(body, st, a), b), c)
  {
    hide Step;
    assert [a, b, c][1..] == [b, c];
    RunTwo(body, Step(body, st, a), b, c);
  }

  lemma {:induction false} RunAppend(body: Bytes, st: State, a: seq<Move>, b: seq<Move>)
    ensures Run(body, st, a + b) == Run(body, Run(body, st, a), b)
    decreases |a|
  {
    hide Step;
    if a == [] {
      assert a + b == b;
    } else {
      assert (a + b)[1..] == a[1..] + b && (a + b)[0] == a[0];
      RunAppend(body, Step(body, st, a[0]), a[1..], b);
    }
  }

  /** A handler that has got to u, with the right digest, receives up to v. */
  lemma ReceivesMore(body: Bytes, st: State, h: Handler, n: nat)
    requires OnTrack(body, st, h)
    ensures var u := st.upTo[h];
      var v := u + Taken(u, n, |body|);
      var st' := Step(body, st, Receives(h, n));
      OnTrack(body, st', h) && st'.upTo[h] == v && st'.looked == st.looked
          && st'.file == WriteAt(st.file, u, body[u..v])
  {
    var u := st.upTo[h];
    var v := u + Taken(u, n, |body|);
    assert body[..u] + body[u..v] == body[..v];
    hide WriteAt;
    assert u == v ==> WriteAt(st.file, u, body[u..v]) == st.file by { WriteNothing(st.file, u); }
  }

  lemma WriteNothing(file: Bytes, u: nat)
    ensures WriteAt(file, u, []) == file
  {
  }

  /** Somebody opens the partial to start afresh. */
  lemma OpensAfresh(body: Bytes, st: State, g: Handler, h: Handler)
    requires OnTrack(body, st, h) && g != h && g in st.looked && st.looked[g] == 0
    ensures var st' := Step(body, st, Opens(g));
      OnTrack(body, st', h) && st'.upTo[h] == st.upTo[h] && st'.file == []
  {
  }

  /** A handler that has just opened an empty partial. */
  predicate Beginning(body: Bytes, st: State) {
    OnTrack(body, st, 0) && st.upTo[0] == 0 && st.file == []
  }

  lemma FirstOpens(body: Bytes)
    ensures Beginning(body, Step(body, Step(body, NOBODY, Looks(0)), Opens(0)))
  {
  }

  lemma LooksTooEarly(body: Bytes)
    ensures var a := Step(body, Step(body, Step(body, NOBODY, Looks(0)), Opens(0)), Looks(1));
      Beginning(body, a) && 1 in a.looked && a.looked[1] == 0
  {
    FirstOpens(body);
  }

  lemma AfreshInBetween(body: Bytes, a: State, k: nat)
    requires 0 < k < |body| && Beginning(body, a) && 1 in a.looked && a.looked[1] == 0
    ensures var end := Step(body, Step(body, Step(body, a, Receives(0, k)), Opens(1)), Receives(0, |body|));
      Satisfied(body, end, 0) && end.file == Zeros(k) + body[k..]
  {
    ReceivesMore(body, a, 0, k);
    var b := Step(body, a, Receives(0, k));
    OpensAfresh(body, b, 1, 0);
    ReceivesMore(body, Step(body, b, Opens(1)), 0, |body|);
    hide Step;
    assert [] + Zeros(k) + body[k..] == Zeros(k) + body[k..];
    assert body[..|body|] == body && body[k..|body|] == body[k..];
  }

  /**
   * A stale look: the second handler looks before the first has received anything, and opens after it has received k
   * bytes. The first ends with the whole body and the right digest, over a file that starts with k zeros.
   */
  lemma StaleLookLosesTheStart(body: Bytes, k: nat)
    requires 0 < k < |body|
    ensures var moves := [Looks(0), Opens(0), Looks(1)] + [Receives(0, k), Opens(1), Receives(0, |body|)];
      var end := Run(body, NOBODY, moves);
      Satisfied(body, end, 0) && end.file == Zeros(k) + body[k..]
  {
    hide Run, Step, Satisfied, Beginning, Zeros;
    RunAppend(body, NOBODY, [Looks(0), Opens(0), Looks(1)], [Receives(0, k), Opens(1), Receives(0, |body|)]);
    RunThree(body, NOBODY, Looks(0), Opens(0), Looks(1));
    LooksTooEarly(body);
    var a := Run(body, NOBODY, [Looks(0), Opens(0), Looks(1)]);
    AfreshInBetween(body, a, k);
    RunThree(body, a, Receives(0, k), Opens(1), Receives(0, |body|));
  }

  lemma AfreshAtTheEnd(body: Bytes, a: State)
    requires body != [] && Beginning(body, a)
    ensures var end := Step(body, Step(body, Step(body, a, Receives(0, |body|)), Looks(1)), Opens(1));
      Satisfied(body, end, 0) && end.file == []
  {
    ReceivesMore(body, a, 0, |body|);
    var b := Step(body, a, Receives(0, |body|));
    assert |b.file| == |body|;
    var c := Step(body, b, Looks(1));
    assert OnTrack(body, c, 0) && c.upTo[0] == |body| && c.looked[1] == 0;
    OpensAfresh(body, c, 1, 0);
    hide Step;
    assert body[..|body|] == body;
  }

  /**
   * And a fresh one: a partial of full size is not resumed but truncated, so a handler that looks, and opens at once,
   * when the first has everything but the end-of-stream frame leaves it with an empty file and the right digest.
   */
  lemma FullSizeLookLosesEverything(body: Bytes)
    requires body != []
    ensures var end := Run(body, NOBODY, [Looks(0), Opens(0)] + [Receives(0, |body|), Looks(1), Opens(1)]);
      Satisfied(body, end, 0) && end.file == []
  {
    hide Run, Step, Satisfied, Beginning;
    RunAppend(body, NOBODY, [Looks(0), Opens(0)], [Receives(0, |body|), Looks(1), Opens(1)]);
    RunTwo(body, NOBODY, Looks(0), Opens(0));
    FirstOpens(body);
    var a := Run(body, NOBODY, [Looks(0), Opens(0)]);
    AfreshAtTheEnd(body, a);
    RunThree(body, a, Receives(0, |body|), Looks(1), Opens(1));
  }
}
