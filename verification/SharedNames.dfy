/**
 * The same handlers with the names in between. A partial is a name that leads to a file, and placing it gives that
 * file, whichever it is by then, another name: by a rename when overwriting, else by a link and a remove of the old
 * name. A handler keeps the file it has opened. So a file that has been placed can still be reached by its old name,
 * and a handler can place a file that is not its own.
 */
module SharedNames {
  import opened Bytes
  import opened SharedPartial

  datatype Handle = Handle(file: nat, upTo: nat, digest: Bytes)

  /** Files by number; where the two names lead; and the handlers between their link and their remove. */
  datatype World = World(
    files: seq<Bytes>,
    partial: Option<nat>,
    out: Option<nat>,
    looked: map<Handler, nat>,
    handles: map<Handler, Handle>,
    linking: set<Handler>)

  datatype Step =
    | Look(h: Handler)               // handleConn checks the destination and looks at the partial
    | Open(h: Handler)
    | Receive(h: Handler, n: nat)
    | End(h: Handler)                // its end of stream: the checks, and the rename or the link
    | Unlink(h: Handler, works: bool) // the remove that follows a link
    | Drop(h: Handler)               // a cancel: the partial's name is removed
    | Leave(h: Handler)              // a cut, or a pause
    | TakeOut                        // somebody takes the placed file away

  const EMPTY := World([], None, None, map[], map[], {})

  function Looked(total: nat, overwrite: bool, w: World, h: Handler): World {
    if w.out.Some? && !overwrite then w
    else
      var size := if w.partial.Some? && w.partial.value < |w.files| then |w.files[w.partial.value]| else 0;
      w.(looked := w.looked[h := Offset(size, total)])
  }

  /** Whether h's opening of the partial would meet the file f, and truncate it. */
  predicate Cuts(w: World, h: Handler, f: nat) {
    w.partial == Some(f) && f < |w.files| && h in w.looked && w.looked[h] <= |w.files[f]|
  }

  /** A handler opens once for every look. */
  function Opened(w: World, h: Handler): World {
    if h !in w.looked then w
    else
      var o, w' := w.looked[h], w.(looked := w.looked - {h});
      match w.partial
      case None =>
        if o > 0 then w'
        else
          w'.(files := w.files + [[]], partial := Some(|w.files|),
              handles := w.handles[h := Handle(|w.files|, 0, [])])
      case Some(f) =>
        if !Cuts(w, h, f) then w'
        else
          var head := w.files[f][..o];
          w'.(files := w.files[f := head], handles := w.handles[h := Handle(f, o, head)])
  }

  function Received(body: Bytes, w: World, h: Handler, n: nat): World {
    if h !in w.handles || w.handles[h].file >= |w.files| then w
    else
      var Handle(f, u, digest) := w.handles[h];
      var k := Taken(u, n, |body|);
      if k == 0 then w
      else
        var p := body[u..u + k];
        w.(files := w.files[f := WriteAt(w.files[f], u, p)], handles := w.handles[h := Handle(f, u + k, digest + p)])
  }

  /** h has the whole body, and the right digest. */
  predicate Ready(body: Bytes, w: World, h: Handler) {
    h in w.handles && w.handles[h].upTo == |body| && w.handles[h].digest == body
  }

  /** An end of stream: short, or with a wrong digest, it drops the name; otherwise it places what the name leads to. */
  function Ended(body: Bytes, overwrite: bool, w: World, h: Handler): World {
    if h !in w.handles then w
    else
      var w' := w.(handles := w.handles - {h});
      if !Ready(body, w, h) then w'.(partial := None)
      else if w.partial.None? || (w.out.Some? && !overwrite) then w' // no such file, or the destination exists
      else if overwrite then w'.(out := w.partial, partial := None)
      else w'.(out := w.partial, linking := w.linking + {h})
  }

  function Next(body: Bytes, overwrite: bool, w: World, s: Step): World {
    match s
    case Look(h) => Looked(|body|, overwrite, w, h)
    case Open(h) => Opened(w, h)
    case Receive(h, n) => Received(body, w, h, n)
    case End(h) => Ended(body, overwrite, w, h)
    case Unlink(h, works) =>
      if h !in w.linking then w
      else w.(linking := w.linking - {h}, partial := if works then None else w.partial)
    case Drop(h) => if h in w.handles then w.(handles := w.handles - {h}, partial := None) else w
    case Leave(h) => w.(handles := w.handles - {h})
    case TakeOut => w.(out := None)
  }

  function Play(body: Bytes, overwrite: bool, w: World, steps: seq<Step>): World
    decreases |steps|
  {
    if steps == [] then w else Play(body, overwrite, Next(body, overwrite, w, steps[0]), steps[1..])
  }

  // ---- what every schedule keeps ----

  predicate Sane(total: nat, w: World) {
    && (w.partial.Some? ==> w.partial.value < |w.files|)
    && (w.out.Some? ==> w.out.value < |w.files|)
    && (forall h :: h in w.looked ==> w.looked[h] <= total && (w.looked[h] == total ==> total == 0))
    && (forall h :: h in w.handles ==> w.handles[h].file < |w.files| && w.handles[h].upTo <= total)
  }

  lemma NextSane(body: Bytes, overwrite: bool, w: World, s: Step)
    requires Sane(|body|, w)
    ensures Sane(|body|, Next(body, overwrite, w, s)) && |w.files| <= |Next(body, overwrite, w, s).files|
  {
    match s
    case Open(h) => hide Sane, Opened; OpenedSane(|body|, w, h);
    case Receive(h, n) => hide Sane, Received; ReceivedSane(body, w, h, n);
    case _ => hide Opened, Received, WriteAt;
  }

  lemma OpenedSane(total: nat, w: World, h: Handler)
    requires Sane(total, w)
    ensures Sane(total, Opened(w, h)) && |w.files| <= |Opened(w, h).files|
  {
  }

  lemma ReceivedSane(body: Bytes, w: World, h: Handler, n: nat)
    requires Sane(|body|, w)
    ensures Sane(|body|, Received(body, w, h, n)) && |w.files| <= |Received(body, w, h, n).files|
  {
    hide WriteAt;
  }

  // ---- a placed file stays as it is exactly as long as nobody opens it by its old name ----

  /** Writing the body's bytes where they belong changes nothing in a complete file, and a shorter prefix is not it. */
  lemma CompleteFile(body: Bytes, u: nat, k: nat, o: nat)
    requires u + k <= |body|
    ensures WriteAt(body, u, body[u..u + k]) == body
    ensures o < |body| ==> body[..o] != body
  {
    assert body[..u] + body[u..u + k] + body[u + k..] == body;
  }

  lemma NextKeepsExactly(body: Bytes, overwrite: bool, w: World, s: Step, f: nat)
    requires Sane(|body|, w) && f < |w.files| && w.files[f] == body != []
    ensures f < |Next(body, overwrite, w, s).files|
    ensures Next(body, overwrite, w, s).files[f] == body <==> !(s.Open? && Cuts(w, s.h, f))
  {
    if s.Receive? && s.h in w.handles && w.handles[s.h].file == f {
      CompleteFile(body, w.handles[s.h].upTo, Taken(w.handles[s.h].upTo, s.n, |body|), 0);
    }
    if s.Open? && Cuts(w, s.h, f) { CompleteFile(body, 0, 0, w.looked[s.h]); }
    hide WriteAt;
  }

  /** At every moment of the schedule, f is the body. */
  predicate Always(body: Bytes, overwrite: bool, w: World, steps: seq<Step>, f: nat)
    decreases |steps|
  {
    && f < |w.files| && w.files[f] == body
    && (steps != [] ==> Always(body, overwrite, Next(body, overwrite, w, steps[0]), steps[1..], f))
  }

  /** Nobody opens f by the partial's name. */
  predicate NeverCut(body: Bytes, overwrite: bool, w: World, steps: seq<Step>, f: nat)
    decreases |steps|
  {
    steps != [] ==>
      && !(steps[0].Open? && Cuts(w, steps[0].h, f))
      && NeverCut(body, overwrite, Next(body, overwrite, w, steps[0]), steps[1..], f)
  }

  /** A complete file, placed or not, stays so at every moment exactly when nobody opens it by the partial's name. */
  lemma {:induction false} StaysCompleteExactly(body: Bytes, overwrite: bool, w: World, steps: seq<Step>, f: nat)
    requires Sane(|body|, w) && f < |w.files| && w.files[f] == body != []
    ensures Always(body, overwrite, w, steps, f) <==> NeverCut(body, overwrite, w, steps, f)
    decreases |steps|
  {
    hide Next, Sane, Cuts;
    if steps != [] {
      NextSane(body, overwrite, w, steps[0]);
      NextKeepsExactly(body, overwrite, w, steps[0], f);
      var w' := Next(body, overwrite, w, steps[0]);
      if w'.files[f] == body { StaysCompleteExactly(body, overwrite, w', steps[1..], f); }
    }
  }

  /** The partial's name never leads to an old file again once it does not. */
  lemma NameMovesOn(body: Bytes, overwrite: bool, w: World, s: Step, f: nat)
    requires f < |w.files| && w.partial != Some(f)
    ensures Next(body, overwrite, w, s).partial != Some(f)
  {
    hide WriteAt;
  }

  /** So a placed file is safe for good once its old name is gone: at once after a rename, else after the remove. */
  lemma {:induction false} SafeOnceUnlinked(body: Bytes, overwrite: bool, w: World, steps: seq<Step>, f: nat)
    requires Sane(|body|, w) && f < |w.files| && w.files[f] == body != [] && w.partial != Some(f)
    ensures Always(body, overwrite, w, steps, f)
    decreases |steps|
  {
    if steps != [] {
      NextSane(body, overwrite, w, steps[0]);
      NameMovesOn(body, overwrite, w, steps[0], f);
      NextKeepsExactly(body, overwrite, w, steps[0], f);
      hide Next, Sane;
      SafeOnceUnlinked(body, overwrite, Next(body, overwrite, w, steps[0]), steps[1..], f);
    }
  }

  /** Without overwriting, nobody gets to look while the destination is there. */
  lemma DestinationStands(body: Bytes, w: World, s: Step, f: nat)
    requires w.out == Some(f) && w.looked == map[] && !s.TakeOut?
    ensures var w' := Next(body, false, w, s); w'.out == Some(f) && w'.looked == map[]
  {
    hide WriteAt;
  }

  /**
   * So one transfer at a time is safe even if the remove after a link fails: as long as the destination stays where it
   * is, and nobody looked before it was there, no attempt gets as far as opening it.
   */
  lemma {:induction false} SafeInPlace(body: Bytes, w: World, steps: seq<Step>, f: nat)
    requires Sane(|body|, w) && f < |w.files| && w.files[f] == body != []
    requires w.out == Some(f) && w.looked == map[] && forall s :: s in steps ==> !s.TakeOut?
    ensures Always(body, false, w, steps, f)
    decreases |steps|
  {
    if steps != [] {
      assert steps[0] in steps;
      NextSane(body, false, w, steps[0]);
      NextKeepsExactly(body, false, w, steps[0], f);
      DestinationStands(body, w, steps[0], f);
      hide Next, Sane;
      SafeInPlace(body, Next(body, false, w, steps[0]), steps[1..], f);
    }
  }

  /**
   * One handler's bad end is everybody's: a wrong digest, a short stream or a cancel takes the name away, whoever else
   * writes to the file, and then nobody places anything until some handler opens a partial afresh. A cut takes nothing.
   */
  lemma BadEndTakesTheName(body: Bytes, overwrite: bool, w: World, h: Handler, other: Handler)
    requires h in w.handles
    ensures var ended, dropped, left :=
        Next(body, overwrite, w, End(h)), Next(body, overwrite, w, Drop(h)), Next(body, overwrite, w, Leave(h));
      && (w.handles[h].upTo != |body| || w.handles[h].digest != body ==>
            ended == w.(handles := w.handles - {h}, partial := None))
      && dropped == w.(handles := w.handles - {h}, partial := None)
      && left == w.(handles := w.handles - {h})
      && Next(body, overwrite, dropped, End(other)).out == w.out
  {
  }

  // ---- what every file holds, and what is placed ----

  /** A file without its bytes: how long it is, and where it has zeros that nobody sent. */
  datatype Shape = Shape(size: nat, holes: set<nat>)

  function CutShape(s: Shape, o: nat): Shape { Shape(o, s.holes - Span(o, s.size)) }

  function WrittenShape(s: Shape, u: nat, k: nat): Shape {
    Shape(if u + k > s.size then u + k else s.size, s.holes + Span(s.size, u) - Span(u, u + k))
  }

  /** The shapes of the files after a step, from the offsets and lengths of what is done to them. */
  function NextShapes(total: nat, w: World, shapes: seq<Shape>, s: Step): seq<Shape>
    requires |shapes| == |w.files|
  {
    match s
    case Open(h) =>
      if h in w.looked && w.partial.None? && w.looked[h] == 0 then shapes + [Shape(0, {})]
      else if w.partial.Some? && Cuts(w, h, w.partial.value) then
        shapes[w.partial.value := CutShape(shapes[w.partial.value], w.looked[h])]
      else shapes
    case Receive(h, n) =>
      if h !in w.handles || w.handles[h].file >= |w.files| then shapes
      else
        var Handle(f, u, _) := w.handles[h];
        var k := Taken(u, n, total);
        if k == 0 then shapes else shapes[f := WrittenShape(shapes[f], u, k)]
    case _ => shapes
  }

  /** The file has the body's bytes, but for its holes. */
  predicate Fits(body: Bytes, file: Bytes, s: Shape) {
    && |file| == s.size <= |body|
    && (forall j :: j in s.holes ==> j < s.size && file[j] == 0)
    && (forall j :: 0 <= j < s.size && j !in s.holes ==> file[j] == body[j])
  }

  /** The shape of a file that is the body: of its size, and with holes only where the body has zeros anyway. */
  predicate IsWhole(body: Bytes, s: Shape) {
    s.size == |body| && forall j :: j in s.holes ==> j < |body| && body[j] == 0
  }

  lemma CutFits(body: Bytes, file: Bytes, s: Shape, o: nat)
    requires Fits(body, file, s) && o <= |file|
    ensures Fits(body, file[..o], CutShape(s, o))
  {
  }

  lemma WriteFits(body: Bytes, file: Bytes, s: Shape, u: nat, k: nat)
    requires Fits(body, file, s) && 0 < k && u + k <= |body|
    ensures Fits(body, WriteAt(file, u, body[u..u + k]), WrittenShape(s, u, k))
  {
    var f := WriteAt(file, u, body[u..u + k]);
    assert forall i :: u <= i < u + k ==> f[i] == body[i];
    assert forall i :: 0 <= i < |file| && !(u <= i < u + k) ==> f[i] == file[i];
    assert forall i :: |file| <= i < u ==> f[i] == 0;
  }

  lemma FitsWhole(body: Bytes, file: Bytes, s: Shape)
    requires Fits(body, file, s)
    ensures file == body <==> IsWhole(body, s)
  {
  }

  predicate AllFit(body: Bytes, w: World, shapes: seq<Shape>) {
    |shapes| == |w.files| && forall f :: 0 <= f < |w.files| ==> Fits(body, w.files[f], shapes[f])
  }

  lemma OpenFits(body: Bytes, w: World, shapes: seq<Shape>, h: Handler)
    requires Sane(|body|, w) && AllFit(body, w, shapes)
    ensures AllFit(body, Opened(w, h), NextShapes(|body|, w, shapes, Open(h)))
  {
    if w.partial.Some? && Cuts(w, h, w.partial.value) {
      CutFits(body, w.files[w.partial.value], shapes[w.partial.value], w.looked[h]);
    }
    NothingFits(body);
    hide Fits, CutShape, WrittenShape;
  }

  lemma ReceiveFits(body: Bytes, w: World, shapes: seq<Shape>, h: Handler, n: nat)
    requires Sane(|body|, w) && AllFit(body, w, shapes)
    ensures AllFit(body, Received(body, w, h, n), NextShapes(|body|, w, shapes, Receive(h, n)))
  {
    if h in w.handles && Taken(w.handles[h].upTo, n, |body|) > 0 {
      var f, u := w.handles[h].file, w.handles[h].upTo;
      WriteFits(body, w.files[f], shapes[f], u, Taken(u, n, |body|));
    }
    hide WriteAt, Fits, CutShape, WrittenShape;
  }

  lemma NextFits(body: Bytes, overwrite: bool, w: World, shapes: seq<Shape>, s: Step)
    requires Sane(|body|, w) && AllFit(body, w, shapes)
    ensures AllFit(body, Next(body, overwrite, w, s), NextShapes(|body|, w, shapes, s))
  {
    match s
    case Open(h) => hide Opened, NextShapes, AllFit, Sane; OpenFits(body, w, shapes, h);
    case Receive(h, n) => hide Received, NextShapes, AllFit, Sane; ReceiveFits(body, w, shapes, h, n);
    case _ =>
      assert Next(body, overwrite, w, s).files == w.files;
      hide Next, Fits;
  }

  lemma NothingFits(body: Bytes)
    ensures Fits(body, [], Shape(0, {}))
  {
  }

  function Shapes(body: Bytes, overwrite: bool, w: World, shapes: seq<Shape>, steps: seq<Step>): seq<Shape>
    requires |shapes| == |w.files|
    decreases |steps|
  {
    if steps == [] then shapes
    else
      var w', shapes' := Next(body, overwrite, w, steps[0]), NextShapes(|body|, w, shapes, steps[0]);
      if |shapes'| == |w'.files| then Shapes(body, overwrite, w', shapes', steps[1..]) else shapes
  }

  lemma {:induction false} PlayFits(body: Bytes, overwrite: bool, w: World, shapes: seq<Shape>, steps: seq<Step>)
    requires Sane(|body|, w) && AllFit(body, w, shapes)
    ensures Sane(|body|, Play(body, overwrite, w, steps))
    ensures AllFit(body, Play(body, overwrite, w, steps), Shapes(body, overwrite, w, shapes, steps))
    decreases |steps|
  {
    if steps != [] {
      NextSane(body, overwrite, w, steps[0]);
      NextFits(body, overwrite, w, shapes, steps[0]);
      var w', shapes' := Next(body, overwrite, w, steps[0]), NextShapes(|body|, w, shapes, steps[0]);
      assert |shapes'| == |w'.files|;
      hide Next, NextShapes, Sane, Fits;
      PlayFits(body, overwrite, w', shapes', steps[1..]);
    }
  }

  /** Over every schedule, of every file: it is the body exactly when its shape is whole. */
  lemma WholeExactly(body: Bytes, overwrite: bool, steps: seq<Step>, f: nat)
    requires f < |Play(body, overwrite, EMPTY, steps).files|
    ensures var shapes := Shapes(body, overwrite, EMPTY, [], steps);
      f < |shapes| && (Play(body, overwrite, EMPTY, steps).files[f] == body <==> IsWhole(body, shapes[f]))
  {
    PlayFits(body, overwrite, EMPTY, [], steps);
    var w, shapes := Play(body, overwrite, EMPTY, steps), Shapes(body, overwrite, EMPTY, [], steps);
    hide Play, Shapes, IsWhole, Fits;
    FitsWhole(body, w.files[f], shapes[f]);
  }

  /**
   * What a handler places at its end of stream, with the whole body and the right digest behind it: the file the
   * partial's name leads to by then, its own or not, which is right exactly when that one's shape is whole.
   */
  lemma PlacesExactly(body: Bytes, overwrite: bool, steps: seq<Step>, h: Handler)
    requires var w := Play(body, overwrite, EMPTY, steps);
      Ready(body, w, h) && w.partial.Some? && (overwrite || w.out.None?)
    ensures var w := Play(body, overwrite, EMPTY, steps);
      var w' := Next(body, overwrite, w, End(h));
      var shapes := Shapes(body, overwrite, EMPTY, [], steps);
      && w'.out == w.partial && w'.out.value < |w'.files| == |shapes|
      && (w'.files[w'.out.value] == body <==> IsWhole(body, shapes[w'.out.value]))
  {
    PlayFits(body, overwrite, EMPTY, [], steps);
    var w := Play(body, overwrite, EMPTY, steps);
    WholeExactly(body, overwrite, steps, w.partial.value);
    hide Play, Shapes, IsWhole, Fits;
  }

  // ---- two schedules that go wrong ----

  /** A handler that has opened an empty partial as the file f. */
  function Fresh(f: nat): Handle { Handle(f, 0, []) }

  lemma PlayTwo(body: Bytes, overwrite: bool, w: World, s: Step, t: Step)
    ensures Play(body, overwrite, w, [s, t]) == Next(body, overwrite, Next(body, overwrite, w, s), t)
  {
    hide Next;
    var w' := Next(body, overwrite, w, s);
    assert [s, t][1..] == [t] && [t][1..] == [];
    assert Play(body, overwrite, w', [t]) == Next(body, overwrite, w', t);
  }

  lemma {:induction false} PlayAppend(body: Bytes, overwrite: bool, w: World, a: seq<Step>, b: seq<Step>)
    ensures Play(body, overwrite, w, a + b) == Play(body, overwrite, Play(body, overwrite, w, a), b)
    decreases |a|
  {
    hide Next;
    if a == [] {
      assert a + b == b;
    } else {
      assert (a + b)[1..] == a[1..] + b && (a + b)[0] == a[0];
      PlayAppend(body, overwrite, Next(body, overwrite, w, a[0]), a[1..], b);
    }
  }

  /** A fresh handler receives everything. */
  lemma ReceivesAll(body: Bytes, w: World, h: Handler, f: nat)
    requires h in w.handles && w.handles[h] == Fresh(f) && f < |w.files| && body != []
    requires w.files[f] == [] || w.files[f] == body
    ensures Received(body, w, h, |body|)
         == w.(files := w.files[f := body], handles := w.handles[h := Handle(f, |body|, body)])
  {
    assert body[0..|body|] == body && [] + body == body;
    assert WriteAt(w.files[f], 0, body) == body;
  }

  /** Two handlers look at a missing partial, one opens it, and both open it. */
  lemma BothLook(body: Bytes, overwrite: bool)
    ensures Play(body, overwrite, EMPTY, [Look(0), Look(1)]) == World([], None, None, map[0 := 0, 1 := 0], map[], {})
  {
    PlayTwo(body, overwrite, EMPTY, Look(0), Look(1));
    assert Next(body, overwrite, EMPTY, Look(0)) == World([], None, None, map[0 := 0], map[], {});
  }

  lemma FirstReceives(body: Bytes, overwrite: bool)
    requires body != []
    ensures Play(body, overwrite, World([], None, None, map[0 := 0, 1 := 0], map[], {}), [Open(0), Receive(0, |body|)])
         == World([body], Some(0), None, map[1 := 0], map[0 := Handle(0, |body|, body)], {})
  {
    var w := World([], None, None, map[0 := 0, 1 := 0], map[], {});
    PlayTwo(body, overwrite, w, Open(0), Receive(0, |body|));
    var w' := World([[]], Some(0), None, map[1 := 0], map[0 := Fresh(0)], {});
    assert Opened(w, 0) == w' by { assert map[0 := 0, 1 := 0] - {0} == map[1 := 0]; }
    ReceivesAll(body, w', 0, 0);
    hide Opened, Received;
  }

  lemma FirstLinks(body: Bytes)
    ensures Ended(body, false, World([body], Some(0), None, map[1 := 0], map[0 := Handle(0, |body|, body)], {}), 0)
         == World([body], Some(0), Some(0), map[1 := 0], map[], {0})
  {
    var none: map<Handler, Handle> := map[];
    assert map[0 := Handle(0, |body|, body)] - {0} == none;
  }

  lemma SecondOpensLate(body: Bytes)
    ensures Opened(World([body], Some(0), Some(0), map[1 := 0], map[], {0}), 1)
         == World([[]], Some(0), Some(0), map[], map[1 := Fresh(0)], {0})
  {
    var none: map<Handler, nat> := map[];
    assert map[1 := 0] - {1} == none && body[..0] == [];
  }

  lemma LinksAndIsOpened(body: Bytes)
    ensures Play(body, false, World([body], Some(0), None, map[1 := 0], map[0 := Handle(0, |body|, body)], {}),
                 [End(0), Open(1)])
         == World([[]], Some(0), Some(0), map[], map[1 := Fresh(0)], {0})
  {
    hide Ended, Opened, Play;
    FirstLinks(body);
    SecondOpensLate(body);
    var w := World([body], Some(0), None, map[1 := 0], map[0 := Handle(0, |body|, body)], {});
    PlayTwo(body, false, w, End(0), Open(1));
  }

  /**
   * Without overwriting: both handlers have looked while there was no destination; the first receives everything and
   * links; the second opens before the first removes the old name. The destination is left with an empty file.
   */
  lemma LinkedFileIsEmptied(body: Bytes)
    requires body != []
    ensures var end := Play(body, false, EMPTY,
                            [Look(0), Look(1)] + ([Open(0), Receive(0, |body|)] + [End(0), Open(1)]));
      end.out == Some(0) && end.files == [[]]
  {
    hide Play;
    BothLook(body, false);
    FirstReceives(body, false);
    LinksAndIsOpened(body);
    PlayAppend(body, false, EMPTY, [Look(0), Look(1)], [Open(0), Receive(0, |body|)] + [End(0), Open(1)]);
    var w := Play(body, false, EMPTY, [Look(0), Look(1)]);
    PlayAppend(body, false, w, [Open(0), Receive(0, |body|)], [End(0), Open(1)]);
  }

  /** Both handlers have everything, in the one file. */
  function BothDone(body: Bytes): World {
    World([body], Some(0), None, map[], map[0 := Handle(0, |body|, body), 1 := Handle(0, |body|, body)], {})
  }

  lemma Pairs<V>(a: V, b: V, c: V)
    ensures map[0 := a, 1 := b] - {0} == map[1 := b] && map[1 := a, 2 := b] - {1} == map[2 := b]
    ensures map[0 := a, 1 := b][1 := c] == map[0 := a, 1 := c] && map[0 := a][1 := b] == map[0 := a, 1 := b]
  {
  }

  lemma SecondOpens(body: Bytes)
    ensures Opened(World([body], Some(0), None, map[1 := 0], map[0 := Handle(0, |body|, body)], {}), 1)
         == World([[]], Some(0), None, map[], map[0 := Handle(0, |body|, body), 1 := Fresh(0)], {})
  {
    var done := Handle(0, |body|, body);
    Pairs(done, Fresh(0), done);
    assert body[..0] == [] && [body][0 := []] == [[]];
    var none: map<Handler, nat> := map[];
    assert map[1 := 0] - {1} == none;
  }

  lemma SecondReceives(body: Bytes)
    requires body != []
    ensures Play(body, true, World([body], Some(0), None, map[1 := 0], map[0 := Handle(0, |body|, body)], {}),
                 [Open(1), Receive(1, |body|)])
         == BothDone(body)
  {
    var done := Handle(0, |body|, body);
    var w := World([body], Some(0), None, map[1 := 0], map[0 := done], {});
    PlayTwo(body, true, w, Open(1), Receive(1, |body|));
    SecondOpens(body);
    var w' := World([[]], Some(0), None, map[], map[0 := done, 1 := Fresh(0)], {});
    ReceivesAll(body, w', 1, 0);
    hide Opened, Received, Play;
    Pairs(done, Fresh(0), done);
    assert [[]][0 := body] == [body];
  }

  lemma FirstEnds(body: Bytes)
    ensures Ended(body, true, BothDone(body), 0)
         == World([body], None, Some(0), map[], map[1 := Handle(0, |body|, body)], {})
  {
    Pairs(Handle(0, |body|, body), Handle(0, |body|, body), Fresh(0));
  }

  /** The first renames its file away, and a third handler finds no partial. */
  lemma FirstRenames(body: Bytes)
    ensures Play(body, true, BothDone(body), [End(0), Look(2)])
         == World([body], None, Some(0), map[2 := 0], map[1 := Handle(0, |body|, body)], {})
  {
    hide Ended, BothDone, Play, Looked;
    PlayTwo(body, true, BothDone(body), End(0), Look(2));
    FirstEnds(body);
    ThirdLooks(body, map[1 := Handle(0, |body|, body)]);
  }

  lemma ThirdLooks(body: Bytes, handles: map<Handler, Handle>)
    ensures Looked(|body|, true, World([body], None, Some(0), map[], handles, {}), 2)
         == World([body], None, Some(0), map[2 := 0], handles, {})
  {
    var none: map<Handler, nat> := map[];
    assert none[2 := 0] == map[2 := 0];
  }

  lemma ThirdReceives(body: Bytes, k: nat)
    requires 0 < k < |body|
    ensures Play(body, true, World([body], None, Some(0), map[2 := 0], map[1 := Handle(0, |body|, body)], {}),
                 [Open(2), Receive(2, k)])
         == World([body, body[..k]], Some(1), Some(0), map[],
                  map[1 := Handle(0, |body|, body), 2 := Handle(1, k, body[..k])], {})
  {
    var w := World([body], None, Some(0), map[2 := 0], map[1 := Handle(0, |body|, body)], {});
    PlayTwo(body, true, w, Open(2), Receive(2, k));
    var w' := World([body, []], Some(1), Some(0), map[],
                    map[1 := Handle(0, |body|, body), 2 := Fresh(1)], {});
    assert Opened(w, 2) == w' by {
      assert [body] + [[]] == [body, []];
      var none: map<Handler, nat> := map[];
      assert map[2 := 0] - {2} == none;
    }
    hide Opened;
    assert body[0..k] == body[..k] && [] + body[..k] == body[..k] && WriteAt([], 0, body[..k]) == body[..k];
    hide WriteAt;
    assert [body, []][1 := body[..k]] == [body, body[..k]];
  }

  lemma SecondEnds(body: Bytes, k: nat)
    requires 0 < k < |body|
    ensures Ended(body, true, World([body, body[..k]], Some(1), Some(0), map[],
                                    map[1 := Handle(0, |body|, body), 2 := Handle(1, k, body[..k])], {}), 1)
         == World([body, body[..k]], None, Some(1), map[], map[2 := Handle(1, k, body[..k])], {})
  {
    Pairs(Handle(0, |body|, body), Handle(1, k, body[..k]), Fresh(0));
  }

  /** And the second, whose digest is right, renames the third's file over the first's. */
  lemma SecondRenames(body: Bytes, k: nat)
    requires 0 < k < |body|
    ensures var end := Play(body, true, World([body, body[..k]], Some(1), Some(0), map[],
                                              map[1 := Handle(0, |body|, body), 2 := Handle(1, k, body[..k])], {}),
                            [End(1), Leave(2)]);
      end.out == Some(1) && end.files == [body, body[..k]]
  {
    var w := World([body, body[..k]], Some(1), Some(0), map[],
                   map[1 := Handle(0, |body|, body), 2 := Handle(1, k, body[..k])], {});
    hide Ended, Play;
    PlayTwo(body, true, w, End(1), Leave(2));
    SecondEnds(body, k);
  }

  /**
   * With overwriting: two handlers complete one file, the first renames it away, a third starts another under the old
   * name, and the second, with the right digest, places that one, k bytes long, over the complete file.
   */
  lemma AnothersFileIsPlaced(body: Bytes, k: nat)
    requires 0 < k < |body|
    ensures var end := Play(body, true, EMPTY,
                            [Look(0), Look(1)] + ([Open(0), Receive(0, |body|)] + ([Open(1), Receive(1, |body|)]
                            + ([End(0), Look(2)] + ([Open(2), Receive(2, k)] + [End(1), Leave(2)])))));
      end.out == Some(1) && end.files == [body, body[..k]]
  {
    hide Play, BothDone;
    var s1, s2, s3 := [Look(0), Look(1)], [Open(0), Receive(0, |body|)], [Open(1), Receive(1, |body|)];
    var s4, s5, s6 := [End(0), Look(2)], [Open(2), Receive(2, k)], [End(1), Leave(2)];
    BothLook(body, true);
    FirstReceives(body, true);
    SecondReceives(body);
    FirstRenames(body);
    ThirdReceives(body, k);
    SecondRenames(body, k);
    var w1 := Play(body, true, EMPTY, s1);
    var w2 := Play(body, true, w1, s2);
    var w3 := Play(body, true, w2, s3);
    var w4 := Play(body, true, w3, s4);
    PlayAppend(body, true, EMPTY, s1, s2 + (s3 + (s4 + (s5 + s6))));
    PlayAppend(body, true, w1, s2, s3 + (s4 + (s5 + s6)));
    PlayAppend(body, true, w2, s3, s4 + (s5 + s6));
    PlayAppend(body, true, w3, s4, s5 + s6);
    PlayAppend(body, true, w4, s5, s6);
  }
}
