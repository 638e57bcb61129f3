/**
 * The accept loop of the receiver: the per-address cap on connections in flight, and the semaphore over all transfers
 * of serve mode. Connections run concurrently; every schedule is a run of the machine below.
 */
module Admission {

  const PER_ADDRESS: nat := 2
  const TRANSFERS: nat := 8

  type Counts = map<string, nat>

  function CountOf(n: Counts, ip: string): nat { if ip in n then n[ip] else 0 }

  // ---- the cap ----

  /** The counts after acquiring for ip, and whether that was granted. */
  function Acquired(n: Counts, max: nat, ip: string): (Counts, bool) {
    if ip == "" then (n, true)
    else if CountOf(n, ip) >= max then (n, false)
    else (n[ip := CountOf(n, ip) + 1], true)
  }

  function Released(n: Counts, ip: string): Counts {
    if ip == "" || CountOf(n, ip) == 0 then n
    else if n[ip] == 1 then n - {ip}
    else n[ip := n[ip] - 1]
  }

  class InflightCap {
    var n: Counts
    const max: nat

    constructor (max: nat)
      ensures n == map[] && this.max == max
    {
      n := map[];
      this.max := max;
    }

    method Acquire(ip: string) returns (ok: bool)
      modifies this
      ensures (n, ok) == Acquired(old(n), max, ip)
    {
      if ip == "" { return true; }
      var count := if ip in n then n[ip] else 0;
      if count >= max { return false; }
      n := n[ip := count + 1];
      return true;
    }

    method Release(ip: string)
      modifies this
      ensures n == Released(old(n), ip)
    {
      if ip == "" { return; }
      if ip in n && n[ip] > 0 {
        n := n[ip := n[ip] - 1];
        if n[ip] == 0 { n := n - {ip}; }
      }
    }
  }

  // ---- the accept loop and its handlers ----

  /**
   * The accept loop holds at most one connection: in serve mode while it waits for the semaphore, in one-shot mode
   * while it handles it. Handlers are the goroutines of serve mode; a leaving one has given its address back but not
   * the semaphore yet.
   */
  datatype Loop = Loop(
    n: Counts,
    held: seq<string>,       // at most one
    running: multiset<string>,
    leaving: nat,
    sem: nat,                // taken places of the semaphore
    ended: bool)             // Receive has returned

  datatype Move =
    | Arrive(ip: string, throttled: bool) // a connection is accepted
    | Start                               // the semaphore has a place: a handler starts
    | Release(ip: string)                 // a handler is done, however, and gives its address back
    | Leave                               // and its place
    | Serve(done: bool)                   // one-shot: the connection in hand is done
    | Stop                                // the listener is closed

  predicate Enabled(serve: bool, st: Loop, m: Move) {
    match m
    case Arrive(_, _) => !st.ended && st.held == []
    case Start => serve && !st.ended && st.held != [] && st.sem < TRANSFERS
    case Release(ip) => ip in st.running
    case Leave => st.leaving > 0
    case Serve(_) => !serve && !st.ended && st.held != []
    case Stop => !st.ended && st.held == []
  }

  function Next(serve: bool, st: Loop, m: Move): Loop
    requires Enabled(serve, st, m)
  {
    match m
    case Arrive(ip, throttled) =>
      var (n, ok) := Acquired(st.n, PER_ADDRESS, ip);
      if throttled || !ok then st else st.(n := n, held := [ip])
    case Start => st.(held := [], running := st.running + multiset{st.held[0]}, sem := st.sem + 1)
    case Release(ip) =>
      st.(n := Released(st.n, ip), running := st.running - multiset{ip}, leaving := st.leaving + 1)
    case Leave => st.(leaving := st.leaving - 1, sem := if st.sem > 0 then st.sem - 1 else 0)
    case Serve(done) => st.(n := Released(st.n, st.held[0]), held := [], ended := done)
    case Stop => st.(ended := true)
  }

  const FRESH := Loop(map[], [], multiset{}, 0, 0, false)

  /** Moves that are not possible when their turn comes are passed over. */
  function Run(serve: bool, st: Loop, moves: seq<Move>): Loop
    decreases |moves|
  {
    if moves == [] then st
    else if !Enabled(serve, st, moves[0]) then Run(serve, st, moves[1..])
    else Run(serve, Next(serve, st, moves[0]), moves[1..])
  }

  /** The connections from ip that are admitted and not done. */
  function Live(st: Loop, ip: string): nat {
    st.running[ip] + if st.held == [ip] then 1 else 0
  }

  ghost predicate CountsLive(st: Loop) {
    && (forall ip :: ip != "" ==> CountOf(st.n, ip) == Live(st, ip) <= PER_ADDRESS)
    && (forall ip :: ip in st.n ==> st.n[ip] > 0)
    && "" !in st.n
  }

  predicate SemaphoreRight(serve: bool, st: Loop) {
    && |st.held| <= 1
    && st.sem == |st.running| + st.leaving <= TRANSFERS
    && (!serve ==> st.sem == 0)
  }

  /** Acquiring counts one more live connection, releasing one less, and neither touches another address. */
  lemma AcquiredCounts(n: Counts, ip: string)
    requires (forall i :: i in n ==> n[i] > 0) && "" !in n
    ensures var (n', ok) := Acquired(n, PER_ADDRESS, ip);
      && (forall i :: i in n' ==> n'[i] > 0) && "" !in n'
      && (forall i :: i != "" ==> CountOf(n', i) == CountOf(n, i) + if ok && i == ip then 1 else 0)
      && (ok && ip != "" ==> CountOf(n, ip) < PER_ADDRESS)
  {
  }

  lemma ReleasedCounts(n: Counts, ip: string)
    requires (forall i :: i in n ==> n[i] > 0) && "" !in n
    ensures var n' := Released(n, ip);
      && (forall i :: i in n' ==> n'[i] > 0) && "" !in n'
      && (forall i :: i != "" ==> CountOf(n', i) == CountOf(n, i) - if i == ip && ip in n then 1 else 0)
  {
  }

  /** By how much a move changes the number of live connections from ip. */
  function Change(serve: bool, st: Loop, m: Move, ip: string): int
    requires Enabled(serve, st, m)
  {
    match m
    case Arrive(i, throttled) => if !throttled && Acquired(st.n, PER_ADDRESS, i).1 && ip == i then 1 else 0
    case Release(i) => if ip == i then -1 else 0
    case Serve(_) => if ip == st.held[0] then -1 else 0
    case _ => 0
  }

  lemma LiveAfter(serve: bool, st: Loop, m: Move, ip: string)
    requires Enabled(serve, st, m) && SemaphoreRight(serve, st)
    ensures Live(Next(serve, st, m), ip) == Live(st, ip) + Change(serve, st, m, ip)
  {
    hide Acquired, Released;
    if m.Start? || m.Serve? { assert st.held == [st.held[0]]; }
  }

  lemma NextCounts(serve: bool, st: Loop, m: Move)
    requires Enabled(serve, st, m) && CountsLive(st) && SemaphoreRight(serve, st)
    ensures CountsLive(Next(serve, st, m))
  {
    var st' := Next(serve, st, m);
    match m {
      case Arrive(ip, _) => AcquiredCounts(st.n, ip);
      case Release(ip) => ReleasedCounts(st.n, ip); assert ip != "" ==> CountOf(st.n, ip) == Live(st, ip) > 0;
      case Serve(_) => ReleasedCounts(st.n, st.held[0]);
      case _ =>
    }
    forall ip | ip != ""
      ensures CountOf(st'.n, ip) == Live(st', ip) <= PER_ADDRESS
    {
      LiveAfter(serve, st, m, ip);
      hide Acquired, Released, CountOf, Live;
      assert CountOf(st.n, ip) == Live(st, ip) <= PER_ADDRESS;
    }
  }

  lemma NextSemaphore(serve: bool, st: Loop, m: Move)
    requires Enabled(serve, st, m) && SemaphoreRight(serve, st)
    ensures SemaphoreRight(serve, Next(serve, st, m))
  {
    hide Acquired, Released;
    if m.Release? {
      assert st.running == (st.running - multiset{m.ip}) + multiset{m.ip};
    }
  }

  /**
   * In every reachable state: each address's count is the number of its live connections, at most 2, with no zero
   * entries kept; and at most 8 handlers run, none of them in one-shot mode.
   */
  lemma {:induction false} AdmissionConserved(serve: bool, st: Loop, moves: seq<Move>)
    requires CountsLive(st) && SemaphoreRight(serve, st)
    ensures var end := Run(serve, st, moves); CountsLive(end) && SemaphoreRight(serve, end)
    decreases |moves|
  {
    if moves != [] {
      hide CountsLive, SemaphoreRight, Next, Enabled;
      if Enabled(serve, st, moves[0]) {
        NextCounts(serve, st, moves[0]);
        NextSemaphore(serve, st, moves[0]);
        AdmissionConserved(serve, Next(serve, st, moves[0]), moves[1..]);
      } else {
        AdmissionConserved(serve, st, moves[1..]);
      }
    }
  }

  /** A connection is turned away exactly when it is throttled or its address has 2 live connections already. */
  lemma TurnedAwayExactly(serve: bool, moves: seq<Move>, ip: string, throttled: bool)
    ensures var st := Run(serve, FRESH, moves);
      Enabled(serve, st, Arrive(ip, throttled)) ==>
        if throttled || (ip != "" && Live(st, ip) == 2) then Next(serve, st, Arrive(ip, throttled)) == st
        else Next(serve, st, Arrive(ip, throttled)).held == [ip]
  {
    AdmissionConserved(serve, FRESH, moves);
    var st := Run(serve, FRESH, moves);
    hide Run;
    if ip != "" { assert CountOf(st.n, ip) == Live(st, ip) <= PER_ADDRESS; }
  }

  /** Nothing leaks: once no connection is left, every count and every place is back, whatever happened before. */
  lemma NothingLeaks(serve: bool, moves: seq<Move>)
    ensures var end := Run(serve, FRESH, moves);
      end.held == [] && end.running == multiset{} && end.leaving == 0 ==> end.n == map[] && end.sem == 0
  {
    AdmissionConserved(serve, FRESH, moves);
    var end := Run(serve, FRESH, moves);
    hide Run;
    if end.held == [] && end.running == multiset{} {
      forall ip ensures ip !in end.n {
        assert ip != "" ==> CountOf(end.n, ip) == Live(end, ip);
      }
    }
  }

  /** Nothing is freed twice: what a handler gives back is always there to be taken off, by exactly one. */
  lemma ReleaseTakesOne(serve: bool, moves: seq<Move>, ip: string)
    ensures var st := Run(serve, FRESH, moves);
      && (Enabled(serve, st, Release(ip)) && ip != "" ==>
            CountOf(st.n, ip) > 0 && CountOf(Released(st.n, ip), ip) == CountOf(st.n, ip) - 1)
      && (Enabled(serve, st, Leave) ==> st.sem > 0)
  {
    AdmissionConserved(serve, FRESH, moves);
    var st := Run(serve, FRESH, moves);
    hide Run;
    if ip != "" { assert CountOf(st.n, ip) == Live(st, ip); }
  }

  /** The accept loop is never stuck for good: when it waits for a place, a handler holds one that can still leave. */
  lemma WaitsOnlyForHandlers(moves: seq<Move>)
    ensures var st := Run(true, FRESH, moves);
      st.held != [] && !st.ended && !Enabled(true, st, Start) ==>
        Enabled(true, st, Leave) || exists ip :: Enabled(true, st, Release(ip))
  {
    AdmissionConserved(true, FRESH, moves);
    var st := Run(true, FRESH, moves);
    hide Run;
    if st.held != [] && st.sem == TRANSFERS && st.leaving == 0 {
      assert |st.running| > 0;
      var ip :| ip in st.running;
      assert Enabled(true, st, Release(ip));
    }
  }

  // ---- the loop, told by its connections ----

  /** What the limits come to, and when each kind of step is possible, in every reachable state. */
  lemma LimitsExactly(serve: bool, moves: seq<Move>, ip: string)
    ensures var st := Run(serve, FRESH, moves);
      && (ip != "" ==> Live(st, ip) <= 2)
      && |st.running| + st.leaving <= 8 && |st.held| <= 1 && (!serve ==> |st.running| + st.leaving == 0)
      && (Enabled(serve, st, Start) <==> serve && !st.ended && st.held != [] && |st.running| + st.leaving < 8)
      && (Enabled(serve, st, Serve(true)) <==> !serve && !st.ended && st.held != [])
      && (Enabled(serve, st, Arrive(ip, false)) <==> !st.ended && st.held == [])
      && (Enabled(serve, st, Release(ip)) <==> ip in st.running)
  {
    AdmissionConserved(serve, FRESH, moves);
    hide Run;
  }

  /**
   * Receive returns when its listener is closed, or in one-shot mode with a connection that is done; from then on no
   * connection is accepted or started, but the handlers that run can still finish.
   */
  lemma EndsExactly(serve: bool, st: Loop, m: Move, later: Move)
    requires Enabled(serve, st, m)
    ensures var st' := Next(serve, st, m);
      && (st'.ended <==> st.ended || m == Stop || m == Serve(true))
      && (st'.ended && Enabled(serve, st', later) ==> later.Release? || later.Leave?)
  {
    hide Acquired, Released;
  }

  /** The move admits a connection from ip: not throttled, and from an address with fewer than 2 live ones, or none. */
  predicate Admits(serve: bool, st: Loop, m: Move, ip: string) {
    Enabled(serve, st, m) && m == Arrive(ip, false) && (ip == "" || Live(st, ip) < 2)
  }

  /** The move is the end of a connection from ip. */
  predicate Finishes(serve: bool, st: Loop, m: Move, ip: string) {
    Enabled(serve, st, m) && (m == Release(ip) || (m.Serve? && st.held == [ip]))
  }

  function Admissions(serve: bool, st: Loop, moves: seq<Move>, ip: string): nat
    decreases |moves|
  {
    if moves == [] then 0
    else
      (if Admits(serve, st, moves[0], ip) then 1 else 0)
        + Admissions(serve, if Enabled(serve, st, moves[0]) then Next(serve, st, moves[0]) else st, moves[1..], ip)
  }

  function Endings(serve: bool, st: Loop, moves: seq<Move>, ip: string): nat
    decreases |moves|
  {
    if moves == [] then 0
    else
      (if Finishes(serve, st, moves[0], ip) then 1 else 0)
        + Endings(serve, if Enabled(serve, st, moves[0]) then Next(serve, st, moves[0]) else st, moves[1..], ip)
  }

  lemma MoveAddsUp(serve: bool, st: Loop, m: Move, ip: string)
    requires Enabled(serve, st, m) && CountsLive(st) && SemaphoreRight(serve, st)
    ensures Live(Next(serve, st, m), ip) + (if Finishes(serve, st, m, ip) then 1 else 0)
         == Live(st, ip) + (if Admits(serve, st, m, ip) then 1 else 0)
  {
    LiveAfter(serve, st, m, ip);
    if ip != "" { assert CountOf(st.n, ip) == Live(st, ip) <= PER_ADDRESS; }
    hide Live, Released, CountOf, CountsLive;
  }

  /**
   * No connection is lost: over every schedule, those that were admitted from an address are those still live and those
   * that have come to their end.
   */
  lemma {:induction false} NoneIsLost(serve: bool, st: Loop, moves: seq<Move>, ip: string)
    requires CountsLive(st) && SemaphoreRight(serve, st)
    ensures Live(Run(serve, st, moves), ip) + Endings(serve, st, moves, ip)
         == Live(st, ip) + Admissions(serve, st, moves, ip)
    decreases |moves|
  {
    if moves != [] {
      hide CountsLive, SemaphoreRight, Next, Enabled, Live, Admits, Finishes;
      var m := moves[0];
      assert Admits(serve, st, m, ip) || Finishes(serve, st, m, ip) ==> Enabled(serve, st, m) by {
        OnlyEnabledCount(serve, st, m, ip);
      }
      if Enabled(serve, st, m) {
        NextCounts(serve, st, m);
        NextSemaphore(serve, st, m);
        MoveAddsUp(serve, st, m, ip);
        NoneIsLost(serve, Next(serve, st, m), moves[1..], ip);
      } else {
        NoneIsLost(serve, st, moves[1..], ip);
      }
    }
  }

  lemma OnlyEnabledCount(serve: bool, st: Loop, m: Move, ip: string)
    ensures Admits(serve, st, m, ip) || Finishes(serve, st, m, ip) ==> Enabled(serve, st, m)
  {
    hide Enabled;
  }
}
