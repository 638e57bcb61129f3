/**
 * The per-address rate throttle of the receiver: a sliding window kept in place in per-address slices, with the whole
 * map pruned when it grows, against a checker that keeps every allowed time for ever.
 */
module Throttle {

  const PRUNE_ABOVE: nat := 1024

  type Times = seq<int>
  type Table = map<string, Times>

  function At(t: Table, ip: string): Times { if ip in t then t[ip] else [] }

  /** The times of ts that fall inside the window ending at now, in order. */
  function Recent(ts: Times, now: int, window: int): Times {
    if ts == [] then []
    else
      var rest := Recent(ts[..|ts| - 1], now, window);
      if now - ts[|ts| - 1] < window then rest + [ts[|ts| - 1]] else rest
  }

  predicate Stale(ts: Times, now: int, window: int) {
    ts == [] || now - ts[|ts| - 1] > window
  }

  function WithoutStale(t: Table, now: int, window: int): Table {
    map k | k in t && !Stale(t[k], now, window) :: t[k]
  }

  function Pruned(t: Table, now: int, window: int): Table {
    if |t| > PRUNE_ABOVE then WithoutStale(t, now, window) else t
  }

  function Kept(t: Table, ip: string, now: int, window: int): Times {
    Recent(At(Pruned(t, now, window), ip), now, window)
  }

  predicate Allows(t: Table, max: nat, ip: string, now: int, window: int) {
    ip == "" || |Kept(t, ip, now, window)| < max
  }

  /** The table after an attempt from ip. */
  function After(t: Table, max: nat, ip: string, now: int, window: int): Table {
    if ip == "" then t
    else
      var kept := Kept(t, ip, now, window);
      Pruned(t, now, window)[ip := if |kept| < max then kept + [now] else kept]
  }

  // ---- the code ----

  /** A Go slice: a length within a backing array, which the slice may be filtered or extended in. */
  datatype Slice = Slice(data: array<int>, len: nat)

  ghost predicate InBounds(s: Slice) { s.len <= s.data.Length }

  ghost function Content(s: Slice): Times
    requires InBounds(s)
    reads s.data
  {
    s.data[..s.len]
  }

  /** kept := s[:0], and the loop that appends to it what is recent in s. */
  method FilterInPlace(s: Slice, now: int, window: int) returns (kept: Slice)
    requires InBounds(s)
    modifies s.data
    ensures kept.data == s.data && kept.len <= s.len
    ensures Content(kept) == Recent(old(Content(s)), now, window)
  {
    ghost var was := Content(s);
    var w, r := 0, 0;
    while r < s.len
      invariant 0 <= w <= r <= s.len
      invariant forall k :: r <= k < s.len ==> s.data[k] == was[k]
      invariant s.data[..w] == Recent(was[..r], now, window)
    {
      var ts := s.data[r];
      assert ts == was[r] && was[..r + 1][..r] == was[..r];
      if now - ts < window {
        ghost var front := s.data[..w];
        s.data[w] := ts;
        w := w + 1;
        assert s.data[..w] == front + [ts];
      }
      r := r + 1;
    }
    assert was[..r] == was;
    kept := Slice(s.data, w);
  }

  /** Go's append of one element: in place if the backing array has room, else into a new one. */
  method Append(s: Slice, now: int) returns (t: Slice)
    requires InBounds(s)
    modifies s.data
    ensures InBounds(t) && Content(t) == old(Content(s)) + [now]
    ensures t.data == s.data || fresh(t.data)
  {
    if s.len < s.data.Length {
      s.data[s.len] := now;
      t := Slice(s.data, s.len + 1);
    } else {
      var bigger := new int[2 * s.len + 1];
      for i := 0 to s.len
        invariant bigger[..i] == s.data[..i] && s.data[..] == old(s.data[..])
      {
        bigger[i] := s.data[i];
      }
      bigger[s.len] := now;
      t := Slice(bigger, s.len + 1);
    }
  }

  /** Every slice fits its array, and no two addresses share one. */
  ghost predicate Separate(seen: map<string, Slice>) {
    && (forall k :: k in seen ==> InBounds(seen[k]))
    && (forall k, l :: k in seen && l in seen && k != l ==> seen[k].data != seen[l].data)
  }

  ghost predicate Unshared(seen: map<string, Slice>, ip: string, s: Slice) {
    forall k :: k in seen && k != ip ==> seen[k].data != s.data
  }

  lemma StoreSeparate(seen: map<string, Slice>, ip: string, s: Slice)
    requires Separate(seen) && InBounds(s) && Unshared(seen, ip, s)
    ensures Separate(seen[ip := s])
  {
  }

  ghost predicate Subtable(seen: map<string, Slice>, before: map<string, Slice>) {
    forall k :: k in seen ==> k in before && seen[k] == before[k]
  }

  lemma SubtableSeparate(seen: map<string, Slice>, before: map<string, Slice>)
    requires Separate(before) && Subtable(seen, before)
    ensures Separate(seen)
  {
  }

  /** The slices, which live in `arrays`, hold the lists of the table, except at the addresses skipped. */
  ghost predicate Mirrors(seen: map<string, Slice>, t: Table, arrays: set<array<int>>, skip: set<string>)
    reads arrays
  {
    && Separate(seen)
    && (forall k :: k in seen <==> k in t)
    && (forall k :: k in seen ==> seen[k].data in arrays)
    && (forall k :: k in seen && k !in skip ==> Content(seen[k]) == t[k])
  }

  ghost predicate LeavesCurrent(left: map<string, Slice>, t: Table, now: int, window: int) {
    forall k :: k in t ==> (k in left <==> !Stale(t[k], now, window))
  }

  lemma MirrorsCurrent(seen: map<string, Slice>, left: map<string, Slice>, t: Table, arrays: set<array<int>>,
                       now: int, window: int)
    requires Mirrors(seen, t, arrays, {}) && Subtable(left, seen) && LeavesCurrent(left, t, now, window)
    ensures Mirrors(left, WithoutStale(t, now, window), arrays, {})
  {
    SubtableSeparate(left, seen);
    hide Stale, Separate, Content;
  }

  lemma MirrorsStore(seen: map<string, Slice>, t: Table, arrays: set<array<int>>, ip: string, s: Slice)
    requires Mirrors(seen, t, arrays, {ip}) && InBounds(s) && Unshared(seen, ip, s)
    ensures Mirrors(seen[ip := s], t[ip := Content(s)], arrays + {s.data}, {})
  {
    StoreSeparate(seen, ip, s);
    hide Separate, Unshared, Content;
  }

  class IpThrottle {
    var seen: map<string, Slice>
    const max: nat
    const window: int
    ghost var contents: Table           // what the slices hold
    ghost var arrays: set<array<int>>   // every array they have lived in

    ghost predicate Valid()
      reads this, arrays
    {
      Mirrors(seen, contents, arrays, {})
    }

    /** Valid but for what is at ip. */
    ghost predicate HoldsBut(ip: string)
      reads this, arrays
    {
      Mirrors(seen, contents, arrays, {ip})
    }

    constructor (max: nat, window: int)
      ensures Valid() && arrays == {} && contents == map[]
      ensures this.max == max && this.window == window
    {
      this.seen, this.contents, this.arrays := map[], map[], {};
      this.max, this.window := max, window;
    }

    method IsStale(ts: Slice, now: int) returns (stale: bool)
      requires InBounds(ts)
      ensures stale == Stale(Content(ts), now, window)
    {
      stale := ts.len == 0 || now - ts.data[ts.len - 1] > window;
    }

    /** The table without the entries that have gone stale, deleted one key at a time. */
    method Current(now: int) returns (left: map<string, Slice>)
      requires Valid()
      ensures Subtable(left, seen) && LeavesCurrent(left, contents, now, window)
    {
      var keys := seen.Keys;
      left := seen;
      while keys != {}
        invariant keys <= seen.Keys && Subtable(left, seen)
        invariant forall k :: k in seen ==> (k in left <==> (k in keys || !Stale(contents[k], now, window)))
        decreases keys
      {
        hide Stale;
        var k :| k in keys;
        keys := keys - {k};
        var stale := IsStale(seen[k], now);
        if stale { left := left - {k}; }
      }
    }

    method Prune(now: int)
      requires Valid()
      modifies this`seen, this`contents
      ensures Valid() && contents == WithoutStale(old(contents), now, window)
    {
      hide Mirrors, Subtable, LeavesCurrent, WithoutStale;
      var left := Current(now);
      MirrorsCurrent(seen, left, contents, arrays, now, window);
      contents := WithoutStale(contents, now, window);
      seen := left;
    }

    /** Bounds the memory the table takes. */
    method PruneWhenLarge(now: int)
      requires Valid()
      modifies this`seen, this`contents
      ensures Valid() && contents == Pruned(old(contents), now, window)
    {
      assert |seen| == |contents| by { assert seen.Keys == contents.Keys && |seen.Keys| == |contents.Keys|; }
      hide WithoutStale;
      if |seen| > PRUNE_ABOVE { Prune(now); }
    }

    /** The slice at ip, or an empty one, filtered in its own storage. */
    method Window(ip: string, now: int) returns (kept: Slice)
      requires Valid()
      modifies this`arrays, arrays
      ensures InBounds(kept) && Unshared(seen, ip, kept) && kept.data in arrays && fresh(arrays - old(arrays))
      ensures Content(kept) == Recent(At(contents, ip), now, window)
      ensures HoldsBut(ip)
    {
      var mine: Slice;
      if ip in seen {
        mine := seen[ip];
      } else {
        var none := new int[0];
        mine := Slice(none, 0);
        arrays := arrays + {none};
      }
      hide Recent;
      assert Content(mine) == At(contents, ip);
      kept := FilterInPlace(mine, now, window);
    }

    method Store(ip: string, s: Slice)
      requires HoldsBut(ip) && InBounds(s) && Unshared(seen, ip, s)
      modifies this`seen, this`contents, this`arrays
      ensures Valid() && contents == old(contents)[ip := Content(s)]
      ensures arrays == old(arrays) + {s.data}
    {
      MirrorsStore(seen, contents, arrays, ip, s);
      hide Mirrors, Unshared, Content;
      seen := seen[ip := s];
      contents := contents[ip := Content(s)];
      arrays := arrays + {s.data};
    }

    /** Append in this setting: the other slices keep their content. */
    method Extend(ip: string, kept: Slice, now: int) returns (grown: Slice)
      requires HoldsBut(ip) && InBounds(kept) && Unshared(seen, ip, kept)
      modifies kept.data
      ensures InBounds(grown) && Unshared(seen, ip, grown) && (grown.data == kept.data || fresh(grown.data))
      ensures Content(grown) == old(Content(kept)) + [now]
      ensures HoldsBut(ip)
    {
      grown := Append(kept, now);
    }

    /** Stores what is kept, with the new time if there is room for it. */
    method Record(ip: string, kept: Slice, now: int) returns (ok: bool)
      requires HoldsBut(ip) && InBounds(kept) && Unshared(seen, ip, kept)
      modifies this`seen, this`contents, this`arrays, kept.data
      ensures Valid() && fresh(arrays - old(arrays) - {kept.data})
      ensures ok == (kept.len < max)
      ensures contents == old(contents)[ip := if ok then old(Content(kept)) + [now] else old(Content(kept))]
    {
      hide HoldsBut, Unshared, Separate, Valid, Content, InBounds;
      ok := kept.len < max;
      var mine := kept;
      if ok { mine := Extend(ip, kept, now); }
      Store(ip, mine);
    }

    /** Whether an attempt from ip at time now may go on. */
    method Allow(ip: string, now: int) returns (ok: bool)
      requires Valid()
      modifies this`seen, this`contents, this`arrays, arrays
      ensures Valid() && fresh(arrays - old(arrays))
      ensures ok == Allows(old(contents), max, ip, now, window)
      ensures contents == After(old(contents), max, ip, now, window)
    {
      if ip == "" { return true; }
      hide Recent, Pruned, Separate, HoldsBut, Unshared, Valid, At;
      PruneWhenLarge(now);
      var kept := Window(ip, now);
      ok := Record(ip, kept, now);
    }
  }

  // ---- the naive checker, and the refinement ----

  datatype Attempt = Attempt(ip: string, now: int)

  /** Every allowed time so far, by address. */
  type History = map<string, Times>

  predicate NaiveAllows(h: History, max: nat, a: Attempt, window: int) {
    a.ip == "" || |Recent(At(h, a.ip), a.now, window)| < max
  }

  function Remember(h: History, max: nat, a: Attempt, window: int): History {
    if a.ip != "" && NaiveAllows(h, max, a, window) then h[a.ip := At(h, a.ip) + [a.now]] else h
  }

  /** The throttle's answers over a run of attempts, and the table it ends with. */
  function Answers(t: Table, max: nat, window: int, run: seq<Attempt>): (r: seq<bool>)
    decreases |run|
  {
    if run == [] then []
    else
      [Allows(t, max, run[0].ip, run[0].now, window)]
        + Answers(After(t, max, run[0].ip, run[0].now, window), max, window, run[1..])
  }

  function NaiveAnswers(h: History, max: nat, window: int, run: seq<Attempt>): (r: seq<bool>)
    decreases |run|
  {
    if run == [] then []
    else [NaiveAllows(h, max, run[0], window)] + NaiveAnswers(Remember(h, max, run[0], window), max, window, run[1..])
  }

  function Recorded(h: History, max: nat, window: int, run: seq<Attempt>): History
    decreases |run|
  {
    if run == [] then h else Recorded(Remember(h, max, run[0], window), max, window, run[1..])
  }

  /** The attempts' times do not go backwards, from `since` on. */
  predicate Forward(since: int, run: seq<Attempt>)
    decreases |run|
  {
    run != [] ==> since <= run[0].now && Forward(run[0].now, run[1..])
  }

  predicate Sorted(ts: Times) { forall i, j :: 0 <= i < j < |ts| ==> ts[i] <= ts[j] }

  predicate UpTo(ts: Times, now: int) { Sorted(ts) && forall i :: 0 <= i < |ts| ==> ts[i] <= now }

  /** What the window has dropped once it never needs again. */
  lemma {:induction false} RecentLater(ts: Times, before: int, now: int, window: int)
    requires before <= now
    ensures Recent(Recent(ts, before, window), now, window) == Recent(ts, now, window)
  {
    if ts != [] {
      var front, last := ts[..|ts| - 1], ts[|ts| - 1];
      RecentLater(front, before, now, window);
      if before - last < window {
        var r := Recent(front, before, window);
        assert (r + [last])[..|r|] == r;
      }
    }
  }

  lemma {:induction false} RecentOfOld(ts: Times, now: int, window: int)
    requires Sorted(ts) && Stale(ts, now, window)
    ensures Recent(ts, now, window) == []
  {
    if ts != [] {
      var front := ts[..|ts| - 1];
      if front != [] {
        assert front[|front| - 1] <= ts[|ts| - 1];
      }
      RecentOfOld(front, now, window);
    }
  }

  lemma {:induction false} RecentKeepsOrder(ts: Times, now: int, window: int, bound: int)
    requires UpTo(ts, bound)
    ensures UpTo(Recent(ts, now, window), bound) && |Recent(ts, now, window)| <= |ts|
  {
    if ts != [] {
      RecentKeepsOrder(ts[..|ts| - 1], now, window, ts[|ts| - 1]);
    }
  }

  /** What the table has for an address against the history's: the same times within the window. */
  predicate AgreesAt(mine: Times, all: Times, clock: int, window: int) {
    Recent(mine, clock, window) == Recent(all, clock, window) && UpTo(mine, clock) && UpTo(all, clock)
  }

  ghost predicate Agrees(t: Table, h: History, clock: int, window: int) {
    forall ip :: AgreesAt(At(t, ip), At(h, ip), clock, window)
  }

  lemma ListLater(mine: Times, all: Times, clock: int, now: int, window: int)
    requires AgreesAt(mine, all, clock, window) && clock <= now
    ensures AgreesAt(mine, all, now, window)
    ensures Stale(mine, now, window) ==> AgreesAt([], all, now, window)
  {
    RecentLater(mine, clock, now, window);
    RecentLater(all, clock, now, window);
    if Stale(mine, now, window) { RecentOfOld(mine, now, window); }
  }

  lemma OwnListLater(mine: Times, all: Times, now: int, window: int)
    requires AgreesAt(mine, all, now, window)
    ensures var kept := Recent(mine, now, window);
      AgreesAt(kept, all, now, window) && AgreesAt(kept + [now], all + [now], now, window)
  {
    var kept := Recent(mine, now, window);
    RecentIdempotent(mine, now, window);
    RecentKeepsOrder(mine, now, window, now);
    RecentAppend(kept, now, now, window);
    RecentAppend(all, now, now, window);
    hide Recent, UpTo;
    UpToAppend(kept, now);
    UpToAppend(all, now);
  }

  lemma UpToAppend(ts: Times, now: int)
    requires UpTo(ts, now)
    ensures UpTo(ts + [now], now)
  {
  }

  lemma {:induction false} RecentIdempotent(ts: Times, now: int, window: int)
    ensures Recent(Recent(ts, now, window), now, window) == Recent(ts, now, window)
  {
    RecentLater(ts, now, now, window);
  }

  lemma RecentAppend(ts: Times, x: int, now: int, window: int)
    ensures Recent(ts + [x], now, window)
         == if now - x < window then Recent(ts, now, window) + [x] else Recent(ts, now, window)
  {
    assert (ts + [x])[..|ts|] == ts;
  }

  /** What an attempt may do to an address's list: nothing, drop it when stale, or filter and extend it. */
  lemma AfterAt(t: Table, max: nat, a: Attempt, ip: string, window: int)
    ensures var mine, mine' := At(t, ip), At(After(t, max, a.ip, a.now, window), ip);
      var swept := At(Pruned(t, a.now, window), ip);
      var kept := Recent(swept, a.now, window);
      && (swept == mine || (swept == [] && Stale(mine, a.now, window)))
      && (a.ip == "" ==> mine' == mine)
      && (a.ip != "" && ip != a.ip ==> mine' == swept)
      && (a.ip != "" && ip == a.ip ==> mine' == if |kept| < max then kept + [a.now] else kept)
  {
    hide Recent, Stale;
  }

  lemma RememberAt(h: History, max: nat, a: Attempt, ip: string, window: int)
    ensures At(Remember(h, max, a, window), ip)
         == if ip == a.ip && ip != "" && |Recent(At(h, ip), a.now, window)| < max
            then At(h, ip) + [a.now] else At(h, ip)
  {
    hide Recent;
  }

  lemma SweptAgrees(t: Table, h: History, clock: int, ip: string, now: int, window: int)
    requires Agrees(t, h, clock, window) && clock <= now
    ensures AgreesAt(At(t, ip), At(h, ip), now, window)
    ensures AgreesAt(At(Pruned(t, now, window), ip), At(h, ip), now, window)
  {
    assert AgreesAt(At(t, ip), At(h, ip), clock, window);
    ListLater(At(t, ip), At(h, ip), clock, now, window);
    hide AgreesAt, Stale;
  }

  /** One attempt keeps the agreement, and both give the same answer. */
  lemma AttemptAgrees(t: Table, h: History, clock: int, max: nat, a: Attempt, window: int)
    requires Agrees(t, h, clock, window) && clock <= a.now
    ensures Allows(t, max, a.ip, a.now, window) == NaiveAllows(h, max, a, window)
    ensures Agrees(After(t, max, a.ip, a.now, window), Remember(h, max, a, window), a.now, window)
  {
    assert Recent(At(Pruned(t, a.now, window), a.ip), a.now, window) == Recent(At(h, a.ip), a.now, window) by {
      SweptAgrees(t, h, clock, a.ip, a.now, window);
      hide Agrees, Recent, UpTo;
    }
    hide Recent, After, Remember, Pruned;
    forall ip
      ensures AgreesAt(At(After(t, max, a.ip, a.now, window), ip), At(Remember(h, max, a, window), ip), a.now, window)
    {
      SweptAgrees(t, h, clock, ip, a.now, window);
      AfterAt(t, max, a, ip, window);
      RememberAt(h, max, a, ip, window);
      OwnListLater(At(Pruned(t, a.now, window), ip), At(h, ip), a.now, window);
      hide AgreesAt, Agrees, At, Stale;
    }
  }

  /** Over every run with a clock that does not go back, the throttle answers as the checker with the full history. */
  lemma {:induction false} ThrottleRefinesHistory(t: Table, h: History, clock: int, max: nat, window: int,
                                                  run: seq<Attempt>)
    requires Agrees(t, h, clock, window) && Forward(clock, run)
    ensures Answers(t, max, window, run) == NaiveAnswers(h, max, window, run)
    decreases |run|
  {
    if run != [] {
      AttemptAgrees(t, h, clock, max, run[0], window);
      ThrottleRefinesHistory(After(t, max, run[0].ip, run[0].now, window), Remember(h, max, run[0], window),
                             run[0].now, max, window, run[1..]);
    }
  }

  /** In particular from the empty throttle and the empty history. */
  lemma FreshThrottleRefinesHistory(clock: int, max: nat, window: int, run: seq<Attempt>)
    requires Forward(clock, run)
    ensures Answers(map[], max, window, run) == NaiveAnswers(map[], max, window, run)
  {
    ThrottleRefinesHistory(map[], map[], clock, max, window, run);
  }

  // ---- what the answers guarantee ----

  /** Any max + 1 allowed attempts in a row take at least the window. */
  predicate Spaced(ts: Times, max: nat, window: int) {
    forall i :: 0 <= i && i + max < |ts| ==> ts[i + max] - ts[i] >= window
  }

  /** The recent times of a sorted list are its tail. */
  lemma {:induction false} RecentIsTail(ts: Times, now: int, window: int, k: nat)
    requires Sorted(ts) && k <= |ts| && (k < |ts| ==> now - ts[|ts| - 1 - k] < window)
    ensures k < |ts| ==> |Recent(ts, now, window)| > k
  {
    if k < |ts| {
      var front := ts[..|ts| - 1];
      if k > 0 {
        assert front[|front| - 1 - (k - 1)] == ts[|ts| - 1 - k];
        assert ts[|ts| - 1 - k] <= ts[|ts| - 1];
        RecentIsTail(front, now, window, k - 1);
      }
    }
  }

  lemma RememberSpaced(h: History, max: nat, a: Attempt, window: int)
    requires UpTo(At(h, a.ip), a.now) && Spaced(At(h, a.ip), max, window)
    ensures Spaced(At(Remember(h, max, a, window), a.ip), max, window)
    ensures UpTo(At(Remember(h, max, a, window), a.ip), a.now)
  {
    var ts := At(h, a.ip);
    if a.ip != "" && NaiveAllows(h, max, a, window) && |ts| >= max && max > 0 {
      if a.now - ts[|ts| - max] < window { RecentIsTail(ts, a.now, window, max - 1); }
    }
  }

  /**
   * From one address, whatever the run: of any max + 1 allowed attempts, the last is at least a window after the
   * first.
   */
  lemma {:induction false} AllowedAttemptsAreSpaced(h: History, clock: int, max: nat, window: int, run: seq<Attempt>,
                                                    ip: string)
    requires Forward(clock, run)
    requires forall q :: UpTo(At(h, q), clock) && Spaced(At(h, q), max, window)
    ensures Spaced(At(Recorded(h, max, window, run), ip), max, window)
    decreases |run|
  {
    if run != [] {
      var a := run[0];
      var h' := Remember(h, max, a, window);
      forall q ensures UpTo(At(h', q), a.now) && Spaced(At(h', q), max, window) {
        assert UpTo(At(h, q), clock) && Spaced(At(h, q), max, window);
        if q == a.ip { RememberSpaced(h, max, a, window); } else { assert At(h', q) == At(h, q); }
      }
      AllowedAttemptsAreSpaced(h', a.now, max, window, run[1..], ip);
    }
  }

  /** The times at which a run's answers let ip through. */
  function Granted(run: seq<Attempt>, answers: seq<bool>, ip: string): Times
    requires |answers| == |run|
    decreases |run|
  {
    if run == [] then []
    else (if answers[0] && run[0].ip == ip then [run[0].now] else []) + Granted(run[1..], answers[1..], ip)
  }

  lemma {:induction false} AnswersLength(h: History, max: nat, window: int, run: seq<Attempt>)
    ensures |NaiveAnswers(h, max, window, run)| == |run|
    decreases |run|
  {
    if run != [] { AnswersLength(Remember(h, max, run[0], window), max, window, run[1..]); }
  }

  lemma GrantedFirst(run: seq<Attempt>, answer: bool, rest: seq<bool>, ip: string)
    requires run != [] && |rest| == |run[1..]|
    ensures Granted(run, [answer] + rest, ip)
         == (if answer && run[0].ip == ip then [run[0].now] else []) + Granted(run[1..], rest, ip)
  {
    assert ([answer] + rest)[1..] == rest;
  }

  lemma FirstRemembered(h: History, max: nat, a: Attempt, window: int, ip: string)
    requires ip != ""
    ensures At(Remember(h, max, a, window), ip)
         == At(h, ip) + (if NaiveAllows(h, max, a, window) && a.ip == ip then [a.now] else [])
  {
    hide Recent;
  }

  lemma Associative(a: Times, b: Times, c: Times)
    ensures (a + b) + c == a + (b + c)
  {
  }

  lemma {:induction false} RecordedIsGranted(h: History, max: nat, window: int, run: seq<Attempt>, ip: string)
    requires ip != ""
    ensures |NaiveAnswers(h, max, window, run)| == |run|
    ensures At(Recorded(h, max, window, run), ip) == At(h, ip) + Granted(run, NaiveAnswers(h, max, window, run), ip)
    decreases |run|
  {
    AnswersLength(h, max, window, run);
    hide Recent, At, Remember, NaiveAllows;
    if run != [] {
      var a, tail := run[0], run[1..];
      var h' := Remember(h, max, a, window);
      var answer, rest := NaiveAllows(h, max, a, window), NaiveAnswers(h', max, window, tail);
      assert NaiveAnswers(h, max, window, run) == [answer] + rest;
      assert Recorded(h, max, window, run) == Recorded(h', max, window, tail);
      hide NaiveAnswers, Recorded, Granted;
      RecordedIsGranted(h', max, window, tail, ip);
      FirstRemembered(h, max, a, window, ip);
      GrantedFirst(run, answer, rest, ip);
      Associative(At(h, ip), if answer && a.ip == ip then [a.now] else [], Granted(tail, rest, ip));
    }
  }

  /**
   * What the throttle is for: over any run with a clock that does not go back, among any max + 1 attempts it allows
   * one address, the last comes at least a window after the first.
   */
  lemma ThrottleBoundsTheRate(clock: int, max: nat, window: int, run: seq<Attempt>, ip: string)
    requires Forward(clock, run) && ip != ""
    ensures |Answers(map[], max, window, run)| == |run|
    ensures Spaced(Granted(run, Answers(map[], max, window, run), ip), max, window)
  {
    FreshThrottleRefinesHistory(clock, max, window, run);
    AllowedAttemptsAreSpaced(map[], clock, max, window, run, ip);
    RecordedIsGranted(map[], max, window, run, ip);
    var times := Granted(run, Answers(map[], max, window, run), ip);
    assert [] + times == times;
  }

  function TableAfter(t: Table, max: nat, window: int, run: seq<Attempt>): Table
    decreases |run|
  {
    if run == [] then t else TableAfter(After(t, max, run[0].ip, run[0].now, window), max, window, run[1..])
  }

  predicate Short(t: Table, max: nat) { forall ip :: ip in t ==> |t[ip]| <= max }

  lemma AttemptStaysShort(t: Table, max: nat, a: Attempt, window: int)
    requires Short(t, max)
    ensures Short(After(t, max, a.ip, a.now, window), max)
  {
    RecentShorter(At(Pruned(t, a.now, window), a.ip), a.now, window);
    hide Recent, Stale;
  }

  /** The table stays small: over every run, whatever the clock does, no address ever has more than max times in it. */
  lemma {:induction false} ListsStayShort(t: Table, max: nat, window: int, run: seq<Attempt>)
    requires Short(t, max)
    ensures Short(TableAfter(t, max, window, run), max)
    decreases |run|
  {
    if run != [] {
      hide Short, After;
      AttemptStaysShort(t, max, run[0], window);
      ListsStayShort(After(t, max, run[0].ip, run[0].now, window), max, window, run[1..]);
    }
  }

  lemma {:induction false} RecentShorter(ts: Times, now: int, window: int)
    ensures |Recent(ts, now, window)| <= |ts|
  {
    if ts != [] { RecentShorter(ts[..|ts| - 1], now, window); }
  }

  // ---- the answers, told by counting ----

  /** The attempts from ip that were allowed less than a window before now. */
  function Inside(run: seq<Attempt>, answers: seq<bool>, ip: string, now: int, window: int): set<nat>
    requires |answers| == |run|
  {
    set j: nat | j < |run| && answers[j] && run[j].ip == ip && now - run[j].now < window
  }

  lemma {:induction false} GrantedLast(run: seq<Attempt>, answers: seq<bool>, ip: string)
    requires |answers| == |run| > 0
    ensures var n := |run| - 1;
      Granted(run, answers, ip)
      == Granted(run[..n], answers[..n], ip) + (if answers[n] && run[n].ip == ip then [run[n].now] else [])
    decreases |run|
  {
    var n := |run| - 1;
    if n == 0 {
      assert run[1..] == [] && answers[1..] == [];
    } else {
      assert run[1..][..n - 1] == run[..n][1..] && answers[1..][..n - 1] == answers[..n][1..];
      GrantedLast(run[1..], answers[1..], ip);
    }
  }

  lemma InsideLast(run: seq<Attempt>, answers: seq<bool>, ip: string, now: int, window: int)
    requires |answers| == |run| > 0
    ensures var n := |run| - 1;
      |Inside(run, answers, ip, now, window)| == |Inside(run[..n], answers[..n], ip, now, window)|
        + if answers[n] && run[n].ip == ip && now - run[n].now < window then 1 else 0
  {
    var n := |run| - 1;
    var before, all := Inside(run[..n], answers[..n], ip, now, window), Inside(run, answers, ip, now, window);
    if answers[n] && run[n].ip == ip && now - run[n].now < window {
      assert all == before + {n} && n !in before;
    } else {
      assert all == before;
    }
  }

  lemma {:induction false} InsideCounts(run: seq<Attempt>, answers: seq<bool>, ip: string, now: int, window: int)
    requires |answers| == |run|
    ensures |Recent(Granted(run, answers, ip), now, window)| == |Inside(run, answers, ip, now, window)|
    decreases |run|
  {
    if run == [] {
      assert Inside(run, answers, ip, now, window) == {};
    } else {
      hide Recent, Granted, Inside;
      var n := |run| - 1;
      InsideCounts(run[..n], answers[..n], ip, now, window);
      InsideLast(run, answers, ip, now, window);
      GrantedLast(run, answers, ip);
      var before := Granted(run[..n], answers[..n], ip);
      RecentAppend(before, run[n].now, now, window);
      assert before + [] == before;
    }
  }

  lemma {:induction false} NaiveAt(h: History, max: nat, window: int, run: seq<Attempt>, i: nat)
    requires i < |run|
    ensures |NaiveAnswers(h, max, window, run)| == |run|
    ensures NaiveAnswers(h, max, window, run[..i]) == NaiveAnswers(h, max, window, run)[..i]
    ensures NaiveAnswers(h, max, window, run)[i]
         == NaiveAllows(Recorded(h, max, window, run[..i]), max, run[i], window)
    decreases i
  {
    AnswersLength(h, max, window, run);
    hide Recent, Remember, NaiveAllows;
    if i > 0 {
      assert run[..i][1..] == run[1..][..i - 1];
      NaiveAt(Remember(h, max, run[0], window), max, window, run[1..], i - 1);
    } else {
      assert run[..0] == [];
    }
  }

  /**
   * The rule, for every attempt of every run with a clock that does not go back: it is allowed exactly when it has no
   * address, or fewer than max of the attempts its address was allowed so far lie less than a window back.
   */
  lemma AllowedExactly(clock: int, max: nat, window: int, run: seq<Attempt>, i: nat)
    requires Forward(clock, run) && i < |run|
    ensures var answers := Answers(map[], max, window, run);
      && |answers| == |run|
      && (answers[i] <==>
            run[i].ip == "" || |Inside(run[..i], answers[..i], run[i].ip, run[i].now, window)| < max)
  {
    FreshThrottleRefinesHistory(clock, max, window, run);
    NaiveAt(map[], max, window, run, i);
    var answers, ip := Answers(map[], max, window, run), run[i].ip;
    if ip != "" {
      RecordedIsGranted(map[], max, window, run[..i], ip);
      InsideCounts(run[..i], answers[..i], ip, run[i].now, window);
      hide Recent, Recorded, Granted, Inside, Answers, NaiveAnswers;
      var times := Granted(run[..i], answers[..i], ip);
      assert [] + times == times;
    }
  }

  /**
   * The sweep: in a table of more than 1024 addresses an attempt leaves, besides its own address, exactly those whose
   * last time is at most a window old; in a smaller one it leaves all others as they are.
   */
  lemma SweepsExactly(t: Table, max: nat, ip: string, now: int, window: int, other: string)
    requires ip != "" && other != ip
    ensures var after := After(t, max, ip, now, window);
      && (other in after <==>
            other in t && (|t| > 1024 ==> t[other] != [] && now - t[other][|t[other]| - 1] <= window))
      && (other in after ==> after[other] == t[other])
  {
    hide Recent;
  }
}
