/**
 * The peer verification of a peer-to-peer session: one MAC each way over both DTLS fingerprints, through a relay that
 * may drop, reflect and substitute what it has seen. `mac` stands for HMAC-SHA256 cut to 16 bytes; that it has no
 * collisions, and that the relay cannot make one itself, are hypotheses.
 */
module Sas {
  import opened Bytes

  const BAR: byte := 0x7C

  type Mac = (Bytes, Bytes) -> Bytes

  // ---- the channel binding ----

  /** Go's string comparison a > b. */
  predicate Greater(a: Bytes, b: Bytes) {
    if a == [] then false
    else if b == [] then true
    else if a[0] != b[0] then a[0] > b[0]
    else Greater(a[1..], b[1..])
  }

  function ChannelBinding(a: Bytes, b: Bytes): Bytes {
    if Greater(a, b) then b + [BAR] + a else a + [BAR] + b
  }

  lemma {:induction false} GreaterIsTotal(a: Bytes, b: Bytes)
    ensures !(Greater(a, b) && Greater(b, a))
    ensures Greater(a, b) || Greater(b, a) || a == b
  {
    if a != [] && b != [] && a[0] == b[0] {
      GreaterIsTotal(a[1..], b[1..]);
      assert a == [a[0]] + a[1..] && b == [b[0]] + b[1..];
    }
  }

  predicate SamePair(a: Bytes, b: Bytes, c: Bytes, d: Bytes) {
    (a == c && b == d) || (a == d && b == c)
  }

  lemma BarAt(a: Bytes, b: Bytes)
    requires BAR !in a
    ensures (a + [BAR] + b)[|a|] == BAR
    ensures forall i :: 0 <= i < |a| ==> (a + [BAR] + b)[i] != BAR
  {
    assert forall i :: 0 <= i < |a| ==> (a + [BAR] + b)[i] == a[i];
  }

  lemma SplitAtBar(a: Bytes, b: Bytes, c: Bytes, d: Bytes)
    requires BAR !in a && BAR !in c && a + [BAR] + b == c + [BAR] + d
    ensures a == c && b == d
  {
    BarAt(a, b);
    BarAt(c, d);
    var s := a + [BAR] + b;
    assert s == c + [BAR] + d && |a| == |c|;
    assert a == s[..|a|] && c == s[..|a|];
    assert b == s[|a| + 1..] && d == s[|a| + 1..];
  }

  /** The binding is the same for the same two fingerprints, in either order, and only for them. */
  lemma BindingExactly(a: Bytes, b: Bytes, c: Bytes, d: Bytes)
    requires BAR !in a && BAR !in b && BAR !in c && BAR !in d
    ensures ChannelBinding(a, b) == ChannelBinding(c, d) <==> SamePair(a, b, c, d)
  {
    GreaterIsTotal(a, b);
    GreaterIsTotal(c, d);
    var (x, y) := if Greater(a, b) then (b, a) else (a, b);
    var (u, v) := if Greater(c, d) then (d, c) else (c, d);
    if ChannelBinding(a, b) == ChannelBinding(c, d) {
      SplitAtBar(x, y, u, v);
    }
  }

  /** Order does not matter, whatever the fingerprints. */
  lemma BindingSymmetric(a: Bytes, b: Bytes)
    ensures ChannelBinding(a, b) == ChannelBinding(b, a)
  {
    GreaterIsTotal(a, b);
  }

  /** The binding of this pair is no other pair's. */
  ghost predicate Determined(a: Bytes, b: Bytes) {
    forall c, d :: ChannelBinding(c, d) == ChannelBinding(a, b) ==> SamePair(a, b, c, d)
  }

  /** Where the smaller fingerprint ends. */
  function Split(a: Bytes, b: Bytes): nat { if Greater(a, b) then |b| else |a| }

  /** Every other bar of s has the greater part before it. */
  predicate OtherBarsOutOfOrder(s: Bytes, split: nat) {
    forall k :: 0 <= k < |s| && k != split && s[k] == BAR ==> Greater(s[..k], s[k + 1..])
  }

  lemma InOrderIsSame(a: Bytes, b: Bytes, c: Bytes, d: Bytes)
    requires OtherBarsOutOfOrder(ChannelBinding(a, b), Split(a, b)) && ChannelBinding(c, d) == ChannelBinding(a, b)
    ensures SamePair(a, b, c, d)
  {
    GreaterIsTotal(a, b);
    GreaterIsTotal(c, d);
    var s := ChannelBinding(a, b);
    var (x, y) := if Greater(a, b) then (b, a) else (a, b);
    var (u, v) := if Greater(c, d) then (d, c) else (c, d);
    Halves(x, y);
    Halves(u, v);
    assert !Greater(u, v);
    assert s == x + [BAR] + y && s == u + [BAR] + v;
    assert |u| == |x|;
  }

  lemma Halves(x: Bytes, y: Bytes)
    ensures var s := x + [BAR] + y; s[|x|] == BAR && s[..|x|] == x && s[|x| + 1..] == y
  {
  }

  /** Splitting at another bar, in order, gives another pair. */
  lemma OtherBarCollides(a: Bytes, b: Bytes, k: nat)
    requires k < |ChannelBinding(a, b)| && k != Split(a, b) && ChannelBinding(a, b)[k] == BAR
    requires !Greater(ChannelBinding(a, b)[..k], ChannelBinding(a, b)[k + 1..])
    ensures var s := ChannelBinding(a, b);
      ChannelBinding(s[..k], s[k + 1..]) == s && !SamePair(a, b, s[..k], s[k + 1..])
  {
    var s := ChannelBinding(a, b);
    var c, d := s[..k], s[k + 1..];
    assert s == c + [BAR] + d;
    GreaterIsTotal(a, b);
    hide Greater;
    var (x, y) := if Greater(a, b) then (b, a) else (a, b);
    assert |x| == Split(a, b) && !Greater(x, y);
    assert c == y && d == x ==> x == y;
  }

  lemma OutOfOrderDetermines(a: Bytes, b: Bytes)
    requires OtherBarsOutOfOrder(ChannelBinding(a, b), Split(a, b))
    ensures Determined(a, b)
  {
    hide Greater, ChannelBinding, OtherBarsOutOfOrder, Split, SamePair;
    forall c, d | ChannelBinding(c, d) == ChannelBinding(a, b)
      ensures SamePair(a, b, c, d)
    {
      InOrderIsSame(a, b, c, d);
    }
  }

  lemma InOrderCollides(a: Bytes, b: Bytes)
    requires !OtherBarsOutOfOrder(ChannelBinding(a, b), Split(a, b))
    ensures !Determined(a, b)
  {
    hide Greater, ChannelBinding, Split, SamePair;
    var s := ChannelBinding(a, b);
    var k :| 0 <= k < |s| && k != Split(a, b) && s[k] == BAR && !Greater(s[..k], s[k + 1..]);
    OtherBarCollides(a, b, k);
  }

  /**
   * For all fingerprints, bars or not: a binding determines its pair exactly when no other bar of it has a smaller or
   * equal part before it than after it.
   */
  lemma BindingDeterminesExactly(a: Bytes, b: Bytes)
    ensures Determined(a, b) <==> OtherBarsOutOfOrder(ChannelBinding(a, b), Split(a, b))
  {
    hide Determined, OtherBarsOutOfOrder, ChannelBinding, Split;
    if OtherBarsOutOfOrder(ChannelBinding(a, b), Split(a, b)) {
      OutOfOrderDetermines(a, b);
    } else {
      InOrderCollides(a, b);
    }
  }

  /** With a bar inside a fingerprint, different pairs can share a binding. */
  lemma BarsCollide()
    ensures ChannelBinding([97, BAR, 98], [99]) == ChannelBinding([97], [98, BAR, 99])
    ensures !SamePair([97, BAR, 98], [99], [97], [98, BAR, 99])
  {
    assert !Greater([97, BAR, 98], [99]) && !Greater([97], [98, BAR, 99]);
    assert [97, BAR, 98] + [BAR] + [99] == [97] + [BAR] + [98, BAR, 99];
  }

  // ---- the MAC ----

  datatype Role = Sender | Receiver

  /** "s2u-sas-v2" and a zero byte */
  const DOMAIN: Bytes := [115, 50, 117, 45, 115, 97, 115, 45, 118, 50, 0]

  function Tag(role: Role): Bytes { if role == Sender then [83] else [82] }

  function Opposite(role: Role): Role { if role == Sender then Receiver else Sender }

  function MacInput(role: Role, binding: Bytes): Bytes { DOMAIN + Tag(role) + [0] + binding }

  lemma MacInputExactly(r: Role, b: Bytes, r': Role, b': Bytes)
    ensures MacInput(r, b) == MacInput(r', b') <==> r == r' && b == b'
  {
    var s, s' := MacInput(r, b), MacInput(r', b');
    assert s[|DOMAIN|] == Tag(r)[0] && s'[|DOMAIN|] == Tag(r')[0];
    assert s[|DOMAIN| + 2..] == b && s'[|DOMAIN| + 2..] == b';
  }

  /** A peer as it runs verifyPeer: its role, its (trimmed) secret, and the two fingerprints it sees. */
  datatype Peer = Peer(role: Role, secret: Bytes, local: Bytes, remote: Bytes)

  function Sent(mac: Mac, p: Peer): Bytes { mac(p.secret, MacInput(p.role, ChannelBinding(p.local, p.remote))) }

  function Expected(mac: Mac, p: Peer): Bytes {
    mac(p.secret, MacInput(Opposite(p.role), ChannelBinding(p.local, p.remote)))
  }

  /** What peer q sends is what peer p expects only if it is the MAC of the same input under the same secret. */
  predicate NoCollision(mac: Mac, p: Peer, q: Peer) {
    Sent(mac, q) == Expected(mac, p) ==>
      && q.secret == p.secret
      && MacInput(q.role, ChannelBinding(q.local, q.remote)) ==
          MacInput(Opposite(p.role), ChannelBinding(p.local, p.remote))
  }

  predicate CollisionFree(mac: Mac, peers: seq<Peer>) {
    forall p, q :: p in peers && q in peers ==> NoCollision(mac, p, q)
  }

  /** A verified counterpart: the other role, the same secret, the same two fingerprints. */
  predicate Counterparts(p: Peer, q: Peer) {
    q.role == Opposite(p.role) && q.secret == p.secret && SamePair(p.local, p.remote, q.local, q.remote)
  }

  predicate PlainFingerprints(p: Peer) { BAR !in p.local && BAR !in p.remote }

  /** A peer accepts another's MAC exactly when that peer is its counterpart. */
  lemma AcceptsExactly(mac: Mac, p: Peer, q: Peer)
    requires NoCollision(mac, p, q) && PlainFingerprints(p) && PlainFingerprints(q)
    ensures Sent(mac, q) == Expected(mac, p) <==> Counterparts(p, q)
  {
    BindingExactly(p.local, p.remote, q.local, q.remote);
    MacInputExactly(q.role, ChannelBinding(q.local, q.remote), Opposite(p.role), ChannelBinding(p.local, p.remote));
    hide ChannelBinding, MacInput;
  }

  // ---- any number of peers, and a relay between them ----

  datatype Move =
    | Speaks(i: nat)              // peer i sends its MAC; the relay has it from now on
    | Hears(i: nat, m: Bytes)     // the relay hands peer i some message

  datatype State = State(seen: set<Bytes>, spoke: set<nat>, accepted: set<nat>)

  /** What the relay can hand over: what it has seen, or what it makes up, which is no MAC anyone waits for. */
  ghost predicate CanSay(mac: Mac, peers: seq<Peer>, st: State, m: Bytes) {
    m in st.seen || forall p :: p in peers ==> m != Expected(mac, p)
  }

  function Step(mac: Mac, peers: seq<Peer>, st: State, move: Move): State {
    match move
    case Speaks(i) =>
      if i < |peers| then st.(seen := st.seen + {Sent(mac, peers[i])}, spoke := st.spoke + {i}) else st
    case Hears(i, m) =>
      if i < |peers| && i in st.spoke && m == Expected(mac, peers[i]) then st.(accepted := st.accepted + {i}) else st
  }

  ghost predicate Possible(mac: Mac, peers: seq<Peer>, st: State, moves: seq<Move>)
    decreases |moves|
  {
    moves != [] ==>
      && (moves[0].Hears? ==> CanSay(mac, peers, st, moves[0].m))
      && Possible(mac, peers, Step(mac, peers, st, moves[0]), moves[1..])
  }

  function Run(mac: Mac, peers: seq<Peer>, st: State, moves: seq<Move>): State
    decreases |moves|
  {
    if moves == [] then st else Run(mac, peers, Step(mac, peers, st, moves[0]), moves[1..])
  }

  /** Peer i has a counterpart that has sent its MAC. */
  ghost predicate Vouched(peers: seq<Peer>, st: State, i: nat) {
    i < |peers| && exists j :: j in st.spoke && j < |peers| && j != i && Counterparts(peers[i], peers[j])
  }

  ghost predicate Sound(mac: Mac, peers: seq<Peer>, st: State) {
    && (forall m :: m in st.seen ==> exists j :: j in st.spoke && j < |peers| && m == Sent(mac, peers[j]))
    && (forall i :: i in st.accepted ==> Vouched(peers, st, i))
  }

  lemma HearingIsSound(mac: Mac, peers: seq<Peer>, st: State, i: nat, m: Bytes)
    requires CollisionFree(mac, peers) && forall p :: p in peers ==> PlainFingerprints(p)
    requires Sound(mac, peers, st) && CanSay(mac, peers, st, m)
    requires i < |peers| && m == Expected(mac, peers[i])
    ensures Vouched(peers, st, i)
  {
    assert peers[i] in peers && m in st.seen;
    var j :| j in st.spoke && j < |peers| && m == Sent(mac, peers[j]);
    assert peers[j] in peers && NoCollision(mac, peers[i], peers[j]);
    AcceptsExactly(mac, peers[i], peers[j]);
    hide Sent, Expected, CollisionFree, NoCollision;
    assert peers[j].role == Opposite(peers[i].role);
  }

  lemma StepSound(mac: Mac, peers: seq<Peer>, st: State, move: Move)
    requires CollisionFree(mac, peers) && forall p :: p in peers ==> PlainFingerprints(p)
    requires Sound(mac, peers, st) && (move.Hears? ==> CanSay(mac, peers, st, move.m))
    ensures Sound(mac, peers, Step(mac, peers, st, move))
  {
    var st' := Step(mac, peers, st, move);
    if move.Hears? && move.i < |peers| && move.m == Expected(mac, peers[move.i]) {
      HearingIsSound(mac, peers, st, move.i, move.m);
    }
    hide Sent, Expected, CollisionFree, CanSay, Counterparts;
    forall i | i in st'.accepted ensures Vouched(peers, st', i) {
      assert Vouched(peers, st, i);
      var j :| j in st.spoke && j < |peers| && j != i && Counterparts(peers[i], peers[j]);
      assert j in st'.spoke;
    }
    forall m | m in st'.seen ensures exists j :: j in st'.spoke && j < |peers| && m == Sent(mac, peers[j]) {
      if m in st.seen {
        var j :| j in st.spoke && j < |peers| && m == Sent(mac, peers[j]);
        assert j in st'.spoke;
      } else {
        assert move.i in st'.spoke;
      }
    }
  }

  lemma {:induction false} RunSound(mac: Mac, peers: seq<Peer>, st: State, moves: seq<Move>)
    requires CollisionFree(mac, peers) && forall p :: p in peers ==> PlainFingerprints(p)
    requires Sound(mac, peers, st) && Possible(mac, peers, st, moves)
    ensures Sound(mac, peers, Run(mac, peers, st, moves))
    decreases |moves|
  {
    if moves != [] {
      hide CollisionFree, Sound, Step, CanSay;
      StepSound(mac, peers, st, moves[0]);
      RunSound(mac, peers, Step(mac, peers, st, moves[0]), moves[1..]);
    }
  }

  /**
   * Whatever the relay does: a peer that accepts has a counterpart, another peer, that sent its MAC. So a reflected
   * MAC is never accepted, nor is any behind a relay that ends DTLS and shows each side a different fingerprint.
   */
  lemma SasAgreement(mac: Mac, peers: seq<Peer>, moves: seq<Move>, i: nat)
    requires CollisionFree(mac, peers) && forall p :: p in peers ==> PlainFingerprints(p)
    requires Possible(mac, peers, State({}, {}, {}), moves)
    requires i in Run(mac, peers, State({}, {}, {}), moves).accepted
    ensures i < |peers|
    ensures exists j :: j in Run(mac, peers, State({}, {}, {}), moves).spoke && j < |peers| && j != i
                     && Counterparts(peers[i], peers[j])
  {
    RunSound(mac, peers, State({}, {}, {}), moves);
    hide Run, Possible, CollisionFree;
    assert Vouched(peers, Run(mac, peers, State({}, {}, {}), moves), i);
  }

  /** Peer i has heard what it expects after it has spoken itself. */
  predicate Heard(mac: Mac, peers: seq<Peer>, moves: seq<Move>, i: nat) {
    i < |peers|
    && exists a, b :: 0 <= a < b < |moves| && moves[a] == Speaks(i) && moves[b] == Hears(i, Expected(mac, peers[i]))
  }

  lemma AcceptedSoFar(mac: Mac, peers: seq<Peer>, moves: seq<Move>, i: nat)
    ensures var end := Run(mac, peers, State({}, {}, {}), moves);
      && (i in end.spoke <==> i < |peers| && exists a :: 0 <= a < |moves| && moves[a] == Speaks(i))
      && (i in end.accepted <==> Heard(mac, peers, moves, i))
    decreases |moves|
  {
    if moves != [] {
      var n := |moves| - 1;
      AcceptedSoFar(mac, peers, moves[..n], i);
      RunLast(mac, peers, State({}, {}, {}), moves);
      hide Run, Expected;
      SpeaksLast(moves, i);
      HeardLast(mac, peers, moves, i);
      hide Heard;
    }
  }

  lemma SpeaksLast(moves: seq<Move>, i: nat)
    requires moves != []
    ensures var n := |moves| - 1;
      (exists a :: 0 <= a < |moves| && moves[a] == Speaks(i))
      <==> moves[n] == Speaks(i) || exists a :: 0 <= a < n && moves[..n][a] == Speaks(i)
  {
    var n := |moves| - 1;
    if a :| 0 <= a < |moves| && moves[a] == Speaks(i) {
      if a < n { assert moves[..n][a] == Speaks(i); }
    }
    if a :| 0 <= a < n && moves[..n][a] == Speaks(i) { assert moves[a] == Speaks(i); }
  }

  lemma HeardLast(mac: Mac, peers: seq<Peer>, moves: seq<Move>, i: nat)
    requires moves != []
    ensures var n := |moves| - 1;
      Heard(mac, peers, moves, i) <==>
        || Heard(mac, peers, moves[..n], i)
        || (i < |peers| && moves[n] == Hears(i, Expected(mac, peers[i]))
            && exists a :: 0 <= a < n && moves[..n][a] == Speaks(i))
  {
    hide Expected;
    var n := |moves| - 1;
    if Heard(mac, peers, moves, i) {
      var a, b :| 0 <= a < b < |moves| && moves[a] == Speaks(i) && moves[b] == Hears(i, Expected(mac, peers[i]));
      assert moves[..n][a] == Speaks(i);
      if b < n { assert moves[..n][b] == moves[b]; }
    }
    if Heard(mac, peers, moves[..n], i) {
      var a, b :| 0 <= a < b < n && moves[..n][a] == Speaks(i)
                  && moves[..n][b] == Hears(i, Expected(mac, peers[i]));
      assert moves[a] == Speaks(i) && moves[b] == Hears(i, Expected(mac, peers[i]));
    }
    if i < |peers| && moves[n] == Hears(i, Expected(mac, peers[i])) {
      if a :| 0 <= a < n && moves[..n][a] == Speaks(i) { assert moves[a] == Speaks(i); }
    }
  }

  lemma {:induction false} RunLast(mac: Mac, peers: seq<Peer>, st: State, moves: seq<Move>)
    requires moves != []
    ensures var n := |moves| - 1;
      Run(mac, peers, st, moves) == Step(mac, peers, Run(mac, peers, st, moves[..n]), moves[n])
    decreases |moves|
  {
    hide Step;
    if |moves| > 1 {
      assert moves[1..][..|moves| - 2] == moves[..|moves| - 1][1..];
      RunLast(mac, peers, Step(mac, peers, st, moves[0]), moves[1..]);
    }
  }

  /**
   * A peer accepts exactly when it has spoken and then heard what it expects. So two counterparts whose MACs get
   * through both accept, whatever else goes on.
   */
  lemma CounterpartsMeet(mac: Mac, peers: seq<Peer>, moves: seq<Move>, i: nat, j: nat)
    requires i < |peers| && j < |peers| && Counterparts(peers[i], peers[j])
    ensures Sent(mac, peers[j]) == Expected(mac, peers[i])
    ensures i in Run(mac, peers, State({}, {}, {}), moves).accepted <==> Heard(mac, peers, moves, i)
    ensures (exists a, b :: 0 <= a < b < |moves| && moves[a] == Speaks(i) && moves[b] == Hears(i, Sent(mac, peers[j])))
       <==> i in Run(mac, peers, State({}, {}, {}), moves).accepted
  {
    BindingSymmetric(peers[i].local, peers[i].remote);
    AcceptedSoFar(mac, peers, moves, i);
    hide Run;
  }

  // ---- the hypothesis can be met ----

  function Paired(k: Bytes, x: Bytes): Bytes {
    if k == [] then [0] + x else [1, k[0]] + Paired(k[1..], x)
  }

  lemma {:induction false} PairedInjective(k: Bytes, x: Bytes, k': Bytes, x': Bytes)
    requires Paired(k, x) == Paired(k', x')
    ensures k == k' && x == x'
  {
    var s, s' := Paired(k, x), Paired(k', x');
    if k == [] || k' == [] {
      assert s[0] == s'[0];
      assert x == s[1..] && x' == s'[1..];
    } else {
      assert s[1] == s'[1];
      assert s[2..] == Paired(k[1..], x) && s'[2..] == Paired(k'[1..], x');
      PairedInjective(k[1..], x, k'[1..], x');
      assert k == [k[0]] + k[1..] && k' == [k'[0]] + k'[1..];
    }
  }

  lemma CollisionFreedomIsConsistent(peers: seq<Peer>)
    ensures exists mac: Mac :: CollisionFree(mac, peers)
  {
    var mac: Mac := (k, x) => Paired(k, x);
    forall p, q | p in peers && q in peers ensures NoCollision(mac, p, q) {
      if Sent(mac, q) == Expected(mac, p) {
        PairedInjective(q.secret, MacInput(q.role, ChannelBinding(q.local, q.remote)),
                        p.secret, MacInput(Opposite(p.role), ChannelBinding(p.local, p.remote)));
      }
    }
    assert CollisionFree(mac, peers);
  }
}
