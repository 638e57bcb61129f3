/** Which addresses a network scan probes: the small IPv4 subnets of this machine, and the tailnet's peers. */
module Scan {
  import opened Bytes

  /** An IPv4 address as a number. netip.Addr also has an invalid value, which None stands for. */
  type Addr = a: nat | a < 0x1_0000_0000

  const MIN_PREFIX: nat := 22
  const MAX_PREFIX: nat := 30

  /**
   * What the machine reports for an interface: an IPv4 network in its own address and mask length, or anything else.
   */
  datatype Iface = Net(self: Addr, ones: nat) | Elsewhere

  function Next(ip: Option<Addr>): Option<Addr> {
    if ip.None? || ip.value == 0xFFFF_FFFF then None else Some(ip.value + 1)
  }

  predicate Loopback(a: Addr) { a / 0x100_0000 == 127 }

  predicate LinkLocal(a: Addr) { a / 0x1_0000 == 0xA9FE }

  /** The number of addresses of a network of that prefix length. */
  function Size(ones: nat): (n: nat)
    requires MIN_PREFIX <= ones <= MAX_PREFIX
    ensures 4 <= n <= 1024 && 0x1_0000_0000 % n == 0
  {
    match ones
    case 22 => 1024
    case 23 => 512
    case 24 => 256
    case 25 => 128
    case 26 => 64
    case 27 => 32
    case 28 => 16
    case 29 => 8
    case _ => 4
  }

  predicate Usable(i: Iface) {
    i.Net? && !Loopback(i.self) && !LinkLocal(i.self) && MIN_PREFIX <= i.ones <= MAX_PREFIX
  }

  /** The network's first address: the machine's own with the host bits cleared. */
  function Base(i: Iface): (b: Addr)
    requires Usable(i)
    ensures b <= i.self < b + Size(i.ones) <= 0x1_0000_0000
  {
    var n := Size(i.ones);
    MaskFits(i.self, n);
    i.self - i.self % n
  }

  lemma BlockFits(n: nat, q: nat, r: nat, top: nat)
    requires n * q + r < n * top
    ensures n * q + n <= n * top
  {
    if top <= q { MulMono(n, top, q); } else { MulMono(n, q + 1, top); }
  }

  lemma MaskFits(a: Addr, n: nat)
    requires 4 <= n <= 1024 && 0x1_0000_0000 % n == 0
    ensures 0 <= a - a % n && a - a % n + n <= 0x1_0000_0000 && a % n < n
  {
    var q, r, top := a / n, a % n, 0x1_0000_0000 / n;
    assert a == n * q + r && 0x1_0000_0000 == n * top;
    BlockFits(n, q, r, top);
  }

  predicate Contains(i: Iface, ip: Option<Addr>)
    requires Usable(i)
  {
    ip.Some? && Base(i) <= ip.value < Base(i) + Size(i.ones)
  }

  /** A host of the interface's network other than this machine: strictly between the first and the last address. */
  predicate Neighbour(i: Iface, a: Addr) {
    Usable(i) && Base(i) < a < Base(i) + Size(i.ones) - 1 && a != i.self
  }

  predicate NoRepeats(s: seq<Addr>) { forall i, j :: 0 <= i < j < |s| ==> s[i] != s[j] }

  lemma NoRepeatsAppend(s: seq<Addr>, a: Addr)
    requires NoRepeats(s) && a !in s
    ensures NoRepeats(s + [a])
  {
  }

  /** The hosts of one interface, appended to what earlier interfaces gave. */
  method AddNeighbours(i: Iface, seen0: set<Addr>, out0: seq<Addr>) returns (seen: set<Addr>, out: seq<Addr>)
    requires Usable(i) && NoRepeats(out0) && forall a :: a in seen0 <==> a in out0
    ensures NoRepeats(out) && forall a :: a in seen <==> a in out
    ensures forall a :: a in out <==> a in out0 || Neighbour(i, a)
    ensures out0 <= out && |out| <= |out0| + Size(i.ones) - 2
  {
    hide NoRepeats, Base, Size;
    seen, out := seen0, out0;
    var base, size := Base(i), Size(i.ones);
    var ip := Next(Some(base));
    while Contains(i, ip) && Contains(i, Next(ip))
      invariant ip.Some? && base < ip.value < base + size
      invariant NoRepeats(out) && forall a :: a in seen <==> a in out
      invariant forall a :: a in out <==> a in out0 || (Neighbour(i, a) && a < ip.value)
      invariant out0 <= out && |out| <= |out0| + ip.value - base - 1
      decreases base + size - ip.value
    {
      var a := ip.value;
      assert Next(ip) == Some(a + 1);
      if a != i.self && a !in seen {
        NoRepeatsAppend(out, a);
        seen := seen + {a};
        out := out + [a];
      }
      ip := Next(ip);
    }
    assert ip.value == base + size - 1;
  }

  /** The machine's own addresses. */
  predicate Own(ifaces: seq<Iface>, a: Addr) {
    exists j :: 0 <= j < |ifaces| && ifaces[j].Net? && ifaces[j].self == a
  }

  /**
   * Two different addresses on one usable network, the second of them neither its first nor its last: told from the
   * two addresses and a prefix length alone.
   */
  predicate SharesNetwork(i: Iface, j: Iface) {
    Usable(i) && j.Net? && j.self != i.self
    && var n := Size(i.ones); j.self / n == i.self / n && 0 < j.self % n < n - 1
  }

  lemma SharesNetworkExactly(i: Iface, j: Iface)
    requires j.Net?
    ensures SharesNetwork(i, j) <==> Neighbour(i, j.self)
  {
    if Usable(i) {
      hide Loopback, LinkLocal, Size;
      SameQuotient(i.self, j.self, Size(i.ones));
    }
  }

  lemma SameBlock(n: nat, q: nat, p: nat, t: nat)
    requires t < n
    ensures q == p <==> n * q <= n * p + t < n * q + n
  {
    if q < p { MulMono(n, q + 1, p); }
    if p < q { MulMono(n, p + 1, q); }
  }

  /** Being in the same block of n is having the same quotient by n. */
  lemma SameQuotient(a: nat, b: nat, n: nat)
    requires n > 0
    ensures a / n == b / n <==> a - a % n <= b < a - a % n + n
    ensures a / n == b / n ==> b % n == b - (a - a % n)
  {
    var q, p, r, t := a / n, b / n, a % n, b % n;
    assert a == n * q + r && b == n * p + t && t < n;
    SameBlock(n, q, p, t);
  }

  /** The result of a scan's enumeration. */
  ghost predicate AreTargets(ifaces: seq<Iface>, out: seq<Addr>) {
    forall a :: a in out <==> exists i :: 0 <= i < |ifaces| && Neighbour(ifaces[i], a)
  }

  /** An address of this machine is probed exactly when two of its interfaces share a usable network. */
  lemma ProbesItselfExactly(ifaces: seq<Iface>, out: seq<Addr>)
    requires AreTargets(ifaces, out)
    ensures (exists a :: a in out && Own(ifaces, a))
       <==> exists i, j :: 0 <= i < |ifaces| && 0 <= j < |ifaces| && SharesNetwork(ifaces[i], ifaces[j])
  {
    hide Neighbour, SharesNetwork;
    if exists i, j :: 0 <= i < |ifaces| && 0 <= j < |ifaces| && SharesNetwork(ifaces[i], ifaces[j]) {
      var i, j :| 0 <= i < |ifaces| && 0 <= j < |ifaces| && SharesNetwork(ifaces[i], ifaces[j]);
      assert ifaces[j].Net? by { SharingIsNet(ifaces[i], ifaces[j]); }
      SharesNetworkExactly(ifaces[i], ifaces[j]);
      assert ifaces[j].self in out && Own(ifaces, ifaces[j].self);
    }
    if exists a :: a in out && Own(ifaces, a) {
      var a :| a in out && Own(ifaces, a);
      var i :| 0 <= i < |ifaces| && Neighbour(ifaces[i], a);
      var j :| 0 <= j < |ifaces| && ifaces[j].Net? && ifaces[j].self == a;
      SharesNetworkExactly(ifaces[i], ifaces[j]);
    }
  }

  lemma SharingIsNet(i: Iface, j: Iface)
    requires SharesNetwork(i, j)
    ensures j.Net?
  {
  }

  /**
   * Terminates for every list of interfaces, at the top of the address space too, and gives without repeats exactly
   * the neighbours on the usable networks, at most 1022 of each. None of them is this machine's own address unless two
   * interfaces share a network.
   */
  method LocalScanTargets(ifaces: seq<Iface>) returns (out: seq<Addr>)
    ensures NoRepeats(out) && AreTargets(ifaces, out)
    ensures |out| <= 1022 * |ifaces|
    ensures (exists a :: a in out && Own(ifaces, a))
       <==> exists i, j :: 0 <= i < |ifaces| && 0 <= j < |ifaces| && SharesNetwork(ifaces[i], ifaces[j])
  {
    hide NoRepeats, Neighbour, SharesNetwork, Own;
    var seen: set<Addr> := {};
    out := [];
    assert NoRepeats(out) by { NoneRepeat(); }
    for n := 0 to |ifaces|
      invariant NoRepeats(out) && forall a :: a in seen <==> a in out
      invariant forall a :: a in out <==> exists i :: 0 <= i < n && Neighbour(ifaces[i], a)
      invariant |out| <= 1022 * n
    {
      var i := ifaces[n];
      if i.Elsewhere? || Loopback(i.self) || LinkLocal(i.self) || i.ones < MIN_PREFIX || i.ones > MAX_PREFIX {
        assert forall a :: !Neighbour(i, a) by { UnusableHasNone(i); }
      } else {
        seen, out := AddNeighbours(i, seen, out);
      }
    }
    ProbesItselfExactly(ifaces, out);
  }

  lemma NoneRepeat()
    ensures NoRepeats([])
  {
  }

  lemma UnusableHasNone(i: Iface)
    requires !Usable(i)
    ensures forall a :: !Neighbour(i, a)
  {
  }

  /** 192.168.1.10/24 and 192.168.1.20/24, wired and wireless say: both are probed. */
  lemma TwoInterfacesProbeThemselves(out: seq<Addr>)
    requires AreTargets([Net(0xC0A8_010A, 24), Net(0xC0A8_0114, 24)], out)
    ensures 0xC0A8_010A in out && 0xC0A8_0114 in out
  {
    var ifaces := [Net(0xC0A8_010A, 24), Net(0xC0A8_0114, 24)];
    SharesNetworkExactly(ifaces[0], ifaces[1]);
    SharesNetworkExactly(ifaces[1], ifaces[0]);
    assert Neighbour(ifaces[0], 0xC0A8_0114) && Neighbour(ifaces[1], 0xC0A8_010A);
  }

  /** 255.255.255.0/24, the last network there is: the hosts up to 255.255.255.254, and the walk stops. */
  lemma TopOfTheSpace(self: Addr)
    requires self >= 0xFFFF_FF00
    ensures forall a: Addr :: Neighbour(Net(self, 24), a) <==> 0xFFFF_FF00 < a < 0xFFFF_FFFF && a != self
  {
    assert Base(Net(self, 24)) == 0xFFFF_FF00;
  }

  // ---- with the tailnet ----

  /**
   * The probe list: what the caller named, or else the local targets, and then every peer not among them, once. The
   * peers added are reported apart.
   */
  method ScanTargets(explicit: seq<Addr>, local: seq<Addr>, peers: seq<Addr>)
    returns (targets: seq<Addr>, tailnet: set<Addr>)
    ensures var src := if explicit == [] then local else explicit;
      && src <= targets
      && NoRepeats(targets[|src|..])
      && (forall a :: a in targets[|src|..] <==> a in peers && a !in src)
      && (forall a :: a in tailnet <==> a in peers && a !in src)
  {
    hide NoRepeats;
    var src := if explicit == [] then local else explicit;
    targets, tailnet := src, {};
    var seen: set<Addr> := set a | a in src;
    ghost var added: seq<Addr> := [];
    NoneRepeat();
    for n := 0 to |peers|
      invariant targets == src + added && NoRepeats(added)
      invariant forall a :: a in seen <==> a in src || a in added
      invariant forall a :: a in added <==> a in peers[..n] && a !in src
      invariant forall a :: a in tailnet <==> a in added
    {
      var a := peers[n];
      assert peers[..n + 1] == peers[..n] + [a];
      if a !in seen {
        NoRepeatsAppend(added, a);
        seen := seen + {a};
        tailnet := tailnet + {a};
        targets := targets + [a];
        added := added + [a];
      }
    }
    assert peers[..|peers|] == peers && targets[|src|..] == added;
  }

  // ---- the targets, in numbers ----

  function Pow2(k: nat): (p: nat)
    ensures p > 0
  {
    if k == 0 then 1 else 2 * Pow2(k - 1)
  }

  /**
   * What one interface brings in: it has an IPv4 address outside 127.0.0.0/8 and 169.254.0.0/16 and a mask of 22 to 30
   * bits, and a is another address in the same block of 2^(32 - mask), neither its first nor its last.
   */
  predicate Probes(i: Iface, a: Addr) {
    && i.Net? && 22 <= i.ones <= 30 && a != i.self
    && !(127 * 0x100_0000 <= i.self < 128 * 0x100_0000) && !(0xA9FE_0000 <= i.self <= 0xA9FE_FFFF)
    && var n := Pow2(32 - i.ones); a / n == i.self / n && 0 < a % n < n - 1
  }

  lemma SizeIsPow2(ones: nat)
    requires 22 <= ones <= 30
    ensures Size(ones) == Pow2(32 - ones)
  {
    assert Pow2(2) == 4;
    assert Pow2(4) == 4 * Pow2(2);
    assert Pow2(6) == 4 * Pow2(4);
    assert Pow2(8) == 4 * Pow2(6);
    assert Pow2(10) == 4 * Pow2(8);
  }

  lemma NeighbourIsProbed(i: Iface, a: Addr)
    ensures Neighbour(i, a) <==> Probes(i, a)
  {
    SharesNetworkExactly(i, Net(a, 0));
    if i.Net? && 22 <= i.ones <= 30 {
      SizeIsPow2(i.ones);
    }
    hide Size, Base, Pow2;
  }

  /** The enumeration is right, address by address. */
  lemma TargetsExactly(ifaces: seq<Iface>, out: seq<Addr>, a: Addr)
    requires AreTargets(ifaces, out)
    ensures a in out <==> exists i :: 0 <= i < |ifaces| && Probes(ifaces[i], a)
  {
    hide Neighbour, Probes;
    forall i | 0 <= i < |ifaces|
      ensures Neighbour(ifaces[i], a) <==> Probes(ifaces[i], a)
    {
      NeighbourIsProbed(ifaces[i], a);
    }
  }
}
