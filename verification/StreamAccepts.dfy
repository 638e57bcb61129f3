/**
 * Exactly which byte strings the stream reader accepts, and with which plaintext, told without the reader: the bytes of
 * the header, the order of the fields, the limits and the nonces stand here as they are on the wire.
 */
module StreamAccepts {
  import opened Bytes
  import opened Streams
  import opened StreamFormat

  /** A chunk as it arrives, and what it opens to. */
  datatype Piece = Piece(ct: Bytes, flag: byte, text: Bytes)

  function Texts(pieces: seq<Piece>): Bytes {
    if pieces == [] then [] else pieces[0].text + Texts(pieces[1..])
  }

  /** Length, flag, ciphertext. */
  function Wire(pieces: seq<Piece>): Bytes {
    if pieces == [] then [] else U32(|pieces[0].ct|) + [pieces[0].flag] + pieces[0].ct + Wire(pieces[1..])
  }

  /** Length, ciphertext. */
  function LegacyWire(pieces: seq<Piece>): Bytes {
    if pieces == [] then [] else U32(|pieces[0].ct|) + pieces[0].ct + LegacyWire(pieces[1..])
  }

  /** A chunk that opens as number i: the flag is authenticated with the header, and the length is within the cap. */
  predicate OpensAt(a: Aead, header: Bytes, start: Bytes, i: nat, p: Piece) {
    1 <= |p.ct| <= 65600 && a.open(start + U64(i), p.ct, header + [p.flag]) == Some(p.text)
  }

  predicate LegacyOpensAt(a: Aead, start: Bytes, i: nat, p: Piece) {
    1 <= |p.ct| <= 65600 && a.open(start + U64(i), p.ct, []) == Some(p.text)
  }

  /** Chunks number i, i + 1, ..., all of which open; flag 1 is on the last and on no other. */
  predicate Chain(a: Aead, header: Bytes, start: Bytes, i: nat, pieces: seq<Piece>) {
    && |pieces| > 0
    && forall j :: 0 <= j < |pieces| ==>
         OpensAt(a, header, start, i + j, pieces[j]) && (pieces[j].flag == 1 <==> j == |pieces| - 1)
  }

  predicate LegacyChain(a: Aead, start: Bytes, i: nat, pieces: seq<Piece>) {
    forall j :: 0 <= j < |pieces| ==> LegacyOpensAt(a, start, i + j, pieces[j])
  }

  lemma Joined(a: Bytes, b: Bytes, t: Bytes)
    ensures (a + b) + t == a + (b + t)
  {
  }

  lemma AfterBoth(r: Reading, x: Bytes, y: Bytes)
    ensures r.After(y).After(x) == r.After(x + y)
  {
    Joined(x, y, r.out);
  }

  lemma FirstOf(p: Piece, rest: seq<Piece>)
    ensures Texts([p] + rest) == p.text + Texts(rest)
    ensures Wire([p] + rest) == U32(|p.ct|) + [p.flag] + p.ct + Wire(rest)
    ensures LegacyWire([p] + rest) == U32(|p.ct|) + p.ct + LegacyWire(rest)
  {
    assert ([p] + rest)[1..] == rest;
  }

  // ---- reading a piece ----

  lemma ReadPiece(a: Aead, header: Bytes, base: NonceBase, i: nat, p: Piece, t: Bytes)
    requires OpensAt(a, header, base[..4], i, p)
    ensures ReadSealed(a, header, base, i, U32(|p.ct|) + [p.flag] + p.ct + t)
         == if p.flag == 1 then Reading(p.text, Accepted)
            else ReadSealed(a, header, base, i + 1, t).After(p.text)
  {
    FramedParts(p.flag, p.ct, t);
    assert U32(|p.ct|) + [p.flag] + p.ct + t == Framed(p.flag, p.ct) + t;
  }

  lemma ReadLegacyPiece(a: Aead, base: NonceBase, i: nat, p: Piece, t: Bytes)
    requires LegacyOpensAt(a, base[..4], i, p)
    ensures ReadLegacy(a, base, i, U32(|p.ct|) + p.ct + t) == ReadLegacy(a, base, i + 1, t).After(p.text)
  {
    var s := U32(|p.ct|) + p.ct + t;
    U32RoundTrip(|p.ct|);
    assert s[..4] == U32(|p.ct|);
    assert s[4..4 + |p.ct|] == p.ct && s[4 + |p.ct|..] == t;
  }

  /** The length field of four bytes, and what follows. */
  lemma FirstPiece(s: Bytes, n: nat)
    requires |s| >= 5 + n && n == FromBigEndian(s[..4])
    ensures s == U32(|s[5..5 + n]|) + [s[4]] + s[5..5 + n] + s[5 + n..]
  {
    EncodeOfDecode(s[..4]);
    hide BigEndian, FromBigEndian;
    assert s == s[..4] + [s[4]] + s[5..5 + n] + s[5 + n..];
  }

  lemma FirstLegacyPiece(s: Bytes, n: nat)
    requires |s| >= 4 + n && n == FromBigEndian(s[..4])
    ensures s == U32(|s[4..4 + n]|) + s[4..4 + n] + s[4 + n..]
  {
    EncodeOfDecode(s[..4]);
    hide BigEndian, FromBigEndian;
    assert s == s[..4] + s[4..4 + n] + s[4 + n..];
  }

  // ---- (1,2) and (1,3) ----

  lemma ChainRest(a: Aead, header: Bytes, start: Bytes, i: nat, pieces: seq<Piece>)
    requires Chain(a, header, start, i, pieces) && |pieces| > 1
    ensures Chain(a, header, start, i + 1, pieces[1..]) && pieces[0].flag != 1
  {
    forall j | 0 <= j < |pieces[1..]|
      ensures OpensAt(a, header, start, i + 1 + j, pieces[1..][j]) && (pieces[1..][j].flag == 1 <==> j == |pieces| - 2)
    {
      assert pieces[1..][j] == pieces[j + 1];
      assert OpensAt(a, header, start, i + (j + 1), pieces[j + 1]);
      hide OpensAt;
    }
  }

  lemma ChainFirst(a: Aead, header: Bytes, start: Bytes, i: nat, p: Piece, pieces: seq<Piece>)
    requires OpensAt(a, header, start, i, p) && p.flag != 1 && Chain(a, header, start, i + 1, pieces)
    ensures Chain(a, header, start, i, [p] + pieces)
  {
    var all := [p] + pieces;
    forall j | 0 <= j < |all|
      ensures OpensAt(a, header, start, i + j, all[j]) && (all[j].flag == 1 <==> j == |all| - 1)
    {
      if j > 0 {
        assert all[j] == pieces[j - 1];
        assert OpensAt(a, header, start, i + 1 + (j - 1), pieces[j - 1]);
      }
      hide OpensAt;
    }
  }

  /** A chain is read to its end, whatever follows it. */
  lemma {:induction false} ReadChain(a: Aead, header: Bytes, base: NonceBase, i: nat, pieces: seq<Piece>, t: Bytes)
    requires Chain(a, header, base[..4], i, pieces)
    ensures ReadSealed(a, header, base, i, Wire(pieces) + t) == Reading(Texts(pieces), Accepted)
    decreases |pieces|
  {
    var p, rest := pieces[0], pieces[1..];
    assert OpensAt(a, header, base[..4], i + 0, p);
    var head := U32(|p.ct|) + [p.flag] + p.ct;
    ReadPiece(a, header, base, i, p, Wire(rest) + t);
    assert Wire(pieces) + t == head + (Wire(rest) + t);
    if |pieces| == 1 {
      assert Texts(pieces) == p.text + [] == p.text;
    } else {
      ChainRest(a, header, base[..4], i, pieces);
      hide ReadSealed, Wire, Texts, Chain, OpensAt;
      ReadChain(a, header, base, i + 1, rest, t);
    }
  }

  /** And nothing else is. */
  lemma {:induction false} AcceptedIsChain(a: Aead, header: Bytes, base: NonceBase, i: nat, s: Bytes)
    returns (pieces: seq<Piece>, t: Bytes)
    requires ReadSealed(a, header, base, i, s).verdict == Accepted
    ensures Chain(a, header, base[..4], i, pieces) && s == Wire(pieces) + t
    ensures ReadSealed(a, header, base, i, s).out == Texts(pieces)
    decreases |s|
  {
    var n := FromBigEndian(s[..4]);
    var p := Piece(s[5..5 + n], s[4], a.open(Nonce(base, i), s[5..5 + n], ChunkAad(header, s[4])).value);
    assert OpensAt(a, header, base[..4], i, p);
    FirstPiece(s, n);
    if s[4] == 1 {
      pieces, t := [p], s[5 + n..];
      assert Wire(pieces) == U32(|p.ct|) + [p.flag] + p.ct + [] && Texts(pieces) == p.text + [];
    } else {
      var ps;
      ps, t := AcceptedIsChain(a, header, base, i + 1, s[5 + n..]);
      pieces := [p] + ps;
      ChainFirst(a, header, base[..4], i, p, ps);
      FirstOf(p, ps);
      hide Wire, LegacyWire, Texts, Chain, OpensAt, BigEndian;
      Joined(U32(|p.ct|) + [p.flag] + p.ct, Wire(ps), t);
    }
  }

  // ---- (1,1) ----

  lemma {:induction false} ReadLegacyChain(a: Aead, base: NonceBase, i: nat, pieces: seq<Piece>, t: Bytes)
    requires LegacyChain(a, base[..4], i, pieces)
    ensures ReadLegacy(a, base, i, LegacyWire(pieces) + t)
         == ReadLegacy(a, base, i + |pieces|, t).After(Texts(pieces))
    decreases |pieces|
  {
    var r := ReadLegacy(a, base, i + |pieces|, t);
    if pieces == [] {
      assert [] + t == t && [] + r.out == r.out;
    } else {
      var p, rest := pieces[0], pieces[1..];
      assert LegacyOpensAt(a, base[..4], i + 0, p);
      LegacyChainRest(a, base[..4], i, pieces);
      ReadLegacyPiece(a, base, i, p, LegacyWire(rest) + t);
      assert pieces == [p] + rest;
      FirstOf(p, rest);
      hide ReadLegacy, LegacyWire, Wire, LegacyChain, LegacyOpensAt, BigEndian, Texts, Reading.After;
      Joined(U32(|p.ct|) + p.ct, LegacyWire(rest), t);
      ReadLegacyChain(a, base, i + 1, rest, t);
      AfterBoth(r, p.text, Texts(rest));
    }
  }

  lemma LegacyChainRest(a: Aead, start: Bytes, i: nat, pieces: seq<Piece>)
    requires LegacyChain(a, start, i, pieces) && pieces != []
    ensures LegacyChain(a, start, i + 1, pieces[1..])
  {
    forall j | 0 <= j < |pieces[1..]|
      ensures LegacyOpensAt(a, start, i + 1 + j, pieces[1..][j])
    {
      assert LegacyOpensAt(a, start, i + (j + 1), pieces[j + 1]);
      hide LegacyOpensAt;
    }
  }

  lemma LegacyChainFirst(a: Aead, start: Bytes, i: nat, p: Piece, pieces: seq<Piece>)
    requires LegacyOpensAt(a, start, i, p) && LegacyChain(a, start, i + 1, pieces)
    ensures LegacyChain(a, start, i, [p] + pieces)
  {
    var all := [p] + pieces;
    forall j | 0 <= j < |all|
      ensures LegacyOpensAt(a, start, i + j, all[j])
    {
      if j > 0 { assert LegacyOpensAt(a, start, i + 1 + (j - 1), pieces[j - 1]); }
      hide LegacyOpensAt;
    }
  }

  /** What is accepted ends, after chunks that open, with a length of zero. */
  lemma {:induction false} AcceptedIsLegacyChain(a: Aead, base: NonceBase, i: nat, s: Bytes)
    returns (pieces: seq<Piece>, t: Bytes)
    requires ReadLegacy(a, base, i, s).verdict == Accepted
    ensures LegacyChain(a, base[..4], i, pieces) && s == LegacyWire(pieces) + ([0, 0, 0, 0] + t)
    ensures ReadLegacy(a, base, i, s).out == Texts(pieces)
    decreases |s|
  {
    var n := FromBigEndian(s[..4]);
    if n == 0 {
      pieces, t := [], s[4..];
      ZeroLength(s[..4]);
      assert s == [] + (s[..4] + s[4..]);
    } else {
      var p := Piece(s[4..4 + n], 0, a.open(Nonce(base, i), s[4..4 + n], []).value);
      assert LegacyOpensAt(a, base[..4], i, p);
      FirstLegacyPiece(s, n);
      var ps;
      ps, t := AcceptedIsLegacyChain(a, base, i + 1, s[4 + n..]);
      pieces := [p] + ps;
      LegacyChainFirst(a, base[..4], i, p, ps);
      FirstOf(p, ps);
      hide Wire, LegacyWire, Texts, LegacyChain, LegacyOpensAt, BigEndian;
      Joined(U32(|p.ct|) + p.ct, LegacyWire(ps), [0, 0, 0, 0] + t);
    }
  }

  lemma ZeroLength(s: Bytes)
    requires |s| == 4
    ensures FromBigEndian(s) == 0 <==> s == [0, 0, 0, 0]
  {
    EncodeOfDecode(s);
    EncodeOfDecode([0, 0, 0, 0]);
    assert FromBigEndian([0, 0, 0, 0]) == 0 by {
      assert [0, 0, 0, 0][..3] == [0, 0, 0] && [0, 0, 0][..2] == [0, 0] && [0, 0][..1] == [0] && [0][..0] == [];
    }
    hide BigEndian, FromBigEndian;
  }

  // ---- whole streams ----

  ghost predicate SealedBody(a: Aead, header: Bytes, start: Bytes, body: Bytes, p: Bytes) {
    exists pieces, t :: Chain(a, header, start, 0, pieces) && body == Wire(pieces) + t && p == Texts(pieces)
  }

  ghost predicate LegacyBody(a: Aead, start: Bytes, body: Bytes, p: Bytes) {
    exists pieces, t ::
      LegacyChain(a, start, 0, pieces) && body == LegacyWire(pieces) + ([0, 0, 0, 0] + t) && p == Texts(pieces)
  }

  /** "S2E1", the major version 1, and a minor version with its salt or nonce base. */
  predicate KnownHeader(s: Bytes) {
    && |s| >= 6 && s[..5] == [0x53, 0x32, 0x45, 0x31, 1]
    && (s[5] == 3 ==> |s| >= 22) && (s[5] != 3 ==> (s[5] == 1 || s[5] == 2) && |s| >= 18)
  }

  /** What a (1,3), a (1,2) or a (1,1) stream of p looks like. */
  ghost predicate StreamOf(c: Suite, key: Bytes, s: Bytes, p: Bytes) {
    |key| == 32 && KnownHeader(s) &&
    if s[5] == 3 then
      var info := [115, 104, 97, 114, 101, 50, 117, 115, 47, 115, 116, 114, 101, 97, 109, 47, 118, 51];
      SealedBody(c.newAead(c.hkdf(key, s[6..22], info)), s[..22], [0, 0, 0, 0], s[22..], p)
    else if s[5] == 2 then SealedBody(c.newAead(key), s[..18], s[6..10], s[18..], p)
    else LegacyBody(c.newAead(key), s[6..10], s[18..], p)
  }

  lemma SealedExactly(a: Aead, header: Bytes, base: NonceBase, s: Bytes, p: Bytes)
    ensures ReadSealed(a, header, base, 0, s) == Reading(p, Accepted) <==> SealedBody(a, header, base[..4], s, p)
  {
    if ReadSealed(a, header, base, 0, s) == Reading(p, Accepted) {
      hide ReadSealed, Chain, Wire, Texts;
      var pieces, t := AcceptedIsChain(a, header, base, 0, s);
      assert SealedBody(a, header, base[..4], s, p);
    }
    if SealedBody(a, header, base[..4], s, p) {
      var pieces, t :|
        Chain(a, header, base[..4], 0, pieces) && s == Wire(pieces) + t && p == Texts(pieces);
      hide ReadSealed, Chain, Wire, Texts;
      ReadChain(a, header, base, 0, pieces, t);
    }
  }

  lemma LegacyExactly(a: Aead, base: NonceBase, s: Bytes, p: Bytes)
    ensures ReadLegacy(a, base, 0, s) == Reading(p, Accepted) <==> LegacyBody(a, base[..4], s, p)
  {
    if ReadLegacy(a, base, 0, s) == Reading(p, Accepted) {
      hide ReadLegacy, LegacyChain, LegacyWire, Texts;
      var pieces, t := AcceptedIsLegacyChain(a, base, 0, s);
      assert LegacyBody(a, base[..4], s, p);
    }
    if LegacyBody(a, base[..4], s, p) {
      var pieces, t :|
        LegacyChain(a, base[..4], 0, pieces) && s == LegacyWire(pieces) + ([0, 0, 0, 0] + t) && p == Texts(pieces);
      ReadTerminator(a, base, |pieces|, t);
      hide ReadLegacy, LegacyChain, LegacyWire, Texts;
      ReadLegacyChain(a, base, 0, pieces, [0, 0, 0, 0] + t);
      assert Texts(pieces) + [] == Texts(pieces);
    }
  }

  lemma ReadTerminator(a: Aead, base: NonceBase, i: nat, t: Bytes)
    ensures ReadLegacy(a, base, i, [0, 0, 0, 0] + t) == Reading([], Accepted)
  {
    assert ([0, 0, 0, 0] + t)[..4] == [0, 0, 0, 0];
    ZeroLength([0, 0, 0, 0]);
    hide FromBigEndian;
  }

  /** A byte string is accepted, with p as the plaintext, exactly when it starts with a stream of p under this key. */
  lemma DecryptsExactly(c: Suite, key: Bytes, s: Bytes, p: Bytes)
    ensures Decrypted(c, key, s) == Reading(p, Accepted) <==> StreamOf(c, key, s, p)
  {
    if |key| == 32 && KnownHeader(s) {
      if s[5] == 3 {
        SealedExactly(StreamAead(c, key, s[6..22]), s[..22], ZERO_BASE, s[22..], p);
        assert ZERO_BASE[..4] == [0, 0, 0, 0];
      } else {
        assert s[6..18][..4] == s[6..10];
        SealedExactly(c.newAead(key), s[..18], s[6..18], s[18..], p);
        LegacyExactly(c.newAead(key), s[6..18], s[18..], p);
      }
    }
    hide ReadSealed, ReadLegacy, SealedBody, LegacyBody;
  }

  /** Without the right key size and a header of ours, nothing is written and nothing is accepted. */
  lemma ForeignRejected(c: Suite, key: Bytes, s: Bytes)
    ensures |key| != 32 || !KnownHeader(s) ==> Decrypted(c, key, s).out == [] && Decrypted(c, key, s).verdict.Rejected?
  {
    hide ReadSealed, ReadLegacy;
  }

  // ---- how a stream that goes wrong is rejected ----

  /** Chunks i, i + 1, ... that open, none of them the last. */
  predicate OpenChain(a: Aead, header: Bytes, start: Bytes, i: nat, pieces: seq<Piece>) {
    forall j :: 0 <= j < |pieces| ==> OpensAt(a, header, start, i + j, pieces[j]) && pieces[j].flag != 1
  }

  lemma ReadOpenPiece(a: Aead, header: Bytes, base: NonceBase, i: nat, p: Piece, rest: seq<Piece>, t: Bytes)
    requires OpensAt(a, header, base[..4], i, p) && p.flag != 1
    ensures ReadSealed(a, header, base, i, Wire([p] + rest) + t)
         == ReadSealed(a, header, base, i + 1, Wire(rest) + t).After(p.text)
  {
    ReadPiece(a, header, base, i, p, Wire(rest) + t);
    FirstOf(p, rest);
    hide ReadSealed, LegacyWire, Wire, OpensAt, BigEndian, Texts;
    Joined(U32(|p.ct|) + [p.flag] + p.ct, Wire(rest), t);
  }

  lemma {:induction false} ReadOpenChain(a: Aead, header: Bytes, base: NonceBase, i: nat, pieces: seq<Piece>,
                                         t: Bytes)
    requires OpenChain(a, header, base[..4], i, pieces)
    ensures ReadSealed(a, header, base, i, Wire(pieces) + t)
         == ReadSealed(a, header, base, i + |pieces|, t).After(Texts(pieces))
    decreases |pieces|
  {
    hide ReadSealed, OpensAt, BigEndian;
    var r := ReadSealed(a, header, base, i + |pieces|, t);
    if pieces == [] {
      assert [] + t == t && [] + r.out == r.out;
    } else {
      var p, rest := pieces[0], pieces[1..];
      assert OpensAt(a, header, base[..4], i + 0, p) && p.flag != 1;
      OpenChainRest(a, header, base[..4], i, pieces);
      assert pieces == [p] + rest;
      FirstOf(p, rest);
      hide LegacyWire, Wire, OpenChain, Texts, Reading.After;
      ReadOpenPiece(a, header, base, i, p, rest, t);
      ReadOpenChain(a, header, base, i + 1, rest, t);
      AfterBoth(r, p.text, Texts(rest));
    }
  }

  lemma OpenChainRest(a: Aead, header: Bytes, start: Bytes, i: nat, pieces: seq<Piece>)
    requires OpenChain(a, header, start, i, pieces) && pieces != []
    ensures OpenChain(a, header, start, i + 1, pieces[1..])
  {
    forall j | 0 <= j < |pieces[1..]|
      ensures OpensAt(a, header, start, i + 1 + j, pieces[1..][j]) && pieces[1..][j].flag != 1
    {
      assert OpensAt(a, header, start, i + (j + 1), pieces[j + 1]);
      hide OpensAt;
    }
  }

  /** How a chunk of n bytes that cannot be taken is rejected, when t follows its length. */
  function BadChunk(n: nat, t: Bytes): Reason {
    if n == 0 || n > 65600 then BadLength else if t == [] then ShortFlag
    else if |t| < 1 + n then ShortChunk else NotAuthentic
  }

  predicate OpensNext(a: Aead, header: Bytes, start: Bytes, i: nat, n: nat, t: Bytes) {
    1 <= n <= 65600 && 1 + n <= |t| && a.open(start + U64(i), t[1..1 + n], header + [t[0]]).Some?
  }

  lemma StopAt(a: Aead, header: Bytes, base: NonceBase, i: nat, n: nat, t: Bytes)
    requires n < 0x1_0000_0000 && !OpensNext(a, header, base[..4], i, n, t)
    ensures ReadSealed(a, header, base, i, U32(n) + t) == Reading([], Rejected(BadChunk(n, t)))
  {
    var s := U32(n) + t;
    U32RoundTrip(n);
    assert s[..4] == U32(n) && s[4..] == t;
    if 1 + n <= |t| { assert s[4] == t[0] && s[5..5 + n] == t[1..1 + n]; }
    hide BigEndian, FromBigEndian;
  }

  /**
   * (1,2) and (1,3): after chunks that open comes a length of zero or over the cap, or less than a chunk, or one that
   * does not open under the next number. It is rejected, with the text of those chunks written and no more.
   */
  lemma BadSealedRejected(a: Aead, header: Bytes, base: NonceBase, pieces: seq<Piece>, n: nat, t: Bytes)
    requires OpenChain(a, header, base[..4], 0, pieces)
    requires n < 0x1_0000_0000 && !OpensNext(a, header, base[..4], |pieces|, n, t)
    ensures ReadSealed(a, header, base, 0, Wire(pieces) + (U32(n) + t))
         == Reading(Texts(pieces), Rejected(BadChunk(n, t)))
  {
    ReadOpenChain(a, header, base, 0, pieces, U32(n) + t);
    StopAt(a, header, base, |pieces|, n, t);
    hide ReadSealed, Wire, OpenChain, OpensAt, Texts;
    assert Texts(pieces) + [] == Texts(pieces);
  }

  /** So is a stream that ends before the last chunk, even between two chunks. */
  lemma CutSealedRejected(a: Aead, header: Bytes, base: NonceBase, pieces: seq<Piece>, s: Bytes)
    requires OpenChain(a, header, base[..4], 0, pieces) && |s| < 4
    ensures ReadSealed(a, header, base, 0, Wire(pieces) + s) == Reading(Texts(pieces), Rejected(Truncated))
  {
    ReadOpenChain(a, header, base, 0, pieces, s);
    assert ReadSealed(a, header, base, |pieces|, s) == Reading([], Rejected(Truncated));
    hide ReadSealed, Wire, OpenChain, OpensAt, Texts;
    assert Texts(pieces) + [] == Texts(pieces);
  }

  function BadLegacyChunk(n: nat, t: Bytes): Reason {
    if n > 65600 then BadLength else if |t| < n then ShortChunk else NotAuthentic
  }

  predicate LegacyOpensNext(a: Aead, start: Bytes, i: nat, n: nat, t: Bytes) {
    1 <= n <= 65600 && n <= |t| && a.open(start + U64(i), t[..n], []).Some?
  }

  lemma StopLegacyAt(a: Aead, base: NonceBase, i: nat, n: nat, t: Bytes)
    requires 0 < n < 0x1_0000_0000 && !LegacyOpensNext(a, base[..4], i, n, t)
    ensures ReadLegacy(a, base, i, U32(n) + t) == Reading([], Rejected(BadLegacyChunk(n, t)))
  {
    var s := U32(n) + t;
    U32RoundTrip(n);
    assert s[..4] == U32(n) && s[4..] == t;
    if n <= |t| { assert s[4..4 + n] == t[..n]; }
    hide BigEndian, FromBigEndian;
  }

  /** (1,1): the same, but that a length of zero is the end. */
  lemma BadLegacyRejected(a: Aead, base: NonceBase, pieces: seq<Piece>, n: nat, t: Bytes)
    requires LegacyChain(a, base[..4], 0, pieces)
    requires 0 < n < 0x1_0000_0000 && !LegacyOpensNext(a, base[..4], |pieces|, n, t)
    ensures ReadLegacy(a, base, 0, LegacyWire(pieces) + (U32(n) + t))
         == Reading(Texts(pieces), Rejected(BadLegacyChunk(n, t)))
  {
    ReadLegacyChain(a, base, 0, pieces, U32(n) + t);
    StopLegacyAt(a, base, |pieces|, n, t);
    hide ReadLegacy, LegacyWire, LegacyChain, LegacyOpensAt, Texts;
    assert Texts(pieces) + [] == Texts(pieces);
  }

  /** And one that is cut before that end is rejected. */
  lemma CutLegacyRejected(a: Aead, base: NonceBase, pieces: seq<Piece>, s: Bytes)
    requires LegacyChain(a, base[..4], 0, pieces) && |s| < 4
    ensures ReadLegacy(a, base, 0, LegacyWire(pieces) + s) == Reading(Texts(pieces), Rejected(Truncated))
  {
    ReadLegacyChain(a, base, 0, pieces, s);
    assert ReadLegacy(a, base, |pieces|, s) == Reading([], Rejected(Truncated));
    hide ReadLegacy, LegacyWire, LegacyChain, LegacyOpensAt, Texts;
    assert Texts(pieces) + [] == Texts(pieces);
  }

  /** Which of these readings a header leads to. */
  lemma ByVersion(c: Suite, key: Bytes, salt: Bytes, base: NonceBase, body: Bytes)
    requires |key| == 32 && |salt| == 16
    ensures var h := [0x53, 0x32, 0x45, 0x31, 1, 3] + salt;
      Decrypted(c, key, h + body) == ReadSealed(StreamAead(c, key, salt), h, ZERO_BASE, 0, body)
    ensures var h := [0x53, 0x32, 0x45, 0x31, 1, 2] + base;
      Decrypted(c, key, h + body) == ReadSealed(c.newAead(key), h, base, 0, body)
    ensures var h := [0x53, 0x32, 0x45, 0x31, 1, 1] + base;
      Decrypted(c, key, h + body) == ReadLegacy(c.newAead(key), base, 0, body)
  {
    var h3, h2, h1 := [0x53, 0x32, 0x45, 0x31, 1, 3] + salt, [0x53, 0x32, 0x45, 0x31, 1, 2] + base,
                      [0x53, 0x32, 0x45, 0x31, 1, 1] + base;
    hide ReadSealed, ReadLegacy;
    Parts(h3, body, salt);
    Parts(h2, body, base);
    Parts(h1, body, base);
  }

  lemma Parts(h: Bytes, body: Bytes, rest: Bytes)
    requires |h| == 6 + |rest| && h[..5] == MAGIC && h[6..] == rest
    ensures var s := h + body;
      && |s| >= 6 && s[..5] == MAGIC && s[5] == h[5]
      && s[6..6 + |rest|] == rest && s[..6 + |rest|] == h && s[6 + |rest|..] == body
  {
    var s := h + body;
    assert s[..5] == h[..5] && s[..6 + |rest|] == h;
    assert s[6..6 + |rest|] == h[6..] == rest;
  }
}
