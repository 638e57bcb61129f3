/**
 * The encrypted stream container: what its three versions look like on the wire and what a reader makes of any
 * byte string. The ciphers are parameters; LawfulSuite says what is assumed of them.
 */
module StreamFormat {
  import opened Bytes
  import opened Streams

  const CHUNK_SIZE: nat := 65536
  const MAX_CHUNK_CIPHERTEXT: nat := CHUNK_SIZE + 64
  const KEY_SIZE: nat := 32
  const SALT_SIZE: nat := 16
  const PREFIX_SIZE: nat := 6

  /** 'S', '2', 'E', '1' and the major version. */
  const MAGIC: Bytes := [0x53, 0x32, 0x45, 0x31, 1]
  const LEGACY: byte := 1
  const AEAD: byte := 2
  const HKDF: byte := 3

  /** "share2us/stream/v3" */
  const HKDF_INFO: Bytes := [115, 104, 97, 114, 101, 50, 117, 115, 47, 115, 116, 114, 101, 97, 109, 47, 118, 51]

  type NonceBase = b: Bytes | |b| == 12 witness [0, 0, 0, 0, 0, 0, 0, 0, 0, 0, 0, 0]

  const ZERO_BASE: NonceBase := [0, 0, 0, 0, 0, 0, 0, 0, 0, 0, 0, 0]

  /** An AEAD under a fixed key (section 2 of RFC 5116): nonce, text, additional data. */
  datatype Aead = Aead(seal: (Bytes, Bytes, Bytes) -> Bytes, open: (Bytes, Bytes, Bytes) -> Option<Bytes>)

  /** A 16-byte tag is added, and what was sealed opens. Nothing is said about what else opens. */
  ghost predicate Lawful(a: Aead) {
    forall n, p, ad {:trigger a.seal(n, p, ad)} ::
      |a.seal(n, p, ad)| == |p| + 16 && a.open(n, a.seal(n, p, ad), ad) == Some(p)
  }

  /** AES-GCM by key, and HKDF by key, salt and info. */
  datatype Suite = Suite(newAead: Bytes -> Aead, hkdf: (Bytes, Bytes, Bytes) -> Bytes)

  ghost predicate LawfulSuite(c: Suite) {
    && (forall k {:trigger c.newAead(k)} :: |k| == KEY_SIZE ==> Lawful(c.newAead(k)))
    && (forall k, s, i {:trigger c.hkdf(k, s, i)} :: |c.hkdf(k, s, i)| == KEY_SIZE)
  }

  // ---- the pieces of the format ----

  /** nonceFor; streamNonce is the case of the zero base. */
  function Nonce(base: NonceBase, counter: nat): (n: Bytes)
    ensures |n| == 12
  {
    base[..4] + U64(counter)
  }

  function ChunkAad(header: Bytes, flag: byte): Bytes { header + [flag] }

  function Framed(flag: byte, ct: Bytes): Bytes { U32(|ct|) + [flag] + ct }

  function FlagByte(final: bool): byte { if final then 1 else 0 }

  function SealedChunk(a: Aead, header: Bytes, base: NonceBase, i: nat, chunk: Bytes, final: bool): Bytes {
    var flag := FlagByte(final);
    Framed(flag, a.seal(Nonce(base, i), chunk, ChunkAad(header, flag)))
  }

  /** The chunks of a plaintext that starts at counter i; (1,2) and (1,3) frame it alike. */
  function SealedChunks(a: Aead, header: Bytes, base: NonceBase, i: nat, p: Bytes): Bytes
    decreases |p|
  {
    if |p| <= CHUNK_SIZE then SealedChunk(a, header, base, i, p, true)
    else SealedChunk(a, header, base, i, p[..CHUNK_SIZE], false)
         + SealedChunks(a, header, base, i + 1, p[CHUNK_SIZE..])
  }

  function HkdfHeader(salt: Bytes): Bytes { MAGIC + [HKDF] + salt }

  function StreamAead(c: Suite, key: Bytes, salt: Bytes): Aead {
    c.newAead(c.hkdf(key, salt, HKDF_INFO))
  }

  /** The (1,3) stream. */
  function Encrypted(c: Suite, key: Bytes, salt: Bytes, p: Bytes): Bytes {
    HkdfHeader(salt) + SealedChunks(StreamAead(c, key, salt), HkdfHeader(salt), ZERO_BASE, 0, p)
  }

  /** The retired (1,2) stream. */
  function EncryptedV2(c: Suite, key: Bytes, base: NonceBase, p: Bytes): Bytes {
    var header := MAGIC + [AEAD] + base;
    header + SealedChunks(c.newAead(key), header, base, 0, p)
  }

  function LegacyChunks(a: Aead, base: NonceBase, i: nat, p: Bytes): Bytes
    decreases |p|
  {
    if p == [] then U32(0)
    else
      var k := Min(|p|, CHUNK_SIZE);
      var ct := a.seal(Nonce(base, i), p[..k], []);
      U32(|ct|) + ct + LegacyChunks(a, base, i + 1, p[k..])
  }

  /** The pre-1.2 (1,1) stream. */
  function EncryptedV1(c: Suite, key: Bytes, base: NonceBase, p: Bytes): Bytes {
    MAGIC + [LEGACY] + base + LegacyChunks(c.newAead(key), base, 0, p)
  }

  // ---- the reader ----

  datatype Reason =
    | BadKey | ShortHeader | UnknownFormat
    | Truncated | BadLength | ShortFlag | ShortChunk | NotAuthentic | WriteFailed

  datatype Verdict = Accepted | Rejected(why: Reason)

  /** What was written to the destination, and how the reading ended. */
  datatype Reading = Reading(out: Bytes, verdict: Verdict) {
    function After(written: Bytes): Reading { Reading(written + out, verdict) }
  }

  function ReadSealed(a: Aead, header: Bytes, base: NonceBase, i: nat, s: Bytes): Reading
    decreases |s|
  {
    if |s| < 4 then Reading([], Rejected(Truncated))
    else
      var n := FromBigEndian(s[..4]);
      if n == 0 || n > MAX_CHUNK_CIPHERTEXT then Reading([], Rejected(BadLength))
      else if |s| < 5 then Reading([], Rejected(ShortFlag))
      else if |s| < 5 + n then Reading([], Rejected(ShortChunk))
      else
        match a.open(Nonce(base, i), s[5..5 + n], ChunkAad(header, s[4]))
        case None => Reading([], Rejected(NotAuthentic))
        case Some(p) =>
          if s[4] == 1 then Reading(p, Accepted)
          else ReadSealed(a, header, base, i + 1, s[5 + n..]).After(p)
  }

  function ReadLegacy(a: Aead, base: NonceBase, i: nat, s: Bytes): Reading
    decreases |s|
  {
    if |s| < 4 then Reading([], Rejected(Truncated))
    else
      var n := FromBigEndian(s[..4]);
      if n == 0 then Reading([], Accepted)
      else if n > MAX_CHUNK_CIPHERTEXT then Reading([], Rejected(BadLength))
      else if |s| < 4 + n then Reading([], Rejected(ShortChunk))
      else
        match a.open(Nonce(base, i), s[4..4 + n], [])
        case None => Reading([], Rejected(NotAuthentic))
        case Some(p) => ReadLegacy(a, base, i + 1, s[4 + n..]).After(p)
  }

  /** What DecryptStream makes of the bytes s. */
  function Decrypted(c: Suite, key: Bytes, s: Bytes): Reading {
    if |key| != KEY_SIZE then Reading([], Rejected(BadKey))
    else if |s| < 6 then Reading([], Rejected(ShortHeader))
    else if s[..5] != MAGIC then Reading([], Rejected(UnknownFormat))
    else if s[5] == HKDF then
      if |s| < 22 then Reading([], Rejected(ShortHeader))
      else ReadSealed(StreamAead(c, key, s[6..22]), s[..22], ZERO_BASE, 0, s[22..])
    else if s[5] == AEAD || s[5] == LEGACY then
      if |s| < 18 then Reading([], Rejected(ShortHeader))
      else if s[5] == AEAD then ReadSealed(c.newAead(key), s[..18], s[6..18], 0, s[18..])
      else ReadLegacy(c.newAead(key), s[6..18], 0, s[18..])
    else Reading([], Rejected(UnknownFormat))
  }

  // ---- one chunk ----

  lemma FramedParts(flag: byte, ct: Bytes, t: Bytes)
    requires |ct| < 0x1_0000_0000
    ensures var s := Framed(flag, ct) + t;
      && |s| == 5 + |ct| + |t|
      && FromBigEndian(s[..4]) == |ct| && s[4] == flag
      && s[5..5 + |ct|] == ct && s[5 + |ct|..] == t
  {
    U32RoundTrip(|ct|);
    var s := Framed(flag, ct) + t;
    assert s == U32(|ct|) + ([flag] + ct + t);
    assert s[..4] == U32(|ct|);
    assert s[5..] == ct + t;
  }

  /** Reading one honest chunk: its text comes out, and the rest of the stream decides the rest. */
  lemma ReadOneChunk(a: Aead, header: Bytes, base: NonceBase, i: nat, chunk: Bytes, final: bool, t: Bytes)
    requires Lawful(a) && |chunk| <= CHUNK_SIZE
    ensures ReadSealed(a, header, base, i, SealedChunk(a, header, base, i, chunk, final) + t)
         == if final then Reading(chunk, Accepted) else ReadSealed(a, header, base, i + 1, t).After(chunk)
  {
    var flag := FlagByte(final);
    var ct := a.seal(Nonce(base, i), chunk, ChunkAad(header, flag));
    FramedParts(flag, ct, t);
  }

  /** A chunk cut anywhere writes nothing and is rejected. */
  lemma ReadCutChunk(a: Aead, header: Bytes, base: NonceBase, i: nat, chunk: Bytes, final: bool, k: nat)
    requires Lawful(a) && |chunk| <= CHUNK_SIZE
    requires k < |SealedChunk(a, header, base, i, chunk, final)|
    ensures var r := ReadSealed(a, header, base, i, SealedChunk(a, header, base, i, chunk, final)[..k]);
      r.out == [] && r.verdict.Rejected?
  {
    var flag := FlagByte(final);
    var ct := a.seal(Nonce(base, i), chunk, ChunkAad(header, flag));
    FramedParts(flag, ct, []);
    var s := SealedChunk(a, header, base, i, chunk, final);
    assert s + [] == s;
    if k >= 4 {
      assert s[..k][..4] == s[..4];
    }
  }

  // ---- round trips ----

  lemma {:induction false} SealedRoundTrip(a: Aead, header: Bytes, base: NonceBase, i: nat, p: Bytes, t: Bytes)
    requires Lawful(a)
    ensures ReadSealed(a, header, base, i, SealedChunks(a, header, base, i, p) + t) == Reading(p, Accepted)
    decreases |p|
  {
    if |p| <= CHUNK_SIZE {
      ReadOneChunk(a, header, base, i, p, true, t);
    } else {
      var rest := SealedChunks(a, header, base, i + 1, p[CHUNK_SIZE..]);
      assert SealedChunks(a, header, base, i, p) + t
          == SealedChunk(a, header, base, i, p[..CHUNK_SIZE], false) + (rest + t);
      ReadOneChunk(a, header, base, i, p[..CHUNK_SIZE], false, rest + t);
      SealedRoundTrip(a, header, base, i + 1, p[CHUNK_SIZE..], t);
      assert p[..CHUNK_SIZE] + p[CHUNK_SIZE..] == p;
    }
  }

  lemma ReadOneLegacyChunk(a: Aead, base: NonceBase, i: nat, chunk: Bytes, t: Bytes)
    requires Lawful(a) && |chunk| <= CHUNK_SIZE
    ensures var ct := a.seal(Nonce(base, i), chunk, []);
      ReadLegacy(a, base, i, U32(|ct|) + ct + t) == ReadLegacy(a, base, i + 1, t).After(chunk)
  {
    var ct := a.seal(Nonce(base, i), chunk, []);
    var s := U32(|ct|) + ct + t;
    U32RoundTrip(|ct|);
    assert s[..4] == U32(|ct|);
    assert s[4..4 + |ct|] == ct && s[4 + |ct|..] == t;
  }

  lemma {:induction false} LegacyRoundTrip(a: Aead, base: NonceBase, i: nat, p: Bytes, t: Bytes)
    requires Lawful(a)
    ensures ReadLegacy(a, base, i, LegacyChunks(a, base, i, p) + t) == Reading(p, Accepted)
    decreases |p|
  {
    if p == [] {
      U32RoundTrip(0);
      assert (U32(0) + t)[..4] == U32(0);
    } else {
      hide ReadLegacy;
      var k := Min(|p|, CHUNK_SIZE);
      var ct := a.seal(Nonce(base, i), p[..k], []);
      var rest := LegacyChunks(a, base, i + 1, p[k..]);
      assert LegacyChunks(a, base, i, p) + t == U32(|ct|) + ct + (rest + t);
      ReadOneLegacyChunk(a, base, i, p[..k], rest + t);
      LegacyRoundTrip(a, base, i + 1, p[k..], t);
      assert p[..k] + p[k..] == p;
    }
  }

  lemma RoundTripV3(c: Suite, key: Bytes, salt: Bytes, p: Bytes, trailing: Bytes)
    requires LawfulSuite(c) && |key| == KEY_SIZE && |salt| == SALT_SIZE
    ensures Decrypted(c, key, Encrypted(c, key, salt, p) + trailing) == Reading(p, Accepted)
  {
    var h := HkdfHeader(salt);
    var chunks := SealedChunks(StreamAead(c, key, salt), h, ZERO_BASE, 0, p);
    assert Encrypted(c, key, salt, p) + trailing == h + (chunks + trailing);
    DecryptHkdf(c, key, salt, chunks + trailing);
    SealedRoundTrip(StreamAead(c, key, salt), h, ZERO_BASE, 0, p, trailing);
  }

  lemma RoundTripV2(c: Suite, key: Bytes, base: NonceBase, p: Bytes, trailing: Bytes)
    requires LawfulSuite(c) && |key| == KEY_SIZE
    ensures Decrypted(c, key, EncryptedV2(c, key, base, p) + trailing) == Reading(p, Accepted)
  {
    var h := MAGIC + [AEAD] + base;
    var body := SealedChunks(c.newAead(key), h, base, 0, p) + trailing;
    var s := h + body;
    assert EncryptedV2(c, key, base, p) + trailing == s;
    assert s[..5] == MAGIC && s[5] == AEAD && s[6..18] == base && s[..18] == h && s[18..] == body;
    SealedRoundTrip(c.newAead(key), h, base, 0, p, trailing);
  }

  lemma RoundTripV1(c: Suite, key: Bytes, base: NonceBase, p: Bytes, trailing: Bytes)
    requires LawfulSuite(c) && |key| == KEY_SIZE
    ensures Decrypted(c, key, EncryptedV1(c, key, base, p) + trailing) == Reading(p, Accepted)
  {
    var h := MAGIC + [LEGACY] + base;
    var body := LegacyChunks(c.newAead(key), base, 0, p) + trailing;
    var s := h + body;
    assert EncryptedV1(c, key, base, p) + trailing == s;
    assert s[..5] == MAGIC && s[5] == LEGACY && s[6..18] == base && s[18..] == body;
    LegacyRoundTrip(c.newAead(key), base, 0, p, trailing);
  }

  /** Every version round-trips, for every plaintext, and whatever bytes follow the stream are never looked at. */
  lemma RoundTrip(c: Suite, key: Bytes, salt: Bytes, base: NonceBase, p: Bytes, trailing: Bytes)
    requires LawfulSuite(c) && |key| == KEY_SIZE && |salt| == SALT_SIZE
    ensures Decrypted(c, key, Encrypted(c, key, salt, p) + trailing) == Reading(p, Accepted)
    ensures Decrypted(c, key, EncryptedV2(c, key, base, p) + trailing) == Reading(p, Accepted)
    ensures Decrypted(c, key, EncryptedV1(c, key, base, p) + trailing) == Reading(p, Accepted)
  {
    RoundTripV3(c, key, salt, p, trailing);
    RoundTripV2(c, key, base, p, trailing);
    RoundTripV1(c, key, base, p, trailing);
  }

  lemma DecryptHkdf(c: Suite, key: Bytes, salt: Bytes, body: Bytes)
    requires |key| == KEY_SIZE && |salt| == SALT_SIZE
    ensures Decrypted(c, key, HkdfHeader(salt) + body)
         == ReadSealed(StreamAead(c, key, salt), HkdfHeader(salt), ZERO_BASE, 0, body)
  {
    var s := HkdfHeader(salt) + body;
    assert s[..5] == MAGIC && s[6..22] == salt && s[..22] == HkdfHeader(salt) && s[22..] == body;
  }

  // ---- truncation ----

  /** Only whole non-final chunks of p can have been written. */
  predicate ChunkAlignedPrefix(out: Bytes, p: Bytes) {
    out <= p && |out| % CHUNK_SIZE == 0
  }

  lemma AlignedAfter(out: Bytes, p: Bytes)
    requires |p| > CHUNK_SIZE && ChunkAlignedPrefix(out, p[CHUNK_SIZE..])
    ensures ChunkAlignedPrefix(p[..CHUNK_SIZE] + out, p)
  {
    assert p == p[..CHUNK_SIZE] + p[CHUNK_SIZE..];
    assert |p[..CHUNK_SIZE] + out| == CHUNK_SIZE + |out|;
  }

  lemma {:induction false} CutSealed(a: Aead, header: Bytes, base: NonceBase, i: nat, p: Bytes, k: nat)
    requires Lawful(a) && k < |SealedChunks(a, header, base, i, p)|
    ensures var r := ReadSealed(a, header, base, i, SealedChunks(a, header, base, i, p)[..k]);
      r.verdict.Rejected? && ChunkAlignedPrefix(r.out, p)
    decreases |p|
  {
    if |p| <= CHUNK_SIZE {
      ReadCutChunk(a, header, base, i, p, true, k);
    } else {
      CutSealedMany(a, header, base, i, p, k);
    }
  }

  lemma {:induction false} CutSealedMany(a: Aead, header: Bytes, base: NonceBase, i: nat, p: Bytes, k: nat)
    requires Lawful(a) && |p| > CHUNK_SIZE && k < |SealedChunks(a, header, base, i, p)|
    ensures var r := ReadSealed(a, header, base, i, SealedChunks(a, header, base, i, p)[..k]);
      r.verdict.Rejected? && ChunkAlignedPrefix(r.out, p)
    decreases |p|, 0
  {
    var chunk := p[..CHUNK_SIZE];
    var first := SealedChunk(a, header, base, i, chunk, false);
    var rest := SealedChunks(a, header, base, i + 1, p[CHUNK_SIZE..]);
    var s := first + rest;
    assert SealedChunks(a, header, base, i, p) == s;
    if k < |first| {
      assert s[..k] == first[..k];
      ReadCutChunk(a, header, base, i, chunk, false, k);
    } else {
      var t := rest[..k - |first|];
      assert s[..k] == first + t;
      ReadOneChunk(a, header, base, i, chunk, false, t);
      CutSealed(a, header, base, i + 1, p[CHUNK_SIZE..], k - |first|);
      AlignedAfter(ReadSealed(a, header, base, i + 1, t).out, p);
    }
  }

  /** Every strict prefix of a (1,3) stream is rejected. No unforgeability is assumed. */
  lemma StrictPrefixRejected(c: Suite, key: Bytes, salt: Bytes, p: Bytes, cut: Bytes)
    requires LawfulSuite(c) && |key| == KEY_SIZE && |salt| == SALT_SIZE
    requires cut < Encrypted(c, key, salt, p)
    ensures Decrypted(c, key, cut).verdict.Rejected? && ChunkAlignedPrefix(Decrypted(c, key, cut).out, p)
  {
    var h := HkdfHeader(salt);
    var e := Encrypted(c, key, salt, p);
    assert cut == e[..|cut|];
    if |cut| < 22 {
      if |cut| >= 6 {
        assert cut[..5] == e[..5] == MAGIC && cut[5] == HKDF;
      }
    } else {
      var a := StreamAead(c, key, salt);
      var body := SealedChunks(a, h, ZERO_BASE, 0, p);
      var k := |cut| - 22;
      assert cut == h + body[..k];
      DecryptHkdf(c, key, salt, body[..k]);
      CutSealed(a, h, ZERO_BASE, 0, p, k);
    }
  }

  // ---- integrity ----

  datatype Chunk = Chunk(text: Bytes, final: bool)

  /** How the writer cuts a plaintext up. */
  function Plan(p: Bytes): seq<Chunk>
    decreases |p|
  {
    if |p| <= CHUNK_SIZE then [Chunk(p, true)] else [Chunk(p[..CHUNK_SIZE], false)] + Plan(p[CHUNK_SIZE..])
  }

  /** (n, ct, ad) is what the writer of the chunks `plan` sealed under counter i. */
  predicate SealedAs(a: Aead, header: Bytes, base: NonceBase, plan: seq<Chunk>, i: nat, n: Bytes, ct: Bytes,
                     ad: Bytes) {
    && i < |plan|
    && n == Nonce(base, i)
    && ad == ChunkAad(header, FlagByte(plan[i].final))
    && ct == a.seal(n, plan[i].text, ad)
  }

  predicate Opens(a: Aead, header: Bytes, base: NonceBase, i: nat, flag: byte, ct: Bytes) {
    a.open(Nonce(base, i), ct, ChunkAad(header, flag)).Some?
  }

  ghost predicate WasSealed(a: Aead, header: Bytes, base: NonceBase, plan: seq<Chunk>, i: nat, flag: byte, ct: Bytes) {
    exists j: nat :: SealedAs(a, header, base, plan, j, Nonce(base, i), ct, ChunkAad(header, flag))
  }

  ghost predicate Occurs(ct: Bytes, s: Bytes) {
    exists k: nat, m: nat :: k <= m <= |s| && ct == s[k..m]
  }

  /**
   * Unforgeability, as a hypothesis about one byte string: whatever occurs in s and opens under this stream's nonces
   * and additional data is a chunk that was sealed for p.
   */
  ghost predicate Unforged(a: Aead, header: Bytes, base: NonceBase, p: Bytes, s: Bytes) {
    forall i: nat, flag: byte, ct: Bytes {:trigger Opens(a, header, base, i, flag, ct)} ::
      Opens(a, header, base, i, flag, ct) && Occurs(ct, s) ==> WasSealed(a, header, base, Plan(p), i, flag, ct)
  }

  lemma OccursSuffix(ct: Bytes, s: Bytes, d: nat)
    requires d <= |s| && Occurs(ct, s[d..])
    ensures Occurs(ct, s)
  {
    var k: nat, m: nat :| k <= m <= |s[d..]| && ct == s[d..][k..m];
    assert ct == s[d + k..d + m];
  }

  lemma UnforgedSuffix(a: Aead, header: Bytes, base: NonceBase, p: Bytes, s: Bytes, d: nat)
    requires d <= |s| && Unforged(a, header, base, p, s)
    ensures Unforged(a, header, base, p, s[d..])
  {
    forall i: nat, flag: byte, ct: Bytes | Opens(a, header, base, i, flag, ct) && Occurs(ct, s[d..])
      ensures WasSealed(a, header, base, Plan(p), i, flag, ct)
    {
      OccursSuffix(ct, s, d);
    }
  }

  lemma NonceInjective(base: NonceBase, i: nat, j: nat)
    requires i < 0x1_0000_0000_0000_0000 && j < 0x1_0000_0000_0000_0000
    requires Nonce(base, i) == Nonce(base, j)
    ensures i == j
  {
    assert Nonce(base, i)[4..] == U64(i) && Nonce(base, j)[4..] == U64(j);
    U64Injective(i, j);
  }

  lemma AadInjective(header: Bytes, f: byte, g: byte)
    requires ChunkAad(header, f) == ChunkAad(header, g)
    ensures f == g
  {
    assert ChunkAad(header, f)[|header|] == f && ChunkAad(header, g)[|header|] == g;
  }

  lemma SealedPosition(a: Aead, header: Bytes, base: NonceBase, plan: seq<Chunk>, i: nat, j: nat, ct: Bytes, flag: byte)
    requires i < |plan| <= 0x1_0000_0000_0000_0000
    requires SealedAs(a, header, base, plan, j, Nonce(base, i), ct, ChunkAad(header, flag))
    ensures i == j && flag == FlagByte(plan[i].final)
    ensures ct == a.seal(Nonce(base, i), plan[i].text, ChunkAad(header, flag))
  {
    NonceInjective(base, i, j);
    AadInjective(header, flag, FlagByte(plan[i].final));
  }

  /** If some part of s opens at position i then it is the chunk sealed there, with the flag it was sealed with. */
  lemma OpenedIsSealed(a: Aead, header: Bytes, base: NonceBase, p: Bytes, i: nat, flag: byte, s: Bytes, ct: Bytes)
    requires Unforged(a, header, base, p, s) && Occurs(ct, s)
    requires i < |Plan(p)| <= 0x1_0000_0000_0000_0000
    requires Opens(a, header, base, i, flag, ct)
    ensures flag == FlagByte(Plan(p)[i].final)
    ensures ct == a.seal(Nonce(base, i), Plan(p)[i].text, ChunkAad(header, flag))
  {
    assert WasSealed(a, header, base, Plan(p), i, flag, ct);
    var j: nat :| SealedAs(a, header, base, Plan(p), j, Nonce(base, i), ct, ChunkAad(header, flag));
    SealedPosition(a, header, base, Plan(p), i, j, ct, flag);
  }

  lemma FrameOf(s: Bytes, n: nat)
    requires |s| >= 5 + n && n == FromBigEndian(s[..4])
    ensures s[..5 + n] == Framed(s[4], s[5..5 + n])
  {
    EncodeOfDecode(s[..4]);
    assert s[..5 + n] == s[..4] + [s[4]] + s[5..5 + n];
  }

  /** Bytes the reader does not reject at position i start with the honest chunk i. */
  lemma ForeignChunk(a: Aead, header: Bytes, base: NonceBase, p: Bytes, i: nat, s: Bytes)
    requires Unforged(a, header, base, p, s)
    requires i < |Plan(p)| <= 0x1_0000_0000_0000_0000
    ensures SealedChunk(a, header, base, i, Plan(p)[i].text, Plan(p)[i].final) <= s
         || (ReadSealed(a, header, base, i, s).out == [] && ReadSealed(a, header, base, i, s).verdict.Rejected?)
  {
    if |s| >= 5 {
      var n := FromBigEndian(s[..4]);
      if 0 < n <= MAX_CHUNK_CIPHERTEXT && |s| >= 5 + n {
        var ct := s[5..5 + n];
        if Opens(a, header, base, i, s[4], ct) {
          assert Occurs(ct, s);
          OpenedIsSealed(a, header, base, p, i, s[4], s, ct);
          FrameOf(s, n);
        }
      }
    }
  }

  /** Integrity from position i on, where q is what the writer still had to write. */
  lemma {:induction false} SealedIntegrity(a: Aead, header: Bytes, base: NonceBase, p: Bytes, i: nat, q: Bytes,
                                           s: Bytes)
    requires Lawful(a) && Unforged(a, header, base, p, s)
    requires i < |Plan(p)| <= 0x1_0000_0000_0000_0000 && Plan(p)[i..] == Plan(q)
    ensures IntegrityAt(a, header, base, i, q, s)
    decreases |q|
  {
    assert Plan(p)[i] == Plan(p)[i..][0] == Plan(q)[0];
    ForeignChunk(a, header, base, p, i, s);
    if |q| <= CHUNK_SIZE {
      var e := SealedChunk(a, header, base, i, q, true);
      if e <= s {
        assert s == e + s[|e|..];
        ReadOneChunk(a, header, base, i, q, true, s[|e|..]);
      }
    } else {
      var first := SealedChunk(a, header, base, i, q[..CHUNK_SIZE], false);
      if first <= s {
        var t := s[|first|..];
        assert s == first + t;
        UnforgedSuffix(a, header, base, p, s, |first|);
        assert Plan(p)[i + 1..] == Plan(p)[i..][1..] == Plan(q[CHUNK_SIZE..]);
        SealedIntegrity(a, header, base, p, i + 1, q[CHUNK_SIZE..], t);
        IntegrityBefore(a, header, base, i, q, t);
      } else {
        IntegrityAtForeign(a, header, base, i, q, s);
      }
    }
  }

  lemma PrefixTransitive(a: Bytes, b: Bytes, c: Bytes)
    requires a <= b
    ensures b <= c ==> a <= c
  {
  }

  lemma IntegrityAtForeign(a: Aead, header: Bytes, base: NonceBase, i: nat, q: Bytes, s: Bytes)
    requires |q| > CHUNK_SIZE && !(SealedChunk(a, header, base, i, q[..CHUNK_SIZE], false) <= s)
    requires ReadSealed(a, header, base, i, s).out == [] && ReadSealed(a, header, base, i, s).verdict.Rejected?
    ensures IntegrityAt(a, header, base, i, q, s)
  {
    var first := SealedChunk(a, header, base, i, q[..CHUNK_SIZE], false);
    var e := SealedChunks(a, header, base, i, q);
    assert first <= e;
    PrefixTransitive(first, e, s);
  }

  /** What integrity says of reading s where the writer still had q to write. */
  predicate IntegrityAt(a: Aead, header: Bytes, base: NonceBase, i: nat, q: Bytes, s: Bytes) {
    var r := ReadSealed(a, header, base, i, s);
    && (r.verdict.Accepted? <==> SealedChunks(a, header, base, i, q) <= s)
    && (r.verdict.Accepted? ==> r.out == q)
    && (r.verdict.Rejected? ==> ChunkAlignedPrefix(r.out, q))
  }

  lemma IntegrityBefore(a: Aead, header: Bytes, base: NonceBase, i: nat, q: Bytes, t: Bytes)
    requires Lawful(a) && |q| > CHUNK_SIZE
    requires IntegrityAt(a, header, base, i + 1, q[CHUNK_SIZE..], t)
    ensures IntegrityAt(a, header, base, i, q, SealedChunk(a, header, base, i, q[..CHUNK_SIZE], false) + t)
  {
    var first := SealedChunk(a, header, base, i, q[..CHUNK_SIZE], false);
    var rest := SealedChunks(a, header, base, i + 1, q[CHUNK_SIZE..]);
    var s := first + t;
    ReadOneChunk(a, header, base, i, q[..CHUNK_SIZE], false, t);
    assert q == q[..CHUNK_SIZE] + q[CHUNK_SIZE..];
    assert first + rest <= s <==> rest <= t by {
      if rest <= t { assert s[..|first + rest|] == first + t[..|rest|]; }
      if first + rest <= s { assert t[..|rest|] == s[|first|..|first + rest|] == rest; }
    }
    var r := ReadSealed(a, header, base, i + 1, t);
    if r.verdict.Rejected? {
      AlignedAfter(r.out, q);
    }
  }

  /**
   * Stream integrity. When nothing in a byte string with this header opens but the chunks sealed for p, it is
   * accepted exactly when it starts with the stream written for p, and then exactly p comes out; any other
   * is rejected after at most whole leading chunks of p. So nothing dropped, reordered, repeated or re-flagged passes.
   */
  lemma StreamIntegrity(c: Suite, key: Bytes, salt: Bytes, p: Bytes, s: Bytes)
    requires LawfulSuite(c) && |key| == KEY_SIZE && |salt| == SALT_SIZE
    requires |Plan(p)| <= 0x1_0000_0000_0000_0000
    requires Unforged(StreamAead(c, key, salt), HkdfHeader(salt), ZERO_BASE, p, s)
    requires HkdfHeader(salt) <= s
    ensures var r := Decrypted(c, key, s);
      && (r.verdict.Accepted? <==> Encrypted(c, key, salt, p) <= s)
      && (r.verdict.Accepted? ==> r.out == p)
      && (r.verdict.Rejected? ==> ChunkAlignedPrefix(r.out, p))
  {
    var a, h := StreamAead(c, key, salt), HkdfHeader(salt);
    var t := s[22..];
    assert s == h + t;
    DecryptHkdf(c, key, salt, t);
    UnforgedSuffix(a, h, ZERO_BASE, p, s, 22);
    SealedIntegrity(a, h, ZERO_BASE, p, 0, p, t);
    var e := SealedChunks(a, h, ZERO_BASE, 0, p);
    if e <= t {
      assert s[..22 + |e|] == h + t[..|e|] == h + e;
    }
    if h + e <= s {
      assert e == (h + e)[22..] == s[..22 + |e|][22..] == t[..|e|];
    }
  }

  // ---- the shape of what is written ----

  function ChunkCount(n: nat): nat {
    if n == 0 then 1 else (n + CHUNK_SIZE - 1) / CHUNK_SIZE
  }

  function SealedPlan(a: Aead, header: Bytes, base: NonceBase, i: nat, plan: seq<Chunk>): seq<Bytes>
    decreases |plan|
  {
    if plan == [] then []
    else [SealedChunk(a, header, base, i, plan[0].text, plan[0].final)] + SealedPlan(a, header, base, i + 1, plan[1..])
  }

  /** max(1, ceil(n/65536)) chunks, all but the last full, only the last flagged. */
  lemma {:induction false} PlanShape(p: Bytes)
    ensures |Plan(p)| == ChunkCount(|p|)
    ensures forall j :: 0 <= j < |Plan(p)| ==>
      && (Plan(p)[j].final <==> j == |Plan(p)| - 1)
      && (if Plan(p)[j].final then |Plan(p)[j].text| <= CHUNK_SIZE else |Plan(p)[j].text| == CHUNK_SIZE)
    decreases |p|
  {
    if |p| > CHUNK_SIZE {
      var q := p[CHUNK_SIZE..];
      PlanShape(q);
      assert forall j :: 1 <= j < |Plan(p)| ==> Plan(p)[j] == Plan(q)[j - 1];
    }
  }

  /** The stream is those chunks, sealed under consecutive counters. */
  lemma {:induction false} WrittenPlan(a: Aead, header: Bytes, base: NonceBase, i: nat, p: Bytes)
    ensures SealedChunks(a, header, base, i, p) == Concat(SealedPlan(a, header, base, i, Plan(p)))
    decreases |p|
  {
    hide SealedChunk;
    if |p| <= CHUNK_SIZE {
      var b := SealedChunk(a, header, base, i, p, true);
      assert SealedPlan(a, header, base, i, [Chunk(p, true)]) == [b] + SealedPlan(a, header, base, i + 1, []);
      assert Concat([b]) == b + Concat([]) == b;
    } else {
      var q := p[CHUNK_SIZE..];
      WrittenPlan(a, header, base, i + 1, q);
      assert Plan(p)[1..] == Plan(q);
      var b := SealedChunk(a, header, base, i, p[..CHUNK_SIZE], false);
      var pieces := SealedPlan(a, header, base, i + 1, Plan(q));
      assert SealedPlan(a, header, base, i, Plan(p)) == [b] + pieces;
      assert ([b] + pieces)[1..] == pieces;
    }
  }

  /** Every length the writer emits is one the reader admits, and none is zero. */
  lemma WrittenLengths(a: Aead, header: Bytes, base: NonceBase, p: Bytes, j: nat)
    requires Lawful(a) && j < |Plan(p)|
    ensures var ch := Plan(p)[j];
      0 < |a.seal(Nonce(base, j), ch.text, ChunkAad(header, FlagByte(ch.final)))| <= MAX_CHUNK_CIPHERTEXT
  {
    PlanShape(p);
  }

  /** No nonce is used twice within a stream of up to 2^64 chunks, the range of the counter. */
  lemma NoncesDistinct(i: nat, j: nat)
    ensures i < j < 0x1_0000_0000_0000_0000 ==> Nonce(ZERO_BASE, i) != Nonce(ZERO_BASE, j)
  {
    if i < j < 0x1_0000_0000_0000_0000 && Nonce(ZERO_BASE, i) == Nonce(ZERO_BASE, j) {
      NonceInjective(ZERO_BASE, i, j);
    }
  }

  // ---- the assumptions can be met together ----

  const TOY_SALT: Bytes := [0, 0, 0, 0, 0, 0, 0, 0, 0, 0, 0, 0, 0, 0, 0, 0]
  const TOY_KEY: Bytes := TOY_SALT + TOY_SALT

  /** A plaintext of m full chunks and a last one of one byte. */
  function ToyText(m: nat): Bytes { Zeros(CHUNK_SIZE * m + 1) }

  /** Whether (n, p, ad) is what its writer seals at some position. */
  predicate ToyChunk(m: nat, n: Bytes, p: Bytes, ad: Bytes) {
    |n| == 12 &&
    var i := FromBigEndian(n[4..]);
    && i <= m && n == Nonce(ZERO_BASE, i)
    && p == Zeros(if i < m then CHUNK_SIZE else 1)
    && ad == ChunkAad(HkdfHeader(TOY_SALT), if i < m then 0 else 1)
  }

  /** A tag that is 7s for those and 9s for anything else. */
  function ToySeal(m: nat, n: Bytes, p: Bytes, ad: Bytes): Bytes {
    var fill := if ToyChunk(m, n, p, ad) then 7 else 9;
    p + seq(16, i => fill)
  }

  function ToyOpen(m: nat, n: Bytes, ct: Bytes, ad: Bytes): Option<Bytes> {
    if |ct| >= 16 && ct == ToySeal(m, n, ct[..|ct| - 16], ad) then Some(ct[..|ct| - 16]) else None
  }

  function ToyAead(m: nat): Aead {
    Aead((n, p, ad) => ToySeal(m, n, p, ad), (n, ct, ad) => ToyOpen(m, n, ct, ad))
  }

  function Toy(m: nat): Suite { Suite(k => ToyAead(m), (k, s, i) => TOY_KEY) }

  lemma ToyLawful(m: nat)
    ensures Lawful(ToyAead(m)) && LawfulSuite(Toy(m))
  {
    forall n, p, ad
      ensures |ToySeal(m, n, p, ad)| == |p| + 16 && ToyOpen(m, n, ToySeal(m, n, p, ad), ad) == Some(p)
    {
      assert ToySeal(m, n, p, ad)[..|p|] == p;
    }
  }

  lemma ToyOpensOnlyIts(m: nat, n: Bytes, ct: Bytes, ad: Bytes)
    requires ToyOpen(m, n, ct, ad).Some? && ct[|ct| - 1] != 9
    ensures ToyChunk(m, n, ct[..|ct| - 16], ad) && ct == ToySeal(m, n, ct[..|ct| - 16], ad)
  {
    hide ToyChunk;
    var p := ct[..|ct| - 16];
    assert ct[|ct| - 1] == if ToyChunk(m, n, p, ad) then 7 else 9;
  }

  predicate Tame(s: Bytes) { 9 !in s }

  lemma ToyLengths()
    ensures U32(CHUNK_SIZE + 16) == [0, 1, 0, 16] && U32(17) == [0, 0, 0, 17]
  {
    FourBytes(0, 1, 0, 16);
    FourBytes(0, 0, 0, 17);
    EncodeOfDecode([0, 1, 0, 16]);
    EncodeOfDecode([0, 0, 0, 17]);
    hide BigEndian, FromBigEndian;
  }

  lemma FourBytes(a: byte, b: byte, c: byte, d: byte)
    ensures FromBigEndian([a, b, c, d]) == 256 * (256 * (256 * a + b) + c) + d
  {
    assert [a, b, c, d][..3] == [a, b, c] && [a, b, c][..2] == [a, b] && [a, b][..1] == [a] && [a][..0] == [];
    assert FromBigEndian([a]) == a;
    assert FromBigEndian([a, b]) == 256 * a + b;
    assert FromBigEndian([a, b, c]) == 256 * (256 * a + b) + c;
  }

  lemma ToySealTame(m: nat, n: Bytes, p: Bytes, ad: Bytes)
    requires ToyChunk(m, n, p, ad)
    ensures Tame(ToySeal(m, n, p, ad)) && |ToySeal(m, n, p, ad)| == |p| + 16
  {
    hide Nonce, ChunkAad, FromBigEndian, HkdfHeader;
    assert Tame(p);
    hide ToyChunk;
  }

  lemma FramedTame(flag: byte, ct: Bytes)
    requires Tame(ct) && flag <= 1 && (|ct| == CHUNK_SIZE + 16 || |ct| == 17)
    ensures Tame(Framed(flag, ct))
  {
    ToyLengths();
    hide BigEndian;
  }

  lemma ToyChunkTame(m: nat, i: nat)
    requires i <= m < 0x1_0000_0000_0000_0000
    ensures var p := Zeros(if i < m then CHUNK_SIZE else 1);
      Tame(SealedChunk(ToyAead(m), HkdfHeader(TOY_SALT), ZERO_BASE, i, p, i == m))
  {
    NonceCounter(i);
    hide BigEndian, FromBigEndian, Nonce, ChunkAad, HkdfHeader, Tame;
    var n, p := Nonce(ZERO_BASE, i), Zeros(if i < m then CHUNK_SIZE else 1);
    var flag := FlagByte(i == m);
    var ad := ChunkAad(HkdfHeader(TOY_SALT), flag);
    assert ToyChunk(m, n, p, ad);
    hide ToyChunk, Zeros;
    ToySealTame(m, n, p, ad);
    hide ToySeal;
    FramedTame(flag, ToySeal(m, n, p, ad));
  }

  lemma NonceCounter(i: nat)
    requires i < 0x1_0000_0000_0000_0000
    ensures FromBigEndian(Nonce(ZERO_BASE, i)[4..]) == i
  {
    hide BigEndian, FromBigEndian, Pow256;
    BigEndianRoundTrip(i, 8);
    Pow256Values();
    assert |U64(i)| == 8 by { assert |Nonce(ZERO_BASE, i)| == 12; }
    assert Nonce(ZERO_BASE, i)[4..] == U64(i);
  }

  lemma ToyTextParts(m: nat)
    ensures m > 0 ==> |ToyText(m)| > CHUNK_SIZE && ToyText(m)[..CHUNK_SIZE] == Zeros(CHUNK_SIZE)
                      && ToyText(m)[CHUNK_SIZE..] == ToyText(m - 1)
    ensures ToyText(0) == Zeros(1)
  {
  }

  lemma ToyChunksParts(a: Aead, h: Bytes, i: nat, m: nat)
    ensures SealedChunks(a, h, ZERO_BASE, i, ToyText(m))
         == if m > 0
            then SealedChunk(a, h, ZERO_BASE, i, Zeros(CHUNK_SIZE), false)
               + SealedChunks(a, h, ZERO_BASE, i + 1, ToyText(m - 1))
            else SealedChunk(a, h, ZERO_BASE, i, Zeros(1), true)
  {
    ToyTextParts(m);
    hide SealedChunk, ToyText, Zeros;
  }

  lemma {:induction false} ToyChunksTame(m: nat, i: nat)
    requires i <= m < 0x1_0000_0000_0000_0000
    ensures Tame(SealedChunks(ToyAead(m), HkdfHeader(TOY_SALT), ZERO_BASE, i, ToyText(m - i)))
    decreases m - i
  {
    hide SealedChunk, SealedChunks, ToyAead, HkdfHeader, ToyText, Tame;
    ToyChunkTame(m, i);
    var a, h := ToyAead(m), HkdfHeader(TOY_SALT);
    ToyChunksParts(a, h, i, m - i);
    if i < m {
      ToyChunksTame(m, i + 1);
      assert m - i - 1 == m - (i + 1);
      TameConcat(SealedChunk(a, h, ZERO_BASE, i, Zeros(CHUNK_SIZE), false),
                 SealedChunks(a, h, ZERO_BASE, i + 1, ToyText(m - (i + 1))));
    }
  }

  lemma TameConcat(s: Bytes, t: Bytes)
    requires Tame(s) && Tame(t)
    ensures Tame(s + t)
  {
  }

  lemma {:induction false} ToyPlan(m: nat)
    ensures Plan(ToyText(m)) == seq(m + 1, i => Chunk(Zeros(if i < m then CHUNK_SIZE else 1), i == m))
  {
    if m > 0 {
      var p := ToyText(m);
      assert p[..CHUNK_SIZE] == Zeros(CHUNK_SIZE) && p[CHUNK_SIZE..] == ToyText(m - 1);
      ToyPlan(m - 1);
    }
  }

  lemma OccursTame(ct: Bytes, s: Bytes)
    requires ct != [] && Occurs(ct, s) && Tame(s)
    ensures ct[|ct| - 1] != 9
  {
    var k: nat, l: nat :| k <= l <= |s| && ct == s[k..l];
    assert ct[|ct| - 1] == s[l - 1];
  }

  lemma ToyOpened(m: nat, n: Bytes, ct: Bytes, ad: Bytes, s: Bytes)
    requires ToyOpen(m, n, ct, ad).Some? && Occurs(ct, s) && Tame(s)
    ensures exists j: nat :: SealedAs(ToyAead(m), HkdfHeader(TOY_SALT), ZERO_BASE, Plan(ToyText(m)), j, n, ct, ad)
  {
    ToyPlan(m);
    OccursTame(ct, s);
    hide Plan, Nonce, FromBigEndian, HkdfHeader, Occurs, Tame;
    ToyOpensOnlyIts(m, n, ct, ad);
    hide ToyOpen;
    var j := FromBigEndian(n[4..]);
    assert SealedAs(ToyAead(m), HkdfHeader(TOY_SALT), ZERO_BASE, Plan(ToyText(m)), j, n, ct, ad);
  }

  lemma ToyHeaderTame()
    ensures Tame(HkdfHeader(TOY_SALT))
  {
  }

  lemma EncryptedParts(c: Suite, key: Bytes, salt: Bytes, p: Bytes)
    ensures Encrypted(c, key, salt, p)
         == HkdfHeader(salt) + SealedChunks(StreamAead(c, key, salt), HkdfHeader(salt), ZERO_BASE, 0, p)
  {
  }

  lemma ToyStreamTame(m: nat)
    requires m < 0x1_0000_0000_0000_0000
    ensures Tame(Encrypted(Toy(m), TOY_KEY, TOY_SALT, ToyText(m)))
  {
    assert StreamAead(Toy(m), TOY_KEY, TOY_SALT) == ToyAead(m);
    hide SealedChunks, ToyText, ToyAead, StreamAead, Encrypted;
    ToyHeaderTame();
    hide HkdfHeader, Tame;
    ToyChunksTame(m, 0);
    EncryptedParts(Toy(m), TOY_KEY, TOY_SALT, ToyText(m));
    TameConcat(HkdfHeader(TOY_SALT), SealedChunks(ToyAead(m), HkdfHeader(TOY_SALT), ZERO_BASE, 0, ToyText(m)));
  }

  /** Lawful ciphers exist under which streams of any number of chunks meet the unforgeability hypothesis. */
  lemma AssumptionsConsistent(m: nat)
    requires m < 0x1_0000_0000_0000_0000
    ensures LawfulSuite(Toy(m)) && |Plan(ToyText(m))| == m + 1
    ensures Unforged(StreamAead(Toy(m), TOY_KEY, TOY_SALT), HkdfHeader(TOY_SALT), ZERO_BASE, ToyText(m),
                     Encrypted(Toy(m), TOY_KEY, TOY_SALT, ToyText(m)))
  {
    ToyLawful(m);
    ToyPlan(m);
    ToyStreamTame(m);
    assert StreamAead(Toy(m), TOY_KEY, TOY_SALT) == ToyAead(m);
    hide Encrypted, Plan, ToyText, StreamAead, Toy, Tame, Nonce, ChunkAad, HkdfHeader;
    var a, h := ToyAead(m), HkdfHeader(TOY_SALT);
    var s := Encrypted(Toy(m), TOY_KEY, TOY_SALT, ToyText(m));
    forall i: nat, flag: byte, ct: Bytes | Opens(a, h, ZERO_BASE, i, flag, ct) && Occurs(ct, s)
      ensures WasSealed(a, h, ZERO_BASE, Plan(ToyText(m)), i, flag, ct)
    {
      ToyOpened(m, Nonce(ZERO_BASE, i), ct, ChunkAad(h, flag), s);
    }
  }
}
