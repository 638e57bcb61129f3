/**
 * The bytes a hop signature covers, and its verification. Ed25519 and base64 are parameters: `verify` for the one, an
 * Option for the outcome of the other.
 */
module HopSigning {
  import opened Bytes

  /** "share2us/agent-hop/v2" */
  const DOMAIN: Bytes :=
    [115, 104, 97, 114, 101, 50, 117, 115, 47, 97, 103, 101, 110, 116, 45, 104, 111, 112, 47, 118, 50]

  const SECOND: int := 1_000_000_000

  /** issuedAt is in nanoseconds since 1970. */
  datatype HopClaims = HopClaims(
    senderDevice: Bytes, targetDevice: Bytes, targetSession: Bytes, tool: Bytes,
    sealedPrompt: Bytes, sealedFileKey: Bytes, goal: Bytes,
    issuedAt: int, nonce: Bytes,
    project: Bytes, senderAgent: Bytes, targetAgent: Bytes)

  /** time.Time.Unix rounds down, before 1970 too. */
  function Unix(ns: int): int { ns / SECOND }

  // ---- the signed decimal timestamp ----

  function Digits(n: nat): (s: Bytes)
    ensures s != [] && forall d :: d in s ==> 48 <= d <= 57
  {
    if n < 10 then [48 + n] else Digits(n / 10) + [48 + n % 10]
  }

  function Decimal(n: int): Bytes { if n < 0 then [45] + Digits(-n) else Digits(n) }

  function FromDigits(s: Bytes): int {
    if s == [] then 0 else 10 * FromDigits(s[..|s| - 1]) + (s[|s| - 1] as int - 48)
  }

  function FromDecimal(s: Bytes): int {
    if s != [] && s[0] == 45 then -FromDigits(s[1..]) else FromDigits(s)
  }

  lemma {:induction false} DigitsRoundTrip(n: nat)
    ensures FromDigits(Digits(n)) == n
  {
    var s := Digits(n);
    if n < 10 {
      assert s[..0] == [];
    } else {
      assert s[..|s| - 1] == Digits(n / 10);
      DigitsRoundTrip(n / 10);
    }
  }

  lemma DecimalRoundTrip(n: int)
    ensures FromDecimal(Decimal(n)) == n
  {
    if n < 0 {
      DigitsRoundTrip(-n);
      assert Decimal(n)[1..] == Digits(-n);
    } else {
      DigitsRoundTrip(n);
      assert Decimal(n)[0] in Digits(n);
    }
  }

  // ---- length-prefixed fields ----

  function EncodeField(f: Bytes): Bytes { U32(|f|) + f }

  function EncodeFields(fs: seq<Bytes>): Bytes {
    if fs == [] then [] else EncodeField(fs[0]) + EncodeFields(fs[1..])
  }

  /** Reads the fields back; None if the bytes are no sequence of fields. */
  function DecodeFields(s: Bytes): Option<seq<Bytes>>
    decreases |s|
  {
    if s == [] then Some([])
    else if |s| < 4 then None
    else
      var n := FromBigEndian(s[..4]);
      if |s| < 4 + n then None
      else match DecodeFields(s[4 + n..])
        case None => None
        case Some(rest) => Some([s[4..4 + n]] + rest)
  }

  predicate Short(f: Bytes) { |f| < 0x1_0000_0000 }

  lemma {:induction false} FieldsRoundTrip(fs: seq<Bytes>)
    requires forall f :: f in fs ==> Short(f)
    ensures DecodeFields(EncodeFields(fs)) == Some(fs)
  {
    if fs != [] {
      var f, rest := fs[0], EncodeFields(fs[1..]);
      var s := EncodeFields(fs);
      assert Short(f);
      FieldsRoundTrip(fs[1..]);
      U32RoundTrip(|f|);
      assert s == U32(|f|) + f + rest;
      assert s[..4] == U32(|f|) && s[4..4 + |f|] == f && s[4 + |f|..] == rest;
      hide U32, EncodeFields;
      assert fs == [f] + fs[1..];
    }
  }

  lemma {:induction false} EncodeFieldsAppend(a: seq<Bytes>, b: seq<Bytes>)
    ensures EncodeFields(a + b) == EncodeFields(a) + EncodeFields(b)
  {
    if a == [] {
      assert a + b == b;
    } else {
      assert (a + b)[1..] == a[1..] + b && (a + b)[0] == a[0];
      EncodeFieldsAppend(a[1..], b);
      hide EncodeField;
    }
  }

  lemma EncodeOne(f: Bytes)
    ensures EncodeFields([f]) == EncodeField(f)
  {
    assert [f][1..] == [];
  }

  // ---- the signed bytes ----

  function Fields(c: HopClaims): (fs: seq<Bytes>)
    ensures |fs| == 12
  {
    [c.senderDevice, c.targetDevice, c.targetSession, c.tool, c.sealedPrompt, c.sealedFileKey, c.goal,
     Decimal(Unix(c.issuedAt)), c.nonce, c.project, c.senderAgent, c.targetAgent]
  }

  function SigningBytes(c: HopClaims): Bytes { EncodeFields([DOMAIN] + Fields(c)) }

  method AppendField(buf: Bytes, field: Bytes) returns (out: Bytes)
    ensures out == buf + EncodeField(field)
  {
    var n := U32(|field|);
    out := buf + n;
    out := out + field;
    assert buf + n + field == buf + (n + field);
  }

  method ComputeSigningBytes(c: HopClaims) returns (out: Bytes)
    ensures out == SigningBytes(c)
  {
    var fields := Fields(c);
    out := AppendField([], DOMAIN);
    EncodeOne(DOMAIN);
    ghost var all := [DOMAIN] + fields;
    for i := 0 to |fields|
      invariant out == EncodeFields(all[..i + 1])
    {
      hide EncodeField, EncodeFields;
      out := AppendField(out, fields[i]);
      EncodeOne(all[i + 1]);
      EncodeFieldsAppend(all[..i + 1], [all[i + 1]]);
      assert all[..i + 2] == all[..i + 1] + [all[i + 1]];
    }
    assert all[..|fields| + 1] == all;
  }

  /** What can be read back: everything, with the time in whole seconds. */
  function Decode(s: Bytes): Option<HopClaims> {
    match DecodeFields(s)
    case None => None
    case Some(fs) =>
      if |fs| != 13 || fs[0] != DOMAIN then None
      else Some(HopClaims(fs[1], fs[2], fs[3], fs[4], fs[5], fs[6], fs[7], SECOND * FromDecimal(fs[8]), fs[9],
                          fs[10], fs[11], fs[12]))
  }

  function Strings(c: HopClaims): seq<Bytes> {
    [c.senderDevice, c.targetDevice, c.targetSession, c.tool, c.sealedPrompt, c.sealedFileKey, c.goal, c.nonce,
     c.project, c.senderAgent, c.targetAgent]
  }

  /** The eleven strings are shorter than 4 GiB, and the time is one Unix() can give: an int64. */
  predicate Ordinary(c: HopClaims) {
    && (forall f :: f in Strings(c) ==> Short(f))
    && -0x8000_0000_0000_0000 <= Unix(c.issuedAt) < 0x8000_0000_0000_0000
  }

  function Pow10(k: nat): (p: nat)
    ensures p > 0
  {
    if k == 0 then 1 else 10 * Pow10(k - 1)
  }

  lemma {:induction false} DigitsCount(n: nat, k: nat)
    requires k > 0 && n < Pow10(k)
    ensures |Digits(n)| <= k
  {
    if n >= 10 {
      assert n / 10 < Pow10(k - 1);
      DigitsCount(n / 10, k - 1);
    }
  }

  lemma TimestampShort(n: int)
    requires -0x8000_0000_0000_0000 <= n < 0x8000_0000_0000_0000
    ensures Short(Decimal(n))
  {
    assert Pow10(10) == 10_000_000_000 by { assert Pow10(5) == 100_000; }
    assert Pow10(15) == 100_000 * Pow10(10);
    assert Pow10(20) == 100_000 * Pow10(15);
    DigitsCount(if n < 0 then -n else n, 20);
  }

  lemma FieldsShort(c: HopClaims)
    requires Ordinary(c)
    ensures forall f :: f in [DOMAIN] + Fields(c) ==> Short(f)
  {
    TimestampShort(Unix(c.issuedAt));
    hide Decimal, Unix;
    forall f | f in [DOMAIN] + Fields(c) ensures Short(f) {
      assert f == DOMAIN || f == Decimal(Unix(c.issuedAt)) || f in Strings(c);
    }
  }

  function WholeSeconds(c: HopClaims): HopClaims { c.(issuedAt := SECOND * Unix(c.issuedAt)) }

  /** A decoder recovers the domain and all twelve fields. */
  lemma SigningRoundTrip(c: HopClaims)
    requires Ordinary(c)
    ensures Decode(SigningBytes(c)) == Some(WholeSeconds(c))
  {
    FieldsShort(c);
    FieldsRoundTrip([DOMAIN] + Fields(c));
    DecimalRoundTrip(Unix(c.issuedAt));
    hide Decimal, FromDecimal, EncodeFields, DecodeFields, Unix;
  }

  /** Same bytes, same claims up to the whole second; and the other way round. */
  lemma SigningExactly(c: HopClaims, d: HopClaims)
    requires Ordinary(c) && Ordinary(d)
    ensures SigningBytes(c) == SigningBytes(d) <==> WholeSeconds(c) == WholeSeconds(d)
  {
    SigningRoundTrip(c);
    SigningRoundTrip(d);
    if WholeSeconds(c) == WholeSeconds(d) {
      assert Unix(c.issuedAt) == Unix(d.issuedAt);
      assert Fields(c) == Fields(d) by { hide Unix; }
    }
    hide SigningBytes, Decode;
  }

  // ---- the bound on the fields is exact ----

  /** A length that does not fit in 32 bits is cut to its low 32. */
  lemma LengthsWrap()
    ensures U32(0x1_0000_0000) == U32(0)
  {
    assert BigEndian(0x1_0000_0000, 4) == BigEndian(0x100_0000, 3) + [0];
    assert BigEndian(0x100_0000, 3) == BigEndian(0x1_0000, 2) + [0];
    assert BigEndian(0x1_0000, 2) == BigEndian(0x100, 1) + [0];
    assert BigEndian(0x100, 1) == BigEndian(1, 0) + [0];
    assert BigEndian(0, 4) == BigEndian(0, 3) + [0];
    assert BigEndian(0, 3) == BigEndian(0, 2) + [0];
    assert BigEndian(0, 2) == BigEndian(0, 1) + [0];
    assert BigEndian(0, 1) == BigEndian(0, 0) + [0];
  }

  lemma SplitFields(first: Bytes, rest: seq<Bytes>)
    ensures EncodeFields([DOMAIN] + ([first] + rest)) == EncodeField(DOMAIN) + (EncodeField(first) + EncodeFields(rest))
  {
    EncodeFieldsAppend([DOMAIN], [first] + rest);
    EncodeFieldsAppend([first], rest);
    EncodeOne(DOMAIN);
    EncodeOne(first);
  }

  /** The encoded size of fields of which at most one, at j, is not empty. */
  lemma {:induction false} SizeOfMostlyEmpty(fs: seq<Bytes>, j: nat)
    requires j < |fs| && forall i :: 0 <= i < |fs| && i != j ==> fs[i] == []
    ensures |EncodeFields(fs)| == 4 * |fs| + |fs[j]|
  {
    if j == 0 {
      SizeOfEmpty(fs[1..]);
    } else {
      SizeOfMostlyEmpty(fs[1..], j - 1);
    }
  }

  lemma {:induction false} SizeOfEmpty(fs: seq<Bytes>)
    requires forall i :: 0 <= i < |fs| ==> fs[i] == []
    ensures |EncodeFields(fs)| == 4 * |fs|
  {
    if fs != [] { SizeOfEmpty(fs[1..]); }
  }

  /** The bytes of a field of 4 GiB and of what follows it, read as an empty field and two stretches of others. */
  lemma Glued(h: Bytes, pad: Bytes, r: Bytes)
    requires |h| + 4 + |pad| == 0x1_0000_0000
    ensures EncodeField(h + U32(|pad + r|) + pad) + r == EncodeField([]) + (h + EncodeField(pad + r))
  {
    LengthsWrap();
    var n := U32(|pad + r|);
    assert |n| == 4;
    hide U32;
    assert |h + n + pad| == 0x1_0000_0000;
    assert (U32(0) + (h + n + pad)) + r == (U32(0) + []) + (h + (n + (pad + r)));
  }

  /** The fields after the first, of the one claims and but for the last of the other. */
  function Plain(): seq<Bytes> { [[], [], [], [], [], [], Decimal(0), [], [], [], []] }
  function Head(): seq<Bytes> { [[0], [], [], [], [], [], Decimal(0), [], [], []] }

  lemma PlainSize()
    ensures |EncodeFields(Plain())| == 45
  {
    SizeOfMostlyEmpty(Plain(), 6);
    hide EncodeFields;
  }

  lemma HeadSize()
    ensures |EncodeFields(Head())| == 42
  {
    var tail := [[], [], [], [], [], Decimal(0), [], [], []];
    assert |EncodeFields(tail)| == 37 by { SizeOfMostlyEmpty(tail, 5); hide EncodeFields; }
    assert Head() == [[0]] + tail;
    EncodeFieldsAppend([[0]], tail);
    EncodeOne([0]);
    hide EncodeFields;
  }

  function Padding(): Bytes
  {
    Zeros(0x1_0000_0000 - 46)
  }

  function LastField(): (s: Bytes) { Padding() + EncodeFields(Plain()) }

  function LongField(): Bytes { EncodeFields(Head()) + U32(|LastField()|) + Padding() }

  function LongClaims(): HopClaims { HopClaims(LongField(), [], [], [], [], [], [], 0, [], [], [], []) }

  function OtherClaims(): HopClaims { HopClaims([], [0], [], [], [], [], [], 0, [], [], [], LastField()) }

  lemma SameBytes()
    ensures SigningBytes(LongClaims()) == SigningBytes(OtherClaims())
  {
    HeadSize();
    hide EncodeFields, U32, Zeros, EncodeField, Decimal;
    assert Fields(LongClaims()) == [LongField()] + Plain();
    assert Fields(OtherClaims()) == [[]] + (Head() + [LastField()]);
    Glued(EncodeFields(Head()), Padding(), EncodeFields(Plain()));
    SplitFields(LongField(), Plain());
    SplitFields([], Head() + [LastField()]);
    EncodeFieldsAppend(Head(), [LastField()]);
    EncodeOne(LastField());
    hide Fields, Plain, Head, Padding;
  }

  lemma LongSizes()
    ensures |LongField()| == 0x1_0000_0000 && |LastField()| == 0xFFFF_FFFF
  {
    HeadSize();
    PlainSize();
    hide EncodeFields, Plain, Head, BigEndian;
  }

  lemma OnlyOneLong()
    ensures Ordinary(LongClaims().(senderDevice := [])) && Ordinary(OtherClaims())
  {
    LongSizes();
    hide LastField, LongField;
  }

  lemma DifferentClaims()
    ensures WholeSeconds(LongClaims()) != WholeSeconds(OtherClaims())
  {
    LongSizes();
    hide LastField, LongField;
  }

  /**
   * One field of 4 GiB is enough for two different claims to have the same bytes: its length reads as zero, and its
   * content can pass for the fields that follow.
   */
  lemma LongFieldsCollide()
    ensures exists c, d :: WholeSeconds(c) != WholeSeconds(d) && SigningBytes(c) == SigningBytes(d)
                           && UpTo(c, 0x1_0000_0000) && UpTo(d, 0x1_0000_0000)
  {
    SameBytes();
    LongSizes();
    OnlyOneLong();
    DifferentClaims();
    var c, d := LongClaims(), OtherClaims();
    assert UpTo(c, 0x1_0000_0000) && UpTo(d, 0x1_0000_0000) by { hide LongField, LastField; }
    hide *;
  }

  /** The strings are of at most bound bytes, and the time is one Unix() can give. */
  predicate UpTo(c: HopClaims, bound: nat) {
    && (forall f :: f in Strings(c) ==> |f| <= bound)
    && -0x8000_0000_0000_0000 <= Unix(c.issuedAt) < 0x8000_0000_0000_0000
  }

  ghost predicate InjectiveUpTo(bound: nat) {
    forall c, d :: UpTo(c, bound) && UpTo(d, bound) && SigningBytes(c) == SigningBytes(d) ==>
        WholeSeconds(c) == WholeSeconds(d)
  }

  /** The bytes tell claims with fields of up to a bound apart exactly when the bound fits in 32 bits. */
  lemma InjectiveExactly(bound: nat)
    ensures InjectiveUpTo(bound) <==> bound < 0x1_0000_0000
  {
    hide SigningBytes, WholeSeconds, Unix, Strings;
    if bound < 0x1_0000_0000 {
      forall c, d | UpTo(c, bound) && UpTo(d, bound) && SigningBytes(c) == SigningBytes(d)
        ensures WholeSeconds(c) == WholeSeconds(d)
      {
        assert Ordinary(c) && Ordinary(d);
        SigningExactly(c, d);
      }
    } else {
      LongFieldsCollide();
      var c, d :| WholeSeconds(c) != WholeSeconds(d) && SigningBytes(c) == SigningBytes(d)
                  && UpTo(c, 0x1_0000_0000) && UpTo(d, 0x1_0000_0000);
      assert UpTo(c, bound) && UpTo(d, bound);
    }
  }

  // ---- verification ----

  datatype Verdict = Authentic | NotAuthentic | NotFresh

  type Verify = (Bytes, Bytes, Bytes) -> bool // public key, message, signature

  const KEY_BYTES: nat := 32
  const SIGNATURE_BYTES: nat := 64

  /** key and signature are what their base64 decodes to, if it does. */
  function VerifyHop(verify: Verify, c: HopClaims, signature: Option<Bytes>, key: Option<Bytes>): Verdict {
    if key.None? || |key.value| != KEY_BYTES then NotAuthentic
    else if signature.None? || |signature.value| != SIGNATURE_BYTES then NotAuthentic
    else if !verify(key.value, SigningBytes(c), signature.value) then NotAuthentic
    else Authentic
  }

  const MAX_INT64: int := 0x7FFF_FFFF_FFFF_FFFF
  const MIN_INT64: int := -0x8000_0000_0000_0000

  /** time.Time.Sub saturates. */
  function Sub(a: int, b: int): int {
    if a - b > MAX_INT64 then MAX_INT64 else if a - b < MIN_INT64 then MIN_INT64 else a - b
  }

  /** Negating the least int64 gives it back. */
  function Negated(n: int): int { if n == MIN_INT64 then MIN_INT64 else -n }

  function VerifyHopFresh(verify: Verify, c: HopClaims, signature: Option<Bytes>, key: Option<Bytes>,
                          now: int, window: int): Verdict {
    var v := VerifyHop(verify, c, signature, key);
    if v != Authentic then v
    else
      var age := Sub(now, c.issuedAt);
      if age > window || age < Negated(window) then NotFresh else Authentic
  }

  /** Every message that verifies under the key was signed as the bytes of one of these claims. */
  ghost predicate SignedOnly(verify: Verify, key: Bytes, signed: set<HopClaims>) {
    forall m, sig :: verify(key, m, sig) ==> exists d :: d in signed && m == SigningBytes(d)
  }

  /** Nothing in an accepted hop was changed in transit: its sender signed these very claims, to the second. */
  lemma AcceptedWasSigned(verify: Verify, c: HopClaims, signature: Option<Bytes>, key: Option<Bytes>,
                          now: int, window: int, signed: set<HopClaims>)
    requires key.Some? && SignedOnly(verify, key.value, signed)
    requires Ordinary(c) && forall d :: d in signed ==> Ordinary(d)
    requires VerifyHopFresh(verify, c, signature, key, now, window) != NotAuthentic
    ensures exists d :: d in signed && WholeSeconds(d) == WholeSeconds(c)
  {
    assert verify(key.value, SigningBytes(c), signature.value);
    var d :| d in signed && SigningBytes(c) == SigningBytes(d);
    SigningExactly(c, d);
  }

  /**
   * The signature decides first. A hop without a valid one is refused as such at every time, for every window, and
   * whatever the fraction of a second in its time is; nothing about freshness shows.
   */
  lemma ForgeriesLearnNothing(verify: Verify, c: HopClaims, d: HopClaims, signature: Option<Bytes>, key: Option<Bytes>,
                              now: int, window: int, now': int, window': int)
    requires WholeSeconds(c) == WholeSeconds(d)
    ensures VerifyHopFresh(verify, c, signature, key, now, window) == NotAuthentic
       <==> VerifyHopFresh(verify, d, signature, key, now', window') == NotAuthentic
  {
    assert Unix(c.issuedAt) == Unix(d.issuedAt);
    assert Fields(c) == Fields(d) by { hide Unix; }
    assert SigningBytes(c) == SigningBytes(d);
    hide SigningBytes;
  }

  /** The base64 of key and signature decodes to 32 and 64 bytes, and the signature is one of these very claims. */
  predicate Genuine(verify: Verify, c: HopClaims, signature: Option<Bytes>, key: Option<Bytes>) {
    && key.Some? && |key.value| == 32 && signature.Some? && |signature.value| == 64
    && verify(key.value, SigningBytes(c), signature.value)
  }

  /** A hop is refused as not authentic exactly when it is not genuine, and nothing else decides that. */
  lemma AuthenticExactly(verify: Verify, c: HopClaims, signature: Option<Bytes>, key: Option<Bytes>,
                         now: int, window: int)
    ensures VerifyHop(verify, c, signature, key)
         == if Genuine(verify, c, signature, key) then Authentic else NotAuthentic
    ensures VerifyHopFresh(verify, c, signature, key, now, window) == NotAuthentic
       <==> !Genuine(verify, c, signature, key)
  {
    hide SigningBytes;
  }

  /** A genuine hop is fresh within the window on either side; the largest window and the least are a case each. */
  lemma FreshExactly(verify: Verify, c: HopClaims, signature: Option<Bytes>, key: Option<Bytes>, now: int, window: int)
    requires -9_223_372_036_854_775_808 <= window <= 9_223_372_036_854_775_807
    ensures VerifyHopFresh(verify, c, signature, key, now, window) == Authentic <==>
      Genuine(verify, c, signature, key) &&
      (if window == -9_223_372_036_854_775_808 then now - c.issuedAt <= -9_223_372_036_854_775_808
       else if window == 9_223_372_036_854_775_807 then now - c.issuedAt >= -9_223_372_036_854_775_807
       else -window <= now - c.issuedAt <= window)
  {
    hide SigningBytes;
  }
}
