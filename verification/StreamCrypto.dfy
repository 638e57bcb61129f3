/** EncryptStream and DecryptStream as the loops they are, proved against StreamFormat. */
module StreamCrypto {
  import opened Bytes
  import opened Streams
  import opened StreamFormat

  /** readChunk: `eof` says the source is exhausted; n may still be positive then. */
  method ReadChunk(src: Source, buf: array<byte>) returns (n: nat, eof: bool, ok: bool)
    requires buf.Length > 0
    modifies src, buf
    ensures ok <==> (buf.Length <= old(|src.Rest()|) || src.end.AtEof?)
    ensures ok ==> n == Min(buf.Length, old(|src.Rest()|)) && (eof <==> n < buf.Length)
    ensures ok ==> old(src.Rest()) == buf[..n] + src.Rest() && (eof ==> src.Rest() == [])
  {
    var status;
    n, status := src.ReadFull(buf);
    match status
    case Filled => eof, ok := false, true;
    case EndOfFile => n, eof, ok := 0, true, true;
    case UnexpectedEof => eof, ok := true, true;
    case ReadFailed => n, eof, ok := 0, false, false;
  }

  /** writeSealedChunk: length, flag and ciphertext go out in three writes. */
  method WriteSealedChunk(dst: Sink, a: Aead, header: Bytes, counter: nat, text: Bytes, final: bool) returns (ok: bool)
    requires Lawful(a) && |text| <= CHUNK_SIZE
    modifies dst
    ensures var b := SealedChunk(a, header, ZERO_BASE, counter, text, final);
      && (ok <==> |b| <= old(dst.room))
      && dst.data == old(dst.data) + b[..Min(|b|, old(dst.room))]
      && dst.room == old(dst.room) - Min(|b|, old(dst.room))
  {
    hide Concat, BigEndian, Nonce;
    var flag := FlagByte(final);
    var ct := a.seal(Nonce(ZERO_BASE, counter), text, ChunkAad(header, flag));
    ghost var b := Framed(flag, ct);
    ghost var room, start := dst.room, dst.data;
    assert b[..4] == U32(|ct|) && b[4..] == [flag] + ct;
    ok := dst.Write(U32(|ct|));
    if !ok {
      assert b[..room] == U32(|ct|)[..room];
      return;
    }
    assert dst.data == start + b[..4];
    ok := dst.Write([flag]);
    if !ok {
      assert b[..room] == b[..4];
      return;
    }
    assert b[..5] == b[..4] + [flag];
    assert dst.data == start + b[..5];
    ok := dst.Write(ct);
    assert b[..Min(|b|, room)] == b[..5] + ct[..Min(|ct|, room - 5)];
  }

  lemma SealedNonempty(a: Aead, header: Bytes, base: NonceBase, i: nat, p: Bytes)
    ensures |SealedChunks(a, header, base, i, p)| >= 5
  {
  }

  /** Writing b where b + t is still to go: either b is out and t is left, or a strict prefix of it all is. */
  lemma Progress(data: Bytes, b: Bytes, t: Bytes, room: nat)
    ensures |b| <= room ==> data + b[..Min(|b|, room)] + t == data + (b + t)
    ensures room < |b| ==> data + b[..Min(|b|, room)] < data + (b + t)
    ensures t != [] ==> data + b[..Min(|b|, room)] < data + (b + t)
  {
    var k := Min(|b|, room);
    assert (data + (b + t))[..|data| + k] == data + b[..k];
  }

  lemma LastChunk(a: Aead, header: Bytes, i: nat, text: Bytes)
    requires |text| <= CHUNK_SIZE
    ensures SealedChunks(a, header, ZERO_BASE, i, text) == SealedChunk(a, header, ZERO_BASE, i, text, true)
  {
  }

  /** What is left to write when the current buffer holds `text` and the source still holds `rest`. */
  lemma TurnOver(a: Aead, header: Bytes, i: nat, text: Bytes, rest: Bytes)
    requires |text| == CHUNK_SIZE && rest != []
    ensures SealedChunks(a, header, ZERO_BASE, i, text + rest)
         == SealedChunk(a, header, ZERO_BASE, i, text, false) + SealedChunks(a, header, ZERO_BASE, i + 1, rest)
  {
    assert (text + rest)[..CHUNK_SIZE] == text && (text + rest)[CHUNK_SIZE..] == rest;
  }

  /**
   * EncryptStream. Success means the whole (1,3) stream went out. On failure (a bad key, a source that fails, a sink
   * that fills up) what went out is a strict prefix of a stream, which StrictPrefixRejected shows no reader accepts.
   */
  method EncryptStream(dst: Sink, src: Source, c: Suite, key: Bytes, salt: Bytes) returns (ok: bool)
    requires LawfulSuite(c) && |salt| == SALT_SIZE
    modifies dst, src
    ensures |key| != KEY_SIZE ==> !ok && dst.data == old(dst.data)
    ensures |key| == KEY_SIZE ==>
      var e := Encrypted(c, key, salt, old(src.Rest()));
      && (ok <==> src.end.AtEof? && |e| <= old(dst.room))
      && (ok ==> dst.data == old(dst.data) + e)
      && (!ok ==> old(dst.data) <= dst.data < old(dst.data) + e)
  {
    if |key| != KEY_SIZE {
      return false;
    }
    var a := StreamAead(c, key, salt);
    var header := HkdfHeader(salt);
    ghost var start, room, p := dst.data, dst.room, src.Rest();
    ghost var chunks := SealedChunks(a, header, ZERO_BASE, 0, p);
    SealedNonempty(a, header, ZERO_BASE, 0, p);
    Progress(start, header, chunks, room);
    ok := dst.Write(header);
    if !ok {
      return;
    }
    ok := WriteChunks(dst, src, a, header);
    assert dst.data == start + header + chunks ==> dst.data == start + (header + chunks);
  }

  /** The last chunk, from either exit of the loop. */
  method WriteLast(dst: Sink, a: Aead, header: Bytes, counter: nat, text: Bytes) returns (ok: bool)
    requires Lawful(a) && |text| <= CHUNK_SIZE
    modifies dst
    ensures var e := SealedChunks(a, header, ZERO_BASE, counter, text);
      && (ok <==> |e| <= old(dst.room))
      && (ok ==> dst.data == old(dst.data) + e)
      && (!ok ==> old(dst.data) <= dst.data < old(dst.data) + e)
  {
    hide SealedChunk;
    ghost var last := SealedChunk(a, header, ZERO_BASE, counter, text, true);
    LastChunk(a, header, counter, text);
    hide SealedChunks;
    Progress(dst.data, last, [], dst.room);
    assert last + [] == last;
    ok := WriteSealedChunk(dst, a, header, counter, text, true);
  }

  /** The chunk loop of EncryptStream: two buffers that swap roles, one chunk of lookahead. */
  method WriteChunks(dst: Sink, src: Source, a: Aead, header: Bytes) returns (ok: bool)
    requires Lawful(a)
    modifies dst, src
    ensures var e := SealedChunks(a, header, ZERO_BASE, 0, old(src.Rest()));
      && (ok <==> src.end.AtEof? && |e| <= old(dst.room))
      && (ok ==> dst.data == old(dst.data) + e)
      && (!ok ==> old(dst.data) <= dst.data < old(dst.data) + e)
  {
    hide Concat, SealedChunks;
    hide SealedChunk;
    ghost var start, room := dst.data, dst.room;
    ghost var left := SealedChunks(a, header, ZERO_BASE, 0, src.Rest());
    ghost var goal, slack := dst.data + left, room - |left|;
    var b0, b1 := new byte[CHUNK_SIZE](i => 0), new byte[CHUNK_SIZE](i => 0);
    var bufs := [b0, b1];
    var cur, counter := 0, 0;
    var n, eof;
    SealedNonempty(a, header, ZERO_BASE, 0, src.Rest());
    Progress(dst.data, [], left, 0);
    n, eof, ok := ReadChunk(src, bufs[cur]);
    if !ok {
      return;
    }
    while true
      invariant 0 <= cur <= 1 && 0 <= n <= CHUNK_SIZE
      invariant (eof <==> n < CHUNK_SIZE) && (eof ==> src.Rest() == [] && src.end.AtEof?)
      invariant left == SealedChunks(a, header, ZERO_BASE, counter, bufs[cur][..n] + src.Rest())
      invariant start <= dst.data && goal == dst.data + left && dst.room - |left| == slack
      decreases !eof, |src.Rest()|
    {
      ghost var text, rest := bufs[cur][..n], src.Rest();
      if eof {
        assert text + rest == text;
        ok := WriteLast(dst, a, header, counter, bufs[cur][..n]);
        return;
      }
      var nxt := 1 - cur;
      var n2, eof2;
      n2, eof2, ok := ReadChunk(src, bufs[nxt]);
      assert bufs[cur][..n] == text;
      if !ok {
        SealedNonempty(a, header, ZERO_BASE, counter, text + rest);
        return;
      }
      if eof2 && n2 == 0 {
        assert text + rest == text;
        ok := WriteLast(dst, a, header, counter, bufs[cur][..n]);
        return;
      }
      assert rest == bufs[nxt][..n2] + src.Rest();
      TurnOver(a, header, counter, text, rest);
      left := SealedChunks(a, header, ZERO_BASE, counter + 1, rest);
      SealedNonempty(a, header, ZERO_BASE, counter + 1, rest);
      Progress(dst.data, SealedChunk(a, header, ZERO_BASE, counter, text, false), left, dst.room);
      ok := WriteSealedChunk(dst, a, header, counter, bufs[cur][..n], false);
      if !ok {
        return;
      }
      cur, n, eof, counter := nxt, n2, eof2, counter + 1;
    }
  }

  /** What a sink with `room` bytes left keeps of what is written to it. */
  function Kept(out: Bytes, room: nat): Bytes { out[..Min(|out|, room)] }

  /** The verdict the caller gets when the destination has `room` bytes left. */
  function Told(r: Reading, room: nat): Verdict {
    if |r.out| <= room then r.verdict else Rejected(WriteFailed)
  }

  lemma KeptAfter(r: Reading, text: Bytes, room: nat)
    ensures |text| <= room ==>
      Kept(r.After(text).out, room) == text + Kept(r.out, room - |text|)
          && Told(r.After(text), room) == Told(r, room - |text|)
    ensures room < |text| ==>
      Kept(r.After(text).out, room) == text[..room] && Told(r.After(text), room) == Rejected(WriteFailed)
  {
    if room < |text| {
      assert (text + r.out)[..room] == text[..room];
    }
  }

  lemma ChunkParts(s: Bytes, n: nat)
    requires 5 + n <= |s|
    ensures s[4..][..1] == [s[4]] && s[4..][1..] == s[5..] && s[5..][..n] == s[5..5 + n] && s[5..][n..] == s[5 + n..]
  {
  }

  lemma LegacyParts(s: Bytes, n: nat)
    requires 4 + n <= |s|
    ensures s[4..][..n] == s[4..4 + n] && s[4..][n..] == s[4 + n..]
  {
  }

  /** readSealedChunks: the loop that (1,2) and (1,3) share. */
  method ReadSealedChunks(dst: Sink, src: Source, a: Aead, header: Bytes, base: NonceBase) returns (verdict: Verdict)
    modifies dst, src
    ensures var r := ReadSealed(a, header, base, 0, old(src.Rest()));
      dst.data == old(dst.data) + Kept(r.out, old(dst.room)) && verdict == Told(r, old(dst.room))
  {
    hide Concat, ReadSealed;
    ghost var r := ReadSealed(a, header, base, 0, src.Rest());
    ghost var goal, told := dst.data + Kept(r.out, dst.room), Told(r, dst.room);
    var counter := 0;
    while true
      invariant r == ReadSealed(a, header, base, counter, src.Rest())
      invariant goal == dst.data + Kept(r.out, dst.room) && told == Told(r, dst.room)
      decreases |src.Rest()|
    {
      var next := NextChunk(src, a, header, base, counter);
      if next.Stop? { return Rejected(next.why); }
      r := if next.flag == 1 then Reading([], Accepted) else ReadSealed(a, header, base, counter + 1, src.Rest());
      KeptAfter(r, next.text, dst.room);
      var ok := dst.Write(next.text);
      if !ok { return Rejected(WriteFailed); }
      if next.flag == 1 { return Accepted; }
      counter := counter + 1;
    }
  }

  datatype Next = Stop(why: Reason) | Go(text: Bytes, flag: byte)

  /** The reads and the authentication of one turn of the loop. */
  method NextChunk(src: Source, a: Aead, header: Bytes, base: NonceBase, counter: nat) returns (next: Next)
    modifies src
    ensures var r := ReadSealed(a, header, base, counter, old(src.Rest()));
      match next
      case Stop(why) => r == Reading([], Rejected(why))
      case Go(text, flag) =>
        && |src.Rest()| < old(|src.Rest()|)
        && r == (if flag == 1 then Reading([], Accepted)
                 else ReadSealed(a, header, base, counter + 1, src.Rest())).After(text)
  {
    hide Concat, Nonce, FromBigEndian;
    ghost var s := src.Rest();
    var len, flag, ct, ok;
    len, ok := src.Take(4);
    if !ok { return Stop(Truncated); }
    var n := FromBigEndian(len);
    if n == 0 || n > MAX_CHUNK_CIPHERTEXT { return Stop(BadLength); }
    flag, ok := src.Take(1);
    if !ok { return Stop(ShortFlag); }
    ct, ok := src.Take(n);
    if !ok { return Stop(ShortChunk); }
    ChunkParts(s, n);
    match a.open(Nonce(base, counter), ct, ChunkAad(header, flag[0]))
    case None => next := Stop(NotAuthentic);
    case Some(text) =>
      assert text + [] == text;
      next := Go(text, flag[0]);
  }

  /** decryptStreamLegacy: the (1,1) loop. */
  method ReadLegacyChunks(dst: Sink, src: Source, a: Aead, base: NonceBase) returns (verdict: Verdict)
    modifies dst, src
    ensures var r := ReadLegacy(a, base, 0, old(src.Rest()));
      dst.data == old(dst.data) + Kept(r.out, old(dst.room)) && verdict == Told(r, old(dst.room))
  {
    hide Concat, ReadLegacy;
    ghost var r := ReadLegacy(a, base, 0, src.Rest());
    ghost var goal, told := dst.data + Kept(r.out, dst.room), Told(r, dst.room);
    var counter := 0;
    while true
      invariant r == ReadLegacy(a, base, counter, src.Rest())
      invariant goal == dst.data + Kept(r.out, dst.room) && told == Told(r, dst.room)
      decreases |src.Rest()|
    {
      var next := NextLegacyChunk(src, a, base, counter);
      if next.Stopped? { return next.verdict; }
      r := ReadLegacy(a, base, counter + 1, src.Rest());
      KeptAfter(r, next.text, dst.room);
      var ok := dst.Write(next.text);
      if !ok { return Rejected(WriteFailed); }
      counter := counter + 1;
    }
  }

  datatype NextLegacy = Stopped(verdict: Verdict) | Text(text: Bytes)

  method NextLegacyChunk(src: Source, a: Aead, base: NonceBase, counter: nat) returns (next: NextLegacy)
    modifies src
    ensures var r := ReadLegacy(a, base, counter, old(src.Rest()));
      match next
      case Stopped(v) => r == Reading([], v)
      case Text(text) =>
        && |src.Rest()| < old(|src.Rest()|)
        && r == ReadLegacy(a, base, counter + 1, src.Rest()).After(text)
  {
    hide Concat, Nonce, FromBigEndian;
    ghost var s := src.Rest();
    var len, ct, ok;
    len, ok := src.Take(4);
    if !ok { return Stopped(Rejected(Truncated)); }
    var n := FromBigEndian(len);
    if n == 0 { return Stopped(Accepted); }
    if n > MAX_CHUNK_CIPHERTEXT { return Stopped(Rejected(BadLength)); }
    ct, ok := src.Take(n);
    if !ok { return Stopped(Rejected(ShortChunk)); }
    LegacyParts(s, n);
    match a.open(Nonce(base, counter), ct, [])
    case None => next := Stopped(Rejected(NotAuthentic));
    case Some(text) => next := Text(text);
  }

  /** DecryptStream: the destination gets what the format says the source holds, as far as it has room. */
  method DecryptStream(dst: Sink, src: Source, c: Suite, key: Bytes) returns (verdict: Verdict)
    modifies dst, src
    ensures var r := Decrypted(c, key, old(src.Rest()));
      if |r.out| <= old(dst.room) then dst.data == old(dst.data) + r.out && verdict == r.verdict
      else dst.data == old(dst.data) + r.out[..old(dst.room)] && verdict == Rejected(WriteFailed)
  {
    if |key| != KEY_SIZE { return Rejected(BadKey); }
    ghost var s := src.Rest();
    var prefix, ok := src.Take(PREFIX_SIZE);
    if !ok { return Rejected(ShortHeader); }
    assert s[..6][..5] == s[..5];
    if prefix[..5] != MAGIC { return Rejected(UnknownFormat); }
    if prefix[5] == HKDF {
      var salt;
      salt, ok := src.Take(SALT_SIZE);
      if !ok { return Rejected(ShortHeader); }
      assert s[6..][..16] == s[6..22] && s[6..][16..] == s[22..] && s[..6] + s[6..22] == s[..22];
      verdict := ReadSealedChunks(dst, src, StreamAead(c, key, salt), prefix + salt, ZERO_BASE);
    } else if prefix[5] == AEAD || prefix[5] == LEGACY {
      var base;
      base, ok := src.Take(12);
      if !ok { return Rejected(ShortHeader); }
      assert s[6..][..12] == s[6..18] && s[6..][12..] == s[18..] && s[..6] + s[6..18] == s[..18];
      if prefix[5] == AEAD {
        verdict := ReadSealedChunks(dst, src, c.newAead(key), prefix + base, base);
      } else {
        verdict := ReadLegacyChunks(dst, src, c.newAead(key), base);
      }
    } else {
      verdict := Rejected(UnknownFormat);
    }
  }
}
