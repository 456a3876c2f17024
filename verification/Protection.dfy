/** Record protection: src/TLS/BlockCipher.ts, src/TLS/AEADCipher.ts and the delegates of
    src/TLS/CipherSuite.ts, over unknown but lawful primitives. */
module Protection {
  import opened Bytes
  import opened BitConverter
  import opened Crypto
  import opened Packets

  // ---- Buffer.slice ----

  function Clamp(i: int, n: nat): nat {
    if i < 0 then if n + i < 0 then 0 else n + i
    else if i < n then i else n
  }

  /** `b.slice(from, to)`: negative positions count from the end, all are clamped. */
  function Slice(b: bytes, from: int, to: int): bytes {
    var lo, hi := Clamp(from, |b|), Clamp(to, |b|);
    if lo < hi then b[lo..hi] else []
  }

  // ---- block ciphers (sections 6.2.3.1 and 6.2.3.2 of RFC 5246) ----

  function Mac(c: Library, alg: Option<HashAlgorithm>, data: bytes, km: KeyMaterial, source: End): bytes {
    match alg
    case None => []
    case Some(h) => c.hmac(h, km.MacKey(source), data)
  }

  function MacSize(alg: Option<HashAlgorithm>): nat {
    if alg.Some? then HashLength(alg.value) else 0
  }

  function PadLength(n: nat, blockSize: nat): nat
    requires blockSize > 0
  {
    var overflow := (n + 1) % blockSize;
    if overflow > 0 then blockSize - overflow else 0
  }

  function Repeat(b: byte, n: nat): bytes {
    seq(n, _ => b)
  }

  /** One byte for the length and as many again, all of that value. */
  function Pad(n: byte): bytes {
    var count: int := n;
    Repeat(n, count + 1)
  }

  function Padding(n: nat, blockSize: nat): bytes
    requires blockSize > 0
  {
    Repeat(PadLength(n, blockSize) % 256, PadLength(n, blockSize) + 1)
  }

  function BlockEncrypt(c: Library, p: BlockParams, alg: Option<HashAlgorithm>, km: KeyMaterial, end: End,
                        packet: Packet, iv: bytes): Packet
    requires p.blockSize > 0
  {
    var mac := Mac(c, alg, MacHeader(packet, |packet.fragment|) + packet.fragment, km, end);
    var plaintext := packet.fragment + mac;
    packet.(fragment := iv + c.encipher(p, km.Key(end), iv, plaintext + Padding(|plaintext|, p.blockSize)))
  }

  /** The padding check: what is left after stripping, or `None` for an invalid padding. */
  function Stripped(d: bytes): Option<bytes> {
    if |d| == 0 then None
    else
      var n := d[|d| - 1];
      if |d| > n && forall k :: |d| - 1 - n <= k < |d| ==> d[k] == n then Some(d[..|d| - 1 - n]) else None
  }

  method StripPadding(d: bytes) returns (r: Option<bytes>)
    ensures r == Stripped(d)
  {
    var len := |d|;
    if len == 0 {
      return None;
    }
    var paddingLength: int := d[len - 1];
    if len < paddingLength {
      return None;
    }
    for i := 1 to paddingLength + 1
      invariant i <= len
      invariant forall k :: len - i <= k < len ==> d[k] == paddingLength
    {
      if len - 1 - i < 0 || d[len - 1 - i] != paddingLength {
        return None;
      }
    }
    r := Some(Slice(d, 0, -1 - paddingLength));
  }

  function BlockDecrypt(c: Library, p: BlockParams, alg: Option<HashAlgorithm>, km: KeyMaterial, end: End,
                        packet: Packet): Option<Packet>
  {
    var iv := Slice(packet.fragment, 0, p.recordIvLength);
    var ciphered := Slice(packet.fragment, p.blockSize, |packet.fragment|);
    var deciphered := c.decipher(p, km.Key(Peer(end)), iv, ciphered);
    if deciphered.None? then None
    else
      var plaintext := Stripped(deciphered.value);
      if plaintext.None? then None
      else
        var size := MacSize(alg);
        var content := if size > 0 then Slice(plaintext.value, 0, 0 - size) else plaintext.value;
        var receivedMac := if size > 0 then Slice(plaintext.value, 0 - size, |plaintext.value|) else [];
        var result := packet.(fragment := content);
        var expected := Mac(c, alg, MacHeader(result, |content|) + content, km, Peer(end));
        if expected == receivedMac then Some(result) else None
  }

  /** The padding check accepts exactly the buffers that end in n + 1 bytes of value n, and
      strips exactly those. */
  lemma PaddingAccepted(d: bytes, body: bytes)
    ensures Stripped(d) == Some(body) <==> exists n: byte :: d == body + Pad(n)
  {
    if Stripped(d) == Some(body) {
      assert d == body + Pad(d[|d| - 1]);
    }
    if exists n: byte :: d == body + Pad(n) {
      var n: byte :| d == body + Pad(n);
      assert d[|d| - 1] == n;
      assert d[..|d| - 1 - n] == body;
    }
  }

  /** Padding fills the block, its length byte included, and stays below the block size. */
  lemma PaddingAligns(n: nat, blockSize: nat)
    requires 0 < blockSize
    ensures PadLength(n, blockSize) < blockSize
    ensures (n + PadLength(n, blockSize) + 1) % blockSize == 0
  {
    var m := n + 1;
    var q, r := m / blockSize, m % blockSize;
    if r > 0 {
      assert m + (blockSize - r) == blockSize * (q + 1) + 0;
      Remainder(blockSize, q + 1, 0);
    }
  }

  lemma SliceHeadTail(a: bytes, b: bytes)
    ensures Slice(a + b, 0, |a|) == a
    ensures Slice(a + b, |a|, |a + b|) == b
    ensures |b| > 0 ==> Slice(a + b, 0, -|b|) == a && Slice(a + b, -|b|, |a + b|) == b
  {
  }

  lemma BlockRoundTrip(c: Library, p: BlockParams, alg: Option<HashAlgorithm>, km: KeyMaterial, end: End,
                       packet: Packet, iv: bytes)
    requires c.Lawful() && 0 < p.blockSize <= 256 && p.recordIvLength == p.blockSize == |iv|
    ensures var sent := BlockEncrypt(c, p, alg, km, end, packet, iv);
            BlockDecrypt(c, p, alg, km, Peer(end), Wire(sent)) == Some(Wire(packet))
  {
    hide MacHeader, Pad, Slice, Stripped, PadLength, Padding, Mac;
    var mac := Mac(c, alg, MacHeader(packet, |packet.fragment|) + packet.fragment, km, end);
    MacHasItsSize(c, alg, MacHeader(packet, |packet.fragment|) + packet.fragment, km, end);
    var plaintext := packet.fragment + mac;
    var padded := plaintext + Padding(|plaintext|, p.blockSize);
    PaddedPlaintext(plaintext, p.blockSize);
    var ciphered := c.encipher(p, km.Key(end), iv, padded);
    assert c.decipher(p, km.Key(end), iv, ciphered) == Some(padded);
    SliceHeadTail(iv, ciphered);
    SliceHeadTail(packet.fragment, mac);
    MacHeaderSurvivesWire(packet, |packet.fragment|);
    var sent := Wire(packet.(fragment := iv + ciphered));
    assert sent.(fragment := packet.fragment) == Wire(packet);
    assert Stripped(padded) == Some(plaintext);
    if MacSize(alg) == 0 {
      assert plaintext == packet.fragment;
    }
    assert Peer(Peer(end)) == end;
    assert c.decipher(p, km.Key(end), Slice(sent.fragment, 0, p.recordIvLength),
                      Slice(sent.fragment, p.blockSize, |sent.fragment|)) == Some(padded);
  }

  lemma MacHasItsSize(c: Library, alg: Option<HashAlgorithm>, data: bytes, km: KeyMaterial, source: End)
    requires c.HmacLaw()
    ensures |Mac(c, alg, data, km, source)| == MacSize(alg)
  {
  }

  lemma PaddedPlaintext(plaintext: bytes, blockSize: nat)
    requires 0 < blockSize <= 256
    ensures var padded := plaintext + Padding(|plaintext|, blockSize);
            |padded| % blockSize == 0 && Stripped(padded) == Some(plaintext)
  {
    hide Stripped;
    PaddingAligns(|plaintext|, blockSize);
    var n: byte := PadLength(|plaintext|, blockSize);
    assert Padding(|plaintext|, blockSize) == Pad(n);
    PaddingAccepted(plaintext + Padding(|plaintext|, blockSize), plaintext);
  }

  lemma AcceptsByMac(c: Library, p: BlockParams, alg: Option<HashAlgorithm>, km: KeyMaterial, end: End,
                        packet: Packet, result: Packet)
    requires c.HmacLaw()
    ensures BlockDecrypt(c, p, alg, km, end, packet) == Some(result)
       <==> && result == packet.(fragment := result.fragment)
            && var deciphered := c.decipher(p, km.Key(Peer(end)), Slice(packet.fragment, 0, p.recordIvLength),
                                            Slice(packet.fragment, p.blockSize, |packet.fragment|));
            && deciphered.Some?
            && var mac := Mac(c, alg, MacHeader(result, |result.fragment|) + result.fragment, km, Peer(end));
               exists n: byte :: deciphered.value == result.fragment + mac + Pad(n)
  {
    hide MacHeader, Pad, Mac, Stripped;
    var deciphered := c.decipher(p, km.Key(Peer(end)), Slice(packet.fragment, 0, p.recordIvLength),
                                 Slice(packet.fragment, p.blockSize, |packet.fragment|));
    var mac := Mac(c, alg, MacHeader(result, |result.fragment|) + result.fragment, km, Peer(end));
    MacHasItsSize(c, alg, MacHeader(result, |result.fragment|) + result.fragment, km, Peer(end));
    if deciphered.Some? {
      PaddingAccepted(deciphered.value, result.fragment + mac);
      SplitsOffMac(deciphered.value, MacSize(alg), result.fragment, mac);
    }
  }

  /** Content and MAC are split off a plaintext exactly if it is their concatenation. */
  lemma SplitsOffMac(d: bytes, size: nat, content: bytes, mac: bytes)
    requires |mac| == size
    ensures Stripped(d) == Some(content + mac)
       <==> && Stripped(d).Some?
            && var plaintext := Stripped(d).value;
            && content == (if size > 0 then Slice(plaintext, 0, 0 - size) else plaintext)
            && mac == if size > 0 then Slice(plaintext, 0 - size, |plaintext|) else []
  {
    hide Stripped;
    if Stripped(d).Some? {
      var plaintext := Stripped(d).value;
      SliceHeadTail(content, mac);
      if size > 0 && |plaintext| >= size {
        assert plaintext == plaintext[..|plaintext| - size] + plaintext[|plaintext| - size..];
        assert Slice(plaintext, 0, 0 - size) == plaintext[..|plaintext| - size];
        assert Slice(plaintext, 0 - size, |plaintext|) == plaintext[|plaintext| - size..];
      } else if size == 0 {
        assert content + mac == content;
      }
    }
  }

  /** The padding of section 6.2.3.2 of RFC 5246: the number of bytes before the last one, in every
      byte. */
  predicate IsPadding(b: bytes) {
    b != [] && forall k :: 0 <= k < |b| ==> b[k] == |b| - 1
  }

  lemma PadIsPadding(b: bytes)
    ensures IsPadding(b) <==> exists n: byte :: b == Pad(n)
  {
    if IsPadding(b) {
      assert b[0] == |b| - 1;
      assert b == Pad(b[0]);
    }
  }

  /** A record as a block cipher protects it (section 6.2.3.2 of RFC 5246): behind the IV, enciphered
      with the key of the side that sends, come the fragment, the HMAC of header and fragment under
      its MAC key, and the shortest padding that fills the last block. */
  lemma BlockLayout(c: Library, p: BlockParams, alg: Option<HashAlgorithm>, km: KeyMaterial, end: End, packet: Packet,
                    iv: bytes) returns (padding: bytes)
    requires 0 < p.blockSize <= 256
    ensures var header := Encode(Num(packet.epoch), 2) + (Encode(Num(packet.seqNum), 6) + (Encode(Num(packet.typ), 1)
                          + (VersionBytes(packet.major, packet.minor) + Encode(Num(|packet.fragment|), 2))));
            var mac := match (alg, end)
              case (None, _) => []
              case (Some(h), Client) => c.hmac(h, km.clientWriteMacKey, header + packet.fragment)
              case (Some(h), Server) => c.hmac(h, km.serverWriteMacKey, header + packet.fragment);
            var key := match end case Client => km.clientWriteKey case Server => km.serverWriteKey;
            && IsPadding(padding) && |padding| <= p.blockSize
            && (|packet.fragment| + |mac| + |padding|) % p.blockSize == 0
            && BlockEncrypt(c, p, alg, km, end, packet, iv)
               == packet.(fragment := iv + c.encipher(p, key, iv, packet.fragment + mac + padding))
  {
    hide MacHeader, Encode;
    MacHeaderPrints(packet, |packet.fragment|);
    var mac := Mac(c, alg, MacHeader(packet, |packet.fragment|) + packet.fragment, km, end);
    var plaintext := packet.fragment + mac;
    PaddingAligns(|plaintext|, p.blockSize);
    padding := Padding(|plaintext|, p.blockSize);
    assert PadLength(|plaintext|, p.blockSize) % 256 == |padding| - 1;
    assert packet.fragment + mac + padding == plaintext + padding;
  }

  /** A record is accepted from a block cipher exactly when what follows its IV deciphers, with the
      other side's key, to a fragment, the HMAC of header and fragment under the other side's MAC key,
      and a padding; the fragment is then what is returned. */
  lemma BlockAcceptsIff(c: Library, p: BlockParams, alg: Option<HashAlgorithm>, km: KeyMaterial, end: End,
                        packet: Packet, result: Packet)
    requires c.HmacLaw()
    ensures BlockDecrypt(c, p, alg, km, end, packet) == Some(result)
       <==> && result == packet.(fragment := result.fragment)
            && var f := packet.fragment;
            && var iv := if |f| <= p.recordIvLength then f else f[..p.recordIvLength];
            && var body := if |f| <= p.blockSize then [] else f[p.blockSize..];
            && var key := match end case Client => km.serverWriteKey case Server => km.clientWriteKey;
            && var header := Encode(Num(result.epoch), 2) + (Encode(Num(result.seqNum), 6) + (Encode(Num(result.typ), 1)
                             + (VersionBytes(result.major, result.minor) + Encode(Num(|result.fragment|), 2))));
            && var mac := match (alg, end)
                 case (None, _) => []
                 case (Some(h), Client) => c.hmac(h, km.serverWriteMacKey, header + result.fragment)
                 case (Some(h), Server) => c.hmac(h, km.clientWriteMacKey, header + result.fragment);
            && c.decipher(p, key, iv, body).Some?
            && exists padding: bytes :: |padding| <= 256 && IsPadding(padding)
                 && c.decipher(p, key, iv, body).value == result.fragment + mac + padding
  {
    hide MacHeader, Encode, IsPadding, Pad, BlockDecrypt, Slice;
    MacHeaderPrints(result, |result.fragment|);
    AcceptsByMac(c, p, alg, km, end, packet, result);
    BlockSlices(packet.fragment, p.recordIvLength, p.blockSize);
    var deciphered := c.decipher(p, km.Key(Peer(end)), Slice(packet.fragment, 0, p.recordIvLength),
                                 Slice(packet.fragment, p.blockSize, |packet.fragment|));
    if deciphered.Some? {
      EndsInPad(deciphered.value, result.fragment
                                  + Mac(c, alg, MacHeader(result, |result.fragment|) + result.fragment, km, Peer(end)));
    }
  }

  lemma BlockSlices(f: bytes, r: nat, n: nat)
    ensures Slice(f, 0, r) == (if |f| <= r then f else f[..r])
    ensures Slice(f, n, |f|) == if |f| <= n then [] else f[n..]
  {
  }

  lemma EndsInPad(d: bytes, content: bytes)
    ensures (exists n: byte :: d == content + Pad(n))
       <==> (exists padding: bytes :: |padding| <= 256 && IsPadding(padding) && d == content + padding)
  {
    if n: byte :| d == content + Pad(n) {
      PadIsPadding(Pad(n));
    }
    if padding: bytes :| |padding| <= 256 && IsPadding(padding) && d == content + padding {
      PadIsPadding(padding);
    }
  }

  // ---- AEAD ciphers (section 6.2.3.3 of RFC 5246) ----

  function AeadEncrypt(c: Library, p: AeadParams, km: KeyMaterial, end: End, packet: Packet, iv: bytes): Packet {
    var nonce := km.Iv(end) + iv;
    var additionalData := MacHeader(packet, |packet.fragment|);
    var (ciphertext, tag) := c.seal(p, km.Key(end), nonce, packet.fragment, additionalData);
    packet.(fragment := iv + ciphertext + tag)
  }

  function AeadDecrypt(c: Library, p: AeadParams, km: KeyMaterial, end: End, packet: Packet): Option<Packet> {
    var source := Peer(end);
    var nonce := km.Iv(source) + Slice(packet.fragment, 0, p.recordIvLength);
    var additionalData := MacHeader(packet, |packet.fragment| - p.recordIvLength - p.authTagLength);
    var tag := Slice(packet.fragment, 0 - p.authTagLength, |packet.fragment|);
    var ciphered := Slice(packet.fragment, p.recordIvLength, 0 - p.authTagLength);
    var plaintext := c.open(p, km.Key(source), nonce, ciphered, additionalData, tag);
    if plaintext.None? then None else Some(packet.(fragment := plaintext.value))
  }

  lemma SliceMiddle(a: bytes, b: bytes, t: bytes)
    requires |t| > 0
    ensures Slice(a + b + t, |a|, -|t|) == b
    ensures Slice(a + b + t, 0, |a|) == a
    ensures Slice(a + b + t, -|t|, |a + b + t|) == t
  {
  }

  lemma AeadRoundTrip(c: Library, p: AeadParams, km: KeyMaterial, end: End, packet: Packet, iv: bytes)
    requires c.Lawful() && p.authTagLength > 0 && |iv| == p.recordIvLength
    ensures var sent := AeadEncrypt(c, p, km, end, packet, iv);
            AeadDecrypt(c, p, km, Peer(end), Wire(sent)) == Some(Wire(packet))
  {
    hide MacHeader, Slice;
    var nonce, aad := km.Iv(end) + iv, MacHeader(packet, |packet.fragment|);
    var (ciphertext, tag) := c.seal(p, km.Key(end), nonce, packet.fragment, aad);
    assert |ciphertext| == |packet.fragment| && |tag| == p.authTagLength;
    SliceMiddle(iv, ciphertext, tag);
    MacHeaderSurvivesWire(packet, |packet.fragment|);
    MacHeaderSurvivesWire(AeadEncrypt(c, p, km, end, packet, iv), |packet.fragment|);
    HeaderIgnoresFragment(packet, iv + ciphertext + tag, |packet.fragment|);
  }

  /** A record as an AEAD cipher protects it (section 6.2.3.3 of RFC 5246). The nonce is the fixed part
      of the side that sends and the explicit part that travels in front of the record; epoch, number,
      type, version and length of the plaintext are authenticated. */
  lemma AeadLayout(c: Library, p: AeadParams, km: KeyMaterial, end: End, packet: Packet, iv: bytes)
    ensures var header := Encode(Num(packet.epoch), 2) + (Encode(Num(packet.seqNum), 6) + (Encode(Num(packet.typ), 1)
                          + (VersionBytes(packet.major, packet.minor) + Encode(Num(|packet.fragment|), 2))));
            var (key, fixed) := match end
              case Client => (km.clientWriteKey, km.clientWriteIv)
              case Server => (km.serverWriteKey, km.serverWriteIv);
            var (ciphertext, tag) := c.seal(p, key, fixed + iv, packet.fragment, header);
            AeadEncrypt(c, p, km, end, packet, iv) == packet.(fragment := iv + ciphertext + tag)
  {
    hide MacHeader, Encode;
    MacHeaderPrints(packet, |packet.fragment|);
  }

  /** A record is accepted from an AEAD cipher exactly when what lies between the explicit part of the
      nonce and the tag opens with the other side's key, its nonce and the header of the plaintext. */
  lemma AeadAcceptsIff(c: Library, p: AeadParams, km: KeyMaterial, end: End, packet: Packet, result: Packet)
    requires p.authTagLength > 0
    ensures AeadDecrypt(c, p, km, end, packet) == Some(result)
       <==> && result == packet.(fragment := result.fragment)
            && var f := packet.fragment;
            && var lo := if |f| < p.recordIvLength then |f| else p.recordIvLength;
            && var hi := if |f| < p.authTagLength then 0 else |f| - p.authTagLength;
            && var size := |f| - p.recordIvLength - p.authTagLength;
            && var header := Encode(Num(packet.epoch), 2) + (Encode(Num(packet.seqNum), 6) + (Encode(Num(packet.typ), 1)
                             + (VersionBytes(packet.major, packet.minor) + Encode(Num(size), 2))));
            && var (key, fixed) := match end
                 case Client => (km.serverWriteKey, km.serverWriteIv)
                 case Server => (km.clientWriteKey, km.clientWriteIv);
            && c.open(p, key, fixed + f[..lo], if lo < hi then f[lo..hi] else [], header, f[hi..])
               == Some(result.fragment)
  {
    hide MacHeader, Encode;
    MacHeaderPrints(packet, |packet.fragment| - p.recordIvLength - p.authTagLength);
    AeadSlices(packet.fragment, p.recordIvLength, p.authTagLength);
  }

  lemma AeadSlices(f: bytes, r: nat, t: nat)
    requires t > 0
    ensures var lo := if |f| < r then |f| else r;
            var hi := if |f| < t then 0 else |f| - t;
            && Slice(f, 0, r) == f[..lo] && Slice(f, 0 - t, |f|) == f[hi..]
            && Slice(f, r, 0 - t) == if lo < hi then f[lo..hi] else []
  {
  }

  lemma HeaderIgnoresFragment(packet: Packet, other: bytes, length: int)
    ensures MacHeader(packet.(fragment := other), length) == MacHeader(packet, length)
  {
  }

  // ---- the delegates handed to the record layer ----

  /** What `specifyCipher` and `specifyDecipher` capture; keys may not be computed yet. */
  datatype Delegate = Delegate(suite: CipherSuite, keys: Option<KeyMaterial>, end: End)

  /** Runs a cipher delegate; `None` stands for an exception. */
  function Encrypt(c: Library, d: Delegate, packet: Packet, iv: bytes): Option<Packet>
  {
    match d.suite.kind
    case NullCipher => Some(packet)
    case BlockCipher(p, alg) =>
      if d.keys.None? then None else Some(BlockEncrypt(c, p, alg, d.keys.value, d.end, packet, iv))
    case AeadCipher(p) =>
      if d.keys.None? then None else Some(AeadEncrypt(c, p, d.keys.value, d.end, packet, iv))
  }

  function Decrypt(c: Library, d: Delegate, packet: Packet): (r: Option<Packet>)
    ensures r.Some? ==> r.value == packet.(fragment := r.value.fragment)
  {
    match d.suite.kind
    case NullCipher => Some(packet)
    case BlockCipher(p, alg) => if d.keys.None? then None else BlockDecrypt(c, p, alg, d.keys.value, d.end, packet)
    case AeadCipher(p) => if d.keys.None? then None else AeadDecrypt(c, p, d.keys.value, d.end, packet)
  }

  /** Which cipher a delegate runs: none for a suite without one, and the cipher of the suite with the
      captured keys otherwise; without keys it throws. */
  lemma DelegatesByKind(c: Library, d: Delegate, packet: Packet, iv: bytes)
    ensures match d.suite.kind
      case NullCipher => Encrypt(c, d, packet, iv) == Some(packet) == Decrypt(c, d, packet)
      case BlockCipher(p, alg) =>
        if d.keys.None? then Encrypt(c, d, packet, iv) == None == Decrypt(c, d, packet)
        else
          && Encrypt(c, d, packet, iv) == Some(BlockEncrypt(c, p, alg, d.keys.value, d.end, packet, iv))
          && Decrypt(c, d, packet) == BlockDecrypt(c, p, alg, d.keys.value, d.end, packet)
      case AeadCipher(p) =>
        if d.keys.None? then Encrypt(c, d, packet, iv) == None == Decrypt(c, d, packet)
        else
          && Encrypt(c, d, packet, iv) == Some(AeadEncrypt(c, p, d.keys.value, d.end, packet, iv))
          && Decrypt(c, d, packet) == AeadDecrypt(c, p, d.keys.value, d.end, packet)
  {
    hide BlockEncrypt, BlockDecrypt, AeadEncrypt, AeadDecrypt;
  }

  /** Whatever suite the two ends share, deciphering the wire form of an enciphered record
      gives the wire form of the record. */
  lemma ProtectionRoundTrip(c: Library, suite: CipherSuite, km: KeyMaterial, end: End, packet: Packet, iv: bytes)
    requires c.Lawful() && |iv| == RecordIvLength(suite)
    ensures var sent := Encrypt(c, Delegate(suite, Some(km), end), packet, iv);
            && sent.Some?
            && sent.value == packet.(fragment := sent.value.fragment)
            && Decrypt(c, Delegate(suite, Some(km), Peer(end)), Wire(sent.value)) == Some(Wire(packet))
  {
    hide BlockEncrypt, BlockDecrypt, AeadEncrypt, AeadDecrypt;
    match suite.kind
    case NullCipher =>
    case BlockCipher(p, alg) =>
      BlockRoundTrip(c, p, alg, km, end, packet, iv);
      BlockKeepsHeader(c, p, alg, km, end, packet, iv);
    case AeadCipher(p) =>
      AeadRoundTrip(c, p, km, end, packet, iv);
      AeadKeepsHeader(c, p, km, end, packet, iv);
  }

  lemma BlockKeepsHeader(c: Library, p: BlockParams, alg: Option<HashAlgorithm>, km: KeyMaterial, end: End,
                         packet: Packet, iv: bytes)
    requires p.blockSize > 0
    ensures var sent := BlockEncrypt(c, p, alg, km, end, packet, iv); sent == packet.(fragment := sent.fragment)
  {
  }

  lemma AeadKeepsHeader(c: Library, p: AeadParams, km: KeyMaterial, end: End, packet: Packet, iv: bytes)
    ensures var sent := AeadEncrypt(c, p, km, end, packet, iv); sent == packet.(fragment := sent.fragment)
  {
  }

  lemma EncryptKeepsHeader(c: Library, d: Delegate, packet: Packet, iv: bytes)
    ensures var sent := Encrypt(c, d, packet, iv);
            sent.Some? ==> sent.value == packet.(fragment := sent.value.fragment)
  {
    hide BlockEncrypt, AeadEncrypt;
    if d.keys.Some? {
      match d.suite.kind
      case NullCipher =>
      case BlockCipher(p, alg) => BlockKeepsHeader(c, p, alg, d.keys.value, d.end, packet, iv);
      case AeadCipher(p) => AeadKeepsHeader(c, p, d.keys.value, d.end, packet, iv);
    }
  }
}
