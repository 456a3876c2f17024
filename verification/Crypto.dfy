/** The foreign cryptographic calls as unknown functions, and the cipher suites that select them. */
module Crypto {
  import opened Bytes

  datatype HashAlgorithm = MD5 | SHA1 | SHA256 | SHA384 | SHA512

  function HashLength(h: HashAlgorithm): nat {
    match h
    case MD5 => 16
    case SHA1 => 20
    case SHA256 => 32
    case SHA384 => 48
    case SHA512 => 64
  }

  datatype BlockParams = BlockParams(name: string, keyLength: nat, blockSize: nat, recordIvLength: nat)
  datatype AeadParams = AeadParams(name: string, keyLength: nat, fixedIvLength: nat, recordIvLength: nat,
                                   authTagLength: nat)

  datatype CipherKind =
    | NullCipher
    | BlockCipher(block: BlockParams, mac: Option<HashAlgorithm>)
    | AeadCipher(aead: AeadParams)

  datatype KeyExchange = NoKeyExchange | Psk | OtherKeyExchange

  datatype SuiteEntry = SuiteEntry(
    id: nat, keyExchange: KeyExchange, prf: Option<HashAlgorithm>, kind: CipherKind, verifyDataLength: nat)

  type CipherSuite = s: SuiteEntry | SoundKind(s.kind) && 0 < s.verifyDataLength < 256 witness NULL_SUITE

  const NULL_SUITE := SuiteEntry(0, NoKeyExchange, None, NullCipher, 12)

  function MacLength(s: CipherSuite): nat {
    if s.kind.BlockCipher? && s.kind.mac.Some? then HashLength(s.kind.mac.value) else 0
  }

  function KeyLength(s: CipherSuite): nat {
    match s.kind
    case NullCipher => 0
    case BlockCipher(p, _) => p.keyLength
    case AeadCipher(p) => p.keyLength
  }

  function FixedIvLength(s: CipherSuite): nat {
    if s.kind.AeadCipher? then s.kind.aead.fixedIvLength else 0
  }

  function RecordIvLength(s: CipherSuite): nat {
    match s.kind
    case NullCipher => 0
    case BlockCipher(p, _) => p.recordIvLength
    case AeadCipher(p) => p.recordIvLength
  }

  /** What every cipher algorithm of the suite table satisfies. */
  predicate SoundKind(k: CipherKind) {
    match k
    case NullCipher => true
    case BlockCipher(p, _) => 0 < p.blockSize <= 256 && p.recordIvLength == p.blockSize
    case AeadCipher(p) => 0 < p.authTagLength <= 256 && p.recordIvLength <= 256
  }

  /** Node's crypto functions; `None` stands for an exception or a failed authentication. */
  datatype Library = Library(
    hmac: (HashAlgorithm, bytes, bytes) -> bytes,
    hash: (HashAlgorithm, bytes) -> bytes,
    encipher: (BlockParams, bytes, bytes, bytes) -> bytes,
    decipher: (BlockParams, bytes, bytes, bytes) -> Option<bytes>,
    seal: (AeadParams, bytes, bytes, bytes, bytes) -> (bytes, bytes),
    open: (AeadParams, bytes, bytes, bytes, bytes, bytes) -> Option<bytes>)
  {
    ghost predicate HmacLaw() {
      forall h, k, d :: |hmac(h, k, d)| == HashLength(h)
    }

    /** Deciphering inverts enciphering on whole blocks; both keep the length. */
    ghost predicate BlockLaw() {
      && (forall p: BlockParams, k, iv, d :: p.blockSize > 0 && |iv| == p.recordIvLength && |d| % p.blockSize == 0
           ==> |encipher(p, k, iv, d)| == |d| && decipher(p, k, iv, encipher(p, k, iv, d)) == Some(d))
      && (forall p, k, iv, d :: decipher(p, k, iv, d).Some? ==> |decipher(p, k, iv, d).value| == |d|)
    }

    /** Opening inverts sealing; sealing keeps the length and adds a tag of the set size. */
    ghost predicate AeadLaw() {
      forall p: AeadParams, k, n, d, a ::
        var (c, t) := seal(p, k, n, d, a);
        |c| == |d| && |t| == p.authTagLength && open(p, k, n, c, a, t) == Some(d)
    }

    ghost predicate Lawful() {
      HmacLaw() && BlockLaw() && AeadLaw()
    }
  }

  datatype End = Client | Server

  function Peer(e: End): End {
    if e == Client then Server else Client
  }

  datatype KeyMaterial = KeyMaterial(
    clientWriteMacKey: bytes, serverWriteMacKey: bytes,
    clientWriteKey: bytes, serverWriteKey: bytes,
    clientWriteIv: bytes, serverWriteIv: bytes)
  {
    function MacKey(e: End): bytes { if e == Server then serverWriteMacKey else clientWriteMacKey }
    function Key(e: End): bytes { if e == Server then serverWriteKey else clientWriteKey }
    function Iv(e: End): bytes { if e == Server then serverWriteIv else clientWriteIv }
  }
}
