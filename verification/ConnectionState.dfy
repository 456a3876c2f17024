/** src/TLS/ConnectionState.ts: the security parameters of one epoch. */
module ConnectionStates {
  import opened Bytes
  import opened Crypto
  import opened Prfs
  import opened Protection

  const MASTER_SECRET_LENGTH := 48

  /** The value of a connection state; `None` stands for `undefined`. */
  datatype ConnState = ConnState(
    entity: End, suite: Option<CipherSuite>, major: int, minor: int,
    clientRandom: Option<bytes>, serverRandom: Option<bytes>, masterSecret: Option<bytes>,
    keys: Option<KeyMaterial>, cipher: Option<Delegate>, decipher: Option<Delegate>)
  {
    /** The delegate `Cipher` returns and caches. */
    function CipherInUse(): Option<Delegate> {
      if cipher.Some? then cipher else if suite.Some? then Some(Delegate(suite.value, keys, entity)) else None
    }

    function DecipherInUse(): Option<Delegate> {
      if decipher.Some? then decipher else if suite.Some? then Some(Delegate(suite.value, keys, entity)) else None
    }
  }

  /** DTLS 1.0 with the NULL suite, before anything is negotiated; versions are `~1` and `~0`. */
  const FRESH_STATE := ConnState(Client, Some(NULL_SUITE), -2, -1, None, None, None, None, None, None)

  lemma CipherExists(s: ConnState)
    requires s.suite.Some?
    ensures s.CipherInUse().Some? && s.DecipherInUse().Some?
  {
  }

  function KeyBlockLength(s: CipherSuite): nat {
    2 * (MacLength(s) + KeyLength(s) + FixedIvLength(s))
  }

  function MasterSecret(c: Library, h: HashAlgorithm, preMaster: bytes, clientRandom: bytes,
                        serverRandom: bytes): bytes {
    Expand(c, h, preMaster, "master secret", clientRandom + serverRandom, MASTER_SECRET_LENGTH)
  }

  function KeyBlock(c: Library, h: HashAlgorithm, s: CipherSuite, master: bytes, clientRandom: bytes,
                    serverRandom: bytes): bytes {
    Expand(c, h, master, "key expansion", serverRandom + clientRandom, KeyBlockLength(s))
  }

  /** The six consecutive slices of the key block (section 6.3 of RFC 5246). */
  function Partition(block: bytes, s: CipherSuite): KeyMaterial
    requires |block| == KeyBlockLength(s)
  {
    var m, k, i := MacLength(s), KeyLength(s), FixedIvLength(s);
    KeyMaterial(
      block[0..m], block[m..2 * m],
      block[2 * m..2 * m + k], block[2 * m + k..2 * m + 2 * k],
      block[2 * m + 2 * k..2 * m + 2 * k + i], block[2 * m + 2 * k + i..2 * m + 2 * k + 2 * i])
  }

  /** Each key has the length its suite requires and together they are the whole block. */
  lemma PartitionIsExact(block: bytes, s: CipherSuite)
    requires |block| == KeyBlockLength(s)
    ensures var km := Partition(block, s);
            && |km.clientWriteMacKey| == |km.serverWriteMacKey| == MacLength(s)
            && |km.clientWriteKey| == |km.serverWriteKey| == KeyLength(s)
            && |km.clientWriteIv| == |km.serverWriteIv| == FixedIvLength(s)
            && km.clientWriteMacKey + km.serverWriteMacKey + km.clientWriteKey + km.serverWriteKey
               + km.clientWriteIv + km.serverWriteIv == block
  {
  }

  /** The sizes of the keys for each kind of cipher, and where in the key block they are: the two MAC
      keys, the two cipher keys and the two fixed parts of the nonce, the client's always first. */
  lemma KeyBlockByKind(block: bytes, s: CipherSuite)
    requires |block| == KeyBlockLength(s)
    ensures var km := Partition(block, s);
            match s.kind
            case NullCipher => block == []
            case BlockCipher(p, alg) =>
              var m := match alg
                case None => 0
                case Some(MD5) => 16
                case Some(SHA1) => 20
                case Some(SHA256) => 32
                case Some(SHA384) => 48
                case Some(SHA512) => 64;
              var k := p.keyLength;
              && |block| == 2 * m + 2 * k
              && km == KeyMaterial(block[..m], block[m..2 * m], block[2 * m..2 * m + k], block[2 * m + k..], [], [])
            case AeadCipher(p) =>
              var k, i := p.keyLength, p.fixedIvLength;
              && |block| == 2 * k + 2 * i
              && km == KeyMaterial([], [], block[..k], block[k..2 * k], block[2 * k..2 * k + i], block[2 * k + i..])
  {
    if s.kind.BlockCipher? && s.kind.mac.Some? {
      assert HashLength(s.kind.mac.value) > 0;
    }
  }

  /** The state after `computeMasterSecret`; `None` when it throws, leaving the state alone. */
  function WithMasterSecret(c: Library, s: ConnState, preMaster: bytes): Option<ConnState>
    requires c.HmacLaw()
  {
    if s.suite.None? || s.suite.value.prf.None? || s.clientRandom.None? || s.serverRandom.None? then None
    else
      var h := s.suite.value.prf.value;
      var master := MasterSecret(c, h, preMaster, s.clientRandom.value, s.serverRandom.value);
      var block := KeyBlock(c, h, s.suite.value, master, s.clientRandom.value, s.serverRandom.value);
      PIsBlockStream(c, h, master, Ascii("key expansion") + (s.serverRandom.value + s.clientRandom.value),
                     KeyBlockLength(s.suite.value));
      Some(s.(masterSecret := Some(master), keys := Some(Partition(block, s.suite.value))))
  }

  /** The derivation of sections 6.3 and 8.1 of RFC 5246: the randoms enter the master secret
      client first and the key block server first, and the six keys make up the key block. */
  lemma SecretsAreDerived(c: Library, s: ConnState, preMaster: bytes)
    requires c.HmacLaw()
    ensures var next := WithMasterSecret(c, s, preMaster);
            && (next.Some? <==>
                  s.suite.Some? && s.suite.value.prf.Some? && s.clientRandom.Some? && s.serverRandom.Some?)
            && (next.Some? ==>
                  && var h, client, server := s.suite.value.prf.value, s.clientRandom.value, s.serverRandom.value;
                  && next.value.masterSecret == Some(P(c, h, preMaster, Ascii("master secret") + (client + server), 48))
                  && var master, km := next.value.masterSecret.value, next.value.keys.value;
                  && |master| == 48
                  && km.clientWriteMacKey + km.serverWriteMacKey + km.clientWriteKey + km.serverWriteKey
                     + km.clientWriteIv + km.serverWriteIv
                     == P(c, h, master, Ascii("key expansion") + (server + client), KeyBlockLength(s.suite.value)))
  {
    hide P;
    var next := WithMasterSecret(c, s, preMaster);
    if next.Some? {
      var h, client, server := s.suite.value.prf.value, s.clientRandom.value, s.serverRandom.value;
      var master := next.value.masterSecret.value;
      PIsBlockStream(c, h, preMaster, Ascii("master secret") + (client + server), 48);
      PIsBlockStream(c, h, master, Ascii("key expansion") + (server + client), KeyBlockLength(s.suite.value));
      PartitionIsExact(KeyBlock(c, h, s.suite.value, master, client, server), s.suite.value);
    }
  }

  class ConnectionState {
    var entity: End
    var cipherSuite: Option<CipherSuite>
    var major: int
    var minor: int
    var clientRandom: Option<bytes>
    var serverRandom: Option<bytes>
    var masterSecret: Option<bytes>
    var keyMaterial: Option<KeyMaterial>
    var cipher: Option<Delegate>
    var decipher: Option<Delegate>

    ghost function Value(): ConnState
      reads this
    {
      ConnState(entity, cipherSuite, major, minor, clientRandom, serverRandom, masterSecret, keyMaterial, cipher,
                decipher)
    }

    constructor ()
      ensures Value() == FRESH_STATE
    {
      entity, cipherSuite, major, minor := Client, Some(NULL_SUITE), -2, -1;
      clientRandom, serverRandom, masterSecret, keyMaterial := None, None, None, None;
      cipher, decipher := None, None;
    }

    /** The getter `Cipher`; `None` when it throws because the suite is undefined. */
    method GetCipher() returns (d: Option<Delegate>)
      modifies this`cipher
      ensures d == old(Value()).CipherInUse()
      ensures Value() == old(Value()).(cipher := d)
    {
      if cipher.None? {
        if cipherSuite.None? {
          return None;
        }
        cipher := Some(Delegate(cipherSuite.value, keyMaterial, entity));
      }
      d := cipher;
    }

    method GetDecipher() returns (d: Option<Delegate>)
      modifies this`decipher
      ensures d == old(Value()).DecipherInUse()
      ensures Value() == old(Value()).(decipher := d)
    {
      if decipher.None? {
        if cipherSuite.None? {
          return None;
        }
        decipher := Some(Delegate(cipherSuite.value, keyMaterial, entity));
      }
      d := decipher;
    }

    /** Returns false when the computation throws. */
    method ComputeMasterSecret(c: Library, preMaster: bytes) returns (ok: bool)
      requires c.HmacLaw()
      modifies this`masterSecret, this`keyMaterial
      ensures var next := WithMasterSecret(c, old(Value()), preMaster);
              ok == next.Some? && Value() == if next.Some? then next.value else old(Value())
    {
      if cipherSuite.None? || cipherSuite.value.prf.None? || clientRandom.None? || serverRandom.None? {
        return false;
      }
      var secret := ComputeP(c, cipherSuite.value.prf.value, preMaster,
                             Ascii("master secret") + (clientRandom.value + serverRandom.value), MASTER_SECRET_LENGTH);
      masterSecret := Some(secret);
      ComputeKeyMaterial(c, cipherSuite.value, cipherSuite.value.prf.value, secret, clientRandom.value,
                         serverRandom.value);
      ok := true;
    }

    method ComputeKeyMaterial(c: Library, s: CipherSuite, h: HashAlgorithm, master: bytes, client: bytes, server: bytes)
      requires c.HmacLaw()
      modifies this`keyMaterial
      ensures |KeyBlock(c, h, s, master, client, server)| == KeyBlockLength(s)
      ensures keyMaterial == Some(Partition(KeyBlock(c, h, s, master, client, server), s))
    {
      var seed := Ascii("key expansion") + (server + client);
      var block := ComputeP(c, h, master, seed, KeyBlockLength(s));
      PIsBlockStream(c, h, master, seed, KeyBlockLength(s));
      var offset := 0;
      var clientMac, serverMac, clientKey, serverKey, clientIv, serverIv;
      clientMac, offset := Read(block, offset, MacLength(s));
      serverMac, offset := Read(block, offset, MacLength(s));
      clientKey, offset := Read(block, offset, KeyLength(s));
      serverKey, offset := Read(block, offset, KeyLength(s));
      clientIv, offset := Read(block, offset, FixedIvLength(s));
      serverIv, offset := Read(block, offset, FixedIvLength(s));
      keyMaterial := Some(KeyMaterial(clientMac, serverMac, clientKey, serverKey, clientIv, serverIv));
    }

    /** The closure `read` of `computeKeyMaterial`. */
    static method Read(block: bytes, offset: nat, length: nat) returns (r: bytes, next: nat)
      requires offset + length <= |block|
      ensures r == block[offset..offset + length] && next == offset + length
    {
      r, next := block[offset..offset + length], offset + length;
    }
  }
}
