/** Encrypt-then-MAC over zero-padded blocks, with the hash and the block cipher as parameters. */
module Envelope {
  import opened Bytes
  import opened Gf256
  import A = Aes

  type Digest = d: Data | |d| == 32 witness Zeros(32)
  type Key = k: Data | |k| == 32 witness Zeros(32)

  /** SHA-256, and the cipher that _aes_ecb_encrypt and _aes_ecb_decrypt dispatch to. */
  datatype Crypto = Crypto(sha256: Data -> Digest, encrypt: (Data, Data) -> Data, decrypt: (Data, Data) -> Data)

  /** Decryption undoes encryption and neither changes the length. */
  ghost predicate Sound(c: Crypto) {
    forall key, data :: Undoes(c, key, data)
  }

  ghost predicate Undoes(c: Crypto, key: Data, data: Data) {
    |key| == 16 && |data| % 16 == 0 ==>
      |c.encrypt(key, data)| == |data| && c.decrypt(key, c.encrypt(key, data)) == data
  }

  // ---- AES is such a cipher ----

  ghost function AesEncrypt(key: Data, data: Data): Data {
    if |key| == 16 && |data| % 16 == 0
    then A.EncryptEcb(A.Layers(A.AesTables(), A.ExpandKey(A.AesTables(), key)), data) else []
  }

  ghost function AesDecrypt(key: Data, data: Data): Data {
    if |key| == 16 && |data| % 16 == 0
    then A.DecryptEcb(A.Layers(A.AesTables(), A.ExpandKey(A.AesTables(), key)), data) else []
  }

  ghost function AesCrypto(sha256: Data -> Digest): Crypto {
    Crypto(sha256, (key, data) => AesEncrypt(key, data), (key, data) => AesDecrypt(key, data))
  }

  lemma AesUndoes(key: Data, data: Data)
    requires |key| == 16 && |data| % 16 == 0
    ensures |AesEncrypt(key, data)| == |data| && AesDecrypt(key, AesEncrypt(key, data)) == data
  {
    A.AesRoundTrip(key, data);
  }

  lemma AesIsSound(sha256: Data -> Digest)
    ensures Sound(AesCrypto(sha256))
  {
    forall key: Data, data: Data ensures Undoes(AesCrypto(sha256), key, data) {
      if |key| == 16 && |data| % 16 == 0 {
        AesUndoes(key, data);
      }
    }
  }

  // ---- padding and the MAC ----

  function Pad16(s: Data): (r: Data)
    ensures |r| % 16 == 0 && s <= r && |r| < |s| + 16
  {
    s + Zeros(-|s| % 16)
  }

  function XorEach(key: Data, b: Byte): Data {
    seq(|key|, i requires 0 <= i < |key| => ByteXor(key[i], b))
  }

  /** HMAC-SHA256 as hmac_sha256 computes it: long keys are hashed, short ones extended to 64 bytes. */
  function Hmac(c: Crypto, key: Data, msg: Data): Digest {
    var k := if |key| > 64 then c.sha256(key) else key;
    var padded := k + Zeros(64 - |k|);
    c.sha256(XorEach(padded, 0x5C) + c.sha256(XorEach(padded, 0x36) + msg))
  }

  function Mac(c: Crypto, secret: Key, ciphertext: Data): (r: Data)
    ensures |r| == 2
  {
    Hmac(c, secret, ciphertext)[..2]
  }

  /** Two bytes of MAC, then the ciphertext. */
  function EncryptThenMac(c: Crypto, secret: Key, plaintext: Data): Data {
    var ciphertext := c.encrypt(secret[..16], Pad16(plaintext));
    Mac(c, secret, ciphertext) + ciphertext
  }

  function MacThenDecrypt(c: Crypto, secret: Key, mac: Data, ciphertext: Data): Option<Data> {
    if |ciphertext| == 0 || |ciphertext| % 16 != 0 then None
    else if Mac(c, secret, ciphertext) != mac then None
    else Some(c.decrypt(secret[..16], ciphertext))
  }

  /** What was sealed opens again, padding included, for every plaintext but the empty one. */
  lemma SealedOpens(c: Crypto, secret: Key, plaintext: Data)
    requires Sound(c)
    ensures var e := EncryptThenMac(c, secret, plaintext);
            && |e| == 2 + |Pad16(plaintext)|
            && MacThenDecrypt(c, secret, e[..2], e[2..]) == if plaintext == [] then None else Some(Pad16(plaintext))
  {
    var e := EncryptThenMac(c, secret, plaintext);
    assert Undoes(c, secret[..16], Pad16(plaintext));
    var ciphertext := c.encrypt(secret[..16], Pad16(plaintext));
    assert e[..2] == Mac(c, secret, ciphertext) && e[2..] == ciphertext;
  }

  /** Equal envelopes under one secret hold the same padded plaintext. */
  lemma SealingIsInjective(c: Crypto, secret: Key, p: Data, q: Data)
    requires Sound(c) && EncryptThenMac(c, secret, p) == EncryptThenMac(c, secret, q)
    ensures Pad16(p) == Pad16(q)
  {
    SealedOpens(c, secret, p);
    SealedOpens(c, secret, q);
    assert p == [] ==> Pad16(p) == [];
    assert q == [] ==> Pad16(q) == [];
  }

  // ---- the search over contacts and channels that share a hash byte ----

  /** candidates: who it may be from, and the secret shared with them. */
  datatype Candidate = Candidate(key: Key, secret: Key)

  ghost predicate Matches(c: Crypto, who: Candidate, hash: Byte, mac: Data, ciphertext: Data) {
    who.key[0] == hash && MacThenDecrypt(c, who.secret, mac, ciphertext).Some?
  }

  /** The first candidate whose hash and MAC match, with what it decrypts to. */
  function FirstMatch(c: Crypto, candidates: seq<Candidate>, hash: Byte, mac: Data, ciphertext: Data)
    : Option<(Candidate, Data)>
  {
    if candidates == [] then None
    else if candidates[0].key[0] != hash then FirstMatch(c, candidates[1..], hash, mac, ciphertext)
    else match MacThenDecrypt(c, candidates[0].secret, mac, ciphertext)
      case Some(plaintext) => Some((candidates[0], plaintext))
      case None => FirstMatch(c, candidates[1..], hash, mac, ciphertext)
  }

  /** The search stops at candidate k exactly when it matches and none before it does. */
  lemma {:induction false} FirstMatchIs(c: Crypto, candidates: seq<Candidate>, k: nat, hash: Byte, mac: Data,
                                        ciphertext: Data)
    requires k < |candidates| && Matches(c, candidates[k], hash, mac, ciphertext)
    requires forall j :: 0 <= j < k ==> !Matches(c, candidates[j], hash, mac, ciphertext)
    ensures FirstMatch(c, candidates, hash, mac, ciphertext)
         == Some((candidates[k], MacThenDecrypt(c, candidates[k].secret, mac, ciphertext).value))
  {
    if k > 0 {
      assert !Matches(c, candidates[0], hash, mac, ciphertext);
      forall j | 0 <= j < k - 1 ensures !Matches(c, candidates[1..][j], hash, mac, ciphertext) {
        assert candidates[1..][j] == candidates[j + 1];
      }
      FirstMatchIs(c, candidates[1..], k - 1, hash, mac, ciphertext);
    }
  }
}
