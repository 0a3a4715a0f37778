/** Ciphertexts that name their key: a version byte, a nonce and the sealed text, in base64. */
module Cipher {
  import opened Wrappers
  import opened Base64

  type Version = Byte

  const NONCE_SIZE := 12
  const TAG_SIZE := 16
  const KEY_SIZE := 32

  /** An authenticated cipher with the interface of section 2 of RFC 5116: sealing and opening under
      a key, a nonce and associated data. */
  datatype Aead = Aead(seal: (Bytes, Bytes, Bytes, Bytes) -> Bytes, open: (Bytes, Bytes, Bytes, Bytes) -> Option<Bytes>)

  // What is taken from section 5.2 of RFC 5116: the tag length, and that opening undoes sealing.
  ghost predicate Correct(a: Aead) {
    forall key: Bytes, nonce: Bytes, plain: Bytes, ad: Bytes :: |key| == KEY_SIZE && |nonce| == NONCE_SIZE ==>
      var sealed := a.seal(key, nonce, plain, ad);
      |sealed| == |plain| + TAG_SIZE && a.open(key, nonce, sealed, ad) == Some(plain)
  }

  /** The decoded keys by version, and the version that encrypts. */
  datatype Encryptor = Encryptor(primary: Version, keys: map<Version, Bytes>)

  predicate Valid(e: Encryptor) {
    e.primary in e.keys && forall v :: v in e.keys ==> v != 0 && |e.keys[v]| == KEY_SIZE
  }

  datatype Error = NoKeys | PrimaryMissing | VersionZero | BadKey(version: Version) | NoEntropy
                 | NotBase64 | TooShort | UnknownVersion(version: Version) | NotAuthentic

  // ---- Building an encryptor ----

  function DecodeKey(s: string): (key: Option<Bytes>)
    ensures key.Some? ==> |key.value| == KEY_SIZE && Decode(s) == key
  {
    match Decode(s)
    case Some(key) => if |key| == KEY_SIZE then Some(key) else None
    case None => None
  }

  predicate Usable(v: Version, key: string) { v != 0 && DecodeKey(key).Some? }

  // The reason given for refusing the settings is a true one.
  predicate Explains(error: Error, primary: Version, keys: map<Version, string>) {
    match error
    case NoKeys => keys == map[]
    case PrimaryMissing => keys != map[] && primary !in keys
    case VersionZero => primary in keys && 0 in keys
    case BadKey(v) => primary in keys && v != 0 && v in keys && DecodeKey(keys[v]) == None
    case _ => false
  }

  // `decoded` holds the key bytes of the versions in `some`.
  ghost predicate Decodes(decoded: map<Version, Bytes>, some: set<Version>, keys: map<Version, string>) {
    && decoded.Keys == some && some <= keys.Keys
    && forall v :: v in decoded ==> Usable(v, keys[v]) && DecodeKey(keys[v]) == Some(decoded[v])
  }

  /** Usable settings give the decoded keys, all of them; anything else is refused, and a refusal names
      something that is wrong. */
  method NewEncryptor(primary: Version, keys: map<Version, string>) returns (r: Result<Encryptor, Error>)
    ensures r.Ok? <==> primary in keys && forall v :: v in keys ==> Usable(v, keys[v])
    ensures r.Ok? ==>
      Valid(r.value) && r.value.primary == primary && Decodes(r.value.keys, keys.Keys, keys)
    ensures r.Err? ==> Explains(r.error, primary, keys)
    ensures r.Ok? <==> primary in keys && forall v :: v in keys ==>
                                            v != 0 && Decode(keys[v]).Some? && |Decode(keys[v]).value| == 32
    ensures r.Ok? ==> r.value.keys.Keys == keys.Keys &&
                      forall v :: v in keys ==> Some(r.value.keys[v]) == Decode(keys[v])
  {
    if |keys| == 0 { return Err(NoKeys); }
    if primary !in keys { return Err(PrimaryMissing); }
    var aeadKeys: map<Version, Bytes> := map[];
    var left := keys.Keys;
    while left != {}
      invariant left <= keys.Keys && Decodes(aeadKeys, keys.Keys - left, keys)
      decreases |left|
    {
      var ver :| ver in left;
      if ver == 0 { return Err(VersionZero); }
      match DecodeKey(keys[ver]) {
        case None => return Err(BadKey(ver));
        case Some(key) => aeadKeys, left := aeadKeys[ver := key], left - {ver};
      }
    }
    return Ok(Encryptor(primary, aeadKeys));
  }

  // ---- Encrypting and decrypting ----

  function Sealed(a: Aead, key: Bytes, version: Version, nonce: Bytes, plain: Bytes): Bytes {
    [version] + nonce + a.seal(key, nonce, plain, [version])
  }

  /** `nonce` is None when the system has no randomness to give. */
  method Encrypt(a: Aead, e: Encryptor, nonce: Option<Bytes>, plain: Bytes) returns (r: Result<string, Error>)
    requires Valid(e)
    ensures r == Encrypted(a, e, nonce, plain)
    ensures r.Ok? <==> nonce.Some?
    ensures r.Ok? ==> Decode(r.value) == Some([e.primary] + nonce.value +
                                              a.seal(e.keys[e.primary], nonce.value, plain, [e.primary]))
  {
    if nonce.None? { return Err(NoEntropy); }
    var ad := [e.primary];
    var ciphertext := a.seal(e.keys[e.primary], nonce.value, plain, ad);
    var out: Bytes := [];
    out := out + [e.primary];
    out := out + nonce.value;
    out := out + ciphertext;
    assert out == Sealed(a, e.keys[e.primary], e.primary, nonce.value, plain);
    RoundTrip(out);
    return Ok(Encode(out));
  }

  function Encrypted(a: Aead, e: Encryptor, nonce: Option<Bytes>, plain: Bytes): Result<string, Error>
    requires Valid(e)
  {
    match nonce
    case None => Err(NoEntropy)
    case Some(n) => Ok(Encode(Sealed(a, e.keys[e.primary], e.primary, n, plain)))
  }

  function Decrypt(a: Aead, e: Encryptor, encoded: string): Result<Bytes, Error> {
    match Decode(encoded)
    case None => Err(NotBase64)
    case Some(data) =>
      if |data| < 1 + NONCE_SIZE + TAG_SIZE then Err(TooShort)
      else if data[0] !in e.keys then Err(UnknownVersion(data[0]))
      else
        match a.open(e.keys[data[0]], data[1..1 + NONCE_SIZE], data[1 + NONCE_SIZE..], [data[0]])
        case None => Err(NotAuthentic)
        case Some(plain) => Ok(plain)
  }

  predicate NeedsReEncryption(e: Encryptor, encoded: string) {
    match Decode(encoded)
    case None => true
    case Some(data) => |data| < 1 || data[0] != e.primary
  }

  function ReEncrypt(a: Aead, e: Encryptor, nonce: Option<Bytes>, encoded: string): Result<string, Error>
    requires Valid(e)
  {
    if !NeedsReEncryption(e, encoded) then Ok(encoded)
    else
      match Decrypt(a, e, encoded)
      case Err(error) => Err(error)
      case Ok(plain) => Encrypted(a, e, nonce, plain)
  }

  /** `encoded` is an encryption of `plain` made under `key`, which was then known as `version`. */
  ghost predicate Encrypts(a: Aead, version: Version, key: Bytes, encoded: string, plain: Bytes) {
    |key| == KEY_SIZE &&
    exists nonce: Bytes :: |nonce| == NONCE_SIZE && encoded == Encode(Sealed(a, key, version, nonce, plain))
  }

  // The nonces that the random source can give.
  predicate Drawn(nonce: Option<Bytes>) { nonce.Some? ==> |nonce.value| == NONCE_SIZE }

  lemma OpensSealed(a: Aead, e: Encryptor, key: Bytes, version: Version, nonce: Bytes, plain: Bytes)
    requires Correct(a) && |key| == KEY_SIZE && |nonce| == NONCE_SIZE
    ensures Decode(Encode(Sealed(a, key, version, nonce, plain))) == Some(Sealed(a, key, version, nonce, plain))
    ensures Decrypt(a, e, Encode(Sealed(a, key, version, nonce, plain))) ==
            if version !in e.keys then Err(UnknownVersion(version))
            else match a.open(e.keys[version], nonce, a.seal(key, nonce, plain, [version]), [version])
                 case None => Err(NotAuthentic)
                 case Some(text) => Ok(text)
  {
    var sealed := a.seal(key, nonce, plain, [version]);
    var data := Sealed(a, key, version, nonce, plain);
    assert |sealed| == |plain| + TAG_SIZE;
    RoundTrip(data);
    assert data[0] == version && data[1..1 + NONCE_SIZE] == nonce && data[1 + NONCE_SIZE..] == sealed;
  }

  /** Every encryptor that still has the key opens what it sealed; one that has dropped the version
      says which version it misses. */
  lemma DecryptsEverywhere(a: Aead, e: Encryptor, version: Version, key: Bytes, encoded: string, plain: Bytes)
    requires Correct(a) && Encrypts(a, version, key, encoded, plain)
    ensures version in e.keys && e.keys[version] == key ==> Decrypt(a, e, encoded) == Ok(plain)
    ensures version !in e.keys ==> Decrypt(a, e, encoded) == Err(UnknownVersion(version))
    ensures NeedsReEncryption(e, encoded) <==> version != e.primary
  {
    var nonce: Bytes :| |nonce| == NONCE_SIZE && encoded == Encode(Sealed(a, key, version, nonce, plain));
    OpensSealed(a, e, key, version, nonce, plain);
    assert a.open(key, nonce, a.seal(key, nonce, plain, [version]), [version]) == Some(plain);
  }

  /** Decrypting undoes encrypting, for every plaintext and every nonce. */
  lemma DecryptUndoesEncrypt(a: Aead, e: Encryptor, nonce: Bytes, plain: Bytes)
    requires Correct(a) && Valid(e) && |nonce| == NONCE_SIZE
    ensures var r := Encrypted(a, e, Some(nonce), plain);
            r.Ok? && Decrypt(a, e, r.value) == Ok(plain) && !NeedsReEncryption(e, r.value)
  {
    var r := Encrypted(a, e, Some(nonce), plain).value;
    assert Encrypts(a, e.primary, e.keys[e.primary], r, plain);
    DecryptsEverywhere(a, e, e.primary, e.keys[e.primary], r, plain);
  }

  /** For any text at all, a re-encryption that succeeds is settled (nothing left to do, doing it again
      changes nothing) and still decrypts to the same thing; it fails exactly when there is something
      to do and either the text does not decrypt or no nonce can be drawn. */
  lemma ReEncryptKeepsMeaning(a: Aead, e: Encryptor, nonce: Option<Bytes>, again: Option<Bytes>, encoded: string)
    requires Correct(a) && Valid(e) && Drawn(nonce)
    ensures var r := ReEncrypt(a, e, nonce, encoded);
            && (r.Ok? ==>
                  && !NeedsReEncryption(e, r.value)
                  && Decrypt(a, e, r.value) == Decrypt(a, e, encoded)
                  && ReEncrypt(a, e, again, r.value) == r)
            && (r.Err? <==> NeedsReEncryption(e, encoded) && (Decrypt(a, e, encoded).Err? || nonce.None?))
    ensures var data := Decode(encoded);
            NeedsReEncryption(e, encoded) <==> data.None? || data.value == [] || data.value[0] != e.primary
  {
    if NeedsReEncryption(e, encoded) && Decrypt(a, e, encoded).Ok? && nonce.Some? {
      DecryptUndoesEncrypt(a, e, nonce.value, Decrypt(a, e, encoded).value);
    }
  }

  // The decoded record names the primary version, and cannot be opened.
  predicate Damaged(a: Aead, e: Encryptor, data: Bytes) {
    && |data| >= 1 && data[0] == e.primary
    && (|data| < 1 + NONCE_SIZE + TAG_SIZE ||
        (data[0] in e.keys &&
         a.open(e.keys[data[0]], data[1..1 + NONCE_SIZE], data[1 + NONCE_SIZE..], [data[0]]) == None))
  }

  /** Only the version byte is looked at: a record passes for settled although it cannot be decrypted
      exactly when it names the primary version and is too short or does not open. Re-encrypting leaves
      such a record as it is. */
  lemma SettledButUnreadableExactly(a: Aead, e: Encryptor, encoded: string, nonce: Option<Bytes>)
    requires Valid(e)
    ensures !NeedsReEncryption(e, encoded) && Decrypt(a, e, encoded).Err? <==>
            Decode(encoded).Some? && Damaged(a, e, Decode(encoded).value)
    ensures !NeedsReEncryption(e, encoded) ==> ReEncrypt(a, e, nonce, encoded) == Ok(encoded)
  {
  }

  /** In particular every record cut off after the version byte of the primary key. */
  lemma {:induction false} TruncatedRecordsPassForSettled(a: Aead, e: Encryptor, data: Bytes)
    requires 1 <= |data| < 29 && data[0] == e.primary
    ensures !NeedsReEncryption(e, Encode(data)) && Decrypt(a, e, Encode(data)) == Err(TooShort)
  {
    RoundTrip(data);
  }
}
