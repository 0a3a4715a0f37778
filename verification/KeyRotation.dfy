/** A store of encrypted records living through any number of key rotations and re-encryptions. */
module KeyRotation {
  import opened Wrappers
  import opened Base64
  import opened Cipher

  /** `plains` remembers what was put in, for stating what must come out. */
  datatype State = State(e: Encryptor, store: seq<string>, plains: seq<Bytes>)

  // A record is added, a record is re-encrypted (left as it is when that fails), or the process is
  // started again with other keys.
  datatype Action =
    | Put(nonce: Option<Bytes>, plain: Bytes)
    | Rewrite(i: nat, nonce: Option<Bytes>)
    | Rotate(e: Encryptor)

  ghost predicate Fits(act: Action) {
    match act
    case Put(nonce, _) => Drawn(nonce)
    case Rewrite(_, nonce) => Drawn(nonce)
    case Rotate(e) => Valid(e)
  }

  function Step(a: Aead, s: State, act: Action): State
    requires Valid(s.e)
  {
    match act
    case Put(nonce, plain) =>
      (match Encrypted(a, s.e, nonce, plain)
       case Ok(c) => s.(store := s.store + [c], plains := s.plains + [plain])
       case Err(_) => s)
    case Rewrite(i, nonce) =>
      if i >= |s.store| then s
      else
        (match ReEncrypt(a, s.e, nonce, s.store[i])
         case Ok(c) => s.(store := s.store[i := c])
         case Err(_) => s)
    case Rotate(e) => s.(e := e)
  }

  // The version a record names, with 0, which no key has, for one that names none.
  function VersionOf(encoded: string): Version {
    match Decode(encoded)
    case Some(data) => if data == [] then 0 else data[0]
    case None => 0
  }

  // A version that both encryptors know stands for the same key.
  ghost predicate Agree(e: Encryptor, f: Encryptor) {
    forall v :: v in e.keys && v in f.keys ==> e.keys[v] == f.keys[v]
  }

  // The rotation that an operator may do: no key in use is dropped or changed.
  ghost predicate KeepsKeysInUse(s: State, e: Encryptor) {
    Agree(s.e, e) && forall i :: 0 <= i < |s.store| ==> VersionOf(s.store[i]) in e.keys
  }

  function Exec(a: Aead, e: Encryptor, acts: seq<Action>): (s: State)
    requires Valid(e) && forall act :: act in acts ==> Fits(act)
    ensures Valid(s.e)
  {
    if acts == [] then State(e, [], [])
    else
      assert Fits(acts[|acts| - 1]);
      Step(a, Exec(a, e, acts[..|acts| - 1]), acts[|acts| - 1])
  }

  ghost predicate KeepsKeys(a: Aead, e: Encryptor, acts: seq<Action>)
    requires Valid(e) && forall act :: act in acts ==> Fits(act)
  {
    forall k :: 0 <= k < |acts| && acts[k].Rotate? ==> KeepsKeysInUse(Exec(a, e, acts[..k]), acts[k].e)
  }

  ghost predicate RecordIntact(a: Aead, e: Encryptor, encoded: string, plain: Bytes) {
    var v := VersionOf(encoded);
    v in e.keys && Encrypts(a, v, e.keys[v], encoded, plain)
  }

  ghost predicate Intact(a: Aead, s: State) {
    && Valid(s.e) && |s.plains| == |s.store|
    && forall i :: 0 <= i < |s.store| ==> RecordIntact(a, s.e, s.store[i], s.plains[i])
  }

  lemma EncryptsIntact(a: Aead, e: Encryptor, nonce: Bytes, plain: Bytes)
    requires Correct(a) && Valid(e) && |nonce| == NONCE_SIZE
    ensures RecordIntact(a, e, Encrypted(a, e, Some(nonce), plain).value, plain)
  {
    var key := e.keys[e.primary];
    OpensSealed(a, e, key, e.primary, nonce, plain);
  }

  lemma IntactOpens(a: Aead, e: Encryptor, encoded: string, plain: Bytes)
    requires Correct(a) && RecordIntact(a, e, encoded, plain)
    ensures Decrypt(a, e, encoded) == Ok(plain)
  {
    var v := VersionOf(encoded);
    DecryptsEverywhere(a, e, v, e.keys[v], encoded, plain);
  }

  lemma StepKeepsIntact(a: Aead, s: State, act: Action)
    requires Correct(a) && Intact(a, s) && Fits(act)
    requires act.Rotate? ==> KeepsKeysInUse(s, act.e)
    ensures Intact(a, Step(a, s, act))
  {
    match act {
      case Put(nonce, plain) =>
        if nonce.Some? { EncryptsIntact(a, s.e, nonce.value, plain); }
      case Rewrite(i, nonce) =>
        if i < |s.store| {
          IntactOpens(a, s.e, s.store[i], s.plains[i]);
          if nonce.Some? { EncryptsIntact(a, s.e, nonce.value, s.plains[i]); }
        }
      case Rotate(e) =>
    }
  }

  lemma {:induction false} ExecIntact(a: Aead, e: Encryptor, acts: seq<Action>)
    requires Correct(a) && Valid(e) && (forall act :: act in acts ==> Fits(act)) && KeepsKeys(a, e, acts)
    ensures Intact(a, Exec(a, e, acts))
  {
    if acts != [] {
      var n := |acts| - 1;
      forall k | 0 <= k < n ensures acts[..n][..k] == acts[..k] { }
      ExecIntact(a, e, acts[..n]);
      StepKeepsIntact(a, Exec(a, e, acts[..n]), acts[n]);
    }
  }

  /** However often the keys are rotated and records re-encrypted, as long as no rotation drops a key in
      use every record decrypts to what was put in. */
  lemma {:induction false} NothingIsLost(a: Aead, e: Encryptor, acts: seq<Action>)
    requires Correct(a) && Valid(e) && (forall act :: act in acts ==> Fits(act)) && KeepsKeys(a, e, acts)
    ensures var s := Exec(a, e, acts);
            |s.plains| == |s.store| &&
            forall i :: 0 <= i < |s.store| ==> Decrypt(a, s.e, s.store[i]) == Ok(s.plains[i])
  {
    ExecIntact(a, e, acts);
    var s := Exec(a, e, acts);
    forall i | 0 <= i < |s.store| ensures Decrypt(a, s.e, s.store[i]) == Ok(s.plains[i]) {
      IntactOpens(a, s.e, s.store[i], s.plains[i]);
    }
  }

  /** And exactly as long: a rotation leaves a record readable if and only if the version that the
      record names is still there. */
  lemma ReadableExactly(a: Aead, s: State, e: Encryptor, i: nat)
    requires Correct(a) && Intact(a, s) && Valid(e) && Agree(s.e, e) && i < |s.store|
    ensures Decrypt(a, e, s.store[i]) ==
            if VersionOf(s.store[i]) in e.keys then Ok(s.plains[i]) else Err(UnknownVersion(VersionOf(s.store[i])))
  {
    var v := VersionOf(s.store[i]);
    DecryptsEverywhere(a, e, v, s.e.keys[v], s.store[i], s.plains[i]);
  }

  // ---- Retiring the old keys ----

  // The first `k` records are re-encrypted, one after the other.
  function Pass(a: Aead, s: State, nonces: seq<Bytes>, k: nat): (t: State)
    requires Valid(s.e) && k <= |nonces|
    ensures t.e == s.e
  {
    if k == 0 then s else Step(a, Pass(a, s, nonces, k - 1), Rewrite(k - 1, Some(nonces[k - 1])))
  }

  function OnlyPrimary(e: Encryptor): Encryptor
    requires Valid(e)
  {
    Encryptor(e.primary, map[e.primary := e.keys[e.primary]])
  }

  lemma RewriteSettles(a: Aead, s: State, i: nat, nonce: Bytes)
    requires Correct(a) && Intact(a, s) && i < |s.store| && |nonce| == NONCE_SIZE
    ensures var t := Step(a, s, Rewrite(i, Some(nonce)));
            && Intact(a, t) && t.plains == s.plains && |t.store| == |s.store|
            && !NeedsReEncryption(s.e, t.store[i])
            && forall j :: 0 <= j < |s.store| && j != i ==> t.store[j] == s.store[j]
  {
    StepKeepsIntact(a, s, Rewrite(i, Some(nonce)));
    IntactOpens(a, s.e, s.store[i], s.plains[i]);
    ReEncryptKeepsMeaning(a, s.e, Some(nonce), None, s.store[i]);
  }

  lemma {:induction false} PassSettles(a: Aead, s: State, nonces: seq<Bytes>, k: nat)
    requires Correct(a) && Intact(a, s)
    requires k <= |s.store| == |nonces| && forall j :: 0 <= j < |nonces| ==> |nonces[j]| == NONCE_SIZE
    ensures var t := Pass(a, s, nonces, k);
            && Intact(a, t) && t.plains == s.plains && |t.store| == |s.store|
            && forall j :: 0 <= j < k ==> !NeedsReEncryption(s.e, t.store[j])
  {
    if k > 0 {
      PassSettles(a, s, nonces, k - 1);
      RewriteSettles(a, Pass(a, s, nonces, k - 1), k - 1, nonces[k - 1]);
    }
  }

  /** After every record has been re-encrypted, the primary key alone reads the whole store: all other
      keys may go. */
  lemma PrimaryAloneSuffices(a: Aead, s: State, nonces: seq<Bytes>)
    requires Correct(a) && Intact(a, s)
    requires |s.store| == |nonces| && forall j :: 0 <= j < |nonces| ==> |nonces[j]| == NONCE_SIZE
    ensures var t := Pass(a, s, nonces, |nonces|);
            && |t.store| == |s.plains| && KeepsKeysInUse(t, OnlyPrimary(s.e))
            && forall i :: 0 <= i < |t.store| ==> Decrypt(a, OnlyPrimary(s.e), t.store[i]) == Ok(s.plains[i])
  {
    PassSettles(a, s, nonces, |nonces|);
    var t := Pass(a, s, nonces, |nonces|);
    forall i | 0 <= i < |t.store| ensures Decrypt(a, OnlyPrimary(s.e), t.store[i]) == Ok(s.plains[i])
        && VersionOf(t.store[i]) == s.e.primary {
      ReadableExactly(a, t, OnlyPrimary(s.e), i);
    }
  }
}
