/**
 Keys, MACs and encryption of app-state records (crates/wa-crypto/src/app_state.rs).
 HKDF, HMAC and AES are parameters; how their inputs are framed is not.
 */
module AppCrypto {
  import opened Prelude
  import opened BigEndian
  import opened LtHash

  const MAC_LEN: nat := 32
  const KEY_LEN: nat := 32
  const IV_LEN: nat := 16

  type Mac = b: Bytes | |b| == MAC_LEN witness seq(MAC_LEN, _ => 0)

  type Mac512 = b: Bytes | |b| == 64 witness seq(64, _ => 0)

  type KeyBlock = b: Bytes | |b| == 160 witness seq(160, _ => 0)

  /** The cryptographic functions, each with its output length. */
  datatype Primitives = Primitives(
    expandKeys: Bytes -> KeyBlock,
    expandMac: Bytes -> Hash,
    hmac256: (Bytes, Bytes) -> Mac,
    hmac512: (Bytes, Bytes) -> Mac512,
    aesEncrypt: (Bytes, Bytes, Bytes) -> Bytes,
    aesDecrypt: (Bytes, Bytes, Bytes) -> Option<Bytes>)

  /** The one law assumed of them: CBC decryption undoes encryption. */
  ghost predicate Lawful(P: Primitives) {
    forall plain, key, iv {:trigger P.aesEncrypt(plain, key, iv)} ::
      P.aesDecrypt(P.aesEncrypt(plain, key, iv), key, iv) == Some(plain)
  }

  datatype CryptoError = InvalidKeyLength | InvalidIvLength | CiphertextTooShort | DecryptFailed | InvalidInput

  datatype Operation = Set | Remove

  datatype Keys = Keys(index: Mac, encryption: Mac, value: Mac, snapshot: Mac, patch: Mac)

  function DeriveKeys(P: Primitives, keyData: Bytes): Result<Keys, CryptoError> {
    if |keyData| != KEY_LEN then Err(InvalidKeyLength)
    else
      var e := P.expandKeys(keyData);
      Ok(Keys(e[0..32], e[32..64], e[64..96], e[96..128], e[128..160]))
  }

  function EncryptValue(P: Primitives, plain: Bytes, keys: Keys, iv: Bytes): Result<Bytes, CryptoError> {
    if |iv| != IV_LEN then Err(InvalidIvLength)
    else Ok(iv + P.aesEncrypt(plain, keys.encryption, iv))
  }

  function DecryptValue(P: Primitives, sealed: Bytes, keys: Keys): Result<Bytes, CryptoError> {
    if |sealed| < IV_LEN then Err(CiphertextTooShort)
    else
      match P.aesDecrypt(sealed[IV_LEN..], keys.encryption, sealed[..IV_LEN])
      case Some(plain) => Ok(plain)
      case None => Err(DecryptFailed)
  }

  lemma DecryptEncrypt(P: Primitives, plain: Bytes, keys: Keys, iv: Bytes)
    requires Lawful(P) && EncryptValue(P, plain, keys, iv).Ok?
    ensures DecryptValue(P, EncryptValue(P, plain, keys, iv).value, keys) == Ok(plain)
  {
    DropPrefix(iv, P.aesEncrypt(plain, keys.encryption, iv));
  }

  function OperationByte(op: Operation): Byte {
    if op.Set? then 1 else 2
  }

  /** What the value MAC authenticates: operation, key id and data, then the length of the first two. */
  function MutationFrame(op: Operation, data: Bytes, keyId: Bytes): Bytes {
    [OperationByte(op)] + keyId + data + ToBytes(1 + |keyId|, 8)
  }

  function ValueMac(P: Primitives, op: Operation, data: Bytes, keyId: Bytes, keys: Keys): Result<Mac, CryptoError> {
    if keyId == [] then Err(InvalidInput)
    else Ok(P.hmac512(MutationFrame(op, data, keyId), keys.value)[..MAC_LEN])
  }

  function IndexMac(P: Primitives, index: Bytes, keys: Keys): Mac {
    P.hmac256(index, keys.index)
  }

  function SnapshotFrame(hash: Hash, version: nat, name: Bytes): Bytes {
    hash + ToBytes(version, 8) + name
  }

  function SnapshotMac(P: Primitives, hash: Hash, version: nat, name: Bytes, keys: Keys): Result<Mac, CryptoError> {
    if name == [] then Err(InvalidInput) else Ok(P.hmac256(SnapshotFrame(hash, version, name), keys.snapshot))
  }

  function Flatten(macs: seq<Bytes>): Bytes {
    if macs == [] then [] else macs[0] + Flatten(macs[1..])
  }

  function PatchFrame(snapshotMac: Bytes, valueMacs: seq<Bytes>, version: nat, name: Bytes): Bytes {
    snapshotMac + Flatten(valueMacs) + ToBytes(version, 8) + name
  }

  predicate AllMacs(macs: seq<Bytes>) {
    forall i :: 0 <= i < |macs| ==> |macs[i]| == MAC_LEN
  }

  function PatchMac(P: Primitives, snapshotMac: Bytes, valueMacs: seq<Bytes>, version: nat, name: Bytes, keys: Keys)
    : Result<Mac, CryptoError>
  {
    if |snapshotMac| != MAC_LEN || name == [] || !AllMacs(valueMacs) then Err(InvalidInput)
    else Ok(P.hmac256(PatchFrame(snapshotMac, valueMacs, version, name), keys.patch))
  }

  // ----- The frames are unambiguous ------------------------------------------

  lemma SplitEqual<V>(a: seq<V>, b: seq<V>, x: seq<V>, y: seq<V>)
    requires a + x == b + y && (|a| == |b| || |x| == |y|)
    ensures a == b && x == y
  {
    assert |a| + |x| == |b| + |y|;
    assert a == (a + x)[..|a|] && b == (b + y)[..|b|];
    assert x == (a + x)[|a|..] && y == (b + y)[|b|..];
  }

  /** The value MAC's input fixes the operation, the ciphertext and the key id. */
  lemma MutationFrameInjective(op1: Operation, d1: Bytes, k1: Bytes, op2: Operation, d2: Bytes, k2: Bytes)
    requires 1 + |k1| < U64_SIZE && 1 + |k2| < U64_SIZE
    requires MutationFrame(op1, d1, k1) == MutationFrame(op2, d2, k2)
    ensures op1 == op2 && d1 == d2 && k1 == k2
  {
    SplitEqual([OperationByte(op1)] + k1 + d1, [OperationByte(op2)] + k2 + d2,
               ToBytes(1 + |k1|, 8), ToBytes(1 + |k2|, 8));
    WidthSizes();
    Injective(1 + |k1|, 1 + |k2|, 8);
    SplitEqual([OperationByte(op1)] + k1, [OperationByte(op2)] + k2, d1, d2);
    SplitEqual([OperationByte(op1)], [OperationByte(op2)], k1, k2);
  }

  /** The snapshot MAC's input fixes the hash, the version and the collection. */
  lemma SnapshotFrameInjective(h1: Hash, v1: nat, n1: Bytes, h2: Hash, v2: nat, n2: Bytes)
    requires v1 < U64_SIZE && v2 < U64_SIZE
    requires SnapshotFrame(h1, v1, n1) == SnapshotFrame(h2, v2, n2)
    ensures h1 == h2 && v1 == v2 && n1 == n2
  {
    Assoc(h1, ToBytes(v1, 8), n1);
    Assoc(h2, ToBytes(v2, 8), n2);
    SplitEqual(h1, h2, ToBytes(v1, 8) + n1, ToBytes(v2, 8) + n2);
    SplitEqual(ToBytes(v1, 8), ToBytes(v2, 8), n1, n2);
    WidthSizes();
    Injective(v1, v2, 8);
  }

  lemma {:induction false} FlattenLength(macs: seq<Bytes>)
    requires AllMacs(macs)
    ensures |Flatten(macs)| == MAC_LEN * |macs|
    decreases |macs|
  {
    if macs != [] {
      FlattenLength(macs[1..]);
    }
  }

  lemma {:induction false} FlattenInjective(a: seq<Bytes>, b: seq<Bytes>)
    requires AllMacs(a) && AllMacs(b) && Flatten(a) == Flatten(b)
    ensures a == b
    decreases |a|
  {
    FlattenLength(a);
    FlattenLength(b);
    if a != [] {
      SplitEqual(a[0], b[0], Flatten(a[1..]), Flatten(b[1..]));
      FlattenInjective(a[1..], b[1..]);
      assert a == [a[0]] + a[1..] && b == [b[0]] + b[1..];
    }
  }

  /**
   The patch MAC's input fixes all of its parts, although neither the number of
   MACs nor the length of the name is written: short names of different lengths
   never make up for a missing MAC.
   */
  lemma PatchFrameInjective(s1: Bytes, m1: seq<Bytes>, v1: nat, n1: Bytes, s2: Bytes, m2: seq<Bytes>, v2: nat, n2: Bytes)
    requires |s1| == |s2| == MAC_LEN && AllMacs(m1) && AllMacs(m2) && v1 < U64_SIZE && v2 < U64_SIZE
    requires |n1| < MAC_LEN && |n2| < MAC_LEN
    requires PatchFrame(s1, m1, v1, n1) == PatchFrame(s2, m2, v2, n2)
    ensures s1 == s2 && m1 == m2 && v1 == v2 && n1 == n2
  {
    FlattenLength(m1);
    FlattenLength(m2);
    assert MAC_LEN + MAC_LEN * |m1| + 8 + |n1| == MAC_LEN + MAC_LEN * |m2| + 8 + |n2|;
    SplitEqual(s1 + Flatten(m1) + ToBytes(v1, 8), s2 + Flatten(m2) + ToBytes(v2, 8), n1, n2);
    SplitEqual(s1 + Flatten(m1), s2 + Flatten(m2), ToBytes(v1, 8), ToBytes(v2, 8));
    SplitEqual(s1, s2, Flatten(m1), Flatten(m2));
    FlattenInjective(m1, m2);
    WidthSizes();
    Injective(v1, v2, 8);
  }
}
