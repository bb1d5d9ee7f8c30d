/**
 The homomorphic hash of a collection (crates/wa-crypto/src/app_state.rs): 128 bytes
 read as 64 little-endian 16-bit words, added and subtracted with wrap-around.
 */
module LtHash {
  import opened Prelude

  const HASH_LEN: nat := 128
  const WORDS: nat := 64
  const M: nat := 0x1_0000

  type Hash = b: Bytes | |b| == HASH_LEN witness seq(HASH_LEN, _ => 0)

  type Words = w: seq<nat> | |w| == WORDS && forall i :: 0 <= i < |w| ==> w[i] < M
    witness seq(WORDS, _ => 0)

  const ZERO: Hash := Zeros()

  function Zeros(): Hash {
    seq(HASH_LEN, _ => 0)
  }

  /** `u16::from_le_bytes` of every pair of bytes */
  function ToWords(h: Hash): Words {
    seq(WORDS, i requires 0 <= i < WORDS => h[2 * i] as nat + 256 * h[2 * i + 1] as nat)
  }

  function FromWords(w: Words): Hash {
    seq(HASH_LEN, k requires 0 <= k < HASH_LEN =>
      (if k % 2 == 0 then w[k / 2] % 256 else w[k / 2] / 256) as Byte)
  }

  /** `u16::wrapping_add` */
  function WrapAdd(x: nat, y: nat): (z: nat)
    requires x < M && y < M
    ensures z < M && z == (x + y) % M
  {
    if x + y < M then x + y else x + y - M
  }

  /** `u16::wrapping_sub` */
  function WrapSub(x: nat, y: nat): (z: nat)
    requires x < M && y < M
    ensures z < M && z == (x + M - y) % M
  {
    if x >= y then x - y else x + M - y
  }

  lemma WrapLaws(x: nat, y: nat, z: nat)
    requires x < M && y < M && z < M
    ensures WrapAdd(WrapAdd(x, y), z) == WrapAdd(x, WrapAdd(y, z))
    ensures WrapAdd(WrapSub(x, y), y) == x
    ensures WrapSub(WrapAdd(x, y), y) == x
  {
  }

  function AddWords(a: Words, b: Words): Words {
    seq(WORDS, i requires 0 <= i < WORDS => WrapAdd(a[i], b[i]))
  }

  function SubWords(a: Words, b: Words): Words {
    seq(WORDS, i requires 0 <= i < WORDS => WrapSub(a[i], b[i]))
  }

  function Add(a: Hash, b: Hash): Hash {
    FromWords(AddWords(ToWords(a), ToWords(b)))
  }

  function Sub(a: Hash, b: Hash): Hash {
    FromWords(SubWords(ToWords(a), ToWords(b)))
  }

  lemma WordsRoundTrip(w: Words)
    ensures ToWords(FromWords(w)) == w
  {
    var h := FromWords(w);
    forall i | 0 <= i < WORDS ensures ToWords(h)[i] == w[i] {
      assert h[2 * i] as nat == w[i] % 256;
      assert h[2 * i + 1] as nat == w[i] / 256;
    }
  }

  lemma HashRoundTrip(h: Hash)
    ensures FromWords(ToWords(h)) == h
  {
    var w := ToWords(h);
    forall k | 0 <= k < HASH_LEN ensures FromWords(w)[k] == h[k] {
      assert w[k / 2] == h[2 * (k / 2)] as nat + 256 * h[2 * (k / 2) + 1] as nat;
    }
  }

  lemma WordsOfAdd(a: Hash, b: Hash)
    ensures ToWords(Add(a, b)) == AddWords(ToWords(a), ToWords(b))
  {
    WordsRoundTrip(AddWords(ToWords(a), ToWords(b)));
  }

  lemma WordsOfSub(a: Hash, b: Hash)
    ensures ToWords(Sub(a, b)) == SubWords(ToWords(a), ToWords(b))
  {
    WordsRoundTrip(SubWords(ToWords(a), ToWords(b)));
  }

  // ----- Group laws ----------------------------------------------------------

  lemma AddComm(a: Hash, b: Hash)
    ensures Add(a, b) == Add(b, a)
  {
    assert AddWords(ToWords(a), ToWords(b)) == AddWords(ToWords(b), ToWords(a));
  }

  lemma AddWordsAssoc(a: Words, b: Words, c: Words)
    ensures AddWords(AddWords(a, b), c) == AddWords(a, AddWords(b, c))
  {
    forall i | 0 <= i < WORDS
      ensures AddWords(AddWords(a, b), c)[i] == AddWords(a, AddWords(b, c))[i]
    {
      WrapLaws(a[i], b[i], c[i]);
    }
  }

  lemma SubAddWords(a: Words, b: Words)
    ensures AddWords(SubWords(a, b), b) == a
    ensures SubWords(AddWords(a, b), b) == a
  {
    forall i | 0 <= i < WORDS
      ensures AddWords(SubWords(a, b), b)[i] == a[i]
      ensures SubWords(AddWords(a, b), b)[i] == a[i]
    {
      WrapLaws(a[i], b[i], 0);
    }
  }

  lemma AddAssoc(a: Hash, b: Hash, c: Hash)
    ensures Add(Add(a, b), c) == Add(a, Add(b, c))
  {
    WordsOfAdd(a, b);
    WordsOfAdd(b, c);
    AddWordsAssoc(ToWords(a), ToWords(b), ToWords(c));
  }

  lemma AddZeroWords(w: Words)
    ensures AddWords(w, ToWords(ZERO)) == w
  {
    var z := ToWords(ZERO);
    forall i | 0 <= i < WORDS ensures AddWords(w, z)[i] == w[i] {
      assert z[i] == 0;
    }
  }

  lemma AddZero(a: Hash)
    ensures Add(a, ZERO) == a
  {
    AddZeroWords(ToWords(a));
    HashRoundTrip(a);
  }

  lemma SubThenAdd(a: Hash, b: Hash)
    ensures Add(Sub(a, b), b) == a
  {
    WordsOfSub(a, b);
    SubAddWords(ToWords(a), ToWords(b));
    HashRoundTrip(a);
  }

  lemma AddThenSub(a: Hash, b: Hash)
    ensures Sub(Add(a, b), b) == a
  {
    WordsOfAdd(a, b);
    SubAddWords(ToWords(a), ToWords(b));
    HashRoundTrip(a);
  }

  /** The rest of the development uses only the laws above and this one. */
  lemma AddCancel(a: Hash, b: Hash, c: Hash)
    requires Add(a, c) == Add(b, c)
    ensures a == b
  {
    AddThenSub(a, c);
    AddThenSub(b, c);
  }

  /** Word `i` of a hash, least significant byte first. */
  function Word(h: Hash, i: nat): nat
    requires i < 64
  {
    h[2 * i] as nat + 256 * h[2 * i + 1] as nat
  }

  lemma WordIs(h: Hash, i: nat)
    requires i < 64
    ensures ToWords(h)[i] == Word(h, i) < M
  {
  }

  /** Each word of a sum is the sum of the two words, modulo 2^16. */
  lemma WordsAdd(a: Hash, b: Hash, i: nat)
    requires i < 64
    ensures Word(Add(a, b), i) == (Word(a, i) + Word(b, i)) % 0x1_0000
  {
    WordsOfAdd(a, b);
    WordIs(a, i);
    WordIs(b, i);
    WordIs(Add(a, b), i);
    assert AddWords(ToWords(a), ToWords(b))[i] == WrapAdd(ToWords(a)[i], ToWords(b)[i]);
  }
}
