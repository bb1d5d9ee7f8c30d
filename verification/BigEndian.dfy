/** Fixed-width big-endian numbers (`to_be_bytes`, `from_be_bytes`). */
module BigEndian {
  import opened Prelude

  function Pow256(k: nat): nat
    ensures Pow256(k) > 0
  {
    if k == 0 then 1 else 256 * Pow256(k - 1)
  }

  const U32_SIZE: nat := 0x1_0000_0000
  const U64_SIZE: nat := 0x1_0000_0000_0000_0000

  lemma WidthSizes()
    ensures Pow256(4) == U32_SIZE && Pow256(8) == U64_SIZE
  {
    assert Pow256(2) == 0x1_0000;
    assert Pow256(4) == 0x1_0000 * 0x1_0000;
    assert Pow256(6) == 0x1_0000 * 0x1_0000 * 0x1_0000;
  }

  /** The low `k` bytes of `n`, most significant first. */
  function ToBytes(n: nat, k: nat): (r: Bytes)
    ensures |r| == k
  {
    if k == 0 then [] else ToBytes(n / 256, k - 1) + [(n % 256) as Byte]
  }

  function FromBytes(b: Bytes): nat
    decreases |b|
  {
    if b == [] then 0 else FromBytes(b[..|b| - 1]) * 256 + b[|b| - 1] as nat
  }

  lemma {:induction false} RoundTrip(n: nat, k: nat)
    requires n < Pow256(k)
    ensures FromBytes(ToBytes(n, k)) == n
    decreases k
  {
    if k > 0 {
      var b := ToBytes(n, k);
      assert b[..|b| - 1] == ToBytes(n / 256, k - 1);
      RoundTrip(n / 256, k - 1);
    }
  }

  lemma {:induction false} FromBytesBound(b: Bytes)
    ensures FromBytes(b) < Pow256(|b|)
    decreases |b|
  {
    if b != [] {
      FromBytesBound(b[..|b| - 1]);
    }
  }

  lemma {:induction false} BytesRoundTrip(b: Bytes)
    ensures ToBytes(FromBytes(b), |b|) == b
    decreases |b|
  {
    if b != [] {
      BytesRoundTrip(b[..|b| - 1]);
      var n := FromBytes(b);
      assert n / 256 == FromBytes(b[..|b| - 1]) && n % 256 == b[|b| - 1] as nat;
    }
  }

  /** Equal encodings of one width are of equal numbers. */
  lemma Injective(m: nat, n: nat, k: nat)
    requires m < Pow256(k) && n < Pow256(k) && ToBytes(m, k) == ToBytes(n, k)
    ensures m == n
  {
    RoundTrip(m, k);
    RoundTrip(n, k);
  }

  /** Byte `i` of `k` counts the powers of 256 that are left after it. */
  lemma {:induction false} ByteAt(n: nat, k: nat, i: nat)
    requires i < k
    ensures ToBytes(n, k)[i] as nat == n / Pow256(k - 1 - i) % 256
    decreases k
  {
    if i < k - 1 {
      ByteAt(n / 256, k - 1, i);
      DivTwice(n, Pow256(k - 2 - i));
    }
  }

  lemma DivTwice(n: nat, p: nat)
    requires p > 0
    ensures n / 256 / p == n / (256 * p)
  {
    var q, r := n / (256 * p), n % (256 * p);
    assert n == 256 * p * q + r;
    assert 256 * p * q == 256 * (p * q);
    assert n / 256 == p * q + r / 256;
    assert r / 256 < p;
    QuotientIs(n / 256, p, q, r / 256);
  }

  lemma AtLeastOnce(p: int, k: int)
    requires p > 0 && k >= 1
    ensures p * k >= p
  {
  }

  lemma SmallMultiple(p: int, k: int, x: int)
    requires p > 0 && x == p * k && -p < x < p
    ensures k == 0
  {
    if k >= 1 {
      AtLeastOnce(p, k);
    } else if k <= -1 {
      AtLeastOnce(p, -k);
    }
  }

  lemma QuotientIs(m: nat, p: nat, q: nat, r: nat)
    requires p > 0 && m == p * q + r && r < p
    ensures m / p == q
  {
    var d := m / p;
    assert m == p * d + m % p;
    assert p * (q - d) == p * q - p * d;
    SmallMultiple(p, q - d, m % p - r);
  }

  // ----- Byte by byte --------------------------------------------------------------

  function Four(n: nat): Bytes {
    [(n / 0x100_0000 % 256) as Byte, (n / 0x1_0000 % 256) as Byte, (n / 256 % 256) as Byte, (n % 256) as Byte]
  }

  lemma FourAre(n: nat)
    ensures ToBytes(n, 4) == Four(n)
  {
    Powers();
    forall i | 0 <= i < 4 ensures ToBytes(n, 4)[i] == Four(n)[i] {
      ByteAt(n, 4, i);
    }
  }

  function Eight(n: nat): Bytes {
    [(n / 0x100_0000_0000_0000 % 256) as Byte, (n / 0x1_0000_0000_0000 % 256) as Byte,
     (n / 0x100_0000_0000 % 256) as Byte, (n / 0x1_0000_0000 % 256) as Byte] + Four(n)
  }

  lemma Powers()
    ensures Pow256(0) == 1 && Pow256(1) == 256 && Pow256(2) == 0x1_0000 && Pow256(3) == 0x100_0000
    ensures Pow256(4) == 0x1_0000_0000 && Pow256(5) == 0x100_0000_0000 && Pow256(6) == 0x1_0000_0000_0000
    ensures Pow256(7) == 0x100_0000_0000_0000
  {
    WidthSizes();
    assert Pow256(5) == 256 * Pow256(4);
    assert Pow256(6) == 256 * Pow256(5);
    assert Pow256(7) == 256 * Pow256(6);
  }

  lemma EightAre(n: nat)
    ensures ToBytes(n, 8) == Eight(n)
  {
    Powers();
    forall i | 0 <= i < 8 ensures ToBytes(n, 8)[i] == Eight(n)[i] {
      ByteAt(n, 8, i);
    }
  }
}
