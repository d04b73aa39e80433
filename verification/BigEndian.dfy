/** Network byte order. */
module BigEndian {
  import opened Common

  function Pow256(width: nat): (p: nat)
    ensures p > 0
  {
    if width == 0 then 1 else 256 * Pow256(width - 1)
  }

  /** The `width` low-order bytes of `n`, most significant first. */
  function ToBytes(n: nat, width: nat): (b: Bytes)
    ensures |b| == width
  {
    if width == 0 then [] else ToBytes(n / 256, width - 1) + [(n % 256) as byte]
  }

  function FromBytes(b: Bytes): (n: nat)
    ensures n < Pow256(|b|)
  {
    if b == [] then 0 else FromBytes(b[..|b| - 1]) * 256 + b[|b| - 1] as int
  }

  lemma {:induction false} ThereAndBack(n: nat, width: nat)
    requires n < Pow256(width)
    ensures FromBytes(ToBytes(n, width)) == n
  {
    if width > 0 {
      ThereAndBack(n / 256, width - 1);
      assert ToBytes(n, width)[..width - 1] == ToBytes(n / 256, width - 1);
    }
  }

  lemma {:induction false} BackAndThere(b: Bytes)
    ensures ToBytes(FromBytes(b), |b|) == b
  {
    if b != [] {
      BackAndThere(b[..|b| - 1]);
      assert b == b[..|b| - 1] + [b[|b| - 1]];
    }
  }

  /** Most significant first: byte `i` of `width` counts the powers of 256 above the `width - 1 - i` bytes behind it. */
  lemma {:induction false} ByteAt(n: nat, width: nat, i: nat)
    requires i < width
    ensures ToBytes(n, width)[i] as int == (n / Pow256(width - 1 - i)) % 256
  {
    if i == width - 1 {
      assert Pow256(0) == 1;
    } else {
      ByteAt(n / 256, width - 1, i);
      DivideTwice(n, Pow256(width - 2 - i));
    }
  }

  lemma DivideTwice(n: nat, p: nat)
    requires p > 0
    ensures (n / 256) / p == n / (256 * p)
  {
    var a := n / 256;
    var q, r := a / p, a % p;
    Quotient(a, p);
    Regroup(p, q);
    QuotientIsUnique(n, 256 * p, q, 256 * r + n % 256);
  }

  lemma Quotient(a: nat, p: nat)
    requires p > 0
    ensures a == p * (a / p) + a % p && a % p <= p - 1
  {
  }

  lemma Regroup(p: int, q: int)
    ensures 256 * (p * q) == (256 * p) * q
  {
  }

  lemma QuotientIsUnique(n: nat, d: nat, q: nat, r: nat)
    requires d > 0 && n == d * q + r && r < d
    ensures n / d == q
  {
    var k := n / d - q;
    Quotient(n, d);
    Distribute(d, n / d, q);
    Multiple(d, k);
  }

  lemma Distribute(d: int, a: int, b: int)
    ensures d * (a - b) == d * a - d * b
  {
  }

  lemma Multiple(d: nat, k: int)
    ensures k >= 1 ==> d * k >= d
    ensures k <= -1 ==> d * k + d <= 0
  {
    Distribute(d, k, 1);
    Distribute(d, -1, k);
    if k >= 1 {
      Sign(d, k - 1);
    } else if k <= -1 {
      Sign(d, -1 - k);
    }
  }

  lemma Sign(d: nat, k: nat)
    ensures d * k >= 0
  {
  }

  lemma Widths()
    ensures Pow256(1) == 0x100 && Pow256(2) == 0x1_0000
    ensures Pow256(4) == 0x1_0000_0000 && Pow256(8) == 0x1_0000_0000_0000_0000
  {
    assert Pow256(4) == 256 * Pow256(3) == 256 * (256 * Pow256(2));
    assert Pow256(8) == 256 * Pow256(7) == 256 * (256 * Pow256(6)) == 256 * (256 * (256 * (256 * Pow256(4))));
  }
}
