/** Fixed-width big-endian numbers, as the packer writes them. */
module BigEndian {
  import opened Prelude

  function Pow256(w: nat): (p: nat)
    ensures p >= 1
  {
    if w == 0 then 1 else 256 * Pow256(w - 1)
  }

  function Big(n: nat, w: nat): (bs: Bytes)
    ensures |bs| == w
  {
    if w == 0 then [] else Big(n / 256, w - 1) + [n % 256]
  }

  function FromBig(bs: Bytes): nat {
    if bs == [] then 0 else 256 * FromBig(bs[..|bs| - 1]) + bs[|bs| - 1]
  }

  lemma {:induction false} BigRoundTrip(n: nat, w: nat)
    requires n < Pow256(w)
    ensures FromBig(Big(n, w)) == n
  {
    if w > 0 {
      BigRoundTrip(n / 256, w - 1);
      assert Big(n, w)[..w - 1] == Big(n / 256, w - 1);
    }
  }

  lemma {:induction false} BigCanonical(bs: Bytes)
    ensures FromBig(bs) < Pow256(|bs|) && Big(FromBig(bs), |bs|) == bs
  {
    if bs != [] {
      BigCanonical(bs[..|bs| - 1]);
      assert bs == bs[..|bs| - 1] + [bs[|bs| - 1]];
    }
  }

  // ---------------------------------------------------------------- what each byte is

  /** The byte at position `i` of a number in `w` bytes, most significant first; of a negative one in two's complement. */
  function ByteOf(n: int, w: nat, i: nat): byte
    requires i < w
  {
    n / Pow256(w - 1 - i) % 256
  }

  /** The bytes are those of the number, most significant first. */
  ghost predicate Lays(bs: Bytes, n: int, w: nat) {
    |bs| == w && forall i :: 0 <= i < w ==> bs[i] == ByteOf(n, w, i)
  }

  /** A sequence of digits in base 256 stands for the sum of each digit times its power. */
  function PlaceValue(bs: Bytes): nat {
    if bs == [] then 0 else bs[0] * Pow256(|bs| - 1) + PlaceValue(bs[1..])
  }

  lemma DivDiv(n: int, p: nat)
    requires p > 0
    ensures n / 256 / p == n / (256 * p)
  {
    var q, r := n / 256 / p, n / 256 % p;
    var r' := 256 * r + n % 256;
    assert n == 256 * (p * q + r) + n % 256 == (256 * p) * q + r';
    assert 0 <= r' < 256 * p;
    QuotientUnique(n, 256 * p, q, r');
  }

  lemma QuotientUnique(n: int, d: int, q: int, r: int)
    requires d > 0 && n == d * q + r && 0 <= r < d
    ensures n / d == q && n % d == r
  {
    var q', r' := n / d, n % d;
    assert d * (q - q') == r' - r;
    if q != q' {
      Multiple(d, q - q');
    }
  }

  lemma Multiple(d: int, k: int)
    requires d > 0 && k != 0
    ensures d * k >= d || d * k <= -d
  {
    if k > 0 {
      AtLeastOnce(d, k);
    } else {
      AtLeastOnce(d, -k);
      assert d * -k == -(d * k);
    }
  }

  lemma {:induction false} AtLeastOnce(d: int, k: int)
    requires d > 0 && k >= 1
    ensures d * k >= d
    decreases k
  {
    if k > 1 {
      AtLeastOnce(d, k - 1);
      assert d * k == d * (k - 1) + d;
    }
  }

  lemma ByteShift(n: int, w: nat, i: nat)
    requires i + 1 < w
    ensures ByteOf(n / 256, w - 1, i) == ByteOf(n, w, i)
  {
    DivDiv(n, Pow256(w - 2 - i));
  }

  lemma {:induction false} BigLays(n: nat, w: nat)
    ensures Lays(Big(n, w), n, w)
  {
    if w > 0 {
      BigLays(n / 256, w - 1);
      forall i | 0 <= i < w
        ensures Big(n, w)[i] == ByteOf(n, w, i)
      {
        if i < w - 1 {
          ByteShift(n, w, i);
        }
      }
    }
  }

  /** The bytes of a number depend only on its remainder, so a truncated length and a negative number have theirs. */
  lemma {:induction false} ByteRemainder(n: int, w: nat, i: nat)
    requires i < w
    ensures ByteOf(n % Pow256(w), w, i) == ByteOf(n, w, i)
    decreases w
  {
    var p := Pow256(w - 1);
    DigitSplit(n, p);
    if i < w - 1 {
      ByteShift(n, w, i);
      ByteShift(n % Pow256(w), w, i);
      ByteRemainder(n / 256, w - 1, i);
    }
  }

  lemma DigitSplit(n: int, p: nat)
    requires p > 0
    ensures n % (256 * p) / 256 == n / 256 % p && n % (256 * p) % 256 == n % 256
  {
    var m, d := n / 256, n % 256;
    var q, r := m / p, m % p;
    assert n == 256 * (p * q + r) + d == (256 * p) * q + (256 * r + d);
    QuotientUnique(n, 256 * p, q, 256 * r + d);
    QuotientUnique(256 * r + d, 256, r, d);
  }

  lemma LaysRemainder(bs: Bytes, n: int, w: nat)
    requires Lays(bs, n % Pow256(w), w)
    ensures Lays(bs, n, w)
  {
    forall i | 0 <= i < w
      ensures bs[i] == ByteOf(n, w, i)
    {
      ByteRemainder(n, w, i);
    }
  }

  lemma {:induction false} PlaceValueSnoc(bs: Bytes, b: byte)
    ensures PlaceValue(bs + [b]) == 256 * PlaceValue(bs) + b
  {
    if bs == [] {
      assert [b][1..] == [];
    } else {
      assert (bs + [b])[1..] == bs[1..] + [b];
      PlaceValueSnoc(bs[1..], b);
      var p := Pow256(|bs| - 1);
      assert bs[0] * (256 * p) == 256 * (bs[0] * p);
    }
  }

  /** Reading gives each byte the power of its place. */
  lemma {:induction false} FromBigIsPlaceValue(bs: Bytes)
    ensures FromBig(bs) == PlaceValue(bs)
  {
    if bs != [] {
      var e := |bs| - 1;
      FromBigIsPlaceValue(bs[..e]);
      PlaceValueSnoc(bs[..e], bs[e]);
      assert bs == bs[..e] + [bs[e]];
    }
  }

  /** Two's complement in `w` bytes. */
  function Wrap(n: int, w: nat): (u: int) {
    if n < 0 then n + Pow256(w) else n
  }

  function Unwrap(u: nat, w: nat): int {
    if 2 * u >= Pow256(w) then u - Pow256(w) else u
  }

  predicate InSigned(n: int, w: nat) {
    -2 * n <= Pow256(w) && 2 * n < Pow256(w)
  }

  lemma WrapFacts(n: int, w: nat)
    requires InSigned(n, w)
    ensures 0 <= Wrap(n, w) < Pow256(w) && Unwrap(Wrap(n, w), w) == n
  {
  }

  lemma UnwrapFacts(u: nat, w: nat)
    requires u < Pow256(w)
    ensures InSigned(Unwrap(u, w), w) && Wrap(Unwrap(u, w), w) == u
  {
  }
}
