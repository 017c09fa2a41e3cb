/** Bytes, machine words and little-endian integers, shared by every codec. */
module Bytes {

  type byte = b: nat | b < 256

  const TWO32: nat := 0x1_0000_0000
  const TWO64: nat := 0x1_0000_0000_0000_0000

  type u64 = n: nat | n < TWO64

  datatype Option<+T> = None | Some(value: T)

  datatype Result<+T> = Ok(value: T) | Err

  function Zeros(n: nat): (r: seq<byte>)
    ensures |r| == n
  {
    if n == 0 then [] else Zeros(n - 1) + [0]
  }

  function Pow256(k: nat): (p: nat)
    ensures p > 0
  {
    if k == 0 then 1 else 256 * Pow256(k - 1)
  }

  function Digit(n: nat, i: nat): byte {
    if i == 0 then n % 256 else Digit(n / 256, i - 1)
  }

  /** The low `k` bytes of `n`, least significant first; higher bytes are cut off. */
  function LE(n: nat, k: nat): (s: seq<byte>)
    ensures |s| == k
  {
    seq(k, i requires 0 <= i < k => Digit(n, i))
  }

  function FromLE(s: seq<byte>): nat {
    if s == [] then 0 else s[0] + 256 * FromLE(s[1..])
  }

  lemma {:induction false} FromLEBound(s: seq<byte>)
    ensures FromLE(s) < Pow256(|s|)
  {
    if s != [] {
      FromLEBound(s[1..]);
    }
  }

  /** Writing then reading keeps the value, modulo the width. */
  lemma {:induction false} FromLEOfLE(n: nat, k: nat)
    ensures FromLE(LE(n, k)) == n % Pow256(k)
  {
    if k > 0 {
      FromLEOfLE(n / 256, k - 1);
      var p := Pow256(k - 1);
      assert LE(n, k)[1..] == LE(n / 256, k - 1);
      ModSplit(n, p);
    }
  }

  lemma ModSplit(n: nat, p: nat)
    requires p > 0
    ensures n % (256 * p) == n % 256 + 256 * ((n / 256) % p)
  {
    var q := (n / 256) / p;
    var r := n % 256 + 256 * ((n / 256) % p);
    assert n == 256 * (q * p + (n / 256) % p) + n % 256;
    assert n == q * (256 * p) + r;
    ModUnique(n, 256 * p, q, r);
  }

  lemma MulAtLeast(d: int, m: nat)
    requires d >= 1
    ensures d * m >= m
  {
  }

  lemma ModUnique(n: nat, m: nat, q: nat, r: nat)
    requires m > 0 && n == q * m + r && r < m
    ensures n % m == r
  {
    var q', r' := n / m, n % m;
    var d := q' - q;
    assert d * m == r - r';
    if d >= 1 {
      MulAtLeast(d, m);
    } else if d <= -1 {
      MulAtLeast(-d, m);
    }
  }

  /** Reading then writing keeps the bytes. */
  lemma {:induction false} LEOfFromLE(s: seq<byte>)
    ensures LE(FromLE(s), |s|) == s
  {
    if s != [] {
      LEOfFromLE(s[1..]);
      var n := FromLE(s);
      assert n % 256 == s[0] && n / 256 == FromLE(s[1..]);
      assert LE(n, |s|) == [n % 256] + LE(n / 256, |s| - 1);
    }
  }

  lemma Pow256Words()
    ensures Pow256(4) == TWO32
    ensures Pow256(8) == TWO64
  {
    assert Pow256(4) == 256 * Pow256(3) == 65536 * Pow256(2) == 16777216 * Pow256(1);
    assert Pow256(8) == 256 * Pow256(7) == 65536 * Pow256(6) == 16777216 * Pow256(5) == TWO32 * Pow256(4);
  }

  function Uint32(s: seq<byte>): (n: nat)
    requires |s| == 4
    ensures n < TWO32
  {
    Pow256Words();
    FromLEBound(s);
    FromLE(s)
  }

  function Uint64(s: seq<byte>): (n: u64)
    requires |s| == 8
  {
    Pow256Words();
    FromLEBound(s);
    FromLE(s)
  }

  lemma Uint32Exact(n: nat, s: seq<byte>)
    requires |s| == 4
    ensures LE(n, 4) == s <==> n % TWO32 == Uint32(s)
  {
    Pow256Words();
    FromLEOfLE(n, 4);
    LEOfFromLE(s);
    if n % TWO32 == Uint32(s) {
      LEOfFromLE(LE(n, 4));
    }
  }

  lemma Uint64Exact(n: u64, s: seq<byte>)
    requires |s| == 8
    ensures LE(n, 8) == s <==> n == Uint64(s)
  {
    Pow256Words();
    FromLEOfLE(n, 8);
    LEOfFromLE(s);
  }
}
