/** Byte strings and the fixed-width encodings Python's struct module writes. */
module Bytes {

  newtype byte = x: int | 0 <= x < 256

  type Bytes = seq<byte>

  function Pow256(w: nat): (p: nat)
    ensures p >= 1
  {
    if w == 0 then 1 else 256 * Pow256(w - 1)
  }

  /** `n` as `w` bytes, most significant first. */
  function BE(n: nat, w: nat): (b: Bytes)
    requires n < Pow256(w)
    ensures |b| == w
  {
    if w == 0 then [] else BE(n / 256, w - 1) + [(n % 256) as byte]
  }

  function FromBE(b: Bytes): (n: nat)
    ensures n < Pow256(|b|)
  {
    if b == [] then 0 else 256 * FromBE(b[..|b| - 1]) + b[|b| - 1] as nat
  }

  lemma {:induction false} DecodeBE(n: nat, w: nat)
    requires n < Pow256(w)
    ensures FromBE(BE(n, w)) == n
  {
    if w > 0 {
      DecodeBE(n / 256, w - 1);
      assert BE(n, w)[..w - 1] == BE(n / 256, w - 1);
    }
  }

  lemma {:induction false} EncodeBE(b: Bytes)
    ensures BE(FromBE(b), |b|) == b
  {
    if b != [] {
      var high, low := FromBE(b[..|b| - 1]), b[|b| - 1] as nat;
      EncodeBE(b[..|b| - 1]);
      assert (256 * high + low) / 256 == high && (256 * high + low) % 256 == low;
    }
  }

  /** Order of byte strings as Python compares bytes, for strings of one length. */
  predicate LexLess(a: Bytes, b: Bytes)
    requires |a| == |b|
  {
    a != [] && (a[0] < b[0] || (a[0] == b[0] && LexLess(a[1..], b[1..])))
  }

  lemma {:induction false} LexLessAtEnd(a: Bytes, b: Bytes, x: byte, y: byte)
    requires |a| == |b| && (LexLess(a, b) || (a == b && x < y))
    ensures LexLess(a + [x], b + [y])
  {
    if a != [] {
      if a[0] == b[0] {
        LexLessAtEnd(a[1..], b[1..], x, y);
      }
      assert (a + [x])[1..] == a[1..] + [x] && (b + [y])[1..] == b[1..] + [y];
    }
  }

  lemma {:induction false} LexLessAfterPrefix(p: Bytes, a: Bytes, b: Bytes)
    requires |a| == |b| && LexLess(a, b)
    ensures LexLess(p + a, p + b)
  {
    if p == [] {
      assert p + a == a && p + b == b;
    } else {
      LexLessAfterPrefix(p[1..], a, b);
      assert (p + a)[1..] == p[1..] + a && (p + b)[1..] == p[1..] + b;
    }
  }

  /** Big-endian encoding is strictly monotone. */
  lemma {:induction false} MonotoneBE(m: nat, n: nat, w: nat)
    requires m < n < Pow256(w)
    ensures LexLess(BE(m, w), BE(n, w))
  {
    if w > 0 {
      if m / 256 < n / 256 {
        MonotoneBE(m / 256, n / 256, w - 1);
      }
      LexLessAtEnd(BE(m / 256, w - 1), BE(n / 256, w - 1), (m % 256) as byte, (n % 256) as byte);
    }
  }

  function Zeros(n: nat): (z: Bytes)
    ensures |z| == n && forall i :: 0 <= i < n ==> z[i] == 0
  {
    seq(n, _ => 0)
  }

  /** b.ljust(w, NUL)[:w] */
  function Padded(b: Bytes, w: nat): (p: Bytes)
    ensures |p| == w
  {
    if |b| >= w then b[..w] else b + Zeros(w - |b|)
  }

  /** b.rstrip(NUL) */
  function Stripped(b: Bytes): (s: Bytes)
    ensures |s| <= |b| && s == b[..|s|]
    ensures s == [] || s[|s| - 1] != 0
    ensures forall i :: |s| <= i < |b| ==> b[i] == 0
  {
    if b != [] && b[|b| - 1] == 0 then Stripped(b[..|b| - 1]) else b
  }

  /** A text field of width w comes back exactly when it fits and does not end in NUL. */
  lemma StripsBack(b: Bytes, w: nat)
    ensures Stripped(Padded(b, w)) == b <==> |b| <= w && (b == [] || b[|b| - 1] != 0)
  {
    var p := Padded(b, w);
    var s := Stripped(p);
    if |b| <= w && (b == [] || b[|b| - 1] != 0) {
      assert p[..|b|] == b;
      assert b != [] ==> p[|b| - 1] == b[|b| - 1];
      assert s != [] ==> s[|s| - 1] == p[|s| - 1];
    }
  }
}
