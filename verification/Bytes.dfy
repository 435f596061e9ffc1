/**
 Machine words, keys and text as the wire and the tables see them, and the
 fixed-width integer encoding the signed transcripts use.
 */
module Bytes {

  type byte = b: nat | b < 0x100

  /** A `[u8; 32]`: an endpoint id, a room id, a hash. */
  type Key = k: seq<byte> | |k| == 32 witness Zeros(32)

  /** A `String`, as its UTF-8 bytes; comparing strings compares these. */
  type Text = seq<byte>

  const TWO_63: int := 0x8000_0000_0000_0000
  const TWO_64: int := 0x1_0000_0000_0000_0000

  type u64 = n: nat | n < TWO_64
  type i64 = n: int | -TWO_63 <= n < TWO_63

  function Zeros(n: nat): seq<byte> {
    seq(n, i => 0)
  }

  /** A byte-string literal. */
  function Ascii(s: string): (r: seq<byte>)
    ensures |r| == |s| && forall i :: 0 <= i < |s| ==> r[i] == s[i] as int % 0x100
  {
    seq(|s|, i requires 0 <= i < |s| => s[i] as int % 0x100)
  }

  /** `n as i64`: the same 64 bits, read as signed. */
  function AsI64(n: u64): i64 {
    if n < TWO_63 then n else n - TWO_64
  }

  function LittleEndian(n: nat, width: nat): (r: seq<byte>)
    ensures |r| == width
  {
    if width == 0 then [] else [n % 0x100] + LittleEndian(n / 0x100, width - 1)
  }

  function FromLittleEndian(b: seq<byte>): nat {
    if b == [] then 0 else b[0] + 0x100 * FromLittleEndian(b[1..])
  }

  function Pow256(width: nat): (p: nat)
    ensures p > 0
  {
    if width == 0 then 1 else 0x100 * Pow256(width - 1)
  }

  /** The k-th byte is the k-th digit to the base 256, the lowest first. */
  lemma {:induction false} LittleEndianDigits(n: nat, width: nat, k: nat)
    requires k < width
    ensures LittleEndian(n, width)[k] == n / Pow256(k) % 0x100
  {
    if k > 0 {
      LittleEndianDigits(n / 0x100, width - 1, k - 1);
      DivideTwice(n, Pow256(k - 1));
    }
  }

  lemma DivideTwice(n: nat, p: nat)
    requires p > 0
    ensures n / 0x100 / p == n / (0x100 * p)
  {
    var d, q := 0x100 * p, n / 0x100 / p;
    var rest := 0x100 * (n / 0x100 % p) + n % 0x100;
    assert n == d * q + rest;
    assert d * (n / d - q) == rest - n % d;
    OnlyMultiple(d, n / d - q);
  }

  lemma OnlyMultiple(d: int, k: int)
    requires -d < d * k < d
    ensures k == 0
  {
  }

  lemma {:induction false} LittleEndianRoundTrip(n: nat, width: nat)
    requires n < Pow256(width)
    ensures FromLittleEndian(LittleEndian(n, width)) == n
  {
    if width > 0 {
      LittleEndianRoundTrip(n / 0x100, width - 1);
    }
  }

  function U64Bytes(n: u64): (r: seq<byte>)
    ensures |r| == 8
  {
    LittleEndian(n, 8)
  }

  lemma U64BytesInjective(a: u64, b: u64)
    requires U64Bytes(a) == U64Bytes(b)
    ensures a == b
  {
    assert Pow256(8) == TWO_64;
    LittleEndianRoundTrip(a, 8);
    LittleEndianRoundTrip(b, 8);
  }

  lemma Associate(a: seq<byte>, b: seq<byte>, c: seq<byte>)
    ensures (a + b) + c == a + (b + c)
  {
  }

  /** Splitting two equal byte strings after equally long heads. */
  lemma SplitEqual(a: seq<byte>, x: seq<byte>, b: seq<byte>, y: seq<byte>)
    requires a + x == b + y && |a| == |b|
    ensures a == b && x == y
  {
    assert a == (a + x)[..|a|] && b == (b + y)[..|b|];
    assert x == (a + x)[|a|..] && y == (b + y)[|b|..];
  }

  /** `str::cmp`: byte-wise, a proper prefix first. */
  predicate Less(a: Text, b: Text) {
    b != [] && (a == [] || a[0] < b[0] || (a[0] == b[0] && Less(a[1..], b[1..])))
  }

  /** At the first place they differ the smaller byte decides; a proper prefix comes first. */
  lemma {:induction false} LessIff(a: Text, b: Text, n: nat)
    requires n <= |a| && n <= |b| && a[..n] == b[..n]
    requires n < |a| && n < |b| ==> a[n] != b[n]
    ensures Less(a, b) <==> n < |b| && (n == |a| || a[n] < b[n])
  {
    if n > 0 {
      assert a[0] == a[..n][0] == b[..n][0] == b[0];
      assert a[1..][..n - 1] == a[..n][1..] && b[1..][..n - 1] == b[..n][1..];
      LessIff(a[1..], b[1..], n - 1);
    }
  }

  lemma {:induction false} LessTotal(a: Text, b: Text)
    ensures a == b || Less(a, b) || Less(b, a)
  {
    if a != [] && b != [] && a[0] == b[0] {
      LessTotal(a[1..], b[1..]);
      assert a == [a[0]] + a[1..] && b == [b[0]] + b[1..];
    }
  }

  lemma LessTransitive(a: Text, b: Text, c: Text)
    requires Less(a, b) && Less(b, c)
    ensures Less(a, c)
  {
  }

  lemma LessIrreflexive(a: Text)
    ensures !Less(a, a)
  {
  }
}
