/**
 The parts of the Postcard wire format the messages use: varint-encoded
 integers, length-prefixed byte strings and one-byte tags. A reader returns
 what it read and the bytes left over.
 */
module Postcard {
  import opened Bytes

  datatype Parsed<+T> = Malformed | Got(value: T, rest: seq<byte>) {
    predicate IsFailure() {
      Malformed?
    }

    function PropagateFailure<U>(): Parsed<U>
      requires Malformed?
    {
      Malformed
    }

    function Extract(): (T, seq<byte>)
      requires Got?
    {
      (value, rest)
    }
  }

  // ----- varints -----

  /** Seven bits a byte, least significant first, the top bit set on all but the last. */
  function Varint(n: nat): (r: seq<byte>)
    ensures |r| >= 1
  {
    if n < 0x80 then [n] else [n % 0x80 + 0x80] + Varint(n / 0x80)
  }

  /** At most `left` bytes; the last of a full-length one may not exceed `lastMax`. */
  function ReadVarint(b: seq<byte>, left: nat, lastMax: nat): (r: Parsed<nat>)
    ensures r.Got? ==> |r.rest| < |b|
  {
    if left == 0 || b == [] then Malformed
    else if b[0] < 0x80 then
      if left == 1 && b[0] > lastMax then Malformed else Got(b[0], b[1..])
    else
      var (high, rest) :- ReadVarint(b[1..], left - 1, lastMax);
      Got(b[0] - 0x80 + 0x80 * high, rest)
  }

  function VarintBound(left: nat, lastMax: nat): nat {
    if left == 0 then 0 else if left == 1 then lastMax + 1 else 0x80 * VarintBound(left - 1, lastMax)
  }

  lemma {:induction false} VarintBoundPositive(left: nat, lastMax: nat)
    requires left > 0
    ensures VarintBound(left, lastMax) > 0
  {
    if left > 1 {
      VarintBoundPositive(left - 1, lastMax);
    }
  }

  /** A reader of `left` bytes overflows nothing of that width. */
  lemma {:induction false} ReadVarintBounded(b: seq<byte>, left: nat, lastMax: nat)
    requires ReadVarint(b, left, lastMax).Got? && lastMax < 0x80
    ensures ReadVarint(b, left, lastMax).value < VarintBound(left, lastMax)
  {
    if left > 1 {
      VarintBoundPositive(left - 1, lastMax);
      if b[0] >= 0x80 {
        ReadVarintBounded(b[1..], left - 1, lastMax);
      }
    }
  }

  lemma VarintTail(n: nat, x: seq<byte>)
    requires n >= 0x80
    ensures (Varint(n) + x)[1..] == Varint(n / 0x80) + x
  {
    var tail := Varint(n / 0x80);
    assert Varint(n) == [n % 0x80 + 0x80] + tail;
    assert (([n % 0x80 + 0x80] + tail) + x)[1..] == tail + x;
  }

  /** A byte with the top bit set goes below what the rest reads as. */
  lemma ReadVarintOn(b: seq<byte>, left: nat, lastMax: nat, high: nat, rest: seq<byte>)
    requires left > 0 && b != [] && b[0] >= 0x80 && ReadVarint(b[1..], left - 1, lastMax) == Got(high, rest)
    ensures ReadVarint(b, left, lastMax) == Got(b[0] - 0x80 + 0x80 * high, rest)
  {
  }

  lemma HighPartInBound(n: nat, left: nat, lastMax: nat)
    requires 0x80 <= n < VarintBound(left, lastMax) && lastMax < 0x80
    ensures left > 1 && n / 0x80 < VarintBound(left - 1, lastMax)
  {
  }

  lemma {:induction false} VarintRoundTrip(n: nat, left: nat, lastMax: nat, rest: seq<byte>)
    requires n < VarintBound(left, lastMax) && lastMax < 0x80
    ensures ReadVarint(Varint(n) + rest, left, lastMax) == Got(n, rest)
  {
    var b := Varint(n) + rest;
    if n < 0x80 {
      assert b[1..] == rest;
    } else {
      var high := n / 0x80;
      HighPartInBound(n, left, lastMax);
      VarintTail(n, rest);
      VarintRoundTrip(high, left - 1, lastMax, rest);
      ReadVarintOn(b, left, lastMax, high, rest);
      assert n == n % 0x80 + 0x80 * high;
    }
  }

  /** A varint ends itself: no continuation can turn one number into another. */
  lemma {:induction false} VarintPrefixFree(m: nat, x: seq<byte>, n: nat, y: seq<byte>)
    requires Varint(m) + x == Varint(n) + y
    ensures m == n && x == y
  {
    var b := Varint(m) + x;
    assert b[0] == Varint(m)[0] == Varint(n)[0];
    assert (m < 0x80) == (n < 0x80);
    if m < 0x80 {
      assert b == [m] + x == [n] + y;
      SplitEqual([m], x, [n], y);
    } else {
      assert m % 0x80 == n % 0x80;
      VarintTail(m, x);
      VarintTail(n, y);
      VarintPrefixFree(m / 0x80, x, n / 0x80, y);
    }
  }
}
