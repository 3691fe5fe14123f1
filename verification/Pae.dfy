// The DSSE v1 pre-authentication encoding.
module Pae {
  import opened Decimal
  import opened Utf8

  /** Pre-authentication encoding of a payload type (already in UTF-8) and a payload. */
  function PreAuth(kind: seq<Byte>, payload: seq<Byte>): seq<Byte> {
    Encode("DSSEv1 ") + (Encode(Digits(|kind|)) + ([0x20] + (kind + ([0x20] +
    (Encode(Digits(|payload|)) + ([0x20] + payload))))))
  }

  lemma {:induction false} DigitBytes(s: string)
    requires AllDigits(s)
    ensures 0x20 !in Encode(s)
  {
    if s != [] { DigitBytes(s[1..]); }
  }

  function FirstSpace(s: seq<Byte>): nat {
    if s == [] || s[0] == 0x20 then 0 else 1 + FirstSpace(s[1..])
  }

  lemma {:induction false} FirstSpaceAfter(a: seq<Byte>, x: seq<Byte>)
    requires 0x20 !in a
    ensures FirstSpace(a + ([0x20] + x)) == |a|
  {
    if a != [] {
      assert (a + ([0x20] + x))[1..] == a[1..] + ([0x20] + x);
      FirstSpaceAfter(a[1..], x);
    }
  }

  lemma SplitAtSpace(a: seq<Byte>, x: seq<Byte>, b: seq<Byte>, y: seq<Byte>)
    requires 0x20 !in a && 0x20 !in b
    requires a + ([0x20] + x) == b + ([0x20] + y)
    ensures a == b && x == y
  {
    FirstSpaceAfter(a, x);
    FirstSpaceAfter(b, y);
    SplitAt(a, [0x20] + x, b, [0x20] + y);
    SplitAt([0x20], x, [0x20], y);
  }

  lemma SplitAt(a: seq<Byte>, x: seq<Byte>, b: seq<Byte>, y: seq<Byte>)
    requires |a| == |b| && a + x == b + y
    ensures a == b && x == y
  {
    assert a == (a + x)[..|a|] && b == (b + y)[..|b|];
    assert x == (a + x)[|a|..] && y == (b + y)[|b|..];
  }

  /** A length-prefixed field can be cut off in one way only. */
  lemma SplitCount(m: nat, x: seq<Byte>, n: nat, y: seq<Byte>)
    requires Encode(Digits(m)) + ([0x20] + x) == Encode(Digits(n)) + ([0x20] + y)
    ensures m == n && x == y
  {
    DigitsRoundTrip(m);
    DigitsRoundTrip(n);
    DigitBytes(Digits(m));
    DigitBytes(Digits(n));
    SplitAtSpace(Encode(Digits(m)), x, Encode(Digits(n)), y);
    EncodeInjective(Digits(m), Digits(n));
    DigitsInjective(m, n);
  }

  /** The encoding determines both of its arguments. */
  lemma PreAuthInjective(k1: seq<Byte>, p1: seq<Byte>, k2: seq<Byte>, p2: seq<Byte>)
    requires PreAuth(k1, p1) == PreAuth(k2, p2)
    ensures k1 == k2 && p1 == p2
  {
    var c1 := Encode(Digits(|p1|)) + ([0x20] + p1);
    var c2 := Encode(Digits(|p2|)) + ([0x20] + p2);
    var b1, b2 := k1 + ([0x20] + c1), k2 + ([0x20] + c2);
    SplitAt(Encode("DSSEv1 "), Encode(Digits(|k1|)) + ([0x20] + b1),
            Encode("DSSEv1 "), Encode(Digits(|k2|)) + ([0x20] + b2));
    SplitCount(|k1|, b1, |k2|, b2);
    SplitAt(k1, [0x20] + c1, k2, [0x20] + c2);
    SplitAt([0x20], c1, [0x20], c2);
    SplitCount(|p1|, p1, |p2|, p2);
  }
}
