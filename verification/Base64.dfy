// Standard base64 with padding (section 4 of RFC 4648).
module Base64 {
  import opened Wrappers
  import opened Utf8

  type Sextet = v: int | 0 <= v < 64

  function Symbol(v: Sextet): char {
    if v < 26 then ('A' as int + v) as char
    else if v < 52 then ('a' as int + v - 26) as char
    else if v < 62 then ('0' as int + v - 52) as char
    else if v == 62 then '+'
    else '/'
  }

  /** The value of an alphabet character, or 64. */
  function SymbolValue(c: char): (v: int)
    ensures 0 <= v <= 64
    ensures v < 64 ==> Symbol(v) == c
  {
    if 'A' <= c <= 'Z' then c as int - 'A' as int
    else if 'a' <= c <= 'z' then c as int - 'a' as int + 26
    else if '0' <= c <= '9' then c as int - '0' as int + 52
    else if c == '+' then 62
    else if c == '/' then 63
    else 64
  }

  function Encode(b: seq<Byte>): string {
    if b == [] then []
    else if |b| == 1 then [Symbol(b[0] / 4), Symbol(b[0] % 4 * 16), '=', '=']
    else if |b| == 2 then [Symbol(b[0] / 4), Symbol(b[0] % 4 * 16 + b[1] / 16), Symbol(b[1] % 16 * 4), '=']
    else
      [Symbol(b[0] / 4), Symbol(b[0] % 4 * 16 + b[1] / 16), Symbol(b[1] % 16 * 4 + b[2] / 64), Symbol(b[2] % 64)]
      + Encode(b[3..])
  }

  /** The library decoder: rejects foreign characters and bad padding, drops spare bits. */
  function Decode(s: string): Option<seq<Byte>> {
    if s == [] then Some([])
    else if |s| < 4 then None
    else
      var p, q := SymbolValue(s[0]), SymbolValue(s[1]);
      var r, t := SymbolValue(s[2]), SymbolValue(s[3]);
      if p == 64 || q == 64 then None
      else if |s| == 4 && s[2] == '=' && s[3] == '=' then Some([p * 4 + q / 16])
      else if r == 64 then None
      else if |s| == 4 && s[3] == '=' then Some([p * 4 + q / 16, q % 16 * 16 + r / 4])
      else if t == 64 then None
      else
        match Decode(s[4..])
        case None => None
        case Some(rest) => Some([p * 4 + q / 16, q % 16 * 16 + r / 4, r % 4 * 64 + t] + rest)
  }

  /** The re-encoding test of both implementations. */
  function DecodeCanonical(s: string): Option<seq<Byte>> {
    match Decode(s)
    case None => None
    case Some(b) => if Encode(b) == s then Some(b) else None
  }

  lemma SymbolRoundTrip(v: Sextet)
    ensures SymbolValue(Symbol(v)) == v
    ensures Symbol(v) != '='
  {
  }

  lemma Regroup(x: Byte, y: Byte, z: Byte)
    ensures x / 4 * 4 + (x % 4 * 16 + y / 16) / 16 == x
    ensures (x % 4 * 16 + y / 16) % 16 * 16 + (y % 16 * 4 + z / 64) / 4 == y
    ensures (y % 16 * 4 + z / 64) % 4 * 64 + z % 64 == z
  {
    assert (x % 4 * 16 + y / 16) / 16 == x % 4 && (x % 4 * 16 + y / 16) % 16 == y / 16;
    assert (y % 16 * 4 + z / 64) / 4 == y % 16 && (y % 16 * 4 + z / 64) % 4 == z / 64;
  }

  lemma DecodeGroup(x: Byte, y: Byte, z: Byte, rest: string)
    ensures Decode([Symbol(x / 4), Symbol(x % 4 * 16 + y / 16), Symbol(y % 16 * 4 + z / 64), Symbol(z % 64)] + rest) ==
            match Decode(rest)
            case None => None
            case Some(b) => Some([x, y, z] + b)
  {
    Regroup(x, y, z);
    SymbolRoundTrip(x / 4);
    SymbolRoundTrip(x % 4 * 16 + y / 16);
    SymbolRoundTrip(y % 16 * 4 + z / 64);
    SymbolRoundTrip(z % 64);
    var group := [Symbol(x / 4), Symbol(x % 4 * 16 + y / 16), Symbol(y % 16 * 4 + z / 64), Symbol(z % 64)];
    assert (group + rest)[4..] == rest;
  }

  lemma DecodeOne(x: Byte)
    ensures Decode(Encode([x])) == Some([x])
  {
    Regroup(x, 0, 0);
    SymbolRoundTrip(x / 4);
    SymbolRoundTrip(x % 4 * 16);
  }

  lemma DecodePair(p: Sextet, q: Sextet, r: Sextet)
    ensures Decode([Symbol(p), Symbol(q), Symbol(r), '=']) == Some([p * 4 + q / 16, q % 16 * 16 + r / 4])
  {
    SymbolRoundTrip(p);
    SymbolRoundTrip(q);
    SymbolRoundTrip(r);
  }

  lemma DecodeTwo(x: Byte, y: Byte)
    ensures Decode(Encode([x, y])) == Some([x, y])
  {
    var p, q, r := x / 4, x % 4 * 16 + y / 16, y % 16 * 4;
    Regroup(x, y, 0);
    assert p * 4 + q / 16 == x && q % 16 * 16 + r / 4 == y;
    DecodePair(p, q, r);
  }

  lemma EncodeGroup(x: Byte, y: Byte, z: Byte, b: seq<Byte>)
    ensures Encode([x, y, z] + b) ==
            [Symbol(x / 4), Symbol(x % 4 * 16 + y / 16), Symbol(y % 16 * 4 + z / 64), Symbol(z % 64)] + Encode(b)
  {
    assert ([x, y, z] + b)[3..] == b;
  }

  lemma GroupRoundTrip(x: Byte, y: Byte, z: Byte, b: seq<Byte>)
    requires Decode(Encode(b)) == Some(b)
    ensures Decode(Encode([x, y, z] + b)) == Some([x, y, z] + b)
  {
    EncodeGroup(x, y, z, b);
    DecodeGroup(x, y, z, Encode(b));
  }

  lemma {:induction false} DecodeInvertsEncode(b: seq<Byte>)
    ensures Decode(Encode(b)) == Some(b)
  {
    if |b| == 1 {
      DecodeOne(b[0]);
      assert b == [b[0]];
    } else if |b| == 2 {
      DecodeTwo(b[0], b[1]);
      assert b == [b[0], b[1]];
    } else if |b| > 2 {
      DecodeInvertsEncode(b[3..]);
      GroupRoundTrip(b[0], b[1], b[2], b[3..]);
      assert b == [b[0], b[1], b[2]] + b[3..];
    }
  }

  /** Canonical decoding accepts exactly the encoder's outputs. */
  lemma CanonicalIffEncoded(s: string, b: seq<Byte>)
    ensures DecodeCanonical(s) == Some(b) <==> Encode(b) == s
  {
    DecodeInvertsEncode(b);
  }

  /** The re-encoding test is needed: the library decoder alone accepts spare bits. */
  lemma SpareBitsDecode()
    ensures Decode("AB==") == Some([0]) && DecodeCanonical("AB==") == None
  {
    assert Encode([0]) == "AA==";
  }
}
