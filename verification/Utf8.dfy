// Bytes and UTF-8, with Python's strict decoder and JavaScript's replacing one.
module Utf8 {
  import opened Wrappers

  type Byte = b: int | 0 <= b < 256

  function EncodeChar(c: char): (b: seq<Byte>)
    ensures 1 <= |b| <= 4
  {
    var v := c as int;
    var w := v / 64;
    var x := w / 64;
    if v < 0x80 then [v]
    else if v < 0x800 then [0xC0 + w, 0x80 + v % 64]
    else if v < 0x1_0000 then [0xE0 + x, 0x80 + w % 64, 0x80 + v % 64]
    else [0xF0 + x / 64, 0x80 + x % 64, 0x80 + w % 64, 0x80 + v % 64]
  }

  function Encode(s: string): seq<Byte> {
    if s == [] then [] else EncodeChar(s[0]) + Encode(s[1..])
  }

  predicate Continuation(b: Byte) { 0x80 <= b < 0xC0 }

  /** One decoding step: a character or a malformed sequence, and the bytes it used. */
  datatype Step = Step(decoded: Option<char>, used: nat)

  /** Payload bits of a lead byte, then of a continuation byte appended to them. */
  function Lead(b: Byte, mark: int): int { b - mark }

  function Append(high: int, b: Byte): int { high * 64 + (b as int - 0x80) }

  function DecodeStep(b: seq<Byte>): (r: Step)
    requires b != []
    ensures 1 <= r.used <= |b|
  {
    var lead := b[0];
    var low := if lead == 0xE0 then 0xA0 else if lead == 0xF0 then 0x90 else 0x80;
    var high := if lead == 0xED then 0x9F else if lead == 0xF4 then 0x8F else 0xBF;
    if lead < 0x80 then Step(Some(lead as char), 1)
    else if lead < 0xC2 || lead > 0xF4 || |b| < 2 || b[1] < low || b[1] > high then Step(None, 1)
    else if lead < 0xE0 then Step(Some(Append(Lead(lead, 0xC0), b[1]) as char), 2)
    else if |b| < 3 || !Continuation(b[2]) then Step(None, 2)
    else if lead < 0xF0 then Step(Some(Append(Append(Lead(lead, 0xE0), b[1]), b[2]) as char), 3)
    else if |b| < 4 || !Continuation(b[3]) then Step(None, 3)
    else Step(Some(Append(Append(Append(Lead(lead, 0xF0), b[1]), b[2]), b[3]) as char), 4)
  }

  /** Python's decoder: malformed input is an error. */
  function DecodeStrict(b: seq<Byte>): Option<string>
    decreases |b|
  {
    if b == [] then Some([])
    else
      var step := DecodeStep(b);
      if step.decoded.None? then None
      else
        match DecodeStrict(b[step.used..])
        case None => None
        case Some(s) => Some([step.decoded.value] + s)
  }

  const REPLACEMENT: char := '\U{FFFD}'

  /** Node's decoder: each malformed sequence becomes U+FFFD. */
  function DecodeLenient(b: seq<Byte>): string
    decreases |b|
  {
    if b == [] then []
    else
      var step := DecodeStep(b);
      [if step.decoded.None? then REPLACEMENT else step.decoded.value] + DecodeLenient(b[step.used..])
  }

  lemma StepInvertsEncode(c: char, rest: seq<Byte>)
    ensures DecodeStep(EncodeChar(c) + rest) == Step(Some(c), |EncodeChar(c)|)
  {
    var b, v := EncodeChar(c) + rest, c as int;
    assert forall i :: 0 <= i < |EncodeChar(c)| ==> b[i] == EncodeChar(c)[i];
    var w := v / 64;
    var x := w / 64;
    assert v == w * 64 + v % 64 && w == x * 64 + w % 64 && x == x / 64 * 64 + x % 64;
  }

  lemma JoinDigits(high: nat, low: nat)
    requires low < 64
    ensures (high * 64 + low) / 64 == high && (high * 64 + low) % 64 == low
  {
  }

  lemma StepIsEncoded(b: seq<Byte>)
    requires b != [] && DecodeStep(b).decoded.Some?
    ensures b[..DecodeStep(b).used] == EncodeChar(DecodeStep(b).decoded.value)
  {
    var n := DecodeStep(b).used;
    if n == 2 {
      JoinDigits(Lead(b[0], 0xC0), b[1] as int - 0x80);
    } else if n == 3 {
      var x := Lead(b[0], 0xE0);
      JoinDigits(x, b[1] as int - 0x80);
      JoinDigits(Append(x, b[1]), b[2] as int - 0x80);
    } else if n == 4 {
      var x := Lead(b[0], 0xF0);
      JoinDigits(x, b[1] as int - 0x80);
      JoinDigits(Append(x, b[1]), b[2] as int - 0x80);
      JoinDigits(Append(Append(x, b[1]), b[2]), b[3] as int - 0x80);
    }
  }

  lemma {:induction false} StrictInvertsEncode(s: string)
    ensures DecodeStrict(Encode(s)) == Some(s)
  {
    if s != [] {
      StepInvertsEncode(s[0], Encode(s[1..]));
      assert Encode(s)[|EncodeChar(s[0])|..] == Encode(s[1..]);
      StrictInvertsEncode(s[1..]);
      assert s == [s[0]] + s[1..];
    }
  }

  lemma EncodeCons(c: char, s: string)
    ensures Encode([c] + s) == EncodeChar(c) + Encode(s)
  {
    assert ([c] + s)[1..] == s;
  }

  lemma StrictUnfolds(b: seq<Byte>) returns (c: char, rest: seq<Byte>, s: string)
    requires b != [] && DecodeStrict(b).Some?
    ensures b == EncodeChar(c) + rest && |rest| < |b|
    ensures DecodeStrict(rest) == Some(s) && DecodeStrict(b) == Some([c] + s)
  {
    var step := DecodeStep(b);
    StepIsEncoded(b);
    c, rest := step.decoded.value, b[step.used..];
    s := DecodeStrict(rest).value;
    assert b == b[..step.used] + rest;
  }

  lemma {:induction false} StrictIsEncoded(b: seq<Byte>)
    requires DecodeStrict(b).Some?
    ensures Encode(DecodeStrict(b).value) == b
    decreases |b|
  {
    if b != [] {
      var c, rest, s := StrictUnfolds(b);
      StrictIsEncoded(rest);
      EncodeCons(c, s);
    }
  }

  /** The strict decoder accepts exactly what the encoder writes. */
  lemma StrictIffEncoded(b: seq<Byte>, s: string)
    ensures DecodeStrict(b) == Some(s) <==> Encode(s) == b
  {
    StrictInvertsEncode(s);
    if DecodeStrict(b) == Some(s) { StrictIsEncoded(b); }
  }

  lemma EncodeInjective(s: string, t: string)
    requires Encode(s) == Encode(t)
    ensures s == t
  {
    StrictIffEncoded(Encode(s), s);
    StrictIffEncoded(Encode(s), t);
  }

  lemma LenientStep(c: char, rest: seq<Byte>)
    ensures DecodeLenient(EncodeChar(c) + rest) == [c] + DecodeLenient(rest)
  {
    StepInvertsEncode(c, rest);
    assert (EncodeChar(c) + rest)[|EncodeChar(c)|..] == rest;
  }

  lemma {:induction false} LenientPrefix(s: string, b: seq<Byte>)
    ensures DecodeLenient(Encode(s) + b) == s + DecodeLenient(b)
  {
    if s == [] {
      assert Encode(s) + b == b;
    } else {
      var rest := Encode(s[1..]) + b;
      assert Encode(s) + b == EncodeChar(s[0]) + rest;
      LenientStep(s[0], rest);
      LenientPrefix(s[1..], b);
      assert [s[0]] + (s[1..] + DecodeLenient(b)) == s + DecodeLenient(b);
    }
  }

  lemma LenientInvertsEncode(s: string)
    ensures DecodeLenient(Encode(s)) == s
  {
    LenientPrefix(s, []);
    assert Encode(s) + [] == Encode(s);
  }

  lemma LenientUnfolds(b: seq<Byte>) returns (c: char, rest: seq<Byte>)
    requires b != [] && REPLACEMENT !in DecodeLenient(b)
    ensures b == EncodeChar(c) + rest && |rest| < |b|
    ensures REPLACEMENT !in DecodeLenient(rest) && DecodeLenient(b) == [c] + DecodeLenient(rest)
  {
    var step := DecodeStep(b);
    rest := b[step.used..];
    var s, t := DecodeLenient(b), DecodeLenient(rest);
    assert s[0] in s && s[1..] == t;
    assert forall c :: c in t ==> c in s;
    c := step.decoded.value;
    StepIsEncoded(b);
    assert b == b[..step.used] + rest;
  }

  lemma {:induction false} LenientWithoutReplacement(b: seq<Byte>)
    requires REPLACEMENT !in DecodeLenient(b)
    ensures Encode(DecodeLenient(b)) == b
    decreases |b|
  {
    if b != [] {
      var c, rest := LenientUnfolds(b);
      LenientWithoutReplacement(rest);
      EncodeCons(c, DecodeLenient(rest));
    }
  }

  lemma BadByte(b: seq<Byte>)
    ensures DecodeLenient([0xFF] + b) == [REPLACEMENT] + DecodeLenient(b)
  {
    assert ([0xFF] + b)[1..] == b;
  }

  lemma {:induction false} EncodeJoin(s: string, t: string)
    ensures Encode(s + t) == Encode(s) + Encode(t)
  {
    if s == [] {
      assert s + t == t;
    } else {
      assert (s + t)[1..] == s[1..] + t;
      EncodeJoin(s[1..], t);
    }
  }

  /** One U+FFFD between two texts can also be written as a stray byte. */
  lemma SecondForm(s: string, t: string)
    ensures DecodeLenient(Encode(s) + ([0xFF] + Encode(t))) == s + ([REPLACEMENT] + t)
    ensures Encode(s) + ([0xFF] + Encode(t)) != Encode(s + ([REPLACEMENT] + t))
  {
    BadByte(Encode(t));
    LenientInvertsEncode(t);
    LenientPrefix(s, [0xFF] + Encode(t));
    EncodeJoin(s, [REPLACEMENT] + t);
    var a, b := [0xFF] + Encode(t), Encode([REPLACEMENT] + t);
    assert a[0] == 0xFF && b[0] == 0xEF;
    assert (Encode(s) + a)[|Encode(s)|] == 0xFF && (Encode(s) + b)[|Encode(s)|] == 0xEF;
  }

  ghost predicate OneByteForm(s: string) {
    forall b :: DecodeLenient(b) == s ==> b == Encode(s)
  }

  lemma ReplacementHasTwoForms(s: string, t: string)
    ensures !OneByteForm(s + ([REPLACEMENT] + t))
  {
    var b := Encode(s) + ([0xFF] + Encode(t));
    SecondForm(s, t);
    assert DecodeLenient(b) == s + ([REPLACEMENT] + t);
  }

  /** Which texts have a single byte form under the lenient decoder: those without U+FFFD. */
  lemma LenientUniqueIff(s: string)
    ensures OneByteForm(s) <==> REPLACEMENT !in s
  {
    if REPLACEMENT in s {
      var i :| 0 <= i < |s| && s[i] == REPLACEMENT;
      ReplacementHasTwoForms(s[..i], s[i + 1..]);
      assert s == s[..i] + ([REPLACEMENT] + s[i + 1..]);
    } else {
      forall b | DecodeLenient(b) == s
        ensures b == Encode(s)
      {
        LenientWithoutReplacement(b);
      }
    }
  }
}
