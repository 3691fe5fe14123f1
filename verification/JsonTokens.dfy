// The pieces a JSON text is made of: how the serializer spells them and how a
// permissive RFC 8259 reader recognises them (white space, every escape).
// Fractions and exponents are not read: the signing profile rejects them.
module JsonTokens {
  import opened Decimal
  import opened Json

  datatype Read<+T, +S> = Fail | Ok(value: T, rest: S)

  /** Punctuation, or a null, boolean, integer or string. */
  datatype Token = Punct(mark: char) | Atom(doc: Doc)

  predicate Scalar(d: Doc) { !d.DArr? && !d.DObj? }

  predicate Mark(c: char) { c in {'[', ']', '{', '}', ',', ':'} }

  predicate WellFormed(t: Token) {
    match t case Punct(c) => Mark(c) case Atom(d) => Scalar(d)
  }

  // ---------- spelling ----------

  function HexDigit(d: nat): char
    requires d < 16
  {
    if d < 10 then ('0' as int + d) as char else ('a' as int + d - 10) as char
  }

  function EscapeChar(c: char): (s: string) {
    match c
    case '\"' => "\\\""
    case '\\' => "\\\\"
    case '\n' => "\\n"
    case '\r' => "\\r"
    case '\t' => "\\t"
    case '\U{0008}' => "\\b"
    case '\U{000C}' => "\\f"
    case _ =>
      var v := c as int;
      if v < 0x20 then "\\u00" + [HexDigit(v / 16), HexDigit(v % 16)] else [c]
  }

  function EscapeAll(s: string): string {
    if s == [] then [] else EscapeChar(s[0]) + EscapeAll(s[1..])
  }

  function PrintString(s: string): string { "\"" + EscapeAll(s) + "\"" }

  function PrintInt(n: int): string { if n < 0 then "-" + Digits(-n) else Digits(n) }

  function Spelling(t: Token): string
    requires WellFormed(t)
  {
    match t
    case Punct(c) => [c]
    case Atom(DNull) => "null"
    case Atom(DBool(b)) => if b then "true" else "false"
    case Atom(DNum(n)) => PrintInt(n)
    case Atom(DStr(s)) => PrintString(s)
  }

  predicate AllWellFormed(ts: seq<Token>) { forall i :: 0 <= i < |ts| ==> WellFormed(ts[i]) }

  function Spell(ts: seq<Token>): string
    requires AllWellFormed(ts)
  {
    if ts == [] then "" else Spelling(ts[0]) + Spell(ts[1..])
  }

  // ---------- reading ----------

  predicate IsSpace(c: char) { c == ' ' || c == '\t' || c == '\n' || c == '\r' }

  /** Value of a hexadecimal digit in either case, or 16. */
  function HexValue(c: char): (v: nat)
    ensures v <= 16
  {
    if '0' <= c <= '9' then c as int - '0' as int
    else if 'a' <= c <= 'f' then c as int - 'a' as int + 10
    else if 'A' <= c <= 'F' then c as int - 'A' as int + 10
    else 16
  }

  predicate FourHex(s: string) {
    |s| >= 4 && forall i :: 0 <= i < 4 ==> HexValue(s[i]) < 16
  }

  function CodeUnit(s: string): (v: nat)
    requires FourHex(s)
    ensures v < 0x1_0000
  {
    HexValue(s[0]) * 0x1000 + HexValue(s[1]) * 0x100 + HexValue(s[2]) * 0x10 + HexValue(s[3])
  }

  /** The escape after `\u`; a lone surrogate denotes no character. */
  function ReadUnicode(s: string): (r: Read<char, string>)
    ensures r.Ok? ==> |r.rest| < |s|
  {
    if !FourHex(s) then Fail
    else
      var v := CodeUnit(s);
      if v < 0xD800 || v >= 0xE000 then Ok(v as char, s[4..])
      else if v < 0xDC00 && |s| >= 10 && s[4] == '\\' && s[5] == 'u' && FourHex(s[6..]) then
        var w := CodeUnit(s[6..]);
        if 0xDC00 <= w < 0xE000 then
          Ok((0x1_0000 + (v - 0xD800) * 0x400 + (w - 0xDC00)) as char, s[10..])
        else Fail
      else Fail
  }

  function ReadChar(s: string): (r: Read<char, string>)
    requires s != []
    ensures r.Ok? ==> |r.rest| < |s|
  {
    if s[0] as int < 0x20 then Fail
    else if s[0] != '\\' then Ok(s[0], s[1..])
    else if |s| < 2 then Fail
    else match s[1]
      case '\"' => Ok('\"', s[2..])
      case '\\' => Ok('\\', s[2..])
      case '/' => Ok('/', s[2..])
      case 'b' => Ok('\U{0008}', s[2..])
      case 'f' => Ok('\U{000C}', s[2..])
      case 'n' => Ok('\n', s[2..])
      case 'r' => Ok('\r', s[2..])
      case 't' => Ok('\t', s[2..])
      case 'u' => ReadUnicode(s[2..])
      case _ => Fail
  }

  /** Characters up to the closing quote. */
  function ReadChars(s: string): (r: Read<string, string>)
    ensures r.Ok? ==> |r.rest| < |s|
    decreases |s|
  {
    if s == [] then Fail
    else if s[0] == '\"' then Ok("", s[1..])
    else match ReadChar(s)
      case Fail => Fail
      case Ok(c, rest) =>
        match ReadChars(rest)
        case Fail => Fail
        case Ok(cs, rest') => Ok([c] + cs, rest')
  }

  function ReadInt(s: string): (r: Read<int, string>)
    ensures r.Ok? ==> |r.rest| < |s|
  {
    var negative := s != [] && s[0] == '-';
    var t := if negative then s[1..] else s;
    if t == [] || !IsDigit(t[0]) then Fail
    else
      var n := if t[0] == '0' then 1 else DigitRun(t);
      var rest := t[n..];
      if rest != [] && rest[0] in {'.', 'e', 'E'} then Fail
      else
        var k: int := NumberOf(t[..n]);
        Ok(if negative then -k else k, rest)
  }

  function ReadWord(s: string, word: string, d: Doc): (r: Read<Token, string>)
    requires word != [] && Scalar(d)
    ensures r.Ok? ==> |r.rest| < |s| && WellFormed(r.value)
  {
    if word <= s then Ok(Atom(d), s[|word|..]) else Fail
  }

  function ReadToken(s: string): (r: Read<Token, string>)
    requires s != []
    ensures r.Ok? ==> |r.rest| < |s| && WellFormed(r.value)
  {
    if Mark(s[0]) then Ok(Punct(s[0]), s[1..])
    else if s[0] == '\"' then
      match ReadChars(s[1..]) case Fail => Fail case Ok(cs, rest) => Ok(Atom(DStr(cs)), rest)
    else if s[0] == 'n' then ReadWord(s, "null", DNull)
    else if s[0] == 't' then ReadWord(s, "true", DBool(true))
    else if s[0] == 'f' then ReadWord(s, "false", DBool(false))
    else
      match ReadInt(s) case Fail => Fail case Ok(n, rest) => Ok(Atom(DNum(n)), rest)
  }

  function Lex(s: string): (r: Read<seq<Token>, string>)
    ensures r.Ok? ==> AllWellFormed(r.value)
    decreases |s|
  {
    if s == [] then Ok([], [])
    else if IsSpace(s[0]) then Lex(s[1..])
    else match ReadToken(s)
      case Fail => Fail
      case Ok(t, rest) =>
        match Lex(rest)
        case Fail => Fail
        case Ok(ts, _) => Ok([t] + ts, [])
  }

  /** White space before a token changes nothing. */
  lemma SpaceIgnored(c: char, s: string)
    requires c in " \t\n\r"
    ensures Lex([c] + s) == Lex(s)
  {
    assert ([c] + s)[1..] == s;
  }

  /** A hexadecimal digit has one value in either case. */
  lemma HexEitherCase(d: nat)
    requires d < 16
    ensures HexValue("0123456789abcdef"[d]) == d && HexValue("0123456789ABCDEF"[d]) == d
  {
  }

  // ---------- reading back what was spelled ----------

  /** An integer must be followed by punctuation or by the end of the text. */
  predicate Delimited(rest: string) { rest == [] || Mark(rest[0]) }

  lemma ReadEscapedChar(c: char, rest: string)
    ensures EscapeChar(c) != [] && EscapeChar(c)[0] != '\"'
    ensures ReadChar(EscapeChar(c) + rest) == Ok(c, rest)
  {
    var s := EscapeChar(c) + rest;
    var v := c as int;
    if |EscapeChar(c)| == 1 {
      assert s[1..] == rest;
    } else if |EscapeChar(c)| == 2 {
      assert s[2..] == rest;
    } else {
      assert v < 0x20;
      assert HexValue(HexDigit(v / 16)) == v / 16 && HexValue(HexDigit(v % 16)) == v % 16;
      var t := s[2..];
      assert t == ['0', '0', HexDigit(v / 16), HexDigit(v % 16)] + rest;
      assert FourHex(t) && CodeUnit(t) == v && t[4..] == rest;
    }
  }

  lemma ReadCharsStep(t: string, c: char, u: string)
    requires t != [] && t[0] != '\"' && ReadChar(t) == Ok(c, u)
    ensures ReadChars(t) ==
            match ReadChars(u) { case Fail => Fail case Ok(cs, rest) => Ok([c] + cs, rest) }
  {
  }

  lemma {:induction false} ReadPrintedChars(s: string, rest: string)
    ensures ReadChars(EscapeAll(s) + "\"" + rest) == Ok(s, rest)
  {
    var t := EscapeAll(s) + "\"" + rest;
    if s == [] {
      assert t[1..] == rest;
    } else {
      var u := EscapeAll(s[1..]) + "\"" + rest;
      ReadEscapedChar(s[0], u);
      ReadCharsStep(EscapeChar(s[0]) + u, s[0], u);
      assert t == EscapeChar(s[0]) + u;
      ReadPrintedChars(s[1..], rest);
      assert s == [s[0]] + s[1..];
    }
  }

  lemma ReadDigits(digits: string, rest: string)
    requires Numeral(digits) && Delimited(rest)
    ensures ReadInt(digits + rest) == Ok(NumberOf(digits), rest)
  {
    var t := digits + rest;
    DigitRunStops(digits, rest);
    assert t[0] == digits[0];
    assert t[..|digits|] == digits && t[|digits|..] == rest;
    if t[0] == '0' { assert |digits| == 1; }
  }

  lemma ReadNegative(digits: string, rest: string)
    requires digits != [] && IsDigit(digits[0])
    ensures ReadInt(("-" + digits) + rest) ==
            match ReadInt(digits + rest) { case Fail => Fail case Ok(n, r) => Ok(-n, r) }
  {
    var t := ("-" + digits) + rest;
    assert t[0] == '-' && t[1..] == digits + rest;
  }

  lemma ReadPrintedInt(n: int, rest: string)
    requires Delimited(rest)
    ensures ReadInt(PrintInt(n) + rest) == Ok(n, rest)
  {
    var k: nat := if n < 0 then -n else n;
    DigitsRoundTrip(k);
    ReadDigits(Digits(k), rest);
    if n < 0 { ReadNegative(Digits(k), rest); }
  }

  lemma ReadSpelledWord(d: Doc, word: string, rest: string)
    requires word != [] && Scalar(d)
    ensures ReadWord(word + rest, word, d) == Ok(Atom(d), rest)
  {
    var s := word + rest;
    assert s[..|word|] == word && s[|word|..] == rest;
  }

  lemma ReadSpelledString(cs: string, rest: string)
    ensures ReadToken(PrintString(cs) + rest) == Ok(Atom(DStr(cs)), rest)
  {
    var s := PrintString(cs) + rest;
    assert s[0] == '\"' && s[1..] == EscapeAll(cs) + "\"" + rest;
    ReadPrintedChars(cs, rest);
  }

  lemma IntStarts(n: int)
    ensures PrintInt(n) != [] && (PrintInt(n)[0] == '-' || IsDigit(PrintInt(n)[0]))
  {
    DigitsRoundTrip(if n < 0 then -n else n);
  }

  lemma ReadSpelledInt(n: int, rest: string)
    requires Delimited(rest)
    ensures ReadToken(PrintInt(n) + rest) == Ok(Atom(DNum(n)), rest)
  {
    IntStarts(n);
    ReadPrintedInt(n, rest);
    assert (PrintInt(n) + rest)[0] == PrintInt(n)[0];
  }

  lemma ReadSpelled(t: Token, rest: string)
    requires WellFormed(t) && (t.Atom? && t.doc.DNum? ==> Delimited(rest))
    ensures Spelling(t) != [] && !IsSpace(Spelling(t)[0])
    ensures ReadToken(Spelling(t) + rest) == Ok(t, rest)
  {
    match t
    case Punct(c) => assert ([c] + rest)[1..] == rest;
    case Atom(DNull) => ReadSpelledWord(DNull, "null", rest);
    case Atom(DBool(b)) => ReadSpelledWord(DBool(b), if b then "true" else "false", rest);
    case Atom(DNum(n)) => IntStarts(n); ReadSpelledInt(n, rest);
    case Atom(DStr(cs)) => ReadSpelledString(cs, rest);
  }

  /** No integer directly before another atom. */
  predicate Separated(ts: seq<Token>) {
    forall i :: 0 <= i < |ts| - 1 && ts[i].Atom? ==> ts[i + 1].Punct?
  }

  lemma LexStep(t: Token, rest: string)
    requires WellFormed(t) && (t.Atom? && t.doc.DNum? ==> Delimited(rest))
    ensures Lex(Spelling(t) + rest) ==
            match Lex(rest) { case Fail => Fail case Ok(ts, _) => Ok([t] + ts, []) }
  {
    ReadSpelled(t, rest);
    assert (Spelling(t) + rest)[0] == Spelling(t)[0];
  }

  /** Lexing inverts spelling. */
  lemma {:induction false} LexInvertsSpell(ts: seq<Token>)
    requires AllWellFormed(ts) && Separated(ts)
    ensures Lex(Spell(ts)) == Ok(ts, [])
  {
    if ts != [] {
      var rest := ts[1..];
      if rest != [] { assert rest[0] == ts[1]; }
      LexInvertsSpell(rest);
      LexStep(ts[0], Spell(rest));
      assert ts == [ts[0]] + rest;
    }
  }
}
