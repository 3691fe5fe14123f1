// Among all the texts a reader takes for one value with its keys in one order, the
// canonical text is the shortest: no white space, no needless escape, and the short
// escape where there is one.
module ShortestText {
  import opened Decimal
  import opened Json
  import opened KeyOrder
  import opened CanonicalForm
  import opened JsonTokens
  import opened JsonText
  import opened CanonicalText

  /** The same character, or a capital hexadecimal letter for its small form. */
  predicate SmallForm(c: char, d: char) { c == d || ('A' <= c <= 'F' && d as int == c as int + 32) }

  /** `b` is `a` but for capital hexadecimal digits, which are small in `b`. */
  predicate HexCase(a: string, b: string) {
    |a| == |b| && forall i :: 0 <= i < |a| ==> SmallForm(a[i], b[i])
  }

  lemma HexCaseJoin(a: string, x: string, b: string, c: string)
    requires HexCase(a, x + b) && HexCase(b, c)
    ensures HexCase(a, x + c)
  {
    forall i | 0 <= i < |a|
      ensures SmallForm(a[i], (x + c)[i])
    {
      if i >= |x| { assert SmallForm(b[i - |x|], c[i - |x|]); }
    }
  }

  // ---------- strings ----------

  lemma HexDigitOf(c: char)
    requires HexValue(c) < 16
    ensures SmallForm(c, HexDigit(HexValue(c))) && (HexValue(c) == 0 ==> c == '0')
  {
  }

  /** A unicode escape is longer than the character's own spelling, or the one it has. */
  lemma ShortestUnicode(s: string)
    requires ReadUnicode(s).Ok?
    ensures var (c, rest) := (ReadUnicode(s).value, ReadUnicode(s).rest);
            |EscapeChar(c)| + |rest| <= |s| + 2 &&
            (|EscapeChar(c)| + |rest| == |s| + 2 ==> HexCase("\\u" + s, EscapeChar(c) + rest))
  {
    var c, rest := ReadUnicode(s).value, ReadUnicode(s).rest;
    var v := CodeUnit(s);
    if |EscapeChar(c)| == 6 && |rest| == |s| - 4 {
      assert v < 0x20 && c as int == v;
      assert HexValue(s[0]) == 0 && HexValue(s[1]) == 0 && HexValue(s[2]) == v / 16 && HexValue(s[3]) == v % 16;
      HexDigitOf(s[0]);
      HexDigitOf(s[1]);
      HexDigitOf(s[2]);
      HexDigitOf(s[3]);
      assert EscapeChar(c) == ['\\', 'u', '0', '0', HexDigit(v / 16), HexDigit(v % 16)];
      assert s == [s[0], s[1], s[2], s[3]] + rest;
    }
  }

  lemma ShortestChar(s: string)
    requires s != [] && s[0] != '\"' && ReadChar(s).Ok?
    ensures var (c, rest) := (ReadChar(s).value, ReadChar(s).rest);
            |EscapeChar(c)| + |rest| <= |s| &&
            (|EscapeChar(c)| + |rest| == |s| ==> HexCase(s, EscapeChar(c) + rest))
  {
    if s[0] == '\\' {
      assert s == s[..2] + s[2..];
      if s[1] == 'u' {
        ShortestUnicode(s[2..]);
        assert s[..2] == "\\u";
      }
    }
  }

  lemma {:induction false} ShortestChars(s: string)
    requires ReadChars(s).Ok?
    ensures var (cs, rest) := (ReadChars(s).value, ReadChars(s).rest);
            |EscapeAll(cs) + "\"" + rest| <= |s| &&
            (|EscapeAll(cs) + "\"" + rest| == |s| ==> HexCase(s, EscapeAll(cs) + "\"" + rest))
    decreases |s|
  {
    if s[0] != '\"' {
      var c, t := ReadChar(s).value, ReadChar(s).rest;
      var cs, rest := ReadChars(t).value, ReadChars(t).rest;
      ShortestChar(s);
      ShortestChars(t);
      assert ReadChars(s).value == [c] + cs;
      assert EscapeAll([c] + cs) + "\"" + rest == EscapeChar(c) + (EscapeAll(cs) + "\"" + rest);
      if |EscapeAll([c] + cs) + "\"" + rest| == |s| {
        HexCaseJoin(s, EscapeChar(c), t, EscapeAll(cs) + "\"" + rest);
      }
    }
  }

  // ---------- tokens ----------

  lemma ShortestDigits(t: string, n: nat)
    requires 0 < n <= |t| && AllDigits(t[..n]) && (t[0] == '0' ==> n == 1)
    ensures Digits(NumberOf(t[..n])) + t[n..] == t
  {
    NumeralRoundTrip(t[..n]);
  }

  lemma ShortestNegative(s: string, n: int, rest: string)
    requires n >= 0 && s != [] && s[0] == '-' && Digits(n) + rest == s[1..]
    ensures |PrintInt(-n) + rest| <= |s| && (|PrintInt(-n) + rest| == |s| ==> s == PrintInt(-n) + rest)
  {
    assert s == ("-" + Digits(n)) + rest;
  }

  lemma ShortestInt(s: string)
    requires ReadInt(s).Ok?
    ensures var (n, rest) := (ReadInt(s).value, ReadInt(s).rest);
            |PrintInt(n) + rest| <= |s| && (|PrintInt(n) + rest| == |s| ==> s == PrintInt(n) + rest)
  {
    var negative := s != [] && s[0] == '-';
    var t := if negative then s[1..] else s;
    var n := if t[0] == '0' then 1 else DigitRun(t);
    ShortestDigits(t, n);
    if negative { ShortestNegative(s, NumberOf(t[..n]), t[n..]); }
  }

  lemma ShortestString(s: string)
    requires s != [] && s[0] == '\"' && ReadToken(s).Ok?
    ensures var (t, rest) := (ReadToken(s).value, ReadToken(s).rest);
            |Spelling(t) + rest| <= |s| && (|Spelling(t) + rest| == |s| ==> HexCase(s, Spelling(t) + rest))
  {
    ShortestChars(s[1..]);
    var cs, rest := ReadChars(s[1..]).value, ReadChars(s[1..]).rest;
    assert PrintString(cs) + rest == "\"" + (EscapeAll(cs) + "\"" + rest);
    assert s == "\"" + s[1..];
  }

  lemma ShortestToken(s: string)
    requires s != [] && ReadToken(s).Ok?
    ensures var (t, rest) := (ReadToken(s).value, ReadToken(s).rest);
            |Spelling(t) + rest| <= |s| && (|Spelling(t) + rest| == |s| ==> HexCase(s, Spelling(t) + rest))
  {
    if Mark(s[0]) {
    } else if s[0] == '\"' {
      ShortestString(s);
    } else if s[0] == 'n' || s[0] == 't' || s[0] == 'f' {
      var word := if s[0] == 'n' then "null" else if s[0] == 't' then "true" else "false";
      assert s == word + s[|word|..];
    } else {
      ShortestInt(s);
    }
  }

  lemma {:induction false} ShortestTokens(s: string)
    requires Lex(s).Ok?
    ensures |Spell(Lex(s).value)| <= |s|
    ensures |Spell(Lex(s).value)| == |s| ==> HexCase(s, Spell(Lex(s).value))
    decreases |s|
  {
    if s == [] {
    } else if IsSpace(s[0]) {
      ShortestTokens(s[1..]);
    } else {
      var t, rest := ReadToken(s).value, ReadToken(s).rest;
      ShortestToken(s);
      ShortestTokens(rest);
      var ts := Lex(rest).value;
      assert ([t] + ts)[1..] == ts;
      if |Spelling(t) + Spell(ts)| == |s| { HexCaseJoin(s, Spelling(t), rest, Spell(ts)); }
    }
  }

  // ---------- values ----------

  function Width(ts: seq<Token>): nat
    requires AllWellFormed(ts)
  {
    |Spell(ts)|
  }

  lemma {:induction false} SpellJoin(a: seq<Token>, b: seq<Token>)
    requires AllWellFormed(a) && AllWellFormed(b)
    ensures Spell(a + b) == Spell(a) + Spell(b)
  {
    if a == [] {
      assert a + b == b;
    } else {
      assert (a + b)[1..] == a[1..] + b;
      SpellJoin(a[1..], b);
    }
  }

  lemma SpellOne(t: Token)
    requires WellFormed(t)
    ensures Spell([t]) == Spelling(t)
  {
    assert [t][1..] == [];
  }

  /** What was read from `s` spells no longer than `s`, and as long only if it is `s`. */
  predicate Fits(s: seq<Token>, read: seq<Token>)
    requires AllWellFormed(s) && AllWellFormed(read)
  {
    Width(read) <= Width(s) && (Width(read) == Width(s) ==> s == read)
  }

  lemma FitsAfter(a: seq<Token>, s: seq<Token>, read: seq<Token>)
    requires AllWellFormed(a) && AllWellFormed(s) && AllWellFormed(read) && Fits(s, read)
    ensures Fits(a + s, a + read)
  {
    SpellJoin(a, s);
    SpellJoin(a, read);
  }

  lemma FitsTrans(s: seq<Token>, t: seq<Token>, u: seq<Token>)
    requires AllWellFormed(s) && AllWellFormed(t) && AllWellFormed(u) && Fits(s, t) && Fits(t, u)
    ensures Fits(s, u)
  {
  }

  lemma {:induction false} ShortestValue(s: seq<Token>)
    requires AllWellFormed(s) && ReadValue(s).Ok?
    ensures Fits(s, Chunks(ReadValue(s).value) + ReadValue(s).rest)
    decreases |s|, 2
  {
    var u := s[1..];
    assert s == [s[0]] + u;
    match s[0]
    case Atom(d) => ReadAtom(s, d);
    case Punct(c) =>
      if c == '[' {
        OpenArray(u);
        if u[0] != Punct(']') {
          ShortestItems(u);
          ArrayFits(u, ReadItems(u).value, ReadItems(u).rest);
        } else {
          assert s == (Chunks(DArr([]))) + u[1..];
        }
      } else {
        OpenObject(u);
        if u[0] != Punct('}') {
          ShortestMembers(u, []);
          assert Lead([]) + u == u;
          ObjectFits(u, ReadMembers(u, []).value, ReadMembers(u, []).rest);
        } else {
          assert s == Chunks(DObj([])) + u[1..];
        }
      }
  }

  lemma ArrayFits(u: seq<Token>, items: seq<Doc>, rest: seq<Token>)
    requires AllWellFormed(u) && AllWellFormed(rest) && Fits(u, ItemChunks(items) + ([Punct(']')] + rest))
    ensures Fits([Punct('[')] + u, Chunks(DArr(items)) + rest)
  {
    FitsAfter([Punct('[')], u, ItemChunks(items) + ([Punct(']')] + rest));
    ArrayShape(items, rest);
  }

  lemma ObjectFits(u: seq<Token>, ms: seq<Member>, rest: seq<Token>)
    requires AllWellFormed(u) && AllWellFormed(rest) && Fits(u, MemberChunks(ms) + ([Punct('}')] + rest))
    ensures Fits([Punct('{')] + u, Chunks(DObj(ms)) + rest)
  {
    FitsAfter([Punct('{')], u, MemberChunks(ms) + ([Punct('}')] + rest));
    ObjectShape(ms, rest);
  }

  lemma ReadAtom(s: seq<Token>, d: Doc)
    requires AllWellFormed(s) && s != [] && s[0] == Atom(d)
    ensures Chunks(d) + s[1..] == s
  {
    assert WellFormed(s[0]);
  }

  lemma {:induction false} ShortestItems(s: seq<Token>)
    requires AllWellFormed(s) && ReadItems(s).Ok?
    ensures Fits(s, ItemChunks(ReadItems(s).value) + ([Punct(']')] + ReadItems(s).rest))
    decreases |s|, 3
  {
    var item, t := ReadValue(s).value, ReadValue(s).rest;
    ShortestValue(s);
    if t[0] == Punct(',') {
      ShortestItems(t[1..]);
      MoreItemsFit(s, item, t, ReadItems(t[1..]).value, ReadItems(t[1..]).rest);
    } else {
      LastItemFits(s, item, t);
    }
  }

  lemma LastItemFits(s: seq<Token>, item: Doc, t: seq<Token>)
    requires AllWellFormed(s) && AllWellFormed(t) && t != [] && t[0] == Punct(']') && Fits(s, Chunks(item) + t)
    ensures Fits(s, ItemChunks([item]) + ([Punct(']')] + t[1..]))
  {
    assert t == [Punct(']')] + t[1..];
  }

  lemma MoreItemsFit(s: seq<Token>, item: Doc, t: seq<Token>, items: seq<Doc>, rest: seq<Token>)
    requires AllWellFormed(s) && AllWellFormed(t) && AllWellFormed(rest) && t != [] && t[0] == Punct(',') && items != []
    requires Fits(s, Chunks(item) + t) && Fits(t[1..], ItemChunks(items) + ([Punct(']')] + rest))
    ensures Fits(s, ItemChunks([item] + items) + ([Punct(']')] + rest))
  {
    var tail := [Punct(']')] + rest;
    var more := [Punct(',')] + (ItemChunks(items) + tail);
    FitsAfter([Punct(',')], t[1..], ItemChunks(items) + tail);
    assert t == [Punct(',')] + t[1..];
    FitsAfter(Chunks(item), t, more);
    FitsTrans(s, Chunks(item) + t, Chunks(item) + more);
    assert ([item] + items)[1..] == items;
    SplitItems([item] + items, tail);
  }

  // ---------- objects, with repeated keys ----------

  /** The members read so far, as they would be written before the next one. */
  function Lead(acc: seq<Member>): (ts: seq<Token>)
    ensures AllWellFormed(ts)
  {
    if acc == [] then [] else MemberChunks(acc) + [Punct(',')]
  }

  lemma {:induction false} MembersSnoc(acc: seq<Member>, m: Member)
    ensures MemberChunks(acc + [m]) == Lead(acc) + KeyChunks(m)
  {
    if acc == [] {
      assert acc + [m] == [m];
    } else {
      var all := acc + [m];
      assert all[1..] == acc[1..] + [m];
      MembersSnoc(acc[1..], m);
      if |acc| > 1 {
        Reassociate(KeyChunks(acc[0]), [Punct(',')], MemberChunks(acc[1..]), [Punct(',')] + KeyChunks(m));
      }
    }
  }

  lemma LeadIsOneMore(ms: seq<Member>)
    requires ms != []
    ensures Width(Lead(ms)) == Width(MemberChunks(ms)) + 1
  {
    SpellJoin(MemberChunks(ms), [Punct(',')]);
    SpellOne(Punct(','));
  }

  lemma LeadSnoc(acc: seq<Member>, m: Member)
    ensures Width(Lead(acc + [m])) == Width(Lead(acc)) + Width(KeyChunks(m)) + 1
  {
    MembersSnoc(acc, m);
    SpellJoin(Lead(acc), KeyChunks(m));
    LeadIsOneMore(acc + [m]);
  }

  function KeyWidth(m: Member): nat { Width(KeyChunks(m)) }

  function LeadWidth(ms: seq<Member>): nat { Width(Lead(ms)) }

  /** Replacing one member in a sum over all of them. */
  lemma {:induction false} SumReplaced(width: Member -> nat, total: seq<Member> -> nat, ms: seq<Member>, i: nat, m: Member)
    requires i < |ms|
    requires forall a, x {:trigger total(a + [x])} :: total(a + [x]) == total(a) + width(x) + 1
    ensures total(ms[i := m]) + width(ms[i]) == total(ms) + width(m)
  {
    var k := |ms| - 1;
    var front, last := ms[..k], ms[k];
    assert ms == front + [last];
    if i < k {
      SumReplaced(width, total, front, i, m);
      assert ms[i := m] == front[i := m] + [last];
    } else {
      assert ms[i := m] == front + [m];
    }
  }

  /** A repeated key makes the object shorter than what was read. */
  lemma PutFits(acc: seq<Member>, m: Member)
    ensures Fits(Lead(acc) + KeyChunks(m), MemberChunks(Put(acc, m)))
  {
    if m.key in KeySet(acc) {
      var i := IndexOf(acc, m.key);
      forall a, x ensures LeadWidth(a + [x]) == LeadWidth(a) + KeyWidth(x) + 1 { LeadSnoc(a, x); }
      SumReplaced(KeyWidth, LeadWidth, acc, i, m);
      LeadIsOneMore(acc[i := m]);
      SpellJoin(Lead(acc), KeyChunks(m));
    } else {
      MembersSnoc(acc, m);
    }
  }

  lemma FitsBefore(s: seq<Token>, read: seq<Token>, t: seq<Token>)
    requires AllWellFormed(t) && AllWellFormed(s) && AllWellFormed(read) && Fits(s, read)
    ensures Fits(s + t, read + t)
  {
    SpellJoin(s, t);
    SpellJoin(read, t);
  }

  /** One member more. */
  lemma MemberFits(s: seq<Token>, acc: seq<Member>, m: Member, t: seq<Token>)
    requires AllWellFormed(s) && AllWellFormed(t) && Fits(s, KeyChunks(m) + t)
    ensures Fits(Lead(acc) + s, MemberChunks(Put(acc, m)) + t)
  {
    FitsAfter(Lead(acc), s, KeyChunks(m) + t);
    PutFits(acc, m);
    FitsBefore(Lead(acc) + KeyChunks(m), MemberChunks(Put(acc, m)), t);
    assert Lead(acc) + (KeyChunks(m) + t) == (Lead(acc) + KeyChunks(m)) + t;
    FitsTrans(Lead(acc) + s, Lead(acc) + (KeyChunks(m) + t), MemberChunks(Put(acc, m)) + t);
  }

  lemma ShortestMember(s: seq<Token>)
    requires AllWellFormed(s) && ReadMember(s).Ok?
    ensures Fits(s, KeyChunks(ReadMember(s).value) + ReadMember(s).rest)
    decreases |s|, 3
  {
    var m, rest := ReadMember(s).value, ReadMember(s).rest;
    ShortestValue(s[2..]);
    FitsAfter([s[0], s[1]], s[2..], Chunks(m.value) + rest);
    KeyShape(m, rest);
    assert s == [s[0], s[1]] + s[2..];
  }

  lemma {:induction false} ShortestMembers(s: seq<Token>, acc: seq<Member>)
    requires AllWellFormed(s) && Dict(DObj(acc)) && ReadMembers(s, acc).Ok?
    ensures Fits(Lead(acc) + s, MemberChunks(ReadMembers(s, acc).value) + ([Punct('}')] + ReadMembers(s, acc).rest))
    decreases |s|, 4
  {
    var m, t := ReadMember(s).value, ReadMember(s).rest;
    var ms := Put(acc, m);
    ShortestMember(s);
    MemberFits(s, acc, m, t);
    if t[0] == Punct(',') {
      var read := ReadMembers(t[1..], ms);
      ShortestMembers(t[1..], ms);
      MoreMembers(Lead(acc) + s, ms, t, MemberChunks(read.value) + ([Punct('}')] + read.rest));
    } else {
      LastMemberFits(Lead(acc) + s, ms, t);
    }
  }

  lemma LastMemberFits(s: seq<Token>, ms: seq<Member>, t: seq<Token>)
    requires AllWellFormed(s) && AllWellFormed(t) && t != [] && t[0] == Punct('}') && Fits(s, MemberChunks(ms) + t)
    ensures Fits(s, MemberChunks(ms) + ([Punct('}')] + t[1..]))
  {
    assert t == [Punct('}')] + t[1..];
  }

  lemma MoreMembers(s: seq<Token>, ms: seq<Member>, t: seq<Token>, read: seq<Token>)
    requires AllWellFormed(s) && AllWellFormed(t) && AllWellFormed(read) && ms != [] && t != [] && t[0] == Punct(',')
    requires Fits(s, MemberChunks(ms) + t) && Fits(Lead(ms) + t[1..], read)
    ensures Fits(s, read)
  {
    assert Lead(ms) + t[1..] == MemberChunks(ms) + t;
    FitsTrans(s, MemberChunks(ms) + t, read);
  }

  // ---------- texts ----------

  /** Every text that reads as this value is at least as long as what is printed. */
  lemma PrintIsShortest(d: Doc, text: string)
    requires Parse(text) == Ok(d, [])
    ensures |Print(d)| <= |text|
    ensures |Print(d)| == |text| ==> HexCase(text, Print(d))
  {
    ShortestTokens(text);
    ShortestValue(Lex(text).value);
    assert Chunks(d) + [] == Chunks(d);
  }

  /**
   * The canonical text of a value is read back as its normal form; every text read back
   * so is longer, or differs from it in capital hexadecimal digits only.
   */
  lemma CanonicalIsShortest(o: Order, d: Doc, text: string)
    requires Dict(d)
    ensures Parse(Canonical(o, d)) == Ok(Normalise(o, d), [])
    ensures Parse(text) == Ok(Normalise(o, d), []) ==>
              |Canonical(o, d)| < |text| || HexCase(text, Canonical(o, d))
  {
    NormaliseKeepsMeaning(o, d);
    ParseInvertsPrint(Normalise(o, d));
    if Parse(text) == Ok(Normalise(o, d), []) { PrintIsShortest(Normalise(o, d), text); }
  }
}
