// The serializer shared by both implementations, as the list of pieces it
// joins, and a reader of such texts (duplicate keys: the last one wins).
module JsonText {
  import opened Json
  import opened JsonTokens

  // ---------- printing ----------

  function Chunks(d: Doc): (ts: seq<Token>)
    ensures ts != [] && AllWellFormed(ts)
    decreases d, 1
  {
    match d
    case DArr(items) => [Punct('[')] + ItemChunks(items) + [Punct(']')]
    case DObj(ms) => [Punct('{')] + MemberChunks(ms) + [Punct('}')]
    case _ => [Atom(d)]
  }

  function ItemChunks(items: seq<Doc>): (ts: seq<Token>)
    ensures AllWellFormed(ts)
    decreases items, 0
  {
    if items == [] then []
    else if |items| == 1 then Chunks(items[0])
    else Chunks(items[0]) + [Punct(',')] + ItemChunks(items[1..])
  }

  function KeyChunks(m: Member): (ts: seq<Token>)
    ensures AllWellFormed(ts)
    decreases m, 0
  {
    [Atom(DStr(m.key)), Punct(':')] + Chunks(m.value)
  }

  function MemberChunks(ms: seq<Member>): (ts: seq<Token>)
    ensures AllWellFormed(ts)
    decreases ms, 0
  {
    if ms == [] then []
    else if |ms| == 1 then KeyChunks(ms[0])
    else KeyChunks(ms[0]) + [Punct(',')] + MemberChunks(ms[1..])
  }

  function Print(d: Doc): string { Spell(Chunks(d)) }

  // ---------- reading ----------

  /** Assigns a key the way a dictionary does. */
  function Put(ms: seq<Member>, m: Member): (r: seq<Member>)
    ensures DistinctKeys(ms) ==> DistinctKeys(r)
    ensures forall x :: x in r ==> x in ms || x == m
    ensures m.key !in KeySet(ms) ==> r == ms + [m]
  {
    if m.key in KeySet(ms) then ms[IndexOf(ms, m.key) := m]
    else
      assert forall i :: 0 <= i < |ms| ==> ms[i].key in KeySet(ms);
      ms + [m]
  }

  function ReadValue(s: seq<Token>): (r: Read<Doc, seq<Token>>)
    requires AllWellFormed(s)
    ensures r.Ok? ==> |r.rest| < |s| && AllWellFormed(r.rest) && Dict(r.value)
    decreases |s|, 2
  {
    if s == [] then Fail
    else match s[0]
      case Atom(d) => Ok(d, s[1..])
      case Punct(c) =>
        var empty := |s| > 1 && s[1] == Punct(if c == '[' then ']' else '}');
        if c == '[' then
          if empty then Ok(DArr([]), s[2..])
          else match ReadItems(s[1..]) case Fail => Fail case Ok(items, rest) => Ok(DArr(items), rest)
        else if c == '{' then
          if empty then Ok(DObj([]), s[2..])
          else match ReadMembers(s[1..], []) case Fail => Fail case Ok(ms, rest) => Ok(DObj(ms), rest)
        else Fail
  }

  function ReadItems(s: seq<Token>): (r: Read<seq<Doc>, seq<Token>>)
    requires AllWellFormed(s)
    ensures r.Ok? ==> |r.rest| < |s| && AllWellFormed(r.rest)
    ensures r.Ok? ==> forall i :: 0 <= i < |r.value| ==> Dict(r.value[i])
    decreases |s|, 3
  {
    match ReadValue(s)
    case Fail => Fail
    case Ok(item, t) =>
      if t == [] then Fail
      else if t[0] == Punct(']') then Ok([item], t[1..])
      else if t[0] != Punct(',') then Fail
      else
        match ReadItems(t[1..])
        case Fail => Fail
        case Ok(items, rest) => Ok([item] + items, rest)
  }

  function ReadMember(s: seq<Token>): (r: Read<Member, seq<Token>>)
    requires AllWellFormed(s)
    ensures r.Ok? ==> |r.rest| < |s| && AllWellFormed(r.rest) && Dict(r.value.value)
    decreases |s|, 3
  {
    if |s| < 2 || !s[0].Atom? || !s[0].doc.DStr? || s[1] != Punct(':') then Fail
    else
      match ReadValue(s[2..])
      case Fail => Fail
      case Ok(v, rest) => Ok(Member(s[0].doc.text, v), rest)
  }

  function ReadMembers(s: seq<Token>, acc: seq<Member>): (r: Read<seq<Member>, seq<Token>>)
    requires AllWellFormed(s) && Dict(DObj(acc))
    ensures r.Ok? ==> |r.rest| < |s| && AllWellFormed(r.rest) && Dict(DObj(r.value))
    decreases |s|, 4
  {
    match ReadMember(s)
    case Fail => Fail
    case Ok(m, t) =>
      var ms := Put(acc, m);
      if t == [] then Fail
      else if t[0] == Punct('}') then Ok(ms, t[1..])
      else if t[0] != Punct(',') then Fail
      else ReadMembers(t[1..], ms)
  }

  /** A complete document with optional surrounding white space. */
  function Parse(text: string): (r: Read<Doc, string>)
    ensures r.Ok? ==> Dict(r.value)
  {
    match Lex(text)
    case Fail => Fail
    case Ok(ts, _) =>
      match ReadValue(ts)
      case Fail => Fail
      case Ok(d, rest) => if rest == [] then Ok(d, []) else Fail
  }

  // ---------- reading back what was printed ----------

  predicate Closes(rest: seq<Token>) { AllWellFormed(rest) && (rest == [] || rest[0].Punct?) }

  lemma SeparatedJoin(a: seq<Token>, b: seq<Token>)
    requires Separated(a) && Separated(b)
    requires a == [] || b == [] || a[|a| - 1].Punct? || b[0].Punct?
    ensures Separated(a + b)
  {
  }

  /** Printed pieces never put two atoms next to each other. */
  lemma {:induction false} ChunksSeparated(d: Doc)
    ensures Separated(Chunks(d))
    decreases d, 1
  {
    match d
    case DArr(items) =>
      ItemChunksSeparated(items);
      SeparatedJoin([Punct('[')], ItemChunks(items));
      SeparatedJoin([Punct('[')] + ItemChunks(items), [Punct(']')]);
    case DObj(ms) =>
      MemberChunksSeparated(ms);
      SeparatedJoin([Punct('{')], MemberChunks(ms));
      SeparatedJoin([Punct('{')] + MemberChunks(ms), [Punct('}')]);
    case _ =>
  }

  lemma {:induction false} ItemChunksSeparated(items: seq<Doc>)
    ensures Separated(ItemChunks(items))
    decreases items, 0
  {
    if items != [] {
      ChunksSeparated(items[0]);
      if |items| > 1 {
        ItemChunksSeparated(items[1..]);
        SeparatedJoin(Chunks(items[0]), [Punct(',')]);
        SeparatedJoin(Chunks(items[0]) + [Punct(',')], ItemChunks(items[1..]));
      }
    }
  }

  lemma {:induction false} MemberChunksSeparated(ms: seq<Member>)
    ensures Separated(MemberChunks(ms))
    decreases ms, 0
  {
    if ms != [] {
      var m := ms[0];
      ChunksSeparated(m.value);
      SeparatedJoin([Atom(DStr(m.key)), Punct(':')], Chunks(m.value));
      if |ms| > 1 {
        MemberChunksSeparated(ms[1..]);
        SeparatedJoin(KeyChunks(m), [Punct(',')]);
        SeparatedJoin(KeyChunks(m) + [Punct(',')], MemberChunks(ms[1..]));
      }
    }
  }

  lemma OpenArray(u: seq<Token>)
    requires AllWellFormed(u)
    ensures ReadValue([Punct('[')] + u) ==
            if u != [] && u[0] == Punct(']') then Ok(DArr([]), u[1..])
            else match ReadItems(u) { case Fail => Fail case Ok(items, rest) => Ok(DArr(items), rest) }
  {
    var s := [Punct('[')] + u;
    assert s[1..] == u;
    if u != [] { assert s[2..] == u[1..]; }
  }

  lemma OpenObject(u: seq<Token>)
    requires AllWellFormed(u)
    ensures ReadValue([Punct('{')] + u) ==
            if u != [] && u[0] == Punct('}') then Ok(DObj([]), u[1..])
            else match ReadMembers(u, []) { case Fail => Fail case Ok(ms, rest) => Ok(DObj(ms), rest) }
  {
    var s := [Punct('{')] + u;
    assert s[1..] == u;
    if u != [] { assert s[2..] == u[1..]; }
  }

  lemma ItemsStep(s: seq<Token>, item: Doc, t: seq<Token>)
    requires AllWellFormed(s) && ReadValue(s) == Ok(item, t)
    requires t != [] && t[0] in {Punct(','), Punct(']')}
    ensures ReadItems(s) ==
            if t[0] == Punct(']') then Ok([item], t[1..])
            else match ReadItems(t[1..]) { case Fail => Fail case Ok(items, rest) => Ok([item] + items, rest) }
  {
  }

  lemma FirstChunk(d: Doc)
    ensures Chunks(d)[0] !in {Punct(']'), Punct('}')}
  {
  }

  lemma Reassociate(a: seq<Token>, b: seq<Token>, c: seq<Token>, d: seq<Token>)
    ensures a + b + c + d == a + (b + (c + d))
  {
  }

  lemma ArrayShape(items: seq<Doc>, rest: seq<Token>)
    ensures Chunks(DArr(items)) + rest == [Punct('[')] + (ItemChunks(items) + ([Punct(']')] + rest))
    ensures items == [] ==> ItemChunks(items) + ([Punct(']')] + rest) == [Punct(']')] + rest
    ensures items != [] ==> (ItemChunks(items) + ([Punct(']')] + rest))[0] == Chunks(items[0])[0]
  {
    Reassociate([Punct('[')], ItemChunks(items), [Punct(']')], rest);
  }

  lemma ObjectShape(ms: seq<Member>, rest: seq<Token>)
    ensures Chunks(DObj(ms)) + rest == [Punct('{')] + (MemberChunks(ms) + ([Punct('}')] + rest))
    ensures ms == [] ==> MemberChunks(ms) + ([Punct('}')] + rest) == [Punct('}')] + rest
    ensures ms != [] ==> (MemberChunks(ms) + ([Punct('}')] + rest))[0] == Atom(DStr(ms[0].key))
  {
    Reassociate([Punct('{')], MemberChunks(ms), [Punct('}')], rest);
  }

  lemma SplitItems(items: seq<Doc>, tail: seq<Token>)
    requires |items| > 1
    ensures ItemChunks(items) + tail
            == Chunks(items[0]) + ([Punct(',')] + (ItemChunks(items[1..]) + tail))
  {
    Reassociate(Chunks(items[0]), [Punct(',')], ItemChunks(items[1..]), tail);
  }

  lemma Cut(t: Token, rest: seq<Token>)
    ensures ([t] + rest)[0] == t && ([t] + rest)[1..] == rest
  {
  }

  lemma {:induction false} ReadPrinted(d: Doc, rest: seq<Token>)
    requires Dict(d) && Closes(rest)
    ensures ReadValue(Chunks(d) + rest) == Ok(d, rest)
    decreases d, 1
  {
    match d
    case DArr(items) =>
      ArrayShape(items, rest);
      Cut(Punct(']'), rest);
      OpenArray(ItemChunks(items) + ([Punct(']')] + rest));
      if items != [] {
        FirstChunk(items[0]);
        ReadPrintedItems(items, rest);
      }
    case DObj(ms) =>
      ObjectShape(ms, rest);
      Cut(Punct('}'), rest);
      OpenObject(MemberChunks(ms) + ([Punct('}')] + rest));
      if ms != [] {
        assert [] + ms == ms;
        ReadPrintedMembers(ms, [], rest);
      }
    case _ => Cut(Atom(d), rest);
  }

  lemma {:induction false} ReadPrintedItems(items: seq<Doc>, rest: seq<Token>)
    requires items != [] && forall i :: 0 <= i < |items| ==> Dict(items[i])
    requires AllWellFormed(rest)
    ensures ReadItems(ItemChunks(items) + ([Punct(']')] + rest)) == Ok(items, rest)
    decreases items, 0
  {
    var tail := [Punct(']')] + rest;
    if |items| == 1 {
      ReadPrinted(items[0], tail);
      LastItem(items, rest);
    } else {
      var t := ItemChunks(items[1..]) + tail;
      ReadPrinted(items[0], [Punct(',')] + t);
      ReadPrintedItems(items[1..], rest);
      MoreItems(items, t, rest);
      SplitItems(items, tail);
    }
  }

  lemma LastItem(items: seq<Doc>, rest: seq<Token>)
    requires |items| == 1 && AllWellFormed(rest)
    requires ReadValue(Chunks(items[0]) + ([Punct(']')] + rest)) == Ok(items[0], [Punct(']')] + rest)
    ensures ReadItems(ItemChunks(items) + ([Punct(']')] + rest)) == Ok(items, rest)
  {
    assert items == [items[0]];
    Cut(Punct(']'), rest);
    ItemsStep(ItemChunks(items) + ([Punct(']')] + rest), items[0], [Punct(']')] + rest);
  }

  lemma MoreItems(items: seq<Doc>, t: seq<Token>, rest: seq<Token>)
    requires items != [] && AllWellFormed(t)
    requires ReadValue(Chunks(items[0]) + ([Punct(',')] + t)) == Ok(items[0], [Punct(',')] + t)
    requires ReadItems(t) == Ok(items[1..], rest)
    ensures ReadItems(Chunks(items[0]) + ([Punct(',')] + t)) == Ok(items, rest)
  {
    Cut(Punct(','), t);
    ItemsStep(Chunks(items[0]) + ([Punct(',')] + t), items[0], [Punct(',')] + t);
    assert items == [items[0]] + items[1..];
  }

  lemma MemberStep(key: string, u: seq<Token>)
    requires AllWellFormed(u)
    ensures ReadMember([Atom(DStr(key)), Punct(':')] + u) ==
            match ReadValue(u) { case Fail => Fail case Ok(v, rest) => Ok(Member(key, v), rest) }
  {
    assert ([Atom(DStr(key)), Punct(':')] + u)[2..] == u;
  }

  lemma KeyShape(m: Member, rest: seq<Token>)
    ensures KeyChunks(m) + rest == [Atom(DStr(m.key)), Punct(':')] + (Chunks(m.value) + rest)
  {
  }

  lemma {:induction false} ReadPrintedMember(m: Member, rest: seq<Token>)
    requires Dict(m.value) && Closes(rest)
    ensures ReadMember(KeyChunks(m) + rest) == Ok(m, rest)
    decreases m, 0
  {
    KeyShape(m, rest);
    MemberStep(m.key, Chunks(m.value) + rest);
    ReadPrinted(m.value, rest);
  }

  lemma ReadMembersStep(m: Member, acc: seq<Member>, rest: seq<Token>)
    requires Dict(DObj(acc)) && Dict(DObj(acc + [m]))
    requires AllWellFormed(rest) && rest != [] && rest[0] in {Punct(','), Punct('}')}
    requires ReadMember(KeyChunks(m) + rest) == Ok(m, rest)
    ensures ReadMembers(KeyChunks(m) + rest, acc) ==
            if rest[0] == Punct('}') then Ok(acc + [m], rest[1..]) else ReadMembers(rest[1..], acc + [m])
  {
    forall i | 0 <= i < |acc|
      ensures acc[i].key != m.key
    {
      assert (acc + [m])[i] == acc[i] && (acc + [m])[|acc|] == m;
    }
    assert m.key !in KeySet(acc);
  }

  lemma ShiftFirst(acc: seq<Member>, ms: seq<Member>)
    requires ms != [] && Dict(DObj(acc + ms))
    ensures acc + ms == (acc + [ms[0]]) + ms[1..]
    ensures Dict(DObj(acc + [ms[0]])) && Dict(ms[0].value)
  {
    var all, front := acc + ms, acc + [ms[0]];
    assert forall i :: 0 <= i < |front| ==> front[i] == all[i];
    assert all[|acc|] == ms[0];
  }

  lemma SplitMembers(ms: seq<Member>, tail: seq<Token>)
    requires |ms| > 1
    ensures MemberChunks(ms) + tail
            == KeyChunks(ms[0]) + ([Punct(',')] + (MemberChunks(ms[1..]) + tail))
  {
    Reassociate(KeyChunks(ms[0]), [Punct(',')], MemberChunks(ms[1..]), tail);
  }

  lemma {:induction false} ReadPrintedMembers(ms: seq<Member>, acc: seq<Member>, rest: seq<Token>)
    requires ms != [] && Dict(DObj(acc)) && Dict(DObj(acc + ms))
    requires AllWellFormed(rest)
    ensures ReadMembers(MemberChunks(ms) + ([Punct('}')] + rest), acc) == Ok(acc + ms, rest)
    decreases ms, 0
  {
    ShiftFirst(acc, ms);
    if |ms| == 1 {
      var close := [Punct('}')] + rest;
      assert acc + ms == acc + [ms[0]];
      Cut(Punct('}'), rest);
      ReadPrintedMember(ms[0], close);
      ReadMembersStep(ms[0], acc, close);
    } else {
      var t := MemberChunks(ms[1..]) + ([Punct('}')] + rest);
      var comma := [Punct(',')] + t;
      SplitMembers(ms, [Punct('}')] + rest);
      Cut(Punct(','), t);
      ReadPrintedMember(ms[0], comma);
      ReadMembersStep(ms[0], acc, comma);
      ReadPrintedMembers(ms[1..], acc + [ms[0]], rest);
    }
  }

  /** Reading inverts printing, for every dictionary-shaped value. */
  lemma ParseInvertsPrint(d: Doc)
    requires Dict(d)
    ensures Parse(Print(d)) == Ok(d, [])
  {
    ChunksSeparated(d);
    LexInvertsSpell(Chunks(d));
    ReadPrinted(d, []);
    assert Chunks(d) + [] == Chunks(d);
  }

  lemma PrintInjective(a: Doc, b: Doc)
    requires Dict(a) && Dict(b) && Print(a) == Print(b)
    ensures a == b
  {
    ParseInvertsPrint(a);
    ParseInvertsPrint(b);
  }
}
