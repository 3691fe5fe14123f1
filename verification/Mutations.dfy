// JSON pointer tokens and the mutations that turn examples into negative vectors.
module Mutations {
  import opened Wrappers
  import opened Json

  // ---------- pointer tokens ----------

  /** `s.replace("~" + mark, plain)`. */
  function ReplaceAll(s: string, mark: char, plain: char): string {
    if |s| < 2 then s
    else if s[0] == '~' && s[1] == mark then [plain] + ReplaceAll(s[2..], mark, plain)
    else [s[0]] + ReplaceAll(s[1..], mark, plain)
  }

  function Decode(token: string): string { ReplaceAll(ReplaceAll(token, '1', '/'), '0', '~') }

  /** The escaping of section 3 of RFC 6901. */
  function EscapeChar(c: char): string { if c == '~' then "~0" else if c == '/' then "~1" else [c] }

  function Escape(t: string): string { if t == [] then "" else EscapeChar(t[0]) + Escape(t[1..]) }

  /** After the first replacement only tildes are still escaped. */
  function TildeEscaped(t: string): string {
    if t == [] then "" else (if t[0] == '~' then "~0" else [t[0]]) + TildeEscaped(t[1..])
  }

  lemma ReplaceHead(c: char, rest: string, mark: char, plain: char)
    requires c != '~' || rest == [] || rest[0] != mark
    ensures ReplaceAll([c] + rest, mark, plain) == [c] + ReplaceAll(rest, mark, plain)
  {
    assert ([c] + rest)[1..] == rest;
  }

  lemma ReplaceMark(rest: string, mark: char, plain: char)
    ensures ReplaceAll(['~', mark] + rest, mark, plain) == [plain] + ReplaceAll(rest, mark, plain)
  {
    assert (['~', mark] + rest)[2..] == rest;
  }

  lemma {:induction false} SlashesDecoded(t: string)
    ensures ReplaceAll(Escape(t), '1', '/') == TildeEscaped(t)
  {
    if t != [] {
      var rest := Escape(t[1..]);
      SlashesDecoded(t[1..]);
      if t[0] == '~' {
        assert Escape(t) == ['~'] + (['0'] + rest);
        ReplaceHead('~', ['0'] + rest, '1', '/');
        ReplaceHead('0', rest, '1', '/');
      } else if t[0] == '/' {
        assert Escape(t) == ['~', '1'] + rest;
        ReplaceMark(rest, '1', '/');
      } else {
        ReplaceHead(t[0], rest, '1', '/');
      }
    }
  }

  lemma {:induction false} TildesDecoded(t: string)
    ensures ReplaceAll(TildeEscaped(t), '0', '~') == t
  {
    if t != [] {
      var rest := TildeEscaped(t[1..]);
      TildesDecoded(t[1..]);
      if t[0] == '~' {
        assert TildeEscaped(t) == ['~', '0'] + rest;
        ReplaceMark(rest, '0', '~');
      } else {
        ReplaceHead(t[0], rest, '0', '~');
      }
    }
  }

  /** Decoding inverts escaping, on every token. */
  lemma DecodeInvertsEscape(t: string)
    ensures Decode(Escape(t)) == t
  {
    SlashesDecoded(t);
    TildesDecoded(t);
  }

  // ---------- paths ----------

  /** `s.split("/")`. */
  function Split(s: string): (r: seq<string>)
    ensures r != []
  {
    if s == [] then [""]
    else
      var rest := Split(s[1..]);
      if s[0] == '/' then [""] + rest else [[s[0]] + rest[0]] + rest[1..]
  }

  function DecodeAll(tokens: seq<string>): seq<string> {
    seq(|tokens|, i requires 0 <= i < |tokens| => Decode(tokens[i]))
  }

  /** The tokens of a mutation's path. */
  function TokensOf(path: string): seq<string> { DecodeAll(Split(path)[1..]) }

  /** The pointer text for a list of tokens. */
  function PathOf(tokens: seq<string>): string {
    if tokens == [] then "" else ['/'] + (Escape(tokens[0]) + PathOf(tokens[1..]))
  }

  function EscapeAll(tokens: seq<string>): seq<string> {
    seq(|tokens|, i requires 0 <= i < |tokens| => Escape(tokens[i]))
  }

  predicate NoSlash(s: string) { forall i :: 0 <= i < |s| ==> s[i] != '/' }

  lemma {:induction false} EscapedHasNoSlash(t: string)
    ensures NoSlash(Escape(t))
  {
    if t != [] { EscapedHasNoSlash(t[1..]); }
  }

  /** Text without a slash goes to the first piece. */
  lemma {:induction false} SplitAfter(s: string, rest: string)
    requires NoSlash(s)
    ensures Split(s + rest) == [s + Split(rest)[0]] + Split(rest)[1..]
  {
    if s == [] {
      assert s + rest == rest;
      assert s + Split(rest)[0] == Split(rest)[0];
    } else {
      assert (s + rest)[1..] == s[1..] + rest;
      SplitAfter(s[1..], rest);
      assert [s[0]] + (s[1..] + Split(rest)[0]) == s + Split(rest)[0];
    }
  }

  lemma {:induction false} SplitPath(tokens: seq<string>)
    ensures Split(PathOf(tokens)) == [""] + EscapeAll(tokens)
    decreases |tokens|
  {
    if tokens == [] {
      assert EscapeAll(tokens) == [];
    } else {
      var rest := PathOf(tokens[1..]);
      SplitPath(tokens[1..]);
      EscapedHasNoSlash(tokens[0]);
      SplitAfter(Escape(tokens[0]), rest);
      assert PathOf(tokens)[1..] == Escape(tokens[0]) + rest;
      assert Escape(tokens[0]) + "" == Escape(tokens[0]);
      assert EscapeAll(tokens) == [Escape(tokens[0])] + EscapeAll(tokens[1..]);
    }
  }

  /** Any list of tokens is the token list of its pointer text. */
  lemma TokensRoundTrip(tokens: seq<string>)
    ensures TokensOf(PathOf(tokens)) == tokens
  {
    SplitPath(tokens);
    forall i | 0 <= i < |tokens| ensures Decode(EscapeAll(tokens)[i]) == tokens[i] { DecodeInvertsEscape(tokens[i]); }
  }

  // ---------- reading ----------

  /** Python's `int` on text: None when it raises. */
  type Int = string -> Option<int>

  /** The position a list index means; negative ones count from the end. */
  function Position<T>(items: seq<T>, index: int): Option<nat> {
    if 0 <= index < |items| then Some(index)
    else if -|items| <= index < 0 then Some(|items| + index)
    else None
  }

  function PositionOf<T>(toInt: Int, items: seq<T>, token: string): Option<nat> {
    var index := toInt(token);
    if index.None? then None else Position(items, index.value)
  }

  lemma PositionInRange<T>(toInt: Int, items: seq<T>, token: string)
    ensures PositionOf(toInt, items, token).Some? ==> PositionOf(toInt, items, token).value < |items|
  {
  }

  /** One step down a document. */
  function Child(toInt: Int, v: Value, token: string): Option<Value> {
    match v
    case Arr(items) =>
      PositionInRange(toInt, items, token);
      var at := PositionOf(toInt, items, token);
      if at.None? then None else Some(items[at.value])
    case Obj(members) => if token in members then Some(members[token]) else None
    case _ => None
  }

  function Read(toInt: Int, v: Value, path: seq<string>): Option<Value> {
    if path == [] then Some(v)
    else
      var child := Child(toInt, v, path[0]);
      if child.None? then None else Read(toInt, child.value, path[1..])
  }

  // ---------- mutation ----------

  datatype Op = Add | Replace | Remove | Unsupported

  /** `list.insert`. */
  function InsertAt<T>(items: seq<T>, index: int, x: T): seq<T>
    requires index <= |items|
  {
    var at := if index >= 0 then index else if |items| + index >= 0 then |items| + index else 0;
    items[..at] + [x] + items[at..]
  }

  /** The edit of a list: None when it raises. */
  function EditList<T>(toInt: Int, items: seq<T>, final: string, op: Op, x: T): Option<seq<T>> {
    var index := toInt(final);
    if index.None? then None
    else
      PositionInRange(toInt, items, final);
      var at := Position(items, index.value);
      match op
      case Add => if index.value > |items| then None else Some(InsertAt(items, index.value, x))
      case Replace => if at.None? then None else Some(items[at.value := x])
      case Remove => if at.None? then None else Some(items[..at.value] + items[at.value + 1..])
      case Unsupported => None
  }

  /** The edit of a dictionary: None when it raises. */
  function EditDict<T>(members: map<string, T>, final: string, op: Op, x: T): Option<map<string, T>> {
    match op
    case Add => Some(members[final := x])
    case Replace => if final !in members then None else Some(members[final := x])
    case Remove => if final !in members then None else Some(members - {final})
    case Unsupported => None
  }

  /** The edit of the container that holds the target. */
  function Edit(toInt: Int, parent: Value, final: string, op: Op, x: Value): Option<Value> {
    match parent
    case Arr(items) =>
      var edited := EditList(toInt, items, final, op, x);
      if edited.None? then None else Some(Arr(edited.value))
    case Obj(members) =>
      var edited := EditDict(members, final, op, x);
      if edited.None? then None else Some(Obj(edited.value))
    case _ => None
  }

  /** The document with one child replaced. */
  function WithChild(toInt: Int, v: Value, token: string, child: Value): Value
    requires Child(toInt, v, token).Some?
  {
    match v
    case Arr(items) => PositionInRange(toInt, items, token); Arr(items[PositionOf(toInt, items, token).value := child])
    case Obj(members) => Obj(members[token := child])
  }

  /** `_apply_mutation`: None when it raises. */
  function Apply(toInt: Int, v: Value, path: seq<string>, op: Op, x: Value): Option<Value> {
    if path == [] then None
    else if |path| == 1 then Edit(toInt, v, path[0], op, x)
    else
      var child := Child(toInt, v, path[0]);
      if child.None? then None
      else
        var changed := Apply(toInt, child.value, path[1..], op, x);
        if changed.None? then None else Some(WithChild(toInt, v, path[0], changed.value))
  }

  lemma ChildOfWithChild(toInt: Int, v: Value, token: string, child: Value)
    requires Child(toInt, v, token).Some?
    ensures Child(toInt, WithChild(toInt, v, token, child), token) == Some(child)
    ensures WithChild(toInt, v, token, Child(toInt, v, token).value) == v
  {
  }

  /** A replacement succeeds exactly where something can be read, and is read there afterwards. */
  lemma {:induction false} ReplaceThenRead(toInt: Int, v: Value, path: seq<string>, x: Value)
    requires path != []
    ensures Apply(toInt, v, path, Replace, x).Some? <==> Read(toInt, v, path).Some?
    ensures Apply(toInt, v, path, Replace, x).Some? ==> Read(toInt, Apply(toInt, v, path, Replace, x).value, path) == Some(x)
    decreases |path|
  {
    if |path| == 1 {
      assert path[1..] == [];
    } else {
      var child := Child(toInt, v, path[0]);
      if child.Some? {
        ReplaceThenRead(toInt, child.value, path[1..], x);
        var changed := Apply(toInt, child.value, path[1..], Replace, x);
        if changed.Some? { ChildOfWithChild(toInt, v, path[0], changed.value); }
      }
    }
  }

  /** Two tokens lead to different children. */
  predicate Apart(toInt: Int, v: Value, a: string, b: string) {
    match v
    case Arr(items) => PositionOf(toInt, items, a).Some? && PositionOf(toInt, items, a) != PositionOf(toInt, items, b)
    case Obj(_) => a != b
    case _ => false
  }

  predicate SameChild(toInt: Int, v: Value, a: string, b: string) {
    match v
    case Arr(items) => PositionOf(toInt, items, a).Some? && PositionOf(toInt, items, a) == PositionOf(toInt, items, b)
    case Obj(_) => a == b
    case _ => false
  }

  /** At some point the two paths part. */
  predicate Part(toInt: Int, v: Value, a: seq<string>, b: seq<string>)
    decreases |a|
  {
    a != [] && b != [] &&
    (Apart(toInt, v, a[0], b[0]) ||
     (SameChild(toInt, v, a[0], b[0]) && Child(toInt, v, a[0]).Some? && Part(toInt, Child(toInt, v, a[0]).value, a[1..], b[1..])))
  }

  lemma ApartChild(toInt: Int, v: Value, a: string, b: string, child: Value)
    requires Child(toInt, v, a).Some? && Apart(toInt, v, a, b)
    ensures Child(toInt, WithChild(toInt, v, a, child), b) == Child(toInt, v, b)
  {
    if v.Arr? {
      var at := PositionOf(toInt, v.items, b);
      PositionInRange(toInt, v.items, b);
      PositionInRange(toInt, v.items, a);
    }
  }

  lemma SameChildRead(toInt: Int, v: Value, a: string, b: string, child: Value)
    requires Child(toInt, v, a).Some? && SameChild(toInt, v, a, b)
    ensures Child(toInt, v, b) == Child(toInt, v, a)
    ensures Child(toInt, WithChild(toInt, v, a, child), b) == Some(child)
  {
  }

  lemma EditIsWithChild(toInt: Int, v: Value, token: string, x: Value)
    requires Edit(toInt, v, token, Replace, x).Some?
    ensures Child(toInt, v, token).Some? && Edit(toInt, v, token, Replace, x) == Some(WithChild(toInt, v, token, x))
  {
  }

  /** A replacement leaves every path that parts from its own as it was. */
  lemma {:induction false} ReplaceFrame(toInt: Int, v: Value, a: seq<string>, b: seq<string>, x: Value)
    requires Apply(toInt, v, a, Replace, x).Some? && Part(toInt, v, a, b)
    ensures Read(toInt, Apply(toInt, v, a, Replace, x).value, b) == Read(toInt, v, b)
    decreases |a|
  {
    if |a| == 1 {
      EditIsWithChild(toInt, v, a[0], x);
      ApartChild(toInt, v, a[0], b[0], x);
    } else {
      var child := Child(toInt, v, a[0]).value;
      var changed := Apply(toInt, child, a[1..], Replace, x).value;
      if Apart(toInt, v, a[0], b[0]) {
        ApartChild(toInt, v, a[0], b[0], changed);
      } else {
        SameChildRead(toInt, v, a[0], b[0], changed);
        ReplaceFrame(toInt, child, a[1..], b[1..], x);
      }
    }
  }

  /** Index texts that are neither negative nor two texts for one number. */
  ghost predicate PlainIndices(toInt: Int, tokens: set<string>) {
    (forall s :: s in tokens && toInt(s).Some? ==> toInt(s).value >= 0) &&
    (forall s, t :: s in tokens && t in tokens && toInt(s).Some? && toInt(s) == toInt(t) ==> s == t)
  }

  function TokenSet(path: seq<string>): set<string> { set i | 0 <= i < |path| :: path[i] }

  /** With plain indices, a readable path parts from every other unless one extends the other. */
  lemma {:induction false} UnrelatedPathsPart(toInt: Int, v: Value, a: seq<string>, b: seq<string>)
    requires Read(toInt, v, a).Some?
    requires PlainIndices(toInt, TokenSet(a) + TokenSet(b))
    requires !(a <= b) && !(b <= a)
    ensures Part(toInt, v, a, b)
    decreases |a|
  {
    assert a[0] in TokenSet(a) && b[0] in TokenSet(b);
    if a[0] == b[0] {
      assert a == [a[0]] + a[1..] && b == [b[0]] + b[1..];
      assert TokenSet(a[1..]) <= TokenSet(a) && TokenSet(b[1..]) <= TokenSet(b) by { TailTokens(a); TailTokens(b); }
      UnrelatedPathsPart(toInt, Child(toInt, v, a[0]).value, a[1..], b[1..]);
    }
  }

  lemma TailTokens(path: seq<string>)
    requires path != []
    ensures TokenSet(path[1..]) <= TokenSet(path)
  {
    forall t | t in TokenSet(path[1..]) ensures t in TokenSet(path) {
      var i :| 0 <= i < |path[1..]| && path[1..][i] == t;
      assert path[i + 1] == t;
    }
  }

  // ---------- add, then remove ----------

  /**
   * Where removing undoes adding: at a new member; at a place of the list counted
   * from its start; counted from its end, where `insert` reaches the start exactly,
   * or where the element is already there.
   */
  predicate PlaceRestores(toInt: Int, parent: Value, final: string, x: Value) {
    match parent
    case Arr(items) =>
      var index, n := toInt(final), |items|;
      index.Some? &&
      (0 <= index.value <= n || index.value == -(n + 1) || (-n <= index.value < 0 && items[n + index.value] == x))
    case Obj(members) => final !in members
    case _ => false
  }

  predicate Restores(toInt: Int, v: Value, path: seq<string>, x: Value)
    requires path != []
  {
    var parent := Read(toInt, v, path[..|path| - 1]);
    parent.Some? && PlaceRestores(toInt, parent.value, path[|path| - 1], x)
  }

  /** Inserting at one place of a list and dropping another. */
  lemma InsertThenDrop<T>(items: seq<T>, at: nat, drop: nat, x: T)
    requires at <= |items| && at <= drop <= at + 1 && drop <= |items|
    ensures var longer := items[..at] + [x] + items[at..];
            (longer[..drop] + longer[drop + 1..] == items <==> (drop == at || items[at] == x)) &&
            (drop == at ==> longer[drop] == x) && (drop == at + 1 ==> longer[drop] == items[at])
  {
    var longer := items[..at] + [x] + items[at..];
    if drop == at {
      assert longer[..drop] + longer[drop + 1..] == items;
    } else {
      assert longer[..drop] + longer[drop + 1..] == items[..at] + [x] + items[at + 1..];
      assert (items[..at] + [x] + items[at + 1..])[at] == x;
      if items[at] == x { assert items[..at] + [x] + items[at + 1..] == items; }
    }
  }

  lemma ListRestores<T>(toInt: Int, items: seq<T>, final: string, x: T)
    requires toInt(final).Some?
    ensures var index, n, added := toInt(final).value, |items|, EditList(toInt, items, final, Add, x);
            var places := 0 <= index <= n || index == -(n + 1) || (-n <= index < 0 && items[n + index] == x);
            (added.Some? && EditList(toInt, added.value, final, Remove, x) == Some(items) <==> places) &&
            (places ==> var at := PositionOf(toInt, added.value, final); at.Some? && added.value[at.value] == x)
  {
    var index, n := toInt(final).value, |items|;
    if 0 <= index <= n {
      InsertThenDrop(items, index, index, x);
    } else if -n <= index < 0 {
      InsertThenDrop(items, n + index, n + index + 1, x);
    } else if index == -(n + 1) {
      InsertThenDrop(items, 0, 0, x);
    }
  }

  lemma EditThenRemove(toInt: Int, v: Value, final: string, x: Value)
    ensures var added := Edit(toInt, v, final, Add, x);
            (added.Some? && Edit(toInt, added.value, final, Remove, x) == Some(v) <==> PlaceRestores(toInt, v, final, x)) &&
            (PlaceRestores(toInt, v, final, x) ==> Child(toInt, added.value, final) == Some(x))
  {
    match v
    case Arr(items) =>
      if toInt(final).Some? { ListRestores(toInt, items, final, x); }
    case Obj(members) =>
      if final !in members { assert members[final := x] - {final} == members; }
    case _ =>
  }

  /** Removing restores the document exactly from those places, and there the addition is read back. */
  lemma {:induction false} AddThenRemove(toInt: Int, v: Value, path: seq<string>, x: Value)
    requires path != []
    ensures var added := Apply(toInt, v, path, Add, x);
            (added.Some? && Apply(toInt, added.value, path, Remove, x) == Some(v) <==> Restores(toInt, v, path, x)) &&
            (Restores(toInt, v, path, x) ==> Read(toInt, added.value, path) == Some(x))
    decreases |path|
  {
    if |path| == 1 {
      assert path == [path[0]];
      EditThenRemove(toInt, v, path[0], x);
    } else if Child(toInt, v, path[0]).Some? {
      var child, added := Child(toInt, v, path[0]).value, Apply(toInt, v, path, Add, x);
      assert path[..|path| - 1][1..] == path[1..][..|path| - 2];
      AddThenRemove(toInt, child, path[1..], x);
      if added.Some? {
        var changed := Apply(toInt, child, path[1..], Add, x).value;
        var removed := Apply(toInt, changed, path[1..], Remove, x);
        ChildOfWithChild(toInt, v, path[0], changed);
        if removed.Some? {
          ChildTwice(toInt, v, path[0], changed, removed.value);
          ChildOfWithChild(toInt, v, path[0], removed.value);
        }
      }
    }
  }

  lemma ChildTwice(toInt: Int, v: Value, token: string, first: Value, second: Value)
    requires Child(toInt, v, token).Some? && Child(toInt, WithChild(toInt, v, token, first), token).Some?
    ensures WithChild(toInt, WithChild(toInt, v, token, first), token, second) == WithChild(toInt, v, token, second)
  {
  }

  /** Counted from the end, the place added to need not be the place removed from. */
  lemma NegativeIndexDoesNotRestore(toInt: Int)
    requires toInt("-1") == Some(-1)
    ensures var v := Arr([Num(0)]);
            Apply(toInt, v, ["-1"], Add, Num(7)).Some? &&
            Apply(toInt, Apply(toInt, v, ["-1"], Add, Num(7)).value, ["-1"], Remove, Num(7)) == Some(Arr([Num(7)]))
  {
    var v := Arr([Num(0)]);
    assert InsertAt(v.items, -1, Num(7)) == [Num(7), Num(0)];
    assert [Num(7), Num(0)][..1] + [Num(7), Num(0)][2..] == [Num(7)];
  }

  // ---------- when an operation succeeds ----------

  /** An addition needs a container to add to: any dictionary, or a list not shorter than the index. */
  predicate Addable(toInt: Int, parent: Option<Value>, final: string) {
    match parent
    case Some(Obj(_)) => true
    case Some(Arr(items)) => toInt(final).Some? && toInt(final).value <= |items|
    case _ => false
  }

  /** Indices below the start insert there, other negative ones before the place they count to. */
  lemma InsertsExactly<T>(toInt: Int, items: seq<T>, final: string, x: T)
    requires EditList(toInt, items, final, Add, x).Some?
    ensures var r := EditList(toInt, items, final, Add, x).value;
            exists at :: 0 <= at <= |items| && r == items[..at] + [x] + items[at..] &&
                         (at == toInt(final).value || at == |items| + toInt(final).value < |items| ||
                          (at == 0 && toInt(final).value < -|items|))
  {
    var i, n := toInt(final).value, |items|;
    var at := if i >= 0 then i else if n + i >= 0 then n + i else 0;
    assert EditList(toInt, items, final, Add, x).value == items[..at] + [x] + items[at..];
  }

  lemma {:induction false} AddsExactly(toInt: Int, v: Value, path: seq<string>, x: Value)
    requires path != []
    ensures Apply(toInt, v, path, Add, x).Some? <==>
            Addable(toInt, Read(toInt, v, path[..|path| - 1]), path[|path| - 1])
    decreases |path|
  {
    if |path| > 1 && Child(toInt, v, path[0]).Some? {
      assert path[..|path| - 1][1..] == path[1..][..|path| - 2];
      AddsExactly(toInt, Child(toInt, v, path[0]).value, path[1..], x);
    }
  }

  /** A removal succeeds exactly where something can be read. */
  lemma {:induction false} RemovesExactly(toInt: Int, v: Value, path: seq<string>, x: Value)
    requires path != []
    ensures Apply(toInt, v, path, Remove, x).Some? <==> Read(toInt, v, path).Some?
    decreases |path|
  {
    if |path| == 1 {
      assert path[1..] == [];
    } else if Child(toInt, v, path[0]).Some? {
      RemovesExactly(toInt, Child(toInt, v, path[0]).value, path[1..], x);
    }
  }

  predicate FromStart(toInt: Int, parent: Option<Value>, final: string) {
    parent.Some? && (parent.value.Arr? ==> toInt(final).Some? && toInt(final).value >= 0)
  }

  /** What was removed from a dictionary, or from a place counted from a list's start, can be put back there. */
  lemma {:induction false} RemoveThenAdd(toInt: Int, v: Value, path: seq<string>, x: Value)
    requires path != [] && Read(toInt, v, path).Some?
    requires FromStart(toInt, Read(toInt, v, path[..|path| - 1]), path[|path| - 1])
    ensures Apply(toInt, v, path, Remove, x).Some?
    ensures Apply(toInt, Apply(toInt, v, path, Remove, x).value, path, Add, Read(toInt, v, path).value) == Some(v)
    decreases |path|
  {
    RemovesExactly(toInt, v, path, x);
    if |path| == 1 {
      assert path[1..] == [] && path[..0] == [];
      DropThenInsert(toInt, v, path[0], x);
    } else {
      var child := Child(toInt, v, path[0]).value;
      assert path[..|path| - 1][1..] == path[1..][..|path| - 2];
      RemoveThenAdd(toInt, child, path[1..], x);
      var changed := Apply(toInt, child, path[1..], Remove, x).value;
      ChildOfWithChild(toInt, v, path[0], changed);
      ChildTwice(toInt, v, path[0], changed, child);
    }
  }

  lemma DropThenInsert(toInt: Int, v: Value, final: string, x: Value)
    requires Child(toInt, v, final).Some? && (v.Arr? ==> toInt(final).value >= 0)
    ensures Edit(toInt, v, final, Remove, x).Some?
    ensures Edit(toInt, Edit(toInt, v, final, Remove, x).value, final, Add, Child(toInt, v, final).value) == Some(v)
  {
    match v
    case Arr(items) =>
      var at := toInt(final).value;
      var shorter := items[..at] + items[at + 1..];
      assert shorter[..at] == items[..at] && shorter[at..] == items[at + 1..];
      assert items[..at] + [items[at]] + items[at + 1..] == items;
    case Obj(members) => assert (members - {final})[final := members[final]] == members;
  }

  /** Nothing else is supported: no other operation, and none on the whole document. */
  lemma {:induction false} OthersFail(toInt: Int, v: Value, path: seq<string>, op: Op, x: Value)
    requires op == Unsupported || path == []
    ensures Apply(toInt, v, path, op, x) == None
    decreases |path|
  {
    if |path| > 1 && Child(toInt, v, path[0]).Some? { OthersFail(toInt, Child(toInt, v, path[0]).value, path[1..], op, x); }
  }

  // ---------- a vector's mutations ----------

  datatype Mutation = Mutation(path: string, op: Op, value: Value)

  function ApplyAll(toInt: Int, v: Value, ms: seq<Mutation>): Option<Value> {
    if ms == [] then Some(v)
    else
      var k := |ms| - 1;
      var before := ApplyAll(toInt, v, ms[..k]);
      if before.None? then None else Apply(toInt, before.value, TokensOf(ms[k].path), ms[k].op, ms[k].value)
  }

  lemma ApplyAllNext(toInt: Int, v: Value, ms: seq<Mutation>, i: nat, u: Value)
    requires i < |ms| && ApplyAll(toInt, v, ms[..i]) == Some(u)
    ensures ApplyAll(toInt, v, ms[..i + 1]) == Apply(toInt, u, TokensOf(ms[i].path), ms[i].op, ms[i].value)
  {
    assert ms[..i + 1][..i] == ms[..i];
  }

  lemma {:induction false} FailureStays(toInt: Int, v: Value, ms: seq<Mutation>, n: nat)
    requires n <= |ms| && ApplyAll(toInt, v, ms[..n]).None?
    ensures ApplyAll(toInt, v, ms).None?
    decreases |ms|
  {
    if n < |ms| {
      assert ms[..|ms| - 1][..n] == ms[..n];
      FailureStays(toInt, v, ms[..|ms| - 1], n);
    } else {
      assert ms[..n] == ms;
    }
  }
}
