// The two orders in which object keys are sorted before serialization: Python's
// `sorted` compares code points, JavaScript's `Array.prototype.sort` compares
// UTF-16 code units.
module KeyOrder {

  datatype Order = CodePoint | Utf16

  /** Code units of one character. */
  function UnitsOfChar(o: Order, c: char): (u: seq<int>)
    ensures u != []
  {
    var v := c as int;
    if o == CodePoint || v < 0x1_0000 then [v]
    else [0xD800 + (v - 0x1_0000) / 0x400, 0xDC00 + (v - 0x1_0000) % 0x400]
  }

  function Units(o: Order, s: string): seq<int> {
    if s == [] then [] else UnitsOfChar(o, s[0]) + Units(o, s[1..])
  }

  predicate LexLess(a: seq<int>, b: seq<int>) {
    b != [] && (a == [] || a[0] < b[0] || (a[0] == b[0] && LexLess(a[1..], b[1..])))
  }

  predicate Before(o: Order, a: string, b: string) {
    LexLess(Units(o, a), Units(o, b))
  }

  /** A supplementary character against one of U+E000..U+FFFF. */
  predicate Swapped(c: char, d: char) {
    (c as int >= 0x1_0000 && 0xE000 <= d as int <= 0xFFFF) ||
    (d as int >= 0x1_0000 && 0xE000 <= c as int <= 0xFFFF)
  }

  /** The first differing characters of two keys are swapped by UTF-16. */
  predicate Conflict(a: string, b: string) {
    a != [] && b != [] &&
    if a[0] == b[0] then Conflict(a[1..], b[1..]) else Swapped(a[0], b[0])
  }

  lemma {:induction false} LexIrreflexive(a: seq<int>)
    ensures !LexLess(a, a)
  {
    if a != [] { LexIrreflexive(a[1..]); }
  }

  lemma {:induction false} LexTransitive(a: seq<int>, b: seq<int>, c: seq<int>)
    requires LexLess(a, b) && LexLess(b, c)
    ensures LexLess(a, c)
  {
    if a != [] && a[0] == b[0] == c[0] { LexTransitive(a[1..], b[1..], c[1..]); }
  }

  lemma {:induction false} LexTotal(a: seq<int>, b: seq<int>)
    ensures LexLess(a, b) || LexLess(b, a) || a == b
  {
    if a != [] && b != [] && a[0] == b[0] {
      LexTotal(a[1..], b[1..]);
      assert a == [a[0]] + a[1..] && b == [b[0]] + b[1..];
    }
  }

  lemma {:induction false} LexCommonPrefix(p: seq<int>, a: seq<int>, b: seq<int>)
    ensures LexLess(p + a, p + b) == LexLess(a, b)
  {
    if p == [] {
      assert p + a == a && p + b == b;
    } else {
      assert (p + a)[1..] == p[1..] + a && (p + b)[1..] == p[1..] + b;
      LexCommonPrefix(p[1..], a, b);
    }
  }

  /** Two different characters already decide the order, up to the swap. */
  lemma CharsDecide(o: Order, c: char, d: char, x: seq<int>, y: seq<int>)
    requires c != d
    ensures LexLess(UnitsOfChar(o, c) + x, UnitsOfChar(o, d) + y)
            == (if o == Utf16 && Swapped(c, d) then d < c else c < d)
  {
    var u, v := UnitsOfChar(o, c) + x, UnitsOfChar(o, d) + y;
    assert u[0] == UnitsOfChar(o, c)[0] && v[0] == UnitsOfChar(o, d)[0];
    if u[0] == v[0] {
      var m, n := c as int - 0x1_0000, d as int - 0x1_0000;
      assert u[1] == 0xDC00 + m % 0x400 && v[1] == 0xDC00 + n % 0x400;
      assert m == m / 0x400 * 0x400 + m % 0x400 && n == n / 0x400 * 0x400 + n % 0x400;
      assert u[1] != v[1];
    }
  }

  /** How two different keys compare under either order. */
  lemma {:induction false} BeforeSplit(o: Order, a: string, b: string)
    ensures a != [] && b != [] && a[0] == b[0] ==> Before(o, a, b) == Before(o, a[1..], b[1..])
    ensures a != [] && b != [] && a[0] != b[0] ==>
              Before(o, a, b) == (if o == Utf16 && Swapped(a[0], b[0]) then b[0] < a[0] else a[0] < b[0])
    ensures a == [] || b == [] ==> Before(o, a, b) == (|a| < |b|)
  {
    if a != [] && b != [] {
      if a[0] == b[0] {
        LexCommonPrefix(UnitsOfChar(o, a[0]), Units(o, a[1..]), Units(o, b[1..]));
      } else {
        CharsDecide(o, a[0], b[0], Units(o, a[1..]), Units(o, b[1..]));
      }
    }
  }

  /** The two orders agree on two different keys exactly when these do not conflict. */
  lemma {:induction false} OrdersAgree(a: string, b: string)
    ensures a != b ==> (Before(Utf16, a, b) == Before(CodePoint, a, b) <==> !Conflict(a, b))
  {
    BeforeSplit(Utf16, a, b);
    BeforeSplit(CodePoint, a, b);
    if a != [] && b != [] && a[0] == b[0] {
      assert a == [a[0]] + a[1..] && b == [b[0]] + b[1..];
      OrdersAgree(a[1..], b[1..]);
    }
  }

  lemma {:induction false} ConflictSymmetric(a: string, b: string)
    ensures Conflict(a, b) == Conflict(b, a)
  {
    if a != [] && b != [] && a[0] == b[0] { ConflictSymmetric(a[1..], b[1..]); }
  }

  lemma {:induction false} UnitsInjective(o: Order, a: string, b: string)
    requires Units(o, a) == Units(o, b)
    ensures a == b
  {
    if a == [] || b == [] {
    } else if a[0] != b[0] {
      CharsDecide(o, a[0], b[0], Units(o, a[1..]), Units(o, b[1..]));
      CharsDecide(o, b[0], a[0], Units(o, b[1..]), Units(o, a[1..]));
      LexIrreflexive(Units(o, a));
      assert false;
    } else {
      assert Units(o, a)[|UnitsOfChar(o, a[0])|..] == Units(o, a[1..]);
      assert Units(o, b)[|UnitsOfChar(o, b[0])|..] == Units(o, b[1..]);
      UnitsInjective(o, a[1..], b[1..]);
      assert a == [a[0]] + a[1..] && b == [b[0]] + b[1..];
    }
  }

  /** Either order is a strict total order on keys. */
  lemma BeforeIsStrictTotal(o: Order, a: string, b: string, c: string)
    ensures !Before(o, a, a)
    ensures Before(o, a, b) ==> !Before(o, b, a)
    ensures Before(o, a, b) && Before(o, b, c) ==> Before(o, a, c)
    ensures Before(o, a, b) || Before(o, b, a) || a == b
  {
    LexIrreflexive(Units(o, a));
    if Before(o, a, b) && Before(o, b, a) { LexTransitive(Units(o, a), Units(o, b), Units(o, a)); }
    if Before(o, a, b) && Before(o, b, c) { LexTransitive(Units(o, a), Units(o, b), Units(o, c)); }
    LexTotal(Units(o, a), Units(o, b));
    if Units(o, a) == Units(o, b) { UnitsInjective(o, a, b); }
  }
}
