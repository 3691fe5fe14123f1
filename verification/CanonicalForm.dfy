// Sorting members at every depth: the normal form both serializers print.
module CanonicalForm {
  import opened Json
  import opened KeyOrder

  predicate Ascending(o: Order, ms: seq<Member>) {
    forall i, j :: 0 <= i < j < |ms| ==> Before(o, ms[i].key, ms[j].key)
  }

  function Insert(o: Order, m: Member, ms: seq<Member>): seq<Member> {
    if ms == [] || Before(o, m.key, ms[0].key) then [m] + ms
    else [ms[0]] + Insert(o, m, ms[1..])
  }

  function Sort(o: Order, ms: seq<Member>): seq<Member> {
    if ms == [] then [] else Insert(o, ms[0], Sort(o, ms[1..]))
  }

  function Normalise(o: Order, d: Doc): Doc {
    match d
    case DArr(items) =>
      DArr(seq(|items|, i requires 0 <= i < |items| => Normalise(o, items[i])))
    case DObj(ms) =>
      DObj(Sort(o, seq(|ms|, i requires 0 <= i < |ms| => Member(ms[i].key, Normalise(o, ms[i].value)))))
    case _ => d
  }

  /** Members of a dictionary object with normalised values, still in insertion order. */
  function NormalMembers(o: Order, ms: seq<Member>): (r: seq<Member>)
    ensures |r| == |ms|
    ensures forall i :: 0 <= i < |ms| ==> r[i] == Member(ms[i].key, Normalise(o, ms[i].value))
    ensures DistinctKeys(ms) ==> DistinctKeys(r)
    ensures KeySet(r) == KeySet(ms)
    ensures Normalise(o, DObj(ms)) == DObj(Sort(o, r))
  {
    var r := seq(|ms|, i requires 0 <= i < |ms| => Member(ms[i].key, Normalise(o, ms[i].value)));
    assert forall k :: k in KeySet(r) ==> k in KeySet(ms);
    assert forall i :: 0 <= i < |ms| ==> ms[i].key == r[i].key;
    r
  }

  lemma {:induction false} InsertSorts(o: Order, m: Member, ms: seq<Member>)
    requires Ascending(o, ms)
    requires forall i :: 0 <= i < |ms| ==> ms[i].key != m.key
    ensures Ascending(o, Insert(o, m, ms))
    ensures forall x :: x in Insert(o, m, ms) <==> x == m || x in ms
    ensures |Insert(o, m, ms)| == |ms| + 1
  {
    if ms == [] {
    } else if Before(o, m.key, ms[0].key) {
      forall i | 0 < i < |ms|
        ensures Before(o, m.key, ms[i].key)
      {
        BeforeIsStrictTotal(o, m.key, ms[0].key, ms[i].key);
      }
    } else {
      var rest := ms[1..];
      InsertSorts(o, m, rest);
      BeforeIsStrictTotal(o, m.key, ms[0].key, m.key);
      var r := Insert(o, m, rest);
      assert ms == [ms[0]] + rest;
      forall i | 0 <= i < |r|
        ensures Before(o, ms[0].key, r[i].key)
      {
        assert r[i] in r;
        if r[i] != m {
          var k :| 0 <= k < |rest| && rest[k] == r[i];
          assert ms[k + 1] == r[i];
        }
      }
    }
  }

  lemma {:induction false} SortSorts(o: Order, ms: seq<Member>)
    requires DistinctKeys(ms)
    ensures Ascending(o, Sort(o, ms))
    ensures forall x :: x in Sort(o, ms) <==> x in ms
    ensures |Sort(o, ms)| == |ms|
  {
    if ms != [] {
      var rest := ms[1..];
      SortSorts(o, rest);
      var s := Sort(o, rest);
      forall i | 0 <= i < |s|
        ensures s[i].key != ms[0].key
      {
        assert s[i] in s;
        var k :| 0 <= k < |rest| && rest[k] == s[i];
        assert ms[k + 1] == s[i];
      }
      InsertSorts(o, ms[0], s);
      assert ms == [ms[0]] + rest;
    }
  }

  lemma AscendingIsDistinct(o: Order, ms: seq<Member>)
    requires Ascending(o, ms)
    ensures DistinctKeys(ms)
  {
    forall i, j | 0 <= i < j < |ms|
      ensures ms[i].key != ms[j].key
    {
      BeforeIsStrictTotal(o, ms[i].key, ms[j].key, ms[j].key);
    }
  }

  lemma HasMember(ms: seq<Member>)
    requires ms != []
    ensures exists m :: m in ms
  {
    assert ms[0] in ms;
  }

  lemma TailMembers(o: Order, a: seq<Member>, x: Member)
    requires Ascending(o, a) && a != []
    ensures x in a[1..] <==> x in a && x != a[0]
    ensures Ascending(o, a[1..])
  {
    AscendingIsDistinct(o, a);
    assert a == [a[0]] + a[1..];
    if x in a[1..] {
      var k :| 0 <= k < |a[1..]| && a[1..][k] == x;
      assert a[k + 1] == x;
    }
  }

  lemma SameLeast(o: Order, a: seq<Member>, b: seq<Member>)
    requires Ascending(o, a) && Ascending(o, b) && a != [] && b != []
    requires a[0] in b && b[0] in a
    ensures a[0] == b[0]
  {
    var i :| 0 <= i < |b| && b[i] == a[0];
    var j :| 0 <= j < |a| && a[j] == b[0];
    BeforeIsStrictTotal(o, a[0].key, b[0].key, a[0].key);
    assert i == 0 || j == 0;
  }

  /** An ascending list is determined by its members. */
  lemma {:induction false} AscendingUnique(o: Order, a: seq<Member>, b: seq<Member>)
    requires Ascending(o, a) && Ascending(o, b)
    requires forall x :: x in a <==> x in b
    ensures a == b
  {
    if a != [] { HasMember(a); }
    if b != [] { HasMember(b); }
    if a != [] && b != [] {
      SameLeast(o, a, b);
      forall x
        ensures x in a[1..] <==> x in b[1..]
      {
        TailMembers(o, a, x);
        TailMembers(o, b, x);
      }
      TailMembers(o, a, a[0]);
      TailMembers(o, b, b[0]);
      AscendingUnique(o, a[1..], b[1..]);
      assert a == [a[0]] + a[1..] && b == [b[0]] + b[1..];
    }
  }

  /** What an object with distinct keys means, member by member. */
  lemma ObjectMeaning(ms: seq<Member>, m: Member)
    requires DistinctKeys(ms) && m in ms
    ensures m.key in KeySet(ms)
    ensures Meaning(DObj(ms)).members[m.key] == Meaning(m.value)
  {
    var i :| 0 <= i < |ms| && ms[i] == m;
    MeaningAt(ms, i);
  }

  lemma SameMembersSameMeaning(ms: seq<Member>, s: seq<Member>)
    requires DistinctKeys(ms) && DistinctKeys(s)
    requires KeySet(s) == KeySet(ms)
    requires forall i :: 0 <= i < |s| ==> Meaning(DObj(ms)).members[s[i].key] == Meaning(s[i].value)
    ensures Meaning(DObj(s)) == Meaning(DObj(ms))
  {
    var a, b := Meaning(DObj(s)).members, Meaning(DObj(ms)).members;
    assert a.Keys == b.Keys;
    forall key | key in a
      ensures a[key] == b[key]
    {
      assert s[IndexOf(s, key)].key == key;
    }
    assert a == b;
  }

  /** Sorting the normalised members keeps keys, and each key's meaning. */
  lemma SortedMembersMean(o: Order, ms: seq<Member>)
    requires DistinctKeys(ms)
    requires forall i :: 0 <= i < |ms| ==> Dict(Normalise(o, ms[i].value))
    requires forall i :: 0 <= i < |ms| ==> Meaning(Normalise(o, ms[i].value)) == Meaning(ms[i].value)
    ensures Dict(Normalise(o, DObj(ms)))
    ensures Meaning(Normalise(o, DObj(ms))) == Meaning(DObj(ms))
  {
    var r := NormalMembers(o, ms);
    var s := Sort(o, r);
    SortSorts(o, r);
    AscendingIsDistinct(o, s);
    forall i | 0 <= i < |s|
      ensures Dict(s[i].value) && s[i].key in KeySet(ms)
      ensures Meaning(DObj(ms)).members[s[i].key] == Meaning(s[i].value)
    {
      assert s[i] in s;
      var k :| 0 <= k < |r| && r[k] == s[i];
      MeaningAt(ms, k);
    }
    forall key | key in KeySet(ms)
      ensures key in KeySet(s)
    {
      var m := r[IndexOf(ms, key)];
      assert m in s;
      ObjectMeaning(s, m);
    }
    assert KeySet(s) == KeySet(ms);
    SameMembersSameMeaning(ms, s);
  }

  /** Normalising keeps the dictionary invariant and the meaning. */
  lemma {:induction false} NormaliseKeepsMeaning(o: Order, d: Doc)
    requires Dict(d)
    ensures Dict(Normalise(o, d))
    ensures Meaning(Normalise(o, d)) == Meaning(d)
  {
    match d
    case DArr(items) =>
      forall i | 0 <= i < |items|
        ensures Dict(Normalise(o, items[i])) && Meaning(Normalise(o, items[i])) == Meaning(items[i])
      {
        NormaliseKeepsMeaning(o, items[i]);
      }
      assert Meaning(Normalise(o, d)).items == Meaning(d).items;
    case DObj(ms) =>
      forall i | 0 <= i < |ms|
        ensures Dict(Normalise(o, ms[i].value)) && Meaning(Normalise(o, ms[i].value)) == Meaning(ms[i].value)
      {
        NormaliseKeepsMeaning(o, ms[i].value);
      }
      SortedMembersMean(o, ms);
    case _ =>
  }

  /** Objects of equal meaning have the same normalised members. */
  lemma MembersDetermineForm(o: Order, ms: seq<Member>, ns: seq<Member>)
    requires DistinctKeys(ms) && DistinctKeys(ns)
    requires Meaning(DObj(ms)) == Meaning(DObj(ns))
    requires forall i, j :: 0 <= i < |ms| && 0 <= j < |ns| && Meaning(ms[i].value) == Meaning(ns[j].value) ==>
               Normalise(o, ms[i].value) == Normalise(o, ns[j].value)
    ensures forall x :: x in NormalMembers(o, ms) ==> x in NormalMembers(o, ns)
  {
    assert KeySet(ms) == Meaning(DObj(ms)).members.Keys == Meaning(DObj(ns)).members.Keys == KeySet(ns);
    var r, t := NormalMembers(o, ms), NormalMembers(o, ns);
    forall i | 0 <= i < |ms|
      ensures r[i] in t
    {
      MeaningAt(ms, i);
      var j := IndexOf(ns, ms[i].key);
      MeaningAt(ns, j);
      assert Meaning(ms[i].value) == Meaning(ns[j].value);
      assert r[i] == t[j];
    }
  }

  /** One half of the main result: equal meanings have equal normal forms. */
  lemma {:induction false} EqualMeaningEqualForm(o: Order, a: Doc, b: Doc)
    requires Dict(a) && Dict(b)
    requires Meaning(a) == Meaning(b)
    ensures Normalise(o, a) == Normalise(o, b)
    decreases a
  {
    match a
    case DArr(items) =>
      assert |Meaning(a).items| == |Meaning(b).items|;
      forall i | 0 <= i < |items|
        ensures Normalise(o, items[i]) == Normalise(o, b.items[i])
      {
        assert Meaning(a).items[i] == Meaning(b).items[i];
        EqualMeaningEqualForm(o, items[i], b.items[i]);
      }
    case DObj(ms) =>
      forall i, j | 0 <= i < |ms| && 0 <= j < |b.members| && Meaning(ms[i].value) == Meaning(b.members[j].value)
        ensures Normalise(o, ms[i].value) == Normalise(o, b.members[j].value)
      {
        EqualMeaningEqualForm(o, ms[i].value, b.members[j].value);
      }
      MembersDetermineForm(o, ms, b.members);
      MembersDetermineForm(o, b.members, ms);
      var r, t := NormalMembers(o, ms), NormalMembers(o, b.members);
      SortSorts(o, r);
      SortSorts(o, t);
      AscendingUnique(o, Sort(o, r), Sort(o, t));
    case _ =>
  }

  /** The normal form captures exactly the meaning. */
  lemma SameFormIffSameMeaning(o: Order, a: Doc, b: Doc)
    requires Dict(a) && Dict(b)
    ensures Normalise(o, a) == Normalise(o, b) <==> Meaning(a) == Meaning(b)
  {
    NormaliseKeepsMeaning(o, a);
    NormaliseKeepsMeaning(o, b);
    if Meaning(a) == Meaning(b) { EqualMeaningEqualForm(o, a, b); }
  }

  // ---------- the two key orders ----------

  /** No object, at any depth, has two keys that conflict. */
  predicate OrderSafe(d: Doc) {
    match d
    case DArr(items) => forall i :: 0 <= i < |items| ==> OrderSafe(items[i])
    case DObj(ms) =>
      (forall i, j :: 0 <= i < j < |ms| ==> !Conflict(ms[i].key, ms[j].key)) &&
      forall i :: 0 <= i < |ms| ==> OrderSafe(ms[i].value)
    case _ => true
  }

  lemma SafeKeysSortAlike(ms: seq<Member>)
    requires DistinctKeys(ms)
    requires forall i, j :: 0 <= i < j < |ms| ==> !Conflict(ms[i].key, ms[j].key)
    ensures Sort(CodePoint, ms) == Sort(Utf16, ms)
  {
    SortSorts(CodePoint, ms);
    SortSorts(Utf16, ms);
    var s := Sort(CodePoint, ms);
    AscendingIsDistinct(CodePoint, s);
    forall i, j | 0 <= i < j < |s|
      ensures Before(Utf16, s[i].key, s[j].key)
    {
      assert s[i] in s && s[j] in s;
      var k, l :| 0 <= k < |ms| && 0 <= l < |ms| && ms[k] == s[i] && ms[l] == s[j];
      assert k != l;
      ConflictSymmetric(ms[k].key, ms[l].key);
      OrdersAgree(s[i].key, s[j].key);
    }
    AscendingUnique(Utf16, s, Sort(Utf16, ms));
  }

  /** Positions of a and b after sorting with either order, when the results coincide. */
  lemma AlikeSortedKeysAreSafe(a: seq<Member>, b: seq<Member>, i: nat, j: nat)
    requires DistinctKeys(a) && DistinctKeys(b)
    requires Sort(CodePoint, a) == Sort(Utf16, b)
    requires i < j < |a|
    ensures !Conflict(a[i].key, a[j].key)
  {
    SortSorts(CodePoint, a);
    SortSorts(Utf16, b);
    var s := Sort(CodePoint, a);
    assert a[i] in s && a[j] in s;
    var k, l :| 0 <= k < |s| && 0 <= l < |s| && s[k] == a[i] && s[l] == a[j];
    assert k != l;
    var lo, hi := if k < l then k else l, if k < l then l else k;
    assert Before(CodePoint, s[lo].key, s[hi].key) && Before(Utf16, s[lo].key, s[hi].key);
    OrdersAgree(s[lo].key, s[hi].key);
    ConflictSymmetric(a[i].key, a[j].key);
  }

  /** Python's and JavaScript's normal forms coincide exactly on order-safe values. */
  lemma {:induction false} FormsAgreeIffSafe(d: Doc)
    requires Dict(d)
    ensures Normalise(CodePoint, d) == Normalise(Utf16, d) <==> OrderSafe(d)
  {
    match d
    case DArr(items) =>
      forall i | 0 <= i < |items|
        ensures Normalise(CodePoint, items[i]) == Normalise(Utf16, items[i]) <==> OrderSafe(items[i])
      {
        FormsAgreeIffSafe(items[i]);
      }
      var x, y := Normalise(CodePoint, d).items, Normalise(Utf16, d).items;
      assert forall i :: 0 <= i < |items| ==> x[i] == Normalise(CodePoint, items[i]) && y[i] == Normalise(Utf16, items[i]);
      assert x == y <==> forall i :: 0 <= i < |items| ==> x[i] == y[i];
    case DObj(ms) =>
      var r, t := NormalMembers(CodePoint, ms), NormalMembers(Utf16, ms);
      forall i | 0 <= i < |ms|
        ensures r[i] == t[i] <==> OrderSafe(ms[i].value)
      {
        FormsAgreeIffSafe(ms[i].value);
      }
      if OrderSafe(d) {
        assert r == t;
        SafeKeysSortAlike(r);
      }
      if Sort(CodePoint, r) == Sort(Utf16, t) {
        SortSorts(CodePoint, r);
        SortSorts(Utf16, t);
        forall i | 0 <= i < |ms|
          ensures OrderSafe(ms[i].value)
        {
          assert r[i] in Sort(Utf16, t);
          var j :| 0 <= j < |t| && t[j] == r[i];
          assert t[j].key == ms[j].key && r[i].key == ms[i].key;
          assert j == i;
        }
        forall i, j | 0 <= i < j < |ms|
          ensures !Conflict(ms[i].key, ms[j].key)
        {
          AlikeSortedKeysAreSafe(r, t, i, j);
        }
      }
    case _ =>
  }
}
