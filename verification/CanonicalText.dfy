// Canonical JSON text: what it determines, and when the two implementations
// write the same one.
module CanonicalText {
  import opened Hashing
  import opened Json
  import opened JsonText
  import opened KeyOrder
  import opened CanonicalForm

  function Canonical(o: Order, d: Doc): string { Print(Normalise(o, d)) }

  /** The verifiers' test: re-serializing what was read gives the text itself. */
  predicate Accepted(o: Order, text: string) {
    var r := Parse(text);
    r.Ok? && Canonical(o, r.value) == text
  }

  /** Canonical text reads back as the same value, whatever the insertion order was. */
  lemma CanonicalReadsBack(o: Order, d: Doc)
    requires Dict(d)
    ensures Parse(Canonical(o, d)).Ok?
    ensures Meaning(Parse(Canonical(o, d)).value) == Meaning(d)
  {
    NormaliseKeepsMeaning(o, d);
    ParseInvertsPrint(Normalise(o, d));
  }

  /** Canonical text is injective on values and blind to insertion order at every depth. */
  lemma SameTextIffSameValue(o: Order, a: Doc, b: Doc)
    requires Dict(a) && Dict(b)
    ensures Canonical(o, a) == Canonical(o, b) <==> Meaning(a) == Meaning(b)
  {
    SameFormIffSameMeaning(o, a, b);
    if Canonical(o, a) == Canonical(o, b) {
      NormaliseKeepsMeaning(o, a);
      NormaliseKeepsMeaning(o, b);
      PrintInjective(Normalise(o, a), Normalise(o, b));
    }
  }

  /** The test accepts the canonical texts of values and nothing else. */
  lemma AcceptedExactly(o: Order, text: string)
    ensures Accepted(o, text) <==> exists d :: Dict(d) && Canonical(o, d) == text
  {
    if exists d :: Dict(d) && Canonical(o, d) == text {
      var d :| Dict(d) && Canonical(o, d) == text;
      CanonicalReadsBack(o, d);
      SameTextIffSameValue(o, d, Parse(text).value);
    }
  }

  /** Hence one accepted text per value, although the reader itself is permissive. */
  lemma OneAcceptedTextPerValue(o: Order, s: string, t: string)
    requires Accepted(o, s) && Accepted(o, t)
    requires Meaning(Parse(s).value) == Meaning(Parse(t).value)
    ensures s == t
  {
    SameTextIffSameValue(o, Parse(s).value, Parse(t).value);
  }

  /** Python and TypeScript write the same text exactly for order-safe values. */
  lemma ImplementationsAgree(d: Doc)
    requires Dict(d)
    ensures Canonical(CodePoint, d) == Canonical(Utf16, d) <==> OrderSafe(d)
  {
    FormsAgreeIffSafe(d);
    if Canonical(CodePoint, d) == Canonical(Utf16, d) {
      NormaliseKeepsMeaning(CodePoint, d);
      NormaliseKeepsMeaning(Utf16, d);
      PrintInjective(Normalise(CodePoint, d), Normalise(Utf16, d));
    }
  }

  // ---------- a simple sufficient condition ----------

  predicate Supplementary(c: char) { c as int >= 0x1_0000 }

  predicate UpperBmp(c: char) { 0xE000 <= c as int <= 0xFFFF }

  /** No object has both kinds of characters in its keys. */
  predicate Unmixed(d: Doc) {
    match d
    case DArr(items) => forall i :: 0 <= i < |items| ==> Unmixed(items[i])
    case DObj(ms) =>
      ((forall i :: 0 <= i < |ms| ==> forall c | c in ms[i].key :: !Supplementary(c)) ||
       (forall i :: 0 <= i < |ms| ==> forall c | c in ms[i].key :: !UpperBmp(c))) &&
      forall i :: 0 <= i < |ms| ==> Unmixed(ms[i].value)
    case _ => true
  }

  lemma {:induction false} ConflictMixes(a: string, b: string)
    requires Conflict(a, b)
    ensures exists c, d :: ((c in a && d in b) || (c in b && d in a)) && Supplementary(c) && UpperBmp(d)
  {
    if a[0] == b[0] {
      ConflictMixes(a[1..], b[1..]);
      var c, d :| ((c in a[1..] && d in b[1..]) || (c in b[1..] && d in a[1..])) && Supplementary(c) && UpperBmp(d);
      assert (c in a && d in b) || (c in b && d in a);
    } else if Supplementary(a[0]) {
      assert a[0] in a && b[0] in b;
    } else {
      assert b[0] in b && a[0] in a;
    }
  }

  lemma {:induction false} UnmixedIsOrderSafe(d: Doc)
    requires Unmixed(d)
    ensures OrderSafe(d)
  {
    match d
    case DArr(items) =>
      forall i | 0 <= i < |items| ensures OrderSafe(items[i]) { UnmixedIsOrderSafe(items[i]); }
    case DObj(ms) =>
      forall i | 0 <= i < |ms| ensures OrderSafe(ms[i].value) { UnmixedIsOrderSafe(ms[i].value); }
      forall i, j | 0 <= i < j < |ms|
        ensures !Conflict(ms[i].key, ms[j].key)
      {
        if Conflict(ms[i].key, ms[j].key) {
          ConflictMixes(ms[i].key, ms[j].key);
          assert false;
        }
      }
    case _ =>
  }

  /** A two-member object on which the implementations disagree. */
  lemma ImplementationsCanDisagree()
    ensures exists d :: Dict(d) && Canonical(CodePoint, d) != Canonical(Utf16, d)
  {
    var a: string, b: string := ['\U{010000}'], ['\U{E000}'];
    var d := DObj([Member(a, DNull), Member(b, DNull)]);
    assert Conflict(d.members[0].key, d.members[1].key);
    ImplementationsAgree(d);
  }

  // ---------- digests ----------

  /** `sha256_uri` of a JSON value, over any digest function of texts. */
  function Digest(sha: string -> string, d: Doc): string { sha(Canonical(CodePoint, d)) }

  /** A digest depends on the value only; two values share one only if their texts clash. */
  lemma DigestBindsValue(sha: string -> string, a: Doc, b: Doc)
    requires Dict(a) && Dict(b)
    ensures Meaning(a) == Meaning(b) ==> Digest(sha, a) == Digest(sha, b)
    ensures Digest(sha, a) == Digest(sha, b) ==>
              Meaning(a) == Meaning(b) || Clash(sha, Canonical(CodePoint, a), Canonical(CodePoint, b))
  {
    SameTextIffSameValue(CodePoint, a, b);
  }

  /** Some dictionary with a given meaning. */
  ghost function Represent(v: Value): (d: Doc)
    ensures Dict(d) && Meaning(d) == v
    decreases v, 1, 0
  {
    match v
    case Null => DNull
    case Bool(b) => DBool(b)
    case Num(n) => DNum(n)
    case Str(s) => DStr(s)
    case Arr(items) =>
      var ds := seq(|items|, i requires 0 <= i < |items| => Represent(items[i]));
      assert Meaning(DArr(ds)).items == items;
      DArr(ds)
    case Obj(m) =>
      var ms := RepresentMembers(v, m.Keys);
      assert forall i :: 0 <= i < |ms| ==> ms[i].key in KeySet(ms);
      DictMeaning(ms, m);
      DObj(ms)
  }

  ghost function RepresentMembers(v: Value, keys: set<string>): (ms: seq<Member>)
    requires v.Obj? && keys <= v.members.Keys
    ensures Dict(DObj(ms)) && KeySet(ms) == keys
    ensures forall i :: 0 <= i < |ms| ==> Meaning(ms[i].value) == v.members[ms[i].key]
    decreases v, 0, keys
  {
    if keys == {} then []
    else
      var key :| key in keys;
      var rest := RepresentMembers(v, keys - {key});
      var ms := [Member(key, Represent(v.members[key]))] + rest;
      ConsMember(Member(key, Represent(v.members[key])), rest);
      ms
  }

  lemma ConsMember(m: Member, rest: seq<Member>)
    requires Dict(m.value) && Dict(DObj(rest)) && m.key !in KeySet(rest)
    ensures Dict(DObj([m] + rest)) && KeySet([m] + rest) == {m.key} + KeySet(rest)
  {
    var ms := [m] + rest;
    assert forall i :: 0 <= i < |rest| ==> rest[i].key in KeySet(rest) && ms[i + 1] == rest[i];
    assert ms[0] == m;
    forall k | k in KeySet(rest)
      ensures k in KeySet(ms)
    {
      var i :| 0 <= i < |rest| && rest[i].key == k;
      assert ms[i + 1].key == k;
    }
  }

  lemma DictMeaning(ms: seq<Member>, m: map<string, Value>)
    requires DistinctKeys(ms) && KeySet(ms) == m.Keys
    requires forall i :: 0 <= i < |ms| ==> ms[i].key in m && Meaning(ms[i].value) == m[ms[i].key]
    ensures Meaning(DObj(ms)) == Obj(m)
  {
    var a := Meaning(DObj(ms)).members;
    forall key | key in a
      ensures a[key] == m[key]
    {
      assert ms[IndexOf(ms, key)].key == key;
    }
    assert a == m;
  }

  /** The digest as a function of the value alone, as the record models use it. */
  ghost function ValueDigest(sha: string -> string, v: Value): string {
    Digest(sha, Represent(v))
  }

  /** It is the digest of every dictionary with that meaning, and is shared only if texts clash. */
  lemma ValueDigestIsDigest(sha: string -> string, d: Doc, w: Value)
    requires Dict(d)
    ensures ValueDigest(sha, Meaning(d)) == Digest(sha, d)
    ensures ValueDigest(sha, Meaning(d)) == ValueDigest(sha, w) ==>
              Meaning(d) == w || Clash(sha, Canonical(CodePoint, d), Canonical(CodePoint, Represent(w)))
  {
    DigestBindsValue(sha, Represent(Meaning(d)), d);
    DigestBindsValue(sha, d, Represent(w));
  }
}
