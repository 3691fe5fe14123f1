// JSON values as the repository handles them, without floating-point numbers.
module Json {

  /** What a JSON text denotes: objects are maps, so member order is forgotten. */
  datatype Value =
    | Null
    | Bool(flag: bool)
    | Num(number: int)
    | Str(text: string)
    | Arr(items: seq<Value>)
    | Obj(members: map<string, Value>)

  /** A Python or JavaScript value: objects keep their insertion order. */
  datatype Doc =
    | DNull
    | DBool(flag: bool)
    | DNum(number: int)
    | DStr(text: string)
    | DArr(items: seq<Doc>)
    | DObj(members: seq<Member>)

  datatype Member = Member(key: string, value: Doc)

  predicate AllText(items: seq<Value>) { forall i :: 0 <= i < |items| ==> items[i].Str? }

  predicate DistinctKeys(ms: seq<Member>) {
    forall i, j :: 0 <= i < j < |ms| ==> ms[i].key != ms[j].key
  }

  /** The invariant of a dictionary, at every depth. */
  predicate Dict(d: Doc) {
    match d
    case DArr(items) => forall i :: 0 <= i < |items| ==> Dict(items[i])
    case DObj(ms) => DistinctKeys(ms) && forall i :: 0 <= i < |ms| ==> Dict(ms[i].value)
    case _ => true
  }

  function KeySet(ms: seq<Member>): set<string> {
    set i | 0 <= i < |ms| :: ms[i].key
  }

  /** Position of a key that is present. */
  function IndexOf(ms: seq<Member>, key: string): (i: nat)
    requires key in KeySet(ms)
    ensures i < |ms| && ms[i].key == key
  {
    if ms[0].key == key then 0
    else
      assert key in KeySet(ms[1..]) by {
        var j :| 0 <= j < |ms| && ms[j].key == key;
        assert ms[1..][j - 1].key == key;
      }
      1 + IndexOf(ms[1..], key)
  }

  function Meaning(d: Doc): Value {
    match d
    case DNull => Null
    case DBool(b) => Bool(b)
    case DNum(n) => Num(n)
    case DStr(s) => Str(s)
    case DArr(items) => Arr(seq(|items|, i requires 0 <= i < |items| => Meaning(items[i])))
    case DObj(ms) => Obj(map key: string | key in KeySet(ms) :: Meaning(ms[IndexOf(ms, key)].value))
  }

  /** In a dictionary, the member at any position is the one its key denotes. */
  lemma MeaningAt(ms: seq<Member>, i: nat)
    requires DistinctKeys(ms) && i < |ms|
    ensures ms[i].key in KeySet(ms)
    ensures IndexOf(ms, ms[i].key) == i
    ensures Meaning(DObj(ms)).members[ms[i].key] == Meaning(ms[i].value)
  {
    var k := IndexOf(ms, ms[i].key);
    assert ms[k].key == ms[i].key;
  }
}
