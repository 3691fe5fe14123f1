// The constructors' checks read off one table of field types per record.
module Checks {
  import opened Decimal
  import opened Json
  import opened Contracts
  import opened Audit

  datatype FieldType = Id | Hash | Sized(maximum: nat) | Flag | Level | Any

  const LETTERS := "abcdefghijklmnopqrstuvwxyz"

  /** The hexadecimal digits are these and a to f; names begin with a letter. */
  predicate IdText(s: string) {
    2 < |s| < 129 && s[0] in LETTERS && forall c :: c in s ==> c in LETTERS || c in TEN_DIGITS || c in "_.-"
  }

  predicate HashText(s: string) {
    |s| > 6 && s == "sha256:" + s[7..] && |s[7..]| == 64 && forall c :: c in s[7..] ==> c in TEN_DIGITS || c in SIX_LETTERS
  }

  /** The length of what has one. */
  function Size(v: Value): nat {
    match v
    case Str(s) => |s|
    case Arr(items) => |items|
    case Obj(m) => |m.Keys|
    case _ => 0
  }

  predicate Fits(v: Value, t: FieldType) {
    match t
    case Id => v.Str? && IdText(v.text)
    case Hash => v.Str? && HashText(v.text)
    case Sized(maximum) => 0 < Size(v) < maximum + 1
    case Flag => v == Bool(true) || v == Bool(false)
    case Level => v == Str("info") || v == Str("warning") || v == Str("error")
    case Any => true
  }

  predicate RowFits(row: seq<Value>, types: seq<FieldType>) {
    |row| == |types| && forall i :: 0 <= i < |row| ==> Fits(row[i], types[i])
  }

  lemma LettersExactly(c: char)
    ensures c in LETTERS <==> 'a' <= c <= 'z'
  {
    if 'a' <= c <= 'z' { assert LETTERS[c as int - 'a' as int] == c; }
  }

  lemma IdExactly(v: Value)
    ensures Identifier(v) <==> Fits(v, Id)
  {
    if v.Str? {
      forall c ensures c in LETTERS || c in TEN_DIGITS || c in "_.-" <==> IdentifierChar(c) { LettersExactly(c); HexDigitsExactly(c); }
      if |v.text| > 2 { LettersExactly(v.text[0]); }
      assert forall c :: c in v.text <==> exists i :: 0 <= i < |v.text| && v.text[i] == c;
    }
  }

  lemma HashExactly(v: Value)
    ensures HashUri(v) <==> Fits(v, Hash)
  {
    if v.Str? {
      var s := v.text;
      forall c ensures c in TEN_DIGITS || c in SIX_LETTERS <==> IsHex(c) { HexDigitsExactly(c); }
      if |s| == 71 && s[..7] == "sha256:" { assert s == "sha256:" + s[7..]; }
      if |s| >= 7 { assert forall c :: c in s[7..] <==> exists i :: 0 <= i < |s[7..]| && s[7..][i] == c; }
    }
  }

  lemma SizedExactly(v: Value, maximum: nat)
    ensures Bounded(v, maximum) <==> Fits(v, Sized(maximum))
  {
  }

  /** Each type against the check it stands for. */
  lemma TypesExactly()
    ensures forall v :: Identifier(v) <==> Fits(v, Id)
    ensures forall v :: HashUri(v) <==> Fits(v, Hash)
    ensures forall v, n {:trigger Bounded(v, n)} :: Bounded(v, n) <==> Fits(v, Sized(n))
  {
    forall v ensures Identifier(v) <==> Fits(v, Id) { IdExactly(v); }
    forall v ensures HashUri(v) <==> Fits(v, Hash) { HashExactly(v); }
    forall v, n: nat ensures Bounded(v, n) <==> Fits(v, Sized(n)) { SizedExactly(v, n); }
  }

  const CONTEXT_TYPES := [Id, Id, Id, Id, Sized(1000), Sized(500), Any, Sized(100)]
  const EVIDENCE_TYPES := [Id, Id, Id, Hash, Sized(2000), Any, Sized(2000)]
  const FINDING_TYPES := [Sized(128), Level, Flag, Sized(2000)]
  const RESULT_TYPES := [Id, Id, Hash, Id, Sized(64), Any, Any, Sized(100), Hash]

  lemma ContextChecked(c: Context)
    ensures ContextValid(c) <==> RowFits(ContextRow(c), CONTEXT_TYPES)
  {
    TypesExactly();
    var row, types := ContextRow(c), CONTEXT_TYPES;
    if RowFits(row, types) {
      assert Fits(row[0], types[0]) && Fits(row[1], types[1]) && Fits(row[2], types[2]) && Fits(row[3], types[3]);
      assert Fits(row[4], types[4]) && Fits(row[5], types[5]) && Fits(row[7], types[7]);
    }
  }

  lemma EvidenceChecked(e: Evidence)
    ensures EvidenceValid(e) <==> RowFits(EvidenceRow(e), EVIDENCE_TYPES)
  {
    TypesExactly();
    var row, types := EvidenceRow(e), EVIDENCE_TYPES;
    if EvidenceValid(e) { assert RowFits(row, types); }
    if RowFits(row, types) {
      assert Fits(row[0], types[0]) && Fits(row[1], types[1]) && Fits(row[2], types[2]) && Fits(row[3], types[3]);
      assert Fits(row[4], types[4]) && Fits(row[6], types[6]);
    }
  }

  lemma FindingChecked(f: Finding)
    ensures FindingValid(f) <==> RowFits(FindingRow(f), FINDING_TYPES)
  {
    TypesExactly();
    var row, types := FindingRow(f), FINDING_TYPES;
    if RowFits(row, types) {
      assert Fits(row[0], types[0]) && Fits(row[1], types[1]) && Fits(row[2], types[2]) && Fits(row[3], types[3]);
    }
  }

  /** Values of which a set can be made, each once. */
  predicate Unique(values: seq<Value>) {
    && (forall v :: v in values ==> !v.Arr? && !v.Obj?)
    && forall i, j :: 0 <= i < |values| && 0 <= j < |values| && i != j ==> values[i] != values[j]
  }

  lemma UniqueExactly(values: seq<Value>)
    ensures Unique(values) <==> AllHashable(values) && AllDistinct(values)
  {
    assert forall v :: v in values <==> exists i :: 0 <= i < |values| && values[i] == v;
  }

  lemma DraftChecked(d: Draft)
    ensures DraftValid(d) <==>
              RowFits([d.claimText, d.selectedEvidenceId, d.assuranceStatement], [Sized(4000), Id, Sized(8000)]) &&
              Unique(d.limitations) && 0 < |d.limitations| < 21 && (forall v :: v in d.limitations ==> Fits(v, Sized(2000))) &&
              Unique(d.contentCategories) && |d.contentCategories| < 21
  {
    TypesExactly();
    UniqueExactly(d.limitations);
    UniqueExactly(d.contentCategories);
    assert forall v :: v in d.limitations <==> exists i :: 0 <= i < |d.limitations| && d.limitations[i] == v;
    var row, types := [d.claimText, d.selectedEvidenceId, d.assuranceStatement], [Sized(4000), Id, Sized(8000)];
    if RowFits(row, types) { assert Fits(row[0], types[0]) && Fits(row[1], types[1]) && Fits(row[2], types[2]); }
  }

  lemma ResultChecked(v: Verification)
    ensures VerificationValid(v) <==>
              RowFits(VerificationRow(v), RESULT_TYPES) && |v.findings| > 0 &&
              (forall f :: f in v.findings ==> RowFits(FindingRow(f), FINDING_TYPES)) &&
              Unique(Codes(v.findings)) && VerdictFits(v)
  {
    TypesExactly();
    UniqueExactly(Codes(v.findings));
    VerdictExactly(v);
    forall f ensures FindingValid(f) <==> RowFits(FindingRow(f), FINDING_TYPES) { FindingChecked(f); }
    assert forall f :: f in v.findings <==> exists i :: 0 <= i < |v.findings| && v.findings[i] == f;
    ResultRow(v);
  }

  lemma ResultRow(v: Verification)
    ensures RowFits(VerificationRow(v), RESULT_TYPES) <==>
              Fits(v.resultId, Id) && Fits(v.candidateId, Id) && Fits(v.candidateHash, Hash) && Fits(v.verifierId, Id) &&
              Fits(v.verifierVersion, Sized(64)) && Fits(v.evaluatedAt, Sized(100)) && Fits(v.resultHash, Hash)
  {
    var row, types := VerificationRow(v), RESULT_TYPES;
    if RowFits(row, types) {
      assert Fits(row[0], types[0]) && Fits(row[1], types[1]) && Fits(row[2], types[2]) && Fits(row[3], types[3]);
      assert Fits(row[4], types[4]) && Fits(row[7], types[7]) && Fits(row[8], types[8]);
    }
  }

  /** A bundle: typed, in one scope, each identifier once, and with the hash of its content. */
  lemma BundleChecked(p: Platform, b: Bundle)
    ensures BundleValid(p, b) <==>
              RowFits([b.bundleId, b.tenantId, b.caseId, b.bundleHash], [Id, Id, Id, Hash]) && |b.records| > 0 &&
              (forall e :: e in b.records ==> RowFits(EvidenceRow(e), EVIDENCE_TYPES) && e.tenantId == b.tenantId && e.caseId == b.caseId) &&
              (forall i, j :: 0 <= i < j < |b.records| ==> b.records[i].evidenceId != b.records[j].evidenceId) &&
              b.bundleHash == Str(p.digest(BundlePayload(b)))
  {
    TypesExactly();
    forall e ensures EvidenceValid(e) <==> RowFits(EvidenceRow(e), EVIDENCE_TYPES) { EvidenceChecked(e); }
    assert forall e :: e in b.records <==> exists i :: 0 <= i < |b.records| && b.records[i] == e;
    var row, types := [b.bundleId, b.tenantId, b.caseId, b.bundleHash], [Id, Id, Id, Hash];
    if RowFits(row, types) {
      assert Fits(row[0], types[0]) && Fits(row[1], types[1]) && Fits(row[2], types[2]) && Fits(row[3], types[3]);
    }
  }
}
