// The record types of the control chain, their constructors' checks and their JSON forms.
module Contracts {
  import opened Wrappers
  import opened Hashing
  import opened Json

  // ---------- objects with a fixed list of fields ----------

  predicate AllDistinct<T(==)>(s: seq<T>) {
    forall i, j :: 0 <= i < j < |s| ==> s[i] != s[j]
  }

  type Names = s: seq<string> | AllDistinct(s) witness []

  function KeysOf(names: Names): set<string> { set i | 0 <= i < |names| :: names[i] }

  /** The position of a name. */
  function Place(names: Names, name: string): (i: nat)
    requires name in KeysOf(names)
    ensures i < |names| && names[i] == name
  {
    var i :| 0 <= i < |names| && names[i] == name;
    i
  }

  /** The object that gives each name its value. */
  function Object(names: Names, values: seq<Value>): Value
    requires |names| == |values|
  {
    Obj(map name | name in KeysOf(names) :: values[Place(names, name)])
  }

  /** The values of an object that has exactly these names: `_exact_fields`. */
  function Columns(names: Names, v: Value): Option<seq<Value>> {
    if !v.Obj? || v.members.Keys != KeysOf(names) then None
    else Some(seq(|names|, i requires 0 <= i < |names| => assert names[i] in KeysOf(names); v.members[names[i]]))
  }

  lemma ObjectColumns(names: Names, values: seq<Value>)
    requires |names| == |values|
    ensures Columns(names, Object(names, values)) == Some(values)
  {
    var m := Object(names, values).members;
    assert m.Keys == KeysOf(names);
    forall i | 0 <= i < |names| ensures m[names[i]] == values[i] {
    }
    assert Columns(names, Obj(m)).value == values;
  }

  lemma ColumnsObject(names: Names, v: Value)
    requires Columns(names, v).Some?
    ensures |Columns(names, v).value| == |names| && Object(names, Columns(names, v).value) == v
  {
    var m := Object(names, Columns(names, v).value).members;
    assert m.Keys == KeysOf(names);
    forall k | k in m ensures m[k] == v.members[k] {
    }
    assert m == v.members;
  }

  /** An object has these columns exactly when it is the object they give. */
  lemma ColumnsExactly(names: Names, v: Value, row: seq<Value>)
    requires |row| == |names|
    ensures Columns(names, v) == Some(row) <==> v == Object(names, row)
  {
    ObjectColumns(names, row);
    if Columns(names, v).Some? { ColumnsObject(names, v); }
  }

  /** Equal objects with the same names have equal values. */
  lemma ObjectInjective(names: Names, a: seq<Value>, b: seq<Value>)
    requires |names| == |a| == |b|
    ensures Object(names, a) == Object(names, b) ==> a == b
  {
    ObjectColumns(names, a);
    ObjectColumns(names, b);
  }

  // ---------- the environment ----------

  /**
   * What the chain takes from elsewhere: `sha256_uri` of a value, its first 24
   * hexadecimal digits, the identities of compiler and verifier, and Unicode tables.
   */
  datatype Platform = Platform(
    digest: Value -> string,
    short: Value -> string,
    compilerId: Value,
    compilerVersion: Value,
    verifierId: Value,
    verifierVersion: Value,
    visible: string -> bool,
    fold: string -> string)
  {
    ghost predicate WellFormed() {
      && (forall v :: HashUri(Str(digest(v))))
      && (forall v :: |short(v)| == 24 && AllHex(short(v)))
      && Identifier(verifierId) && Bounded(verifierVersion, 64)
    }
  }

  lemma SameDigest(p: Platform, x: Value, y: Value)
    requires p.digest(x) == p.digest(y)
    ensures x == y || Clash(p.digest, x, y)
  {
  }

  // ---------- constructors' checks ----------

  predicate IsHex(c: char) { '0' <= c <= '9' || 'a' <= c <= 'f' }

  predicate AllHex(s: string) { forall i :: 0 <= i < |s| ==> IsHex(s[i]) }

  predicate HashUri(v: Value) {
    v.Str? && |v.text| == 71 && v.text[..7] == "sha256:" && AllHex(v.text[7..])
  }

  predicate IdentifierChar(c: char) {
    'a' <= c <= 'z' || '0' <= c <= '9' || c == '_' || c == '.' || c == '-'
  }

  predicate IdentifierText(s: string) { forall i :: 0 <= i < |s| ==> IdentifierChar(s[i]) }

  predicate Identifier(v: Value) {
    v.Str? && 3 <= |v.text| <= 128 && 'a' <= v.text[0] <= 'z' && IdentifierText(v.text)
  }

  lemma PrefixedIdentifier(prefix: string, hex: string)
    requires 0 < |prefix| <= 64 && 'a' <= prefix[0] <= 'z' && IdentifierText(prefix)
    requires |hex| == 24 && AllHex(hex)
    ensures Identifier(Str(prefix + hex))
  {
    var s := prefix + hex;
    forall i | 0 <= i < |s| ensures IdentifierChar(s[i]) {
      if i >= |prefix| { assert IsHex(hex[i - |prefix|]); }
    }
  }

  /** Python truth. */
  predicate Truthy(v: Value) {
    match v
    case Null => false
    case Bool(b) => b
    case Num(n) => n != 0
    case Str(s) => s != ""
    case Arr(items) => items != []
    case Obj(m) => m != map[]
  }

  /** False are null, the zero, and what is empty. */
  lemma FalsyExactly(v: Value)
    ensures !Truthy(v) <==> v == Null || v == Bool(false) || v == Num(0) || v == Str("") || v == Arr([]) || v == Obj(map[])
  {
  }

  /** `_bounded` asks for a length, so any sized value passes. */
  predicate Bounded(v: Value, maximum: nat) {
    match v
    case Str(s) => 1 <= |s| <= maximum
    case Arr(items) => 1 <= |items| <= maximum
    case Obj(m) => 1 <= |m.Keys| <= maximum
    case _ => false
  }

  /** Lists and objects cannot be members of a Python set. */
  predicate Hashable(v: Value) { !v.Arr? && !v.Obj? }

  predicate AllHashable(s: seq<Value>) { forall i :: 0 <= i < |s| ==> Hashable(s[i]) }

  datatype Context = Context(
    tenantId: Value, caseId: Value, runId: Value, agentId: Value,
    purpose: Value, audience: Value, classification: Value, createdAt: Value)

  predicate ContextValid(c: Context) {
    Identifier(c.tenantId) && Identifier(c.caseId) && Identifier(c.runId) && Identifier(c.agentId) &&
    Bounded(c.purpose, 1000) && Bounded(c.audience, 500) && Bounded(c.createdAt, 100)
  }

  datatype Draft = Draft(
    claimText: Value, selectedEvidenceId: Value, limitations: seq<Value>,
    assuranceStatement: Value, contentCategories: seq<Value>, redacted: Value)

  predicate DraftValid(d: Draft) {
    Bounded(d.claimText, 4000) && Identifier(d.selectedEvidenceId) &&
    AllHashable(d.limitations) && AllDistinct(d.limitations) && 1 <= |d.limitations| <= 20 &&
    (forall i :: 0 <= i < |d.limitations| ==> Bounded(d.limitations[i], 2000)) &&
    AllHashable(d.contentCategories) && AllDistinct(d.contentCategories) && |d.contentCategories| <= 20 &&
    Bounded(d.assuranceStatement, 8000)
  }

  datatype Evidence = Evidence(
    evidenceId: Value, tenantId: Value, caseId: Value, contentHash: Value,
    sourceUri: Value, classification: Value, summary: Value)

  predicate EvidenceValid(e: Evidence) {
    Identifier(e.evidenceId) && Identifier(e.tenantId) && Identifier(e.caseId) && HashUri(e.contentHash) &&
    Bounded(e.sourceUri, 2000) && Bounded(e.summary, 2000)
  }

  datatype Bundle = Bundle(
    bundleId: Value, tenantId: Value, caseId: Value, records: seq<Evidence>, bundleHash: Value)

  predicate DistinctIds(records: seq<Evidence>) {
    forall i, j :: 0 <= i < j < |records| ==> records[i].evidenceId != records[j].evidenceId
  }

  predicate InScope(records: seq<Evidence>, tenantId: Value, caseId: Value) {
    forall i :: 0 <= i < |records| ==> records[i].tenantId == tenantId && records[i].caseId == caseId
  }

  predicate BundleValid(p: Platform, b: Bundle) {
    Identifier(b.bundleId) && Identifier(b.tenantId) && Identifier(b.caseId) && HashUri(b.bundleHash) &&
    b.records != [] && (forall i :: 0 <= i < |b.records| ==> EvidenceValid(b.records[i])) &&
    DistinctIds(b.records) && InScope(b.records, b.tenantId, b.caseId) &&
    b.bundleHash == BundleHash(p, b)
  }

  /** The loop of the bundle's constructor. */
  method CheckRecords(b: Bundle) returns (ok: bool)
    ensures ok <==> DistinctIds(b.records) && InScope(b.records, b.tenantId, b.caseId)
  {
    var identities: set<Value> := {};
    var i := 0;
    while i < |b.records|
      invariant 0 <= i <= |b.records|
      invariant identities == set j | 0 <= j < i :: b.records[j].evidenceId
      invariant DistinctIds(b.records[..i]) && InScope(b.records[..i], b.tenantId, b.caseId)
    {
      var record := b.records[i];
      if record.evidenceId in identities { return false; }
      identities := identities + {record.evidenceId};
      if (record.tenantId, record.caseId) != (b.tenantId, b.caseId) { return false; }
      i := i + 1;
    }
    assert b.records[..i] == b.records;
    return true;
  }

  /** `require`: the record with this identifier. */
  function Find(records: seq<Evidence>, id: Value): (r: Option<Evidence>)
    ensures r.Some? ==> r.value in records && r.value.evidenceId == id
    ensures r.None? ==> forall e | e in records :: e.evidenceId != id
  {
    if records == [] then None
    else if records[0].evidenceId == id then Some(records[0])
    else Find(records[1..], id)
  }

  /** In a valid bundle the identifier decides the record. */
  lemma FoundExactly(records: seq<Evidence>, e: Evidence)
    requires DistinctIds(records)
    ensures Find(records, e.evidenceId) == Some(e) <==> e in records
  {
    if e in records {
      var i :| 0 <= i < |records| && records[i] == e;
      var r := Find(records, e.evidenceId);
      var j :| 0 <= j < |records| && records[j] == r.value;
      assert i == j;
    }
  }

  /** The early-returning loop of `require`. */
  method Require(b: Bundle, id: Value) returns (r: Option<Evidence>)
    ensures r == Find(b.records, id)
  {
    var i := 0;
    while i < |b.records|
      invariant 0 <= i <= |b.records|
      invariant Find(b.records[i..], id) == Find(b.records, id)
    {
      if b.records[i].evidenceId == id { return Some(b.records[i]); }
      i := i + 1;
    }
    return None;
  }

  datatype Candidate = Candidate(
    schemaVersion: Value, candidateId: Value, compilerId: Value, compilerVersion: Value,
    context: Context, claimId: Value, claimText: Value, evidence: Evidence, bundleHash: Value,
    limitations: seq<Value>, assuranceStatement: Value, contentCategories: seq<Value>,
    redacted: Value, createdAt: Value, candidateHash: Value)

  datatype Finding = Finding(code: Value, severity: Value, passed: Value, message: Value)

  const INFO := Str("info")
  const WARNING := Str("warning")
  const ERROR := Str("error")
  const PASS := Str("pass")
  const FAIL := Str("fail")
  const APPROVED := Str("approved")

  predicate FindingValid(f: Finding) {
    Bounded(f.code, 128) && (f.severity == INFO || f.severity == WARNING || f.severity == ERROR) &&
    f.passed.Bool? && Bounded(f.message, 2000)
  }

  datatype Verification = Verification(
    resultId: Value, candidateId: Value, candidateHash: Value, verifierId: Value, verifierVersion: Value,
    status: Value, findings: seq<Finding>, evaluatedAt: Value, resultHash: Value)

  function Codes(fs: seq<Finding>): seq<Value> { seq(|fs|, i requires 0 <= i < |fs| => fs[i].code) }

  /** No finding of severity error failed. */
  predicate ErrorsPass(fs: seq<Finding>) {
    forall i :: 0 <= i < |fs| && fs[i].severity == ERROR ==> Truthy(fs[i].passed)
  }

  predicate StatusMatches(v: Verification) { v.status == if ErrorsPass(v.findings) then PASS else FAIL }

  predicate VerificationValid(v: Verification) {
    Identifier(v.resultId) && Identifier(v.candidateId) && HashUri(v.candidateHash) &&
    Identifier(v.verifierId) && Bounded(v.verifierVersion, 64) && v.findings != [] &&
    (forall i :: 0 <= i < |v.findings| ==> FindingValid(v.findings[i])) &&
    AllHashable(Codes(v.findings)) && AllDistinct(Codes(v.findings)) && StatusMatches(v) &&
    Bounded(v.evaluatedAt, 100) && HashUri(v.resultHash)
  }

  datatype Approval = Approval(
    approvalId: Value, candidateId: Value, candidateHash: Value, verificationHash: Value,
    decision: Value, approverId: Value, rationale: Value, decidedAt: Value, recordHash: Value)

  datatype Authorization = Authorization(
    authorizationId: Value, candidateId: Value, candidateHash: Value, approvalId: Value,
    purpose: Value, audience: Value, outputHash: Value, authorized: Value, reason: Value,
    authorizedAt: Value, recordHash: Value)

  datatype Manifest = Manifest(
    manifestId: Value, candidateHash: Value, verificationHash: Value, approvalHash: Value,
    authorizationHash: Value, generatedAt: Value, manifestHash: Value)

  // ---------- JSON forms ----------

  const CONTEXT_FIELDS: Names := [
    "tenant_id", "case_id", "run_id", "agent_id", "purpose", "audience", "classification", "created_at"]
  const EVIDENCE_FIELDS: Names := [
    "evidence_id", "tenant_id", "case_id", "content_hash", "source_uri", "classification", "summary"]
  const BUNDLE_FIELDS: Names := ["bundle_id", "tenant_id", "case_id", "records", "bundle_hash"]
  const CANDIDATE_FIELDS: Names := [
    "schema_version", "candidate_id", "compiler_id", "compiler_version", "run_context", "claim_id",
    "claim_text", "evidence", "evidence_bundle_hash", "limitations", "assurance_statement",
    "content_categories", "redacted", "created_at", "candidate_hash"]
  const FINDING_FIELDS: Names := ["code", "severity", "passed", "message"]
  const VERIFICATION_FIELDS: Names := [
    "result_id", "candidate_id", "candidate_hash", "verifier_id", "verifier_version", "status",
    "findings", "evaluated_at", "result_hash"]
  const APPROVAL_FIELDS: Names := [
    "approval_id", "candidate_id", "candidate_hash", "verification_result_hash", "decision",
    "approver_id", "rationale", "decided_at", "record_hash"]
  const AUTHORIZATION_FIELDS: Names := [
    "authorization_id", "candidate_id", "candidate_hash", "approval_id", "purpose", "audience",
    "output_hash", "authorized", "reason", "authorized_at", "record_hash"]
  const MANIFEST_FIELDS: Names := [
    "manifest_id", "candidate_hash", "verification_result_hash", "approval_record_hash",
    "authorization_record_hash", "generated_at", "manifest_hash"]

  function ContextRow(c: Context): (r: seq<Value>) ensures |r| == 8 {
    [c.tenantId, c.caseId, c.runId, c.agentId, c.purpose, c.audience, c.classification, c.createdAt]
  }

  function ContextValue(c: Context): Value { Object(CONTEXT_FIELDS, ContextRow(c)) }

  function EvidenceRow(e: Evidence): (r: seq<Value>) ensures |r| == 7 {
    [e.evidenceId, e.tenantId, e.caseId, e.contentHash, e.sourceUri, e.classification, e.summary]
  }

  function EvidenceValue(e: Evidence): Value { Object(EVIDENCE_FIELDS, EvidenceRow(e)) }

  function RecordsValue(records: seq<Evidence>): Value {
    Arr(seq(|records|, i requires 0 <= i < |records| => EvidenceValue(records[i])))
  }

  function BundleRow(b: Bundle): (r: seq<Value>) ensures |r| == 5 {
    [b.bundleId, b.tenantId, b.caseId, RecordsValue(b.records), b.bundleHash]
  }

  function CandidateRow(c: Candidate): (r: seq<Value>) ensures |r| == 15 {
    [c.schemaVersion, c.candidateId, c.compilerId, c.compilerVersion, ContextValue(c.context), c.claimId,
     c.claimText, EvidenceValue(c.evidence), c.bundleHash, Arr(c.limitations), c.assuranceStatement,
     Arr(c.contentCategories), c.redacted, c.createdAt, c.candidateHash]
  }

  function FindingRow(f: Finding): (r: seq<Value>) ensures |r| == 4 { [f.code, f.severity, f.passed, f.message] }

  function FindingValue(f: Finding): Value { Object(FINDING_FIELDS, FindingRow(f)) }

  function FindingsValue(fs: seq<Finding>): Value {
    Arr(seq(|fs|, i requires 0 <= i < |fs| => FindingValue(fs[i])))
  }

  function VerificationRow(v: Verification): (r: seq<Value>) ensures |r| == 9 {
    [v.resultId, v.candidateId, v.candidateHash, v.verifierId, v.verifierVersion, v.status,
     FindingsValue(v.findings), v.evaluatedAt, v.resultHash]
  }

  function ApprovalRow(a: Approval): (r: seq<Value>) ensures |r| == 9 {
    [a.approvalId, a.candidateId, a.candidateHash, a.verificationHash, a.decision, a.approverId,
     a.rationale, a.decidedAt, a.recordHash]
  }

  function AuthorizationRow(a: Authorization): (r: seq<Value>) ensures |r| == 11 {
    [a.authorizationId, a.candidateId, a.candidateHash, a.approvalId, a.purpose, a.audience,
     a.outputHash, a.authorized, a.reason, a.authorizedAt, a.recordHash]
  }

  function ManifestRow(m: Manifest): (r: seq<Value>) ensures |r| == 7 {
    [m.manifestId, m.candidateHash, m.verificationHash, m.approvalHash, m.authorizationHash,
     m.generatedAt, m.manifestHash]
  }

  // ---------- identifiers cut from digests ----------

  function Identified(p: Platform, prefix: string, names: Names, values: seq<Value>): Value
    requires |names| == |values|
  {
    Str(prefix + p.short(Object(names, values)))
  }

  /** An identifier decides the values it was made of, or the two objects clash. */
  lemma IdentifiedBinds(p: Platform, prefix: string, names: Names, a: seq<Value>, b: seq<Value>)
    requires |names| == |a| == |b| && Identified(p, prefix, names, a) == Identified(p, prefix, names, b)
    ensures a == b || Clash(p.short, Object(names, a), Object(names, b))
  {
    var x, y := p.short(Object(names, a)), p.short(Object(names, b));
    assert (prefix + x)[|prefix|..] == x && (prefix + y)[|prefix|..] == y;
    ObjectInjective(names, a, b);
  }

  // ---------- hashes over all fields but the last ----------

  function Payload(names: Names, row: seq<Value>): Value
    requires |names| == |row| > 0
  {
    Object(names[..|names| - 1], row[..|row| - 1])
  }

  /** The digest a record with these fields must carry in its last field. */
  function SealOf(p: Platform, names: Names, row: seq<Value>): Value
    requires |names| == |row| > 0
  {
    Str(p.digest(Payload(names, row)))
  }

  /** `verify_hash`. */
  predicate Sealed(p: Platform, names: Names, row: seq<Value>)
    requires |names| == |row| > 0
  {
    row[|row| - 1] == SealOf(p, names, row)
  }

  /** The hash decides the whole record. */
  lemma SealBinds(p: Platform, names: Names, a: seq<Value>, b: seq<Value>)
    requires |names| == |a| == |b| > 0 && Sealed(p, names, a) && Sealed(p, names, b)
    requires a[|a| - 1] == b[|b| - 1]
    ensures a == b || Clash(p.digest, Payload(names, a), Payload(names, b))
  {
    SameDigest(p, Payload(names, a), Payload(names, b));
    if Payload(names, a) == Payload(names, b) {
      ObjectInjective(names[..|names| - 1], a[..|a| - 1], b[..|b| - 1]);
      assert a == a[..|a| - 1] + [a[|a| - 1]];
      assert b == b[..|b| - 1] + [b[|b| - 1]];
    }
  }

  /** What the hash of each record covers: its `payload`. */
  function BundlePayload(b: Bundle): Value { Payload(BUNDLE_FIELDS, BundleRow(b)) }

  function CandidatePayload(c: Candidate): Value { Payload(CANDIDATE_FIELDS, CandidateRow(c)) }

  function VerificationPayload(v: Verification): Value { Payload(VERIFICATION_FIELDS, VerificationRow(v)) }

  function ApprovalPayload(a: Approval): Value { Payload(APPROVAL_FIELDS, ApprovalRow(a)) }

  function AuthorizationPayload(a: Authorization): Value { Payload(AUTHORIZATION_FIELDS, AuthorizationRow(a)) }

  function ManifestPayload(m: Manifest): Value { Payload(MANIFEST_FIELDS, ManifestRow(m)) }

  function BundleHash(p: Platform, b: Bundle): Value { SealOf(p, BUNDLE_FIELDS, BundleRow(b)) }

  predicate CandidateSealed(p: Platform, c: Candidate) { Sealed(p, CANDIDATE_FIELDS, CandidateRow(c)) }

  predicate VerificationSealed(p: Platform, v: Verification) { Sealed(p, VERIFICATION_FIELDS, VerificationRow(v)) }

  predicate ApprovalSealed(p: Platform, a: Approval) { Sealed(p, APPROVAL_FIELDS, ApprovalRow(a)) }

  predicate AuthorizationSealed(p: Platform, a: Authorization) { Sealed(p, AUTHORIZATION_FIELDS, AuthorizationRow(a)) }

  predicate ManifestSealed(p: Platform, m: Manifest) { Sealed(p, MANIFEST_FIELDS, ManifestRow(m)) }

  // ---------- rows decide their records ----------

  lemma EvidenceInjective(a: Evidence, b: Evidence)
    ensures EvidenceValue(a) == EvidenceValue(b) ==> a == b
  {
    ObjectInjective(EVIDENCE_FIELDS, EvidenceRow(a), EvidenceRow(b));
  }

  lemma RecordsInjective(a: seq<Evidence>, b: seq<Evidence>)
    ensures RecordsValue(a) == RecordsValue(b) ==> a == b
  {
    if RecordsValue(a) == RecordsValue(b) {
      assert |RecordsValue(a).items| == |RecordsValue(b).items|;
      forall i | 0 <= i < |a| ensures a[i] == b[i] {
        assert RecordsValue(a).items[i] == RecordsValue(b).items[i];
        EvidenceInjective(a[i], b[i]);
      }
    }
  }

  lemma BundleRowInjective(a: Bundle, b: Bundle)
    ensures BundleRow(a) == BundleRow(b) ==> a == b
  {
    RecordsInjective(a.records, b.records);
  }

  lemma CandidateRowInjective(a: Candidate, b: Candidate)
    ensures CandidateRow(a) == CandidateRow(b) ==> a == b
  {
    ObjectInjective(CONTEXT_FIELDS, ContextRow(a.context), ContextRow(b.context));
    EvidenceInjective(a.evidence, b.evidence);
  }

  lemma FindingsInjective(a: seq<Finding>, b: seq<Finding>)
    ensures FindingsValue(a) == FindingsValue(b) ==> a == b
  {
    if FindingsValue(a) == FindingsValue(b) {
      assert |FindingsValue(a).items| == |FindingsValue(b).items|;
      forall i | 0 <= i < |a| ensures a[i] == b[i] {
        assert FindingsValue(a).items[i] == FindingsValue(b).items[i];
        ObjectInjective(FINDING_FIELDS, FindingRow(a[i]), FindingRow(b[i]));
      }
    }
  }

  lemma VerificationRowInjective(a: Verification, b: Verification)
    ensures VerificationRow(a) == VerificationRow(b) ==> a == b
  {
    FindingsInjective(a.findings, b.findings);
  }

  /** Different bundles have different JSON forms. */
  lemma BundleInjective(a: Bundle, b: Bundle)
    ensures Object(BUNDLE_FIELDS, BundleRow(a)) == Object(BUNDLE_FIELDS, BundleRow(b)) ==> a == b
  {
    ObjectInjective(BUNDLE_FIELDS, BundleRow(a), BundleRow(b));
    BundleRowInjective(a, b);
  }

  lemma CandidateInjective(a: Candidate, b: Candidate)
    ensures Object(CANDIDATE_FIELDS, CandidateRow(a)) == Object(CANDIDATE_FIELDS, CandidateRow(b)) ==> a == b
  {
    ObjectInjective(CANDIDATE_FIELDS, CandidateRow(a), CandidateRow(b));
    CandidateRowInjective(a, b);
  }

  lemma VerificationInjective(a: Verification, b: Verification)
    ensures Object(VERIFICATION_FIELDS, VerificationRow(a)) == Object(VERIFICATION_FIELDS, VerificationRow(b)) ==> a == b
  {
    ObjectInjective(VERIFICATION_FIELDS, VerificationRow(a), VerificationRow(b));
    VerificationRowInjective(a, b);
  }

  // ---------- hashes decide their records ----------

  lemma BundleSealBinds(p: Platform, a: Bundle, b: Bundle)
    requires a.bundleHash == BundleHash(p, a) && b.bundleHash == BundleHash(p, b) && a.bundleHash == b.bundleHash
    ensures a == b || Clash(p.digest, BundlePayload(a), BundlePayload(b))
  {
    SealBinds(p, BUNDLE_FIELDS, BundleRow(a), BundleRow(b));
    BundleRowInjective(a, b);
  }

  lemma CandidateSealBinds(p: Platform, a: Candidate, b: Candidate)
    requires CandidateSealed(p, a) && CandidateSealed(p, b) && a.candidateHash == b.candidateHash
    ensures a == b || Clash(p.digest, CandidatePayload(a), CandidatePayload(b))
  {
    SealBinds(p, CANDIDATE_FIELDS, CandidateRow(a), CandidateRow(b));
    CandidateRowInjective(a, b);
  }

  lemma VerificationSealBinds(p: Platform, a: Verification, b: Verification)
    requires VerificationSealed(p, a) && VerificationSealed(p, b) && a.resultHash == b.resultHash
    ensures a == b || Clash(p.digest, VerificationPayload(a), VerificationPayload(b))
  {
    SealBinds(p, VERIFICATION_FIELDS, VerificationRow(a), VerificationRow(b));
    VerificationRowInjective(a, b);
  }

  lemma ApprovalSealBinds(p: Platform, a: Approval, b: Approval)
    requires ApprovalSealed(p, a) && ApprovalSealed(p, b) && a.recordHash == b.recordHash
    ensures a == b || Clash(p.digest, ApprovalPayload(a), ApprovalPayload(b))
  {
    SealBinds(p, APPROVAL_FIELDS, ApprovalRow(a), ApprovalRow(b));
  }

  lemma AuthorizationSealBinds(p: Platform, a: Authorization, b: Authorization)
    requires AuthorizationSealed(p, a) && AuthorizationSealed(p, b) && a.recordHash == b.recordHash
    ensures a == b || Clash(p.digest, AuthorizationPayload(a), AuthorizationPayload(b))
  {
    SealBinds(p, AUTHORIZATION_FIELDS, AuthorizationRow(a), AuthorizationRow(b));
  }

  lemma ManifestSealBinds(p: Platform, a: Manifest, b: Manifest)
    requires ManifestSealed(p, a) && ManifestSealed(p, b) && a.manifestHash == b.manifestHash
    ensures a == b || Clash(p.digest, ManifestPayload(a), ManifestPayload(b))
  {
    SealBinds(p, MANIFEST_FIELDS, ManifestRow(a), ManifestRow(b));
  }
}
