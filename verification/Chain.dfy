// Compilation of a candidate and its verification against the evidence bundle.
module Chain {
  import opened Wrappers
  import opened Hashing
  import opened Json
  import opened Contracts

  datatype ChainError =
    | OutsideScope | EvidenceAbsent | UnknownClassification | AboveCeiling
    | NotVerifiable
    | CandidateHashInvalid | OtherCandidate | VerificationHashInvalid | StatusMismatch
    | FailedCandidate | UnsupportedDecision | ApproverMissing
    | NotApproved | ApprovalHashInvalid

  // ---------- records that carry their own hash ----------

  lemma SealIgnoresLast(p: Platform, names: Names, a: seq<Value>, b: seq<Value>)
    requires |names| == |a| == |b| > 0 && a[..|a| - 1] == b[..|b| - 1]
    ensures SealOf(p, names, a) == SealOf(p, names, b)
  {
  }

  function SealCandidate(p: Platform, c: Candidate): (r: Candidate)
    ensures CandidateSealed(p, r) && r == c.(candidateHash := r.candidateHash)
  {
    var r := c.(candidateHash := SealOf(p, CANDIDATE_FIELDS, CandidateRow(c)));
    assert CandidateRow(r)[..14] == CandidateRow(c)[..14];
    SealIgnoresLast(p, CANDIDATE_FIELDS, CandidateRow(r), CandidateRow(c));
    r
  }

  function SealVerification(p: Platform, v: Verification): (r: Verification)
    ensures VerificationSealed(p, r) && r == v.(resultHash := r.resultHash)
  {
    var r := v.(resultHash := SealOf(p, VERIFICATION_FIELDS, VerificationRow(v)));
    assert VerificationRow(r)[..8] == VerificationRow(v)[..8];
    SealIgnoresLast(p, VERIFICATION_FIELDS, VerificationRow(r), VerificationRow(v));
    r
  }

  function SealApproval(p: Platform, a: Approval): (r: Approval)
    ensures ApprovalSealed(p, r) && r == a.(recordHash := r.recordHash)
  {
    var r := a.(recordHash := SealOf(p, APPROVAL_FIELDS, ApprovalRow(a)));
    assert ApprovalRow(r)[..8] == ApprovalRow(a)[..8];
    SealIgnoresLast(p, APPROVAL_FIELDS, ApprovalRow(r), ApprovalRow(a));
    r
  }

  function SealAuthorization(p: Platform, a: Authorization): (r: Authorization)
    ensures AuthorizationSealed(p, r) && r == a.(recordHash := r.recordHash)
  {
    var r := a.(recordHash := SealOf(p, AUTHORIZATION_FIELDS, AuthorizationRow(a)));
    assert AuthorizationRow(r)[..10] == AuthorizationRow(a)[..10];
    SealIgnoresLast(p, AUTHORIZATION_FIELDS, AuthorizationRow(r), AuthorizationRow(a));
    r
  }

  function SealManifest(p: Platform, m: Manifest): (r: Manifest)
    ensures ManifestSealed(p, r) && r == m.(manifestHash := r.manifestHash)
  {
    var r := m.(manifestHash := SealOf(p, MANIFEST_FIELDS, ManifestRow(m)));
    assert ManifestRow(r)[..6] == ManifestRow(m)[..6];
    SealIgnoresLast(p, MANIFEST_FIELDS, ManifestRow(r), ManifestRow(m));
    r
  }

  const UNSEALED := Null

  // ---------- compiler ----------

  function Rank(classification: Value): Option<nat> {
    if !classification.Str? then None
    else
      var s := classification.text;
      if s == "public" then Some(0)
      else if s == "internal" then Some(1)
      else if s == "confidential" then Some(2)
      else if s == "restricted" then Some(3)
      else if s == "regulated" then Some(4)
      else None
  }

  /** The classifications, from the least restricted on. */
  const CLASSIFICATIONS: Names := ["public", "internal", "confidential", "restricted", "regulated"]

  lemma RankIsPlace(classification: Value, i: nat)
    ensures Rank(classification) == Some(i) <==> i < 5 && classification == Str(CLASSIFICATIONS[i])
  {
    assert CLASSIFICATIONS[0] == "public" && CLASSIFICATIONS[1] == "internal" && CLASSIFICATIONS[2] == "confidential";
    assert CLASSIFICATIONS[3] == "restricted" && CLASSIFICATIONS[4] == "regulated";
  }

  const CLAIM_IDENTITY: Names := ["run_id", "claim_text", "evidence_id"]
  const DRAFT_FIELDS: Names := [
    "claim_text", "selected_evidence_id", "limitations", "assurance_statement", "content_categories", "redacted"]
  const CANDIDATE_IDENTITY: Names := ["run_id", "draft", "bundle_hash", "compiler_version"]

  function DraftValue(d: Draft): Value {
    Object(DRAFT_FIELDS, [d.claimText, d.selectedEvidenceId, Arr(d.limitations), d.assuranceStatement,
                          Arr(d.contentCategories), d.redacted])
  }

  function ClaimId(p: Platform, c: Context, d: Draft, e: Evidence): Value {
    Identified(p, "claim_", CLAIM_IDENTITY, [c.runId, d.claimText, e.evidenceId])
  }

  function CandidateId(p: Platform, c: Context, d: Draft, b: Bundle): Value {
    Identified(p, "candidate_", CANDIDATE_IDENTITY, [c.runId, DraftValue(d), b.bundleHash, p.compilerVersion])
  }

  function Compile(p: Platform, c: Context, d: Draft, b: Bundle): Result<Candidate, ChainError> {
    if (b.tenantId, b.caseId) != (c.tenantId, c.caseId) then Failure(OutsideScope)
    else
      var found := Find(b.records, d.selectedEvidenceId);
      if found.None? then Failure(EvidenceAbsent)
      else
        var e := found.value;
        if Rank(e.classification).None? || Rank(c.classification).None? then Failure(UnknownClassification)
        else if Rank(e.classification).value > Rank(c.classification).value then Failure(AboveCeiling)
        else Success(SealCandidate(p, Candidate(
               Str("0.1"), CandidateId(p, c, d, b), p.compilerId, p.compilerVersion, c, ClaimId(p, c, d, e),
               d.claimText, e, b.bundleHash, d.limitations, d.assuranceStatement, d.contentCategories,
               d.redacted, c.createdAt, UNSEALED)))
  }

  /**
   * What a compiled candidate says: the run's context, the draft's text and flags, the
   * selected evidence as the bundle holds it, and the hash of all that.
   */
  lemma CompiledCarries(p: Platform, c: Context, d: Draft, b: Bundle)
    requires Compile(p, c, d, b).Success?
    ensures var k := Compile(p, c, d, b).value;
            && k.context == c && k.createdAt == c.createdAt
            && k.claimText == d.claimText && k.limitations == d.limitations
            && k.assuranceStatement == d.assuranceStatement
            && k.contentCategories == d.contentCategories && k.redacted == d.redacted
            && k.evidence in b.records && k.evidence.evidenceId == d.selectedEvidenceId && k.bundleHash == b.bundleHash
            && k.schemaVersion == Str("0.1") && k.compilerId == p.compilerId && k.compilerVersion == p.compilerVersion
            && k.claimId == Identified(p, "claim_", CLAIM_IDENTITY, [c.runId, d.claimText, d.selectedEvidenceId])
            && k.candidateId == CandidateId(p, c, d, b)
            && k.candidateHash == Str(p.digest(CandidatePayload(k)))
  {
    assert CandidateSealed(p, Compile(p, c, d, b).value);
  }

  /** What a candidate's identifier is made of. */
  function CandidateIdentity(p: Platform, c: Context, d: Draft, b: Bundle): Value {
    Object(CANDIDATE_IDENTITY, [c.runId, DraftValue(d), b.bundleHash, p.compilerVersion])
  }

  /** Run, draft and bundle decide the candidate's identifier, and it decides them, up to a clash. */
  lemma CandidateIdBinds(p: Platform, c: Context, d: Draft, b: Bundle, c': Context, d': Draft, b': Bundle)
    requires CandidateId(p, c, d, b) == CandidateId(p, c', d', b')
    ensures (c.runId == c'.runId && d == d' && b.bundleHash == b'.bundleHash) ||
            Clash(p.short, CandidateIdentity(p, c, d, b), CandidateIdentity(p, c', d', b'))
  {
    var a, a' := [c.runId, DraftValue(d), b.bundleHash, p.compilerVersion], [c'.runId, DraftValue(d'), b'.bundleHash, p.compilerVersion];
    IdentifiedBinds(p, "candidate_", CANDIDATE_IDENTITY, a, a');
    if a == a' {
      assert a[0] == a'[0] && a[1] == a'[1] && a[2] == a'[2];
      DraftInjective(d, d');
    }
  }

  lemma DraftInjective(d: Draft, e: Draft)
    requires DraftValue(d) == DraftValue(e)
    ensures d == e
  {
    var a := [d.claimText, d.selectedEvidenceId, Arr(d.limitations), d.assuranceStatement, Arr(d.contentCategories), d.redacted];
    var b := [e.claimText, e.selectedEvidenceId, Arr(e.limitations), e.assuranceStatement, Arr(e.contentCategories), e.redacted];
    ObjectInjective(DRAFT_FIELDS, a, b);
    assert a[0] == b[0] && a[1] == b[1] && a[2] == b[2] && a[3] == b[3] && a[4] == b[4] && a[5] == b[5];
  }

  // ---------- verifier ----------

  const SENSITIVE: set<string> := {
    "secret", "credential", "authentication_token", "private_key", "raw_prompt", "system_prompt",
    "raw_tool_input", "raw_tool_output", "raw_evidence", "pii", "phi", "payment_data"}

  predicate IsSensitive(categories: seq<Value>) {
    exists i :: 0 <= i < |categories| && categories[i].Str? && categories[i].text in SENSITIVE
  }

  datatype Check = Check(code: string, severity: Value, message: string)

  const CHECKS: seq<Check> := [
    Check("CANDIDATE_HASH_VALID", ERROR, "Canonical candidate hash must match its deterministic payload."),
    Check("EVIDENCE_BUNDLE_BOUND", ERROR, "Candidate must bind the exact authorized evidence bundle."),
    Check("EVIDENCE_REFERENCE_VALID", ERROR, "Candidate evidence must resolve exactly in the authorized bundle."),
    Check("SCOPE_MATCH", ERROR, "Run, evidence, and bundle scopes must match."),
    Check("DISCLOSURE_SAFE", ERROR, "Sensitive categories require explicit redaction intent."),
    Check("LIMITATION_PRESENT", WARNING, "Consequential outputs must state at least one limitation.")]

  function FindingOf(check: Check, outcome: Value): Finding {
    Finding(Str(check.code), check.severity, outcome, Str(check.message))
  }

  predicate BundleBound(p: Platform, c: Candidate, b: Bundle) {
    c.bundleHash == b.bundleHash && BundleHash(p, b) == b.bundleHash
  }

  predicate EvidencePresent(c: Candidate, b: Bundle) {
    Find(b.records, c.evidence.evidenceId) == Some(c.evidence)
  }

  predicate ScopeMatches(c: Candidate, b: Bundle) {
    c.evidence.tenantId == c.context.tenantId && c.evidence.caseId == c.context.caseId &&
    b.tenantId == c.context.tenantId && b.caseId == c.context.caseId
  }

  function Disclosure(c: Candidate): Value {
    if IsSensitive(c.contentCategories) then c.redacted else Bool(true)
  }

  function Outcomes(p: Platform, c: Candidate, b: Bundle): (r: seq<Value>) ensures |r| == 6 {
    [Bool(CandidateSealed(p, c)), Bool(BundleBound(p, c, b)), Bool(EvidencePresent(c, b)),
     Bool(ScopeMatches(c, b)), Disclosure(c), Bool(c.limitations != [])]
  }

  function Findings(outcomes: seq<Value>): (r: seq<Finding>)
    requires |outcomes| == |CHECKS|
    ensures |r| == |CHECKS|
  {
    seq(|CHECKS|, i requires 0 <= i < |CHECKS| => FindingOf(CHECKS[i], outcomes[i]))
  }

  const VERIFICATION_IDENTITY: Names := ["candidate_hash", "verifier_id", "verifier_version", "findings"]

  function ResultId(p: Platform, c: Candidate, findings: seq<Finding>): Value {
    Identified(p, "verification_", VERIFICATION_IDENTITY,
               [c.candidateHash, p.verifierId, p.verifierVersion, FindingsValue(findings)])
  }

  /** The result a list of findings gives, if the record's constructor takes it. */
  function Conclude(p: Platform, c: Candidate, findings: seq<Finding>): Option<Verification> {
    var v := SealVerification(p, Verification(
      ResultId(p, c, findings), c.candidateId, c.candidateHash, p.verifierId, p.verifierVersion,
      if ErrorsPass(findings) then PASS else FAIL, findings, c.createdAt, UNSEALED));
    if VerificationValid(v) then Some(v) else None
  }

  /** `verify`: None when it raises. */
  function Verify(p: Platform, c: Candidate, b: Bundle): Option<Verification> {
    if !AllHashable(c.contentCategories) then None
    else Conclude(p, c, Findings(Outcomes(p, c, b)))
  }

  /** The verifier as it runs, appending one finding after another. */
  method RunVerifier(p: Platform, c: Candidate, b: Bundle) returns (r: Option<Verification>)
    ensures r == Verify(p, c, b)
  {
    var findings: seq<Finding> := [];
    findings := findings + [FindingOf(CHECKS[0], Bool(CandidateSealed(p, c)))];
    findings := findings + [FindingOf(CHECKS[1], Bool(BundleBound(p, c, b)))];
    var found := Require(b, c.evidence.evidenceId);
    var present := found.Some? && found.value == c.evidence;
    findings := findings + [FindingOf(CHECKS[2], Bool(present))];
    findings := findings + [FindingOf(CHECKS[3], Bool(ScopeMatches(c, b)))];
    if !AllHashable(c.contentCategories) { return None; }
    findings := findings + [FindingOf(CHECKS[4], Disclosure(c))];
    findings := findings + [FindingOf(CHECKS[5], Bool(c.limitations != []))];
    assert findings == Findings(Outcomes(p, c, b));
    r := Conclude(p, c, findings);
  }

  /** The candidate's hash is that of its content. */
  predicate CandidateHashed(p: Platform, c: Candidate) { c.candidateHash == Str(p.digest(CandidatePayload(c))) }

  /** The candidate names the bundle's hash, which is that of its content. */
  predicate NamesBundle(p: Platform, c: Candidate, b: Bundle) {
    c.bundleHash == Str(p.digest(BundlePayload(b))) && b.bundleHash == Str(p.digest(BundlePayload(b)))
  }

  /** The first record of the bundle with the evidence's identifier is the evidence. */
  ghost predicate FirstRecord(records: seq<Evidence>, e: Evidence) {
    exists i :: 0 <= i < |records| && records[i] == e && forall j :: 0 <= j < i ==> records[j].evidenceId != e.evidenceId
  }

  predicate OneScope(c: Candidate, b: Bundle) {
    && b.tenantId == c.context.tenantId && c.evidence.tenantId == c.context.tenantId
    && b.caseId == c.context.caseId && c.evidence.caseId == c.context.caseId
  }

  /** Some content category is on the list of sensitive ones. */
  predicate Sensitive(c: Candidate) { exists s | s in SENSITIVE :: Str(s) in c.contentCategories }

  /** What a passing result establishes. */
  ghost predicate Supported(p: Platform, c: Candidate, b: Bundle) {
    CandidateHashed(p, c) && NamesBundle(p, c, b) && FirstRecord(b.records, c.evidence) && OneScope(c, b) &&
    (Sensitive(c) ==> Truthy(c.redacted))
  }

  lemma {:induction false} FindsFirst(records: seq<Evidence>, e: Evidence)
    ensures Find(records, e.evidenceId) == Some(e) <==> FirstRecord(records, e)
  {
    if records != [] {
      var rest := records[1..];
      FindsFirst(rest, e);
      assert forall j :: 0 < j < |records| ==> records[j] == rest[j - 1];
      if FirstRecord(rest, e) && records[0].evidenceId != e.evidenceId {
        var i :| 0 <= i < |rest| && rest[i] == e && forall j :: 0 <= j < i ==> rest[j].evidenceId != e.evidenceId;
        assert records[i + 1] == e;
      }
      if FirstRecord(records, e) && records[0].evidenceId != e.evidenceId {
        var i :| 0 <= i < |records| && records[i] == e && forall j :: 0 <= j < i ==> records[j].evidenceId != e.evidenceId;
        assert rest[i - 1] == e;
      }
    }
  }

  lemma SensitiveExactly(c: Candidate)
    ensures IsSensitive(c.contentCategories) <==> Sensitive(c)
  {
    if IsSensitive(c.contentCategories) {
      var i :| 0 <= i < |c.contentCategories| && c.contentCategories[i].Str? && c.contentCategories[i].text in SENSITIVE;
      assert Str(c.contentCategories[i].text) in c.contentCategories;
    }
    if s :| s in SENSITIVE && Str(s) in c.contentCategories {
      var i :| 0 <= i < |c.contentCategories| && c.contentCategories[i] == Str(s);
    }
  }

  /** The outcomes of the verifier's checks, from the records alone. */
  lemma OutcomesExactly(p: Platform, c: Candidate, b: Bundle)
    ensures Outcomes(p, c, b) == [
              Bool(CandidateHashed(p, c)), Bool(NamesBundle(p, c, b)), Bool(FirstRecord(b.records, c.evidence)),
              Bool(OneScope(c, b)), if Sensitive(c) then c.redacted else Bool(true), Bool(|c.limitations| > 0)]
  {
    FindsFirst(b.records, c.evidence);
    SensitiveExactly(c);
  }

  /** What a result says: whose it is, each check's outcome, and the verdict that the error checks give. */
  lemma VerifiedCarries(p: Platform, c: Candidate, b: Bundle)
    requires Verify(p, c, b).Some?
    ensures var v := Verify(p, c, b).value;
            && v.candidateId == c.candidateId && v.candidateHash == c.candidateHash && v.evaluatedAt == c.createdAt
            && v.verifierId == p.verifierId && v.verifierVersion == p.verifierVersion
            && v.resultId == Identified(p, "verification_", VERIFICATION_IDENTITY,
                                        [c.candidateHash, p.verifierId, p.verifierVersion, FindingsValue(v.findings)])
            && v.resultHash == Str(p.digest(VerificationPayload(v)))
            && AllTold(p, c, b, v.findings)
            && (v.status == Str("pass") || v.status == Str("fail"))
  {
    assert VerificationSealed(p, Verify(p, c, b).value);
    FindingsTold(p, c, b);
  }

  /** One finding for each check, in order. */
  ghost predicate AllTold(p: Platform, c: Candidate, b: Bundle, fs: seq<Finding>) {
    && |fs| == 6
    && Told(fs[0], "CANDIDATE_HASH_VALID", "error", Bool(CandidateHashed(p, c)))
    && Told(fs[1], "EVIDENCE_BUNDLE_BOUND", "error", Bool(NamesBundle(p, c, b)))
    && Told(fs[2], "EVIDENCE_REFERENCE_VALID", "error", Bool(FirstRecord(b.records, c.evidence)))
    && Told(fs[3], "SCOPE_MATCH", "error", Bool(OneScope(c, b)))
    && Told(fs[4], "DISCLOSURE_SAFE", "error", if Sensitive(c) then c.redacted else Bool(true))
    && Told(fs[5], "LIMITATION_PRESENT", "warning", Bool(|c.limitations| > 0))
  }

  lemma FindingsTold(p: Platform, c: Candidate, b: Bundle)
    ensures AllTold(p, c, b, Findings(Outcomes(p, c, b)))
  {
    OutcomesExactly(p, c, b);
  }

  predicate Told(f: Finding, code: string, severity: string, passed: Value) {
    f.code == Str(code) && f.severity == Str(severity) && f.passed == passed
  }

  lemma ErrorsPassExactly(p: Platform, c: Candidate, b: Bundle)
    ensures ErrorsPass(Findings(Outcomes(p, c, b))) <==> Supported(p, c, b)
  {
    var outcomes := Outcomes(p, c, b);
    var fs := Findings(outcomes);
    OutcomesExactly(p, c, b);
    assert CHECKS[5].severity == WARNING != ERROR;
    assert forall i :: 0 <= i < 5 ==> CHECKS[i].severity == ERROR;
    assert forall i :: 0 <= i < 6 ==> fs[i].severity == CHECKS[i].severity && fs[i].passed == outcomes[i];
    if ErrorsPass(fs) {
      assert Truthy(fs[0].passed) && Truthy(fs[1].passed) && Truthy(fs[2].passed);
      assert Truthy(fs[3].passed) && Truthy(fs[4].passed);
    }
  }

  /** The verifier passes exactly the candidates that the bundle supports. */
  lemma VerifierPassesExactly(p: Platform, c: Candidate, b: Bundle)
    requires Verify(p, c, b).Some?
    ensures Verify(p, c, b).value.status == PASS <==> Supported(p, c, b)
  {
    ErrorsPassExactly(p, c, b);
  }

  lemma VerifiedFindings(p: Platform, c: Candidate, b: Bundle)
    requires Verify(p, c, b).Some?
    ensures Verify(p, c, b).value.findings == Findings(Outcomes(p, c, b))
  {
  }

  lemma CodesDistinct(outcomes: seq<Value>)
    requires |outcomes| == |CHECKS|
    ensures AllHashable(Codes(Findings(outcomes))) && AllDistinct(Codes(Findings(outcomes)))
  {
    var codes := Codes(Findings(outcomes));
    assert forall i :: 0 <= i < 6 ==> codes[i] == Str(CHECKS[i].code);
    assert AllDistinct(CHECKS);
    forall i, j | 0 <= i < j < 6 ensures CHECKS[i].code != CHECKS[j].code {
    }
  }

  /** A candidate can be verified exactly when the result record's fields are well formed. */
  predicate Verifiable(c: Candidate) {
    AllHashable(c.contentCategories) && Disclosure(c).Bool? && Identifier(c.candidateId) &&
    HashUri(c.candidateHash) && Bounded(c.createdAt, 100)
  }

  lemma FindingsValid(outcomes: seq<Value>)
    requires |outcomes| == |CHECKS|
    ensures (forall i :: 0 <= i < |CHECKS| ==> FindingValid(Findings(outcomes)[i])) <==>
            (forall i :: 0 <= i < |CHECKS| ==> outcomes[i].Bool?)
  {
    var fs := Findings(outcomes);
    forall i | 0 <= i < |CHECKS| ensures FindingValid(fs[i]) <==> outcomes[i].Bool? {
      assert fs[i] == FindingOf(CHECKS[i], outcomes[i]);
    }
  }

  lemma ResultIdValid(p: Platform, c: Candidate, findings: seq<Finding>)
    requires p.WellFormed()
    ensures Identifier(ResultId(p, c, findings))
  {
    var v := Object(VERIFICATION_IDENTITY, [c.candidateHash, p.verifierId, p.verifierVersion, FindingsValue(findings)]);
    PrefixedIdentifier("verification_", p.short(v));
  }

  lemma ConcludeExactly(p: Platform, c: Candidate, findings: seq<Finding>)
    requires p.WellFormed() && findings != []
    requires AllHashable(Codes(findings)) && AllDistinct(Codes(findings))
    ensures Conclude(p, c, findings).Some? <==>
              Identifier(c.candidateId) && HashUri(c.candidateHash) && Bounded(c.createdAt, 100) &&
              forall i :: 0 <= i < |findings| ==> FindingValid(findings[i])
  {
    ResultIdValid(p, c, findings);
  }

  lemma VerifiableExactly(p: Platform, c: Candidate, b: Bundle)
    requires p.WellFormed()
    ensures Verify(p, c, b).Some? <==> Verifiable(c)
  {
    var outcomes := Outcomes(p, c, b);
    var fs := Findings(outcomes);
    CodesDistinct(outcomes);
    FindingsValid(outcomes);
    ConcludeExactly(p, c, fs);
    OutcomesBoolean(p, c, b);
  }

  lemma OutcomesBoolean(p: Platform, c: Candidate, b: Bundle)
    ensures (forall i :: 0 <= i < 6 ==> Outcomes(p, c, b)[i].Bool?) <==> Disclosure(c).Bool?
  {
    assert Outcomes(p, c, b)[4] == Disclosure(c);
  }
}
