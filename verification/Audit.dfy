// Approvals, exact-use authorizations and the manifest that binds the whole chain.
module Audit {
  import opened Wrappers
  import opened Hashing
  import opened Json
  import opened Contracts
  import opened Chain

  // ---------- approvals ----------

  const APPROVAL_IDENTITY: Names := ["candidate_hash", "verification_hash", "approver_id", "decision"]

  predicate Supports(decision: Value) {
    decision == APPROVED || decision == Str("rejected") || decision == Str("changes_requested")
  }

  function RecordApproval(p: Platform, c: Candidate, v: Verification, approver: Value, decision: Value, rationale: Value)
    : Result<Approval, ChainError>
  {
    if !CandidateSealed(p, c) then Failure(CandidateHashInvalid)
    else if v.candidateId != c.candidateId || v.candidateHash != c.candidateHash then Failure(OtherCandidate)
    else if !VerificationSealed(p, v) then Failure(VerificationHashInvalid)
    else if !StatusMatches(v) then Failure(StatusMismatch)
    else if v.status != PASS && decision == APPROVED then Failure(FailedCandidate)
    else if !Supports(decision) then Failure(UnsupportedDecision)
    else if !Truthy(approver) then Failure(ApproverMissing)
    else
      var id := Identified(p, "approval_", APPROVAL_IDENTITY, [c.candidateHash, v.resultHash, approver, decision]);
      Success(SealApproval(p, Approval(
        id, c.candidateId, c.candidateHash, v.resultHash, decision, approver,
        rationale, v.evaluatedAt, UNSEALED)))
  }

  // ---------- authorizations ----------

  const OUTPUT_FIELDS: Names := ["assurance_statement", "limitations"]
  const AUTHORIZATION_IDENTITY: Names := ["candidate_hash", "approval_id", "purpose", "audience", "output_hash"]

  /** The exact output a candidate stands for. */
  function OutputOf(c: Candidate): Value { Object(OUTPUT_FIELDS, [c.assuranceStatement, Arr(c.limitations)]) }

  predicate ExactUse(c: Candidate, purpose: Value, audience: Value, output: Value) {
    purpose == c.context.purpose && audience == c.context.audience && output == OutputOf(c)
  }

  function Reason(authorized: bool): Value {
    Str(if authorized then "EXACT_USE_AUTHORIZED" else "EXACT_USE_MISMATCH")
  }

  function Authorize(p: Platform, c: Candidate, a: Approval, purpose: Value, audience: Value, output: Value)
    : Result<Authorization, ChainError>
  {
    if !CandidateSealed(p, c) then Failure(CandidateHashInvalid)
    else if a.decision != APPROVED then Failure(NotApproved)
    else if !ApprovalSealed(p, a) then Failure(ApprovalHashInvalid)
    else if a.candidateId != c.candidateId || a.candidateHash != c.candidateHash then Failure(OtherCandidate)
    else
      var exact := ExactUse(c, purpose, audience, output);
      var outputHash := Str(p.digest(output));
      var id := Identified(p, "authorization_", AUTHORIZATION_IDENTITY,
                           [c.candidateHash, a.approvalId, purpose, audience, outputHash]);
      Success(SealAuthorization(p, Authorization(
        id, c.candidateId, c.candidateHash, a.approvalId, purpose, audience,
        outputHash, Bool(exact), Reason(exact), a.decidedAt, UNSEALED)))
  }

  // ---------- when they are issued, and what they say ----------

  /** A result with the hash of its content, whose verdict is that of its error findings. */
  predicate HashedResult(p: Platform, v: Verification) { v.resultHash == Str(p.digest(VerificationPayload(v))) }

  predicate VerdictFits(v: Verification) {
    if exists f | f in v.findings :: f.severity == Str("error") && !Truthy(f.passed)
    then v.status == Str("fail") else v.status == Str("pass")
  }

  lemma VerdictExactly(v: Verification)
    ensures StatusMatches(v) <==> VerdictFits(v)
    ensures ErrorsPass(v.findings) <==> forall f :: f in v.findings && f.severity == Str("error") ==> Truthy(f.passed)
  {
    if f :| f in v.findings && f.severity == Str("error") && !Truthy(f.passed) {
      var i :| 0 <= i < |v.findings| && v.findings[i] == f;
      assert !ErrorsPass(v.findings);
    }
    if !ErrorsPass(v.findings) {
      var i :| 0 <= i < |v.findings| && v.findings[i].severity == ERROR && !Truthy(v.findings[i].passed);
      assert v.findings[i] in v.findings;
    }
  }

  /**
   * A decision is recorded exactly if candidate and result are intact, belong together and
   * fit, the decision is one of three, someone made it, and only what passed is approved;
   * the record repeats what was decided upon.
   */
  lemma ApprovesExactly(p: Platform, c: Candidate, v: Verification, approver: Value, decision: Value, rationale: Value)
    ensures var r := RecordApproval(p, c, v, approver, decision, rationale);
            (r.Success? <==>
               CandidateHashed(p, c) && HashedResult(p, v) && VerdictFits(v) &&
               v.candidateId == c.candidateId && v.candidateHash == c.candidateHash &&
               (decision == Str("approved") || decision == Str("rejected") || decision == Str("changes_requested")) &&
               (decision == Str("approved") ==> v.status == Str("pass")) && Truthy(approver)) &&
            (r.Success? ==>
               var a := r.value;
               a.candidateId == c.candidateId && a.candidateHash == c.candidateHash && a.verificationHash == v.resultHash &&
               a.decision == decision && a.approverId == approver && a.rationale == rationale &&
               a.approvalId == Identified(p, "approval_", APPROVAL_IDENTITY,
                                          [a.candidateHash, a.verificationHash, a.approverId, a.decision]) &&
               a.decidedAt == v.evaluatedAt && a.recordHash == Str(p.digest(ApprovalPayload(a))))
  {
    VerdictExactly(v);
    var r := RecordApproval(p, c, v, approver, decision, rationale);
    if r.Success? { assert ApprovalSealed(p, r.value); }
  }

  /** The requested use is the one the candidate stands for. */
  predicate UseFits(c: Candidate, purpose: Value, audience: Value, output: Value) {
    && purpose == c.context.purpose && audience == c.context.audience
    && output == Obj(map["assurance_statement" := c.assuranceStatement, "limitations" := Arr(c.limitations)])
  }

  lemma OutputExactly(c: Candidate)
    ensures OutputOf(c) == Obj(map["assurance_statement" := c.assuranceStatement, "limitations" := Arr(c.limitations)])
  {
    var m := OutputOf(c).members;
    assert OUTPUT_FIELDS[0] == "assurance_statement" && OUTPUT_FIELDS[1] == "limitations";
    assert m.Keys == {"assurance_statement", "limitations"} by {
      assert KeysOf(OUTPUT_FIELDS) == {OUTPUT_FIELDS[0], OUTPUT_FIELDS[1]};
    }
    assert m == map["assurance_statement" := c.assuranceStatement, "limitations" := Arr(c.limitations)];
  }

  /** A use is decided upon exactly for an intact approval of an intact candidate; it is authorized iff it fits. */
  lemma AuthorizesExactly(p: Platform, c: Candidate, a: Approval, purpose: Value, audience: Value, output: Value)
    ensures var r := Authorize(p, c, a, purpose, audience, output);
            (r.Success? <==>
               CandidateHashed(p, c) && a.recordHash == Str(p.digest(ApprovalPayload(a))) &&
               a.decision == Str("approved") && a.candidateId == c.candidateId && a.candidateHash == c.candidateHash) &&
            (r.Success? ==>
               var z := r.value;
               z.candidateId == c.candidateId && z.candidateHash == c.candidateHash && z.approvalId == a.approvalId &&
               z.purpose == purpose && z.audience == audience && z.outputHash == Str(p.digest(output)) &&
               z.authorized == Bool(UseFits(c, purpose, audience, output)) &&
               z.reason == Str(if UseFits(c, purpose, audience, output) then "EXACT_USE_AUTHORIZED" else "EXACT_USE_MISMATCH") &&
               z.authorizationId == Identified(p, "authorization_", AUTHORIZATION_IDENTITY,
                                               [z.candidateHash, z.approvalId, z.purpose, z.audience, z.outputHash]) &&
               z.authorizedAt == a.decidedAt && z.recordHash == Str(p.digest(AuthorizationPayload(z))))
  {
    OutputExactly(c);
    var r := Authorize(p, c, a, purpose, audience, output);
    if r.Success? { assert AuthorizationSealed(p, r.value); }
  }

  // ---------- the manifest ----------

  const AUDIT_IDENTITY: Names := ["candidate_hash", "verification_hash", "approval_hash", "authorization_hash"]

  function BuildManifest(p: Platform, c: Candidate, v: Verification, a: Approval, z: Authorization): Manifest {
    var id := Identified(p, "audit_", AUDIT_IDENTITY, [c.candidateHash, v.resultHash, a.recordHash, z.recordHash]);
    SealManifest(p, Manifest(
      id, c.candidateHash, v.resultHash, a.recordHash, z.recordHash, z.authorizedAt, UNSEALED))
  }

  /** A manifest names the four records by their hashes. */
  lemma ManifestNames(p: Platform, c: Candidate, v: Verification, a: Approval, z: Authorization)
    ensures var m := BuildManifest(p, c, v, a, z);
            m.candidateHash == c.candidateHash && m.verificationHash == v.resultHash &&
            m.approvalHash == a.recordHash && m.authorizationHash == z.recordHash &&
            m.manifestId == Identified(p, "audit_", AUDIT_IDENTITY,
                                       [m.candidateHash, m.verificationHash, m.approvalHash, m.authorizationHash]) &&
            m.generatedAt == z.authorizedAt && m.manifestHash == Str(p.digest(ManifestPayload(m)))
  {
    assert ManifestSealed(p, BuildManifest(p, c, v, a, z));
  }

  /** The records an auditor is shown. */
  datatype Records = Records(
    candidate: Candidate, verification: Verification, approval: Approval,
    authorization: Authorization, manifest: Manifest)

  datatype AuditError =
    | CandidateHash | VerificationHash | ApprovalHash | AuthorizationHash | ManifestHash
    | CandidateBinding | VerificationBinding | ApprovalBinding | AuthorizationBinding
    | VerificationCandidate | VerificationCandidateId | VerificationStatus
    | ApprovalCandidate | ApprovalCandidateId | ApprovalVerification | ApprovalVerificationStatus
    | AuthorizationCandidate | AuthorizationCandidateId | AuthorizationApproval
    | AuthorizationApprovalDecision | AuthorizationScope | AuthorizationOutput | AuthorizationReason

  /** What each error reports about the records. */
  predicate Violated(p: Platform, q: Records, e: AuditError) {
    var c, v, a, z, m := q.candidate, q.verification, q.approval, q.authorization, q.manifest;
    match e
    case CandidateHash => !CandidateSealed(p, c)
    case VerificationHash => !VerificationSealed(p, v)
    case ApprovalHash => !ApprovalSealed(p, a)
    case AuthorizationHash => !AuthorizationSealed(p, z)
    case ManifestHash => !ManifestSealed(p, m)
    case CandidateBinding => m.candidateHash != c.candidateHash
    case VerificationBinding => m.verificationHash != v.resultHash
    case ApprovalBinding => m.approvalHash != a.recordHash
    case AuthorizationBinding => m.authorizationHash != z.recordHash
    case VerificationCandidate => v.candidateHash != c.candidateHash
    case VerificationCandidateId => v.candidateId != c.candidateId
    case VerificationStatus => !StatusMatches(v)
    case ApprovalCandidate => a.candidateHash != c.candidateHash
    case ApprovalCandidateId => a.candidateId != c.candidateId
    case ApprovalVerification => a.verificationHash != v.resultHash
    case ApprovalVerificationStatus => a.decision == APPROVED && v.status != PASS
    case AuthorizationCandidate => z.candidateHash != c.candidateHash
    case AuthorizationCandidateId => z.candidateId != c.candidateId
    case AuthorizationApproval => z.approvalId != a.approvalId
    case AuthorizationApprovalDecision => Truthy(z.authorized) && a.decision != APPROVED
    case AuthorizationScope =>
      Truthy(z.authorized) && (z.purpose != c.context.purpose || z.audience != c.context.audience)
    case AuthorizationOutput => Truthy(z.authorized) && z.outputHash != Str(p.digest(OutputOf(c)))
    case AuthorizationReason => z.reason != Reason(Truthy(z.authorized))
  }

  const AUDIT_ORDER: seq<AuditError> := [
    CandidateHash, VerificationHash, ApprovalHash, AuthorizationHash, ManifestHash, CandidateBinding,
    VerificationBinding, ApprovalBinding, AuthorizationBinding, VerificationCandidate,
    VerificationCandidateId, VerificationStatus, ApprovalCandidate, ApprovalCandidateId,
    ApprovalVerification, ApprovalVerificationStatus, AuthorizationCandidate, AuthorizationCandidateId,
    AuthorizationApproval, AuthorizationApprovalDecision, AuthorizationScope, AuthorizationOutput,
    AuthorizationReason]

  /** Those of a list of checks that fail, in order: each appends its error to the list. */
  function Failing<E>(order: seq<E>, bad: E -> bool): seq<E> {
    if order == [] then []
    else
      var k := |order| - 1;
      Failing(order[..k], bad) + if bad(order[k]) then [order[k]] else []
  }

  lemma {:induction false} FailingExactly<E>(order: seq<E>, bad: E -> bool, e: E)
    ensures e in Failing(order, bad) <==> e in order && bad(e)
  {
    if order != [] {
      var k := |order| - 1;
      FailingExactly(order[..k], bad, e);
      assert order == order[..k] + [order[k]];
    }
  }

  /** The list of errors `verify_audit_manifest` returns; it accepts when it is empty. */
  function AuditErrors(p: Platform, q: Records): seq<AuditError> { Failing(AUDIT_ORDER, e => Violated(p, q, e)) }

  /** Every error kind has its place in the order. */
  lemma OrderComplete(e: AuditError)
    ensures e in AUDIT_ORDER
  {
    var o := AUDIT_ORDER;
    assert o[0] in o && o[1] in o && o[2] in o && o[3] in o && o[4] in o && o[5] in o && o[6] in o && o[7] in o;
    assert o[8] in o && o[9] in o && o[10] in o && o[11] in o && o[12] in o && o[13] in o && o[14] in o && o[15] in o;
    assert o[16] in o && o[17] in o && o[18] in o && o[19] in o && o[20] in o && o[21] in o && o[22] in o;
  }

  /** The auditor accepts records that break none of its rules. */
  ghost predicate Accepted(p: Platform, q: Records) { forall e :: !Violated(p, q, e) }

  /** The errors reported are the rules broken; there are none exactly when it accepts. */
  lemma AuditErrorsExactly(p: Platform, q: Records)
    ensures forall e :: e in AuditErrors(p, q) <==> Violated(p, q, e)
    ensures AuditErrors(p, q) == [] <==> Accepted(p, q)
  {
    forall e
      ensures e in AuditErrors(p, q) <==> Violated(p, q, e)
    {
      FailingExactly(AUDIT_ORDER, e => Violated(p, q, e), e);
      OrderComplete(e);
    }
    if AuditErrors(p, q) != [] { assert AuditErrors(p, q)[0] in AuditErrors(p, q); }
  }

  /** Each record carries the digest of its own content. */
  lemma HashErrorsMean(p: Platform, q: Records)
    ensures Violated(p, q, CandidateHash) <==> q.candidate.candidateHash != Str(p.digest(CandidatePayload(q.candidate)))
    ensures Violated(p, q, VerificationHash) <==>
              q.verification.resultHash != Str(p.digest(VerificationPayload(q.verification)))
    ensures Violated(p, q, ApprovalHash) <==> q.approval.recordHash != Str(p.digest(ApprovalPayload(q.approval)))
    ensures Violated(p, q, AuthorizationHash) <==>
              q.authorization.recordHash != Str(p.digest(AuthorizationPayload(q.authorization)))
    ensures Violated(p, q, ManifestHash) <==> q.manifest.manifestHash != Str(p.digest(ManifestPayload(q.manifest)))
  {
  }

  /** The manifest names the other records by their hashes. */
  lemma BindingErrorsMean(p: Platform, q: Records)
    ensures Violated(p, q, CandidateBinding) <==> q.manifest.candidateHash != q.candidate.candidateHash
    ensures Violated(p, q, VerificationBinding) <==> q.manifest.verificationHash != q.verification.resultHash
    ensures Violated(p, q, ApprovalBinding) <==> q.manifest.approvalHash != q.approval.recordHash
    ensures Violated(p, q, AuthorizationBinding) <==> q.manifest.authorizationHash != q.authorization.recordHash
  {
  }

  /** Each record names the ones it rests upon. */
  lemma LinkErrorsMean(p: Platform, q: Records)
    ensures var (c, v, a, z) := (q.candidate, q.verification, q.approval, q.authorization);
            && (Violated(p, q, VerificationCandidate) <==> v.candidateHash != c.candidateHash)
            && (Violated(p, q, VerificationCandidateId) <==> v.candidateId != c.candidateId)
            && (Violated(p, q, ApprovalCandidate) <==> a.candidateHash != c.candidateHash)
            && (Violated(p, q, ApprovalCandidateId) <==> a.candidateId != c.candidateId)
            && (Violated(p, q, ApprovalVerification) <==> a.verificationHash != v.resultHash)
            && (Violated(p, q, AuthorizationCandidate) <==> z.candidateHash != c.candidateHash)
            && (Violated(p, q, AuthorizationCandidateId) <==> z.candidateId != c.candidateId)
            && (Violated(p, q, AuthorizationApproval) <==> z.approvalId != a.approvalId)
  {
  }

  /** Verdicts fit their findings, and approvals fit the verdicts. */
  lemma VerdictErrorsMean(p: Platform, q: Records)
    ensures Violated(p, q, VerificationStatus) <==> !VerdictFits(q.verification)
    ensures Violated(p, q, ApprovalVerificationStatus) <==>
              q.approval.decision == Str("approved") && q.verification.status != Str("pass")
  {
    VerdictExactly(q.verification);
  }

  /** An authorization rests on an approval and is for the candidate's use, and gives its reason. */
  lemma UseErrorsMean(p: Platform, q: Records)
    ensures var (c, a, z) := (q.candidate, q.approval, q.authorization);
            var authorized := Truthy(z.authorized);
            && (Violated(p, q, AuthorizationApprovalDecision) <==> authorized && a.decision != Str("approved"))
            && (Violated(p, q, AuthorizationScope) <==>
                  authorized && !(z.purpose == c.context.purpose && z.audience == c.context.audience))
            && (Violated(p, q, AuthorizationOutput) <==>
                  authorized && !exists output :: UseFits(c, c.context.purpose, c.context.audience, output) &&
                                                  z.outputHash == Str(p.digest(output)))
            && (Violated(p, q, AuthorizationReason) <==>
                  z.reason != Str(if authorized then "EXACT_USE_AUTHORIZED" else "EXACT_USE_MISMATCH"))
  {
    OutputExactly(q.candidate);
  }

  // ---------- completeness ----------

  /** Whatever use was asked for, records issued one from the other audit without error. */
  lemma IssuedRecordsAudit(p: Platform, c: Candidate, v: Verification, approver: Value, decision: Value,
                           rationale: Value, purpose: Value, audience: Value, output: Value)
    requires RecordApproval(p, c, v, approver, decision, rationale).Success?
    requires Authorize(p, c, RecordApproval(p, c, v, approver, decision, rationale).value, purpose, audience, output).Success?
    ensures var a := RecordApproval(p, c, v, approver, decision, rationale).value;
            var z := Authorize(p, c, a, purpose, audience, output).value;
            Accepted(p, Records(c, v, a, z, BuildManifest(p, c, v, a, z)))
  {
    var a := RecordApproval(p, c, v, approver, decision, rationale).value;
    var z := Authorize(p, c, a, purpose, audience, output).value;
    var q := Records(c, v, a, z, BuildManifest(p, c, v, a, z));
    forall e ensures !Violated(p, q, e) { }
  }

  // ---------- binding ----------

  lemma AcceptedHashes(p: Platform, q: Records)
    requires Accepted(p, q)
    ensures CandidateSealed(p, q.candidate) && VerificationSealed(p, q.verification)
    ensures ApprovalSealed(p, q.approval) && AuthorizationSealed(p, q.authorization) && ManifestSealed(p, q.manifest)
  {
    assert !Violated(p, q, CandidateHash) && !Violated(p, q, VerificationHash) && !Violated(p, q, ApprovalHash);
    assert !Violated(p, q, AuthorizationHash) && !Violated(p, q, ManifestHash);
  }

  lemma AcceptedLinks(p: Platform, q: Records)
    requires Accepted(p, q)
    ensures q.manifest.candidateHash == q.candidate.candidateHash
    ensures q.manifest.verificationHash == q.verification.resultHash
    ensures q.manifest.approvalHash == q.approval.recordHash
    ensures q.manifest.authorizationHash == q.authorization.recordHash
  {
    assert !Violated(p, q, CandidateBinding) && !Violated(p, q, VerificationBinding);
    assert !Violated(p, q, ApprovalBinding) && !Violated(p, q, AuthorizationBinding);
  }

  /** Two chains contain different records of one kind with one hash. */
  ghost predicate ChainsClash(p: Platform, q: Records, r: Records) {
    || Clash(p.digest, ManifestPayload(q.manifest), ManifestPayload(r.manifest))
    || Clash(p.digest, CandidatePayload(q.candidate), CandidatePayload(r.candidate))
    || Clash(p.digest, VerificationPayload(q.verification), VerificationPayload(r.verification))
    || Clash(p.digest, ApprovalPayload(q.approval), ApprovalPayload(r.approval))
    || Clash(p.digest, AuthorizationPayload(q.authorization), AuthorizationPayload(r.authorization))
  }

  /** One manifest hash decides all five records, unless two of the chains' own payloads clash. */
  lemma ManifestBinds(p: Platform, q: Records, r: Records)
    requires Accepted(p, q) && Accepted(p, r) && q.manifest.manifestHash == r.manifest.manifestHash
    ensures q == r || ChainsClash(p, q, r)
  {
    AcceptedHashes(p, q);
    AcceptedHashes(p, r);
    AcceptedLinks(p, q);
    AcceptedLinks(p, r);
    ManifestSealBinds(p, q.manifest, r.manifest);
    if q.manifest == r.manifest {
      CandidateSealBinds(p, q.candidate, r.candidate);
      VerificationSealBinds(p, q.verification, r.verification);
      ApprovalSealBinds(p, q.approval, r.approval);
      AuthorizationSealBinds(p, q.authorization, r.authorization);
    }
  }

  /** An accepted chain that authorizes a use rests on an approval of a passing verification. */
  lemma AcceptedUseIsApproved(p: Platform, q: Records)
    requires Accepted(p, q) && Truthy(q.authorization.authorized)
    ensures q.approval.decision == APPROVED && q.verification.status == PASS && ErrorsPass(q.verification.findings)
  {
    assert !Violated(p, q, AuthorizationApprovalDecision) && !Violated(p, q, ApprovalVerificationStatus);
    assert !Violated(p, q, VerificationStatus);
  }

  /** And it authorizes only the candidate's own purpose, audience and output. */
  lemma AcceptedUseIsExact(p: Platform, q: Records, output: Value)
    requires Accepted(p, q) && Truthy(q.authorization.authorized)
    requires Str(p.digest(output)) == q.authorization.outputHash
    ensures q.authorization.purpose == q.candidate.context.purpose
    ensures q.authorization.audience == q.candidate.context.audience
    ensures output == OutputOf(q.candidate) || Clash(p.digest, output, OutputOf(q.candidate))
  {
    assert !Violated(p, q, AuthorizationScope) && !Violated(p, q, AuthorizationOutput);
    SameDigest(p, output, OutputOf(q.candidate));
  }

  /** The authorization of a use with its flag turned over, hashed anew. */
  function Overturned(p: Platform, z: Authorization): Authorization {
    var flag := !Truthy(z.authorized);
    SealAuthorization(p, z.(authorized := Bool(flag), reason := Reason(flag)))
  }

  /**
   * A refused use cannot be turned into an authorized one: with the flag turned over,
   * hashed anew and bound by a new manifest, the chain is rejected, unless the
   * requested output clashes with the candidate's.
   */
  lemma OverturnedRefusalRejected(p: Platform, c: Candidate, v: Verification, a: Approval,
                                  purpose: Value, audience: Value, output: Value)
    requires Authorize(p, c, a, purpose, audience, output).Success?
    requires !Truthy(Authorize(p, c, a, purpose, audience, output).value.authorized)
    ensures var z := Overturned(p, Authorize(p, c, a, purpose, audience, output).value);
            !Accepted(p, Records(c, v, a, z, BuildManifest(p, c, v, a, z))) || Clash(p.digest, output, OutputOf(c))
  {
    var z := Overturned(p, Authorize(p, c, a, purpose, audience, output).value);
    var q := Records(c, v, a, z, BuildManifest(p, c, v, a, z));
    if Accepted(p, q) { AcceptedUseIsExact(p, q, output); }
  }

  /** A result with one passing finding of no consequence. */
  function MadeUpResult(p: Platform, c: Candidate): Verification {
    SealVerification(p, Verification(
      Str("verification_x"), c.candidateId, c.candidateHash, p.verifierId, p.verifierVersion, PASS,
      [Finding(Str("X"), INFO, Bool(true), Str("m"))], c.createdAt, UNSEALED))
  }

  /**
   * The auditor trusts the findings it is shown: any hashed candidate, supported by
   * evidence or not, has an accepted chain that authorizes its output.
   */
  lemma AuditTrustsFindings(p: Platform, c: Candidate)
    requires p.WellFormed() && CandidateSealed(p, c) && Verifiable(c)
    ensures exists q ::
              Accepted(p, q) && q.candidate == c && VerificationValid(q.verification) && Truthy(q.authorization.authorized)
  {
    var v := MadeUpResult(p, c);
    var a := RecordApproval(p, c, v, Str("a"), APPROVED, Str("r")).value;
    var z := Authorize(p, c, a, c.context.purpose, c.context.audience, OutputOf(c)).value;
    IssuedRecordsAudit(p, c, v, Str("a"), APPROVED, Str("r"), c.context.purpose, c.context.audience, OutputOf(c));
    MadeUpValid(p, c);
    assert Accepted(p, Records(c, v, a, z, BuildManifest(p, c, v, a, z)));
  }

  lemma MadeUpValid(p: Platform, c: Candidate)
    requires p.WellFormed() && Verifiable(c)
    ensures VerificationValid(MadeUpResult(p, c))
  {
  }
}
