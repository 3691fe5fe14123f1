// The whole pipeline: when it returns, and what its results are.
module Pipeline {
  import opened Wrappers
  import opened Json
  import opened Contracts
  import opened Chain
  import opened Audit

  datatype PipelineResult = PipelineResult(records: Records, auditErrors: seq<AuditError>)

  /** The rationale recorded when none is given. */
  const DEFAULT_RATIONALE := "Verified candidate approved for the requested exact use."

  /** What follows compilation. */
  function Finish(p: Platform, c: Candidate, b: Bundle, approver: Value): Result<PipelineResult, ChainError> {
    var verified := Verify(p, c, b);
    if verified.None? then Failure(NotVerifiable)
    else
      var v := verified.value;
      var approved := RecordApproval(p, c, v, approver, APPROVED, Str(DEFAULT_RATIONALE));
      if approved.Failure? then Failure(approved.error)
      else
        var a := approved.value;
        var authorized := Authorize(p, c, a, c.context.purpose, c.context.audience, OutputOf(c));
        if authorized.Failure? then Failure(authorized.error)
        else
          var z := authorized.value;
          var q := Records(c, v, a, z, BuildManifest(p, c, v, a, z));
          Success(PipelineResult(q, AuditErrors(p, q)))
  }

  /** `run`. */
  function Run(p: Platform, c: Context, d: Draft, b: Bundle, approver: Value): Result<PipelineResult, ChainError> {
    var compiled := Compile(p, c, d, b);
    if compiled.Failure? then Failure(compiled.error)
    else Finish(p, compiled.value, b, approver)
  }

  // ---------- what compilation gives ----------

  lemma CompiledIsVerifiable(p: Platform, c: Context, d: Draft, b: Bundle)
    requires p.WellFormed() && ContextValid(c) && DraftValid(d) && Compile(p, c, d, b).Success?
    ensures Verifiable(Compile(p, c, d, b).value) <==> (IsSensitive(d.contentCategories) ==> d.redacted.Bool?)
  {
    PrefixedIdentifier("candidate_", p.short(Object(CANDIDATE_IDENTITY, [c.runId, DraftValue(d), b.bundleHash, p.compilerVersion])));
  }

  lemma CompiledIsSupported(p: Platform, c: Context, d: Draft, b: Bundle)
    requires BundleValid(p, b) && Compile(p, c, d, b).Success?
    ensures Supported(p, Compile(p, c, d, b).value, b) <==> (IsSensitive(d.contentCategories) ==> Truthy(d.redacted))
  {
    FoundExactly(b.records, Compile(p, c, d, b).value.evidence);
  }

  /** Of a sensitive draft only an explicitly redacted one passes. */
  lemma CompiledPasses(p: Platform, c: Context, d: Draft, b: Bundle)
    requires p.WellFormed() && ContextValid(c) && DraftValid(d) && BundleValid(p, b)
    requires Compile(p, c, d, b).Success?
    ensures var k := Compile(p, c, d, b).value;
            Verifiable(k) && Supported(p, k, b) <==> (IsSensitive(d.contentCategories) ==> d.redacted == Bool(true))
  {
    CompiledIsVerifiable(p, c, d, b);
    CompiledIsSupported(p, c, d, b);
  }

  /** The rest succeeds exactly when the verifier passes and an approver is named. */
  lemma FinishExactly(p: Platform, c: Candidate, b: Bundle, approver: Value)
    requires p.WellFormed() && CandidateSealed(p, c)
    ensures Finish(p, c, b, approver).Success? <==> Verifiable(c) && Supported(p, c, b) && Truthy(approver)
  {
    VerifiableExactly(p, c, b);
    if Verify(p, c, b).Some? { VerifierPassesExactly(p, c, b); }
  }

  /** The selected evidence is in the bundle, in scope, and not above the run's ceiling. */
  ghost predicate Compilable(c: Context, d: Draft, b: Bundle) {
    b.tenantId == c.tenantId && b.caseId == c.caseId &&
    exists e :: e in b.records && e.evidenceId == d.selectedEvidenceId && NotAbove(e.classification, c.classification)
  }

  /** Two classifications of the list, the first no further down than the second. */
  ghost predicate NotAbove(a: Value, b: Value) {
    exists i: nat, j: nat :: i <= j && Classified(a, i) && Classified(b, j)
  }

  predicate Classified(v: Value, i: nat) { i < |CLASSIFICATIONS| && v == Str(CLASSIFICATIONS[i]) }

  lemma RankedNotAbove(a: Value, b: Value)
    ensures Rank(a).Some? && Rank(b).Some? && Rank(a).value <= Rank(b).value <==> NotAbove(a, b)
  {
    forall v: Value, i: nat ensures Rank(v) == Some(i) <==> Classified(v, i) { RankIsPlace(v, i); }
    if Rank(a).Some? && Rank(b).Some? && Rank(a).value <= Rank(b).value {
      assert Classified(a, Rank(a).value) && Classified(b, Rank(b).value);
    }
  }

  lemma CompilesExactly(p: Platform, c: Context, d: Draft, b: Bundle)
    requires BundleValid(p, b)
    ensures Compile(p, c, d, b).Success? <==> Compilable(c, d, b)
  {
    var found := Find(b.records, d.selectedEvidenceId);
    if found.Some? {
      forall e | e in b.records && e.evidenceId == d.selectedEvidenceId
        ensures e == found.value
      {
        FoundExactly(b.records, e);
      }
      RankedNotAbove(found.value.classification, c.classification);
    }
  }

  lemma RunAfterCompile(p: Platform, c: Context, d: Draft, b: Bundle, approver: Value)
    requires p.WellFormed() && Compile(p, c, d, b).Success?
    ensures var k := Compile(p, c, d, b).value;
            Run(p, c, d, b, approver).Success? <==> Verifiable(k) && Supported(p, k, b) && Truthy(approver)
  {
    FinishExactly(p, Compile(p, c, d, b).value, b, approver);
  }

  /** When `run` returns: a condition on its inputs alone. */
  lemma RunsExactly(p: Platform, c: Context, d: Draft, b: Bundle, approver: Value)
    requires p.WellFormed() && ContextValid(c) && DraftValid(d) && BundleValid(p, b)
    ensures Run(p, c, d, b, approver).Success? <==>
              Compilable(c, d, b) && (IsSensitive(d.contentCategories) ==> d.redacted == Bool(true)) && Truthy(approver)
  {
    CompilesExactly(p, c, d, b);
    if Compile(p, c, d, b).Success? {
      CompiledPasses(p, c, d, b);
      RunAfterCompile(p, c, d, b, approver);
    }
  }

  /** Every result of `run` is passing, approved, authorized for the exact use and audit-clean. */
  lemma ResultsAreComplete(p: Platform, c: Context, d: Draft, b: Bundle, approver: Value)
    requires Run(p, c, d, b, approver).Success?
    ensures var r := Run(p, c, d, b, approver).value;
            r.auditErrors == [] && Accepted(p, r.records) && Supported(p, r.records.candidate, b)
  {
    var k := Compile(p, c, d, b).value;
    ResultsAudit(p, k, b, approver);
    AuditErrorsExactly(p, Run(p, c, d, b, approver).value.records);
    ResultsPass(p, k, b, approver);
  }

  /** What it was asked for, and by whom it was approved. */
  lemma ResultsAnswerTheCall(p: Platform, c: Context, d: Draft, b: Bundle, approver: Value)
    requires Run(p, c, d, b, approver).Success?
    ensures var q := Run(p, c, d, b, approver).value.records;
            && q.verification.status == PASS
            && q.approval.decision == APPROVED && q.approval.approverId == approver
            && q.approval.rationale == Str(DEFAULT_RATIONALE)
            && q.authorization.authorized == Bool(true)
            && q.authorization.purpose == c.purpose && q.authorization.audience == c.audience
            && q.authorization.outputHash == Str(p.digest(OutputOf(q.candidate)))
            && q.candidate.context == c && q.manifest.generatedAt == c.createdAt
  {
    FinishAnswers(p, Compile(p, c, d, b).value, b, approver);
    CompiledForRun(p, c, d, b);
  }

  lemma CompiledForRun(p: Platform, c: Context, d: Draft, b: Bundle)
    requires Compile(p, c, d, b).Success?
    ensures Compile(p, c, d, b).value.context == c && Compile(p, c, d, b).value.createdAt == c.createdAt
  {
  }

  lemma FinishAnswers(p: Platform, c: Candidate, b: Bundle, approver: Value)
    requires Finish(p, c, b, approver).Success?
    ensures var q := Finish(p, c, b, approver).value.records;
            && q.candidate == c && q.manifest.generatedAt == c.createdAt
            && q.verification.status == PASS
            && q.approval.decision == APPROVED && q.approval.approverId == approver
            && q.approval.rationale == Str(DEFAULT_RATIONALE)
            && q.authorization.authorized == Bool(true)
            && q.authorization.purpose == c.context.purpose && q.authorization.audience == c.context.audience
            && q.authorization.outputHash == Str(p.digest(OutputOf(c)))
  {
  }

  lemma ResultsPass(p: Platform, c: Candidate, b: Bundle, approver: Value)
    requires Finish(p, c, b, approver).Success?
    ensures Supported(p, c, b) && Finish(p, c, b, approver).value.records.candidate == c
  {
    VerifierPassesExactly(p, c, b);
  }

  lemma ResultsAudit(p: Platform, c: Candidate, b: Bundle, approver: Value)
    requires Finish(p, c, b, approver).Success?
    ensures Accepted(p, Finish(p, c, b, approver).value.records)
  {
    IssuedRecordsAudit(p, c, Verify(p, c, b).value, approver, APPROVED, Str(DEFAULT_RATIONALE),
                       c.context.purpose, c.context.audience, OutputOf(c));
  }
}
