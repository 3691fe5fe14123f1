// Assurance packets: profile claims, verification, building and what acceptance binds.
module Packets {
  import opened Wrappers
  import opened Hashing
  import opened Json
  import opened Contracts
  import opened Chain
  import opened Audit
  import opened Pipeline

  const PROTOCOL_VERSION := Str("0.3.0-candidate.1")
  const RECONSTRUCTED := Str("reconstructed")
  const GOVERNED := "par.governed.v1"
  const PROFILES: Names := [
    "par.core.v1", "par.evidence-bound.v1", "par.governed.v1", "par.exact-use.v1", "par.reconstructable.v1"]

  datatype Packet = Packet(
    protocolVersion: Value, packetId: Value, profiles: seq<Value>, lifecycle: Value, bundle: Bundle,
    records: Records, output: Value, limitations: seq<Value>, createdAt: Value, packetHash: Value)

  // ---------- profile claims ----------

  datatype ProfileError = Empty | InvalidType | Duplicate | NotCumulative | Unknown

  function Texts(names: seq<string>): seq<Value> { seq(|names|, i requires 0 <= i < |names| => Str(names[i])) }

  function Prefix<T>(s: seq<T>, n: nat): seq<T> { if n <= |s| then s[..n] else s }

  predicate ProfileViolated(profiles: seq<Value>, e: ProfileError) {
    match e
    case Empty => profiles == []
    case InvalidType => profiles != [] && !AllText(profiles)
    case Duplicate => profiles != [] && AllText(profiles) && !AllDistinct(profiles)
    case NotCumulative => profiles != [] && AllText(profiles) && profiles != Texts(Prefix(PROFILES, |profiles|))
    case Unknown => profiles != [] && AllText(profiles) && exists s | s in profiles :: s !in Texts(PROFILES)
  }

  const PROFILE_ORDER: seq<ProfileError> := [Empty, InvalidType, Duplicate, NotCumulative, Unknown]

  /** `_profile_errors`, with its early returns. */
  method ProfileErrors(profiles: seq<Value>) returns (errors: seq<ProfileError>)
    ensures errors == Failing(PROFILE_ORDER, e => ProfileViolated(profiles, e))
  {
    ghost var bad := e => ProfileViolated(profiles, e);
    UnrollProfiles(bad);
    errors := [];
    if profiles == [] { return [Empty]; }
    if !AllText(profiles) { return [InvalidType]; }
    if !AllDistinct(profiles) { errors := errors + [Duplicate]; }
    if profiles != Texts(Prefix(PROFILES, |profiles|)) { errors := errors + [NotCumulative]; }
    if exists s | s in profiles :: s !in Texts(PROFILES) { errors := errors + [Unknown]; }
  }

  function Flag(bad: bool, e: ProfileError): seq<ProfileError> { if bad then [e] else [] }

  lemma UnrollProfiles(bad: ProfileError -> bool)
    ensures Failing(PROFILE_ORDER, bad) ==
              Flag(bad(Empty), Empty) + Flag(bad(InvalidType), InvalidType) + Flag(bad(Duplicate), Duplicate) +
              Flag(bad(NotCumulative), NotCumulative) + Flag(bad(Unknown), Unknown)
  {
    var o := PROFILE_ORDER;
    assert o[..4][..3] == o[..3] && o[..3][..2] == o[..2] && o[..2][..1] == o[..1] && o[..1][..0] == [];
    assert Failing(o[..1], bad) == Flag(bad(Empty), Empty);
    assert Failing(o[..2], bad) == Failing(o[..1], bad) + Flag(bad(InvalidType), InvalidType);
    assert Failing(o[..3], bad) == Failing(o[..2], bad) + Flag(bad(Duplicate), Duplicate);
    assert Failing(o[..4], bad) == Failing(o[..3], bad) + Flag(bad(NotCumulative), NotCumulative);
  }

  /** A non-empty initial run of the supported profiles. */
  predicate Cumulative(profiles: seq<Value>) {
    1 <= |profiles| <= |PROFILES| && forall i :: 0 <= i < |profiles| ==> profiles[i] == Str(PROFILES[i])
  }

  /** A claim has no error exactly when it is such a run. */
  lemma ProfilesExactly(profiles: seq<Value>)
    ensures (forall e :: !ProfileViolated(profiles, e)) <==> Cumulative(profiles)
  {
    if Cumulative(profiles) {
      CumulativeIsPrefix(profiles);
      assert forall i :: 0 <= i < |profiles| ==> profiles[i] == Texts(PROFILES)[i];
      forall e ensures !ProfileViolated(profiles, e) { }
    }
    if forall e :: !ProfileViolated(profiles, e) {
      assert !ProfileViolated(profiles, Empty) && !ProfileViolated(profiles, InvalidType);
      assert !ProfileViolated(profiles, NotCumulative);
      PrefixIsCumulative(profiles);
    }
  }

  lemma PrefixIsCumulative(profiles: seq<Value>)
    requires profiles != [] && profiles == Texts(Prefix(PROFILES, |profiles|))
    ensures Cumulative(profiles)
  {
    assert |profiles| == |Prefix(PROFILES, |profiles|)|;
    assert forall i :: 0 <= i < |profiles| ==> profiles[i] == Str(Prefix(PROFILES, |profiles|)[i]);
  }

  lemma CumulativeIsPrefix(profiles: seq<Value>)
    requires Cumulative(profiles)
    ensures profiles == Texts(Prefix(PROFILES, |profiles|)) && AllDistinct(profiles) && AllText(profiles)
  {
    forall i, j | 0 <= i < j < |profiles| ensures profiles[i] != profiles[j] {
      assert PROFILES[i] != PROFILES[j];
    }
  }

  /** In a valid claim, the governed profile is claimed from the third on. */
  lemma GovernedExactly(profiles: seq<Value>)
    requires Cumulative(profiles)
    ensures Str(GOVERNED) in profiles <==> |profiles| >= 3
  {
    if |profiles| >= 3 { assert profiles[2] == Str(GOVERNED); }
    assert PROFILES[0] != GOVERNED && PROFILES[1] != GOVERNED;
  }

  // ---------- verification ----------

  const PACKET_SCHEMA := Str("https://digitrans.app/schemas/provable-agent-reference/assurance-packet.schema.json")

  const PACKET_FIELDS: Names := [
    "$schema", "protocol_version", "packet_id", "claimed_profiles", "lifecycle", "evidence_bundle", "records",
    "authorized_output", "limitations", "created_at", "packet_hash"]
  const LIFECYCLE_FIELDS: Names := ["state"]
  const RECORD_FIELDS: Names := ["candidate", "verification", "approval", "authorization", "audit_manifest"]

  function RecordRow(q: Records): (r: seq<Value>) ensures |r| == 5 {
    [Object(CANDIDATE_FIELDS, CandidateRow(q.candidate)),
     Object(VERIFICATION_FIELDS, VerificationRow(q.verification)),
     Object(APPROVAL_FIELDS, ApprovalRow(q.approval)),
     Object(AUTHORIZATION_FIELDS, AuthorizationRow(q.authorization)),
     Object(MANIFEST_FIELDS, ManifestRow(q.manifest))]
  }

  function PacketRow(k: Packet): (r: seq<Value>) ensures |r| == 11 {
    [PACKET_SCHEMA, k.protocolVersion, k.packetId, Arr(k.profiles), Object(LIFECYCLE_FIELDS, [k.lifecycle]),
     Object(BUNDLE_FIELDS, BundleRow(k.bundle)), Object(RECORD_FIELDS, RecordRow(k.records)), k.output,
     Arr(k.limitations), k.createdAt, k.packetHash]
  }

  const PACKET_IDENTITY: Names := ["protocol_version", "candidate_hash", "manifest_hash", "evidence_bundle_hash"]

  /** What a packet's identifier is made of. */
  function PacketIdentityOf(q: Records, b: Bundle): Value {
    Object(PACKET_IDENTITY, [PROTOCOL_VERSION, q.candidate.candidateHash, q.manifest.manifestHash, b.bundleHash])
  }

  function PacketId(p: Platform, q: Records, b: Bundle): Value {
    Identified(p, "packet_", PACKET_IDENTITY,
               [PROTOCOL_VERSION, q.candidate.candidateHash, q.manifest.manifestHash, b.bundleHash])
  }

  /** The identifier decides candidate, manifest and bundle by their hashes, up to a clash. */
  lemma PacketIdBinds(p: Platform, q: Records, b: Bundle, q': Records, b': Bundle)
    requires PacketId(p, q, b) == PacketId(p, q', b')
    ensures (q.candidate.candidateHash == q'.candidate.candidateHash && q.manifest.manifestHash == q'.manifest.manifestHash &&
             b.bundleHash == b'.bundleHash) ||
            Clash(p.short, PacketIdentityOf(q, b), PacketIdentityOf(q', b'))
  {
    var a, a' := [PROTOCOL_VERSION, q.candidate.candidateHash, q.manifest.manifestHash, b.bundleHash],
                 [PROTOCOL_VERSION, q'.candidate.candidateHash, q'.manifest.manifestHash, b'.bundleHash];
    IdentifiedBinds(p, "packet_", PACKET_IDENTITY, a, a');
    if a == a' { assert a[1] == a'[1] && a[2] == a'[2] && a[3] == a'[3]; }
  }

  /** What the packet hash covers. */
  function PacketPayload(k: Packet): Value { Payload(PACKET_FIELDS, PacketRow(k)) }

  predicate PacketSealed(p: Platform, k: Packet) { Sealed(p, PACKET_FIELDS, PacketRow(k)) }

  /** What each code says about severity and outcome. */
  function Outline(fs: seq<Finding>): map<Value, (Value, Value)> {
    if fs == [] then map[]
    else
      var last := fs[|fs| - 1];
      Outline(fs[..|fs| - 1])[last.code := (last.severity, last.passed)]
  }

  /** Position `i` is the last with its code, and this is what it says. */
  predicate SaysAt(fs: seq<Finding>, i: int, code: Value, severity: Value, passed: Value) {
    0 <= i < |fs| && fs[i].code == code && fs[i].severity == severity && fs[i].passed == passed &&
    forall j :: i < j < |fs| ==> fs[j].code != code
  }

  ghost predicate Says(fs: seq<Finding>, code: Value, severity: Value, passed: Value) {
    exists i :: SaysAt(fs, i, code, severity, passed)
  }

  ghost predicate SameOutline(a: seq<Finding>, b: seq<Finding>) {
    forall code, severity, passed :: Says(a, code, severity, passed) <==> Says(b, code, severity, passed)
  }

  lemma SaysSnoc(front: seq<Finding>, last: Finding, code: Value, severity: Value, passed: Value)
    ensures Says(front + [last], code, severity, passed) <==>
            if last.code == code then last.severity == severity && last.passed == passed else Says(front, code, severity, passed)
  {
    var fs, n := front + [last], |front|;
    if last.code == code {
      if i :| SaysAt(fs, i, code, severity, passed) { assert fs[n] == last; }
      if last.severity == severity && last.passed == passed { assert SaysAt(fs, n, code, severity, passed); }
    } else {
      if i :| SaysAt(fs, i, code, severity, passed) { SaysAtSnoc(front, last, i, code, severity, passed); }
      if i :| SaysAt(front, i, code, severity, passed) { SaysAtSnoc(front, last, i, code, severity, passed); }
    }
  }

  lemma SaysAtSnoc(front: seq<Finding>, last: Finding, i: int, code: Value, severity: Value, passed: Value)
    requires last.code != code
    ensures SaysAt(front + [last], i, code, severity, passed) <==> SaysAt(front, i, code, severity, passed)
  {
    var fs := front + [last];
    assert forall j :: 0 <= j < |front| ==> fs[j] == front[j];
  }

  lemma {:induction false} OutlineSays(fs: seq<Finding>, code: Value, severity: Value, passed: Value)
    ensures Says(fs, code, severity, passed) <==> code in Outline(fs) && Outline(fs)[code] == (severity, passed)
  {
    if fs != [] {
      var front, last := fs[..|fs| - 1], fs[|fs| - 1];
      OutlineSays(front, code, severity, passed);
      SaysSnoc(front, last, code, severity, passed);
      assert fs == front + [last];
    }
  }

  lemma OutlineExactly(a: seq<Finding>, b: seq<Finding>)
    ensures Outline(a) == Outline(b) <==> SameOutline(a, b)
  {
    forall code, severity, passed
      ensures Says(a, code, severity, passed) <==> code in Outline(a) && Outline(a)[code] == (severity, passed)
      ensures Says(b, code, severity, passed) <==> code in Outline(b) && Outline(b)[code] == (severity, passed)
    {
      OutlineSays(a, code, severity, passed);
      OutlineSays(b, code, severity, passed);
    }
    if SameOutline(a, b) {
      forall code | code in Outline(a) ensures code in Outline(b) && Outline(b)[code] == Outline(a)[code] {
        assert Says(a, code, Outline(a)[code].0, Outline(a)[code].1);
      }
      forall code | code in Outline(b) ensures code in Outline(a) {
        assert Says(b, code, Outline(b)[code].0, Outline(b)[code].1);
      }
    }
  }

  /** Lists that agree in code, severity and outcome, finding by finding. */
  lemma {:induction false} AlikeOutline(a: seq<Finding>, b: seq<Finding>)
    requires |a| == |b|
    requires forall i :: 0 <= i < |a| ==> a[i].code == b[i].code && a[i].severity == b[i].severity && a[i].passed == b[i].passed
    ensures Outline(a) == Outline(b)
  {
    if a != [] { AlikeOutline(a[..|a| - 1], b[..|b| - 1]); }
  }

  /** Repeating the outcomes of the checks is having their outline. */
  lemma RepeatsExactly(p: Platform, c: Candidate, b: Bundle, fs: seq<Finding>)
    ensures Outline(fs) == Outline(Findings(Outcomes(p, c, b))) <==> Repeats(p, c, b, fs)
  {
    var now := Findings(Outcomes(p, c, b));
    FindingsTold(p, c, b);
    OutlineExactly(fs, now);
    if Repeats(p, c, b, fs) {
      var gs :| AllTold(p, c, b, gs) && SameOutline(fs, gs);
      OutlineExactly(fs, gs);
      ToldAlike(p, c, b, gs, now);
    }
  }

  lemma ToldAlike(p: Platform, c: Candidate, b: Bundle, a: seq<Finding>, d: seq<Finding>)
    requires AllTold(p, c, b, a) && AllTold(p, c, b, d)
    ensures Outline(a) == Outline(d)
  {
    forall i | 0 <= i < 6
      ensures a[i].code == d[i].code && a[i].severity == d[i].severity && a[i].passed == d[i].passed
    {
      assert i == 0 || i == 1 || i == 2 || i == 3 || i == 4 || i == 5;
    }
    AlikeOutline(a, d);
  }

  /** By the last finding for each code, the list says what the checks find. */
  ghost predicate Repeats(p: Platform, c: Candidate, b: Bundle, fs: seq<Finding>) {
    exists gs :: AllTold(p, c, b, gs) && SameOutline(fs, gs)
  }

  predicate Visible(p: Platform, v: Value) { v.Str? && p.visible(v.text) }

  /** The approver is someone, and not the agent. */
  predicate Separated(p: Platform, approver: Value, agent: Value) {
    Visible(p, approver) && agent.Str? && p.fold(approver.text) != p.fold(agent.text)
  }

  predicate Limits(limitations: seq<Value>) {
    1 <= |limitations| <= 20 && AllText(limitations) && AllDistinct(limitations) &&
    forall i :: 0 <= i < |limitations| ==> 1 <= |limitations[i].text| <= 2000
  }

  predicate ClassificationsKnown(c: Candidate, b: Bundle) {
    Rank(c.context.classification).Some? && Rank(c.evidence.classification).Some? &&
    forall i :: 0 <= i < |b.records| ==> Rank(b.records[i].classification).Some?
  }

  datatype FormError =
    | ProtocolVersion | Lifecycle | ProfileClaim(profile: ProfileError) | PacketHash | PacketIdentity
    | LimitationsMissing | LimitationsInvalid | LimitationsDuplicate | TimestampMissing | TimestampMismatch

  datatype EvidenceError =
    | BundleHashInvalid | ClassificationUnsupported | RedactedType | BundleBinding | SchemaVersion
    | BundleScope | EvidenceMissing | EvidenceSubstituted | SemanticsUnverifiable | FindingsMismatch | NotPassing

  datatype UseError =
    | AuthorizationFlagType | OutputCandidate | OutputHash | AuditChain(error: AuditError)
    | NotApprovedDecision | IdentityMissing | SeparationFailed | RationaleMissing | NotAuthorized

  datatype PacketError = OfForm(form: FormError) | OfEvidence(evidence: EvidenceError) | OfUse(use: UseError)

  predicate SizedLimitations(s: seq<Value>) { 1 <= |s| <= 20 && AllText(s) }

  predicate FormViolated(p: Platform, k: Packet, e: FormError) {
    match e
    case ProtocolVersion => k.protocolVersion != PROTOCOL_VERSION
    case Lifecycle => k.lifecycle != RECONSTRUCTED
    case ProfileClaim(f) => ProfileViolated(k.profiles, f)
    case PacketHash => !PacketSealed(p, k)
    case PacketIdentity => k.packetId != PacketId(p, k.records, k.bundle)
    case LimitationsMissing => k.limitations == []
    case LimitationsInvalid =>
      k.limitations != [] &&
      (!SizedLimitations(k.limitations) || exists s | s in k.limitations :: s.Str? && !(1 <= |s.text| <= 2000))
    case LimitationsDuplicate => SizedLimitations(k.limitations) && !AllDistinct(k.limitations)
    case TimestampMissing => !Truthy(k.createdAt)
    case TimestampMismatch => k.createdAt != k.records.manifest.generatedAt
  }

  /** Candidate, verification and bundle, given what the verifier answers about them now. */
  predicate EvidenceViolated(p: Platform, c: Candidate, v: Verification, b: Bundle, now: Option<Verification>, e: EvidenceError) {
    match e
    case BundleHashInvalid => b.bundleHash != BundleHash(p, b)
    case ClassificationUnsupported => !ClassificationsKnown(c, b)
    case RedactedType => !c.redacted.Bool?
    case BundleBinding => c.bundleHash != b.bundleHash
    case SchemaVersion => c.schemaVersion != Str("0.1")
    case BundleScope => c.context.tenantId != b.tenantId || c.context.caseId != b.caseId
    case EvidenceMissing => Find(b.records, c.evidence.evidenceId).None?
    case EvidenceSubstituted =>
      Find(b.records, c.evidence.evidenceId).Some? && Find(b.records, c.evidence.evidenceId).value != c.evidence
    case SemanticsUnverifiable => now.None?
    case FindingsMismatch =>
      now.Some? && (Outline(v.findings) != Outline(now.value.findings) || v.status != now.value.status)
    case NotPassing => v.status != PASS
  }

  predicate UseViolated(p: Platform, q: Records, output: Value, governed: bool, e: UseError) {
    var c, a, z := q.candidate, q.approval, q.authorization;
    match e
    case AuthorizationFlagType => !z.authorized.Bool?
    case OutputCandidate => output != OutputOf(c)
    case OutputHash => Str(p.digest(output)) != z.outputHash
    case AuditChain(f) => Violated(p, q, f)
    case NotApprovedDecision => a.decision != APPROVED
    case IdentityMissing => governed && !Visible(p, a.approverId)
    case SeparationFailed => governed && Visible(p, a.approverId) && !Separated(p, a.approverId, c.context.agentId)
    case RationaleMissing => governed && !Visible(p, a.rationale)
    case NotAuthorized => !Truthy(z.authorized)
  }

  /** What each error of `verify_assurance_packet` reports. */
  predicate PacketViolated(p: Platform, k: Packet, e: PacketError) {
    var q := k.records;
    match e
    case OfForm(f) => FormViolated(p, k, f)
    case OfEvidence(f) => EvidenceViolated(p, q.candidate, q.verification, k.bundle, Verify(p, q.candidate, k.bundle), f)
    case OfUse(f) => UseViolated(p, q, k.output, Str(GOVERNED) in k.profiles, f)
  }

  /** `verify_assurance_packet` accepts a packet with no error to report. */
  ghost predicate PacketAccepted(p: Platform, k: Packet) { forall e :: !PacketViolated(p, k, e) }

  // ---------- what acceptance means ----------

  /** The packet's own fields. */
  ghost predicate FormSound(p: Platform, k: Packet) {
    && k.protocolVersion == Str("0.3.0-candidate.1") && k.lifecycle == Str("reconstructed")
    && Cumulative(k.profiles) && Limited(k.limitations)
    && k.packetHash == Str(p.digest(PacketPayload(k)))
    && k.packetId == Str("packet_" + p.short(PacketIdentityOf(k.records, k.bundle)))
    && Truthy(k.createdAt) && k.createdAt == k.records.manifest.generatedAt
  }

  /** One to twenty different texts of one to two thousand characters. */
  predicate Limited(limitations: seq<Value>) {
    && 0 < |limitations| < 21
    && (forall i, j :: 0 <= i < j < |limitations| ==> limitations[i] != limitations[j])
    && forall s :: s in limitations ==> s.Str? && 0 < |s.text| < 2001
  }

  lemma LimitedExactly(limitations: seq<Value>)
    ensures Limits(limitations) <==> Limited(limitations)
  {
    assert forall s :: s in limitations <==> exists i :: 0 <= i < |limitations| && limitations[i] == s;
  }

  /** Every classification in sight is one of the five. */
  ghost predicate AllClassified(c: Candidate, b: Bundle) {
    && Known(c.context.classification) && Known(c.evidence.classification)
    && forall e :: e in b.records ==> Known(e.classification)
  }

  ghost predicate Known(classification: Value) { exists i: nat :: Classified(classification, i) }

  lemma KnownExactly(classification: Value)
    ensures Rank(classification).Some? <==> Known(classification)
  {
    RankedNotAbove(classification, classification);
    if i: nat :| Classified(classification, i) { assert NotAbove(classification, classification); }
  }

  lemma ClassifiedExactly(c: Candidate, b: Bundle)
    ensures ClassificationsKnown(c, b) <==> AllClassified(c, b)
  {
    KnownExactly(c.context.classification);
    KnownExactly(c.evidence.classification);
    forall e ensures Rank(e).Some? <==> Known(e) { KnownExactly(e); }
  }

  /** Candidate and bundle fit, and the candidate verifies against the bundle here and now. */
  ghost predicate EvidenceSound(p: Platform, c: Candidate, v: Verification, b: Bundle) {
    AllClassified(c, b) && c.redacted.Bool? && c.schemaVersion == Str("0.1") &&
    Verifiable(c) && Supported(p, c, b) && v.status == Str("pass") &&
    Repeats(p, c, b, v.findings)
  }

  /** The use is authorized, audited, and of exactly the candidate's output. */
  ghost predicate UseSound(p: Platform, q: Records, output: Value, governed: bool) {
    Accepted(p, q) && q.authorization.authorized == Bool(true) &&
    UseFits(q.candidate, q.authorization.purpose, q.authorization.audience, output) &&
    (governed ==> Independent(p, q.approval.approverId, q.candidate.context.agentId) && Seen(p, q.approval.rationale))
  }

  /** A text that can be seen. */
  predicate Seen(p: Platform, v: Value) { v.Str? && p.visible(v.text) }

  /** Two visible names that differ even when folded. */
  predicate Independent(p: Platform, approver: Value, agent: Value) {
    Seen(p, approver) && agent.Str? && p.fold(agent.text) != p.fold(approver.text)
  }

  /** What each error about the packet's own fields reports. */
  lemma FormErrorsMean(p: Platform, k: Packet)
    ensures FormViolated(p, k, ProtocolVersion) <==> k.protocolVersion != Str("0.3.0-candidate.1")
    ensures FormViolated(p, k, Lifecycle) <==> k.lifecycle != Str("reconstructed")
    ensures FormViolated(p, k, TimestampMissing) <==> !Truthy(k.createdAt)
    ensures FormViolated(p, k, TimestampMismatch) <==> k.records.manifest.generatedAt != k.createdAt
  {
  }

  /** The packet's hash and identifier are those of its content. */
  lemma SealErrorsMean(p: Platform, k: Packet)
    ensures FormViolated(p, k, PacketHash) <==> k.packetHash != Str(p.digest(PacketPayload(k)))
    ensures FormViolated(p, k, PacketIdentity) <==>
              k.packetId != Str("packet_" + p.short(PacketIdentityOf(k.records, k.bundle)))
  {
  }

  /** Of limitations: none, too many or ill-formed, or repeated; repetition is looked for among few texts only. */
  lemma LimitationErrorsMean(p: Platform, k: Packet)
    ensures FormViolated(p, k, LimitationsMissing) <==> |k.limitations| == 0
    ensures FormViolated(p, k, LimitationsInvalid) <==>
              |k.limitations| > 20 || exists s :: s in k.limitations && !(s.Str? && 0 < |s.text| < 2001)
    ensures FormViolated(p, k, LimitationsDuplicate) <==>
              |k.limitations| < 21 && (forall s :: s in k.limitations ==> s.Str?) &&
              exists i, j :: 0 <= i < j < |k.limitations| && k.limitations[i] == k.limitations[j]
  {
    assert forall s :: s in k.limitations <==> exists i :: 0 <= i < |k.limitations| && k.limitations[i] == s;
  }

  /** What each error about a claim of profiles reports: only a list of texts is looked at further. */
  lemma ProfileErrorsMean(profiles: seq<Value>)
    ensures ProfileViolated(profiles, Empty) <==> |profiles| == 0
    ensures ProfileViolated(profiles, InvalidType) <==> exists s :: s in profiles && !s.Str?
    ensures ProfileViolated(profiles, Duplicate) <==>
              (forall s :: s in profiles ==> s.Str?) && exists i, j :: 0 <= i < j < |profiles| && profiles[i] == profiles[j]
    ensures ProfileViolated(profiles, NotCumulative) <==>
              profiles != [] && (forall s :: s in profiles ==> s.Str?) && !Cumulative(profiles)
    ensures ProfileViolated(profiles, Unknown) <==>
              (forall s :: s in profiles ==> s.Str?) && exists s :: s in profiles && s !in Texts(PROFILES)
  {
    assert forall s :: s in profiles <==> exists i :: 0 <= i < |profiles| && profiles[i] == s;
    if Cumulative(profiles) { CumulativeIsPrefix(profiles); }
    if profiles != [] && profiles == Texts(Prefix(PROFILES, |profiles|)) { PrefixIsCumulative(profiles); }
  }

  /** What each error about candidate, result and bundle reports. */
  lemma EvidenceErrorsMean(p: Platform, c: Candidate, v: Verification, b: Bundle, now: Option<Verification>)
    ensures EvidenceViolated(p, c, v, b, now, BundleHashInvalid) <==> b.bundleHash != Str(p.digest(BundlePayload(b)))
    ensures EvidenceViolated(p, c, v, b, now, ClassificationUnsupported) <==> !AllClassified(c, b)
    ensures EvidenceViolated(p, c, v, b, now, RedactedType) <==> !c.redacted.Bool?
    ensures EvidenceViolated(p, c, v, b, now, BundleBinding) <==> b.bundleHash != c.bundleHash
    ensures EvidenceViolated(p, c, v, b, now, SchemaVersion) <==> c.schemaVersion != Str("0.1")
    ensures EvidenceViolated(p, c, v, b, now, BundleScope) <==>
              !(b.tenantId == c.context.tenantId && b.caseId == c.context.caseId)
    ensures EvidenceViolated(p, c, v, b, now, EvidenceMissing) <==>
              forall e :: e in b.records ==> e.evidenceId != c.evidence.evidenceId
    ensures EvidenceViolated(p, c, v, b, now, EvidenceSubstituted) <==>
              (exists e :: e in b.records && e.evidenceId == c.evidence.evidenceId) && !FirstRecord(b.records, c.evidence)
    ensures EvidenceViolated(p, c, v, b, now, NotPassing) <==> v.status != Str("pass")
  {
    ClassifiedExactly(c, b);
    FindsFirst(b.records, c.evidence);
  }

  /** Given what the verifier answers now. */
  lemma SemanticErrorsMean(p: Platform, c: Candidate, v: Verification, b: Bundle, now: Option<Verification>)
    requires Answers(p, c, b, now)
    ensures EvidenceViolated(p, c, v, b, now, SemanticsUnverifiable) <==> !Verifiable(c)
    ensures EvidenceViolated(p, c, v, b, now, FindingsMismatch) <==>
              Verifiable(c) && !(Repeats(p, c, b, v.findings) && v.status == Str(if Supported(p, c, b) then "pass" else "fail"))
  {
    RepeatsExactly(p, c, b, v.findings);
  }

  /** What each error about the use reports. */
  lemma UseErrorsMean(p: Platform, q: Records, output: Value, governed: bool)
    ensures var (c, a, z) := (q.candidate, q.approval, q.authorization);
            && (UseViolated(p, q, output, governed, AuthorizationFlagType) <==> !z.authorized.Bool?)
            && (UseViolated(p, q, output, governed, OutputCandidate) <==> !UseFits(c, c.context.purpose, c.context.audience, output))
            && (UseViolated(p, q, output, governed, OutputHash) <==> z.outputHash != Str(p.digest(output)))
            && (UseViolated(p, q, output, governed, NotApprovedDecision) <==> a.decision != Str("approved"))
            && (UseViolated(p, q, output, governed, IdentityMissing) <==> governed && !Seen(p, a.approverId))
            && (UseViolated(p, q, output, governed, SeparationFailed) <==>
                  governed && Seen(p, a.approverId) && !Independent(p, a.approverId, c.context.agentId))
            && (UseViolated(p, q, output, governed, RationaleMissing) <==> governed && !Seen(p, a.rationale))
            && (UseViolated(p, q, output, governed, NotAuthorized) <==> !Truthy(z.authorized))
            && forall e :: UseViolated(p, q, output, governed, AuditChain(e)) <==> e in AuditErrors(p, q)
  {
    OutputExactly(q.candidate);
    AuditErrorsExactly(p, q);
  }

  lemma LimitsExactly(p: Platform, k: Packet)
    ensures Limits(k.limitations) <==>
              !FormViolated(p, k, LimitationsMissing) && !FormViolated(p, k, LimitationsInvalid) &&
              !FormViolated(p, k, LimitationsDuplicate)
  {
    assert forall s :: s in k.limitations <==> exists i :: 0 <= i < |k.limitations| && k.limitations[i] == s;
  }

  lemma SoundForm(p: Platform, k: Packet)
    requires FormSound(p, k)
    ensures forall e :: !FormViolated(p, k, e)
  {
    LimitedExactly(k.limitations);
    LimitsExactly(p, k);
    ProfilesExactly(k.profiles);
  }

  lemma ProfilesOfForm(p: Platform, k: Packet)
    requires forall e :: !FormViolated(p, k, e)
    ensures Cumulative(k.profiles) && Limited(k.limitations)
  {
    LimitedExactly(k.limitations);
    LimitsExactly(p, k);
    ProfilesExactly(k.profiles);
    forall f ensures !ProfileViolated(k.profiles, f) { assert !FormViolated(p, k, ProfileClaim(f)); }
  }

  lemma RestOfForm(p: Platform, k: Packet)
    requires forall e :: !FormViolated(p, k, e)
    ensures k.protocolVersion == PROTOCOL_VERSION && k.lifecycle == RECONSTRUCTED
    ensures k.packetHash == Str(p.digest(PacketPayload(k))) && k.packetId == PacketId(p, k.records, k.bundle)
    ensures Truthy(k.createdAt) && k.createdAt == k.records.manifest.generatedAt
  {
    assert !FormViolated(p, k, ProtocolVersion) && !FormViolated(p, k, Lifecycle) && !FormViolated(p, k, PacketHash);
    assert !FormViolated(p, k, PacketIdentity) && !FormViolated(p, k, TimestampMissing);
    assert !FormViolated(p, k, TimestampMismatch);
  }

  lemma FormExactly(p: Platform, k: Packet)
    ensures FormSound(p, k) <==> forall e :: !FormViolated(p, k, e)
  {
    if FormSound(p, k) { SoundForm(p, k); }
    if forall e :: !FormViolated(p, k, e) {
      ProfilesOfForm(p, k);
      RestOfForm(p, k);
    }
  }

  /** What the verifier answers, if it answers. */
  ghost predicate Answers(p: Platform, c: Candidate, b: Bundle, now: Option<Verification>) {
    (now.Some? <==> Verifiable(c)) &&
    (now.Some? ==> now.value.findings == Findings(Outcomes(p, c, b)) && (now.value.status == PASS <==> Supported(p, c, b)) &&
                   (now.value.status == PASS || now.value.status == FAIL))
  }

  lemma SoundEvidence(p: Platform, c: Candidate, v: Verification, b: Bundle, now: Option<Verification>)
    requires Answers(p, c, b, now) && EvidenceSound(p, c, v, b)
    ensures forall e :: !EvidenceViolated(p, c, v, b, now, e)
  {
    ClassifiedExactly(c, b);
    FindsFirst(b.records, c.evidence);
    RepeatsExactly(p, c, b, v.findings);
  }

  lemma EvidenceFacts(p: Platform, c: Candidate, v: Verification, b: Bundle, now: Option<Verification>)
    requires forall e :: !EvidenceViolated(p, c, v, b, now, e)
    ensures ClassificationsKnown(c, b) && c.redacted.Bool? && c.schemaVersion == Str("0.1") && v.status == PASS
    ensures now.Some? && Outline(v.findings) == Outline(now.value.findings) && v.status == now.value.status
  {
    assert !EvidenceViolated(p, c, v, b, now, ClassificationUnsupported) && !EvidenceViolated(p, c, v, b, now, RedactedType);
    assert !EvidenceViolated(p, c, v, b, now, SchemaVersion) && !EvidenceViolated(p, c, v, b, now, SemanticsUnverifiable);
    assert !EvidenceViolated(p, c, v, b, now, FindingsMismatch) && !EvidenceViolated(p, c, v, b, now, NotPassing);
  }

  lemma EvidenceExactly(p: Platform, c: Candidate, v: Verification, b: Bundle, now: Option<Verification>)
    requires Answers(p, c, b, now)
    ensures EvidenceSound(p, c, v, b) <==> forall e :: !EvidenceViolated(p, c, v, b, now, e)
  {
    if EvidenceSound(p, c, v, b) { SoundEvidence(p, c, v, b, now); }
    if forall e :: !EvidenceViolated(p, c, v, b, now, e) {
      EvidenceFacts(p, c, v, b, now);
      ClassifiedExactly(c, b);
      RepeatsExactly(p, c, b, v.findings);
    }
  }

  lemma UseExactly(p: Platform, q: Records, output: Value, governed: bool)
    ensures UseSound(p, q, output, governed) <==> forall e :: !UseViolated(p, q, output, governed, e)
  {
    OutputExactly(q.candidate);
    if UseSound(p, q, output, governed) {
      AcceptedUseIsApproved(p, q);
      assert !Violated(p, q, AuthorizationOutput);
    }
    if forall e :: !UseViolated(p, q, output, governed, e) {
      forall f ensures !Violated(p, q, f) { assert !UseViolated(p, q, output, governed, AuditChain(f)); }
      assert !UseViolated(p, q, output, governed, AuthorizationFlagType) && !UseViolated(p, q, output, governed, OutputCandidate);
      assert !UseViolated(p, q, output, governed, NotAuthorized) && !UseViolated(p, q, output, governed, IdentityMissing);
      assert !UseViolated(p, q, output, governed, SeparationFailed) && !UseViolated(p, q, output, governed, RationaleMissing);
      assert !Violated(p, q, AuthorizationScope);
    }
  }

  lemma NowFacts(p: Platform, c: Candidate, b: Bundle)
    requires p.WellFormed()
    ensures Answers(p, c, b, Verify(p, c, b))
  {
    VerifiableExactly(p, c, b);
    if Verify(p, c, b).Some? { VerifierPassesExactly(p, c, b); }
  }

  /** A packet is accepted exactly when form, evidence and use are sound. */
  lemma PacketAcceptedExactly(p: Platform, k: Packet)
    requires p.WellFormed()
    ensures PacketAccepted(p, k) <==>
              FormSound(p, k) && EvidenceSound(p, k.records.candidate, k.records.verification, k.bundle) &&
              UseSound(p, k.records, k.output, Str(GOVERNED) in k.profiles)
  {
    var q := k.records;
    NowFacts(p, q.candidate, k.bundle);
    FormExactly(p, k);
    EvidenceExactly(p, q.candidate, q.verification, k.bundle, Verify(p, q.candidate, k.bundle));
    UseExactly(p, q, k.output, Str(GOVERNED) in k.profiles);
    PacketAcceptedByParts(p, k);
  }

  lemma PacketAcceptedByParts(p: Platform, k: Packet)
    ensures PacketAccepted(p, k) <==>
              (forall e :: !FormViolated(p, k, e)) &&
              (forall e :: !EvidenceViolated(p, k.records.candidate, k.records.verification, k.bundle,
                                             Verify(p, k.records.candidate, k.bundle), e)) &&
              (forall e :: !UseViolated(p, k.records, k.output, Str(GOVERNED) in k.profiles, e))
  {
    assert forall e :: PacketViolated(p, k, OfForm(e)) <==> FormViolated(p, k, e);
    assert forall e :: PacketViolated(p, k, OfEvidence(e)) <==>
                         EvidenceViolated(p, k.records.candidate, k.records.verification, k.bundle,
                                          Verify(p, k.records.candidate, k.bundle), e);
    assert forall e :: PacketViolated(p, k, OfUse(e)) <==>
                         UseViolated(p, k.records, k.output, Str(GOVERNED) in k.profiles, e);
  }

  // ---------- building ----------

  function SealPacket(p: Platform, k: Packet): (r: Packet)
    ensures PacketSealed(p, r) && r == k.(packetHash := r.packetHash)
  {
    var r := k.(packetHash := SealOf(p, PACKET_FIELDS, PacketRow(k)));
    assert PacketRow(r)[..10] == PacketRow(k)[..10];
    SealIgnoresLast(p, PACKET_FIELDS, PacketRow(r), PacketRow(k));
    r
  }

  function PacketOf(p: Platform, b: Bundle, q: Records, limitations: seq<Value>, profiles: seq<Value>): Packet {
    SealPacket(p, Packet(PROTOCOL_VERSION, PacketId(p, q, b), profiles, RECONSTRUCTED, b, q, OutputOf(q.candidate),
                         limitations, q.manifest.generatedAt, UNSEALED))
  }

  /** `build_assurance_packet`: None when it raises. */
  ghost function Build(p: Platform, b: Bundle, r: PipelineResult, limitations: seq<Value>, profiles: seq<Value>): Option<Packet> {
    if !Limits(limitations) then None
    else if exists e :: ProfileViolated(profiles, e) then None
    else if r.auditErrors != [] then None
    else
      var k := PacketOf(p, b, r.records, limitations, profiles);
      if PacketAccepted(p, k) then Some(k) else None
  }

  lemma FormOfBuilt(p: Platform, b: Bundle, q: Records, limitations: seq<Value>, profiles: seq<Value>)
    requires Limits(limitations) && Cumulative(profiles)
    ensures FormSound(p, PacketOf(p, b, q, limitations, profiles)) <==> Truthy(q.manifest.generatedAt)
  {
    LimitedExactly(limitations);
    assert PacketSealed(p, PacketOf(p, b, q, limitations, profiles));
  }

  lemma BuildExactly(p: Platform, b: Bundle, r: PipelineResult, limitations: seq<Value>, profiles: seq<Value>)
    requires p.WellFormed() && Limits(limitations) && Cumulative(profiles)
    requires r.auditErrors == [] && Accepted(p, r.records) && Truthy(r.records.manifest.generatedAt)
    ensures Build(p, b, r, limitations, profiles).Some? <==>
              EvidenceSound(p, r.records.candidate, r.records.verification, b) &&
              UseSound(p, r.records, OutputOf(r.records.candidate), |profiles| >= 3)
  {
    ProfilesExactly(profiles);
    GovernedExactly(profiles);
    FormOfBuilt(p, b, r.records, limitations, profiles);
    PacketAcceptedExactly(p, PacketOf(p, b, r.records, limitations, profiles));
  }

  lemma ResultEvidence(p: Platform, c: Context, d: Draft, b: Bundle, approver: Value)
    requires Run(p, c, d, b, approver).Success?
    ensures var q := Run(p, c, d, b, approver).value.records;
            q.candidate == Compile(p, c, d, b).value && q.verification == Verify(p, q.candidate, b).value &&
            Verify(p, q.candidate, b).Some?
  {
  }

  lemma CompiledEvidence(p: Platform, c: Context, d: Draft, b: Bundle)
    requires Compile(p, c, d, b).Success?
    ensures var k := Compile(p, c, d, b).value;
            k.redacted == d.redacted && k.schemaVersion == Str("0.1") &&
            Known(k.context.classification) && Known(k.evidence.classification)
  {
    var k := Compile(p, c, d, b).value;
    KnownExactly(k.context.classification);
    KnownExactly(k.evidence.classification);
  }

  /** What the verifier answered just now fits the candidate. */
  lemma VerifiedEvidence(p: Platform, c: Candidate, b: Bundle)
    requires p.WellFormed() && Verify(p, c, b).Some? && Supported(p, c, b) && c.schemaVersion == Str("0.1")
    ensures EvidenceSound(p, c, Verify(p, c, b).value, b) <==> c.redacted.Bool? && AllClassified(c, b)
  {
    NowFacts(p, c, b);
    RepeatsExactly(p, c, b, Verify(p, c, b).value.findings);
  }

  lemma ResultEvidenceSound(p: Platform, c: Context, d: Draft, b: Bundle, approver: Value)
    requires p.WellFormed() && Run(p, c, d, b, approver).Success?
    ensures var q := Run(p, c, d, b, approver).value.records;
            EvidenceSound(p, q.candidate, q.verification, b) <==>
              d.redacted.Bool? && forall e :: e in b.records ==> Known(e.classification)
  {
    ResultEvidence(p, c, d, b, approver);
    CompiledEvidence(p, c, d, b);
    ResultsAreComplete(p, c, d, b, approver);
    VerifiedEvidence(p, Run(p, c, d, b, approver).value.records.candidate, b);
  }

  lemma ResultUseSound(p: Platform, c: Context, d: Draft, b: Bundle, approver: Value, governed: bool)
    requires p.visible(DEFAULT_RATIONALE) && Run(p, c, d, b, approver).Success?
    ensures var r := Run(p, c, d, b, approver).value;
            r.auditErrors == [] && Accepted(p, r.records) && r.records.manifest.generatedAt == c.createdAt &&
            (UseSound(p, r.records, OutputOf(r.records.candidate), governed) <==>
               (governed ==> Independent(p, approver, c.agentId)))
  {
    ResultsAreComplete(p, c, d, b, approver);
    ResultsAnswerTheCall(p, c, d, b, approver);
    OutputExactly(Run(p, c, d, b, approver).value.records.candidate);
  }

  /**
   * When a result of `run` can be packaged: with typed inputs, exactly when the
   * governed profile is unclaimed or the approver is someone other than the agent.
   */
  lemma ResultsBuildExactly(p: Platform, c: Context, d: Draft, b: Bundle, approver: Value,
                            limitations: seq<Value>, profiles: seq<Value>)
    requires p.WellFormed() && p.visible(DEFAULT_RATIONALE) && ContextValid(c)
    requires Run(p, c, d, b, approver).Success? && Limits(limitations) && Cumulative(profiles)
    ensures Build(p, b, Run(p, c, d, b, approver).value, limitations, profiles).Some? <==>
              d.redacted.Bool? && (forall e :: e in b.records ==> Known(e.classification)) &&
              (|profiles| >= 3 ==> Independent(p, approver, c.agentId))
  {
    ResultEvidenceSound(p, c, d, b, approver);
    ResultUseSound(p, c, d, b, approver, |profiles| >= 3);
    BuildExactly(p, b, Run(p, c, d, b, approver).value, limitations, profiles);
  }

  // ---------- binding ----------

  /** What an accepted packet says follows from its candidate and its bundle: what is to be done with it ... */
  lemma CandidateDecidesUse(p: Platform, k: Packet)
    requires PacketAccepted(p, k)
    ensures var (c, z) := (k.records.candidate, k.records.authorization);
            k.output == OutputOf(c) && z.authorized == Bool(true) &&
            z.purpose == c.context.purpose && z.audience == c.context.audience
  {
    var q, governed := k.records, Str(GOVERNED) in k.profiles;
    PacketAcceptedByParts(p, k);
    UseExactly(p, q, k.output, governed);
    OutputExactly(q.candidate);
  }

  /** ... and why: evidence, scope and findings. */
  lemma CandidateDecidesEvidence(p: Platform, k: Packet)
    requires PacketAccepted(p, k)
    ensures var (c, v) := (k.records.candidate, k.records.verification);
            && Repeats(p, c, k.bundle, v.findings)
            && v.status == PASS && Supported(p, c, k.bundle)
  {
    var q := k.records;
    PacketAcceptedByParts(p, k);
    EvidenceFacts(p, q.candidate, q.verification, k.bundle, Verify(p, q.candidate, k.bundle));
    VerifierPassesExactly(p, q.candidate, k.bundle);
    VerifiedFindings(p, q.candidate, k.bundle);
    RepeatsExactly(p, q.candidate, k.bundle, q.verification.findings);
  }

  /**
   * The candidate's hash decides candidate, bundle, output and use, though not who
   * approved it, unless the two candidates' or the two bundles' payloads clash.
   */
  lemma CandidateHashBinds(p: Platform, j: Packet, k: Packet)
    requires PacketAccepted(p, j) && PacketAccepted(p, k)
    requires j.records.candidate.candidateHash == k.records.candidate.candidateHash
    ensures Clash(p.digest, CandidatePayload(j.records.candidate), CandidatePayload(k.records.candidate)) ||
            Clash(p.digest, BundlePayload(j.bundle), BundlePayload(k.bundle)) ||
            (j.records.candidate == k.records.candidate && j.bundle == k.bundle && j.output == k.output &&
             SameOutline(j.records.verification.findings, k.records.verification.findings) &&
             j.records.authorization.purpose == k.records.authorization.purpose &&
             j.records.authorization.audience == k.records.authorization.audience)
  {
    CandidateDecidesUse(p, j);
    CandidateDecidesUse(p, k);
    CandidateDecidesEvidence(p, j);
    CandidateDecidesEvidence(p, k);
    CandidateSealBinds(p, j.records.candidate, k.records.candidate);
    if j.records.candidate == k.records.candidate {
      BundleSealBinds(p, j.bundle, k.bundle);
      if j.bundle == k.bundle {
        RepeatsExactly(p, j.records.candidate, j.bundle, j.records.verification.findings);
        RepeatsExactly(p, j.records.candidate, j.bundle, k.records.verification.findings);
        OutlineExactly(j.records.verification.findings, k.records.verification.findings);
      }
    }
  }

  lemma RecordsRowInjective(q: Records, r: Records)
    ensures RecordRow(q) == RecordRow(r) ==> q == r
  {
    CandidateInjective(q.candidate, r.candidate);
    VerificationInjective(q.verification, r.verification);
    ObjectInjective(APPROVAL_FIELDS, ApprovalRow(q.approval), ApprovalRow(r.approval));
    ObjectInjective(AUTHORIZATION_FIELDS, AuthorizationRow(q.authorization), AuthorizationRow(r.authorization));
    ObjectInjective(MANIFEST_FIELDS, ManifestRow(q.manifest), ManifestRow(r.manifest));
  }

  lemma PacketInjective(j: Packet, k: Packet)
    ensures PacketRow(j) == PacketRow(k) ==> j == k
  {
    if PacketRow(j) == PacketRow(k) {
      var x, y := PacketRow(j), PacketRow(k);
      assert x[1] == y[1] && x[2] == y[2] && x[3] == y[3] && x[4] == y[4] && x[5] == y[5] && x[6] == y[6];
      assert x[7] == y[7] && x[8] == y[8] && x[9] == y[9] && x[10] == y[10];
      ObjectInjective(LIFECYCLE_FIELDS, [j.lifecycle], [k.lifecycle]);
      BundleInjective(j.bundle, k.bundle);
      ObjectInjective(RECORD_FIELDS, RecordRow(j.records), RecordRow(k.records));
      RecordsRowInjective(j.records, k.records);
    }
  }

  /** The packet's hash decides the packet. */
  lemma PacketHashBinds(p: Platform, j: Packet, k: Packet)
    requires PacketAccepted(p, j) && PacketAccepted(p, k) && j.packetHash == k.packetHash
    ensures j == k || Clash(p.digest, PacketPayload(j), PacketPayload(k))
  {
    assert !PacketViolated(p, j, OfForm(PacketHash)) && !PacketViolated(p, k, OfForm(PacketHash));
    SealBinds(p, PACKET_FIELDS, PacketRow(j), PacketRow(k));
    PacketInjective(j, k);
  }
}
