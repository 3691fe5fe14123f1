// Loading packets from JSON and printing them back.
module PacketJson {
  import opened Wrappers
  import opened Json
  import opened Contracts
  import opened Chain
  import opened Audit
  import opened Pipeline
  import opened Packets

  // ---------- arrays of records ----------

  function ParseAll<T>(parse: Value -> Option<T>, items: seq<Value>): Option<seq<T>> {
    if items == [] then Some([])
    else
      var first := parse(items[0]);
      var rest := ParseAll(parse, items[1..]);
      if first.None? || rest.None? then None else Some([first.value] + rest.value)
  }

  ghost predicate Parses<T>(parse: Value -> Option<T>, items: seq<Value>, xs: seq<T>) {
    |items| == |xs| && forall i :: 0 <= i < |xs| ==> parse(items[i]) == Some(xs[i])
  }

  lemma {:induction false} ParsedAll<T>(parse: Value -> Option<T>, items: seq<Value>)
    requires ParseAll(parse, items).Some?
    ensures Parses(parse, items, ParseAll(parse, items).value)
    decreases |items|
  {
    if items != [] { ParsedAll(parse, items[1..]); }
  }

  lemma {:induction false} AllParse<T>(parse: Value -> Option<T>, items: seq<Value>, xs: seq<T>)
    requires Parses(parse, items, xs)
    ensures ParseAll(parse, items) == Some(xs)
    decreases |items|
  {
    if items != [] {
      assert Parses(parse, items[1..], xs[1..]);
      AllParse(parse, items[1..], xs[1..]);
      assert xs == [xs[0]] + xs[1..];
    }
  }

  lemma ParseAllExactly<T>(parse: Value -> Option<T>, items: seq<Value>, xs: seq<T>)
    ensures ParseAll(parse, items) == Some(xs) <==> Parses(parse, items, xs)
  {
    if Parses(parse, items, xs) { AllParse(parse, items, xs); }
    if ParseAll(parse, items).Some? { ParsedAll(parse, items); }
  }

  // ---------- records ----------

  function ContextFrom(v: Value): Option<Context> {
    match Columns(CONTEXT_FIELDS, v)
    case None => None
    case Some(r) =>
      var c := Context(r[0], r[1], r[2], r[3], r[4], r[5], r[6], r[7]);
      if ContextValid(c) then Some(c) else None
  }

  lemma ContextInverse(v: Value, c: Context)
    ensures ContextFrom(v) == Some(c) <==> v == ContextValue(c) && ContextValid(c)
  {
    ColumnsExactly(CONTEXT_FIELDS, v, ContextRow(c));
    if ContextFrom(v) == Some(c) { assert Columns(CONTEXT_FIELDS, v).value == ContextRow(c); }
  }

  function EvidenceFrom(v: Value): Option<Evidence> {
    match Columns(EVIDENCE_FIELDS, v)
    case None => None
    case Some(r) =>
      var e := Evidence(r[0], r[1], r[2], r[3], r[4], r[5], r[6]);
      if EvidenceValid(e) then Some(e) else None
  }

  lemma EvidenceInverse(v: Value, e: Evidence)
    ensures EvidenceFrom(v) == Some(e) <==> v == EvidenceValue(e) && EvidenceValid(e)
  {
    ColumnsExactly(EVIDENCE_FIELDS, v, EvidenceRow(e));
    if EvidenceFrom(v) == Some(e) { assert Columns(EVIDENCE_FIELDS, v).value == EvidenceRow(e); }
  }

  function RecordsFrom(v: Value): Option<seq<Evidence>> {
    if v.Arr? then ParseAll(EvidenceFrom, v.items) else None
  }

  lemma RecordsInverse(v: Value, es: seq<Evidence>)
    ensures RecordsFrom(v) == Some(es) <==> v == RecordsValue(es) && forall i :: 0 <= i < |es| ==> EvidenceValid(es[i])
  {
    if v.Arr? {
      ParseAllExactly(EvidenceFrom, v.items, es);
      forall i | 0 <= i < |es| && i < |v.items|
        ensures EvidenceFrom(v.items[i]) == Some(es[i]) <==> v.items[i] == EvidenceValue(es[i]) && EvidenceValid(es[i])
      {
        EvidenceInverse(v.items[i], es[i]);
      }
      if RecordsFrom(v) == Some(es) { assert v.items == RecordsValue(es).items; }
      if v == RecordsValue(es) { assert forall i :: 0 <= i < |es| ==> v.items[i] == EvidenceValue(es[i]); }
    }
  }

  function BundleOf(p: Platform, records: Option<seq<Evidence>>, r: seq<Value>): Option<Bundle>
    requires |r| == 5
  {
    if records.None? then None
    else
      var b := Bundle(r[0], r[1], r[2], records.value, r[4]);
      if BundleValid(p, b) then Some(b) else None
  }

  lemma BundleOfExactly(p: Platform, records: Option<seq<Evidence>>, r: seq<Value>, b: Bundle)
    requires |r| == 5
    requires records == Some(b.records) <==>
               r[3] == RecordsValue(b.records) && forall i :: 0 <= i < |b.records| ==> EvidenceValid(b.records[i])
    ensures BundleOf(p, records, r) == Some(b) <==> r == BundleRow(b) && BundleValid(p, b)
  {
  }

  function BundleFrom(p: Platform, v: Value): Option<Bundle> {
    match Columns(BUNDLE_FIELDS, v)
    case None => None
    case Some(r) => BundleOf(p, RecordsFrom(r[3]), r)
  }

  lemma BundleInverse(p: Platform, v: Value, b: Bundle)
    ensures BundleFrom(p, v) == Some(b) <==> v == Object(BUNDLE_FIELDS, BundleRow(b)) && BundleValid(p, b)
  {
    var columns := Columns(BUNDLE_FIELDS, v);
    ColumnsExactly(BUNDLE_FIELDS, v, BundleRow(b));
    if columns.Some? {
      RecordsInverse(columns.value[3], b.records);
      BundleOfExactly(p, RecordsFrom(columns.value[3]), columns.value, b);
    }
  }

  predicate CandidateWell(c: Candidate) { ContextValid(c.context) && EvidenceValid(c.evidence) }

  function CandidateOf(context: Option<Context>, evidence: Option<Evidence>, r: seq<Value>): Option<Candidate>
    requires |r| == 15
  {
    if context.None? || evidence.None? || !r[9].Arr? || !r[11].Arr? then None
    else Some(Candidate(r[0], r[1], r[2], r[3], context.value, r[5], r[6], evidence.value, r[8], r[9].items,
                        r[10], r[11].items, r[12], r[13], r[14]))
  }

  lemma CandidateOfExactly(context: Option<Context>, evidence: Option<Evidence>, r: seq<Value>, c: Candidate)
    requires |r| == 15
    requires context == Some(c.context) <==> r[4] == ContextValue(c.context) && ContextValid(c.context)
    requires evidence == Some(c.evidence) <==> r[7] == EvidenceValue(c.evidence) && EvidenceValid(c.evidence)
    ensures CandidateOf(context, evidence, r) == Some(c) <==> r == CandidateRow(c) && CandidateWell(c)
  {
  }

  function CandidateFrom(v: Value): Option<Candidate> {
    match Columns(CANDIDATE_FIELDS, v)
    case None => None
    case Some(r) => CandidateOf(ContextFrom(r[4]), EvidenceFrom(r[7]), r)
  }

  lemma CandidateInverse(v: Value, c: Candidate)
    ensures CandidateFrom(v) == Some(c) <==> v == Object(CANDIDATE_FIELDS, CandidateRow(c)) && CandidateWell(c)
  {
    var columns := Columns(CANDIDATE_FIELDS, v);
    ColumnsExactly(CANDIDATE_FIELDS, v, CandidateRow(c));
    if columns.Some? {
      var r := columns.value;
      ContextInverse(r[4], c.context);
      EvidenceInverse(r[7], c.evidence);
      CandidateOfExactly(ContextFrom(r[4]), EvidenceFrom(r[7]), r, c);
    }
  }

  function FindingFrom(v: Value): Option<Finding> {
    match Columns(FINDING_FIELDS, v)
    case None => None
    case Some(r) =>
      var f := Finding(r[0], r[1], r[2], r[3]);
      if FindingValid(f) then Some(f) else None
  }

  lemma FindingInverse(v: Value, f: Finding)
    ensures FindingFrom(v) == Some(f) <==> v == FindingValue(f) && FindingValid(f)
  {
    ColumnsExactly(FINDING_FIELDS, v, FindingRow(f));
    if FindingFrom(v) == Some(f) { assert Columns(FINDING_FIELDS, v).value == FindingRow(f); }
  }

  function FindingsFrom(v: Value): Option<seq<Finding>> {
    if v.Arr? then ParseAll(FindingFrom, v.items) else None
  }

  /** The findings loop of the loader, which stops at the first malformed finding. */
  method LoadFindings(items: seq<Value>) returns (r: Option<seq<Finding>>)
    ensures r == FindingsFrom(Arr(items))
  {
    var findings: seq<Finding> := [];
    var i := 0;
    while i < |items|
      invariant 0 <= i <= |items| && Parses(FindingFrom, items[..i], findings)
    {
      var finding := FindingFrom(items[i]);
      if finding.None? {
        if ParseAll(FindingFrom, items).Some? { ParsedAll(FindingFrom, items); }
        return None;
      }
      findings := findings + [finding.value];
      i := i + 1;
    }
    assert items[..i] == items;
    AllParse(FindingFrom, items, findings);
    return Some(findings);
  }

  lemma FindingsInverse(v: Value, fs: seq<Finding>)
    ensures FindingsFrom(v) == Some(fs) <==> v == FindingsValue(fs) && forall i :: 0 <= i < |fs| ==> FindingValid(fs[i])
  {
    if v.Arr? {
      ParseAllExactly(FindingFrom, v.items, fs);
      forall i | 0 <= i < |fs| && i < |v.items|
        ensures FindingFrom(v.items[i]) == Some(fs[i]) <==> v.items[i] == FindingValue(fs[i]) && FindingValid(fs[i])
      {
        FindingInverse(v.items[i], fs[i]);
      }
      if FindingsFrom(v) == Some(fs) { assert v.items == FindingsValue(fs).items; }
      if v == FindingsValue(fs) { assert forall i :: 0 <= i < |fs| ==> v.items[i] == FindingValue(fs[i]); }
    }
  }

  function VerificationOf(findings: Option<seq<Finding>>, r: seq<Value>): Option<Verification>
    requires |r| == 9
  {
    if findings.None? then None
    else
      var x := Verification(r[0], r[1], r[2], r[3], r[4], r[5], findings.value, r[7], r[8]);
      if VerificationValid(x) then Some(x) else None
  }

  lemma VerificationOfExactly(findings: Option<seq<Finding>>, r: seq<Value>, x: Verification)
    requires |r| == 9
    requires findings == Some(x.findings) <==>
               r[6] == FindingsValue(x.findings) && forall i :: 0 <= i < |x.findings| ==> FindingValid(x.findings[i])
    ensures VerificationOf(findings, r) == Some(x) <==> r == VerificationRow(x) && VerificationValid(x)
  {
  }

  function VerificationFrom(v: Value): Option<Verification> {
    match Columns(VERIFICATION_FIELDS, v)
    case None => None
    case Some(r) => VerificationOf(FindingsFrom(r[6]), r)
  }

  lemma VerificationInverse(v: Value, x: Verification)
    ensures VerificationFrom(v) == Some(x) <==> v == Object(VERIFICATION_FIELDS, VerificationRow(x)) && VerificationValid(x)
  {
    var columns := Columns(VERIFICATION_FIELDS, v);
    ColumnsExactly(VERIFICATION_FIELDS, v, VerificationRow(x));
    if columns.Some? {
      FindingsInverse(columns.value[6], x.findings);
      VerificationOfExactly(FindingsFrom(columns.value[6]), columns.value, x);
    }
  }

  function ApprovalFrom(v: Value): Option<Approval> {
    match Columns(APPROVAL_FIELDS, v)
    case None => None
    case Some(r) => Some(Approval(r[0], r[1], r[2], r[3], r[4], r[5], r[6], r[7], r[8]))
  }

  lemma ApprovalInverse(v: Value, a: Approval)
    ensures ApprovalFrom(v) == Some(a) <==> v == Object(APPROVAL_FIELDS, ApprovalRow(a))
  {
    ColumnsExactly(APPROVAL_FIELDS, v, ApprovalRow(a));
    if ApprovalFrom(v) == Some(a) { assert Columns(APPROVAL_FIELDS, v).value == ApprovalRow(a); }
  }

  function AuthorizationFrom(v: Value): Option<Authorization> {
    match Columns(AUTHORIZATION_FIELDS, v)
    case None => None
    case Some(r) => Some(Authorization(r[0], r[1], r[2], r[3], r[4], r[5], r[6], r[7], r[8], r[9], r[10]))
  }

  lemma AuthorizationInverse(v: Value, a: Authorization)
    ensures AuthorizationFrom(v) == Some(a) <==> v == Object(AUTHORIZATION_FIELDS, AuthorizationRow(a))
  {
    ColumnsExactly(AUTHORIZATION_FIELDS, v, AuthorizationRow(a));
    if AuthorizationFrom(v) == Some(a) { assert Columns(AUTHORIZATION_FIELDS, v).value == AuthorizationRow(a); }
  }

  function ManifestFrom(v: Value): Option<Manifest> {
    match Columns(MANIFEST_FIELDS, v)
    case None => None
    case Some(r) => Some(Manifest(r[0], r[1], r[2], r[3], r[4], r[5], r[6]))
  }

  lemma ManifestInverse(v: Value, m: Manifest)
    ensures ManifestFrom(v) == Some(m) <==> v == Object(MANIFEST_FIELDS, ManifestRow(m))
  {
    ColumnsExactly(MANIFEST_FIELDS, v, ManifestRow(m));
    if ManifestFrom(v) == Some(m) { assert Columns(MANIFEST_FIELDS, v).value == ManifestRow(m); }
  }

  predicate RecordsWell(q: Records) { CandidateWell(q.candidate) && VerificationValid(q.verification) }

  /** The loaders of the parts of a packet. */
  datatype Loaders = Loaders(
    candidate: Value -> Option<Candidate>,
    verification: Value -> Option<Verification>,
    approval: Value -> Option<Approval>,
    authorization: Value -> Option<Authorization>,
    manifest: Value -> Option<Manifest>,
    bundle: Value -> Option<Bundle>)

  /** Each loader gives back exactly what its printer printed. */
  ghost predicate Exact(p: Platform, l: Loaders) {
    && (forall v, x :: l.candidate(v) == Some(x) <==> v == Object(CANDIDATE_FIELDS, CandidateRow(x)) && CandidateWell(x))
    && (forall v, x :: l.verification(v) == Some(x) <==> v == Object(VERIFICATION_FIELDS, VerificationRow(x)) && VerificationValid(x))
    && (forall v, x :: l.approval(v) == Some(x) <==> v == Object(APPROVAL_FIELDS, ApprovalRow(x)))
    && (forall v, x :: l.authorization(v) == Some(x) <==> v == Object(AUTHORIZATION_FIELDS, AuthorizationRow(x)))
    && (forall v, x :: l.manifest(v) == Some(x) <==> v == Object(MANIFEST_FIELDS, ManifestRow(x)))
    && (forall v, x :: l.bundle(v) == Some(x) <==> v == Object(BUNDLE_FIELDS, BundleRow(x)) && BundleValid(p, x))
  }

  function LoadersOf(p: Platform): Loaders {
    Loaders(CandidateFrom, VerificationFrom, ApprovalFrom, AuthorizationFrom, ManifestFrom, v => BundleFrom(p, v))
  }

  lemma LoadersExact(p: Platform)
    ensures Exact(p, LoadersOf(p))
  {
    forall v, x ensures CandidateFrom(v) == Some(x) <==> v == Object(CANDIDATE_FIELDS, CandidateRow(x)) && CandidateWell(x) {
      CandidateInverse(v, x);
    }
    forall v, x ensures VerificationFrom(v) == Some(x) <==> v == Object(VERIFICATION_FIELDS, VerificationRow(x)) && VerificationValid(x) {
      VerificationInverse(v, x);
    }
    forall v, x ensures ApprovalFrom(v) == Some(x) <==> v == Object(APPROVAL_FIELDS, ApprovalRow(x)) { ApprovalInverse(v, x); }
    forall v, x ensures AuthorizationFrom(v) == Some(x) <==> v == Object(AUTHORIZATION_FIELDS, AuthorizationRow(x)) {
      AuthorizationInverse(v, x);
    }
    forall v, x ensures ManifestFrom(v) == Some(x) <==> v == Object(MANIFEST_FIELDS, ManifestRow(x)) { ManifestInverse(v, x); }
    forall v, x ensures BundleFrom(p, v) == Some(x) <==> v == Object(BUNDLE_FIELDS, BundleRow(x)) && BundleValid(p, x) {
      BundleInverse(p, v, x);
    }
  }

  function ChainOf(c: Option<Candidate>, x: Option<Verification>, a: Option<Approval>, z: Option<Authorization>,
                   m: Option<Manifest>): Option<Records>
  {
    if c.None? || x.None? || a.None? || z.None? || m.None? then None
    else Some(Records(c.value, x.value, a.value, z.value, m.value))
  }

  function ChainFromRow(l: Loaders, r: seq<Value>): Option<Records>
    requires |r| == 5
  {
    ChainOf(l.candidate(r[0]), l.verification(r[1]), l.approval(r[2]), l.authorization(r[3]), l.manifest(r[4]))
  }

  lemma ChainRowInverse(p: Platform, l: Loaders, r: seq<Value>, q: Records)
    requires Exact(p, l) && |r| == 5
    ensures ChainFromRow(l, r) == Some(q) <==> r == RecordRow(q) && RecordsWell(q)
  {
    RowOfFive(r, RecordRow(q));
  }

  function ChainFrom(l: Loaders, v: Value): Option<Records> {
    match Columns(RECORD_FIELDS, v)
    case None => None
    case Some(r) => ChainFromRow(l, r)
  }

  lemma ChainInverse(p: Platform, l: Loaders, v: Value, q: Records)
    requires Exact(p, l)
    ensures ChainFrom(l, v) == Some(q) <==> v == Object(RECORD_FIELDS, RecordRow(q)) && RecordsWell(q)
  {
    var columns := Columns(RECORD_FIELDS, v);
    ColumnsExactly(RECORD_FIELDS, v, RecordRow(q));
    if columns.Some? { ChainRowInverse(p, l, columns.value, q); }
  }

  lemma RowOfFive(r: seq<Value>, t: seq<Value>)
    requires |r| == |t| == 5
    ensures r == t <==> r[0] == t[0] && r[1] == t[1] && r[2] == t[2] && r[3] == t[3] && r[4] == t[4]
  {
  }

  // ---------- the packet ----------

  /** The checks of `load_assurance_packet` on the authorized output. */
  predicate OutputWell(v: Value) {
    match Columns(OUTPUT_FIELDS, v)
    case None => false
    case Some(r) => r[1].Arr?
  }

  /** What the constructors of a packet's records have checked. */
  predicate PacketWell(p: Platform, k: Packet) {
    BundleValid(p, k.bundle) && RecordsWell(k.records) && OutputWell(k.output)
  }

  function PacketFromParts(state: Option<Value>, b: Option<Bundle>, q: Option<Records>, r: seq<Value>): Option<Packet>
    requires |r| == 11
  {
    if r[0] != PACKET_SCHEMA || !r[3].Arr? || !r[8].Arr? || !OutputWell(r[7]) then None
    else if state.None? || b.None? || q.None? then None
    else Some(Packet(r[1], r[2], r[3].items, state.value, b.value, q.value, r[7], r[8].items, r[9], r[10]))
  }

  lemma PacketFromPartsExactly(state: Option<Value>, b: Option<Bundle>, q: Option<Records>, r: seq<Value>, k: Packet,
                               bundleOk: bool, recordsOk: bool)
    requires |r| == 11
    requires state == Some(k.lifecycle) <==> r[4] == Object(LIFECYCLE_FIELDS, [k.lifecycle])
    requires b == Some(k.bundle) <==> r[5] == Object(BUNDLE_FIELDS, BundleRow(k.bundle)) && bundleOk
    requires q == Some(k.records) <==> r[6] == Object(RECORD_FIELDS, RecordRow(k.records)) && recordsOk
    ensures PacketFromParts(state, b, q, r) == Some(k) <==> r == PacketRow(k) && bundleOk && recordsOk && OutputWell(k.output)
  {
    RowOfEleven(r, PacketRow(k));
  }

  lemma RowOfEleven(r: seq<Value>, t: seq<Value>)
    requires |r| == |t| == 11
    ensures r == t <==> r[0] == t[0] && r[1] == t[1] && r[2] == t[2] && r[3] == t[3] && r[4] == t[4] && r[5] == t[5] &&
                        r[6] == t[6] && r[7] == t[7] && r[8] == t[8] && r[9] == t[9] && r[10] == t[10]
  {
  }

  /** The member of an object with the one field `state`. */
  function StateFrom(v: Value): Option<Value> {
    match Columns(LIFECYCLE_FIELDS, v)
    case None => None
    case Some(r) => Some(r[0])
  }

  lemma StateInverse(v: Value, state: Value)
    ensures StateFrom(v) == Some(state) <==> v == Object(LIFECYCLE_FIELDS, [state])
  {
    ColumnsExactly(LIFECYCLE_FIELDS, v, [state]);
    var columns := Columns(LIFECYCLE_FIELDS, v);
    if columns.Some? { assert columns.value == [columns.value[0]]; }
  }

  function PacketFromRow(l: Loaders, r: seq<Value>): Option<Packet>
    requires |r| == 11
  {
    PacketFromParts(StateFrom(r[4]), l.bundle(r[5]), ChainFrom(l, r[6]), r)
  }

  lemma PacketRowInverse(p: Platform, l: Loaders, r: seq<Value>, k: Packet)
    requires Exact(p, l) && |r| == 11
    ensures PacketFromRow(l, r) == Some(k) <==> r == PacketRow(k) && PacketWell(p, k)
  {
    StateInverse(r[4], k.lifecycle);
    ChainInverse(p, l, r[6], k.records);
    PacketFromPartsExactly(StateFrom(r[4]), l.bundle(r[5]), ChainFrom(l, r[6]), r, k,
                           BundleValid(p, k.bundle), RecordsWell(k.records));
  }

  /** Everything `load_assurance_packet` does before it verifies. */
  function PacketFrom(l: Loaders, v: Value): Option<Packet> {
    match Columns(PACKET_FIELDS, v)
    case None => None
    case Some(r) => PacketFromRow(l, r)
  }

  lemma PacketInverse(p: Platform, l: Loaders, v: Value, k: Packet)
    requires Exact(p, l)
    ensures PacketFrom(l, v) == Some(k) <==> v == PacketValue(k) && PacketWell(p, k)
  {
    var columns := Columns(PACKET_FIELDS, v);
    ColumnsExactly(PACKET_FIELDS, v, PacketRow(k));
    if columns.Some? { PacketRowInverse(p, l, columns.value, k); }
  }

  /** `to_dict`. */
  function PacketValue(k: Packet): Value { Object(PACKET_FIELDS, PacketRow(k)) }

  /** `load_assurance_packet`: None when it raises. */
  ghost function Load(p: Platform, l: Loaders, v: Value): Option<Packet> {
    var k := PacketFrom(l, v);
    if k.Some? && PacketAccepted(p, k.value) then k else None
  }

  /** Loading and `to_dict` are inverse to each other on accepted packets. */
  lemma LoadExactly(p: Platform, v: Value, k: Packet)
    ensures Load(p, LoadersOf(p), v) == Some(k) <==> v == PacketValue(k) && PacketWell(p, k) && PacketAccepted(p, k)
  {
    LoadersExact(p);
    PacketInverse(p, LoadersOf(p), v, k);
  }

  lemma OutputOfWell(c: Candidate)
    ensures OutputWell(OutputOf(c))
  {
    ObjectColumns(OUTPUT_FIELDS, [c.assuranceStatement, Arr(c.limitations)]);
  }

  lemma ResultIsWell(p: Platform, c: Context, d: Draft, b: Bundle, approver: Value)
    requires ContextValid(c) && BundleValid(p, b) && Run(p, c, d, b, approver).Success?
    ensures RecordsWell(Run(p, c, d, b, approver).value.records)
  {
    ResultEvidence(p, c, d, b, approver);
    CompiledIsWell(p, c, d, b);
  }

  lemma CompiledIsWell(p: Platform, c: Context, d: Draft, b: Bundle)
    requires ContextValid(c) && BundleValid(p, b) && Compile(p, c, d, b).Success?
    ensures CandidateWell(Compile(p, c, d, b).value)
  {
    assert Compile(p, c, d, b).value.evidence in b.records;
  }

  lemma BuiltIsWell(p: Platform, b: Bundle, r: PipelineResult, limitations: seq<Value>, profiles: seq<Value>)
    requires BundleValid(p, b) && RecordsWell(r.records) && Build(p, b, r, limitations, profiles).Some?
    ensures PacketWell(p, Build(p, b, r, limitations, profiles).value)
    ensures PacketAccepted(p, Build(p, b, r, limitations, profiles).value)
  {
    OutputOfWell(r.records.candidate);
  }

  /** A packet built from a run survives printing and loading unchanged. */
  lemma BuiltPacketsReload(p: Platform, c: Context, d: Draft, b: Bundle, approver: Value, limitations: seq<Value>, profiles: seq<Value>)
    requires ContextValid(c) && BundleValid(p, b) && Run(p, c, d, b, approver).Success?
    requires Build(p, b, Run(p, c, d, b, approver).value, limitations, profiles).Some?
    ensures var k := Build(p, b, Run(p, c, d, b, approver).value, limitations, profiles).value;
            Load(p, LoadersOf(p), PacketValue(k)) == Some(k)
  {
    var k := Build(p, b, Run(p, c, d, b, approver).value, limitations, profiles).value;
    ResultIsWell(p, c, d, b, approver);
    BuiltIsWell(p, b, Run(p, c, d, b, approver).value, limitations, profiles);
    LoadExactly(p, PacketValue(k), k);
  }
}
