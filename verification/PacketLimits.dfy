// Results of a run that no packet can hold, though every input was accepted.
module PacketLimits {
  import opened Json
  import opened Contracts
  import opened Chain
  import opened Pipeline
  import opened Packets

  const CONTEXT := Context(
    Str("tenant"), Str("case"), Str("run"), Str("agent"), Str("purpose"), Str("audience"), Str("internal"), Str("now"))

  function ExampleDraft(redacted: Value): Draft {
    Draft(Str("claim"), Str("first"), [Str("limited")], Str("statement"), [], redacted)
  }

  function ExampleRecord(p: Platform, id: string, classification: Value): Evidence {
    Evidence(Str(id), Str("tenant"), Str("case"), Str(p.digest(Null)), Str("uri"), classification, Str("summary"))
  }

  /** Two records; the draft selects the first. */
  function ExampleBundle(p: Platform, second: Value): (b: Bundle)
    ensures b.bundleHash == BundleHash(p, b)
    ensures b.records == [ExampleRecord(p, "first", Str("public")), ExampleRecord(p, "second", second)]
    ensures b.bundleId == Str("bundle") && b.tenantId == Str("tenant") && b.caseId == Str("case")
  {
    var records := [ExampleRecord(p, "first", Str("public")), ExampleRecord(p, "second", second)];
    var open := Bundle(Str("bundle"), Str("tenant"), Str("case"), records, UNSEALED);
    var b := open.(bundleHash := BundleHash(p, open));
    assert BundleRow(b)[..4] == BundleRow(open)[..4];
    SealIgnoresLast(p, BUNDLE_FIELDS, BundleRow(b), BundleRow(open));
    b
  }

  lemma ExampleRecordValid(p: Platform, id: string, classification: Value)
    requires p.WellFormed() && Identifier(Str(id))
    ensures EvidenceValid(ExampleRecord(p, id, classification))
  {
    assert HashUri(Str(p.digest(Null)));
  }

  lemma ExampleBundleValid(p: Platform, second: Value)
    requires p.WellFormed()
    ensures BundleValid(p, ExampleBundle(p, second))
  {
    var b := ExampleBundle(p, second);
    ExampleRecordValid(p, "first", Str("public"));
    ExampleRecordValid(p, "second", second);
    assert HashUri(b.bundleHash);
    assert "first"[0] != "second"[0];
  }

  lemma ExampleValid(p: Platform, redacted: Value)
    ensures ContextValid(CONTEXT) && DraftValid(ExampleDraft(redacted))
  {
  }

  /** The run succeeds whatever the second record's classification and the redaction value. */
  lemma ExampleRuns(p: Platform, second: Value, redacted: Value)
    requires p.WellFormed()
    ensures Run(p, CONTEXT, ExampleDraft(redacted), ExampleBundle(p, second), Str("approver")).Success?
  {
    var b := ExampleBundle(p, second);
    ExampleValid(p, redacted);
    ExampleBundleValid(p, second);
    assert b.records[0] in b.records;
    assert Classified(Str("public"), 0) && Classified(Str("internal"), 1);
    assert Compilable(CONTEXT, ExampleDraft(redacted), b);
    RunsExactly(p, CONTEXT, ExampleDraft(redacted), b, Str("approver"));
  }

  /** The run succeeds, and its result fits no packet, whatever limitations and profiles are claimed. */
  ghost predicate RunsUnpackageably(p: Platform, c: Context, d: Draft, b: Bundle, approver: Value) {
    Run(p, c, d, b, approver).Success? &&
    forall limitations, profiles :: Limits(limitations) && Cumulative(profiles) ==>
      Build(p, b, Run(p, c, d, b, approver).value, limitations, profiles).None?
  }

  lemma BlockedRun(p: Platform, c: Context, d: Draft, b: Bundle, approver: Value)
    requires p.WellFormed() && p.visible(DEFAULT_RATIONALE) && ContextValid(c)
    requires Run(p, c, d, b, approver).Success?
    requires !d.redacted.Bool? || exists e :: e in b.records && !Known(e.classification)
    ensures RunsUnpackageably(p, c, d, b, approver)
  {
    forall limitations, profiles | Limits(limitations) && Cumulative(profiles)
      ensures Build(p, b, Run(p, c, d, b, approver).value, limitations, profiles).None?
    {
      NotBuilt(p, c, d, b, approver, limitations, profiles);
    }
  }

  lemma NotBuilt(p: Platform, c: Context, d: Draft, b: Bundle, approver: Value, limitations: seq<Value>, profiles: seq<Value>)
    requires p.WellFormed() && p.visible(DEFAULT_RATIONALE) && ContextValid(c)
    requires Run(p, c, d, b, approver).Success? && Limits(limitations) && Cumulative(profiles)
    requires !(d.redacted.Bool? && forall e :: e in b.records ==> Known(e.classification))
    ensures Build(p, b, Run(p, c, d, b, approver).value, limitations, profiles).None?
  {
    ResultsBuildExactly(p, c, d, b, approver, limitations, profiles);
  }

  lemma ExampleUnpackageable(p: Platform, second: Value, redacted: Value)
    requires p.WellFormed() && p.visible(DEFAULT_RATIONALE)
    requires !Known(second) || !redacted.Bool?
    ensures RunsUnpackageably(p, CONTEXT, ExampleDraft(redacted), ExampleBundle(p, second), Str("approver"))
  {
    ExampleRuns(p, second, redacted);
    ExampleValid(p, redacted);
    var e := ExampleBundle(p, second).records[1];
    assert e in ExampleBundle(p, second).records && e.classification == second;
    BlockedRun(p, CONTEXT, ExampleDraft(redacted), ExampleBundle(p, second), Str("approver"));
  }

  lemma SecretIsUnknown()
    ensures !Known(Str("secret"))
  {
    KnownExactly(Str("secret"));
  }

  /** A record that was not selected, with an unknown classification, keeps the result from being packaged. */
  lemma UnknownClassificationBlocksPackaging(p: Platform)
    requires p.WellFormed() && p.visible(DEFAULT_RATIONALE)
    ensures exists c, d, b, approver ::
              ContextValid(c) && DraftValid(d) && BundleValid(p, b) && d.redacted == Bool(false) &&
              RunsUnpackageably(p, c, d, b, approver)
  {
    ExampleValid(p, Bool(false));
    ExampleBundleValid(p, Str("secret"));
    SecretIsUnknown();
    ExampleUnpackageable(p, Str("secret"), Bool(false));
  }

  /** So does a redaction value that is no flag, in a draft where nothing needs redaction. */
  lemma RedactionValueBlocksPackaging(p: Platform)
    requires p.WellFormed() && p.visible(DEFAULT_RATIONALE)
    ensures exists c, d, b, approver ::
              ContextValid(c) && DraftValid(d) && BundleValid(p, b) && d.redacted == Num(0) &&
              RunsUnpackageably(p, c, d, b, approver)
  {
    ExampleValid(p, Num(0));
    ExampleBundleValid(p, Str("public"));
    ExampleUnpackageable(p, Str("public"), Num(0));
  }
}
