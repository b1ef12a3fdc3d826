/** Messages that are projected, executed and disputed: what such runs do under any checks
    that accept their steps. */
module Scenario {
  import opened ByteStrings
  import opened Envelope
  import opened Projector
  import opened Restore
  import opened ProjectorRuns
  import opened RoundTrip
  import opened CleanRuns

  /** One message, its source event and its execution; `outcome` is the evidence hash of both. */
  datatype Leg = Leg(
    envelope: Envelope, source: SourceProof, execution: Execution, destination: SourceProof, outcome: Bytes)

  const ROUTE := "route"

  function LegId(x: Leg): Bytes {
    x.envelope.messageId
  }

  /** The arguments belong together. */
  predicate LegLinked(x: Leg) {
    && |x.envelope.routePolicyHash| == 32 && x.envelope.routePolicyHash != ZERO32 && x.outcome != ZERO32
    && x.execution.messageId == LegId(x) && x.destination.messageId == LegId(x)
    && ExecutionFits(x.envelope, x.envelope.destinationChainId, x.execution, x.destination)
  }

  /** The checks let both events through, the source event as provisional. */
  predicate LegAccepted(checks: Checks, x: Leg) {
    && checks.source(x.envelope, x.source, None) == Ok(Verification(x.outcome, false))
    && checks.executionShape(x.execution, x.destination).Ok?
    && checks.execution(x.execution, x.destination) == Ok(x.outcome)
  }

  /** The state knows neither the message nor its events. */
  predicate Free(s: State, x: Leg) {
    LegId(x) !in s.messages && KeyOf(x.source) !in s.events && KeyOf(x.destination) !in s.events
  }

  function SourceOnly(x: Leg): Projection {
    Fresh(x.envelope, x.source, None, Verification(x.outcome, false))
  }

  function Delivered(x: Leg): Projection {
    WithExecution(SourceOnly(x), x.execution, x.destination, x.outcome)
  }

  function WithSource(s: State, x: Leg): State {
    s.(messages := s.messages[LegId(x) := SourceOnly(x)], events := s.events[KeyOf(x.source) := LegId(x)])
  }

  function WithLeg(s: State, x: Leg): State {
    s.(messages := s.messages[LegId(x) := Delivered(x)],
       events := s.events[KeyOf(x.source) := LegId(x)][KeyOf(x.destination) := LegId(x)])
  }

  lemma SourceStep(checks: Checks, s: State, x: Leg)
    requires LegLinked(x) && LegAccepted(checks, x) && Free(s, x)
    ensures Apply(checks, s, SourceOp(x.envelope, x.source, None)) == WithSource(s, x)
  {
    hide KeyOf, ExecutionFits;
  }

  lemma ExecutionStep(checks: Checks, s: State, x: Leg)
    requires LegLinked(x) && LegAccepted(checks, x) && Free(s, x)
    ensures Apply(checks, WithSource(s, x), ExecutionOp(x.execution, x.destination)) == WithLeg(s, x)
  {
    hide KeyOf, ExecutionFits;
    var t := WithSource(s, x);
    assert BeginExecution(checks, t, x.execution, x.destination) == Ok(Pending(x.envelope, x.outcome));
    assert ExecutionCompatible(t.messages[LegId(x)], x.execution, x.destination, x.outcome);
    assert t.messages[LegId(x) := Delivered(x)] == WithLeg(s, x).messages;
  }

  /** Nothing but a bound route. */
  function Bound(policy: Bytes): State {
    State(map[], map[], map[policy := ROUTE])
  }

  lemma BindStep(checks: Checks, policy: Bytes)
    requires |policy| == 32 && policy != ZERO32
    ensures Apply(checks, INITIAL, BindRouteOp(ROUTE, policy)) == Bound(policy)
  {
  }

  /** Evidence `e` names the execution of the leg as entry `i`. */
  predicate NamesLeg(e: Reorganization, i: nat, x: Leg) {
    && InRange(e, i) && e.affectedMessageIds[i] == LegId(x) && e.affectedOrphanedSourceProofs[i] == x.destination
    && e.affectedOrphanedEventEvidenceHashes[i] == x.outcome && e.chainId == x.envelope.destinationChainId
  }

  lemma LegDisputable(s: State, e: Reorganization, i: nat, x: Leg)
    requires Aligned(e) && LegLinked(x) && NamesLeg(e, i, x)
    requires LegId(x) in s.messages && s.messages[LegId(x)] == Delivered(x)
    ensures Disputable(s, e, i, x.envelope.routePolicyHash)
  {
    hide ExecutionFits, NoRepeats;
    assert AlignedAt(e, i);
    assert ExecutionOrphaned(s.messages[LegId(x)], e, i);
  }

  lemma {:induction false} RunSnoc(checks: Checks, s: State, ops: seq<Op>, last: Op)
    ensures Run(checks, s, ops + [last]) == Apply(checks, Run(checks, s, ops), last)
    decreases |ops|
  {
    hide Apply;
    if ops == [] {
      assert ops + [last] == [last] && [last][1..] == [];
      assert Run(checks, Apply(checks, s, last), []) == Apply(checks, s, last);
    } else {
      assert (ops + [last])[0] == ops[0] && (ops + [last])[1..] == ops[1..] + [last];
      RunSnoc(checks, Apply(checks, s, ops[0]), ops[1..], last);
    }
  }

  /** The first `n` steps and one more. */
  lemma NextStep(checks: Checks, ops: seq<Op>, n: nat)
    requires n < |ops|
    ensures Run(checks, INITIAL, ops[..n + 1]) == Apply(checks, Run(checks, INITIAL, ops[..n]), ops[n])
  {
    hide Apply, Run;
    assert ops[..n + 1] == ops[..n] + [ops[n]];
    RunSnoc(checks, INITIAL, ops[..n], ops[n]);
  }

  // One message, disputed and then acknowledged.

  datatype Script = Script(leg: Leg, evidence: Reorganization, late: Acknowledgement)

  function Id(x: Script): Bytes {
    LegId(x.leg)
  }

  /** One piece of evidence that names the execution, and an acknowledgement under a
      certificate other than the one the evidence names. */
  predicate Linked(x: Script) {
    && LegLinked(x.leg)
    && Aligned(x.evidence) && x.evidence.affectedMessageIds == [Id(x)] && NamesLeg(x.evidence, 0, x.leg)
    && x.late.messageId == Id(x) && x.late.executionResultHash == x.leg.execution.resultHash
    && x.late.destinationExecutionProof == Some(x.leg.destination)
    && x.late.finalityCertificate.Some? && x.late.finalityCertificate.value.messageId == Id(x)
    && x.late.finalityCertificate != Some(x.evidence.affectedOrphanedFinalityCertificates[0])
  }

  /** The checks let every step through. */
  predicate Accepts(checks: Checks, x: Script) {
    LegAccepted(checks, x.leg) && checks.reorganization(x.evidence).Ok? && checks.acknowledgement(x.late).Ok?
  }

  function Steps(x: Script): (ops: seq<Op>)
    ensures |ops| == 5
  {
    [BindRouteOp(ROUTE, x.leg.envelope.routePolicyHash), SourceOp(x.leg.envelope, x.leg.source, None),
     ExecutionOp(x.leg.execution, x.leg.destination), ReorganizationOp(x.evidence), AcknowledgementOp(x.late)]
  }

  function AfterExecution(x: Script): State {
    WithLeg(Bound(x.leg.envelope.routePolicyHash), x.leg)
  }

  function AfterDispute(x: Script): (s: State)
    ensures s.messages.Keys == {Id(x)} && s.routes == map[x.leg.envelope.routePolicyHash := ROUTE]
  {
    var s := AfterExecution(x);
    s.(messages := map[Id(x) := Dispute(s.messages[Id(x)], x.evidence, IncidentOf(x.evidence, ROUTE))])
  }

  lemma DisputeStep(checks: Checks, x: Script)
    requires Linked(x) && Accepts(checks, x)
    ensures Apply(checks, AfterExecution(x), Steps(x)[3]) == AfterDispute(x)
  {
    hide IncidentOf, Aligned, KeyOf, ExecutionFits, Disputable, LegAccepted;
    var s := AfterExecution(x);
    LegDisputable(s, x.evidence, 0, x.leg);
    SingleApplies(s, x.evidence, x.leg);
    assert Id(x) in x.evidence.affectedMessageIds;
    assert DisputeAll(s.messages, x.evidence, IncidentOf(x.evidence, ROUTE)) == AfterDispute(x).messages;
  }

  lemma SingleApplies(s: State, e: Reorganization, x: Leg)
    requires LegLinked(x) && e.affectedMessageIds == [LegId(x)] && NamesLeg(e, 0, x) && LegId(x) in s.messages
    requires s.messages[LegId(x)] == Delivered(x) && Disputable(s, e, 0, x.envelope.routePolicyHash)
    requires s.routes == map[x.envelope.routePolicyHash := ROUTE]
    ensures ReorganizationApplies(s, e) && LeadPolicy(s, e) == x.envelope.routePolicyHash
  {
    hide ExecutionFits, Disputable;
  }

  /** The first four steps lead to the dispute. */
  lemma RunsToDispute(checks: Checks, x: Script)
    requires Linked(x) && Accepts(checks, x)
    ensures Run(checks, INITIAL, Steps(x)[..4]) == AfterDispute(x)
  {
    hide Apply, AfterDispute, Aligned, ExecutionFits, WithLeg, WithSource, KeyOf, NamesLeg;
    var s := Bound(x.leg.envelope.routePolicyHash);
    assert Steps(x)[..0] == [];
    NextStep(checks, Steps(x), 0);
    NextStep(checks, Steps(x), 1);
    NextStep(checks, Steps(x), 2);
    NextStep(checks, Steps(x), 3);
    BindStep(checks, x.leg.envelope.routePolicyHash);
    SourceStep(checks, s, x.leg);
    ExecutionStep(checks, s, x.leg);
    DisputeStep(checks, x);
  }

  /** The acknowledgement is accepted although the evidence names another certificate. */
  lemma LateIsAccepted(checks: Checks, x: Script)
    requires Linked(x) && Accepts(checks, x)
    ensures ProjectAcknowledgement(checks, AfterDispute(x), x.late).result.Ok?
    ensures AfterDispute(x).messages[Id(x)].reorganization == Some(x.evidence)
    ensures Names(x.evidence, 0, Id(x)) && !SourceAffected(AfterDispute(x).messages[Id(x)], x.evidence, 0)
  {
    hide KeyOf, IncidentOf, ExecutionFits, AlignedAt;
    var m := AfterDispute(x).messages[Id(x)];
    assert m.execution == Some(x.leg.execution) && m.executionProof == Some(x.leg.destination);
    assert AcknowledgementFits(m, x.late);
    assert !m.sourceFinal;
  }

  /** Runs without removals and acknowledgements are clean. */
  lemma {:induction false} QuietRunsAreClean(checks: Checks, s: State, ops: seq<Op>)
    requires forall i :: 0 <= i < |ops| ==> !ops[i].RemoveOp? && !ops[i].AcknowledgementOp?
    ensures CleanRun(checks, s, ops)
    decreases |ops|
  {
    hide Apply;
    if ops != [] {
      QuietRunsAreClean(checks, Apply(checks, s, ops[0]), ops[1..]);
    }
  }

  lemma CollectSingle(m: Projection)
    requires m.disputed && m.reorganization.Some? && m.incident.Some?
    requires Fixed32(m.reorganization.value.evidenceHash) != ZERO32
    ensures Collect(map[], [m]) == Some(map[Fixed32(m.reorganization.value.evidenceHash) := m.reorganization.value])
  {
    assert [m][1..] == [];
  }

  /** The listing of the disputed state and its one reorganization. */
  lemma DisputeListing(x: Script)
    requires Linked(x) && x.evidence.evidenceHash != ZERO32
    ensures var s, m := AfterDispute(x), AfterDispute(x).messages[Id(x)];
            && m.disputed && Lists([m], s) && Evidence(s) == {x.evidence}
            && Collect(map[], [m]) == Some(map[x.evidence.evidenceHash := x.evidence])
  {
    hide IncidentOf, KeyOf, ExecutionFits, AlignedAt, NoRepeats;
    var s, m := AfterDispute(x), AfterDispute(x).messages[Id(x)];
    assert m.messageId == Id(x) && m.disputed && m.reorganization == Some(x.evidence) && m.incident.Some?;
    assert Ids([m]) == {Id(x)} by { assert [m][0].messageId in Ids([m]); }
    assert Evidence(s) == {x.evidence} by { assert s.messages[Id(x)].reorganization.value in Evidence(s); }
    CollectSingle(m);
  }
}
