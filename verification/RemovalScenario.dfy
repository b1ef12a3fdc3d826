/** Two messages disputed by one piece of evidence, of which one is then removed: what such
    a run does under any checks that accept its steps. */
module RemovalScenario {
  import opened ByteStrings
  import opened Projector
  import opened ProjectorInvariant
  import opened ProjectorRuns
  import opened RoundTrip
  import opened CleanRuns
  import opened Scenario

  datatype Twin = Twin(first: Leg, second: Leg, evidence: Reorganization)

  /** Different messages with different events on one route, named together. */
  predicate TwinLinked(x: Twin) {
    && LegLinked(x.first) && LegLinked(x.second) && LegId(x.first) != LegId(x.second)
    && x.first.envelope.routePolicyHash == x.second.envelope.routePolicyHash
    && KeyOf(x.second.source) !in {KeyOf(x.first.source), KeyOf(x.first.destination)}
    && KeyOf(x.second.destination) !in {KeyOf(x.first.source), KeyOf(x.first.destination)}
    && Aligned(x.evidence) && x.evidence.affectedMessageIds == [LegId(x.first), LegId(x.second)]
    && NamesLeg(x.evidence, 0, x.first) && NamesLeg(x.evidence, 1, x.second)
  }

  predicate TwinAccepted(checks: Checks, x: Twin) {
    LegAccepted(checks, x.first) && LegAccepted(checks, x.second) && checks.reorganization(x.evidence).Ok?
  }

  /** Removal names the source event of the first message. */
  function TwinSteps(x: Twin): (ops: seq<Op>)
    ensures |ops| == 7
  {
    [BindRouteOp(ROUTE, x.first.envelope.routePolicyHash),
     SourceOp(x.first.envelope, x.first.source, None), ExecutionOp(x.first.execution, x.first.destination),
     SourceOp(x.second.envelope, x.second.source, None), ExecutionOp(x.second.execution, x.second.destination),
     ReorganizationOp(x.evidence),
     RemoveOp(x.first.source.sourceChainId, x.first.source.transactionHash, x.first.source.logIndex)]
  }

  function BothDelivered(x: Twin): State {
    WithLeg(WithLeg(Bound(x.first.envelope.routePolicyHash), x.first), x.second)
  }

  lemma SecondIsFree(x: Twin)
    requires TwinLinked(x)
    ensures Free(WithLeg(Bound(x.first.envelope.routePolicyHash), x.first), x.second)
  {
    hide KeyOf, ExecutionFits, Aligned, NamesLeg;
  }

  lemma RunsToDelivery(checks: Checks, x: Twin)
    requires TwinLinked(x) && TwinAccepted(checks, x)
    ensures Run(checks, INITIAL, TwinSteps(x)[..5]) == BothDelivered(x)
  {
    hide Apply, Aligned, ExecutionFits, WithLeg, WithSource, KeyOf, NamesLeg, LegAccepted;
    var ops, s := TwinSteps(x), Bound(x.first.envelope.routePolicyHash);
    assert ops[..0] == [];
    NextStep(checks, ops, 0);
    NextStep(checks, ops, 1);
    NextStep(checks, ops, 2);
    NextStep(checks, ops, 3);
    NextStep(checks, ops, 4);
    BindStep(checks, x.first.envelope.routePolicyHash);
    SourceStep(checks, s, x.first);
    ExecutionStep(checks, s, x.first);
    SecondIsFree(x);
    SourceStep(checks, WithLeg(s, x.first), x.second);
    ExecutionStep(checks, WithLeg(s, x.first), x.second);
  }

  lemma DeliveredFacts(x: Twin)
    requires TwinLinked(x)
    ensures var s := BothDelivered(x);
            && LegId(x.first) in s.messages && s.messages[LegId(x.first)] == Delivered(x.first)
            && LegId(x.second) in s.messages && s.messages[LegId(x.second)] == Delivered(x.second)
            && KeyOf(x.first.source) in s.events && s.events[KeyOf(x.first.source)] == LegId(x.first)
            && s.routes == map[x.first.envelope.routePolicyHash := ROUTE]
  {
    hide KeyOf, ExecutionFits, Aligned, NamesLeg, Delivered;
  }

  lemma TwinApplies(s: State, x: Twin)
    requires TwinLinked(x) && LegId(x.first) in s.messages && s.messages[LegId(x.first)] == Delivered(x.first)
    requires s.routes == map[x.first.envelope.routePolicyHash := ROUTE]
    requires Disputable(s, x.evidence, 0, x.first.envelope.routePolicyHash)
    requires Disputable(s, x.evidence, 1, x.first.envelope.routePolicyHash)
    ensures ReorganizationApplies(s, x.evidence)
  {
    hide KeyOf, ExecutionFits, Disputable;
  }

  /** After the dispute both messages carry the evidence and the registrations are as before. */
  lemma RunsToTwinDispute(checks: Checks, x: Twin)
    requires TwinLinked(x) && TwinAccepted(checks, x)
    ensures var s := Run(checks, INITIAL, TwinSteps(x)[..6]);
            && s.events == BothDelivered(x).events && s.messages.Keys == BothDelivered(x).messages.Keys
            && s.messages[LegId(x.second)].reorganization == Some(x.evidence)
            && !s.messages[LegId(x.first)].sourceFinal
  {
    hide Aligned, ExecutionFits, WithLeg, KeyOf, Run, ReorganizationApplies, Disputable, LeadPolicy, IncidentOf,
      LegAccepted, BothDelivered;
    var ops, s := TwinSteps(x), BothDelivered(x);
    RunsToDelivery(checks, x);
    NextStep(checks, ops, 5);
    DeliveredFacts(x);
    LegDisputable(s, x.evidence, 0, x.first);
    LegDisputable(s, x.evidence, 1, x.second);
    TwinApplies(s, x);
    assert LegId(x.second) in x.evidence.affectedMessageIds;
    assert !Delivered(x.second).disputed && !Delivered(x.first).sourceFinal;
  }

  /** The removal is accepted, and the message that stays cannot be replayed without the one
      that is gone. */
  lemma RemovalSpoilsRun(checks: Checks, x: Twin)
    requires Sane(checks) && TwinLinked(x) && TwinAccepted(checks, x)
    ensures var s := Run(checks, INITIAL, TwinSteps(x));
            && Inv(checks, s) && !Replayable(s)
            && LegId(x.first) !in s.messages && LegId(x.second) in s.messages
            && s.messages[LegId(x.second)].reorganization == Some(x.evidence)
  {
    hide Inv, Sane, Replayable, TwinAccepted, Aligned, ExecutionFits, Run, BothDelivered, EventKey, LegLinked, NamesLeg;
    var ops := TwinSteps(x);
    var s := Run(checks, INITIAL, ops[..6]);
    ReachableInv(checks, ops);
    ReachableInv(checks, ops[..6]);
    RunsToTwinDispute(checks, x);
    DeliveredFacts(x);
    NextStep(checks, ops, 6);
    assert ops[..7] == ops;
    FirstIsNamed(x);
    RemovalSpoils(checks, s, x.first.source.sourceChainId, x.first.source.transactionHash, x.first.source.logIndex,
                  LegId(x.second), 0);
  }

  lemma FirstIsNamed(x: Twin)
    requires TwinLinked(x)
    ensures Names(x.evidence, 0, LegId(x.first))
  {
    hide KeyOf, ExecutionFits, AlignedAt, NoRepeats;
  }
}
