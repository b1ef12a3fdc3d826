/** What the invariant and permanence mean for users of the projector. */
module ProjectorSafety {
  import opened ByteStrings
  import opened Envelope
  import opened Projector
  import opened ProjectorInvariant
  import opened ProjectorRuns

  // Event identities.

  /** The identity of an event: its chain, transaction and log. */
  datatype EventId = EventId(chainId: string, transactionHash: Bytes, logIndex: nat)

  function EventOf(p: SourceProof): EventId {
    EventId(p.sourceChainId, p.transactionHash, p.logIndex)
  }

  /** The events a message has consumed. */
  function EventsOf(m: Projection): set<EventId> {
    {EventOf(m.sourceProof)} + if m.executionProof.Some? then {EventOf(m.executionProof.value)} else {}
  }

  lemma EventsAreRegistered(checks: Checks, s: State, id: Bytes, event: EventId)
    requires Inv(checks, s) && id in s.messages && event in EventsOf(s.messages[id])
    ensures var key := EventKey(event.chainId, event.transactionHash, event.logIndex);
            key in s.events && s.events[key] == id
  {
    hide SourceOk, ExecutionOk, AcknowledgementOk, DisputeOk, RoutesOk;
    assert MessageOk(checks, s, s.messages[id]);
  }

  /** No event is ever consumed by two messages. */
  lemma EventsAreExclusive(checks: Checks, s: State, a: Bytes, b: Bytes)
    requires Inv(checks, s) && a in s.messages && b in s.messages && a != b
    ensures EventsOf(s.messages[a]) !! EventsOf(s.messages[b])
  {
    hide Inv, EventsOf;
    forall event | event in EventsOf(s.messages[a]) ensures event !in EventsOf(s.messages[b]) {
      EventsAreRegistered(checks, s, a, event);
      if event in EventsOf(s.messages[b]) {
        EventsAreRegistered(checks, s, b, event);
      }
    }
  }

  /** The key table refuses exactly the events of other messages: a key clash is an event clash. */
  lemma KeyClashIsEventClash(p: SourceProof, q: SourceProof)
    ensures KeyOf(p) == KeyOf(q) <==> EventOf(p) == EventOf(q)
  {
    if KeyOf(p) == KeyOf(q) {
      EventKeyInjective(p.sourceChainId, p.transactionHash, p.logIndex, q.sourceChainId, q.transactionHash, q.logIndex);
    }
  }

  // Finality.

  /** A message is final exactly when it stores a certificate, and then that very
      certificate passed the source checks together with the stored event. */
  lemma FinalMeansCertified(checks: Checks, s: State, id: Bytes)
    requires Sane(checks) && Inv(checks, s) && id in s.messages
    ensures s.messages[id].sourceFinal <==> s.messages[id].certificate.Some?
    ensures checks.source(s.messages[id].envelope, s.messages[id].sourceProof, s.messages[id].certificate).Ok?
  {
    hide ExecutionOk, AcknowledgementOk, DisputeOk, EventsOk, RoutesOk;
    var m := s.messages[id];
    assert MessageOk(checks, s, m);
    assert SaneSource(m.envelope, m.sourceProof, m.certificate, Verification(m.sourceEvidenceHash, m.sourceFinal));
  }

  /** Once final, whatever happens, the envelope, the source event and the
      certificate are those that were there, and execution and acknowledgement
      never change once set. */
  lemma FinalityIsPermanent(checks: Checks, s: State, ops: seq<Op>, id: Bytes)
    requires Sane(checks) && Inv(checks, s) && id in s.messages && s.messages[id].sourceFinal
    ensures id in Run(checks, s, ops).messages
    ensures var m, n := s.messages[id], Run(checks, s, ops).messages[id];
            && n.sourceFinal && n.certificate == m.certificate
            && n.envelope == m.envelope && n.sourceProof == m.sourceProof
            && (m.execution.Some? ==> n.execution == m.execution && n.executionProof == m.executionProof)
            && (m.acknowledgement.Some? ==> n.acknowledgement == m.acknowledgement)
            && (m.disputed ==> n.disputed && n.reorganization == m.reorganization && n.incident == m.incident)
  {
    hide Inv, Sane, Run;
    RunKeeps(checks, s, ops);
    assert s.messages[id].certificate.Some? by { FinalMeansCertified(checks, s, id); }
    StoredParts(checks, s, id);
  }

  lemma StoredParts(checks: Checks, s: State, id: Bytes)
    requires Inv(checks, s) && id in s.messages
    ensures var m := s.messages[id];
            && (m.execution.Some? <==> m.executionProof.Some?)
            && (m.disputed <==> m.reorganization.Some?)
            && (m.disputed <==> m.incident.Some?)
  {
    hide SourceOk, AcknowledgementOk, EventsOk, RoutesOk, Implicated;
    assert MessageOk(checks, s, s.messages[id]);
  }

  /** A conflicting copy of a final source event is refused and changes nothing. */
  lemma FinalSourceRefusesConflicts(checks: Checks, s: State, e: Envelope, p: SourceProof, c: Option<Certificate>)
    requires Sane(checks) && Inv(checks, s)
    requires e.messageId in s.messages && s.messages[e.messageId].sourceFinal
    requires var m := s.messages[e.messageId]; e != m.envelope || p != m.sourceProof || c != m.certificate
    ensures ProjectSource(checks, s, e, p, c).state == s
    ensures ProjectSource(checks, s, e, p, c).result.Err?
  {
    hide Inv, Sane;
  }

  // At most one execution.

  /** An accepted execution is stored. */
  lemma ExecutionIsStored(checks: Checks, s: State, r: Execution, p: SourceProof)
    requires ProjectExecution(checks, s, r, p).result.Ok?
    ensures r.messageId in ProjectExecution(checks, s, r, p).state.messages
    ensures var n := ProjectExecution(checks, s, r, p).state.messages[r.messageId];
            n.execution == Some(r) && n.executionProof == Some(p)
    ensures r.messageId in s.messages
    ensures s.messages[r.messageId].sourceFinal ==> ProjectExecution(checks, s, r, p).state.messages[r.messageId].sourceFinal
    ensures KeptOnce(s.messages[r.messageId].execution, Some(r)) && KeptOnce(s.messages[r.messageId].executionProof, Some(p))
  {
  }

  /** However a run goes on, a final message is executed at most once: any later
      accepted execution of it is the same result with the same proof. */
  lemma ExecutedAtMostOnce(
    checks: Checks, s: State, r: Execution, p: SourceProof, ops: seq<Op>, r': Execution, p': SourceProof)
    requires Sane(checks) && Inv(checks, s)
    requires r.messageId in s.messages && s.messages[r.messageId].sourceFinal
    requires ProjectExecution(checks, s, r, p).result.Ok?
    requires r'.messageId == r.messageId
    requires var t := Run(checks, ProjectExecution(checks, s, r, p).state, ops);
             ProjectExecution(checks, t, r', p').result.Ok?
    ensures r' == r && p' == p
  {
    hide Inv, Sane, Run, ProjectExecution, EventsOk;
    var t := ProjectExecution(checks, s, r, p).state;
    var u := Run(checks, t, ops);
    ExecutionKeeps(checks, s, r, p);
    ExecutionIsStored(checks, s, r, p);
    FinalityIsPermanent(checks, t, ops, r.messageId);
    ExecutionIsStored(checks, u, r', p');
  }

  // Removal.

  /** A provisional source event can be taken back exactly. */
  lemma RemoveUndoesProvisionalSource(checks: Checks, s: State, e: Envelope, p: SourceProof)
    requires ProjectSource(checks, s, e, p, None).result.Ok?
    requires !ProjectSource(checks, s, e, p, None).result.value.sourceFinal
    requires e.messageId !in s.messages && KeyOf(p) !in s.events
    ensures var t := ProjectSource(checks, s, e, p, None).state;
            RemovePreFinality(t, p.sourceChainId, p.transactionHash, p.logIndex) == Step(s, Ok(Done))
  {
    hide EventKey;
    var t := ProjectSource(checks, s, e, p, None).state;
    assert t.messages - {e.messageId} == s.messages;
    assert t.events - {KeyOf(p)} == s.events;
  }

  /** Removal is refused for final messages, whichever of their events is named. */
  lemma RemoveRefusesFinal(checks: Checks, s: State, id: Bytes, event: EventId)
    requires Inv(checks, s) && id in s.messages && s.messages[id].sourceFinal && event in EventsOf(s.messages[id])
    ensures RemovePreFinality(s, event.chainId, event.transactionHash, event.logIndex)
            == Step(s, Err(InsufficientFinality))
  {
    hide SourceOk, ExecutionOk, AcknowledgementOk, DisputeOk, RoutesOk;
    assert MessageOk(checks, s, s.messages[id]);
  }

  // Replays.

  /** Repeating an accepted source event changes nothing and answers the same. */
  lemma SourceReplayIsIdempotent(checks: Checks, s: State, e: Envelope, p: SourceProof, c: Option<Certificate>)
    requires Sane(checks) && ProjectSource(checks, s, e, p, c).result.Ok?
    ensures ProjectSource(checks, ProjectSource(checks, s, e, p, c).state, e, p, c) == ProjectSource(checks, s, e, p, c)
  {
    hide KeyOf;
    assert SaneSource(e, p, c, checks.source(e, p, c).value);
  }

  // Reorganizations.

  /** A reorganization is all or nothing: refused, it changes nothing; accepted, every
      affected message is disputed by this very evidence under one incident, and no
      other message, registration or route moves. */
  lemma ReorganizationIsAtomic(checks: Checks, s: State, e: Reorganization)
    requires Inv(checks, s)
    ensures var step := ProjectReorganization(checks, s, e);
            if step.result.Err? then step.state == s
            else
              && step.state.events == s.events && step.state.routes == s.routes
              && step.state.messages.Keys == s.messages.Keys
              && (forall id :: id in s.messages && id !in e.affectedMessageIds ==>
                    step.state.messages[id] == s.messages[id])
              && (forall id :: id in e.affectedMessageIds ==>
                    && id in step.state.messages
                    && step.state.messages[id].disputed
                    && step.state.messages[id].reorganization == Some(e)
                    && step.state.messages[id].incident == Some(step.result.value.incident))
  {
    hide MessageOk, RoutesOk, ReorganizationApplies, LeadPolicy, IncidentOf, Dispute;
    var step := ProjectReorganization(checks, s, e);
    if step.result.Ok? {
      forall id | id in e.affectedMessageIds
        ensures id in step.state.messages
        ensures step.state.messages[id].disputed && step.state.messages[id].reorganization == Some(e)
        ensures step.state.messages[id].incident == Some(step.result.value.incident)
      {
        DisputedOk(checks, s, e, id);
        SameIncident(checks, s, e, id);
      }
    }
  }

  /** All messages of an accepted reorganization share one bound route, the incident's. */
  lemma ReorganizationSharesRoute(checks: Checks, s: State, e: Reorganization, id: Bytes)
    requires Inv(checks, s) && ProjectReorganization(checks, s, e).result.Ok? && id in e.affectedMessageIds
    ensures id in s.messages && Policy(s.messages[id]) in s.routes
    ensures var incident := ProjectReorganization(checks, s, e).result.value.incident;
            incident.routeId == s.routes[Policy(s.messages[id])] != "" && incident.evidenceHash == e.evidenceHash
  {
    hide Inv, AllDisputable, Dispute, Policy, LeadPolicy;
    DisputedOk(checks, s, e, id);
  }

  lemma SameIncident(checks: Checks, s: State, e: Reorganization, id: Bytes)
    requires Inv(checks, s) && checks.reorganization(e).Ok? && ReorganizationApplies(s, e)
    requires id in e.affectedMessageIds && id in s.messages
    ensures var incident := IncidentOf(e, s.routes[LeadPolicy(s, e)]);
            Dispute(s.messages[id], e, incident).disputed
            && Dispute(s.messages[id], e, incident).incident == Some(incident)
  {
    hide SourceOk, ExecutionOk, AcknowledgementOk, EventsOk, RoutesOk, Implicated, IncidentOf;
    DisputedOk(checks, s, e, id);
  }

  /** Applying the same evidence again is accepted, opens the same incident and changes nothing. */
  lemma ReorganizationReplay(checks: Checks, s: State, e: Reorganization)
    requires Inv(checks, s) && Sane(checks) && ProjectReorganization(checks, s, e).result.Ok?
    ensures ProjectReorganization(checks, ProjectReorganization(checks, s, e).state, e)
            == ProjectReorganization(checks, s, e)
  {
    hide Inv, Sane, IncidentOf, Affected;
    var step := ProjectReorganization(checks, s, e);
    var t := step.state;
    ReorganizationIsAtomic(checks, s, e);
    StillApplies(checks, s, e);
    assert DisputeAll(t.messages, e, step.result.value.incident) == t.messages;
  }

  lemma StillApplies(checks: Checks, s: State, e: Reorganization)
    requires Inv(checks, s) && ProjectReorganization(checks, s, e).result.Ok?
    ensures ReorganizationApplies(ProjectReorganization(checks, s, e).state, e)
    ensures LeadPolicy(ProjectReorganization(checks, s, e).state, e) == LeadPolicy(s, e)
  {
    hide Inv, IncidentOf, Affected;
    var t := ProjectReorganization(checks, s, e).state;
    ReorganizationIsAtomic(checks, s, e);
    forall i | 0 <= i < |e.affectedMessageIds|
      ensures e.affectedMessageIds[i] in t.messages
      ensures Policy(t.messages[e.affectedMessageIds[i]]) == LeadPolicy(s, e)
    {
      assert Disputable(s, e, i, LeadPolicy(s, e));
    }
  }

  /** A message already disputed blocks every other evidence that names it. */
  lemma DisputedOnlyOnce(checks: Checks, s: State, e: Reorganization, id: Bytes)
    requires Inv(checks, s) && id in s.messages && s.messages[id].disputed
    requires id in e.affectedMessageIds && s.messages[id].reorganization != Some(e)
    ensures ProjectReorganization(checks, s, e).result.Err?
    ensures ProjectReorganization(checks, s, e).state == s
  {
    hide Inv, Affected, IncidentOf, LeadPolicy;
    if ReorganizationApplies(s, e) {
      var i := AffectedIndex(s, e, id);
      assert false;
    }
  }

  /** Every disputed message has, in its source or its execution proof, an event of the
      orphaned block on the reorganized chain. */
  lemma DisputedInOrphanedBlock(checks: Checks, s: State, id: Bytes)
    requires Inv(checks, s) && id in s.messages && s.messages[id].disputed
    ensures s.messages[id].reorganization.Some?
    ensures var m, e := s.messages[id], s.messages[id].reorganization.value;
            || (m.sourceChainId == e.chainId && InBlock(m.sourceProof, e))
            || (m.destinationChainId == e.chainId && m.executionProof.Some? && InBlock(m.executionProof.value, e))
  {
    hide SourceOk, ExecutionOk, AcknowledgementOk, EventsOk, RoutesOk;
    assert MessageOk(checks, s, s.messages[id]);
    var i :| ImplicatedAt(s.messages[id], s.messages[id].reorganization.value, i);
  }

  predicate InBlock(p: SourceProof, e: Reorganization) {
    p.sourceBlockNumber == e.blockNumber && p.sourceBlockHash == e.orphanedBlockHash
  }

  /** Every stored acknowledgement is for the stored execution: its result and its proof. */
  lemma AcknowledgementMatchesExecution(checks: Checks, s: State, id: Bytes)
    requires Inv(checks, s) && id in s.messages && s.messages[id].acknowledgement.Some?
    ensures var m, a := s.messages[id], s.messages[id].acknowledgement.value;
            && m.execution.Some? && a.messageId == id == m.execution.value.messageId
            && a.executionResultHash == m.execution.value.resultHash
            && a.destinationExecutionProof == m.executionProof
            && ExecutionFits(m.envelope, m.envelope.destinationChainId, m.execution.value, m.executionProof.value)
  {
    hide DisputeOk, EventsOk, RoutesOk, ExecutionFits;
    assert MessageOk(checks, s, s.messages[id]);
  }
}
