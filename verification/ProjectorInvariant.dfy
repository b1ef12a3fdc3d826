/** What every operation of the projector keeps, and what it never changes. */
module ProjectorInvariant {
  import opened ByteStrings
  import opened Envelope
  import opened Projector

  /** What the checks made before the lock guarantee about accepted arguments. */
  ghost predicate Sane(checks: Checks) {
    && (forall e, p, c :: checks.source(e, p, c).Ok? ==> SaneSource(e, p, c, checks.source(e, p, c).value))
    && (forall r, p :: checks.executionShape(r, p).Ok? ==> SaneExecution(r, p))
    && (forall r, p :: checks.execution(r, p).Ok? ==> checks.execution(r, p).value != ZERO32)
    && (forall e :: checks.reorganization(e).Ok? ==> Aligned(e))
  }

  /** A source event is final exactly when it carries a certificate. */
  predicate SaneSource(e: Envelope, p: SourceProof, c: Option<Certificate>, v: Verification) {
    p.messageId == e.messageId && p.sourceChainId == e.sourceChainId && (v.final <==> c.Some?)
  }

  predicate SaneExecution(r: Execution, p: SourceProof) {
    p.messageId == r.messageId && p.sourceChainId == r.destinationChainId
  }

  // The invariant of one message.

  /** The stored source event passed its checks, with the stored outcome. */
  predicate SourceOk(checks: Checks, m: Projection) {
    && m.messageId == m.envelope.messageId
    && m.sourceChainId == m.envelope.sourceChainId
    && m.destinationChainId == m.envelope.destinationChainId
    && checks.source(m.envelope, m.sourceProof, m.certificate)
       == Ok(Verification(m.sourceEvidenceHash, m.sourceFinal))
  }

  /** The stored execution is absent altogether, or passed its checks against this envelope. */
  predicate ExecutionOk(checks: Checks, m: Projection) {
    if m.execution.None? then
      m.executionProof.None? && m.executionEvidenceHash == ZERO32
    else
      && m.executionProof.Some?
      && m.execution.value.messageId == m.messageId
      && checks.executionShape(m.execution.value, m.executionProof.value).Ok?
      && ExecutionFits(m.envelope, m.destinationChainId, m.execution.value, m.executionProof.value)
      && checks.execution(m.execution.value, m.executionProof.value) == Ok(m.executionEvidenceHash)
  }

  /** The stored acknowledgement is for the stored execution. */
  predicate AcknowledgementOk(checks: Checks, m: Projection) {
    m.acknowledgement.Some? ==>
      && m.acknowledgement.value.messageId == m.messageId
      && checks.acknowledgement(m.acknowledgement.value).Ok?
      && AcknowledgementFits(m, m.acknowledgement.value)
  }

  /** Entry `i` of the evidence names this message and one of its stored events. */
  predicate ImplicatedAt(m: Projection, e: Reorganization, i: nat) {
    && InRange(e, i)
    && e.affectedMessageIds[i] == m.messageId
    && (SourceAffected(m, e, i) || ExecutionOrphaned(m, e, i))
  }

  ghost predicate Implicated(m: Projection, e: Reorganization) {
    exists i :: ImplicatedAt(m, e, i)
  }

  /** Dispute, evidence and incident come together, and the evidence names a stored event. */
  ghost predicate DisputeOk(checks: Checks, routes: map<Bytes, string>, m: Projection) {
    if !m.disputed then
      m.reorganization.None? && m.incident.None?
    else
      && m.reorganization.Some?
      && checks.reorganization(m.reorganization.value).Ok?
      && Implicated(m, m.reorganization.value)
      && Policy(m) in routes
      && m.incident == Some(IncidentOf(m.reorganization.value, routes[Policy(m)]))
  }

  predicate Owns(events: map<string, Bytes>, id: Bytes, p: SourceProof) {
    KeyOf(p) in events && events[KeyOf(p)] == id
  }

  /** Every event of the message is registered to it. */
  predicate EventsOk(events: map<string, Bytes>, m: Projection) {
    && Owns(events, m.messageId, m.sourceProof)
    && (m.executionProof.Some? ==> Owns(events, m.messageId, m.executionProof.value))
  }

  ghost predicate MessageOk(checks: Checks, s: State, m: Projection) {
    && SourceOk(checks, m)
    && ExecutionOk(checks, m)
    && AcknowledgementOk(checks, m)
    && DisputeOk(checks, s.routes, m)
    && EventsOk(s.events, m)
  }

  // The invariant of the projector.

  predicate RoutesOk(routes: map<Bytes, string>) {
    forall policy :: policy in routes ==> policy != ZERO32 && routes[policy] != ""
  }

  ghost predicate Inv(checks: Checks, s: State) {
    && (forall id :: id in s.messages ==> s.messages[id].messageId == id && MessageOk(checks, s, s.messages[id]))
    && RoutesOk(s.routes)
  }

  lemma InvRoutes(checks: Checks, s: State)
    requires Inv(checks, s)
    ensures RoutesOk(s.routes)
  {
    hide MessageOk;
  }

  // What never changes.

  predicate KeptOnce<T(==)>(before: Option<T>, after: Option<T>) {
    before.Some? ==> after == before
  }

  /** Identity never changes; finality, execution, acknowledgement and dispute are write-once. */
  predicate Evolves(m: Projection, n: Projection) {
    && n.messageId == m.messageId && n.sourceChainId == m.sourceChainId
    && n.destinationChainId == m.destinationChainId
    && n.envelope == m.envelope && n.sourceProof == m.sourceProof
    && n.sourceEvidenceHash == m.sourceEvidenceHash
    && (m.sourceFinal ==> n.sourceFinal)
    && KeptOnce(m.certificate, n.certificate)
    && KeptOnce(m.execution, n.execution)
    && KeptOnce(m.executionProof, n.executionProof)
    && (m.execution.Some? ==> n.executionEvidenceHash == m.executionEvidenceHash)
    && KeptOnce(m.acknowledgement, n.acknowledgement)
    && (m.disputed ==> n.disputed)
    && KeptOnce(m.reorganization, n.reorganization)
    && KeptOnce(m.incident, n.incident)
  }

  lemma EvolvesReflexive(m: Projection)
    ensures Evolves(m, m)
  {
  }

  lemma EvolvesTransitive(a: Projection, b: Projection, c: Projection)
    requires Evolves(a, b) && Evolves(b, c)
    ensures Evolves(a, c)
  {
  }

  /** Registrations, routes and messages are kept, messages up to evolution. */
  predicate Grows(s: State, t: State) {
    && (forall key :: key in s.events ==> key in t.events && t.events[key] == s.events[key])
    && (forall policy :: policy in s.routes ==> policy in t.routes && t.routes[policy] == s.routes[policy])
    && (forall id :: id in s.messages ==> id in t.messages && Evolves(s.messages[id], t.messages[id]))
  }

  lemma GrowsTransitive(s: State, t: State, u: State)
    requires Grows(s, t) && Grows(t, u)
    ensures Grows(s, u)
  {
    forall id | id in s.messages ensures id in u.messages && Evolves(s.messages[id], u.messages[id]) {
      EvolvesTransitive(s.messages[id], t.messages[id], u.messages[id]);
    }
  }

  /** An unchanged message stays sound while registrations and routes grow. */
  lemma MessageOkGrows(checks: Checks, s: State, t: State, m: Projection)
    requires MessageOk(checks, s, m) && Grows(s, t)
    ensures MessageOk(checks, t, m)
  {
  }

  /** Only registrations and routes matter to one message. */
  lemma SameIndexes(checks: Checks, s: State, t: State, m: Projection)
    requires MessageOk(checks, s, m) && s.events == t.events && s.routes == t.routes
    ensures MessageOk(checks, t, m)
  {
  }

  lemma GrowsReflexive(s: State)
    ensures Grows(s, s)
  {
  }

  /** Replacing or adding one message is growth when that message evolves. */
  lemma PutGrows(s: State, t: State, id: Bytes)
    requires t.routes == s.routes && id in t.messages
    requires t.messages == s.messages[id := t.messages[id]]
    requires forall key :: key in s.events ==> key in t.events && t.events[key] == s.events[key]
    requires id in s.messages ==> Evolves(s.messages[id], t.messages[id])
    ensures Grows(s, t)
  {
    forall a | a in s.messages ensures a in t.messages && Evolves(s.messages[a], t.messages[a]) {
      if a != id {
        assert t.messages[a] == s.messages[a];
      }
    }
  }

  /** Replacing or adding one sound message keeps the invariant. */
  lemma PutKeepsInv(checks: Checks, s: State, t: State, id: Bytes)
    requires Inv(checks, s) && Grows(s, t)
    requires t.routes == s.routes && id in t.messages
    requires t.messages == s.messages[id := t.messages[id]]
    requires t.messages[id].messageId == id && MessageOk(checks, t, t.messages[id])
    ensures Inv(checks, t)
  {
    hide MessageOk, RoutesOk, Evolves;
    forall a | a in t.messages
      ensures t.messages[a].messageId == a && MessageOk(checks, t, t.messages[a])
    {
      if a != id {
        MessageOkGrows(checks, s, t, s.messages[a]);
      }
    }
  }

  // Source events.

  lemma FreshOk(checks: Checks, s: State, e: Envelope, p: SourceProof, c: Option<Certificate>, v: Verification)
    requires Sane(checks) && checks.source(e, p, c) == Ok(v)
    requires Owns(s.events, e.messageId, p)
    ensures MessageOk(checks, s, Fresh(e, p, c, v)) && Fresh(e, p, c, v).messageId == e.messageId
  {
    assert SaneSource(e, p, c, v);
  }

  /** A first certificate makes a stored event final. */
  lemma UpgradeOk(checks: Checks, s: State, m: Projection, c: Option<Certificate>, v: Verification)
    requires Sane(checks) && MessageOk(checks, s, m) && !m.sourceFinal && v.final
    requires checks.source(m.envelope, m.sourceProof, c) == Ok(v) && v.hash == m.sourceEvidenceHash
    ensures MessageOk(checks, s, m.(sourceFinal := true, certificate := c))
    ensures Evolves(m, m.(sourceFinal := true, certificate := c))
  {
    var n := m.(sourceFinal := true, certificate := c);
    assert SaneSource(m.envelope, m.sourceProof, m.certificate, Verification(m.sourceEvidenceHash, m.sourceFinal));
    if m.disputed {
      var i :| ImplicatedAt(m, m.reorganization.value, i);
      assert ImplicatedAt(n, n.reorganization.value, i);
    }
  }

  lemma SourceKeeps(checks: Checks, s: State, e: Envelope, p: SourceProof, c: Option<Certificate>)
    requires Sane(checks) && Inv(checks, s)
    ensures Inv(checks, ProjectSource(checks, s, e, p, c).state)
    ensures Grows(s, ProjectSource(checks, s, e, p, c).state)
  {
    hide MessageOk, RoutesOk, Evolves, Sane, RecordSource;
    GrowsReflexive(s);
    if checks.source(e, p, c).Ok? {
      RecordSourceKeeps(checks, s, e, p, c, checks.source(e, p, c).value);
    }
  }

  lemma RecordSourceKeeps(checks: Checks, s: State, e: Envelope, p: SourceProof, c: Option<Certificate>, v: Verification)
    requires Sane(checks) && Inv(checks, s) && checks.source(e, p, c) == Ok(v)
    ensures Inv(checks, RecordSource(s, e, p, c, v).state)
    ensures Grows(s, RecordSource(s, e, p, c, v).state)
  {
    hide MessageOk, RoutesOk, Evolves, Sane, KeyOf, Fresh;
    var id, t := e.messageId, RecordSource(s, e, p, c, v).state;
    if t == s {
      GrowsReflexive(s);
    } else if id in s.messages {
      UpgradeOk(checks, s, s.messages[id], c, v);
      PutGrows(s, t, id);
      MessageOkGrows(checks, s, t, t.messages[id]);
      PutKeepsInv(checks, s, t, id);
    } else {
      FreshOk(checks, t, e, p, c, v);
      PutGrows(s, t, id);
      PutKeepsInv(checks, s, t, id);
    }
  }

  // Executions.

  /** What the unlocked half of an execution has established. */
  ghost predicate Begun(checks: Checks, pending: Pending, r: Execution, p: SourceProof) {
    && checks.executionShape(r, p).Ok?
    && checks.execution(r, p) == Ok(pending.hash)
    && ExecutionFits(pending.envelope, pending.envelope.destinationChainId, r, p)
  }

  lemma BeginEstablishes(checks: Checks, s: State, r: Execution, p: SourceProof)
    requires Inv(checks, s) && BeginExecution(checks, s, r, p).Ok?
    ensures Begun(checks, BeginExecution(checks, s, r, p).value, r, p)
    ensures r.messageId in s.messages
    ensures BeginExecution(checks, s, r, p).value.envelope == s.messages[r.messageId].envelope
  {
  }

  lemma WithExecutionOk(checks: Checks, s: State, m: Projection, r: Execution, p: SourceProof, hash: Bytes)
    requires Sane(checks) && MessageOk(checks, s, m) && Begun(checks, Pending(m.envelope, hash), r, p)
    requires ExecutionCompatible(m, r, p, hash) && r.messageId == m.messageId && Owns(s.events, m.messageId, p)
    ensures MessageOk(checks, s, WithExecution(m, r, p, hash))
    ensures Evolves(m, WithExecution(m, r, p, hash)) && WithExecution(m, r, p, hash).messageId == m.messageId
  {
    var n := WithExecution(m, r, p, hash);
    if m.disputed {
      var i :| ImplicatedAt(m, m.reorganization.value, i);
      assert ImplicatedAt(n, n.reorganization.value, i);
    }
  }

  lemma CommitKeeps(checks: Checks, s: State, pending: Pending, r: Execution, p: SourceProof)
    requires Sane(checks) && Inv(checks, s) && Begun(checks, pending, r, p)
    ensures Inv(checks, CommitExecution(s, pending, r, p).state)
    ensures Grows(s, CommitExecution(s, pending, r, p).state)
  {
    hide MessageOk, RoutesOk, Evolves, Sane, KeyOf, WithExecution, ExecutionCompatible, Begun;
    var id, t := r.messageId, CommitExecution(s, pending, r, p).state;
    GrowsReflexive(s);
    if CommitExecution(s, pending, r, p).result.Ok? {
      var m, u := s.messages[id], s.(events := t.events);
      EvolvesReflexive(m);
      PutGrows(s, u, id);
      MessageOkGrows(checks, s, u, m);
      WithExecutionOk(checks, u, m, r, p, pending.hash);
      PutGrows(s, t, id);
      SameIndexes(checks, u, t, t.messages[id]);
      PutKeepsInv(checks, s, t, id);
    }
  }

  lemma ExecutionKeeps(checks: Checks, s: State, r: Execution, p: SourceProof)
    requires Sane(checks) && Inv(checks, s)
    ensures Inv(checks, ProjectExecution(checks, s, r, p).state)
    ensures Grows(s, ProjectExecution(checks, s, r, p).state)
  {
    hide MessageOk, RoutesOk, Evolves, Sane, CommitExecution, BeginExecution, Begun;
    GrowsReflexive(s);
    if BeginExecution(checks, s, r, p).Ok? {
      BeginEstablishes(checks, s, r, p);
      CommitKeeps(checks, s, BeginExecution(checks, s, r, p).value, r, p);
    }
  }

  // Acknowledgements.

  lemma AcknowledgedOk(checks: Checks, s: State, m: Projection, a: Acknowledgement)
    requires MessageOk(checks, s, m) && checks.acknowledgement(a).Ok? && a.messageId == m.messageId
    requires AcknowledgementFits(m, a) && (m.acknowledgement.None? || m.acknowledgement == Some(a))
    ensures MessageOk(checks, s, m.(acknowledgement := Some(a)))
    ensures Evolves(m, m.(acknowledgement := Some(a)))
  {
    var n := m.(acknowledgement := Some(a));
    if m.disputed {
      var i :| ImplicatedAt(m, m.reorganization.value, i);
      assert ImplicatedAt(n, n.reorganization.value, i);
    }
  }

  lemma AcknowledgementKeeps(checks: Checks, s: State, a: Acknowledgement)
    requires Inv(checks, s)
    ensures Inv(checks, ProjectAcknowledgement(checks, s, a).state)
    ensures Grows(s, ProjectAcknowledgement(checks, s, a).state)
  {
    hide MessageOk, RoutesOk, Evolves, AcknowledgementFits;
    var id, t := a.messageId, ProjectAcknowledgement(checks, s, a).state;
    GrowsReflexive(s);
    if ProjectAcknowledgement(checks, s, a).result.Ok? {
      AcknowledgedOk(checks, s, s.messages[id], a);
      PutGrows(s, t, id);
      MessageOkGrows(checks, s, t, t.messages[id]);
      PutKeepsInv(checks, s, t, id);
    }
  }

  // Reorganizations.

  /** The index of an affected message. */
  lemma AffectedIndex(s: State, e: Reorganization, id: Bytes) returns (i: nat)
    requires ReorganizationApplies(s, e) && id in e.affectedMessageIds
    ensures InRange(e, i) && e.affectedMessageIds[i] == id && Disputable(s, e, i, LeadPolicy(s, e))
  {
    i :| 0 <= i < |e.affectedMessageIds| && e.affectedMessageIds[i] == id;
  }

  lemma DisputedOk(checks: Checks, s: State, e: Reorganization, id: Bytes)
    requires Inv(checks, s) && checks.reorganization(e).Ok? && ReorganizationApplies(s, e)
    requires id in e.affectedMessageIds
    ensures id in s.messages && Policy(s.messages[id]) == LeadPolicy(s, e)
    ensures var n := Dispute(s.messages[id], e, IncidentOf(e, s.routes[LeadPolicy(s, e)]));
            && MessageOk(checks, s, n) && Evolves(s.messages[id], n)
            && n.messageId == id && n.reorganization == Some(e)
  {
    var i := AffectedIndex(s, e, id);
    var m := s.messages[id];
    var n := Dispute(m, e, IncidentOf(e, s.routes[LeadPolicy(s, e)]));
    if !m.disputed {
      assert ImplicatedAt(n, e, i);
    }
  }

  lemma DisputeAllGrows(checks: Checks, s: State, e: Reorganization)
    requires Inv(checks, s) && checks.reorganization(e).Ok? && ReorganizationApplies(s, e)
    ensures Grows(s, ProjectReorganization(checks, s, e).state)
  {
    hide MessageOk, RoutesOk, Evolves, ReorganizationApplies, LeadPolicy, IncidentOf, Dispute;
    var t := ProjectReorganization(checks, s, e).state;
    forall id | id in s.messages ensures id in t.messages && Evolves(s.messages[id], t.messages[id]) {
      if id in e.affectedMessageIds {
        DisputedOk(checks, s, e, id);
      } else {
        EvolvesReflexive(s.messages[id]);
      }
    }
  }

  lemma ReorganizationKeeps(checks: Checks, s: State, e: Reorganization)
    requires Inv(checks, s)
    ensures Inv(checks, ProjectReorganization(checks, s, e).state)
    ensures Grows(s, ProjectReorganization(checks, s, e).state)
  {
    hide MessageOk, RoutesOk, Evolves, ReorganizationApplies, LeadPolicy, IncidentOf, Dispute;
    var t := ProjectReorganization(checks, s, e).state;
    GrowsReflexive(s);
    if ProjectReorganization(checks, s, e).result.Ok? {
      DisputeAllGrows(checks, s, e);
      forall id | id in t.messages
        ensures t.messages[id].messageId == id && MessageOk(checks, t, t.messages[id])
      {
        if id in e.affectedMessageIds {
          DisputedOk(checks, s, e, id);
        }
        SameIndexes(checks, s, t, t.messages[id]);
      }
    }
  }

  // Routes and removal.

  lemma BindRouteKeeps(checks: Checks, s: State, routeId: string, policy: Bytes)
    requires Inv(checks, s)
    ensures Inv(checks, BindRoute(s, routeId, policy).state)
    ensures Grows(s, BindRoute(s, routeId, policy).state)
  {
    hide MessageOk, Evolves;
    var t := BindRoute(s, routeId, policy).state;
    forall id | id in s.messages ensures Evolves(s.messages[id], t.messages[id]) {
      EvolvesReflexive(s.messages[id]);
    }
    forall id | id in t.messages ensures MessageOk(checks, t, t.messages[id]) {
      MessageOkGrows(checks, s, t, s.messages[id]);
    }
  }

  /** A message keeps its registrations when another message loses one. */
  lemma OtherKeepsItsEvents(checks: Checks, s: State, t: State, key: string, m: Projection)
    requires MessageOk(checks, s, m) && t.routes == s.routes
    requires key in s.events && s.events[key] != m.messageId && t.events == s.events - {key}
    ensures MessageOk(checks, t, m)
  {
  }

  /** Removal takes at most one message, a provisional one, with the registration that names
      it; no other message, registration or route changes. */
  lemma RemoveKeeps(checks: Checks, s: State, chainId: string, transactionHash: Bytes, logIndex: nat)
    requires Inv(checks, s)
    ensures Inv(checks, RemovePreFinality(s, chainId, transactionHash, logIndex).state)
    ensures var t := RemovePreFinality(s, chainId, transactionHash, logIndex).state;
            && t.routes == s.routes
            && (forall id :: id in s.messages ==>
                  if id in t.messages then t.messages[id] == s.messages[id] else !s.messages[id].sourceFinal)
            && (t == s || exists id, key :: key in s.events && s.events[key] == id
                                            && t.messages == s.messages - {id} && t.events == s.events - {key})
  {
    hide MessageOk, RoutesOk, EventKey;
    var t := RemovePreFinality(s, chainId, transactionHash, logIndex).state;
    if t != s {
      var key := EventKey(chainId, transactionHash, logIndex);
      assert key in s.events && t.messages == s.messages - {s.events[key]} && t.events == s.events - {key};
      forall id | id in t.messages ensures MessageOk(checks, t, t.messages[id]) {
        OtherKeepsItsEvents(checks, s, t, key, s.messages[id]);
      }
    }
  }
}
