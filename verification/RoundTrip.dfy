/** Restoring the snapshot of a projector: exactly when it succeeds, and what it
    then reproduces. */
module RoundTrip {
  import opened ByteStrings
  import opened Projector
  import opened ProjectorInvariant
  import opened Restore

  // Stages of a state.

  /** The message with only the named parts filled in. */
  function Cut(m: Projection, executed: bool, acknowledged: bool, disputed: bool): Projection {
    Projection(
      m.messageId, m.sourceChainId, m.destinationChainId, m.envelope, m.sourceProof, m.certificate,
      if executed then m.execution else None,
      if executed then m.executionProof else None,
      if acknowledged then m.acknowledgement else None,
      m.sourceFinal, m.sourceEvidenceHash,
      if executed then m.executionEvidenceHash else ZERO32,
      disputed && m.disputed,
      if disputed then m.reorganization else None,
      if disputed then m.incident else None)
  }

  predicate DisputedIn(m: Projection, done: set<Reorganization>) {
    m.reorganization.Some? && m.reorganization.value in done
  }

  /** The registration belongs to an event of a message that has been replayed. */
  predicate Live(s: State, ids: set<Bytes>, executed: set<Bytes>, key: string)
    requires key in s.events
  {
    var id := s.events[key];
    && id in ids && id in s.messages
    && (KeyOf(s.messages[id].sourceProof) == key
        || (id in executed && s.messages[id].executionProof.Some?
            && KeyOf(s.messages[id].executionProof.value) == key))
  }

  function LiveEvents(s: State, ids: set<Bytes>, executed: set<Bytes>): map<string, Bytes> {
    map key | key in s.events && Live(s, ids, executed, key) :: s.events[key]
  }

  function LiveMessages(
    s: State, ids: set<Bytes>, executed: set<Bytes>, acknowledged: set<Bytes>, done: set<Reorganization>)
    : map<Bytes, Projection>
  {
    map id | id in s.messages && id in ids ::
      Cut(s.messages[id], id in executed, id in acknowledged, DisputedIn(s.messages[id], done))
  }

  /** The state as it is when only some parts have been replayed. */
  function View(s: State, ids: set<Bytes>, executed: set<Bytes>, acknowledged: set<Bytes>, done: set<Reorganization>): State {
    State(LiveMessages(s, ids, executed, acknowledged, done), LiveEvents(s, ids, executed), s.routes)
  }

  // Sources.

  lemma CutIsFresh(checks: Checks, s: State, id: Bytes)
    requires Sane(checks) && Inv(checks, s) && id in s.messages
    ensures var m := s.messages[id];
            var v := Verification(m.sourceEvidenceHash, m.sourceFinal);
            && checks.source(m.envelope, m.sourceProof, m.certificate) == Ok(v)
            && Cut(m, false, false, false) == Fresh(m.envelope, m.sourceProof, m.certificate, v)
            && m.envelope.messageId == id && Owns(s.events, id, m.sourceProof)
  {
    hide ExecutionOk, AcknowledgementOk, DisputeOk, RoutesOk, KeyOf;
    var m := s.messages[id];
    assert MessageOk(checks, s, m);
    assert SaneSource(m.envelope, m.sourceProof, m.certificate, Verification(m.sourceEvidenceHash, m.sourceFinal));
  }

  lemma SourceViewMessages(s: State, ids: set<Bytes>, id: Bytes)
    requires id in s.messages && id !in ids
    ensures LiveMessages(s, ids + {id}, {}, {}, {})
            == LiveMessages(s, ids, {}, {}, {})[id := Cut(s.messages[id], false, false, false)]
  {
    hide Cut;
  }

  lemma SourceViewEvents(s: State, ids: set<Bytes>, id: Bytes)
    requires id in s.messages && id !in ids && Owns(s.events, id, s.messages[id].sourceProof)
    ensures var key := KeyOf(s.messages[id].sourceProof);
            && key !in LiveEvents(s, ids, {})
            && LiveEvents(s, ids + {id}, {}) == LiveEvents(s, ids, {})[key := id]
  {
    hide KeyOf;
  }

  lemma ReplaySourceView(checks: Checks, s: State, ids: set<Bytes>, id: Bytes)
    requires Sane(checks) && Inv(checks, s) && id in s.messages && id !in ids
    ensures ReplaySource(checks, View(s, ids, {}, {}, {}), s.messages[id]) == Some(View(s, ids + {id}, {}, {}, {}))
  {
    hide Sane, Inv, KeyOf, Cut, Fresh, LiveEvents;
    CutIsFresh(checks, s, id);
    SourceViewMessages(s, ids, id);
    SourceViewEvents(s, ids, id);
    FreshOutcome(s.messages[id]);
  }

  lemma FreshOutcome(m: Projection)
    ensures Cut(m, false, false, false).sourceFinal == m.sourceFinal
    ensures Cut(m, false, false, false).sourceEvidenceHash == m.sourceEvidenceHash
  {
  }

  // Executions.

  lemma ExecutedPart(checks: Checks, s: State, id: Bytes)
    requires Inv(checks, s) && id in s.messages
    ensures var m := s.messages[id];
            if m.execution.None? then
              m.executionProof.None? && Cut(m, true, false, false) == Cut(m, false, false, false)
            else
              && m.executionProof.Some? && m.execution.value.messageId == id
              && Owns(s.events, id, m.executionProof.value)
              && checks.executionShape(m.execution.value, m.executionProof.value).Ok?
              && ExecutionFits(m.envelope, m.destinationChainId, m.execution.value, m.executionProof.value)
              && checks.execution(m.execution.value, m.executionProof.value) == Ok(m.executionEvidenceHash)
  {
    hide SourceOk, AcknowledgementOk, DisputeOk, RoutesOk, KeyOf, ExecutionFits;
    assert MessageOk(checks, s, s.messages[id]);
  }

  lemma ExecutionViewMessages(s: State, executed: set<Bytes>, id: Bytes)
    requires id in s.messages && id !in executed
    ensures LiveMessages(s, s.messages.Keys, executed + {id}, {}, {})
            == LiveMessages(s, s.messages.Keys, executed, {}, {})[id := Cut(s.messages[id], true, false, false)]
    ensures LiveMessages(s, s.messages.Keys, executed, {}, {})[id] == Cut(s.messages[id], false, false, false)
  {
    hide Cut;
  }

  lemma ExecutionViewEvents(s: State, executed: set<Bytes>, id: Bytes)
    requires id in s.messages && id !in executed
    requires s.messages[id].executionProof.Some? ==> Owns(s.events, id, s.messages[id].executionProof.value)
    ensures LiveEvents(s, s.messages.Keys, executed + {id})
            == if s.messages[id].executionProof.None? then LiveEvents(s, s.messages.Keys, executed)
               else LiveEvents(s, s.messages.Keys, executed)[KeyOf(s.messages[id].executionProof.value) := id]
  {
    hide KeyOf;
  }

  lemma ReplayExecutionView(checks: Checks, s: State, executed: set<Bytes>, id: Bytes)
    requires Inv(checks, s) && id in s.messages && id !in executed
    ensures ReplayExecution(checks, View(s, s.messages.Keys, executed, {}, {}), s.messages[id])
            == Some(View(s, s.messages.Keys, executed + {id}, {}, {}))
  {
    hide Inv, KeyOf, ExecutionFits, LiveMessages;
    var m := s.messages[id];
    var v := View(s, s.messages.Keys, executed, {}, {});
    ExecutedPart(checks, s, id);
    ExecutionViewMessages(s, executed, id);
    ExecutionViewEvents(s, executed, id);
    ViewHas(s, executed, {}, {}, id);
    if m.execution.None? {
      assert LiveMessages(s, s.messages.Keys, executed + {id}, {}, {}) == v.messages;
    }
  }

  lemma ViewHas(s: State, executed: set<Bytes>, acknowledged: set<Bytes>, done: set<Reorganization>, id: Bytes)
    requires id in s.messages
    ensures id in LiveMessages(s, s.messages.Keys, executed, acknowledged, done)
  {
  }

  // Acknowledgements.

  lemma AcknowledgedPart(checks: Checks, s: State, id: Bytes)
    requires Inv(checks, s) && id in s.messages
    ensures var m := s.messages[id];
            m.acknowledgement.Some? ==>
              && m.acknowledgement.value.messageId == id
              && checks.acknowledgement(m.acknowledgement.value).Ok?
              && AcknowledgementFits(Cut(m, true, false, false), m.acknowledgement.value)
  {
    hide SourceOk, ExecutionOk, DisputeOk, RoutesOk, EventsOk;
    assert MessageOk(checks, s, s.messages[id]);
  }

  lemma AcknowledgementViewMessages(s: State, acknowledged: set<Bytes>, id: Bytes)
    requires id in s.messages && id !in acknowledged
    ensures LiveMessages(s, s.messages.Keys, s.messages.Keys, acknowledged + {id}, {})
            == LiveMessages(s, s.messages.Keys, s.messages.Keys, acknowledged, {})[id := Cut(s.messages[id], true, true, false)]
    ensures LiveMessages(s, s.messages.Keys, s.messages.Keys, acknowledged, {})[id] == Cut(s.messages[id], true, false, false)
  {
    hide Cut;
  }

  lemma ReplayAcknowledgementView(checks: Checks, s: State, acknowledged: set<Bytes>, id: Bytes)
    requires Inv(checks, s) && id in s.messages && id !in acknowledged
    ensures ReplayAcknowledgement(checks, View(s, s.messages.Keys, s.messages.Keys, acknowledged, {}), s.messages[id])
            == Some(View(s, s.messages.Keys, s.messages.Keys, acknowledged + {id}, {}))
  {
    hide Inv, AcknowledgementFits, LiveMessages, LiveEvents;
    var m := s.messages[id];
    var v := View(s, s.messages.Keys, s.messages.Keys, acknowledged, {});
    AcknowledgedPart(checks, s, id);
    AcknowledgementViewMessages(s, acknowledged, id);
    ViewHas(s, s.messages.Keys, acknowledged, {}, id);
    if m.acknowledgement.None? {
      assert LiveMessages(s, s.messages.Keys, s.messages.Keys, acknowledged + {id}, {}) == v.messages;
    }
  }

  // The three stages together.

  function Ids(snapshot: seq<Projection>): set<Bytes> {
    set i | 0 <= i < |snapshot| :: snapshot[i].messageId
  }

  predicate DistinctIds(snapshot: seq<Projection>) {
    forall i, j :: 0 <= i < j < |snapshot| ==> snapshot[i].messageId != snapshot[j].messageId
  }

  /** The snapshot lists every message of the state exactly once. */
  predicate Lists(snapshot: seq<Projection>, s: State) {
    Reproduces(s, snapshot) && DistinctIds(snapshot) && Ids(snapshot) == s.messages.Keys
  }

  function StageView(s: State, stage: Stage, done: set<Bytes>): State {
    match stage
    case Sources => View(s, done, {}, {}, {})
    case Executions => View(s, s.messages.Keys, done, {}, {})
    case Acknowledgements => View(s, s.messages.Keys, s.messages.Keys, done, {})
  }

  lemma ReplayOneView(checks: Checks, stage: Stage, s: State, done: set<Bytes>, id: Bytes)
    requires Sane(checks) && Inv(checks, s) && id in s.messages && id !in done
    ensures ReplayOne(checks, stage, StageView(s, stage, done), s.messages[id]) == Some(StageView(s, stage, done + {id}))
  {
    hide Sane, Inv, View, ReplaySource, ReplayExecution, ReplayAcknowledgement;
    match stage
    case Sources => ReplaySourceView(checks, s, done, id);
    case Executions => ReplayExecutionView(checks, s, done, id);
    case Acknowledgements => ReplayAcknowledgementView(checks, s, done, id);
  }

  lemma IdsCons(snapshot: seq<Projection>)
    requires snapshot != [] && DistinctIds(snapshot)
    ensures Ids(snapshot) == {snapshot[0].messageId} + Ids(snapshot[1..])
    ensures snapshot[0].messageId !in Ids(snapshot[1..]) && DistinctIds(snapshot[1..])
  {
    var rest := snapshot[1..];
    forall i | 0 <= i < |rest| ensures rest[i] == snapshot[i + 1] {
    }
    forall id | id in Ids(snapshot) ensures id in {snapshot[0].messageId} + Ids(rest) {
      var i :| 0 <= i < |snapshot| && snapshot[i].messageId == id;
      if i > 0 {
        assert rest[i - 1].messageId == id;
      }
    }
  }

  lemma {:induction false} ReplayView(checks: Checks, stage: Stage, s: State, done: set<Bytes>, rest: seq<Projection>)
    requires Sane(checks) && Inv(checks, s) && Reproduces(s, rest) && DistinctIds(rest) && Ids(rest) !! done
    ensures Replay(checks, stage, StageView(s, stage, done), rest) == Some(StageView(s, stage, done + Ids(rest)))
    decreases |rest|
  {
    hide Sane, Inv, StageView, ReplayOne, DistinctIds;
    if rest == [] {
      assert done + Ids(rest) == done;
    } else {
      var id := rest[0].messageId;
      IdsCons(rest);
      assert id in Ids(rest);
      assert Reproduces(s, rest[1..]);
      ReplayOneView(checks, stage, s, done, id);
      assert (done + {id}) + Ids(rest[1..]) == done + Ids(rest);
      ReplayView(checks, stage, s, done + {id}, rest[1..]);
    }
  }

  lemma EmptyView(s: State)
    ensures View(s, {}, {}, {}, {}) == State(map[], map[], s.routes)
  {
    hide Cut;
    assert LiveMessages(s, {}, {}, {}, {}) == map[];
    assert LiveEvents(s, {}, {}) == map[];
  }

  /** The first three stages rebuild every undisputed fact of the state. */
  lemma FactsView(checks: Checks, s: State, snapshot: seq<Projection>)
    requires Sane(checks) && Inv(checks, s) && Lists(snapshot, s)
    ensures Facts(checks, s.routes, snapshot)
            == Some(View(s, s.messages.Keys, s.messages.Keys, s.messages.Keys, {}))
  {
    hide Sane, Inv, View, Replay, DistinctIds, Reproduces;
    var all := s.messages.Keys;
    EmptyView(s);
    assert {} + all == all;
    ReplayView(checks, Sources, s, {}, snapshot);
    ReplayView(checks, Executions, s, {}, snapshot);
    ReplayView(checks, Acknowledgements, s, {}, snapshot);
  }

  // Reorganizations.

  function DisputeView(s: State, done: set<Reorganization>): State {
    View(s, s.messages.Keys, s.messages.Keys, s.messages.Keys, done)
  }

  /** Entry `i` of the evidence still names a message of the state, disputed by this
      evidence, whose stored event and certificate are the ones it names. */
  predicate MemberOf(s: State, e: Reorganization, i: nat) {
    && InRange(e, i)
    && e.affectedMessageIds[i] in s.messages
    && s.messages[e.affectedMessageIds[i]].reorganization == Some(e)
    && Affected(s.messages[e.affectedMessageIds[i]], e, i)
    && Policy(s.messages[e.affectedMessageIds[i]]) == LeadPolicy(s, e)
  }

  predicate GroupComplete(s: State, e: Reorganization) {
    forall i :: 0 <= i < |e.affectedMessageIds| ==> MemberOf(s, e, i)
  }

  function Evidence(s: State): set<Reorganization> {
    set id | id in s.messages && s.messages[id].reorganization.Some? :: s.messages[id].reorganization.value
  }

  predicate HashesUsable(evidence: set<Reorganization>) {
    && (forall e :: e in evidence ==> Fixed32(e.evidenceHash) != ZERO32)
    && (forall e, f :: e in evidence && f in evidence && Fixed32(e.evidenceHash) == Fixed32(f.evidenceHash) ==> e == f)
  }

  /** The condition for a restore: every reorganization still has all its messages,
      as it named them, and evidence hashes tell reorganizations apart. */
  predicate Replayable(s: State) {
    && (forall e :: e in Evidence(s) ==> GroupComplete(s, e))
    && HashesUsable(Evidence(s))
  }

  /** Whether evidence names a message does not depend on disputes. */
  lemma AffectedIgnoresDisputes(m: Projection, e: Reorganization, i: nat, disputed: bool)
    requires InRange(e, i)
    ensures Affected(Cut(m, true, true, disputed), e, i) == Affected(m, e, i)
    ensures Policy(Cut(m, true, true, disputed)) == Policy(m)
  {
  }

  lemma DisputeViewAt(s: State, done: set<Reorganization>, id: Bytes)
    requires id in s.messages
    ensures id in DisputeView(s, done).messages
    ensures DisputeView(s, done).messages[id] == Cut(s.messages[id], true, true, DisputedIn(s.messages[id], done))
  {
    hide Cut;
  }

  lemma LeadPolicyOfView(s: State, done: set<Reorganization>, e: Reorganization)
    ensures LeadPolicy(DisputeView(s, done), e) == LeadPolicy(s, e)
  {
    hide Cut, Policy;
    if e.affectedMessageIds != [] && e.affectedMessageIds[0] in s.messages {
      var m := s.messages[e.affectedMessageIds[0]];
      DisputeViewAt(s, done, e.affectedMessageIds[0]);
      PolicyOfCut(m, DisputedIn(m, done));
    }
  }

  lemma PolicyOfCut(m: Projection, disputed: bool)
    ensures Policy(Cut(m, true, true, disputed)) == Policy(m)
  {
  }

  lemma GroupApplies(checks: Checks, s: State, done: set<Reorganization>, e: Reorganization)
    requires Inv(checks, s) && GroupComplete(s, e) && e !in done && e in Evidence(s)
    ensures checks.reorganization(e).Ok? && ReorganizationApplies(DisputeView(s, done), e)
  {
    hide Inv, Cut, Affected, Policy, LeadPolicy, LiveMessages, LiveEvents;
    var v := DisputeView(s, done);
    LeadPolicyOfView(s, done, e);
    EvidencePart(checks, s, e);
    forall i | 0 <= i < |e.affectedMessageIds| ensures InRange(e, i) && Disputable(v, e, i, LeadPolicy(v, e)) {
      var id := e.affectedMessageIds[i];
      assert MemberOf(s, e, i);
      DisputeViewAt(s, done, id);
      AffectedIgnoresDisputes(s.messages[id], e, i, false);
      UndisputedCut(s.messages[id]);
    }
    assert InRange(e, |e.affectedMessageIds| - 1);
  }

  lemma UndisputedCut(m: Projection)
    ensures !Cut(m, true, true, false).disputed
  {
  }

  /** Stored evidence passed its checks and is bound to a route. */
  lemma EvidencePart(checks: Checks, s: State, e: Reorganization)
    requires Inv(checks, s) && e in Evidence(s) && GroupComplete(s, e)
    ensures checks.reorganization(e).Ok?
    ensures LeadPolicy(s, e) in s.routes && s.routes[LeadPolicy(s, e)] != ""
    ensures |e.affectedMessageIds| > 0 && MemberOf(s, e, 0)
  {
    hide SourceOk, ExecutionOk, AcknowledgementOk, EventsOk, Affected, Policy, LeadPolicy;
    var id :| id in s.messages && s.messages[id].reorganization == Some(e);
    assert MessageOk(checks, s, s.messages[id]);
    var i :| ImplicatedAt(s.messages[id], e, i);
    assert MemberOf(s, e, i);
    assert LeadPolicy(s, e) == Policy(s.messages[id]);
    RouteOf(s.routes, LeadPolicy(s, e));
    assert MemberOf(s, e, 0);
  }

  lemma RouteOf(routes: map<Bytes, string>, policy: Bytes)
    requires RoutesOk(routes) && policy in routes
    ensures routes[policy] != ""
  {
  }

  lemma DisputedMessage(checks: Checks, s: State, e: Reorganization, i: nat)
    requires Inv(checks, s) && MemberOf(s, e, i)
    ensures var m := s.messages[e.affectedMessageIds[i]];
            && LeadPolicy(s, e) in s.routes
            && Dispute(Cut(m, true, true, false), e, IncidentOf(e, s.routes[LeadPolicy(s, e)])) == m
            && Cut(m, true, true, true) == m
  {
    hide SourceOk, ExecutionOk, AcknowledgementOk, EventsOk, Affected, Policy, LeadPolicy, IncidentOf, Implicated;
    assert MessageOk(checks, s, s.messages[e.affectedMessageIds[i]]);
  }

  lemma DisputeViewStep(checks: Checks, s: State, done: set<Reorganization>, e: Reorganization, id: Bytes)
    requires Inv(checks, s) && GroupComplete(s, e) && e !in done && e in Evidence(s)
    requires id in s.messages && LeadPolicy(s, e) in s.routes
    ensures var v := DisputeView(s, done);
            && id in v.messages
            && DisputeView(s, done + {e}).messages[id]
               == if id in e.affectedMessageIds
                  then Dispute(v.messages[id], e, IncidentOf(e, s.routes[LeadPolicy(s, e)]))
                  else v.messages[id]
  {
    hide Inv, Cut, Dispute, IncidentOf, LeadPolicy, View, Affected, Policy;
    DisputeViewAt(s, done, id);
    DisputeViewAt(s, done + {e}, id);
    if id in e.affectedMessageIds {
      var i :| 0 <= i < |e.affectedMessageIds| && e.affectedMessageIds[i] == id;
      assert MemberOf(s, e, i);
      DisputedMessage(checks, s, e, i);
    } else if s.messages[id].reorganization == Some(e) {
      NamedByItsEvidence(checks, s, id);
    }
  }

  lemma NamedByItsEvidence(checks: Checks, s: State, id: Bytes)
    requires Inv(checks, s) && id in s.messages && s.messages[id].reorganization.Some?
    ensures s.messages[id].disputed && id in s.messages[id].reorganization.value.affectedMessageIds
  {
    hide SourceOk, ExecutionOk, AcknowledgementOk, EventsOk;
    assert MessageOk(checks, s, s.messages[id]);
    var i :| ImplicatedAt(s.messages[id], s.messages[id].reorganization.value, i);
  }

  lemma ReplayReorganizationView(checks: Checks, s: State, done: set<Reorganization>, e: Reorganization)
    requires Inv(checks, s) && GroupComplete(s, e) && e !in done && e in Evidence(s)
    ensures ProjectReorganization(checks, DisputeView(s, done), e).result.Ok?
    ensures ProjectReorganization(checks, DisputeView(s, done), e).state == DisputeView(s, done + {e})
  {
    hide Inv, Dispute, IncidentOf, LeadPolicy, Affected, Policy, GroupComplete, LiveMessages, LiveEvents,
      ReorganizationApplies, Evidence;
    var v := DisputeView(s, done);
    var t := ProjectReorganization(checks, v, e).state;
    GroupApplies(checks, s, done, e);
    LeadPolicyOfView(s, done, e);
    EvidencePart(checks, s, e);
    DisputeViewKeys(s, done);
    DisputeViewKeys(s, done + {e});
    forall id | id in s.messages ensures t.messages[id] == DisputeView(s, done + {e}).messages[id] {
      DisputeViewStep(checks, s, done, e, id);
    }
    assert t.messages == DisputeView(s, done + {e}).messages;
  }

  lemma DisputeViewKeys(s: State, done: set<Reorganization>)
    ensures DisputeView(s, done).messages.Keys == s.messages.Keys
  {
    hide Cut;
  }
}
