/** Which runs leave a state that a restart can restore. */
module CleanRuns {
  import opened ByteStrings
  import opened Envelope
  import opened Projector
  import opened ProjectorInvariant
  import opened Restore
  import opened ProjectorRuns
  import opened RoundTrip
  import opened RestoreExact

  predicate GroupsComplete(s: State) {
    forall e :: e in Evidence(s) ==> GroupComplete(s, e)
  }

  /** Every registration is live and every reorganization still has its messages. */
  predicate Clean(s: State) {
    EventsExact(s) && GroupsComplete(s)
  }

  // The two kinds of operation that can spoil a restart.

  /** Removal names a message that has not been executed. */
  predicate RemovesUnexecuted(s: State, chainId: string, transactionHash: Bytes, logIndex: nat) {
    var key := EventKey(chainId, transactionHash, logIndex);
    key in s.events && s.events[key] in s.messages ==> s.messages[s.events[key]].execution.None?
  }

  /** An acknowledgement that arrives after a dispute carries the certificate that
      the evidence named, unless the source event itself was orphaned. */
  predicate NamesOrphanedCertificate(s: State, a: Acknowledgement) {
    a.messageId in s.messages && s.messages[a.messageId].reorganization.Some? ==>
      var m, e := s.messages[a.messageId], s.messages[a.messageId].reorganization.value;
      forall i :: 0 <= i < |e.affectedMessageIds| && InRange(e, i) && e.affectedMessageIds[i] == a.messageId ==>
        SourceAffected(m, e, i) || a.finalityCertificate == Some(e.affectedOrphanedFinalityCertificates[i])
  }

  predicate CleanOp(s: State, op: Op) {
    match op
    case RemoveOp(chainId, transactionHash, logIndex) => RemovesUnexecuted(s, chainId, transactionHash, logIndex)
    case AcknowledgementOp(a) => NamesOrphanedCertificate(s, a)
    case _ => true
  }

  // Groups survive when their members do.

  predicate Names(e: Reorganization, i: nat, id: Bytes) {
    InRange(e, i) && e.affectedMessageIds[i] == id
  }

  /** Evidence that names the message as it was names it as it is. */
  predicate StaysAffected(m: Projection, n: Projection, e: Reorganization) {
    forall i :: 0 <= i < |e.affectedMessageIds| && Names(e, i, m.messageId) && Affected(m, e, i) ==> Affected(n, e, i)
  }

  /** The message stays in the group it is in. */
  predicate StaysNamed(m: Projection, n: Projection) {
    && n.reorganization == m.reorganization && n.messageId == m.messageId && Policy(n) == Policy(m)
    && (m.reorganization.Some? ==> StaysAffected(m, n, m.reorganization.value))
  }

  /** Every message stays, up to changes that keep it in its group. */
  predicate KeepsMembers(s: State, t: State) {
    forall id :: id in s.messages && s.messages[id].reorganization.Some? ==>
      id in t.messages && StaysNamed(s.messages[id], t.messages[id])
  }

  lemma MemberStays(checks: Checks, s: State, t: State, e: Reorganization, i: nat)
    requires Inv(checks, s) && KeepsMembers(s, t) && GroupComplete(s, e) && i < |e.affectedMessageIds|
    ensures MemberOf(t, e, i)
  {
    hide MessageOk, RoutesOk, Affected, Policy;
    assert MemberOf(s, e, i);
    assert MemberOf(s, e, 0);
    var id := e.affectedMessageIds[i];
    assert StaysNamed(s.messages[id], t.messages[id]);
    assert StaysNamed(s.messages[e.affectedMessageIds[0]], t.messages[e.affectedMessageIds[0]]);
  }

  lemma GroupsSurvive(checks: Checks, s: State, t: State)
    requires Inv(checks, s) && KeepsMembers(s, t) && GroupsComplete(s) && Evidence(t) <= Evidence(s)
    ensures GroupsComplete(t)
  {
    hide Inv, KeepsMembers, Evidence, MemberOf;
    forall e | e in Evidence(t) ensures GroupComplete(t, e) {
      forall i | 0 <= i < |e.affectedMessageIds| ensures MemberOf(t, e, i) {
        MemberStays(checks, s, t, e, i);
      }
    }
  }

  lemma StaysReflexive(m: Projection)
    ensures StaysNamed(m, m)
  {
  }

  /** Replacing or adding one message. */
  lemma PutKeepsGroups(checks: Checks, s: State, t: State, id: Bytes)
    requires Inv(checks, s) && GroupsComplete(s)
    requires id in t.messages && t.messages == s.messages[id := t.messages[id]]
    requires id in s.messages ==> StaysNamed(s.messages[id], t.messages[id])
    requires id !in s.messages ==> t.messages[id].reorganization.None?
    ensures GroupsComplete(t)
  {
    hide Inv, GroupsComplete;
    forall a | a in s.messages ensures a in t.messages && StaysNamed(s.messages[a], t.messages[a]) {
      if a != id {
        StaysReflexive(s.messages[a]);
      }
    }
    forall e | e in Evidence(t) ensures e in Evidence(s) {
      var a :| a in t.messages && t.messages[a].reorganization == Some(e);
      assert a in s.messages && s.messages[a].reorganization == Some(e);
    }
    GroupsSurvive(checks, s, t);
  }

  // Registrations stay live.

  lemma SourceEventsExact(s: State, e: Envelope, p: SourceProof, c: Option<Certificate>, v: Verification)
    requires EventsExact(s)
    ensures EventsExact(RecordSource(s, e, p, c, v).state)
  {
    hide KeyOf;
    var t := RecordSource(s, e, p, c, v).state;
    forall key | key in t.events ensures Live(t, t.messages.Keys, t.messages.Keys, key) {
      if key in s.events {
        assert Live(s, s.messages.Keys, s.messages.Keys, key);
      }
    }
  }

  lemma CommitEventsExact(s: State, pending: Pending, r: Execution, p: SourceProof)
    requires EventsExact(s)
    ensures EventsExact(CommitExecution(s, pending, r, p).state)
  {
    hide KeyOf;
    var t := CommitExecution(s, pending, r, p).state;
    forall key | key in t.events ensures Live(t, t.messages.Keys, t.messages.Keys, key) {
      if key in s.events {
        assert Live(s, s.messages.Keys, s.messages.Keys, key);
      }
    }
  }

  /** Operations that touch neither events nor proofs. */
  lemma SameProofsEventsExact(s: State, t: State)
    requires EventsExact(s) && t.events == s.events && t.messages.Keys == s.messages.Keys
    requires forall id :: id in s.messages ==>
               t.messages[id].sourceProof == s.messages[id].sourceProof
               && t.messages[id].executionProof == s.messages[id].executionProof
    ensures EventsExact(t)
  {
    hide KeyOf;
    forall key | key in t.events ensures Live(t, t.messages.Keys, t.messages.Keys, key) {
      assert Live(s, s.messages.Keys, s.messages.Keys, key);
    }
  }

  // Each operation.

  lemma UpgradeStays(m: Projection, c: Option<Certificate>)
    requires !m.sourceFinal
    ensures StaysNamed(m, m.(sourceFinal := true, certificate := c))
  {
  }

  lemma SourceStaysClean(checks: Checks, s: State, e: Envelope, p: SourceProof, c: Option<Certificate>)
    requires Inv(checks, s) && Clean(s)
    ensures Clean(ProjectSource(checks, s, e, p, c).state)
  {
    hide Inv, EventsExact, GroupsComplete, KeyOf, StaysNamed;
    if checks.source(e, p, c).Ok? {
      var v := checks.source(e, p, c).value;
      var t := RecordSource(s, e, p, c, v).state;
      SourceEventsExact(s, e, p, c, v);
      if t != s {
        if e.messageId in s.messages {
          UpgradeStays(s.messages[e.messageId], c);
        }
        PutKeepsGroups(checks, s, t, e.messageId);
      }
    }
  }

  /** A first execution cannot be what an earlier dispute was about. */
  lemma ExecutionStays(checks: Checks, s: State, id: Bytes, r: Execution, p: SourceProof, hash: Bytes)
    requires Sane(checks) && Inv(checks, s) && id in s.messages
    requires ExecutionCompatible(s.messages[id], r, p, hash) && checks.execution(r, p) == Ok(hash)
    ensures StaysNamed(s.messages[id], WithExecution(s.messages[id], r, p, hash))
  {
    hide SourceOk, AcknowledgementOk, DisputeOk, EventsOk, RoutesOk, ExecutionFits;
    var m := s.messages[id];
    assert MessageOk(checks, s, m);
    if m.execution.Some? {
      assert WithExecution(m, r, p, hash) == m;
    }
  }

  lemma ExecutionStaysClean(checks: Checks, s: State, r: Execution, p: SourceProof)
    requires Sane(checks) && Inv(checks, s) && Clean(s)
    ensures Clean(ProjectExecution(checks, s, r, p).state)
  {
    hide Sane, Inv, EventsExact, GroupsComplete, KeyOf, StaysNamed, WithExecution, ExecutionCompatible, ExecutionFits;
    if BeginExecution(checks, s, r, p).Ok? {
      var pending := BeginExecution(checks, s, r, p).value;
      CommitEventsExact(s, pending, r, p);
      if CommitExecution(s, pending, r, p).result.Ok? {
        ExecutionStays(checks, s, r.messageId, r, p, pending.hash);
        PutKeepsGroups(checks, s, CommitExecution(s, pending, r, p).state, r.messageId);
      }
    }
  }

  lemma AcknowledgementStays(checks: Checks, s: State, a: Acknowledgement)
    requires Inv(checks, s) && NamesOrphanedCertificate(s, a) && a.messageId in s.messages
    ensures StaysNamed(s.messages[a.messageId], s.messages[a.messageId].(acknowledgement := Some(a)))
  {
    hide MessageOk, RoutesOk;
  }

  lemma AcknowledgementStaysClean(checks: Checks, s: State, a: Acknowledgement)
    requires Inv(checks, s) && Clean(s) && NamesOrphanedCertificate(s, a)
    ensures Clean(ProjectAcknowledgement(checks, s, a).state)
  {
    hide Inv, EventsExact, GroupsComplete, StaysNamed, AcknowledgementFits;
    var t := ProjectAcknowledgement(checks, s, a).state;
    if ProjectAcknowledgement(checks, s, a).result.Ok? {
      AcknowledgementStays(checks, s, a);
      PutKeepsGroups(checks, s, t, a.messageId);
      SameProofsEventsExact(s, t);
    }
  }

  lemma DisputedMembersStay(checks: Checks, s: State, e: Reorganization)
    requires Inv(checks, s) && ProjectReorganization(checks, s, e).result.Ok?
    ensures KeepsMembers(s, ProjectReorganization(checks, s, e).state)
  {
    hide MessageOk, RoutesOk, StaysNamed, ReorganizationApplies, IncidentOf, LeadPolicy;
    var t := ProjectReorganization(checks, s, e).state;
    forall id | id in s.messages && s.messages[id].reorganization.Some?
      ensures id in t.messages && StaysNamed(s.messages[id], t.messages[id])
    {
      NamedByItsEvidence(checks, s, id);
      StaysReflexive(s.messages[id]);
    }
  }

  lemma LeadPolicyStays(checks: Checks, s: State, e: Reorganization)
    requires ProjectReorganization(checks, s, e).result.Ok?
    ensures LeadPolicy(ProjectReorganization(checks, s, e).state, e) == LeadPolicy(s, e)
  {
    hide IncidentOf, ReorganizationApplies;
  }

  lemma NewMember(checks: Checks, s: State, e: Reorganization, i: nat)
    requires Inv(checks, s) && GroupsComplete(s) && ProjectReorganization(checks, s, e).result.Ok?
    requires i < |e.affectedMessageIds|
    ensures MemberOf(ProjectReorganization(checks, s, e).state, e, i)
  {
    hide Inv, Affected, LeadPolicy, IncidentOf, Policy, Dispute, Cut;
    var t, id := ProjectReorganization(checks, s, e).state, e.affectedMessageIds[i];
    assert Disputable(s, e, i, LeadPolicy(s, e));
    var m := s.messages[id];
    if m.disputed {
      assert e in Evidence(s);
      assert MemberOf(s, e, i);
    }
    DisputeKeepsFacts(m, e, ProjectReorganization(checks, s, e).result.value.incident);
    SameFactsSameAffected(m, t.messages[id], e, i);
    LeadPolicyStays(checks, s, e);
  }

  lemma NewEvidence(checks: Checks, s: State, e: Reorganization)
    requires Inv(checks, s) && ProjectReorganization(checks, s, e).result.Ok?
    ensures Evidence(ProjectReorganization(checks, s, e).state) <= Evidence(s) + {e}
  {
    hide MessageOk, RoutesOk, ReorganizationApplies, IncidentOf, LeadPolicy;
    var t := ProjectReorganization(checks, s, e).state;
    forall f | f in Evidence(t) && f != e ensures f in Evidence(s) {
      var id :| id in t.messages && t.messages[id].reorganization == Some(f);
      assert s.messages[id].reorganization == Some(f);
    }
  }

  lemma ReorganizationStaysClean(checks: Checks, s: State, e: Reorganization)
    requires Inv(checks, s) && Clean(s)
    ensures Clean(ProjectReorganization(checks, s, e).state)
  {
    hide Inv, EventsExact, ReorganizationApplies, IncidentOf, LeadPolicy, KeepsMembers, Evidence, MemberOf;
    var t := ProjectReorganization(checks, s, e).state;
    if ProjectReorganization(checks, s, e).result.Ok? {
      SameProofsEventsExact(s, t);
      NewEvidence(checks, s, e);
      DisputedMembersStay(checks, s, e);
      forall f | f in Evidence(t) ensures GroupComplete(t, f) {
        forall i | 0 <= i < |f.affectedMessageIds| ensures MemberOf(t, f, i) {
          if f == e {
            NewMember(checks, s, e, i);
          } else {
            MemberStays(checks, s, t, f, i);
          }
        }
      }
    }
  }

  /** Without execution and finality nothing can have been disputed. */
  lemma UnexecutedIsUndisputed(checks: Checks, s: State, id: Bytes)
    requires Inv(checks, s) && id in s.messages && !s.messages[id].sourceFinal && s.messages[id].execution.None?
    ensures s.messages[id].reorganization.None?
    ensures s.messages[id].executionProof.None?
  {
    hide SourceOk, AcknowledgementOk, EventsOk, RoutesOk;
    assert MessageOk(checks, s, s.messages[id]);
  }

  lemma RemoveEventsExact(checks: Checks, s: State, chainId: string, transactionHash: Bytes, logIndex: nat)
    requires Inv(checks, s) && EventsExact(s) && RemovesUnexecuted(s, chainId, transactionHash, logIndex)
    ensures EventsExact(RemovePreFinality(s, chainId, transactionHash, logIndex).state)
  {
    hide Inv, KeyOf, EventKey;
    var gone, t := EventKey(chainId, transactionHash, logIndex), RemovePreFinality(s, chainId, transactionHash, logIndex).state;
    if t != s {
      var id := s.events[gone];
      assert Live(s, s.messages.Keys, s.messages.Keys, gone);
      UnexecutedIsUndisputed(checks, s, id);
      forall key | key in t.events ensures Live(t, t.messages.Keys, t.messages.Keys, key) {
        assert Live(s, s.messages.Keys, s.messages.Keys, key);
      }
    }
  }

  lemma RemoveStaysClean(checks: Checks, s: State, chainId: string, transactionHash: Bytes, logIndex: nat)
    requires Inv(checks, s) && Clean(s) && RemovesUnexecuted(s, chainId, transactionHash, logIndex)
    ensures Clean(RemovePreFinality(s, chainId, transactionHash, logIndex).state)
  {
    hide Inv, EventsExact, GroupsComplete, EventKey, StaysNamed;
    var t := RemovePreFinality(s, chainId, transactionHash, logIndex).state;
    RemoveEventsExact(checks, s, chainId, transactionHash, logIndex);
    if t != s {
      var id := s.events[EventKey(chainId, transactionHash, logIndex)];
      if id in s.messages {
        UnexecutedIsUndisputed(checks, s, id);
      }
      forall a | a in s.messages && s.messages[a].reorganization.Some?
        ensures a in t.messages && StaysNamed(s.messages[a], t.messages[a])
      {
        StaysReflexive(s.messages[a]);
      }
      GroupsSurvive(checks, s, t);
    }
  }

  lemma BindRouteStaysClean(checks: Checks, s: State, routeId: string, policy: Bytes)
    requires Inv(checks, s) && Clean(s)
    ensures Clean(BindRoute(s, routeId, policy).state)
  {
    hide Inv, EventsExact, GroupsComplete, StaysNamed;
    var t := BindRoute(s, routeId, policy).state;
    SameProofsEventsExact(s, t);
    forall a | a in s.messages ensures StaysNamed(s.messages[a], t.messages[a]) {
      StaysReflexive(s.messages[a]);
    }
    GroupsSurvive(checks, s, t);
  }

  // Restores.

  predicate Undisputed(s: State) {
    forall id :: id in s.messages ==> s.messages[id].reorganization.None?
  }

  lemma SourceStaysUndisputed(checks: Checks, s: State, e: Envelope, p: SourceProof, c: Option<Certificate>)
    requires Undisputed(s)
    ensures Undisputed(ProjectSource(checks, s, e, p, c).state)
  {
    hide KeyOf, SameSource;
  }

  lemma ExecutionStaysUndisputed(checks: Checks, s: State, r: Execution, p: SourceProof)
    requires Undisputed(s)
    ensures Undisputed(ProjectExecution(checks, s, r, p).state)
  {
    hide KeyOf, ExecutionFits, ExecutionCompatible;
  }

  lemma AcknowledgementStaysUndisputed(checks: Checks, s: State, a: Acknowledgement)
    requires Undisputed(s)
    ensures Undisputed(ProjectAcknowledgement(checks, s, a).state)
    ensures NamesOrphanedCertificate(s, a)
  {
    hide AcknowledgementFits;
  }

  lemma ReplayOneStaysClean(checks: Checks, stage: Stage, s: State, m: Projection)
    requires Sane(checks) && Inv(checks, s) && Clean(s) && Undisputed(s) && ReplayOne(checks, stage, s, m).Some?
    ensures var t := ReplayOne(checks, stage, s, m).value; Inv(checks, t) && Clean(t) && Undisputed(t)
  {
    hide Sane, Inv, Clean, Undisputed, NamesOrphanedCertificate, ProjectSource, ProjectExecution, ProjectAcknowledgement;
    ReplayOneKeeps(checks, stage, s, m);
    match stage
    case Sources =>
      SourceStaysClean(checks, s, m.envelope, m.sourceProof, m.certificate);
      SourceStaysUndisputed(checks, s, m.envelope, m.sourceProof, m.certificate);
    case Executions =>
      if m.execution.Some? {
        ExecutionStaysClean(checks, s, m.execution.value, m.executionProof.value);
        ExecutionStaysUndisputed(checks, s, m.execution.value, m.executionProof.value);
      }
    case Acknowledgements =>
      if m.acknowledgement.Some? {
        AcknowledgementStaysUndisputed(checks, s, m.acknowledgement.value);
        AcknowledgementStaysClean(checks, s, m.acknowledgement.value);
      }
  }

  lemma {:induction false} ReplayStaysClean(checks: Checks, stage: Stage, s: State, snapshot: seq<Projection>)
    requires Sane(checks) && Inv(checks, s) && Clean(s) && Undisputed(s) && Replay(checks, stage, s, snapshot).Some?
    ensures var t := Replay(checks, stage, s, snapshot).value; Inv(checks, t) && Clean(t) && Undisputed(t)
    decreases |snapshot|
  {
    hide Sane, Inv, Clean, Undisputed, ReplayOne;
    if snapshot != [] {
      ReplayOneStaysClean(checks, stage, s, snapshot[0]);
      ReplayStaysClean(checks, stage, ReplayOne(checks, stage, s, snapshot[0]).value, snapshot[1..]);
    }
  }

  lemma {:induction false} ReplayReorganizationsStaysClean(checks: Checks, s: State, order: seq<Reorganization>)
    requires Inv(checks, s) && Clean(s) && ReplayReorganizations(checks, s, order).Some?
    ensures Clean(ReplayReorganizations(checks, s, order).value)
    decreases |order|
  {
    hide Inv, Clean, ProjectReorganization;
    if order != [] {
      ReorganizationKeeps(checks, s, order[0]);
      ReorganizationStaysClean(checks, s, order[0]);
      ReplayReorganizationsStaysClean(checks, ProjectReorganization(checks, s, order[0]).state, order[1..]);
    }
  }

  lemma EmptyIsClean(checks: Checks, routes: map<Bytes, string>)
    requires RoutesOk(routes)
    ensures var s := State(map[], map[], routes); Inv(checks, s) && Clean(s) && Undisputed(s)
  {
    hide RoutesOk, GroupComplete;
    EmptyInv(checks, routes);
    assert Evidence(State(map[], map[], routes)) == {};
  }

  /** Whatever snapshot a restore accepts, the installed state is clean. */
  lemma RebuiltIsClean(checks: Checks, routes: map<Bytes, string>, snapshot: seq<Projection>, order: seq<Reorganization>)
    requires Sane(checks) && RoutesOk(routes) && Rebuild(checks, routes, snapshot, order).Some?
    ensures Clean(Rebuild(checks, routes, snapshot, order).value)
  {
    hide Sane, Inv, Clean, Undisputed, RoutesOk, Replay, ReplayReorganizations, Collect;
    var s0 := State(map[], map[], routes);
    EmptyIsClean(checks, routes);
    ReplayStaysClean(checks, Sources, s0, snapshot);
    var s1 := Replay(checks, Sources, s0, snapshot).value;
    ReplayStaysClean(checks, Executions, s1, snapshot);
    var s2 := Replay(checks, Executions, s1, snapshot).value;
    ReplayStaysClean(checks, Acknowledgements, s2, snapshot);
    ReplayReorganizationsStaysClean(checks, Facts(checks, routes, snapshot).value, order);
  }

  lemma RestoreStaysClean(checks: Checks, s: State, snapshot: seq<Projection>, order: seq<Reorganization>)
    requires Sane(checks) && Inv(checks, s) && Clean(s)
    ensures Clean(RestoreSnapshot(checks, s, snapshot, order).state)
  {
    hide Sane, MessageOk, RoutesOk, Clean, Rebuild;
    if RestoreSnapshot(checks, s, snapshot, order).result.Ok? {
      RebuiltIsClean(checks, s.routes, snapshot, order);
    }
  }

  // Runs.

  predicate CleanRun(checks: Checks, s: State, ops: seq<Op>)
    decreases |ops|
  {
    ops == [] || (CleanOp(s, ops[0]) && CleanRun(checks, Apply(checks, s, ops[0]), ops[1..]))
  }

  lemma StepStaysClean(checks: Checks, s: State, op: Op)
    requires Sane(checks) && Inv(checks, s) && Clean(s) && CleanOp(s, op)
    ensures Clean(Apply(checks, s, op))
  {
    hide Inv, Sane, Clean, BindRoute, ProjectSource, ProjectExecution, ProjectAcknowledgement, ProjectReorganization,
      RemovePreFinality, RestoreSnapshot, RemovesUnexecuted, NamesOrphanedCertificate;
    match op
    case BindRouteOp(routeId, policy) => BindRouteStaysClean(checks, s, routeId, policy);
    case SourceOp(e, p, c) => SourceStaysClean(checks, s, e, p, c);
    case ExecutionOp(r, p) => ExecutionStaysClean(checks, s, r, p);
    case AcknowledgementOp(a) => AcknowledgementStaysClean(checks, s, a);
    case ReorganizationOp(e) => ReorganizationStaysClean(checks, s, e);
    case RemoveOp(chainId, transactionHash, logIndex) => RemoveStaysClean(checks, s, chainId, transactionHash, logIndex);
    case RestoreOp(snapshot, order) => RestoreStaysClean(checks, s, snapshot, order);
  }

  lemma {:induction false} RunStaysClean(checks: Checks, s: State, ops: seq<Op>)
    requires Sane(checks) && Inv(checks, s) && Clean(s) && CleanRun(checks, s, ops)
    ensures Inv(checks, Run(checks, s, ops)) && Clean(Run(checks, s, ops))
    decreases |ops|
  {
    hide Inv, Sane, Clean, Apply, CleanOp, Permanent;
    if ops != [] {
      StepKeeps(checks, s, ops[0]);
      StepStaysClean(checks, s, ops[0]);
      RunStaysClean(checks, Apply(checks, s, ops[0]), ops[1..]);
    }
  }

  /** After any clean run, with evidence told apart by its hashes, the snapshot
      restores the very state it was taken from, in any order of reorganizations. */
  lemma CleanRunsRestore(checks: Checks, ops: seq<Op>, snapshot: seq<Projection>, order: seq<Reorganization>)
    requires Sane(checks) && CleanRun(checks, INITIAL, ops)
    requires var s := Run(checks, INITIAL, ops); Lists(snapshot, s) && HashesUsable(Evidence(s))
    requires Collect(map[], snapshot).Some? ==> Orders(order, Collect(map[], snapshot).value)
    ensures var s := Run(checks, INITIAL, ops);
            RestoreSnapshot(checks, State(map[], map[], s.routes), snapshot, order) == Step(s, Ok(Done))
  {
    hide Inv, Sane, Run, CleanRun, Lists, Orders, Collect, HashesUsable, Evidence, EventsExact, GroupComplete, Rebuild;
    var s := Run(checks, INITIAL, ops);
    EmptyIsClean(checks, map[]);
    RunStaysClean(checks, INITIAL, ops);
    RestoresWholeState(checks, s, snapshot, order);
  }

  // The two spoilers do spoil.

  /** An acknowledgement accepted after its execution was disputed, with a certificate
      other than the one the evidence named, leaves a state that cannot be restored. */
  lemma LateAcknowledgementSpoils(checks: Checks, s: State, a: Acknowledgement, i: nat)
    requires Inv(checks, s) && ProjectAcknowledgement(checks, s, a).result.Ok?
    requires a.messageId in s.messages && s.messages[a.messageId].reorganization.Some?
    requires var e := s.messages[a.messageId].reorganization.value;
             && Names(e, i, a.messageId)
             && !SourceAffected(s.messages[a.messageId], e, i)
             && a.finalityCertificate != Some(e.affectedOrphanedFinalityCertificates[i])
    ensures !Replayable(ProjectAcknowledgement(checks, s, a).state)
  {
    hide Inv, AcknowledgementFits, LeadPolicy, Policy, HashesUsable, ExecutionOrphaned;
    var t := ProjectAcknowledgement(checks, s, a).state;
    var e := s.messages[a.messageId].reorganization.value;
    assert t.messages[a.messageId].reorganization == Some(e);
    assert e in Evidence(t);
    assert !MemberOf(t, e, i);
  }

  /** Removing a message while another one is disputed by evidence that names both
      leaves a state that cannot be restored. */
  lemma RemovalSpoils(
    checks: Checks, s: State, chainId: string, transactionHash: Bytes, logIndex: nat, other: Bytes, i: nat)
    requires Inv(checks, s) && RemovePreFinality(s, chainId, transactionHash, logIndex).result.Ok?
    requires var gone := s.events[EventKey(chainId, transactionHash, logIndex)];
             && other in s.messages && other != gone && s.messages[other].reorganization.Some?
             && Names(s.messages[other].reorganization.value, i, gone)
    ensures !Replayable(RemovePreFinality(s, chainId, transactionHash, logIndex).state)
  {
    hide Inv, EventKey, LeadPolicy, Policy, HashesUsable, Affected;
    var t := RemovePreFinality(s, chainId, transactionHash, logIndex).state;
    var e := s.messages[other].reorganization.value;
    assert t.messages[other].reorganization == Some(e);
    assert e in Evidence(t);
    assert !MemberOf(t, e, i);
  }

  /** Removing an executed message by its source event leaves the registration of its
      execution behind: registrations of departed messages are not an invariant. */
  lemma RemovalLeavesStaleEvent(checks: Checks, s: State, id: Bytes)
    requires Inv(checks, s) && id in s.messages && !s.messages[id].sourceFinal && s.messages[id].executionProof.Some?
    requires KeyOf(s.messages[id].sourceProof) != KeyOf(s.messages[id].executionProof.value)
    ensures var p := s.messages[id].sourceProof;
            var t := RemovePreFinality(s, p.sourceChainId, p.transactionHash, p.logIndex).state;
            && KeyOf(s.messages[id].executionProof.value) in t.events
            && id !in t.messages && !EventsExact(t)
  {
    hide SourceOk, ExecutionOk, AcknowledgementOk, DisputeOk, RoutesOk, EventKey;
    assert MessageOk(checks, s, s.messages[id]);
    var p, stale := s.messages[id].sourceProof, KeyOf(s.messages[id].executionProof.value);
    var t := RemovePreFinality(s, p.sourceChainId, p.transactionHash, p.logIndex).state;
    assert stale in t.events && t.events[stale] == id;
    assert !Live(t, t.messages.Keys, t.messages.Keys, stale);
  }
}
