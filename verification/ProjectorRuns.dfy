/** Safety over whole runs of the projector, restores included. */
module ProjectorRuns {
  import opened ByteStrings
  import opened Envelope
  import opened Projector
  import opened ProjectorInvariant
  import opened Restore

  datatype Op =
    | BindRouteOp(routeId: string, policy: Bytes)
    | SourceOp(envelope: Envelope, proof: SourceProof, certificate: Option<Certificate>)
    | ExecutionOp(execution: Execution, proof: SourceProof)
    | AcknowledgementOp(acknowledgement: Acknowledgement)
    | ReorganizationOp(evidence: Reorganization)
    | RemoveOp(chainId: string, transactionHash: Bytes, logIndex: nat)
    | RestoreOp(snapshot: seq<Projection>, order: seq<Reorganization>)

  function Apply(checks: Checks, s: State, op: Op): State {
    match op
    case BindRouteOp(routeId, policy) => BindRoute(s, routeId, policy).state
    case SourceOp(e, p, c) => ProjectSource(checks, s, e, p, c).state
    case ExecutionOp(r, p) => ProjectExecution(checks, s, r, p).state
    case AcknowledgementOp(a) => ProjectAcknowledgement(checks, s, a).state
    case ReorganizationOp(e) => ProjectReorganization(checks, s, e).state
    case RemoveOp(chainId, transactionHash, logIndex) => RemovePreFinality(s, chainId, transactionHash, logIndex).state
    case RestoreOp(snapshot, order) => RestoreSnapshot(checks, s, snapshot, order).state
  }

  function Run(checks: Checks, s: State, ops: seq<Op>): State
    decreases |ops|
  {
    if ops == [] then s else Run(checks, Apply(checks, s, ops[0]), ops[1..])
  }

  const INITIAL := State(map[], map[], map[])

  // Replays are themselves runs.

  lemma ReplayOneKeeps(checks: Checks, stage: Stage, s: State, m: Projection)
    requires Sane(checks) && Inv(checks, s) && ReplayOne(checks, stage, s, m).Some?
    ensures Inv(checks, ReplayOne(checks, stage, s, m).value)
    ensures Grows(s, ReplayOne(checks, stage, s, m).value)
  {
    hide Inv, Sane, Grows, ProjectSource, ProjectExecution, ProjectAcknowledgement;
    GrowsReflexive(s);
    match stage
    case Sources => SourceKeeps(checks, s, m.envelope, m.sourceProof, m.certificate);
    case Executions =>
      if m.execution.Some? && m.executionProof.Some? {
        ExecutionKeeps(checks, s, m.execution.value, m.executionProof.value);
      }
    case Acknowledgements =>
      if m.acknowledgement.Some? {
        AcknowledgementKeeps(checks, s, m.acknowledgement.value);
      }
  }

  lemma {:induction false} ReplayKeeps(checks: Checks, stage: Stage, s: State, snapshot: seq<Projection>)
    requires Sane(checks) && Inv(checks, s) && Replay(checks, stage, s, snapshot).Some?
    ensures Inv(checks, Replay(checks, stage, s, snapshot).value)
    ensures Grows(s, Replay(checks, stage, s, snapshot).value)
    decreases |snapshot|
  {
    hide Inv, Sane, Grows, ReplayOne;
    GrowsReflexive(s);
    if snapshot != [] {
      var t := ReplayOne(checks, stage, s, snapshot[0]).value;
      ReplayOneKeeps(checks, stage, s, snapshot[0]);
      ReplayKeeps(checks, stage, t, snapshot[1..]);
      GrowsTransitive(s, t, Replay(checks, stage, s, snapshot).value);
    }
  }

  lemma {:induction false} ReplayReorganizationsKeeps(checks: Checks, s: State, order: seq<Reorganization>)
    requires Inv(checks, s) && ReplayReorganizations(checks, s, order).Some?
    ensures Inv(checks, ReplayReorganizations(checks, s, order).value)
    ensures Grows(s, ReplayReorganizations(checks, s, order).value)
    decreases |order|
  {
    hide Inv, Grows, ProjectReorganization;
    GrowsReflexive(s);
    if order != [] {
      var t := ProjectReorganization(checks, s, order[0]).state;
      ReorganizationKeeps(checks, s, order[0]);
      ReplayReorganizationsKeeps(checks, t, order[1..]);
      GrowsTransitive(s, t, ReplayReorganizations(checks, s, order).value);
    }
  }

  lemma FactsKeep(checks: Checks, routes: map<Bytes, string>, snapshot: seq<Projection>)
    requires Sane(checks) && RoutesOk(routes) && Facts(checks, routes, snapshot).Some?
    ensures Inv(checks, Facts(checks, routes, snapshot).value)
  {
    hide Inv, Sane, Grows, Replay;
    var s0 := State(map[], map[], routes);
    assert Inv(checks, s0) by { EmptyInv(checks, routes); }
    ReplayKeeps(checks, Sources, s0, snapshot);
    var s1 := Replay(checks, Sources, s0, snapshot).value;
    ReplayKeeps(checks, Executions, s1, snapshot);
    var s2 := Replay(checks, Executions, s1, snapshot).value;
    ReplayKeeps(checks, Acknowledgements, s2, snapshot);
  }

  lemma EmptyInv(checks: Checks, routes: map<Bytes, string>)
    requires RoutesOk(routes)
    ensures Inv(checks, State(map[], map[], routes))
  {
  }

  lemma RebuildKeeps(checks: Checks, routes: map<Bytes, string>, snapshot: seq<Projection>, order: seq<Reorganization>)
    requires Sane(checks) && RoutesOk(routes) && Rebuild(checks, routes, snapshot, order).Some?
    ensures Inv(checks, Rebuild(checks, routes, snapshot, order).value)
  {
    hide Inv, Sane, Grows, RoutesOk, Facts;
    FactsKeep(checks, routes, snapshot);
    ReplayReorganizationsKeeps(checks, Facts(checks, routes, snapshot).value, order);
  }

  lemma RestoreKeeps(checks: Checks, s: State, snapshot: seq<Projection>, order: seq<Reorganization>)
    requires Sane(checks) && Inv(checks, s)
    ensures Inv(checks, RestoreSnapshot(checks, s, snapshot, order).state)
    ensures s.messages != map[] ==> RestoreSnapshot(checks, s, snapshot, order).state == s
  {
    hide MessageOk, RoutesOk, Sane, Rebuild;
    if RestoreSnapshot(checks, s, snapshot, order).result.Ok? {
      RebuildKeeps(checks, s.routes, snapshot, order);
    }
  }

  // Theorems about every run.

  /** One step keeps the invariant and never removes or rewrites a final message. */
  predicate Permanent(s: State, t: State) {
    forall id :: id in s.messages && s.messages[id].sourceFinal ==>
      id in t.messages && t.messages[id].sourceFinal && Evolves(s.messages[id], t.messages[id])
  }

  lemma GrowsIsPermanent(s: State, t: State)
    requires Grows(s, t)
    ensures Permanent(s, t)
  {
  }

  lemma RemoveIsPermanent(checks: Checks, s: State, chainId: string, transactionHash: Bytes, logIndex: nat)
    requires Inv(checks, s)
    ensures Permanent(s, RemovePreFinality(s, chainId, transactionHash, logIndex).state)
  {
    hide Inv, Evolves, RemovePreFinality;
    RemoveKeeps(checks, s, chainId, transactionHash, logIndex);
    var t := RemovePreFinality(s, chainId, transactionHash, logIndex).state;
    forall id | id in s.messages && s.messages[id].sourceFinal
      ensures id in t.messages && t.messages[id].sourceFinal && Evolves(s.messages[id], t.messages[id])
    {
      EvolvesReflexive(s.messages[id]);
    }
  }

  lemma StepKeeps(checks: Checks, s: State, op: Op)
    requires Sane(checks) && Inv(checks, s)
    ensures Inv(checks, Apply(checks, s, op))
    ensures Permanent(s, Apply(checks, s, op))
    ensures !op.RemoveOp? && !op.RestoreOp? ==> Grows(s, Apply(checks, s, op))
  {
    hide Inv, Sane, Grows, Permanent, BindRoute, ProjectSource, ProjectExecution, ProjectAcknowledgement,
      ProjectReorganization, RemovePreFinality, RestoreSnapshot;
    var t := Apply(checks, s, op);
    match op
    case BindRouteOp(routeId, policy) => BindRouteKeeps(checks, s, routeId, policy); GrowsIsPermanent(s, t);
    case SourceOp(e, p, c) => SourceKeeps(checks, s, e, p, c); GrowsIsPermanent(s, t);
    case ExecutionOp(r, p) => ExecutionKeeps(checks, s, r, p); GrowsIsPermanent(s, t);
    case AcknowledgementOp(a) => AcknowledgementKeeps(checks, s, a); GrowsIsPermanent(s, t);
    case ReorganizationOp(e) => ReorganizationKeeps(checks, s, e); GrowsIsPermanent(s, t);
    case RemoveOp(chainId, transactionHash, logIndex) =>
      RemoveKeeps(checks, s, chainId, transactionHash, logIndex);
      RemoveIsPermanent(checks, s, chainId, transactionHash, logIndex);
    case RestoreOp(snapshot, order) =>
      RestoreKeeps(checks, s, snapshot, order);
      RestoreIsPermanent(checks, s, snapshot, order);
  }

  lemma RestoreIsPermanent(checks: Checks, s: State, snapshot: seq<Projection>, order: seq<Reorganization>)
    requires Sane(checks) && Inv(checks, s)
    ensures Permanent(s, RestoreSnapshot(checks, s, snapshot, order).state)
  {
    hide Inv, Sane, RestoreSnapshot, Grows;
    RestoreKeeps(checks, s, snapshot, order);
    if s.messages != map[] {
      GrowsReflexive(s);
      GrowsIsPermanent(s, s);
    }
  }

  lemma PermanentTransitive(s: State, t: State, u: State)
    requires Permanent(s, t) && Permanent(t, u)
    ensures Permanent(s, u)
  {
    hide Evolves;
    forall id | id in s.messages && s.messages[id].sourceFinal
      ensures id in u.messages && u.messages[id].sourceFinal && Evolves(s.messages[id], u.messages[id])
    {
      EvolvesTransitive(s.messages[id], t.messages[id], u.messages[id]);
    }
  }

  /** Over every run of every operation: the invariant holds, and what was final
      is present, final and evolves only by filling what was empty. */
  lemma {:induction false} RunKeeps(checks: Checks, s: State, ops: seq<Op>)
    requires Sane(checks) && Inv(checks, s)
    ensures Inv(checks, Run(checks, s, ops))
    ensures Permanent(s, Run(checks, s, ops))
    decreases |ops|
  {
    hide Inv, Sane, Permanent, Apply;
    if ops == [] {
      GrowsReflexive(s);
      GrowsIsPermanent(s, s);
    } else {
      var t := Apply(checks, s, ops[0]);
      StepKeeps(checks, s, ops[0]);
      RunKeeps(checks, t, ops[1..]);
      PermanentTransitive(s, t, Run(checks, s, ops));
    }
  }

  /** Every state reachable from an empty projector satisfies the invariant. */
  lemma ReachableInv(checks: Checks, ops: seq<Op>)
    requires Sane(checks)
    ensures Inv(checks, Run(checks, INITIAL, ops))
  {
    hide Inv, Run;
    EmptyInv(checks, map[]);
    RunKeeps(checks, INITIAL, ops);
  }

  // Messages that stay.

  /** Whatever the operation, a message that is still there has only been added to. */
  lemma StepEvolves(checks: Checks, s: State, op: Op, id: Bytes)
    requires Sane(checks) && Inv(checks, s) && id in s.messages && id in Apply(checks, s, op).messages
    ensures Evolves(s.messages[id], Apply(checks, s, op).messages[id])
  {
    hide Inv, Sane, Evolves, BindRoute, ProjectSource, ProjectExecution, ProjectAcknowledgement,
      ProjectReorganization, RemovePreFinality, RestoreSnapshot;
    EvolvesReflexive(s.messages[id]);
    StepKeeps(checks, s, op);
    match op
    case RemoveOp(chainId, transactionHash, logIndex) => RemoveKeeps(checks, s, chainId, transactionHash, logIndex);
    case RestoreOp(snapshot, order) => RestoreKeeps(checks, s, snapshot, order);
    case _ =>
  }

  /** The message is present throughout the run. */
  predicate StaysPresent(checks: Checks, s: State, ops: seq<Op>, id: Bytes)
    decreases |ops|
  {
    id in s.messages && (ops == [] || StaysPresent(checks, Apply(checks, s, ops[0]), ops[1..], id))
  }

  /** While a message is present, final or not, its identity, execution, acknowledgement
      and dispute are write-once, over any run. */
  lemma {:induction false} WriteOnceWhilePresent(checks: Checks, s: State, ops: seq<Op>, id: Bytes)
    requires Sane(checks) && Inv(checks, s) && StaysPresent(checks, s, ops, id)
    ensures id in Run(checks, s, ops).messages
    ensures Evolves(s.messages[id], Run(checks, s, ops).messages[id])
    decreases |ops|
  {
    hide Inv, Sane, Evolves, Apply, Permanent;
    if ops == [] {
      EvolvesReflexive(s.messages[id]);
    } else {
      var t := Apply(checks, s, ops[0]);
      assert id in t.messages;
      StepKeeps(checks, s, ops[0]);
      StepEvolves(checks, s, ops[0], id);
      WriteOnceWhilePresent(checks, t, ops[1..], id);
      EvolvesTransitive(s.messages[id], t.messages[id], Run(checks, s, ops).messages[id]);
    }
  }
}
