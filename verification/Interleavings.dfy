/** The two operations that read, work unlocked and then commit: executions and
    restores. Every interleaving of them with any other operations has the effect
    of running each successful one whole, at its commit. */
module Interleavings {
  import opened ByteStrings
  import opened Projector
  import opened ProjectorInvariant
  import opened Restore
  import opened ProjectorRuns

  /** A caller between its first read and its commit. */
  datatype Thread =
    | Executing(execution: Execution, proof: SourceProof, pending: Pending)
    | Restoring(snapshot: seq<Projection>, order: seq<Reorganization>, routes: map<Bytes, string>, rebuilt: State)

  datatype System = System(shared: State, threads: map<nat, Thread>)

  datatype Action =
    | Do(op: Op)
    | Begin(thread: nat, execution: Execution, proof: SourceProof)
    | BeginRestore(thread: nat, snapshot: seq<Projection>, order: seq<Reorganization>)
    | Commit(thread: nat)

  /** Two route tables agree when they have equally many entries and every binding of
      the first is found in the second, a missing one reading as empty. */
  predicate SameRouteBindings(left: map<Bytes, string>, right: map<Bytes, string>) {
    |left| == |right| && forall policy :: policy in left ==>
      left[policy] == if policy in right then right[policy] else ""
  }

  /** The locked half of a restore. */
  function CommitRestore(s: State, routes: map<Bytes, string>, rebuilt: State): Step<Done> {
    if Empty(s) && SameRouteBindings(s.routes, routes) then Step(rebuilt, Ok(Done)) else Step(s, Err(Conflict))
  }

  function CommitState(s: State, thread: Thread): State {
    match thread
    case Executing(r, p, pending) => CommitExecution(s, pending, r, p).state
    case Restoring(snapshot, order, routes, rebuilt) => CommitRestore(s, routes, rebuilt).state
  }

  function Next(checks: Checks, c: System, action: Action): System {
    match action
    case Do(op) => c.(shared := Apply(checks, c.shared, op))
    case Begin(thread, r, p) =>
      (match BeginExecution(checks, c.shared, r, p)
       case Err(_) => c
       case Ok(pending) => c.(threads := c.threads[thread := Executing(r, p, pending)]))
    case BeginRestore(thread, snapshot, order) =>
      if !Empty(c.shared) then
        c
      else
        (match Rebuild(checks, c.shared.routes, snapshot, order)
         case None => c
         case Some(t) => c.(threads := c.threads[thread := Restoring(snapshot, order, c.shared.routes, t)]))
    case Commit(thread) =>
      if thread in c.threads
      then System(CommitState(c.shared, c.threads[thread]), c.threads - {thread})
      else c
  }

  /** The operations that an action stands for when run whole. */
  function Whole(c: System, action: Action): seq<Op> {
    match action
    case Do(op) => [op]
    case Begin(_, _, _) => []
    case BeginRestore(_, _, _) => []
    case Commit(thread) => if thread in c.threads then WholeCommit(c.shared, c.threads[thread]) else []
  }

  function WholeCommit(s: State, thread: Thread): seq<Op> {
    match thread
    case Executing(r, p, pending) => if CommitExecution(s, pending, r, p).result.Ok? then [ExecutionOp(r, p)] else []
    case Restoring(snapshot, order, routes, rebuilt) =>
      if CommitRestore(s, routes, rebuilt).result.Ok? then [RestoreOp(snapshot, order)] else []
  }

  // What a thread knows.

  ghost predicate ThreadOk(checks: Checks, thread: Thread) {
    match thread
    case Executing(r, p, pending) => Begun(checks, pending, r, p)
    case Restoring(snapshot, order, routes, rebuilt) => Rebuild(checks, routes, snapshot, order) == Some(rebuilt)
  }

  ghost predicate SystemOk(checks: Checks, c: System) {
    Inv(checks, c.shared) && forall thread :: thread in c.threads ==> ThreadOk(checks, c.threads[thread])
  }

  // Commits are whole operations.

  lemma MessageChain(checks: Checks, s: State, id: Bytes)
    requires Inv(checks, s) && id in s.messages
    ensures s.messages[id].destinationChainId == s.messages[id].envelope.destinationChainId
  {
    hide ExecutionOk, AcknowledgementOk, EventsOk, RoutesOk, DisputeOk;
    assert MessageOk(checks, s, s.messages[id]);
  }

  /** A commit that succeeds gives the state and the answer of the whole operation at
      that moment, whatever happened since it began. */
  lemma CommitIsWholeExecution(checks: Checks, s: State, pending: Pending, r: Execution, p: SourceProof)
    requires Inv(checks, s) && Begun(checks, pending, r, p)
    requires CommitExecution(s, pending, r, p).result.Ok?
    ensures ProjectExecution(checks, s, r, p) == CommitExecution(s, pending, r, p)
  {
    hide Inv, KeyOf, ExecutionFits, ExecutionCompatible, WithExecution;
    MessageChain(checks, s, r.messageId);
  }

  /** A commit that fails does so exactly where the whole operation would fail too,
      unless the message was replaced by one with another envelope. */
  lemma FailedCommit(checks: Checks, s: State, pending: Pending, r: Execution, p: SourceProof)
    requires Inv(checks, s) && Begun(checks, pending, r, p)
    requires CommitExecution(s, pending, r, p).result.Err?
    ensures CommitExecution(s, pending, r, p) == Step(s, Err(Conflict))
    ensures (r.messageId in s.messages && s.messages[r.messageId].envelope != pending.envelope)
            || ProjectExecution(checks, s, r, p) == Step(s, Err(Conflict))
  {
    hide Inv, KeyOf, ExecutionFits, ExecutionCompatible, WithExecution;
    if r.messageId in s.messages {
      MessageChain(checks, s, r.messageId);
    }
  }

  lemma SubsetOfSameSize(a: set<Bytes>, b: set<Bytes>)
    requires a <= b && |a| == |b|
    ensures a == b
  {
    var rest := b - a;
    assert b == a + rest;
    assert |rest| == |b| - |a|;
  }

  /** Because no route is bound to the empty name, the comparison is equality. */
  lemma SameRouteBindingsIsEquality(left: map<Bytes, string>, right: map<Bytes, string>)
    requires RoutesOk(left)
    ensures SameRouteBindings(left, right) <==> left == right
  {
    if SameRouteBindings(left, right) {
      assert left.Keys <= right.Keys;
      assert |left.Keys| == |left| && |right.Keys| == |right|;
      SubsetOfSameSize(left.Keys, right.Keys);
    }
  }

  lemma CommitIsWholeRestore(
    checks: Checks, s: State, snapshot: seq<Projection>, order: seq<Reorganization>,
    routes: map<Bytes, string>, rebuilt: State)
    requires Inv(checks, s) && Rebuild(checks, routes, snapshot, order) == Some(rebuilt)
    ensures CommitRestore(s, routes, rebuilt).result.Ok? ==>
              RestoreSnapshot(checks, s, snapshot, order) == CommitRestore(s, routes, rebuilt)
    ensures CommitRestore(s, routes, rebuilt).result.Err? ==>
              s.routes != routes || RestoreSnapshot(checks, s, snapshot, order) == CommitRestore(s, routes, rebuilt)
  {
    hide Inv, Rebuild, SameRouteBindings, RoutesOk;
    InvRoutes(checks, s);
    SameRouteBindingsIsEquality(s.routes, routes);
  }

  lemma {:induction false} RunOne(checks: Checks, s: State, op: Op)
    ensures Run(checks, s, [op]) == Apply(checks, s, op)
  {
    assert [op][1..] == [];
    assert Run(checks, Apply(checks, s, op), []) == Apply(checks, s, op);
  }

  lemma CommitRefines(checks: Checks, s: State, thread: Thread)
    requires Inv(checks, s) && ThreadOk(checks, thread)
    ensures CommitState(s, thread) == Run(checks, s, WholeCommit(s, thread))
  {
    hide Inv, CommitExecution, CommitRestore, ProjectExecution, RestoreSnapshot, Begun, Rebuild;
    match thread
    case Executing(r, p, pending) =>
      if CommitExecution(s, pending, r, p).result.Ok? {
        CommitIsWholeExecution(checks, s, pending, r, p);
        RunOne(checks, s, ExecutionOp(r, p));
      } else {
        FailedCommit(checks, s, pending, r, p);
      }
    case Restoring(snapshot, order, routes, rebuilt) =>
      CommitIsWholeRestore(checks, s, snapshot, order, routes, rebuilt);
      FailedRestore(s, routes, rebuilt);
      RunOne(checks, s, RestoreOp(snapshot, order));
  }

  lemma FailedRestore(s: State, routes: map<Bytes, string>, rebuilt: State)
    ensures CommitRestore(s, routes, rebuilt).result.Err? ==> CommitRestore(s, routes, rebuilt).state == s
  {
  }

  lemma ActionRefines(checks: Checks, c: System, action: Action)
    requires Sane(checks) && SystemOk(checks, c)
    ensures Next(checks, c, action).shared == Run(checks, c.shared, Whole(c, action))
  {
    hide Sane, Inv, ThreadOk, CommitState, WholeCommit, Apply, BeginExecution, Rebuild, Run;
    match action
    case Do(op) => RunOne(checks, c.shared, op);
    case Begin(_, _, _) => RunNone(checks, c.shared);
    case BeginRestore(_, _, _) => RunNone(checks, c.shared);
    case Commit(thread) =>
      RunNone(checks, c.shared);
      if thread in c.threads {
        CommitRefines(checks, c.shared, c.threads[thread]);
      }
  }

  lemma RunNone(checks: Checks, s: State)
    ensures Run(checks, s, []) == s
  {
  }

  lemma ActionKeeps(checks: Checks, c: System, action: Action)
    requires Sane(checks) && SystemOk(checks, c)
    ensures SystemOk(checks, Next(checks, c, action))
  {
    hide Sane, Inv, CommitState, WholeCommit, Apply, BeginExecution, Rebuild, Run, Begun, Permanent;
    ActionRefines(checks, c, action);
    RunKeeps(checks, c.shared, Whole(c, action));
    match action
    case Begin(thread, r, p) =>
      if BeginExecution(checks, c.shared, r, p).Ok? {
        BeginEstablishes(checks, c.shared, r, p);
      }
    case _ =>
  }

  // Whole interleavings.

  function Execute(checks: Checks, c: System, actions: seq<Action>): System
    decreases |actions|
  {
    if actions == [] then c else Execute(checks, Next(checks, c, actions[0]), actions[1..])
  }

  /** The sequential run an interleaving amounts to. */
  function Linearization(checks: Checks, c: System, actions: seq<Action>): seq<Op>
    decreases |actions|
  {
    if actions == [] then []
    else Whole(c, actions[0]) + Linearization(checks, Next(checks, c, actions[0]), actions[1..])
  }

  lemma {:induction false} RunConcat(checks: Checks, s: State, a: seq<Op>, b: seq<Op>)
    ensures Run(checks, s, a + b) == Run(checks, Run(checks, s, a), b)
    decreases |a|
  {
    hide Apply;
    if a == [] {
      assert a + b == b;
    } else {
      assert (a + b)[0] == a[0] && (a + b)[1..] == a[1..] + b;
      RunConcat(checks, Apply(checks, s, a[0]), a[1..], b);
    }
  }

  /** Every interleaving reaches the state of its linearization. */
  lemma {:induction false} InterleavingsLinearize(checks: Checks, c: System, actions: seq<Action>)
    requires Sane(checks) && SystemOk(checks, c)
    ensures Execute(checks, c, actions).shared == Run(checks, c.shared, Linearization(checks, c, actions))
    ensures SystemOk(checks, Execute(checks, c, actions))
    decreases |actions|
  {
    hide Sane, SystemOk, Next, Whole, Run;
    if actions == [] {
      RunNone(checks, c.shared);
    } else {
      var d := Next(checks, c, actions[0]);
      ActionRefines(checks, c, actions[0]);
      ActionKeeps(checks, c, actions[0]);
      InterleavingsLinearize(checks, d, actions[1..]);
      RunConcat(checks, c.shared, Whole(c, actions[0]), Linearization(checks, d, actions[1..]));
    }
  }

  /** Finality is permanent in every interleaving. */
  lemma FinalityUnderInterleaving(checks: Checks, c: System, actions: seq<Action>)
    requires Sane(checks) && SystemOk(checks, c)
    ensures Permanent(c.shared, Execute(checks, c, actions).shared)
  {
    hide Sane, Inv, Permanent, Run, Execute, Linearization, ThreadOk;
    InterleavingsLinearize(checks, c, actions);
    RunKeeps(checks, c.shared, Linearization(checks, c, actions));
  }
}
