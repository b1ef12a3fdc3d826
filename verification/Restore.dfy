/** Rebuilding a projector from a snapshot by replaying every authenticated
    boundary in four stages: sources, executions, acknowledgements and finally
    reorganizations. */
module Restore {
  import opened ByteStrings
  import opened Projector

  datatype Stage = Sources | Executions | Acknowledgements

  /** Replays the part of one snapshot entry that belongs to the stage. */
  function ReplayOne(checks: Checks, stage: Stage, s: State, m: Projection): Option<State> {
    match stage
    case Sources => ReplaySource(checks, s, m)
    case Executions => ReplayExecution(checks, s, m)
    case Acknowledgements => ReplayAcknowledgement(checks, s, m)
  }

  function ReplaySource(checks: Checks, s: State, m: Projection): Option<State> {
    var step := ProjectSource(checks, s, m.envelope, m.sourceProof, m.certificate);
    if step.result.Ok? && step.result.value.sourceFinal == m.sourceFinal
       && step.result.value.sourceEvidenceHash == m.sourceEvidenceHash
    then Some(step.state)
    else None
  }

  function ReplayExecution(checks: Checks, s: State, m: Projection): Option<State> {
    if m.execution.None? then
      Some(s)
    else if m.executionProof.None? then
      None
    else
      var step := ProjectExecution(checks, s, m.execution.value, m.executionProof.value);
      if step.result.Ok? && step.result.value.executionEvidenceHash == m.executionEvidenceHash
      then Some(step.state)
      else None
  }

  function ReplayAcknowledgement(checks: Checks, s: State, m: Projection): Option<State> {
    if m.acknowledgement.None? then
      Some(s)
    else
      var step := ProjectAcknowledgement(checks, s, m.acknowledgement.value);
      if step.result.Ok? then Some(step.state) else None
  }

  function Replay(checks: Checks, stage: Stage, s: State, snapshot: seq<Projection>): Option<State>
    decreases |snapshot|
  {
    if snapshot == [] then
      Some(s)
    else
      match ReplayOne(checks, stage, s, snapshot[0])
      case None => None
      case Some(t) => Replay(checks, stage, t, snapshot[1..])
  }

  function Fixed32(b: Bytes): Bytes {
    if |b| == 32 then b else ZERO32
  }

  /** Dispute, evidence and incident must come together, under a usable hash that
      no other evidence of the snapshot has. */
  predicate CollectOne(collected: map<Bytes, Reorganization>, m: Projection) {
    if m.disputed && m.reorganization.Some? && m.incident.Some? then
      var hash := Fixed32(m.reorganization.value.evidenceHash);
      hash != ZERO32 && (hash in collected ==> collected[hash] == m.reorganization.value)
    else
      !m.disputed && m.reorganization.None? && m.incident.None?
  }

  function Collected(collected: map<Bytes, Reorganization>, m: Projection): map<Bytes, Reorganization> {
    if m.reorganization.Some?
    then collected[Fixed32(m.reorganization.value.evidenceHash) := m.reorganization.value]
    else collected
  }

  /** The distinct reorganizations of a snapshot by evidence hash. */
  function Collect(collected: map<Bytes, Reorganization>, snapshot: seq<Projection>)
    : Option<map<Bytes, Reorganization>>
    decreases |snapshot|
  {
    if snapshot == [] then
      Some(collected)
    else if CollectOne(collected, snapshot[0]) then
      Collect(Collected(collected, snapshot[0]), snapshot[1..])
    else
      None
  }

  function ReplayReorganizations(checks: Checks, s: State, order: seq<Reorganization>): Option<State>
    decreases |order|
  {
    if order == [] then
      Some(s)
    else
      var step := ProjectReorganization(checks, s, order[0]);
      if step.result.Ok? then ReplayReorganizations(checks, step.state, order[1..]) else None
  }

  /** Every entry of the snapshot is reproduced exactly. */
  predicate Reproduces(s: State, snapshot: seq<Projection>) {
    forall i :: 0 <= i < |snapshot| ==>
      snapshot[i].messageId in s.messages && s.messages[snapshot[i].messageId] == snapshot[i]
  }

  /** The order in which reorganizations are replayed lists each exactly once. */
  predicate Orders(order: seq<Reorganization>, collected: map<Bytes, Reorganization>) {
    && NoRepeats(order)
    && (forall i :: 0 <= i < |order| ==> order[i] in collected.Values)
    && (forall hash :: hash in collected ==> collected[hash] in order)
  }

  function Facts(checks: Checks, routes: map<Bytes, string>, snapshot: seq<Projection>): Option<State> {
    match Replay(checks, Sources, State(map[], map[], routes), snapshot)
    case None => None
    case Some(s1) =>
      match Replay(checks, Executions, s1, snapshot)
      case None => None
      case Some(s2) => Replay(checks, Acknowledgements, s2, snapshot)
  }

  /** The state rebuilt from the snapshot, replaying reorganizations in the given order. */
  function Rebuild(checks: Checks, routes: map<Bytes, string>, snapshot: seq<Projection>, order: seq<Reorganization>)
    : Option<State>
  {
    match Facts(checks, routes, snapshot)
    case None => None
    case Some(s3) =>
      if Collect(map[], snapshot).None? then
        None
      else
        match ReplayReorganizations(checks, s3, order)
        case None => None
        case Some(s4) => if Reproduces(s4, snapshot) then Some(s4) else None
  }

  predicate Empty(s: State) {
    s.messages == map[] && s.events == map[]
  }

  /** An occupied projector refuses; a failed rebuild changes nothing. */
  function RestoreSnapshot(checks: Checks, s: State, snapshot: seq<Projection>, order: seq<Reorganization>): Step<Done> {
    if !Empty(s) then
      Step(s, Err(Conflict))
    else
      match Rebuild(checks, s.routes, snapshot, order)
      case None => Step(s, Err(Conflict))
      case Some(t) => Step(t, Ok(Done))
  }
}
