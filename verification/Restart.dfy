/** Restarting the service: the round trip for its own checks, and three
    runs of the service, one that restarts and two that cannot. */
module Restart {
  import opened ByteStrings
  import opened Projector
  import opened ProjectorInvariant
  import opened Restore
  import opened ProjectorRuns
  import opened RoundTrip
  import opened RestoreExact
  import opened CleanRuns
  import opened Boundary
  import opened EvidenceBinding
  import opened Scenario
  import opened RemovalScenario
  import opened ServiceScenario

  /** After any clean run of the service, short of a Keccak accident among the stored
      evidence, restoring the snapshot gives back the state it was taken from. */
  lemma ServiceRestarts(ctx: Context, ops: seq<Op>, snapshot: seq<Projection>, order: seq<Reorganization>)
    requires MarshalInjective(ctx) && CleanRun(ChecksOf(ctx), INITIAL, ops)
    requires var s := Run(ChecksOf(ctx), INITIAL, ops); Lists(snapshot, s) && EvidenceHashesWell(ctx, s)
    requires Collect(map[], snapshot).Some? ==> Orders(order, Collect(map[], snapshot).value)
    ensures var s := Run(ChecksOf(ctx), INITIAL, ops);
            RestoreSnapshot(ChecksOf(ctx), State(map[], map[], s.routes), snapshot, order) == Step(s, Ok(Done))
  {
    hide Inv, Sane, Run, CleanRun, Lists, Orders, Collect, HashesUsable, Evidence, RestoreSnapshot, MarshalInjective,
      EvidenceHashesWell, ChecksOf;
    ChecksAreSane(ctx);
    ReachableInv(ChecksOf(ctx), ops);
    EvidenceHashesAreUsable(ctx, Run(ChecksOf(ctx), INITIAL, ops));
    CleanRunsRestore(ChecksOf(ctx), ops, snapshot, order);
  }

  // Three runs.

  /** Under every hash function and serialization, the service accepts a run that executes
      and disputes a message and then acknowledges it under another certificate. The state
      it ends in satisfies the invariant, and no listing of its messages restores. */
  lemma SomeRunsCannotRestart(
    keccak: Hash, marshal: Reorganization -> Bytes, snapshot: seq<Projection>, order: seq<Reorganization>)
    requires Lists(snapshot, Run(ChecksOf(Service(keccak, marshal)), INITIAL, Steps(TheScript(keccak, marshal))))
    requires Collect(map[], snapshot).Some? ==> Orders(order, Collect(map[], snapshot).value)
    ensures var checks, s := ChecksOf(Service(keccak, marshal)),
                             Run(ChecksOf(Service(keccak, marshal)), INITIAL, Steps(TheScript(keccak, marshal)));
            && Sent(keccak, 7).messageId in s.messages && s.messages[Sent(keccak, 7).messageId].acknowledgement.Some?
            && Inv(checks, s) && !Replayable(s)
            && RestoreSnapshot(checks, State(map[], map[], s.routes), snapshot, order).result.Err?
  {
    hide Inv, Sane, ChecksOf, Service, TheScript, Linked, Accepts, Steps, Lists, Orders, Collect, Rebuild, Replayable;
    var checks, x := ChecksOf(Service(keccak, marshal)), TheScript(keccak, marshal);
    ServiceAccepts(keccak, marshal);
    ScriptIsLinked(keccak, marshal);
    ChecksAreSane(Service(keccak, marshal));
    LateSpoils(checks, x);
    ScriptSends(keccak, marshal);
    RestoreIsExact(checks, Run(checks, INITIAL, Steps(x)), snapshot, order);
  }

  lemma ScriptSends(keccak: Hash, marshal: Reorganization -> Bytes)
    ensures Id(TheScript(keccak, marshal)) == Sent(keccak, 7).messageId
  {
    hide Sent, ProofOn, Executed, Orphaned, Late;
  }

  /** The five steps end in a state that cannot be replayed, under any sane checks that accept them. */
  lemma LateSpoils(checks: Checks, x: Script)
    requires Sane(checks) && Linked(x) && Accepts(checks, x)
    ensures var s := Run(checks, INITIAL, Steps(x));
            && Inv(checks, s) && !Replayable(s)
            && Id(x) in s.messages && s.messages[Id(x)].acknowledgement == Some(x.late)
  {
    hide Inv, Sane, Replayable, Linked, Accepts, AfterDispute, SourceAffected, AcknowledgementFits, Aligned, Names;
    LateFacts(x);
    ReachableInv(checks, Steps(x));
    ReachableInv(checks, Steps(x)[..4]);
    RunsToDispute(checks, x);
    NextStep(checks, Steps(x), 4);
    assert Steps(x)[..5] == Steps(x);
    LateIsAccepted(checks, x);
    LateAcknowledgementSpoils(checks, AfterDispute(x), x.late, 0);
  }

  lemma LateFacts(x: Script)
    requires Linked(x)
    ensures x.late.messageId == Id(x) && 0 < |x.evidence.affectedOrphanedFinalityCertificates|
    ensures x.late.finalityCertificate != Some(x.evidence.affectedOrphanedFinalityCertificates[0])
  {
    hide ExecutionFits, AlignedAt;
  }

  /** Under every hash function that gives two messages different identifiers, the service
      accepts a run that executes two messages, disputes both with one piece of evidence and
      removes one of them. The state satisfies the invariant, and no listing restores. */
  lemma SomeRemovalsCannotRestart(
    keccak: Hash, marshal: Reorganization -> Bytes, snapshot: seq<Projection>, order: seq<Reorganization>)
    requires Sent(keccak, 7).messageId != Sent(keccak, 8).messageId
    requires Lists(snapshot, Run(ChecksOf(Service(keccak, marshal)), INITIAL, TwinSteps(TheTwin(keccak, marshal))))
    requires Collect(map[], snapshot).Some? ==> Orders(order, Collect(map[], snapshot).value)
    ensures var checks, x := ChecksOf(Service(keccak, marshal)), TheTwin(keccak, marshal);
            var s := Run(checks, INITIAL, TwinSteps(x));
            && LegId(x.first) !in s.messages && LegId(x.second) in s.messages
            && s.messages[LegId(x.second)].reorganization == Some(x.evidence)
            && Inv(checks, s) && !Replayable(s)
            && RestoreSnapshot(checks, State(map[], map[], s.routes), snapshot, order).result.Err?
  {
    hide Inv, Sane, ChecksOf, Service, TheTwin, TwinLinked, TwinAccepted, TwinSteps, Run, Lists, Orders, Collect, Rebuild,
      Replayable, Sent;
    var checks, x := ChecksOf(Service(keccak, marshal)), TheTwin(keccak, marshal);
    TwinIsLinked(keccak, marshal);
    ServiceAcceptsTwin(keccak, marshal);
    ChecksAreSane(Service(keccak, marshal));
    RemovalSpoilsRun(checks, x);
    RestoreIsExact(checks, Run(checks, INITIAL, TwinSteps(x)), snapshot, order);
  }

  /** The first run without the late acknowledgement is clean. It ends with the message
      disputed, it meets the conditions of a restart, and its snapshot restores: provided
      only that the evidence does not hash to zero, which the code treats as absent. */
  lemma SomeRunsRestart(keccak: Hash, marshal: Reorganization -> Bytes)
    requires Orphaned(keccak, marshal, [7]).evidenceHash != ZERO32
    ensures var ctx, ops := Service(keccak, marshal), Steps(TheScript(keccak, marshal))[..4];
            var s, id := Run(ChecksOf(ctx), INITIAL, ops), Sent(keccak, 7).messageId;
            && id in s.messages && s.messages[id].disputed
            && CleanRun(ChecksOf(ctx), INITIAL, ops) && Lists([s.messages[id]], s) && EvidenceHashesWell(ctx, s)
            && RestoreSnapshot(ChecksOf(ctx), State(map[], map[], s.routes), [s.messages[id]],
                               [Orphaned(keccak, marshal, [7])])
               == Step(s, Ok(Done))
  {
    hide Inv, Sane, ChecksOf, Service, TheScript, Linked, Accepts, AfterDispute, Lists, Collect, Evidence,
      RestoreSnapshot, Orphaned, CleanRun, EvidenceBlob, Sent, Run;
    var ctx, x := Service(keccak, marshal), TheScript(keccak, marshal);
    ServiceAccepts(keccak, marshal);
    ScriptIsLinked(keccak, marshal);
    ScriptSends(keccak, marshal);
    ScriptEvidence(keccak, marshal);
    ChecksAreSane(ctx);
    RunsToDispute(ChecksOf(ctx), x);
    QuietRunsAreClean(ChecksOf(ctx), INITIAL, Steps(x)[..4]);
    DisputeListing(x);
    SingleOrder(x.evidence);
    ReachableInv(ChecksOf(ctx), Steps(x)[..4]);
    StoredEvidencePassed(ctx, AfterDispute(x), x.evidence);
    CleanRunsRestore(ChecksOf(ctx), Steps(x)[..4], [AfterDispute(x).messages[Id(x)]], [x.evidence]);
  }

  lemma ScriptEvidence(keccak: Hash, marshal: Reorganization -> Bytes)
    ensures TheScript(keccak, marshal).evidence == Orphaned(keccak, marshal, [7])
    ensures |Orphaned(keccak, marshal, [7]).evidenceHash| == 32
    ensures Service(keccak, marshal).keccak == keccak
  {
    hide LegOf, Unhashed, Late, EvidenceBlob;
  }

  lemma SingleOrder(e: Reorganization)
    ensures Orders([e], map[e.evidenceHash := e])
  {
    assert map[e.evidenceHash := e][e.evidenceHash] == e;
  }
}
