/** What a restore guarantees for an arbitrary list of projections. */
module RestoreSound {
  import opened ByteStrings
  import opened Projector
  import opened ProjectorInvariant
  import opened Restore
  import opened ProjectorRuns
  import opened RoundTrip
  import opened RestoreExact
  import opened CleanRuns

  function EnvelopeIds(snapshot: seq<Projection>): set<Bytes> {
    set i | 0 <= i < |snapshot| :: snapshot[i].envelope.messageId
  }

  lemma EnvelopeIdsCons(snapshot: seq<Projection>)
    requires snapshot != []
    ensures EnvelopeIds(snapshot) == {snapshot[0].envelope.messageId} + EnvelopeIds(snapshot[1..])
  {
    var rest := snapshot[1..];
    forall i | 0 <= i < |rest| ensures rest[i] == snapshot[i + 1] {
    }
    forall id | id in EnvelopeIds(snapshot) ensures id in {snapshot[0].envelope.messageId} + EnvelopeIds(rest) {
      var i :| 0 <= i < |snapshot| && snapshot[i].envelope.messageId == id;
      if i > 0 {
        assert rest[i - 1].envelope.messageId == id;
      }
    }
  }

  /** Only the source stage adds messages, and each entry adds its own. */
  lemma ReplayOneKeys(checks: Checks, stage: Stage, s: State, m: Projection)
    requires ReplayOne(checks, stage, s, m).Some?
    ensures ReplayOne(checks, stage, s, m).value.messages.Keys
            == s.messages.Keys + if stage.Sources? then {m.envelope.messageId} else {}
    ensures ReplayOne(checks, stage, s, m).value.routes == s.routes
  {
    hide KeyOf, SameSource, ExecutionFits, ExecutionCompatible, AcknowledgementFits;
  }

  lemma {:induction false} ReplayKeys(checks: Checks, stage: Stage, s: State, snapshot: seq<Projection>)
    requires Replay(checks, stage, s, snapshot).Some?
    ensures Replay(checks, stage, s, snapshot).value.messages.Keys
            == s.messages.Keys + if stage.Sources? then EnvelopeIds(snapshot) else {}
    ensures Replay(checks, stage, s, snapshot).value.routes == s.routes
    decreases |snapshot|
  {
    hide ReplayOne, EnvelopeIds;
    if snapshot == [] {
      NoEnvelopeIds();
    } else {
      EnvelopeIdsCons(snapshot);
      ReplayOneKeys(checks, stage, s, snapshot[0]);
      ReplayKeys(checks, stage, ReplayOne(checks, stage, s, snapshot[0]).value, snapshot[1..]);
    }
  }

  lemma NoEnvelopeIds()
    ensures EnvelopeIds([]) == {}
  {
  }

  lemma {:induction false} ReplayReorganizationsKeys(checks: Checks, s: State, order: seq<Reorganization>)
    requires ReplayReorganizations(checks, s, order).Some?
    ensures ReplayReorganizations(checks, s, order).value.messages.Keys == s.messages.Keys
    ensures ReplayReorganizations(checks, s, order).value.routes == s.routes
    decreases |order|
  {
    hide ReorganizationApplies, LeadPolicy, IncidentOf;
    if order != [] {
      ReplayReorganizationsKeys(checks, ProjectReorganization(checks, s, order[0]).state, order[1..]);
    }
  }

  lemma RebuildKeys(checks: Checks, routes: map<Bytes, string>, snapshot: seq<Projection>, order: seq<Reorganization>)
    requires Rebuild(checks, routes, snapshot, order).Some?
    ensures Rebuild(checks, routes, snapshot, order).value.messages.Keys == EnvelopeIds(snapshot)
    ensures Rebuild(checks, routes, snapshot, order).value.routes == routes
  {
    hide Replay, ReplayReorganizations, Collect, EnvelopeIds;
    var s0 := State(map[], map[], routes);
    ReplayKeys(checks, Sources, s0, snapshot);
    var s1 := Replay(checks, Sources, s0, snapshot).value;
    ReplayKeys(checks, Executions, s1, snapshot);
    var s2 := Replay(checks, Executions, s1, snapshot).value;
    ReplayKeys(checks, Acknowledgements, s2, snapshot);
    ReplayReorganizationsKeys(checks, Facts(checks, routes, snapshot).value, order);
  }

  lemma EntriesAreKeyed(checks: Checks, s: State, snapshot: seq<Projection>)
    requires Inv(checks, s) && Reproduces(s, snapshot)
    ensures EnvelopeIds(snapshot) == Ids(snapshot)
  {
    hide ExecutionOk, AcknowledgementOk, EventsOk, RoutesOk, DisputeOk;
    forall i | 0 <= i < |snapshot| ensures snapshot[i].envelope.messageId == snapshot[i].messageId {
      assert MessageOk(checks, s, s.messages[snapshot[i].messageId]);
    }
  }

  /** For any list whatever: a refused restore changes nothing. An accepted one installs
      exactly the listed projections and the registrations of their events, all of them
      authenticated afresh, under unchanged routes. */
  lemma RestoreIsSound(checks: Checks, s: State, snapshot: seq<Projection>, order: seq<Reorganization>)
    requires Sane(checks) && Inv(checks, s)
    ensures var step := RestoreSnapshot(checks, s, snapshot, order);
            if step.result.Err? then step.state == s
            else
              && Inv(checks, step.state) && step.state.routes == s.routes
              && step.state.messages.Keys == Ids(snapshot) && Reproduces(step.state, snapshot)
              && EventsExact(step.state)
  {
    hide Sane, MessageOk, RoutesOk, EventsExact, GroupsComplete, EnvelopeIds, Ids, ReplayReorganizations, Facts, Collect;
    if RestoreSnapshot(checks, s, snapshot, order).result.Ok? {
      var t := Rebuild(checks, s.routes, snapshot, order).value;
      RebuildKeeps(checks, s.routes, snapshot, order);
      RebuiltIsClean(checks, s.routes, snapshot, order);
      RebuildKeys(checks, s.routes, snapshot, order);
      EntriesAreKeyed(checks, t, snapshot);
    }
  }

  lemma AcceptedEvidenceIsUsable(checks: Checks, s: State, snapshot: seq<Projection>)
    requires Inv(checks, s) && Reproduces(s, snapshot) && Ids(snapshot) == s.messages.Keys
    requires Collect(map[], snapshot).Some?
    ensures HashesUsable(Evidence(s))
  {
    hide Inv, Reproduces, Evidence, Collect, SnapshotEvidence, HashesUsable, DisputesWhole;
    SnapshotEvidenceIsEvidence(checks, s, snapshot);
    CollectExact(map[], snapshot);
    var none: map<Bytes, Reorganization> := map[];
    assert none.Values + SnapshotEvidence(snapshot) == Evidence(s);
  }

  /** What a restore installs can itself be saved and restored, giving the same state. */
  lemma RestoredRestores(
    checks: Checks, s: State, snapshot: seq<Projection>, order: seq<Reorganization>,
    again: seq<Projection>, order': seq<Reorganization>)
    requires Sane(checks) && Inv(checks, s) && RestoreSnapshot(checks, s, snapshot, order).result.Ok?
    requires Lists(again, RestoreSnapshot(checks, s, snapshot, order).state)
    requires Collect(map[], again).Some? ==> Orders(order', Collect(map[], again).value)
    ensures RestoreSnapshot(checks, s, again, order') == RestoreSnapshot(checks, s, snapshot, order)
  {
    hide Sane, Inv, EventsExact, GroupComplete, Evidence, HashesUsable, Ids, ReplayReorganizations, Facts, Collect,
      Reproduces, Orders, DistinctIds;
    var t := RestoreSnapshot(checks, s, snapshot, order).state;
    RestoreIsSound(checks, s, snapshot, order);
    AcceptedEvidenceIsUsable(checks, t, snapshot);
    InvRoutes(checks, s);
    RebuiltIsClean(checks, s.routes, snapshot, order);
    RestoresWholeState(checks, t, again, order');
  }
}
