/** A snapshot restores exactly when the state is replayable, whatever the order of
    its reorganizations, and then reproduces every message and every live event. */
module RestoreExact {
  import opened ByteStrings
  import opened Projector
  import opened ProjectorInvariant
  import opened Restore
  import opened ProjectorRuns
  import opened RoundTrip

  function ToSet(order: seq<Reorganization>): set<Reorganization> {
    set e | e in order
  }

  lemma ToSetCons(order: seq<Reorganization>)
    requires order != [] && NoRepeats(order)
    ensures ToSet(order) == {order[0]} + ToSet(order[1..])
    ensures order[0] !in ToSet(order[1..]) && NoRepeats(order[1..])
  {
    assert order == [order[0]] + order[1..];
  }

  // A replayable state replays.

  lemma {:induction false} ReplayAllView(checks: Checks, s: State, done: set<Reorganization>, order: seq<Reorganization>)
    requires Inv(checks, s) && NoRepeats(order) && ToSet(order) !! done && ToSet(order) <= Evidence(s)
    requires forall e :: e in ToSet(order) ==> GroupComplete(s, e)
    ensures ReplayReorganizations(checks, DisputeView(s, done), order) == Some(DisputeView(s, done + ToSet(order)))
    decreases |order|
  {
    hide Inv, GroupComplete, DisputeView, ProjectReorganization, ToSet, NoRepeats, Evidence;
    if order == [] {
      EmptyToSet();
      assert done + ToSet(order) == done;
    } else {
      ToSetCons(order);
      ReplayReorganizationView(checks, s, done, order[0]);
      assert (done + {order[0]}) + ToSet(order[1..]) == done + ToSet(order);
      ReplayAllView(checks, s, done + {order[0]}, order[1..]);
    }
  }

  lemma EmptyToSet()
    ensures ToSet([]) == {}
  {
  }

  /** With every reorganization replayed, every message is back. */
  lemma FullView(checks: Checks, s: State)
    requires Inv(checks, s)
    ensures DisputeView(s, Evidence(s)).messages == s.messages
  {
    hide MessageOk, RoutesOk, Cut, LiveMessages, Evidence, LiveEvents;
    DisputeViewKeys(s, Evidence(s));
    forall id | id in s.messages ensures DisputeView(s, Evidence(s)).messages[id] == s.messages[id] {
      DisputeViewAt(s, Evidence(s), id);
      FullCut(checks, s, id);
    }
  }

  lemma FullCut(checks: Checks, s: State, id: Bytes)
    requires Inv(checks, s) && id in s.messages
    ensures Cut(s.messages[id], true, true, DisputedIn(s.messages[id], Evidence(s))) == s.messages[id]
  {
    hide SourceOk, ExecutionOk, AcknowledgementOk, EventsOk, RoutesOk, Implicated;
    assert MessageOk(checks, s, s.messages[id]);
  }

  // Collecting the reorganizations of a snapshot.

  function SnapshotEvidence(snapshot: seq<Projection>): set<Reorganization> {
    set i | 0 <= i < |snapshot| && snapshot[i].reorganization.Some? :: snapshot[i].reorganization.value
  }

  /** Dispute, evidence and incident come together. */
  predicate DisputesWhole(snapshot: seq<Projection>) {
    forall i :: 0 <= i < |snapshot| ==>
      && (snapshot[i].disputed <==> snapshot[i].reorganization.Some?)
      && (snapshot[i].disputed <==> snapshot[i].incident.Some?)
  }

  predicate KeyedByHash(collected: map<Bytes, Reorganization>) {
    forall hash :: hash in collected ==> Fixed32(collected[hash].evidenceHash) == hash && hash != ZERO32
  }

  lemma SnapshotEvidenceCons(snapshot: seq<Projection>)
    requires snapshot != []
    ensures SnapshotEvidence(snapshot)
            == (if snapshot[0].reorganization.Some? then {snapshot[0].reorganization.value} else {})
               + SnapshotEvidence(snapshot[1..])
    ensures DisputesWhole(snapshot) ==> DisputesWhole(snapshot[1..])
  {
    var rest := snapshot[1..];
    forall i | 0 <= i < |rest| ensures rest[i] == snapshot[i + 1] {
    }
    forall e | e in SnapshotEvidence(snapshot) && Some(e) != snapshot[0].reorganization
      ensures e in SnapshotEvidence(rest)
    {
      var i :| 0 <= i < |snapshot| && snapshot[i].reorganization == Some(e);
      assert rest[i - 1].reorganization == Some(e);
    }
  }

  lemma CollectedValues(collected: map<Bytes, Reorganization>, e: Reorganization)
    requires KeyedByHash(collected) && Fixed32(e.evidenceHash) != ZERO32
    requires Fixed32(e.evidenceHash) in collected ==> collected[Fixed32(e.evidenceHash)] == e
    ensures collected[Fixed32(e.evidenceHash) := e].Values == collected.Values + {e}
    ensures KeyedByHash(collected[Fixed32(e.evidenceHash) := e])
  {
    var hash := Fixed32(e.evidenceHash);
    var after := collected[hash := e];
    assert hash in after && after[hash] == e;
    forall f | f in collected.Values ensures f in after.Values {
      var h :| h in collected && collected[h] == f;
      assert h in after && after[h] == f;
    }
  }

  lemma KeyedAreUsable(collected: map<Bytes, Reorganization>)
    requires KeyedByHash(collected)
    ensures HashesUsable(collected.Values)
  {
    hide Fixed32;
    forall e, f | e in collected.Values && f in collected.Values && Fixed32(e.evidenceHash) == Fixed32(f.evidenceHash)
      ensures e == f
    {
      var h :| h in collected && collected[h] == e;
      var g :| g in collected && collected[g] == f;
    }
  }

  /** Collecting succeeds exactly when the hashes tell the evidence apart. */
  lemma {:induction false} CollectExact(collected: map<Bytes, Reorganization>, snapshot: seq<Projection>)
    requires KeyedByHash(collected) && DisputesWhole(snapshot)
    ensures Collect(collected, snapshot).Some? <==> HashesUsable(collected.Values + SnapshotEvidence(snapshot))
    ensures Collect(collected, snapshot).Some? ==>
              Collect(collected, snapshot).value.Values == collected.Values + SnapshotEvidence(snapshot)
    decreases |snapshot|
  {
    hide Fixed32, SnapshotEvidence;
    if snapshot == [] {
      EmptySnapshotEvidence();
      assert collected.Values + SnapshotEvidence(snapshot) == collected.Values;
      KeyedAreUsable(collected);
    } else {
      SnapshotEvidenceCons(snapshot);
      var first, rest := snapshot[0].reorganization, snapshot[1..];
      if first.None? {
        assert collected.Values + SnapshotEvidence(snapshot) == collected.Values + SnapshotEvidence(rest);
        CollectExact(collected, rest);
      } else {
        var e, hash := first.value, Fixed32(first.value.evidenceHash);
        assert e in collected.Values + SnapshotEvidence(snapshot);
        if CollectOne(collected, snapshot[0]) {
          CollectedValues(collected, e);
          assert collected.Values + SnapshotEvidence(snapshot) == (collected.Values + {e}) + SnapshotEvidence(rest);
          CollectExact(collected[hash := e], rest);
        } else if hash != ZERO32 {
          assert collected[hash] in collected.Values;
        }
      }
    }
  }

  lemma EmptySnapshotEvidence()
    ensures SnapshotEvidence([]) == {}
  {
  }

  lemma SnapshotEvidenceIsEvidence(checks: Checks, s: State, snapshot: seq<Projection>)
    requires Inv(checks, s) && Reproduces(s, snapshot) && Ids(snapshot) == s.messages.Keys
    ensures SnapshotEvidence(snapshot) == Evidence(s) && DisputesWhole(snapshot)
  {
    hide SourceOk, ExecutionOk, AcknowledgementOk, EventsOk, RoutesOk, Implicated;
    forall i | 0 <= i < |snapshot|
      ensures snapshot[i].messageId in s.messages && s.messages[snapshot[i].messageId] == snapshot[i]
      ensures snapshot[i].disputed <==> snapshot[i].reorganization.Some?
      ensures snapshot[i].disputed <==> snapshot[i].incident.Some?
    {
      assert MessageOk(checks, s, s.messages[snapshot[i].messageId]);
    }
    forall e | e in Evidence(s) ensures e in SnapshotEvidence(snapshot) {
      var id :| id in s.messages && s.messages[id].reorganization == Some(e);
      assert id in Ids(snapshot);
      var i :| 0 <= i < |snapshot| && snapshot[i].messageId == id;
    }
  }

  // A state that replays is replayable.

  /** Midway through the reorganizations: the facts are those of `s`, and disputes
      come from the reorganizations already done. */
  predicate Progress(s: State, u: State, done: set<Reorganization>) {
    && u.routes == s.routes && u.messages.Keys == s.messages.Keys
    && forall id :: id in s.messages ==>
         && Cut(u.messages[id], true, true, false) == Cut(s.messages[id], true, true, false)
         && (u.messages[id].disputed ==> DisputedIn(u.messages[id], done))
  }

  lemma SameFactsSameAffected(m: Projection, n: Projection, e: Reorganization, i: nat)
    requires InRange(e, i) && Cut(m, true, true, false) == Cut(n, true, true, false)
    ensures Affected(m, e, i) == Affected(n, e, i) && Policy(m) == Policy(n)
  {
    hide Affected, Policy, Cut;
    AffectedIgnoresDisputes(m, e, i, false);
    AffectedIgnoresDisputes(n, e, i, false);
  }

  /** The evidence was applied to messages that `s` describes. */
  predicate AppliedTo(s: State, e: Reorganization, i: nat) {
    && InRange(e, i)
    && e.affectedMessageIds[i] in s.messages
    && Affected(s.messages[e.affectedMessageIds[i]], e, i)
    && Policy(s.messages[e.affectedMessageIds[i]]) == LeadPolicy(s, e)
  }

  lemma ProgressLead(s: State, u: State, done: set<Reorganization>, e: Reorganization)
    requires Progress(s, u, done)
    ensures LeadPolicy(u, e) == LeadPolicy(s, e)
  {
    hide Cut, Policy, DisputedIn;
    if e.affectedMessageIds != [] && e.affectedMessageIds[0] in s.messages {
      var id := e.affectedMessageIds[0];
      PolicyOfCut(u.messages[id], false);
      PolicyOfCut(s.messages[id], false);
    }
  }

  lemma AppliedWasNamed(s: State, u: State, done: set<Reorganization>, e: Reorganization, i: nat)
    requires Progress(s, u, done) && e !in done && ReorganizationApplies(u, e) && i < |e.affectedMessageIds|
    ensures AppliedTo(s, e, i)
    ensures e.affectedMessageIds[i] in u.messages && !u.messages[e.affectedMessageIds[i]].disputed
  {
    hide Cut, Policy, Affected, LeadPolicy;
    assert Disputable(u, e, i, LeadPolicy(u, e));
    var id := e.affectedMessageIds[i];
    ProgressLead(s, u, done, e);
    SameFactsSameAffected(u.messages[id], s.messages[id], e, i);
  }

  lemma DisputeKeepsFacts(m: Projection, e: Reorganization, incident: Incident)
    ensures Cut(Dispute(m, e, incident), true, true, false) == Cut(m, true, true, false)
    ensures Dispute(m, e, incident).disputed
    ensures Dispute(m, e, incident).reorganization == if m.disputed then m.reorganization else Some(e)
  {
  }

  lemma ProgressStep(checks: Checks, s: State, u: State, done: set<Reorganization>, e: Reorganization)
    requires Progress(s, u, done) && e !in done && ProjectReorganization(checks, u, e).result.Ok?
    ensures Progress(s, ProjectReorganization(checks, u, e).state, done + {e})
  {
    hide Cut, LeadPolicy, IncidentOf, ReorganizationApplies, Dispute;
    var t := ProjectReorganization(checks, u, e).state;
    forall id | id in s.messages
      ensures Cut(t.messages[id], true, true, false) == Cut(s.messages[id], true, true, false)
      ensures t.messages[id].disputed ==> DisputedIn(t.messages[id], done + {e})
    {
      if id in e.affectedMessageIds {
        DisputeKeepsFacts(u.messages[id], e, ProjectReorganization(checks, u, e).result.value.incident);
      }
    }
  }

  lemma DisputedByStep(checks: Checks, s: State, u: State, done: set<Reorganization>, e: Reorganization, i: nat)
    requires Progress(s, u, done) && e !in done && ProjectReorganization(checks, u, e).result.Ok?
    requires i < |e.affectedMessageIds|
    ensures AppliedTo(s, e, i)
    ensures var t := ProjectReorganization(checks, u, e).state;
            e.affectedMessageIds[i] in t.messages && t.messages[e.affectedMessageIds[i]].reorganization == Some(e)
  {
    hide Progress, LeadPolicy, IncidentOf, ReorganizationApplies, Affected, Policy;
    AppliedWasNamed(s, u, done, e, i);
  }

  /** Whatever was replayed is in the final state, complete. */
  lemma {:induction false} ReplayedAreComplete(
    checks: Checks, s: State, u: State, done: set<Reorganization>, order: seq<Reorganization>, e: Reorganization, i: nat)
    requires Inv(checks, u) && Progress(s, u, done) && NoRepeats(order) && ToSet(order) !! done
    requires ReplayReorganizations(checks, u, order).Some? && e in order && i < |e.affectedMessageIds|
    ensures AppliedTo(s, e, i)
    ensures var t := ReplayReorganizations(checks, u, order).value;
            e.affectedMessageIds[i] in t.messages && t.messages[e.affectedMessageIds[i]].reorganization == Some(e)
    decreases |order|
  {
    hide Inv, Progress, AppliedTo, Evolves, ProjectReorganization, NoRepeats;
    var first, rest := order[0], order[1..];
    ToSetCons(order);
    assert first in ToSet(order);
    var v := ProjectReorganization(checks, u, first).state;
    ReorganizationKeeps(checks, u, first);
    if e == first {
      DisputedByStep(checks, s, u, done, e, i);
      ReplayReorganizationsKeeps(checks, v, rest);
      KeptDispute(v, ReplayReorganizations(checks, v, rest).value, e.affectedMessageIds[i]);
    } else {
      assert e in rest by { assert order == [first] + rest; }
      ProgressStep(checks, s, u, done, first);
      ReplayedAreComplete(checks, s, v, done + {first}, rest, e, i);
    }
  }

  lemma KeptDispute(s: State, t: State, id: Bytes)
    requires Grows(s, t) && id in s.messages && s.messages[id].reorganization.Some?
    ensures id in t.messages && t.messages[id].reorganization == s.messages[id].reorganization
  {
  }

  lemma InitialProgress(s: State)
    ensures Progress(s, DisputeView(s, {}), {})
  {
    hide LiveMessages, LiveEvents;
    DisputeViewKeys(s, {});
    forall id | id in s.messages
      ensures Cut(DisputeView(s, {}).messages[id], true, true, false) == Cut(s.messages[id], true, true, false)
      ensures !DisputeView(s, {}).messages[id].disputed
    {
      DisputeViewAt(s, {}, id);
    }
  }

  // The theorem.

  lemma OrderCoversEvidence(checks: Checks, s: State, snapshot: seq<Projection>, order: seq<Reorganization>)
    requires Inv(checks, s) && Lists(snapshot, s)
    requires Collect(map[], snapshot).Some? && Orders(order, Collect(map[], snapshot).value)
    ensures ToSet(order) == Evidence(s) && NoRepeats(order)
  {
    hide Inv, Reproduces, DistinctIds, Evidence, Collect, SnapshotEvidence, HashesUsable, DisputesWhole;
    var collected := Collect(map[], snapshot).value;
    SnapshotEvidenceIsEvidence(checks, s, snapshot);
    CollectExact(map[], snapshot);
    assert collected.Values == Evidence(s);
    forall e | e in Evidence(s) ensures e in ToSet(order) {
      var hash :| hash in collected && collected[hash] == e;
    }
  }

  lemma ReplayableRebuilds(checks: Checks, s: State, snapshot: seq<Projection>, order: seq<Reorganization>)
    requires Sane(checks) && Inv(checks, s) && Lists(snapshot, s) && Replayable(s)
    requires Collect(map[], snapshot).Some? ==> Orders(order, Collect(map[], snapshot).value)
    ensures Rebuild(checks, s.routes, snapshot, order)
            == Some(State(s.messages, LiveEvents(s, s.messages.Keys, s.messages.Keys), s.routes))
  {
    hide Sane, Inv, Evidence, Collect, SnapshotEvidence, HashesUsable, DisputesWhole, Orders, GroupComplete,
      LiveMessages, LiveEvents, Facts, ReplayReorganizations, NoRepeats, DistinctIds, Ids, ToSet;
    assert {} + Evidence(s) == Evidence(s);
    FactsView(checks, s, snapshot);
    SnapshotEvidenceIsEvidence(checks, s, snapshot);
    CollectExact(map[], snapshot);
    var none: map<Bytes, Reorganization> := map[];
    assert none.Values + SnapshotEvidence(snapshot) == Evidence(s);
    OrderCoversEvidence(checks, s, snapshot, order);
    ReplayAllView(checks, s, {}, order);
    FullView(checks, s);
  }

  /** What a successful rebuild says about the evidence of the state. */
  lemma RebuiltIsReplayable(checks: Checks, s: State, snapshot: seq<Projection>, order: seq<Reorganization>)
    requires Sane(checks) && Inv(checks, s) && Lists(snapshot, s)
    requires Collect(map[], snapshot).Some? ==> Orders(order, Collect(map[], snapshot).value)
    requires Rebuild(checks, s.routes, snapshot, order).Some?
    ensures Replayable(s)
  {
    hide Sane, Inv, Evidence, Collect, SnapshotEvidence, HashesUsable, DisputesWhole, Orders,
      Facts, ReplayReorganizations, NoRepeats, DistinctIds, Ids, Affected, LeadPolicy, DisputeView, Progress;
    FactsView(checks, s, snapshot);
    assert DisputeView(s, {}) == Facts(checks, s.routes, snapshot).value by { ViewIsDisputeView(s); }
    SnapshotEvidenceIsEvidence(checks, s, snapshot);
    CollectExact(map[], snapshot);
    var none: map<Bytes, Reorganization> := map[];
    assert none.Values + SnapshotEvidence(snapshot) == Evidence(s);
    OrderCoversEvidence(checks, s, snapshot, order);
    InitialProgress(s);
    assert Inv(checks, DisputeView(s, {})) by { FactsInv(checks, s, snapshot); }
    forall e, i | e in Evidence(s) && 0 <= i < |e.affectedMessageIds| ensures MemberOf(s, e, i) {
      assert e in ToSet(order);
      ReplayedAreComplete(checks, s, DisputeView(s, {}), {}, order, e, i);
      SameMessage(s, Rebuild(checks, s.routes, snapshot, order).value, snapshot, e.affectedMessageIds[i]);
    }
  }

  lemma ViewIsDisputeView(s: State)
    ensures View(s, s.messages.Keys, s.messages.Keys, s.messages.Keys, {}) == DisputeView(s, {})
  {
  }

  lemma FactsInv(checks: Checks, s: State, snapshot: seq<Projection>)
    requires Sane(checks) && Inv(checks, s) && Facts(checks, s.routes, snapshot) == Some(DisputeView(s, {}))
    ensures Inv(checks, DisputeView(s, {}))
  {
    hide Sane, MessageOk, Facts, DisputeView;
    FactsKeep(checks, s.routes, snapshot);
  }

  lemma SameMessage(s: State, t: State, snapshot: seq<Projection>, id: Bytes)
    requires Lists(snapshot, s) && Reproduces(t, snapshot) && id in s.messages
    ensures id in t.messages && t.messages[id] == s.messages[id]
  {
    hide DistinctIds;
    assert id in Ids(snapshot);
    var i :| 0 <= i < |snapshot| && snapshot[i].messageId == id;
  }

  /** A snapshot of a state rebuilds exactly when the state is replayable. Then every
      message is back, together with the registrations of their events, and no other. */
  lemma RestoreIsExact(checks: Checks, s: State, snapshot: seq<Projection>, order: seq<Reorganization>)
    requires Sane(checks) && Inv(checks, s) && Lists(snapshot, s)
    requires Collect(map[], snapshot).Some? ==> Orders(order, Collect(map[], snapshot).value)
    ensures Rebuild(checks, s.routes, snapshot, order).Some? <==> Replayable(s)
    ensures Rebuild(checks, s.routes, snapshot, order).Some? ==>
              Rebuild(checks, s.routes, snapshot, order).value
              == State(s.messages, LiveEvents(s, s.messages.Keys, s.messages.Keys), s.routes)
  {
    hide Sane, Inv, Lists, Collect, Orders, Rebuild, LiveEvents, Replayable;
    if Replayable(s) {
      ReplayableRebuilds(checks, s, snapshot, order);
    } else if Rebuild(checks, s.routes, snapshot, order).Some? {
      RebuiltIsReplayable(checks, s, snapshot, order);
    }
  }

  /** The order in which reorganizations are replayed does not matter. */
  lemma OrderIsIrrelevant(
    checks: Checks, s: State, snapshot: seq<Projection>, order: seq<Reorganization>, other: seq<Reorganization>)
    requires Sane(checks) && Inv(checks, s) && Lists(snapshot, s)
    requires Collect(map[], snapshot).Some? ==>
               Orders(order, Collect(map[], snapshot).value) && Orders(other, Collect(map[], snapshot).value)
    ensures Rebuild(checks, s.routes, snapshot, order) == Rebuild(checks, s.routes, snapshot, other)
  {
    hide Sane, Inv, Lists, Collect, Orders, Rebuild, LiveEvents, Replayable;
    RestoreIsExact(checks, s, snapshot, order);
    RestoreIsExact(checks, s, snapshot, other);
  }

  /** Every registration belongs to an event of a message. */
  predicate EventsExact(s: State) {
    forall key :: key in s.events ==> Live(s, s.messages.Keys, s.messages.Keys, key)
  }

  /** A restore gives back the very same state exactly when no registration is stale. */
  lemma RestoresWholeState(checks: Checks, s: State, snapshot: seq<Projection>, order: seq<Reorganization>)
    requires Sane(checks) && Inv(checks, s) && Lists(snapshot, s) && Replayable(s)
    requires Collect(map[], snapshot).Some? ==> Orders(order, Collect(map[], snapshot).value)
    ensures Rebuild(checks, s.routes, snapshot, order) == Some(s) <==> EventsExact(s)
  {
    hide Sane, Inv, Lists, Collect, Orders, Rebuild, Replayable, Live;
    RestoreIsExact(checks, s, snapshot, order);
    var live := LiveEvents(s, s.messages.Keys, s.messages.Keys);
    if EventsExact(s) {
      assert live == s.events;
    } else {
      var key :| key in s.events && !Live(s, s.messages.Keys, s.messages.Keys, key);
      assert key !in live;
    }
  }
}
