/** The projector as the service runs it: an object whose maps are updated in place.
    Every method is the corresponding operation of the state machine. */
module ProjectorService {
  import opened ByteStrings
  import opened ByteOrder
  import opened Envelope
  import opened Machine = Projector
  import opened ProjectorInvariant
  import opened Restore
  import opened ProjectorRuns
  import opened RoundTrip
  import opened RestoreExact
  import opened Boundary
  import opened Interleavings

  // Configuration.

  function ChainIds(configs: seq<ChainConfig>): set<string> {
    set i | 0 <= i < |configs| :: configs[i].chainId
  }

  predicate DistinctChains(configs: seq<ChainConfig>) {
    forall i, j :: 0 <= i < j < |configs| ==> configs[i].chainId != configs[j].chainId
  }

  predicate AllValid(configs: seq<ChainConfig>) {
    forall i :: 0 <= i < |configs| ==> ValidConfig(configs[i])
  }

  /** The chains are exactly the configured ones. */
  predicate Configures(chains: map<string, ChainConfig>, configs: seq<ChainConfig>) {
    && (forall i :: 0 <= i < |configs| ==> configs[i].chainId in chains && chains[configs[i].chainId] == configs[i])
    && chains.Keys == ChainIds(configs)
  }

  lemma ChainIdsSnoc(configs: seq<ChainConfig>, i: nat)
    requires i < |configs|
    ensures ChainIds(configs[..i + 1]) == ChainIds(configs[..i]) + {configs[i].chainId}
  {
    var a, b := configs[..i], configs[..i + 1];
    assert b == a + [configs[i]];
    forall id | id in ChainIds(b) ensures id in ChainIds(a) + {configs[i].chainId} {
      var k :| 0 <= k < |b| && b[k].chainId == id;
      if k < i {
        assert a[k].chainId == id;
      }
    }
    forall id | id in ChainIds(a) ensures id in ChainIds(b) {
      var k :| 0 <= k < |a| && a[k].chainId == id;
      assert b[k].chainId == id;
    }
    assert b[i].chainId in ChainIds(b);
  }

  /** What indexing guarantees of a chain table: two or more valid chains under their own names. */
  predicate ChainsOk(chains: map<string, ChainConfig>) {
    |chains| >= 2 && forall id :: id in chains ==> ValidConfig(chains[id]) && chains[id].chainId == id
  }

  lemma IndexedChainsAreOk(chains: map<string, ChainConfig>, configs: seq<ChainConfig>)
    requires |configs| >= 2 && AllValid(configs) && DistinctChains(configs) && Configures(chains, configs)
    ensures ChainsOk(chains)
  {
    hide ValidConfig;
    forall id | id in chains ensures ValidConfig(chains[id]) && chains[id].chainId == id {
      assert id in ChainIds(configs);
      var i :| 0 <= i < |configs| && configs[i].chainId == id;
    }
    assert {configs[0].chainId, configs[1].chainId} <= chains.Keys;
    AtLeastTwo(configs[0].chainId, configs[1].chainId, chains.Keys);
  }

  lemma AtLeastTwo(a: string, b: string, all: set<string>)
    requires a != b && a in all && b in all
    ensures |all| >= 2
  {
    assert all == {a, b} + (all - {a, b});
    assert |{a, b}| == 2;
  }

  /** Two tables that the same list configures are the same table. */
  lemma ConfiguresOnce(a: map<string, ChainConfig>, b: map<string, ChainConfig>, configs: seq<ChainConfig>)
    requires Configures(a, configs) && Configures(b, configs)
    ensures a == b
  {
    forall id | id in a ensures id in b && a[id] == b[id] {
      assert id in ChainIds(configs);
      var i :| 0 <= i < |configs| && configs[i].chainId == id;
    }
    assert a.Keys == b.Keys;
  }

  /** Everything but the rest has been listed. */
  predicate Listed(chains: map<string, ChainConfig>, configs: seq<ChainConfig>, rest: set<string>) {
    && AllValid(configs) && DistinctChains(configs) && ChainIds(configs) == chains.Keys - rest
    && forall i :: 0 <= i < |configs| ==> configs[i].chainId in chains && chains[configs[i].chainId] == configs[i]
  }

  lemma ListedNext(chains: map<string, ChainConfig>, configs: seq<ChainConfig>, rest: set<string>, id: string)
    requires ChainsOk(chains) && Listed(chains, configs, rest) && id in rest && rest <= chains.Keys
    ensures Listed(chains, configs + [chains[id]], rest - {id})
  {
    hide ValidConfig, DistinctChains, ChainIds;
    var extended := configs + [chains[id]];
    assert extended[..|configs|] == configs && extended[..|configs| + 1] == extended;
    ChainIdsSnoc(extended, |configs|);
    Unrepeated(extended, |configs|);
    assert (chains.Keys - rest) + {id} == chains.Keys - (rest - {id});
  }

  /** The configurations of a table, each once. */
  method ListConfigs(chains: map<string, ChainConfig>) returns (configs: seq<ChainConfig>)
    requires ChainsOk(chains)
    ensures |configs| >= 2 && AllValid(configs) && DistinctChains(configs) && Configures(chains, configs)
  {
    configs := [];
    var rest := chains.Keys;
    while rest != {}
      invariant rest <= chains.Keys && |configs| + |rest| == |chains|
      invariant Listed(chains, configs, rest)
    {
      hide Listed, ValidConfig;
      var id :| id in rest;
      ListedNext(chains, configs, rest, id);
      configs := configs + [chains[id]];
      rest := rest - {id};
    }
  }

  /** Validates and indexes the chain configurations. */
  method IndexChains(configs: seq<ChainConfig>) returns (chains: Option<map<string, ChainConfig>>)
    ensures chains.Some? <==> |configs| >= 2 && AllValid(configs) && DistinctChains(configs)
    ensures chains.Some? ==> Configures(chains.value, configs)
  {
    if |configs| < 2 {
      return None;
    }
    var index: map<string, ChainConfig> := map[];
    for i := 0 to |configs|
      invariant AllValid(configs[..i]) && DistinctChains(configs[..i]) && Configures(index, configs[..i])
    {
      hide ValidConfig;
      var config := configs[i];
      ChainIdsSnoc(configs, i);
      if !ValidConfig(config) {
        return None;
      }
      if config.chainId in index {
        RepeatedChain(configs, i);
        return None;
      }
      Unrepeated(configs, i);
      index := index[config.chainId := config];
    }
    assert configs[..|configs|] == configs;
    return Some(index);
  }

  lemma RepeatedChain(configs: seq<ChainConfig>, i: nat)
    requires i < |configs| && configs[i].chainId in ChainIds(configs[..i])
    ensures !DistinctChains(configs)
  {
    var k :| 0 <= k < i && configs[..i][k].chainId == configs[i].chainId;
    assert configs[k].chainId == configs[i].chainId;
  }

  lemma Unrepeated(configs: seq<ChainConfig>, i: nat)
    requires i < |configs| && DistinctChains(configs[..i]) && configs[i].chainId !in ChainIds(configs[..i])
    ensures DistinctChains(configs[..i + 1])
  {
    var a, b := configs[..i], configs[..i + 1];
    forall j, k | 0 <= j < k < |b| ensures b[j].chainId != b[k].chainId {
      assert b[j] == a[j];
      if k < i {
        assert b[k] == a[k];
      } else {
        assert a[j].chainId in ChainIds(a);
      }
    }
  }

  // Sorted keys.

  ghost predicate Enumerates(keys: seq<Bytes>, all: set<Bytes>) {
    forall k :: k in keys <==> k in all
  }

  /** Inserts a key where it belongs in an increasing list. */
  method InsertKey(keys: seq<Bytes>, key: Bytes) returns (r: seq<Bytes>)
    requires Increasing(keys) && key !in keys
    ensures Increasing(r)
    ensures forall k :: k in r <==> k == key || k in keys
  {
    hide Less;
    var at := |keys|;
    while at > 0 && Less(key, keys[at - 1])
      invariant 0 <= at <= |keys|
      invariant at < |keys| ==> Less(key, keys[at])
    {
      at := at - 1;
    }
    if at > 0 {
      LessTotal(key, keys[at - 1]);
    }
    r := keys[..at] + [key] + keys[at..];
    assert keys == keys[..at] + keys[at..];
    SplicedIncreasing(keys, key, at);
  }

  lemma SplicedIncreasing(keys: seq<Bytes>, key: Bytes, at: nat)
    requires Increasing(keys) && at <= |keys|
    requires at < |keys| ==> Less(key, keys[at])
    requires at > 0 ==> Less(keys[at - 1], key)
    ensures Increasing(keys[..at] + [key] + keys[at..])
  {
    hide Less;
    var r := keys[..at] + [key] + keys[at..];
    forall i | 0 < i < |r| ensures Less(r[i - 1], r[i]) {
      if i < at {
        assert r[i - 1] == keys[i - 1] && r[i] == keys[i];
      } else if i > at + 1 {
        assert r[i - 1] == keys[i - 2] && r[i] == keys[i - 1];
      }
    }
  }

  /** The keys in increasing order; there is only one such list. */
  method SortKeys(all: set<Bytes>) returns (keys: seq<Bytes>)
    ensures Increasing(keys) && Enumerates(keys, all)
  {
    keys := [];
    var rest := all;
    while rest != {}
      invariant rest <= all && Increasing(keys) && Enumerates(keys, all - rest)
    {
      var key :| key in rest;
      keys := InsertKey(keys, key);
      rest := rest - {key};
    }
  }

  // The service.

  class Projector {
    const ctx: Context
    var messages: map<Bytes, Projection>
    var eventIds: map<string, Bytes>
    var routes: map<Bytes, string>

    /** The abstract state. */
    function View(): State
      reads this
    {
      State(messages, eventIds, routes)
    }

    ghost predicate Valid()
      reads this
    {
      ChainsOk(ctx.chains) && Inv(ChecksOf(ctx), View())
    }

    /** An empty projector over chains that have been validated. */
    constructor (ctx: Context)
      requires ChainsOk(ctx.chains)
      ensures this.ctx == ctx && View() == INITIAL && Valid()
    {
      this.ctx := ctx;
      messages, eventIds, routes := map[], map[], map[];
      new;
      EmptyInv(ChecksOf(ctx), map[]);
    }

    /** A projector exists exactly for two or more valid, distinct chains. */
    static method NewProjector(
      keccak: Hash, marshal: Reorganization -> Bytes, verifier: Verifier, configs: seq<ChainConfig>)
      returns (r: Projector?)
      ensures r != null <==> |configs| >= 2 && AllValid(configs) && DistinctChains(configs)
      ensures r != null ==>
                && fresh(r) && r.Valid() && r.View() == INITIAL && Configures(r.ctx.chains, configs)
                && r.ctx == Context(keccak, marshal, verifier, r.ctx.chains)
    {
      var chains := IndexChains(configs);
      if chains.None? {
        return null;
      }
      IndexedChainsAreOk(chains.value, configs);
      r := new Projector(Context(keccak, marshal, verifier, chains.value));
    }

    method BindRoute(routeId: string, policyHash: Bytes) returns (r: Result<Done>)
      requires Valid()
      modifies `routes
      ensures Valid()
      ensures Step(View(), r) == Machine.BindRoute(old(View()), routeId, policyHash)
    {
      hide Inv;
      ghost var before := View();
      BindRouteKeeps(ChecksOf(ctx), before, routeId, policyHash);
      if routeId == "" || policyHash == ZERO32 {
        return Err(Conflict);
      }
      if policyHash in routes && routes[policyHash] != routeId {
        return Err(Conflict);
      }
      routes := routes[policyHash := routeId];
      return Ok(Done);
    }

    method ProjectSource(e: Envelope, p: SourceProof, c: Option<Certificate>) returns (r: Result<Projection>)
      requires Valid()
      modifies `messages, `eventIds
      ensures Valid()
      ensures Step(View(), r) == Machine.ProjectSource(ChecksOf(ctx), old(View()), e, p, c)
    {
      hide Inv, SourceCheck, KeyOf, SameSource, Fresh, Sane, Grows;
      ghost var before := View();
      ChecksAreSane(ctx);
      SourceKeeps(ChecksOf(ctx), before, e, p, c);
      var verification := SourceCheck(ctx, e, p, c);
      if verification.Err? {
        return Err(verification.error);
      }
      var v, id, key := verification.value, e.messageId, KeyOf(p);
      if key in eventIds && eventIds[key] != id {
        return Err(Conflict);
      }
      if id in messages {
        var existing := messages[id];
        if !SameSource(existing, e, p, c, v) {
          return Err(Conflict);
        }
        if v.final && !existing.sourceFinal {
          existing := existing.(sourceFinal := true, certificate := c);
          messages := messages[id := existing];
        }
        return Ok(existing);
      }
      var projection := Fresh(e, p, c, v);
      eventIds := eventIds[key := id];
      messages := messages[id := projection];
      return Ok(projection);
    }

    /** The unlocked half: reads the original message and authenticates the result. */
    method ReadForExecution(result: Execution, p: SourceProof) returns (r: Result<Pending>)
      requires Valid()
      ensures r == BeginExecution(ChecksOf(ctx), View(), result, p)
      ensures r.Ok? ==> Begun(ChecksOf(ctx), r.value, result, p)
    {
      hide Inv, ExecutionShapeCheck, ExecutionCheck, ExecutionFits, Begun;
      if BeginExecution(ChecksOf(ctx), View(), result, p).Ok? {
        BeginEstablishes(ChecksOf(ctx), View(), result, p);
      }
      var shape := ExecutionShapeCheck(ctx, result, p);
      if shape.Err? {
        return Err(shape.error);
      }
      if result.messageId !in messages {
        return Err(Conflict);
      }
      var original := messages[result.messageId];
      if !ExecutionFits(original.envelope, original.destinationChainId, result, p) {
        return Err(Conflict);
      }
      var verification := ExecutionCheck(ctx, result, p);
      if verification.Err? {
        return Err(verification.error);
      }
      return Ok(Pending(original.envelope, verification.value));
    }

    /** The locked half: everything is checked again against the state it now finds. */
    method CommitExecution(pending: Pending, result: Execution, p: SourceProof) returns (r: Result<Projection>)
      requires Valid() && Begun(ChecksOf(ctx), pending, result, p)
      modifies `messages, `eventIds
      ensures Valid()
      ensures Step(View(), r) == Machine.CommitExecution(old(View()), pending, result, p)
    {
      hide Inv, Begun, KeyOf, ExecutionCompatible, Sane, Grows;
      ghost var before := View();
      ChecksAreSane(ctx);
      CommitKeeps(ChecksOf(ctx), before, pending, result, p);
      var id, key := result.messageId, KeyOf(p);
      if id !in messages || messages[id].envelope != pending.envelope {
        return Err(Conflict);
      }
      if key in eventIds && eventIds[key] != id {
        return Err(Conflict);
      }
      var projection := messages[id];
      if !ExecutionCompatible(projection, result, p, pending.hash) {
        return Err(Conflict);
      }
      projection := projection.(execution := Some(result), executionProof := Some(p), executionEvidenceHash := pending.hash);
      eventIds := eventIds[key := id];
      messages := messages[id := projection];
      return Ok(projection);
    }

    method ProjectExecution(result: Execution, p: SourceProof) returns (r: Result<Projection>)
      requires Valid()
      modifies `messages, `eventIds
      ensures Valid()
      ensures Step(View(), r) == Machine.ProjectExecution(ChecksOf(ctx), old(View()), result, p)
    {
      hide Inv, Begun, BeginExecution, Machine.CommitExecution;
      var pending := ReadForExecution(result, p);
      if pending.Err? {
        return Err(pending.error);
      }
      r := CommitExecution(pending.value, result, p);
    }

    method ProjectAcknowledgement(a: Acknowledgement) returns (r: Result<Projection>)
      requires Valid()
      modifies `messages
      ensures Valid()
      ensures Step(View(), r) == Machine.ProjectAcknowledgement(ChecksOf(ctx), old(View()), a)
    {
      hide Inv, AcknowledgementCheck, AcknowledgementFits, Grows;
      ghost var before := View();
      AcknowledgementKeeps(ChecksOf(ctx), before, a);
      var verification := AcknowledgementCheck(ctx, a);
      if verification.Err? {
        return Err(verification.error);
      }
      var id := a.messageId;
      if id !in messages || !AcknowledgementFits(messages[id], a) {
        return Err(Conflict);
      }
      var projection := messages[id];
      if projection.acknowledgement.Some? && projection.acknowledgement != Some(a) {
        return Err(Conflict);
      }
      projection := projection.(acknowledgement := Some(a));
      messages := messages[id := projection];
      return Ok(projection);
    }

    method RemovePreFinality(chainId: string, transactionHash: Bytes, logIndex: nat) returns (r: Result<Done>)
      requires Valid()
      modifies `messages, `eventIds
      ensures Valid()
      ensures Step(View(), r) == Machine.RemovePreFinality(old(View()), chainId, transactionHash, logIndex)
    {
      hide Inv, EventKey;
      ghost var before := View();
      RemoveKeeps(ChecksOf(ctx), before, chainId, transactionHash, logIndex);
      var key := EventKey(chainId, transactionHash, logIndex);
      if key !in eventIds {
        return Err(Conflict);
      }
      var id := eventIds[key];
      if id in messages && messages[id].sourceFinal {
        return Err(InsufficientFinality);
      }
      eventIds := eventIds - {key};
      messages := messages - {id};
      return Ok(Done);
    }

    /** First pass: every affected message is present, shares one route policy, and is
        either disputed by this very evidence or still holds the orphaned event. */
    method CheckAffected(e: Reorganization) returns (policy: Option<Bytes>)
      requires Aligned(e)
      ensures policy.Some? <==> AllDisputable(View(), e, LeadPolicy(View(), e), |e.affectedMessageIds|)
      ensures policy.Some? ==> policy.value == LeadPolicy(View(), e)
    {
      hide Affected, Policy, NoRepeats, AlignedAt;
      var lead := ZERO32;
      for i := 0 to |e.affectedMessageIds|
        invariant AllDisputable(View(), e, LeadPolicy(View(), e), i)
        invariant i > 0 ==> lead == LeadPolicy(View(), e)
      {
        var id := e.affectedMessageIds[i];
        if id !in messages {
          assert !Disputable(View(), e, i, LeadPolicy(View(), e));
          return None;
        }
        var projection := messages[id];
        if i == 0 {
          lead := Policy(projection);
        } else if Policy(projection) != lead {
          assert !Disputable(View(), e, i, LeadPolicy(View(), e));
          return None;
        }
        if projection.disputed {
          if projection.reorganization != Some(e) {
            assert !Disputable(View(), e, i, LeadPolicy(View(), e));
            return None;
          }
        } else if !Affected(projection, e, i) {
          assert !Disputable(View(), e, i, LeadPolicy(View(), e));
          return None;
        }
      }
      return Some(lead);
    }

    /** Second pass: marks the affected messages that are not yet disputed. */
    method MarkDisputed(e: Reorganization, incident: Incident) returns (affected: seq<Projection>)
      requires NoRepeats(e.affectedMessageIds)
      requires forall i :: 0 <= i < |e.affectedMessageIds| ==> e.affectedMessageIds[i] in messages
      modifies `messages
      ensures messages == DisputeAll(old(messages), e, incident)
      ensures |affected| == |e.affectedMessageIds|
      ensures forall i :: 0 <= i < |affected| ==> affected[i] == messages[e.affectedMessageIds[i]]
    {
      hide Dispute, NoRepeats;
      var ids := e.affectedMessageIds;
      affected := [];
      for i := 0 to |ids|
        invariant messages == DisputeFirst(old(messages), ids[..i], e, incident)
        invariant |affected| == i
        invariant forall k :: 0 <= k < i ==> affected[k] == Dispute(old(messages)[ids[k]], e, incident)
      {
        DisputeNext(old(messages), ids, i, e, incident);
        var projection := messages[ids[i]];
        if !projection.disputed {
          projection := projection.(disputed := true, reorganization := Some(e), incident := Some(incident));
          messages := messages[ids[i] := projection];
        }
        affected := affected + [projection];
      }
      assert ids[..|ids|] == ids;
    }

    method ProjectReorganization(e: Reorganization) returns (r: Result<Opened>)
      requires Valid()
      modifies `messages
      ensures Valid()
      ensures Step(View(), r) == Machine.ProjectReorganization(ChecksOf(ctx), old(View()), e)
    {
      hide Inv, ReorganizationCheck, LeadPolicy, Disputable, IncidentOf, Dispute, Grows, AlignedAt;
      ghost var before := View();
      ReorganizationKeeps(ChecksOf(ctx), before, e);
      var verification := ReorganizationCheck(ctx, e);
      if verification.Err? {
        return Err(verification.error);
      }
      AcceptedEvidenceIsAligned(ctx, e);
      var policy := CheckAffected(e);
      if policy.None? || policy.value !in routes || routes[policy.value] == "" {
        return Err(Conflict);
      }
      PresentWhenDisputable(before, e);
      var incident := IncidentOf(e, routes[policy.value]);
      var affected := MarkDisputed(e, incident);
      assert affected == Lookup(messages, e.affectedMessageIds);
      return Ok(Opened(incident, affected));
    }

    /** A deterministic listing of every message, in increasing order of identifier. */
    method Snapshot() returns (snapshot: seq<Projection>)
      requires Valid()
      ensures Lists(snapshot, View())
      ensures Increasing(seq(|snapshot|, i requires 0 <= i < |snapshot| => snapshot[i].messageId))
    {
      hide Inv, Increasing, Lists;
      var ids := SortKeys(messages.Keys);
      snapshot := [];
      for i := 0 to |ids|
        invariant |snapshot| == i
        invariant forall k :: 0 <= k < i ==> ids[k] in messages && snapshot[k] == messages[ids[k]]
      {
        assert ids[i] in messages.Keys;
        snapshot := snapshot + [messages[ids[i]]];
      }
      SnapshotLists(ChecksOf(ctx), View(), ids, snapshot);
    }

    // Restoring.

    /** The three replay loops, run on a fresh projector. */
    method ReplayStage(stage: Stage, snapshot: seq<Projection>) returns (ok: bool)
      requires Valid()
      modifies `messages, `eventIds
      ensures Valid()
      ensures ok <==> Replay(ChecksOf(ctx), stage, old(View()), snapshot).Some?
      ensures ok ==> Replay(ChecksOf(ctx), stage, old(View()), snapshot) == Some(View())
    {
      hide Inv, ReplayOne;
      for i := 0 to |snapshot|
        invariant Valid()
        invariant Replay(ChecksOf(ctx), stage, old(View()), snapshot) == Replay(ChecksOf(ctx), stage, View(), snapshot[i..])
      {
        assert snapshot[i..][0] == snapshot[i] && snapshot[i..][1..] == snapshot[i + 1..];
        ghost var s := View();
        var done := ReplayEntry(stage, snapshot[i]);
        if !done {
          return false;
        }
        assert ReplayOne(ChecksOf(ctx), stage, s, snapshot[i]) == Some(View());
      }
      return true;
    }

    method ReplayEntry(stage: Stage, expected: Projection) returns (ok: bool)
      requires Valid()
      modifies `messages, `eventIds
      ensures Valid()
      ensures ok <==> ReplayOne(ChecksOf(ctx), stage, old(View()), expected).Some?
      ensures ok ==> ReplayOne(ChecksOf(ctx), stage, old(View()), expected) == Some(View())
    {
      hide Inv, Machine.ProjectSource, Machine.ProjectExecution, Machine.ProjectAcknowledgement;
      match stage {
        case Sources =>
          var actual := ProjectSource(expected.envelope, expected.sourceProof, expected.certificate);
          return actual.Ok? && actual.value.sourceFinal == expected.sourceFinal
            && actual.value.sourceEvidenceHash == expected.sourceEvidenceHash;
        case Executions =>
          if expected.execution.None? {
            return true;
          }
          if expected.executionProof.None? {
            return false;
          }
          var actual := ProjectExecution(expected.execution.value, expected.executionProof.value);
          return actual.Ok? && actual.value.executionEvidenceHash == expected.executionEvidenceHash;
        case Acknowledgements =>
          if expected.acknowledgement.None? {
            return true;
          }
          var actual := ProjectAcknowledgement(expected.acknowledgement.value);
          return actual.Ok?;
      }
    }

    method ReplayReorganizations(order: seq<Reorganization>) returns (ok: bool)
      requires Valid()
      modifies `messages
      ensures Valid()
      ensures ok <==> Restore.ReplayReorganizations(ChecksOf(ctx), old(View()), order).Some?
      ensures ok ==> Restore.ReplayReorganizations(ChecksOf(ctx), old(View()), order) == Some(View())
    {
      hide Inv, Machine.ProjectReorganization;
      for i := 0 to |order|
        invariant Valid()
        invariant Restore.ReplayReorganizations(ChecksOf(ctx), old(View()), order)
                  == Restore.ReplayReorganizations(ChecksOf(ctx), View(), order[i..])
      {
        assert order[i..][0] == order[i] && order[i..][1..] == order[i + 1..];
        var incident := ProjectReorganization(order[i]);
        if incident.Err? {
          return false;
        }
      }
      return true;
    }

    /** Binds every route of another projector, in increasing order of policy. */
    method BindRoutes(bindings: map<Bytes, string>)
      requires Valid() && View() == INITIAL && RoutesOk(bindings)
      modifies `routes
      ensures Valid() && View() == State(map[], map[], bindings)
    {
      hide Inv, Increasing;
      var policies := SortKeys(bindings.Keys);
      for i := 0 to |policies|
        invariant Valid() && messages == map[] && eventIds == map[]
        invariant forall policy :: policy in routes <==> policy in policies[..i]
        invariant forall policy :: policy in routes ==> policy in bindings && routes[policy] == bindings[policy]
      {
        assert policies[..i + 1] == policies[..i] + [policies[i]];
        assert policies[i] in bindings.Keys;
        var bound := BindRoute(bindings[policies[i]], policies[i]);
      }
      assert policies[..|policies|] == policies;
      assert routes.Keys == bindings.Keys;
    }

    /** Every entry is found again, unchanged. */
    method ReproducesAll(snapshot: seq<Projection>) returns (ok: bool)
      ensures ok <==> Reproduces(View(), snapshot)
    {
      for i := 0 to |snapshot|
        invariant Reproduces(View(), snapshot[..i])
      {
        var id := snapshot[i].messageId;
        if id !in messages || messages[id] != snapshot[i] {
          return false;
        }
      }
      assert snapshot[..|snapshot|] == snapshot;
      return true;
    }

    /** A fresh projector for the same chains, validated again. */
    method Sibling() returns (sibling: Projector)
      requires Valid()
      ensures fresh(sibling) && sibling.Valid() && sibling.View() == INITIAL && sibling.ctx == ctx
    {
      hide Inv, ChainsOk, Configures;
      var configs := ListConfigs(ctx.chains);
      var built := NewProjector(ctx.keccak, ctx.marshal, ctx.verifier, configs);
      ConfiguresOnce(built.ctx.chains, ctx.chains, configs);
      return built;
    }

    /** Before the lock: the routes that were read, and a fresh projector into which the
        snapshot has been replayed, reorganizations in increasing order of their hashes. */
    method RebuildSnapshot(snapshot: seq<Projection>)
      returns (r: Option<Projector>, captured: map<Bytes, string>, ghost order: seq<Reorganization>)
      requires Valid()
      ensures captured == routes && Increasing(HashesOf(order))
      ensures r.Some? <==> Empty(View()) && Rebuild(ChecksOf(ctx), routes, snapshot, order).Some?
      ensures r.Some? ==>
                && fresh(r.value) && r.value.Valid() && r.value.ctx == ctx
                && Rebuild(ChecksOf(ctx), routes, snapshot, order) == Some(r.value.View())
      ensures Empty(View()) && Facts(ChecksOf(ctx), routes, snapshot).Some? && Collect(map[], snapshot).Some? ==>
                Orders(order, Collect(map[], snapshot).value)
    {
      hide Inv, Collect, Orders, Replay, Restore.ReplayReorganizations, Reproduces, RoutesOk, KeyedByHash;
      order := [];
      captured := routes;
      if messages != map[] || eventIds != map[] {
        return None, captured, order;
      }
      InvRoutes(ChecksOf(ctx), View());
      var rebuilt := Sibling();
      rebuilt.BindRoutes(captured);
      var ok := rebuilt.ReplayStage(Sources, snapshot);
      if !ok {
        return None, captured, order;
      }
      ok := rebuilt.ReplayStage(Executions, snapshot);
      if !ok {
        return None, captured, order;
      }
      ok := rebuilt.ReplayStage(Acknowledgements, snapshot);
      if !ok {
        return None, captured, order;
      }
      var collected := CollectReorganizations(snapshot);
      if collected.None? {
        return None, captured, order;
      }
      var replayed := SortedEvidence(collected.value);
      order := replayed;
      ok := rebuilt.ReplayReorganizations(replayed);
      if !ok {
        return None, captured, order;
      }
      ok := rebuilt.ReproducesAll(snapshot);
      if !ok {
        return None, captured, order;
      }
      return Some(rebuilt), captured, order;
    }

    /** Under the lock, in whatever state that finds: installs the rebuilt state only if this
        projector is empty and its routes are still the ones that were read. */
    method InstallRebuilt(captured: map<Bytes, string>, rebuilt: Projector) returns (r: Result<Done>)
      requires Valid() && rebuilt.Valid() && rebuilt.ctx == ctx
      modifies this
      ensures Valid()
      ensures Step(View(), r) == CommitRestore(old(View()), captured, old(rebuilt.View()))
    {
      hide Inv;
      if messages != map[] || eventIds != map[] {
        return Err(Conflict);
      }
      var same := CompareRoutes(routes, captured);
      if !same {
        return Err(Conflict);
      }
      messages, eventIds, routes := rebuilt.messages, rebuilt.eventIds, rebuilt.routes;
      return Ok(Done);
    }

    /** Rebuilds, then installs with nothing in between. */
    method RestoreSnapshot(snapshot: seq<Projection>) returns (r: Result<Done>, ghost order: seq<Reorganization>)
      requires Valid()
      modifies this
      ensures Valid() && Increasing(HashesOf(order))
      ensures Step(View(), r) == Restore.RestoreSnapshot(ChecksOf(ctx), old(View()), snapshot, order)
      ensures Empty(old(View())) && Facts(ChecksOf(ctx), old(routes), snapshot).Some? && Collect(map[], snapshot).Some? ==>
                Orders(order, Collect(map[], snapshot).value)
    {
      hide Inv, Collect, Orders, Facts, Rebuild, SameRouteBindings, Increasing, RoutesOk;
      ghost var before := View();
      var rebuilt, captured, replayed := RebuildSnapshot(snapshot);
      order := replayed;
      if rebuilt.None? {
        return Err(Conflict), order;
      }
      InvRoutes(ChecksOf(ctx), before);
      SameRouteBindingsIsEquality(before.routes, captured);
      r := InstallRebuilt(captured, rebuilt.value);
    }
  }

  /** Compares route tables entry by entry, a missing entry reading as empty. */
  method CompareRoutes(left: map<Bytes, string>, right: map<Bytes, string>) returns (same: bool)
    ensures same <==> SameRouteBindings(left, right)
  {
    if |left| != |right| {
      return false;
    }
    var remaining := left.Keys;
    while remaining != {}
      invariant remaining <= left.Keys
      invariant forall policy :: policy in left && policy !in remaining ==>
                  left[policy] == if policy in right then right[policy] else ""
      decreases |remaining|
    {
      var policy :| policy in remaining;
      if left[policy] != if policy in right then right[policy] else "" {
        return false;
      }
      remaining := remaining - {policy};
    }
    return true;
  }

  function HashesOf(order: seq<Reorganization>): (hashes: seq<Bytes>)
    ensures |hashes| == |order|
    ensures forall i :: 0 <= i < |order| ==> hashes[i] == Fixed32(order[i].evidenceHash)
  {
    seq(|order|, i requires 0 <= i < |order| => Fixed32(order[i].evidenceHash))
  }

  /** Collects the distinct reorganizations of a snapshot. */
  method CollectReorganizations(snapshot: seq<Projection>) returns (r: Option<map<Bytes, Reorganization>>)
    ensures r == Collect(map[], snapshot)
    ensures r.Some? ==> KeyedByHash(r.value)
  {
    hide Fixed32;
    var collected: map<Bytes, Reorganization> := map[];
    for i := 0 to |snapshot|
      invariant KeyedByHash(collected)
      invariant Collect(map[], snapshot) == Collect(collected, snapshot[i..])
    {
      assert snapshot[i..][0] == snapshot[i] && snapshot[i..][1..] == snapshot[i + 1..];
      var expected := snapshot[i];
      if !expected.disputed || expected.reorganization.None? || expected.incident.None? {
        if expected.disputed || expected.reorganization.Some? || expected.incident.Some? {
          return None;
        }
        continue;
      }
      var hash := Fixed32(expected.reorganization.value.evidenceHash);
      if hash == ZERO32 || (hash in collected && collected[hash] != expected.reorganization.value) {
        return None;
      }
      collected := collected[hash := expected.reorganization.value];
    }
    return Some(collected);
  }

  /** The reorganizations in increasing order of their hashes. */
  method SortedEvidence(collected: map<Bytes, Reorganization>) returns (order: seq<Reorganization>)
    requires KeyedByHash(collected)
    ensures Orders(order, collected) && Increasing(HashesOf(order))
  {
    hide Fixed32, Increasing;
    var hashes := SortKeys(collected.Keys);
    order := [];
    for i := 0 to |hashes|
      invariant |order| == i
      invariant forall k :: 0 <= k < i ==> hashes[k] in collected && order[k] == collected[hashes[k]]
    {
      assert hashes[i] in collected.Keys;
      order := order + [collected[hashes[i]]];
    }
    EvidenceOrders(collected, hashes, order);
  }

  lemma EvidenceOrders(collected: map<Bytes, Reorganization>, hashes: seq<Bytes>, order: seq<Reorganization>)
    requires KeyedByHash(collected) && Increasing(hashes) && Enumerates(hashes, collected.Keys) && |order| == |hashes|
    requires forall k :: 0 <= k < |hashes| ==> hashes[k] in collected && order[k] == collected[hashes[k]]
    ensures Orders(order, collected) && HashesOf(order) == hashes
  {
    hide Increasing, Fixed32;
    IncreasingIsDistinct(hashes);
    forall i, j | 0 <= i < j < |order| ensures order[i] != order[j] {
      assert hashes[i] != hashes[j];
    }
    forall hash | hash in collected ensures collected[hash] in order {
      assert hash in hashes;
      var k :| 0 <= k < |hashes| && hashes[k] == hash;
      assert order[k] == collected[hash];
    }
  }

  // Marking one message at a time.

  function DisputeFirst(messages: map<Bytes, Projection>, ids: seq<Bytes>, e: Reorganization, incident: Incident)
    : (r: map<Bytes, Projection>)
    ensures r.Keys == messages.Keys
  {
    map id | id in messages :: if id in ids then Dispute(messages[id], e, incident) else messages[id]
  }

  lemma DisputeNext(messages: map<Bytes, Projection>, ids: seq<Bytes>, i: nat, e: Reorganization, incident: Incident)
    requires NoRepeats(ids) && i < |ids| && ids[i] in messages
    ensures DisputeFirst(messages, ids[..i], e, incident)[ids[i]] == messages[ids[i]]
    ensures DisputeFirst(messages, ids[..i + 1], e, incident)
            == DisputeFirst(messages, ids[..i], e, incident)[ids[i] := Dispute(messages[ids[i]], e, incident)]
    ensures Dispute(messages[ids[i]], e, incident)
            == if messages[ids[i]].disputed then messages[ids[i]]
               else messages[ids[i]].(disputed := true, reorganization := Some(e), incident := Some(incident))
  {
    assert ids[..i + 1] == ids[..i] + [ids[i]];
    assert ids[i] !in ids[..i];
  }

  lemma PresentWhenDisputable(s: State, e: Reorganization)
    requires Aligned(e) && AllDisputable(s, e, LeadPolicy(s, e), |e.affectedMessageIds|)
    ensures forall i :: 0 <= i < |e.affectedMessageIds| ==> e.affectedMessageIds[i] in s.messages
  {
    hide Affected, Policy, LeadPolicy, AlignedAt, NoRepeats;
    forall i | 0 <= i < |e.affectedMessageIds| ensures e.affectedMessageIds[i] in s.messages {
      assert Disputable(s, e, i, LeadPolicy(s, e));
    }
  }

  // Snapshots.

  lemma SnapshotLists(checks: Checks, s: State, ids: seq<Bytes>, snapshot: seq<Projection>)
    requires Inv(checks, s) && Increasing(ids) && Enumerates(ids, s.messages.Keys) && |snapshot| == |ids|
    requires forall k :: 0 <= k < |ids| ==> ids[k] in s.messages && snapshot[k] == s.messages[ids[k]]
    ensures Lists(snapshot, s)
    ensures seq(|snapshot|, i requires 0 <= i < |snapshot| => snapshot[i].messageId) == ids
  {
    hide MessageOk, RoutesOk, Increasing;
    IncreasingIsDistinct(ids);
    forall k | 0 <= k < |ids| ensures snapshot[k].messageId == ids[k] {
    }
    forall id | id in s.messages ensures id in Ids(snapshot) {
      assert id in ids;
      var k :| 0 <= k < |ids| && ids[k] == id;
    }
  }
}
