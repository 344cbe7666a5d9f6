/**
 * The shard stage tracker: per-shard statistics (stage, when it became
 * ready, how often it restarted) and a count of connected shards, updated
 * one stage-change notification at a time.
 */
module Shards {
  import opened Wrappers

  /** The gateway's connection stages. */
  datatype Stage = Connected | Connecting | Disconnected | Handshake | Identifying | Resuming

  /** A wall-clock reading, supplied by the caller. */
  type Instant = int

  type ShardId = nat

  datatype ShardStats = ShardStats(stage: Stage, readyAt: Option<Instant>, restarts: nat)

  /** A stage-change notification for one shard. */
  datatype StageEvent = StageEvent(shardId: ShardId, oldStage: Stage, newStage: Stage)

  /** The tracker's whole state: the per-shard map and the connected-shard counter. */
  datatype Tracker = Tracker(shards: map<ShardId, ShardStats>, connected: int)

  /** The statistics a shard starts with when first seen. */
  function FreshStats(stage: Stage): ShardStats {
    ShardStats(stage, None, 0)
  }

  /**
   * One notification, as the handler processes it: a `Connected` old stage
   * counts as a disconnection whatever the new stage is.
   */
  function StageStep(t: Tracker, e: StageEvent, now: Instant): (t': Tracker)
    ensures e.shardId in t'.shards && t'.shards[e.shardId].stage == e.newStage
    ensures forall s :: s != e.shardId ==> (s in t'.shards <==> s in t.shards)
    ensures forall s :: s in t.shards && s != e.shardId ==> t'.shards[s] == t.shards[s]
    ensures var isNew := e.shardId !in t.shards;
      var before := if isNew then FreshStats(e.newStage) else t.shards[e.shardId];
      var after := t'.shards[e.shardId];
      && after.restarts >= before.restarts
      && (e.oldStage == Connected ==> after.readyAt == None && t'.connected == t.connected - 1 && after.restarts == before.restarts)
      && (e.oldStage != Connected && e.newStage == Connected ==>
            && after.readyAt == Some(now)
            && (t'.connected == t.connected + 1 <==> before.readyAt.None? || isNew)
            && (t'.connected == t.connected <==> !(before.readyAt.None? || isNew))
            && after.restarts == if isNew then before.restarts else before.restarts + 1)
      && (e.oldStage != Connected && e.newStage != Connected ==>
            after == before.(stage := e.newStage) && t'.connected == t.connected)
  {
    var isNew := e.shardId !in t.shards;
    var stats := (if isNew then FreshStats(e.newStage) else t.shards[e.shardId]).(stage := e.newStage);
    if e.oldStage == Connected then
      Tracker(t.shards[e.shardId := stats.(readyAt := None)], t.connected - 1)
    else if e.newStage == Connected then
      var inc := if stats.readyAt.None? || isNew then 1 else 0;
      var restarts := if isNew then stats.restarts else stats.restarts + 1;
      Tracker(t.shards[e.shardId := stats.(readyAt := Some(now), restarts := restarts)], t.connected + inc)
    else
      Tracker(t.shards[e.shardId := stats], t.connected)
  }

  /** The tracker as the event handler holds it. */
  class ShardTracker {
    var shards: map<ShardId, ShardStats>
    var connectedShards: int

    function State(): Tracker
      reads this
    {
      Tracker(shards, connectedShards)
    }

    constructor ()
      ensures shards == map[] && connectedShards == 0
    {
      shards := map[];
      connectedShards := 0;
    }

    /** Handles one stage-change notification received at time `now`. */
    method StageUpdate(e: StageEvent, now: Instant)
      modifies this
      ensures State() == StageStep(old(State()), e, now)
      ensures e.shardId in shards && shards[e.shardId].stage == e.newStage
      ensures forall s :: s in old(shards) && s != e.shardId ==> s in shards && shards[s] == old(shards)[s]
    {
      var id := e.shardId;
      var newShard := id !in shards;
      if newShard {
        shards := shards[id := FreshStats(e.newStage)];
      }
      var stats := shards[id];
      stats := stats.(stage := e.newStage);
      if e.oldStage == Connected {
        stats := stats.(readyAt := None);
        connectedShards := connectedShards - 1;
      } else if e.newStage == Connected {
        if stats.readyAt.None? || newShard {
          connectedShards := connectedShards + 1;
        }
        if !newShard {
          stats := stats.(restarts := stats.restarts + 1);
        }
        stats := stats.(readyAt := Some(now));
      }
      shards := shards[id := stats];
    }
  }

  // ---------------------------------------------------------------------
  // The counter against the map

  /** The shards whose stored stage is `Connected`. */
  function ConnectedSet(shards: map<ShardId, ShardStats>): set<ShardId> {
    set s | s in shards && shards[s].stage == Connected
  }

  /** The counter matches the map, and a shard is ready exactly while connected. */
  predicate Consistent(t: Tracker) {
    && t.connected == |ConnectedSet(t.shards)|
    && forall s :: s in t.shards ==> (t.shards[s].stage == Connected <==> t.shards[s].readyAt.Some?)
  }

  /** The notification agrees with what the tracker has stored. */
  predicate Faithful(t: Tracker, e: StageEvent) {
    if e.shardId in t.shards then e.oldStage == t.shards[e.shardId].stage else e.oldStage != Connected
  }

  /**
   * A repeated "still connected" notification for a shard stored as
   * connected drops the counter and clears `readyAt` while the shard stays
   * `Connected`: the counter no longer matches the map.
   */
  lemma DuplicateConnectedDrifts(t: Tracker, e: StageEvent, now: Instant)
    requires Consistent(t) && e.oldStage == Connected && e.newStage == Connected
    requires e.shardId in t.shards && t.shards[e.shardId].stage == Connected
    ensures var t' := StageStep(t, e, now);
      && t'.connected == t.connected - 1
      && t'.shards[e.shardId].stage == Connected && t'.shards[e.shardId].readyAt.None?
      && !Consistent(t')
  {
    var t' := StageStep(t, e, now);
    ConnectedSetUpdate(t.shards, e.shardId, t'.shards[e.shardId]);
    assert t'.shards == t.shards[e.shardId := t'.shards[e.shardId]];
    assert ConnectedSet(t'.shards) == ConnectedSet(t.shards);
  }

  /** Shard 7, stored as connected and ready with the counter at 1, drifts to 0. */
  lemma DuplicateConnectedExample(now: Instant)
    ensures var t := Tracker(map[7 := ShardStats(Connected, Some(now), 0)], 1);
      var e := StageEvent(7, Connected, Connected);
      && Consistent(t) && Faithful(t, e)
      && var t' := StageStep(t, e, now);
      t'.connected == 0 && t'.shards[7].stage == Connected && !Consistent(t')
  {
    var t := Tracker(map[7 := ShardStats(Connected, Some(now), 0)], 1);
    assert ConnectedSet(t.shards) == {7};
    DuplicateConnectedDrifts(t, StageEvent(7, Connected, Connected), now);
  }

  /**
   * The step with the disconnection branch guarded by `new != Connected`: a
   * duplicate `Connected -> Connected` notification changes nothing.
   */
  function GuardedStageStep(t: Tracker, e: StageEvent, now: Instant): (t': Tracker)
    ensures e.shardId in t'.shards && t'.shards[e.shardId].stage == e.newStage
    ensures forall s :: s != e.shardId ==> (s in t'.shards <==> s in t.shards)
    ensures forall s :: s in t.shards && s != e.shardId ==> t'.shards[s] == t.shards[s]
  {
    var isNew := e.shardId !in t.shards;
    var stats := (if isNew then FreshStats(e.newStage) else t.shards[e.shardId]).(stage := e.newStage);
    if e.oldStage == Connected && e.newStage != Connected then
      Tracker(t.shards[e.shardId := stats.(readyAt := None)], t.connected - 1)
    else if e.oldStage != Connected && e.newStage == Connected then
      var inc := if stats.readyAt.None? || isNew then 1 else 0;
      var restarts := if isNew then stats.restarts else stats.restarts + 1;
      Tracker(t.shards[e.shardId := stats.(readyAt := Some(now), restarts := restarts)], t.connected + inc)
    else
      Tracker(t.shards[e.shardId := stats], t.connected)
  }

  /** Updating one shard moves it into or out of the connected set and touches no other. */
  lemma ConnectedCountUpdate(shards: map<ShardId, ShardStats>, id: ShardId, stats: ShardStats)
    ensures |ConnectedSet(shards[id := stats])|
      == |ConnectedSet(shards)|
         - (if id in ConnectedSet(shards) then 1 else 0)
         + (if stats.stage == Connected then 1 else 0)
  {
    var rest := ConnectedSet(shards) - {id};
    ConnectedSetUpdate(shards, id, stats);
    if id in ConnectedSet(shards) {
      assert ConnectedSet(shards) == rest + {id};
    } else {
      assert ConnectedSet(shards) == rest;
    }
  }

  lemma ConnectedSetUpdate(shards: map<ShardId, ShardStats>, id: ShardId, stats: ShardStats)
    ensures ConnectedSet(shards[id := stats])
      == (ConnectedSet(shards) - {id}) + if stats.stage == Connected then {id} else {}
  {
  }

  /** Over notifications that agree with the stored stages, the guarded step keeps the counter exact. */
  lemma GuardedStepKeepsCount(t: Tracker, e: StageEvent, now: Instant)
    requires Consistent(t) && Faithful(t, e)
    ensures Consistent(GuardedStageStep(t, e, now))
  {
    var t' := GuardedStageStep(t, e, now);
    ConnectedCountUpdate(t.shards, e.shardId, t'.shards[e.shardId]);
    assert t'.shards == t.shards[e.shardId := t'.shards[e.shardId]];
  }

  /**
   * A notification into `Connected` keeps the counter exact whatever the
   * tracker stored for the shard: after a missed disconnection the shard is
   * still ready, and it is not counted twice.
   */
  lemma IntoConnectedKeepsCount(t: Tracker, e: StageEvent, now: Instant)
    requires Consistent(t) && e.oldStage != Connected && e.newStage == Connected
    ensures Consistent(StageStep(t, e, now))
  {
    var t' := StageStep(t, e, now);
    ConnectedCountUpdate(t.shards, e.shardId, t'.shards[e.shardId]);
    assert t'.shards == t.shards[e.shardId := t'.shards[e.shardId]];
  }

  /** Apart from the duplicate notification, the step as written is the guarded step. */
  lemma StepAgreesUnlessDuplicate(t: Tracker, e: StageEvent, now: Instant)
    requires !(e.oldStage == Connected && e.newStage == Connected)
    ensures StageStep(t, e, now) == GuardedStageStep(t, e, now)
  {
  }

  /** So the step as written keeps the counter exact over every other faithful notification. */
  lemma StepKeepsCountUnlessDuplicate(t: Tracker, e: StageEvent, now: Instant)
    requires Consistent(t) && Faithful(t, e)
    requires !(e.oldStage == Connected && e.newStage == Connected)
    ensures Consistent(StageStep(t, e, now))
  {
    StepAgreesUnlessDuplicate(t, e, now);
    GuardedStepKeepsCount(t, e, now);
  }

  /**
   * A shard identifies and connects, drops, resumes and connects again: it
   * is counted once while connected, and the second connection is one
   * restart.
   */
  lemma ReconnectScenario(t0: Instant, t1: Instant)
    ensures var a := StageStep(Tracker(map[], 0), StageEvent(3, Identifying, Connected), t0);
      var b := StageStep(a, StageEvent(3, Connected, Disconnected), t1);
      var c := StageStep(b, StageEvent(3, Disconnected, Resuming), t1);
      var d := StageStep(c, StageEvent(3, Resuming, Connected), t1);
      && a == Tracker(map[3 := ShardStats(Connected, Some(t0), 0)], 1)
      && b == Tracker(map[3 := ShardStats(Disconnected, None, 0)], 0)
      && d == Tracker(map[3 := ShardStats(Connected, Some(t1), 1)], 1)
  {
  }
}
