/**
 * The per-vehicle transit state machine of ZoneCompute: `update_vehicle`
 * applied to one position record, the five event payloads it can send, and
 * `handle_feed` folding it over a batch in order.
 *
 * The vehicle table is a `map` from vehicle id to `Vehicle`; instead of
 * handing each event to a message handler, a step returns the events it
 * would have sent, in order.
 */
module Zone {
  import opened Wrappers
  import opened Geo

  /** The parts of a zone's configuration the engine reads. */
  datatype ZoneConfig = ZoneConfig(moduleName: string, moduleId: string, path: seq<Position>, finishIndex: nat)

  /**
   * `intersect` reads `PATH[index]` and `PATH[index + 1]` without wrapping
   * round, for the start line (index 0) and the finish line.
   */
  predicate ValidConfig(cfg: ZoneConfig) {
    cfg.finishIndex + 1 < |cfg.path|
  }

  /** One entity of a feed batch. */
  datatype PositionRecord = PositionRecord(vehicleId: string, routeId: string, lat: real, lng: real, ts: int)

  function PositionOf(rec: PositionRecord): Position {
    Position(rec.lat, rec.lng, rec.ts)
  }

  /**
   * What the zone remembers of a vehicle: its last two positions, whether
   * each was inside the zone, and the start of a transit in progress
   * (`startTs > 0` means there is one).
   */
  datatype Vehicle = Vehicle(
    vehicleId: string,
    routeId: string,
    position: Position,
    prevPosition: Position,
    within: bool,
    prevWithin: bool,
    startTs: int,
    startTsDelta: int)

  /**
   * A vehicle seen for the first time: filed under the report's id with the
   * report's position and `inside` flag, no transit started, and no step
   * behind it yet.
   */
  function NewVehicle(cfg: ZoneConfig, rec: PositionRecord): (v: Vehicle)
    ensures v.vehicleId == rec.vehicleId && v.routeId == rec.routeId
    ensures v.position == PositionOf(rec) && v.within == Inside(cfg.path, PositionOf(rec))
    ensures v.startTs == 0 && v.startTsDelta == 0
    ensures StepDelta(v) == 0
  {
    var p := PositionOf(rec);
    var within := Inside(cfg.path, p);
    Vehicle(rec.vehicleId, rec.routeId, p, p, within, within, 0, 0)
  }

  /**
   * `v.update(record)` then `v.within = inside(v.position)`: the current
   * position and flag become the previous ones, the report's become
   * current, and the step's duration is the time since the last report.
   * The id and any transit start are kept.
   */
  function Advance(cfg: ZoneConfig, v: Vehicle, rec: PositionRecord): (r: Vehicle)
    ensures r.vehicleId == v.vehicleId && r.startTs == v.startTs && r.startTsDelta == v.startTsDelta
    ensures r.prevPosition == v.position && r.prevWithin == v.within
    ensures r.position == PositionOf(rec) && r.within == Inside(cfg.path, PositionOf(rec))
    ensures StepDelta(r) == rec.ts - v.position.ts
  {
    var p := PositionOf(rec);
    v.(routeId := rec.routeId,
       prevPosition := v.position, position := p,
       prevWithin := v.within, within := Inside(cfg.path, p))
  }

  /** The duration of the vehicle's last reported step. */
  function StepDelta(v: Vehicle): int {
    v.position.ts - v.prevPosition.ts
  }

  /** The start line is edge 0 of the polygon. */
  function StartLine(cfg: ZoneConfig, v: Vehicle): Crossing
    requires ValidConfig(cfg)
  {
    Intersect(v.prevPosition, v.position, cfg.path[0], cfg.path[1])
  }

  /** The finish line is the edge from vertex `finishIndex` to the next. */
  function FinishLine(cfg: ZoneConfig, v: Vehicle): Crossing
    requires ValidConfig(cfg)
  {
    Intersect(v.prevPosition, v.position, cfg.path[cfg.finishIndex], cfg.path[cfg.finishIndex + 1])
  }

  // ---------------------------------------------------------------------------
  // Events
  // ---------------------------------------------------------------------------

  /** The `msg_type` values the zone sends. A finish without a start is sent as `ZoneExit`. */
  datatype MsgType = ZoneStart | ZoneEntry | ZoneCompletion | ZoneExit

  /** A zone message; `duration` is present on completions only. */
  datatype ZoneEvent = ZoneEvent(
    moduleName: string,
    moduleId: string,
    msgType: MsgType,
    vehicleId: string,
    routeId: string,
    ts: int,
    tsDelta: int,
    duration: Option<int>)

  /** `zone_start`: the interpolated start time and the step in which it was found. */
  function StartMsg(cfg: ZoneConfig, v: Vehicle): ZoneEvent {
    ZoneEvent(cfg.moduleName, cfg.moduleId, ZoneStart, v.vehicleId, v.routeId, v.startTs, v.startTsDelta, None)
  }

  /** `zone_entry`: entered other than over the start line, at the time of the report. */
  function EntryMsg(cfg: ZoneConfig, v: Vehicle): ZoneEvent {
    ZoneEvent(cfg.moduleName, cfg.moduleId, ZoneEntry, v.vehicleId, v.routeId, v.position.ts, StepDelta(v), None)
  }

  /** `zone_completion`: the transit time, with both steps' durations as its uncertainty. */
  function CompletionMsg(cfg: ZoneConfig, v: Vehicle, finishTs: int): ZoneEvent {
    ZoneEvent(cfg.moduleName, cfg.moduleId, ZoneCompletion, v.vehicleId, v.routeId,
              finishTs, StepDelta(v) + v.startTsDelta, Some(finishTs - v.startTs))
  }

  /** `zone_finish_no_start`: over the finish line with no start recorded, sent as an exit. */
  function FinishNoStartMsg(cfg: ZoneConfig, v: Vehicle, finishTs: int): ZoneEvent {
    ZoneEvent(cfg.moduleName, cfg.moduleId, ZoneExit, v.vehicleId, v.routeId, finishTs, StepDelta(v), None)
  }

  /** `zone_exit`: left other than over the finish line, at the time of the report. */
  function ExitMsg(cfg: ZoneConfig, v: Vehicle): ZoneEvent {
    ZoneEvent(cfg.moduleName, cfg.moduleId, ZoneExit, v.vehicleId, v.routeId, v.position.ts, StepDelta(v), None)
  }

  // ---------------------------------------------------------------------------
  // The state machine
  // ---------------------------------------------------------------------------

  /** The vehicle table after a step and the events the step sent, in order. */
  datatype Step = Step(vehicles: map<string, Vehicle>, events: seq<ZoneEvent>)

  /** A vehicle after its step has been classified, with the events the step sent. */
  datatype Outcome = Outcome(vehicle: Vehicle, events: seq<ZoneEvent>)

  /**
   * The branches of `update_vehicle` for a known vehicle `v`, already
   * advanced to its new report: classify the step by the previous and
   * current membership. Only the transit start can change, and at most one
   * event is sent, about `v`.
   */
  function Transition(cfg: ZoneConfig, v: Vehicle): (o: Outcome)
    requires ValidConfig(cfg)
    ensures o.vehicle == v.(startTs := o.vehicle.startTs, startTsDelta := o.vehicle.startTsDelta)
    ensures |o.events| <= 1
    ensures forall e :: e in o.events ==>
      e.vehicleId == v.vehicleId && e.routeId == v.routeId
      && e.moduleId == cfg.moduleId && e.moduleName == cfg.moduleName
  {
    if v.within && !v.prevWithin then
      var i := StartLine(cfg, v);
      if i.Hit? then
        var started := v.(startTs := i.at.ts, startTsDelta := StepDelta(v));
        Outcome(started, [StartMsg(cfg, started)])
      else
        Outcome(v, [EntryMsg(cfg, v)])
    else if v.within && v.prevWithin then
      Outcome(v, [])
    else if !v.within && v.prevWithin then
      var i := FinishLine(cfg, v);
      var event :=
        if i.Hit? then
          if v.startTs > 0 then CompletionMsg(cfg, v, i.at.ts) else FinishNoStartMsg(cfg, v, i.at.ts)
        else
          ExitMsg(cfg, v);
      Outcome(v.(startTs := 0, startTsDelta := 0), [event])
    else
      Outcome(v, [])
  }

  /**
   * `update_vehicle`: store a vehicle seen for the first time, or advance a
   * known one and classify its step. At most one event is sent, and only
   * for a vehicle already known, about that vehicle and this report's route.
   */
  function UpdateVehicle(cfg: ZoneConfig, vehicles: map<string, Vehicle>, rec: PositionRecord): (r: Step)
    requires ValidConfig(cfg)
    ensures |r.events| <= 1
    ensures forall e :: e in r.events ==>
      && rec.vehicleId in vehicles && e.vehicleId == vehicles[rec.vehicleId].vehicleId
      && e.routeId == rec.routeId && e.moduleId == cfg.moduleId && e.moduleName == cfg.moduleName
  {
    var id := rec.vehicleId;
    if id !in vehicles then
      Step(vehicles[id := NewVehicle(cfg, rec)], [])
    else
      var o := Transition(cfg, Advance(cfg, vehicles[id], rec));
      Step(vehicles[id := o.vehicle], o.events)
  }

  /**
   * Only the record's vehicle is touched: the table gains its id if it was
   * new, every other entry is unchanged, and the entry now holds the
   * report's position, its membership and its route, under the id it had.
   */
  lemma UpdateVehicleFrame(cfg: ZoneConfig, vehicles: map<string, Vehicle>, rec: PositionRecord)
    requires ValidConfig(cfg)
    ensures var r := UpdateVehicle(cfg, vehicles, rec);
            && r.vehicles.Keys == vehicles.Keys + {rec.vehicleId}
            && (forall id :: id in vehicles && id != rec.vehicleId ==> r.vehicles[id] == vehicles[id])
            && r.vehicles[rec.vehicleId].position == PositionOf(rec)
            && r.vehicles[rec.vehicleId].within == Inside(cfg.path, PositionOf(rec))
            && r.vehicles[rec.vehicleId].routeId == rec.routeId
            && r.vehicles[rec.vehicleId].vehicleId
               == if rec.vehicleId in vehicles then vehicles[rec.vehicleId].vehicleId else rec.vehicleId
  {
  }

  /** A first sighting stores the vehicle with no transit started and sends nothing. */
  lemma FirstSighting(cfg: ZoneConfig, vehicles: map<string, Vehicle>, rec: PositionRecord)
    requires ValidConfig(cfg) && rec.vehicleId !in vehicles
    ensures UpdateVehicle(cfg, vehicles, rec).events == []
    ensures UpdateVehicle(cfg, vehicles, rec).vehicles[rec.vehicleId].within == Inside(cfg.path, PositionOf(rec))
    ensures UpdateVehicle(cfg, vehicles, rec).vehicles[rec.vehicleId].startTs == 0
    ensures UpdateVehicle(cfg, vehicles, rec).vehicles[rec.vehicleId].startTsDelta == 0
  {
  }

  /**
   * A known vehicle whose membership does not change (inside to inside, or
   * outside to outside) sends nothing and keeps its transit start.
   */
  lemma QuietStep(cfg: ZoneConfig, vehicles: map<string, Vehicle>, rec: PositionRecord)
    requires ValidConfig(cfg) && rec.vehicleId in vehicles
    requires Inside(cfg.path, PositionOf(rec)) == vehicles[rec.vehicleId].within
    ensures UpdateVehicle(cfg, vehicles, rec).events == []
    ensures UpdateVehicle(cfg, vehicles, rec).vehicles[rec.vehicleId].startTs == vehicles[rec.vehicleId].startTs
    ensures UpdateVehicle(cfg, vehicles, rec).vehicles[rec.vehicleId].startTsDelta == vehicles[rec.vehicleId].startTsDelta
    ensures UpdateVehicle(cfg, vehicles, rec).vehicles[rec.vehicleId].prevPosition == vehicles[rec.vehicleId].position
  {
  }

  /**
   * Outside to inside: a ZONE_START exactly when the step crosses the start
   * line, recording the crossing time and the step's duration as the
   * transit start; otherwise a ZONE_ENTRY at the report's time, with the
   * transit start untouched.
   */
  lemma Entering(cfg: ZoneConfig, vehicles: map<string, Vehicle>, rec: PositionRecord)
    requires ValidConfig(cfg) && rec.vehicleId in vehicles
    requires !vehicles[rec.vehicleId].within && Inside(cfg.path, PositionOf(rec))
    ensures var old_ := vehicles[rec.vehicleId];
            var r := UpdateVehicle(cfg, vehicles, rec);
            var cross := Intersect(old_.position, PositionOf(rec), cfg.path[0], cfg.path[1]);
            && |r.events| == 1
            && r.events[0].duration.None?
            && (r.events[0].msgType == ZoneStart <==> cross.Hit?)
            && (cross.Hit? ==>
                  && r.events[0].ts == r.vehicles[rec.vehicleId].startTs == cross.at.ts
                  && r.events[0].tsDelta == r.vehicles[rec.vehicleId].startTsDelta == rec.ts - old_.position.ts)
            && (cross.Miss? ==>
                  && r.events[0].msgType == ZoneEntry
                  && r.events[0].ts == rec.ts
                  && r.events[0].tsDelta == rec.ts - old_.position.ts
                  && r.vehicles[rec.vehicleId].startTs == old_.startTs
                  && r.vehicles[rec.vehicleId].startTsDelta == old_.startTsDelta)
  {
  }

  /**
   * Inside to outside: a ZONE_COMPLETION exactly when the step crosses the
   * finish line and a start is recorded, carrying the transit duration and
   * the summed step durations; otherwise a ZONE_EXIT, timed at the finish
   * crossing if there was one and at the report otherwise. Either way the
   * transit start is cleared.
   */
  lemma Leaving(cfg: ZoneConfig, vehicles: map<string, Vehicle>, rec: PositionRecord)
    requires ValidConfig(cfg) && rec.vehicleId in vehicles
    requires vehicles[rec.vehicleId].within && !Inside(cfg.path, PositionOf(rec))
    ensures var old_ := vehicles[rec.vehicleId];
            var r := UpdateVehicle(cfg, vehicles, rec);
            var cross := Intersect(old_.position, PositionOf(rec),
                                   cfg.path[cfg.finishIndex], cfg.path[cfg.finishIndex + 1]);
            && |r.events| == 1
            && r.vehicles[rec.vehicleId].startTs == 0
            && r.vehicles[rec.vehicleId].startTsDelta == 0
            && (r.events[0].msgType == ZoneCompletion <==> cross.Hit? && old_.startTs > 0)
            && (r.events[0].msgType == ZoneCompletion ==>
                  && r.events[0].ts == cross.at.ts
                  && r.events[0].duration == Some(cross.at.ts - old_.startTs)
                  && r.events[0].tsDelta == (rec.ts - old_.position.ts) + old_.startTsDelta)
            && (r.events[0].msgType != ZoneCompletion ==>
                  && r.events[0].msgType == ZoneExit
                  && r.events[0].duration.None?
                  && r.events[0].ts == (if cross.Hit? then cross.at.ts else rec.ts)
                  && r.events[0].tsDelta == rec.ts - old_.position.ts)
  {
  }

  // ---------------------------------------------------------------------------
  // Batches
  // ---------------------------------------------------------------------------

  /** The vehicle ids of a batch. */
  function BatchIds(batch: seq<PositionRecord>): set<string> {
    set i | 0 <= i < |batch| :: batch[i].vehicleId
  }

  lemma BatchIdsSnoc(batch: seq<PositionRecord>)
    requires |batch| > 0
    ensures BatchIds(batch) == BatchIds(batch[..|batch| - 1]) + {batch[|batch| - 1].vehicleId}
  {
    var prefix := batch[..|batch| - 1];
    forall id | id in BatchIds(batch)
      ensures id in BatchIds(prefix) + {batch[|batch| - 1].vehicleId}
    {
      var i :| 0 <= i < |batch| && batch[i].vehicleId == id;
      if i < |batch| - 1 {
        assert prefix[i] == batch[i];
      }
    }
    forall id | id in BatchIds(prefix)
      ensures id in BatchIds(batch)
    {
      var i :| 0 <= i < |prefix| && prefix[i].vehicleId == id;
      assert batch[i] == prefix[i];
    }
  }

  /**
   * `handle_feed`: `update_vehicle` on each record of the batch, in order;
   * each record sends at most one event.
   */
  function HandleFeed(cfg: ZoneConfig, vehicles: map<string, Vehicle>, batch: seq<PositionRecord>): (r: Step)
    requires ValidConfig(cfg)
    ensures |r.events| <= |batch|
    decreases |batch|
  {
    if |batch| == 0 then Step(vehicles, [])
    else
      var before := HandleFeed(cfg, vehicles, batch[..|batch| - 1]);
      var last := UpdateVehicle(cfg, before.vehicles, batch[|batch| - 1]);
      Step(last.vehicles, before.events + last.events)
  }

  /** The table gains exactly the batch's new ids, and a vehicle not in the batch is left as it was. */
  lemma {:induction false} HandleFeedFrame(cfg: ZoneConfig, vehicles: map<string, Vehicle>, batch: seq<PositionRecord>)
    requires ValidConfig(cfg)
    ensures var r := HandleFeed(cfg, vehicles, batch);
            && r.vehicles.Keys == vehicles.Keys + BatchIds(batch)
            && forall id :: id in vehicles && id !in BatchIds(batch) ==> r.vehicles[id] == vehicles[id]
    decreases |batch|
  {
    if |batch| > 0 {
      var prefix := batch[..|batch| - 1];
      var before := HandleFeed(cfg, vehicles, prefix);
      HandleFeedFrame(cfg, vehicles, prefix);
      UpdateVehicleFrame(cfg, before.vehicles, batch[|batch| - 1]);
      BatchIdsSnoc(batch);
    }
  }

  /** A batch with one more record: the old batch's result, then that record's step. */
  lemma HandleFeedSnoc(cfg: ZoneConfig, vehicles: map<string, Vehicle>, batch: seq<PositionRecord>, rec: PositionRecord)
    requires ValidConfig(cfg)
    ensures var before := HandleFeed(cfg, vehicles, batch);
            var last := UpdateVehicle(cfg, before.vehicles, rec);
            HandleFeed(cfg, vehicles, batch + [rec]) == Step(last.vehicles, before.events + last.events)
  {
    assert (batch + [rec])[..|batch|] == batch;
  }

  /**
   * The table invariant the state machine keeps: every entry is filed under
   * its own id, and a vehicle outside the zone has no transit start.
   */
  ghost predicate Consistent(vehicles: map<string, Vehicle>) {
    forall id :: id in vehicles ==>
      && vehicles[id].vehicleId == id
      && (!vehicles[id].within ==> vehicles[id].startTs == 0 && vehicles[id].startTsDelta == 0)
  }

  lemma UpdateKeepsConsistent(cfg: ZoneConfig, vehicles: map<string, Vehicle>, rec: PositionRecord)
    requires ValidConfig(cfg) && Consistent(vehicles)
    ensures Consistent(UpdateVehicle(cfg, vehicles, rec).vehicles)
  {
    UpdateVehicleFrame(cfg, vehicles, rec);
  }

  /** Every batch keeps the table invariant. */
  lemma {:induction false} HandleFeedKeepsConsistent(cfg: ZoneConfig, vehicles: map<string, Vehicle>, batch: seq<PositionRecord>)
    requires ValidConfig(cfg) && Consistent(vehicles)
    ensures Consistent(HandleFeed(cfg, vehicles, batch).vehicles)
    decreases |batch|
  {
    if |batch| > 0 {
      var before := HandleFeed(cfg, vehicles, batch[..|batch| - 1]);
      HandleFeedKeepsConsistent(cfg, vehicles, batch[..|batch| - 1]);
      UpdateKeepsConsistent(cfg, before.vehicles, batch[|batch| - 1]);
    }
  }

  /**
   * What classifying one step does to the transit start: a start held
   * afterwards was held before or was set by the ZONE_START just sent, and
   * a completion is only sent when a start was held.
   */
  lemma TransitionStarts(cfg: ZoneConfig, v: Vehicle)
    requires ValidConfig(cfg)
    ensures var o := Transition(cfg, v);
            && (o.vehicle.startTs > 0 ==>
                  v.startTs > 0 || (|o.events| == 1 && o.events[0].msgType == ZoneStart))
            && (forall e :: e in o.events && e.msgType == ZoneCompletion ==> v.startTs > 0)
  {
  }

  /**
   * The same for a whole step of the table: a start held afterwards was
   * held before or was set by the ZONE_START the step sent for that
   * vehicle, and a completion is only sent for a vehicle that held a start.
   */
  lemma StartsOfAStep(cfg: ZoneConfig, vehicles: map<string, Vehicle>, rec: PositionRecord)
    requires ValidConfig(cfg) && Consistent(vehicles)
    ensures var r := UpdateVehicle(cfg, vehicles, rec);
            && (forall id :: id in r.vehicles && r.vehicles[id].startTs > 0 ==>
                  || (id in vehicles && vehicles[id].startTs > 0)
                  || (|r.events| == 1 && r.events[0].msgType == ZoneStart && r.events[0].vehicleId == id))
            && (forall e :: e in r.events && e.msgType == ZoneCompletion ==>
                  e.vehicleId in vehicles && vehicles[e.vehicleId].startTs > 0)
  {
    UpdateVehicleFrame(cfg, vehicles, rec);
    var id := rec.vehicleId;
    if id in vehicles {
      var v := Advance(cfg, vehicles[id], rec);
      TransitionStarts(cfg, v);
    }
  }

  /** Some event among the first `k` is a ZONE_START for vehicle `id`. */
  ghost predicate StartedBefore(events: seq<ZoneEvent>, id: string, k: int) {
    exists j :: 0 <= j < k && j < |events| && events[j].msgType == ZoneStart && events[j].vehicleId == id
  }

  /**
   * A transit start held after a batch was either carried into it or set by
   * a ZONE_START the batch sent for that vehicle.
   */
  lemma {:induction false} StartIsExplained(cfg: ZoneConfig, vehicles: map<string, Vehicle>, batch: seq<PositionRecord>, id: string)
    requires ValidConfig(cfg) && Consistent(vehicles)
    requires id in HandleFeed(cfg, vehicles, batch).vehicles
    requires HandleFeed(cfg, vehicles, batch).vehicles[id].startTs > 0
    ensures (id in vehicles && vehicles[id].startTs > 0)
            || StartedBefore(HandleFeed(cfg, vehicles, batch).events, id, |HandleFeed(cfg, vehicles, batch).events|)
    decreases |batch|
  {
    if |batch| > 0 {
      var prefix := batch[..|batch| - 1];
      var rec := batch[|batch| - 1];
      var before := HandleFeed(cfg, vehicles, prefix);
      var last := UpdateVehicle(cfg, before.vehicles, rec);
      var all := before.events + last.events;
      assert HandleFeed(cfg, vehicles, batch) == Step(last.vehicles, all);
      HandleFeedKeepsConsistent(cfg, vehicles, prefix);
      StartsOfAStep(cfg, before.vehicles, rec);
      if |last.events| == 1 && last.events[0].msgType == ZoneStart && last.events[0].vehicleId == id {
        assert all[|before.events|] == last.events[0];
      } else {
        assert id in before.vehicles && before.vehicles[id].startTs > 0;
        StartIsExplained(cfg, vehicles, prefix, id);
        if !(id in vehicles && vehicles[id].startTs > 0) {
          var j :| 0 <= j < |before.events| && before.events[j].msgType == ZoneStart && before.events[j].vehicleId == id;
          assert all[j] == before.events[j];
        }
      }
    }
  }

  /** A start found in a prefix of the output is still found once more events follow. */
  lemma StartedBeforeExtends(events: seq<ZoneEvent>, more: seq<ZoneEvent>, id: string, k: int, k2: int)
    requires StartedBefore(events, id, k) && k <= k2
    ensures StartedBefore(events + more, id, k2)
  {
    var j :| 0 <= j < k && j < |events| && events[j].msgType == ZoneStart && events[j].vehicleId == id;
    assert (events + more)[j] == events[j];
  }

  /**
   * Every ZONE_COMPLETION of a batch follows a ZONE_START for the same
   * vehicle earlier in the batch's output, unless the vehicle came into the
   * batch with a transit start already recorded. In particular a ZONE_ENTRY
   * never leads to a completion on its own.
   */
  lemma {:induction false} CompletionFollowsStart(cfg: ZoneConfig, vehicles: map<string, Vehicle>, batch: seq<PositionRecord>, k: nat)
    requires ValidConfig(cfg) && Consistent(vehicles)
    requires k < |HandleFeed(cfg, vehicles, batch).events|
    requires HandleFeed(cfg, vehicles, batch).events[k].msgType == ZoneCompletion
    ensures var id := HandleFeed(cfg, vehicles, batch).events[k].vehicleId;
            (id in vehicles && vehicles[id].startTs > 0)
            || StartedBefore(HandleFeed(cfg, vehicles, batch).events, id, k)
    decreases |batch|
  {
    var prefix := batch[..|batch| - 1];
    var rec := batch[|batch| - 1];
    var before := HandleFeed(cfg, vehicles, prefix);
    var last := UpdateVehicle(cfg, before.vehicles, rec);
    assert HandleFeed(cfg, vehicles, batch).events == before.events + last.events;
    var e := (before.events + last.events)[k];
    HandleFeedKeepsConsistent(cfg, vehicles, prefix);
    if k < |before.events| {
      assert e == before.events[k];
      CompletionFollowsStart(cfg, vehicles, prefix, k);
      if !(e.vehicleId in vehicles && vehicles[e.vehicleId].startTs > 0) {
        StartedBeforeExtends(before.events, last.events, e.vehicleId, k, k);
      }
    } else {
      assert e in last.events;
      StartsOfAStep(cfg, before.vehicles, rec);
      StartIsExplained(cfg, vehicles, prefix, e.vehicleId);
      if !(e.vehicleId in vehicles && vehicles[e.vehicleId].startTs > 0) {
        StartedBeforeExtends(before.events, last.events, e.vehicleId, |before.events|, k);
      }
    }
  }

  /** For an engine that starts with an empty table, every completion has its start earlier in the output. */
  lemma FreshEngineCompletions(cfg: ZoneConfig, batch: seq<PositionRecord>, k: nat)
    requires ValidConfig(cfg)
    requires k < |HandleFeed(cfg, map[], batch).events|
    requires HandleFeed(cfg, map[], batch).events[k].msgType == ZoneCompletion
    ensures StartedBefore(HandleFeed(cfg, map[], batch).events, HandleFeed(cfg, map[], batch).events[k].vehicleId, k)
  {
    CompletionFollowsStart(cfg, map[], batch, k);
  }

  // ---------------------------------------------------------------------------
  // The completion log line, as written
  // ---------------------------------------------------------------------------

  /** `LocalTime.ofSecondOfDay` accepts only a second within one day. */
  const SECONDS_PER_DAY: int := 86400

  predicate FitsInDay(d: int) {
    0 <= d < SECONDS_PER_DAY
  }

  /**
   * `zone_completion` formats both step durations with
   * `duration_to_time_str` before it sends anything; a duration outside one
   * day makes `LocalTime.ofSecondOfDay` throw.
   */
  predicate CompletionLogThrows(cfg: ZoneConfig, v: Vehicle)
    requires ValidConfig(cfg)
  {
    && !v.within && v.prevWithin && FinishLine(cfg, v).Hit? && v.startTs > 0
    && !(FitsInDay(v.startTsDelta) && FitsInDay(StepDelta(v)))
  }

  /**
   * `update_vehicle` as written: when the completion log line throws, no
   * event is sent and the reset of the transit start is never reached, so
   * the table keeps the advanced vehicle outside the zone with its start
   * still set. Otherwise it is `UpdateVehicle`.
   */
  function UpdateVehicleAsWritten(cfg: ZoneConfig, vehicles: map<string, Vehicle>, rec: PositionRecord)
    : (r: Result<Step, map<string, Vehicle>>)
    requires ValidConfig(cfg)
    ensures r.Failure? <==> rec.vehicleId in vehicles && CompletionLogThrows(cfg, Advance(cfg, vehicles[rec.vehicleId], rec))
    ensures r.Success? ==> r.value == UpdateVehicle(cfg, vehicles, rec)
  {
    var id := rec.vehicleId;
    if id in vehicles && CompletionLogThrows(cfg, Advance(cfg, vehicles[id], rec)) then
      Failure(vehicles[id := Advance(cfg, vehicles[id], rec)])
    else
      Success(UpdateVehicle(cfg, vehicles, rec))
  }

  /**
   * A throw strands the transit start: the vehicle is left outside the
   * zone with its start still set, every other entry is untouched, and the
   * table no longer keeps the invariant the corrected step preserves.
   */
  lemma StrandedStart(cfg: ZoneConfig, vehicles: map<string, Vehicle>, rec: PositionRecord)
    requires ValidConfig(cfg)
    requires UpdateVehicleAsWritten(cfg, vehicles, rec).Failure?
    ensures var table := UpdateVehicleAsWritten(cfg, vehicles, rec).error;
            && table.Keys == vehicles.Keys
            && (forall id :: id in vehicles && id != rec.vehicleId ==> table[id] == vehicles[id])
            && !table[rec.vehicleId].within && table[rec.vehicleId].startTs > 0
            && !Consistent(table)
  {
  }

  /**
   * What the throw loses: on the same table and report, the corrected step
   * sends the ZONE_COMPLETION and clears the start.
   */
  lemma ThrowLosesCompletion(cfg: ZoneConfig, vehicles: map<string, Vehicle>, rec: PositionRecord)
    requires ValidConfig(cfg)
    requires UpdateVehicleAsWritten(cfg, vehicles, rec).Failure?
    ensures var r := UpdateVehicle(cfg, vehicles, rec);
            && |r.events| == 1 && r.events[0].msgType == ZoneCompletion
            && r.vehicles[rec.vehicleId].startTs == 0 && r.vehicles[rec.vehicleId].startTsDelta == 0
  {
  }

  /**
   * `handle_feed` as written: the exception leaves the loop, so the records
   * after the one that threw are not processed. A failure carries the
   * table as it was left and the events sent before the throw.
   */
  function HandleFeedAsWritten(cfg: ZoneConfig, vehicles: map<string, Vehicle>, batch: seq<PositionRecord>)
    : (r: Result<Step, Step>)
    requires ValidConfig(cfg)
    ensures r.Success? ==> r.value == HandleFeed(cfg, vehicles, batch)
    ensures r.Failure? ==> |r.error.events| < |batch|
    decreases |batch|
  {
    if |batch| == 0 then Success(Step(vehicles, []))
    else
      var before := HandleFeedAsWritten(cfg, vehicles, batch[..|batch| - 1]);
      if before.Failure? then before
      else
        match UpdateVehicleAsWritten(cfg, before.value.vehicles, batch[|batch| - 1])
        case Failure(table) => Failure(Step(table, before.value.events))
        case Success(last) => Success(Step(last.vehicles, before.value.events + last.events))
  }

  /** The record that throws ends the batch it closes. */
  lemma ThrowingRecord(cfg: ZoneConfig, vehicles: map<string, Vehicle>, done: seq<PositionRecord>, rec: PositionRecord)
    requires ValidConfig(cfg)
    requires HandleFeedAsWritten(cfg, vehicles, done).Success?
    requires UpdateVehicleAsWritten(cfg, HandleFeed(cfg, vehicles, done).vehicles, rec).Failure?
    ensures HandleFeedAsWritten(cfg, vehicles, done + [rec])
         == Failure(Step(UpdateVehicleAsWritten(cfg, HandleFeed(cfg, vehicles, done).vehicles, rec).error,
                         HandleFeed(cfg, vehicles, done).events))
  {
    var batch := done + [rec];
    assert batch[..|batch| - 1] == done;
  }

  /** A batch that has thrown stays thrown, whatever record comes next. */
  lemma FailureSticks(cfg: ZoneConfig, vehicles: map<string, Vehicle>, batch: seq<PositionRecord>, rec: PositionRecord)
    requires ValidConfig(cfg)
    requires HandleFeedAsWritten(cfg, vehicles, batch).Failure?
    ensures HandleFeedAsWritten(cfg, vehicles, batch + [rec]) == HandleFeedAsWritten(cfg, vehicles, batch)
  {
    assert (batch + [rec])[..|batch|] == batch;
  }

  /** Appending a non-empty suffix is appending all but its last record, then that record. */
  lemma AppendSnoc(batch: seq<PositionRecord>, rest: seq<PositionRecord>)
    requires |rest| > 0
    ensures batch + rest == (batch + rest[..|rest| - 1]) + [rest[|rest| - 1]]
  {
    assert rest == rest[..|rest| - 1] + [rest[|rest| - 1]];
  }

  /** A batch that has thrown stays thrown, whatever records follow. */
  lemma {:induction false} FailureSticksAll(cfg: ZoneConfig, vehicles: map<string, Vehicle>,
                                            batch: seq<PositionRecord>, rest: seq<PositionRecord>)
    requires ValidConfig(cfg)
    requires HandleFeedAsWritten(cfg, vehicles, batch).Failure?
    ensures HandleFeedAsWritten(cfg, vehicles, batch + rest) == HandleFeedAsWritten(cfg, vehicles, batch)
    decreases |rest|
  {
    if |rest| == 0 {
      assert batch + rest == batch;
    } else {
      var shorter := batch + rest[..|rest| - 1];
      AppendSnoc(batch, rest);
      FailureSticksAll(cfg, vehicles, batch, rest[..|rest| - 1]);
      FailureSticks(cfg, vehicles, shorter, rest[|rest| - 1]);
    }
  }

  /**
   * Once a record throws, the rest of the batch is not processed: the
   * result is that record's stranded table with the events sent before it,
   * whatever follows.
   */
  lemma HandleFeedAsWrittenStops(cfg: ZoneConfig, vehicles: map<string, Vehicle>,
                                 done: seq<PositionRecord>, rec: PositionRecord, rest: seq<PositionRecord>)
    requires ValidConfig(cfg)
    requires HandleFeedAsWritten(cfg, vehicles, done).Success?
    requires UpdateVehicleAsWritten(cfg, HandleFeed(cfg, vehicles, done).vehicles, rec).Failure?
    ensures HandleFeedAsWritten(cfg, vehicles, done + [rec] + rest)
         == Failure(Step(UpdateVehicleAsWritten(cfg, HandleFeed(cfg, vehicles, done).vehicles, rec).error,
                         HandleFeed(cfg, vehicles, done).events))
  {
    ThrowingRecord(cfg, vehicles, done, rec);
    FailureSticksAll(cfg, vehicles, done + [rec], rest);
  }
}
