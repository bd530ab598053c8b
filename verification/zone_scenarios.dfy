/**
 * Worked journeys through a square zone, and the membership test on a zone
 * drawn across the 180th meridian.
 *
 * The square has corners (lat, lng) P0 = (0, 0), P1 = (10, 0),
 * P2 = (10, 10), P3 = (0, 10); the start line is P0-P1 (the western edge)
 * and the finish line P2-P3 (the eastern edge).
 */
module ZoneScenarios {
  import opened Wrappers
  import opened Geo
  import opened Zone

  function Corner(lat: real, lng: real): Position {
    Position(lat, lng, 0)
  }

  const Square: seq<Position> := [Corner(0.0, 0.0), Corner(10.0, 0.0), Corner(10.0, 10.0), Corner(0.0, 10.0)]

  const SquareZone := ZoneConfig("zone", "square", Square, 2)

  /** A report from the one vehicle of these journeys. */
  function Report(lat: real, lng: real, ts: int): PositionRecord {
    PositionRecord("bus-1", "route-7", lat, lng, ts)
  }

  function Event(msgType: MsgType, ts: int, tsDelta: int, duration: Option<int>): ZoneEvent {
    ZoneEvent("zone", "square", msgType, "bus-1", "route-7", ts, tsDelta, duration)
  }

  /** The square's box is the square itself. */
  lemma SquareBox()
    ensures BoundingBox(Square) == Box(10.0, 0.0, 10.0, 0.0)
  {
    var b1 := Widen(EmptyBox, Square[0]);
    var b2 := Widen(b1, Square[1]);
    var b3 := Widen(b2, Square[2]);
    assert WidenAll(b3, Square[3..]) == Widen(b3, Square[3]);
    assert WidenAll(b2, Square[2..]) == WidenAll(b3, Square[3..]);
    assert WidenAll(b1, Square[1..]) == WidenAll(b2, Square[2..]);
  }

  /**
   * An east-west edge (both ends on one latitude, not across the dateline)
   * flips exactly the points south of it in its longitude range.
   */
  lemma FlatEdge(last: Position, point: Position, p: Position)
    requires last.lat == point.lat && !JumpsDateline(last.lng, point.lng)
    ensures Toggles(last, point, p) <==>
      && ((last.lng <= p.lng < point.lng) || (point.lng < p.lng <= last.lng))
      && last.lat > p.lat
  {
    var x1, x2 := last.lng, point.lng;
    assert Normalise(x1, x2, p.lng) == (x1, x2);
    TogglesAt(last, point, p, x1, x2);
    if (x1 <= p.lng && x2 > p.lng) || (x1 >= p.lng && x2 < p.lng) {
      FlatGradient(point.lat - last.lat, x2 - x1, p.lng - x1);
    }
  }

  /** The flip test of an edge whose ends normalise to `x1` and `x2`. */
  lemma TogglesAt(last: Position, point: Position, p: Position, x1: real, x2: real)
    requires Normalise(last.lng, point.lng, p.lng) == (x1, x2)
    ensures (x1 <= p.lng && x2 > p.lng) || (x1 >= p.lng && x2 < p.lng) ==>
      (Toggles(last, point, p) <==> last.lat + (p.lng - x1) * ((point.lat - last.lat) / (x2 - x1)) > p.lat)
    ensures !((x1 <= p.lng && x2 > p.lng) || (x1 >= p.lng && x2 < p.lng)) ==> !Toggles(last, point, p)
  {
  }

  /** A level edge rises nowhere along its run. */
  lemma FlatGradient(rise: real, run: real, dx: real)
    requires rise == 0.0 && run != 0.0
    ensures dx * (rise / run) == 0.0
  {
    assert rise / run == 0.0;
  }

  /**
   * An east-west edge whose ends the dateline step moves to `x1` and `x2`
   * flips exactly the points south of it between those longitudes.
   */
  lemma LevelEdge(last: Position, point: Position, p: Position, x1: real, x2: real)
    requires last.lat == point.lat && Normalise(last.lng, point.lng, p.lng) == (x1, x2)
    ensures Toggles(last, point, p) <==>
      && ((x1 <= p.lng < x2) || (x2 < p.lng <= x1))
      && last.lat > p.lat
  {
    TogglesAt(last, point, p, x1, x2);
    if (x1 <= p.lng && x2 > p.lng) || (x1 >= p.lng && x2 < p.lng) {
      FlatGradient(point.lat - last.lat, x2 - x1, p.lng - x1);
    }
  }

  /** A north-south edge flips nothing: no longitude lies strictly between its ends. */
  lemma MeridianEdge(last: Position, point: Position, p: Position)
    requires last.lng == point.lng
    ensures !Toggles(last, point, p)
  {
    var n := Normalise(last.lng, point.lng, p.lng);
    assert n == (last.lng, point.lng);
  }

  /** No edge of the square jumps the dateline, so the box test applies to it. */
  lemma SquareIsPlain()
    ensures !StraddlesDateline(Square)
  {
    forall i | 0 <= i < |Square|
      ensures !JumpsDateline(EdgeStart(Square, i).lng, Square[i].lng)
    {
      assert i == 0 || i == 1 || i == 2 || i == 3;
    }
  }

  /** On the middle row the only edge north of the point is P1-P2. */
  lemma MiddleRow(p: Position)
    requires p.lat == 5.0 && 0.0 < p.lng < 10.0
    ensures Inside(Square, p) && InsideAcrossDateline(Square, p)
  {
    SquareIsPlain();
    SquareBox();
    var flips := EdgeFlips(Square, p);
    FlatEdge(Square[3], Square[0], p);
    FlatEdge(Square[1], Square[2], p);
    MeridianEdge(Square[0], Square[1], p);
    MeridianEdge(Square[2], Square[3], p);
    assert !flips[0] && flips[2];
    assert !flips[1] && !flips[3];
    assert Parity(flips, 1) == false;
    assert Parity(flips, 2) == false;
    assert Parity(flips, 3) == true;
  }

  /** Points beyond the square's box are outside without a look at its edges. */
  lemma OffTheSquare(p: Position)
    requires p.lat < 0.0 || p.lat > 10.0 || p.lng < 0.0 || p.lng > 10.0
    ensures !Inside(Square, p) && !InsideAcrossDateline(Square, p)
  {
    SquareIsPlain();
    SquareBox();
  }

  // ---------------------------------------------------------------------------
  // A clean transit: in over the start line, out over the finish line
  // ---------------------------------------------------------------------------

  const Transit: seq<PositionRecord> :=
    [Report(5.0, -5.0, 1000), Report(5.0, 5.0, 1010), Report(5.0, 9.0, 2000), Report(5.0, 14.0, 2005)]

  /** The step from (5, -5) to (5, 5) crosses the start line at its midpoint, halfway through the step. */
  lemma StartCrossing(a: Position, b: Position, c: Position, d: Position)
    requires a == Position(5.0, -5.0, 1000) && b == Position(5.0, 5.0, 1010)
    requires c == Square[0] && d == Square[1]
    ensures Intersect(a, b, c, d) == Hit(Position(5.0, 0.0, 1005), 0.5, 0.5)
  {
    assert c == Corner(0.0, 0.0) && d == Corner(10.0, 0.0);
    assert Denominator(a, b, c, d) == 100.0;
    assert Along(a, b, 0.5) == (5.0, 0.0) == Along(c, d, 0.5);
    IntersectFindsEveryCrossing(a, b, c, d, 0.5, 0.5);
    assert Round((b.ts - a.ts) as real * 0.5) == 5;
  }

  /** The step from (5, 9) to (5, 14) crosses the finish line at its midpoint, a fifth of the way through the step. */
  lemma FinishCrossing(a: Position, b: Position, c: Position, d: Position)
    requires a == Position(5.0, 9.0, 2000) && b == Position(5.0, 14.0, 2005)
    requires c == Square[2] && d == Square[3]
    ensures Intersect(a, b, c, d) == Hit(Position(5.0, 10.0, 2001), 0.2, 0.5)
  {
    assert c == Corner(10.0, 10.0) && d == Corner(0.0, 10.0);
    assert Denominator(a, b, c, d) == -50.0;
    assert Along(a, b, 0.2) == (5.0, 10.0) == Along(c, d, 0.5);
    IntersectFindsEveryCrossing(a, b, c, d, 0.2, 0.5);
    assert Round((b.ts - a.ts) as real * 0.2) == 1;
  }

  /**
   * The step from (5, -5) to (5, 5) crosses the start line halfway, so the
   * start is stamped halfway through the ten-second step.
   */
  lemma TransitStart(vehicles: map<string, Vehicle>)
    requires "bus-1" in vehicles && vehicles["bus-1"].vehicleId == "bus-1"
    requires vehicles["bus-1"].position == Position(5.0, -5.0, 1000) && !vehicles["bus-1"].within
    ensures var r := UpdateVehicle(SquareZone, vehicles, Transit[1]);
            && r.events == [Event(ZoneStart, 1005, 10, None)]
            && r.vehicles["bus-1"].vehicleId == "bus-1"
            && r.vehicles["bus-1"].startTs == 1005 && r.vehicles["bus-1"].startTsDelta == 10
  {
    MiddleRow(PositionOf(Transit[1]));
    UpdateVehicleFrame(SquareZone, vehicles, Transit[1]);
    StartCrossing(vehicles["bus-1"].position, PositionOf(Transit[1]), Square[0], Square[1]);
    Entering(SquareZone, vehicles, Transit[1]);
  }

  /** Moving about inside the zone sends nothing and keeps the start. */
  lemma TransitCruise(vehicles: map<string, Vehicle>)
    requires "bus-1" in vehicles && vehicles["bus-1"].within
    ensures var r := UpdateVehicle(SquareZone, vehicles, Transit[2]);
            && r.events == []
            && r.vehicles["bus-1"].vehicleId == vehicles["bus-1"].vehicleId
            && r.vehicles["bus-1"].position == PositionOf(Transit[2])
            && r.vehicles["bus-1"].within
            && r.vehicles["bus-1"].startTs == vehicles["bus-1"].startTs
            && r.vehicles["bus-1"].startTsDelta == vehicles["bus-1"].startTsDelta
  {
    MiddleRow(PositionOf(Transit[2]));
    UpdateVehicleFrame(SquareZone, vehicles, Transit[2]);
    QuietStep(SquareZone, vehicles, Transit[2]);
  }

  /**
   * The step from (5, 9) to (5, 14) crosses the finish line a fifth of the
   * way along: one second into the five-second step.
   */
  lemma TransitCompletion(vehicles: map<string, Vehicle>)
    requires "bus-1" in vehicles && vehicles["bus-1"].vehicleId == "bus-1"
    requires vehicles["bus-1"].position == Position(5.0, 9.0, 2000) && vehicles["bus-1"].within
    requires vehicles["bus-1"].startTs == 1005 && vehicles["bus-1"].startTsDelta == 10
    ensures var r := UpdateVehicle(SquareZone, vehicles, Transit[3]);
            && r.events == [Event(ZoneCompletion, 2001, 15, Some(996))]
            && r.vehicles["bus-1"].startTs == 0
  {
    OffTheSquare(PositionOf(Transit[3]));
    UpdateVehicleFrame(SquareZone, vehicles, Transit[3]);
    FinishCrossing(vehicles["bus-1"].position, PositionOf(Transit[3]), Square[2], Square[3]);
    Leaving(SquareZone, vehicles, Transit[3]);
  }

  /** What the table says about the bus after some prefix of a batch. */
  predicate BusAt(s: Step, pos: Position, within: bool, startTs: int, startTsDelta: int) {
    && "bus-1" in s.vehicles && s.vehicles["bus-1"].vehicleId == "bus-1"
    && s.vehicles["bus-1"].position == pos && s.vehicles["bus-1"].within == within
    && s.vehicles["bus-1"].startTs == startTs && s.vehicles["bus-1"].startTsDelta == startTsDelta
  }

  /** The first report: the bus is first seen west of the square. */
  lemma TransitSeen(cfg: ZoneConfig)
    requires cfg == SquareZone
    ensures var s := HandleFeed(cfg, map[], [Transit[0]]);
            s.events == [] && BusAt(s, Position(5.0, -5.0, 1000), false, 0, 0)
  {
    OffTheSquare(PositionOf(Transit[0]));
    FirstSighting(cfg, map[], Transit[0]);
    UpdateVehicleFrame(cfg, map[], Transit[0]);
    HandleFeedSnoc(cfg, map[], [], Transit[0]);
    assert [] + [Transit[0]] == [Transit[0]];
  }

  /** The second report, after any prefix that left the bus west of the square: over the start line. */
  lemma TransitStarted(cfg: ZoneConfig, prefix: seq<PositionRecord>)
    requires cfg == SquareZone
    requires BusAt(HandleFeed(cfg, map[], prefix), Position(5.0, -5.0, 1000), false, 0, 0)
    ensures var before := HandleFeed(cfg, map[], prefix);
            var s := HandleFeed(cfg, map[], prefix + [Transit[1]]);
            && s.events == before.events + [Event(ZoneStart, 1005, 10, None)]
            && BusAt(s, Position(5.0, 5.0, 1010), true, 1005, 10)
  {
    var before := HandleFeed(cfg, map[], prefix);
    TransitStart(before.vehicles);
    UpdateVehicleFrame(cfg, before.vehicles, Transit[1]);
    MiddleRow(PositionOf(Transit[1]));
    HandleFeedSnoc(cfg, map[], prefix, Transit[1]);
  }

  /** The third report: still inside, nothing sent. */
  lemma TransitCruised(cfg: ZoneConfig, prefix: seq<PositionRecord>)
    requires cfg == SquareZone
    requires BusAt(HandleFeed(cfg, map[], prefix), Position(5.0, 5.0, 1010), true, 1005, 10)
    ensures var before := HandleFeed(cfg, map[], prefix);
            var s := HandleFeed(cfg, map[], prefix + [Transit[2]]);
            && s.events == before.events
            && BusAt(s, Position(5.0, 9.0, 2000), true, 1005, 10)
  {
    var before := HandleFeed(cfg, map[], prefix);
    TransitCruise(before.vehicles);
    HandleFeedSnoc(cfg, map[], prefix, Transit[2]);
  }

  /** The fourth report: over the finish line, completing the transit. */
  lemma TransitCompleted(cfg: ZoneConfig, prefix: seq<PositionRecord>)
    requires cfg == SquareZone
    requires BusAt(HandleFeed(cfg, map[], prefix), Position(5.0, 9.0, 2000), true, 1005, 10)
    ensures var before := HandleFeed(cfg, map[], prefix);
            HandleFeed(cfg, map[], prefix + [Transit[3]]).events
            == before.events + [Event(ZoneCompletion, 2001, 15, Some(996))]
  {
    var before := HandleFeed(cfg, map[], prefix);
    TransitCompletion(before.vehicles);
    HandleFeedSnoc(cfg, map[], prefix, Transit[3]);
  }

  /**
   * The whole transit, as `handle_feed` sees it in one batch of the four
   * reports: a ZONE_START at 1005, then a ZONE_COMPLETION at 2001 taking
   * 996 seconds. The batch is given with its prefixes named.
   */
  lemma CleanTransit(cfg: ZoneConfig, p1: seq<PositionRecord>, p2: seq<PositionRecord>, p3: seq<PositionRecord>,
                     batch: seq<PositionRecord>)
    requires cfg == SquareZone
    requires p1 == [Transit[0]] && p2 == p1 + [Transit[1]] && p3 == p2 + [Transit[2]] && batch == p3 + [Transit[3]]
    ensures HandleFeed(cfg, map[], batch).events
            == [Event(ZoneStart, 1005, 10, None), Event(ZoneCompletion, 2001, 15, Some(996))]
  {
    TransitSeen(cfg);
    TransitStarted(cfg, p1);
    TransitCruised(cfg, p2);
    TransitCompleted(cfg, p3);
  }

  // ---------------------------------------------------------------------------
  // Entering and leaving other than over the lines
  // ---------------------------------------------------------------------------

  /** A step parallel to an edge never crosses it. */
  lemma ParallelMiss(a: Position, b: Position, c: Position, d: Position)
    requires a.lng == b.lng && c.lng == d.lng
    ensures Intersect(a, b, c, d).Miss?
  {
    assert Denominator(a, b, c, d) == 0.0;
  }

  /**
   * In from the south, over P3-P0 rather than the start line: a ZONE_ENTRY
   * stamped with the report's time, and no transit start.
   */
  lemma EarlyEntry(vehicles: map<string, Vehicle>, rec: PositionRecord)
    requires "bus-1" in vehicles && vehicles["bus-1"].vehicleId == "bus-1" && !vehicles["bus-1"].within
    requires vehicles["bus-1"].position == Position(-5.0, 5.0, 100) && vehicles["bus-1"].startTs == 0
    requires rec == Report(5.0, 5.0, 110)
    ensures var r := UpdateVehicle(SquareZone, vehicles, rec);
            && r.events == [Event(ZoneEntry, 110, 10, None)]
            && r.vehicles["bus-1"].within && r.vehicles["bus-1"].startTs == 0
  {
    MiddleRow(PositionOf(rec));
    UpdateVehicleFrame(SquareZone, vehicles, rec);
    ParallelMiss(vehicles["bus-1"].position, PositionOf(rec), Square[0], Square[1]);
    Entering(SquareZone, vehicles, rec);
  }

  /** The step from (5, 5) to (5, 14) crosses the finish line at its midpoint, five ninths of the way along. */
  lemma LongFinishCrossing(a: Position, b: Position, c: Position, d: Position)
    requires a == Position(5.0, 5.0, 110) && b == Position(5.0, 14.0, 200)
    requires c == Square[2] && d == Square[3]
    ensures Intersect(a, b, c, d) == Hit(Position(5.0, 10.0, 160), 5.0 / 9.0, 0.5)
  {
    IntersectFindsEveryCrossing(a, b, c, d, 5.0 / 9.0, 0.5);
    assert (b.ts - a.ts) as real * (5.0 / 9.0) == 50.0;
  }

  /**
   * Out over the finish line with no start recorded: sent as a ZONE_EXIT,
   * stamped with the crossing time rather than the report's.
   */
  lemma FinishWithoutStart(vehicles: map<string, Vehicle>, rec: PositionRecord)
    requires "bus-1" in vehicles && vehicles["bus-1"].vehicleId == "bus-1" && vehicles["bus-1"].within
    requires vehicles["bus-1"].position == Position(5.0, 5.0, 110) && vehicles["bus-1"].startTs == 0
    requires rec == Report(5.0, 14.0, 200)
    ensures UpdateVehicle(SquareZone, vehicles, rec).events == [Event(ZoneExit, 160, 90, None)]
  {
    OffTheSquare(PositionOf(rec));
    UpdateVehicleFrame(SquareZone, vehicles, rec);
    LongFinishCrossing(vehicles["bus-1"].position, PositionOf(rec), Square[2], Square[3]);
    Leaving(SquareZone, vehicles, rec);
  }

  /**
   * Out to the south, over P3-P0 rather than the finish line: a ZONE_EXIT
   * at the report's time, and any transit start is dropped.
   */
  lemma ExitElsewhere(vehicles: map<string, Vehicle>, rec: PositionRecord)
    requires "bus-1" in vehicles && vehicles["bus-1"].vehicleId == "bus-1" && vehicles["bus-1"].within
    requires vehicles["bus-1"].position == Position(5.0, 5.0, 110)
    requires rec == Report(-5.0, 5.0, 120)
    ensures var r := UpdateVehicle(SquareZone, vehicles, rec);
            && r.events == [Event(ZoneExit, 120, 10, None)]
            && r.vehicles["bus-1"].startTs == 0
  {
    OffTheSquare(PositionOf(rec));
    UpdateVehicleFrame(SquareZone, vehicles, rec);
    ParallelMiss(vehicles["bus-1"].position, PositionOf(rec), Square[2], Square[3]);
    Leaving(SquareZone, vehicles, rec);
  }

  // ---------------------------------------------------------------------------
  // A completion whose last step is longer than a day
  // ---------------------------------------------------------------------------

  /** The step from (5, 9) to (5, 14), reported 100000 seconds later, crosses the finish line 20000 seconds in. */
  lemma OvernightFinishCrossing(a: Position, b: Position, c: Position, d: Position)
    requires a == Position(5.0, 9.0, 2000) && b == Position(5.0, 14.0, 102000)
    requires c == Square[2] && d == Square[3]
    ensures Intersect(a, b, c, d) == Hit(Position(5.0, 10.0, 22000), 0.2, 0.5)
  {
    assert c == Corner(10.0, 10.0) && d == Corner(0.0, 10.0);
    assert Denominator(a, b, c, d) == -50.0;
    assert Along(a, b, 0.2) == (5.0, 10.0) == Along(c, d, 0.5);
    IntersectFindsEveryCrossing(a, b, c, d, 0.2, 0.5);
    assert Round((b.ts - a.ts) as real * 0.2) == 20000;
  }

  /**
   * A bus leaves over the finish line 100000 seconds after its last report
   * inside. As written, formatting that step for the log throws: nothing
   * is sent and the bus is left outside the zone with its start of 1005.
   * The corrected step sends the completion and clears the start.
   */
  lemma OvernightCompletion(vehicles: map<string, Vehicle>, rec: PositionRecord)
    requires "bus-1" in vehicles && vehicles["bus-1"].vehicleId == "bus-1"
    requires vehicles["bus-1"].position == Position(5.0, 9.0, 2000) && vehicles["bus-1"].within
    requires vehicles["bus-1"].startTs == 1005 && vehicles["bus-1"].startTsDelta == 10
    requires rec == Report(5.0, 14.0, 102000)
    ensures var w := UpdateVehicleAsWritten(SquareZone, vehicles, rec);
            && w.Failure? && !w.error["bus-1"].within && w.error["bus-1"].startTs == 1005
    ensures var r := UpdateVehicle(SquareZone, vehicles, rec);
            && r.events == [Event(ZoneCompletion, 22000, 100010, Some(20995))]
            && r.vehicles["bus-1"].startTs == 0
  {
    OffTheSquare(PositionOf(rec));
    UpdateVehicleFrame(SquareZone, vehicles, rec);
    OvernightFinishCrossing(vehicles["bus-1"].position, PositionOf(rec), Square[2], Square[3]);
    Leaving(SquareZone, vehicles, rec);
    assert !FitsInDay(StepDelta(Advance(SquareZone, vehicles["bus-1"], rec)));
  }

  // ---------------------------------------------------------------------------
  // A zone drawn across the 180th meridian
  // ---------------------------------------------------------------------------

  /** A zone straddling the dateline, its eastern side given as -170. */
  const Straddling: seq<Position> := [Corner(0.0, 170.0), Corner(10.0, 170.0), Corner(10.0, -170.0), Corner(0.0, -170.0)]

  /** The same zone with its eastern side written as 190. */
  const Unwrapped: seq<Position> := [Corner(0.0, 170.0), Corner(10.0, 170.0), Corner(10.0, 190.0), Corner(0.0, 190.0)]

  function BoxOfFour(path: seq<Position>): Box
    requires |path| == 4
  {
    Widen(Widen(Widen(Widen(EmptyBox, path[0]), path[1]), path[2]), path[3])
  }

  lemma BoundingBoxOfFour(path: seq<Position>)
    requires |path| == 4
    ensures BoundingBox(path) == BoxOfFour(path)
  {
    var b1 := Widen(EmptyBox, path[0]);
    var b2 := Widen(b1, path[1]);
    var b3 := Widen(b2, path[2]);
    assert WidenAll(b3, path[3..]) == Widen(b3, path[3]);
    assert WidenAll(b2, path[2..]) == WidenAll(b3, path[3..]);
    assert WidenAll(b1, path[1..]) == WidenAll(b2, path[2..]);
  }

  /**
   * The box of the straddling zone runs the long way round, from -170 east
   * to 170, so the box test rejects a point in the middle of the zone
   * before the dateline handling of the edge loop is reached; drawn with
   * 190 instead of -170, the same zone contains the point.
   */
  lemma DatelineBoxRejectsInterior(p: Position)
    requires p.lat == 5.0 && p.lng == 175.0
    ensures !Inside(Straddling, p)
    ensures Inside(Unwrapped, p)
  {
    BoundingBoxOfFour(Straddling);
    assert BoundingBox(Straddling) == Box(10.0, 0.0, 170.0, -170.0);
    BoundingBoxOfFour(Unwrapped);
    assert BoundingBox(Unwrapped) == Box(10.0, 0.0, 190.0, 170.0);
    var flips := EdgeFlips(Unwrapped, p);
    FlatEdge(Unwrapped[3], Unwrapped[0], p);
    FlatEdge(Unwrapped[1], Unwrapped[2], p);
    MeridianEdge(Unwrapped[0], Unwrapped[1], p);
    MeridianEdge(Unwrapped[2], Unwrapped[3], p);
    assert !flips[0] && flips[2];
    assert !flips[1] && !flips[3];
    assert Parity(flips, 1) == false;
    assert Parity(flips, 2) == false;
    assert Parity(flips, 3) == true;
  }

  /** East of the dateline the straddling zone's jumped edges are moved to 190. */
  lemma StraddlingEdgesEast(p: Position)
    requires 0.0 < p.lat < 10.0 && 170.0 < p.lng <= 180.0
    ensures !Toggles(EdgeStart(Straddling, 0), Straddling[0], p)
    ensures Toggles(EdgeStart(Straddling, 2), Straddling[2], p)
  {
    assert TurnsEast(-170.0) == 1 && TurnsEast(170.0) == 0;
    LevelEdge(Straddling[3], Straddling[0], p, 190.0, 170.0);
    LevelEdge(Straddling[1], Straddling[2], p, 170.0, 190.0);
  }

  /** West of the dateline the straddling zone's jumped edges are moved to -190. */
  lemma StraddlingEdgesWest(p: Position)
    requires 0.0 < p.lat < 10.0 && -180.0 <= p.lng < -170.0
    ensures !Toggles(EdgeStart(Straddling, 0), Straddling[0], p)
    ensures Toggles(EdgeStart(Straddling, 2), Straddling[2], p)
  {
    assert TurnsWest(170.0) == 1 && TurnsWest(-170.0) == 0;
    LevelEdge(Straddling[3], Straddling[0], p, -170.0, -190.0);
    LevelEdge(Straddling[1], Straddling[2], p, -190.0, -170.0);
  }

  /**
   * Points in the middle of the straddling zone, on either side of the
   * dateline: the box test of `inside` rejects them, while the edge loop
   * finds exactly one edge north of them, so the corrected test accepts.
   */
  lemma DatelineInteriorInside(p: Position)
    requires 0.0 < p.lat < 10.0
    requires 170.0 < p.lng <= 180.0 || -180.0 <= p.lng < -170.0
    ensures !Inside(Straddling, p)
    ensures InsideAcrossDateline(Straddling, p)
  {
    BoundingBoxOfFour(Straddling);
    assert BoundingBox(Straddling) == Box(10.0, 0.0, 170.0, -170.0);
    assert JumpsDateline(EdgeStart(Straddling, 2).lng, Straddling[2].lng);
    var flips := EdgeFlips(Straddling, p);
    if p.lng > 0.0 {
      StraddlingEdgesEast(p);
    } else {
      StraddlingEdgesWest(p);
    }
    MeridianEdge(Straddling[0], Straddling[1], p);
    MeridianEdge(Straddling[2], Straddling[3], p);
    assert !flips[0] && flips[2];
    assert !flips[1] && !flips[3];
    assert Parity(flips, 1) == false;
    assert Parity(flips, 2) == false;
    assert Parity(flips, 3) == true;
  }
}
