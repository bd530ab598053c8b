# Zones, feed templates and batch file names

This project models three pure cores of the Cambridge "tfc_server"
real-time transport platform in Dafny and proves properties about them.

- **The zone engine** (`ZoneCompute`). A zone is a polygon with a start
  line (the edge from vertex 0 to vertex 1) and a finish line (the edge
  from vertex `FINISH_INDEX` to vertex `FINISH_INDEX`+1). For every vehicle
  position in a feed batch, the engine decides whether the vehicle is
  inside the polygon. It uses a bounding box to reject far points, then a
  ray-casting parity test with a dateline adjustment. It compares the
  result with the vehicle's previous report and sends one of five
  messages: a transit start, an entry, a completion with its duration, a
  finish without a start (sent as an exit), or an exit. Crossing times
  are interpolated along the vehicle's step. Modules `Geo`, `Zone`, and
  `ZoneScenarios` (concrete journeys through a square zone). The engine
  decides membership with `inside` as written. Two defects are modelled
  as written and then corrected (see "## Findings"):
  - `Geo.InsideAcrossDateline` is the membership test with the box check
    skipped for zones drawn across the dateline. It is stated and proved
    on its own, and agrees with `inside` on every other zone.
  - `Zone.UpdateVehicle` sends a completion whatever the length of its
    steps. `Zone.UpdateVehicleAsWritten` models the exception the source
    raises instead.
- **The feed maker's template parser** (`ParseFeed.parse_array`). It finds
  each feed template's start tag in a scraped page. It then runs the
  template's field templates in order to build one JSON record per tag
  found. A field is a constant, a sum or difference of two earlier fields,
  or the text between two markers (kept as a string or parsed as an
  `int`). The built-in car-park templates are part of the model. Module
  `ParseFeed`.
- **The batcher's file helpers** (`BatcherWorker`). These read the UTC
  timestamp, base name and `yyyy/MM/dd` date out of a feed file path. They
  also cover the directory pass that sorts the files and processes those
  whose timestamp lies strictly inside a time window. Module `Batcher`.

`Wrappers` holds `Option` and `Result`. `JavaText` holds the Java library
behaviour the cores rely on:
- `indexOf` and `lastIndexOf`;
- `split`, which drops trailing empty pieces;
- `Integer.parseInt` and `Long.parseLong`, as an optional sign and decimal
  digits within the type's range;
- 32-bit `int` wrap-around.

Java exceptions are modelled as values. A `calc_*` field whose operand is
absent or is a string makes the whole parse fail with that error. An
unreadable file name makes `get_ts` return `None`.

## Model

All paths are under `src/main/java/uk/ac/cam/tfc_server/`; the table
spells them out.

| member | source | states |
|---|---|---|
| JavaText.IndexOf | src/main/java/uk/ac/cam/tfc_server/feedmaker/ParseFeed.java:111 | the result is the first occurrence of the pattern at or after the start index, and it is -1 exactly when there is none |
| JavaText.LastIndexOf | src/main/java/uk/ac/cam/tfc_server/batcher/BatcherWorker.java:225 | the result holds the character and no later position does; -1 exactly when the character is absent |
| JavaText.JoinSplitAll | src/main/java/uk/ac/cam/tfc_server/batcher/BatcherWorker.java:240 | joining the pieces of a split with the separator gives back the original string |
| JavaText.SplitAllJoin | src/main/java/uk/ac/cam/tfc_server/batcher/BatcherWorker.java:240 | splitting a join of separator-free pieces gives back the pieces |
| JavaText.JavaSplit | src/main/java/uk/ac/cam/tfc_server/batcher/BatcherWorker.java:240 | no piece holds the separator |
| JavaText.ParseSigned | src/main/java/uk/ac/cam/tfc_server/batcher/BatcherWorker.java:233 | `Long.parseLong` here and `Integer.parseInt` at ParseFeed.java:174: a parsed value lies in [lo, hi], empty text never parses, a parse needs a sign or digit first, and the value's sign follows the leading '-'; completeness is ParseShowInt |
| JavaText.ParseShowInt | src/main/java/uk/ac/cam/tfc_server/batcher/BatcherWorker.java:233 | parsing the decimal text of any in-range integer gives the integer back |
| JavaText.Wrap32 | src/main/java/uk/ac/cam/tfc_server/feedmaker/ParseFeed.java:146 | the 32-bit result is congruent to the exact value modulo 2^32, and equals it when it is in range |
| Geo.WidenAll | src/main/java/uk/ac/cam/tfc_server/zone/ZoneCompute.java:471-486 | the widened box contains the old box and every vertex; each side is either the old side or some vertex's coordinate |
| Geo.BoundingBox | src/main/java/uk/ac/cam/tfc_server/zone/ZoneCompute.java:471-486 | every vertex of the polygon lies in the box; each side is its starting value or a vertex coordinate |
| Geo.BoundingBoxIsTight | src/main/java/uk/ac/cam/tfc_server/zone/ZoneCompute.java:471-486 | for a non-empty polygon on the globe, each side of the box is attained by some vertex |
| Geo.TurnsEast | src/main/java/uk/ac/cam/tfc_server/zone/ZoneCompute.java:178-182 | the number of 360-degree turns is the least one that brings the longitude to 0 or above |
| Geo.TurnsWest | src/main/java/uk/ac/cam/tfc_server/zone/ZoneCompute.java:185-189 | the number of 360-degree turns is the least one that brings the longitude to 0 or below |
| Geo.Normalise | src/main/java/uk/ac/cam/tfc_server/zone/ZoneCompute.java:173-191 | an edge spanning at most 180 degrees is unchanged; a wider one has both ends shifted by whole turns onto the query point's side of 0 |
| Geo.ParityCountsFlips | src/main/java/uk/ac/cam/tfc_server/zone/ZoneCompute.java:193-206 | toggling a flag once per qualifying edge leaves it set exactly when the number of qualifying edges is odd |
| Geo.Inside | src/main/java/uk/ac/cam/tfc_server/zone/ZoneCompute.java:160-207 | a point outside the box is outside the zone; inside the box, the point is inside exactly when an odd number of ring edges qualify |
| Geo.Round | src/main/java/uk/ac/cam/tfc_server/zone/ZoneCompute.java:251 | `Math.round` lands within half a unit of its argument, rounding halves up |
| Geo.Cramer | src/main/java/uk/ac/cam/tfc_server/zone/ZoneCompute.java:243-244 | the two fractions solve the linear system of the two segments when its determinant is non-zero |
| Geo.Fractions | src/main/java/uk/ac/cam/tfc_server/zone/ZoneCompute.java:243-244 | the point at `progress` along the step is the point at `s` along the edge |
| Geo.SolutionIsUnique | src/main/java/uk/ac/cam/tfc_server/zone/ZoneCompute.java:243-244 | any pair of fractions that solves the system is the one the formula computes |
| Geo.Intersect | src/main/java/uk/ac/cam/tfc_server/zone/ZoneCompute.java:228-261 | parallel segments never cross; a crossing has both fractions in [0, 1], lies on both segments, and is stamped at the rounded interpolated time, which lies within the step |
| Geo.IntersectFindsEveryCrossing | src/main/java/uk/ac/cam/tfc_server/zone/ZoneCompute.java:228-261 | every common point of two non-parallel segments is found, with its own fractions |
| Geo.InterpolatedWithinStep | src/main/java/uk/ac/cam/tfc_server/zone/ZoneCompute.java:250-251 | the rounded offset of the crossing time is between 0 and the step's duration |
| Geo.InterpolationMonotone | src/main/java/uk/ac/cam/tfc_server/zone/ZoneCompute.java:250-251 | for one fraction, a longer step never gives an earlier rounded offset |
| Zone.NewVehicle | src/main/java/uk/ac/cam/tfc_server/zone/ZoneCompute.java:74-81 | a first sighting is filed under the report's id with its position and `inside` flag, no transit start, and a zero-length step |
| Zone.Advance | src/main/java/uk/ac/cam/tfc_server/zone/ZoneCompute.java:82-86 | a known vehicle's current position and flag become the previous ones, the report's position and its `inside` flag become current, the step lasts from the last report to this one, and the id and transit start are kept |
| Zone.Transition | src/main/java/uk/ac/cam/tfc_server/zone/ZoneCompute.java:92-155 | classifying a step changes nothing of the vehicle but its transit start, and sends at most one event, about that vehicle and its route, from this zone |
| Zone.UpdateVehicle | src/main/java/uk/ac/cam/tfc_server/zone/ZoneCompute.java:70-157 | one report sends at most one event, only for a vehicle already known, about that vehicle and the report's route |
| Zone.UpdateVehicleFrame | src/main/java/uk/ac/cam/tfc_server/zone/ZoneCompute.java:70-91 | one report adds its vehicle to the table, leaves every other vehicle untouched, and stores the report's position |
| Zone.FirstSighting | src/main/java/uk/ac/cam/tfc_server/zone/ZoneCompute.java:74-81 | a new vehicle is stored with its membership flag and no transit start, and nothing is sent |
| Zone.QuietStep | src/main/java/uk/ac/cam/tfc_server/zone/ZoneCompute.java:92-124 | staying inside or staying outside sends nothing, keeps the transit start, and moves the position into the previous one |
| Zone.Entering | src/main/java/uk/ac/cam/tfc_server/zone/ZoneCompute.java:93-116 | entering over the start line sends a start at the crossing time and records it with the step's duration; entering elsewhere sends an entry at the report's time and keeps the old start |
| Zone.Leaving | src/main/java/uk/ac/cam/tfc_server/zone/ZoneCompute.java:124-155 | leaving over the finish line after a start sends a completion with the transit time and both steps' durations; over the finish line without a start, an exit at the crossing time; elsewhere, an exit at the report's time; the start is cleared in every case |
| Zone.HandleFeed | src/main/java/uk/ac/cam/tfc_server/zone/ZoneCompute.java:55-68 | a batch sends at most one event per record |
| Zone.HandleFeedFrame | src/main/java/uk/ac/cam/tfc_server/zone/ZoneCompute.java:55-68 | after a batch the table holds the old vehicles and those of the batch, and vehicles absent from the batch are unchanged |
| Zone.HandleFeedSnoc | src/main/java/uk/ac/cam/tfc_server/zone/ZoneCompute.java:55-68 | processing a batch and then one more record is the same as processing the longer batch |
| Zone.UpdateKeepsConsistent | src/main/java/uk/ac/cam/tfc_server/zone/ZoneCompute.java:70-157 | one report keeps every vehicle stored under its own id, and no vehicle outside the zone holding a transit start |
| Zone.HandleFeedKeepsConsistent | src/main/java/uk/ac/cam/tfc_server/zone/ZoneCompute.java:55-68 | a whole batch keeps every vehicle stored under its own id, and no vehicle outside the zone holding a transit start |
| Zone.TransitionStarts | src/main/java/uk/ac/cam/tfc_server/zone/ZoneCompute.java:92-155 | a vehicle holds a transit start after a step only if it held one before or the step sent a start event; a completion is sent only for a vehicle that held a start |
| Zone.StartsOfAStep | src/main/java/uk/ac/cam/tfc_server/zone/ZoneCompute.java:70-157 | after one report, a vehicle with a transit start either had one before or the report sent the start event for it; a completion is sent only for a vehicle that held a start |
| Zone.StartIsExplained | src/main/java/uk/ac/cam/tfc_server/zone/ZoneCompute.java:99-112 | a transit start stored after a batch was there before the batch or was announced by a start event of the batch |
| Zone.CompletionFollowsStart | src/main/java/uk/ac/cam/tfc_server/zone/ZoneCompute.java:131-140 | every completion in a batch follows a start of the same vehicle earlier in the batch, or a start already stored before it |
| Zone.FreshEngineCompletions | src/main/java/uk/ac/cam/tfc_server/zone/ZoneCompute.java:131-140 | from an empty table, every completion is preceded by a start event of the same vehicle |
| ZoneScenarios.SquareBox | src/main/java/uk/ac/cam/tfc_server/zone/ZoneCompute.java:471-486 | the box of a square zone is the square |
| ZoneScenarios.FlatEdge | src/main/java/uk/ac/cam/tfc_server/zone/ZoneCompute.java:193-201 | an east-west edge flips exactly the points south of it in its half-open longitude range |
| ZoneScenarios.MeridianEdge | src/main/java/uk/ac/cam/tfc_server/zone/ZoneCompute.java:193-201 | a north-south edge flips no point |
| ZoneScenarios.MiddleRow | src/main/java/uk/ac/cam/tfc_server/zone/ZoneCompute.java:160-207 | points strictly inside the square are inside the zone, by `inside` and by the corrected test alike |
| ZoneScenarios.OffTheSquare | src/main/java/uk/ac/cam/tfc_server/zone/ZoneCompute.java:162-163 | points beyond the square's box are outside, by `inside` and by the corrected test alike |
| ZoneScenarios.StartCrossing | src/main/java/uk/ac/cam/tfc_server/zone/ZoneCompute.java:228-261 | a step across the start line's midpoint crosses it halfway along, at the interpolated time |
| ZoneScenarios.FinishCrossing | src/main/java/uk/ac/cam/tfc_server/zone/ZoneCompute.java:228-261 | a step across the finish line crosses it a fifth of the way along, at the interpolated time |
| ZoneScenarios.LongFinishCrossing | src/main/java/uk/ac/cam/tfc_server/zone/ZoneCompute.java:228-261 | a longer step across the finish line crosses it five ninths of the way along, with the time rounded |
| ZoneScenarios.ParallelMiss | src/main/java/uk/ac/cam/tfc_server/zone/ZoneCompute.java:243-246 | a step parallel to an edge does not cross it |
| ZoneScenarios.TransitStart | src/main/java/uk/ac/cam/tfc_server/zone/ZoneCompute.java:93-112 | a bus driving in over the start line sends a start stamped halfway through its step |
| ZoneScenarios.TransitCruise | src/main/java/uk/ac/cam/tfc_server/zone/ZoneCompute.java:117-121 | moving about inside sends nothing and keeps the start |
| ZoneScenarios.TransitCompletion | src/main/java/uk/ac/cam/tfc_server/zone/ZoneCompute.java:123-140 | driving out over the finish line sends a completion with the right duration and uncertainty |
| ZoneScenarios.TransitSeen | src/main/java/uk/ac/cam/tfc_server/zone/ZoneCompute.java:74-81 | the first report of the bus, west of the zone, stores it as outside and sends nothing |
| ZoneScenarios.TransitStarted | src/main/java/uk/ac/cam/tfc_server/zone/ZoneCompute.java:55-68 | within a batch, the second report sends the start |
| ZoneScenarios.TransitCruised | src/main/java/uk/ac/cam/tfc_server/zone/ZoneCompute.java:55-68 | within a batch, the third report sends nothing |
| ZoneScenarios.TransitCompleted | src/main/java/uk/ac/cam/tfc_server/zone/ZoneCompute.java:55-68 | within a batch, the fourth report sends the completion |
| ZoneScenarios.CleanTransit | src/main/java/uk/ac/cam/tfc_server/zone/ZoneCompute.java:55-68 | the four-report batch sends exactly a start at 1005 and a completion at 2001 taking 996 seconds |
| ZoneScenarios.EarlyEntry | src/main/java/uk/ac/cam/tfc_server/zone/ZoneCompute.java:113-116 | entering over a side other than the start line sends an entry at the report's time and no start |
| ZoneScenarios.FinishWithoutStart | src/main/java/uk/ac/cam/tfc_server/zone/ZoneCompute.java:138-143 | leaving over the finish line with no start sends an exit stamped with the crossing time |
| ZoneScenarios.ExitElsewhere | src/main/java/uk/ac/cam/tfc_server/zone/ZoneCompute.java:144-155 | leaving over another side sends an exit at the report's time and drops the start |
| ZoneScenarios.BoundingBoxOfFour | src/main/java/uk/ac/cam/tfc_server/zone/ZoneCompute.java:471-486 | the box of a four-corner zone spans its extreme latitudes and longitudes |
| ZoneScenarios.DatelineBoxRejectsInterior | src/main/java/uk/ac/cam/tfc_server/zone/ZoneCompute.java:162-163 | for a zone drawn across the dateline with -170, the box test rejects a point in its middle; drawn with 190, the point is inside |
| Geo.InsideAcrossDateline | src/main/java/uk/ac/cam/tfc_server/zone/ZoneCompute.java:160-207 | for a ring that does not jump the dateline it agrees with `inside`; for one that does, a point is inside exactly when an odd number of edges flip it; every point `inside` accepts it accepts too |
| ZoneScenarios.LevelEdge | src/main/java/uk/ac/cam/tfc_server/zone/ZoneCompute.java:173-201 | an east-west edge flips exactly the points south of it between its ends as the dateline step moves them |
| ZoneScenarios.StraddlingEdgesEast | src/main/java/uk/ac/cam/tfc_server/zone/ZoneCompute.java:173-201 | east of the dateline, the straddling zone's northern edge flips an interior point and its southern edge does not |
| ZoneScenarios.StraddlingEdgesWest | src/main/java/uk/ac/cam/tfc_server/zone/ZoneCompute.java:173-201 | west of the dateline, the straddling zone's northern edge flips an interior point and its southern edge does not |
| ZoneScenarios.DatelineInteriorInside | src/main/java/uk/ac/cam/tfc_server/zone/ZoneCompute.java:160-207 | every point strictly inside the straddling zone, on either side of the dateline, is rejected by `inside` and accepted by the corrected test |
| ZoneScenarios.SquareIsPlain | src/main/java/uk/ac/cam/tfc_server/zone/ZoneCompute.java:173-191 | no edge of the square spans more than 180 degrees of longitude, so the box test applies to it |
| Zone.UpdateVehicleAsWritten | src/main/java/uk/ac/cam/tfc_server/zone/ZoneCompute.java:317-338 | the step as written fails exactly when a known vehicle leaves over the finish line after a start and either step duration lies outside one day; otherwise it is the corrected step |
| Zone.StrandedStart | src/main/java/uk/ac/cam/tfc_server/zone/ZoneCompute.java:140-155 | after a throw the vehicle is outside with its start still set, every other entry is unchanged, and the table invariant is broken |
| Zone.ThrowLosesCompletion | src/main/java/uk/ac/cam/tfc_server/zone/ZoneCompute.java:317-364 | on a table and report where the step as written throws, the corrected step sends a ZONE_COMPLETION and clears the start |
| Zone.HandleFeedAsWritten | src/main/java/uk/ac/cam/tfc_server/zone/ZoneCompute.java:55-68 | a batch that goes through as written gives the corrected result; one that throws has sent fewer events than it has records |
| Zone.ThrowingRecord | src/main/java/uk/ac/cam/tfc_server/zone/ZoneCompute.java:55-68 | the record that throws ends the batch with its stranded table and the events of the records before it |
| Zone.FailureSticks | src/main/java/uk/ac/cam/tfc_server/zone/ZoneCompute.java:55-68 | after a throw, a further record changes nothing |
| Zone.FailureSticksAll | src/main/java/uk/ac/cam/tfc_server/zone/ZoneCompute.java:55-68 | after a throw, any further records change nothing |
| Zone.HandleFeedAsWrittenStops | src/main/java/uk/ac/cam/tfc_server/zone/ZoneCompute.java:55-68 | once a record throws, the records after it are not processed, however many there are |
| ZoneScenarios.OvernightFinishCrossing | src/main/java/uk/ac/cam/tfc_server/zone/ZoneCompute.java:228-261 | a step of 100000 seconds across the finish line crosses it a fifth of the way along, 20000 seconds in |
| ZoneScenarios.OvernightCompletion | src/main/java/uk/ac/cam/tfc_server/zone/ZoneCompute.java:435-445 | leaving over the finish line after a 100000-second step throws as written, leaving the bus outside with its start; the corrected step sends the completion with duration 20995 and clears the start |
| ParseFeed.ScanField | src/main/java/uk/ac/cam/tfc_server/feedmaker/ParseFeed.java:159-167 | the field text starts right after the first opening marker at or after the record start and ends at the first closing marker after it; a missing marker or text over 40 characters is reported as such |
| ParseFeed.ScanFieldIsFirstMatch | src/main/java/uk/ac/cam/tfc_server/feedmaker/ParseFeed.java:159-167 | any positions that are the first marker occurrences are what the scan finds, accepted or too long by the 40-character limit |
| ParseFeed.FieldTextAt | src/main/java/uk/ac/cam/tfc_server/feedmaker/ParseFeed.java:159-170 | with the first opening marker at or after the record start and the first closing marker after it, the field text is what lies between them when it is at most 40 characters, and there is none when it is longer |
| ParseFeed.FieldTextMissingMarker | src/main/java/uk/ac/cam/tfc_server/feedmaker/ParseFeed.java:159-170 | with no opening marker after the record start, or no closing marker after the first opening one, there is no field text |
| ParseFeed.ApplyField | src/main/java/uk/ac/cam/tfc_server/feedmaker/ParseFeed.java:122-185 | only `calc_*` fields can fail, and only with an operand error |
| ParseFeed.ApplyFieldFrame | src/main/java/uk/ac/cam/tfc_server/feedmaker/ParseFeed.java:122-185 | a field writes at most its own name and leaves every other key as it was |
| ParseFeed.FixedFieldStored | src/main/java/uk/ac/cam/tfc_server/feedmaker/ParseFeed.java:123-140 | a constant field stores the template's constant whatever the page holds |
| ParseFeed.ScannedFieldStored | src/main/java/uk/ac/cam/tfc_server/feedmaker/ParseFeed.java:157-185 | a scanned field stores its text (parsed, for `int`) when it has one and leaves the record alone otherwise |
| ParseFeed.CalcMinusStored | src/main/java/uk/ac/cam/tfc_server/feedmaker/ParseFeed.java:142-148 | `calc_minus` stores the 32-bit difference of its two integer operands |
| ParseFeed.CalcPlusStored | src/main/java/uk/ac/cam/tfc_server/feedmaker/ParseFeed.java:149-155 | `calc_plus` stores the 32-bit sum of its two integer operands |
| ParseFeed.CalcThrows | src/main/java/uk/ac/cam/tfc_server/feedmaker/ParseFeed.java:144-152 | a `calc_*` field with an operand that is not an integer fails, naming the first such operand |
| ParseFeed.ApplyFields | src/main/java/uk/ac/cam/tfc_server/feedmaker/ParseFeed.java:116-190 | a successful run of the fields adds no key beyond their names |
| ParseFeed.ApplyFieldsStep | src/main/java/uk/ac/cam/tfc_server/feedmaker/ParseFeed.java:116-190 | the fields run in order: the first field, then the rest on its result, stopping at the first failure |
| ParseFeed.ApplyFieldsFrame | src/main/java/uk/ac/cam/tfc_server/feedmaker/ParseFeed.java:116-190 | a key that no field names keeps its value through the run |
| ParseFeed.FixedFieldWins | src/main/java/uk/ac/cam/tfc_server/feedmaker/ParseFeed.java:123-140 | a constant field that no later field overwrites holds its constant in the record |
| ParseFeed.NoCalcNoFailure | src/main/java/uk/ac/cam/tfc_server/feedmaker/ParseFeed.java:157-185 | a template without `calc_*` fields never fails |
| ParseFeed.FieldsThrowOperandErrors | src/main/java/uk/ac/cam/tfc_server/feedmaker/ParseFeed.java:142-155 | a run of fields can fail only with an operand error |
| ParseFeed.ParseRecord | src/main/java/uk/ac/cam/tfc_server/feedmaker/ParseFeed.java:111-190 | a template contributes nothing exactly when its tag is absent from the page; a record it builds has only declared keys |
| ParseFeed.UnknownNeverThrownByFields | src/main/java/uk/ac/cam/tfc_server/feedmaker/ParseFeed.java:116-190 | a template's own fields never fail with an unknown-feed-type error |
| ParseFeed.Gather | src/main/java/uk/ac/cam/tfc_server/feedmaker/ParseFeed.java:104-197 | at most one record is gathered per template |
| ParseFeed.GatherRecords | src/main/java/uk/ac/cam/tfc_server/feedmaker/ParseFeed.java:104-197 | when no template fails, the records are those of the present templates, in template order |
| ParseFeed.GatherFirstFailure | src/main/java/uk/ac/cam/tfc_server/feedmaker/ParseFeed.java:104-197 | the gather fails exactly with the error of the first present template that fails |
| ParseFeed.Matching | src/main/java/uk/ac/cam/tfc_server/feedmaker/ParseFeed.java:111-112 | the present templates are exactly the templates whose tag occurs in the page |
| ParseFeed.RecordsSkipAbsent | src/main/java/uk/ac/cam/tfc_server/feedmaker/ParseFeed.java:111-112 | record parsing skips exactly the templates whose tag is absent |
| ParseFeed.ParseArray | src/main/java/uk/ac/cam/tfc_server/feedmaker/ParseFeed.java:96-198 | a page yields at most one record per template |
| ParseFeed.ParseArrayRecords | src/main/java/uk/ac/cam/tfc_server/feedmaker/ParseFeed.java:96-198 | on success there is one record per template whose tag occurs, in template order, each built by that template |
| ParseFeed.ParseArrayFailsIff | src/main/java/uk/ac/cam/tfc_server/feedmaker/ParseFeed.java:96-198 | the parse fails exactly when some present template fails, and then with the first such template's error |
| ParseFeed.ParsedKeysDeclared | src/main/java/uk/ac/cam/tfc_server/feedmaker/ParseFeed.java:114-194 | each record's keys are among its template's field names |
| ParseFeed.TemplatesFor | src/main/java/uk/ac/cam/tfc_server/feedmaker/ParseFeed.java:237-435 | templates exist exactly for the two built-in feed types |
| ParseFeed.ParsePage | src/main/java/uk/ac/cam/tfc_server/feedmaker/ParseFeed.java:96-104 | an unknown feed type fails with that error, and only an unknown feed type does |
| ParseFeed.CalcPlusUndoesMinus | src/main/java/uk/ac/cam/tfc_server/feedmaker/ParseFeed.java:142-155 | adding back a subtracted field restores the original value, even across 32-bit wrap-around |
| ParseFeed.DifferenceStored | src/main/java/uk/ac/cam/tfc_server/feedmaker/ParseFeed.java:142-148 | after two scanned operands, the difference field is stored exactly when both were read |
| ParseFeed.LocalOccupancyExact | src/main/java/uk/ac/cam/tfc_server/feedmaker/ParseFeed.java:253-256 | for non-negative capacity and free spaces, the 32-bit occupancy is the exact difference |
| ParseFeed.FixedCapacityRecord | src/main/java/uk/ac/cam/tfc_server/feedmaker/ParseFeed.java:244-303 | a fixed-capacity car-park template yields its id, its capacity, and the free and occupied spaces when the free count is read |
| ParseFeed.ScannedCapacityRecord | src/main/java/uk/ac/cam/tfc_server/feedmaker/ParseFeed.java:308-432 | a scanned-capacity car-park template yields capacity, occupancy and free spaces as read, with free spaces the difference |
| ParseFeed.CamParkLocalShape | src/main/java/uk/ac/cam/tfc_server/feedmaker/ParseFeed.java:244-303 | every built-in `cam_park_local` template has the fixed-id, fixed-capacity, scanned-free, occupied-difference shape |
| ParseFeed.LocalRecordOccupancy | src/main/java/uk/ac/cam/tfc_server/feedmaker/ParseFeed.java:244-303 | a template of that shape yields a record whose occupied count is capacity minus free |
| ParseFeed.LocalParsedRecord | src/main/java/uk/ac/cam/tfc_server/feedmaker/ParseFeed.java:244-303 | a record parsed from a page with such a template has the four keys and occupied equal to capacity minus free |
| ParseFeed.LocalOccupancy | src/main/java/uk/ac/cam/tfc_server/feedmaker/ParseFeed.java:244-303 | on success, each record parsed with templates of that shape holds exactly the four fields, with occupied equal to capacity minus free in 32-bit arithmetic |
| Batcher.FileName | src/main/java/uk/ac/cam/tfc_server/batcher/BatcherWorker.java:225 | the file name is the suffix of the path after its last '/' (the whole path when there is none), and holds no '/' |
| Batcher.GetTs | src/main/java/uk/ac/cam/tfc_server/batcher/BatcherWorker.java:222-234 | a timestamp, when the name yields one, is within the range of a Java `long` |
| Batcher.GetTsNeedsUnderscore | src/main/java/uk/ac/cam/tfc_server/batcher/BatcherWorker.java:225-231 | a file name with no '_' yields no timestamp |
| Batcher.UnreadableName | src/main/java/uk/ac/cam/tfc_server/batcher/BatcherWorker.java:222-234 | a file name whose part before the last '_' does not start with a sign or digit yields no timestamp |
| Batcher.TsRoundTrip | src/main/java/uk/ac/cam/tfc_server/batcher/BatcherWorker.java:222-234 | the timestamp written at the head of a file name before '_' is read back |
| Batcher.GetBasename | src/main/java/uk/ac/cam/tfc_server/batcher/BatcherWorker.java:238-247 | there is a base name exactly when the last path piece holds a '.'; it is then that piece up to its last '.', with no '/' in it |
| Batcher.GetDate | src/main/java/uk/ac/cam/tfc_server/batcher/BatcherWorker.java:251-255 | a date is read exactly when the path has at least four pieces, and it has three '/'-separated parts |
| Batcher.BinPathPieces | src/main/java/uk/ac/cam/tfc_server/batcher/BatcherWorker.java:240 | splitting a feed file path gives the root's pieces, then year, month, day and file name |
| Batcher.BasenameOfPieces | src/main/java/uk/ac/cam/tfc_server/batcher/BatcherWorker.java:238-247 | a path whose last piece is `base.ext`, with no '.' in `ext`, has `base` as its base name |
| Batcher.DateOfPieces | src/main/java/uk/ac/cam/tfc_server/batcher/BatcherWorker.java:251-255 | a path whose last four pieces are year, month, day and name has that date |
| Batcher.BinPathRoundTrip | src/main/java/uk/ac/cam/tfc_server/batcher/BatcherWorker.java:220-255 | the timestamp, base name and date a feed file path is built from are read back from it |
| Batcher.WorkedExample | src/main/java/uk/ac/cam/tfc_server/batcher/BatcherWorker.java:221 | the documented example file gives timestamp 1457334014 and date 2016/03/07 |
| Batcher.PathLeTotal | src/main/java/uk/ac/cam/tfc_server/batcher/BatcherWorker.java:153 | any two paths are ordered one way or the other |
| Batcher.PathLeAntisymmetric | src/main/java/uk/ac/cam/tfc_server/batcher/BatcherWorker.java:153 | two paths ordered both ways are equal |
| Batcher.PathLeTransitive | src/main/java/uk/ac/cam/tfc_server/batcher/BatcherWorker.java:153 | the path order is transitive |
| Batcher.PathLePrefix | src/main/java/uk/ac/cam/tfc_server/batcher/BatcherWorker.java:153 | a common directory prefix does not change the order of two paths |
| Batcher.Insert | src/main/java/uk/ac/cam/tfc_server/batcher/BatcherWorker.java:153 | inserting into a sorted list keeps it sorted and adds exactly that path |
| Batcher.SortPaths | src/main/java/uk/ac/cam/tfc_server/batcher/BatcherWorker.java:153 | the sorted listing is ordered and is a permutation of the listing |
| Batcher.SortedUnique | src/main/java/uk/ac/cam/tfc_server/batcher/BatcherWorker.java:153 | two sorted permutations of the same paths are equal |
| Batcher.SortIgnoresListingOrder | src/main/java/uk/ac/cam/tfc_server/batcher/BatcherWorker.java:149-153 | the order in which the directory walk lists files does not affect the sorted list |
| Batcher.Selected | src/main/java/uk/ac/cam/tfc_server/batcher/BatcherWorker.java:163 | a path is selected exactly when it is listed and its timestamp lies strictly inside the window |
| Batcher.SelectedIsSubsequence | src/main/java/uk/ac/cam/tfc_server/batcher/BatcherWorker.java:155-163 | the selection keeps the listing's order |
| Batcher.SelectedSorted | src/main/java/uk/ac/cam/tfc_server/batcher/BatcherWorker.java:153-163 | a selection from a sorted list is sorted |
| Batcher.FirstBadName | src/main/java/uk/ac/cam/tfc_server/batcher/BatcherWorker.java:161 | names before the result yield timestamps and the name at it does not |
| Batcher.WalkStopsAtFirstBadName | src/main/java/uk/ac/cam/tfc_server/batcher/BatcherWorker.java:155-176 | the pass processes the selected files before the first unreadable name and stops there |
| Batcher.ProcessBinDir | src/main/java/uk/ac/cam/tfc_server/batcher/BatcherWorker.java:144-178 | files are processed in sorted order and only listed ones inside the window; a failure names a listed unreadable file; with no failure every name was readable |
| Batcher.WalkWhenNamesAreGood | src/main/java/uk/ac/cam/tfc_server/batcher/BatcherWorker.java:144-178 | when every name is readable, the pass processes exactly the sorted selection and does not fail |
| Batcher.DotSortsFirst | src/main/java/uk/ac/cam/tfc_server/batcher/BatcherWorker.java:153 | in one directory, a hidden file sorts before a feed file named by its timestamp |
| Batcher.StrayFileStopsWalk | src/main/java/uk/ac/cam/tfc_server/batcher/BatcherWorker.java:155-176 | a hidden file beside one feed file in the window ends the pass before the feed file is processed, while the skipping pass processes it |
| Batcher.ProcessBinDirSkipping | src/main/java/uk/ac/cam/tfc_server/batcher/BatcherWorker.java:155-176 | the skipping pass processes, in sorted order, exactly the listed files whose timestamp is inside the window |
| Batcher.SkippingAgreesWithWalk | src/main/java/uk/ac/cam/tfc_server/batcher/BatcherWorker.java:144-178 | the skipping pass ignores listing order and agrees with the pass as written whenever every name is readable |

## Left out

- `Position.distance` and other `Position` helpers are not used by the modelled operations.
- IEEE doubles: coordinates and the intersection arithmetic are exact reals, so rounding error and the NaN and infinity cases of a zero denominator are not modelled. A zero denominator is treated as "no crossing", which is how Java's comparisons with NaN or infinity behave.
- `Vehicle` and `ZoneConfig` are not part of this model. `update` is taken to move the current position and flag into the previous ones, and a new vehicle to have no transit start.
- Message sending (`zone_msg`, the event bus), logging, `local_datetime_string` and the verticle life cycle and configuration. Events are returned as a sequence instead.
- `process_gtfs_file` and GTFS decoding are left out. A file that passes the window is only recorded as processed, and its own read or decode errors are caught in the source anyway.
- `process_bin_files` is left out. It steps through days in a time zone and calls `process_bin_dir` per day.
- `Files.walk` and `isRegularFile`: the directory listing is an input, a sequence of the regular files' path strings.
- Java's `Path.compareTo` is modelled as character-by-character comparison of the path strings.
- Zone.Transition: the model sends the completion and clears the transit start whatever the step durations. As written, `zone_completion` formats both durations for its log line, and `LocalTime.ofSecondOfDay` throws for a duration below 0 or at least 86400 seconds. Zone.UpdateVehicleAsWritten and Zone.HandleFeedAsWritten model that path (see "## Findings").
- Geo.InsideAcrossDateline: the zone engine keeps `inside` as written, so a zone drawn across the dateline still misses the points its box rejects. The corrected test is proved on its own and is not wired into `Zone.UpdateVehicle`.
- Zone.UpdateVehicle: `Advance` takes the route of every report as the vehicle's route. `Vehicle.update` is not part of this model, so the promise that an event carries the report's route rests on that reading of it.
- ParseFeed.ScanField: lengths and positions count Unicode characters, whereas Java strings count UTF-16 code units. Text with characters outside the Basic Multilingual Plane is measured differently: 21 such characters are 42 code units, over the 40 limit at ParseFeed.java:167, but 21 characters here. The same goes for `indexOf` and `substring` positions.
- JavaText.ParseSigned: only ASCII digits are accepted. Java also accepts other Unicode decimal digits.
- Batcher.GetTs: the timestamp is an unbounded integer. Java's `Long` unboxing and the comparison with a `null` `finish_ts` are not modelled.
- Null strings and null JSON values do not arise, because every field is present as a value.
- The source compares `field_type` with `==` on strings, which relies on interned literals. The model compares kinds by value.
- ParseFeed.TemplatesFor: the `cam_park_rss` list is modelled in full, but the concrete end-to-end record lemma covers only the shape shared by its templates (ScannedCapacityRecord).
- The model keeps these behaviours of the code:
  - the time window is exclusive at both ends (BatcherWorker.java:163);
  - `get_ts` cuts at the last '_' (BatcherWorker.java:228);
  - a finish without a start is sent as ZONE_EXIT (ZoneCompute.java:381);
  - the transit start is cleared on every exit (ZoneCompute.java:124-155, reset at :153).
- The comment at BatcherWorker.java:157-158 gives file names as `<UTC-TS>_YYYY_MM_DD_hh_mm_ss.bin`. With that format, `get_ts` would cut at the last '_' and fail. The model follows the code and the hyphenated names in the doc comments at lines 221 and 237.

## Findings

| source | as written | input that shows it | evidently intended | confidence | as-written member | corrected member |
|---|---|---|---|---|---|---|
| src/main/java/uk/ac/cam/tfc_server/batcher/BatcherWorker.java:155-176 | `get_ts` is called outside the `try`, so a file name without a readable timestamp throws out of the `forEach` and ends the whole directory pass | a day directory holding `.DS_Store` beside `1457334014_2016-03-07-07-00-14.bin`, with the window around 1457334014: `.DS_Store` sorts first, and the feed file is never processed | skip files whose names carry no timestamp and process the rest | medium, not executed | Batcher.StrayFileStopsWalk (on Batcher.ProcessBinDir) | Batcher.ProcessBinDirSkipping (with Batcher.SkippingAgreesWithWalk) |
| src/main/java/uk/ac/cam/tfc_server/zone/ZoneCompute.java:435-445 | `zone_completion` passes both step durations to `duration_to_time_str`, whose `LocalTime.ofSecondOfDay` throws outside 0 to 86399 seconds; the throw comes before the message is sent and before the reset in `update_vehicle`, and it ends `handle_feed`'s loop | a bus inside the square zone with a transit start leaves over the finish line in a step of 100000 seconds (say its tracker was off overnight) | send the completion, clear the start, and process the rest of the batch; only the log line is affected by a long step | medium, not executed | Zone.UpdateVehicleAsWritten (with ZoneScenarios.OvernightCompletion and Zone.HandleFeedAsWrittenStops) | Zone.UpdateVehicle (with Zone.ThrowLosesCompletion and Zone.UpdateKeepsConsistent) |
| src/main/java/uk/ac/cam/tfc_server/zone/ZoneCompute.java:162-163 | `inside` first rejects any point outside the box built from the raw vertex longitudes, before the dateline step of its edge loop | the zone with corners (0, 170), (10, 170), (10, -170), (0, -170) and the point (5, 175): its box runs from -170 east to 170, so the point is rejected | a zone drawn across the dateline contains the points between its sides, which the edge loop finds; the box should not overrule it | medium, not executed | ZoneScenarios.DatelineBoxRejectsInterior (on Geo.Inside) | Geo.InsideAcrossDateline (with ZoneScenarios.DatelineInteriorInside) |
