# Verified model of the camera analytics engine

This project models, in Dafny, what happens to a camera frame between the detector and the database,
and the small state machines around it, and proves properties of whole runs.

A frame passes through these stages, one module or several each:

- `Decoding`, `DecodedAnchors`, `FaceDecoding`, `FaceAnchors`, `Suppression`: raw detector tensors to boxes,
  and non-maximum suppression, in the object detectors' form (eliminate) and in the face detector's (accept);
- `Alignment`: the similarity transform from face landmarks to the embedding template;
- `Matching`, `Similarity`: cosine similarity and what it measures, best match in one model version, identity bands;
- `Tracking`, `TrackIds`, `TrackingTheorems`, `Motion`: the motion-predicting greedy tracker;
- `Geometry`, `Rules`, `RuleTheorems`, `Stays`, `LeftObjects`: polygon and crossing tests, and the timed
  behaviour rules of one camera;
- `Intervals`, `Presence`: offline merging of sightings, and how the online bookkeeping relates to it;
- `Pipeline`, `PipelineTheorems`, `Visits`, `PlateReadings`, `PipelineRules`, `MissedGap`: the per-camera pipeline
  that owns all per-track state, what its runs keep and record, and the rule engine's run inside it;
- `RateLimiting`, `RefreshTokens`, `TokenOwners`, `SingleFlight`: the token bucket, the server's refresh-token
  store, and the browser tab that shares one refresh among concurrent calls;
- `Analytics`, `Counting`: occupancy buckets and the footfall heatmap.

`Boxes`, `Overlaps`, `StableSort`, `Selections`, `RealProducts` and `Options` are shared. Where the program
changes objects in place (tracker, rule engine, pipeline, limiter, token store, browser tab) there is a class
whose methods follow it statement by statement; each method is proved equal to a function of the old state, and
the theorems about whole runs are lemmas about that function. Where the program only computes, the model is a
function. Loops are loops.

Floating-point numbers are reals, times are seconds (real) or microseconds (integer), dictionaries are maps,
`sorted` is a stable sort. Detector output, plate readings, face recognition, the motion gate's answer, the
clock and fresh identifiers are inputs.

Some results say where the code and what one might expect of it part ways, when exactly, and on what input:

- presence windows reported online equal the offline ones exactly when no gap longer than `merge_gap` went
  unnoticed (`PresenceRefinesAggregation`; a run of two frames where one did: `MissedGapJoinsWindows`);
- merging covers every interval it is given exactly when none reaches back behind one that lies beyond all
  before it; an interval given backwards can, because the list is sorted before intervals are turned round
  (`CoveredExactlyWhen`, `BackwardsIntervalLost`);
- a track that was never matched again is dropped one miss earlier than one that was (`AgesAfterStep`,
  `MissesUntilDropped`);
- the dwell of an object-left report is the time since the object came into the zone exactly when it was not
  seen outside since the remembered entry; after a reported removal that entry is kept (`LeftExactlyWhen`,
  `DwellIsTrueWhen`, and the run `ReturnKeepsOldDwell`);
- a password change ends every session of the user, the caller's own included, although the comment in the
  code says every other one (`UsableAfter`); and a 401 from an authentication endpoint, such as the one for
  a wrong current password, ends the tab's session (`SessionEndsExactlyWhen`, `WrongPasswordEndsSession`);
- crossings are exact for non-parallel segments with an end point counting on one side only; the
  documentation says "properly crosses" (`CrossingIsExact`).

`dafny verify dfyconfig.toml` checks everything.

## Model

| member | source | states |
|---|---|---|
| StableSort.SortOrders | packages/ai/tracker.py:61 | `sorted` by confidence puts the list in order |
| StableSort.SortPermutes | packages/ai/tracker.py:61 | and keeps every element as often as it was given |
| StableSort.SortIsStable | packages/ai/detectors.py:47 | `sorted` is stable: elements with equal keys keep their order, in every list |
| StableSort.SortOfOrdered | packages/ai/detectors.py:47 | sorting a sorted list changes nothing |
| StableSort.SortIgnoresOrder | packages/ai/detectors.py:47 | with distinct keys the input order does not matter |
| Boxes.IouSymmetric | packages/ai/detectors.py:35-42 | overlap does not depend on which box comes first |
| Overlaps.SharedArea | packages/ai/detectors.py:36-40 | the shared area is the product of the lengths of the intervals the boxes have in common on the two axes |
| Overlaps.NothingShared | packages/ai/detectors.py:36-40 | and 0 when there is no such interval on one axis |
| Overlaps.IouIsShare | packages/ai/detectors.py:35-42 | the overlap is the share of the area covered together that both cover, between 0 and 1 |
| Overlaps.SameBoxOverlaps | packages/ai/detectors.py:35-42 | 1 for a box with itself |
| Suppression.Nms | packages/ai/detectors.py:45-53 | the kept indices come in descending score, no two kept boxes overlap above the threshold, and each dropped box overlaps a kept one of at least its score |
| Suppression.LoopsAgree | packages/ai/detectors.py:49-52 | eliminating overlaps and accepting non-overlapping boxes return the same list, for one score order and one symmetric overlap test |
| Suppression.DetectorLoopsAgree | packages/ai/detectors.py:45-53 | for the object detectors' score order and overlap test the face detector's loop would keep the same boxes |
| Suppression.CutIsPrefix | packages/ai/face_onnx.py:226-230 | stopping once `_TOP_K` are accepted returns exactly a prefix of the uncut result |
| Suppression.KeptAreClear | packages/ai/detectors.py:49-52 | kept elements pairwise do not overlap |
| Suppression.KeptAreOrdered | packages/ai/detectors.py:47-52 | kept elements stay in score order |
| Suppression.DroppedHaveWitness | packages/ai/detectors.py:49-52 | every element is kept or overlaps a kept one scoring at least as high |
| Suppression.SuppressionIdempotent | packages/ai/detectors.py:45-53 | suppressing what was kept, sorted again, changes nothing |
| Suppression.FaceOverlapSymmetric | packages/ai/face_onnx.py:233-241 | the face detector's own IoU test is symmetric, so both loops agree for it |
| Suppression.SuppressFaces | packages/ai/face_onnx.py:223-231 | the face loop returns the first 50 faces that the elimination loop would keep under its overlap test |
| FaceDecoding.DecodeLevel | packages/ai/face_onnx.py:201-222 | one stride yields, in index order, the face of every anchor above the confidence threshold and no other |
| FaceDecoding.Decode | packages/ai/face_onnx.py:186-231 | raises exactly when a confident anchor has no grid; otherwise at most 50 faces, in descending score, none overlapping, and a candidate is missing only if it overlaps a better one or 50 better ones are returned |
| FaceDecoding.GridlessWhen | packages/ai/face_onnx.py:204-212 | the division by the grid side raises exactly for an output of one anchor that is confident |
| FaceDecoding.GridOfFull | packages/ai/face_onnx.py:204-205 | for two anchors per cell of a square grid the computed side is the grid's |
| FaceDecoding.AnchorsFillGrid | packages/ai/face_onnx.py:211-213 | every cell of the grid owns the two consecutive indices at its row-major position |
| FaceDecoding.CentresAreDistinct | packages/ai/face_onnx.py:211-213 | two anchors share a centre exactly when they form one pair |
| FaceDecoding.BoxRoundTrip | packages/ai/face_onnx.py:214-222 | the four distances can be read back from the decoded box |
| FaceAnchors.AnchorIsMidpoint | packages/ai/face_onnx.py:211-213 | each anchor stands in the middle of its cell, a square of one stride |
| FaceAnchors.FacesOfSelected | packages/ai/face_onnx.py:201-222 | a stride yields, in order, one face per anchor above the threshold, with that anchor's score and with sides and landmarks at its distances, times the stride, from the middle of its cell |
| FaceAnchors.CandidateTells | packages/ai/face_onnx.py:201-222 | every candidate of a frame is what some confident anchor of the three outputs says, read with the stride of its own output |
| FaceAnchors.AnchorTells | packages/ai/face_onnx.py:201-222 | and every confident anchor has such a candidate |
| FaceAnchors.FaceIouIsIou | packages/ai/face_onnx.py:233-241 | for boxes of non-negative size the face detector measures overlap as the object detectors do |
| Decoding.DecodeColumns | packages/ai/detectors.py:103-117 | the column layout decodes to the boxes, scores and classes of its confident columns |
| Decoding.DecodeRows | packages/ai/detectors.py:119-134 | the row layout decodes to those of its confident rows |
| Decoding.PostprocessYolo | packages/ai/detectors.py:56-140 | layout choice, decoding, suppression and naming together, including the exception for a tensor without class scores |
| Decoding.LayoutFlips | packages/ai/detectors.py:95-100 | transposing flips the detected layout exactly when the shape is not square and one side is at least 6 |
| Decoding.TransposeInvariant | packages/ai/detectors.py:90-140 | a tensor and its transpose give the same detections whenever the shape tells the layouts apart |
| Decoding.DetectionsAreClear | packages/ai/detectors.py:108-139 | detections reach the threshold, come in descending confidence and do not overlap above the IoU threshold |
| Decoding.FrameSizeCancels | packages/ai/detectors.py:112-115 | boxes are in units of the model input: the frame size has no influence |
| DecodedAnchors.EitherLayoutIsRead | packages/ai/detectors.py:90-100 | with more anchors than values per anchor, and at least 6 of those, the anchors are found in either layout |
| DecodedAnchors.EntriesOfSelected | packages/ai/detectors.py:103-134 | decoding yields, in order, one entry per anchor with a class score that reaches the threshold: its greatest score, the first class that has it, and a box with the anchor's centre and size in units of the input |
| DecodedAnchors.MissingAreOverlapped | packages/ai/detectors.py:135-140 | a decoded entry is reported or overlaps a reported detection at least as confident |
| Alignment.PolarForm | packages/ai/face_onnx.py:74-76 | going through angle and scale yields a/denom and b/denom |
| Alignment.EstimateIsLeastSquares | packages/ai/face_onnx.py:61-76 | no rotation, scale and translation has smaller squared error, for any number of landmarks; the excess of any other is a sum of squares |
| Alignment.SamplingInverts | packages/ai/face_onnx.py:78-89 | the sampling map is the inverse of the estimated transform on both sides, whenever the scale is not zero |
| Matching.CauchySchwarz | packages/ai/matcher.py:15-23 | the inequality behind the cosine, for vectors of any length |
| Matching.CosineInRange | packages/ai/matcher.py:15-23 | similarity lies between -1 and 1, zero vectors and length mismatches included |
| Matching.Search | packages/ai/matcher.py:30-49 | the loop computes the scan, and the class of its score; `ScanIsMaximum`, `FirstIsNamed` and `AnswerBands` say which entry, `LawOfCosines` what its score measures |
| Matching.ScanIsMaximum | packages/ai/matcher.py:40-47 | the result attains the maximum over the entries of the same model version |
| Matching.NobodyFoundWhen | packages/ai/matcher.py:41-47 | nobody is found exactly when every same-version score is -1, so -1 is a valid start |
| Matching.KnownWhen | packages/domain/events.py:18-35 | the answer is `known` exactly when some same-version entry reaches the threshold (and scores above -1), unless the entry found has an empty id |
| Matching.OtherVersionsIgnored | packages/ai/matcher.py:42-44 | entries of other versions never matter |
| Matching.ScoreIgnoresOrder | packages/ai/matcher.py:40-47 | reordering changes neither the best score nor whether somebody is found |
| Similarity.CosineSymmetric | packages/ai/matcher.py:15-23 | similarity does not depend on which vector comes first |
| Similarity.CosineScales | packages/ai/matcher.py:15-23 | stretching either vector leaves it unchanged, turning one round negates it |
| Similarity.OneIsSameDirection | packages/ai/matcher.py:15-23 | it is 1 exactly for non-zero vectors of which one is a positive multiple of the other |
| Similarity.MinusOneIsOpposite | packages/ai/matcher.py:15-23 | and -1 exactly when one is a negative multiple |
| Similarity.LawOfCosines | packages/ai/matcher.py:15-23 | it is the cosine of the angle: with the two lengths it gives the distance between the vectors |
| Similarity.SameDirectionIsFound | packages/ai/matcher.py:40-49 | if some same-version entry points the same way, the score is 1, somebody with such an entry is named, and with a threshold of at most 1 and nobody enrolled under the empty id the answer is `known` |
| Similarity.NearestIsFound | packages/ai/matcher.py:40-49 | among entries of one length the person named has the entry nearest to the vector |
| Similarity.FirstIsNamed | packages/ai/matcher.py:45-47 | on a tie the entry standing first is named |
| Similarity.AnswerBands | packages/domain/events.py:18-35 | `known` from the threshold on, `uncertain` in the band of 0.05 below it, otherwise `unknown`; a similarity is given exactly with a non-empty id |
| TrackIds.TrackIdInjective | packages/ai/tracker.py:42-45 | an id determines its camera and number |
| TrackIds.DecimalDenotes | packages/ai/tracker.py:42-45 | the number is written in decimal, without a leading zero |
| Tracking.IouTracker.constructor | packages/ai/tracker.py:35-40 | a new tracker satisfies the run invariant |
| Tracking.IouTracker.NextId | packages/ai/tracker.py:42-45 | the id is built from the camera's next number, which is used up |
| Tracking.IouTracker.BestPrediction | packages/ai/tracker.py:63-69 | the inner loop finds the scan's result |
| Tracking.IouTracker.AssociateAll | packages/ai/tracker.py:58-99 | the association loop changes the state as the association function does |
| Tracking.IouTracker.AgeUnmatched | packages/ai/tracker.py:101-106 | the ageing loop changes the state as the ageing function does |
| Tracking.IouTracker.Update | packages/ai/tracker.py:55-107 | one frame turns the state into the step function's and keeps the run invariant |
| Tracking.ScanIsBest | packages/ai/tracker.py:63-69 | an unused prediction of largest positive overlap is chosen, none if there is none |
| Tracking.AssociateFits | packages/ai/tracker.py:60-99 | the association reports each detection once, under pairwise different ids that are matched old ones or never issued before |
| Tracking.AgeAllAges | packages/ai/tracker.py:101-106 | ageing adds one miss to exactly the unmatched tracks and drops exactly those past `max_age` |
| Tracking.StepSound | packages/ai/tracker.py:55-107 | every update returns one track per detection with distinct ids, keeps ages in 0..max_age and trajectories of 1 to 20 points, and only adds tracks whose ids were never issued |
| TrackingTheorems.StepIsStable | packages/ai/tracker.py:55-99 | the association is a stable matching between detections and predicted boxes |
| TrackingTheorems.StableMatchingUnique | packages/ai/tracker.py:60-88 | with distinct confidences and overlaps there is only one stable matching |
| TrackingTheorems.StepIgnoresOrder | packages/ai/tracker.py:57-107 | without ties neither the order of detections nor of the dictionary influences reports or state |
| TrackingTheorems.IdsNeverRecur | packages/ai/tracker.py:42-45 | an id whose track is gone is never reported or stored again |
| TrackingTheorems.MissesUntilDropped | packages/ai/tracker.py:101-106 | an unmatched track is alive after k misses exactly when its age plus k is at most `max_age` |
| TrackingTheorems.AgesAfterStep | packages/ai/tracker.py:90-106 | a matched track has age 0 after an update, a new one already 1 |
| TrackingTheorems.RunStaysCalm | packages/ai/tracker.py:70-82 | with boxes and smoothing in [0, 1] every velocity component stays in [-1, 1] over any run |
| Motion.SteadyObjectIsFollowed | packages/ai/tracker.py:47-99 | a track at rest, then reported n times, each time displaced by D, then missed: if it is the only one alive, a lone detection is reported under its id exactly when it overlaps enough with the last box moved by D - (1 - s)^n D, sizes cut at 0 (not missed: with the last box) |
| Motion.SteadyMotion | packages/ai/tracker.py:70-88 | over such a run the velocity is D short of the part (1 - s)^n |
| Motion.ForecastBetween | packages/ai/tracker.py:70-82 | for smoothing factors s in [0, 1] that forecast lies between the last box and one displacement on |
| Motion.LoneDetection | packages/ai/tracker.py:47-99 | whatever the velocity: a lone detection is reported under the id of the only track exactly when it fits the forecast, the box plus the velocity after a miss and the box itself otherwise |
| Motion.ReportedFitsForecast | packages/ai/tracker.py:47-88 | with any other tracks and detections, what is reported under an old id fits its forecast |
| Motion.ReportedIsSighted | packages/ai/tracker.py:70-88 | a matched track takes on the reported box and blends the displacement into its velocity by the smoothing factor |
| Motion.NewcomerIsAtRest | packages/ai/tracker.py:89-99 | a new track has velocity 0 and the box reported |
| Motion.TrajectoryHoldsMidpoints | packages/ai/tracker.py:84-88 | over any run a trajectory holds the last 20 midpoints of the boxes reported for the track |
| Geometry.PointInPolygon | packages/ai/rules.py:51-68 | the ray-casting loop computes the parity of edge crossings |
| Geometry.CrossesIsOrientation | packages/ai/rules.py:62-64 | the division in the edge test decides on which side of the edge the point lies |
| Geometry.CrossesSymmetric | packages/ai/rules.py:60-64 | an edge counts the same in either direction |
| Geometry.InsideRespectsCuts | packages/ai/rules.py:51-68 | cutting a polygon along a chord: inside exactly when inside one piece but not both |
| Geometry.InsideIgnoresRotation | packages/ai/rules.py:51-68 | the starting vertex does not matter |
| Geometry.InsideIgnoresDirection | packages/ai/rules.py:51-68 | the direction of the vertex list does not matter |
| Geometry.InsideIsFanParity | packages/ai/rules.py:51-68 | for every polygon the test is the parity of the triangle tests of its fan |
| Geometry.InsideTriangle | packages/ai/rules.py:51-68 | a triangle, in either vertex order, contains all points strictly inside and none strictly outside; a flat one contains none |
| Geometry.InsideRectangle | packages/ai/rules.py:51-68 | on an axis-aligned rectangle it is the half-open box test |
| Geometry.CrossingIsExact | packages/ai/rules.py:75-83 | true exactly when the segments are not parallel and meet, an end point counting on one side only |
| Geometry.DirectionIsSide | packages/ai/rules.py:86-99 | for a crossing movement +1 exactly when it ends strictly left of the line, -1 otherwise |
| Rules.RuleEngine.constructor | packages/ai/rules.py:162-166 | a new engine remembers nothing |
| Rules.RuleEngine.Add | packages/ai/rules.py:168-171 | a rule is appended, with the engine's camera if it has none of its own |
| Rules.RuleEngine.EvaluateObject | packages/ai/rules.py:195-217 | one track's sighting is evaluated by all rules in order on its own memory only |
| Rules.RuleEngine.CountCrowd | packages/ai/rules.py:300-305 | the number of matching objects in the zone |
| Rules.RuleEngine.EvaluateCrowds | packages/ai/rules.py:295-315 | the crowd pass, including the exception when no object qualifies as representative |
| Rules.RuleEngine.EvaluateFrame | packages/ai/rules.py:185-222 | a whole frame: sightings, crowds, forgetting of absent tracks; nothing is forgotten when the crowd pass raises |
| Rules.CrowdsNeverRaise | packages/ai/rules.py:306-312 | thresholds of at least 1 rule the exception out |
| RuleTheorems.EvalRuleLocal | packages/ai/rules.py:225-293 | a rule reads only what is remembered under its own id |
| RuleTheorems.EvalRulesProjects | packages/ai/rules.py:204-215 | among all rules each behaves as if it were alone |
| RuleTheorems.EvalObjectsProjects | packages/ai/rules.py:195-217 | tracks do not disturb each other |
| RuleTheorems.EvaluateProjects | packages/ai/rules.py:185-222 | seen from one rule and one track, a frame is one evaluation of that rule, or forgetting |
| Stays.OneEventPerStay | packages/ai/rules.py:240-274 | intrusion and loitering report a track exactly in the frame where its true dwell since the stay began first reaches the configured one |
| Stays.StayHasOpening | packages/ai/rules.py:240-274 | every frame in the zone belongs to a stay |
| Stays.OpenUnique | packages/ai/rules.py:240-274 | and to one only |
| Stays.StayReportedOnce | packages/ai/rules.py:240-274 | a stay that lasts long enough is reported in exactly one frame, a shorter one in none |
| Stays.LineHitMeans | packages/ai/rules.py:225-238 | a rule accepts a movement exactly when it meets the line within the fractions of `CrossingIsExact` and ends on the wanted side |
| Stays.OneCrossingPerAppearance | packages/ai/rules.py:225-238 | a line is reported exactly at the first movement of an unbroken appearance that meets it and, if the rule wants a direction, ends on the side it asks for (strictly left for +1, not left for -1); every report of such a rule carries that direction |
| Stays.CrowdSizeCounts | packages/ai/rules.py:300-308 | the count is the number of members of that set |
| Stays.CrowdReportedOnFormation | packages/ai/rules.py:295-315 | a crowd is reported exactly in frames where the set of its members, the objects of the wanted labels whose midpoint is in the zone, has the configured size and had not in the evaluated frame before, with its size and its representative's box |
| Stays.RepresentativeIsLargest | packages/ai/rules.py:309-310 | the representative is the first largest object of the rule's labels, none if there is no such object |
| LeftObjects.RemovedAnswersLeft | packages/ai/rules.py:287-293 | over runs, a removal is reported exactly when a non-person is seen outside while a report that it was left is pending, and none is made while one is pending |
| LeftObjects.RemovedReport | packages/ai/rules.py:287-293 | the report of a removal names the object with its label, box and time |
| LeftObjects.MemoryIsEntry | packages/ai/rules.py:279-292 | the remembered entry time is that of the first frame in the zone since the object was last out of sight, or outside without a removal reported |
| LeftObjects.HasEntry | packages/ai/rules.py:279-282 | every frame in the zone has such an entry frame |
| LeftObjects.EntryUnique | packages/ai/rules.py:279-292 | and only one |
| LeftObjects.LeftExactlyWhen | packages/ai/rules.py:276-286 | over runs, an object in the zone is reported left exactly when the time since its entry reaches the configured one and no report is pending; the report carries that time |
| LeftObjects.EntryBeginsStay | packages/ai/rules.py:287-292 | the stay in the zone began at the entry exactly when the object was not seen outside since |
| LeftObjects.DwellIsTrueWhen | packages/ai/rules.py:282-292 | so the reported dwell is the time since the stay began exactly when the object was not seen outside since its entry |
| LeftObjects.ReturnKeepsOldDwell | packages/ai/rules.py:287-293 | a run in which a bag that has just come back is reported left with a dwell of 32 seconds |
| Intervals.MergeIntervals | packages/domain/events.py:38-56 | the loop computes the fold the next lemmas characterise |
| Intervals.WindowsAreComponents | packages/domain/events.py:38-56 | two inputs share a window exactly when a chain of inputs at most `gap` apart links them |
| Intervals.MergedIsSettled | packages/domain/events.py:38-56 | windows are in order, more than `gap` apart, made of input ends, and merging them again changes nothing |
| Intervals.MergedIgnoresOrder | packages/domain/events.py:38-56 | only the set of inputs matters |
| Intervals.CoveredExactlyWhen | packages/domain/events.py:47-56 | for inputs given either way round: all are covered exactly when, in order of their given starts, none reaches back behind one that lies more than `gap` beyond all before it |
| Intervals.BackwardsIntervalLost | packages/domain/events.py:50-53 | an input whose first five seconds are lost |
| Presence.AggregateTrack | packages/domain/events.py:59-67 | offline windows of a track: its merged sightings, or its whole span if it has none |
| Presence.OnlineRefinesOffline | packages/domain/events.py:59-67 | single-track bookkeeping coarsens the offline windows, and equals them exactly when no long gap was missed |
| Pipeline.CameraPipeline.constructor | packages/ai/pipeline.py:139-190 | a new pipeline is valid, tracks nobody and keeps the readable masks |
| Pipeline.CameraPipeline.Detect | packages/ai/pipeline.py:276-286 | the tracker sees exactly the confident, unmasked detections; nothing on a still scene |
| Pipeline.CameraPipeline.AnalyzeRules | packages/ai/pipeline.py:289-303 | rule events of frames with tracks are stored as point events; an exception of the crowd pass is passed on |
| Pipeline.CameraPipeline.AnalyzePlates | packages/ai/pipeline.py:304-333 | plates are read at most every 5 seconds per vehicle and stored only when they differ from the last |
| Pipeline.CameraPipeline.MarkSeen | packages/ai/pipeline.py:335-348 | sightings open or extend the active tracks |
| Pipeline.CameraPipeline.PersistDetections | packages/ai/pipeline.py:353-387 | rows for tracks that moved or are stale; gating entries of absent tracks dropped |
| Pipeline.CameraPipeline.CloseStale | packages/ai/pipeline.py:389-398 | exactly the unseen tracks past `merge_gap` are closed, one presence event each |
| Pipeline.CameraPipeline.Record | packages/ai/pipeline.py:335-401 | marking, sampling, closing and the final upsert together |
| Pipeline.CameraPipeline.ProcessFrame | packages/ai/pipeline.py:269-402 | one frame: the new state is the step function's and the session gains exactly the rows it names; if the rule engine raises, only tracker and rule memory have moved on |
| PipelineTheorems.MasksInForce | packages/ai/pipeline.py:102-112 | a detection is suppressed exactly when some stored mask is a rectangle of non-negative numbers with the box's midpoint in it or at least half of the box's area |
| PipelineTheorems.HidesIsMaskedBy | packages/ai/pipeline.py:193-207 | the mask test in those terms: midpoint, or the area made of the common intervals of the two axes |
| PipelineTheorems.TrackedIsShown | packages/ai/pipeline.py:276-286 | the boxes of a frame's tracks are exactly those of confident detections that no stored mask hides, in a frame that is not skipped |
| PipelineTheorems.HiddenIsNeverShown | packages/ai/pipeline.py:193-207 | so a box with its midpoint in a readable mask, or half of its area, is never shown |
| PipelineTheorems.MasksAreRespected | packages/ai/pipeline.py:193-207 | in every reachable state every box held by active tracks, tracker, rule memory or gate, and every box of every row written, is one that was shown |
| TrackingTheorems.StepBoxes | packages/ai/tracker.py:79-98 | after an update every track has a box of this frame's detections or the one it had |
| PipelineTheorems.CompletesWhen | packages/ai/pipeline.py:291-293 | with crowd thresholds of at least 1 no frame raises |
| PipelineTheorems.SamplesStayClose | packages/ai/pipeline.py:350-387 | after every completed frame the gate holds exactly the frame's tracks, and each one's last stored row is within 0.01 in every component and less than 2 s old |
| PipelineTheorems.RowsWrittenWhen | packages/ai/pipeline.py:350-380 | in a completed frame a row is stored exactly when the track was not in the completed frame before, moved since its last row, or that row is 2 s old |
| PipelineTheorems.DetectionRowsTell | packages/ai/pipeline.py:371-380 | every detection row carries id, label, confidence and box of one of the frame's tracks, and the frame's time |
| PipelineTheorems.RunMirrors | packages/ai/pipeline.py:369-387 | the gate remembers time and box of each track's last stored row |
| PipelineTheorems.PresenceStep | packages/ai/pipeline.py:335-398 | one completed frame does to each track's window what the single-track bookkeeping does, one that raises does nothing |
| PipelineTheorems.PresenceFollows | packages/ai/pipeline.py:335-398 | over a run, reported and open windows are those of the single-track bookkeeping |
| PipelineTheorems.PresenceRefinesAggregation | packages/ai/pipeline.py:335-398 | over a run, a track's reported and open windows are unions of `aggregate_track` windows of its sightings, and equal to them exactly when no gap longer than `merge_gap` went unnoticed |
| Visits.RecordsFollowVisits | packages/ai/pipeline.py:335-348 | over any run a track is active exactly while it has sightings since it last appeared, and holds the time and trajectory of the first, the time and box of the last, the greatest confidence and the answer of the last look at the face; the face is looked at first at once, then whenever the last look is `recognize_interval` old, never when recognition is off |
| Visits.PresenceEventsTell | packages/ai/pipeline.py:389-398 | a presence event for a track is written exactly in the frame that ends its visit, and tells of all of it; it names a person only when the last answer was `known` |
| Visits.TrackRowsTell | packages/ai/pipeline.py:443-456 | so does the row written for every track with a visit under way |
| PlateReadings.PlateEventsTell | packages/ai/pipeline.py:304-333 | over runs a plate event is stored exactly when a reading is taken, at most every 5 s per vehicle, whose plate differs from the last one read of that track |
| PlateReadings.ReadingsAreSpaced | packages/ai/pipeline.py:304-312 | consecutive readings of one vehicle are at least 5 s apart |
| MissedGap.MissedGapJoinsWindows | packages/ai/pipeline.py:335-398 | a run of two frames 100 seconds apart: one online window, two offline ones |
| PipelineRules.RulesFollow | packages/ai/pipeline.py:289-293 | over any run the rule state is the engine's own after exactly the frames with tracks |
| PipelineRules.RuleFramesAreProper | packages/ai/pipeline.py:291-293 | in each of these the engine is given pairwise different tracks |
| PipelineRules.StoredRuleEvents | packages/ai/pipeline.py:291-303 | a completed frame stores exactly the events the engine reports for it in that run, and the plate events |
| PipelineRules.StoredRowsTellEvents | packages/ai/pipeline.py:293-303 | a stored rule event carries the event's track, type, score, box and detail, starts and ends at its time and names nobody |
| PipelineRules.PipelineReportsStays | packages/ai/pipeline.py:291-303 | so in a pipeline's run intrusion and loitering are reported exactly when the dwell of a stay first reaches the configured one |
| RateLimiting.RateLimiter.Allow | packages/security/ratelimit.py:20-36 | one call changes one bucket and answers by its level |
| RateLimiting.RateLimiter.Reset | packages/security/ratelimit.py:38-40 | one bucket is forgotten |
| RateLimiting.RateLimiter.Clear | packages/security/ratelimit.py:42-45 | all are |
| RateLimiting.LevelInRange | packages/security/ratelimit.py:29-35 | the level stays between 0 and the capacity |
| RateLimiting.TokensConserved | packages/security/ratelimit.py:20-36 | calls admitted plus the level left never exceed capacity plus refill |
| RateLimiting.WindowBound | packages/security/ratelimit.py:20-36 | any window admits at most capacity plus rate times its length |
| RateLimiting.AdmittedExactlyWhen | packages/security/ratelimit.py:20-36 | the first call is admitted; a later one exactly when, counted from each earlier call on, the admitted calls and this one fit the capacity plus what was refilled since |
| RateLimiting.LevelIsTight | packages/security/ratelimit.py:29-35 | the bound of `TokensConserved` is attained: nothing refilled is lost except above the capacity |
| RateLimiting.DeniedCallsDoNotMatter | packages/security/ratelimit.py:31-34 | with all denied calls deleted from the history, the remaining calls are still all admitted |
| RateLimiting.AdmittedSameState | packages/security/ratelimit.py:31-34 | and every later call finds the same level |
| RateLimiting.BucketsAreIndependent | packages/security/ratelimit.py:22-45 | a bucket depends only on its own calls since its last reset |
| RefreshTokens.TokenStore.IssueRefresh | apps/api/routers/auth.py:124-133 | a fresh usable row |
| RefreshTokens.TokenStore.Refresh | apps/api/routers/auth.py:137-172 | rotation: refused for bad claims, unknown, revoked or replaced tokens and inactive users, otherwise the row is revoked and linked to a fresh one |
| RefreshTokens.TokenStore.Logout | apps/api/routers/auth.py:176-188 | the presented token's row is revoked, whatever its state |
| RefreshTokens.TokenStore.ChangePassword | apps/api/routers/auth.py:238-240 | every unrevoked row of the user is revoked |
| RefreshTokens.TokenStore.RevokeSession | apps/api/routers/auth.py:276-292 | the user's row of that id is revoked, or none exists |
| RefreshTokens.UsableAfter | apps/api/routers/auth.py:136-292 | exactly which tokens each request takes out of use; no request makes a dead token usable |
| RefreshTokens.IdsStayUnique | packages/domain/models.py:83 | row ids stay unique, so a session id names one row |
| RefreshTokens.UsableIsLast | apps/api/routers/auth.py:148-163 | a usable token is the end of its chain |
| RefreshTokens.OneUsablePerLogin | apps/api/routers/auth.py:148-163 | of all tokens descending from one login at most one is usable |
| RefreshTokens.LoginsFormChains | apps/api/routers/auth.py:124-163 | in every history the `replaced_by` links form one acyclic chain per login, and these make up the store |
| RefreshTokens.DeadStaysDead | apps/api/routers/auth.py:148-163 | a token that is not usable never is again |
| RefreshTokens.AcceptedOnce | apps/api/routers/auth.py:148-163 | no token is accepted twice in any history |
| TokenOwners.StoredUnderOwner | apps/api/routers/auth.py:124-163 | over every history a token is stored under the user whose login or refresh request it answered |
| TokenOwners.ChainBelongsToLogin | apps/api/routers/auth.py:124-163 | if presented claims name the user a token was issued to, every token of a chain belongs to the user of the login that began it |
| TokenOwners.PasswordChangeEndsLogins | apps/api/routers/auth.py:238-240 | so after a password change no token descending from a login of that user is usable, and those of other users' logins are as before |
| TokenOwners.RevocationSparesOthers | apps/api/routers/auth.py:276-292 | and revoking a session changes nothing for other users' logins |
| SingleFlight.Tab.constructor | ui/core/api.js:16-25 | only session storage survives a page load |
| SingleFlight.Tab.PersistSession | ui/core/api.js:58-65 | access, expiry, token and stored copy change together; an answer without a refresh token leaves the old one |
| SingleFlight.Tab.ClearSession | ui/core/api.js:67-73 | and are dropped together |
| SingleFlight.Tab.TryRefresh | ui/core/api.js:104-127 | refused without a token, joins a refresh in flight, starts one otherwise |
| SingleFlight.Tab.BeginCall | ui/core/api.js:133-147 | a call remembers whether there was a session |
| SingleFlight.Tab.OnResponse | ui/core/api.js:149-175 | a first 401 outside the authentication endpoints asks for a refresh; any other 401 ends an existing session |
| SingleFlight.Tab.SessionSecondsLeft | ui/core/api.js:54-56 | the time left, never negative, unknown without an expiry |
| SingleFlight.Tab.OnTick | ui/core/api.js:216-222 | a tick within 90 seconds of the expiry asks for a refresh |
| SingleFlight.Tab.RestoreSession | ui/core/api.js:203-209 | a page load with a surviving token asks for a refresh |
| SingleFlight.Tab.OnResume | ui/core/api.js:152-161 | after the shared refresh a call is retried once, or the session ends |
| SingleFlight.Tab.OnRefreshDone | ui/core/api.js:107-124 | the answer is stored, the flight ends, and all waiters get one result |
| SingleFlight.TickAsksWhen | ui/core/api.js:216-222 | a tick asks for a refresh exactly when there is a token and the access token is known to expire within 90 seconds |
| SingleFlight.RefreshDecides | ui/core/api.js:104-161 | a failed refresh ends the session of each waiter that had one; a successful one brings its token and lifetime, and the call is sent again |
| SingleFlight.PresentedOnceUnlessFailed | ui/core/api.js:104-127 | in every interleaving, a token is presented again only after the earlier request with it ended without a session |
| SingleFlight.PresentedAtMostOnce | ui/core/api.js:104-155 | left alone, concurrent calls and ticks present each token at most once, the server accepts each, and the token the tab goes on with is usable |
| SingleFlight.SessionEndsExactlyWhen | ui/core/api.js:152-162 | left alone, a session ends exactly when a call is answered 401 after its retry or by an authentication endpoint |
| SingleFlight.WrongPasswordEndsSession | ui/core/api.js:151-162 | an undisturbed run that ends without a session although the tab's token is still usable |
| SingleFlight.SessionSurvives | ui/core/api.js:104-162 | so without such answers it never ends |
| Analytics.OccupancyTrend | packages/domain/analytics.py:31-62 | the loop ends, and its buckets tile the range from `start`, each with its count |
| Analytics.FetchCounts | packages/domain/analytics.py:44-59 | counting in the single fetch is counting in all tracks, up to the end of the range |
| Analytics.WholeBucketsAgree | packages/domain/analytics.py:56-61 | a bucket ending by `end` counts what a query of its own would |
| Counting.BucketsCountPresent | packages/domain/analytics.py:56-61 | each bucket counts the tracks present at some moment of it |
| Analytics.HeatmapGrid | packages/domain/analytics.py:92-120 | each cell holds the number of readable trajectory points, of the queried tracks, that fall into it |
| Analytics.VisitsConserved | packages/domain/analytics.py:112-119 | no visit is lost or counted twice, wherever the points lie |
| Counting.VisitsCount | packages/domain/analytics.py:117-119 | a cell counts the points in its row's band and its column's; the outermost bands take the points beyond the frame |
| Counting.PointsAre | packages/domain/analytics.py:109-116 | the points counted are the readable ones of the queried tracks, each as often as it occurs |
| Counting.TouchingAre | packages/domain/analytics.py:104-108 | the query returns the tracks present at some moment of the range, each as often as it is stored |

## Left out

- Floating-point rounding, NaN and `round()` in details and trajectories: all arithmetic is exact. The class label is called `kind`, since `label` is a word of Dafny's.
- Tracking.IouTracker.Update: trajectories are values; that a new track's reported list is the stored one, and so grows with it, is not captured.
- Pipeline.CameraPipeline.ProcessFrame: per-track state objects are values in a map; the enrolment cache, snapshots, encryption and storage are left out, recognition, plate readings and the motion gate's answer are inputs; presence events closed in one frame come in any order. The only exception modelled is the crowd pass's.
- Rules.RuleEngine.EvaluateFrame: per-track memory is a value in a map, and "already fired" entries are sets of their own, so a rule id that begins with `_fired_` or `_left_fired_` could collide in the program but not here. The theorems assume distinct rule ids; default ids can collide.
- Stays.OneEventPerStay: for crowd thresholds of at least 1 and distinct track ids in a frame; a frame whose crowd pass raises loses all its events.
- Intervals.WindowsAreComponents: for intervals with start before end, as documented, and a gap that is not negative; what holds for backwards intervals is stated separately.
- Alignment.SamplingInverts: a zero scale, for which the program divides by zero, is excluded; bilinear sampling is left out.
- FaceDecoding.Decode: preprocessing of the frame and the choice of one face for a person box are left out.
- Decoding.PostprocessYolo: zero frame or input sizes, for which the program divides by zero, are excluded, as are arrays that are not two-dimensional.
- Matching.Search: the square root is a parameter of which only its defining property is used.
- Analytics.OccupancyTrend: `bucket_min` is positive, otherwise the program does not end; time zones and SQL are left out.
- Analytics.HeatmapGrid: the query names no order; its limit of 20000 tracks is taken to keep the first ones stored. Coordinates that are not finite are left out.
- Counting.BucketsCountPresent: for stored spans that do not end before they begin.
- RateLimiting.RateLimiter.Allow: the clock is a parameter; the program reads it outside the lock, so that two threads can present times out of order, while the theorems assume a non-decreasing clock.
- RefreshTokens.TokenStore.Refresh: signature and expiry decide whether there are claims; requests are atomic; rate limits, audit records and access tokens are left out.
- RefreshTokens.TokenStore.ChangePassword: starts after the old password was verified; password hashes, MFA and the failed-login counter are left out.
- TokenOwners.ChainBelongsToLogin: presented claims are taken to name the user the token was issued to, since tokens are signed.
- SingleFlight.PresentedAtMostOnce: one tab; a page load during a refresh, sign-in and sign-out are excluded there and covered by `PresentedOnceUnlessFailed`, which counts an abandoned refresh as failed.
- Retention, alert cooldown, video and stream handling, other dashboards' queries, the views: they would add only easy members.
