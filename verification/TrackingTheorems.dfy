/** What the tracker's updates guarantee: the association is a stable matching and, when there are
    no ties, the only one; dictionary and list order then do not matter; ids never recur; tracks
    survive an exactly known number of misses; velocities stay bounded. */
module TrackingTheorems {
  import opened Boxes
  import opened RealProducts
  import opened StableSort
  import opened Tracking

  // ---------------------------------------------------------------- stable matching

  ghost predicate Acceptable(cfg: Config, d: Detection, q: Prediction) {
    Iou(d.bbox, q.bbox) > 0.0 && Iou(d.bbox, q.bbox) >= cfg.iouThreshold
  }

  ghost predicate DistinctPredictions(preds: seq<Prediction>) {
    forall q, r :: q in preds && r in preds && q.id == r.id ==> q == r
  }

  /** Detection `i` goes to a prediction it overlaps at least as much as `q`. */
  ghost predicate Satisfied(preds: seq<Prediction>, dets: seq<Detection>, ids: seq<string>, i: nat, q: Prediction)
    requires |ids| == |dets| && i < |dets|
  {
    exists r :: r in preds && r.id == ids[i] && Iou(dets[i].bbox, r.bbox) >= Iou(dets[i].bbox, q.bbox)
  }

  /** The track of `q` goes to a detection at least as confident as detection `i`. */
  ghost predicate TakenAbove(dets: seq<Detection>, ids: seq<string>, i: nat, q: Prediction)
    requires |ids| == |dets| && i < |dets|
  {
    exists j :: 0 <= j < |dets| && ids[j] == q.id && dets[j].confidence >= dets[i].confidence
  }

  ghost predicate PairsAcceptable(cfg: Config, preds: seq<Prediction>, dets: seq<Detection>, ids: seq<string>)
    requires |ids| == |dets|
  {
    forall i, q :: 0 <= i < |dets| && q in preds && q.id == ids[i] ==> Acceptable(cfg, dets[i], q)
  }

  ghost predicate NoTrackTwice(ids: seq<string>) {
    forall i, j :: 0 <= i < j < |ids| ==> ids[i] != ids[j]
  }

  ghost predicate Unblocked(preds: seq<Prediction>, dets: seq<Detection>, ids: seq<string>, i: nat, q: Prediction)
    requires |ids| == |dets| && i < |dets|
  {
    Satisfied(preds, dets, ids, i, q) || TakenAbove(dets, ids, i, q)
  }

  ghost predicate NoBlockingPair(cfg: Config, preds: seq<Prediction>, dets: seq<Detection>, ids: seq<string>)
    requires |ids| == |dets|
  {
    forall i: nat, q {:trigger Unblocked(preds, dets, ids, i, q)} ::
      i < |dets| && q in preds && Acceptable(cfg, dets[i], q) ==> Unblocked(preds, dets, ids, i, q)
  }

  /** `ids[i]` is the track of detection `i`: only acceptable pairs, no track twice, and no
      detection and track that would both rather have each other. */
  ghost predicate Stable(cfg: Config, preds: seq<Prediction>, dets: seq<Detection>, ids: seq<string>) {
    && |ids| == |dets|
    && PairsAcceptable(cfg, preds, dets, ids)
    && NoTrackTwice(ids)
    && NoBlockingPair(cfg, preds, dets, ids)
  }

  ghost function Ids(out: seq<Track>): (ids: seq<string>)
    ensures |ids| == |out|
    ensures forall i :: 0 <= i < |out| ==> ids[i] == out[i].trackId
  {
    seq(|out|, i requires 0 <= i < |out| => out[i].trackId)
  }

  lemma {:induction false} StableExtends(cfg: Config, preds: seq<Prediction>, dets: seq<Detection>, ids: seq<string>,
                                         det: Detection, id: string)
    requires Stable(cfg, preds, dets, ids) && id !in ids
    requires forall q :: q in preds && q.id == id ==> Acceptable(cfg, det, q)
    requires forall q :: q in preds && Acceptable(cfg, det, q) ==> Unblocked(preds, dets + [det], ids + [id], |dets|, q)
    ensures Stable(cfg, preds, dets + [det], ids + [id])
  {
    var dets', ids' := dets + [det], ids + [id];
    forall i: nat, q | i < |dets'| && q in preds && Acceptable(cfg, dets'[i], q)
      ensures Unblocked(preds, dets', ids', i, q)
    {
      if i < |dets| {
        assert Unblocked(preds, dets, ids, i, q);
        if TakenAbove(dets, ids, i, q) {
          var j :| 0 <= j < |dets| && ids[j] == q.id && dets[j].confidence >= dets[i].confidence;
          assert ids'[j] == q.id;
        }
      }
    }
  }

  /** What one association step appends. */
  lemma {:induction false} StepAppends(cfg: Config, camera: string, preds: seq<Prediction>, s: State, p: Progress,
                                       det: Detection, q: Prediction)
    requires Sound(cfg, s) && Alive(preds, s.tracks) && Alive(preds, p.s.tracks) && DistinctPredictions(preds)
    requires StateFits(cfg, s, p) && IdsFit(s, p) && q in preds
    ensures var out := Associate1(cfg, camera, preds, p, det).out;
            && |out| == |p.out| + 1 && p.out == out[..|p.out|]
            && (out[|p.out|].trackId == q.id ==> Acceptable(cfg, det, q))
            && (Acceptable(cfg, det, q) && q.id !in p.used ==>
                  exists r :: r in preds && r.id == out[|p.out|].trackId
                      && Iou(det.bbox, r.bbox) >= Iou(det.bbox, q.bbox))
  {
    var best := Scan(preds, det.bbox, p.used);
    ScanIsBest(preds, det.bbox, p.used);
    if best.id.Some? && best.iou >= cfg.iouThreshold {
      assert IsPrediction(preds, best.id.value, det.bbox, best.iou);
    } else {
      BirthFits(cfg, camera, s, p, det);
    }
  }

  lemma NothingStable(cfg: Config, preds: seq<Prediction>)
    ensures Stable(cfg, preds, [], [])
  {
  }

  lemma LastIsLeastConfident(dets: seq<Detection>)
    requires Ordered(dets, ByConfidence) && dets != []
    ensures var n := |dets| - 1;
            Ordered(dets[..n], ByConfidence)
            && forall j :: 0 <= j < n ==> dets[..n][j].confidence >= dets[n].confidence
  {
    var n := |dets| - 1;
    forall j | 0 <= j < n ensures dets[..n][j].confidence >= dets[n].confidence {
      assert ByConfidence(dets[j]) <= ByConfidence(dets[n]);
    }
  }

  lemma AssociateLast(cfg: Config, camera: string, preds: seq<Prediction>, s: State, dets: seq<Detection>)
    requires Alive(preds, s.tracks) && dets != []
    ensures var n := |dets| - 1;
            Associate(cfg, camera, preds, s, dets)
            == Associate1(cfg, camera, preds, Associate(cfg, camera, preds, s, dets[..n]), dets[n])
    ensures dets == dets[..|dets| - 1] + [dets[|dets| - 1]]
  {
    hide Associate1, Alive;
  }

  lemma {:induction false} AssociateStable(cfg: Config, camera: string, preds: seq<Prediction>, s: State,
                                           dets: seq<Detection>)
    requires Wf(s) && Sound(cfg, s) && Alive(preds, s.tracks) && DistinctPredictions(preds)
    requires Ordered(dets, ByConfidence)
    ensures Stable(cfg, preds, dets, Ids(Associate(cfg, camera, preds, s, dets).out))
  {
    if dets == [] {
      NothingStable(cfg, preds);
    } else {
      hide Stable, StateFits, IdsFit, Sound, Wf, DistinctPredictions, Ordered, Associate, Associate1;
      var n := |dets| - 1;
      LastIsLeastConfident(dets);
      AssociateStable(cfg, camera, preds, s, dets[..n]);
      AssociateFits(cfg, camera, preds, s, dets[..n]);
      AppendStable(cfg, camera, preds, s, dets[..n], Associate(cfg, camera, preds, s, dets[..n]), dets[n]);
      AssociateLast(cfg, camera, preds, s, dets);
    }
  }

  lemma {:induction false} AppendStable(cfg: Config, camera: string, preds: seq<Prediction>, s: State,
                                        dets: seq<Detection>, p: Progress, det: Detection)
    requires Sound(cfg, s) && Alive(preds, s.tracks) && Alive(preds, p.s.tracks) && DistinctPredictions(preds)
    requires StateFits(cfg, s, p) && IdsFit(s, p) && Stable(cfg, preds, dets, Ids(p.out))
    requires forall j :: 0 <= j < |dets| ==> dets[j].confidence >= det.confidence
    ensures Stable(cfg, preds, dets + [det], Ids(Associate1(cfg, camera, preds, p, det).out))
  {
    var id := AppendedId(cfg, camera, preds, s, p, det);
    forall q | q in preds ensures q.id == id ==> Acceptable(cfg, det, q)
      ensures Acceptable(cfg, det, q) ==> Unblocked(preds, dets + [det], Ids(p.out) + [id], |dets|, q)
    {
      StepAppends(cfg, camera, preds, s, p, det, q);
      if Acceptable(cfg, det, q) {
        LastUnblocked(preds, dets, Ids(p.out), det, id, p.used, q);
      }
    }
    StableExtends(cfg, preds, dets, Ids(p.out), det, id);
  }

  lemma {:induction false} AppendedId(cfg: Config, camera: string, preds: seq<Prediction>, s: State, p: Progress,
                                      det: Detection)
    returns (id: string)
    requires Sound(cfg, s) && Alive(preds, s.tracks) && Alive(preds, p.s.tracks)
    requires StateFits(cfg, s, p) && IdsFit(s, p)
    ensures var out := Associate1(cfg, camera, preds, p, det).out;
            |out| == |p.out| + 1 && id == out[|p.out|].trackId && Ids(out) == Ids(p.out) + [id]
    ensures id !in Ids(p.out)
    ensures forall x :: x in p.used ==> x in Ids(p.out)
  {
    var out := Associate1(cfg, camera, preds, p, det).out;
    Associate1Fits(cfg, camera, preds, s, p, det);
    id := out[|p.out|].trackId;
    IdsOfAppended(p.out, out);
    forall x | x in p.used ensures x in Ids(p.out) {
      assert Reported(p.out, x);
      ReportedId(p.out, x);
    }
  }

  lemma ReportedId(out: seq<Track>, id: string)
    requires Reported(out, id)
    ensures id in Ids(out)
  {
    var j :| 0 <= j < |out| && out[j].trackId == id;
    assert Ids(out)[j] == id;
  }

  lemma IdsOfAppended(out: seq<Track>, out': seq<Track>)
    requires |out'| == |out| + 1 && out == out'[..|out|] && DistinctIds(out')
    ensures Ids(out') == Ids(out) + [out'[|out|].trackId] && out'[|out|].trackId !in Ids(out)
  {
    assert forall j :: 0 <= j < |out| ==> out'[j] == out[j] && Ids(out)[j] == out'[j].trackId;
  }

  lemma {:induction false} LastUnblocked(preds: seq<Prediction>, dets: seq<Detection>, ids: seq<string>,
                                         det: Detection, id: string, used: set<string>, q: Prediction)
    requires |ids| == |dets|
    requires forall j :: 0 <= j < |dets| ==> dets[j].confidence >= det.confidence
    requires q.id in used ==> q.id in ids
    requires q.id !in used ==> exists r :: r in preds && r.id == id && Iou(det.bbox, r.bbox) >= Iou(det.bbox, q.bbox)
    ensures Unblocked(preds, dets + [det], ids + [id], |dets|, q)
  {
    var dets', ids' := dets + [det], ids + [id];
    assert dets'[|dets|] == det && ids'[|dets|] == id;
    if q.id in used {
      var j :| 0 <= j < |ids| && ids[j] == q.id;
      assert ids'[j] == q.id && dets'[j] == dets[j];
    }
  }

  /** Whatever the tracker's state, an update matches the detections, most confident first, to the
      predicted boxes so that no detection and track would both prefer each other. */
  lemma StepIsStable(cfg: Config, s: State, camera: string, detections: seq<Detection>)
    requires Wf(s) && Sound(cfg, s)
    ensures Stable(cfg, Predictions(s.order, s.tracks), Sort(detections, ByConfidence),
                   Ids(Step(cfg, s, camera, detections).out))
  {
    SortOrders(detections, ByConfidence);
    var preds := Predictions(s.order, s.tracks);
    assert DistinctPredictions(preds);
    AssociateStable(cfg, camera, preds, s, Sort(detections, ByConfidence));
  }

  // ---------------------------------------------------------------- uniqueness

  /** No detection overlaps two predictions equally. */
  ghost predicate DistinctOverlaps(preds: seq<Prediction>, d: Detection) {
    forall q, r :: q in preds && r in preds && Iou(d.bbox, q.bbox) == Iou(d.bbox, r.bbox) > 0.0 ==> q == r
  }

  /** Two matchings give the first `n` detections the same tracks. */
  ghost predicate Agree(preds: seq<Prediction>, ids: seq<string>, ids': seq<string>, n: nat)
    requires n <= |ids| && n <= |ids'|
  {
    forall i, q :: 0 <= i < n && q in preds ==> (ids[i] == q.id <==> ids'[i] == q.id)
  }

  lemma EarlierInOrder(dets: seq<Detection>, i: nat, j: nat)
    requires StrictlyOrdered(dets, ByConfidence) && i < |dets| && j < |dets|
    requires dets[j].confidence >= dets[i].confidence
    ensures j <= i
  {
    assert i < j ==> ByConfidence(dets[i]) < ByConfidence(dets[j]);
  }

  lemma {:induction false} StableForbidsBetter(cfg: Config, preds: seq<Prediction>, dets: seq<Detection>,
                                               ids: seq<string>, ids': seq<string>, i: nat, q: Prediction,
                                               r: Prediction)
    requires Stable(cfg, preds, dets, ids) && Stable(cfg, preds, dets, ids') && DistinctPredictions(preds)
    requires StrictlyOrdered(dets, ByConfidence) && i < |dets|
    requires Agree(preds, ids, ids', i)
    requires q in preds && ids[i] == q.id && r in preds && ids'[i] == r.id
    ensures Iou(dets[i].bbox, r.bbox) <= Iou(dets[i].bbox, q.bbox)
  {
    assert Acceptable(cfg, dets[i], r);
    assert Unblocked(preds, dets, ids, i, r);
    forall j: nat | j < |dets| && dets[j].confidence >= dets[i].confidence ensures j <= i {
      EarlierInOrder(dets, i, j);
    }
  }

  lemma {:induction false} StableForces(cfg: Config, preds: seq<Prediction>, dets: seq<Detection>, ids: seq<string>,
                                        ids': seq<string>, i: nat, q: Prediction)
    requires Stable(cfg, preds, dets, ids) && Stable(cfg, preds, dets, ids') && DistinctPredictions(preds)
    requires StrictlyOrdered(dets, ByConfidence) && i < |dets| && DistinctOverlaps(preds, dets[i])
    requires Agree(preds, ids, ids', i)
    requires q in preds && ids[i] == q.id
    ensures ids'[i] == q.id
  {
    assert Acceptable(cfg, dets[i], q);
    assert Unblocked(preds, dets, ids', i, q);
    if Satisfied(preds, dets, ids', i, q) {
      var r :| r in preds && r.id == ids'[i] && Iou(dets[i].bbox, r.bbox) >= Iou(dets[i].bbox, q.bbox);
      StableForbidsBetter(cfg, preds, dets, ids, ids', i, q, r);
    } else {
      var j :| 0 <= j < |dets| && ids'[j] == q.id && dets[j].confidence >= dets[i].confidence;
      EarlierInOrder(dets, i, j);
    }
  }

  /** With distinct confidences and distinct overlaps there is only one stable matching. */
  lemma {:induction false} StableMatchingUnique(cfg: Config, preds: seq<Prediction>, dets: seq<Detection>,
                                                ids: seq<string>, ids': seq<string>, n: nat)
    requires Stable(cfg, preds, dets, ids) && Stable(cfg, preds, dets, ids') && DistinctPredictions(preds)
    requires StrictlyOrdered(dets, ByConfidence) && n <= |dets|
    requires forall d :: d in dets ==> DistinctOverlaps(preds, d)
    ensures Agree(preds, ids, ids', n)
  {
    if n > 0 {
      StableMatchingUnique(cfg, preds, dets, ids, ids', n - 1);
      assert dets[n - 1] in dets;
      assert Agree(preds, ids', ids, n - 1);
      forall q | q in preds ensures ids[n - 1] == q.id <==> ids'[n - 1] == q.id {
        if ids[n - 1] == q.id {
          StableForces(cfg, preds, dets, ids, ids', n - 1, q);
        } else if ids'[n - 1] == q.id {
          StableForces(cfg, preds, dets, ids', ids, n - 1, q);
        }
      }
    }
  }

  // ---------------------------------------------------------------- order does not matter

  ghost predicate SameMembers(s: seq<Prediction>, t: seq<Prediction>) {
    forall x :: x in s <==> x in t
  }

  lemma {:induction false} ScanIgnoresOrder(preds: seq<Prediction>, preds': seq<Prediction>, d: Detection,
                                            used: set<string>)
    requires SameMembers(preds, preds') && DistinctOverlaps(preds, d)
    ensures Scan(preds, d.bbox, used) == Scan(preds', d.bbox, used)
  {
    var b, b' := Scan(preds, d.bbox, used), Scan(preds', d.bbox, used);
    ScanIsBest(preds, d.bbox, used);
    ScanIsBest(preds', d.bbox, used);
    if b.id.Some? {
      var q :| q in preds && q.id == b.id.value && Iou(d.bbox, q.bbox) == b.iou;
      assert q in preds' && b'.iou >= b.iou > 0.0;
      var q' :| q' in preds' && q'.id == b'.id.value && Iou(d.bbox, q'.bbox) == b'.iou;
      assert q' in preds;
    }
  }

  /** Two states that differ at most in the insertion order of their tracks. */
  ghost predicate SameContent(s: State, s': State) {
    s.tracks == s'.tracks && s.counters == s'.counters
  }

  ghost predicate SameProgress(p: Progress, p': Progress) {
    SameContent(p.s, p'.s) && p.used == p'.used && p.out == p'.out
  }

  lemma {:induction false} Associate1IgnoresOrder(cfg: Config, camera: string, preds: seq<Prediction>,
                                                  preds': seq<Prediction>, p: Progress, p': Progress, det: Detection)
    requires SameProgress(p, p') && SameMembers(preds, preds')
    requires Alive(preds, p.s.tracks) && Alive(preds', p'.s.tracks) && DistinctOverlaps(preds, det)
    ensures SameProgress(Associate1(cfg, camera, preds, p, det), Associate1(cfg, camera, preds', p', det))
  {
    ScanIgnoresOrder(preds, preds', det, p.used);
  }

  lemma {:induction false} AssociateIgnoresOrder(cfg: Config, camera: string, preds: seq<Prediction>,
                                                 preds': seq<Prediction>, s: State, s': State, dets: seq<Detection>)
    requires SameContent(s, s') && SameMembers(preds, preds')
    requires Alive(preds, s.tracks) && Alive(preds', s'.tracks)
    requires forall i :: 0 <= i < |dets| ==> DistinctOverlaps(preds, dets[i])
    ensures SameProgress(Associate(cfg, camera, preds, s, dets), Associate(cfg, camera, preds', s', dets))
  {
    if dets != [] {
      var n := |dets| - 1;
      AssociateIgnoresOrder(cfg, camera, preds, preds', s, s', dets[..n]);
      Associate1IgnoresOrder(cfg, camera, preds, preds', Associate(cfg, camera, preds, s, dets[..n]),
                             Associate(cfg, camera, preds', s', dets[..n]), dets[n]);
    }
  }

  lemma {:induction false} AgeAllIgnoresOrder(cfg: Config, s: State, s': State, used: set<string>)
    requires Wf(s) && Wf(s') && SameContent(s, s')
    ensures SameContent(AgeAll(cfg, s, used, s.order), AgeAll(cfg, s', used, s'.order))
  {
    AgeAllAges(cfg, s, used, s.order);
    AgeAllAges(cfg, s', used, s'.order);
    var r, r' := AgeAll(cfg, s, used, s.order), AgeAll(cfg, s', used, s'.order);
    forall id ensures id in r.tracks <==> id in r'.tracks
      ensures id in r.tracks ==> r.tracks[id] == r'.tracks[id]
    {
      if id in s.order {
        assert AgedTo(cfg, s, used, r, id) && AgedTo(cfg, s', used, r', id);
      } else {
        assert Untouched(s, r, id) && Untouched(s', r', id);
      }
    }
  }

  /** Without ties, neither the order of the detections nor the dictionary order of the tracks has
      any influence on the reported tracks or on the new state. */
  lemma StepIgnoresOrder(cfg: Config, s: State, s': State, camera: string, detections: seq<Detection>,
                         detections': seq<Detection>)
    requires Wf(s) && Wf(s') && Sound(cfg, s) && SameContent(s, s')
    requires multiset(detections) == multiset(detections') && DistinctKeys(detections, ByConfidence)
    requires forall d :: d in detections ==> DistinctOverlaps(Predictions(s.order, s.tracks), d)
    ensures Step(cfg, s, camera, detections).out == Step(cfg, s', camera, detections').out
    ensures SameContent(Step(cfg, s, camera, detections).s, Step(cfg, s', camera, detections').s)
  {
    hide Sort, Associate, AgeAll, IdsFit, DistinctOverlaps, SoundTrack;
    var dets := Sort(detections, ByConfidence);
    SortIgnoresOrder(detections, detections', ByConfidence);
    SortMembers(detections, ByConfidence);
    var preds, preds' := Predictions(s.order, s.tracks), Predictions(s'.order, s'.tracks);
    PredictionsSameMembers(s, s');
    assert forall i :: 0 <= i < |dets| ==> dets[i] in detections;
    AssociateIgnoresOrder(cfg, camera, preds, preds', s, s', dets);
    AssociateFits(cfg, camera, preds, s, dets);
    AssociateFits(cfg, camera, preds', s', dets);
    var p, p' := Associate(cfg, camera, preds, s, dets), Associate(cfg, camera, preds', s', dets);
    AgeAllIgnoresOrder(cfg, p.s, p'.s, p.used);
  }

  lemma PredictionsSameMembers(s: State, s': State)
    requires Wf(s) && Wf(s') && SameContent(s, s')
    ensures SameMembers(Predictions(s.order, s.tracks), Predictions(s'.order, s'.tracks))
  {
    PredictionMember(s);
    PredictionMember(s');
  }

  lemma PredictionMember(s: State)
    requires Wf(s)
    ensures forall q :: q in Predictions(s.order, s.tracks) <==> q.id in s.tracks && q.bbox == Predict(s.tracks[q.id])
  {
    var preds := Predictions(s.order, s.tracks);
    forall q: Prediction | q.id in s.tracks && q.bbox == Predict(s.tracks[q.id]) ensures q in preds {
      assert q.id in s.order;
      var i :| 0 <= i < |s.order| && s.order[i] == q.id;
      assert preds[i] == q;
    }
  }

  // ---------------------------------------------------------------- whole runs

  datatype Frame = Frame(camera: string, detections: seq<Detection>)

  ghost predicate Ready(cfg: Config, s: State) {
    Wf(s) && Sound(cfg, s)
  }

  /** The state after a sequence of updates. */
  ghost function Run(cfg: Config, s: State, frames: seq<Frame>): (r: State)
    requires Ready(cfg, s)
    ensures Ready(cfg, r)
    decreases |frames|
  {
    if frames == [] then s
    else
      StepSound(cfg, s, frames[0].camera, frames[0].detections);
      Run(cfg, Step(cfg, s, frames[0].camera, frames[0].detections).s, frames[1..])
  }

  /** The tracks reported by each update of a run. */
  ghost function RunReports(cfg: Config, s: State, frames: seq<Frame>): (r: seq<seq<Track>>)
    requires Ready(cfg, s)
    ensures |r| == |frames|
    decreases |frames|
  {
    if frames == [] then []
    else
      StepSound(cfg, s, frames[0].camera, frames[0].detections);
      var o := Step(cfg, s, frames[0].camera, frames[0].detections);
      [o.out] + RunReports(cfg, o.s, frames[1..])
  }

  lemma {:induction false} StaysForgotten(cfg: Config, s: State, f: Frame, id: string)
    requires Ready(cfg, s) && Issued(s.counters, id) && id !in s.tracks
    ensures var o := Step(cfg, s, f.camera, f.detections);
            Ready(cfg, o.s) && Issued(o.s.counters, id) && id !in o.s.tracks && !Reported(o.out, id)
  {
    StepSound(cfg, s, f.camera, f.detections);
    hide Step, Sound, Wf, Issued, Grew, ReportsAll, DistinctIds;
    IssuedGrows(s.counters, Step(cfg, s, f.camera, f.detections).s.counters, id);
  }

  /** An id that has been handed out and is no longer alive never comes back. */
  lemma {:induction false} IdsNeverRecur(cfg: Config, s: State, frames: seq<Frame>, id: string)
    requires Ready(cfg, s) && Issued(s.counters, id) && id !in s.tracks
    ensures id !in Run(cfg, s, frames).tracks
    ensures forall k :: 0 <= k < |frames| ==> !Reported(RunReports(cfg, s, frames)[k], id)
    decreases |frames|
  {
    if frames != [] {
      hide Step, Ready, Issued, Reported;
      StaysForgotten(cfg, s, frames[0], id);
      IdsNeverRecur(cfg, Step(cfg, s, frames[0].camera, frames[0].detections).s, frames[1..], id);
    }
  }

  /** A track that no update of the run matches survives exactly while its age allows: after `k`
      misses it is still there iff its age plus `k` does not exceed the maximum. */
  lemma {:induction false} MissesUntilDropped(cfg: Config, s: State, frames: seq<Frame>, id: string)
    requires Ready(cfg, s) && id in s.tracks
    requires forall k :: 0 <= k < |frames| ==> !Reported(RunReports(cfg, s, frames)[k], id)
    ensures id in Run(cfg, s, frames).tracks <==> s.tracks[id].age + |frames| <= cfg.maxAge
    ensures id in Run(cfg, s, frames).tracks ==>
              Run(cfg, s, frames).tracks[id] == s.tracks[id].(age := s.tracks[id].age + |frames|)
    decreases |frames|
  {
    assert SoundTrack(cfg, s.counters, id, s.tracks[id]);
    if frames != [] {
      hide Step, Sound;
      var f := frames[0];
      var o := Step(cfg, s, f.camera, f.detections);
      StepSound(cfg, s, f.camera, f.detections);
      assert RunReports(cfg, s, frames)[0] == o.out;
      forall k | 0 <= k < |frames[1..]| ensures !Reported(RunReports(cfg, o.s, frames[1..])[k], id) {
        assert RunReports(cfg, s, frames)[k + 1] == RunReports(cfg, o.s, frames[1..])[k];
      }
      UnmatchedAges(cfg, s, f.camera, f.detections, id);
      if id in o.s.tracks {
        MissesUntilDropped(cfg, o.s, frames[1..], id);
      } else {
        IssuedGrows(s.counters, o.s.counters, id);
        IdsNeverRecur(cfg, o.s, frames[1..], id);
      }
    }
  }

  lemma {:induction false} AssociateLeavesUnreported(cfg: Config, camera: string, preds: seq<Prediction>, s: State,
                                                     dets: seq<Detection>, id: string)
    requires Alive(preds, s.tracks) && id in s.tracks
    requires !Reported(Associate(cfg, camera, preds, s, dets).out, id)
    ensures var p := Associate(cfg, camera, preds, s, dets);
            id in p.s.tracks && p.s.tracks[id] == s.tracks[id]
  {
    if dets != [] {
      var n := |dets| - 1;
      var p := Associate(cfg, camera, preds, s, dets[..n]);
      var r := Associate(cfg, camera, preds, s, dets);
      assert |r.out| == |p.out| + 1 && r.out[..|p.out|] == p.out;
      assert r.out[|p.out|].trackId != id;
      forall i | 0 <= i < |p.out| ensures p.out[i].trackId != id {
        assert r.out[i] == p.out[i];
      }
      AssociateLeavesUnreported(cfg, camera, preds, s, dets[..n], id);
    }
  }

  lemma {:induction false} UnmatchedAges(cfg: Config, s: State, camera: string, detections: seq<Detection>, id: string)
    requires Ready(cfg, s) && id in s.tracks
    requires !Reported(Step(cfg, s, camera, detections).out, id)
    ensures var s' := Step(cfg, s, camera, detections).s;
            && (id in s'.tracks <==> s.tracks[id].age + 1 <= cfg.maxAge)
            && (id in s'.tracks ==> s'.tracks[id] == s.tracks[id].(age := s.tracks[id].age + 1))
  {
    var preds := Predictions(s.order, s.tracks);
    var dets := Sort(detections, ByConfidence);
    var p := Associate(cfg, camera, preds, s, dets);
    AssociateFits(cfg, camera, preds, s, dets);
    AssociateLeavesUnreported(cfg, camera, preds, s, dets, id);
    AgeAllAges(cfg, p.s, p.used, p.s.order);
    assert id in p.used ==> Reported(p.out, id);
    assert id in p.s.order;
    assert AgedTo(cfg, p.s, p.used, Step(cfg, s, camera, detections).s, id);
  }

  // ---------------------------------------------------------------- ages after an update

  lemma {:induction false} AssociateAges(cfg: Config, camera: string, preds: seq<Prediction>, s: State,
                                         dets: seq<Detection>)
    requires Alive(preds, s.tracks)
    ensures var p := Associate(cfg, camera, preds, s, dets);
            forall id :: id in p.s.tracks && (id in p.used || id !in s.tracks) ==> p.s.tracks[id].age == 0
  {
    if dets != [] {
      AssociateAges(cfg, camera, preds, s, dets[..|dets| - 1]);
    }
  }

  /** After an update a matched track has age 0 and a new one already age 1: never matched again, a
      new track is dropped one miss earlier than one that has been matched. */
  lemma {:induction false} AgesAfterStep(cfg: Config, s: State, camera: string, detections: seq<Detection>, id: string)
    requires Ready(cfg, s)
    requires id in Step(cfg, s, camera, detections).s.tracks
    requires Reported(Step(cfg, s, camera, detections).out, id)
    ensures Step(cfg, s, camera, detections).s.tracks[id].age == if id in s.tracks then 0 else 1
  {
    hide Associate, AgeAll, Sort, IdsFit, Sound;
    var preds := Predictions(s.order, s.tracks);
    var dets := Sort(detections, ByConfidence);
    var p := Associate(cfg, camera, preds, s, dets);
    AssociateFits(cfg, camera, preds, s, dets);
    AssociateAges(cfg, camera, preds, s, dets);
    MatchedOrNew(s, p, id);
    AgedOne(cfg, p.s, p.used, id);
  }

  lemma {:induction false} MatchedOrNew(s: State, p: Progress, id: string)
    requires IdsFit(s, p) && Reported(p.out, id)
    ensures id in p.s.tracks && (id in p.used <==> id in s.tracks)
  {
    var i :| 0 <= i < |p.out| && p.out[i].trackId == id;
    assert OldOrNew(s, p, p.out[i].trackId);
  }

  lemma {:induction false} AgedOne(cfg: Config, s: State, used: set<string>, id: string)
    requires Wf(s) && id in s.tracks
    ensures AgedTo(cfg, s, used, AgeAll(cfg, s, used, s.order), id)
  {
    AgeAllAges(cfg, s, used, s.order);
  }

  // ---------------------------------------------------------------- where boxes come from

  /** The box is that of a detection, or the one the track had before. */
  ghost predicate BoxFrom(dets: seq<Detection>, s: State, id: string, b: Box) {
    || (exists i :: 0 <= i < |dets| && dets[i].bbox == b)
    || (id in s.tracks && s.tracks[id].bbox == b)
  }

  ghost predicate BoxesFrom(dets: seq<Detection>, s: State, s': State) {
    forall id :: id in s'.tracks ==> BoxFrom(dets, s, id, s'.tracks[id].bbox)
  }

  lemma {:induction false} AssociateBoxes(cfg: Config, camera: string, preds: seq<Prediction>, s: State,
                                          dets: seq<Detection>)
    requires Alive(preds, s.tracks)
    ensures BoxesFrom(dets, s, Associate(cfg, camera, preds, s, dets).s)
  {
    hide Moved, Born, Scan;
    if dets != [] {
      var n := |dets| - 1;
      AssociateBoxes(cfg, camera, preds, s, dets[..n]);
      var p := Associate(cfg, camera, preds, s, dets[..n]);
      var r := Associate1(cfg, camera, preds, p, dets[n]);
      forall id | id in r.s.tracks ensures BoxFrom(dets, s, id, r.s.tracks[id].bbox) {
        Associate1Boxes(cfg, camera, preds, p, dets[n], id);
        if id in p.s.tracks && r.s.tracks[id] == p.s.tracks[id] {
          BoxFromMore(dets, n, s, id, p.s.tracks[id].bbox);
        }
      }
    }
  }

  lemma BoxFromMore(dets: seq<Detection>, n: nat, s: State, id: string, b: Box)
    requires n <= |dets| && BoxFrom(dets[..n], s, id, b)
    ensures BoxFrom(dets, s, id, b)
  {
    if i :| 0 <= i < n && dets[..n][i].bbox == b {
      assert dets[i].bbox == b;
    }
  }

  lemma Associate1Boxes(cfg: Config, camera: string, preds: seq<Prediction>, p: Progress, det: Detection, id: string)
    requires Alive(preds, p.s.tracks) && id in Associate1(cfg, camera, preds, p, det).s.tracks
    ensures var st := Associate1(cfg, camera, preds, p, det).s.tracks[id];
            st.bbox == det.bbox || (id in p.s.tracks && st == p.s.tracks[id])
  {
  }

  lemma {:induction false} AgeingKeepsBoxes(cfg: Config, s: State, used: set<string>)
    requires Wf(s)
    ensures var r := AgeAll(cfg, s, used, s.order);
            forall id :: id in r.tracks ==> id in s.tracks && r.tracks[id].bbox == s.tracks[id].bbox
  {
    AgeAllAges(cfg, s, used, s.order);
    var r := AgeAll(cfg, s, used, s.order);
    hide AgeAll;
    forall id | id in r.tracks ensures id in s.tracks && r.tracks[id].bbox == s.tracks[id].bbox {
      assert id !in s.order ==> Untouched(s, r, id);
      assert AgedTo(cfg, s, used, r, id);
    }
  }

  lemma BoxFromSorted(dets: seq<Detection>, sorted: seq<Detection>, s: State, id: string, b: Box)
    requires BoxFrom(sorted, s, id, b) && forall d :: d in sorted ==> d in dets
    ensures BoxFrom(dets, s, id, b)
  {
    if i :| 0 <= i < |sorted| && sorted[i].bbox == b {
      assert sorted[i] in sorted && sorted[i] in dets;
    }
  }

  /** After an update every track's box is that of a detection of this frame or the one it had. */
  lemma {:induction false} StepBoxes(cfg: Config, s: State, camera: string, detections: seq<Detection>)
    requires Wf(s) && Sound(cfg, s)
    ensures BoxesFrom(detections, s, Step(cfg, s, camera, detections).s)
  {
    hide Sort, Sound, IdsFit, Associate, AgeAll, BoxFrom;
    var preds := Predictions(s.order, s.tracks);
    var sorted := Sort(detections, ByConfidence);
    var p := Associate(cfg, camera, preds, s, sorted);
    AssociateFits(cfg, camera, preds, s, sorted);
    AssociateBoxes(cfg, camera, preds, s, sorted);
    AgeingKeepsBoxes(cfg, p.s, p.used);
    SortMembers(detections, ByConfidence);
    var r := Step(cfg, s, camera, detections).s;
    forall id | id in r.tracks ensures BoxFrom(detections, s, id, r.tracks[id].bbox) {
      BoxFromSorted(detections, sorted, s, id, r.tracks[id].bbox);
    }
  }

  // ---------------------------------------------------------------- bounded velocities

  predicate Unit(a: real) {
    0.0 <= a <= 1.0
  }

  predicate UnitBox(b: Box) {
    Unit(b.x) && Unit(b.y) && Unit(b.w) && Unit(b.h)
  }

  predicate Slow(v: Velocity) {
    Abs(v.x) <= 1.0 && Abs(v.y) <= 1.0 && Abs(v.w) <= 1.0 && Abs(v.h) <= 1.0
  }

  ghost predicate Calm(s: State) {
    forall id :: id in s.tracks ==> UnitBox(s.tracks[id].bbox) && Slow(s.tracks[id].vel)
  }

  lemma SmoothSlow(now: real, before: real, vel: real, s: real)
    requires Unit(now) && Unit(before) && Abs(vel) <= 1.0 && Unit(s)
    ensures Abs(Smooth(now, before, vel, s)) <= 1.0
  {
    var p := ScaleBounded(now - before, s);
    var q := ScaleBounded(vel, 1.0 - s);
    assert Smooth(now, before, vel, s) == p + q;
  }

  lemma ScaleBounded(d: real, s: real) returns (p: real)
    requires -1.0 <= d <= 1.0 && 0.0 <= s
    ensures p == d * s && -s <= p <= s
  {
    p := d * s;
    NonNegativeProduct(1.0 - d, s);
    NonNegativeProduct(1.0 + d, s);
    assert (1.0 - d) * s == s - d * s;
    assert (1.0 + d) * s == s + d * s;
  }

  lemma {:induction false} AssociateCalm(cfg: Config, camera: string, preds: seq<Prediction>, s: State,
                                         dets: seq<Detection>)
    requires Alive(preds, s.tracks) && Calm(s) && Unit(cfg.velSmooth)
    requires forall i :: 0 <= i < |dets| ==> UnitBox(dets[i].bbox)
    ensures Calm(Associate(cfg, camera, preds, s, dets).s)
  {
    if dets != [] {
      var n := |dets| - 1;
      AssociateCalm(cfg, camera, preds, s, dets[..n]);
      Associate1Calm(cfg, camera, preds, Associate(cfg, camera, preds, s, dets[..n]), dets[n]);
    }
  }

  lemma {:induction false} Associate1Calm(cfg: Config, camera: string, preds: seq<Prediction>, p: Progress,
                                          det: Detection)
    requires Alive(preds, p.s.tracks) && Calm(p.s) && Unit(cfg.velSmooth) && UnitBox(det.bbox)
    ensures Calm(Associate1(cfg, camera, preds, p, det).s)
  {
    var best := Scan(preds, det.bbox, p.used);
    if best.id.Some? && best.iou >= cfg.iouThreshold {
      var st := p.s.tracks[best.id.value];
      SmoothSlow(det.bbox.x, st.bbox.x, st.vel.x, cfg.velSmooth);
      SmoothSlow(det.bbox.y, st.bbox.y, st.vel.y, cfg.velSmooth);
      SmoothSlow(det.bbox.w, st.bbox.w, st.vel.w, cfg.velSmooth);
      SmoothSlow(det.bbox.h, st.bbox.h, st.vel.h, cfg.velSmooth);
    }
  }

  ghost predicate UnitDetections(f: Frame) {
    forall i :: 0 <= i < |f.detections| ==> UnitBox(f.detections[i].bbox)
  }

  /** While boxes and the smoothing factor lie in [0, 1], every velocity component of every track
      lies in [-1, 1], throughout any run. */
  lemma {:induction false} RunStaysCalm(cfg: Config, s: State, frames: seq<Frame>)
    requires Ready(cfg, s) && Calm(s) && Unit(cfg.velSmooth)
    requires forall k :: 0 <= k < |frames| ==> UnitDetections(frames[k])
    ensures Calm(Run(cfg, s, frames))
    decreases |frames|
  {
    if frames != [] {
      var f := frames[0];
      assert UnitDetections(f);
      var preds := Predictions(s.order, s.tracks);
      var dets := Sort(f.detections, ByConfidence);
      SortMembers(f.detections, ByConfidence);
      assert forall i :: 0 <= i < |dets| ==> dets[i] in f.detections;
      AssociateFits(cfg, f.camera, preds, s, dets);
      AssociateCalm(cfg, f.camera, preds, s, dets);
      AgeingCalm(cfg, Associate(cfg, f.camera, preds, s, dets));
      StepSound(cfg, s, f.camera, f.detections);
      RunStaysCalm(cfg, Step(cfg, s, f.camera, f.detections).s, frames[1..]);
    }
  }

  lemma {:induction false} AgeingCalm(cfg: Config, p: Progress)
    requires Wf(p.s) && Calm(p.s)
    ensures Calm(AgeAll(cfg, p.s, p.used, p.s.order))
  {
    AgeAllAges(cfg, p.s, p.used, p.s.order);
    var s' := AgeAll(cfg, p.s, p.used, p.s.order);
    forall id | id in s'.tracks ensures UnitBox(s'.tracks[id].bbox) && Slow(s'.tracks[id].vel) {
      assert id !in p.s.order ==> Untouched(p.s, s', id);
      assert AgedTo(cfg, p.s, p.used, s', id);
    }
  }
}
