/**
 * The UParT evaluator analyzer: per event it walks the jet collection, sends
 * every preselected jet through tensor preparation and inference, and records
 * the jet kinematics and the model's scores in histograms and an output tree.
 */
module Evaluator {

  import opened Wrappers
  import opened Objects
  import opened Constituents
  import opened PtOrdering
  import opened TensorShapes
  import opened Inference
  import opened Sinks

  /** The kinematic preselection: pt at least the minimum and |eta| at most the maximum. */
  function PassesPreselection(jet: Jet, ptMin: real, etaMax: real): (pass: bool)
    ensures pass <==> ptMin <= jet.pt && -etaMax <= jet.eta <= etaMax
  {
    !(jet.pt < ptMin || Abs(jet.eta) > etaMax)
  }

  /** The jets that pass the preselection, in collection order. */
  function Preselected(jets: seq<Jet>, ptMin: real, etaMax: real): (r: seq<Jet>)
    ensures |r| <= |jets|
  {
    if jets == [] then []
    else
      (if PassesPreselection(jets[0], ptMin, etaMax) then [jets[0]] else [])
      + Preselected(jets[1..], ptMin, etaMax)
  }

  /** Walking one more jet appends it exactly when it passes. */
  lemma {:induction false} PreselectedAppend(jets: seq<Jet>, jet: Jet, ptMin: real, etaMax: real)
    ensures Preselected(jets + [jet], ptMin, etaMax)
         == Preselected(jets, ptMin, etaMax) + (if PassesPreselection(jet, ptMin, etaMax) then [jet] else [])
  {
    if jets != [] {
      assert (jets + [jet])[1..] == jets[1..] + [jet];
      PreselectedAppend(jets[1..], jet, ptMin, etaMax);
    }
  }

  /** A jet is processed exactly when it is in the collection and passes the preselection. */
  lemma {:induction false} PreselectedMembership(jets: seq<Jet>, jet: Jet, ptMin: real, etaMax: real)
    ensures jet in Preselected(jets, ptMin, etaMax) <==> jet in jets && PassesPreselection(jet, ptMin, etaMax)
  {
    if jets != [] {
      PreselectedMembership(jets[1..], jet, ptMin, etaMax);
      assert jet in jets <==> jet == jets[0] || jet in jets[1..];
    }
  }

  /** The row counts resolved for a jet from the sizes of its three candidate lists. */
  function CountsFor(jet: Jet, cands: seq<Candidate>, cone: Cone): (c: Counts)
    ensures 1 <= c.charged <= MAX_CHARGED && 1 <= c.lostTracks <= MAX_LOST_TRACKS
    ensures 1 <= c.neutral <= MAX_NEUTRAL && c.vertices == 1
    ensures var n := |Select(jet, cands, cone, Charged)|;
      n <= MAX_CHARGED ==> c.charged == if n == 0 then 1 else n
    ensures var n := |Select(jet, cands, cone, LostTrack)|;
      n <= MAX_LOST_TRACKS ==> c.lostTracks == if n == 0 then 1 else n
    ensures var n := |Select(jet, cands, cone, Neutral)|;
      n <= MAX_NEUTRAL ==> c.neutral == if n == 0 then 1 else n
  {
    ResolveCounts(|Select(jet, cands, cone, Charged)|, |Select(jet, cands, cone, LostTrack)|,
                  |Select(jet, cands, cone, Neutral)|)
  }

  /** One zero-filled buffer per size: the `emplace_back(size, 0.0f)` loop. */
  method ZeroFilledBuffers(sizes: seq<nat>) returns (data: seq<seq<real>>)
    ensures |data| == |sizes|
    ensures forall i :: 0 <= i < |sizes| ==> |data[i]| == sizes[i]
    ensures AllZero(data)
    ensures data == ZeroBuffers(sizes)
  {
    data := [];
    var i := 0;
    while i < |sizes|
      invariant 0 <= i <= |sizes|
      invariant data == ZeroBuffers(sizes[..i])
    {
      ZeroBuffersAppend(sizes[..i], sizes[i]);
      assert sizes[..i + 1] == sizes[..i] + [sizes[i]];
      data := data + [ZeroBuffer(sizes[i])];
      i := i + 1;
    }
    assert sizes[..i] == sizes;
  }

  class UParTEvaluator {
    const jetPtMin: real
    const jetEtaMax: real
    const classNames: seq<string>

    /** The inputs of the last inference call. */
    var inputShapes: seq<seq<int>>
    var inputSizes: seq<nat>
    var tensorData: seq<seq<real>>

    /** The branch variables of the output tree. */
    var jetPt: real
    var jetEta: real
    var jetPhi: real
    var jetMass: real
    var upartProbs: seq<real>

    /** Histogram fills and tree rows, as append-only logs of what was filled. */
    var jetPtHist: seq<real>
    var jetEtaHist: seq<real>
    var probHists: map<string, seq<real>>
    var ptVsProb: seq<(real, real)>
    var outputTree: seq<TreeRow>

    /** Every jet handed to processJet so far, in order. */
    ghost var processedJets: seq<Jet>

    /**
     * The object invariant. The score vector always has one entry per class;
     * the tensor buffers always match their shapes and hold zeros; the pt and
     * eta histograms hold one fill per processed jet; each class histogram is
     * the column of that class in the tree, and the 2-D histogram pairs each
     * row's pt with its first score; at most one row per processed jet.
     */
    ghost predicate Valid()
      reads this
    {
      && Distinct(classNames)
      && TensorsReady(inputShapes, inputSizes, tensorData)
      && KinematicsFollow(processedJets, jetPtHist, jetEtaHist, jetPt, jetEta, jetPhi, jetMass)
      && ScoresAgree(classNames, upartProbs, probHists, ptVsProb, outputTree)
      && |outputTree| <= |processedJets|
    }

    /** The tensor fields hold the inputs prepared for row counts `c`. */
    ghost predicate HoldsTensorsFor(c: Counts)
      reads this
    {
      inputShapes == InputShapes(c) && inputSizes == InputSizes(c) && tensorData == ZeroBuffers(inputSizes)
    }

    /** Construction and booking: the class list is set, every sink starts empty. */
    constructor (jetPtMin: real, jetEtaMax: real)
      ensures Valid()
      ensures classNames == CLASS_NAMES
      ensures this.jetPtMin == jetPtMin && this.jetEtaMax == jetEtaMax
      ensures upartProbs == seq(|CLASS_NAMES|, _ => 0.0)
      ensures inputShapes == [] && inputSizes == [] && tensorData == []
      ensures jetPtHist == [] && jetEtaHist == [] && ptVsProb == [] && outputTree == []
      ensures forall n :: n in CLASS_NAMES ==> n in probHists && probHists[n] == []
      ensures processedJets == []
    {
      this.jetPtMin := jetPtMin;
      this.jetEtaMax := jetEtaMax;
      classNames := CLASS_NAMES;
      upartProbs := seq(|CLASS_NAMES|, _ => 0.0);
      inputShapes, inputSizes, tensorData := [], [], [];
      jetPt, jetEta, jetPhi, jetMass := 0.0, 0.0, 0.0, 0.0;
      jetPtHist, jetEtaHist := [], [];
      probHists := map n | n in CLASS_NAMES :: [];
      ptVsProb, outputTree := [], [];
      processedJets := [];
      ClassNamesDistinct();
    }

    /**
     * Tensor preparation for one jet. With an invalid candidate collection it
     * returns at once and the previous jet's tensors stay in place.
     */
    method FillInputTensors(jet: Jet, candidates: Option<seq<Candidate>>, cone: Cone)
      modifies this`inputShapes, this`inputSizes, this`tensorData
      ensures candidates.None? ==>
        inputShapes == old(inputShapes) && inputSizes == old(inputSizes) && tensorData == old(tensorData)
      ensures candidates.Some? ==> HoldsTensorsFor(CountsFor(jet, candidates.value, cone))
    {
      if candidates.None? {
        return;
      }
      var cands := candidates.value;
      var charged, neutral, lostTracks := CollectConstituents(jet, cands, cone);
      charged := SortedByPtCopy(charged);
      neutral := SortedByPtCopy(neutral);
      lostTracks := SortedByPtCopy(lostTracks);

      var nCharged := ResolveCount(|charged|, MAX_CHARGED);
      var nLostTracks := ResolveCount(|lostTracks|, MAX_LOST_TRACKS);
      var nNeutral := ResolveCount(|neutral|, MAX_NEUTRAL);
      var nVertices := 1;

      var shapes: seq<seq<int>> := [
        [1, nCharged, CHARGED_FEATURES], [1, nLostTracks, LOST_TRACK_FEATURES],
        [1, nNeutral, NEUTRAL_FEATURES], [1, nVertices, VERTEX_FEATURES],
        [1, nCharged, VEC4_FEATURES], [1, nLostTracks, VEC4_FEATURES],
        [1, nNeutral, VEC4_FEATURES], [1, nVertices, VEC4_FEATURES]];
      var sizes: seq<nat> := [
        nCharged * CHARGED_FEATURES, nLostTracks * LOST_TRACK_FEATURES,
        nNeutral * NEUTRAL_FEATURES, nVertices * VERTEX_FEATURES,
        nCharged * VEC4_FEATURES, nLostTracks * VEC4_FEATURES,
        nNeutral * VEC4_FEATURES, nVertices * VEC4_FEATURES];

      var data := ZeroFilledBuffers(sizes);

      var counts := Counts(nCharged, nLostTracks, nNeutral, nVertices);
      assert counts == CountsFor(jet, cands, cone);
      assert shapes == InputShapes(counts) && sizes == InputSizes(counts);
      inputShapes, inputSizes, tensorData := shapes, sizes, data;
    }

    /**
     * Prepares the tensors, runs the session on them and returns its first
     * output, or the sentinel when the session faults or returns nothing usable.
     */
    method RunInference(jet: Jet, candidates: Option<seq<Candidate>>, cone: Cone, session: Session)
      returns (predictions: seq<real>)
      requires TensorsReady(inputShapes, inputSizes, tensorData)
      modifies this`inputShapes, this`inputSizes, this`tensorData
      ensures TensorsReady(inputShapes, inputSizes, tensorData)
      ensures candidates.None? ==>
        inputShapes == old(inputShapes) && inputSizes == old(inputSizes) && tensorData == old(tensorData)
      ensures candidates.Some? ==> HoldsTensorsFor(CountsFor(jet, candidates.value, cone))
      ensures predictions == Prediction(session(tensorData, inputShapes), |classNames|)
    {
      FillInputTensors(jet, candidates, cone);
      if candidates.Some? {
        PreparedTensorsConsistent(CountsFor(jet, candidates.value, cone));
      }
      var outcome := session(tensorData, inputShapes);
      if outcome.Fault? {
        return Sentinel(|classNames|);
      }
      if outcome.tensors == [] || outcome.tensors[0] == [] {
        return Sentinel(|classNames|);
      }
      predictions := outcome.tensors[0];
    }

    /** Fills the histogram of each class with that class's score. */
    method FillClassHistograms(predictions: seq<real>)
      requires Distinct(classNames) && |predictions| == |classNames|
      requires forall k :: 0 <= k < |classNames| ==> classNames[k] in probHists
      modifies this`probHists
      ensures probHists.Keys == old(probHists).Keys
      ensures forall k :: 0 <= k < |classNames| ==>
        probHists[classNames[k]] == old(probHists)[classNames[k]] + [predictions[k]]
    {
      var i := 0;
      while i < |classNames|
        invariant 0 <= i <= |classNames|
        invariant probHists.Keys == old(probHists).Keys
        invariant forall k :: 0 <= k < i ==>
          probHists[classNames[k]] == old(probHists)[classNames[k]] + [predictions[k]]
        invariant forall k :: i <= k < |classNames| ==> probHists[classNames[k]] == old(probHists)[classNames[k]]
      {
        probHists := probHists[classNames[i] := probHists[classNames[i]] + [predictions[i]]];
        i := i + 1;
      }
    }

    /**
     * The result guard: a prediction with one entry per class becomes the
     * score vector, is filled into every class histogram and the 2-D
     * histogram, and is written to the tree with the current kinematics; any
     * other prediction changes nothing.
     */
    method RecordPrediction(predictions: seq<real>)
      requires Distinct(classNames) && ScoresAgree(classNames, upartProbs, probHists, ptVsProb, outputTree)
      modifies this`upartProbs, this`probHists, this`ptVsProb, this`outputTree
      ensures ScoresAgree(classNames, upartProbs, probHists, ptVsProb, outputTree)
      ensures
        if |predictions| == |classNames| then
          && upartProbs == predictions
          && outputTree == old(outputTree) + [TreeRow(jetPt, jetEta, jetPhi, jetMass, predictions)]
          && ptVsProb == old(ptVsProb) + [(jetPt, predictions[0])]
          && (forall k :: 0 <= k < |classNames| ==>
                probHists[classNames[k]] == old(probHists)[classNames[k]] + [predictions[k]])
        else
          && upartProbs == old(upartProbs)
          && outputTree == old(outputTree)
          && ptVsProb == old(ptVsProb)
          && probHists == old(probHists)
    {
      if |predictions| == |classNames| {
        upartProbs := predictions;
        FillClassHistograms(predictions);
        if predictions != [] {
          ptVsProb := ptVsProb + [(jetPt, predictions[0])];
        }
        AppendRowKeepsSinksAgree(classNames, old(probHists), outputTree, old(ptVsProb),
                                 TreeRow(jetPt, jetEta, jetPhi, jetMass, upartProbs), probHists);
        outputTree := outputTree + [TreeRow(jetPt, jetEta, jetPhi, jetMass, upartProbs)];
      }
    }

    /** The unconditional part of one jet: the branch variables and the pt/eta histograms. */
    method LogKinematics(jet: Jet)
      requires KinematicsFollow(processedJets, jetPtHist, jetEtaHist, jetPt, jetEta, jetPhi, jetMass)
      modifies this`jetPt, this`jetEta, this`jetPhi, this`jetMass, this`jetPtHist, this`jetEtaHist,
               this`processedJets
      ensures KinematicsFollow(processedJets, jetPtHist, jetEtaHist, jetPt, jetEta, jetPhi, jetMass)
      ensures processedJets == old(processedJets) + [jet]
      ensures jetPt == jet.pt && jetEta == jet.eta && jetPhi == jet.phi && jetMass == jet.mass
      ensures jetPtHist == old(jetPtHist) + [jet.pt] && jetEtaHist == old(jetEtaHist) + [jet.eta]
    {
      jetPt, jetEta, jetPhi, jetMass := jet.pt, jet.eta, jet.phi, jet.mass;
      jetPtHist := jetPtHist + [jetPt];
      jetEtaHist := jetEtaHist + [jetEta];
      processedJets := processedJets + [jet];
      KinematicsLoggedAppend(old(processedJets), old(jetPtHist), old(jetEtaHist), jet);
    }

    /**
     * The guarded part of one jet: prepare the tensors, run the session and
     * record the prediction when it has one entry per class.
     */
    method InferAndRecord(jet: Jet, candidates: Option<seq<Candidate>>, cone: Cone, session: Session)
      requires Distinct(classNames) && TensorsReady(inputShapes, inputSizes, tensorData)
      requires ScoresAgree(classNames, upartProbs, probHists, ptVsProb, outputTree)
      modifies this`inputShapes, this`inputSizes, this`tensorData,
               this`upartProbs, this`probHists, this`ptVsProb, this`outputTree
      ensures TensorsReady(inputShapes, inputSizes, tensorData)
      ensures ScoresAgree(classNames, upartProbs, probHists, ptVsProb, outputTree)
      ensures |outputTree| <= |old(outputTree)| + 1
      ensures candidates.None? ==>
        inputShapes == old(inputShapes) && inputSizes == old(inputSizes) && tensorData == old(tensorData)
      ensures candidates.Some? ==> HoldsTensorsFor(CountsFor(jet, candidates.value, cone))
      ensures var predictions := Prediction(session(tensorData, inputShapes), |classNames|);
        if |predictions| == |classNames| then
          && upartProbs == predictions
          && outputTree == old(outputTree) + [TreeRow(jetPt, jetEta, jetPhi, jetMass, predictions)]
          && ptVsProb == old(ptVsProb) + [(jetPt, predictions[0])]
          && (forall k :: 0 <= k < |classNames| ==>
                probHists[classNames[k]] == old(probHists)[classNames[k]] + [predictions[k]])
        else
          && upartProbs == old(upartProbs)
          && outputTree == old(outputTree)
          && ptVsProb == old(ptVsProb)
          && probHists == old(probHists)
    {
      var predictions := RunInference(jet, candidates, cone, session);
      RecordPrediction(predictions);
    }

    /**
     * One preselected jet: the kinematics and the pt/eta histograms are
     * updated unconditionally; the scores, the class histograms, the 2-D
     * histogram and the tree only when the prediction has one entry per class.
     */
    method ProcessJet(jet: Jet, candidates: Option<seq<Candidate>>, cone: Cone, session: Session)
      requires Valid()
      modifies this
      ensures Valid()
      ensures processedJets == old(processedJets) + [jet]
      ensures jetPt == jet.pt && jetEta == jet.eta && jetPhi == jet.phi && jetMass == jet.mass
      ensures jetPtHist == old(jetPtHist) + [jet.pt] && jetEtaHist == old(jetEtaHist) + [jet.eta]
      ensures candidates.None? ==>
        inputShapes == old(inputShapes) && inputSizes == old(inputSizes) && tensorData == old(tensorData)
      ensures candidates.Some? ==> HoldsTensorsFor(CountsFor(jet, candidates.value, cone))
      ensures var predictions := Prediction(session(tensorData, inputShapes), |classNames|);
        if |predictions| == |classNames| then
          && upartProbs == predictions
          && outputTree == old(outputTree) + [TreeRow(jet.pt, jet.eta, jet.phi, jet.mass, predictions)]
          && ptVsProb == old(ptVsProb) + [(jet.pt, predictions[0])]
          && (forall k :: 0 <= k < |classNames| ==>
                probHists[classNames[k]] == old(probHists)[classNames[k]] + [predictions[k]])
        else
          && upartProbs == old(upartProbs)
          && outputTree == old(outputTree)
          && ptVsProb == old(ptVsProb)
          && probHists == old(probHists)
    {
      LogKinematics(jet);
      InferAndRecord(jet, candidates, cone, session);
    }

    /**
     * One event: nothing happens when the jet collection is invalid; otherwise
     * exactly the preselected jets are processed, in collection order.
     */
    method Analyze(event: Event, cone: Cone, session: Session)
      requires Valid()
      modifies this
      ensures Valid()
      ensures event.jets.None? ==> unchanged(this)
      ensures event.jets.Some? ==>
        processedJets == old(processedJets) + Preselected(event.jets.value, jetPtMin, jetEtaMax)
    {
      if event.jets.None? {
        return;
      }
      var jets := event.jets.value;
      var i := 0;
      while i < |jets|
        invariant 0 <= i <= |jets|
        invariant Valid()
        invariant processedJets == old(processedJets) + Preselected(jets[..i], jetPtMin, jetEtaMax)
      {
        var jet := jets[i];
        PreselectedAppend(jets[..i], jet, jetPtMin, jetEtaMax);
        assert jets[..i + 1] == jets[..i] + [jet];
        if jet.pt < jetPtMin || Abs(jet.eta) > jetEtaMax {
          i := i + 1;
          continue;
        }
        ProcessJet(jet, event.candidates, cone, session);
        i := i + 1;
      }
      assert jets[..i] == jets;
    }
  }
}
