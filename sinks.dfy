/**
 * The output sinks of the evaluator: the tree row, the histogram fills as
 * append-only logs, and the agreement that the class histograms and the
 * 2-D histogram keep with the tree.
 */
module Sinks {

  import opened Objects

  /** One row of the output tree: the jet kinematics and the score vector. */
  datatype TreeRow = TreeRow(jetPt: real, jetEta: real, jetPhi: real, jetMass: real, probs: seq<real>)

  /** The pt and eta histograms hold one fill per processed jet, in order. */
  ghost predicate KinematicsLogged(jets: seq<Jet>, ptHist: seq<real>, etaHist: seq<real>) {
    && |ptHist| == |jets| && |etaHist| == |jets|
    && forall i :: 0 <= i < |jets| ==> ptHist[i] == jets[i].pt && etaHist[i] == jets[i].eta
  }

  /** The pt and eta histograms hold the processed jets and the branch variables hold the last one. */
  ghost predicate KinematicsFollow(jets: seq<Jet>, ptHist: seq<real>, etaHist: seq<real>,
                                   pt: real, eta: real, phi: real, mass: real)
  {
    && KinematicsLogged(jets, ptHist, etaHist)
    && (jets != [] ==>
          var last := jets[|jets| - 1];
          pt == last.pt && eta == last.eta && phi == last.phi && mass == last.mass)
  }

  /** Logging one more jet's pt and eta keeps the histograms in step with the processed jets. */
  lemma KinematicsLoggedAppend(jets: seq<Jet>, ptHist: seq<real>, etaHist: seq<real>, jet: Jet)
    requires KinematicsLogged(jets, ptHist, etaHist)
    ensures KinematicsLogged(jets + [jet], ptHist + [jet.pt], etaHist + [jet.eta])
  {
  }

  /**
   * The output sinks agree with the tree: every row has one score per class,
   * each class histogram is that class's column of the tree, and the 2-D
   * histogram pairs each row's pt with its first score.
   */
  ghost predicate SinksAgree(names: seq<string>, hists: map<string, seq<real>>, tree: seq<TreeRow>,
                             ptVsProb: seq<(real, real)>)
  {
    && names != []
    && (forall r :: r in tree ==> |r.probs| == |names|)
    && hists.Keys == (set n | n in names)
    && (forall k :: 0 <= k < |names| ==> |hists[names[k]]| == |tree|)
    && (forall k, i :: 0 <= k < |names| && 0 <= i < |tree| ==> hists[names[k]][i] == tree[i].probs[k])
    && |ptVsProb| == |tree|
    && (forall i :: 0 <= i < |tree| ==> ptVsProb[i] == (tree[i].jetPt, tree[i].probs[0]))
  }

  /** Filling every class histogram with a row's scores and appending the row keeps the sinks in agreement. */
  lemma AppendRowKeepsSinksAgree(names: seq<string>, hists: map<string, seq<real>>, tree: seq<TreeRow>,
                                 ptVsProb: seq<(real, real)>, row: TreeRow, hists': map<string, seq<real>>)
    requires SinksAgree(names, hists, tree, ptVsProb)
    requires |row.probs| == |names|
    requires hists'.Keys == hists.Keys
    requires forall k :: 0 <= k < |names| ==> hists'[names[k]] == hists[names[k]] + [row.probs[k]]
    ensures SinksAgree(names, hists', tree + [row], ptVsProb + [(row.jetPt, row.probs[0])])
  {
    var tree', ptVsProb' := tree + [row], ptVsProb + [(row.jetPt, row.probs[0])];
    forall k, i | 0 <= k < |names| && 0 <= i < |tree'| ensures hists'[names[k]][i] == tree'[i].probs[k] {
      if i < |tree| {
        assert hists'[names[k]][i] == hists[names[k]][i];
      }
    }
  }

  /** The score vector has one entry per class and the sinks agree with the tree. */
  ghost predicate ScoresAgree(names: seq<string>, probs: seq<real>, hists: map<string, seq<real>>,
                              ptVsProb: seq<(real, real)>, tree: seq<TreeRow>)
  {
    |probs| == |names| && SinksAgree(names, hists, tree, ptVsProb)
  }
}
