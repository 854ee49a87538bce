/**
 * The inference call and its fallback. The model session is an oracle: given
 * the input buffers and shapes it either faults or returns a list of output
 * vectors. Only the first output is used; a fault, no output at all or an
 * empty first output yields the sentinel vector instead.
 */
module Inference {

  /** The output classes of the model, in output-vector order. */
  const CLASS_NAMES: seq<string> := [
    "probb", "probbb", "problepb", "probc", "probs", "probu", "probd", "probg",
    "probele", "probmu", "probtaup1h0p", "probtaup1h1p", "probtaup1h2p",
    "probtaup3h0p", "probtaup3h1p", "probtaum1h0p", "probtaum1h1p",
    "probtaum1h2p", "probtaum3h0p", "probtaum3h1p", "ptcorr", "ptreshigh",
    "ptreslow", "ptnu", "probemudata", "probemumc", "probdimudata",
    "probdimumc", "probmutaudata", "probmutaumc"]

  /** The marker written into every entry of the fallback vector. */
  const INVALID_SCORE: real := -1.0

  /** What one run of the model session produces. */
  datatype Outcome = Fault | Outputs(tensors: seq<seq<real>>)

  /** The model session: a function of the input buffers and their shapes. */
  type Session = (seq<seq<real>>, seq<seq<int>>) -> Outcome

  /** No element occurs twice. */
  predicate Distinct<T(==)>(s: seq<T>) {
    forall i, j :: 0 <= i < j < |s| ==> s[i] != s[j]
  }

  /** Names of distinct lengths differ; names of equal length differ at some position. */
  lemma ClassNamesDistinct()
    ensures |CLASS_NAMES| == 30
    ensures Distinct(CLASS_NAMES)
  {
    forall i, j | 0 <= i < j < |CLASS_NAMES| ensures CLASS_NAMES[i] != CLASS_NAMES[j] {
      NamesDiffer(i, j);
    }
  }

  /** Two positions of the class-name list hold different names. */
  lemma NamesDiffer(i: nat, j: nat)
    requires i < j < |CLASS_NAMES|
    ensures CLASS_NAMES[i] != CLASS_NAMES[j]
  {
  }

  /** True when the session result cannot be used: a fault, no output, or an empty first output. */
  predicate Unusable(o: Outcome) {
    o.Fault? || o.tensors == [] || o.tensors[0] == []
  }

  /** The fallback vector: one invalid marker per class. */
  function Sentinel(classCount: nat): (s: seq<real>)
    ensures |s| == classCount
    ensures forall k :: 0 <= k < classCount ==> s[k] == INVALID_SCORE
  {
    seq(classCount, _ => INVALID_SCORE)
  }

  /** The prediction `runInference` returns for a session outcome. */
  function Prediction(o: Outcome, classCount: nat): (p: seq<real>)
    ensures Unusable(o) ==> p == Sentinel(classCount)
    ensures !Unusable(o) ==> p == o.tensors[0] && p != []
  {
    if Unusable(o) then Sentinel(classCount) else o.tensors[0]
  }

  /**
   * The prediction has one entry per class exactly when the fallback was
   * taken or the model's first output has that length.
   */
  lemma PredictionLength(o: Outcome, classCount: nat)
    ensures |Prediction(o, classCount)| == classCount
        <==> Unusable(o) || |o.tensors[0]| == classCount
  {
  }
}
