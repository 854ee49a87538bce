# UParT jet evaluator — a Dafny model

The `UParTEvaluator` analyzer runs the UParT jet-tagging network over the
jets of each event. It keeps the jets that pass a kinematic preselection.
For each kept jet it does four things:

- it collects the particle-flow candidates inside the jet cone into three
  lists (charged candidates, lost tracks, neutral candidates);
- it orders each list by descending pt;
- it lays out eight zero-filled input tensors. The six candidate tensors
  take their row counts from the list sizes clamped to fixed maxima. The
  two vertex tensors always have one row, since no vertex list is built;
- it runs the model session and records the jet kinematics and the score
  vector in histograms and an output tree.

The model has these modules:

- `Objects`: jets, candidates and the event, with the cone test as an oracle.
- `Constituents`: the classification rule and the collection loop.
- `PtOrdering`: the descending-pt sort, as an in-place insertion sort on an
  array.
- `TensorShapes`: the count clamp, the shapes, the sizes and the zero buffers.
- `Inference`: the class list, the session outcome and the fallback vector.
- `Sinks`: the tree row, and the agreement kept between the histogram fills
  and the tree rows.
- `Evaluator`: the preselection, and the `UParTEvaluator` class. The class
  holds the tensor fields, the tree branch variables and the histogram and
  tree sinks, kept as append-only logs.

These parts are imperative methods over the class's fields:

- `fillInputTensors`;
- `runInference`;
- the result guard of `processJet`;
- the event loop of `analyze`.

These parts are functions with lemmas: classification, clamping,
shape/size layout, preselection and the sentinel choice.

The class invariant `Valid` states that:

- the score vector has one entry per class;
- the tensor buffers match their shapes and hold zeros;
- the pt and eta histograms hold one fill per processed jet;
- every class histogram is that class's column of the tree;
- the 2-D histogram pairs each tree row's pt with its first score.

The class-name list has 30 entries (Inference/src/UParTEvaluator.cc:28-33),
so the fallback vector has 30 entries.

## Model

| member | source | states |
|---|---|---|
| Objects.Abs | Inference/src/UParTEvaluator.cc:91 | `std::abs` on a real: non-negative and equal to the argument or its negation |
| Constituents.Place | Inference/src/UParTEvaluator.cc:183-193 | Five placements, each characterised both ways by an iff. Out of cone: outside. Charged without track details: dropped. Charged with details: lost track when inner hits are missing (a positive count), charged otherwise, including the framework's negative value. Neutral: neutral. |
| Constituents.Select | Inference/src/UParTEvaluator.cc:181-194 | the candidates the rule places in list k, in collection order; never longer than the collection |
| Constituents.SelectMembership | Inference/src/UParTEvaluator.cc:181-194 | a candidate is in list k iff it is in the collection and the rule places it in k |
| Constituents.SelectAppend | Inference/src/UParTEvaluator.cc:181-194 | visiting one more candidate appends it to list k exactly when the rule places it there |
| Constituents.ListsDisjoint | Inference/src/UParTEvaluator.cc:185-193 | no candidate is in two different lists |
| Constituents.ExcludedFromEveryList | Inference/src/UParTEvaluator.cc:183-193 | out-of-cone candidates and charged candidates without track details are in none of the three lists |
| Constituents.PartitionCount | Inference/src/UParTEvaluator.cc:181-194 | every candidate value occurs as often in the three lists plus the discarded ones as in the collection |
| Constituents.CategoriesPartition | Inference/src/UParTEvaluator.cc:181-194 | the three lists and the discarded candidates together are the collection as a multiset: nothing lost, nothing duplicated |
| Constituents.CollectConstituents | Inference/src/UParTEvaluator.cc:177-194 | the loop's three output lists are exactly the rule's selections, in collection order |
| PtOrdering.SortedIffAdjacentSorted | Inference/src/UParTEvaluator.cc:197-199 | all pairs ordered by descending pt iff every adjacent pair is |
| PtOrdering.SortedPrefixDominates | Inference/src/UParTEvaluator.cc:201-220 | in a sorted list every candidate of a prefix has at least the pt of every candidate after it |
| PtOrdering.RemovePreservesSorted | Inference/src/UParTEvaluator.cc:196-203 | removing one entry from a list sorted by descending pt leaves it sorted |
| PtOrdering.RemoveFromMultiset | Inference/src/UParTEvaluator.cc:201-203 | removing entry j takes exactly one copy of that candidate out of the list's multiset |
| PtOrdering.MatchHead | Inference/src/UParTEvaluator.cc:201-203 | two sorted rearrangements of each other have heads of equal pt. The head of one sits in the other at a position of that pt, and removing both copies leaves sorted rearrangements |
| PtOrdering.ReinsertAgrees | Inference/src/UParTEvaluator.cc:201-203 | if the shortened lists agree on pt at every position, the full lists do as well |
| PtOrdering.SortedPermutationsAgreeOnPt | Inference/src/UParTEvaluator.cc:196-203 | any two orderings of the same candidates by descending pt have the same length and the same pt at every position, so the unstable `std::sort` fixes the pt sequence |
| PtOrdering.SwapWithPrevious | Inference/src/UParTEvaluator.cc:201-203 | exchanges two neighbours, leaves the rest, preserves the multiset |
| PtOrdering.InsertIntoSortedPrefix | Inference/src/UParTEvaluator.cc:201-203 | extends the sorted prefix by one, leaves later entries alone, preserves the multiset |
| PtOrdering.SortByPtDescending | Inference/src/UParTEvaluator.cc:201-203 | in place: the array ends sorted by descending pt and is a permutation of its old contents |
| PtOrdering.SortedByPtCopy | Inference/src/UParTEvaluator.cc:196-203 | the returned list is sorted by descending pt and is a permutation of the input |
| TensorShapes.Clamp | Inference/src/UParTEvaluator.cc:218-220 | `std::clamp`: result within bounds, the value itself inside, the bound it crossed outside |
| TensorShapes.ResolveCount | Inference/src/UParTEvaluator.cc:218-220 | the count lies in [1, max]; it equals the list size when in range, 1 for an empty list, and max for a size above max below 2^32 |
| TensorShapes.ResolveCounts | Inference/src/UParTEvaluator.cc:206-221 | the bounds are 1..29 charged, 1..5 lost tracks and 1..25 neutral. The vertex count is always 1. Each count equals its list size (empty gives 1) when in range. |
| TensorShapes.InputShapes | Inference/src/UParTEvaluator.cc:224-232 | eight shapes, each [1, rows, width], with the category counts and widths in layout order |
| TensorShapes.InputSizes | Inference/src/UParTEvaluator.cc:235-243 | eight sizes, each the product of its shape's last two dimensions |
| TensorShapes.ZeroBuffer | Inference/src/UParTEvaluator.cc:248 | a buffer of the given length holding only zeros |
| TensorShapes.ZeroBuffers | Inference/src/UParTEvaluator.cc:246-249 | one zero buffer per size, each of that size |
| TensorShapes.ZeroBuffersAppend | Inference/src/UParTEvaluator.cc:247-249 | one more size appends one more zero buffer |
| TensorShapes.ResolvedSizesBounded | Inference/src/UParTEvaluator.cc:218-243 | every resolved tensor has between one row and its capacity of rows |
| TensorShapes.PreparedTensorsConsistent | Inference/src/UParTEvaluator.cc:224-249 | for any counts, the shapes, sizes and buffers agree and the buffers are all zero |
| Inference.ClassNamesDistinct | Inference/src/UParTEvaluator.cc:28-33 | there are 30 class names and no name occurs twice, so each class has its own histogram |
| Inference.NamesDiffer | Inference/src/UParTEvaluator.cc:28-33 | any two positions of the class list hold different names |
| Inference.Sentinel | Inference/src/UParTEvaluator.cc:152 | one entry per class, each -1 |
| Inference.Prediction | Inference/src/UParTEvaluator.cc:150-155 | a fault, no output or an empty first output gives the sentinel; otherwise the first output, which is non-empty |
| Inference.PredictionLength | Inference/src/UParTEvaluator.cc:150-159 | the prediction has one entry per class iff the fallback was taken or the first output has that length |
| Evaluator.PassesPreselection | Inference/src/UParTEvaluator.cc:91 | a jet passes iff pt >= ptMin and -etaMax <= eta <= etaMax |
| Evaluator.Preselected | Inference/src/UParTEvaluator.cc:89-96 | the processed jets are never more than the jets of the event |
| Evaluator.PreselectedAppend | Inference/src/UParTEvaluator.cc:89-96 | visiting one more jet appends it exactly when it passes |
| Evaluator.PreselectedMembership | Inference/src/UParTEvaluator.cc:89-96 | a jet is processed iff it is in the collection and passes the preselection |
| Sinks.KinematicsLoggedAppend | Inference/src/UParTEvaluator.cc:107-108 | filling pt and eta for one more jet keeps the histograms one fill per processed jet |
| Sinks.AppendRowKeepsSinksAgree | Inference/src/UParTEvaluator.cc:115-128 | filling each class histogram with a row's scores, the 2-D histogram with its pt and first score, and the tree with the row keeps every sink in agreement with the tree |
| Evaluator.CountsFor | Inference/src/UParTEvaluator.cc:218-221 | the clamped counts of the three selected lists: each in [1, its maximum], equal to the list size (1 when empty) when in range; vertex count 1 |
| Evaluator.ZeroFilledBuffers | Inference/src/UParTEvaluator.cc:246-249 | the loop builds exactly one zero buffer per size, of that size |
| Evaluator.UParTEvaluator.constructor | Inference/src/UParTEvaluator.cc:11-39 | the class list is the 30 names. The score vector has one zero per class. Every sink starts empty. The invariant holds. |
| Evaluator.UParTEvaluator.FillInputTensors | Inference/src/UParTEvaluator.cc:164-257 | An invalid candidate collection leaves shapes, sizes and buffers as they were. Otherwise they become the layout for the counts resolved from the three selected lists. |
| Evaluator.UParTEvaluator.RunInference | Inference/src/UParTEvaluator.cc:142-161 | the tensors are prepared as above and stay consistent and zero; the result is the session's first output or the sentinel |
| Evaluator.UParTEvaluator.FillClassHistograms | Inference/src/UParTEvaluator.cc:118-120 | each class histogram gains exactly that class's score |
| Evaluator.UParTEvaluator.RecordPrediction | Inference/src/UParTEvaluator.cc:114-135 | A prediction of the class count becomes the score vector and fills every class histogram, the 2-D histogram and one tree row. Any other prediction changes none of them. The sinks keep agreeing with the tree. |
| Evaluator.UParTEvaluator.LogKinematics | Inference/src/UParTEvaluator.cc:101-108 | the branch variables take the jet's kinematics and the pt and eta histograms gain one fill each, keeping one fill per processed jet |
| Evaluator.UParTEvaluator.InferAndRecord | Inference/src/UParTEvaluator.cc:110-135 | the tensors are prepared for the jet, and the session's prediction is recorded exactly when it has one entry per class; the tensor and sink invariants are kept |
| Evaluator.UParTEvaluator.ProcessJet | Inference/src/UParTEvaluator.cc:99-140 | The kinematics and the pt/eta histograms are always updated. The tensors follow FillInputTensors. The guarded effects follow the prediction's length. The invariant is kept. |
| Evaluator.UParTEvaluator.Analyze | Inference/src/UParTEvaluator.cc:76-97 | An invalid jet collection changes nothing. Otherwise exactly the preselected jets are processed, in collection order, and the invariant is kept. |

## Left out

- The model session (loading and `run`, Inference/src/UParTEvaluator.cc:21, 148) is a function parameter from (buffers, shapes) to a fault or a list of output vectors. Any exception it throws is the fault outcome.
- The input and output tensor names (:24-25) are not passed to the session parameter.
- `reco::deltaR` and the 0.4 cone (:175, 182) are a cone predicate per (jet, candidate) pair.
- Histograms, the tree and the file service (:51-74, :107-128) are append-only sequences of fills and rows. Binning, ranges and overflow are not modelled. Booking is folded into the constructor.
- Logging, `fillDescriptions`, parameter parsing and `endJob` do no modelled work.
- The `try/catch` in `processJet` (:110-139) is not modelled. It catches `const std::exception&`. `runInference` (:143-160) already catches that type around `fillInputTensors` and the session call. So only an exception thrown while building the fallback result could reach it, and memory exhaustion is not modelled.
- Floats are reals: no rounding, no NaN. The `float` conversion of the kinematics and scores is not modelled.
- The tree branch variables start at 0.0, whereas the source leaves them uninitialised until the first jet.
- Evaluator.UParTEvaluator.Analyze: states which jets are processed and that the invariant holds. The per-jet scores and tree rows it produces are stated by ProcessJet, not repeated for the whole event.
- Evaluator.Preselected: states only its length bound. Its membership and order are PreselectedMembership and PreselectedAppend.
- The `(unsigned)` conversion of a list size is modelled as reduction modulo 2^32 before the clamp. ResolveCount's saturation at max is stated only for sizes below 2^32.
- PtOrdering.SortByPtDescending: guarantees only order and permutation, as `std::sort` does. Candidates of equal pt may come out in any order; SortedPermutationsAgreeOnPt shows that this leaves the pt at every position unchanged.
- The sorted lists are not used after the counts are taken, because no per-feature values are written. The buffers stay zero.
- The declared `max_sv` (:209) is unused by the source and unused here.
