# Decision-tree learner: a verified model

A Dafny model of the decision-tree learner in `tree/tree.go` of
zoh/decision-tree. The learner takes a training set and grows a binary tree greedily:

- A training set is a slice of records, each a map from attribute name to a string, int or float64 value.
- At every node it tries each attribute value seen in the set as a pivot. It skips the category attribute and the ignored attributes.
- A numeric pivot is tested with `>=` and any other pivot with `==`.
- It keeps the first candidate with the largest information gain.
- It stops with a majority-label leaf when the set's entropy is at most 0.01 or when no candidate gains anything.

Prediction walks the tree from the root to a leaf.

Files and modules:

- `values.dfy` (`Values`): values, records, training sets, the tree, and the panics as a `Result` error.
- `statistics.dfy` (`Statistics`): `counterUniqueValues`, `entropy` and `mostFrequentValue` as loops over the label counter, specified by `Tally`, `EntropyOf` and `IsMostFrequent`.
- `splitting.dfy` (`Splitting`): the two predicates, `stringInSlice`, and `split` as a loop specified by the stable partition `Select`.
- `induction.dfy` (`Induction`): `makeTrainingTree`.
  - The nested search loops are split into `FindBestSplit`, `SearchRecord`, `ConsiderAttribute` and `ScoreCandidate`.
  - The relational specification `Induced` says which trees the code can return, whatever the map iteration order.
  - `Trainable` says exactly when the code panics.
- `tree_properties.dfy` (`TreeProperties`): the shape, counts, labels and size of every induced tree.
- `prediction.dfy` (`Prediction`): `predict` as written and as intended, with the lemmas relating them.
- `model.dfy` (`Model`): the `DecisionTree` object with `TrainingTree` and `Predict`.

Modelling choices:

- A Go panic is an `Err` result:
  - `LabelNotString`: a label that is missing or is not a string;
  - `NumericTypeMismatch`: an int compared with a float64 by `predicateGte`;
  - `NilPointer`: a nil dereference in `predict`.
- A missing attribute is `None`, Go's nil. It is not an error: both predicates are false on it.
- float64 is modelled as `real`. `math.Log` is a parameter `ln`. The lemmas that need its shape assume `ln(1) = 0` and `ln(x) < 0` for `0 < x < 1` (`LogShape`).
- Go's map iteration order is a nondeterministic choice (`:|`) in every loop over a map. The specifications are "some maximal element" statements. The sum over a counter is shown to be independent of the order (`SumPick`).
- An internal node has no category field in the model; Go leaves it "".
- `Values.Get` (Go's `item[attr]`, tree/tree.go:124) is a plain definition: the value when the attribute is present, None otherwise.

Where the code departs from what a textbook learner does, the model follows the code:

- A record that lacks an attribute is not an error. The code sends it to NoMatch, in `split` and in `predict`.
- An empty training set does not fail. The code returns the leaf "".
- A numeric `>=` does not compare an int with a float64 by value. The code panics on the type assertion.
- A category attribute that is also ignored is not rejected. The code has no such check.
- The comment on `entropy` says log2. The code uses the natural logarithm.

## Model

| member | source | states |
|---|---|---|
| Splitting.PredicateEq | tree/tree.go:40-42 | Go's interface `==`: true exactly when the value is present, has the pivot's dynamic type, and carries the same string, int or float64 |
| Splitting.PredicateGte | tree/tree.go:43-56 | false on nil and on strings; for two ints or two float64s it is exactly the numeric `>=`; it panics exactly when a numeric value meets a pivot of any other type |
| Splitting.KindOf | tree/tree.go:155-163 | `>=` exactly for an int or float64 pivot; the chosen predicate never panics on a value of the pivot's own type, and the pivot's own value always matches |
| Splitting.Apply | tree/tree.go:124 | a nil value never matches and never panics; `==` never panics; a match implies a present value |
| Splitting.StringInSlice | tree/tree.go:133-140 | true exactly when the string is an element of the slice |
| Splitting.SplitSet | tree/tree.go:121-131 | panics exactly when some record makes the predicate panic; otherwise Match and NoMatch are the records on which the predicate is true and false, in input order, with the other `Split` fields at Go's zero values |
| Splitting.Select | tree/tree.go:121-131 | a side of the split is never larger than the input |
| Splitting.SelectMembers | tree/tree.go:123-128 | every record on a side comes from the input and gives that side's predicate result |
| Splitting.SelectContains | tree/tree.go:123-128 | every input record that gives a side's result is on that side |
| Splitting.SelectAppend | tree/tree.go:123-128 | the split is stable: splitting a concatenation splits each part, keeping order |
| Splitting.LastGoesOneWay | tree/tree.go:124-128 | a record the predicate handles without a panic is appended to exactly one side |
| Splitting.SplitCovers | tree/tree.go:123-128 | without a panic the two sides together are exactly the input, as multisets |
| Splitting.SplitPartition | tree/tree.go:123-128 | without a panic `len(Match) + len(NoMatch) = len(set)`, and the sides together are the input |
| Splitting.SelectAll | tree/tree.go:123-128 | when one side is empty the other side is the whole input, in order |
| Splitting.SplitExample | tree/tree_test.go:33-45 | ages 20, 30 and 1 split by `>= 20` give Match = the first two records and NoMatch = the third |
| Statistics.CounterUniqueValues | tree/tree.go:80-87 | panics exactly when some label is missing or not a string; otherwise the counter maps each label of the set to its number of occurrences |
| Statistics.CountPositive | tree/tree.go:80-87 | a label's count is positive exactly when some record carries it |
| Statistics.TallyPositive | tree/tree.go:80-87 | every key of the counter has a positive count |
| Statistics.TallySnoc | tree/tree.go:82-85 | appending a record increments its label's count and leaves the others |
| Statistics.TallySnocTotal | tree/tree.go:82-85 | counting one more record adds one to the total of the counts |
| Statistics.TallyTotal | tree/tree.go:80-87 | the counts add up to the size of the set |
| Statistics.CounterExample | tree/tree_test.go:8-20 | the labels yes, no, yes, yes are counted as {yes: 3, no: 1} |
| Statistics.SumPick | tree/tree.go:73-76 | summing the counter may start with any key, so the map iteration order does not change the entropy |
| Statistics.Entropy | tree/tree.go:70-78 | panics where `counterUniqueValues` does; otherwise the result is the sum of -p·ln p over the labels, in any iteration order |
| Statistics.EntropyEmpty | tree/tree.go:70-78 | the entropy of the empty set is 0, with no division taken |
| Statistics.CountAll | tree/tree.go:80-87 | in a set labelled by one category throughout, that category's count is the size of the set |
| Statistics.PureTally | tree/tree.go:80-87 | the counter of a set with one label has that label as its only key, counted once per record |
| Statistics.EntropyPure | tree/tree.go:70-78 | a non-empty set with one label has entropy 0, and its counter is {label: size} |
| Statistics.TermSign | tree/tree.go:74-75 | a term -p·ln p is never negative, and is positive when 0 < p < 1 |
| Statistics.SumNonNegative | tree/tree.go:73-76 | a sum of terms that are not negative is not negative |
| Statistics.EntropyNonNegative | tree/tree.go:70-78 | the entropy is never negative |
| Statistics.EntropyPositive | tree/tree.go:70-78 | a set holding two different labels has positive entropy |
| Statistics.EntropyZeroIffPure | tree/tree.go:70-78 | on a non-empty, string-labelled set the entropy is 0 exactly when every record has the same label |
| Statistics.EntropyExample | tree/tree_test.go:22-31 | the labels yes, no, yes, yes have positive entropy |
| Statistics.MostFrequentValue | tree/tree.go:93-105 | panics where `counterUniqueValues` does; otherwise returns "" for an empty set, and for any other set a label whose count no label exceeds |
| Statistics.MostFrequentOccurs | tree/tree.go:93-105 | on a non-empty set the majority label is a label of the set |
| Induction.WholeSideGainsNothing | tree/tree.go:171-178 | when one side is the whole set, newEntropy = e·n/n = e and the gain is 0 |
| Induction.OneSidedGainIsZero | tree/tree.go:166-178 | a split that sends every record the same way gains nothing |
| Induction.PositiveGainShrinks | tree/tree.go:179-196 | a split with positive gain has two non-empty sides, each strictly smaller than the set, so the recursion terminates |
| Induction.MixedFromSubset | tree/tree.go:195-196 | a candidate that panics on a part of a set panics on the set, so a recursive call panics only if its parent's search would have |
| Induction.SidesTrainable | tree/tree.go:195-196 | both sides of a split of a set whose search does not panic can themselves be trained without a panic |
| Induction.ScoreCandidate | tree/tree.go:155-178 | scoring a candidate panics exactly when its split does; otherwise it yields the split with gain = parent entropy less the size-weighted entropies of the sides |
| Induction.ConsiderAttribute | tree/tree.go:151-186 | leaves the best split and its row unchanged for the category and the ignored attributes; replaces it, with this row, by the scored candidate exactly when the candidate's gain is strictly larger; the best split stays the first best from the earliest row |
| Induction.SearchRecord | tree/tree.go:150-187 | after every attribute of a record, in any map order, each allowed candidate of that record has been scored without a panic and is bounded by the best gain |
| Induction.FindBestSplit | tree/tree.go:147-188 | the search panics exactly when some allowed candidate panics; otherwise it returns the zero split when no candidate has positive gain, or else a split of maximal positive gain from the first record that has one |
| Induction.SearchComplete | tree/tree.go:149-188 | once every row is done, no allowed candidate panics and none gains more than the best |
| Induction.MakeTrainingTree | tree/tree.go:142-208 | panics exactly when some label is not a string, or when the entropy is above 0.01 and some candidate panics; otherwise it returns a tree satisfying `Induced`, a leaf whenever the entropy is at most 0.01 |
| TreeProperties.InducedNode | tree/tree.go:179-207 | an internal node tests a candidate of its set that does not panic; both sides are non-empty and together are the set; the counts are their sizes; the children are induced from them |
| TreeProperties.InducedLeafLabels | tree/tree.go:142-208 | on a non-empty set every leaf label is a category value that occurs in the set |
| TreeProperties.InducedSize | tree/tree.go:198-207 | at the root of an induced node `MatchedCount + NoMatchedCount = len(trainingSet)` |
| TreeProperties.InducedWellFormed | tree/tree.go:142-208 | each node tests an allowed attribute, uses `>=` exactly for a numeric pivot, has positive counts, and each child node's counts add up to its branch count |
| TreeProperties.InducedLeafCount | tree/tree.go:142-208 | a tree grown from a non-empty set has at most as many leaves as the set has records |
| TreeProperties.PureSetIsLeaf | tree/tree.go:143-146 | a non-empty set with one label can be trained, and the only tree for it is the leaf with that label |
| TreeProperties.EmptySetIsEmptyLeaf | tree/tree.go:143-146 | the empty set can be trained, and the only tree for it is the leaf "" |
| Prediction.Descend | tree/tree.go:214-227 | the intended `predict`: the answer is a leaf label of the tree, a leaf answers its own label, and the only failure is a mixed int/float64 comparison |
| Prediction.Predict | tree/tree.go:214-227 | the iterative walk gives exactly the descent `Descend` |
| Prediction.DescendAsWritten | tree/tree.go:214-227 | `predict` as written recognises a leaf by a non-empty category, so any answer is a non-empty leaf label |
| Prediction.AsWrittenDiffers | tree/tree.go:216-220 | the written walk differs from the intended one exactly when the intended answer is "": then it panics on a nil predicate |
| Prediction.PredictAsWritten | tree/tree.go:214-227 | the loop that stops at a non-empty category gives exactly `DescendAsWritten` |
| Prediction.TrainedWithoutEmptyLabelAgrees | tree/tree.go:142-227 | on a tree grown from a non-empty set in which no record is labelled "", the written walk is the intended one |
| Prediction.AsWrittenAgrees | tree/tree.go:214-227 | on a tree with no leaf labelled "" the written walk is the intended one |
| Prediction.EmptyTrainingSetPanics | tree/tree.go:142-146 | the tree of the empty set answers "" by intent, but the written walk panics on every record |
| Prediction.PredictionIsTrainingLabel | tree/tree.go:210-227 | a tree grown from a non-empty set answers only with labels from that set |
| Prediction.TrainingRecordsClassify | tree/tree.go:214-227 | a record of the training set never makes the corrected walk `Descend` down its own tree panic |
| Prediction.MissingAttributeGoesNoMatch | tree/tree.go:219-224 | a record lacking a node's attribute takes the NoMatch branch |
| Model.DecisionTree.constructor | tree/tree.go:11-15 | a new object has a nil root and the given settings |
| Model.DecisionTree.Predict | tree/tree.go:210-227 | exactly the written walk `DescendAsWritten` from the root, so any answer is a non-empty leaf label; an untrained (nil) root panics |
| Model.TrainingTree | tree/tree.go:61-63 | fails exactly when `makeTrainingTree` would panic and then leaves the root alone, the panic being `LabelNotString` exactly for a bad label and `NumericTypeMismatch` otherwise; otherwise the root is a tree induced from the set with the object's settings |
| Model.TrainAndPredict | tree/tree_test.go:47-63 | training on a non-empty set and predicting answers with a non-empty label of the set, or panics on a mixed numeric comparison or on a nil predicate; the nil panic needs a record labelled "", and a record of the set never panics when no record is labelled "" |

## Left out

- HTML rendering (`SaveToHtml`, `treeToHtml`, `TreeItem.String`, `htmlTemplate`, tree/tree.go:237-418): a presentation layer that writes files.
- `myWriter` (tree/tree.go:229-235): console output only.
- `PredicateName` (">=" or "=="): a display string that the kind `Eq`/`Gte` determines, used only by the renderer.
- IEEE floating point: float64 is a real and `math.Log` an arbitrary function. Rounding, NaN and `-0·ln 0` are not modelled, nor is the sensitivity to rounding of the entropy threshold test (tree/tree.go:147) and of the gain tests `currGain > bestSplit.Gain` and `bestSplit.Gain == 0` (tree/tree.go:179, 190). In floats a one-sided split can get a tiny positive gain, since its side's entropy is summed in another map order and `(e·n)/n` need not round back to `e`; Go would then recurse on the whole set beside an empty leaf "". So `Induction.PositiveGainShrinks` (and with it termination) and the positive counts of `TreeProperties.InducedWellFormed` hold in exact arithmetic only.
- Go's `int` width: ints are unbounded; the learner only compares and counts them.
- A particular map iteration order: every order is allowed. So `makeTrainingTree` is specified relationally (`Induced`), not as a function. Training twice on the same set may give different trees when gains or majority counts tie.
- The Simpsons example (tree/tree_test.go:47-63): its expected answer depends on concrete logarithm values. `Model.TrainAndPredict` states what holds for it whatever `ln` is.
- Model.TrainAndPredict: promises a panic-free answer for a record of the set only when no record is labelled "", because `predict` as written panics on a leaf "" (see Findings).
- `reflect.TypeOf(pivot).String()` (tree/tree.go:157): modelled as a test on the value's tag, not as reflection.

## Findings

| source | as written | input that shows it | evidently intended | confidence | as-written member | corrected member |
|---|---|---|---|---|---|---|
| tree/tree.go:216-220 | `predict` treats a node as a leaf only when its category is non-empty. A leaf labelled "" is taken for an internal node and `*tree.Predicate` dereferences nil. | Training on the empty set gives `Root = &TreeItem{Category: ""}` (lines 144-145 with `mostFrequentValue` returning ""); `Predict` then panics on every record. A majority label "" does the same. | A trained tree never panics on a nil predicate. Either remedy gives it: `predict` recognises a leaf by its missing predicate, so every leaf answers its own label, "" included (`Descend`, `Predict`); or training never builds a leaf "", by rejecting the empty set and records labelled "" (`TrainedWithoutEmptyLabelAgrees`). | not executed | Prediction.DescendAsWritten, Prediction.PredictAsWritten, Prediction.EmptyTrainingSetPanics, Model.DecisionTree.Predict | Prediction.Descend, Prediction.Predict, Prediction.TrainedWithoutEmptyLabelAgrees |
