# RARE25 challenge scripts — a Dafny model

The RARE25 Grand Challenge is about detecting early neoplasia in Barrett's
esophagus on endoscopy images. Its organisers' repository holds three kinds
of scripts, and this project models the core of each:

- **Evaluation of the open development phase**
  (`open-development-phase/example-evaluation-method/evaluate.py`).
  - Every algorithm job is dispatched on its interface key.
  - The job's lesion likelihoods are aligned, index by index, with the
    ground-truth metadata of its stacked input image.
  - The jobs' records are concatenated and scored by `bootstrap_metrics`:
    AUROC, AUPRC and PPV at 90% recall on the full data set, then 1000
    patient-level stratified bootstrap rounds. Each round draws 10 neoplasia
    patients and 1000 NDBE patients with replacement.
  - The rounds are summarised by their medians and 95% percentile intervals.
    "Score" is the median PPV at 90% recall.
- **Evaluation of the closed testing phase**
  (`closed-testing-phase/example-evaluation-method/evaluate.py`). It uses the
  same job helpers and dispatch. Its placeholder handler reports a random 0/1
  metric, and the mean of that metric is stored only when there are results.
- **Data preparation**:
  - `data-processing/create_val_test_split.py` groups each class folder's
    images by patient id and shuffles the patients. It fills the validation
    split greedily with whole patients until the class target is reached
    (100 `neo`, 1000 `ndbe` images), and puts the remaining patients into the
    test split.
  - `data-processing/create_tiff_files.py` packs each split's images into
    multi-page TIFF files of 384 pages. It writes a metadata dictionary that
    gives each page's file name, class, index within its file and patient id.

Randomness and I/O are not modelled. They become parameters:

- the bootstrap's draws;
- the shuffle permutations;
- the placeholder coin;
- directory listings;
- the set of images that open;
- the job output files;
- the validation metadata.

Saved files and copies are recorded as values. Machine numbers are modelled
as mathematical reals and unbounded integers.

Modules:

- `Wrappers` and `Binary` hold `Option`, `Result` and 0/1 labels.
- `Strings`, `Paths` and `FileNames` model the Python string, `pathlib` and
  `ntpath` operations and the file-name conventions.
- `Sorting` models Python's `sorted` and numpy's sort.
- `Grouping` models dictionary grouping with insertion order.
- `Jobs` holds the job helpers common to both phases.
- `ClosedEvaluation` and `OpenEvaluation` are the two evaluation scripts.
- `Metrics`, `Interpolation`, `Summary` and `Bootstrap` model the scoring.
- `TiffBatches` and `ValTestSplit` are the two data scripts.

Where the code does something imperatively (a loop, a dictionary built up
step by step), the model is a method with a loop. That method is proved equal
to a specification function, and the properties are proved about that
function.

Four behaviours of the scoring code decide edge cases, and the model states
each of them explicitly:

- **`np.interp` outside the curve.** numpy returns `fp[0]` for `x < xp[0]`
  and `fp[-1]` for `x > xp[-1]`. So a curve whose lowest recall lies above 0.9
  gives the precision of that lowest-recall point. For example, with points
  `[(1.0, 0.5), (1.0, 1.0)]` (recall, precision), the PPV at 90% recall is
  0.5. `Interpolation.Interp` states both clamps.
- **The precision–recall curve.** It is the curve scikit-learn returns from
  version 1.1 on. It has one point per distinct score, by increasing threshold,
  and then the point (recall 0, precision 1). It is not cut off at the first
  point of full recall.
- **No bootstrap rounds.** With `n_iterations = 0`, `bootstrapped_metrics[:, 2]`
  raises on the empty array before any median is taken. This is the
  `NoRounds` error.
- **An empty pool.** `np.random.choice` raises on an empty pool only when it
  is asked for a positive number of draws. This is the `EmptyPool` error, and
  it surfaces in the first round, where the loop stops.

## Model

Source paths are relative to the repository root. The job helpers
`get_interface_key`, `get_image_name`, `get_interface_relative_path` and
`get_file_location` appear, with identical code, in both evaluation scripts.
The table cites the closed phase's copy:
`closed-testing-phase/example-evaluation-method/evaluate.py:150-177`. The
open phase's copy is `open-development-phase/example-evaluation-method/evaluate.py:185-212`.

| member | source | states |
|---|---|---|
| Binary.SumBitsCounts | open-development-phase/example-evaluation-method/evaluate.py:269 | the count of ones is positive exactly when a 1 occurs, and below the length exactly when a 0 occurs (the two classes sklearn requires) |
| Strings.Split | data-processing/create_val_test_split.py:18 | `split('_')` gives at least one part and no part contains the separator |
| Strings.JoinSplit | data-processing/create_val_test_split.py:18-20 | joining the parts of a split with its separator gives the string back |
| Strings.LowerPointwise | data-processing/create_val_test_split.py:17 | `lower()` maps each character on its own, keeping the length |
| Strings.NatToStringDigits | data-processing/create_tiff_files.py:55 | `f"{n}"` is made of decimal digits without a leading zero |
| Strings.ParseNatToString | data-processing/create_tiff_files.py:55 | reading back the decimal text of `n` gives `n` |
| Strings.NatToStringInjective | data-processing/create_tiff_files.py:55 | equal decimal texts come from equal numbers |
| Strings.HeadsBeforeSeparator | data-processing/create_tiff_files.py:55 | two strings `a_x` and `b_y` with separator-free heads are equal only if `a == b` and `x == y` |
| Paths.PosixJoin | open-development-phase/example-evaluation-method/evaluate.py:212 | `pathlib` `/` inserts exactly one `/` before a relative part, and an absolute part replaces the base |
| Paths.WinJoinShape | data-processing/create_val_test_split.py:15-21 | `os.path.join` result ends with the joined part; a rooted part replaces the base; a plain name goes after a base without a trailing separator with one backslash between them |
| Paths.BasenameShape | data-processing/create_tiff_files.py:14 | `basename` is the separator-free suffix after the last separator |
| Paths.BasenameOfJoin | data-processing/create_tiff_files.py:47 | the base name of `os.path.join(dir, name)` for a directory entry is `name` |
| FileNames.SplitLength | data-processing/create_val_test_split.py:18-19 | a split has one more part than the name has underscores, so `len(parts) >= 2` exactly when there is an underscore |
| FileNames.HasImageExtension | data-processing/create_val_test_split.py:17 | an image name (`.jpg`, `.jpeg` or `.png`, in any case) has at least four characters |
| FileNames.ImageExtensionIgnoresCase | data-processing/create_val_test_split.py:17 | the extension test ignores case: a name and its lower-cased form are both images or both not |
| FileNames.PatientPrefixShape | data-processing/create_val_test_split.py:18-20 | a name has a patient id exactly when it contains `_`; the id is a prefix of the name holding one underscore and ending at the name's end or at its second underscore |
| FileNames.IdPrefixUnique | data-processing/create_val_test_split.py:20 | only one prefix of a name has that shape, so the id is determined by the name |
| FileNames.SplitJoinPrefix | data-processing/create_val_test_split.py:18-20 | the id is `'_'.join(name.split('_')[:2])` when the split has two parts or more, and there is none otherwise |
| Sorting.LexLeTotal | closed-testing-phase/example-evaluation-method/evaluate.py:153 | Python's string order compares any two strings |
| Sorting.LexLeTransitive | closed-testing-phase/example-evaluation-method/evaluate.py:153 | Python's string order is transitive |
| Sorting.SortStrings | closed-testing-phase/example-evaluation-method/evaluate.py:153 | `sorted` returns the slugs in ascending code-point order, as a permutation of its input |
| Sorting.SortReals | open-development-phase/example-evaluation-method/evaluate.py:306-318 | numpy's sort returns the column ascending and as a permutation of the column, keeping duplicates |
| Sorting.Dedup | open-development-phase/example-evaluation-method/evaluate.py:271 | removing repeats from sorted scores leaves a strictly increasing list of exactly the same values |
| Sorting.DistinctAscending | open-development-phase/example-evaluation-method/evaluate.py:271 | the curve's thresholds are strictly increasing and are exactly the distinct scores |
| Grouping.GroupBy | open-development-phase/example-evaluation-method/evaluate.py:254-256 | the `setdefault(...).append` loop leaves keys in first-seen order; the dictionary has exactly the keys that occur; each key's list is the values at that key's positions, in input order |
| Grouping.FirstSeenMembers | open-development-phase/example-evaluation-method/evaluate.py:254-256 | the key order holds exactly the keys that occur |
| Grouping.FirstSeenDistinct | open-development-phase/example-evaluation-method/evaluate.py:254-256 | the key order lists each key once |
| Grouping.FirstSeenOrder | open-development-phase/example-evaluation-method/evaluate.py:254-256 | the key order is the order of first occurrence in the input |
| Grouping.CollectIndices | open-development-phase/example-evaluation-method/evaluate.py:255-256 | a patient's index list holds exactly the positions carrying that id, strictly increasing |
| Grouping.CollectMembers | data-processing/create_val_test_split.py:21 | each entry of a key's list comes from a position holding that key, and every such position contributes its value |
| Grouping.CollectNonEmpty | open-development-phase/example-evaluation-method/evaluate.py:256 | a key that occurs has a non-empty list |
| Jobs.Slugs | closed-testing-phase/example-evaluation-method/evaluate.py:152 | one slug per socket value, at the same position |
| Jobs.GetInterfaceKey | closed-testing-phase/example-evaluation-method/evaluate.py:150-153 | the key is the input slugs in ascending string order, with the same multiset of slugs |
| Jobs.FirstMatchExists | closed-testing-phase/example-evaluation-method/evaluate.py:158-160 | a slug that occurs among the values has a first occurrence |
| Jobs.GetImageName | closed-testing-phase/example-evaluation-method/evaluate.py:156-162 | the image name of the first value on the slug; an error when that value carries no image; "not found" when no value has the slug |
| Jobs.GetInterfaceRelativePath | closed-testing-phase/example-evaluation-method/evaluate.py:165-171 | the relative path of the first value on the slug, or "not found" when no value has the slug |
| Jobs.GetFileLocation | closed-testing-phase/example-evaluation-method/evaluate.py:174-177 | the location is `/input/<pk>/output/<relative path>` of the first matching value; "not found" when no value has the slug |
| Jobs.Dispatch | closed-testing-phase/example-evaluation-method/evaluate.py:75-77 | the handler table answers exactly the key `("stacked-barretts-esophagus-endoscopy-images",)`; any other key is a KeyError |
| Jobs.DispatchAcceptsOnlyImageStack | closed-testing-phase/example-evaluation-method/evaluate.py:72-77 | a job has a handler exactly when its inputs are a single value on the image-stack socket |
| ClosedEvaluation.ProcessInterface0 | closed-testing-phase/example-evaluation-method/evaluate.py:83-134 | the handler succeeds exactly when the likelihoods socket and the input image name resolve, and then it reports the random bit; a missing output socket is "Value not found" |
| ClosedEvaluation.Process | closed-testing-phase/example-evaluation-method/evaluate.py:70-80 | an unknown interface key is a KeyError; the known key runs the handler |
| ClosedEvaluation.Aggregate | closed-testing-phase/example-evaluation-method/evaluate.py:59-62 | the aggregate exists exactly when there are results; it is their mean, which lies in [0, 1] |
| OpenEvaluation.AlignLabels | open-development-phase/example-evaluation-method/evaluate.py:148-160 | it succeeds exactly when the metadata is at least as long as the predictions, and then every index is aligned: label 0 exactly for class "ndbe", with the entry's patient id and file name; otherwise it is the IndexError at the end of the metadata |
| OpenEvaluation.ProcessInterface0 | open-development-phase/example-evaluation-method/evaluate.py:103-169 | each failure in the order the handler meets it: output socket, output file, image name, metadata entry, metadata length; otherwise the aligned record |
| OpenEvaluation.Process | open-development-phase/example-evaluation-method/evaluate.py:90-100 | an unknown interface key is a KeyError; the known key has the handler's outcome |
| OpenEvaluation.FlattenConsistent | open-development-phase/example-evaluation-method/evaluate.py:66-77 | concatenating records whose four lists have equal lengths gives four lists of equal length |
| OpenEvaluation.AlignedIsConsistent | open-development-phase/example-evaluation-method/evaluate.py:148-169 | a record the handler aligns has one label, id and name per prediction |
| OpenEvaluation.Evaluate | open-development-phase/example-evaluation-method/evaluate.py:61-80 | the scoring in `main` is `bootstrap_metrics` (1000, 10, 100) on the four concatenated lists; no results means nothing to concatenate |
| OpenEvaluation.EvaluateLengthsAgree | open-development-phase/example-evaluation-method/evaluate.py:72-80 | with records from the handler, scoring never fails on an index past the labels or on inconsistent sample lengths |
| Metrics.PairCountIsProduct | open-development-phase/example-evaluation-method/evaluate.py:269 | the number of (positive, negative) pairs is the number of positives times the number of negatives |
| Metrics.AUROC | open-development-phase/example-evaluation-method/evaluate.py:269 | AUROC, as the fraction of positive/negative pairs ranked correctly (ties count one half), lies in [0, 1] |
| Metrics.FullCreditAboveNegatives | open-development-phase/example-evaluation-method/evaluate.py:269 | a score above every negative's score earns full credit against each negative |
| Metrics.FullPairCredit | open-development-phase/example-evaluation-method/evaluate.py:269 | when every positive outscores every negative, every pair earns full credit |
| Metrics.PerfectRankingAUROC | open-development-phase/example-evaluation-method/evaluate.py:269 | scores that rank every positive above every negative give AUROC 1 |
| Metrics.TruePositivesAntitone | open-development-phase/example-evaluation-method/evaluate.py:271 | raising the threshold never adds true positives |
| Metrics.TruePositivesAtMinimum | open-development-phase/example-evaluation-method/evaluate.py:271 | at a threshold no score is below, every positive is a true positive |
| Metrics.SomeoneAtThreshold | open-development-phase/example-evaluation-method/evaluate.py:271 | at a threshold equal to some score, at least one sample is predicted positive |
| Metrics.PrecisionAt | open-development-phase/example-evaluation-method/evaluate.py:271 | precision at a threshold lies in [0, 1] (0 when nothing is predicted positive) |
| Metrics.RecallAt | open-development-phase/example-evaluation-method/evaluate.py:271 | recall at a threshold lies in [0, 1] (1 when there are no positives, as in sklearn) |
| Metrics.TruePositivesAt | open-development-phase/example-evaluation-method/evaluate.py:271 | the true positives at a threshold never exceed the positives |
| Metrics.FalsePositivesAt | open-development-phase/example-evaluation-method/evaluate.py:271 | the false positives at a threshold never exceed the negatives |
| Metrics.RecallAntitone | open-development-phase/example-evaluation-method/evaluate.py:271 | recall never increases as the threshold rises |
| Metrics.PrecisionRecallCurve | open-development-phase/example-evaluation-method/evaluate.py:271 | the precisions and recalls have equal, non-zero length |
| Metrics.CurveInUnit | open-development-phase/example-evaluation-method/evaluate.py:271 | every point of the curve lies in [0, 1]², and the last point is (recall 0, precision 1) |
| Metrics.CurveRecallsNonIncreasing | open-development-phase/example-evaluation-method/evaluate.py:271 | recall never increases along the returned curve, so reversing it gives ascending recall |
| Metrics.CurveStartsAtFullRecall | open-development-phase/example-evaluation-method/evaluate.py:271 | with positives present, the first point of the curve has recall 1 |
| Metrics.AveragePrecisionTelescopes | open-development-phase/example-evaluation-method/evaluate.py:270 | each recall drop weighted by a precision in [0, 1] sums to between 0 and the total drop in recall |
| Metrics.AveragePrecision | open-development-phase/example-evaluation-method/evaluate.py:270 | `average_precision_score` lies in [0, 1] |
| Metrics.Reverse | open-development-phase/example-evaluation-method/evaluate.py:272 | `[::-1]`: position `i` holds the input's position `n - 1 - i` |
| Metrics.PrecisionAtRecallBracketed | open-development-phase/example-evaluation-method/evaluate.py:272 | with positives, the reversed recalls ascend from 0 to 1, so 0.9 lies between two consecutive curve points and the PPV read off lies between their precisions, within [0, 1] |
| Metrics.PrecisionAtRecall | open-development-phase/example-evaluation-method/evaluate.py:272 | `np.interp(0.9, recall[::-1], precision[::-1])` lies in [0, 1] whenever every precision does |
| Metrics.ComputeMetrics | open-development-phase/example-evaluation-method/evaluate.py:269-272 | the three metrics exist exactly when the lengths agree and both classes occur, and they lie in [0, 1]; otherwise the error is "one class only" whenever a class is missing (`roc_auc_score` checks the classes of `y_true` before the lengths), and "inconsistent lengths" otherwise |
| Interpolation.LastAtMost | open-development-phase/example-evaluation-method/evaluate.py:272 | the last abscissa at most `x`: every later abscissa is above `x` |
| Interpolation.LerpBetween | open-development-phase/example-evaluation-method/evaluate.py:272 | interpolating with a fraction in [0, 1] stays between the two ordinates |
| Interpolation.Interp | open-development-phase/example-evaluation-method/evaluate.py:272 | `np.interp` returns the first ordinate left of the range and the last one right of it; at an abscissa it returns that point's ordinate; in between it lies between the two bracketing ordinates |
| Interpolation.InterpBounded | open-development-phase/example-evaluation-method/evaluate.py:272 | the result lies within any bounds of all ordinates |
| Summary.LerpMonotone | open-development-phase/example-evaluation-method/evaluate.py:309-310 | a larger fraction moves the interpolant towards the larger end |
| Summary.Lerp | open-development-phase/example-evaluation-method/evaluate.py:309-310 | numpy's linear interpolation gives its first end at fraction 0 and its second at fraction 1, and stays between the ends for a fraction in [0, 1] |
| Summary.Position | open-development-phase/example-evaluation-method/evaluate.py:309 | numpy's virtual index `q (n - 1) / 100` lies in [0, n - 1] |
| Summary.PositionMonotone | open-development-phase/example-evaluation-method/evaluate.py:309-310 | a larger percentile has a larger virtual index |
| Summary.ReadSorted | open-development-phase/example-evaluation-method/evaluate.py:309 | reading sorted data at a fractional index stays within the data's range |
| Summary.ReadSortedBetween | open-development-phase/example-evaluation-method/evaluate.py:309 | the reading lies between the values just below and just above the index |
| Summary.ReadSortedMonotone | open-development-phase/example-evaluation-method/evaluate.py:309-310 | a larger index reads a larger value |
| Summary.ReadSortedAt | open-development-phase/example-evaluation-method/evaluate.py:309 | at a whole index, the reading is the value stored there |
| Summary.Minimum | open-development-phase/example-evaluation-method/evaluate.py:309 | a value of the column that no value is below |
| Summary.Maximum | open-development-phase/example-evaluation-method/evaluate.py:310 | a value of the column that no value is above |
| Summary.Percentile | open-development-phase/example-evaluation-method/evaluate.py:309-310 | `np.percentile` with linear interpolation lies between the column's minimum and maximum |
| Summary.PercentileMonotone | open-development-phase/example-evaluation-method/evaluate.py:309-310 | a larger percentile is never smaller, so the 2.5th is below the 97.5th |
| Summary.PercentileExtremes | open-development-phase/example-evaluation-method/evaluate.py:309-310 | the 0th percentile is the minimum and the 100th the maximum |
| Summary.MedianIsFiftiethPercentile | open-development-phase/example-evaluation-method/evaluate.py:306-308 | `np.median` (the middle value, or the mean of the two middles) equals the 50th percentile |
| Summary.Median | open-development-phase/example-evaluation-method/evaluate.py:306 | `np.median` lies between the column's minimum and maximum |
| Summary.MiddleOdd | open-development-phase/example-evaluation-method/evaluate.py:306 | for an odd count, the reading at index (n - 1) / 2 is the middle value |
| Summary.MiddleEven | open-development-phase/example-evaluation-method/evaluate.py:306 | for an even count, the reading at index (n - 1) / 2 is the mean of the two middle values |
| Summary.Ppv90s | open-development-phase/example-evaluation-method/evaluate.py:306 | `bootstrapped_metrics[:, 2]`: the PPV of each round, in round order |
| Summary.Aurocs | open-development-phase/example-evaluation-method/evaluate.py:312 | `bootstrapped_metrics[:, 0]`: the AUROC of each round, in round order |
| Summary.Auprcs | open-development-phase/example-evaluation-method/evaluate.py:316 | `bootstrapped_metrics[:, 1]`: the AUPRC of each round, in round order |
| Summary.ColumnSummary | open-development-phase/example-evaluation-method/evaluate.py:306-318 | a column's 95% interval brackets its median, and stays in [0, 1] when the column does |
| Summary.Summarize | open-development-phase/example-evaluation-method/evaluate.py:305-323 | "Score" is the median PPV; every median lies within its 95% interval; the full-data entries are the full-data metrics; with inputs in [0, 1], every interval lies in [0, 1] |
| Bootstrap.PatientIndices | open-development-phase/example-evaluation-method/evaluate.py:254-256 | `patient_to_indices[p]` is exactly the positions carrying id `p`, increasing |
| Bootstrap.GroupingPartitions | open-development-phase/example-evaluation-method/evaluate.py:254-256 | each image position belongs to the list of its own patient and to no other |
| Bootstrap.AnyPositive | open-development-phase/example-evaluation-method/evaluate.py:260 | `np.any(y_true[idx] == 1)` is 1 exactly when an indexed label is 1 |
| Bootstrap.PatientLabel | open-development-phase/example-evaluation-method/evaluate.py:259-261 | a patient is labelled 1 exactly when one of their images is labelled 1 |
| Bootstrap.WithLabel | open-development-phase/example-evaluation-method/evaluate.py:263-264 | a pool holds exactly the patients with that label |
| Bootstrap.NeoplasiaPool | open-development-phase/example-evaluation-method/evaluate.py:263 | `neoplasia_patients` holds exactly the patients labelled 1 |
| Bootstrap.NdbePool | open-development-phase/example-evaluation-method/evaluate.py:264 | `ndbe_patients` holds exactly the patients labelled 0 |
| Bootstrap.PoolsPartitionPatients | open-development-phase/example-evaluation-method/evaluate.py:263-264 | the pools are disjoint and between them hold every patient; every NDBE patient's images are all labelled 0 |
| Bootstrap.WithLabelDistinct | open-development-phase/example-evaluation-method/evaluate.py:263-264 | a pool lists each patient once |
| Bootstrap.WithLabelKeepsOrder | open-development-phase/example-evaluation-method/evaluate.py:263-264 | a pool keeps the dictionary's first-seen order of patients |
| Bootstrap.NeoplasiaPoolNonEmpty | open-development-phase/example-evaluation-method/evaluate.py:263 | with one id per image, a positive image makes the neoplasia pool non-empty |
| Bootstrap.Choose | open-development-phase/example-evaluation-method/evaluate.py:281-282 | `np.random.choice` with replacement: one patient per draw, the pool entry the draw selects |
| Bootstrap.SampledPatients | open-development-phase/example-evaluation-method/evaluate.py:284 | the concatenation holds one patient per neoplasia draw and per NDBE draw |
| Bootstrap.Expansion | open-development-phase/example-evaluation-method/evaluate.py:287-290 | every gathered index is a valid image position |
| Bootstrap.ExpansionLength | open-development-phase/example-evaluation-method/evaluate.py:287-290 | the sample has as many images as the drawn patients have, counted with repeats |
| Bootstrap.ExpansionContains | open-development-phase/example-evaluation-method/evaluate.py:287-290 | every image of every drawn patient is in the sample |
| Bootstrap.ExpansionAppend | open-development-phase/example-evaluation-method/evaluate.py:284-290 | gathering over the concatenated draws is gathering over each part in turn |
| Bootstrap.SampleIndices | open-development-phase/example-evaluation-method/evaluate.py:287-290 | the `extend` loop builds exactly the expansion of the drawn patients |
| Bootstrap.Gather | open-development-phase/example-evaluation-method/evaluate.py:292-293 | fancy indexing: position `k` holds the array's entry at index `k` |
| Bootstrap.RoundIndices | open-development-phase/example-evaluation-method/evaluate.py:284-290 | a round's indices are valid positions of the labels and scores |
| Bootstrap.RoundMetrics | open-development-phase/example-evaluation-method/evaluate.py:292-299 | a round's sampled labels and scores have equal length, so its only failure is a missing class; a successful round's metrics lie in [0, 1] |
| Bootstrap.SampleSeesBothClasses | open-development-phase/example-evaluation-method/evaluate.py:281-293 | a round drawing from both stocked pools samples a positive and a negative image |
| Bootstrap.RoundSucceeds | open-development-phase/example-evaluation-method/evaluate.py:281-299 | such a round's metrics are defined |
| Bootstrap.RunRound | open-development-phase/example-evaluation-method/evaluate.py:280-301 | one loop iteration computes the round's metrics on the gathered sample |
| Bootstrap.FirstFailure | open-development-phase/example-evaluation-method/evaluate.py:279-301 | a completed run has one triple per round |
| Bootstrap.FirstFailureOutcome | open-development-phase/example-evaluation-method/evaluate.py:279-301 | the rounds succeed exactly when every round does, with each round's triple in order; otherwise the error names the first failing round and its cause |
| Bootstrap.FirstFailureSticks | open-development-phase/example-evaluation-method/evaluate.py:279-301 | later rounds do not change an outcome that has already failed |
| Bootstrap.RunAllRounds | open-development-phase/example-evaluation-method/evaluate.py:279-301 | the loop stops at the first round that raises, and otherwise collects every round's triple |
| Bootstrap.RunRounds | open-development-phase/example-evaluation-method/evaluate.py:279-303 | an empty pool asked for draws fails in the first round; otherwise the rounds run |
| Bootstrap.Bootstrapped | open-development-phase/example-evaluation-method/evaluate.py:279-303 | a successful loop yields exactly `n_iterations` triples |
| Bootstrap.RoundsSucceed | open-development-phase/example-evaluation-method/evaluate.py:279-301 | rounds that each draw from both stocked pools all succeed, with every metric in [0, 1] |
| Bootstrap.BootstrapMetrics | open-development-phase/example-evaluation-method/evaluate.py:232-325 | `bootstrap_metrics` has the outcome of the specification, in the order its steps can fail |
| Bootstrap.BootstrapSpec | open-development-phase/example-evaluation-method/evaluate.py:232-325 | a summary is produced only when every id indexes a label, labels and scores have equal length, both classes occur and at least one round runs |
| Bootstrap.BootstrapSucceeds | open-development-phase/example-evaluation-method/evaluate.py:232-325 | with both classes, both pools stocked, and draws from each: the result is a summary whose "Score" is the median PPV, with each median inside its interval and every entry in [0, 1] |
| Bootstrap.NoLengthErrors | open-development-phase/example-evaluation-method/evaluate.py:249-325 | with one label, score and id per image, the only failures are one class only, an empty pool, a failing round, or no rounds |
| TiffBatches.ExtractPatientIdShape | data-processing/create_tiff_files.py:13-15 | a base name without `_` gives "unknown"; otherwise the id is the base name's head up to its second underscore |
| TiffBatches.CreateBatchesSpec | data-processing/create_tiff_files.py:17-101 | the corrected script saves one file per batch of the opened images, rounding up, and writes its metadata to `<tiff dir>\<split>_metadata.json` |
| TiffBatches.CreateBatchesAsWrittenSpec | data-processing/create_tiff_files.py:53-86 | when the script as written returns, any file it saved comes from a full batch, so it saves nothing for fewer than 384 opened images |
| TiffBatches.ClassImages | data-processing/create_tiff_files.py:28-33 | the images collected from one folder are tagged with its class, at most one per listed name |
| TiffBatches.ClassImagesFromListing | data-processing/create_tiff_files.py:28-33 | the collected paths are exactly the image files of the listing |
| TiffBatches.NeoplasiaFirst | data-processing/create_tiff_files.py:26 | every `neo` image comes before every `ndbe` image |
| TiffBatches.AppendClassImages | data-processing/create_tiff_files.py:28-33 | the listing loop appends the folder's image files, in listing order |
| TiffBatches.CollectImages | data-processing/create_tiff_files.py:25-33 | `all_images` is the `neo` images followed by the `ndbe` images |
| TiffBatches.Opened | data-processing/create_tiff_files.py:38-43 | skipping images that fail to open keeps at most all of them |
| TiffBatches.OpenedAppend | data-processing/create_tiff_files.py:35-43 | the opened images of two lists in turn are those of each list, concatenated |
| TiffBatches.OpenedMembers | data-processing/create_tiff_files.py:38-43 | exactly the images that open are kept |
| TiffBatches.OpenedNext | data-processing/create_tiff_files.py:35-43 | an image that opens is the next opened image; one that does not changes nothing |
| TiffBatches.BatchStartIsProduct | data-processing/create_tiff_files.py:78 | after `k` saved batches, `batch_start` is `384 k` |
| TiffBatches.QuotientStart | data-processing/create_tiff_files.py:53-78 | the full batches of `n` images end where the remainder begins |
| TiffBatches.QuotientOfStart | data-processing/create_tiff_files.py:53-78 | a position within batch `k` determines both `k` and the offset |
| TiffBatches.InfoAt | data-processing/create_tiff_files.py:46-51 | each page record describes the image at its position, with `index_in_batch` its place in its file |
| TiffBatches.PagesPointwise | data-processing/create_tiff_files.py:45 | a file's pages are the opened images at its positions, in order |
| TiffBatches.AppendEntries | data-processing/create_tiff_files.py:68-74 | the entry loop appends every page record, field by field, in order |
| TiffBatches.Flush | data-processing/create_tiff_files.py:53-74 | saving a batch adds its TIFF file, named by its first and last position and saved at 300 DPI, and appends its page records under its key |
| TiffBatches.AddImage | data-processing/create_tiff_files.py:45-79 | one iteration for an opened image keeps the loop invariant: full batches already saved, remainder pending, `dpi` bound exactly when a batch was saved |
| TiffBatches.FullStep | data-processing/create_tiff_files.py:53-79 | saving the batch that just filled up extends the saved files and metadata by one full batch and starts an empty batch |
| TiffBatches.NextImage | data-processing/create_tiff_files.py:38-79 | one pass of the loop body: an image whose `try` succeeds is appended (advancing the count of opened images by one), one whose open fails is skipped with the state unchanged; either way the loop invariant holds |
| TiffBatches.SaveFullBatch | data-processing/create_tiff_files.py:53-79 | the full-batch branch saves the batch, binds `dpi` and resets the pending batch, keeping the loop invariant |
| TiffBatches.FillBatches | data-processing/create_tiff_files.py:35-79 | after the loop, `n / 384` batches are saved and `n % 384` images are pending |
| TiffBatches.FilledAtEnd | data-processing/create_tiff_files.py:35-79 | after the last image, the pending batch holds the remainder |
| TiffBatches.SaveRemainder | data-processing/create_tiff_files.py:81-101 | saving the pending batch, if any, produces the closed form |
| TiffBatches.FinalOutput | data-processing/create_tiff_files.py:82-98 | the last partial batch completes the saved files and metadata |
| TiffBatches.CreateBatches | data-processing/create_tiff_files.py:17-103 | `create_batches`, with `dpi` bound before the loop, produces the closed form of saved files and metadata |
| TiffBatches.DpiUnboundWhen | data-processing/create_tiff_files.py:57-86 | `dpi` is unbound with a batch pending exactly when between 1 and 383 images opened |
| TiffBatches.CreateBatchesAsWritten | data-processing/create_tiff_files.py:17-103 | the script as written raises at the last save with 1 to 383 opened images; otherwise it produces the closed form |
| TiffBatches.BatchOf | data-processing/create_tiff_files.py:53-55 | the `j`-th file starts at `384 j`, ends within the opened images, and holds at most 384 pages |
| TiffBatches.BatchTiling | data-processing/create_tiff_files.py:53-84 | the files tile the opened images: the first starts at 0, each starts where the previous ended, all but the last hold exactly 384 pages, and the last ends at the end |
| TiffBatches.SavedAt | data-processing/create_tiff_files.py:62 | the `j`-th file saved in the loop is the `j`-th full batch |
| TiffBatches.SavedFiles | data-processing/create_tiff_files.py:53-86 | one TIFF file per batch, in order, each with its batch's pages |
| TiffBatches.PagesCoverOpened | data-processing/create_tiff_files.py:45-86 | the files, read in order, hold exactly the opened images, in order |
| TiffBatches.BatchKeyInjective | data-processing/create_tiff_files.py:55-64 | different batches have different file names and keys |
| TiffBatches.BatchKeyShape | data-processing/create_tiff_files.py:55-64 | a batch's file name starts with `batch_` and ends in `.tiff`, and its key is the split's name, an underscore, then that file name |
| TiffBatches.KeyAbsent | data-processing/create_tiff_files.py:65-66 | a new batch's key is never already in the metadata, so every key gets a fresh list |
| TiffBatches.MetadataAfterEntries | data-processing/create_tiff_files.py:64-74 | after `k` full batches, the metadata has one key per batch, each listing exactly that batch's page records |
| TiffBatches.MetadataEntries | data-processing/create_tiff_files.py:64-98 | the metadata has exactly one key per saved file, `"{split}_batch_{start}_{end}.tiff"`, listing that file's page records in order |
| TiffBatches.DpiFaultWitness | data-processing/create_tiff_files.py:57-86 | a split with one openable image makes the script as written fail, while the corrected one saves one file |
| ValTestSplit.ParsePatient | data-processing/create_val_test_split.py:18-20 | the split-and-join gives the patient id of the name, none without underscore |
| ValTestSplit.KeptOneShape | data-processing/create_val_test_split.py:17-21 | a listed name contributes its path and id exactly when it is an image whose name has an underscore |
| ValTestSplit.KeptFromListing | data-processing/create_val_test_split.py:16-21 | every kept image comes from a listed image name with an underscore, and every such name is kept with its id |
| ValTestSplit.KeptImages | data-processing/create_val_test_split.py:16-21 | a folder keeps at most one image per listed name |
| ValTestSplit.AddToGroup | data-processing/create_val_test_split.py:21 | appending to the `defaultdict` keeps it equal to the grouping of ids and paths seen so far |
| ValTestSplit.AppendKey | data-processing/create_val_test_split.py:21 | one more pair changes the key order only by a new key, and changes only that key's list |
| ValTestSplit.GroupClass | data-processing/create_val_test_split.py:14-21 | the listing loop builds the grouping of the kept images by patient, with patients in first-seen order |
| ValTestSplit.SelectValidation | data-processing/create_val_test_split.py:35-42 | validation is the shortest non-empty prefix of the shuffled patients whose image count reaches the target, or all patients; its count is its image total and reaches the target when the class has enough images |
| ValTestSplit.StopsAtUnique | data-processing/create_val_test_split.py:37-42 | the stop rule determines the validation length |
| ValTestSplit.Target | data-processing/create_val_test_split.py:33 | `target_counts`: 100 images for `neo`, 1000 for `ndbe` |
| ValTestSplit.TotalAtLeastPatients | data-processing/create_val_test_split.py:37-41 | `val_counts` grows by at least one with every patient that has an image |
| ValTestSplit.TestPatients | data-processing/create_val_test_split.py:45-48 | the comprehension keeps at most the shuffled patients |
| ValTestSplit.TestMembers | data-processing/create_val_test_split.py:45-48 | the test patients are exactly the shuffled patients not in validation |
| ValTestSplit.TestIsRest | data-processing/create_val_test_split.py:45-48 | with distinct patients, test is the rest of the shuffled list after validation, in order |
| ValTestSplit.TotalConcat | data-processing/create_val_test_split.py:69-76 | the image count of two patient lists together is the sum of their counts |
| ValTestSplit.TotalPermutation | data-processing/create_val_test_split.py:24-28 | shuffling the patients does not change their image count |
| ValTestSplit.DistinctPermutation | data-processing/create_val_test_split.py:24-28 | a shuffle of the distinct dictionary keys is distinct |
| ValTestSplit.GroupTotalFirstSeen | data-processing/create_val_test_split.py:14-21 | summed over the distinct patients, the groups hold every kept image exactly once |
| ValTestSplit.TotalOfGroups | data-processing/create_val_test_split.py:70 | reading `len(patient_images[cls][pid])` from the dictionary counts each patient's group |
| ValTestSplit.SplitTotal | data-processing/create_val_test_split.py:45-76 | validation and test together count every image of the shuffled patients |
| ValTestSplit.CountsAddUp | data-processing/create_val_test_split.py:14-76 | a class's validation and test counts add up to its kept images |
| ValTestSplit.SplitClass | data-processing/create_val_test_split.py:14-48 | one class from start to end: grouping, shuffle, greedy stop rule, test as the rest, counts that add up, and the target reached whenever the class has enough images |
| ValTestSplit.IsClassSplit | data-processing/create_val_test_split.py:14-48 | what the script leaves for one class: the listing's kept images grouped by patient in first-seen order, the patients shuffled, validation chosen by the stop rule, test the rest, both counts the image totals of their patients and adding up to the kept images, and the target reached whenever the class has enough images |
| ValTestSplit.CreateValTestSplit | data-processing/create_val_test_split.py:14-76 | each class's groups, patient order, shuffle, split and counts are those of its own listing and shuffle (`IsClassSplit`); the copy plan is the validation copies, then the test copies; the test paths are the test copies' sources; there is one copy per counted image |
| ValTestSplit.FileCopiesShape | data-processing/create_val_test_split.py:56-60 | each file of a patient is copied once, from its own path into the split's class folder |
| ValTestSplit.PatientCopiesCount | data-processing/create_val_test_split.py:53-62 | a split folder receives as many copies as the split's image count |
| ValTestSplit.CopyImagesCount | data-processing/create_val_test_split.py:53-66 | `copy_images` for a split makes as many copies as the two classes' counts for that split |
| ValTestSplit.CopyImages | data-processing/create_val_test_split.py:53-62 | `copy_images` makes as many copies as the two classes' chosen patients have images |
| ValTestSplit.Sources | data-processing/create_val_test_split.py:61-62 | `test_image_paths` has one source path per test copy |

## Left out

- Reading and writing files is not modelled: JSON (`write_metrics`, `json.dump`), printing, `pformat` reports, `tqdm`, `os.makedirs` and `print_inputs`. The contents that are read become parameters. What would be written is returned as a value.
- In the open phase, the job output file that `load_json_file` reads is looked up in a map of parsed files. A missing entry is the `FileMissing` error; unparseable JSON is not modelled.
- ClosedEvaluation.ProcessInterface0: it assumes that the likelihoods file (`load_json_file`, lines 99-101 of the closed phase's `evaluate.py`) and the two resource files (lines 113-124) can be read. Their contents only feed the report, so a failing read, which would raise, is not modelled.
- `helpers.run_prediction_processing` (the concurrent fan-out over jobs) and `helpers.tree` are not part of this model. `OpenEvaluation.Evaluate` takes the handlers' results in whatever order they arrive.
- Randomness is not modelled. `np.random.choice` becomes the explicit draws of each round, reduced modulo the pool size. The two `random.shuffle` calls become caller-supplied permutations. `random.choice([1, 0])` becomes an input bit. The particular sequences produced by the seeded generators are not modelled.
- Floating point is not modelled. All metrics, interpolation and percentiles are over mathematical reals, so IEEE rounding and NaN are out.
- Metrics.AUROC: it is defined as the Mann–Whitney pair statistic, ties counting one half. The model does not prove this equal to sklearn's trapezoid area under the ROC curve.
- Metrics.PrecisionRecallCurve: it models `drop_intermediate=False`, the default, as scikit-learn 1.1 and later return it. Sample weights and labels other than 0/1 are out.
- Bootstrap.RunRound: a round whose sample is empty (only possible with `sample_size = 0`) is reported as a single-class metric failure. numpy would raise earlier, because it cannot index with an empty float array.
- Opening, converting and resizing images with PIL is not modelled. Whether an image opens is the input set `opens`. Pixels, `resize_dim` and the unused `tiff_tags` are out. A saved TIFF is recorded by its path, its pages' source paths and its DPI.
- File copies are recorded as a copy plan. Overwrites of equal file names in a destination folder, and `copy2`'s metadata copying, are not modelled.
- Directory listings are inputs, in the order `os.listdir` returns them.
- Strings.Lower: it folds only ASCII letters. Python's `str.lower` also folds other alphabets, but the extensions compared are ASCII.
- Paths.WinJoin: drive letters, UNC prefixes and path normalisation of `ntpath.join` are not modelled. The scripts only join plain names onto fixed roots.
- Paths.Basename: `ntpath.basename` first strips a drive prefix, so `"E:a_1.jpg"` gives `"a_1.jpg"`. The model does not, and keeps `"E:a_1.jpg"`. The scripts only pass paths with a separator after the drive, where the two agree.
- Jobs.GetFileLocation: it states the location only when the job key is a plain relative component and the relative path does not start at the root. Other inputs follow `Paths.PosixJoin` without a closed form.
- Malformed JSON is not modelled: a job or metadata entry missing a key, or a value of the wrong type. The datatypes always carry every field.
- The repository's other scripts are not part of this model: the upload script, `create_random_probabilities.py`, `process_train_data.py` and `read_tiff_files.py`.
- The ground-truth file of the closed phase is not modelled: `some_resource.txt` and the tarball resource are only read into the report.

## Findings

| source | as written | input that shows it | evidently intended | confidence | as-written member | corrected member |
|---|---|---|---|---|---|---|
| data-processing/create_tiff_files.py:86 | the last partial batch is saved with `dpi=dpi`, but `dpi` is only assigned inside the full-batch branch (line 57), so the save raises `UnboundLocalError` | a split whose folders hold between 1 and 383 images that open, e.g. one file `a_1.jpg` in `val\neo` (`TiffBatches.DpiFaultWitness`) | `dpi = (300, 300)` bound before the loop, so the last batch is saved like the full ones | not executed | TiffBatches.CreateBatchesAsWritten | TiffBatches.CreateBatches |
