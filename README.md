# Pendulum data pipeline — a Dafny model

This project models the data side of the pendulum self-supervised learning
code: how `pendulum_train_gen` fixes energies, applies the "gaps" rule,
pairs the two view times, shuffles samples and rasterises the pendulum bob
into RGB frames; how the two dataset classes serve
(first view, second view, energy) triples; the `LRScheduler` warmup/cosine
schedule and its stepping; the `most_recent_file` checkpoint lookup and
the `"-" + stem` naming of saved encodings; and the table filling of
`scripts/dataset_plot.py`.

Modules:

- `Wrappers`: Option and Result.
- `NumpyIndex`: numpy's rule for an integer index (its range and the counting from the end of negative indices), shared by the rasterizer and the datasets.
- `Strings`: string helpers with the Python semantics the source relies on
  (`endswith`, `in`, `rfind`, `rpartition`, `int(ch)`, `str(n)`).
- `Generator`: energies, the gaps rule, time pairing and the shuffle.
- `Raster`: the numpy index table, the scatter write with numpy's index
  checking, and the rendered frames.
- `Dataset`: the two dataset classes and their `__getitem__` / `__len__`.
- `Scheduler`: `LRScheduler`, a class whose `Step` updates its fields and
  the optimizer's param groups in place.
- `Checkpoint`: `most_recent_file` as a loop over the files in walk order,
  and the save-file stem.
- `DatasetPlot`: the filter loop, the `crop` list, name parsing and the
  table-filling loop over real 2-D and 3-D arrays.

The random draws are parameters: uniform energies, view indices and shuffle
permutations. So are the trigonometric positions of the bob, which enter
as offsets from the centre bounded by the string length. The model's
properties hold for every such input.

## Model

| member | source | states |
|---|---|---|
| Generator.Energies | pendulum.py:141 | with a fixed `k2` every trajectory gets that energy; otherwise the batch of draws, one per trajectory |
| Generator.SameTrajectorySameEnergy | pendulum.py:141 | all samples of one trajectory carry the same energy, which is the fixed one when given |
| Generator.GapShift | pendulum.py:172-173 | an energy in an odd band `floor(5k)` moves down exactly one band; an even-band energy is unchanged; the result is always in an even band |
| Generator.GapShiftIdempotent | pendulum.py:169-173 | applying the gap rule twice is the same as once |
| Generator.GapShiftRange | pendulum.py:168-173 | an energy drawn from [0,1) stays in [0,1) and lands in [0,0.2) ∪ [0.4,0.6) ∪ [0.8,1): the two odd bands are left empty |
| Generator.ApplyGaps | pendulum.py:169-173 | the in-place loop over the batch leaves each energy equal to the gap rule of its old value |
| Generator.PairTimes | pendulum.py:166-167 | one (t, t + diff_time) pair per drawn time, trajectory by trajectory, with the draw's shape |
| Generator.PermutationBounds | pendulum.py:151-153 | every entry of a permutation of 0..n-1 is an index below n |
| Generator.PermutedMultiset | pendulum.py:151-153 | shuffling a trajectory's samples keeps exactly the same multiset of samples |
| Generator.ShuffleTrajectories | pendulum.py:151-153 | the in-place shuffle loop leaves each trajectory as its own permutation of its old samples and leaves the others' rows alone |
| Generator.Permuted | pendulum.py:153 | `rng.shuffle` of one trajectory's rows by a permutation keeps the trajectory's length (its partner is PermutedMultiset) |
| Generator.ShuffledPairsStayPaired | pendulum.py:167-186 | in image mode the shuffled rows are whole pairs: row k of a shuffled trajectory is (t, t + diff_time) for that trajectory's drawn time `p[k]`, and the multiset of pairs is kept |
| Raster.Columns | pendulum.py:198-222 | the flattened index table has 4·B·T·(2·bob+1)² columns, in numpy's order |
| Raster.IndexTable | pendulum.py:219-223 | five index rows of equal length, column k giving batch, time, x, y and channel of the k-th pixel to darken |
| Raster.ColumnsAreDark | pendulum.py:194-222 | a pixel is a column of the table exactly when it lies in the square bob around a view's position and its channel is one that view darkens (view 0: channels 0,1; view 1: channels 1,2) |
| Raster.ColumnsInBounds | pendulum.py:175-178 | when the string length is not negative, every column lies inside the frame, in [1, img-2] on both axes |
| Raster.Scatter | pendulum.py:230 | the fancy-index assignment raises IndexError with no write when any index is out of numpy's range; otherwise exactly the indexed pixels become 0 and every other pixel keeps its value |
| Raster.WrittenIsDark | pendulum.py:175-230 | with a non-negative string length all indices are valid and the written pixels are exactly the dark ones |
| Raster.RenderImages | pendulum.py:192-243 | the frames are (B, T, 3, img, img); a pixel is 0 when written and 1 otherwise; for a non-negative string length they always render, with 0 exactly on the bob |
| Dataset.Get | pendulum.py:253-260 | a read returns the two samples of the trajectory and its energy; it fails with ValueError for an empty range and IndexError for an index past the arrays, and only then |
| Dataset.Length | pendulum.py:262-263 | `__len__` of a consistent dataset is the number of its trajectories and of its energies |
| Dataset.NumericalDataset | pendulum.py:248-251 | the numerical dataset stores the generator's output, 10 samples per trajectory, together with its `trajectory_length` |
| Dataset.ImageDataset | pendulum.py:266-269 | the image dataset stores `trajectory_length` samples per trajectory and that length |
| Dataset.LengthIsTrajectories | pendulum.py:262-263 | `__len__` is the number of trajectories generated |
| Dataset.LabelIgnoresViews | pendulum.py:256-260 | the energy label depends only on the trajectory, never on the two views drawn |
| Dataset.GetSucceedsWhenLengthsAgree | pendulum.py:253-260 | when every trajectory holds `trajectory_length` samples, every draw of the range reads successfully |
| Dataset.ImageDatasetReads | pendulum.py:265-278 | the image dataset generates `trajectory_length` samples, so every draw reads its own sample `(data[n][i], data[n][j], k2[n])`; this is also the corrected numerical dataset |
| Dataset.NumericalDatasetOverreads | pendulum.py:248-257 | as written, the numerical dataset holds 10 samples per trajectory but draws up to 99, so draws from 10 on raise IndexError |
| Scheduler.ScheduleLength | pendulum.py:59-65 | the schedule length is iter_per_epoch·num_epochs, or iter_per_epoch·warmup_epochs when the decay count is negative |
| Scheduler.LRScheduler.constructor | pendulum.py:55-68 | the schedule is the warmup part followed by the decay part; the iteration count and the current rate start at 0 |
| Scheduler.LRScheduler.Step | pendulum.py:70-76 | every param group gets `schedule[iter]`, `iter` advances and the rate becomes current; past the end IndexError with nothing changed; with no param group `iter` still advances and UnboundLocalError follows |
| Scheduler.LRScheduler.GetLr | pendulum.py:78-79 | `get_lr` is 0 before any successful step and otherwise a rate of the schedule, an invariant the constructor sets up and `step` keeps |
| Checkpoint.MostRecentFile | pendulum.py:33-44 | "" when no file has a positive mtime and the extension; otherwise a qualifying file of maximal mtime, the first such in walk order |
| Checkpoint.BaseName | pendulum.py:648 | the part after the last '/', holding no '/', and the whole path when there is none |
| Checkpoint.SaveStem | pendulum.py:648 | '-' followed by the file name minus its last extension, or just '-' when the name has no '.'; the stem holds no '/' |
| Strings.LastIndexOf | scripts/dataset_plot.py:41 | the position of the last occurrence (no later one exists), -1 exactly when absent |
| Strings.RPartition | pendulum.py:648 | head + separator + tail is the input; the tail holds no separator; a missing separator gives ("", "", s) |
| Strings.ParseDecimalString | scripts/dataset_plot.py:26 | `str` of a size parses back to that size |
| Strings.DecimalStringInjective | scripts/dataset_plot.py:26 | distinct sizes give distinct strings |
| DatasetPlot.Kept | scripts/dataset_plot.py:18-21 | the kept experiments are at most the given ones, each of them a selected experiment of the data |
| DatasetPlot.KeptMembers | scripts/dataset_plot.py:18-21 | an experiment survives the filter exactly when it is a "dataset" run whose first character is a digit of at most 4 |
| DatasetPlot.FilterExperiments | scripts/dataset_plot.py:18-21 | the pop loop raises ValueError exactly when a "dataset" name lacks a leading digit; otherwise it keeps the selected experiments in key order |
| DatasetPlot.KeptTrialsInRange | scripts/dataset_plot.py:20 | a kept experiment's trial digit is a column of the 5-column tables |
| DatasetPlot.StringifyCrop | scripts/dataset_plot.py:23-26 | as written `orig_crop` is the same list as `crop`, so after the loop it holds the size strings too |
| DatasetPlot.StringifyCropCopied | scripts/dataset_plot.py:23-26 | with a copy, `crop` holds the strings and `orig_crop` keeps the numeric sizes |
| DatasetPlot.IndexOf | scripts/dataset_plot.py:44 | `list.index`: the first position of the value, ValueError exactly when it is absent |
| DatasetPlot.CropRowOfSize | scripts/dataset_plot.py:44 | `crop.index` of the i-th size's string is i |
| DatasetPlot.StripSup | scripts/dataset_plot.py:38-40 | a `_sup` suffix is removed and nothing else; names without it are unchanged |
| DatasetPlot.SizeField | scripts/dataset_plot.py:41 | what follows the last '_', holding no '_', and the whole name when there is none |
| DatasetPlot.WriteOfRoutes | scripts/dataset_plot.py:34-48 | an iteration writes the cell of the name's trial digit in the tables its `_sup` suffix selects, at the row of its size field, with the run's own values; it raises exactly for an unlisted size or a bad row shape |
| DatasetPlot.ParseName | scripts/dataset_plot.py:36-41 | the trial is the digit the name starts with; the run is supervised exactly when the name ends in `_sup`, and stripping it leaves the rest of the name (an unsupervised name is kept whole); `num` holds no '_' and is the stripped name's tail after its last '_', or the whole stripped name when it has none |
| DatasetPlot.RowOf | scripts/dataset_plot.py:44 | `crop.index(num)` raises exactly when `num` is not among the size strings; otherwise it is a row of the 6-row tables whose size string is `num` |
| DatasetPlot.Segments | scripts/dataset_plot.py:45-48 | `k_spearman[1:-1]` fills the 7 slots when it has 7 values, broadcasts the single value when it has 1, and raises otherwise |
| DatasetPlot.WriteOf | scripts/dataset_plot.py:34-48 | one iteration writes inside the tables (row < 6, trial < 5, 7 slots) or raises for an unlisted size or a bad row shape |
| DatasetPlot.WriteOfRow | scripts/dataset_plot.py:41-48 | a run named after the i-th listed size is written into row i |
| DatasetPlot.LastWriter | scripts/dataset_plot.py:43-48 | the last experiment in key order that writes a given cell, and no later one does |
| DatasetPlot.LastWriterStep | scripts/dataset_plot.py:43-48 | one more write changes the last writer of its own cell only |
| DatasetPlot.CollectAll | scripts/dataset_plot.py:33-48 | the loop gets through exactly when no iteration raises, then makes every write in order; otherwise it stops with the first exception |
| DatasetPlot.CollectAbort | scripts/dataset_plot.py:33-48 | once an iteration raises, later experiments do not change the outcome |
| DatasetPlot.WritesOfAll | scripts/dataset_plot.py:33-48 | the loop finishes exactly when every kept experiment can be written, and its writes are then the experiments' own in key order |
| DatasetPlot.OtherKindKeeps | scripts/dataset_plot.py:43-48 | a supervised run leaves the unsupervised tables' meaning alone, and the other way round |
| DatasetPlot.WriteCell | scripts/dataset_plot.py:44-48 | writing a run's cell keeps every cell equal to the value of its last writer |
| DatasetPlot.WriteRun | scripts/dataset_plot.py:43-48 | a run that raises nothing is written into the tables of its kind (`sres`/`sresp` when supervised, `res`/`resp` otherwise), and all four tables keep every cell equal to its last writer's value |
| DatasetPlot.FillOne | scripts/dataset_plot.py:34-48 | one iteration writes the run into the tables of its kind, keeping every cell equal to its last writer's value; an unlisted size raises with nothing written; a `k_spearman` of the wrong shape raises after the full-value cell of its kind (`res` or `sres`) has been written and nothing else changed |
| DatasetPlot.FillTables | scripts/dataset_plot.py:28-48 | the four zero tables end up holding, in every cell, the value of the last run written there (0 where none is); the loop raises exactly the first failing run's exception |
| DatasetPlot.KeptParsable | scripts/dataset_plot.py:18-36 | every kept experiment reaches the table loop with a readable trial digit |
| DatasetPlot.BuildTables | scripts/dataset_plot.py:18-48 | filter then fill: ValueError when the filter raises, otherwise the table loop's result over the kept experiments |

## Left out

- The elliptic-function solution (`ellipj`, `arcsin`, `cos`, `sin`, `round`) is not modelled. The bob offsets from the centre are inputs, bounded by the string length as `round(cos(q)·str_len)` is.
- Floating point is not modelled: energies, times and table values are reals. In particular the gap rule is stated over exact reals, where 0.2 is exactly 1/5.
- Random draws are parameters: `rng.uniform`, `rng.shuffle` (a given permutation per trajectory) and `random.randint` (the two view indices).
- Noise is not modelled. The image-mode noise line refers to `p`, which is undefined in that branch, so it would raise NameError whenever `noise > 0`.
- The `blur=True` branch is left out because it returns None.
- The numerical-mode `check_energy` self-check is left out because it is floating-point assertion code.
- Conversion of the frames to `uint8` is the identity on the pixel values 0 and 1 used here.
- `torch.FloatTensor` and `cuda` wrapping are not modelled; a read returns the stored values.
- Scheduler.LRScheduler.constructor: the values of the warmup `linspace` and of the cosine decay are inputs; only their lengths and order are modelled. The ValueError of `linspace` for a negative count is not modelled either.
- Checkpoint.MostRecentFile: `os.walk` and `os.stat` are replaced by the list of (path, mtime) pairs in walk order.
- DatasetPlot.FilterExperiments: `int()` accepts only ASCII digits here, not other Unicode digits.
- DatasetPlot.FillTables: float64 rounding of the stored values is not modelled, and the tables' contents after an exception are not stated: the script stops there, and FillOne states the state the failing iteration leaves behind.
- Raster.IndexTable: the `astype('int32')` cast of the index table is not modelled. The entries are whole numbers (batch and time indices, rounded positions plus offsets, channel codes), so the cast would only change entries beyond the int32 range, which the model does not bound.
- Reading `master_experiments.json` and everything after line 48 of `scripts/dataset_plot.py` (absolute values, averaging, plotting) are left out as I/O and presentation.

## Findings

| source | as written | input that shows it | evidently intended | confidence | as-written member | corrected member |
|---|---|---|---|---|---|---|
| pendulum.py:248-257 | `PendulumNumericalDataset` stores `trajectory_length=100` but calls the generator without `traj_samples`, so each trajectory holds 10 samples | any read whose drawn view index is between 10 and 99 raises IndexError | generate `traj_samples=trajectory_length` samples, as `PendulumImageDataset` does | not executed | Dataset.NumericalDatasetOverreads | Dataset.ImageDatasetReads |
| scripts/dataset_plot.py:23-26 | `orig_crop = crop` binds the same list, so turning `crop`'s entries into strings turns `orig_crop`'s too, and it is later used as numeric sizes | any run: after the loop `orig_crop[0]` is `"640"`, not `640` | copy the list (`orig_crop = list(crop)`) | not executed | DatasetPlot.StringifyCrop | DatasetPlot.StringifyCropCopied |
