/** `PendulumNumericalDataset` and `PendulumImageDataset`: a generated batch held
    in memory, read as (first view, second view, energy). The two view indices
    that `random.randint` draws on every read are parameters. */
module Dataset {
  import opened Wrappers
  import opened NumpyIndex

  /** The `traj_samples` default of `pendulum_train_gen`. */
  const DefaultTrajSamples: nat := 10

  datatype Dataset<V> = Dataset(size: nat, k2: seq<real>, data: seq<seq<V>>, trajectoryLength: nat)

  datatype Sample<V> = Sample(first: V, second: V, energy: real)

  /** ValueError of `randint(0, -1)`, IndexError of an index past the arrays. */
  datatype AccessError = EmptyRange | IndexOutOfRange

  /** What `pendulum_train_gen(size, traj_samples=samples)` hands back: one
      energy and `samples` samples per trajectory. */
  predicate Generated<V>(size: nat, samples: nat, k2: seq<real>, data: seq<seq<V>>) {
    |k2| == size && |data| == size && forall i :: 0 <= i < size ==> |data[i]| == samples
  }

  /** The constructor as written: the generator runs with its default of 10
      samples per trajectory, whatever `trajectory_length` is. */
  function NumericalDataset<V>(size: nat, trajectoryLength: nat, k2: seq<real>, data: seq<seq<V>>): (ds: Dataset<V>)
    requires Generated(size, DefaultTrajSamples, k2, data)
    ensures Generated(ds.size, DefaultTrajSamples, ds.k2, ds.data) && ds.trajectoryLength == trajectoryLength
  {
    Dataset(size, k2, data, trajectoryLength)
  }

  /** `PendulumImageDataset`: `traj_samples=trajectory_length`. */
  function ImageDataset<V>(size: nat, trajectoryLength: nat, k2: seq<real>, data: seq<seq<V>>): (ds: Dataset<V>)
    requires Generated(size, trajectoryLength, k2, data)
    ensures Generated(ds.size, ds.trajectoryLength, ds.k2, ds.data) && ds.trajectoryLength == trajectoryLength
  {
    Dataset(size, k2, data, trajectoryLength)
  }

  /** A draw of `random.randint(0, trajectory_length - 1)`. */
  predicate IsDraw<V>(ds: Dataset<V>, i: int) {
    ds.trajectoryLength > 0 ==> 0 <= i < ds.trajectoryLength
  }

  /** `__getitem__(idx)` with draws i and j:
      `[data[idx][i], data[idx][j], k2[idx]]`. */
  function Get<V>(ds: Dataset<V>, idx: int, i: int, j: int): (r: Result<Sample<V>, AccessError>)
    requires IsDraw(ds, i) && IsDraw(ds, j)
    requires |ds.k2| == |ds.data|
    ensures r.Err? <==> (|| ds.trajectoryLength == 0
                         || !ValidIndex(idx, |ds.data|)
                         || i >= |ds.data[Wrap(idx, |ds.data|)]|
                         || j >= |ds.data[Wrap(idx, |ds.data|)]|)
    ensures ds.trajectoryLength == 0 ==> r == Err(EmptyRange)
    ensures ds.trajectoryLength > 0 && r.Err? ==> r == Err(IndexOutOfRange)
    ensures r.Ok? ==> var n := Wrap(idx, |ds.data|);
      r.value == Sample(ds.data[n][i], ds.data[n][j], ds.k2[n])
  {
    if ds.trajectoryLength == 0 then Err(EmptyRange)
    else if !ValidIndex(idx, |ds.data|) then Err(IndexOutOfRange)
    else
      var row := ds.data[Wrap(idx, |ds.data|)];
      if i >= |row| || j >= |row| then Err(IndexOutOfRange)
      else Ok(Sample(row[i], row[j], ds.k2[Wrap(idx, |ds.data|)]))
  }

  /** `__len__`. */
  function Length<V>(ds: Dataset<V>): (n: nat)
    ensures |ds.k2| == ds.size && |ds.data| == ds.size ==> n == |ds.data| && n == |ds.k2|
  {
    ds.size
  }

  /** The length is the number of generated trajectories. */
  lemma LengthIsTrajectories<V>(ds: Dataset<V>, samples: nat)
    requires Generated(ds.size, samples, ds.k2, ds.data)
    ensures Length(ds) == |ds.data| == |ds.k2|
  {
  }

  /** The label of a read depends on the index only: two reads of the same
      index, whatever views they draw, carry the same energy. */
  lemma LabelIgnoresViews<V>(ds: Dataset<V>, idx: int, i: int, j: int, i': int, j': int)
    requires IsDraw(ds, i) && IsDraw(ds, j) && IsDraw(ds, i') && IsDraw(ds, j')
    requires |ds.k2| == |ds.data|
    requires Get(ds, idx, i, j).Ok? && Get(ds, idx, i', j').Ok?
    ensures Get(ds, idx, i, j).value.energy == Get(ds, idx, i', j').value.energy
  {
  }

  /** When every trajectory holds `trajectory_length` samples, every read of
      an index inside the dataset succeeds, and both views come from that
      trajectory. */
  lemma GetSucceedsWhenLengthsAgree<V>(ds: Dataset<V>, idx: nat, i: int, j: int)
    requires Generated(ds.size, ds.trajectoryLength, ds.k2, ds.data)
    requires ds.trajectoryLength > 0 && idx < ds.size && IsDraw(ds, i) && IsDraw(ds, j)
    ensures Get(ds, idx, i, j) == Ok(Sample(ds.data[idx][i], ds.data[idx][j], ds.k2[idx]))
  {
  }

  /** The image dataset never reads past a trajectory: every draw reads its
      own sample. It is also the evidently intended `PendulumNumericalDataset`,
      whose generator would be told to draw `trajectory_length` samples. */
  lemma ImageDatasetReads<V>(size: nat, trajectoryLength: nat, k2: seq<real>, data: seq<seq<V>>, idx: nat, i: int, j: int)
    requires Generated(size, trajectoryLength, k2, data)
    requires trajectoryLength > 0 && idx < size
    requires IsDraw(ImageDataset(size, trajectoryLength, k2, data), i) && IsDraw(ImageDataset(size, trajectoryLength, k2, data), j)
    ensures Get(ImageDataset(size, trajectoryLength, k2, data), idx, i, j).Ok?
    ensures Get(ImageDataset(size, trajectoryLength, k2, data), idx, i, j)
         == Ok(Sample(data[idx][i], data[idx][j], k2[idx]))
  {
    GetSucceedsWhenLengthsAgree(ImageDataset(size, trajectoryLength, k2, data), idx, i, j);
  }

  /** As written, `PendulumNumericalDataset` with its default
      `trajectory_length = 100` holds 10 samples per trajectory, so a draw of
      10 or more (90 of the 100 possible draws) raises IndexError. */
  lemma NumericalDatasetOverreads<V>(size: nat, k2: seq<real>, data: seq<seq<V>>, idx: nat, i: int, j: int)
    requires Generated(size, DefaultTrajSamples, k2, data)
    requires idx < size && DefaultTrajSamples <= i < 100 && 0 <= j < 100
    ensures Get(NumericalDataset(size, 100, k2, data), idx, i, j) == Err(IndexOutOfRange)
  {
  }
}
