/** Bookkeeping of `pendulum_train_gen` around the physics: energies, the "gaps"
    shift, the pairing of the two view times and the shuffle of the samples of
    every trajectory. Random draws are parameters; the elliptic-function
    solution itself is not modelled. */
module Generator {
  import opened Wrappers

  /** Energies: `k2 * ones(batch)` when an energy is fixed, otherwise the batch
      of uniform draws (one per trajectory). */
  function Energies(batch: nat, fixed: Option<real>, draws: seq<real>): (k2: seq<real>)
    requires fixed.None? ==> |draws| == batch
    ensures |k2| == batch
    ensures fixed.Some? ==> forall i :: 0 <= i < batch ==> k2[i] == fixed.value
    ensures fixed.None? ==> k2 == draws
  {
    match fixed
    case Some(k) => seq(batch, _ => k)
    case None => draws
  }

  /** The energy of every sample: the energy array of shape (batch, 1) broadcast
      over the `samples` sample times of its trajectory. */
  function SampleEnergies(k2: seq<real>, samples: nat): (e: seq<seq<real>>)
    ensures |e| == |k2|
    ensures forall i :: 0 <= i < |e| ==> |e[i]| == samples
    ensures forall i, j :: 0 <= i < |e| && 0 <= j < samples ==> e[i][j] == k2[i]
  {
    seq(|k2|, i requires 0 <= i < |k2| => seq(samples, _ => k2[i]))
  }

  /** Two samples of the same trajectory always carry the same energy; with a
      fixed energy every sample of the batch carries it. */
  lemma SameTrajectorySameEnergy(batch: nat, fixed: Option<real>, draws: seq<real>, samples: nat,
                                 i: nat, j: nat, j': nat)
    requires fixed.None? ==> |draws| == batch
    requires i < batch && j < samples && j' < samples
    ensures SampleEnergies(Energies(batch, fixed, draws), samples)[i][j]
         == SampleEnergies(Energies(batch, fixed, draws), samples)[i][j']
    ensures fixed.Some? ==> SampleEnergies(Energies(batch, fixed, draws), samples)[i][j] == fixed.value
  {
  }

  // ---------------------------------------------------------------- gaps

  /** The band of an energy: `floor(5 * k)`; 0.2 is exactly 1/5 over the reals. */
  function Band(k: real): int {
    (k * 5.0).Floor
  }

  /** Gap mode: an energy in an odd band is lowered by 0.2, all others are kept. */
  function GapShift(k: real): (k': real)
    ensures Band(k) % 2 == 1 ==> k' == k - 0.2 && Band(k') == Band(k) - 1
    ensures Band(k) % 2 == 0 ==> k' == k
    ensures Band(k') % 2 == 0
  {
    if Band(k) % 2 == 1 then k - 0.2 else k
  }

  /** A shifted energy lands in the band just below its own, so every energy
      the rule leaves lies in an even band. */
  lemma GapShiftIdempotent(k: real)
    ensures GapShift(GapShift(k)) == GapShift(k)
  {
  }

  /** For a draw in [0, 1) the shifted energy stays in [0, 1) and lies in
      [0, 0.2), [0.4, 0.6) or [0.8, 1). */
  lemma GapShiftRange(k: real)
    requires 0.0 <= k < 1.0
    ensures 0.0 <= GapShift(k) < 1.0
    ensures GapShift(k) < 0.2 || 0.4 <= GapShift(k) < 0.6 || 0.8 <= GapShift(k)
  {
    var k' := GapShift(k);
    var b := Band(k');
    assert b as real <= k' * 5.0 < b as real + 1.0;
    assert 0 <= Band(k) <= 4;
    assert b == 0 || b == 2 || b == 4;
  }

  /** The loop over the batch that rewrites `k2[i, 0, 0]` in place. */
  method ApplyGaps(k2: array<real>)
    modifies k2
    ensures forall i :: 0 <= i < k2.Length ==> k2[i] == GapShift(old(k2[i]))
  {
    for i := 0 to k2.Length
      invariant forall j :: 0 <= j < i ==> k2[j] == GapShift(old(k2[j]))
      invariant forall j :: i <= j < k2.Length ==> k2[j] == old(k2[j])
    {
      if Band(k2[i]) % 2 == 1 {
        k2[i] := k2[i] - 0.2;
      }
    }
  }

  // ---------------------------------------------------------------- view times

  datatype TimePair = TimePair(first: real, second: real)

  /** Image mode: each drawn time t becomes the pair (t, t + diff_time). */
  function PairTimes(t: seq<seq<real>>, diffTime: real): (pairs: seq<seq<TimePair>>)
    ensures |pairs| == |t|
    ensures forall i :: 0 <= i < |t| ==> |pairs[i]| == |t[i]|
  {
    seq(|t|, i requires 0 <= i < |t| =>
      seq(|t[i]|, j requires 0 <= j < |t[i]| => TimePair(t[i][j], t[i][j] + diffTime)))
  }

  // ---------------------------------------------------------------- shuffle

  function Range(n: nat): (r: seq<nat>)
    ensures |r| == n && forall i :: 0 <= i < n ==> r[i] == i
  {
    seq(n, i => i)
  }

  /** `p` rearranges the positions 0 .. n-1. */
  predicate IsPermutation(p: seq<nat>, n: nat) {
    multiset(p) == multiset(Range(n))
  }

  lemma PermutationBounds(p: seq<nat>, n: nat)
    requires IsPermutation(p, n)
    ensures |p| == n
    ensures forall i :: 0 <= i < |p| ==> p[i] < n
  {
    assert |multiset(p)| == |multiset(Range(n))|;
    forall i | 0 <= i < |p| ensures p[i] < n {
      assert p[i] in multiset(p);
      assert p[i] in Range(n);
    }
  }

  /** The rows of one trajectory after `rng.shuffle(x, axis=0)`, whose choice
      is given as the permutation `p`: row i is the old row `p[i]`. */
  function Permuted<R>(rows: seq<R>, p: seq<nat>): (r: seq<R>)
    requires IsPermutation(p, |rows|)
    ensures |r| == |rows|
  {
    PermutationBounds(p, |rows|);
    seq(|p|, i requires 0 <= i < |p| => rows[p[i]])
  }

  /** Taking the position of the largest index out of a permutation of
      0 .. n-1 leaves a permutation of 0 .. n-2. */
  lemma RemoveLast(p: seq<nat>, n: nat, k: nat)
    requires IsPermutation(p, n) && k < |p| && p[k] == n - 1
    ensures IsPermutation(p[..k] + p[k + 1..], n - 1)
  {
    var p': seq<nat> := p[..k] + p[k + 1..];
    assert p == p[..k] + [p[k]] + p[k + 1..];
    assert multiset(p') == multiset(p) - multiset{p[k]};
    assert Range(n) == Range(n - 1) + [n - 1];
    assert multiset(Range(n - 1)) == multiset(Range(n)) - multiset{p[k]};
  }

  /** Permuting by `p` is permuting the shorter trajectory by `p` without its
      largest index, with the last row put back at that place. */
  lemma PermutedSplit<R>(rows: seq<R>, p: seq<nat>, k: nat)
    requires IsPermutation(p, |rows|) && k < |p| && p[k] == |rows| - 1
    ensures IsPermutation(p[..k] + p[k + 1..], |rows| - 1)
    ensures Permuted(rows, p)
         == Permuted(rows[..|rows| - 1], p[..k] + p[k + 1..])[..k] + [rows[|rows| - 1]]
          + Permuted(rows[..|rows| - 1], p[..k] + p[k + 1..])[k..]
  {
    var n := |rows|;
    RemoveLast(p, n, k);
    PermutationBounds(p, n);
    var p': seq<nat> := p[..k] + p[k + 1..];
    PermutationBounds(p', n - 1);
    var q, q' := Permuted(rows, p), Permuted(rows[..n - 1], p');
    var r := q'[..k] + [rows[n - 1]] + q'[k..];
    forall i | 0 <= i < n ensures q[i] == r[i] {
      if i > k {
        assert p'[i - 1] == p[i];
      }
    }
    assert q == r;
  }

  /** Shuffling keeps every row and only moves whole rows: the rows form the
      same multiset. A row is a (q, p) state or the (t, t + diff_time) view
      pair, so the two views of a pair move together. */
  lemma {:induction false} PermutedMultiset<R>(rows: seq<R>, p: seq<nat>)
    requires IsPermutation(p, |rows|)
    ensures multiset(Permuted(rows, p)) == multiset(rows)
    decreases |rows|
  {
    var n := |rows|;
    PermutationBounds(p, n);
    if n > 0 {
      assert Range(n)[n - 1] == n - 1;
      assert n - 1 in multiset(p);
      var k :| 0 <= k < |p| && p[k] == n - 1;
      var p': seq<nat> := p[..k] + p[k + 1..];
      PermutedSplit(rows, p, k);
      var rows' := rows[..n - 1];
      PermutedMultiset(rows', p');
      var q' := Permuted(rows', p');
      assert q' == q'[..k] + q'[k..];
      assert rows == rows' + [rows[n - 1]];
    }
  }

  /** `for x in data: rng.shuffle(x, axis=0)`: each trajectory's rows are
      permuted in place, by its own permutation. */
  method ShuffleTrajectories<R>(data: array<seq<R>>, perms: seq<seq<nat>>)
    requires |perms| == data.Length
    requires forall i :: 0 <= i < data.Length ==> IsPermutation(perms[i], |data[i]|)
    modifies data
    ensures forall i :: 0 <= i < data.Length ==> data[i] == Permuted(old(data[i]), perms[i])
  {
    for i := 0 to data.Length
      invariant forall j :: 0 <= j < i ==> data[j] == Permuted(old(data[j]), perms[j])
      invariant forall j :: i <= j < data.Length ==> data[j] == old(data[j])
    {
      data[i] := Permuted(data[i], perms[i]);
    }
  }

  /** Image mode pairs the times before it shuffles. The shuffle permutes the
      angle rows computed from those pairs, not the pairs themselves; since
      each angle row depends only on its own pair and the one energy of its
      trajectory, that is the same as permuting the pairs. Each
      (t, t + diff_time) pair moves as one row, so after the shuffle row k of
      trajectory i still pairs a drawn time with that same time `diffTime`
      later, and no pair is lost or duplicated. */
  lemma ShuffledPairsStayPaired(t: seq<seq<real>>, diffTime: real, i: nat, p: seq<nat>)
    requires i < |t| && IsPermutation(p, |t[i]|)
    ensures |Permuted(PairTimes(t, diffTime)[i], p)| == |t[i]|
    ensures forall k :: 0 <= k < |t[i]| ==> (p[k] < |t[i]|
      && Permuted(PairTimes(t, diffTime)[i], p)[k] == TimePair(t[i][p[k]], t[i][p[k]] + diffTime))
    ensures multiset(Permuted(PairTimes(t, diffTime)[i], p)) == multiset(PairTimes(t, diffTime)[i])
  {
    PermutationBounds(p, |t[i]|);
    PermutedMultiset(PairTimes(t, diffTime)[i], p);
  }
}
