/** The image branch of `pendulum_train_gen`: the 5 x N index table built by
    broadcasting, the scatter write of zeros into the all-ones pixel array
    `pxls[b, t, x, y, c]`, and the final axis swap to `[b, t, c, y, x]`.
    The bob offsets `round(cos q * str_len)` and `round(sin q * str_len)` are
    inputs: only their bound |offset| <= |str_len| is used. */
module Raster {
  import opened Wrappers
  import opened NumpyIndex

  /** batch_size, traj_samples, img_size and bob_size. */
  datatype Params = Params(batch: nat, samples: nat, imgSize: nat, bobSize: nat)

  function Centre(p: Params): int {
    p.imgSize / 2
  }

  /** `str_len = img_size - 2 - img_size // 2 - bob_size`. */
  function StringLength(p: Params): int {
    p.imgSize - 2 - p.imgSize / 2 - p.bobSize
  }

  /** The side `2 * bob_size + 1` of the bob square. */
  function Side(p: Params): nat {
    2 * p.bobSize + 1
  }

  /** `bob_area = (2 * bob_size + 1) ** 2`. */
  function BobArea(p: Params): nat {
    Side(p) * Side(p)
  }

  const ChannelCount: nat := 3

  /** `c = [[1, 1], [0, 2]]`: the channel written by pick `m` for view `v`. */
  function Channel(m: nat, v: nat): nat
    requires m < 2 && v < 2
  {
    if m == 0 then 1 else if v == 0 then 0 else 2
  }

  /** The channels darkened by view `v`: {0, 1} for the first, {1, 2} for the
      second. */
  predicate InViewChannels(v: nat, c: int) {
    if v == 0 then c == 0 || c == 1 else c == 1 || c == 2
  }

  function Abs(i: int): nat {
    if i < 0 then -i else i
  }

  /** The rounded bob offsets of one view, relative to the image centre. */
  datatype Offset = Offset(dx: int, dy: int)

  /** `offs[b][t][v]` for every trajectory b, sample t and view v, each bounded
      by |str_len| as a rounded `cos`/`sin` times `str_len` is. */
  predicate WellFormed(p: Params, offs: seq<seq<seq<Offset>>>) {
    && |offs| == p.batch
    && (forall b :: 0 <= b < p.batch ==> |offs[b]| == p.samples)
    && (forall b, t :: 0 <= b < p.batch && 0 <= t < p.samples ==> |offs[b][t]| == 2)
    && (forall b, t, v :: 0 <= b < p.batch && 0 <= t < p.samples && 0 <= v < 2 ==>
          Abs(offs[b][t][v].dx) <= Abs(StringLength(p)) && Abs(offs[b][t][v].dy) <= Abs(StringLength(p)))
  }

  /** A pixel position, and also a column of the index table:
      (batch, traj, x, y, channel). */
  datatype Pixel = Pixel(b: int, t: int, x: int, y: int, c: int)

  /** The bob centre `center + round(...)` of view v of sample (b, t). */
  function BobX(p: Params, offs: seq<seq<seq<Offset>>>, b: nat, t: nat, v: nat): int
    requires WellFormed(p, offs) && b < p.batch && t < p.samples && v < 2
  {
    Centre(p) + offs[b][t][v].dx
  }

  function BobY(p: Params, offs: seq<seq<seq<Offset>>>, b: nat, t: nat, v: nat): int
    requires WellFormed(p, offs) && b < p.batch && t < p.samples && v < 2
  {
    Centre(p) + offs[b][t][v].dy
  }

  /** Pixel (x, y, c) of sample (b, t) belongs to the bob of view v. */
  predicate InBob(p: Params, offs: seq<seq<seq<Offset>>>, b: nat, t: nat, v: nat, x: int, y: int, c: int)
    requires WellFormed(p, offs) && b < p.batch && t < p.samples && v < 2
  {
    && Abs(x - BobX(p, offs, b, t, v)) <= p.bobSize
    && Abs(y - BobY(p, offs, b, t, v)) <= p.bobSize
    && InViewChannels(v, c)
  }

  /** The pixels the rasterizer is meant to darken: inside the bob square of
      either view of the same sample, in one of that view's channels. */
  predicate Dark(p: Params, offs: seq<seq<seq<Offset>>>, px: Pixel)
    requires WellFormed(p, offs)
  {
    && 0 <= px.b < p.batch && 0 <= px.t < p.samples
    && (InBob(p, offs, px.b, px.t, 0, px.x, px.y, px.c) || InBob(p, offs, px.b, px.t, 1, px.x, px.y, px.c))
  }

  // ---------------------------------------------------------------- the index table

  function Flatten<T>(ss: seq<seq<T>>): seq<T> {
    if |ss| == 0 then [] else ss[0] + Flatten(ss[1..])
  }

  lemma {:induction false} FlattenLength<T>(ss: seq<seq<T>>, n: nat)
    requires forall i :: 0 <= i < |ss| ==> |ss[i]| == n
    ensures |Flatten(ss)| == |ss| * n
  {
    if |ss| > 0 {
      FlattenLength(ss[1..], n);
    }
  }

  lemma {:induction false} FlattenMember<T>(ss: seq<seq<T>>, x: T)
    ensures x in Flatten(ss) <==> exists i {:trigger ss[i]} :: 0 <= i < |ss| && x in ss[i]
  {
    if |ss| > 0 {
      FlattenMember(ss[1..], x);
      assert forall i :: 1 <= i < |ss| ==> ss[i] == ss[1..][i - 1];
      if x in Flatten(ss[1..]) {
        var i :| 0 <= i < |ss[1..]| && x in ss[1..][i];
        assert x in ss[i + 1];
      }
    }
  }

  /** One column: bob row offset a - bob_size (y), bob column offset
      bx - bob_size (x), channel pick m, trajectory b, sample t, view v. */
  function ColumnAt(p: Params, offs: seq<seq<seq<Offset>>>, a: nat, bx: nat, m: nat, b: nat, t: nat, v: nat): Pixel
    requires WellFormed(p, offs) && m < 2 && b < p.batch && t < p.samples && v < 2
  {
    Pixel(b, t, BobX(p, offs, b, t, v) + bx - p.bobSize, BobY(p, offs, b, t, v) + a - p.bobSize, Channel(m, v))
  }

  /** `col` is the combination (a, bx, m, b, t, v) of the broadcast. */
  predicate IsColumn(p: Params, offs: seq<seq<seq<Offset>>>, col: Pixel, a: int, bx: int, m: int, b: int, t: int, v: int)
    requires WellFormed(p, offs)
  {
    && 0 <= a < Side(p) && 0 <= bx < Side(p) && 0 <= m < 2
    && 0 <= b < p.batch && 0 <= t < p.samples && 0 <= v < 2
    && col == ColumnAt(p, offs, a, bx, m, b, t, v)
  }

  // The axes of the broadcast index array, from the slowest to the fastest
  // varying after `swapaxes(idx, 0, 2)` and the reshape to (5, N):
  // a, bx (together the bob_area axis), m, b, t, v.

  function ViewColumns(p: Params, offs: seq<seq<seq<Offset>>>, a: nat, bx: nat, m: nat, b: nat, t: nat): (r: seq<Pixel>)
    requires WellFormed(p, offs) && m < 2 && b < p.batch && t < p.samples
    ensures |r| == 2
  {
    seq(2, v requires 0 <= v < 2 => ColumnAt(p, offs, a, bx, m, b, t, v))
  }

  function SampleColumns(p: Params, offs: seq<seq<seq<Offset>>>, a: nat, bx: nat, m: nat, b: nat): (r: seq<Pixel>)
    requires WellFormed(p, offs) && m < 2 && b < p.batch
    ensures |r| == p.samples * 2
  {
    var ss := seq(p.samples, t requires 0 <= t < p.samples => ViewColumns(p, offs, a, bx, m, b, t));
    FlattenLength(ss, 2);
    Flatten(ss)
  }

  function BatchColumns(p: Params, offs: seq<seq<seq<Offset>>>, a: nat, bx: nat, m: nat): (r: seq<Pixel>)
    requires WellFormed(p, offs) && m < 2
    ensures |r| == p.batch * (p.samples * 2)
  {
    var ss := seq(p.batch, b requires 0 <= b < p.batch => SampleColumns(p, offs, a, bx, m, b));
    FlattenLength(ss, p.samples * 2);
    Flatten(ss)
  }

  function PickColumns(p: Params, offs: seq<seq<seq<Offset>>>, a: nat, bx: nat): (r: seq<Pixel>)
    requires WellFormed(p, offs)
    ensures |r| == 2 * (p.batch * (p.samples * 2))
  {
    var ss := seq(2, m requires 0 <= m < 2 => BatchColumns(p, offs, a, bx, m));
    FlattenLength(ss, p.batch * (p.samples * 2));
    Flatten(ss)
  }

  function RowColumns(p: Params, offs: seq<seq<seq<Offset>>>, a: nat): (r: seq<Pixel>)
    requires WellFormed(p, offs)
    ensures |r| == Side(p) * (2 * (p.batch * (p.samples * 2)))
  {
    var ss := seq(Side(p), bx requires 0 <= bx => PickColumns(p, offs, a, bx));
    FlattenLength(ss, 2 * (p.batch * (p.samples * 2)));
    Flatten(ss)
  }

  lemma ColumnCount(S: nat, B: nat, T: nat)
    ensures S * (2 * (B * (T * 2))) == 4 * (B * T) * S
    ensures S * (S * (2 * (B * (T * 2)))) == 4 * B * T * (S * S)
  {
    assert 2 * (B * (T * 2)) == 4 * (B * T);
    assert S * (4 * (B * T)) == 4 * (B * T) * S;
    assert S * (4 * (B * T) * S) == 4 * (B * T) * (S * S);
  }

  /** The columns of the index table, in numpy's order. */
  function Columns(p: Params, offs: seq<seq<seq<Offset>>>): (r: seq<Pixel>)
    requires WellFormed(p, offs)
    ensures |r| == 4 * p.batch * p.samples * BobArea(p)
  {
    var ss := seq(Side(p), a requires 0 <= a => RowColumns(p, offs, a));
    FlattenLength(ss, Side(p) * (2 * (p.batch * (p.samples * 2))));
    ColumnCount(Side(p), p.batch, p.samples);
    Flatten(ss)
  }

  /** The index table `idx` of shape (5, 4 * batch * traj * bob_area): the rows
      hold the batch, traj, x, y and channel of every column. */
  function IndexTable(p: Params, offs: seq<seq<seq<Offset>>>): (rows: seq<seq<int>>)
    requires WellFormed(p, offs)
    ensures |rows| == 5
    ensures forall r :: 0 <= r < 5 ==> |rows[r]| == 4 * p.batch * p.samples * BobArea(p)
    ensures forall k :: 0 <= k < |Columns(p, offs)| ==>
      Columns(p, offs)[k] == Pixel(rows[0][k], rows[1][k], rows[2][k], rows[3][k], rows[4][k])
  {
    var cols := Columns(p, offs);
    [ seq(|cols|, k requires 0 <= k < |cols| => cols[k].b),
      seq(|cols|, k requires 0 <= k < |cols| => cols[k].t),
      seq(|cols|, k requires 0 <= k < |cols| => cols[k].x),
      seq(|cols|, k requires 0 <= k < |cols| => cols[k].y),
      seq(|cols|, k requires 0 <= k < |cols| => cols[k].c) ]
  }

  // Membership, one level of the broadcast at a time.

  lemma SampleColumnsMember(p: Params, offs: seq<seq<seq<Offset>>>, a: nat, bx: nat, m: nat, b: nat, col: Pixel)
    requires WellFormed(p, offs) && a < Side(p) && bx < Side(p) && m < 2 && b < p.batch
    ensures col in SampleColumns(p, offs, a, bx, m, b) <==> exists t, v :: IsColumn(p, offs, col, a, bx, m, b, t, v)
  {
    var ss := seq(p.samples, t requires 0 <= t < p.samples => ViewColumns(p, offs, a, bx, m, b, t));
    FlattenMember(ss, col);
    if col in SampleColumns(p, offs, a, bx, m, b) {
      var t :| 0 <= t < p.samples && col in ss[t];
      var v :| 0 <= v < 2 && ViewColumns(p, offs, a, bx, m, b, t)[v] == col;
      assert IsColumn(p, offs, col, a, bx, m, b, t, v);
    }
    if exists t, v :: IsColumn(p, offs, col, a, bx, m, b, t, v) {
      var t, v :| IsColumn(p, offs, col, a, bx, m, b, t, v);
      assert ss[t][v] == col;
    }
  }

  lemma BatchColumnsMember(p: Params, offs: seq<seq<seq<Offset>>>, a: nat, bx: nat, m: nat, col: Pixel)
    requires WellFormed(p, offs) && a < Side(p) && bx < Side(p) && m < 2
    ensures col in BatchColumns(p, offs, a, bx, m) <==> exists b, t, v :: IsColumn(p, offs, col, a, bx, m, b, t, v)
  {
    var ss := seq(p.batch, b requires 0 <= b < p.batch => SampleColumns(p, offs, a, bx, m, b));
    FlattenMember(ss, col);
    if col in BatchColumns(p, offs, a, bx, m) {
      var b :| 0 <= b < p.batch && col in ss[b];
      SampleColumnsMember(p, offs, a, bx, m, b, col);
    }
    if exists b, t, v :: IsColumn(p, offs, col, a, bx, m, b, t, v) {
      var b, t, v :| IsColumn(p, offs, col, a, bx, m, b, t, v);
      SampleColumnsMember(p, offs, a, bx, m, b, col);
      assert col in ss[b];
    }
  }

  lemma PickColumnsMember(p: Params, offs: seq<seq<seq<Offset>>>, a: nat, bx: nat, col: Pixel)
    requires WellFormed(p, offs) && a < Side(p) && bx < Side(p)
    ensures col in PickColumns(p, offs, a, bx) <==> exists m, b, t, v :: IsColumn(p, offs, col, a, bx, m, b, t, v)
  {
    var ss := seq(2, m requires 0 <= m < 2 => BatchColumns(p, offs, a, bx, m));
    FlattenMember(ss, col);
    if col in PickColumns(p, offs, a, bx) {
      var m :| 0 <= m < 2 && col in ss[m];
      BatchColumnsMember(p, offs, a, bx, m, col);
    }
    if exists m, b, t, v :: IsColumn(p, offs, col, a, bx, m, b, t, v) {
      var m, b, t, v :| IsColumn(p, offs, col, a, bx, m, b, t, v);
      BatchColumnsMember(p, offs, a, bx, m, col);
      assert col in ss[m];
    }
  }

  lemma RowColumnsMember(p: Params, offs: seq<seq<seq<Offset>>>, a: nat, col: Pixel)
    requires WellFormed(p, offs) && a < Side(p)
    ensures col in RowColumns(p, offs, a) <==> exists bx, m, b, t, v :: IsColumn(p, offs, col, a, bx, m, b, t, v)
  {
    var ss := seq(Side(p), bx requires 0 <= bx => PickColumns(p, offs, a, bx));
    FlattenMember(ss, col);
    if col in RowColumns(p, offs, a) {
      var bx :| 0 <= bx < Side(p) && col in ss[bx];
      PickColumnsMember(p, offs, a, bx, col);
    }
    if exists bx, m, b, t, v :: IsColumn(p, offs, col, a, bx, m, b, t, v) {
      var bx, m, b, t, v :| IsColumn(p, offs, col, a, bx, m, b, t, v);
      PickColumnsMember(p, offs, a, bx, col);
      assert col in ss[bx];
    }
  }

  /** Every column is one of the broadcast combinations (a, bx, m, b, t, v), and
      every combination is a column. */
  lemma ColumnsMember(p: Params, offs: seq<seq<seq<Offset>>>, col: Pixel)
    requires WellFormed(p, offs)
    ensures col in Columns(p, offs) <==> exists a, bx, m, b, t, v :: IsColumn(p, offs, col, a, bx, m, b, t, v)
  {
    var ss := seq(Side(p), a requires 0 <= a => RowColumns(p, offs, a));
    FlattenMember(ss, col);
    if col in Columns(p, offs) {
      var a :| 0 <= a < Side(p) && col in ss[a];
      RowColumnsMember(p, offs, a, col);
    }
    if exists a, bx, m, b, t, v :: IsColumn(p, offs, col, a, bx, m, b, t, v) {
      var a, bx, m, b, t, v :| IsColumn(p, offs, col, a, bx, m, b, t, v);
      RowColumnsMember(p, offs, a, col);
      assert col in ss[a];
    }
  }

  // ---------------------------------------------------------------- what the table says

  /** The columns are exactly the pixels meant to be dark: each column lies in
      the bob square of one view of its own (b, t) image and in one of that
      view's channels, so no column reaches into another image; and every such
      pixel is a column. */
  lemma ColumnsAreDark(p: Params, offs: seq<seq<seq<Offset>>>, px: Pixel)
    requires WellFormed(p, offs)
    ensures px in Columns(p, offs) <==> Dark(p, offs, px)
  {
    ColumnsMember(p, offs, px);
    if px in Columns(p, offs) {
      var a, bx, m, b, t, v :| IsColumn(p, offs, px, a, bx, m, b, t, v);
      assert InBob(p, offs, b, t, v, px.x, px.y, px.c);
    }
    if Dark(p, offs, px) {
      var v := if InBob(p, offs, px.b, px.t, 0, px.x, px.y, px.c) then 0 else 1;
      var a := px.y - BobY(p, offs, px.b, px.t, v) + p.bobSize;
      var bx := px.x - BobX(p, offs, px.b, px.t, v) + p.bobSize;
      var m := if px.c == 1 then 0 else 1;
      assert IsColumn(p, offs, px, a, bx, m, px.b, px.t, v);
    }
  }

  /** With `str_len >= 0` every written coordinate `center + offset + d`,
      |d| <= bob_size, lies in [1, img_size - 2]: the bob never leaves the image
      and never touches its one-pixel border. */
  lemma ColumnsInBounds(p: Params, offs: seq<seq<seq<Offset>>>, px: Pixel)
    requires WellFormed(p, offs) && StringLength(p) >= 0 && px in Columns(p, offs)
    ensures 0 <= px.b < p.batch && 0 <= px.t < p.samples
    ensures 1 <= px.x <= p.imgSize - 2 && 1 <= px.y <= p.imgSize - 2
    ensures 0 <= px.c < ChannelCount
  {
    ColumnsMember(p, offs, px);
    var a, bx, m, b, t, v :| IsColumn(p, offs, px, a, bx, m, b, t, v);
  }

  // ---------------------------------------------------------------- the scatter write

  /** A 5-row table whose rows have equal length. */
  predicate IsTable(rows: seq<seq<int>>) {
    |rows| == 5 && forall r :: 0 <= r < 5 ==> |rows[r]| == |rows[0]|
  }

  predicate ValidColumn(shape: seq<nat>, rows: seq<seq<int>>, k: int)
    requires |shape| == 5 && IsTable(rows) && 0 <= k < |rows[0]|
  {
    && ValidIndex(rows[0][k], shape[0]) && ValidIndex(rows[1][k], shape[1]) && ValidIndex(rows[2][k], shape[2])
    && ValidIndex(rows[3][k], shape[3]) && ValidIndex(rows[4][k], shape[4])
  }

  predicate AllValid(shape: seq<nat>, rows: seq<seq<int>>)
    requires |shape| == 5 && IsTable(rows)
  {
    forall k :: 0 <= k < |rows[0]| ==> ValidColumn(shape, rows, k)
  }

  /** The pixel that column k writes. */
  function Target(shape: seq<nat>, rows: seq<seq<int>>, k: int): Pixel
    requires |shape| == 5 && IsTable(rows) && 0 <= k < |rows[0]|
  {
    Pixel(Wrap(rows[0][k], shape[0]), Wrap(rows[1][k], shape[1]), Wrap(rows[2][k], shape[2]),
          Wrap(rows[3][k], shape[3]), Wrap(rows[4][k], shape[4]))
  }

  /** Some column of the table writes pixel `px`. */
  ghost predicate Written(shape: seq<nat>, rows: seq<seq<int>>, px: Pixel)
    requires |shape| == 5 && IsTable(rows)
  {
    exists k :: 0 <= k < |rows[0]| && Target(shape, rows, k) == px
  }

  function ShapeOf(a: array5<int>): (shape: seq<nat>)
    ensures |shape| == 5
  {
    [a.Length0, a.Length1, a.Length2, a.Length3, a.Length4]
  }

  /** `pxls[idx[0], idx[1], idx[2], idx[3], idx[4]] = 0`: every index is checked
      first (IndexError, nothing written), then each column's pixel is set to 0;
      all other pixels keep their value. */
  method Scatter(pxls: array5<int>, rows: seq<seq<int>>) returns (ok: bool)
    requires IsTable(rows)
    modifies pxls
    ensures ok <==> AllValid(ShapeOf(pxls), rows)
    ensures !ok ==> unchanged(pxls)
    ensures ok ==> forall b, t, x, y, c ::
      0 <= b < pxls.Length0 && 0 <= t < pxls.Length1 && 0 <= x < pxls.Length2 && 0 <= y < pxls.Length3 && 0 <= c < pxls.Length4 ==>
        pxls[b, t, x, y, c] == if Written(ShapeOf(pxls), rows, Pixel(b, t, x, y, c)) then 0 else old(pxls[b, t, x, y, c])
  {
    var shape := ShapeOf(pxls);
    ok := forall k | 0 <= k < |rows[0]| :: ValidColumn(shape, rows, k);
    if ok {
      forall k | 0 <= k < |rows[0]|
        ensures 0 <= Wrap(rows[0][k], shape[0]) < pxls.Length0 && 0 <= Wrap(rows[1][k], shape[1]) < pxls.Length1
             && 0 <= Wrap(rows[2][k], shape[2]) < pxls.Length2 && 0 <= Wrap(rows[3][k], shape[3]) < pxls.Length3
             && 0 <= Wrap(rows[4][k], shape[4]) < pxls.Length4
      {
        assert ValidColumn(shape, rows, k);
      }
      forall k | 0 <= k < |rows[0]| {
        pxls[Wrap(rows[0][k], shape[0]), Wrap(rows[1][k], shape[1]), Wrap(rows[2][k], shape[2]),
             Wrap(rows[3][k], shape[3]), Wrap(rows[4][k], shape[4])] := 0;
      }
      forall b, t, x, y, c |
        0 <= b < pxls.Length0 && 0 <= t < pxls.Length1 && 0 <= x < pxls.Length2 && 0 <= y < pxls.Length3 && 0 <= c < pxls.Length4
        ensures pxls[b, t, x, y, c] == if Written(shape, rows, Pixel(b, t, x, y, c)) then 0 else old(pxls[b, t, x, y, c])
      {
        if Written(shape, rows, Pixel(b, t, x, y, c)) {
          var k :| 0 <= k < |rows[0]| && Target(shape, rows, k) == Pixel(b, t, x, y, c);
          assert Wrap(rows[0][k], shape[0]) == b && Wrap(rows[1][k], shape[1]) == t && Wrap(rows[2][k], shape[2]) == x
              && Wrap(rows[3][k], shape[3]) == y && Wrap(rows[4][k], shape[4]) == c;
        } else {
          forall k | 0 <= k < |rows[0]|
            ensures !(Wrap(rows[0][k], shape[0]) == b && Wrap(rows[1][k], shape[1]) == t && Wrap(rows[2][k], shape[2]) == x
                   && Wrap(rows[3][k], shape[3]) == y && Wrap(rows[4][k], shape[4]) == c)
          {
            assert Target(shape, rows, k) != Pixel(b, t, x, y, c);
          }
        }
      }
    }
  }

  /** The shape (batch, traj, img_size, img_size, 3) of `pxls`. */
  function PixelShape(p: Params): (shape: seq<nat>)
    ensures |shape| == 5
  {
    [p.batch, p.samples, p.imgSize, p.imgSize, ChannelCount]
  }

  /** With `str_len >= 0` numpy accepts every index of the table, none of them
      wraps, and the written pixels are exactly the dark ones. */
  lemma WrittenIsDark(p: Params, offs: seq<seq<seq<Offset>>>)
    requires WellFormed(p, offs) && StringLength(p) >= 0
    ensures AllValid(PixelShape(p), IndexTable(p, offs))
    ensures forall px :: Written(PixelShape(p), IndexTable(p, offs), px) <==> Dark(p, offs, px)
  {
    var shape, rows, cols := PixelShape(p), IndexTable(p, offs), Columns(p, offs);
    forall k | 0 <= k < |rows[0]|
      ensures ValidColumn(shape, rows, k) && Target(shape, rows, k) == cols[k]
    {
      ColumnsInBounds(p, offs, cols[k]);
    }
    forall px ensures Written(shape, rows, px) <==> Dark(p, offs, px) {
      ColumnsAreDark(p, offs, px);
      if px in cols {
        var k :| 0 <= k < |cols| && cols[k] == px;
        assert Target(shape, rows, k) == px;
      }
    }
  }

  /** The image branch from `pxls = np.ones(...)` to the returned array: None
      when numpy rejects an index; otherwise a fresh array of shape
      (batch, traj, 3, img_size, img_size) with `out[b, t, c, y, x]` the
      scattered `pxls[b, t, x, y, c]`. */
  method RenderImages(p: Params, offs: seq<seq<seq<Offset>>>) returns (r: Option<array5<int>>)
    requires WellFormed(p, offs)
    ensures r.None? <==> !AllValid(PixelShape(p), IndexTable(p, offs))
    ensures r.Some? ==> fresh(r.value)
    ensures r.Some? ==> var out := r.value;
      && out.Length0 == p.batch && out.Length1 == p.samples && out.Length2 == ChannelCount
      && out.Length3 == p.imgSize && out.Length4 == p.imgSize
      && forall b, t, c, y, x ::
           0 <= b < p.batch && 0 <= t < p.samples && 0 <= c < ChannelCount && 0 <= y < p.imgSize && 0 <= x < p.imgSize ==>
             out[b, t, c, y, x] == if Written(PixelShape(p), IndexTable(p, offs), Pixel(b, t, x, y, c)) then 0 else 1
    ensures StringLength(p) >= 0 ==> r.Some? && forall b, t, c, y, x ::
           0 <= b < p.batch && 0 <= t < p.samples && 0 <= c < ChannelCount && 0 <= y < p.imgSize && 0 <= x < p.imgSize ==>
             r.value[b, t, c, y, x] == if Dark(p, offs, Pixel(b, t, x, y, c)) then 0 else 1
  {
    if StringLength(p) >= 0 {
      WrittenIsDark(p, offs);
    }
    var pxls := new int[p.batch, p.samples, p.imgSize, p.imgSize, ChannelCount]((_, _, _, _, _) => 1);
    var rows := IndexTable(p, offs);
    var ok := Scatter(pxls, rows);
    if !ok {
      return None;
    }
    var out := new int[p.batch, p.samples, ChannelCount, p.imgSize, p.imgSize](
      (b, t, c, y, x) reads pxls
        requires 0 <= b < pxls.Length0 && 0 <= t < pxls.Length1 && 0 <= x < pxls.Length2
              && 0 <= y < pxls.Length3 && 0 <= c < pxls.Length4
        => pxls[b, t, x, y, c]);
    r := Some(out);
  }
}
