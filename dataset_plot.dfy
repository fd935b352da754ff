/** The table filling of `scripts/dataset_plot.py`: drop the experiments that
    are not "dataset" runs of trials 0..4, turn the crop sizes into strings,
    and write each run's Spearman results into the (size, trial) cell of the
    supervised or unsupervised tables. Reading the JSON file, the averaging and
    the plots are not modelled; the experiments are given in the file's key
    order. */
module DatasetPlot {
  import opened Wrappers
  import opened Strings

  /** One entry of `master_experiments.json`. */
  datatype Experiment = Experiment(name: string, fullSpearman: real, kSpearman: seq<real>)

  /** The script's exceptions: `int(name[0])` on a non-digit, `crop.index` of a
      size that is not listed, and a `k_spearman[1:-1]` that numpy cannot
      broadcast into a 7-slot row. */
  datatype PlotError = NotADigit | UnknownSize | SegmentShape

  const ExpName: string := "dataset"
  const CropSizes: seq<nat> := [640, 960, 1280, 1920, 2560, 5120]
  const TrialCount: nat := 5
  const SegmentCount: nat := 7

  // ---------------------------------------------------------------- filter

  /** `expname in name and int(name[0]) <= 4`: the experiments that are kept. */
  predicate Selected(name: string) {
    Contains(name, ExpName) && |name| > 0 && IsDigit(name[0]) && DigitValue(name[0]).value <= 4
  }

  /** `int(name[0])` is only evaluated for "dataset" names (`or` short-circuits),
      and raises on a non-digit. */
  predicate FilterRaises(name: string) {
    Contains(name, ExpName) && (|name| == 0 || !IsDigit(name[0]))
  }

  /** The kept experiments, in key order. */
  function Kept(data: seq<Experiment>): (r: seq<Experiment>)
    ensures |r| <= |data|
    ensures forall k :: 0 <= k < |r| ==> r[k] in data && Selected(r[k].name)
  {
    if |data| == 0 then []
    else Kept(data[..|data| - 1]) + (if Selected(data[|data| - 1].name) then [data[|data| - 1]] else [])
  }

  /** Exactly the selected experiments survive the filter. */
  lemma {:induction false} KeptMembers(data: seq<Experiment>, e: Experiment)
    ensures e in Kept(data) <==> e in data && Selected(e.name)
  {
    if |data| > 0 {
      KeptMembers(data[..|data| - 1], e);
      assert data == data[..|data| - 1] + [data[|data| - 1]];
    }
  }

  /** The loop that pops every key whose experiment is not selected; popping
      from the ordered dict leaves the kept entries in their order. */
  method FilterExperiments(data: seq<Experiment>) returns (r: Result<seq<Experiment>, PlotError>)
    ensures r.Err? <==> exists i :: 0 <= i < |data| && FilterRaises(data[i].name)
    ensures r.Err? ==> r.error == NotADigit
    ensures r.Ok? ==> r.value == Kept(data)
  {
    var kept := [];
    for i := 0 to |data|
      invariant kept == Kept(data[..i])
      invariant forall j :: 0 <= j < i ==> !FilterRaises(data[j].name)
    {
      var name := data[i].name;
      if !Contains(name, ExpName) {
        // popped
      } else if !IsDigit(name[0]) {
        return Err(NotADigit);
      } else if DigitValue(name[0]).value <= 4 {
        kept := kept + [data[i]];
      }
      assert data[..i + 1][..i] == data[..i];
    }
    assert data[..|data|] == data;
    r := Ok(kept);
  }

  /** Every surviving trial digit is 0..4, a column of the 5-column tables. */
  lemma KeptTrialsInRange(data: seq<Experiment>, e: Experiment)
    requires e in Kept(data)
    ensures |e.name| > 0 && IsDigit(e.name[0]) && DigitValue(e.name[0]).value < TrialCount
  {
    KeptMembers(data, e);
  }

  // ---------------------------------------------------------------- crop

  /** A `crop` list entry: an int size, or the string it became. */
  datatype CropEntry = Size(n: nat) | Text(s: string)

  /** `crop = [640, ...]; orig_crop = crop; crop[i] = str(crop[i])`: `orig_crop`
      names the same list, so it ends up holding the strings too. */
  method StringifyCrop() returns (crop: array<CropEntry>, origCrop: array<CropEntry>)
    ensures crop == origCrop
    ensures crop.Length == |CropSizes|
    ensures forall i :: 0 <= i < crop.Length ==> crop[i] == Text(DecimalString(CropSizes[i]))
    ensures forall i :: 0 <= i < origCrop.Length ==> origCrop[i].Text?
  {
    crop := new CropEntry[|CropSizes|](i requires 0 <= i < |CropSizes| => Size(CropSizes[i]));
    origCrop := crop;
    for i := 0 to crop.Length
      invariant forall j :: 0 <= j < i ==> crop[j] == Text(DecimalString(CropSizes[j]))
      invariant forall j :: i <= j < crop.Length ==> crop[j] == Size(CropSizes[j])
    {
      crop[i] := Text(DecimalString(crop[i].n));
    }
  }

  /** The evidently intended version, `orig_crop = list(crop)`: `orig_crop`
      keeps the numeric sizes that the plots later use as their x values. */
  method StringifyCropCopied() returns (crop: array<CropEntry>, origCrop: array<CropEntry>)
    ensures crop != origCrop
    ensures crop.Length == |CropSizes| && origCrop.Length == |CropSizes|
    ensures forall i :: 0 <= i < crop.Length ==> crop[i] == Text(DecimalString(CropSizes[i]))
    ensures forall i :: 0 <= i < origCrop.Length ==> origCrop[i] == Size(CropSizes[i])
  {
    crop := new CropEntry[|CropSizes|](i requires 0 <= i < |CropSizes| => Size(CropSizes[i]));
    origCrop := new CropEntry[crop.Length](i reads crop requires 0 <= i < crop.Length => crop[i]);
    for i := 0 to crop.Length
      invariant forall j :: 0 <= j < i ==> crop[j] == Text(DecimalString(CropSizes[j]))
      invariant forall j :: i <= j < crop.Length ==> crop[j] == Size(CropSizes[j])
      invariant forall j :: 0 <= j < origCrop.Length ==> origCrop[j] == Size(CropSizes[j])
    {
      crop[i] := Text(DecimalString(crop[i].n));
    }
  }

  /** `crop` after the loop. */
  function CropStrings(): (crop: seq<CropEntry>)
    ensures |crop| == |CropSizes|
    ensures forall i :: 0 <= i < |crop| ==> crop[i] == Text(DecimalString(CropSizes[i]))
  {
    seq(|CropSizes|, i requires 0 <= i < |CropSizes| => Text(DecimalString(CropSizes[i])))
  }

  /** `xs.index(x)`: the first position holding `x`, None for ValueError. */
  function IndexOf(xs: seq<CropEntry>, x: CropEntry): (r: Option<nat>)
    ensures r.None? <==> x !in xs
    ensures r.Some? ==> r.value < |xs| && xs[r.value] == x && forall j :: 0 <= j < r.value ==> xs[j] != x
  {
    if |xs| == 0 then None
    else if xs[0] == x then Some(0)
    else match IndexOf(xs[1..], x)
      case None => None
      case Some(k) => Some(k + 1)
  }

  /** The six size strings are distinct, so `crop.index` of a listed size finds
      that size's own row. */
  lemma CropRowOfSize(i: nat)
    requires i < |CropSizes|
    ensures IndexOf(CropStrings(), Text(DecimalString(CropSizes[i]))) == Some(i)
  {
    var crop := CropStrings();
    var r := IndexOf(crop, Text(DecimalString(CropSizes[i])));
    assert crop[i] == Text(DecimalString(CropSizes[i]));
    if r.value != i {
      DecimalStringInjective(CropSizes[r.value], CropSizes[i]);
    }
  }

  // ---------------------------------------------------------------- names

  /** `exp[:-4]` when `exp.endswith("_sup")`, otherwise `exp`. */
  function StripSup(name: string): (stripped: string)
    ensures EndsWith(name, "_sup") ==> stripped + "_sup" == name
    ensures !EndsWith(name, "_sup") ==> stripped == name
  {
    if EndsWith(name, "_sup") then
      assert name == name[..|name| - 4] + name[|name| - 4..];
      name[..|name| - 4]
    else name
  }

  /** `exp[exp.rfind("_") + 1:]`: what follows the last '_', or the whole
      string when there is none (rfind gives -1). */
  function SizeField(s: string): (num: string)
    ensures '_' !in num
    ensures '_' !in s ==> num == s
    ensures '_' in s ==> exists head :: s == head + "_" + num
  {
    var i := LastIndexOf(s, '_');
    assert i >= 0 ==> s == s[..i] + "_" + s[i + 1..];
    assert forall k :: i + 1 <= k < |s| ==> s[k] == s[i + 1..][k - i - 1];
    s[i + 1..]
  }

  datatype Parsed = Parsed(trial: nat, supervised: bool, num: string)

  /** `trial = int(exp[0])`: the digit the name starts with; the `_sup` flag,
      with the name that is left once it is stripped; and `num`, the part of
      that name after its last '_' (all of it when it has none). */
  function ParseName(name: string): (r: Parsed)
    requires |name| > 0 && IsDigit(name[0])
    ensures r.trial < 10 && DigitChar(r.trial) == name[0]
    ensures r.trial == DigitValue(name[0]).value
    ensures r.supervised <==> EndsWith(name, "_sup")
    ensures r.supervised ==> StripSup(name) + "_sup" == name
    ensures !r.supervised ==> StripSup(name) == name
    ensures '_' !in r.num
    ensures '_' !in StripSup(name) ==> r.num == StripSup(name)
    ensures '_' in StripSup(name) ==> exists head :: StripSup(name) == head + "_" + r.num
    ensures r.num == SizeField(StripSup(name))
  {
    Parsed(DigitValue(name[0]).value, EndsWith(name, "_sup"), SizeField(StripSup(name)))
  }

  /** `np.array(k_spearman)[1:-1]` assigned into a 7-slot row: 7 values are
      copied, a single value is broadcast, anything else raises. */
  function Segments(k: seq<real>): (r: Option<seq<real>>)
    ensures r.Some? <==> |k| == SegmentCount + 2 || |k| == 3
    ensures r.Some? ==> |r.value| == SegmentCount
    ensures |k| == SegmentCount + 2 ==> r == Some(k[1..|k| - 1])
    ensures |k| == 3 ==> r.Some? && forall s :: 0 <= s < SegmentCount ==> r.value[s] == k[1]
  {
    var inner := if |k| >= 2 then k[1..|k| - 1] else [];
    if |inner| == SegmentCount then Some(inner)
    else if |inner| == 1 then Some(seq(SegmentCount, _ => inner[0]))
    else None
  }

  // ---------------------------------------------------------------- tables

  /** The name is one the filter lets through to the table loop. */
  predicate Parsable(e: Experiment) {
    |e.name| > 0 && IsDigit(e.name[0]) && DigitValue(e.name[0]).value < TrialCount
  }

  /** The cell writes one experiment makes: into the supervised tables or the
      others, at (row, trial), the full Spearman value and the 7-slot row. */
  datatype Write = Write(supervised: bool, row: nat, trial: nat, full: real, segments: seq<real>)

  /** `crop.index(num)` of the experiment's size field, None for ValueError. */
  function RowOf(e: Experiment): (row: Option<nat>)
    requires Parsable(e)
    ensures row.Some? <==> Text(ParseName(e.name).num) in CropStrings()
    ensures row.Some? ==> row.value < |CropSizes| && CropStrings()[row.value] == Text(ParseName(e.name).num)
  {
    IndexOf(CropStrings(), Text(ParseName(e.name).num))
  }

  /** One iteration of the table loop: parse the name, look the size up in
      `crop` and shape the `k_spearman` row, or fail. */
  function WriteOf(e: Experiment): (r: Result<Write, PlotError>)
    requires Parsable(e)
    ensures r.Ok? ==> r.value.trial < TrialCount && r.value.row < |CropSizes| && |r.value.segments| == SegmentCount
    ensures r.Err? ==> r.error == UnknownSize || r.error == SegmentShape
  {
    var parsed := ParseName(e.name);
    var row := RowOf(e);
    var segments := Segments(e.kSpearman);
    if row.None? then Err(UnknownSize)
    else if segments.None? then Err(SegmentShape)
    else Ok(Write(parsed.supervised, row.value, parsed.trial, e.fullSpearman, segments.value))
  }

  /** What one iteration writes: the cell named by the trial digit, the
      `_sup` suffix and the size field; the failures are exactly an unlisted
      size and an unshapeable `k_spearman`. */
  lemma WriteOfRoutes(e: Experiment)
    requires Parsable(e)
    ensures WriteOf(e).Err? <==> Text(ParseName(e.name).num) !in CropStrings() || Segments(e.kSpearman).None?
    ensures WriteOf(e).Err? ==> WriteOf(e).error == (if Text(ParseName(e.name).num) !in CropStrings() then UnknownSize else SegmentShape)
    ensures WriteOf(e).Ok? ==> var w := WriteOf(e).value;
      && w.supervised == EndsWith(e.name, "_sup")
      && w.trial == DigitValue(e.name[0]).value
      && CropStrings()[w.row] == Text(SizeField(StripSup(e.name)))
      && w.full == e.fullSpearman
      && Segments(e.kSpearman) == Some(w.segments)
  {
  }

  /** A run named after the i-th listed size lands in row i. */
  lemma WriteOfRow(e: Experiment, i: nat)
    requires Parsable(e) && i < |CropSizes|
    requires SizeField(StripSup(e.name)) == DecimalString(CropSizes[i])
    requires Segments(e.kSpearman).Some?
    ensures WriteOf(e).Ok? && WriteOf(e).value.row == i
  {
    CropRowOfSize(i);
  }

  /** The experiment is written without an exception. */
  predicate Routable(e: Experiment) {
    Parsable(e) && WriteOf(e).Ok?
  }

  predicate WellShaped(ws: seq<Write>) {
    forall k :: 0 <= k < |ws| ==> |ws[k].segments| == SegmentCount
  }

  predicate Routes(w: Write, sup: bool, row: nat, trial: nat) {
    w.supervised == sup && w.row == row && w.trial == trial
  }

  /** The last write, in key order, to cell (row, trial) of the tables of kind
      `sup`. */
  function LastWriter(ws: seq<Write>, sup: bool, row: nat, trial: nat): (r: Option<nat>)
    ensures r.Some? ==> (r.value < |ws| && Routes(ws[r.value], sup, row, trial)
      && forall k :: r.value < k < |ws| ==> !Routes(ws[k], sup, row, trial))
    ensures r.None? ==> forall k :: 0 <= k < |ws| ==> !Routes(ws[k], sup, row, trial)
  {
    if |ws| == 0 then None
    else if Routes(ws[|ws| - 1], sup, row, trial) then Some(|ws| - 1)
    else LastWriter(ws[..|ws| - 1], sup, row, trial)
  }

  /** The final value of cell (row, trial) of `res` (sup false) or `sres`
      (sup true): 0 when nothing writes it. */
  function FullValue(ws: seq<Write>, sup: bool, row: nat, trial: nat): real {
    match LastWriter(ws, sup, row, trial)
    case None => 0.0
    case Some(k) => ws[k].full
  }

  /** The final value of slot s of cell (row, trial) of `resp` or `sresp`. */
  function SegmentValue(ws: seq<Write>, sup: bool, row: nat, trial: nat, s: nat): real
    requires WellShaped(ws) && s < SegmentCount
  {
    match LastWriter(ws, sup, row, trial)
    case None => 0.0
    case Some(k) => ws[k].segments[s]
  }

  /** Appending a write changes only the cell it routes to. */
  lemma LastWriterStep(ws: seq<Write>, w: Write, sup: bool, row: nat, trial: nat)
    ensures LastWriter(ws + [w], sup, row, trial)
         == if Routes(w, sup, row, trial) then Some(|ws|) else LastWriter(ws, sup, row, trial)
  {
    assert (ws + [w])[..|ws|] == ws;
  }

  /** What each iteration of the loop would do, experiment by experiment. */
  function Outcomes(exps: seq<Experiment>): (outs: seq<Result<Write, PlotError>>)
    requires forall k :: 0 <= k < |exps| ==> Parsable(exps[k])
    ensures |outs| == |exps|
    ensures forall k :: 0 <= k < |exps| ==> outs[k] == WriteOf(exps[k])
  {
    seq(|exps|, k requires 0 <= k < |exps| => WriteOf(exps[k]))
  }

  /** Running the iterations in order: the writes, or the first exception. */
  function Collect(outs: seq<Result<Write, PlotError>>): (r: Result<seq<Write>, PlotError>)
  {
    if |outs| == 0 then Ok([])
    else match Collect(outs[..|outs| - 1])
      case Err(e) => Err(e)
      case Ok(ws) =>
        match outs[|outs| - 1]
        case Err(e) => Err(e)
        case Ok(w) => Ok(ws + [w])
  }

  /** The loop gets through all outcomes exactly when none is an exception,
      then makes every write in order; otherwise it stops at the first
      exception. */
  lemma {:induction false} CollectAll(outs: seq<Result<Write, PlotError>>)
    ensures Collect(outs).Ok? <==> forall k :: 0 <= k < |outs| ==> outs[k].Ok?
    ensures Collect(outs).Ok? ==> (|Collect(outs).value| == |outs|
      && forall k :: 0 <= k < |outs| ==> Collect(outs).value[k] == outs[k].value)
    ensures Collect(outs).Err? ==> exists k :: (0 <= k < |outs| && outs[k] == Err(Collect(outs).error)
      && forall j :: 0 <= j < k ==> outs[j].Ok?)
  {
    if |outs| > 0 {
      var pre := outs[..|outs| - 1];
      CollectAll(pre);
      assert forall k :: 0 <= k < |pre| ==> pre[k] == outs[k];
      if Collect(pre).Err? {
        var k :| 0 <= k < |pre| && pre[k] == Err(Collect(pre).error) && forall j :: 0 <= j < k ==> pre[j].Ok?;
        assert outs[k] == Err(Collect(outs).error);
      } else if outs[|outs| - 1].Err? {
        assert outs[|outs| - 1] == Err(Collect(outs).error);
      }
    }
  }

  /** A failed prefix decides the result. */
  lemma {:induction false} CollectAbort(outs: seq<Result<Write, PlotError>>, i: nat)
    requires i <= |outs| && Collect(outs[..i]).Err?
    ensures Collect(outs) == Collect(outs[..i])
    decreases |outs| - i
  {
    if i == |outs| {
      assert outs[..i] == outs;
    } else {
      assert outs[..i + 1][..i] == outs[..i];
      CollectAbort(outs, i + 1);
    }
  }

  /** One more iteration: an exception ends the loop with it, a write is
      appended. */
  lemma CollectStep(outs: seq<Result<Write, PlotError>>, i: nat, ws: seq<Write>)
    requires i < |outs| && Collect(outs[..i]) == Ok(ws)
    ensures outs[i].Err? ==> Collect(outs) == Err(outs[i].error)
    ensures outs[i].Ok? ==> Collect(outs[..i + 1]) == Ok(ws + [outs[i].value])
  {
    assert outs[..i + 1][..i] == outs[..i];
    if outs[i].Err? {
      CollectAbort(outs, i + 1);
    }
  }

  /** The writes of the loop, in order, or the exception of the first
      experiment that cannot be written. */
  function WritesOf(exps: seq<Experiment>): (r: Result<seq<Write>, PlotError>)
    requires forall k :: 0 <= k < |exps| ==> Parsable(exps[k])
  {
    Collect(Outcomes(exps))
  }

  /** The loop finishes exactly when every experiment is routable; its writes
      are then the experiments' own, in key order, and each is well shaped. */
  lemma WritesOfAll(exps: seq<Experiment>)
    requires forall k :: 0 <= k < |exps| ==> Parsable(exps[k])
    ensures WritesOf(exps).Ok? <==> forall k :: 0 <= k < |exps| ==> Routable(exps[k])
    ensures WritesOf(exps).Ok? ==> (|WritesOf(exps).value| == |exps| && WellShaped(WritesOf(exps).value)
      && forall k :: 0 <= k < |exps| ==> WritesOf(exps).value[k] == WriteOf(exps[k]).value)
  {
    CollectAll(Outcomes(exps));
  }

  predicate IsFullTable(t: array2<real>) {
    t.Length0 == |CropSizes| && t.Length1 == TrialCount
  }

  predicate IsSegmentTable(t: array3<real>) {
    t.Length0 == |CropSizes| && t.Length1 == TrialCount && t.Length2 == SegmentCount
  }

  /** The cells of `full` and `segs` hold what the writes `ws` of kind `sup`
      left in all-zero tables. */
  ghost predicate TablesHold(ws: seq<Write>, sup: bool, full: array2<real>, segs: array3<real>)
    requires WellShaped(ws) && IsFullTable(full) && IsSegmentTable(segs)
    reads full, segs
  {
    && (forall row, trial :: 0 <= row < |CropSizes| && 0 <= trial < TrialCount ==>
          full[row, trial] == FullValue(ws, sup, row, trial))
    && (forall row, trial, s :: 0 <= row < |CropSizes| && 0 <= trial < TrialCount && 0 <= s < SegmentCount ==>
          segs[row, trial, s] == SegmentValue(ws, sup, row, trial, s))
  }

  /** A write of the other kind leaves the tables' meaning unchanged. */
  lemma OtherKindKeeps(ws: seq<Write>, w: Write, sup: bool, full: array2<real>, segs: array3<real>)
    requires WellShaped(ws) && |w.segments| == SegmentCount && IsFullTable(full) && IsSegmentTable(segs)
    requires w.supervised != sup && TablesHold(ws, sup, full, segs)
    ensures WellShaped(ws + [w]) && TablesHold(ws + [w], sup, full, segs)
  {
    forall row: nat, trial: nat { LastWriterStep(ws, w, sup, row, trial); }
  }

  /** `res[row, trial] = full_spearman; resp[row, trial] = k_spearman[1:-1]`
      for one write into the tables of its own kind. */
  method WriteCell(full: array2<real>, segs: array3<real>, ghost ws: seq<Write>, w: Write)
    requires WellShaped(ws) && IsFullTable(full) && IsSegmentTable(segs)
    requires w.row < |CropSizes| && w.trial < TrialCount && |w.segments| == SegmentCount
    requires TablesHold(ws, w.supervised, full, segs)
    modifies full, segs
    ensures WellShaped(ws + [w]) && TablesHold(ws + [w], w.supervised, full, segs)
  {
    forall row: nat, trial: nat { LastWriterStep(ws, w, w.supervised, row, trial); }
    full[w.row, w.trial] := w.full;
    forall s | 0 <= s < SegmentCount {
      segs[w.row, w.trial, s] := w.segments[s];
    }
  }

  /** The loop invariant carried over iteration i: the outcomes so far extend
      by experiment i's, and a failure there is the loop's result. */
  lemma OutcomesStep(exps: seq<Experiment>, i: nat, ws: seq<Write>)
    requires i < |exps| && forall k :: 0 <= k < |exps| ==> Parsable(exps[k])
    requires Collect(Outcomes(exps)[..i]) == Ok(ws)
    ensures WriteOf(exps[i]).Err? ==> WritesOf(exps) == Err(WriteOf(exps[i]).error)
    ensures WriteOf(exps[i]).Ok? ==> Collect(Outcomes(exps)[..i + 1]) == Ok(ws + [WriteOf(exps[i]).value])
  {
    CollectStep(Outcomes(exps), i, ws);
  }

  /** After the last iteration the invariant is the whole result. */
  lemma OutcomesDone(exps: seq<Experiment>, ws: seq<Write>)
    requires forall k :: 0 <= k < |exps| ==> Parsable(exps[k])
    requires Collect(Outcomes(exps)[..|exps|]) == Ok(ws)
    ensures WritesOf(exps) == Ok(ws)
  {
    assert Outcomes(exps)[..|exps|] == Outcomes(exps);
  }

  /** The writes of one run that raises nothing, into the tables of its kind;
      the tables of the other kind keep their meaning. */
  method WriteRun(res: array2<real>, resp: array3<real>, sres: array2<real>, sresp: array3<real>, ghost ws: seq<Write>, w: Write)
    requires WellShaped(ws) && res != sres && resp != sresp
    requires IsFullTable(res) && IsSegmentTable(resp) && IsFullTable(sres) && IsSegmentTable(sresp)
    requires w.row < |CropSizes| && w.trial < TrialCount && |w.segments| == SegmentCount
    requires TablesHold(ws, false, res, resp) && TablesHold(ws, true, sres, sresp)
    modifies res, resp, sres, sresp
    ensures WellShaped(ws + [w])
    ensures TablesHold(ws + [w], false, res, resp) && TablesHold(ws + [w], true, sres, sresp)
  {
    if w.supervised {
      WriteCell(sres, sresp, ws, w);
      OtherKindKeeps(ws, w, false, res, resp);
    } else {
      WriteCell(res, resp, ws, w);
      OtherKindKeeps(ws, w, true, sres, sresp);
    }
  }

  /** `full[row, trial] = value` on its own. */
  method SetCell(full: array2<real>, row: nat, trial: nat, value: real)
    requires IsFullTable(full) && row < |CropSizes| && trial < TrialCount
    modifies full
    ensures forall r, c :: 0 <= r < |CropSizes| && 0 <= c < TrialCount ==>
      full[r, c] == if r == row && c == trial then value else old(full[r, c])
  {
    full[row, trial] := value;
  }

  /** One iteration of the loop: the experiment's write into the tables of
      its kind, or its exception. An unlisted size raises before anything is
      written; a `k_spearman` that does not fit raises after the full-value
      cell of its kind has been written (the script assigns `res[row, trial]`
      or `sres[row, trial]` before it assigns the segment row). */
  method FillOne(e: Experiment, res: array2<real>, resp: array3<real>, sres: array2<real>, sresp: array3<real>, ghost ws: seq<Write>)
      returns (written: Result<Write, PlotError>)
    requires Parsable(e) && WellShaped(ws) && res != sres && resp != sresp
    requires IsFullTable(res) && IsSegmentTable(resp) && IsFullTable(sres) && IsSegmentTable(sresp)
    requires TablesHold(ws, false, res, resp) && TablesHold(ws, true, sres, sresp)
    modifies res, resp, sres, sresp
    ensures written == WriteOf(e)
    ensures written.Ok? ==> (WellShaped(ws + [written.value])
      && TablesHold(ws + [written.value], false, res, resp) && TablesHold(ws + [written.value], true, sres, sresp))
    ensures written.Err? ==> unchanged(resp, sresp)
    ensures written == Err(UnknownSize) ==> unchanged(res, sres)
    ensures written == Err(SegmentShape) ==> (RowOf(e).Some? &&
      var row, trial, sup := RowOf(e).value, ParseName(e.name).trial, ParseName(e.name).supervised;
      var full, other := if sup then sres else res, if sup then res else sres;
      && unchanged(other)
      && forall r, c :: 0 <= r < |CropSizes| && 0 <= c < TrialCount ==>
           full[r, c] == if r == row && c == trial then e.fullSpearman else old(full[r, c]))
  {
    var parsed := ParseName(e.name);
    var row := RowOf(e);
    if row.None? {
      return Err(UnknownSize);
    }
    var segments := Segments(e.kSpearman);
    if segments.None? {
      SetCell(if parsed.supervised then sres else res, row.value, parsed.trial, e.fullSpearman);
      return Err(SegmentShape);
    }
    var w := Write(parsed.supervised, row.value, parsed.trial, e.fullSpearman, segments.value);
    written := Ok(w);
    WriteRun(res, resp, sres, sresp, ws, w);
  }


  /** The loop over the kept experiments: `res`/`resp` get the unsupervised
      runs and `sres`/`sresp` the supervised ones, at row `crop.index(num)` and
      column `trial`; a later run overwrites an earlier one in the same cell.
      Fails on the first run whose size is not listed or whose `k_spearman`
      does not fit a row. */
  method FillTables(exps: seq<Experiment>)
      returns (r: Result<(), PlotError>, res: array2<real>, resp: array3<real>, sres: array2<real>, sresp: array3<real>)
    requires forall k :: 0 <= k < |exps| ==> Parsable(exps[k])
    ensures r == (match WritesOf(exps) case Ok(_) => Ok(()) case Err(e) => Err(e))
    ensures IsFullTable(res) && IsSegmentTable(resp) && IsFullTable(sres) && IsSegmentTable(sresp)
    ensures r.Ok? ==> (WritesOf(exps).Ok? && WellShaped(WritesOf(exps).value)
      && TablesHold(WritesOf(exps).value, false, res, resp) && TablesHold(WritesOf(exps).value, true, sres, sresp))
  {
    res := new real[|CropSizes|, TrialCount]((_, _) => 0.0);
    resp := new real[|CropSizes|, TrialCount, SegmentCount]((_, _, _) => 0.0);
    sres := new real[|CropSizes|, TrialCount]((_, _) => 0.0);
    sresp := new real[|CropSizes|, TrialCount, SegmentCount]((_, _, _) => 0.0);
    ghost var ws: seq<Write> := [];
    for i := 0 to |exps|
      invariant Collect(Outcomes(exps)[..i]) == Ok(ws) && WellShaped(ws) && res != sres && resp != sresp
      invariant TablesHold(ws, false, res, resp) && TablesHold(ws, true, sres, sresp)
    {
      var written := FillOne(exps[i], res, resp, sres, sresp, ws);
      OutcomesStep(exps, i, ws);
      if written.Err? {
        return Err(written.error), res, resp, sres, sresp;
      }
      ws := ws + [written.value];
    }
    OutcomesDone(exps, ws);
    r := Ok(());
  }

  predicate KeptParsableHolds(data: seq<Experiment>) {
    forall k :: 0 <= k < |Kept(data)| ==> Parsable(Kept(data)[k])
  }

  /** The kept experiments all reach the table loop with a trial column. */
  lemma KeptParsable(data: seq<Experiment>)
    ensures KeptParsableHolds(data)
  {
    forall k | 0 <= k < |Kept(data)| ensures Parsable(Kept(data)[k]) {
      KeptTrialsInRange(data, Kept(data)[k]);
    }
  }

  /** The script's table building end to end: filter the experiments, then fill the tables
      from the kept ones. */
  method BuildTables(data: seq<Experiment>)
      returns (r: Result<(), PlotError>, res: array2<real>, resp: array3<real>, sres: array2<real>, sresp: array3<real>)
    ensures (exists i :: 0 <= i < |data| && FilterRaises(data[i].name)) ==> r == Err(NotADigit)
    ensures (forall i :: 0 <= i < |data| ==> !FilterRaises(data[i].name)) ==> (KeptParsableHolds(data)
      && r == (match WritesOf(Kept(data)) case Ok(_) => Ok(()) case Err(e) => Err(e)))
    ensures IsFullTable(res) && IsSegmentTable(resp) && IsFullTable(sres) && IsSegmentTable(sresp)
    ensures r.Ok? ==> (KeptParsableHolds(data) && WritesOf(Kept(data)).Ok?
      && WellShaped(WritesOf(Kept(data)).value)
      && TablesHold(WritesOf(Kept(data)).value, false, res, resp)
      && TablesHold(WritesOf(Kept(data)).value, true, sres, sresp))
  {
    var kept := FilterExperiments(data);
    res := new real[|CropSizes|, TrialCount]((_, _) => 0.0);
    resp := new real[|CropSizes|, TrialCount, SegmentCount]((_, _, _) => 0.0);
    sres := new real[|CropSizes|, TrialCount]((_, _) => 0.0);
    sresp := new real[|CropSizes|, TrialCount, SegmentCount]((_, _, _) => 0.0);
    if kept.Err? {
      return Err(kept.error), res, resp, sres, sresp;
    }
    KeptParsable(data);
    r, res, resp, sres, sresp := FillTables(kept.value);
  }
}
