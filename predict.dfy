/** Prediction with the champion model: the feature columns, the row mask, the
    batched calls of the model and the rows written to the `forecasts` table.
    The model is an opaque function with one output per input row; the clock
    is a parameter. */
module Predict {
  import opened Wrappers
  import opened Ordering
  import opened Frames
  import Features
  import Decimal
  import Config

  // ---------------------------------------------------------------------------
  // _sort_lag_cols

  const LagPrefix: string := "obs_lag_"

  /** The key of a column that does not match the lag pattern (`10**9`). */
  const NoLag: nat := 1000000000

  /** `s` without its last character when that is `ch`. */
  function DropLast(s: string, ch: char): string {
    if |s| > 0 && s[|s| - 1] == ch then s[..|s| - 1] else s
  }

  /** The digits `^obs_lag_(\d+)h?$` captures in `c`, None when it does not
      match. `$` also matches before a single newline that ends the string. */
  function LagDigits(c: string): (d: Option<string>)
    ensures d.Some? ==> |d.value| > 0 && Decimal.AllDigits(d.value)
  {
    if |c| < |LagPrefix| || c[..|LagPrefix|] != LagPrefix then None
    else
      var r2 := DropLast(DropLast(c[|LagPrefix|..], '\n'), 'h');
      if |r2| > 0 && Decimal.AllDigits(r2) then Some(r2) else None
  }

  /** The strings the pattern matches, with `d` the captured group: the
      prefix, the digits, an optional `h`, an optional final newline. */
  predicate LagPattern(c: string, d: string) {
    && |d| > 0 && Decimal.AllDigits(d)
    && (c == LagPrefix + d || c == LagPrefix + d + "h" || c == LagPrefix + d + "\n" || c == LagPrefix + d + "h\n")
  }

  /** What `DropLast` removed is `ch` or nothing. */
  lemma DropLastSplit(s: string, ch: char)
    ensures s == DropLast(s, ch) + (if |s| > 0 && s[|s| - 1] == ch then [ch] else [])
  {
  }

  /** `DropLast` removes an appended `ch`. */
  lemma DropLastAppended(t: string, ch: char)
    ensures DropLast(t + [ch], ch) == t
  {
    assert (t + [ch])[..|t|] == t;
  }

  /** `DropLast` leaves a string that does not end in `ch`. */
  lemma DropLastNone(t: string, ch: char)
    requires t == [] || t[|t| - 1] != ch
    ensures DropLast(t, ch) == t
  {
  }

  /** `LagDigits` captures exactly what the pattern describes. */
  lemma LagDigitsSound(c: string)
    ensures LagDigits(c).Some? ==> LagPattern(c, LagDigits(c).value)
  {
    if LagDigits(c).Some? {
      var d := LagDigits(c).value;
      var r := c[|LagPrefix|..];
      var r1 := DropLast(r, '\n');
      DropLastSplit(r, '\n');
      DropLastSplit(r1, 'h');
      var h := if |r1| > 0 && r1[|r1| - 1] == 'h' then "h" else "";
      var nl := if |r| > 0 && r[|r| - 1] == '\n' then "\n" else "";
      assert r1 == d + h;
      assert r == d + h + nl;
      assert c == LagPrefix + r;
      assert c == LagPrefix + d + h + nl;
    }
  }

  lemma LagDigitsComplete(c: string, d: string)
    requires LagPattern(c, d)
    ensures LagDigits(c) == Some(d)
  {
    if c == LagPrefix + d {
      assert c == LagPrefix + d + ("" + "");
      LagDigitsOf(d, "", "");
    } else if c == LagPrefix + d + "h" {
      assert c == LagPrefix + d + ("h" + "");
      LagDigitsOf(d, "h", "");
    } else if c == LagPrefix + d + "\n" {
      assert c == LagPrefix + d + ("" + "\n");
      LagDigitsOf(d, "", "\n");
    } else {
      assert c == LagPrefix + d + ("h" + "\n");
      LagDigitsOf(d, "h", "\n");
    }
  }

  /** The digits of a name that matches the pattern, with `h` and `nl` the
      optional `h` and final newline. */
  lemma LagDigitsOf(d: string, h: string, nl: string)
    requires |d| > 0 && Decimal.AllDigits(d)
    requires (h == "" || h == "h") && (nl == "" || nl == "\n")
    ensures LagDigits(LagPrefix + d + (h + nl)) == Some(d)
  {
    PrefixRest(d, h + nl);
    assert Decimal.IsDigit(d[|d| - 1]);
    if nl == "\n" {
      assert d + (h + nl) == (d + h) + ['\n'];
      DropLastAppended(d + h, '\n');
    } else {
      assert d + (h + nl) == d + h;
      DropLastNone(d + h, '\n');
    }
    if h == "h" {
      assert d + h == d + ['h'];
      DropLastAppended(d, 'h');
    } else {
      assert d + h == d;
      DropLastNone(d, 'h');
    }
  }

  /** The prefix and the rest of a name built from it. */
  lemma PrefixRest(d: string, t: string)
    ensures (LagPrefix + d + t)[..|LagPrefix|] == LagPrefix
    ensures (LagPrefix + d + t)[|LagPrefix|..] == d + t
  {
  }

  /** `lag_key`: the captured number, `10**9` for a name that does not match. */
  function LagKey(c: string): nat {
    match LagDigits(c)
    case Some(d) => Decimal.ParseDigits(d)
    case None => NoLag
  }

  /** The lag columns of the feature matrix get back their own lag. */
  lemma LagKeyOfLagName(l: nat)
    ensures LagKey(Features.LagName(l)) == l
  {
    var d := Decimal.NatToString(l);
    assert Features.LagName(l) == LagPrefix + d + "h";
    LagDigitsComplete(Features.LagName(l), d);
    Decimal.ParseRendered(l);
  }

  predicate LagLe(a: string, b: string) {
    LagKey(a) <= LagKey(b)
  }

  lemma LagLeTotalPreorder()
    ensures TotalPreorder(LagLe)
  {
  }

  /** `_sort_lag_cols`: Python's stable `sorted` with `lag_key`. */
  function SortLagCols(cols: seq<string>): seq<string> {
    Sort(cols, LagLe)
  }

  /** The result is a rearrangement of the input, ascending by lag key, and
      names with equal keys keep their input order. */
  lemma SortLagColsSpec(cols: seq<string>)
    ensures var r := SortLagCols(cols);
      && multiset(r) == multiset(cols)
      && (forall i, j :: 0 <= i < j < |r| ==> LagKey(r[i]) <= LagKey(r[j]))
      && forall c :: Class(r, c, LagLe) == Class(cols, c, LagLe)
  {
    LagLeTotalPreorder();
    SortSorted(cols, LagLe);
    forall c ensures Class(SortLagCols(cols), c, LagLe) == Class(cols, c, LagLe) {
      SortStable(cols, c, LagLe);
    }
  }

  /** A matching name with a number below `10**9` comes before every name
      that does not match. */
  lemma MatchingNamesFirst(cols: seq<string>, i: int, j: int)
    requires var r := SortLagCols(cols);
      0 <= i < |r| && 0 <= j < |r| && LagKey(r[i]) < NoLag && LagDigits(r[j]).None?
    ensures i < j
  {
    SortLagColsSpec(cols);
    var r := SortLagCols(cols);
    assert LagKey(r[j]) == NoLag;
  }

  // ---------------------------------------------------------------------------
  // column layout

  /** `a` is `b` with some elements left out, the others in their order. */
  predicate IsSubseq<T(==)>(a: seq<T>, b: seq<T>) {
    if a == [] then true
    else if b == [] then false
    else if a[0] == b[0] then IsSubseq(a[1..], b[1..])
    else IsSubseq(a, b[1..])
  }

  /** The names of `names` that are columns, in the order of `names`. */
  function Present(names: seq<string>, columns: seq<string>): (r: seq<string>)
    ensures forall c :: c in r <==> c in names && c in columns
    ensures IsSubseq(r, names)
  {
    if names == [] then []
    else
      assert names == [names[0]] + names[1..];
      var rest := Present(names[1..], columns);
      if names[0] in columns then [names[0]] + rest else rest
  }

  /** The vendor names `_predict_and_insert_stream` looks for, in its order. */
  const PredictVendors: seq<string> := ["open_meteo", "met_no", "openweather", "visual_crossing", "weather_gov"]

  /** `vendor_cols`: the vendors that are columns of the frame, in the fixed
      vendor order. */
  function VendorCols(columns: seq<string>): (r: seq<string>)
    ensures forall c :: c in r <==> c in PredictVendors && c in columns
    ensures IsSubseq(r, PredictVendors)
  {
    Present(PredictVendors, columns)
  }

  function StartsWithLagPrefix(c: string): bool {
    |c| >= |LagPrefix| && c[..|LagPrefix|] == LagPrefix
  }

  /** The columns that start with `obs_lag_`, in column order. */
  function LagColsOf(columns: seq<string>): (r: seq<string>)
    ensures forall c :: c in r <==> c in columns && StartsWithLagPrefix(c)
    ensures IsSubseq(r, columns)
  {
    if columns == [] then []
    else
      assert columns == [columns[0]] + columns[1..];
      var rest := LagColsOf(columns[1..]);
      if StartsWithLagPrefix(columns[0]) then [columns[0]] + rest else rest
  }

  /** `feat_cols`: vendors, then the lag columns sorted by lag, then the
      calendar. */
  function FeatCols(columns: seq<string>): (r: seq<string>)
    ensures var v := VendorCols(columns);
      var l := SortLagCols(LagColsOf(columns));
      && |r| == |v| + |l| + 2
      && r[..|v|] == v
      && multiset(r[|v|..|v| + |l|]) == multiset(LagColsOf(columns))
      && (forall i, j :: |v| <= i < j < |v| + |l| ==> LagKey(r[i]) <= LagKey(r[j]))
      && r[|v| + |l|..] == ["hour", "dow"]
  {
    SortLagColsSpec(LagColsOf(columns));
    VendorCols(columns) + SortLagCols(LagColsOf(columns)) + ["hour", "dow"]
  }

  // ---------------------------------------------------------------------------
  // calendar columns

  /** The column is present and has no missing entry. */
  predicate ColumnFull(f: Frame, c: string) {
    c in f.columns && forall r :: r in f.rows ==> c in r.cells
  }

  function CalendarValue(c: string, k: Key): real {
    if c == "hour" then Features.Hour(k.t) as real else Features.Dow(k.t) as real
  }

  /** `Xy[c] = ...` from the valid time, for every row. */
  function SetCalendar(f: Frame, c: string): (g: Frame)
    ensures g.columns == if c in f.columns then f.columns else f.columns + [c]
    ensures |g.rows| == |f.rows|
    ensures forall i :: 0 <= i < |f.rows| ==>
      g.rows[i] == Row(f.rows[i].key, f.rows[i].cells[c := CalendarValue(c, f.rows[i].key)])
  {
    Frame(if c in f.columns then f.columns else f.columns + [c],
          seq(|f.rows|, i requires 0 <= i < |f.rows| =>
            Row(f.rows[i].key, f.rows[i].cells[c := CalendarValue(c, f.rows[i].key)])))
  }

  /** One calendar column recomputed when it is missing or has a missing
      entry. */
  function CalendarStep(f: Frame, c: string): Frame {
    if ColumnFull(f, c) then f else SetCalendar(f, c)
  }

  /** Lines 65-68: the hour, then the day of week. */
  function EnsureCalendar(f: Frame): Frame {
    CalendarStep(CalendarStep(f, "hour"), "dow")
  }

  /** After one step the column is full and holds the calendar value unless
      it was full before; other cells and full columns are left alone. */
  lemma CalendarStepSpec(f: Frame, c: string)
    ensures var g := CalendarStep(f, c);
      && ColumnFull(g, c)
      && (forall d :: ColumnFull(f, d) ==> ColumnFull(g, d))
      && |g.rows| == |f.rows|
      && forall i :: 0 <= i < |f.rows| ==>
           && g.rows[i].key == f.rows[i].key
           && g.rows[i].cells.Keys == f.rows[i].cells.Keys + {c}
           && (forall d :: d in f.rows[i].cells && d != c ==> g.rows[i].cells[d] == f.rows[i].cells[d])
           && g.rows[i].cells[c] == (if ColumnFull(f, c) then f.rows[i].cells[c] else CalendarValue(c, f.rows[i].key))
  {
    var g := CalendarStep(f, c);
    if !ColumnFull(f, c) {
      forall r | r in g.rows ensures c in r.cells {
        var i :| 0 <= i < |g.rows| && g.rows[i] == r;
      }
      forall d | ColumnFull(f, d) ensures ColumnFull(g, d) {
        forall r | r in g.rows ensures d in r.cells {
          var i :| 0 <= i < |g.rows| && g.rows[i] == r;
          assert f.rows[i] in f.rows;
        }
      }
    } else {
      forall i | 0 <= i < |f.rows| ensures f.rows[i].cells.Keys == f.rows[i].cells.Keys + {c} {
        assert f.rows[i] in f.rows;
      }
    }
  }

  /** After the fix both calendar columns are full, a recomputed one holds the
      hour or day of week of the valid time, a full one is left alone, and no
      other cell changes. */
  lemma EnsureCalendarSpec(f: Frame)
    ensures var g := EnsureCalendar(f);
      && ColumnFull(g, "hour") && ColumnFull(g, "dow")
      && |g.rows| == |f.rows|
      && forall i :: 0 <= i < |f.rows| ==>
           && g.rows[i].key == f.rows[i].key
           && g.rows[i].cells.Keys == f.rows[i].cells.Keys + {"hour", "dow"}
           && (forall c :: c in f.rows[i].cells && c != "hour" && c != "dow" ==> g.rows[i].cells[c] == f.rows[i].cells[c])
           && g.rows[i].cells["hour"] == (if ColumnFull(f, "hour") then f.rows[i].cells["hour"] else Features.Hour(f.rows[i].key.t) as real)
           && g.rows[i].cells["dow"] == (if ColumnFull(f, "dow") then f.rows[i].cells["dow"] else Features.Dow(f.rows[i].key.t) as real)
  {
    var f1 := CalendarStep(f, "hour");
    CalendarStepSpec(f, "hour");
    CalendarStepSpec(f1, "dow");
    assert ColumnFull(f1, "dow") <==> ColumnFull(f, "dow") by {
      if ColumnFull(f1, "dow") {
        forall r | r in f.rows ensures "dow" in r.cells {
          var i :| 0 <= i < |f.rows| && f.rows[i] == r;
          assert f1.rows[i] in f1.rows;
        }
      }
    }
  }

  /** A frame the feature builder returns already has full calendar columns,
      so the fix leaves it unchanged. */
  lemma BuiltFramesKeepCalendar(fs: seq<Features.Forecast>, obs: seq<Features.Observation>, variable: string, horizon: int)
    ensures var f := Features.Features(fs, obs, variable, horizon);
      f.rows != [] ==> EnsureCalendar(f) == f
  {
    Features.FeaturesCalendar(fs, obs, variable, horizon);
  }

  // ---------------------------------------------------------------------------
  // row mask and selection

  /** `pd.notna(Xy[vendor_cols]).any(axis=1)`: some vendor column holds a
      value in the row. */
  predicate HasVendor(r: Row, vendorCols: seq<string>) {
    exists c :: c in vendorCols && c in r.cells
  }

  /** The rows the mask keeps, in their order. */
  function Kept(rows: seq<Row>, vendorCols: seq<string>): (r: seq<Row>)
    ensures forall o :: o in r <==> o in rows && HasVendor(o, vendorCols)
    ensures |r| <= |rows|
  {
    if rows == [] then []
    else
      assert rows == [rows[0]] + rows[1..];
      (if HasVendor(rows[0], vendorCols) then [rows[0]] else []) + Kept(rows[1..], vendorCols)
  }

  /** The mask works row by row: selecting from two pieces and concatenating
      is selecting from the whole, so the kept rows keep their order and
      multiplicity. */
  lemma {:induction false} KeptAppend(a: seq<Row>, b: seq<Row>, vendorCols: seq<string>)
    ensures Kept(a + b, vendorCols) == Kept(a, vendorCols) + Kept(b, vendorCols)
  {
    if a == [] {
      assert a + b == b;
    } else {
      assert (a + b)[0] == a[0];
      assert (a + b)[1..] == a[1..] + b;
      KeptAppend(a[1..], b, vendorCols);
    }
  }

  /** A row cut down to the columns `cols`. */
  function Project(r: Row, cols: seq<string>): Row {
    Row(r.key, map c | c in r.cells && c in cols :: r.cells[c])
  }

  /** `Xy.loc[mask, ["lat", "lon", "valid_time"] + feat_cols]`. */
  function Selected(rows: seq<Row>, vendorCols: seq<string>, cols: seq<string>): seq<Row> {
    var k := Kept(rows, vendorCols);
    seq(|k|, i requires 0 <= i < |k| => Project(k[i], cols))
  }

  /** `X`: the rows the model is applied to. */
  function PredictionRows(xy: Frame): seq<Row> {
    Selected(EnsureCalendar(xy).rows, VendorCols(xy.columns), FeatCols(xy.columns))
  }

  /** Every selected row is a row of the frame with at least one vendor
      value, holding only feature cells, and no row is selected twice; a
      frame without vendor columns selects nothing. */
  lemma PredictionRowsSpec(xy: Frame)
    ensures var x := PredictionRows(xy);
      var v := VendorCols(xy.columns);
      var cols := FeatCols(xy.columns);
      && |x| <= |xy.rows|
      && (v == [] ==> x == [])
      && forall i :: 0 <= i < |x| ==>
           && x[i].key in KeySet(xy.rows)
           && HasVendor(x[i], v)
           && forall c :: c in x[i].cells ==> c in cols
  {
    var g := EnsureCalendar(xy);
    EnsureCalendarKeys(xy);
    var v := VendorCols(xy.columns);
    var cols := FeatCols(xy.columns);
    var k := Kept(g.rows, v);
    if v == [] && k != [] {
      assert k[0] in k;
    }
    forall i | 0 <= i < |k| ensures k[i].key in KeySet(xy.rows) && HasVendor(Project(k[i], cols), v) {
      assert k[i] in k;
      KeptRowKey(xy.rows, g.rows, k[i]);
      ProjectKeepsVendor(k[i], v, cols);
    }
  }

  lemma EnsureCalendarKeys(f: Frame)
    ensures var g := EnsureCalendar(f);
      |g.rows| == |f.rows| && forall i :: 0 <= i < |f.rows| ==> g.rows[i].key == f.rows[i].key
  {
    EnsureCalendarSpec(f);
  }

  lemma KeptRowKey(rows: seq<Row>, grows: seq<Row>, r: Row)
    requires |grows| == |rows| && forall i :: 0 <= i < |rows| ==> grows[i].key == rows[i].key
    requires r in grows
    ensures r.key in KeySet(rows)
  {
    var j :| 0 <= j < |grows| && grows[j] == r;
    assert rows[j] in rows;
  }

  lemma ProjectKeepsVendor(r: Row, v: seq<string>, cols: seq<string>)
    requires |v| <= |cols| && cols[..|v|] == v
    requires HasVendor(r, v)
    ensures HasVendor(Project(r, cols), v)
  {
    var c :| c in v && c in r.cells;
    assert c in cols[..|v|];
    assert c in Project(r, cols).cells;
  }

  // ---------------------------------------------------------------------------
  // batches

  /** `BATCH_SIZE`. */
  const BatchSize: nat := 50000

  /** `len(range(0, n, BATCH_SIZE))`. */
  function BatchCount(n: nat): nat {
    (n + BatchSize - 1) / BatchSize
  }

  function BatchStart(k: nat): nat {
    k * BatchSize
  }

  /** `min(start + BATCH_SIZE, n)`. */
  function BatchEnd(start: nat, n: nat): nat {
    if start + BatchSize < n then start + BatchSize else n
  }

  /** The batch holding row `i`. */
  function BatchOf(i: nat): nat {
    i / BatchSize
  }

  /** The loop runs once for every multiple of `BATCH_SIZE` below `n`. */
  lemma BatchCountSpec(n: nat, k: nat)
    ensures k < BatchCount(n) <==> BatchStart(k) < n
  {
  }

  /** `BatchCount` is the ceiling of n / BATCH_SIZE. */
  lemma BatchCountCeil(n: nat)
    ensures BatchCount(n) * BatchSize >= n
    ensures n > 0 ==> (BatchCount(n) - 1) * BatchSize < n
    ensures n == 0 <==> BatchCount(n) == 0
  {
  }

  /** The batches are non-empty and at most `BATCH_SIZE` long; each begins
      where the previous one ends, the first at row 0, the last ends at row
      `n`; row `i` lies in batch `i / BATCH_SIZE` and in no other. */
  lemma BatchesPartition(n: nat)
    ensures forall k :: 0 <= k < BatchCount(n) ==>
      BatchStart(k) < BatchEnd(BatchStart(k), n) <= BatchStart(k) + BatchSize
    ensures forall k :: 0 <= k && k + 1 < BatchCount(n) ==> BatchEnd(BatchStart(k), n) == BatchStart(k + 1)
    ensures n > 0 ==> BatchStart(0) == 0 && BatchEnd(BatchStart(BatchCount(n) - 1), n) == n
    ensures forall i, k :: 0 <= i < n && 0 <= k < BatchCount(n) ==>
      (BatchStart(k) <= i < BatchEnd(BatchStart(k), n) <==> k == BatchOf(i))
    ensures forall i :: 0 <= i < n ==> BatchOf(i) < BatchCount(n)
  {
    forall k | 0 <= k < BatchCount(n) ensures BatchStart(k) < n {
      BatchCountSpec(n, k);
    }
    if n > 0 {
      BatchCountSpec(n, BatchCount(n));
    }
    forall i | 0 <= i < n ensures BatchOf(i) < BatchCount(n) {
      BatchCountSpec(n, BatchOf(i));
    }
  }

  // ---------------------------------------------------------------------------
  // output rows

  const OurModel: string := "our_model"

  /** The unit map of the output frame. */
  const OutputUnits: map<string, string> := map["temp_2m" := "C", "wind_speed_10m" := "m/s", "precipitation" := "mm"]

  /** The vendor list, the unit map and the source tag agree with the
      configuration's tables. */
  lemma TablesAgree()
    ensures PredictVendors == Features.Vendors
    ensures Config.Sources == PredictVendors + [OurModel]
    ensures OutputUnits == Config.UnitMap
  {
  }

  /** A row of the `forecasts` table written by the model. */
  datatype OutRow = OutRow(source: string, lat: real, lon: real, variable: string, issueTime: int,
                           validTime: int, horizonHours: int, value: real, unit: string)

  /** The exceptions that end a batch: the unit lookup's KeyError, and the
      DataFrame constructor's error when the model does not return one value
      per row. */
  datatype StreamError = UnknownVariable(variable: string) | LengthMismatch(rows: nat, values: nat)

  /** `model.predict` on a batch of feature rows (None is NaN). */
  type Model = seq<seq<Option<real>>> -> seq<real>

  /** `datetime.now(timezone.utc)` when the batch of `(variable, h)` that
      begins at row `start` is written. */
  type Clock = (string, int, nat) -> int

  /** One row of `Xb[feat_cols]`. */
  function Vector(r: Row, cols: seq<string>): seq<Option<real>> {
    seq(|cols|, j requires 0 <= j < |cols| => if cols[j] in r.cells then Some(r.cells[cols[j]]) else None)
  }

  function Vectors(xb: seq<Row>, cols: seq<string>): seq<seq<Option<real>>> {
    seq(|xb|, i requires 0 <= i < |xb| => Vector(xb[i], cols))
  }

  /** The `out` frame of one batch, or the exception building it raises. */
  function BatchRows(model: Model, xb: seq<Row>, cols: seq<string>, variable: string, h: int, issued: int): Result<seq<OutRow>, StreamError> {
    var yhat := model(Vectors(xb, cols));
    if variable !in OutputUnits then Err(UnknownVariable(variable))
    else if |yhat| != |xb| then Err(LengthMismatch(|xb|, |yhat|))
    else Ok(seq(|xb|, i requires 0 <= i < |xb| =>
              OutRow(OurModel, xb[i].key.lat, xb[i].key.lon, variable, issued, xb[i].key.t, h, yhat[i], OutputUnits[variable])))
  }

  /** The batches inserted so far and the exception that stopped the loop. */
  datatype Progress = Progress(batches: seq<seq<OutRow>>, error: Option<StreamError>)

  /** The first `k` rounds of the batch loop over `x`. */
  function Batches(model: Model, x: seq<Row>, cols: seq<string>, variable: string, h: int, clock: Clock, k: nat): Progress
    requires k <= BatchCount(|x|)
  {
    if k == 0 then Progress([], None)
    else
      var p := Batches(model, x, cols, variable, h, clock, k - 1);
      if p.error.Some? then p
      else
        BatchCountSpec(|x|, k - 1);
        var s := BatchStart(k - 1);
        match BatchRows(model, x[s..BatchEnd(s, |x|)], cols, variable, h, clock(variable, h, s))
        case Ok(out) => Progress(p.batches + [out], None)
        case Err(e) => Progress(p.batches, Some(e))
  }

  /** Once a batch has failed, later rounds change nothing. */
  lemma {:induction false} BatchesStop(model: Model, x: seq<Row>, cols: seq<string>, variable: string, h: int, clock: Clock, k: nat, m: nat)
    requires k <= m <= BatchCount(|x|)
    requires Batches(model, x, cols, variable, h, clock, k).error.Some?
    ensures Batches(model, x, cols, variable, h, clock, m) == Batches(model, x, cols, variable, h, clock, k)
    decreases m
  {
    if k < m {
      BatchesStop(model, x, cols, variable, h, clock, k, m - 1);
    }
  }

  /** What `_predict_and_insert_stream` does: the frame after the calendar
      fix, the batches inserted, and the exception raised, if any. */
  datatype Outcome = Outcome(xy: Frame, inserted: seq<seq<OutRow>>, error: Option<StreamError>)

  function Stream(model: Model, xy: Frame, variable: string, h: int, clock: Clock): Outcome {
    var v := VendorCols(xy.columns);
    if v == [] then Outcome(xy, [], None)
    else
      var g := EnsureCalendar(xy);
      var x := Selected(g.rows, v, FeatCols(xy.columns));
      if x == [] then Outcome(g, [], None)
      else
        var p := Batches(model, x, FeatCols(xy.columns), variable, h, clock, BatchCount(|x|));
        Outcome(g, p.batches, p.error)
  }

  /** One more round of the loop after rounds without an exception. */
  lemma BatchesNext(model: Model, x: seq<Row>, cols: seq<string>, variable: string, h: int, clock: Clock, k: nat)
    requires k < BatchCount(|x|)
    requires Batches(model, x, cols, variable, h, clock, k).error.None?
    ensures BatchStart(k) < BatchEnd(BatchStart(k), |x|) <= |x|
    ensures var p := Batches(model, x, cols, variable, h, clock, k);
      var s := BatchStart(k);
      Batches(model, x, cols, variable, h, clock, k + 1) ==
        match BatchRows(model, x[s..BatchEnd(s, |x|)], cols, variable, h, clock(variable, h, s))
        case Ok(out) => Progress(p.batches + [out], None)
        case Err(e) => Progress(p.batches, Some(e))
  {
    BatchCountSpec(|x|, k);
  }

  /** The batch loop of lines 77-97. */
  method InsertBatches(model: Model, x: seq<Row>, cols: seq<string>, variable: string, h: int, clock: Clock)
    returns (inserted: seq<seq<OutRow>>, error: Option<StreamError>)
    ensures Progress(inserted, error) == Batches(model, x, cols, variable, h, clock, BatchCount(|x|))
  {
    var n := |x|;
    inserted, error := [], None;
    var start := 0;
    ghost var k := 0;
    while start < n
      invariant k <= BatchCount(n) && start == BatchStart(k)
      invariant Batches(model, x, cols, variable, h, clock, k) == Progress(inserted, None)
      decreases n - start
    {
      BatchCountSpec(n, k);
      BatchesNext(model, x, cols, variable, h, clock, k);
      var end := if start + BatchSize < n then start + BatchSize else n;
      match BatchRows(model, x[start..end], cols, variable, h, clock(variable, h, start))
      case Err(e) =>
        error := Some(e);
        BatchesStop(model, x, cols, variable, h, clock, k + 1, BatchCount(n));
        return;
      case Ok(out) =>
        inserted := inserted + [out];
      start, k := start + BatchSize, k + 1;
    }
    BatchCountSpec(n, k);
  }

  /** `_predict_and_insert_stream(model, Xy, var, h)`. */
  method PredictAndInsertStream(model: Model, xy: Frame, variable: string, h: int, clock: Clock)
    returns (xy': Frame, inserted: seq<seq<OutRow>>, error: Option<StreamError>)
    ensures Outcome(xy', inserted, error) == Stream(model, xy, variable, h, clock)
  {
    var vendorCols := VendorCols(xy.columns);
    if vendorCols == [] {
      return xy, [], None;
    }
    var lagCols := SortLagCols(LagColsOf(xy.columns));
    var featCols := vendorCols + lagCols + ["hour", "dow"];
    xy' := EnsureCalendar(xy);
    var x := Selected(xy'.rows, vendorCols, featCols);
    inserted, error := [], None;
    if x == [] {
      return;
    }
    inserted, error := InsertBatches(model, x, featCols, variable, h, clock);
  }

  // ---------------------------------------------------------------------------
  // properties of the stream

  /** The inserted rows, batch after batch. */
  function Flatten(bs: seq<seq<OutRow>>): (out: seq<OutRow>)
    ensures bs == [] ==> out == []
  {
    if bs == [] then [] else Flatten(bs[..|bs| - 1]) + bs[|bs| - 1]
  }

  /** What row `i` of `x` becomes: the model's tag, the variable and horizon
      of the call, the index of row `i`, the issue time of its batch, the
      model output at its place in the batch and the variable's unit; None
      when the variable has no unit or the model returns too few values. */
  function Expected(model: Model, x: seq<Row>, cols: seq<string>, variable: string, h: int, clock: Clock, i: nat): Option<OutRow>
    requires i < |x|
  {
    BatchOfBounds(i);
    var s := BatchStart(BatchOf(i));
    var yhat := model(Vectors(x[s..BatchEnd(s, |x|)], cols));
    if variable in OutputUnits && i - s < |yhat| then
      Some(OutRow(OurModel, x[i].key.lat, x[i].key.lon, variable, clock(variable, h, s),
                  x[i].key.t, h, yhat[i - s], OutputUnits[variable]))
    else None
  }

  /** `o` is what row `i` of `x` becomes. */
  predicate OutputRow(model: Model, x: seq<Row>, cols: seq<string>, variable: string, h: int, clock: Clock, i: nat, o: OutRow) {
    i < |x| && Expected(model, x, cols, variable, h, clock, i) == Some(o)
  }

  /** Row `i` lies in the batch that starts at the multiple of `BATCH_SIZE`
      below it. */
  lemma BatchOfBounds(i: nat)
    ensures BatchStart(BatchOf(i)) <= i < BatchStart(BatchOf(i)) + BatchSize
  {
  }

  lemma BatchOfRange(k: nat, i: nat)
    requires BatchStart(k) <= i < BatchStart(k) + BatchSize
    ensures BatchOf(i) == k
  {
  }

  /** A batch that raises nothing turns each of its rows into its output
      row. */
  lemma BatchRowsOutput(model: Model, x: seq<Row>, cols: seq<string>, variable: string, h: int, clock: Clock, s: nat)
    requires s < |x| && s == BatchStart(BatchOf(s))
    requires BatchRows(model, x[s..BatchEnd(s, |x|)], cols, variable, h, clock(variable, h, s)).Ok?
    ensures var out := BatchRows(model, x[s..BatchEnd(s, |x|)], cols, variable, h, clock(variable, h, s)).value;
      && |out| == BatchEnd(s, |x|) - s
      && forall j :: 0 <= j < |out| ==> OutputRow(model, x, cols, variable, h, clock, s + j, out[j])
  {
    var e := BatchEnd(s, |x|);
    var xb := x[s..e];
    var out := BatchRows(model, xb, cols, variable, h, clock(variable, h, s)).value;
    forall j | 0 <= j < |out| ensures OutputRow(model, x, cols, variable, h, clock, s + j, out[j]) {
      BatchOfRange(BatchOf(s), s + j);
      assert xb[j] == x[s + j];
    }
  }

  /** `bs` are the batches of `k` rounds without an exception: `k` batches of
      the sizes the batch bounds give, together rows 0 .. min(k * BATCH_SIZE,
      n) of `x`, each turned into its output row. */
  predicate Inserted(model: Model, x: seq<Row>, cols: seq<string>, variable: string, h: int, clock: Clock,
                     k: nat, bs: seq<seq<OutRow>>) {
    && |bs| == k
    && (forall j :: 0 <= j < k ==> |bs[j]| == BatchEnd(BatchStart(j), |x|) - BatchStart(j))
    && |Flatten(bs)| == (if BatchStart(k) < |x| then BatchStart(k) else |x|)
    && forall i :: 0 <= i < |Flatten(bs)| ==> OutputRow(model, x, cols, variable, h, clock, i, Flatten(bs)[i])
  }

  /** After `k` rounds without an exception the batches inserted are those
      `Inserted` describes. */
  lemma {:induction false} BatchesOutput(model: Model, x: seq<Row>, cols: seq<string>, variable: string, h: int, clock: Clock, k: nat)
    requires k <= BatchCount(|x|)
    requires Batches(model, x, cols, variable, h, clock, k).error.None?
    ensures Inserted(model, x, cols, variable, h, clock, k, Batches(model, x, cols, variable, h, clock, k).batches)
  {
    if k > 0 {
      var p := Batches(model, x, cols, variable, h, clock, k - 1);
      BatchesOutput(model, x, cols, variable, h, clock, k - 1);
      var out := BatchesStep(model, x, cols, variable, h, clock, k);
      AppendOutput(model, x, cols, variable, h, clock, k, p.batches, out, Batches(model, x, cols, variable, h, clock, k).batches);
    }
  }

  /** Round `k` without an exception follows `k - 1` rounds without one and
      appends the rows of batch `k - 1`. */
  lemma BatchesStep(model: Model, x: seq<Row>, cols: seq<string>, variable: string, h: int, clock: Clock, k: nat)
    returns (out: seq<OutRow>)
    requires 0 < k <= BatchCount(|x|)
    requires Batches(model, x, cols, variable, h, clock, k).error.None?
    ensures Batches(model, x, cols, variable, h, clock, k - 1).error.None?
    ensures BatchStart(k - 1) < |x| && BatchStart(k - 1) == BatchStart(BatchOf(BatchStart(k - 1)))
    ensures var s := BatchStart(k - 1);
      BatchRows(model, x[s..BatchEnd(s, |x|)], cols, variable, h, clock(variable, h, s)) == Ok(out)
    ensures Batches(model, x, cols, variable, h, clock, k).batches == Batches(model, x, cols, variable, h, clock, k - 1).batches + [out]
    ensures |out| == BatchEnd(BatchStart(k - 1), |x|) - BatchStart(k - 1)
    ensures forall j :: 0 <= j < |out| ==> OutputRow(model, x, cols, variable, h, clock, BatchStart(k - 1) + j, out[j])
  {
    BatchesPrev(model, x, cols, variable, h, clock, k);
    BatchesNext(model, x, cols, variable, h, clock, k - 1);
    BatchOfRange(k - 1, BatchStart(k - 1));
    var s := BatchStart(k - 1);
    out := BatchRows(model, x[s..BatchEnd(s, |x|)], cols, variable, h, clock(variable, h, s)).value;
    BatchRowsOutput(model, x, cols, variable, h, clock, s);
  }

  /** A round without an exception follows rounds without one. */
  lemma BatchesPrev(model: Model, x: seq<Row>, cols: seq<string>, variable: string, h: int, clock: Clock, k: nat)
    requires 0 < k <= BatchCount(|x|)
    requires Batches(model, x, cols, variable, h, clock, k).error.None?
    ensures Batches(model, x, cols, variable, h, clock, k - 1).error.None?
  {
  }

  /** The batch that starts below `n` ends where the next one starts, or at
      `n`. */
  lemma BatchEndNext(k: nat, n: nat)
    ensures BatchEnd(BatchStart(k), n) == (if BatchStart(k + 1) < n then BatchStart(k + 1) else n)
  {
    assert BatchStart(k + 1) == BatchStart(k) + BatchSize;
  }

  /** Appending batch `k - 1`, each of whose rows is turned into its output
      row, to the batches of `k - 1` rounds gives the batches of `k`
      rounds. */
  lemma AppendOutput(model: Model, x: seq<Row>, cols: seq<string>, variable: string, h: int, clock: Clock,
                     k: nat, bs: seq<seq<OutRow>>, out: seq<OutRow>, bs': seq<seq<OutRow>>)
    requires bs' == bs + [out]
    requires 0 < k && BatchStart(k - 1) < |x|
    requires Inserted(model, x, cols, variable, h, clock, k - 1, bs)
    requires |out| == BatchEnd(BatchStart(k - 1), |x|) - BatchStart(k - 1)
    requires forall j :: 0 <= j < |out| ==> OutputRow(model, x, cols, variable, h, clock, BatchStart(k - 1) + j, out[j])
    ensures Inserted(model, x, cols, variable, h, clock, k, bs')
  {
    BatchEndNext(k - 1, |x|);
    assert (bs + [out])[..|bs|] == bs;
    var prev := Flatten(bs);
    assert Flatten(bs + [out]) == prev + out;
    forall i | 0 <= i < |prev + out| ensures OutputRow(model, x, cols, variable, h, clock, i, (prev + out)[i]) {
      if i < |prev| {
        OutputRowEq(model, x, cols, variable, h, clock, i, i, (prev + out)[i], prev[i]);
      } else {
        var j := i - |prev|;
        OutputRowEq(model, x, cols, variable, h, clock, i, BatchStart(k - 1) + j, (prev + out)[i], out[j]);
      }
    }
  }

  lemma OutputRowEq(model: Model, x: seq<Row>, cols: seq<string>, variable: string, h: int, clock: Clock,
                    i: nat, k: nat, o: OutRow, o': OutRow)
    requires i == k && o == o' && OutputRow(model, x, cols, variable, h, clock, k, o')
    ensures OutputRow(model, x, cols, variable, h, clock, i, o)
  {
  }

  /** Lines 57-59, 71-74 and 83-95: without an exception every row of `X` is
      inserted exactly once, in order, in `ceil(n / BATCH_SIZE)` batches of
      the sizes the batch bounds give, and the frame keeps its calendar fix. */
  lemma StreamOutput(model: Model, xy: Frame, variable: string, h: int, clock: Clock)
    ensures var o := Stream(model, xy, variable, h, clock);
      var x := PredictionRows(xy);
      var cols := FeatCols(xy.columns);
      var out := Flatten(o.inserted);
      && (VendorCols(xy.columns) == [] ==> o == Outcome(xy, [], None))
      && (VendorCols(xy.columns) != [] ==> o.xy == EnsureCalendar(xy))
      && (x == [] ==> o.inserted == [] && o.error.None?)
      && (o.error.None? ==>
            && |o.inserted| == BatchCount(|x|)
            && (forall j :: 0 <= j < |o.inserted| ==> |o.inserted[j]| == BatchEnd(BatchStart(j), |x|) - BatchStart(j))
            && |out| == |x|
            && forall i :: 0 <= i < |out| ==> OutputRow(model, x, cols, variable, h, clock, i, out[i]))
  {
    var x := PredictionRows(xy);
    PredictionRowsSpec(xy);
    var o := Stream(model, xy, variable, h, clock);
    if o.error.None? && x != [] {
      BatchesOutput(model, x, FeatCols(xy.columns), variable, h, clock, BatchCount(|x|));
      BatchCountSpec(|x|, BatchCount(|x|));
    }
  }

  /** Line 92: with an unknown variable the first batch raises KeyError and
      nothing is inserted, unless there is nothing to predict. */
  lemma StreamUnknownVariable(model: Model, xy: Frame, variable: string, h: int, clock: Clock)
    requires variable !in OutputUnits
    ensures var o := Stream(model, xy, variable, h, clock);
      && o.inserted == []
      && (o.error.Some? <==> PredictionRows(xy) != [])
      && (o.error.Some? ==> o.error == Some(UnknownVariable(variable)))
  {
    var x := PredictionRows(xy);
    PredictionRowsSpec(xy);
    if x != [] {
      var cols := FeatCols(xy.columns);
      BatchCountCeil(|x|);
      BatchCountSpec(|x|, 0);
      assert Batches(model, x, cols, variable, h, clock, 1) == Progress([], Some(UnknownVariable(variable)));
      BatchesStop(model, x, cols, variable, h, clock, 1, BatchCount(|x|));
    }
  }

  /** A model that scores each row on its own. */
  ghost predicate RowWise(model: Model, score: seq<Option<real>> -> real) {
    forall m :: |model(m)| == |m| && forall i :: 0 <= i < |m| ==> model(m)[i] == score(m[i])
  }

  /** A model that returns one value per row. */
  ghost predicate OnePerRow(model: Model) {
    forall m :: |model(m)| == |m|
  }

  /** With one value per row and a known variable, no round raises. */
  lemma {:induction false} BatchesNoError(model: Model, x: seq<Row>, cols: seq<string>, variable: string, h: int, clock: Clock, k: nat)
    requires OnePerRow(model) && variable in OutputUnits
    requires k <= BatchCount(|x|)
    ensures Batches(model, x, cols, variable, h, clock, k).error.None?
  {
    if k > 0 {
      BatchesNoError(model, x, cols, variable, h, clock, k - 1);
      BatchCountSpec(|x|, k - 1);
      var s := BatchStart(k - 1);
      OnePerRowBatchOk(model, x[s..BatchEnd(s, |x|)], cols, variable, h, clock(variable, h, s));
      BatchesOk(model, x, cols, variable, h, clock, k - 1);
    }
  }

  /** A round whose batch raises nothing, after rounds without an exception,
      raises nothing. */
  lemma BatchesOk(model: Model, x: seq<Row>, cols: seq<string>, variable: string, h: int, clock: Clock, k: nat)
    requires k < BatchCount(|x|) && BatchStart(k) < |x|
    requires Batches(model, x, cols, variable, h, clock, k).error.None?
    requires var s := BatchStart(k);
      BatchRows(model, x[s..BatchEnd(s, |x|)], cols, variable, h, clock(variable, h, s)).Ok?
    ensures Batches(model, x, cols, variable, h, clock, k + 1).error.None?
  {
    BatchesNext(model, x, cols, variable, h, clock, k);
  }

  /** A model with one value per row raises nothing on a batch of a known
      variable. */
  lemma OnePerRowBatchOk(model: Model, xb: seq<Row>, cols: seq<string>, variable: string, h: int, issued: int)
    requires OnePerRow(model) && variable in OutputUnits
    ensures BatchRows(model, xb, cols, variable, h, issued).Ok?
  {
    assert |model(Vectors(xb, cols))| == |Vectors(xb, cols)|;
  }

  /** Batching does not change the predictions: with a model that scores
      rows one at a time and a known variable, nothing is raised and row `i`
      gets the score of its own feature vector. */
  lemma StreamRowWise(model: Model, score: seq<Option<real>> -> real, xy: Frame, variable: string, h: int, clock: Clock)
    requires RowWise(model, score) && variable in OutputUnits
    ensures var o := Stream(model, xy, variable, h, clock);
      var x := PredictionRows(xy);
      var out := Flatten(o.inserted);
      && o.error.None?
      && |out| == |x|
      && forall i :: 0 <= i < |x| ==> out[i].value == score(Vector(x[i], FeatCols(xy.columns)))
  {
    var x := PredictionRows(xy);
    var cols := FeatCols(xy.columns);
    if x != [] {
      assert OnePerRow(model);
      BatchesNoError(model, x, cols, variable, h, clock, BatchCount(|x|));
    }
    StreamOutput(model, xy, variable, h, clock);
    var out := Flatten(Stream(model, xy, variable, h, clock).inserted);
    forall i | 0 <= i < |x| ensures out[i].value == score(Vector(x[i], cols)) {
      RowWiseValue(model, score, x, cols, variable, h, clock, i, out[i]);
    }
  }

  lemma RowWiseValue(model: Model, score: seq<Option<real>> -> real, x: seq<Row>, cols: seq<string>, variable: string, h: int, clock: Clock, i: nat, o: OutRow)
    requires RowWise(model, score) && OutputRow(model, x, cols, variable, h, clock, i, o)
    ensures o.value == score(Vector(x[i], cols))
  {
    BatchOfBounds(i);
    var s := BatchStart(BatchOf(i));
    var vs := Vectors(x[s..BatchEnd(s, |x|)], cols);
    assert o.value == model(vs)[i - s];
    assert vs[i - s] == Vector(x[i], cols);
    assert model(vs)[i - s] == score(vs[i - s]);
  }

  /** An inserted row of the call for `(variable, h)` whose index is one of
      `keys`. */
  predicate Tagged(o: OutRow, variable: string, h: int, keys: set<Key>) {
    && o.source == OurModel && o.variable == variable && o.horizonHours == h
    && variable in OutputUnits && o.unit == OutputUnits[variable]
    && Key(o.lat, o.lon, o.validTime) in keys
  }

  lemma {:induction false} FlattenAppend(a: seq<seq<OutRow>>, b: seq<seq<OutRow>>)
    ensures Flatten(a + b) == Flatten(a) + Flatten(b)
    decreases |b|
  {
    if b != [] {
      var b' := b[..|b| - 1];
      assert (a + b)[..|a + b| - 1] == a + b';
      FlattenAppend(a, b');
    } else {
      assert a + b == a;
    }
  }

  /** Every row inserted by the loop, before an exception or without one,
      carries the call's tags and the index of a row of `x`. */
  lemma {:induction false} BatchesTagged(model: Model, x: seq<Row>, cols: seq<string>, variable: string, h: int, clock: Clock, k: nat)
    requires k <= BatchCount(|x|)
    ensures forall o :: o in Flatten(Batches(model, x, cols, variable, h, clock, k).batches) ==> Tagged(o, variable, h, KeySet(x))
  {
    if k > 0 {
      var p := Batches(model, x, cols, variable, h, clock, k - 1);
      BatchesTagged(model, x, cols, variable, h, clock, k - 1);
      if p.error.None? {
        BatchesNext(model, x, cols, variable, h, clock, k - 1);
        var s := BatchStart(k - 1);
        var xb := x[s..BatchEnd(s, |x|)];
        var r := BatchRows(model, xb, cols, variable, h, clock(variable, h, s));
        if r.Ok? {
          var q := Batches(model, x, cols, variable, h, clock, k);
          assert q.batches[..|q.batches| - 1] == p.batches;
          forall o | o in r.value ensures Tagged(o, variable, h, KeySet(x)) {
            var j :| 0 <= j < |r.value| && r.value[j] == o;
            assert xb[j] in x;
          }
        }
      }
    }
  }

  /** Every inserted row has the model's tag, the call's variable, horizon
      and unit, and the index of a row of the frame. */
  lemma StreamTagged(model: Model, xy: Frame, variable: string, h: int, clock: Clock)
    ensures forall o :: o in Flatten(Stream(model, xy, variable, h, clock).inserted) ==> Tagged(o, variable, h, KeySet(xy.rows))
  {
    var x := PredictionRows(xy);
    if x != [] && VendorCols(xy.columns) != [] {
      BatchesTagged(model, x, FeatCols(xy.columns), variable, h, clock, BatchCount(|x|));
      PredictionKeys(xy);
    }
  }

  lemma PredictionKeys(xy: Frame)
    ensures KeySet(PredictionRows(xy)) <= KeySet(xy.rows)
  {
    var x := PredictionRows(xy);
    forall k | k in KeySet(x) ensures k in KeySet(xy.rows) {
      var r :| r in x && r.key == k;
      var i :| 0 <= i < |x| && x[i] == r;
      PredictionRowKey(xy, i);
    }
  }

  lemma PredictionRowKey(xy: Frame, i: nat)
    requires i < |PredictionRows(xy)|
    ensures PredictionRows(xy)[i].key in KeySet(xy.rows)
  {
    PredictionRowsSpec(xy);
  }

  // ---------------------------------------------------------------------------
  // main

  /** The rows of horizon loop for one variable. */
  function PairsOf(variable: string, horizons: seq<int>): (ps: seq<(string, int)>)
    ensures |ps| == |horizons|
  {
    seq(|horizons|, j requires 0 <= j < |horizons| => (variable, horizons[j]))
  }

  /** The (variable, horizon) pairs `main` visits, in its loop order. */
  function Pairs(variables: seq<string>, horizons: seq<int>): seq<(string, int)> {
    if variables == [] then []
    else Pairs(variables[..|variables| - 1], horizons) + PairsOf(variables[|variables| - 1], horizons)
  }

  /** One round of the nested loop: an empty feature frame is skipped, and an
      exception ends `main`. */
  function Visit(p: Progress, model: Model, fs: seq<Features.Forecast>, obs: seq<Features.Observation>, pair: (string, int), clock: Clock): Progress {
    if p.error.Some? then p
    else
      var r := PairOutcome(model, fs, obs, pair, clock);
      Progress(p.batches + r.batches, r.error)
  }

  /** What the round for one (variable, horizon) pair inserts and raises. */
  function PairOutcome(model: Model, fs: seq<Features.Forecast>, obs: seq<Features.Observation>, pair: (string, int), clock: Clock): Progress {
    var xy := Features.Features(fs, obs, pair.0, pair.1);
    if IsEmpty(xy) then Progress([], None)
    else
      var o := Stream(model, xy, pair.0, pair.1, clock);
      Progress(o.inserted, o.error)
  }

  /** Lines 111-114: one round of the nested loop. */
  method PredictPair(model: Model, fs: seq<Features.Forecast>, obs: seq<Features.Observation>, pair: (string, int), clock: Clock)
    returns (inserted: seq<seq<OutRow>>, error: Option<StreamError>)
    ensures Progress(inserted, error) == PairOutcome(model, fs, obs, pair, clock)
  {
    var xy := Features.Features(fs, obs, pair.0, pair.1);
    if IsEmpty(xy) {
      return [], None;
    }
    var _, ins, err := PredictAndInsertStream(model, xy, pair.0, pair.1, clock);
    return ins, err;
  }

  function VisitAll(model: Model, fs: seq<Features.Forecast>, obs: seq<Features.Observation>, pairs: seq<(string, int)>, clock: Clock): Progress {
    if pairs == [] then Progress([], None)
    else Visit(VisitAll(model, fs, obs, pairs[..|pairs| - 1], clock), model, fs, obs, pairs[|pairs| - 1], clock)
  }

  /** `main`: `champion` is the champion name looked up in the database and
      `load` stands for loading a registered model by name. */
  function Main(champion: Option<string>, load: string -> Model, fs: seq<Features.Forecast>, obs: seq<Features.Observation>,
                variables: seq<string>, horizons: seq<int>, clock: Clock): Progress {
    if champion.None? || champion.value == "" then Progress([], None)
    else VisitAll(load(champion.value), fs, obs, Pairs(variables, horizons), clock)
  }

  lemma VisitAllNext(model: Model, fs: seq<Features.Forecast>, obs: seq<Features.Observation>, pairs: seq<(string, int)>, q: (string, int), clock: Clock)
    ensures VisitAll(model, fs, obs, pairs + [q], clock) == Visit(VisitAll(model, fs, obs, pairs, clock), model, fs, obs, q, clock)
  {
    assert (pairs + [q])[..|pairs|] == pairs;
  }

  /** After an exception no later round changes anything. */
  lemma {:induction false} VisitAllStop(model: Model, fs: seq<Features.Forecast>, obs: seq<Features.Observation>, a: seq<(string, int)>, b: seq<(string, int)>, clock: Clock)
    requires a <= b
    requires VisitAll(model, fs, obs, a, clock).error.Some?
    ensures VisitAll(model, fs, obs, b, clock) == VisitAll(model, fs, obs, a, clock)
    decreases |b|
  {
    if |b| > |a| {
      VisitAllStop(model, fs, obs, a, b[..|b| - 1], clock);
    } else {
      assert a == b;
    }
  }

  lemma PairsNextVariable(variables: seq<string>, horizons: seq<int>, i: nat)
    requires i < |variables|
    ensures Pairs(variables[..i + 1], horizons) == Pairs(variables[..i], horizons) + PairsOf(variables[i], horizons)
  {
    assert variables[..i + 1][..i] == variables[..i];
  }

  lemma {:induction false} PairsPrefix(variables: seq<string>, horizons: seq<int>, i: nat)
    requires i <= |variables|
    ensures Pairs(variables[..i], horizons) <= Pairs(variables, horizons)
    decreases |variables| - i
  {
    if i < |variables| {
      PairsPrefix(variables, horizons, i + 1);
      PairsNextVariable(variables, horizons, i);
    } else {
      assert variables[..i] == variables;
    }
  }

  lemma PairsOfNext(done: seq<(string, int)>, variable: string, horizons: seq<int>, j: nat)
    requires j < |horizons|
    ensures done + PairsOf(variable, horizons[..j]) + [(variable, horizons[j])] == done + PairsOf(variable, horizons[..j + 1])
  {
    var a := PairsOf(variable, horizons[..j]);
    var b := PairsOf(variable, horizons[..j + 1]);
    assert b == a + [(variable, horizons[j])];
  }

  /** An exception in round (i, j) is the end of the whole run. */
  lemma StopInsideLoop(model: Model, fs: seq<Features.Forecast>, obs: seq<Features.Observation>,
                       variables: seq<string>, horizons: seq<int>, clock: Clock, i: nat, j: nat)
    requires i < |variables| && j < |horizons|
    requires VisitAll(model, fs, obs, Pairs(variables[..i], horizons) + PairsOf(variables[i], horizons[..j + 1]), clock).error.Some?
    ensures VisitAll(model, fs, obs, Pairs(variables, horizons), clock)
         == VisitAll(model, fs, obs, Pairs(variables[..i], horizons) + PairsOf(variables[i], horizons[..j + 1]), clock)
  {
    PairsNextVariable(variables, horizons, i);
    PairsPrefix(variables, horizons, i + 1);
    assert PairsOf(variables[i], horizons[..j + 1]) <= PairsOf(variables[i], horizons);
    VisitAllStop(model, fs, obs, Pairs(variables[..i], horizons) + PairsOf(variables[i], horizons[..j + 1]), Pairs(variables, horizons), clock);
  }

  /** `main`: the nested loops over the configured variables and horizons. */
  method RunPredictions(champion: Option<string>, load: string -> Model, fs: seq<Features.Forecast>, obs: seq<Features.Observation>,
                        variables: seq<string>, horizons: seq<int>, clock: Clock)
    returns (inserted: seq<seq<OutRow>>, error: Option<StreamError>)
    ensures Progress(inserted, error) == Main(champion, load, fs, obs, variables, horizons, clock)
  {
    if champion.None? || champion.value == "" {
      return [], None;
    }
    var model := load(champion.value);
    inserted, error := [], None;
    for i := 0 to |variables|
      invariant VisitAll(model, fs, obs, Pairs(variables[..i], horizons), clock) == Progress(inserted, None)
    {
      ghost var done := Pairs(variables[..i], horizons);
      assert done + PairsOf(variables[i], horizons[..0]) == done;
      for j := 0 to |horizons|
        invariant VisitAll(model, fs, obs, done + PairsOf(variables[i], horizons[..j]), clock) == Progress(inserted, None)
      {
        ghost var before := done + PairsOf(variables[i], horizons[..j]);
        PairsOfNext(done, variables[i], horizons, j);
        VisitAllNext(model, fs, obs, before, (variables[i], horizons[j]), clock);
        var ins, err := PredictPair(model, fs, obs, (variables[i], horizons[j]), clock);
        inserted := inserted + ins;
        if err.Some? {
          error := err;
          StopInsideLoop(model, fs, obs, variables, horizons, clock, i, j);
          return;
        }
      }
      assert horizons[..|horizons|] == horizons;
      PairsNextVariable(variables, horizons, i);
    }
    assert variables[..|variables|] == variables;
  }

  /** Every pair `main` visits combines a configured variable with a
      configured horizon. */
  lemma {:induction false} PairsMembers(variables: seq<string>, horizons: seq<int>)
    ensures forall q :: q in Pairs(variables, horizons) ==> q.0 in variables && q.1 in horizons
  {
    if variables != [] {
      var init := variables[..|variables| - 1];
      PairsMembers(init, horizons);
      forall q | q in PairsOf(variables[|variables| - 1], horizons) ensures q.0 in variables && q.1 in horizons {
        var j :| 0 <= j < |horizons| && PairsOf(variables[|variables| - 1], horizons)[j] == q;
      }
      assert forall v :: v in init ==> v in variables;
    }
  }

  /** A row `main` inserts for one of `pairs`: tagged with that pair and
      indexed by a row of that pair's feature frame. */
  predicate MainRow(o: OutRow, fs: seq<Features.Forecast>, obs: seq<Features.Observation>, pairs: seq<(string, int)>) {
    && (o.variable, o.horizonHours) in pairs
    && Tagged(o, o.variable, o.horizonHours, KeySet(Features.Features(fs, obs, o.variable, o.horizonHours).rows))
  }

  lemma {:induction false} VisitAllRows(model: Model, fs: seq<Features.Forecast>, obs: seq<Features.Observation>, pairs: seq<(string, int)>, clock: Clock)
    ensures forall o :: o in Flatten(VisitAll(model, fs, obs, pairs, clock).batches) ==> MainRow(o, fs, obs, pairs)
  {
    if pairs != [] {
      var init := pairs[..|pairs| - 1];
      var q := pairs[|pairs| - 1];
      VisitAllRows(model, fs, obs, init, clock);
      var p := VisitAll(model, fs, obs, init, clock);
      assert forall o :: MainRow(o, fs, obs, init) ==> MainRow(o, fs, obs, pairs);
      if p.error.None? {
        var xy := Features.Features(fs, obs, q.0, q.1);
        if !IsEmpty(xy) {
          var r := Stream(model, xy, q.0, q.1, clock);
          FlattenAppend(p.batches, r.inserted);
          StreamTagged(model, xy, q.0, q.1, clock);
          assert q in pairs;
          assert PairOutcome(model, fs, obs, q, clock).batches == r.inserted;
          assert VisitAll(model, fs, obs, pairs, clock).batches == p.batches + r.inserted;
          forall o | o in Flatten(r.inserted) ensures MainRow(o, fs, obs, pairs) {
            assert Tagged(o, q.0, q.1, KeySet(xy.rows));
            assert (o.variable, o.horizonHours) == q;
          }
          forall o | o in Flatten(p.batches + r.inserted) ensures MainRow(o, fs, obs, pairs) {
            assert o in Flatten(p.batches) || o in Flatten(r.inserted);
          }
        } else {
          assert PairOutcome(model, fs, obs, q, clock) == Progress([], None);
          assert VisitAll(model, fs, obs, pairs, clock).batches == p.batches + [];
          assert p.batches + [] == p.batches;
        }
      }
    }
  }

  /** Lines 99-114: without a champion name nothing is inserted; every row
      `main` inserts carries the model's tag, a configured variable and
      horizon with that variable's unit, and the location and valid time of
      a vendor forecast of that variable. */
  lemma MainOutput(champion: Option<string>, load: string -> Model, fs: seq<Features.Forecast>, obs: seq<Features.Observation>,
                   variables: seq<string>, horizons: seq<int>, clock: Clock)
    ensures var r := Main(champion, load, fs, obs, variables, horizons, clock);
      && (champion.None? || champion == Some("") ==> r == Progress([], None))
      && forall o :: o in Flatten(r.batches) ==>
           && o.source == OurModel && o.variable in variables && o.horizonHours in horizons
           && o.variable in OutputUnits && o.unit == OutputUnits[o.variable]
           && Features.VendorKey(fs, o.variable, Key(o.lat, o.lon, o.validTime))
  {
    if champion.Some? && champion.value != "" {
      var pairs := Pairs(variables, horizons);
      VisitAllRows(load(champion.value), fs, obs, pairs, clock);
      PairsMembers(variables, horizons);
      forall o | o in Flatten(Main(champion, load, fs, obs, variables, horizons, clock).batches)
        ensures Features.VendorKey(fs, o.variable, Key(o.lat, o.lon, o.validTime))
      {
        Features.FeaturesFaithful(fs, obs, o.variable, o.horizonHours);
      }
    }
  }
}
