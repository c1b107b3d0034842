/** The feature matrix of the model: vendor forecasts pivoted per location and
    valid time, lagged observations, calendar columns and the observed target.
    The two database tables are parameters; all times are whole hours since
    1970-01-01 00:00 UTC. */
module Features {
  import opened Ordering
  import opened Frames
  import Decimal

  /** A row of the `forecasts` table. */
  datatype Forecast = Forecast(lat: real, lon: real, validTime: int, source: string,
                               variable: string, value: real, horizonHours: int)

  /** A row of the `observations` table. */
  datatype Observation = Observation(lat: real, lon: real, obsTime: int, variable: string, value: real)

  /** The vendor sources whose forecasts are features. */
  const Vendors: seq<string> := ["open_meteo", "met_no", "openweather", "visual_crossing", "weather_gov"]

  /** Lags of `get_obs_lags`, in hours. */
  const DefaultLags: seq<nat> := [1, 3, 6]

  /** Columns of an empty fetch result. */
  const ForecastFetchColumns: seq<string> := ["lat", "lon", "valid_time", "source", "value"]
  const ObservationFetchColumns: seq<string> := ["lat", "lon", "valid_time", "value"]

  function ForecastKey(f: Forecast): Key { Key(f.lat, f.lon, f.validTime) }
  function ObsKey(o: Observation): Key { Key(o.lat, o.lon, o.obsTime) }

  /** The same location `d` hours later. */
  function Shift(k: Key, d: int): Key { Key(k.lat, k.lon, k.t + d) }

  /** The same location `l` hours earlier. */
  function Earlier(k: Key, l: nat): Key { Key(k.lat, k.lon, k.t - l) }

  // ---------------------------------------------------------------------------
  // get_vendor_matrix

  /** The forecasts the vendor query selects: the variable, vendor sources only. */
  function VendorRecords(fs: seq<Forecast>, variable: string): (r: seq<Forecast>)
    ensures forall f :: f in r <==> f in fs && f.variable == variable && f.source in Vendors
  {
    if fs == [] then []
    else
      assert fs == [fs[0]] + fs[1..];
      (if fs[0].variable == variable && fs[0].source in Vendors then [fs[0]] else [])
      + VendorRecords(fs[1..], variable)
  }

  predicate HasForecast(fs: seq<Forecast>, variable: string, source: string, k: Key) {
    exists f :: f in fs && f.variable == variable && f.source == source && ForecastKey(f) == k
  }

  /** The values forecast by `source` for index `k`, in table order. */
  function ValuesAt(recs: seq<Forecast>, k: Key, source: string): (vs: seq<real>)
    ensures vs != [] <==> exists f :: f in recs && ForecastKey(f) == k && f.source == source
  {
    if recs == [] then []
    else
      assert recs == [recs[0]] + recs[1..];
      (if ForecastKey(recs[0]) == k && recs[0].source == source then [recs[0].value] else [])
      + ValuesAt(recs[1..], k, source)
  }

  function Sum(xs: seq<real>): real {
    if xs == [] then 0.0 else xs[0] + Sum(xs[1..])
  }

  /** `pivot_table`'s default aggregation. */
  function Mean(xs: seq<real>): real {
    if xs == [] then 0.0 else Sum(xs) / |xs| as real
  }

  /** One pivoted row: a cell per vendor that forecast this index, holding the
      mean of its values. */
  function PivotCells(recs: seq<Forecast>, k: Key): map<string, real> {
    map s | s in Vendors && ValuesAt(recs, k, s) != [] :: Mean(ValuesAt(recs, k, s))
  }

  function ForecastKeys(recs: seq<Forecast>): (ks: seq<Key>)
    ensures forall k :: k in ks <==> exists f :: f in recs && ForecastKey(f) == k
  {
    if recs == [] then []
    else
      assert recs == [recs[0]] + recs[1..];
      [ForecastKey(recs[0])] + ForecastKeys(recs[1..])
  }

  function SourcesOf(recs: seq<Forecast>): (ss: seq<string>)
    ensures forall s :: s in ss <==> exists f :: f in recs && f.source == s
  {
    if recs == [] then []
    else
      assert recs == [recs[0]] + recs[1..];
      [recs[0].source] + SourcesOf(recs[1..])
  }

  /** `get_vendor_matrix`: the selected forecasts pivoted to one row per
      (lat, lon, valid_time), sorted, with one column per vendor present, the
      vendor columns in ascending name order. An empty selection is returned
      as fetched. The horizon is not used. */
  function VendorMatrix(fs: seq<Forecast>, variable: string, horizon: int): Frame {
    var recs := VendorRecords(fs, variable);
    if recs == [] then Frame(ForecastFetchColumns, [])
    else
      var keys := Sort(Dedup(ForecastKeys(recs)), KeyLe);
      Frame(IndexColumns + Sort(Dedup(SourcesOf(recs)), StrLe), PivotRows(recs, keys))
  }

  /** One pivoted row per index value, in the given order. */
  function PivotRows(recs: seq<Forecast>, keys: seq<Key>): (rows: seq<Row>)
    ensures |rows| == |keys| && forall i :: 0 <= i < |keys| ==> rows[i] == Row(keys[i], PivotCells(recs, keys[i]))
  {
    seq(|keys|, i requires 0 <= i < |keys| => Row(keys[i], PivotCells(recs, keys[i])))
  }

  /** The vendor columns of a row are those of its index in the pivot. */
  predicate VendorCells(r: Row, fs: seq<Forecast>, variable: string) {
    forall s :: s in Vendors ==>
      && (s in r.cells <==> HasForecast(fs, variable, s, r.key))
      && (s in r.cells ==> r.cells[s] == Mean(ValuesAt(VendorRecords(fs, variable), r.key, s)))
  }

  predicate VendorKey(fs: seq<Forecast>, variable: string, k: Key) {
    exists f :: f in fs && f.variable == variable && f.source in Vendors && ForecastKey(f) == k
  }

  function VendorNames(): set<string> {
    set s | s in Vendors
  }

  /** Sorting a sequence keeps its elements. */
  lemma SortKeepsElements<T>(s: seq<T>, le: (T, T) -> bool)
    ensures forall x :: x in Sort(s, le) <==> x in s
  {
    forall x ensures x in Sort(s, le) <==> x in s {
      assert x in Sort(s, le) <==> x in multiset(Sort(s, le));
    }
  }

  lemma PivotOrder(d: seq<Key>)
    requires Distinct(d)
    ensures var keys := Sort(d, KeyLe);
      Distinct(keys) && Sorted(keys, KeyLe) && forall k :: k in keys <==> k in d
  {
    KeyLeTotalPreorder();
    SortSorted(d, KeyLe);
    DistinctCounts(d);
    DistinctCounts(Sort(d, KeyLe));
    SortKeepsElements(d, KeyLe);
  }

  lemma PivotKeySet(recs: seq<Forecast>, keys: seq<Key>)
    ensures forall k :: k in KeySet(PivotRows(recs, keys)) <==> k in keys
  {
    var rows := PivotRows(recs, keys);
    forall k ensures k in KeySet(rows) <==> k in keys {
      if k in keys {
        var i :| 0 <= i < |keys| && keys[i] == k;
        assert rows[i] in rows;
      }
    }
  }

  lemma PivotRowsOrdered(recs: seq<Forecast>, keys: seq<Key>)
    requires Distinct(keys) && Sorted(keys, KeyLe)
    ensures UniqueKeys(PivotRows(recs, keys))
    ensures forall i, j :: 0 <= i < j < |keys| ==> KeyLe(PivotRows(recs, keys)[i].key, PivotRows(recs, keys)[j].key)
  {
  }

  /** The selected forecasts' indexes are the vendor indexes of the variable. */
  lemma RecordKeys(fs: seq<Forecast>, variable: string)
    ensures forall k :: k in ForecastKeys(VendorRecords(fs, variable)) <==> VendorKey(fs, variable, k)
  {
  }

  /** The pivot has exactly one row per forecast index, in ascending index
      order; it is empty exactly when the query selects nothing. */
  lemma VendorMatrixKeys(fs: seq<Forecast>, variable: string, horizon: int)
    ensures var vm := VendorMatrix(fs, variable, horizon);
      && (vm.rows == [] <==> VendorRecords(fs, variable) == [])
      && UniqueKeys(vm.rows)
      && (forall i, j :: 0 <= i < j < |vm.rows| ==> KeyLe(vm.rows[i].key, vm.rows[j].key))
      && (forall k :: k in KeySet(vm.rows) <==> VendorKey(fs, variable, k))
  {
    var recs := VendorRecords(fs, variable);
    if recs != [] {
      var d := Dedup(ForecastKeys(recs));
      var keys := Sort(d, KeyLe);
      assert recs[0] in recs;
      assert ForecastKeys(recs)[0] in d;
      PivotOrder(d);
      PivotKeySet(recs, keys);
      PivotRowsOrdered(recs, keys);
      RecordKeys(fs, variable);
      assert VendorMatrix(fs, variable, horizon).rows == PivotRows(recs, keys);
    }
  }

  /** Each pivoted row holds, for each vendor, the mean of that vendor's values
      for the index, and nothing else. */
  lemma VendorMatrixCells(fs: seq<Forecast>, variable: string, horizon: int)
    ensures forall r :: r in VendorMatrix(fs, variable, horizon).rows ==>
      VendorCells(r, fs, variable) && r.cells.Keys <= VendorNames()
  {
  }

  /** The value columns are the vendors present, ascending and without
      repetition, after the three index columns. */
  lemma VendorMatrixColumns(fs: seq<Forecast>, variable: string, horizon: int)
    ensures var vm := VendorMatrix(fs, variable, horizon);
      vm.rows != [] ==>
        && |vm.columns| >= 3 && vm.columns[..3] == IndexColumns
        && Sorted(vm.columns[3..], StrLe) && Distinct(vm.columns[3..])
        && (forall s :: s in vm.columns[3..] <==> exists f :: f in VendorRecords(fs, variable) && f.source == s)
  {
    var recs := VendorRecords(fs, variable);
    if recs != [] {
      var srcs := Dedup(SourcesOf(recs));
      var sorted := Sort(srcs, StrLe);
      assert VendorMatrix(fs, variable, horizon).columns == IndexColumns + sorted;
      StrLeTotalPreorder();
      SortSorted(srcs, StrLe);
      DistinctCounts(srcs);
      DistinctCounts(sorted);
      SortKeepsElements(srcs, StrLe);
    }
  }

  // ---------------------------------------------------------------------------
  // get_obs_lags

  /** The observations the lag query selects. */
  function ObsOf(obs: seq<Observation>, variable: string): (r: seq<Observation>)
    ensures forall o :: o in r <==> o in obs && o.variable == variable
    ensures |r| <= |obs|
  {
    if obs == [] then []
    else
      assert obs == [obs[0]] + obs[1..];
      (if obs[0].variable == variable then [obs[0]] else []) + ObsOf(obs[1..], variable)
  }

  predicate HasObs(obs: seq<Observation>, variable: string, k: Key) {
    exists o :: o in obs && o.variable == variable && ObsKey(o) == k
  }

  /** Some observation of `variable` at index `k` has value `v`. */
  predicate ObsValueAt(obs: seq<Observation>, variable: string, k: Key, v: real) {
    exists o :: o in obs && o.variable == variable && ObsKey(o) == k && o.value == v
  }

  predicate ObsLe(a: Observation, b: Observation) {
    KeyLe(ObsKey(a), ObsKey(b))
  }

  /** The column of lag `l`: `obs_lag_<l>h`. */
  function LagName(l: nat): string {
    "obs_lag_" + Decimal.NatToString(l) + "h"
  }

  lemma LagNameInjective(a: nat, b: nat)
    ensures a != b ==> LagName(a) != LagName(b)
  {
    Decimal.RenderInjective(a, b);
    var na, nb := LagName(a), LagName(b);
    assert na[8..|na| - 1] == Decimal.NatToString(a);
    assert nb[8..|nb| - 1] == Decimal.NatToString(b);
  }

  function LagColumns(lags: seq<nat>): (cs: seq<string>)
    ensures |cs| == |lags|
  {
    seq(|lags|, i requires 0 <= i < |lags| => LagName(lags[i]))
  }

  /** The names of the first `m` lag columns. */
  function LagNamesUpTo(lags: seq<nat>, m: nat): set<string>
    requires m <= |lags|
  {
    set i | 0 <= i < m :: LagName(lags[i])
  }

  /** The observations moved `l` hours later, their value renamed to the lag
      column. */
  function LaggedRows(out: seq<Observation>, l: nat): (rows: seq<Row>)
    ensures |rows| == |out|
  {
    seq(|out|, i requires 0 <= i < |out| => Row(Shift(ObsKey(out[i]), l), map[LagName(l) := out[i].value]))
  }

  function LagFrames(out: seq<Observation>, lags: seq<nat>): (frames: seq<seq<Row>>)
    ensures |frames| == |lags|
  {
    seq(|lags|, i requires 0 <= i < |lags| => LaggedRows(out, lags[i]))
  }

  function ObsKeys(out: seq<Observation>): (ks: seq<Key>)
    ensures forall k :: k in ks <==> exists o :: o in out && ObsKey(o) == k
  {
    if out == [] then []
    else
      assert out == [out[0]] + out[1..];
      [ObsKey(out[0])] + ObsKeys(out[1..])
  }

  /** The distinct observation indexes in order of first appearance, no cells. */
  function BaseRows(out: seq<Observation>): (rows: seq<Row>)
    ensures forall r :: r in rows ==> r.cells == map[]
    ensures KeySet(rows) == set o | o in out :: ObsKey(o)
    ensures UniqueKeys(rows)
  {
    var ks := Dedup(ObsKeys(out));
    var rows := seq(|ks|, i requires 0 <= i < |ks| => Row(ks[i], map[]));
    assert forall k :: k in KeySet(rows) <==> k in ks by {
      forall k ensures k in KeySet(rows) <==> k in ks {
        if k in ks {
          var i :| 0 <= i < |ks| && ks[i] == k;
          assert rows[i].key == k;
        }
      }
    }
    rows
  }

  /** Left-merges the frames onto `base`, first frame first. */
  function FoldMerge(base: seq<Row>, frames: seq<seq<Row>>): seq<Row>
    decreases |frames|
  {
    if frames == [] then base
    else LeftMerge(FoldMerge(base, frames[..|frames| - 1]), frames[|frames| - 1])
  }

  /** `get_obs_lags`: one row per distinct observation index, then a left merge
      per lag of the observations moved `l` hours later. With no observation
      the fetched empty frame is returned. */
  function ObsLags(obs: seq<Observation>, variable: string, lags: seq<nat>): (f: Frame)
    ensures |f.columns| >= 3 && f.columns[..3] == IndexColumns
  {
    var df := ObsOf(obs, variable);
    if df == [] then Frame(ObservationFetchColumns, [])
    else
      var out := Sort(df, ObsLe);
      Frame(IndexColumns + LagColumns(lags), FoldMerge(BaseRows(out), LagFrames(out, lags)))
  }

  /** What a row says about lag `l`: the lag cell is present exactly when an
      observation exists `l` hours before the row's valid time, and holds one
      such observation's value. */
  predicate LagCell(r: Row, obs: seq<Observation>, variable: string, l: nat) {
    && (LagName(l) in r.cells <==> HasObs(obs, variable, Earlier(r.key, l)))
    && (LagName(l) in r.cells ==> ObsValueAt(obs, variable, Earlier(r.key, l), r.cells[LagName(l)]))
  }

  /** The lag table after merging the first `m` lag frames. */
  predicate FoldedRow(r: Row, obs: seq<Observation>, variable: string, lags: seq<nat>, m: nat)
    requires m <= |lags|
  {
    && r.cells.Keys <= LagNamesUpTo(lags, m)
    && forall i :: 0 <= i < m ==> LagCell(r, obs, variable, lags[i])
  }

  /** Lag `m - 1` adds a column name the earlier lags do not have. */
  lemma NewLagName(lags: seq<nat>, m: nat)
    requires Distinct(lags) && 0 < m <= |lags|
    ensures LagName(lags[m - 1]) !in LagNamesUpTo(lags, m - 1)
    ensures LagNamesUpTo(lags, m) == LagNamesUpTo(lags, m - 1) + {LagName(lags[m - 1])}
  {
    forall i | 0 <= i < m - 1 ensures LagName(lags[i]) != LagName(lags[m - 1]) {
      LagNameInjective(lags[i], lags[m - 1]);
    }
  }

  /** A row of the partial lag table with no partner in the next lag frame has
      no observation that many hours earlier. */
  lemma FoldStepUnmatched(obs: seq<Observation>, variable: string, lags: seq<nat>,
                          out: seq<Observation>, m: nat, a: Row)
    requires Distinct(lags) && 0 < m <= |lags|
    requires forall o :: o in out <==> o in obs && o.variable == variable
    requires FoldedRow(a, obs, variable, lags, m - 1)
    requires Matches(a.key, LaggedRows(out, lags[m - 1])) == []
    ensures FoldedRow(a, obs, variable, lags, m)
  {
    var l := lags[m - 1];
    var right := LaggedRows(out, l);
    NewLagName(lags, m);
    forall o | o in obs && o.variable == variable ensures ObsKey(o) != Earlier(a.key, l) {
      var j :| 0 <= j < |out| && out[j] == o;
      assert right[j].key == Shift(ObsKey(o), l);
      assert right[j] !in Matches(a.key, right);
    }
    assert LagCell(a, obs, variable, l);
  }

  /** Joining a partial lag-table row with a lagged observation adds exactly
      that lag's cell. */
  lemma FoldStepJoined(obs: seq<Observation>, variable: string, lags: seq<nat>,
                       out: seq<Observation>, m: nat, a: Row, s: Row)
    requires Distinct(lags) && 0 < m <= |lags|
    requires forall o :: o in out <==> o in obs && o.variable == variable
    requires FoldedRow(a, obs, variable, lags, m - 1)
    requires s in LaggedRows(out, lags[m - 1]) && s.key == a.key
    ensures FoldedRow(Joined(a, s), obs, variable, lags, m)
  {
    var l := lags[m - 1];
    var ob := LaggedSource(out, l, s);
    assert Joined(a, s) == Row(a.key, a.cells[LagName(l) := ob.value]);
    JoinedFolded(a, obs, variable, lags, m, ob);
  }

  /** The observation a lagged row was made from. */
  lemma LaggedSource(out: seq<Observation>, l: nat, s: Row) returns (ob: Observation)
    requires s in LaggedRows(out, l)
    ensures ob in out && s == Row(Shift(ObsKey(ob), l), map[LagName(l) := ob.value])
  {
    var right := LaggedRows(out, l);
    var j :| 0 <= j < |out| && right[j] == s;
    ob := out[j];
  }

  /** A partial lag-table row given lag `m - 1`'s cell from an observation
      that many hours earlier. */
  lemma JoinedFolded(a: Row, obs: seq<Observation>, variable: string, lags: seq<nat>, m: nat, ob: Observation)
    requires Distinct(lags) && 0 < m <= |lags|
    requires FoldedRow(a, obs, variable, lags, m - 1)
    requires ob in obs && ob.variable == variable && ObsKey(ob) == Earlier(a.key, lags[m - 1])
    ensures FoldedRow(Row(a.key, a.cells[LagName(lags[m - 1]) := ob.value]), obs, variable, lags, m)
  {
    var o := Row(a.key, a.cells[LagName(lags[m - 1]) := ob.value]);
    NewLagName(lags, m);
    NewLagCell(a, obs, variable, lags[m - 1], ob);
    forall i | 0 <= i < m - 1 ensures LagCell(o, obs, variable, lags[i]) {
      OlderLagKept(a, o, obs, variable, lags, m, i, ob.value);
    }
  }

  /** The cell of lag `l` taken from an observation `l` hours earlier. */
  lemma NewLagCell(a: Row, obs: seq<Observation>, variable: string, l: nat, ob: Observation)
    requires ob in obs && ob.variable == variable && ObsKey(ob) == Earlier(a.key, l)
    ensures LagCell(Row(a.key, a.cells[LagName(l) := ob.value]), obs, variable, l)
  {
  }

  /** Adding lag `m - 1`'s cell leaves the cells of the earlier lags alone. */
  lemma OlderLagKept(a: Row, o: Row, obs: seq<Observation>, variable: string, lags: seq<nat>, m: nat, i: nat, v: real)
    requires 0 < m <= |lags| && i < m - 1
    requires LagName(lags[m - 1]) !in LagNamesUpTo(lags, m - 1)
    requires o == Row(a.key, a.cells[LagName(lags[m - 1]) := v])
    requires LagCell(a, obs, variable, lags[i])
    ensures LagCell(o, obs, variable, lags[i])
  {
    assert LagName(lags[i]) in LagNamesUpTo(lags, m - 1);
  }

  lemma {:induction false} FoldFaithful(obs: seq<Observation>, variable: string, lags: seq<nat>,
                                        out: seq<Observation>, m: nat)
    requires Distinct(lags) && m <= |lags|
    requires forall o :: o in out <==> o in obs && o.variable == variable
    ensures var rows := FoldMerge(BaseRows(out), LagFrames(out, lags)[..m]);
      && KeySet(rows) == (set o | o in out :: ObsKey(o))
      && forall r :: r in rows ==> FoldedRow(r, obs, variable, lags, m)
    decreases m
  {
    var frames := LagFrames(out, lags)[..m];
    if m == 0 {
      assert frames == [];
    } else {
      FoldFaithful(obs, variable, lags, out, m - 1);
      assert frames[..m - 1] == LagFrames(out, lags)[..m - 1];
      var left := FoldMerge(BaseRows(out), frames[..m - 1]);
      var l := lags[m - 1];
      var right := LaggedRows(out, l);
      assert frames[m - 1] == right;
      MergeKeys(left, right);
      forall a | a in left && Matches(a.key, right) == []
        ensures FoldedRow(a, obs, variable, lags, m)
      {
        FoldStepUnmatched(obs, variable, lags, out, m, a);
      }
      forall a, s | a in left && s in right && s.key == a.key
        ensures FoldedRow(Joined(a, s), obs, variable, lags, m)
      {
        FoldStepJoined(obs, variable, lags, out, m, a, s);
      }
      MergeHolds(left, right, r => FoldedRow(r, obs, variable, lags, m));
    }
  }

  /** The lag table's index values are exactly those of the observations (of
      any observation, not only those with a lagged partner), and each lag
      column holds an observation exactly `l` hours older when one exists.
      Repeated observations repeat rows through the merges; `LagTableUnique`
      gives one row per index when observations do not repeat. */
  lemma ObsLagsFaithful(obs: seq<Observation>, variable: string, lags: seq<nat>)
    requires Distinct(lags)
    ensures var f := ObsLags(obs, variable, lags);
      && (forall k :: k in KeySet(f.rows) <==> HasObs(obs, variable, k))
      && forall r :: r in f.rows ==>
           r.cells.Keys <= LagNamesUpTo(lags, |lags|)
           && forall i :: 0 <= i < |lags| ==> LagCell(r, obs, variable, lags[i])
  {
    var df := ObsOf(obs, variable);
    if df != [] {
      var out := Sort(df, ObsLe);
      forall o ensures o in out <==> o in obs && o.variable == variable {
        assert o in out <==> o in multiset(out);
      }
      FoldFaithful(obs, variable, lags, out, |lags|);
      assert LagFrames(out, lags)[..|lags|] == LagFrames(out, lags);
      forall k ensures k in KeySet(ObsLags(obs, variable, lags).rows) <==> HasObs(obs, variable, k) {
        if HasObs(obs, variable, k) {
          var o :| o in obs && o.variable == variable && ObsKey(o) == k;
          assert o in out;
        }
      }
    }
  }

  /** `get_obs_lags` as the source runs it: the lagged frames are collected in
      a list, then folded onto the distinct indexes one left merge at a time. */
  method GetObsLags(obs: seq<Observation>, variable: string, lags: seq<nat>) returns (f: Frame)
    ensures f == ObsLags(obs, variable, lags)
  {
    var df := ObsOf(obs, variable);
    if df == [] {
      return Frame(ObservationFetchColumns, []);
    }
    var out := Sort(df, ObsLe);
    var frames: seq<seq<Row>> := [];
    var columns := IndexColumns;
    for i := 0 to |lags|
      invariant frames == LagFrames(out, lags)[..i]
      invariant columns == IndexColumns + LagColumns(lags)[..i]
    {
      frames := frames + [LaggedRows(out, lags[i])];
      columns := columns + [LagName(lags[i])];
    }
    assert frames == LagFrames(out, lags);
    assert LagColumns(lags)[..|lags|] == LagColumns(lags);
    var base := BaseRows(out);
    for j := 0 to |frames|
      invariant base == FoldMerge(BaseRows(out), frames[..j])
    {
      assert frames[..j + 1][..j] == frames[..j];
      base := LeftMerge(base, frames[j]);
    }
    assert frames[..|frames|] == frames;
    f := Frame(columns, base);
  }

  /** The lag column names are none of the other columns of the matrix. */
  lemma LagNameShape(l: nat)
    ensures LagName(l) !in VendorNames()
    ensures LagName(l) !in {"hour", "dow", "y", "y_m1", "y_p1"}
  {
    assert LagName(l)[1] == 'b';
  }

  // ---------------------------------------------------------------------------
  // calendar_features

  /** Hour of day (UTC) of a time in hours since the epoch. */
  function Hour(t: int): (h: int)
    ensures 0 <= h < 24
  {
    t % 24
  }

  /** Day of week, Monday = 0; 1970-01-01 was a Thursday. */
  function Dow(t: int): (d: int)
    ensures 0 <= d < 7
  {
    (t / 24 + 3) % 7
  }

  /** The epoch is a Thursday at hour 0 and 1970-01-05 a Monday. */
  lemma CalendarEpoch()
    ensures Hour(0) == 0 && Dow(0) == 3
    ensures Hour(96) == 0 && Dow(96) == 0
  {
  }

  /** A day later: the same hour, the next day of the week. */
  lemma CalendarDaily(t: int)
    ensures Hour(t + 24) == Hour(t)
    ensures Dow(t + 24) == (Dow(t) + 1) % 7
  {
    var q := t / 24;
    assert t + 24 == 24 * (q + 1) + t % 24;
    assert (t + 24) / 24 == q + 1;
  }

  datatype CalRow = CalRow(t: int, hour: int, dow: int)

  function Times(rows: seq<Row>): (ts: seq<int>)
    ensures forall r :: r in rows ==> r.key.t in ts
  {
    if rows == [] then []
    else
      assert rows == [rows[0]] + rows[1..];
      [rows[0].key.t] + Times(rows[1..])
  }

  /** `calendar_features` over a column of valid times. */
  function CalendarFeatures(times: seq<int>): seq<CalRow> {
    if times == [] then [] else [CalRow(times[0], Hour(times[0]), Dow(times[0]))] + CalendarFeatures(times[1..])
  }

  function TimeMatches(t: int, cal: seq<CalRow>): seq<CalRow> {
    if cal == [] then [] else (if cal[0].t == t then [cal[0]] else []) + TimeMatches(t, cal[1..])
  }

  function WithCalendar(a: Row, c: CalRow): Row {
    Row(a.key, a.cells["hour" := c.hour as real]["dow" := c.dow as real])
  }

  /** `X.merge(cal, on="valid_time", how="left")`. */
  function MergeOnTime(rows: seq<Row>, cal: seq<CalRow>): seq<Row> {
    if rows == [] then []
    else
      var m := TimeMatches(rows[0].key.t, cal);
      (if m == [] then [rows[0]] else seq(|m|, i requires 0 <= i < |m| => WithCalendar(rows[0], m[i])))
      + MergeOnTime(rows[1..], cal)
  }

  /** Lines 75-76 of the builder: the calendar of the distinct valid times,
      merged back on the valid time. */
  function AttachCalendar(x: seq<Row>): seq<Row> {
    MergeOnTime(x, CalendarFeatures(Dedup(Times(x))))
  }

  /** A row with its own hour and day of week. */
  function AddCalendar(a: Row): (o: Row)
    ensures o.key == a.key
  {
    WithCalendar(a, CalRow(a.key.t, Hour(a.key.t), Dow(a.key.t)))
  }

  function AddCalendarAll(rows: seq<Row>): (r: seq<Row>)
    ensures |r| == |rows| && forall i :: 0 <= i < |rows| ==> r[i] == AddCalendar(rows[i])
  {
    if rows == [] then [] else [AddCalendar(rows[0])] + AddCalendarAll(rows[1..])
  }

  lemma {:induction false} NoTimeMatch(t: int, times: seq<int>)
    requires forall i :: 0 <= i < |times| ==> times[i] != t
    ensures TimeMatches(t, CalendarFeatures(times)) == []
  {
    if times != [] {
      NoTimeMatch(t, times[1..]);
    }
  }

  lemma {:induction false} CalendarMatch(t: int, times: seq<int>)
    requires Distinct(times) && t in times
    ensures TimeMatches(t, CalendarFeatures(times)) == [CalRow(t, Hour(t), Dow(t))]
  {
    if times[0] == t {
      NoTimeMatch(t, times[1..]);
    } else {
      CalendarMatch(t, times[1..]);
    }
  }

  lemma {:induction false} MergeOnTimeDistinct(rows: seq<Row>, times: seq<int>)
    requires Distinct(times) && forall r :: r in rows ==> r.key.t in times
    ensures MergeOnTime(rows, CalendarFeatures(times)) == AddCalendarAll(rows)
  {
    if rows != [] {
      CalendarMatch(rows[0].key.t, times);
      MergeOnTimeDistinct(rows[1..], times);
    }
  }

  /** The calendar merge gives every row, one for one and in order, the hour
      and day of week of its own valid time. */
  lemma CalendarMerge(x: seq<Row>)
    ensures AttachCalendar(x) == AddCalendarAll(x)
  {
    MergeOnTimeDistinct(x, Dedup(Times(x)));
  }

  predicate CalendarCells(o: Row) {
    && "hour" in o.cells && o.cells["hour"] == Hour(o.key.t) as real
    && "dow" in o.cells && o.cells["dow"] == Dow(o.key.t) as real
  }

  // ---------------------------------------------------------------------------
  // target

  function ObsTarget(o: Observation): Row {
    Row(ObsKey(o), map["y" := o.value])
  }

  function ObsTargets(os: seq<Observation>): (ys: seq<Row>)
    ensures forall s :: s in ys <==> exists o :: o in os && s == ObsTarget(o)
    ensures |ys| == |os| && forall i :: 0 <= i < |os| ==> ys[i] == ObsTarget(os[i])
  {
    if os == [] then []
    else
      assert os == [os[0]] + os[1..];
      [ObsTarget(os[0])] + ObsTargets(os[1..])
  }

  /** The target query: each observation as a row with cell `y`. */
  function TargetRows(obs: seq<Observation>, variable: string): seq<Row> {
    ObsTargets(ObsOf(obs, variable))
  }

  function ShiftRows(rows: seq<Row>, d: int): (r: seq<Row>)
    ensures |r| == |rows|
    ensures forall i :: 0 <= i < |rows| ==> r[i] == Row(Shift(rows[i].key, d), rows[i].cells)
  {
    if rows == [] then [] else [Row(Shift(rows[0].key, d), rows[0].cells)] + ShiftRows(rows[1..], d)
  }

  /** `rename(columns={"y": c})` followed by projection on the index and `c`. */
  function TakeAs(rows: seq<Row>, c: string): (r: seq<Row>)
    ensures |r| == |rows|
    ensures forall i :: 0 <= i < |rows| ==>
      (r[i].key == rows[i].key && r[i].cells == (if "y" in rows[i].cells then map[c := rows[i].cells["y"]] else map[]))
  {
    if rows == [] then []
    else
      var a := rows[0];
      [Row(a.key, if "y" in a.cells then map[c := a.cells["y"]] else map[])] + TakeAs(rows[1..], c)
  }

  /** Line 109-110: `y` filled from `y_m1`, then from `y_p1`; both dropped. */
  function Fill(r: Row): (o: Row)
    ensures o.key == r.key
  {
    var cells := r.cells - {"y_m1", "y_p1"};
    if "y" in r.cells then Row(r.key, cells)
    else if "y_m1" in r.cells then Row(r.key, cells["y" := r.cells["y_m1"]])
    else if "y_p1" in r.cells then Row(r.key, cells["y" := r.cells["y_p1"]])
    else Row(r.key, cells)
  }

  function FillAll(rows: seq<Row>): (r: seq<Row>)
    ensures |r| == |rows| && forall i :: 0 <= i < |rows| ==> r[i] == Fill(rows[i])
  {
    if rows == [] then [] else [Fill(rows[0])] + FillAll(rows[1..])
  }

  /** Lines 88-110 as written: the -1 h and +1 h candidates are merged back
      on their shifted valid times. */
  function JoinTarget(x: seq<Row>, ys: seq<Row>): seq<Row> {
    var xy := LeftMerge(x, ys);
    var m1 := TakeAs(LeftMerge(ShiftRows(x, -1), ys), "y_m1");
    var p1 := TakeAs(LeftMerge(ShiftRows(x, 1), ys), "y_p1");
    FillAll(LeftMerge(LeftMerge(xy, m1), p1))
  }

  /** `build_features`. */
  function Features(fs: seq<Forecast>, obs: seq<Observation>, variable: string, horizon: int): Frame {
    var vend := VendorMatrix(fs, variable, horizon);
    if IsEmpty(vend) then vend
    else
      var lags := ObsLags(obs, variable, DefaultLags);
      var x := AttachCalendar(LeftMerge(vend.rows, lags.rows));
      var ys := TargetRows(obs, variable);
      if ys == [] then Frame([], [])
      else Frame(vend.columns + lags.columns[3..] + ["hour", "dow", "y"], JoinTarget(x, ys))
  }

  /** The target column: present exactly when an observation exists at the
      row's own location and valid time, holding one such value. */
  predicate TargetCell(o: Row, obs: seq<Observation>, variable: string) {
    && ("y" in o.cells <==> HasObs(obs, variable, o.key))
    && ("y" in o.cells ==> ObsValueAt(obs, variable, o.key, o.cells["y"]))
  }

  /** `o` has `a`'s index and `a`'s cells outside `drop`. */
  ghost predicate Agrees(o: Row, a: Row, drop: set<string>) {
    && o.key == a.key
    && forall c :: c !in drop ==> (c in o.cells <==> c in a.cells) && (c in o.cells ==> o.cells[c] == a.cells[c])
  }

  ghost predicate CarriedFrom(o: Row, rows: seq<Row>, drop: set<string>) {
    exists a :: a in rows && Agrees(o, a, drop)
  }

  const TargetNames: set<string> := {"y", "y_m1", "y_p1"}

  predicate NoTargetCells(rows: seq<Row>) {
    forall a :: a in rows ==> a.cells.Keys !! TargetNames
  }

  lemma TargetRowsKeys(obs: seq<Observation>, variable: string)
    ensures forall s :: s in TargetRows(obs, variable) ==>
      (s.cells.Keys == {"y"} && ObsValueAt(obs, variable, s.key, s.cells["y"]))
    ensures forall k :: HasObs(obs, variable, k) ==> k in KeySet(TargetRows(obs, variable))
  {
    forall k | HasObs(obs, variable, k) ensures k in KeySet(TargetRows(obs, variable)) {
      var o :| o in obs && o.variable == variable && ObsKey(o) == k;
      assert ObsTarget(o) in TargetRows(obs, variable);
    }
  }

  /** Joining the target onto rows without target cells: `y` is the exact-time
      observation, everything else is kept. */
  lemma JoinY(rows: seq<Row>, obs: seq<Observation>, variable: string)
    requires NoTargetCells(rows)
    ensures forall o :: o in LeftMerge(rows, TargetRows(obs, variable)) ==>
      (TargetCell(o, obs, variable) && o.cells.Keys !! {"y_m1", "y_p1"} && CarriedFrom(o, rows, {"y"}))
  {
    var ys := TargetRows(obs, variable);
    TargetRowsKeys(obs, variable);
    forall a | a in rows && Matches(a.key, ys) == []
      ensures TargetCell(a, obs, variable) && a.cells.Keys !! {"y_m1", "y_p1"} && CarriedFrom(a, rows, {"y"})
    {
      UnmatchedKeyAbsent(a.key, ys);
      assert Agrees(a, a, {"y"});
    }
    forall a, s | a in rows && s in ys && s.key == a.key
      ensures TargetCell(Joined(a, s), obs, variable) && Joined(a, s).cells.Keys !! {"y_m1", "y_p1"}
           && CarriedFrom(Joined(a, s), rows, {"y"})
    {
      assert Agrees(Joined(a, s), a, {"y"});
    }
    MergeHolds(rows, ys, o => TargetCell(o, obs, variable) && o.cells.Keys !! {"y_m1", "y_p1"} && CarriedFrom(o, rows, {"y"}));
  }

  /** A candidate column `c` (y_m1 or y_p1) built as the source builds it: a
      present cell is an observation at the candidate row's own index. */
  lemma CandidateRows(x: seq<Row>, d: int, obs: seq<Observation>, variable: string, c: string)
    requires NoTargetCells(x)
    ensures forall r :: r in TakeAs(LeftMerge(ShiftRows(x, d), TargetRows(obs, variable)), c) ==>
      (r.cells.Keys <= {c} && (c in r.cells ==> ObsValueAt(obs, variable, r.key, r.cells[c])))
  {
    var sx := ShiftRows(x, d);
    ShiftedNoTarget(x, d);
    JoinYCells(sx, obs, variable);
    var joined := LeftMerge(sx, TargetRows(obs, variable));
    var t := TakeAs(joined, c);
    forall r | r in t ensures r.cells.Keys <= {c} && (c in r.cells ==> ObsValueAt(obs, variable, r.key, r.cells[c])) {
      var i :| 0 <= i < |t| && t[i] == r;
      assert joined[i] in joined;
      TakenCell(joined[i], r, c, obs, variable);
    }
  }

  /** A row of a `TakeAs` frame keeps its source row's target value under `c`. */
  lemma TakenCell(j: Row, r: Row, c: string, obs: seq<Observation>, variable: string)
    requires TargetCell(j, obs, variable)
    requires r.key == j.key && r.cells == (if "y" in j.cells then map[c := j.cells["y"]] else map[])
    ensures r.cells.Keys <= {c} && (c in r.cells ==> ObsValueAt(obs, variable, r.key, r.cells[c]))
  {
  }

  ghost predicate AfterM1(o: Row, x: seq<Row>, obs: seq<Observation>, variable: string) {
    && TargetCell(o, obs, variable)
    && "y_p1" !in o.cells
    && ("y_m1" in o.cells ==> ObsValueAt(obs, variable, o.key, o.cells["y_m1"]))
    && CarriedFrom(o, x, {"y", "y_m1"})
  }

  ghost predicate AfterP1(o: Row, x: seq<Row>, obs: seq<Observation>, variable: string) {
    && TargetCell(o, obs, variable)
    && ("y_m1" in o.cells ==> ObsValueAt(obs, variable, o.key, o.cells["y_m1"]))
    && ("y_p1" in o.cells ==> ObsValueAt(obs, variable, o.key, o.cells["y_p1"]))
    && CarriedFrom(o, x, TargetNames)
  }

  /** Line 105: merging the -1 h candidates on the shifted valid time. */
  lemma MergeM1(x: seq<Row>, obs: seq<Observation>, variable: string)
    requires NoTargetCells(x)
    ensures var ys := TargetRows(obs, variable);
      forall o :: o in LeftMerge(LeftMerge(x, ys), TakeAs(LeftMerge(ShiftRows(x, -1), ys), "y_m1")) ==>
        AfterM1(o, x, obs, variable)
  {
    var ys := TargetRows(obs, variable);
    var xy := LeftMerge(x, ys);
    var m1 := TakeAs(LeftMerge(ShiftRows(x, -1), ys), "y_m1");
    JoinY(x, obs, variable);
    CandidateRows(x, -1, obs, variable, "y_m1");
    forall a | a in xy && Matches(a.key, m1) == [] ensures AfterM1(a, x, obs, variable) {
      AfterM1Unmatched(a, x, obs, variable);
    }
    forall a, s | a in xy && s in m1 && s.key == a.key ensures AfterM1(Joined(a, s), x, obs, variable) {
      AfterM1Joined(a, s, x, obs, variable);
    }
    MergeHolds(xy, m1, o => AfterM1(o, x, obs, variable));
  }

  /** A row of the exact-time join. */
  ghost predicate AfterY(a: Row, x: seq<Row>, obs: seq<Observation>, variable: string) {
    TargetCell(a, obs, variable) && a.cells.Keys !! {"y_m1", "y_p1"} && CarriedFrom(a, x, {"y"})
  }

  /** A candidate row for column `c`. */
  predicate CandidateOf(s: Row, c: string, obs: seq<Observation>, variable: string) {
    s.cells.Keys <= {c} && (c in s.cells ==> ObsValueAt(obs, variable, s.key, s.cells[c]))
  }

  lemma AfterM1Unmatched(a: Row, x: seq<Row>, obs: seq<Observation>, variable: string)
    requires AfterY(a, x, obs, variable)
    ensures AfterM1(a, x, obs, variable)
  {
    var b :| b in x && Agrees(a, b, {"y"});
    assert Agrees(a, b, {"y", "y_m1"});
  }

  lemma AfterM1Joined(a: Row, s: Row, x: seq<Row>, obs: seq<Observation>, variable: string)
    requires AfterY(a, x, obs, variable) && CandidateOf(s, "y_m1", obs, variable) && s.key == a.key
    ensures AfterM1(Joined(a, s), x, obs, variable)
  {
    var b :| b in x && Agrees(a, b, {"y"});
    assert Agrees(Joined(a, s), b, {"y", "y_m1"});
  }

  lemma AfterP1Unmatched(a: Row, x: seq<Row>, obs: seq<Observation>, variable: string)
    requires AfterM1(a, x, obs, variable)
    ensures AfterP1(a, x, obs, variable)
  {
    var b :| b in x && Agrees(a, b, {"y", "y_m1"});
    assert Agrees(a, b, TargetNames);
  }

  lemma AfterP1Joined(a: Row, s: Row, x: seq<Row>, obs: seq<Observation>, variable: string)
    requires AfterM1(a, x, obs, variable) && CandidateOf(s, "y_p1", obs, variable) && s.key == a.key
    ensures AfterP1(Joined(a, s), x, obs, variable)
  {
    var b :| b in x && Agrees(a, b, {"y", "y_m1"});
    assert Agrees(Joined(a, s), b, TargetNames);
  }

  /** Line 106: merging the +1 h candidates on the shifted valid time. */
  lemma MergeP1(x: seq<Row>, obs: seq<Observation>, variable: string)
    requires NoTargetCells(x)
    ensures var ys := TargetRows(obs, variable);
      var xy := LeftMerge(LeftMerge(x, ys), TakeAs(LeftMerge(ShiftRows(x, -1), ys), "y_m1"));
      forall o :: o in LeftMerge(xy, TakeAs(LeftMerge(ShiftRows(x, 1), ys), "y_p1")) ==>
        AfterP1(o, x, obs, variable)
  {
    var ys := TargetRows(obs, variable);
    var xy := LeftMerge(LeftMerge(x, ys), TakeAs(LeftMerge(ShiftRows(x, -1), ys), "y_m1"));
    var p1 := TakeAs(LeftMerge(ShiftRows(x, 1), ys), "y_p1");
    MergeM1(x, obs, variable);
    CandidateRows(x, 1, obs, variable, "y_p1");
    forall a | a in xy && Matches(a.key, p1) == [] ensures AfterP1(a, x, obs, variable) {
      AfterP1Unmatched(a, x, obs, variable);
    }
    forall a, s | a in xy && s in p1 && s.key == a.key ensures AfterP1(Joined(a, s), x, obs, variable) {
      AfterP1Joined(a, s, x, obs, variable);
    }
    MergeHolds(xy, p1, o => AfterP1(o, x, obs, variable));
  }

  /** Line 109: a row without an exact observation has no candidate either, so
      the fill changes nothing; it only drops the candidate columns. */
  lemma FillNeverFills(r: Row, x: seq<Row>, obs: seq<Observation>, variable: string)
    requires NoTargetCells(x) && AfterP1(r, x, obs, variable)
    ensures Fill(r) == Row(r.key, r.cells - {"y_m1", "y_p1"})
    ensures TargetCell(Fill(r), obs, variable) && CarriedFrom(Fill(r), x, {"y"})
  {
    var b :| b in x && Agrees(r, b, TargetNames);
    assert b.cells.Keys !! TargetNames;
    assert Agrees(Fill(r), b, {"y"});
  }

  lemma FillAllKeys(rows: seq<Row>)
    ensures KeySet(FillAll(rows)) == KeySet(rows)
  {
    var f := FillAll(rows);
    forall k ensures k in KeySet(f) <==> k in KeySet(rows) {
      if k in KeySet(f) {
        var o :| o in f && o.key == k;
        var i :| 0 <= i < |f| && f[i] == o;
        assert rows[i] in rows;
      }
      if k in KeySet(rows) {
        var a :| a in rows && a.key == k;
        var i :| 0 <= i < |rows| && rows[i] == a;
        assert f[i] in f;
      }
    }
  }

  /** The target join as written: every row keeps the index and the cells of
      a row of `x`, and `y` is present exactly when an observation exists at
      the row's own index; no index is lost or added. */
  lemma TargetJoinFaithful(x: seq<Row>, obs: seq<Observation>, variable: string)
    requires NoTargetCells(x)
    ensures var rows := JoinTarget(x, TargetRows(obs, variable));
      && KeySet(rows) == KeySet(x)
      && forall o :: o in rows ==> TargetCell(o, obs, variable) && CarriedFrom(o, x, {"y"})
  {
    var ys := TargetRows(obs, variable);
    var xy := LeftMerge(x, ys);
    var m1 := TakeAs(LeftMerge(ShiftRows(x, -1), ys), "y_m1");
    var p1 := TakeAs(LeftMerge(ShiftRows(x, 1), ys), "y_p1");
    var xy2 := LeftMerge(LeftMerge(xy, m1), p1);
    MergeP1(x, obs, variable);
    MergeKeys(x, ys);
    MergeKeys(xy, m1);
    MergeKeys(LeftMerge(xy, m1), p1);
    FillAllKeys(xy2);
    var rows := FillAll(xy2);
    forall o | o in rows ensures TargetCell(o, obs, variable) && CarriedFrom(o, x, {"y"}) {
      var i :| 0 <= i < |rows| && rows[i] == o;
      assert xy2[i] in xy2;
      FillNeverFills(xy2[i], x, obs, variable);
    }
  }

  // ---------------------------------------------------------------------------
  // the whole matrix

  /** Lag `l` of a matrix row: present exactly when observations exist both at
      the row's own index and `l` hours earlier; the value is the earlier one. */
  predicate PairedLagCell(o: Row, obs: seq<Observation>, variable: string, l: nat) {
    && (LagName(l) in o.cells <==> HasObs(obs, variable, o.key) && HasObs(obs, variable, Earlier(o.key, l)))
    && (LagName(l) in o.cells ==> ObsValueAt(obs, variable, Earlier(o.key, l), o.cells[LagName(l)]))
  }

  /** Everything a feature row says apart from the target. */
  predicate MatrixRow(o: Row, fs: seq<Forecast>, obs: seq<Observation>, variable: string) {
    && VendorKey(fs, variable, o.key)
    && VendorCells(o, fs, variable)
    && (forall i :: 0 <= i < |DefaultLags| ==> PairedLagCell(o, obs, variable, DefaultLags[i]))
    && CalendarCells(o)
  }

  lemma DefaultLagsDistinct()
    ensures Distinct(DefaultLags)
  {
  }

  function XNames(): set<string> {
    VendorNames() + LagNamesUpTo(DefaultLags, |DefaultLags|)
  }

  /** A row of the vendor matrix merged with the lag table. */
  predicate XRow(o: Row, fs: seq<Forecast>, obs: seq<Observation>, variable: string) {
    && VendorKey(fs, variable, o.key) && VendorCells(o, fs, variable)
    && o.cells.Keys <= XNames()
    && forall i :: 0 <= i < |DefaultLags| ==> PairedLagCell(o, obs, variable, DefaultLags[i])
  }

  lemma LagNamesApart()
    ensures forall i :: 0 <= i < |DefaultLags| ==>
      LagName(DefaultLags[i]) !in VendorNames() && LagName(DefaultLags[i]) !in {"hour", "dow", "y", "y_m1", "y_p1"}
  {
    forall i | 0 <= i < |DefaultLags|
      ensures LagName(DefaultLags[i]) !in VendorNames() && LagName(DefaultLags[i]) !in {"hour", "dow", "y", "y_m1", "y_p1"}
    {
      LagNameShape(DefaultLags[i]);
    }
  }

  /** A vendor row without an observation at its index gets no lag cell. */
  lemma XUnmatched(a: Row, fs: seq<Forecast>, obs: seq<Observation>, variable: string, horizon: int)
    requires a in VendorMatrix(fs, variable, horizon).rows
    requires !HasObs(obs, variable, a.key)
    ensures XRow(a, fs, obs, variable)
  {
    VendorMatrixKeys(fs, variable, horizon);
    VendorMatrixCells(fs, variable, horizon);
    assert a.key in KeySet(VendorMatrix(fs, variable, horizon).rows);
    LagNamesApart();
  }

  /** A vendor row joined with the lag-table row of its index. */
  lemma XJoined(a: Row, s: Row, fs: seq<Forecast>, obs: seq<Observation>, variable: string, horizon: int)
    requires a in VendorMatrix(fs, variable, horizon).rows
    requires s in ObsLags(obs, variable, DefaultLags).rows && s.key == a.key
    ensures XRow(Joined(a, s), fs, obs, variable)
  {
    VendorMatrixKeys(fs, variable, horizon);
    VendorMatrixCells(fs, variable, horizon);
    assert a.key in KeySet(VendorMatrix(fs, variable, horizon).rows);
    DefaultLagsDistinct();
    ObsLagsFaithful(obs, variable, DefaultLags);
    LagNamesApart();
    assert s.key in KeySet(ObsLags(obs, variable, DefaultLags).rows);
    var o := Joined(a, s);
    forall i | 0 <= i < |DefaultLags| ensures PairedLagCell(o, obs, variable, DefaultLags[i]) {
      assert LagCell(s, obs, variable, DefaultLags[i]);
    }
    assert VendorCells(o, fs, variable);
  }

  /** Line 74: the vendor matrix left-merged with the lag table. */
  lemma LagMergeFaithful(fs: seq<Forecast>, obs: seq<Observation>, variable: string, horizon: int)
    ensures var x := LeftMerge(VendorMatrix(fs, variable, horizon).rows, ObsLags(obs, variable, DefaultLags).rows);
      && KeySet(x) == KeySet(VendorMatrix(fs, variable, horizon).rows)
      && forall o :: o in x ==> XRow(o, fs, obs, variable)
  {
    var vm := VendorMatrix(fs, variable, horizon).rows;
    var lags := ObsLags(obs, variable, DefaultLags).rows;
    DefaultLagsDistinct();
    ObsLagsFaithful(obs, variable, DefaultLags);
    MergeKeys(vm, lags);
    forall a | a in vm && Matches(a.key, lags) == [] ensures XRow(a, fs, obs, variable) {
      UnmatchedKeyAbsent(a.key, lags);
      XUnmatched(a, fs, obs, variable, horizon);
    }
    forall a, s | a in vm && s in lags && s.key == a.key ensures XRow(Joined(a, s), fs, obs, variable) {
      XJoined(a, s, fs, obs, variable, horizon);
    }
    MergeHolds(vm, lags, o => XRow(o, fs, obs, variable));
  }

  lemma CalendarVendorCells(a: Row, fs: seq<Forecast>, variable: string)
    requires VendorCells(a, fs, variable)
    ensures VendorCells(AddCalendar(a), fs, variable)
  {
    forall s | s in Vendors
      ensures && (s in AddCalendar(a).cells <==> HasForecast(fs, variable, s, a.key))
              && (s in AddCalendar(a).cells ==> AddCalendar(a).cells[s] == Mean(ValuesAt(VendorRecords(fs, variable), a.key, s)))
    {
      VendorNotCalendar(s);
      CalendarKeeps(a, s);
    }
  }

  lemma VendorNotCalendar(s: string)
    requires s in Vendors
    ensures s != "hour" && s != "dow" && s != "y"
  {
  }

  lemma CalendarLagCells(a: Row, fs: seq<Forecast>, obs: seq<Observation>, variable: string)
    requires XRow(a, fs, obs, variable)
    ensures forall i :: 0 <= i < |DefaultLags| ==> PairedLagCell(AddCalendar(a), obs, variable, DefaultLags[i])
  {
    forall i | 0 <= i < |DefaultLags| ensures PairedLagCell(AddCalendar(a), obs, variable, DefaultLags[i]) {
      LagNameShape(DefaultLags[i]);
      CalendarKeeps(a, LagName(DefaultLags[i]));
    }
  }

  lemma CalendarNoTarget(a: Row)
    requires a.cells.Keys <= XNames()
    ensures AddCalendar(a).cells.Keys !! TargetNames
  {
    XNamesApart();
    forall c | c in AddCalendar(a).cells.Keys ensures c !in TargetNames {
      if c != "hour" && c != "dow" {
        CalendarKeeps(a, c);
      }
    }
  }

  /** The calendar columns leave every other cell alone. */
  lemma CalendarKeeps(a: Row, c: string)
    requires c != "hour" && c != "dow"
    ensures c in AddCalendar(a).cells <==> c in a.cells
    ensures c in a.cells ==> AddCalendar(a).cells[c] == a.cells[c]
  {
  }

  /** Attaching the calendar to a merged row gives a matrix row. */
  lemma CalendarRow(a: Row, fs: seq<Forecast>, obs: seq<Observation>, variable: string)
    requires XRow(a, fs, obs, variable)
    ensures MatrixRow(AddCalendar(a), fs, obs, variable) && AddCalendar(a).cells.Keys !! TargetNames
  {
    CalendarVendorCells(a, fs, variable);
    CalendarLagCells(a, fs, obs, variable);
    CalendarNoTarget(a);
  }

  lemma XNamesApart()
    ensures forall c :: c in XNames() ==> c !in {"hour", "dow", "y", "y_m1", "y_p1"}
    ensures VendorNames() <= XNames()
    ensures forall i :: 0 <= i < |DefaultLags| ==> LagName(DefaultLags[i]) in XNames()
  {
    LagNamesApart();
  }

  lemma AddCalendarAllKeys(x: seq<Row>)
    ensures KeySet(AddCalendarAll(x)) == KeySet(x)
  {
    var r := AddCalendarAll(x);
    forall k | k in KeySet(x) ensures k in KeySet(r) {
      var a :| a in x && a.key == k;
      var j :| 0 <= j < |x| && x[j] == a;
      assert r[j] in r;
    }
  }

  lemma AddCalendarAllRows(x: seq<Row>, fs: seq<Forecast>, obs: seq<Observation>, variable: string)
    requires forall a :: a in x ==> XRow(a, fs, obs, variable)
    ensures NoTargetCells(AddCalendarAll(x))
    ensures forall o :: o in AddCalendarAll(x) ==> MatrixRow(o, fs, obs, variable)
  {
    var r := AddCalendarAll(x);
    forall o | o in r ensures MatrixRow(o, fs, obs, variable) && o.cells.Keys !! TargetNames {
      var j :| 0 <= j < |r| && r[j] == o;
      assert x[j] in x;
      CalendarRow(x[j], fs, obs, variable);
    }
  }

  /** Each row of the merged matrix, with the calendar attached. */
  lemma CalendarFaithful(fs: seq<Forecast>, obs: seq<Observation>, variable: string, horizon: int)
    ensures var x := AttachCalendar(LeftMerge(VendorMatrix(fs, variable, horizon).rows, ObsLags(obs, variable, DefaultLags).rows));
      && KeySet(x) == KeySet(VendorMatrix(fs, variable, horizon).rows)
      && NoTargetCells(x)
      && forall o :: o in x ==> MatrixRow(o, fs, obs, variable)
  {
    var x0 := LeftMerge(VendorMatrix(fs, variable, horizon).rows, ObsLags(obs, variable, DefaultLags).rows);
    LagMergeFaithful(fs, obs, variable, horizon);
    CalendarMerge(x0);
    AddCalendarAllKeys(x0);
    AddCalendarAllRows(x0, fs, obs, variable);
  }

  lemma MatrixRowAgrees(o: Row, a: Row, fs: seq<Forecast>, obs: seq<Observation>, variable: string)
    requires MatrixRow(a, fs, obs, variable) && Agrees(o, a, {"y"})
    ensures MatrixRow(o, fs, obs, variable)
  {
    AgreesVendorCells(o, a, fs, variable);
    forall i | 0 <= i < |DefaultLags| ensures PairedLagCell(o, obs, variable, DefaultLags[i]) {
      LagNameShape(DefaultLags[i]);
      AgreesOn(o, a, LagName(DefaultLags[i]));
      assert PairedLagCell(a, obs, variable, DefaultLags[i]);
    }
    AgreesOn(o, a, "hour");
    AgreesOn(o, a, "dow");
  }

  lemma AgreesOn(o: Row, a: Row, c: string)
    requires Agrees(o, a, {"y"}) && c != "y"
    ensures (c in o.cells <==> c in a.cells) && (c in o.cells ==> o.cells[c] == a.cells[c])
  {
  }

  lemma AgreesVendorCells(o: Row, a: Row, fs: seq<Forecast>, variable: string)
    requires VendorCells(a, fs, variable) && Agrees(o, a, {"y"})
    ensures VendorCells(o, fs, variable)
  {
    forall s | s in Vendors
      ensures (s in o.cells <==> HasForecast(fs, variable, s, o.key))
      ensures s in o.cells ==> o.cells[s] == Mean(ValuesAt(VendorRecords(fs, variable), o.key, s))
    {
      VendorNotCalendar(s);
      AgreesOn(o, a, s);
    }
  }

  /** The feature matrix: one row per vendor index (none at all when the
      vendor query or the observation table is empty); vendor columns are the
      pivoted means, lag `l` is present exactly when observations exist both
      at the row's index and `l` hours earlier, the calendar is that of the
      valid time, and `y` is present exactly when an observation exists at
      the row's own index: the -1 h / +1 h fallback never fills anything. */
  lemma FeaturesFaithful(fs: seq<Forecast>, obs: seq<Observation>, variable: string, horizon: int)
    ensures var f := Features(fs, obs, variable, horizon);
      && (f.rows == [] <==> VendorRecords(fs, variable) == [] || ObsOf(obs, variable) == [])
      && (forall k :: k in KeySet(f.rows) <==> VendorKey(fs, variable, k) && ObsOf(obs, variable) != [])
      && forall o :: o in f.rows ==> MatrixRow(o, fs, obs, variable) && TargetCell(o, obs, variable)
  {
    var vend := VendorMatrix(fs, variable, horizon);
    VendorMatrixKeys(fs, variable, horizon);
    if !IsEmpty(vend) && ObsOf(obs, variable) != [] {
      var x := AttachCalendar(LeftMerge(vend.rows, ObsLags(obs, variable, DefaultLags).rows));
      var ys := TargetRows(obs, variable);
      assert ObsOf(obs, variable)[0] in ObsOf(obs, variable);
      assert ObsTarget(ObsOf(obs, variable)[0]) in ys;
      CalendarFaithful(fs, obs, variable, horizon);
      TargetJoinFaithful(x, obs, variable);
      var rows := JoinTarget(x, ys);
      forall o | o in rows ensures MatrixRow(o, fs, obs, variable) {
        var a :| a in x && Agrees(o, a, {"y"});
        MatrixRowAgrees(o, a, fs, obs, variable);
      }
      assert vend.rows[0] in vend.rows;
      assert vend.rows[0].key in KeySet(rows);
    }
  }

  // ---------------------------------------------------------------------------
  // the target fallback as the comment at line 108 intends it

  /** The candidate frames moved back to the row's own valid time before they
      are merged, so that `y_m1` at time t is the observation at t - 1 h and
      `y_p1` the one at t + 1 h. */
  function JoinTargetIntended(x: seq<Row>, ys: seq<Row>): seq<Row> {
    var xy := LeftMerge(x, ys);
    var m1 := TakeAs(ShiftRows(LeftMerge(ShiftRows(x, -1), ys), 1), "y_m1");
    var p1 := TakeAs(ShiftRows(LeftMerge(ShiftRows(x, 1), ys), -1), "y_p1");
    FillAll(LeftMerge(LeftMerge(xy, m1), p1))
  }

  /** `build_features` with the corrected target join; everything else as in
      `Features`. */
  function FeaturesIntended(fs: seq<Forecast>, obs: seq<Observation>, variable: string, horizon: int): Frame {
    var vend := VendorMatrix(fs, variable, horizon);
    if IsEmpty(vend) then vend
    else
      var lags := ObsLags(obs, variable, DefaultLags);
      var x := AttachCalendar(LeftMerge(vend.rows, lags.rows));
      var ys := TargetRows(obs, variable);
      if ys == [] then Frame([], [])
      else Frame(vend.columns + lags.columns[3..] + ["hour", "dow", "y"], JoinTargetIntended(x, ys))
  }

  /** Where the target of index `k` comes from: the exact time, else one hour
      earlier, else one hour later. */
  function TargetSource(obs: seq<Observation>, variable: string, k: Key): Key {
    if HasObs(obs, variable, k) then k
    else if HasObs(obs, variable, Shift(k, -1)) then Shift(k, -1)
    else Shift(k, 1)
  }

  /** The target the comment promises: present when an observation exists at
      the row's time or one hour either side, preferring the exact time, then
      the hour before, then the hour after. */
  predicate TargetCellIntended(o: Row, obs: seq<Observation>, variable: string) {
    && ("y" in o.cells <==>
          HasObs(obs, variable, o.key) || HasObs(obs, variable, Shift(o.key, -1)) || HasObs(obs, variable, Shift(o.key, 1)))
    && ("y" in o.cells ==> ObsValueAt(obs, variable, TargetSource(obs, variable, o.key), o.cells["y"]))
  }

  /** The indexes `ks` moved by `d` hours. */
  function ShiftKeys(ks: set<Key>, d: int): set<Key> {
    set k | k in ks :: Shift(k, d)
  }

  /** Moving rows moves their indexes. */
  lemma ShiftRowsKeySet(rows: seq<Row>, d: int)
    ensures KeySet(ShiftRows(rows, d)) == ShiftKeys(KeySet(rows), d)
  {
    forall k ensures k in KeySet(ShiftRows(rows, d)) <==> k in ShiftKeys(KeySet(rows), d) {
      ShiftedKeyFrom(rows, d, k);
      ShiftedKeyTo(rows, d, k);
      assert Shift(Shift(k, -d), d) == k;
    }
  }

  /** Indexes moved by `d` and back are the indexes themselves. */
  lemma ShiftKeysBack(ks: set<Key>, d: int)
    ensures ShiftKeys(ShiftKeys(ks, d), -d) == ks
  {
    forall k ensures k in ShiftKeys(ShiftKeys(ks, d), -d) <==> k in ks {
      assert Shift(Shift(k, d), -d) == k;
    }
  }

  lemma ShiftedKeyFrom(rows: seq<Row>, d: int, k: Key)
    ensures k in KeySet(ShiftRows(rows, d)) ==> Shift(k, -d) in KeySet(rows)
  {
    var r := ShiftRows(rows, d);
    if k in KeySet(r) {
      var o :| o in r && o.key == k;
      var i :| 0 <= i < |r| && r[i] == o;
      assert rows[i] in rows;
      assert rows[i].key == Shift(k, -d);
    }
  }

  lemma ShiftedKeyTo(rows: seq<Row>, d: int, k: Key)
    ensures Shift(k, -d) in KeySet(rows) ==> k in KeySet(ShiftRows(rows, d))
  {
    var r := ShiftRows(rows, d);
    if Shift(k, -d) in KeySet(rows) {
      var a :| a in rows && a.key == Shift(k, -d);
      var i :| 0 <= i < |rows| && rows[i] == a;
      assert r[i] in r;
      assert r[i].key == k;
    }
  }

  lemma TakeAsKeySet(rows: seq<Row>, c: string)
    ensures KeySet(TakeAs(rows, c)) == KeySet(rows)
  {
    var t := TakeAs(rows, c);
    forall k ensures k in KeySet(t) <==> k in KeySet(rows) {
      if k in KeySet(t) {
        var o :| o in t && o.key == k;
        var i :| 0 <= i < |t| && t[i] == o;
        assert rows[i] in rows;
      }
      if k in KeySet(rows) {
        var a :| a in rows && a.key == k;
        var i :| 0 <= i < |rows| && rows[i] == a;
        assert t[i] in t;
      }
    }
  }

  lemma JoinYCells(rows: seq<Row>, obs: seq<Observation>, variable: string)
    requires NoTargetCells(rows)
    ensures forall o :: o in LeftMerge(rows, TargetRows(obs, variable)) ==> TargetCell(o, obs, variable)
  {
    JoinY(rows, obs, variable);
  }

  lemma ShiftedNoTarget(x: seq<Row>, d: int)
    requires NoTargetCells(x)
    ensures NoTargetCells(ShiftRows(x, d))
  {
    var sx := ShiftRows(x, d);
    forall a | a in sx ensures a.cells.Keys !! TargetNames {
      var i :| 0 <= i < |sx| && sx[i] == a;
      assert x[i] in x;
    }
  }

  /** A candidate row holds only cell `c`, present exactly when an observation
      exists `d` hours from its index, and then holding one such value. */
  predicate CandidateCell(r: Row, d: int, c: string, obs: seq<Observation>, variable: string) {
    && r.cells.Keys <= {c}
    && (c in r.cells <==> HasObs(obs, variable, Shift(r.key, d)))
    && (c in r.cells ==> ObsValueAt(obs, variable, Shift(r.key, d), r.cells[c]))
  }

  /** One row of a corrected candidate frame, made from a joined row. */
  lemma CandidateRow(j: Row, d: int, obs: seq<Observation>, variable: string, c: string)
    requires TargetCell(j, obs, variable)
    ensures CandidateCell(Row(Shift(j.key, -d), if "y" in j.cells then map[c := j.cells["y"]] else map[]), d, c, obs, variable)
  {
    assert Shift(Shift(j.key, -d), d) == j.key;
  }

  /** Rows whose indexes are those of `x` moved by `d`, moved back by `d`,
      have the indexes of `x`. */
  lemma ShiftBack(x: seq<Row>, rows: seq<Row>, d: int)
    requires KeySet(rows) == KeySet(ShiftRows(x, d))
    ensures KeySet(ShiftRows(rows, -d)) == KeySet(x)
  {
    ShiftRowsKeySet(x, d);
    ShiftRowsKeySet(rows, -d);
    ShiftKeysBack(KeySet(x), d);
  }

  /** A corrected candidate frame has one row per index of `x`. */
  lemma CandidateKeys(x: seq<Row>, d: int, obs: seq<Observation>, variable: string, c: string)
    ensures KeySet(TakeAs(ShiftRows(LeftMerge(ShiftRows(x, d), TargetRows(obs, variable)), -d), c)) == KeySet(x)
  {
    var joined := LeftMerge(ShiftRows(x, d), TargetRows(obs, variable));
    MergeKeys(ShiftRows(x, d), TargetRows(obs, variable));
    ShiftBack(x, joined, d);
    TakeAsKeySet(ShiftRows(joined, -d), c);
  }

  /** A corrected candidate frame: its cell `c` is present exactly when an
      observation exists `d` hours away from the row's index. */
  lemma CandidateIntended(x: seq<Row>, d: int, obs: seq<Observation>, variable: string, c: string)
    requires NoTargetCells(x)
    ensures forall r :: r in TakeAs(ShiftRows(LeftMerge(ShiftRows(x, d), TargetRows(obs, variable)), -d), c) ==>
      CandidateCell(r, d, c, obs, variable)
  {
    var sx := ShiftRows(x, d);
    ShiftedNoTarget(x, d);
    JoinYCells(sx, obs, variable);
    var joined := LeftMerge(sx, TargetRows(obs, variable));
    var t := TakeAs(ShiftRows(joined, -d), c);
    forall r | r in t ensures CandidateCell(r, d, c, obs, variable) {
      var i :| 0 <= i < |t| && t[i] == r;
      assert joined[i] in joined;
      CandidateRow(joined[i], d, obs, variable, c);
    }
  }

  ghost predicate AfterM1Intended(o: Row, x: seq<Row>, obs: seq<Observation>, variable: string) {
    && TargetCell(o, obs, variable)
    && "y_p1" !in o.cells
    && ("y_m1" in o.cells <==> HasObs(obs, variable, Shift(o.key, -1)))
    && ("y_m1" in o.cells ==> ObsValueAt(obs, variable, Shift(o.key, -1), o.cells["y_m1"]))
    && CarriedFrom(o, x, {"y", "y_m1"})
  }

  ghost predicate AfterP1Intended(o: Row, x: seq<Row>, obs: seq<Observation>, variable: string) {
    && TargetCell(o, obs, variable)
    && ("y_m1" in o.cells <==> HasObs(obs, variable, Shift(o.key, -1)))
    && ("y_m1" in o.cells ==> ObsValueAt(obs, variable, Shift(o.key, -1), o.cells["y_m1"]))
    && ("y_p1" in o.cells <==> HasObs(obs, variable, Shift(o.key, 1)))
    && ("y_p1" in o.cells ==> ObsValueAt(obs, variable, Shift(o.key, 1), o.cells["y_p1"]))
    && CarriedFrom(o, x, TargetNames)
  }

  lemma M1Step(a: Row, s: Row, x: seq<Row>, obs: seq<Observation>, variable: string)
    requires TargetCell(a, obs, variable) && a.cells.Keys !! {"y_m1", "y_p1"} && CarriedFrom(a, x, {"y"})
    requires CandidateCell(s, -1, "y_m1", obs, variable) && s.key == a.key
    ensures AfterM1Intended(Joined(a, s), x, obs, variable)
  {
    var b :| b in x && Agrees(a, b, {"y"});
    assert Agrees(Joined(a, s), b, {"y", "y_m1"});
  }

  lemma P1Step(a: Row, s: Row, x: seq<Row>, obs: seq<Observation>, variable: string)
    requires AfterM1Intended(a, x, obs, variable)
    requires CandidateCell(s, 1, "y_p1", obs, variable) && s.key == a.key
    ensures AfterP1Intended(Joined(a, s), x, obs, variable)
  {
    var b :| b in x && Agrees(a, b, {"y", "y_m1"});
    assert Agrees(Joined(a, s), b, TargetNames);
  }

  lemma MergeM1Intended(x: seq<Row>, obs: seq<Observation>, variable: string)
    requires NoTargetCells(x)
    ensures var ys := TargetRows(obs, variable);
      var rows := LeftMerge(LeftMerge(x, ys), TakeAs(ShiftRows(LeftMerge(ShiftRows(x, -1), ys), 1), "y_m1"));
      KeySet(rows) == KeySet(x) && forall o :: o in rows ==> AfterM1Intended(o, x, obs, variable)
  {
    var ys := TargetRows(obs, variable);
    var xy := LeftMerge(x, ys);
    var m1 := TakeAs(ShiftRows(LeftMerge(ShiftRows(x, -1), ys), 1), "y_m1");
    JoinY(x, obs, variable);
    MergeKeys(x, ys);
    CandidateIntended(x, -1, obs, variable, "y_m1");
    CandidateKeys(x, -1, obs, variable, "y_m1");
    MergeKeys(xy, m1);
    forall a, s | a in xy && s in m1 && s.key == a.key ensures AfterM1Intended(Joined(a, s), x, obs, variable) {
      M1Step(a, s, x, obs, variable);
    }
    MergeAllMatched(xy, m1, o => AfterM1Intended(o, x, obs, variable));
  }

  lemma MergeP1Intended(x: seq<Row>, obs: seq<Observation>, variable: string)
    requires NoTargetCells(x)
    ensures var ys := TargetRows(obs, variable);
      var xy := LeftMerge(LeftMerge(x, ys), TakeAs(ShiftRows(LeftMerge(ShiftRows(x, -1), ys), 1), "y_m1"));
      var rows := LeftMerge(xy, TakeAs(ShiftRows(LeftMerge(ShiftRows(x, 1), ys), -1), "y_p1"));
      KeySet(rows) == KeySet(x) && forall o :: o in rows ==> AfterP1Intended(o, x, obs, variable)
  {
    var ys := TargetRows(obs, variable);
    var xy := LeftMerge(LeftMerge(x, ys), TakeAs(ShiftRows(LeftMerge(ShiftRows(x, -1), ys), 1), "y_m1"));
    var p1 := TakeAs(ShiftRows(LeftMerge(ShiftRows(x, 1), ys), -1), "y_p1");
    MergeM1Intended(x, obs, variable);
    CandidateIntended(x, 1, obs, variable, "y_p1");
    CandidateKeys(x, 1, obs, variable, "y_p1");
    MergeKeys(xy, p1);
    forall a, s | a in xy && s in p1 && s.key == a.key ensures AfterP1Intended(Joined(a, s), x, obs, variable) {
      P1Step(a, s, x, obs, variable);
    }
    MergeAllMatched(xy, p1, o => AfterP1Intended(o, x, obs, variable));
  }

  lemma FillIntended(r: Row, x: seq<Row>, obs: seq<Observation>, variable: string)
    requires NoTargetCells(x) && AfterP1Intended(r, x, obs, variable)
    ensures TargetCellIntended(Fill(r), obs, variable) && CarriedFrom(Fill(r), x, {"y"})
  {
    var b :| b in x && Agrees(r, b, TargetNames);
    assert b.cells.Keys !! TargetNames;
    assert Agrees(Fill(r), b, {"y"});
  }

  /** The corrected target join: no index lost or added, every row keeps the
      cells of a row of `x`, and `y` is the exact-time observation, else the
      one an hour earlier, else the one an hour later. */
  lemma TargetJoinIntended(x: seq<Row>, obs: seq<Observation>, variable: string)
    requires NoTargetCells(x)
    ensures var rows := JoinTargetIntended(x, TargetRows(obs, variable));
      && KeySet(rows) == KeySet(x)
      && forall o :: o in rows ==> TargetCellIntended(o, obs, variable) && CarriedFrom(o, x, {"y"})
  {
    var ys := TargetRows(obs, variable);
    var xy := LeftMerge(LeftMerge(x, ys), TakeAs(ShiftRows(LeftMerge(ShiftRows(x, -1), ys), 1), "y_m1"));
    var xy2 := LeftMerge(xy, TakeAs(ShiftRows(LeftMerge(ShiftRows(x, 1), ys), -1), "y_p1"));
    MergeP1Intended(x, obs, variable);
    FillAllKeys(xy2);
    var rows := FillAll(xy2);
    forall o | o in rows ensures TargetCellIntended(o, obs, variable) && CarriedFrom(o, x, {"y"}) {
      var i :| 0 <= i < |rows| && rows[i] == o;
      assert xy2[i] in xy2;
      FillIntended(xy2[i], x, obs, variable);
    }
  }

  /** The corrected feature matrix: as `FeaturesFaithful` says, except that a
      row without an exact-time observation takes its target from the hour
      before, or else the hour after. */
  lemma FeaturesIntendedFaithful(fs: seq<Forecast>, obs: seq<Observation>, variable: string, horizon: int)
    ensures var f := FeaturesIntended(fs, obs, variable, horizon);
      && (f.rows == [] <==> VendorRecords(fs, variable) == [] || ObsOf(obs, variable) == [])
      && (forall k :: k in KeySet(f.rows) <==> VendorKey(fs, variable, k) && ObsOf(obs, variable) != [])
      && forall o :: o in f.rows ==> MatrixRow(o, fs, obs, variable) && TargetCellIntended(o, obs, variable)
  {
    var vend := VendorMatrix(fs, variable, horizon);
    VendorMatrixKeys(fs, variable, horizon);
    if !IsEmpty(vend) && ObsOf(obs, variable) != [] {
      var x := AttachCalendar(LeftMerge(vend.rows, ObsLags(obs, variable, DefaultLags).rows));
      var ys := TargetRows(obs, variable);
      assert ObsOf(obs, variable)[0] in ObsOf(obs, variable);
      assert ObsTarget(ObsOf(obs, variable)[0]) in ys;
      CalendarFaithful(fs, obs, variable, horizon);
      TargetJoinIntended(x, obs, variable);
      var rows := JoinTargetIntended(x, ys);
      forall o | o in rows ensures MatrixRow(o, fs, obs, variable) {
        var a :| a in x && Agrees(o, a, {"y"});
        MatrixRowAgrees(o, a, fs, obs, variable);
      }
      assert vend.rows[0] in vend.rows;
      assert vend.rows[0].key in KeySet(rows);
    }
  }

  // ---------------------------------------------------------------------------
  // row counts

  /** At most one observation of the variable per location and time. */
  predicate UniqueObs(obs: seq<Observation>, variable: string) {
    DistinctBy(ObsOf(obs, variable), ObsKey)
  }

  lemma UniqueByKeys(a: seq<Row>, b: seq<Row>)
    requires Keys(a) == Keys(b) && UniqueKeys(a)
    ensures UniqueKeys(b)
  {
    forall i, j | 0 <= i < j < |b| ensures b[i].key != b[j].key {
      assert Keys(a)[i] == Keys(b)[i] && Keys(a)[j] == Keys(b)[j];
    }
  }

  /** A left merge with a right frame of unique indexes keeps the left frame's
      indexes in order, hence also their uniqueness. */
  lemma MergeUnique(left: seq<Row>, right: seq<Row>)
    requires UniqueKeys(left) && UniqueKeys(right)
    ensures Keys(LeftMerge(left, right)) == Keys(left) && UniqueKeys(LeftMerge(left, right))
  {
    MergeKeepsKeyOrder(left, right);
    UniqueByKeys(left, LeftMerge(left, right));
  }

  lemma ShiftUnique(rows: seq<Row>, d: int)
    requires UniqueKeys(rows)
    ensures UniqueKeys(ShiftRows(rows, d))
  {
  }

  lemma TakeAsKeys(rows: seq<Row>, c: string)
    ensures Keys(TakeAs(rows, c)) == Keys(rows)
  {
  }

  lemma LaggedUnique(out: seq<Observation>, l: nat)
    requires DistinctBy(out, ObsKey)
    ensures UniqueKeys(LaggedRows(out, l))
  {
    var r := LaggedRows(out, l);
    forall i, j | 0 <= i < j < |r| ensures r[i].key != r[j].key {
      assert ObsKey(out[i]) != ObsKey(out[j]);
    }
  }

  lemma {:induction false} FoldKeys(base: seq<Row>, frames: seq<seq<Row>>)
    requires UniqueKeys(base) && forall i :: 0 <= i < |frames| ==> UniqueKeys(frames[i])
    ensures Keys(FoldMerge(base, frames)) == Keys(base) && UniqueKeys(FoldMerge(base, frames))
    decreases |frames|
  {
    if frames != [] {
      FoldKeys(base, frames[..|frames| - 1]);
      MergeUnique(FoldMerge(base, frames[..|frames| - 1]), frames[|frames| - 1]);
    }
  }

  /** With at most one observation per index the lag table has one row per
      index. */
  lemma LagTableUnique(obs: seq<Observation>, variable: string, lags: seq<nat>)
    requires UniqueObs(obs, variable)
    ensures UniqueKeys(ObsLags(obs, variable, lags).rows)
  {
    var df := ObsOf(obs, variable);
    if df != [] {
      var out := Sort(df, ObsLe);
      DistinctByPermutation(df, out, ObsKey);
      forall i | 0 <= i < |lags| ensures UniqueKeys(LagFrames(out, lags)[i]) {
        LaggedUnique(out, lags[i]);
      }
      FoldKeys(BaseRows(out), LagFrames(out, lags));
    }
  }

  lemma TargetRowsUnique(obs: seq<Observation>, variable: string)
    requires UniqueObs(obs, variable)
    ensures UniqueKeys(TargetRows(obs, variable))
  {
    var os := ObsOf(obs, variable);
    var ys := TargetRows(obs, variable);
    forall i, j | 0 <= i < j < |ys| ensures ys[i].key != ys[j].key {
      assert ObsKey(os[i]) != ObsKey(os[j]);
    }
  }

  lemma TakeAsUnique(rows: seq<Row>, c: string)
    requires UniqueKeys(rows)
    ensures UniqueKeys(TakeAs(rows, c))
  {
    TakeAsKeys(rows, c);
    UniqueByKeys(rows, TakeAs(rows, c));
  }

  /** The joined candidates of `x` moved by `d` have unique indexes. */
  lemma CandidateUnique(x: seq<Row>, ys: seq<Row>, d: int)
    requires UniqueKeys(x) && UniqueKeys(ys)
    ensures UniqueKeys(LeftMerge(ShiftRows(x, d), ys))
  {
    ShiftUnique(x, d);
    MergeUnique(ShiftRows(x, d), ys);
  }

  /** ... and so do they when moved back. */
  lemma CandidateBackUnique(x: seq<Row>, ys: seq<Row>, d: int)
    requires UniqueKeys(x) && UniqueKeys(ys)
    ensures UniqueKeys(ShiftRows(LeftMerge(ShiftRows(x, d), ys), -d))
  {
    CandidateUnique(x, ys, d);
    ShiftUnique(LeftMerge(ShiftRows(x, d), ys), -d);
  }

  lemma FillAllKeysOrder(rows: seq<Row>)
    ensures Keys(FillAll(rows)) == Keys(rows)
  {
  }

  /** Merging two unique candidate frames onto `xy`, then filling, keeps the
      rows of `xy` one for one. */
  lemma FillMergeKeys(xy: seq<Row>, m1: seq<Row>, p1: seq<Row>)
    requires UniqueKeys(xy) && UniqueKeys(m1) && UniqueKeys(p1)
    ensures Keys(FillAll(LeftMerge(LeftMerge(xy, m1), p1))) == Keys(xy)
  {
    MergeUnique(xy, m1);
    MergeUnique(LeftMerge(xy, m1), p1);
    FillAllKeysOrder(LeftMerge(LeftMerge(xy, m1), p1));
  }

  /** The target join as written keeps the rows of `x` one for one when `x`
      and the target have unique indexes. */
  lemma JoinTargetOneToOne(x: seq<Row>, ys: seq<Row>)
    requires UniqueKeys(x) && UniqueKeys(ys)
    ensures Keys(JoinTarget(x, ys)) == Keys(x)
  {
    MergeUnique(x, ys);
    CandidateUnique(x, ys, -1);
    CandidateUnique(x, ys, 1);
    TakeAsUnique(LeftMerge(ShiftRows(x, -1), ys), "y_m1");
    TakeAsUnique(LeftMerge(ShiftRows(x, 1), ys), "y_p1");
    FillMergeKeys(LeftMerge(x, ys), TakeAs(LeftMerge(ShiftRows(x, -1), ys), "y_m1"),
                  TakeAs(LeftMerge(ShiftRows(x, 1), ys), "y_p1"));
  }

  /** The same for the corrected join. */
  lemma JoinTargetIntendedOneToOne(x: seq<Row>, ys: seq<Row>)
    requires UniqueKeys(x) && UniqueKeys(ys)
    ensures Keys(JoinTargetIntended(x, ys)) == Keys(x)
  {
    MergeUnique(x, ys);
    CandidateBackUnique(x, ys, -1);
    CandidateBackUnique(x, ys, 1);
    TakeAsUnique(ShiftRows(LeftMerge(ShiftRows(x, -1), ys), 1), "y_m1");
    TakeAsUnique(ShiftRows(LeftMerge(ShiftRows(x, 1), ys), -1), "y_p1");
    FillMergeKeys(LeftMerge(x, ys), TakeAs(ShiftRows(LeftMerge(ShiftRows(x, -1), ys), 1), "y_m1"),
                  TakeAs(ShiftRows(LeftMerge(ShiftRows(x, 1), ys), -1), "y_p1"));
  }

  lemma AddCalendarAllKeysOrder(rows: seq<Row>)
    ensures Keys(AddCalendarAll(rows)) == Keys(rows)
  {
  }

  /** With at most one observation per location and time, the merges neither
      drop nor add rows: the matrix has the vendor matrix's indexes, in its
      order (and no row at all without observations). */
  lemma FeaturesOneToOne(fs: seq<Forecast>, obs: seq<Observation>, variable: string, horizon: int)
    requires UniqueObs(obs, variable) && ObsOf(obs, variable) != []
    ensures Keys(Features(fs, obs, variable, horizon).rows) == Keys(VendorMatrix(fs, variable, horizon).rows)
    ensures Keys(FeaturesIntended(fs, obs, variable, horizon).rows) == Keys(VendorMatrix(fs, variable, horizon).rows)
  {
    var vend := VendorMatrix(fs, variable, horizon);
    VendorMatrixKeys(fs, variable, horizon);
    if !IsEmpty(vend) {
      var lags := ObsLags(obs, variable, DefaultLags);
      LagTableUnique(obs, variable, DefaultLags);
      MergeUnique(vend.rows, lags.rows);
      var x0 := LeftMerge(vend.rows, lags.rows);
      CalendarMerge(x0);
      AddCalendarAllKeysOrder(x0);
      UniqueByKeys(x0, AttachCalendar(x0));
      TargetRowsUnique(obs, variable);
      assert ObsOf(obs, variable)[0] in ObsOf(obs, variable);
      assert ObsTarget(ObsOf(obs, variable)[0]) in TargetRows(obs, variable);
      JoinTargetOneToOne(AttachCalendar(x0), TargetRows(obs, variable));
      JoinTargetIntendedOneToOne(AttachCalendar(x0), TargetRows(obs, variable));
    }
  }

  /** The horizon does not change the matrix. */
  lemma HorizonIgnored(fs: seq<Forecast>, obs: seq<Observation>, variable: string, h1: int, h2: int)
    ensures Features(fs, obs, variable, h1) == Features(fs, obs, variable, h2)
    ensures FeaturesIntended(fs, obs, variable, h1) == FeaturesIntended(fs, obs, variable, h2)
  {
  }

  /** Lines 72 and 85-86: without vendor records the fetched empty frame is
      returned; without observations an empty frame with no columns. */
  lemma FeaturesEmpty(fs: seq<Forecast>, obs: seq<Observation>, variable: string, horizon: int)
    ensures VendorRecords(fs, variable) == [] ==> Features(fs, obs, variable, horizon) == Frame(ForecastFetchColumns, [])
    ensures VendorRecords(fs, variable) != [] && ObsOf(obs, variable) == [] ==>
      Features(fs, obs, variable, horizon) == Frame([], [])
  {
    VendorMatrixKeys(fs, variable, horizon);
  }

  /** The fallback as written: a forecast at hour 10 and an observation at
      hour 9 give a row at hour 10 without `y`; the corrected join fills it
      with the observation of hour 9. */
  lemma FallbackExample()
    ensures var fs := [Forecast(0.0, 0.0, 10, "open_meteo", "temp_2m", 5.0, 1)];
      var obs := [Observation(0.0, 0.0, 9, "temp_2m", 4.0)];
      && HasObs(obs, "temp_2m", Key(0.0, 0.0, 9))
      && Features(fs, obs, "temp_2m", 1).rows != []
      && (forall o :: o in Features(fs, obs, "temp_2m", 1).rows ==> o.key == Key(0.0, 0.0, 10) && "y" !in o.cells)
      && FeaturesIntended(fs, obs, "temp_2m", 1).rows != []
      && forall o :: o in FeaturesIntended(fs, obs, "temp_2m", 1).rows ==>
           o.key == Key(0.0, 0.0, 10) && "y" in o.cells && o.cells["y"] == 4.0
  {
    FallbackWritten(ExampleForecasts(), ExampleObservations());
    FallbackFixed(ExampleForecasts(), ExampleObservations());
  }

  function ExampleForecasts(): seq<Forecast> {
    [Forecast(0.0, 0.0, 10, "open_meteo", "temp_2m", 5.0, 1)]
  }

  function ExampleObservations(): seq<Observation> {
    [Observation(0.0, 0.0, 9, "temp_2m", 4.0)]
  }

  lemma FallbackWritten(fs: seq<Forecast>, obs: seq<Observation>)
    requires fs == ExampleForecasts() && obs == ExampleObservations()
    ensures HasObs(obs, "temp_2m", Key(0.0, 0.0, 9))
    ensures Features(fs, obs, "temp_2m", 1).rows != []
    ensures forall o :: o in Features(fs, obs, "temp_2m", 1).rows ==> o.key == Key(0.0, 0.0, 10) && "y" !in o.cells
  {
    var f := Features(fs, obs, "temp_2m", 1);
    ExampleInputs(fs, obs);
    FeaturesFaithful(fs, obs, "temp_2m", 1);
    forall o | o in f.rows ensures o.key == Key(0.0, 0.0, 10) && "y" !in o.cells {
      assert o.key in KeySet(f.rows);
      ExampleKey(fs, o.key);
    }
  }

  lemma FallbackFixed(fs: seq<Forecast>, obs: seq<Observation>)
    requires fs == ExampleForecasts() && obs == ExampleObservations()
    ensures FeaturesIntended(fs, obs, "temp_2m", 1).rows != []
    ensures forall o :: o in FeaturesIntended(fs, obs, "temp_2m", 1).rows ==>
      o.key == Key(0.0, 0.0, 10) && "y" in o.cells && o.cells["y"] == 4.0
  {
    var f := FeaturesIntended(fs, obs, "temp_2m", 1);
    ExampleInputs(fs, obs);
    FeaturesIntendedFaithful(fs, obs, "temp_2m", 1);
    forall o | o in f.rows ensures o.key == Key(0.0, 0.0, 10) && "y" in o.cells && o.cells["y"] == 4.0 {
      assert o.key in KeySet(f.rows);
      ExampleKey(fs, o.key);
      assert Shift(o.key, -1) == Key(0.0, 0.0, 9);
      ExampleValue(obs, o.cells["y"]);
    }
  }

  /** What the example's inputs hold: one vendor record and one observation,
      at hours 10 and 9. */
  lemma ExampleInputs(fs: seq<Forecast>, obs: seq<Observation>)
    requires fs == ExampleForecasts() && obs == ExampleObservations()
    ensures VendorRecords(fs, "temp_2m") != [] && ObsOf(obs, "temp_2m") != []
    ensures HasObs(obs, "temp_2m", Key(0.0, 0.0, 9)) && !HasObs(obs, "temp_2m", Key(0.0, 0.0, 10))
  {
    assert fs[0] in VendorRecords(fs, "temp_2m");
    assert obs[0] in ObsOf(obs, "temp_2m");
  }

  lemma ExampleKey(fs: seq<Forecast>, k: Key)
    requires fs == ExampleForecasts() && VendorKey(fs, "temp_2m", k)
    ensures k == Key(0.0, 0.0, 10)
  {
  }

  lemma ExampleValue(obs: seq<Observation>, v: real)
    requires obs == ExampleObservations() && ObsValueAt(obs, "temp_2m", Key(0.0, 0.0, 9), v)
    ensures v == 4.0
  {
  }

  /** A non-empty matrix has full `hour` and `dow` columns. */
  /** A non-empty matrix from the builder as written has full `hour` and
      `dow` columns holding the calendar of each row's valid time. */
  lemma FeaturesCalendar(fs: seq<Forecast>, obs: seq<Observation>, variable: string, horizon: int)
    ensures var f := Features(fs, obs, variable, horizon);
      f.rows != [] ==> "hour" in f.columns && "dow" in f.columns && forall r :: r in f.rows ==> CalendarCells(r)
  {
    FeaturesFaithful(fs, obs, variable, horizon);
  }

  lemma FeaturesIntendedCalendar(fs: seq<Forecast>, obs: seq<Observation>, variable: string, horizon: int)
    ensures var f := FeaturesIntended(fs, obs, variable, horizon);
      f.rows != [] ==> "hour" in f.columns && "dow" in f.columns && forall r :: r in f.rows ==> CalendarCells(r)
  {
    FeaturesIntendedFaithful(fs, obs, variable, horizon);
  }
}
