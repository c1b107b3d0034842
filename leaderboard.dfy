/** The leaderboard: error rows of a recent window are averaged per (source,
    variable, horizon), ranked by rmse inside each (variable, horizon) and the
    first of each ranking is reported. The `errors` table is a parameter; its
    row order stands for the database's. Times are whole seconds. */
module Leaderboard {
  import opened Ordering

  /** A row of the `errors` table. */
  datatype ErrorRecord = ErrorRecord(source: string, variable: string, horizonHours: int, validTime: int,
                                     mae: real, rmse: real, mape: real, n: int)

  datatype GroupKey = GroupKey(source: string, variable: string, horizonHours: int)

  /** A row of the query result. */
  datatype Aggregate = Aggregate(source: string, variable: string, horizonHours: int,
                                 mae: real, rmse: real, mape: real, n: int)

  const SecondsPerDay: int := 86400

  /** `now - timedelta(days=days)`. */
  function Since(now: int, days: int): int {
    now - days * SecondsPerDay
  }

  // ---------------------------------------------------------------------------
  // the query

  /** `WHERE valid_time >= :since`. */
  function InWindow(records: seq<ErrorRecord>, since: int): (w: seq<ErrorRecord>)
    ensures forall r :: r in w <==> r in records && r.validTime >= since
  {
    if records == [] then []
    else
      assert records == [records[0]] + records[1..];
      (if records[0].validTime >= since then [records[0]] else []) + InWindow(records[1..], since)
  }

  function KeyOf(r: ErrorRecord): GroupKey {
    GroupKey(r.source, r.variable, r.horizonHours)
  }

  function RecordKeys(recs: seq<ErrorRecord>): (ks: seq<GroupKey>)
    ensures forall g :: g in ks <==> exists r :: r in recs && KeyOf(r) == g
  {
    if recs == [] then []
    else
      assert recs == [recs[0]] + recs[1..];
      [KeyOf(recs[0])] + RecordKeys(recs[1..])
  }

  /** The rows of one group, in order. */
  function Members(recs: seq<ErrorRecord>, g: GroupKey): (m: seq<ErrorRecord>)
    ensures forall r :: r in m <==> r in recs && KeyOf(r) == g
  {
    if recs == [] then []
    else
      assert recs == [recs[0]] + recs[1..];
      (if KeyOf(recs[0]) == g then [recs[0]] else []) + Members(recs[1..], g)
  }

  function Sum(xs: seq<real>): real {
    if xs == [] then 0.0 else xs[0] + Sum(xs[1..])
  }

  /** SQL `avg`. */
  function Mean(xs: seq<real>): real
    requires xs != []
  {
    Sum(xs) / |xs| as real
  }

  /** SQL `sum(n)`. */
  function SumN(recs: seq<ErrorRecord>): int {
    if recs == [] then 0 else recs[0].n + SumN(recs[1..])
  }

  function Maes(recs: seq<ErrorRecord>): seq<real> { seq(|recs|, i requires 0 <= i < |recs| => recs[i].mae) }
  function Rmses(recs: seq<ErrorRecord>): seq<real> { seq(|recs|, i requires 0 <= i < |recs| => recs[i].rmse) }
  function Mapes(recs: seq<ErrorRecord>): seq<real> { seq(|recs|, i requires 0 <= i < |recs| => recs[i].mape) }

  /** The aggregated row of one group. */
  function AggregateOf(recs: seq<ErrorRecord>, g: GroupKey): Aggregate
    requires Members(recs, g) != []
  {
    var m := Members(recs, g);
    Aggregate(g.source, g.variable, g.horizonHours, Mean(Maes(m)), Mean(Rmses(m)), Mean(Mapes(m)), SumN(m))
  }

  lemma GroupsNonEmpty(recs: seq<ErrorRecord>, gs: seq<GroupKey>)
    requires forall g :: g in gs ==> g in RecordKeys(recs)
    ensures forall g :: g in gs ==> Members(recs, g) != []
  {
    forall g | g in gs ensures Members(recs, g) != [] {
      var r :| r in recs && KeyOf(r) == g;
      assert r in Members(recs, g);
    }
  }

  /** Lines 13-19: the aggregation query, groups in order of first
      appearance. */
  function Query(records: seq<ErrorRecord>, since: int): seq<Aggregate> {
    var w := InWindow(records, since);
    var gs := Dedup(RecordKeys(w));
    GroupsNonEmpty(w, gs);
    seq(|gs|, i requires 0 <= i < |gs| => AggregateOf(w, gs[i]))
  }

  function AggKey(a: Aggregate): GroupKey {
    GroupKey(a.source, a.variable, a.horizonHours)
  }

  function AggKeys(df: seq<Aggregate>): seq<GroupKey> {
    seq(|df|, i requires 0 <= i < |df| => AggKey(df[i]))
  }

  /** Lines 14-17: one row per (source, variable, horizon) that has a record
      in the window, and no other. */
  lemma QueryGroups(records: seq<ErrorRecord>, since: int)
    ensures var ks := AggKeys(Query(records, since));
      && Distinct(ks)
      && forall g :: g in ks <==> exists r :: r in records && r.validTime >= since && KeyOf(r) == g
  {
    var w := InWindow(records, since);
    var gs := Dedup(RecordKeys(w));
    assert AggKeys(Query(records, since)) == gs;
  }

  /** Lines 14-17: each row holds the means of its group's mae, rmse and
      mape over the window and the sum of their `n`. */
  lemma QueryRows(records: seq<ErrorRecord>, since: int, i: nat)
    requires i < |Query(records, since)|
    ensures var a := Query(records, since)[i];
      var m := Members(InWindow(records, since), AggKey(a));
      && m != []
      && (forall r :: r in m <==> r in records && r.validTime >= since && KeyOf(r) == AggKey(a))
      && a.rmse == Mean(Rmses(m)) && a.mae == Mean(Maes(m)) && a.mape == Mean(Mapes(m))
      && a.n == SumN(m)
  {
    var w := InWindow(records, since);
    var gs := Dedup(RecordKeys(w));
    GroupsNonEmpty(w, gs);
    assert gs[i] in gs;
    assert AggKey(Query(records, since)[i]) == gs[i];
  }

  /** Three rows of one group with rmse 1, 2 and 3 and n = 1 each average
      to rmse 2, and their `n` adds up to 3. */
  lemma AggregateExample(r: ErrorRecord)
    ensures var m := [r.(rmse := 1.0, n := 1), r.(rmse := 2.0, n := 1), r.(rmse := 3.0, n := 1)];
      Mean(Rmses(m)) == 2.0 && SumN(m) == 3
  {
    var m := [r.(rmse := 1.0, n := 1), r.(rmse := 2.0, n := 1), r.(rmse := 3.0, n := 1)];
    assert Rmses(m) == [1.0, 2.0, 3.0];
    assert Sum([1.0, 2.0, 3.0]) == 1.0 + Sum([2.0, 3.0]);
    assert Sum([2.0, 3.0]) == 2.0 + Sum([3.0]);
    assert Sum([3.0]) == 3.0 + Sum([]);
    assert m[1..] == [m[1], m[2]];
    assert m[1..][1..] == [m[2]];
    assert SumN(m) == 1 + SumN(m[1..]);
    assert SumN(m[1..]) == 1 + SumN(m[1..][1..]);
    assert SumN(m[1..][1..]) == 1 + SumN(m[1..][1..][1..]);
  }

  // ---------------------------------------------------------------------------
  // rank(method="first") per (variable, horizon_hours)

  /** Rows ranked together. */
  predicate SameGroup(a: Aggregate, b: Aggregate) {
    a.variable == b.variable && a.horizonHours == b.horizonHours
  }

  /** Row `j` ranks ahead of row `i`: lower rmse, or equal rmse and earlier. */
  predicate Before(df: seq<Aggregate>, j: nat, i: nat)
    requires j < |df| && i < |df|
  {
    df[j].rmse < df[i].rmse || (df[j].rmse == df[i].rmse && j < i)
  }

  /** The rows of row `i`'s group that rank ahead of it. */
  function Ahead(df: seq<Aggregate>, i: nat): set<nat>
    requires i < |df|
  {
    set j: nat | j < |df| && SameGroup(df[j], df[i]) && Before(df, j, i)
  }

  /** `df.groupby(["variable","horizon_hours"])["rmse"].rank(method="first")`. */
  function Rank(df: seq<Aggregate>, i: nat): nat
    requires i < |df|
  {
    |Ahead(df, i)| + 1
  }

  /** The rows of row `i`'s group. */
  function GroupOf(df: seq<Aggregate>, i: nat): set<nat>
    requires i < |df|
  {
    set j: nat | j < |df| && SameGroup(df[j], df[i])
  }

  /** Row `i` has the lowest rmse of its group and is the earliest among
      the rows sharing that rmse. */
  predicate IsWinner(df: seq<Aggregate>, i: nat)
    requires i < |df|
  {
    forall j :: 0 <= j < |df| && SameGroup(df[j], df[i]) ==>
      df[i].rmse < df[j].rmse || (df[i].rmse == df[j].rmse && i <= j)
  }

  lemma CardSubset(a: set<nat>, b: set<nat>)
    requires a <= b
    ensures |a| <= |b|
    ensures a < b ==> |a| < |b|
  {
    assert b == a + (b - a);
    if a < b {
      var x :| x in b - a;
    }
  }

  /** A row ahead of `i` has fewer rows ahead of it. */
  lemma AheadShrinks(df: seq<Aggregate>, i: nat, j: nat)
    requires i < |df| && j in Ahead(df, i)
    ensures Ahead(df, j) < Ahead(df, i)
  {
    assert j !in Ahead(df, j);
  }

  /** Ranks run from 1 to the group's size, rank 1 is exactly the winner,
      and two rows of a group never share a rank. */
  lemma RankSpec(df: seq<Aggregate>, i: nat)
    requires i < |df|
    ensures 1 <= Rank(df, i) <= |GroupOf(df, i)|
    ensures Rank(df, i) == 1 <==> IsWinner(df, i)
    ensures forall j :: 0 <= j < |df| && j != i && SameGroup(df[j], df[i]) ==> Rank(df, j) != Rank(df, i)
  {
    assert i in GroupOf(df, i) && i !in Ahead(df, i);
    CardSubset(Ahead(df, i), GroupOf(df, i));
    if Rank(df, i) == 1 {
      forall j | 0 <= j < |df| && SameGroup(df[j], df[i])
        ensures df[i].rmse < df[j].rmse || (df[i].rmse == df[j].rmse && i <= j)
      {
        assert j !in Ahead(df, i);
      }
    } else {
      var j :| j in Ahead(df, i);
    }
    forall j | 0 <= j < |df| && j != i && SameGroup(df[j], df[i]) ensures Rank(df, j) != Rank(df, i) {
      if Before(df, j, i) {
        assert j in Ahead(df, i);
        AheadShrinks(df, i, j);
        CardSubset(Ahead(df, j), Ahead(df, i));
      } else {
        assert i in Ahead(df, j);
        AheadShrinks(df, j, i);
        CardSubset(Ahead(df, i), Ahead(df, j));
      }
    }
  }

  /** Every group has a winner. */
  lemma {:induction false} WinnerExists(df: seq<Aggregate>, i: nat)
    requires i < |df|
    ensures exists w :: 0 <= w < |df| && SameGroup(df[w], df[i]) && IsWinner(df, w)
    decreases |Ahead(df, i)|
  {
    RankSpec(df, i);
    if !IsWinner(df, i) {
      var j :| j in Ahead(df, i);
      AheadShrinks(df, i, j);
      CardSubset(Ahead(df, j), Ahead(df, i));
      WinnerExists(df, j);
    }
  }

  // ---------------------------------------------------------------------------
  // sort_values(["variable","horizon_hours","rank"]).groupby(...).head(1)

  /** A ranked row keeps its position in the query result (the frame's
      index). */
  datatype RankedRow = RankedRow(row: Aggregate, rank: nat, pos: nat)

  function Ranked(df: seq<Aggregate>): (rs: seq<RankedRow>)
    ensures |rs| == |df|
  {
    seq(|df|, i requires 0 <= i < |df| => RankedRow(df[i], Rank(df, i), i))
  }

  /** Ascending (variable, horizon_hours), the order of the output. */
  predicate GroupLt(a: Aggregate, b: Aggregate) {
    if a.variable != b.variable then StrLe(a.variable, b.variable) else a.horizonHours < b.horizonHours
  }

  /** The order of the sort on ["variable", "horizon_hours", "rank"]. */
  predicate RankLe(a: RankedRow, b: RankedRow) {
    GroupLt(a.row, b.row) || (SameGroup(a.row, b.row) && a.rank <= b.rank)
  }

  lemma RankLeTotalPreorder()
    ensures TotalPreorder(RankLe)
  {
    forall a, b ensures RankLe(a, b) || RankLe(b, a) {
      StrLeTotal(a.row.variable, b.row.variable);
    }
    forall a, b, c | RankLe(a, b) && RankLe(b, c) ensures RankLe(a, c) {
      var x, y, z := a.row.variable, b.row.variable, c.row.variable;
      if x != y && y != z {
        StrLeTrans(x, y, z);
        if x == z {
          StrLeAntisym(x, y);
        }
      }
    }
  }

  function SortRanked(rs: seq<RankedRow>): seq<RankedRow> {
    Sort(rs, RankLe)
  }

  /** Some row of `s` is in the group of `a`. */
  predicate GroupIn(s: seq<RankedRow>, a: Aggregate) {
    exists q :: 0 <= q < |s| && SameGroup(s[q].row, a)
  }

  /** `groupby(["variable","horizon_hours"]).head(1)`: the first row of each
      group, in order. */
  function HeadOne(s: seq<RankedRow>): seq<RankedRow> {
    if s == [] then []
    else
      var init := s[..|s| - 1];
      HeadOne(init) + (if GroupIn(init, s[|s| - 1].row) then [] else [s[|s| - 1]])
  }

  /** No earlier row of `s` shares the group of row `p`. */
  predicate FirstOfGroup(s: seq<RankedRow>, p: nat)
    requires p < |s|
  {
    !GroupIn(s[..p], s[p].row)
  }

  lemma {:induction false} HeadOneRows(s: seq<RankedRow>)
    ensures forall x :: x in HeadOne(s) ==> exists p :: 0 <= p < |s| && s[p] == x && FirstOfGroup(s, p)
  {
    if s != [] {
      var init := s[..|s| - 1];
      HeadOneRows(init);
      forall x | x in HeadOne(s) ensures exists p :: 0 <= p < |s| && s[p] == x && FirstOfGroup(s, p) {
        if x in HeadOne(init) {
          var p :| 0 <= p < |init| && init[p] == x && FirstOfGroup(init, p);
          assert init[..p] == s[..p];
        } else {
          assert init == s[..|s| - 1];
        }
      }
    }
  }

  lemma {:induction false} HeadOneGroups(s: seq<RankedRow>)
    ensures forall a :: GroupIn(HeadOne(s), a) <==> GroupIn(s, a)
  {
    if s != [] {
      var init := s[..|s| - 1];
      var last := s[|s| - 1];
      HeadOneGroups(init);
      var h := HeadOne(s);
      assert h[..|HeadOne(init)|] == HeadOne(init);
      forall a ensures GroupIn(h, a) <==> GroupIn(s, a) {
        if GroupIn(h, a) {
          var q :| 0 <= q < |h| && SameGroup(h[q].row, a);
          if q < |HeadOne(init)| {
            assert HeadOne(init)[q] == h[q];
            assert GroupIn(HeadOne(init), a);
            var q' :| 0 <= q' < |init| && SameGroup(init[q'].row, a);
            assert s[q'] == init[q'];
          } else {
            assert h[q] == last;
          }
        }
        if GroupIn(s, a) {
          var q :| 0 <= q < |s| && SameGroup(s[q].row, a);
          if q < |init| {
            assert init[q] == s[q];
            assert GroupIn(init, a);
            var q' :| 0 <= q' < |HeadOne(init)| && SameGroup(HeadOne(init)[q'].row, a);
            assert h[q'] == HeadOne(init)[q'];
          } else if GroupIn(init, last.row) {
            var q' :| 0 <= q' < |init| && SameGroup(init[q'].row, last.row);
            assert GroupIn(init, a);
            var q'' :| 0 <= q'' < |HeadOne(init)| && SameGroup(HeadOne(init)[q''].row, a);
            assert h[q''] == HeadOne(init)[q''];
          } else {
            assert h[|h| - 1] == last;
          }
        }
      }
    }
  }

  /** No two rows share a group. */
  predicate GroupsDistinct(h: seq<RankedRow>) {
    forall k, l :: 0 <= k < l < |h| ==> !SameGroup(h[k].row, h[l].row)
  }

  lemma {:induction false} HeadOneDistinct(s: seq<RankedRow>)
    ensures GroupsDistinct(HeadOne(s))
  {
    if s != [] {
      var init := s[..|s| - 1];
      var last := s[|s| - 1];
      HeadOneDistinct(init);
      HeadOneGroups(init);
      var h := HeadOne(s);
      var h0 := HeadOne(init);
      if GroupIn(init, last.row) {
        assert h == h0 + [];
        assert h == h0;
      } else {
        assert h == h0 + [last];
        forall k | 0 <= k < |h0| ensures !SameGroup(h0[k].row, last.row) {
          if SameGroup(h0[k].row, last.row) {
            assert GroupIn(h0, last.row);
          }
        }
        forall k, l | 0 <= k < l < |h| ensures !SameGroup(h[k].row, h[l].row) {
          if l == |h| - 1 {
            assert h[k] == h0[k] && h[l] == last;
          } else {
            assert h[k] == h0[k] && h[l] == h0[l];
          }
        }
      }
    }
  }

  lemma {:induction false} HeadOneSorted(s: seq<RankedRow>)
    requires Sorted(s, RankLe)
    ensures Sorted(HeadOne(s), RankLe)
  {
    if s != [] {
      var init := s[..|s| - 1];
      var last := s[|s| - 1];
      assert Sorted(init, RankLe);
      HeadOneSorted(init);
      HeadOneRows(init);
      var h := HeadOne(s);
      var h0 := HeadOne(init);
      forall k, l | 0 <= k < l < |h| ensures RankLe(h[k], h[l]) {
        if l < |h0| {
          assert h[k] == h0[k] && h[l] == h0[l];
        } else {
          assert h[k] == h0[k] && h[l] == last;
          assert h0[k] in h0;
          var p :| 0 <= p < |init| && init[p] == h0[k] && FirstOfGroup(init, p);
          assert s[p] == h0[k];
        }
      }
    }
  }

  /** Lines 11-25: the leaderboard of the window starting `days` days before
      `now`: for each (variable, horizon), the winning aggregated row. */
  function LeaderboardRows(records: seq<ErrorRecord>, now: int, days: int): seq<Aggregate> {
    var df := Query(records, Since(now, days));
    if df == [] then [] else Best(df)
  }

  /** Ranking, sorting and `head(1)` of a non-empty aggregate, without the
      rank column. */
  function Best(df: seq<Aggregate>): seq<Aggregate> {
    var best := HeadOne(SortRanked(Ranked(df)));
    seq(|best|, k requires 0 <= k < |best| => best[k].row)
  }

  /** A row of the sorted ranking in `Ranked(df)`'s place. */
  lemma SortedRow(df: seq<Aggregate>, s: seq<RankedRow>, p: nat)
    requires s == SortRanked(Ranked(df)) && p < |s|
    ensures s[p].pos < |df| && s[p] == Ranked(df)[s[p].pos]
    ensures s[p].row == df[s[p].pos] && s[p].rank == Rank(df, s[p].pos)
  {
    assert s[p] in multiset(Ranked(df));
    var i :| 0 <= i < |df| && Ranked(df)[i] == s[p];
  }

  /** The first row of a group in the sorted ranking is its winner. */
  lemma FirstIsWinner(df: seq<Aggregate>, p: nat)
    requires var s := SortRanked(Ranked(df)); p < |s| && FirstOfGroup(s, p)
    ensures var s := SortRanked(Ranked(df));
      s[p].pos < |df| && s[p].row == df[s[p].pos] && IsWinner(df, s[p].pos)
  {
    var s := SortRanked(Ranked(df));
    SortedRow(df, s, p);
    var i := s[p].pos;
    WinnerExists(df, i);
    var w :| 0 <= w < |df| && SameGroup(df[w], df[i]) && IsWinner(df, w);
    RankSpec(df, w);
    RankSpec(df, i);
    WinnerFollows(df, p, w);
  }

  /** The winner of row `p`'s group comes at or after the group's first row,
      and so bounds its rank. */
  lemma WinnerFollows(df: seq<Aggregate>, p: nat, w: nat)
    requires var s := SortRanked(Ranked(df)); p < |s| && FirstOfGroup(s, p)
    requires w < |df| && SameGroup(df[w], SortRanked(Ranked(df))[p].row)
    ensures SortRanked(Ranked(df))[p].rank <= Rank(df, w)
  {
    var s := SortRanked(Ranked(df));
    SortRankedSpec(df);
    assert Ranked(df)[w] in multiset(s);
    var q :| 0 <= q < |s| && s[q] == Ranked(df)[w];
    if q > p {
      assert RankLe(s[p], s[q]);
    }
  }

  /** The sorted ranking, ordered and a rearrangement of `Ranked(df)`. */
  lemma SortRankedSpec(df: seq<Aggregate>)
    ensures var s := SortRanked(Ranked(df));
      Sorted(s, RankLe) && multiset(s) == multiset(Ranked(df))
  {
    RankLeTotalPreorder();
    SortSorted(Ranked(df), RankLe);
  }

  /** `a` is the winning row of its group in `df`. */
  predicate WinnerRow(df: seq<Aggregate>, a: Aggregate) {
    exists i :: 0 <= i < |df| && a == df[i] && IsWinner(df, i)
  }

  lemma BestRowWinner(df: seq<Aggregate>, k: nat)
    requires k < |Best(df)|
    ensures WinnerRow(df, Best(df)[k])
  {
    var s := SortRanked(Ranked(df));
    var h := HeadOne(s);
    HeadOneRows(s);
    assert h[k] in h;
    var p :| 0 <= p < |s| && s[p] == h[k] && FirstOfGroup(s, p);
    FirstIsWinner(df, p);
    assert Best(df)[k] == s[p].row == df[s[p].pos];
  }

  lemma BestWinners(df: seq<Aggregate>)
    ensures forall k :: 0 <= k < |Best(df)| ==> WinnerRow(df, Best(df)[k])
  {
    forall k | 0 <= k < |Best(df)| ensures WinnerRow(df, Best(df)[k]) {
      BestRowWinner(df, k);
    }
  }

  lemma BestComplete(df: seq<Aggregate>)
    ensures forall i :: 0 <= i < |df| ==> exists k :: 0 <= k < |Best(df)| && SameGroup(Best(df)[k], df[i])
  {
    var s := SortRanked(Ranked(df));
    var h := HeadOne(s);
    var out := Best(df);
    HeadOneGroups(s);
    SortRankedSpec(df);
    forall i | 0 <= i < |df| ensures exists k :: 0 <= k < |out| && SameGroup(out[k], df[i]) {
      assert Ranked(df)[i] in multiset(s);
      var q :| 0 <= q < |s| && s[q] == Ranked(df)[i];
      assert GroupIn(s, df[i]);
      var k :| 0 <= k < |h| && SameGroup(h[k].row, df[i]);
      assert out[k] == h[k].row;
    }
  }

  lemma BestOrdered(df: seq<Aggregate>)
    ensures forall k, l :: 0 <= k < l < |Best(df)| ==> GroupLt(Best(df)[k], Best(df)[l]) && !SameGroup(Best(df)[k], Best(df)[l])
  {
    var s := SortRanked(Ranked(df));
    var h := HeadOne(s);
    var out := Best(df);
    HeadOneDistinct(s);
    SortRankedSpec(df);
    HeadOneSorted(s);
    forall k, l | 0 <= k < l < |out| ensures GroupLt(out[k], out[l]) && !SameGroup(out[k], out[l]) {
      assert RankLe(h[k], h[l]);
      assert !SameGroup(h[k].row, h[l].row);
      assert out[k] == h[k].row && out[l] == h[l].row;
    }
  }

  /** Every leaderboard row is the winner of its group in the aggregate: its
      rmse is the lowest, and among equal rmse values it is the earliest
      row. */
  lemma LeaderboardWinners(records: seq<ErrorRecord>, now: int, days: int)
    ensures var df := Query(records, Since(now, days));
      var out := LeaderboardRows(records, now, days);
      && (df == [] ==> out == [])
      && forall k :: 0 <= k < |out| ==> WinnerRow(df, out[k])
  {
    var df := Query(records, Since(now, days));
    if df != [] {
      assert LeaderboardRows(records, now, days) == Best(df);
      BestWinners(df);
    }
  }

  /** Every (variable, horizon) of the aggregate has a leaderboard row. */
  lemma LeaderboardComplete(records: seq<ErrorRecord>, now: int, days: int)
    ensures var df := Query(records, Since(now, days));
      var out := LeaderboardRows(records, now, days);
      forall i :: 0 <= i < |df| ==> exists k :: 0 <= k < |out| && SameGroup(out[k], df[i])
  {
    var df := Query(records, Since(now, days));
    if df != [] {
      assert LeaderboardRows(records, now, days) == Best(df);
      BestComplete(df);
    }
  }

  /** The leaderboard is strictly ascending by (variable, horizon), so no
      (variable, horizon) has two rows. */
  lemma LeaderboardOrdered(records: seq<ErrorRecord>, now: int, days: int)
    ensures var out := LeaderboardRows(records, now, days);
      forall k, l :: 0 <= k < l < |out| ==> GroupLt(out[k], out[l]) && !SameGroup(out[k], out[l])
  {
    var df := Query(records, Since(now, days));
    if df != [] {
      assert LeaderboardRows(records, now, days) == Best(df);
      BestOrdered(df);
    }
  }

  /** Equal rmse goes to the earlier row whatever the mae: there is no mae
      tie-break. */
  lemma NoMaeTiebreak(a: Aggregate, b: Aggregate)
    requires SameGroup(a, b) && a.rmse == b.rmse && a.mae > b.mae
    ensures IsWinner([a, b], 0) && !IsWinner([a, b], 1)
    ensures Rank([a, b], 0) == 1 && Rank([a, b], 1) == 2
  {
    RankSpec([a, b], 0);
    assert Ahead([a, b], 1) == {0};
  }

  /** Two winners of one group are the same row. */
  lemma WinnerUnique(df: seq<Aggregate>, i: nat, j: nat)
    requires i < |df| && j < |df| && SameGroup(df[i], df[j])
    requires IsWinner(df, i) && IsWinner(df, j)
    ensures i == j
  {
    assert SameGroup(df[j], df[i]);
  }

  /** Any ordering by ["variable","horizon_hours","rank"], stable or not,
      gives the same frame: no two ranked rows tie on all three keys. */
  lemma SortKeysUnique(df: seq<Aggregate>, t: seq<RankedRow>)
    requires multiset(t) == multiset(Ranked(df)) && Sorted(t, RankLe)
    ensures t == SortRanked(Ranked(df))
  {
    var rs := Ranked(df);
    RankLeTotalPreorder();
    SortSorted(rs, RankLe);
    forall x, y | x in t && y in t && RankLe(x, y) && RankLe(y, x) ensures x == y {
      assert x in multiset(rs) && y in multiset(rs);
      var i :| 0 <= i < |df| && rs[i] == x;
      var j :| 0 <= j < |df| && rs[j] == y;
      if x.row.variable != y.row.variable {
        StrLeAntisym(x.row.variable, y.row.variable);
      }
      if i != j {
        RankSpec(df, i);
      }
    }
    SortedUnique(t, SortRanked(rs), RankLe);
  }
}
