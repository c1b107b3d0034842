/** Data frames indexed by (lat, lon, valid_time) and pandas' left merge on
    that index. */
module Frames {
  import opened Ordering

  /** The row index: a location and a valid time in whole hours (UTC). */
  datatype Key = Key(lat: real, lon: real, t: int)

  /** A row: its index and its non-missing cells. A column of the frame that
      has no cell in a row holds NaN in that row. */
  datatype Row = Row(key: Key, cells: map<string, real>)

  datatype Frame = Frame(columns: seq<string>, rows: seq<Row>)

  const IndexColumns: seq<string> := ["lat", "lon", "valid_time"]

  /** A frame without rows or without columns (`DataFrame.empty`). */
  predicate IsEmpty(f: Frame) {
    f.rows == [] || f.columns == []
  }

  /** The order of pandas' sort on ["lat", "lon", "valid_time"]. */
  predicate KeyLe(a: Key, b: Key) {
    a.lat < b.lat || (a.lat == b.lat && (a.lon < b.lon || (a.lon == b.lon && a.t <= b.t)))
  }

  lemma KeyLeTotalPreorder()
    ensures TotalPreorder(KeyLe)
  {
  }

  function KeySet(rows: seq<Row>): set<Key> {
    set r | r in rows :: r.key
  }

  predicate UniqueKeys(rows: seq<Row>) {
    forall i, j :: 0 <= i < j < |rows| ==> rows[i].key != rows[j].key
  }

  function Keys(rows: seq<Row>): (ks: seq<Key>)
    ensures |ks| == |rows| && forall i :: 0 <= i < |rows| ==> ks[i] == rows[i].key
  {
    seq(|rows|, i requires 0 <= i < |rows| => rows[i].key)
  }

  /** The rows of `right` whose index is `k`, in their order. */
  function Matches(k: Key, right: seq<Row>): (m: seq<Row>)
    ensures forall s :: s in m <==> s in right && s.key == k
    ensures |m| <= |right|
  {
    if right == [] then []
    else (if right[0].key == k then [right[0]] else []) + Matches(k, right[1..])
  }

  function Joined(a: Row, s: Row): Row {
    Row(a.key, a.cells + s.cells)
  }

  /** What one left row contributes to a left merge: one row per matching
      right row, in the right frame's order, or the row itself when nothing
      matches (NaN in the right frame's columns). */
  function JoinRow(a: Row, right: seq<Row>): seq<Row> {
    var m := Matches(a.key, right);
    if m == [] then [a] else seq(|m|, i requires 0 <= i < |m| => Joined(a, m[i]))
  }

  /** `left.merge(right, on=["lat", "lon", "valid_time"], how="left")`. */
  function LeftMerge(left: seq<Row>, right: seq<Row>): seq<Row> {
    if left == [] then [] else JoinRow(left[0], right) + LeftMerge(left[1..], right)
  }

  /** What one left row contributes satisfies `p` when the row does (in case
      nothing matches) and every joined pair does. */
  lemma JoinRowHolds(a: Row, right: seq<Row>, p: Row -> bool)
    requires Matches(a.key, right) == [] ==> p(a)
    requires forall s :: s in right && s.key == a.key ==> p(Joined(a, s))
    ensures forall o :: o in JoinRow(a, right) ==> p(o)
  {
    var m := Matches(a.key, right);
    forall o | o in JoinRow(a, right) ensures p(o) {
      if m != [] {
        var i :| 0 <= i < |m| && o == Joined(a, m[i]);
        assert m[i] in m;
      }
    }
  }

  lemma InAppend(a: seq<Row>, b: seq<Row>, p: Row -> bool)
    requires forall o :: o in a ==> p(o)
    requires forall o :: o in b ==> p(o)
    ensures forall o :: o in a + b ==> p(o)
  {
  }

  /** Every row of a left merge satisfies `p` when every unmatched left row and
      every joined (left, matching right) pair does. */
  lemma {:induction false} MergeHolds(left: seq<Row>, right: seq<Row>, p: Row -> bool)
    requires forall a :: a in left && Matches(a.key, right) == [] ==> p(a)
    requires forall a, s :: a in left && s in right && s.key == a.key ==> p(Joined(a, s))
    ensures forall o :: o in LeftMerge(left, right) ==> p(o)
  {
    if left != [] {
      assert left[0] in left;
      assert forall a :: a in left[1..] ==> a in left;
      MergeHolds(left[1..], right, p);
      JoinRowHolds(left[0], right, p);
      InAppend(JoinRow(left[0], right), LeftMerge(left[1..], right), p);
    }
  }

  /** A left row contributes at least one row, all with its own index. */
  lemma JoinRowKeys(a: Row, right: seq<Row>)
    ensures |JoinRow(a, right)| >= 1
    ensures KeySet(JoinRow(a, right)) == {a.key}
  {
    var j := JoinRow(a, right);
    assert j[0].key == a.key;
    assert forall o :: o in j ==> o.key == a.key;
  }

  lemma KeySetAppend(a: seq<Row>, b: seq<Row>)
    ensures KeySet(a + b) == KeySet(a) + KeySet(b)
  {
    forall k | k in KeySet(a + b) ensures k in KeySet(a) + KeySet(b) {
      var r :| r in a + b && r.key == k;
    }
  }

  /** A left merge neither loses nor invents an index value, and never has
      fewer rows than its left frame. */
  lemma {:induction false} MergeKeys(left: seq<Row>, right: seq<Row>)
    ensures KeySet(LeftMerge(left, right)) == KeySet(left)
    ensures |LeftMerge(left, right)| >= |left|
  {
    if left != [] {
      MergeKeys(left[1..], right);
      JoinRowKeys(left[0], right);
      KeySetAppend(JoinRow(left[0], right), LeftMerge(left[1..], right));
      assert left == [left[0]] + left[1..];
      KeySetAppend([left[0]], left[1..]);
    }
  }

  lemma {:induction false} NoMatch(k: Key, right: seq<Row>)
    requires forall i :: 0 <= i < |right| ==> right[i].key != k
    ensures Matches(k, right) == []
  {
    if right != [] {
      NoMatch(k, right[1..]);
    }
  }

  lemma {:induction false} MatchesOfUnique(k: Key, right: seq<Row>)
    requires UniqueKeys(right)
    ensures |Matches(k, right)| <= 1
  {
    if right != [] {
      MatchesOfUnique(k, right[1..]);
      if right[0].key == k {
        assert forall i :: 0 <= i < |right[1..]| ==> right[1..][i].key == right[i + 1].key != k;
        NoMatch(k, right[1..]);
      }
    }
  }

  /** A left row without a match has an index the right frame lacks. */
  lemma UnmatchedKeyAbsent(k: Key, right: seq<Row>)
    requires Matches(k, right) == []
    ensures k !in KeySet(right)
  {
    forall s | s in right ensures s.key != k {
      assert s !in Matches(k, right);
    }
  }

  /** Every row of a left merge satisfies `p` when every left row has a match
      and every joined pair satisfies `p`. */
  lemma {:induction false} MergeAllMatched(left: seq<Row>, right: seq<Row>, p: Row -> bool)
    requires forall a :: a in left ==> a.key in KeySet(right)
    requires forall a, s :: a in left && s in right && s.key == a.key ==> p(Joined(a, s))
    ensures forall o :: o in LeftMerge(left, right) ==> p(o)
  {
    if left != [] {
      var a := left[0];
      assert a in left;
      assert forall b :: b in left[1..] ==> b in left;
      MergeAllMatched(left[1..], right, p);
      var s0 :| s0 in right && s0.key == a.key;
      assert s0 in Matches(a.key, right);
      JoinRowHolds(a, right, p);
      InAppend(JoinRow(a, right), LeftMerge(left[1..], right), p);
    }
  }

  /** The row a left row becomes when `right` has at most one row per index
      value. */
  function Extend(a: Row, right: seq<Row>): (o: Row)
    ensures o.key == a.key
  {
    var m := Matches(a.key, right);
    if m == [] then a else Joined(a, m[0])
  }

  /** With at most one right row per index value, a left merge keeps the left
      frame's rows one for one, in order. */
  lemma {:induction false} MergeOneToOne(left: seq<Row>, right: seq<Row>)
    requires UniqueKeys(right)
    ensures |LeftMerge(left, right)| == |left|
    ensures forall i :: 0 <= i < |left| ==> LeftMerge(left, right)[i] == Extend(left[i], right)
  {
    if left != [] {
      MergeOneToOne(left[1..], right);
      MatchesOfUnique(left[0].key, right);
      assert JoinRow(left[0], right) == [Extend(left[0], right)];
    }
  }

  lemma MergeKeepsKeyOrder(left: seq<Row>, right: seq<Row>)
    requires UniqueKeys(right)
    ensures Keys(LeftMerge(left, right)) == Keys(left)
  {
    MergeOneToOne(left, right);
  }
}
