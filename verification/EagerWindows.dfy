/**
 A window on a nested builder is cut once, for all the rows of an edge together.
 Exactly when that leaves each key the rows that a window of its own would leave.
 */
module EagerWindows {
  import opened Base
  import opened Store
  import opened StoreLemmas
  import opened QueryTree
  import opened EagerJoin
  import opened EagerLinks

  // ---------- one window for all keys, or one for each ----------

  predicate OneKey(e: Edge, rows: seq<Row>) {
    forall i, j | 0 <= i < j < |rows| :: EdgeKey(e, rows[i]) == EdgeKey(e, rows[j])
  }

  predicate AllKeyed(e: Edge, ids: seq<ID>, rows: seq<Row>) {
    forall i | 0 <= i < |rows| :: EdgeKey(e, rows[i]).Some? && EdgeKey(e, rows[i]).value in ids
  }

  /** Cutting the rows once and then splitting them by key is splitting first and cutting each part. */
  predicate PerKey(e: Edge, from: nat, kept: Option<nat>, ids: seq<ID>, rows: seq<Row>) {
    forall i | 0 <= i < |ids| ::
      ByKey(e, ids[i], Window(from, kept, rows)) == Window(from, kept, ByKey(e, ids[i], rows))
  }

  /** Where the window ends in a list of n rows. */
  function End(from: nat, kept: Option<nat>, n: nat): (to: nat)
    requires from <= n
    ensures from <= to <= n
    ensures from < n && kept != Some(0) ==> from < to
  {
    if kept.None? || n - from <= kept.value then n else from + kept.value
  }

  /**
   Without an offset the limit must cut nothing, or all rows have one key. An
   offset must skip everything, or the rows up to the end of the window have one
   key and every other key has so few rows that the offset skips them.
   */
  predicate Uncut(e: Edge, from: nat, kept: Option<nat>, rows: seq<Row>) {
    if from == 0 then kept.None? || |rows| <= kept.value || OneKey(e, rows)
    else |rows| <= from || (OneKey(e, rows[..End(from, kept, |rows|)]) && OthersSkipped(e, from, kept, rows))
  }

  predicate OthersSkipped(e: Edge, from: nat, kept: Option<nat>, rows: seq<Row>)
    requires from < |rows|
  {
    forall i | End(from, kept, |rows|) <= i < |rows| && EdgeKey(e, rows[i]) != EdgeKey(e, rows[0]) ::
      EdgeKey(e, rows[i]).Some? ==> |ByKey(e, EdgeKey(e, rows[i]).value, rows)| <= from
  }

  lemma ByKeySplit(e: Edge, id: ID, rows: seq<Row>, m: nat)
    requires m <= |rows|
    ensures ByKey(e, id, rows) == ByKey(e, id, rows[..m]) + ByKey(e, id, rows[m..])
  {
    assert rows == rows[..m] + rows[m..];
    FilterAppend([KeyIn(e, [id])], rows[..m], rows[m..]);
  }

  lemma {:induction false} ByKeyLength(e: Edge, id: ID, rows: seq<Row>)
    ensures |ByKey(e, id, rows)| <= |rows|
    ensures |ByKey(e, id, rows)| == |rows| <==> forall i | 0 <= i < |rows| :: EdgeKey(e, rows[i]) == Some(id)
    ensures ByKey(e, id, rows) == [] <==> forall i | 0 <= i < |rows| :: EdgeKey(e, rows[i]) != Some(id)
    ensures |ByKey(e, id, rows)| == |rows| ==> ByKey(e, id, rows) == rows
  {
    if rows != [] {
      var n := |rows| - 1;
      ByKeyLength(e, id, rows[..n]);
      ByKeySnoc(e, id, rows);
      assert forall i | 0 <= i < n :: rows[i] == rows[..n][i];
      assert rows == rows[..n] + [rows[n]];
    }
  }

  /** Where the rows all have one key, each id sees all of them or none. */
  lemma OneKeyByKey(e: Edge, id: ID, rows: seq<Row>)
    requires OneKey(e, rows)
    ensures ByKey(e, id, rows) == if rows != [] && EdgeKey(e, rows[0]) == Some(id) then rows else []
  {
    ByKeyLength(e, id, rows);
  }

  lemma ByKeyDistinct(e: Edge, id: ID, rows: seq<Row>)
    requires DistinctIDs(rows)
    ensures DistinctIDs(ByKey(e, id, rows))
  {
    FilterKeepsDistinctIDs([KeyIn(e, [id])], rows);
  }

  /** The window on all rows is the window on each key's rows exactly when it is uncut. */
  lemma WindowExact(e: Edge, from: nat, kept: Option<nat>, ids: seq<ID>, rows: seq<Row>)
    requires AllKeyed(e, ids, rows) && DistinctIDs(rows) && kept != Some(0)
    ensures PerKey(e, from, kept, ids, rows) <==> Uncut(e, from, kept, rows)
  {
    if Uncut(e, from, kept, rows) {
      forall i | 0 <= i < |ids|
        ensures ByKey(e, ids[i], Window(from, kept, rows)) == Window(from, kept, ByKey(e, ids[i], rows))
      {
        if from == 0 { LimitUncut(e, kept, ids[i], rows); } else { OffsetUncut(e, from, kept, ids[i], rows); }
      }
    }
    if PerKey(e, from, kept, ids, rows) {
      if from == 0 { LimitExact(e, kept, ids, rows); } else { OffsetExact(e, from, kept, ids, rows); }
    }
  }

  lemma LimitExact(e: Edge, kept: Option<nat>, ids: seq<ID>, rows: seq<Row>)
    requires AllKeyed(e, ids, rows) && kept != Some(0) && PerKey(e, 0, kept, ids, rows)
    ensures Uncut(e, 0, kept, rows)
  {
    if kept.Some? && kept.value < |rows| {
      forall m | kept.value <= m < |rows| ensures OneKeyBefore(e, rows, kept.value, m) {
        LimitKey(e, kept, ids, rows, m);
      }
      KeysJoin(e, rows, kept.value, |rows|);
      assert rows[..|rows|] == rows;
    }
  }

  lemma OffsetExact(e: Edge, from: nat, kept: Option<nat>, ids: seq<ID>, rows: seq<Row>)
    requires AllKeyed(e, ids, rows) && DistinctIDs(rows) && 0 < from && kept != Some(0)
    requires PerKey(e, from, kept, ids, rows)
    ensures Uncut(e, from, kept, rows)
  {
    if from < |rows| {
      var to := End(from, kept, |rows|);
      forall m | from <= m < to ensures OneKeyBefore(e, rows, from, m) {
        OffsetKey(e, from, kept, ids, rows, m);
      }
      KeysJoin(e, rows, from, to);
      OthersGone(e, from, kept, ids, rows);
    }
  }

  predicate OneKeyBefore(e: Edge, rows: seq<Row>, n: nat, m: nat)
    requires n <= m < |rows|
  {
    forall j | 0 <= j < n :: EdgeKey(e, rows[j]) == EdgeKey(e, rows[m])
  }

  lemma KeysJoin(e: Edge, rows: seq<Row>, n: nat, to: nat)
    requires 0 < n < to <= |rows|
    requires forall m | n <= m < to :: OneKeyBefore(e, rows, n, m)
    ensures OneKey(e, rows[..to])
  {
    assert OneKeyBefore(e, rows, n, n);
    forall i | 0 <= i < to ensures EdgeKey(e, rows[i]) == EdgeKey(e, rows[0]) {
      if n <= i { assert OneKeyBefore(e, rows, n, i); } else { assert EdgeKey(e, rows[0]) == EdgeKey(e, rows[n]); }
    }
  }

  lemma LimitUncut(e: Edge, kept: Option<nat>, id: ID, rows: seq<Row>)
    requires Uncut(e, 0, kept, rows)
    ensures ByKey(e, id, Window(0, kept, rows)) == Window(0, kept, ByKey(e, id, rows))
  {
    ByKeyLength(e, id, rows);
    if kept.Some? && |rows| > kept.value {
      OneKeyByKey(e, id, rows);
      OneKeyByKey(e, id, rows[..kept.value]);
    }
  }

  lemma OffsetUncut(e: Edge, from: nat, kept: Option<nat>, id: ID, rows: seq<Row>)
    requires 0 < from && kept != Some(0) && Uncut(e, from, kept, rows)
    ensures ByKey(e, id, Window(from, kept, rows)) == Window(from, kept, ByKey(e, id, rows))
  {
    hide Window, ByKey;
    ByKeyLength(e, id, rows);
    ByKeyLength(e, id, []);
    WindowHead(from, kept, ByKey(e, id, rows));
    WindowHead(from, kept, rows);
    if from < |rows| {
      var to := End(from, kept, |rows|);
      WindowIsSlice(from, kept, rows);
      ByKeySplit(e, id, rows, to);
      OneKeyByKey(e, id, rows[..to]);
      OneKeySlice(e, rows, from, to);
      OneKeyByKey(e, id, rows[from..to]);
      ByKeyLength(e, id, rows[to..]);
      assert rows[..to][0] == rows[0];
      if EdgeKey(e, rows[0]) == Some(id) {
        WindowOfPrefix(from, kept, rows, to, ByKey(e, id, rows[to..]));
      } else if ByKey(e, id, rows[to..]) != [] {
        var i :| 0 <= i < |rows| - to && EdgeKey(e, rows[to..][i]) == Some(id);
        assert rows[to + i] == rows[to..][i];
      }
    }
  }

  lemma OneKeySlice(e: Edge, rows: seq<Row>, from: nat, to: nat)
    requires from < to <= |rows| && OneKey(e, rows[..to])
    ensures OneKey(e, rows[from..to]) && EdgeKey(e, rows[from..to][0]) == EdgeKey(e, rows[0])
  {
    forall i | 0 <= i < to - from ensures EdgeKey(e, rows[from..to][i]) == EdgeKey(e, rows[0]) {
      assert rows[from..to][i] == rows[..to][from + i] && rows[0] == rows[..to][0];
    }
  }

  lemma WindowOfPrefix(from: nat, kept: Option<nat>, rows: seq<Row>, to: nat, more: seq<Row>)
    requires from < |rows| && to == End(from, kept, |rows|) && (to == |rows| ==> more == [])
    ensures Window(from, kept, rows[..to] + more) == rows[from..to]
  {
    var longer := rows[..to] + more;
    assert longer[from..] == rows[from..to] + more;
    assert longer[from..][..to - from] == rows[from..to];
    if to == |rows| { assert longer == rows; }
  }

  /** If a row beyond the limit is not missed, the rows within it all share its key. */
  lemma LimitKey(e: Edge, kept: Option<nat>, ids: seq<ID>, rows: seq<Row>, m: nat)
    requires kept.Some? && 0 < kept.value <= m < |rows|
    requires AllKeyed(e, ids, rows) && PerKey(e, 0, kept, ids, rows)
    ensures OneKeyBefore(e, rows, kept.value, m)
  {
    hide Window, ByKey;
    var n, id := kept.value, EdgeKey(e, rows[m]).value;
    LimitLength(n, rows);
    LimitLength(n, ByKey(e, id, rows));
    var i :| 0 <= i < |ids| && ids[i] == id;
    ByKeySplit(e, id, rows, n);
    ByKeyLength(e, id, rows[..n]);
    ByKeyLength(e, id, rows[n..]);
    assert rows[n..][m - n] == rows[m];
    assert ByKey(e, ids[i], rows[..n]) == Window(0, kept, ByKey(e, ids[i], rows));
    assert |ByKey(e, id, rows[..n])| == n;
    forall j | 0 <= j < n ensures EdgeKey(e, rows[j]) == Some(id) { assert rows[..n][j] == rows[j]; }
  }

  /** If a row inside the window is where its key's own window starts, the skipped rows all share its key. */
  lemma OffsetKey(e: Edge, from: nat, kept: Option<nat>, ids: seq<ID>, rows: seq<Row>, m: nat)
    requires AllKeyed(e, ids, rows) && DistinctIDs(rows) && PerKey(e, from, kept, ids, rows)
    requires from < |rows| && from <= m < End(from, kept, |rows|)
    ensures OneKeyBefore(e, rows, from, m)
  {
    hide Window, ByKey;
    var to, id := End(from, kept, |rows|), EdgeKey(e, rows[m]).value;
    var i :| 0 <= i < |ids| && ids[i] == id;
    var mine := ByKey(e, id, rows);
    WindowIsSlice(from, kept, rows);
    WindowHead(from, kept, mine);
    ByKeySplit(e, id, rows, from);
    ByKeySplit(e, id, rows[from..], to - from);
    assert rows[from..][..to - from] == rows[from..to];
    ByKeyLength(e, id, rows[from..to]);
    assert rows[from..to][m - from] == rows[m];
    var head := ByKey(e, id, rows[from..to]);
    assert head == Window(from, kept, ByKey(e, ids[i], rows));
    assert mine[|ByKey(e, id, rows[..from])|] == head[0] == mine[from];
    ByKeyDistinct(e, id, rows);
    ByKeyLength(e, id, rows[..from]);
    forall j | 0 <= j < from ensures EdgeKey(e, rows[j]) == Some(id) { assert rows[..from][j] == rows[j]; }
  }

  lemma LimitLength(n: nat, rows: seq<Row>)
    ensures n <= |rows| ==> Window(0, Some(n), rows) == rows[..n]
    ensures |rows| <= n ==> Window(0, Some(n), rows) == rows
  {
  }

  lemma WindowIsSlice(from: nat, kept: Option<nat>, rows: seq<Row>)
    requires from <= |rows|
    ensures Window(from, kept, rows) == rows[from..End(from, kept, |rows|)]
  {
  }

  lemma WindowHead(from: nat, kept: Option<nat>, rows: seq<Row>)
    ensures |rows| <= from ==> Window(from, kept, rows) == []
    ensures from < |rows| && kept != Some(0) ==>
              Window(from, kept, rows) != [] && Window(from, kept, rows)[0] == rows[from]
  {
  }

  /** A key without rows in the window is skipped by its own. */
  lemma OthersGone(e: Edge, from: nat, kept: Option<nat>, ids: seq<ID>, rows: seq<Row>)
    requires 0 < from < |rows| && kept != Some(0)
    requires AllKeyed(e, ids, rows) && PerKey(e, from, kept, ids, rows)
    requires OneKey(e, rows[..End(from, kept, |rows|)])
    ensures OthersSkipped(e, from, kept, rows)
  {
    hide Window;
    var to := End(from, kept, |rows|);
    forall m | to <= m < |rows| && EdgeKey(e, rows[m]) != EdgeKey(e, rows[0])
      ensures |ByKey(e, EdgeKey(e, rows[m]).value, rows)| <= from
    {
      var id := EdgeKey(e, rows[m]).value;
      var i :| 0 <= i < |ids| && ids[i] == id;
      WindowIsSlice(from, kept, rows);
      WindowHead(from, kept, ByKey(e, id, rows));
      ByKeyLength(e, id, rows[from..to]);
      forall j | 0 <= j < to - from ensures EdgeKey(e, rows[from..to][j]) != Some(id) {
        assert rows[from..to][j] == rows[..to][from + j] && rows[..to][0] == rows[0];
      }
      assert ByKey(e, ids[i], rows[from..to]) == Window(from, kept, ByKey(e, ids[i], rows));
    }
  }

  /** Where each key has one row, as the parents of a many-to-one edge do, the window must keep all rows or skip all. */
  lemma OneRowEach(e: Edge, from: nat, kept: Option<nat>, rows: seq<Row>)
    requires e.kind == ManyToOne && DistinctIDs(rows) && kept != Some(0)
    ensures Uncut(e, from, kept, rows) <==>
            if from == 0 then kept.None? || |rows| <= kept.value else |rows| <= from
  {
    if from == 0 {
      if |rows| > 1 { assert EdgeKey(e, rows[0]) != EdgeKey(e, rows[1]); }
    } else if from < |rows| {
      var to := End(from, kept, |rows|);
      assert rows[..to][0] == rows[0] && rows[..to][from] == rows[from];
    }
  }
}
