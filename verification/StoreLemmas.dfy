/** Laws of the store's SELECT: filtering commutes with everything the loaders rely on. */
module StoreLemmas {
  import opened Base
  import opened Store

  // ---------- filter ----------

  lemma {:induction false} FilterAppend(ps: seq<Predicate>, a: seq<Row>, b: seq<Row>)
    ensures Filter(ps, a + b) == Filter(ps, a) + Filter(ps, b)
  {
    if b == [] {
      assert a + b == a;
    } else {
      var n := |b| - 1;
      FilterAppend(ps, a, b[..n]);
      assert (a + b)[..|a + b| - 1] == a + b[..n];
    }
  }

  lemma {:induction false} FilterMembers(ps: seq<Predicate>, rows: seq<Row>, r: Row)
    ensures r in Filter(ps, rows) <==> r in rows && HoldAll(ps, r)
  {
    if rows != [] {
      FilterMembers(ps, rows[..|rows| - 1], r);
      assert rows == rows[..|rows| - 1] + [rows[|rows| - 1]];
    }
  }

  lemma HoldAllAppend(ps: seq<Predicate>, qs: seq<Predicate>, r: Row)
    ensures HoldAll(ps + qs, r) == (HoldAll(ps, r) && HoldAll(qs, r))
  {
    if HoldAll(ps + qs, r) {
      forall i | 0 <= i < |ps| ensures Holds(ps[i], r) { assert (ps + qs)[i] == ps[i]; }
      forall i | 0 <= i < |qs| ensures Holds(qs[i], r) { assert (ps + qs)[|ps| + i] == qs[i]; }
    }
  }

  lemma FilterSnoc(ps: seq<Predicate>, rows: seq<Row>, r: Row)
    ensures Filter(ps, rows + [r]) == if HoldAll(ps, r) then Filter(ps, rows) + [r] else Filter(ps, rows)
  {
    assert (rows + [r])[..|rows|] == rows;
  }

  lemma {:induction false} FilterFilter(ps: seq<Predicate>, qs: seq<Predicate>, rows: seq<Row>)
    ensures Filter(qs, Filter(ps, rows)) == Filter(ps + qs, rows)
  {
    if rows != [] {
      var n := |rows| - 1;
      FilterFilter(ps, qs, rows[..n]);
      HoldAllAppend(ps, qs, rows[n]);
      if HoldAll(ps, rows[n]) { FilterSnoc(qs, Filter(ps, rows[..n]), rows[n]); }
    }
  }

  /** Two predicate lists that agree on every row of a table select the same rows. */
  lemma {:induction false} FilterCongruence(ps: seq<Predicate>, qs: seq<Predicate>, rows: seq<Row>)
    requires forall r | r in rows :: HoldAll(ps, r) == HoldAll(qs, r)
    ensures Filter(ps, rows) == Filter(qs, rows)
  {
    if rows != [] {
      assert rows[|rows| - 1] in rows;
      FilterCongruence(ps, qs, rows[..|rows| - 1]);
    }
  }

  lemma {:induction false} FilterKeepsDistinctIDs(ps: seq<Predicate>, rows: seq<Row>)
    requires DistinctIDs(rows)
    ensures DistinctIDs(Filter(ps, rows))
  {
    if rows != [] {
      var n := |rows| - 1;
      FilterKeepsDistinctIDs(ps, rows[..n]);
      var kept := Filter(ps, rows[..n]);
      forall i | 0 <= i < |kept| ensures kept[i].id != rows[n].id {
        FilterMembers(ps, rows[..n], kept[i]);
      }
    }
  }

  // ---------- order ----------

  lemma {:induction false} BeforeTotal(order: seq<OrderTerm>, r: Row, s: Row)
    ensures Before(order, r, s) || Before(order, s, r)
  {
    if order != [] { BeforeTotal(order[1..], r, s); }
  }

  lemma {:induction false} BeforeTransitive(order: seq<OrderTerm>, r: Row, s: Row, t: Row)
    requires Before(order, r, s) && Before(order, s, t)
    ensures Before(order, r, t)
  {
    if order != [] {
      var k := order[0];
      if k.key(r) == k.key(s) == k.key(t) { BeforeTransitive(order[1..], r, s, t); }
    }
  }

  lemma {:induction false} InsertMembers(order: seq<OrderTerm>, r: Row, rows: seq<Row>)
    ensures multiset(Insert(order, r, rows)) == multiset(rows) + multiset{r}
  {
    if rows != [] {
      var n := |rows| - 1;
      assert rows == rows[..n] + [rows[n]];
      if !Before(order, rows[n], r) { InsertMembers(order, r, rows[..n]); }
    }
  }

  lemma {:induction false} InsertOrdered(order: seq<OrderTerm>, r: Row, rows: seq<Row>)
    requires Ordered(order, rows)
    ensures Ordered(order, Insert(order, r, rows))
  {
    if rows != [] {
      var n := |rows| - 1;
      if Before(order, rows[n], r) {
        forall i | 0 <= i < n ensures Before(order, rows[i], r) {
          BeforeTransitive(order, rows[i], rows[n], r);
        }
      } else {
        BeforeTotal(order, rows[n], r);
        InsertOrdered(order, r, rows[..n]);
        InsertMembers(order, r, rows[..n]);
        var front := Insert(order, r, rows[..n]);
        forall i | 0 <= i < |front| ensures Before(order, front[i], rows[n]) {
          assert front[i] in multiset(front);
          assert front[i] in multiset(rows[..n]) || front[i] == r;
        }
      }
    }
  }

  lemma {:induction false} SortOrdered(order: seq<OrderTerm>, rows: seq<Row>)
    ensures Ordered(order, Sort(order, rows))
  {
    if rows != [] {
      var n := |rows| - 1;
      SortOrdered(order, rows[..n]);
      InsertOrdered(order, rows[n], Sort(order, rows[..n]));
    }
  }

  lemma {:induction false} SortPermutes(order: seq<OrderTerm>, rows: seq<Row>)
    ensures multiset(Sort(order, rows)) == multiset(rows)
  {
    hide Insert, Before;
    if rows != [] {
      var n := |rows| - 1;
      SortPermutes(order, rows[..n]);
      InsertMembers(order, rows[n], Sort(order, rows[..n]));
      assert rows == rows[..n] + [rows[n]];
    }
  }

  lemma SortMembers(order: seq<OrderTerm>, rows: seq<Row>, r: Row)
    ensures r in Sort(order, rows) <==> r in rows
  {
    SortPermutes(order, rows);
    assert r in multiset(Sort(order, rows)) <==> r in multiset(rows);
  }

  lemma InsertSnoc(order: seq<OrderTerm>, r: Row, rows: seq<Row>, last: Row)
    ensures Insert(order, r, rows + [last]) ==
            if Before(order, last, r) then rows + [last, r] else Insert(order, r, rows) + [last]
  {
    assert (rows + [last])[..|rows|] == rows;
    assert rows + [last] + [r] == rows + [last, r];
  }

  lemma SortSnoc(order: seq<OrderTerm>, rows: seq<Row>, last: Row)
    ensures Sort(order, rows + [last]) == Insert(order, last, Sort(order, rows))
  {
    assert (rows + [last])[..|rows|] == rows;
  }

  lemma {:induction false} InsertSkips(order: seq<OrderTerm>, ps: seq<Predicate>, r: Row, rows: seq<Row>)
    requires Ordered(order, rows)
    ensures Filter(ps, Insert(order, r, rows)) ==
            if HoldAll(ps, r) then Insert(order, r, Filter(ps, rows)) else Filter(ps, rows)
  {
    if rows == [] {
      FilterSnoc(ps, [], r);
    } else {
      var n := |rows| - 1;
      if Before(order, rows[n], r) {
        FilterSnoc(ps, rows, r);
        AppendsLast(order, ps, r, rows);
      } else {
        InsertSkips(order, ps, r, rows[..n]);
        FilterSnoc(ps, Insert(order, r, rows[..n]), rows[n]);
        InsertSnoc(order, r, Filter(ps, rows[..n]), rows[n]);
      }
    }
  }

  lemma AppendsLast(order: seq<OrderTerm>, ps: seq<Predicate>, r: Row, rows: seq<Row>)
    requires Ordered(order, rows) && rows != [] && Before(order, rows[|rows| - 1], r)
    ensures Insert(order, r, Filter(ps, rows)) == Filter(ps, rows) + [r]
  {
    var kept := Filter(ps, rows);
    if kept != [] {
      var last := kept[|kept| - 1];
      FilterMembers(ps, rows, last);
      var i :| 0 <= i < |rows| && rows[i] == last;
      if i < |rows| - 1 { BeforeTransitive(order, last, rows[|rows| - 1], r); }
    }
  }

  /** A stable sort commutes with filtering. */
  lemma {:induction false} FilterSort(order: seq<OrderTerm>, ps: seq<Predicate>, rows: seq<Row>)
    ensures Filter(ps, Sort(order, rows)) == Sort(order, Filter(ps, rows))
  {
    if rows != [] {
      var n := |rows| - 1;
      FilterSort(order, ps, rows[..n]);
      SortOrdered(order, rows[..n]);
      InsertSkips(order, ps, rows[n], Sort(order, rows[..n]));
      SortSnoc(order, Filter(ps, rows[..n]), rows[n]);
    }
  }

  lemma SortKeepsDistinctIDs(order: seq<OrderTerm>, rows: seq<Row>)
    requires DistinctIDs(rows)
    ensures DistinctIDs(Sort(order, rows))
  {
    IDsOnce(rows);
    SortPermutes(order, rows);
    IDsOnceConverse(Sort(order, rows));
  }

  ghost predicate OnceEach(m: multiset<Row>) {
    (forall r | r in m :: m[r] == 1) &&
    (forall r, s | r in m && s in m && r.id == s.id :: r == s)
  }

  lemma {:induction false} IDsOnce(rows: seq<Row>)
    requires DistinctIDs(rows)
    ensures OnceEach(multiset(rows))
  {
    if rows != [] {
      var n := |rows| - 1;
      IDsOnce(rows[..n]);
      assert rows == rows[..n] + [rows[n]];
      assert rows[n] !in multiset(rows[..n]);
    }
  }

  lemma IDsOnceConverse(rows: seq<Row>)
    requires OnceEach(multiset(rows))
    ensures DistinctIDs(rows)
  {
    forall i, j | 0 <= i < j < |rows| ensures rows[i].id != rows[j].id {
      assert rows == rows[..j] + [rows[j]] + rows[j + 1..];
      assert rows[j] in rows[..j] ==> multiset(rows)[rows[j]] >= 2;
      assert rows[i] in rows[..j];
      assert rows[i] in multiset(rows) && rows[j] in multiset(rows);
    }
  }

  // ---------- distinct ----------

  lemma {:induction false} DistinctIDsSurvive(columns: seq<Column>, rows: seq<Row>)
    requires DistinctIDs(rows)
    ensures Distinct(columns, rows) == rows
  {
    if rows != [] {
      var n := |rows| - 1;
      DistinctIDsSurvive(columns, rows[..n]);
      var p := Projections(columns, rows[..n]);
      forall i | 0 <= i < |p| ensures p[i] != Project(columns, rows[n]) {
        assert p[i].id == rows[i].id;
      }
      assert rows == rows[..n] + [rows[n]];
    }
  }

  /** Rows that carry the same id are the same row, as when they all come from one table. */
  ghost predicate OneRowPerID(rows: seq<Row>) {
    forall r, s | r in rows && s in rows && r.id == s.id :: r == s
  }

  lemma {:induction false} DistinctMembers(columns: seq<Column>, rows: seq<Row>)
    ensures forall r | r in Distinct(columns, rows) :: r in rows
  {
    if rows != [] { DistinctMembers(columns, rows[..|rows| - 1]); }
  }

  /** DISTINCT over any projection leaves each id once. */
  lemma {:induction false} DistinctLeavesDistinctIDs(columns: seq<Column>, rows: seq<Row>)
    requires OneRowPerID(rows)
    ensures DistinctIDs(Distinct(columns, rows))
  {
    if rows != [] {
      var n := |rows| - 1;
      DistinctLeavesDistinctIDs(columns, rows[..n]);
      DistinctMembers(columns, rows[..n]);
      var kept := Distinct(columns, rows[..n]);
      var p := Projections(columns, rows[..n]);
      if Project(columns, rows[n]) !in p {
        forall i | 0 <= i < |kept| ensures kept[i].id != rows[n].id {
          assert kept[i] in kept && kept[i] in rows && rows[n] in rows;
          var k :| 0 <= k < n && rows[k] == kept[i];
          assert p[k] == Project(columns, rows[k]) && p[k] in p;
        }
      }
    }
  }

  /** Over such rows the projection DISTINCT looks at does not matter. */
  lemma {:induction false} DistinctIgnoresColumns(a: seq<Column>, b: seq<Column>, rows: seq<Row>)
    requires OneRowPerID(rows)
    ensures Distinct(a, rows) == Distinct(b, rows)
  {
    if rows != [] {
      var n := |rows| - 1;
      DistinctIgnoresColumns(a, b, rows[..n]);
      SeenAlike(a, b, rows);
      SeenAlike(b, a, rows);
    }
  }

  lemma SeenAlike(a: seq<Column>, b: seq<Column>, rows: seq<Row>)
    requires OneRowPerID(rows) && rows != []
    ensures var n := |rows| - 1;
            Project(a, rows[n]) in Projections(a, rows[..n]) ==> Project(b, rows[n]) in Projections(b, rows[..n])
  {
    var n := |rows| - 1;
    var p := Projections(a, rows[..n]);
    if Project(a, rows[n]) in p {
      var k :| 0 <= k < |p| && p[k] == Project(a, rows[n]);
      assert rows[k] in rows && rows[n] in rows && rows[k].id == rows[n].id;
      assert Projections(b, rows[..n])[k] == Project(b, rows[n]);
    }
  }
}
