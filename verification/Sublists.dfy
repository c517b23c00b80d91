/** Rows that occur in a list in its order: what filters and windows leave. */
module Sublists {
  import opened Base
  import opened Store
  import opened StoreLemmas
  import opened EagerWindows

  /** The rows of a occur in s, in that order. */
  predicate Sub(a: seq<Row>, s: seq<Row>)
    decreases |s|
  {
    a == [] ||
    (s != [] && if a[|a| - 1] == s[|s| - 1] then Sub(a[..|a| - 1], s[..|s| - 1]) else Sub(a, s[..|s| - 1]))
  }

  lemma {:induction false} SubMembers(a: seq<Row>, s: seq<Row>, r: Row)
    requires Sub(a, s) && r in a
    ensures r in s
    decreases |s|
  {
    if a[|a| - 1] != s[|s| - 1] {
      SubMembers(a, s[..|s| - 1], r);
    } else if r != a[|a| - 1] {
      assert a == a[..|a| - 1] + [a[|a| - 1]];
      SubMembers(a[..|a| - 1], s[..|s| - 1], r);
    }
  }

  lemma {:induction false} SubFilter(ps: seq<Predicate>, s: seq<Row>)
    ensures Sub(Filter(ps, s), s)
  {
    if s != [] {
      var front := s[..|s| - 1];
      SubFilter(ps, front);
      if !HoldAll(ps, s[|s| - 1]) && Filter(ps, front) != [] { SubMore(Filter(ps, front), s); }
    }
  }

  lemma {:induction false} SubSlice(s: seq<Row>, i: nat, j: nat)
    requires i <= j <= |s|
    ensures Sub(s[i..j], s)
    decreases |s|
  {
    if i < j {
      var front, slice := s[..|s| - 1], s[i..j];
      SubSlice(front, i, j - 1);
      assert slice[..|slice| - 1] == front[i..j - 1];
      if j < |s| {
        SubSlice(front, i, j);
        forall k | 0 <= k < j - i ensures slice[k] == front[i..j][k] { }
        assert slice == front[i..j];
      }
    }
  }

  lemma {:induction false} SubDrop(a: seq<Row>, s: seq<Row>)
    requires a != [] && Sub(a, s)
    ensures Sub(a[..|a| - 1], s)
    decreases |s|
  {
    var less := a[..|a| - 1];
    if a[|a| - 1] == s[|s| - 1] {
      if less != [] { SubDrop(less, s[..|s| - 1]); }
    } else {
      SubDrop(a, s[..|s| - 1]);
      if less != [] { SubDrop(less, s[..|s| - 1]); }
    }
  }

  lemma SubMore(a: seq<Row>, s: seq<Row>)
    requires s != [] && Sub(a, s[..|s| - 1])
    ensures Sub(a, s)
  {
    if a != [] { SubDrop(a, s[..|s| - 1]); }
  }

  lemma {:induction false} SubTrans(a: seq<Row>, b: seq<Row>, s: seq<Row>)
    requires Sub(a, b) && Sub(b, s)
    ensures Sub(a, s)
    decreases |s|
  {
    if a != [] {
      var front := s[..|s| - 1];
      if b[|b| - 1] != s[|s| - 1] {
        SubTrans(a, b, front);
        SubMore(a, s);
      } else if a[|a| - 1] == b[|b| - 1] {
        SubTrans(a[..|a| - 1], b[..|b| - 1], front);
      } else {
        SubTrans(a, b[..|b| - 1], front);
      }
    }
  }

  predicate SameMembers(a: seq<Row>, b: seq<Row>) {
    (forall i | 0 <= i < |a| :: a[i] in b) && (forall i | 0 <= i < |b| :: b[i] in a)
  }

  lemma FrontMembers(x: seq<Row>, y: seq<Row>, last: Row)
    requires SameMembers(x + [last], y + [last]) && last !in x && last !in y
    ensures SameMembers(x, y)
  {
    var a, b := x + [last], y + [last];
    forall i | 0 <= i < |x| ensures x[i] in y {
      assert a[i] == x[i] && x[i] in x && a[i] in b;
    }
    forall i | 0 <= i < |y| ensures y[i] in x {
      assert b[i] == y[i] && y[i] in y && b[i] in a;
    }
  }

  /** Sublists of rows without repeats are the same when they have the same members. */
  lemma {:induction false} SubEqual(a: seq<Row>, b: seq<Row>, s: seq<Row>)
    requires DistinctIDs(s) && Sub(a, s) && Sub(b, s) && SameMembers(a, b)
    ensures a == b
    decreases |s|, 1
  {
    if s == [] {
      assert a == [] && b == [];
    } else {
      hide Sub, SameMembers, DistinctIDs;
      var front, last := s[..|s| - 1], s[|s| - 1];
      SubLast(a, s);
      SubLast(b, s);
      MembersAgree(a, b, last);
      DistinctFront(s);
      if last in a { SubEqualLast(a, b, s); } else { SubEqual(a, b, front); }
    }
  }

  lemma {:induction false} SubEqualLast(a: seq<Row>, b: seq<Row>, s: seq<Row>)
    requires DistinctIDs(s) && s != [] && a != [] && b != [] && SameMembers(a, b)
    requires a[|a| - 1] == s[|s| - 1] == b[|b| - 1]
    requires Sub(a[..|a| - 1], s[..|s| - 1]) && Sub(b[..|b| - 1], s[..|s| - 1])
    ensures a == b
    decreases |s|, 0
  {
    hide Sub, SameMembers, DistinctIDs;
    var x, y, front, last := a[..|a| - 1], b[..|b| - 1], s[..|s| - 1], s[|s| - 1];
    assert a == x + [last] && b == y + [last];
    NotInFront(x, s);
    NotInFront(y, s);
    FrontMembers(x, y, last);
    DistinctFront(s);
    SubEqual(x, y, front);
  }

  lemma DistinctFront(s: seq<Row>)
    requires DistinctIDs(s) && s != []
    ensures DistinctIDs(s[..|s| - 1])
  {
  }

  lemma MembersAgree(a: seq<Row>, b: seq<Row>, r: Row)
    requires SameMembers(a, b)
    ensures r in a <==> r in b
  {
  }

  lemma NotInFront(x: seq<Row>, s: seq<Row>)
    requires DistinctIDs(s) && s != [] && Sub(x, s[..|s| - 1])
    ensures s[|s| - 1] !in x
  {
    if s[|s| - 1] in x { SubMembers(x, s[..|s| - 1], s[|s| - 1]); }
  }

  lemma SubLast(a: seq<Row>, s: seq<Row>)
    requires DistinctIDs(s) && s != [] && Sub(a, s)
    ensures var front, last := s[..|s| - 1], s[|s| - 1];
            if last in a then a != [] && a[|a| - 1] == last && Sub(a[..|a| - 1], front) else Sub(a, front)
  {
    if a != [] && a[|a| - 1] != s[|s| - 1] && s[|s| - 1] in a {
      SubMembers(a, s[..|s| - 1], s[|s| - 1]);
    }
  }

  lemma SubWindow(from: nat, kept: Option<nat>, rows: seq<Row>)
    ensures Sub(Window(from, kept, rows), rows)
  {
    hide Sub;
    var at := if from <= |rows| then from else |rows|;
    SubSlice(rows, at, End(at, kept, |rows|));
    assert Window(from, kept, rows) == rows[at..End(at, kept, |rows|)];
  }
}
