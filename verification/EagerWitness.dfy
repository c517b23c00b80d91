/** Two scans and their files: the smallest inputs on which the runs differ. */
module EagerWitness {
  import opened Base
  import opened Store
  import opened StoreLemmas
  import opened QueryTree
  import opened EagerSpec
  import opened EagerJoin
  import opened EagerLinks
  import opened EagerWindows
  import opened EagerExact
  import opened EagerStale
  import opened EagerPart
  import opened EagerPrefix
  import opened EagerRows
  import opened Entities
  import opened Terminals

  function ScanRow(id: ID): Row {
    Row(id, map[])
  }

  /** File 10 + n belongs to scan n. */
  function FileRow(n: ID): Row
    requires n < 10
  {
    Row(10 + n, map["import_scan_files" := Key(n)])
  }

  /** Scans 1 to n, each with one file. */
  function Tables(n: nat): Database
    requires n <= 2
  {
    map["import_scans" := if n == 0 then [] else if n == 1 then [ScanRow(1)] else [ScanRow(1), ScanRow(2)],
        "import_scan_files" := if n == 0 then [] else if n == 1 then [FileRow(1)] else [FileRow(1), FileRow(2)]]
  }

  function Plain(t: EntityType, with: seq<Option<Query>>): Query {
    Query(t, [], None, None, None, [], [], false, None, with)
  }

  function Files(): Query {
    Plain(TypeOf(ScanFile), [None])
  }

  function Scans(): Query {
    Plain(TypeOf(Scan), [None, None])
  }

  function ScansWith(files: Query): Query {
    Plain(TypeOf(Scan), [Some(files), None])
  }

  function FilesWith(scans: Query): Query {
    Plain(TypeOf(ScanFile), [Some(scans)])
  }

  // ---------- what these builders fetch ----------

  lemma {:induction false} FilterKeepsAll(ps: seq<Predicate>, rows: seq<Row>)
    requires forall r | r in rows :: HoldAll(ps, r)
    ensures Filter(ps, rows) == rows
  {
    if rows != [] {
      var n := |rows| - 1;
      FilterKeepsAll(ps, rows[..n]);
      assert rows[n] in rows;
      assert rows == rows[..n] + [rows[n]];
    }
  }

  lemma {:induction false} SortNone(rows: seq<Row>)
    ensures Sort([], rows) == rows
  {
    if rows != [] {
      var n := |rows| - 1;
      SortNone(rows[..n]);
      assert rows == rows[..n] + [rows[n]];
    }
  }

  lemma StoresTable(db: Database, q: Query)
    requires q.order == [] && forall r | r in Table(db, q.entity.table) :: HoldAll(q.predicates, r)
    ensures Stored(db, q) == Table(db, q.entity.table)
  {
    FilterKeepsAll(q.predicates, Table(db, q.entity.table));
    SortNone(Table(db, q.entity.table));
  }

  /** Without predicates, order or window a builder fetches its table. */
  lemma PlainRows(db: Database, t: EntityType, with: seq<Option<Query>>)
    requires PrimaryKeys(db)
    ensures NodeRows(db, Plain(t, with)) == Table(db, t.table)
  {
    NestedRows(db, Plain(t, with));
    StoresTable(db, Plain(t, with));
  }

  /** The edge between the two entities, from either side. */
  lemma Shapes()
    ensures TypeOf(Scan).table == "import_scans" && |TypeOf(Scan).edges| == 2
    ensures TypeOf(ScanFile).table == "import_scan_files" && |TypeOf(ScanFile).edges| == 1
    ensures TypeOf(Scan).edges[0] == Edge(OneToMany, "import_scan_files", "import_scan_files")
    ensures TypeOf(ScanFile).edges[0] == Edge(ManyToOne, "import_scans", "import_scan_files")
  {
  }

  function FirstIDs(n: nat): seq<ID>
    requires n <= 2
  {
    if n == 0 then [] else if n == 1 then [1] else [1, 2]
  }

  lemma TablesKeyed(n: nat)
    requires n <= 2
    ensures PrimaryKeys(Tables(n))
    ensures RowIDs(Table(Tables(n), "import_scans")) == FirstIDs(n)
    ensures RowKeys(Table(Tables(n), "import_scan_files"), "import_scan_files") == FirstIDs(n)
  {
    var files := Table(Tables(n), "import_scan_files");
    if n >= 1 { assert files[..1] == [FileRow(1)] && [FileRow(1)][..0] == []; }
  }

  /** Which side of the edge is the root. */
  function Nested(fromScans: bool): Query {
    if fromScans then Files() else Scans()
  }

  function Root(fromScans: bool, nested: Query): Query {
    if fromScans then ScansWith(nested) else FilesWith(nested)
  }

  /** Asked for the ids of all scans, either loader stores its whole table. */
  lemma AsksAll(n: nat, fromScans: bool, nested: Query)
    requires n <= 2 && nested.predicates == [] && nested.order == [] && nested.entity == Nested(fromScans).entity
    ensures var e := Root(fromScans, nested).entity.edges[0];
            Stored(Tables(n), Ask(e, nested, FirstIDs(n))) == Table(Tables(n), nested.entity.table)
  {
    hide TypeOf;
    Shapes();
    var e := Root(fromScans, nested).entity.edges[0];
    forall r | r in Table(Tables(n), nested.entity.table) ensures HoldAll(Ask(e, nested, FirstIDs(n)).predicates, r) {
      KeyInHolds(e, FirstIDs(n), r);
    }
    StoresTable(Tables(n), Ask(e, nested, FirstIDs(n)));
  }

  /** The trees are well-formed, and a plain root asks for all scans. */
  lemma Setting(n: nat, fromScans: bool, nested: Query, q: Query)
    requires n <= 2 && q == Root(fromScans, nested)
    requires nested == Nested(fromScans).(limit := nested.limit, offset := nested.offset)
    ensures PrimaryKeys(Tables(n)) && WellFormed(q) && FieldsValid(q) && Loads(q, 0)
    ensures NodeRows(Tables(n), q) == Table(Tables(n), q.entity.table)
    ensures AskedIDs(q.entity.edges[0], NodeRows(Tables(n), q)) == FirstIDs(n)
  {
    hide TypeOf, NodeRows, Tables;
    Shapes();
    TablesKeyed(n);
    assert Typed(nested, if fromScans then ScanFile else Scan);
    assert Typed(q, if fromScans then Scan else ScanFile);
    TypedIsWellFormed(q, if fromScans then Scan else ScanFile);
    PlainRows(Tables(n), q.entity, q.with);
  }

  /** Two stored rows, the second of which belongs to scan 2. */
  lemma TwoKeys(fromScans: bool, nested: Query)
    requires nested == Nested(fromScans).(limit := nested.limit, offset := nested.offset)
    ensures var e := Root(fromScans, nested).entity.edges[0];
            var rows := Stored(Tables(2), Ask(e, nested, [1, 2]));
            |rows| == 2 && EdgeKey(e, rows[0]) == Some(1) && EdgeKey(e, rows[1]) == Some(2)
  {
    hide TypeOf, Stored;
    Shapes();
    AsksAll(2, fromScans, nested);
  }

  // ---------- windows ----------

  lemma Cut(fromScans: bool, nested: Query)
    requires nested == Nested(fromScans).(limit := nested.limit, offset := nested.offset)
    requires (nested.limit == Some(1) && nested.offset.None?) || (nested.limit.None? && nested.offset == Some(1))
    ensures !LoadsNaively(Tables(2), Root(fromScans, nested))
  {
    hide TypeOf, NodeRows, Tables, Stored, LoadsNaively, Root;
    var q := Root(fromScans, nested);
    Setting(2, fromScans, nested, q);
    RootIsPlain(fromScans, nested);
    var e := q.entity.edges[0];
    NestedWindowsExact(Tables(2), q);
    TwoKeys(fromScans, nested);
    var rows := Stored(Tables(2), Ask(e, nested, [1, 2]));
    assert rows[..2] == rows && !OneKey(e, rows);
    assert !EdgeUncut(Tables(2), e, nested, NodeRows(Tables(2), q));
    assert AskedIDs(e, []) == [];
  }

  lemma RootIsPlain(fromScans: bool, nested: Query)
    ensures var q := Root(fromScans, nested); q.path.None? && |q.with| > 0 && q.with[0] == Some(nested)
  {
  }

  /** A limit of one file serves the first scan alone; a limit of one scan, the first file alone. */
  lemma LimitLoses()
    ensures !LoadsNaively(Tables(2), ScansWith(Files().(limit := Some(1))))
    ensures !LoadsNaively(Tables(2), FilesWith(Scans().(limit := Some(1))))
  {
    Cut(true, Files().(limit := Some(1)));
    Cut(false, Scans().(limit := Some(1)));
  }

  /** An offset of one skips one row for all nodes together, instead of one for each. */
  lemma OffsetMoves()
    ensures !LoadsNaively(Tables(2), ScansWith(Files().(offset := Some(1))))
    ensures !LoadsNaively(Tables(2), FilesWith(Scans().(offset := Some(1))))
  {
    Cut(true, Files().(offset := Some(1)));
    Cut(false, Scans().(offset := Some(1)));
  }

  // ---------- repeated ids ----------

  /** One scan with two files. */
  function Shared(): Database {
    map["import_scans" := [ScanRow(1)],
        "import_scan_files" := [Row(11, map["import_scan_files" := Key(1)]),
                                Row(12, map["import_scan_files" := Key(1)])]]
  }

  /** The scans of these files, one after the other, as a traversal from the files reaches them. */
  function ScansOf(files: seq<Row>, scans: seq<Row>): seq<Row> {
    if files == [] then []
    else
      var n := |files| - 1;
      ScansOf(files[..n], scans) +
      match ForeignKey(files[n].cells, "import_scan_files")
      case None => []
      case Some(id) => Filter([IDIn([id])], scans)
  }

  function ScansOfFiles(db: Database): seq<Row> {
    ScansOf(Table(db, "import_scan_files"), Table(db, "import_scans"))
  }

  /** The scans of all files, told not to drop repeats, each with its files. */
  function Traversal(): Query {
    ScansWith(Files()).(path := Some(ScansOfFiles), unique := Some(false))
  }

  lemma TwoVisits()
    ensures ScansOfFiles(Shared()) == [ScanRow(1), ScanRow(1)]
  {
    var files, scans := Table(Shared(), "import_scan_files"), Table(Shared(), "import_scans");
    assert scans[..0] == [];
    FilterKeepsAll([IDIn([1])], scans);
    assert files[..1] == [files[0]] && [files[0]][..0] == [];
    assert ScansOf([files[0]], scans) == [ScanRow(1)];
    assert ScansOf(files, scans) == ScansOf(files[..1], scans) + [ScanRow(1)];
  }

  lemma TraversalRows()
    ensures NodeRows(Shared(), Traversal()) == [ScanRow(1), ScanRow(1)]
    ensures !IsLastRow(NodeRows(Shared(), Traversal()), 0)
    ensures NodeRows(Shared(), Traversal().(limit := None)) == [ScanRow(1), ScanRow(1)]
  {
    hide TypeOf, Shared, ScansOfFiles;
    TwoVisits();
    var rows := [ScanRow(1), ScanRow(1)];
    FilterKeepsAll([], rows);
    SortNone(rows);
    assert rows[1].id == rows[0].id;
  }

  lemma SharedFits()
    ensures PrimaryKeys(Shared())
    ensures WellFormed(Traversal()) && FieldsValid(Traversal()) && NestedWindowless(Traversal())
    ensures |Traversal().with| == 2
  {
    hide TypeOf;
    Shapes();
    assert Typed(Files(), ScanFile);
    assert Typed(Traversal(), Scan);
    TypedIsWellFormed(Traversal(), Scan);
  }

  lemma FirstLoses()
    ensures |Traversal().with| == 2 && LosesChildren(Shared(), Traversal(), NodeRows(Shared(), Traversal()), 0, 0)
  {
    hide TypeOf, NodeRows, Shared, Stored, JoinLink, Join;
    var db, q := Shared(), Traversal();
    Shapes();
    SharedFits();
    TraversalRows();
    var e := q.entity.edges[0];
    SharedFiles(e);
    JoinLinkIs(db, q, ScanRow(1), 0);
    assert q.with[0] == Some(Files()) && LinkKey(e, ScanRow(1)) == Some(1);
    assert JoinLink(db, q, ScanRow(1), 0) == Many(Join(db, Ask(e, Files(), [1])));
  }

  lemma SharedFiles(e: Edge)
    requires e == TypeOf(Scan).edges[0]
    ensures Join(Shared(), Ask(e, Files(), [1])) != []
  {
    hide TypeOf, NodeRows;
    Shapes();
    var a := Ask(e, Files(), [1]);
    forall r | r in Table(Shared(), "import_scan_files") ensures HoldAll(a.predicates, r) { KeyInHolds(e, [1], r); }
    SharedKeyed();
    StoresTable(Shared(), a);
    NestedRows(Shared(), a);
    assert |Join(Shared(), a)| == |NodeRows(Shared(), a)|;
  }

  lemma SharedKeyed()
    ensures PrimaryKeys(Shared())
  {
  }

  /** The first of the two nodes of the scan loses its files. */
  lemma RepeatLoses()
    ensures !LoadsNaively(Shared(), Traversal())
  {
    hide TypeOf, NodeRows, Shared, LoadsNaively, LosesChildren;
    SharedFits();
    TraversalRows();
    RepeatedIDsExact(Shared(), Traversal());
    FirstLoses();
    assert !NoneLost(Shared(), Traversal(), NodeRows(Shared(), Traversal()));
  }

  /** `First` gives the scan the files that the unlimited run gives to its second node. */
  lemma FirstTakesChildren()
    ensures var all := All(Shared(), Traversal().(limit := None)).result;
            all.Ok? && all.value != [] && FirstAnswer(Shared(), Traversal()) != Found(all.value[0])
  {
    hide TypeOf, NodeRows, Shared, LosesChildren, All;
    SharedFits();
    TraversalRows();
    FirstWindowless(Shared(), Traversal());
    FirstLoses();
    assert Traversal().(limit := None) == Traversal();
  }

  // ---------- First under a nested limit ----------

  /** Two scans with a file each, the file of the second scan stored first. */
  function Crossed(): Database {
    map["import_scans" := [ScanRow(1), ScanRow(2)], "import_scan_files" := [FileRow(2), FileRow(1)]]
  }

  lemma CrossedStored(e: Edge, nested: Query)
    requires e == TypeOf(Scan).edges[0] && nested == Files().(limit := Some(1))
    ensures PrimaryKeys(Crossed()) && RowIDs(Table(Crossed(), "import_scans")) == [1, 2]
    ensures Stored(Crossed(), Ask(e, nested, [1, 2])) == [FileRow(2), FileRow(1)]
  {
    hide TypeOf;
    Shapes();
    forall r | r in Table(Crossed(), nested.entity.table) ensures HoldAll(Ask(e, nested, [1, 2]).predicates, r) {
      KeyInHolds(e, [1, 2], r);
    }
    StoresTable(Crossed(), Ask(e, nested, [1, 2]));
  }

  lemma CrossedCut(e: Edge)
    requires e.kind == OneToMany && e.column == "import_scan_files"
    ensures !SameCut(e, 0, Some(1), [1], [1], [FileRow(2), FileRow(1)])
  {
    var rows := [FileRow(2), FileRow(1)];
    assert EdgeKey(e, rows[0]) == Some(2) && EdgeKey(e, rows[1]) == Some(1);
    WindowIsSlice(0, Some(1), rows);
    assert rows[0..1] == [rows[0]];
    SeenMembers(e, [1], rows, rows[1]);
    SeenMembers(e, [1], [rows[0]], rows[0]);
    if Seen(e, [1], [rows[0]]) != [] {
      SeenMembers(e, [1], [rows[0]], Seen(e, [1], [rows[0]])[0]);
    }
    WindowHead(0, Some(1), Seen(e, [1], rows));
  }

  /** With a limit of one file the first scan gets none; `First` gives it its own. */
  lemma FirstEscapesLimit()
    ensures var q := ScansWith(Files().(limit := Some(1)));
            var all := All(Crossed(), q).result;
            all.Ok? && all.value != [] && FirstAnswer(Crossed(), q) != Found(all.value[0])
  {
    hide TypeOf, NodeRows, Stored, All, Crossed, SameCut;
    var nested := Files().(limit := Some(1));
    var q := ScansWith(nested);
    Shapes();
    var e := q.entity.edges[0];
    assert Typed(nested, ScanFile);
    assert Typed(q, Scan);
    TypedIsWellFormed(q, Scan);
    CrossedStored(e, nested);
    PlainRows(Crossed(), q.entity, q.with);
    var rows := NodeRows(Crossed(), q);
    FirstExact(Crossed(), q);
    assert q.(limit := None) == q;
    ResultIDs(Crossed(), q);
    SameLength(All(Crossed(), q).result.value, rows);
    assert |rows| == |RowIDs(rows)| == 2;
    CrossedPrefix(q, e, nested, rows);
  }

  lemma CrossedPrefix(q: Query, e: Edge, nested: Query, rows: seq<Row>)
    requires nested == Files().(limit := Some(1)) && q == ScansWith(nested)
    requires |TypeOf(Scan).edges| == 2 && e == TypeOf(Scan).edges[0]
    requires rows == NodeRows(Crossed(), q) && |rows| == 2 && RowIDs(rows) == [1, 2]
    ensures !PrefixAlike(Crossed(), q, 1)
  {
    hide TypeOf, NodeRows, Stored, All, Crossed, SameCut, PartAlike;
    Shapes();
    CrossedStored(e, nested);
    CrossedCut(e);
    assert RowIDs(rows[..1]) == [1];
    assert RowIDs(rows[1..]) == [2];
    assert [1][..0] == [];
    assert Except([1], [2]) == [1];
    assert AlikeIDs(e, rows, 1) == [1] && AskedIDs(e, rows[..1]) == [1] && AskedIDs(e, rows) == [1, 2];
    assert !PrefixEdge(Crossed(), e, nested, rows, 1);
    assert Loads(q, 0);
  }

  // ---------- later runs ----------

  /** One more run adds what its root rows ask for. */
  lemma AsksMore(h: seq<Step>, n: nat, fromScans: bool, q: Query)
    requires 0 < n <= 2 && q == Root(fromScans, Nested(fromScans))
    ensures |q.entity.edges| > 0
    ensures var e := q.entity.edges[0];
            Asked(h + [Step(Tables(n), q.predicates)], q, e) == Asked(h, q, e) + [Asking(Tables(n), FirstIDs(n))]
  {
    hide TypeOf, NodeRows, Tables, Root;
    Setting(n, fromScans, Nested(fromScans), q);
    var longer := h + [Step(Tables(n), q.predicates)];
    assert longer[..|h|] == h && longer[|h|] == Step(Tables(n), q.predicates);
    assert q.(predicates := q.predicates) == q;
  }

  lemma CommonOfTwo(asks: seq<Asking>)
    requires |asks| == 2 && asks[0].ids == [1] && asks[1].ids == [1, 2]
    ensures Common(asks) == [1]
  {
    assert asks[..1][0] == asks[0];
    assert [1][..0] == [];
    assert Both([1], [1, 2]) == [1];
  }

  /** What runs on the first database, and then perhaps on the second, asked for. */
  lemma AskedBefore(fromScans: bool, twice: bool, q: Query)
    requires q == Root(fromScans, Nested(fromScans))
    ensures |q.entity.edges| > 0
    ensures var dbs := if twice then [Tables(1), Tables(2)] else [Tables(1)];
            var asks := Asked(Runs(dbs, q), q, q.entity.edges[0]);
            asks != [] && Common(asks) == [1]
  {
    hide TypeOf, NodeRows, Tables, Root, Nested;
    AsksMore([], 1, fromScans, q);
    var e, one, two := q.entity.edges[0], Step(Tables(1), q.predicates), Step(Tables(2), q.predicates);
    assert [] + [one] == [one] && Asked([], q, e) == [];
    assert Asked([one], q, e) == [Asking(Tables(1), [1])];
    if twice {
      AsksMore([one], 2, fromScans, q);
      assert [one] + [two] == [one, two] == Runs([Tables(1), Tables(2)], q);
      CommonOfTwo(Asked([one, two], q, e));
    } else {
      assert Runs([Tables(1)], q) == [one];
    }
  }

  lemma Missed(fromScans: bool, twice: bool)
    ensures var q, dbs := Root(fromScans, Nested(fromScans)), if twice then [Tables(1), Tables(2)] else [Tables(1)];
            !AsFresh(dbs, Tables(2), q)
  {
    hide All, TypeOf, NodeRows, Tables, Stored, Root, AsFresh, Runs, Asked, Common;
    var nested := Nested(fromScans);
    var q := Root(fromScans, nested);
    var dbs := if twice then [Tables(1), Tables(2)] else [Tables(1)];
    RootIsPlain(fromScans, nested);
    Setting(2, fromScans, nested, q);
    AskedBefore(fromScans, twice, q);
    var e := q.entity.edges[0];
    RerunExact(dbs, Tables(2), q);
    TwoKeys(fromScans, nested);
    assert !Reached(e, 0, None, [1], Stored(Tables(2), Ask(e, nested, [1, 2])));
    assert !EdgeCurrent(Asked(Runs(dbs, q), q, e), Tables(2), e, nested, NodeRows(Tables(2), q));
    assert AskedIDs(e, []) == [];
  }

  /** A scan that appears between two runs has a file the second run does not load; and a new file, a scan. */
  lemma SecondRunMisses()
    ensures var q := ScansWith(Files()); All(Tables(2), All(Tables(1), q).after).result != All(Tables(2), q).result
    ensures var q := FilesWith(Scans()); All(Tables(2), All(Tables(1), q).after).result != All(Tables(2), q).result
  {
    hide All;
    Missed(true, false);
    Missed(false, false);
    RanOnce(ScansWith(Files()));
    RanOnce(FilesWith(Scans()));
  }

  lemma RanOnce(q: Query)
    ensures AfterAll([Tables(1)], q) == All(Tables(1), q).after
  {
    hide All;
    assert [Tables(1)][..0] == [];
    assert AfterAll([], q) == q;
  }

  /** No later run gets it back: the second asks for both, and the third still loads one. */
  lemma ThirdRunMisses()
    ensures !AsFresh([Tables(1), Tables(2)], Tables(2), ScansWith(Files()))
    ensures !AsFresh([Tables(1), Tables(2)], Tables(2), FilesWith(Scans()))
  {
    hide AsFresh;
    Missed(true, true);
    Missed(false, true);
  }

  // ---------- two compilers ----------

  /** `Limit(0)` is no limit to `All` and no rows to `IDs`. */
  lemma ZeroLimitDiffers()
    ensures var q := Scans().(limit := Some(0));
            All(Tables(1), q).result.Ok? && IDs(Tables(1), q) != Ok(IDsOf(All(Tables(1), q).result.value))
  {
    var db, q := Tables(1), Scans().(limit := Some(0));
    TypedIsWellFormed(q, Scan);
    AllIsEager(db, q);
    StoresTable(db, q);
    NestedRows(db, q);
    assert q.entity.columns[0] == ID_COLUMN;
    IDsExact(db, q);
    FilterKeepsAll([], Table(db, "import_scans"));
    DistinctIDsSurvive(NodeColumns(q), Table(db, "import_scans"));
    assert Candidates(db, q) == Stored(db, q);
  }
}
