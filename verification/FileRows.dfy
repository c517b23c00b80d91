/**
 When a stored row of ImportScanFile stands for an entity, column by column, and
 that writing and reading rows respect it.
 */
module FileRows {
  import opened Base
  import opened FileCodec

  /** A stored row, NULL in the columns that were not set. */
  type StoredRow = Column -> Cell

  predicate TimeCell(cell: Cell, time: Time) {
    cell == Instant(time) || (cell.Null? && time == 0)
  }

  predicate TextCell(cell: Cell, text: string) {
    cell == Text(text) || (cell.Null? && text == "")
  }

  predicate NumberCell(cell: Cell, number: Int64) {
    cell == Number(number) || (cell.Null? && number == 0)
  }

  predicate YearCell(cell: Cell, year: Option<UInt16>) {
    cell == if year.Some? then Number(year.value) else Null
  }

  predicate KeyCell(cell: Cell, key: Option<UInt32>) {
    cell == if key.Some? then Number(key.value) else Null
  }

  predicate ListCell(json: Json, cell: Cell, list: seq<Candidate>) {
    cell == Text(json.encode(list)) || (cell.Null? && list == [])
  }

  /** What this column holds of the entity; NULL is the zero value. */
  predicate ColumnHolds(json: Json, f: File, c: Column, cell: Cell) {
    match c
    case ID => cell == Number(f.id)
    case CreateTime => TimeCell(cell, f.createTime)
    case UpdateTime => TimeCell(cell, f.updateTime)
    case SourcePath => TextCell(cell, f.sourcePath)
    case Size => NumberCell(cell, f.size)
    case ParsedTitle => TextCell(cell, f.parsedTitle)
    case ParsedYear => YearCell(cell, f.parsedYear)
    case ParsedQuality => TextCell(cell, f.parsedQuality)
    case ParsedReleaseGroup => TextCell(cell, f.parsedReleaseGroup)
    case Classification => TextCell(cell, f.classification)
    case Candidates => ListCell(json, cell, f.candidates)
    case TmdbID => NumberCell(cell, f.tmdbID)
    case ExistingMovieID => NumberCell(cell, f.existingMovieID)
    case Decision => TextCell(cell, f.decision)
    case DecisionTmdbID => NumberCell(cell, f.decisionTmdbID)
    case Outcome => TextCell(cell, f.outcome)
    case OutcomeMessage => TextCell(cell, f.outcomeMessage)
    case CreatedMovieID => NumberCell(cell, f.createdMovieID)
    case ScanKey => KeyCell(cell, f.scanKey)
    case Other(_) => true
  }

  ghost predicate StandsFor(json: Json, row: StoredRow, f: File) {
    forall c: Column :: ColumnHolds(json, f, c, row(c))
  }

  // ---------- reading ----------

  /** What the driver leaves in the buffers for these columns. */
  function Scanned(row: StoredRow, columns: seq<Column>): (values: seq<Buffer>)
    ensures Allocated(columns, values)
    ensures forall i | 0 <= i < |columns| :: values[i] == Scan(Blank(columns[i]), row(columns[i]))
  {
    seq(|columns|, i requires 0 <= i < |columns| => Scan(Blank(columns[i]), row(columns[i])))
  }

  /** One column reads back as the field it stands for. */
  lemma ColumnReads(json: Json, f: File, c: Column, cell: Cell)
    requires InversePair(json) && ColumnHolds(json, f, c, cell) && !c.Other?
    ensures var b := Scan(Blank(c), cell);
            Readable(json, c, b) && Get(f, c) == if Carries(c, b) then Read(json, c, b) else Get(ZeroOf(), c)
  {
  }

  /**
   Reading a row that stands for an entity gives that entity, through any list that
   names every column, in any order and with repeats.
   */
  lemma ReadsExactly(json: Json, row: StoredRow, f: File, columns: seq<Column>)
    requires InversePair(json) && StandsFor(json, row, f)
    requires forall c: Column | !c.Other? :: c in columns
    ensures var (g, err) := Decode(json, ZeroOf(), columns, Scanned(row, columns));
            err.None? && g.(selected := map[]) == f.(selected := map[])
  {
    hide Decode, ColumnHolds, Read, Get, ZeroOf;
    var values := Scanned(row, columns);
    forall i | 0 <= i < |columns| ensures Readable(json, columns[i], values[i]) {
      if !columns[i].Other? { ColumnReads(json, f, columns[i], row(columns[i])); }
    }
    NoTypeMismatch(json, ZeroOf(), columns, values);
    var g := Decode(json, ZeroOf(), columns, values).0;
    forall c: Column | !c.Other? ensures Get(g, c) == Get(f, c) {
      LastBufferWins(json, ZeroOf(), columns, values, c);
      ColumnReads(json, f, c, row(c));
      var i :| 0 <= i < |columns| && columns[i] == c;
      assert values[i] == Scan(Blank(c), row(c));
    }
    SameFields(g, f);
  }

  // ---------- writing ----------

  /** Every field of the entity is what the mutation sets, or else the zero value. */
  predicate Given(m: Mutation, f: File) {
    && f.createTime == GetOr(m.createTime, 0)
    && f.updateTime == GetOr(m.updateTime, 0)
    && f.sourcePath == GetOr(m.sourcePath, "")
    && f.size == GetOr(m.size, 0)
    && f.parsedTitle == GetOr(m.parsedTitle, "")
    && f.parsedYear == m.parsedYear
    && f.parsedQuality == GetOr(m.parsedQuality, "")
    && f.parsedReleaseGroup == GetOr(m.parsedReleaseGroup, "")
    && f.classification == GetOr(m.classification, "")
    && f.candidates == GetOr(m.candidates, [])
    && f.tmdbID == GetOr(m.tmdbID, 0)
    && f.existingMovieID == GetOr(m.existingMovieID, 0)
    && f.decision == GetOr(m.decision, "")
    && f.decisionTmdbID == GetOr(m.decisionTmdbID, 0)
    && f.outcome == GetOr(m.outcome, "")
    && f.outcomeMessage == GetOr(m.outcomeMessage, "")
    && f.createdMovieID == GetOr(m.createdMovieID, 0)
    && f.scanKey == m.scan
  }

  /** The row that the store makes of a spec under this id. */
  function RowOf(spec: CreateSpec, id: UInt32): StoredRow {
    (c: Column) => StoredCell(spec, id, c)
  }

  lemma ColumnWrites(json: Json, m: Mutation, f: File, c: Column)
    requires Given(m, f) && c != ID
    ensures ColumnHolds(json, f, c, GetOr(CellOf(json, m, c), Null))
  {
  }

  /** The row created for a mutation stands for every entity that has the mutation's fields and the row's id. */
  lemma WritesExactly(json: Json, m: Mutation, id: UInt32, f: File)
    requires Given(m, f) && f.id == id
    ensures StandsFor(json, RowOf(SpecOf(json, m), id), f)
  {
    hide SpecOf, StoredCell, CellOf, Given, ColumnHolds;
    forall c: Column ensures ColumnHolds(json, f, c, StoredCell(SpecOf(json, m), id, c)) {
      StoredIsWritten(json, m, id, c);
      if c == ID { IDHolds(json, f); } else { ColumnWrites(json, m, f, c); }
    }
  }

  lemma IDHolds(json: Json, f: File)
    ensures ColumnHolds(json, f, ID, Number(f.id))
  {
  }

  /** The entity returned on creation has the mutation's fields. */
  lemma NodeGiven(m: Mutation)
    ensures Given(m, NodeOf(m)) && NodeOf(m).id == GetOr(m.id, 0)
  {
  }

  /** The caller set this column. */
  predicate Sets(m: Mutation, c: Column) {
    match c
    case ID => m.id.Some?
    case CreateTime => m.createTime.Some?
    case UpdateTime => m.updateTime.Some?
    case SourcePath => m.sourcePath.Some?
    case Size => m.size.Some?
    case ParsedTitle => m.parsedTitle.Some?
    case ParsedYear => m.parsedYear.Some?
    case ParsedQuality => m.parsedQuality.Some?
    case ParsedReleaseGroup => m.parsedReleaseGroup.Some?
    case Classification => m.classification.Some?
    case Candidates => m.candidates.Some?
    case TmdbID => m.tmdbID.Some?
    case ExistingMovieID => m.existingMovieID.Some?
    case Decision => m.decision.Some?
    case DecisionTmdbID => m.decisionTmdbID.Some?
    case Outcome => m.outcome.Some?
    case OutcomeMessage => m.outcomeMessage.Some?
    case CreatedMovieID => m.createdMovieID.Some?
    case ScanKey => m.scan.Some?
    case Other(_) => false
  }

  /** A column of the created row is NULL exactly when the caller did not set it; only the id is always there. */
  lemma NullExact(json: Json, m: Mutation, id: UInt32, c: Column)
    ensures StoredCell(SpecOf(json, m), id, c).Null? <==> c != ID && !Sets(m, c)
  {
    hide SpecOf, StoredCell;
    StoredIsWritten(json, m, id, c);
    CellSet(json, m, c);
  }

  lemma CellSet(json: Json, m: Mutation, c: Column)
    ensures CellOf(json, m, c).Some? <==> Sets(m, c)
    ensures CellOf(json, m, c).Some? ==> !CellOf(json, m, c).value.Null?
  {
  }

  /** What a mutation sets reads back as set, and what it does not set as zero. */
  lemma SetAndRead(json: Json, m: Mutation, id: UInt32, columns: seq<Column>)
    requires InversePair(json)
    requires forall c: Column | !c.Other? :: c in columns
    ensures var (g, err) := Decode(json, ZeroOf(), columns, Scanned(RowOf(SpecOf(json, m), id), columns));
            err.None? && g.id == id && Given(m, g)
  {
    hide Decode, SpecOf, StandsFor, NodeOf;
    var f := NodeOf(m).(id := id);
    NodeGiven(m);
    WritesExactly(json, m, id, f);
    ReadsExactly(json, RowOf(SpecOf(json, m), id), f, columns);
    var g := Decode(json, ZeroOf(), columns, Scanned(RowOf(SpecOf(json, m), id), columns)).0;
    SameGiven(m, f, g);
  }

  lemma SameGiven(m: Mutation, f: File, g: File)
    requires Given(m, f) && f.(selected := map[]) == g.(selected := map[])
    ensures Given(m, g) && g.id == f.id
  {
  }

  // ---------- what cannot be read ----------

  /** Narrowing a stored number keeps its low bits, and leaves one alone that fits. */
  lemma NarrowExact(x: Int64)
    ensures exists k: int :: x == Narrow32(x) + k * 0x1_0000_0000
    ensures exists k: int :: x == Narrow16(x) + k * 0x1_0000
  {
    assert x == Narrow32(x) + (x / 0x1_0000_0000) * 0x1_0000_0000;
    assert x == Narrow16(x) + (x / 0x1_0000) * 0x1_0000;
  }

  /** The buffer is of another kind than the column is read through, or holds candidates that do not decode. */
  function Fault(json: Json, c: Column, b: Buffer): Option<AssignError> {
    match c
    case Candidates =>
      if !b.Bytes? then Some(UnexpectedType(c))
      else if b.text != "" && json.decode(b.text).None? then Some(BadJson)
      else None
    case ID | Size | ParsedYear | TmdbID | ExistingMovieID | DecisionTmdbID | CreatedMovieID | ScanKey =>
      if b.NullInt64? then None else Some(UnexpectedType(c))
    case SourcePath | ParsedTitle | ParsedQuality | ParsedReleaseGroup |
         Classification | Decision | Outcome | OutcomeMessage =>
      if b.NullString? then None else Some(UnexpectedType(c))
    case CreateTime | UpdateTime => if b.NullTime? then None else Some(UnexpectedType(c))
    case Other(_) => None
  }

  lemma AssignFaults(json: Json, f: File, c: Column, b: Buffer)
    ensures AssignOne(json, f, c, b).1 == Fault(json, c, b)
    ensures Fault(json, c, b).Some? ==> AssignOne(json, f, c, b).0 == f
  {
  }

  /** Reading succeeds exactly when there are enough buffers and none has a fault; it stops at the first fault. */
  lemma {:induction false} ReadFails(json: Json, f: File, columns: seq<Column>, values: seq<Buffer>)
    ensures |values| < |columns| ==>
              Decode(json, f, columns, values) == (f, Some(CountMismatch(|values|, |columns|)))
    ensures Decode(json, f, columns, values).1.None? <==>
            |columns| <= |values| && forall i | 0 <= i < |columns| :: Fault(json, columns[i], values[i]).None?
    ensures forall i | 0 <= i < |columns| <= |values| && Fault(json, columns[i], values[i]).Some? &&
                       (forall j | 0 <= j < i :: Fault(json, columns[j], values[j]).None?) ::
              Decode(json, f, columns, values).1 == Fault(json, columns[i], values[i]) &&
              Decode(json, f, columns, values).0 == Decode(json, f, columns[..i], values).0
  {
    hide AssignOne, Fault;
    if columns != [] && |columns| <= |values| {
      var n := |columns| - 1;
      ReadFails(json, f, columns[..n], values);
      AssignFaults(json, AssignAll(json, f, columns[..n], values).0, columns[n], values[n]);
      forall i | 0 <= i < n ensures columns[..n][i] == columns[i] && columns[..n][..i] == columns[..i] { }
    }
  }
}
