/**
 The row codec of ImportScanFile: `createSpec` writes a mutation as a row,
 `scanValues` and `assignValues` read a row back into an entity.
 */
module FileCodec {
  import opened Base

  type UInt16 = x: int | 0 <= x < 0x1_0000
  type UInt32 = x: int | 0 <= x < 0x1_0000_0000
  type Int64 = x: int | -0x8000_0000_0000_0000 <= x < 0x8000_0000_0000_0000

  /** An instant; the zero value of the source's time type is 0. */
  type Time = int

  /** Conversions of a stored 64-bit integer, which keep the low bits. */
  function Narrow16(x: Int64): UInt16 { x % 0x1_0000 }

  function Narrow32(x: Int64): UInt32 { x % 0x1_0000_0000 }

  datatype Candidate = Candidate(tmdbID: UInt32, title: string, year: UInt16)

  /** JSON encoding of the candidates column. */
  datatype Json = Json(encode: seq<Candidate> -> string, decode: string -> Option<seq<Candidate>>)

  ghost predicate InversePair(json: Json) {
    forall cs :: json.decode(json.encode(cs)) == Some(cs) && json.encode(cs) != ""
  }

  // ---------- columns, cells, buffers ----------

  datatype Column =
    | ID
    | CreateTime
    | UpdateTime
    | SourcePath
    | Size
    | ParsedTitle
    | ParsedYear
    | ParsedQuality
    | ParsedReleaseGroup
    | Classification
    | Candidates
    | TmdbID
    | ExistingMovieID
    | Decision
    | DecisionTmdbID
    | Outcome
    | OutcomeMessage
    | CreatedMovieID
    | ScanKey
    | Other(name: string)

  datatype Cell = Null | Number(number: Int64) | Text(text: string) | Instant(time: Time)

  /** What `scanValues` allocates; the driver fills in the contents. */
  datatype Buffer =
    | NullInt64(valid: bool, number: Int64)
    | NullString(valid: bool, text: string)
    | NullTime(valid: bool, time: Time)
    | Bytes(text: string)
    | UnknownType(cell: Cell)

  function Blank(c: Column): Buffer {
    match c
    case Candidates => Bytes("")
    case ID | Size | ParsedYear | TmdbID | ExistingMovieID | DecisionTmdbID | CreatedMovieID | ScanKey =>
      NullInt64(false, 0)
    case SourcePath | ParsedTitle | ParsedQuality | ParsedReleaseGroup |
         Classification | Decision | Outcome | OutcomeMessage =>
      NullString(false, "")
    case CreateTime | UpdateTime => NullTime(false, 0)
    case Other(_) => UnknownType(Null)
  }

  predicate SameKind(a: Buffer, b: Buffer) {
    match a
    case NullInt64(_, _) => b.NullInt64?
    case NullString(_, _) => b.NullString?
    case NullTime(_, _) => b.NullTime?
    case Bytes(_) => b.Bytes?
    case UnknownType(_) => b.UnknownType?
  }

  /** The driver's Scan of one cell; a NULL only clears the valid flag. */
  function Scan(b: Buffer, cell: Cell): (out: Buffer)
    ensures SameKind(b, out)
  {
    match b
    case NullInt64(_, n) => if cell.Number? then NullInt64(true, cell.number) else NullInt64(false, n)
    case NullString(_, s) => if cell.Text? then NullString(true, cell.text) else NullString(false, s)
    case NullTime(_, t) => if cell.Instant? then NullTime(true, cell.time) else NullTime(false, t)
    case Bytes(_) => if cell.Text? then Bytes(cell.text) else Bytes("")
    case UnknownType(_) => UnknownType(cell)
  }

  // ---------- records ----------

  /** The fields of an entity, and what was selected beyond them. */
  datatype File = File(
    id: UInt32,
    createTime: Time,
    updateTime: Time,
    sourcePath: string,
    size: Int64,
    parsedTitle: string,
    parsedYear: Option<UInt16>,
    parsedQuality: string,
    parsedReleaseGroup: string,
    classification: string,
    candidates: seq<Candidate>,
    tmdbID: UInt32,
    existingMovieID: UInt32,
    decision: string,
    decisionTmdbID: UInt32,
    outcome: string,
    outcomeMessage: string,
    createdMovieID: UInt32,
    scanKey: Option<UInt32>,
    selected: map<string, Buffer>)

  function ZeroOf(): File {
    File(0, 0, 0, "", 0, "", None, "", "", "", [], 0, 0, "", 0, "", "", 0, None, map[])
  }

  datatype AssignError = CountMismatch(values: nat, columns: nat) | UnexpectedType(column: Column) | BadJson

  /** `assignValues` for one column. */
  function AssignOne(json: Json, f: File, c: Column, b: Buffer): (File, Option<AssignError>) {
    match c
    case ID =>
      if !b.NullInt64? then (f, Some(UnexpectedType(c))) else (f.(id := Narrow32(b.number)), None)
    case CreateTime =>
      if !b.NullTime? then (f, Some(UnexpectedType(c)))
      else if b.valid then (f.(createTime := b.time), None) else (f, None)
    case UpdateTime =>
      if !b.NullTime? then (f, Some(UnexpectedType(c)))
      else if b.valid then (f.(updateTime := b.time), None) else (f, None)
    case SourcePath =>
      if !b.NullString? then (f, Some(UnexpectedType(c)))
      else if b.valid then (f.(sourcePath := b.text), None) else (f, None)
    case Size =>
      if !b.NullInt64? then (f, Some(UnexpectedType(c)))
      else if b.valid then (f.(size := b.number), None) else (f, None)
    case ParsedTitle =>
      if !b.NullString? then (f, Some(UnexpectedType(c)))
      else if b.valid then (f.(parsedTitle := b.text), None) else (f, None)
    case ParsedYear =>
      if !b.NullInt64? then (f, Some(UnexpectedType(c)))
      else if b.valid then (f.(parsedYear := Some(Narrow16(b.number))), None) else (f, None)
    case ParsedQuality =>
      if !b.NullString? then (f, Some(UnexpectedType(c)))
      else if b.valid then (f.(parsedQuality := b.text), None) else (f, None)
    case ParsedReleaseGroup =>
      if !b.NullString? then (f, Some(UnexpectedType(c)))
      else if b.valid then (f.(parsedReleaseGroup := b.text), None) else (f, None)
    case Classification =>
      if !b.NullString? then (f, Some(UnexpectedType(c)))
      else if b.valid then (f.(classification := b.text), None) else (f, None)
    case Candidates =>
      if !b.Bytes? then (f, Some(UnexpectedType(c)))
      else if b.text == "" then (f, None)
      else (match json.decode(b.text)
            case None => (f, Some(BadJson))
            case Some(cs) => (f.(candidates := cs), None))
    case TmdbID =>
      if !b.NullInt64? then (f, Some(UnexpectedType(c)))
      else if b.valid then (f.(tmdbID := Narrow32(b.number)), None) else (f, None)
    case ExistingMovieID =>
      if !b.NullInt64? then (f, Some(UnexpectedType(c)))
      else if b.valid then (f.(existingMovieID := Narrow32(b.number)), None) else (f, None)
    case Decision =>
      if !b.NullString? then (f, Some(UnexpectedType(c)))
      else if b.valid then (f.(decision := b.text), None) else (f, None)
    case DecisionTmdbID =>
      if !b.NullInt64? then (f, Some(UnexpectedType(c)))
      else if b.valid then (f.(decisionTmdbID := Narrow32(b.number)), None) else (f, None)
    case Outcome =>
      if !b.NullString? then (f, Some(UnexpectedType(c)))
      else if b.valid then (f.(outcome := b.text), None) else (f, None)
    case OutcomeMessage =>
      if !b.NullString? then (f, Some(UnexpectedType(c)))
      else if b.valid then (f.(outcomeMessage := b.text), None) else (f, None)
    case CreatedMovieID =>
      if !b.NullInt64? then (f, Some(UnexpectedType(c)))
      else if b.valid then (f.(createdMovieID := Narrow32(b.number)), None) else (f, None)
    case ScanKey =>
      if !b.NullInt64? then (f, Some(UnexpectedType(c)))
      else if b.valid then (f.(scanKey := Some(Narrow32(b.number))), None) else (f, None)
    case Other(name) => (f.(selected := f.selected[name := b]), None)
  }

  /** The columns in order, up to the first error. */
  function AssignAll(json: Json, f: File, columns: seq<Column>, values: seq<Buffer>): (File, Option<AssignError>)
    requires |columns| <= |values|
  {
    if columns == [] then (f, None)
    else
      var n := |columns| - 1;
      var (prior, err) := AssignAll(json, f, columns[..n], values);
      if err.Some? then (prior, err) else AssignOne(json, prior, columns[n], values[n])
  }

  function Decode(json: Json, f: File, columns: seq<Column>, values: seq<Buffer>): (File, Option<AssignError>) {
    if |values| < |columns| then (f, Some(CountMismatch(|values|, |columns|)))
    else AssignAll(json, f, columns, values)
  }

  // ---------- the entity object ----------

  /** The cases of the switch in `assignValues`, in four parts. */
  datatype Part = Basic | Parsed | Matched | Decided

  function PartOf(c: Column): Part {
    match c
    case ID | CreateTime | UpdateTime | SourcePath | Size => Basic
    case ParsedTitle | ParsedYear | ParsedQuality | ParsedReleaseGroup | Classification => Parsed
    case Candidates | TmdbID | ExistingMovieID | Decision | DecisionTmdbID => Matched
    case _ => Decided
  }

  class ImportScanFile {
    var id: UInt32
    var createTime: Time
    var updateTime: Time
    var sourcePath: string
    var size: Int64
    var parsedTitle: string
    var parsedYear: Option<UInt16>
    var parsedQuality: string
    var parsedReleaseGroup: string
    var classification: string
    var candidates: seq<Candidate>
    var tmdbID: UInt32
    var existingMovieID: UInt32
    var decision: string
    var decisionTmdbID: UInt32
    var outcome: string
    var outcomeMessage: string
    var createdMovieID: UInt32
    var scanKey: Option<UInt32>
    var selected: map<string, Buffer>

    function Fields(): File
      reads this
    {
      File(id, createTime, updateTime, sourcePath, size, parsedTitle, parsedYear, parsedQuality, parsedReleaseGroup,
           classification, candidates, tmdbID, existingMovieID, decision, decisionTmdbID, outcome, outcomeMessage,
           createdMovieID, scanKey, selected)
    }

    constructor ()
      ensures Fields() == ZeroOf()
    {
      id := 0;
      createTime := 0;
      updateTime := 0;
      sourcePath := "";
      size := 0;
      parsedTitle := "";
      parsedYear := None;
      parsedQuality := "";
      parsedReleaseGroup := "";
      classification := "";
      candidates := [];
      tmdbID := 0;
      existingMovieID := 0;
      decision := "";
      decisionTmdbID := 0;
      outcome := "";
      outcomeMessage := "";
      createdMovieID := 0;
      scanKey := None;
      selected := map[];
    }

    method AssignBasic(json: Json, c: Column, b: Buffer) returns (err: Option<AssignError>)
      requires PartOf(c) == Basic
      modifies this
      ensures (Fields(), err) == AssignOne(json, old(Fields()), c, b)
    {
      err := None;
      match c
      case ID =>
        if !b.NullInt64? { return Some(UnexpectedType(c)); }
        id := Narrow32(b.number);
      case CreateTime =>
        if !b.NullTime? { return Some(UnexpectedType(c)); }
        if b.valid { createTime := b.time; }
      case UpdateTime =>
        if !b.NullTime? { return Some(UnexpectedType(c)); }
        if b.valid { updateTime := b.time; }
      case SourcePath =>
        if !b.NullString? { return Some(UnexpectedType(c)); }
        if b.valid { sourcePath := b.text; }
      case Size =>
        if !b.NullInt64? { return Some(UnexpectedType(c)); }
        if b.valid { size := b.number; }
    }

    method AssignParsed(json: Json, c: Column, b: Buffer) returns (err: Option<AssignError>)
      requires PartOf(c) == Parsed
      modifies this
      ensures (Fields(), err) == AssignOne(json, old(Fields()), c, b)
    {
      err := None;
      match c
      case ParsedTitle =>
        if !b.NullString? { return Some(UnexpectedType(c)); }
        if b.valid { parsedTitle := b.text; }
      case ParsedYear =>
        if !b.NullInt64? { return Some(UnexpectedType(c)); }
        if b.valid { parsedYear := Some(Narrow16(b.number)); }
      case ParsedQuality =>
        if !b.NullString? { return Some(UnexpectedType(c)); }
        if b.valid { parsedQuality := b.text; }
      case ParsedReleaseGroup =>
        if !b.NullString? { return Some(UnexpectedType(c)); }
        if b.valid { parsedReleaseGroup := b.text; }
      case Classification =>
        if !b.NullString? { return Some(UnexpectedType(c)); }
        if b.valid { classification := b.text; }
    }

    method AssignMatched(json: Json, c: Column, b: Buffer) returns (err: Option<AssignError>)
      requires PartOf(c) == Matched
      modifies this
      ensures (Fields(), err) == AssignOne(json, old(Fields()), c, b)
    {
      err := None;
      match c
      case Candidates =>
        if !b.Bytes? { return Some(UnexpectedType(c)); }
        if b.text != "" {
          match json.decode(b.text)
          case None => return Some(BadJson);
          case Some(cs) => candidates := cs;
        }
      case TmdbID =>
        if !b.NullInt64? { return Some(UnexpectedType(c)); }
        if b.valid { tmdbID := Narrow32(b.number); }
      case ExistingMovieID =>
        if !b.NullInt64? { return Some(UnexpectedType(c)); }
        if b.valid { existingMovieID := Narrow32(b.number); }
      case Decision =>
        if !b.NullString? { return Some(UnexpectedType(c)); }
        if b.valid { decision := b.text; }
      case DecisionTmdbID =>
        if !b.NullInt64? { return Some(UnexpectedType(c)); }
        if b.valid { decisionTmdbID := Narrow32(b.number); }
    }

    method AssignDecided(json: Json, c: Column, b: Buffer) returns (err: Option<AssignError>)
      requires PartOf(c) == Decided
      modifies this
      ensures (Fields(), err) == AssignOne(json, old(Fields()), c, b)
    {
      err := None;
      match c
      case Outcome =>
        if !b.NullString? { return Some(UnexpectedType(c)); }
        if b.valid { outcome := b.text; }
      case OutcomeMessage =>
        if !b.NullString? { return Some(UnexpectedType(c)); }
        if b.valid { outcomeMessage := b.text; }
      case CreatedMovieID =>
        if !b.NullInt64? { return Some(UnexpectedType(c)); }
        if b.valid { createdMovieID := Narrow32(b.number); }
      case ScanKey =>
        if !b.NullInt64? { return Some(UnexpectedType(c)); }
        if b.valid { scanKey := Some(Narrow32(b.number)); }
      case Other(name) =>
        selected := selected[name := b];
    }

    method AssignColumn(json: Json, c: Column, b: Buffer) returns (err: Option<AssignError>)
      modifies this
      ensures (Fields(), err) == AssignOne(json, old(Fields()), c, b)
    {
      hide AssignOne, Fields;
      match PartOf(c)
      case Basic => err := AssignBasic(json, c, b);
      case Parsed => err := AssignParsed(json, c, b);
      case Matched => err := AssignMatched(json, c, b);
      case Decided => err := AssignDecided(json, c, b);
    }

    method AssignValues(json: Json, columns: seq<Column>, values: seq<Buffer>) returns (err: Option<AssignError>)
      modifies this
      ensures (Fields(), err) == Decode(json, old(Fields()), columns, values)
    {
      if |values| < |columns| {
        return Some(CountMismatch(|values|, |columns|));
      }
      ghost var start := Fields();
      var i := 0;
      while i < |columns|
        invariant 0 <= i <= |columns|
        invariant AssignAll(json, start, columns[..i], values) == (Fields(), None)
      {
        assert columns[..i + 1][..i] == columns[..i];
        err := AssignColumn(json, columns[i], values[i]);
        if err.Some? {
          AssignStops(json, start, columns, values, i + 1);
          return;
        }
        i := i + 1;
      }
      assert columns[..i] == columns;
      return None;
    }
  }

  lemma {:induction false} AssignStops(json: Json, f: File, columns: seq<Column>, values: seq<Buffer>, i: nat)
    requires i <= |columns| <= |values| && AssignAll(json, f, columns[..i], values).1.Some?
    ensures AssignAll(json, f, columns, values) == AssignAll(json, f, columns[..i], values)
  {
    if i == |columns| {
      assert columns[..i] == columns;
    } else {
      var n := |columns| - 1;
      assert columns[..n][..i] == columns[..i];
      AssignStops(json, f, columns[..n], values, i);
    }
  }

  /** One buffer per column, of the kind its column is read through. */
  method ScanValues(columns: seq<Column>) returns (values: array<Buffer>)
    ensures fresh(values) && values.Length == |columns|
    ensures forall i | 0 <= i < |columns| :: values[i] == Blank(columns[i])
  {
    values := new Buffer[|columns|](_ => UnknownType(Null));
    var i := 0;
    while i < |columns|
      invariant 0 <= i <= |columns|
      invariant forall j | 0 <= j < i :: values[j] == Blank(columns[j])
    {
      match columns[i] {
        case Candidates => values[i] := Bytes("");
        case ID | Size | ParsedYear | TmdbID | ExistingMovieID | DecisionTmdbID | CreatedMovieID | ScanKey =>
          values[i] := NullInt64(false, 0);
        case SourcePath | ParsedTitle | ParsedQuality | ParsedReleaseGroup |
             Classification | Decision | Outcome | OutcomeMessage =>
          values[i] := NullString(false, "");
        case CreateTime | UpdateTime => values[i] := NullTime(false, 0);
        case Other(_) => values[i] := UnknownType(Null);
      }
      i := i + 1;
    }
  }

  // ---------- mutations ----------

  datatype Mutation = Mutation(
    id: Option<UInt32>,
    createTime: Option<Time>,
    updateTime: Option<Time>,
    sourcePath: Option<string>,
    size: Option<Int64>,
    parsedTitle: Option<string>,
    parsedYear: Option<UInt16>,
    parsedQuality: Option<string>,
    parsedReleaseGroup: Option<string>,
    classification: Option<string>,
    candidates: Option<seq<Candidate>>,
    tmdbID: Option<UInt32>,
    existingMovieID: Option<UInt32>,
    decision: Option<string>,
    decisionTmdbID: Option<UInt32>,
    outcome: Option<string>,
    outcomeMessage: Option<string>,
    createdMovieID: Option<UInt32>,
    scan: Option<UInt32>)

  datatype CreateSpec = CreateSpec(id: Option<UInt32>, fields: map<Column, Cell>, scan: seq<UInt32>)

  /** The cell a mutation writes to a column, if it sets the column at all. */
  function CellOf(json: Json, m: Mutation, c: Column): Option<Cell> {
    match c
    case ID => if m.id.Some? then Some(Number(m.id.value)) else None
    case CreateTime => if m.createTime.Some? then Some(Instant(m.createTime.value)) else None
    case UpdateTime => if m.updateTime.Some? then Some(Instant(m.updateTime.value)) else None
    case SourcePath => if m.sourcePath.Some? then Some(Text(m.sourcePath.value)) else None
    case Size => if m.size.Some? then Some(Number(m.size.value)) else None
    case ParsedTitle => if m.parsedTitle.Some? then Some(Text(m.parsedTitle.value)) else None
    case ParsedYear => if m.parsedYear.Some? then Some(Number(m.parsedYear.value)) else None
    case ParsedQuality => if m.parsedQuality.Some? then Some(Text(m.parsedQuality.value)) else None
    case ParsedReleaseGroup => if m.parsedReleaseGroup.Some? then Some(Text(m.parsedReleaseGroup.value)) else None
    case Classification => if m.classification.Some? then Some(Text(m.classification.value)) else None
    case Candidates => if m.candidates.Some? then Some(Text(json.encode(m.candidates.value))) else None
    case TmdbID => if m.tmdbID.Some? then Some(Number(m.tmdbID.value)) else None
    case ExistingMovieID => if m.existingMovieID.Some? then Some(Number(m.existingMovieID.value)) else None
    case Decision => if m.decision.Some? then Some(Text(m.decision.value)) else None
    case DecisionTmdbID => if m.decisionTmdbID.Some? then Some(Number(m.decisionTmdbID.value)) else None
    case Outcome => if m.outcome.Some? then Some(Text(m.outcome.value)) else None
    case OutcomeMessage => if m.outcomeMessage.Some? then Some(Text(m.outcomeMessage.value)) else None
    case CreatedMovieID => if m.createdMovieID.Some? then Some(Number(m.createdMovieID.value)) else None
    case ScanKey => if m.scan.Some? then Some(Number(m.scan.value)) else None
    case Other(_) => None
  }

  function GetOr<T>(o: Option<T>, default: T): T {
    if o.Some? then o.value else default
  }

  /** The entity `createSpec` returns next to the spec. */
  function NodeOf(m: Mutation): File {
    File(
      GetOr(m.id, 0),
      GetOr(m.createTime, 0),
      GetOr(m.updateTime, 0),
      GetOr(m.sourcePath, ""),
      GetOr(m.size, 0),
      GetOr(m.parsedTitle, ""),
      m.parsedYear,
      GetOr(m.parsedQuality, ""),
      GetOr(m.parsedReleaseGroup, ""),
      GetOr(m.classification, ""),
      GetOr(m.candidates, []),
      GetOr(m.tmdbID, 0),
      GetOr(m.existingMovieID, 0),
      GetOr(m.decision, ""),
      GetOr(m.decisionTmdbID, 0),
      GetOr(m.outcome, ""),
      GetOr(m.outcomeMessage, ""),
      GetOr(m.createdMovieID, 0),
      m.scan,
      map[])
  }

  function ScanIDs(m: Mutation): seq<UInt32> {
    if m.scan.Some? then [m.scan.value] else []
  }

  const FIELD_COUNT := 17

  /** The columns of `createSpec`, in the order in which it visits them. */
  function FieldAt(i: nat): Column
    requires i < FIELD_COUNT
  {
    if i == 0 then CreateTime
    else if i == 1 then UpdateTime
    else if i == 2 then SourcePath
    else if i == 3 then Size
    else if i == 4 then ParsedTitle
    else if i == 5 then ParsedYear
    else if i == 6 then ParsedQuality
    else if i == 7 then ParsedReleaseGroup
    else if i == 8 then Classification
    else if i == 9 then Candidates
    else if i == 10 then TmdbID
    else if i == 11 then ExistingMovieID
    else if i == 12 then Decision
    else if i == 13 then DecisionTmdbID
    else if i == 14 then Outcome
    else if i == 15 then OutcomeMessage
    else CreatedMovieID
  }

  /** The position of a column in that order; `FIELD_COUNT` for the columns that are not visited. */
  function Place(c: Column): (i: nat)
    ensures i < FIELD_COUNT ==> FieldAt(i) == c
  {
    match c
    case CreateTime => 0
    case UpdateTime => 1
    case SourcePath => 2
    case Size => 3
    case ParsedTitle => 4
    case ParsedYear => 5
    case ParsedQuality => 6
    case ParsedReleaseGroup => 7
    case Classification => 8
    case Candidates => 9
    case TmdbID => 10
    case ExistingMovieID => 11
    case Decision => 12
    case DecisionTmdbID => 13
    case Outcome => 14
    case OutcomeMessage => 15
    case CreatedMovieID => 16
    case _ => FIELD_COUNT
  }

  function Put(fields: map<Column, Cell>, c: Column, cell: Option<Cell>): map<Column, Cell> {
    if cell.Some? then fields[c := cell.value] else fields
  }

  /** The fields of the spec once the first n columns are visited. */
  function Visited(json: Json, m: Mutation, n: nat): map<Column, Cell>
    requires n <= FIELD_COUNT
  {
    if n == 0 then map[] else Put(Visited(json, m, n - 1), FieldAt(n - 1), CellOf(json, m, FieldAt(n - 1)))
  }

  lemma VisitNext(json: Json, m: Mutation, i: nat, c: Column)
    requires i < FIELD_COUNT && Place(c) == i
    ensures Visited(json, m, i + 1) == Put(Visited(json, m, i), c, CellOf(json, m, c))
  {
  }

  function SpecOf(json: Json, m: Mutation): CreateSpec {
    CreateSpec(m.id, Visited(json, m, FIELD_COUNT), ScanIDs(m))
  }

  ghost predicate Writes(json: Json, m: Mutation, spec: CreateSpec) {
    && spec.id == m.id && spec.scan == ScanIDs(m)
    && forall c :: c != ID && c != ScanKey ==>
         (c in spec.fields <==> CellOf(json, m, c).Some?) &&
         (c in spec.fields ==> spec.fields[c] == CellOf(json, m, c).value)
  }

  /** `createSpec`: fills a fresh entity and a spec field by field. */
  method BuildCreateSpec(json: Json, m: Mutation) returns (node: ImportScanFile, spec: CreateSpec)
    ensures fresh(node) && node.Fields() == NodeOf(m)
    ensures spec == SpecOf(json, m)
  {
    node := new ImportScanFile();
    spec := CreateSpec(None, map[], []);
    if m.id.Some? {
      node.id := m.id.value;
      spec := spec.(id := m.id);
    }
    var fields: map<Column, Cell> := map[];
    fields := FillTimes(json, m, node, fields);
    fields := FillPath(json, m, node, fields);
    fields := FillTitle(json, m, node, fields);
    fields := FillQuality(json, m, node, fields);
    fields := FillCandidates(json, m, node, fields);
    fields := FillMatches(json, m, node, fields);
    fields := FillDecision(json, m, node, fields);
    fields := FillOutcome(json, m, node, fields);
    fields := FillCreated(json, m, node, fields);
    spec := spec.(fields := fields);
    if |ScanIDs(m)| > 0 {
      spec := spec.(scan := ScanIDs(m));
      node.scanKey := Some(ScanIDs(m)[0]);
    }
  }

  method FillTimes(json: Json, m: Mutation, node: ImportScanFile, before: map<Column, Cell>)
    returns (fields: map<Column, Cell>)
    requires before == Visited(json, m, 0)
    modifies node
    ensures fields == Visited(json, m, 2)
    ensures node.Fields() == old(node.Fields()).(
              createTime := GetOr(m.createTime, old(node.createTime)),
              updateTime := GetOr(m.updateTime, old(node.updateTime)))
  {
    hide Visited, FieldAt;
    fields := before;
    if m.createTime.Some? {
      fields := fields[CreateTime := Instant(m.createTime.value)];
      node.createTime := m.createTime.value;
    }
    VisitNext(json, m, 0, CreateTime);
    if m.updateTime.Some? {
      fields := fields[UpdateTime := Instant(m.updateTime.value)];
      node.updateTime := m.updateTime.value;
    }
    VisitNext(json, m, 1, UpdateTime);
  }

  method FillPath(json: Json, m: Mutation, node: ImportScanFile, before: map<Column, Cell>)
    returns (fields: map<Column, Cell>)
    requires before == Visited(json, m, 2)
    modifies node
    ensures fields == Visited(json, m, 4)
    ensures node.Fields() == old(node.Fields()).(
              sourcePath := GetOr(m.sourcePath, old(node.sourcePath)),
              size := GetOr(m.size, old(node.size)))
  {
    hide Visited, FieldAt;
    fields := before;
    if m.sourcePath.Some? {
      fields := fields[SourcePath := Text(m.sourcePath.value)];
      node.sourcePath := m.sourcePath.value;
    }
    VisitNext(json, m, 2, SourcePath);
    if m.size.Some? {
      fields := fields[Size := Number(m.size.value)];
      node.size := m.size.value;
    }
    VisitNext(json, m, 3, Size);
  }

  method FillTitle(json: Json, m: Mutation, node: ImportScanFile, before: map<Column, Cell>)
    returns (fields: map<Column, Cell>)
    requires before == Visited(json, m, 4)
    modifies node
    ensures fields == Visited(json, m, 6)
    ensures node.Fields() == old(node.Fields()).(
              parsedTitle := GetOr(m.parsedTitle, old(node.parsedTitle)),
              parsedYear := if m.parsedYear.Some? then m.parsedYear else old(node.parsedYear))
  {
    hide Visited, FieldAt;
    fields := before;
    if m.parsedTitle.Some? {
      fields := fields[ParsedTitle := Text(m.parsedTitle.value)];
      node.parsedTitle := m.parsedTitle.value;
    }
    VisitNext(json, m, 4, ParsedTitle);
    if m.parsedYear.Some? {
      fields := fields[ParsedYear := Number(m.parsedYear.value)];
      node.parsedYear := Some(m.parsedYear.value);
    }
    VisitNext(json, m, 5, ParsedYear);
  }

  method FillQuality(json: Json, m: Mutation, node: ImportScanFile, before: map<Column, Cell>)
    returns (fields: map<Column, Cell>)
    requires before == Visited(json, m, 6)
    modifies node
    ensures fields == Visited(json, m, 8)
    ensures node.Fields() == old(node.Fields()).(
              parsedQuality := GetOr(m.parsedQuality, old(node.parsedQuality)),
              parsedReleaseGroup := GetOr(m.parsedReleaseGroup, old(node.parsedReleaseGroup)))
  {
    hide Visited, FieldAt;
    fields := before;
    if m.parsedQuality.Some? {
      fields := fields[ParsedQuality := Text(m.parsedQuality.value)];
      node.parsedQuality := m.parsedQuality.value;
    }
    VisitNext(json, m, 6, ParsedQuality);
    if m.parsedReleaseGroup.Some? {
      fields := fields[ParsedReleaseGroup := Text(m.parsedReleaseGroup.value)];
      node.parsedReleaseGroup := m.parsedReleaseGroup.value;
    }
    VisitNext(json, m, 7, ParsedReleaseGroup);
  }

  method FillCandidates(json: Json, m: Mutation, node: ImportScanFile, before: map<Column, Cell>)
    returns (fields: map<Column, Cell>)
    requires before == Visited(json, m, 8)
    modifies node
    ensures fields == Visited(json, m, 10)
    ensures node.Fields() == old(node.Fields()).(
              classification := GetOr(m.classification, old(node.classification)),
              candidates := GetOr(m.candidates, old(node.candidates)))
  {
    hide Visited, FieldAt;
    fields := before;
    if m.classification.Some? {
      fields := fields[Classification := Text(m.classification.value)];
      node.classification := m.classification.value;
    }
    VisitNext(json, m, 8, Classification);
    if m.candidates.Some? {
      fields := fields[Candidates := Text(json.encode(m.candidates.value))];
      node.candidates := m.candidates.value;
    }
    VisitNext(json, m, 9, Candidates);
  }

  method FillMatches(json: Json, m: Mutation, node: ImportScanFile, before: map<Column, Cell>)
    returns (fields: map<Column, Cell>)
    requires before == Visited(json, m, 10)
    modifies node
    ensures fields == Visited(json, m, 12)
    ensures node.Fields() == old(node.Fields()).(
              tmdbID := GetOr(m.tmdbID, old(node.tmdbID)),
              existingMovieID := GetOr(m.existingMovieID, old(node.existingMovieID)))
  {
    hide Visited, FieldAt;
    fields := before;
    if m.tmdbID.Some? {
      fields := fields[TmdbID := Number(m.tmdbID.value)];
      node.tmdbID := m.tmdbID.value;
    }
    VisitNext(json, m, 10, TmdbID);
    if m.existingMovieID.Some? {
      fields := fields[ExistingMovieID := Number(m.existingMovieID.value)];
      node.existingMovieID := m.existingMovieID.value;
    }
    VisitNext(json, m, 11, ExistingMovieID);
  }

  method FillDecision(json: Json, m: Mutation, node: ImportScanFile, before: map<Column, Cell>)
    returns (fields: map<Column, Cell>)
    requires before == Visited(json, m, 12)
    modifies node
    ensures fields == Visited(json, m, 14)
    ensures node.Fields() == old(node.Fields()).(
              decision := GetOr(m.decision, old(node.decision)),
              decisionTmdbID := GetOr(m.decisionTmdbID, old(node.decisionTmdbID)))
  {
    hide Visited, FieldAt;
    fields := before;
    if m.decision.Some? {
      fields := fields[Decision := Text(m.decision.value)];
      node.decision := m.decision.value;
    }
    VisitNext(json, m, 12, Decision);
    if m.decisionTmdbID.Some? {
      fields := fields[DecisionTmdbID := Number(m.decisionTmdbID.value)];
      node.decisionTmdbID := m.decisionTmdbID.value;
    }
    VisitNext(json, m, 13, DecisionTmdbID);
  }

  method FillOutcome(json: Json, m: Mutation, node: ImportScanFile, before: map<Column, Cell>)
    returns (fields: map<Column, Cell>)
    requires before == Visited(json, m, 14)
    modifies node
    ensures fields == Visited(json, m, 16)
    ensures node.Fields() == old(node.Fields()).(
              outcome := GetOr(m.outcome, old(node.outcome)),
              outcomeMessage := GetOr(m.outcomeMessage, old(node.outcomeMessage)))
  {
    hide Visited, FieldAt;
    fields := before;
    if m.outcome.Some? {
      fields := fields[Outcome := Text(m.outcome.value)];
      node.outcome := m.outcome.value;
    }
    VisitNext(json, m, 14, Outcome);
    if m.outcomeMessage.Some? {
      fields := fields[OutcomeMessage := Text(m.outcomeMessage.value)];
      node.outcomeMessage := m.outcomeMessage.value;
    }
    VisitNext(json, m, 15, OutcomeMessage);
  }

  method FillCreated(json: Json, m: Mutation, node: ImportScanFile, before: map<Column, Cell>)
    returns (fields: map<Column, Cell>)
    requires before == Visited(json, m, 16)
    modifies node
    ensures fields == Visited(json, m, 17)
    ensures node.Fields() == old(node.Fields()).(
              createdMovieID := GetOr(m.createdMovieID, old(node.createdMovieID)))
  {
    hide Visited, FieldAt;
    fields := before;
    if m.createdMovieID.Some? {
      fields := fields[CreatedMovieID := Number(m.createdMovieID.value)];
      node.createdMovieID := m.createdMovieID.value;
    }
    VisitNext(json, m, 16, CreatedMovieID);
  }

  // ---------- defaults and checks before a save ----------

  datatype CheckError = MissingField(column: Column) | RejectedField(column: Column) | MissingScan

  const CLASSIFICATIONS := {"confirmed", "ambiguous", "unmatched", "existing"}
  const DECISIONS := {"pending", "accept", "skip"}
  const OUTCOMES := {"pending", "created", "attached", "skipped", "failed"}

  /** `defaults`, at the instants the clock returns. */
  function Defaults(m: Mutation, created: Time, updated: Time): Mutation {
    m.(createTime := if m.createTime.Some? then m.createTime else Some(created),
       updateTime := if m.updateTime.Some? then m.updateTime else Some(updated),
       classification := if m.classification.Some? then m.classification else Some("unmatched"),
       decision := if m.decision.Some? then m.decision else Some("pending"),
       outcome := if m.outcome.Some? then m.outcome else Some("pending"))
  }

  /** `check`: the first failing requirement, in the order of the source. */
  function Check(m: Mutation): Option<CheckError> {
    if m.createTime.None? then Some(MissingField(CreateTime))
    else if m.updateTime.None? then Some(MissingField(UpdateTime))
    else if m.sourcePath.None? then Some(MissingField(SourcePath))
    else if m.sourcePath.value == "" then Some(RejectedField(SourcePath))
    else if m.size.None? then Some(MissingField(Size))
    else if m.classification.None? then Some(MissingField(Classification))
    else if m.classification.value !in CLASSIFICATIONS then Some(RejectedField(Classification))
    else if m.decision.None? then Some(MissingField(Decision))
    else if m.decision.value !in DECISIONS then Some(RejectedField(Decision))
    else if m.outcome.None? then Some(MissingField(Outcome))
    else if m.outcome.value !in OUTCOMES then Some(RejectedField(Outcome))
    else if m.scan.None? then Some(MissingScan)
    else None
  }

  // ---------- what decoding does to each field ----------

  datatype Value =
    | IntValue(value: int)
    | TextValue(text: string)
    | YearValue(year: Option<UInt16>)
    | KeyValue(key: Option<UInt32>)
    | ListValue(list: seq<Candidate>)
    | ExtraValue(buffer: Option<Buffer>)

  function Get(f: File, c: Column): Value {
    match c
    case ID => IntValue(f.id)
    case CreateTime => IntValue(f.createTime)
    case UpdateTime => IntValue(f.updateTime)
    case SourcePath => TextValue(f.sourcePath)
    case Size => IntValue(f.size)
    case ParsedTitle => TextValue(f.parsedTitle)
    case ParsedYear => YearValue(f.parsedYear)
    case ParsedQuality => TextValue(f.parsedQuality)
    case ParsedReleaseGroup => TextValue(f.parsedReleaseGroup)
    case Classification => TextValue(f.classification)
    case Candidates => ListValue(f.candidates)
    case TmdbID => IntValue(f.tmdbID)
    case ExistingMovieID => IntValue(f.existingMovieID)
    case Decision => TextValue(f.decision)
    case DecisionTmdbID => IntValue(f.decisionTmdbID)
    case Outcome => TextValue(f.outcome)
    case OutcomeMessage => TextValue(f.outcomeMessage)
    case CreatedMovieID => IntValue(f.createdMovieID)
    case ScanKey => KeyValue(f.scanKey)
    case Other(name) => ExtraValue(if name in f.selected then Some(f.selected[name]) else None)
  }

  /** Does this buffer overwrite the field, or is it a NULL that leaves it alone? */
  predicate Carries(c: Column, b: Buffer)
    requires SameKind(Blank(c), b)
  {
    match b
    case NullInt64(valid, _) => c == ID || valid
    case NullString(valid, _) => valid
    case NullTime(valid, _) => valid
    case Bytes(text) => text != ""
    case UnknownType(_) => true
  }

  predicate Readable(json: Json, c: Column, b: Buffer) {
    c == Candidates && b.Bytes? && b.text != "" ==> json.decode(b.text).Some?
  }

  /** The field value a buffer stands for. */
  function Read(json: Json, c: Column, b: Buffer): Value
    requires SameKind(Blank(c), b) && Readable(json, c, b) && Carries(c, b)
  {
    match c
    case ID => IntValue(Narrow32(b.number))
    case CreateTime => IntValue(b.time)
    case UpdateTime => IntValue(b.time)
    case SourcePath => TextValue(b.text)
    case Size => IntValue(b.number)
    case ParsedTitle => TextValue(b.text)
    case ParsedYear => YearValue(Some(Narrow16(b.number)))
    case ParsedQuality => TextValue(b.text)
    case ParsedReleaseGroup => TextValue(b.text)
    case Classification => TextValue(b.text)
    case Candidates => ListValue(json.decode(b.text).value)
    case TmdbID => IntValue(Narrow32(b.number))
    case ExistingMovieID => IntValue(Narrow32(b.number))
    case Decision => TextValue(b.text)
    case DecisionTmdbID => IntValue(Narrow32(b.number))
    case Outcome => TextValue(b.text)
    case OutcomeMessage => TextValue(b.text)
    case CreatedMovieID => IntValue(Narrow32(b.number))
    case ScanKey => KeyValue(Some(Narrow32(b.number)))
    case Other(_) => ExtraValue(Some(b))
  }

  predicate Allocated(columns: seq<Column>, values: seq<Buffer>) {
    |values| == |columns| && forall i | 0 <= i < |columns| :: SameKind(Blank(columns[i]), values[i])
  }

  lemma AssignOneExact(json: Json, f: File, c: Column, b: Buffer)
    requires SameKind(Blank(c), b)
    ensures var (g, err) := AssignOne(json, f, c, b);
            && (err.None? <==> Readable(json, c, b))
            && (err.Some? ==> err == Some(BadJson) && g == f)
            && (err.None? ==> forall d ::
                  Get(g, d) == if d == c && Carries(c, b) then Read(json, c, b) else Get(f, d))
  {
  }

  /** Reading buffers allocated for the same columns never reports a type mismatch. */
  lemma {:induction false} NoTypeMismatch(json: Json, f: File, columns: seq<Column>, values: seq<Buffer>)
    requires Allocated(columns, values)
    ensures var err := Decode(json, f, columns, values).1;
            && (err.None? <==> forall i | 0 <= i < |columns| :: Readable(json, columns[i], values[i]))
            && (err.Some? ==> err == Some(BadJson))
  {
    if columns != [] {
      var n := |columns| - 1;
      NoTypeMismatch(json, f, columns[..n], values[..n]);
      AssignPrefix(json, f, columns[..n], values[..n], values);
      AssignOneExact(json, AssignAll(json, f, columns[..n], values).0, columns[n], values[n]);
    }
  }

  lemma {:induction false} AssignPrefix(json: Json, f: File, columns: seq<Column>, a: seq<Buffer>, b: seq<Buffer>)
    requires |columns| <= |a| && |columns| <= |b|
    requires forall i | 0 <= i < |columns| :: a[i] == b[i]
    ensures AssignAll(json, f, columns, a) == AssignAll(json, f, columns, b)
  {
    if columns != [] { AssignPrefix(json, f, columns[..|columns| - 1], a, b); }
  }

  /** The last buffer for column c that is not a NULL. */
  function LastCarrier(columns: seq<Column>, values: seq<Buffer>, c: Column): (i: int)
    requires Allocated(columns, values)
    ensures -1 <= i < |columns| && (i >= 0 ==> columns[i] == c && Carries(c, values[i]))
    ensures forall j | i < j < |columns| && columns[j] == c :: !Carries(c, values[j])
  {
    if columns == [] then -1
    else
      var n := |columns| - 1;
      if columns[n] == c && Carries(c, values[n]) then n else LastCarrier(columns[..n], values[..n], c)
  }

  /**
   Whatever the order and repetitions of the columns: a field ends up with its
   last non-NULL buffer, and is left alone when there is none.
   */
  lemma {:induction false} LastBufferWins(json: Json, f: File, columns: seq<Column>, values: seq<Buffer>, c: Column)
    requires Allocated(columns, values) && Decode(json, f, columns, values).1.None?
    ensures var i := LastCarrier(columns, values, c);
            if i < 0 then Get(Decode(json, f, columns, values).0, c) == Get(f, c)
            else Readable(json, c, values[i]) &&
                 Get(Decode(json, f, columns, values).0, c) == Read(json, c, values[i])
  {
    hide AssignOne, Read, Blank;
    if columns != [] {
      var n := |columns| - 1;
      AssignPrefix(json, f, columns[..n], values[..n], values);
      AssignOneExact(json, AssignAll(json, f, columns[..n], values).0, columns[n], values[n]);
      LastBufferWins(json, f, columns[..n], values[..n], c);
    }
  }

  /** Whatever the buffers, and whether or not decoding fails: fields that the list does not name keep their values. */
  lemma {:induction false} UnnamedUntouched(json: Json, f: File, columns: seq<Column>, values: seq<Buffer>, c: Column)
    requires c !in columns
    ensures Get(Decode(json, f, columns, values).0, c) == Get(f, c)
  {
    if columns != [] && |columns| <= |values| {
      var n := |columns| - 1;
      UnnamedUntouched(json, f, columns[..n], values, c);
      AssignsOne(json, AssignAll(json, f, columns[..n], values).0, columns[n], values[n], c);
    }
  }

  lemma AssignsOne(json: Json, f: File, c: Column, b: Buffer, other: Column)
    requires other != c
    ensures Get(AssignOne(json, f, c, b).0, other) == Get(f, other)
  {
  }

  // ---------- the round trip ----------

  /** The cell of a stored row: the store assigns the id, and unset columns are NULL. */
  function StoredCell(spec: CreateSpec, id: UInt32, c: Column): Cell {
    if c == ID then Number(id)
    else if c == ScanKey then if |spec.scan| > 0 then Number(spec.scan[0]) else Null
    else if c in spec.fields then spec.fields[c] else Null
  }

  function Buffers(spec: CreateSpec, id: UInt32, columns: seq<Column>): (values: seq<Buffer>)
    ensures Allocated(columns, values)
    ensures forall i | 0 <= i < |columns| :: values[i] == Scan(Blank(columns[i]), StoredCell(spec, id, columns[i]))
  {
    seq(|columns|, i requires 0 <= i < |columns| => Scan(Blank(columns[i]), StoredCell(spec, id, columns[i])))
  }

  lemma {:induction false} VisitedExact(json: Json, m: Mutation, n: nat, c: Column)
    requires n <= FIELD_COUNT
    ensures var fields := Visited(json, m, n);
            && (c in fields <==> Place(c) < n && CellOf(json, m, c).Some?)
            && (c in fields ==> fields[c] == CellOf(json, m, c).value)
  {
    hide CellOf;
    if n > 0 {
      VisitedExact(json, m, n - 1, c);
      FieldPlaces(n - 1);
    }
  }

  lemma FieldPlaces(i: nat)
    requires i < FIELD_COUNT
    ensures Place(FieldAt(i)) == i
  {
  }

  /** A spec sets exactly the columns its mutation sets, to the cells of the mutation. */
  lemma SpecWrites(json: Json, m: Mutation)
    ensures Writes(json, m, SpecOf(json, m))
  {
    forall c: Column | c != ID && c != ScanKey
      ensures c in SpecOf(json, m).fields <==> CellOf(json, m, c).Some?
      ensures c in SpecOf(json, m).fields ==> SpecOf(json, m).fields[c] == CellOf(json, m, c).value
    {
      VisitedExact(json, m, FIELD_COUNT, c);
    }
  }

  lemma StoredIsWritten(json: Json, m: Mutation, id: UInt32, c: Column)
    ensures StoredCell(SpecOf(json, m), id, c) ==
            if c == ID then Number(id) else GetOr(CellOf(json, m, c), Null)
  {
    hide SpecOf;
    SpecWrites(json, m);
  }

  /** A cell the mutation wrote reads back as the field of the entity returned on creation. */
  lemma WrittenCell(json: Json, m: Mutation, c: Column)
    requires InversePair(json) && !c.Other? && CellOf(json, m, c).Some?
    ensures var b := Scan(Blank(c), CellOf(json, m, c).value);
            Readable(json, c, b) && Carries(c, b) && Get(NodeOf(m), c) == Read(json, c, b)
  {
  }

  /** A column the mutation left out reads back as NULL, and its field holds the zero value. */
  lemma UnwrittenCell(json: Json, m: Mutation, c: Column)
    requires !c.Other? && c != ID && CellOf(json, m, c).None?
    ensures var b := Scan(Blank(c), Null);
            Readable(json, c, b) && !Carries(c, b) && Get(NodeOf(m), c) == Get(ZeroOf(), c)
  {
  }

  /** What one column reads back is the field of the entity that was returned on creation. */
  lemma CellRoundTrip(json: Json, m: Mutation, id: UInt32, c: Column)
    requires InversePair(json) && !c.Other?
    ensures var b := Scan(Blank(c), StoredCell(SpecOf(json, m), id, c));
            Readable(json, c, b) &&
            Get(NodeOf(m).(id := id), c) == if Carries(c, b) then Read(json, c, b) else Get(ZeroOf(), c)
  {
    hide SpecOf, StoredCell, CellOf, NodeOf, ZeroOf;
    StoredIsWritten(json, m, id, c);
    if c != ID {
      if CellOf(json, m, c).Some? { WrittenCell(json, m, c); } else { UnwrittenCell(json, m, c); }
      assert Get(NodeOf(m).(id := id), c) == Get(NodeOf(m), c);
    }
  }

  ghost predicate SameGets(f: File, g: File) {
    forall c: Column | !c.Other? :: Get(f, c) == Get(g, c)
  }

  lemma SameGet(f: File, g: File, c: Column)
    requires SameGets(f, g) && !c.Other?
    ensures Get(f, c) == Get(g, c)
  {
  }

  lemma SameFields(f: File, g: File)
    requires SameGets(f, g)
    ensures f.(selected := map[]) == g.(selected := map[])
  {
    hide SameGets;
    SameGet(f, g, ID);
    SameGet(f, g, CreateTime);
    SameGet(f, g, UpdateTime);
    SameGet(f, g, SourcePath);
    SameGet(f, g, Size);
    SameGet(f, g, ParsedTitle);
    SameGet(f, g, ParsedYear);
    SameGet(f, g, ParsedQuality);
    SameGet(f, g, ParsedReleaseGroup);
    SameGet(f, g, Classification);
    SameGet(f, g, Candidates);
    SameGet(f, g, TmdbID);
    SameGet(f, g, ExistingMovieID);
    SameGet(f, g, Decision);
    SameGet(f, g, DecisionTmdbID);
    SameGet(f, g, Outcome);
    SameGet(f, g, OutcomeMessage);
    SameGet(f, g, CreatedMovieID);
    SameGet(f, g, ScanKey);
  }

  /**
   Reading back a created row, through any column list that names every column,
   gives the fields of the entity that creation returned.
   */
  lemma CreateReadRoundTrip(json: Json, m: Mutation, id: UInt32, columns: seq<Column>)
    requires InversePair(json)
    requires forall c: Column | !c.Other? :: c in columns
    ensures var (f, err) := Decode(json, ZeroOf(), columns, Buffers(SpecOf(json, m), id, columns));
            err.None? && f.(selected := map[]) == NodeOf(m).(id := id)
  {
    var values := Buffers(SpecOf(json, m), id, columns);
    forall i | 0 <= i < |columns| ensures Readable(json, columns[i], values[i]) {
      if !columns[i].Other? { CellRoundTrip(json, m, id, columns[i]); }
    }
    NoTypeMismatch(json, ZeroOf(), columns, values);
    var f := Decode(json, ZeroOf(), columns, values).0;
    forall c: Column | !c.Other? ensures Get(f, c) == Get(NodeOf(m).(id := id), c) {
      LastBufferWins(json, ZeroOf(), columns, values, c);
      CellRoundTrip(json, m, id, c);
      var i :| 0 <= i < |columns| && columns[i] == c;
      assert values[i] == Scan(Blank(c), StoredCell(SpecOf(json, m), id, c));
    }
    SameFields(f, NodeOf(m).(id := id));
  }
}
