/** The columns that the row codec of ImportScanFile knows are those its entity declares. */
module FileSchema {
  import opened Entities
  import FileCodec

  function NameOf(c: FileCodec.Column): string {
    match c
    case ID => "id"
    case CreateTime => "create_time"
    case UpdateTime => "update_time"
    case SourcePath => "source_path"
    case Size => "size"
    case ParsedTitle => "parsed_title"
    case ParsedYear => "parsed_year"
    case ParsedQuality => "parsed_quality"
    case ParsedReleaseGroup => "parsed_release_group"
    case Classification => "classification"
    case Candidates => "candidates"
    case TmdbID => "tmdb_id"
    case ExistingMovieID => "existing_movie_id"
    case Decision => "decision"
    case DecisionTmdbID => "decision_tmdb_id"
    case Outcome => "outcome"
    case OutcomeMessage => "outcome_message"
    case CreatedMovieID => "created_movie_id"
    case ScanKey => "import_scan_files"
    case Other(name) => name
  }

  /** The columns in the order in which the entity declares them, and then its foreign key. */
  const CODEC: seq<FileCodec.Column> := [
    FileCodec.ID, FileCodec.CreateTime, FileCodec.UpdateTime, FileCodec.SourcePath, FileCodec.Size,
    FileCodec.ParsedTitle, FileCodec.ParsedYear, FileCodec.ParsedQuality, FileCodec.ParsedReleaseGroup,
    FileCodec.Classification, FileCodec.Candidates, FileCodec.TmdbID, FileCodec.ExistingMovieID, FileCodec.Decision,
    FileCodec.DecisionTmdbID, FileCodec.Outcome, FileCodec.OutcomeMessage, FileCodec.CreatedMovieID, FileCodec.ScanKey]

  /** Everything a run selects from this entity has a case of its own, and nothing else has. */
  lemma SchemaExact(name: string)
    ensures name in TypeOf(ScanFile).columns + TypeOf(ScanFile).foreignKeys <==>
            exists c: FileCodec.Column :: !c.Other? && NameOf(c) == name
  {
    var declared := TypeOf(ScanFile).columns + TypeOf(ScanFile).foreignKeys;
    if name in declared {
      var i :| 0 <= i < |declared| && declared[i] == name;
      Declared(i);
    }
    if c: FileCodec.Column :| !c.Other? && NameOf(c) == name {
      Named(c);
    }
  }

  lemma Named(c: FileCodec.Column)
    requires !c.Other?
    ensures NameOf(c) in TypeOf(ScanFile).columns + TypeOf(ScanFile).foreignKeys
  {
  }

  lemma Declared(i: nat)
    requires i < |TypeOf(ScanFile).columns + TypeOf(ScanFile).foreignKeys|
    ensures i < |CODEC| && !CODEC[i].Other?
    ensures NameOf(CODEC[i]) == (TypeOf(ScanFile).columns + TypeOf(ScanFile).foreignKeys)[i]
  {
    hide NameOf;
    if i < 10 { FirstNames(i); } else { OtherNames(i); }
  }

  lemma FirstNames(i: nat)
    requires i < 10
    ensures NameOf(CODEC[i]) == (ColumnsOf(ScanFile) + KeysOf(ScanFile))[i]
  {
  }

  lemma OtherNames(i: nat)
    requires 10 <= i < |CODEC|
    ensures NameOf(CODEC[i]) == (ColumnsOf(ScanFile) + KeysOf(ScanFile))[i]
  {
  }
}
