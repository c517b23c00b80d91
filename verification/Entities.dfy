/** The entity types around `ImportScan`, `Episode` and `Movie`, and the trees of builders over them. */
module Entities {
  import opened Base
  import opened Store
  import opened QueryTree
  import opened EagerSpec
  import opened EagerJoin
  import opened EagerExact
  import opened EagerGraph

  datatype Kind =
    | Scan
    | ScanFile
    | ScanShow
    | Show
    | Season
    | Episode
    | Movie
    | MovieEvent
    | DownloadRecord
    | MediaFile

  function TableOf(kind: Kind): string {
    match kind
    case Scan => "import_scans"
    case ScanFile => "import_scan_files"
    case ScanShow => "import_scan_shows"
    case Show => "tv_shows"
    case Season => "seasons"
    case Episode => "episodes"
    case Movie => "movies"
    case MovieEvent => "movie_events"
    case DownloadRecord => "download_records"
    case MediaFile => "media_files"
  }

  const STAMPS := [ID_COLUMN, "create_time", "update_time"]

  function ColumnsOf(kind: Kind): seq<Column> {
    match kind
    case Scan =>
      STAMPS + ["source_path", "kind", "mode", "import_mode", "status", "total_count", "processed_count",
                "commit_success_count", "commit_failed_count", "failure_reason", "scanned_at", "committed_at"]
    case ScanFile =>
      STAMPS + ["source_path", "size", "parsed_title", "parsed_year", "parsed_quality", "parsed_release_group",
                "classification", "candidates", "tmdb_id", "existing_movie_id", "decision", "decision_tmdb_id",
                "outcome", "outcome_message", "created_movie_id"]
    case ScanShow =>
      STAMPS + ["folder_path", "parsed_title", "parsed_year", "classification", "tvdb_id", "candidates",
                "existing_tvshow_id", "file_count", "decision", "decision_tvdb_id", "outcome", "outcome_message",
                "created_tvshow_id"]
    case Show =>
      STAMPS + ["title", "original_title", "year", "overview", "series_status", "type", "monitored", "tvdb_id",
                "poster_path", "network", "creator", "runtime", "rating", "genres", "cast", "last_refreshed_at",
                "quality_profile"]
    case Season =>
      STAMPS + ["number", "name", "monitored"]
    case Episode =>
      STAMPS + ["number", "title", "overview", "air_date", "monitored", "absolute_number", "grab_failures",
                "last_search_at", "status"]
    case Movie =>
      STAMPS + ["title", "original_title", "year", "overview", "runtime", "status", "monitored", "tmdb_id",
                "last_search_at", "digital_release_date", "grab_failures", "failure_reason", "quality_profile",
                "rating", "genres", "cast", "last_refreshed_at"]
    case MovieEvent =>
      STAMPS + ["type", "payload"]
    case DownloadRecord =>
      STAMPS + ["title", "quality", "size", "status", "torrent_hash", "release_group", "save_path",
                "import_attempts", "failure_reason", "imported_at", "indexer_name", "download_client_name",
                "replace_existing"]
    case MediaFile =>
      STAMPS + ["path", "size", "quality", "format", "release_group", "source", "last_seen_at"]
  }

  function KeysOf(kind: Kind): seq<Column> {
    match kind
    case Scan | Show | Movie => []
    case ScanFile => ["import_scan_files"]
    case ScanShow => ["import_scan_shows"]
    case Season => ["tv_show_seasons"]
    case Episode => ["season_episodes"]
    case MovieEvent => ["movie_events"]
    case DownloadRecord => ["episode_download_records", "movie_download_records"]
    case MediaFile => ["episode_media_files", "movie_media_files"]
  }

  /** Edges in the order in which `sqlAll` loads them. */
  function EdgesOf(kind: Kind): seq<Edge> {
    match kind
    case Scan =>
      [Edge(OneToMany, "import_scan_files", "import_scan_files"),
       Edge(OneToMany, "import_scan_shows", "import_scan_shows")]
    case ScanFile => [Edge(ManyToOne, "import_scans", "import_scan_files")]
    case ScanShow => [Edge(ManyToOne, "import_scans", "import_scan_shows")]
    case Show => [Edge(OneToMany, "seasons", "tv_show_seasons")]
    case Season =>
      [Edge(ManyToOne, "tv_shows", "tv_show_seasons"),
       Edge(OneToMany, "episodes", "season_episodes")]
    case Episode =>
      [Edge(ManyToOne, "seasons", "season_episodes"),
       Edge(OneToMany, "download_records", "episode_download_records"),
       Edge(OneToMany, "media_files", "episode_media_files")]
    case Movie =>
      [Edge(OneToMany, "download_records", "movie_download_records"),
       Edge(OneToMany, "media_files", "movie_media_files"),
       Edge(OneToMany, "movie_events", "movie_events")]
    case MovieEvent => [Edge(ManyToOne, "movies", "movie_events")]
    case DownloadRecord =>
      [Edge(ManyToOne, "movies", "movie_download_records"),
       Edge(ManyToOne, "episodes", "episode_download_records")]
    case MediaFile =>
      [Edge(ManyToOne, "movies", "movie_media_files"),
       Edge(ManyToOne, "episodes", "episode_media_files")]
  }

  /** Tables, columns and edges as the entity packages declare them. */
  function TypeOf(kind: Kind): EntityType {
    EntityType(TableOf(kind), ColumnsOf(kind), KeysOf(kind), EdgesOf(kind))
  }

  /** The type of builder that `With` nests on edge k. */
  function TargetOf(kind: Kind, k: nat): Kind {
    match kind
    case Scan => if k == 0 then ScanFile else ScanShow
    case ScanFile | ScanShow => Scan
    case Show => Season
    case Season => if k == 0 then Show else Episode
    case Episode => if k == 0 then Season else if k == 1 then DownloadRecord else MediaFile
    case Movie => if k == 0 then DownloadRecord else if k == 1 then MediaFile else MovieEvent
    case MovieEvent => Movie
    case DownloadRecord | MediaFile => if k == 0 then Movie else Episode
  }

  /** A tree of builders as the setters build it: every nested builder is a new one of the edge's target type. */
  ghost predicate Typed(q: Query, kind: Kind)
    decreases q.with
  {
    && q.entity == TypeOf(kind) && |q.with| == |q.entity.edges|
    && forall k | 0 <= k < |q.with| && q.with[k].Some? ::
         q.with[k].value.path.None? && Typed(q.with[k].value, TargetOf(kind, k))
  }

  /** Each edge leads to its target's table, and its column is a foreign key of the side that owns it. */
  lemma EdgesFit(kind: Kind, k: nat)
    requires k < |EdgesOf(kind)|
    ensures var e, target := EdgesOf(kind)[k], TargetOf(kind, k);
            && e.target == TableOf(target)
            && e.column in KeysOf(if e.kind == ManyToOne then kind else target)
  {
  }

  lemma {:induction false} TypedIsWellFormed(q: Query, kind: Kind)
    requires Typed(q, kind)
    ensures WellFormed(q)
    decreases q.with
  {
    hide TableOf, ColumnsOf, KeysOf, EdgesOf, TargetOf;
    forall k | 0 <= k < |q.with| && q.with[k].Some?
      ensures var e, nested := q.entity.edges[k], q.with[k].value;
              && nested.path.None? && nested.entity.table == e.target
              && (e.kind == OneToMany ==> e.column in nested.entity.foreignKeys)
              && (e.kind == ManyToOne ==> e.column in q.entity.foreignKeys)
              && WellFormed(nested)
    {
      EdgesFit(kind, k);
      TypedIsWellFormed(q.with[k].value, TargetOf(kind, k));
    }
  }

  /** So eager loading is the naive join for every tree over these entities, of any depth. */
  lemma TypedTreesJoin(db: Database, q: Query, kind: Kind)
    requires Typed(q, kind) && PrimaryKeys(db) && PathIntoTable(db, q)
    requires NestedWindowless(q) && FieldsValid(q)
    requires q.path.None? || SpecOf(q).unique
    ensures All(db, q).result == Ok(Join(db, q))
  {
    TypedIsWellFormed(q, kind);
    EagerIsNaiveJoin(db, q);
  }

  // ---------- edges and their inverses ----------

  /** Edge j of the target leads back over the same column. */
  predicate Inverse(kind: Kind, k: nat, j: nat)
    requires k < |EdgesOf(kind)|
  {
    && j < |EdgesOf(TargetOf(kind, k))| && TargetOf(TargetOf(kind, k), j) == kind
    && EdgesOf(TargetOf(kind, k))[j].kind != EdgesOf(kind)[k].kind
    && EdgesOf(TargetOf(kind, k))[j].column == EdgesOf(kind)[k].column
  }

  /** Every edge has exactly one inverse, of the opposite kind and over the same column. */
  lemma EdgesInvert(kind: Kind, k: nat) returns (j: nat)
    requires k < |EdgesOf(kind)|
    ensures Inverse(kind, k, j)
    ensures forall other: nat :: Inverse(kind, k, other) ==> other == j
  {
    j := match kind
         case Scan | Show | Season | Movie | ScanFile => 0
         case ScanShow | Episode => 1
         case MovieEvent => 2
         case DownloadRecord => k
         case MediaFile => k + 1;
  }

  /** A tree over these entities that loads edge k through a nested builder without predicates of its own. */
  ghost predicate LoadsAll(db: Database, q: Query, kind: Kind, k: nat) {
    Typed(q, kind) && Plain(db, q) && Loads(q, k) && q.with[k].value.predicates == []
  }

  /** Row i of the run is a row of the entity's table. */
  predicate InTable(db: Database, q: Query, kind: Kind, i: nat) {
    TableOf(kind) in db && i < |NodeRows(db, q)| && NodeRows(db, q)[i] in db[TableOf(kind)]
  }

  /**
   So for each edge of each of these entities, in a graph loaded from either end: a node is
   in the list of its owner exactly when its own edge, over the same column, points back.
   */
  lemma LoadedBothWays(db: Database, p: Query, q: Query, kind: Kind, k: nat, l: nat, i: nat, m: nat)
    requires k < |EdgesOf(kind)| && EdgesOf(kind)[k].kind == OneToMany && Inverse(kind, k, l)
    requires LoadsAll(db, p, kind, k) && InTable(db, p, kind, i)
    requires LoadsAll(db, q, TargetOf(kind, k), l) && InTable(db, q, TargetOf(kind, k), m)
    ensures All(db, p).result.Ok? && All(db, q).result.Ok?
    ensures i < |All(db, p).result.value| && k < |All(db, p).result.value[i].links|
    ensures m < |All(db, q).result.value| && l < |All(db, q).result.value[m].links|
    ensures var down, up := All(db, p).result.value[i].links[k], All(db, q).result.value[m].links[l];
            down.Many? &&
            (NodeRows(db, q)[m].id in IDsOf(down.list) <==> up.One? && up.item.id == NodeRows(db, p)[i].id)
  {
    hide NodeRows, All, Plain, TableOf, ColumnsOf, KeysOf, EdgesOf, TargetOf;
    EdgesFit(kind, k);
    EdgesFit(TargetOf(kind, k), l);
    BothWays(db, p, i, k, q, m, l);
  }

  /** No two edges of an entity type share a column, and no two types share a table. */
  lemma ColumnsDiffer(kind: Kind, k: nat, other: nat)
    requires k < other < |EdgesOf(kind)|
    ensures EdgesOf(kind)[k].column != EdgesOf(kind)[other].column
  {
  }

  lemma TablesDiffer(kind: Kind, other: Kind)
    requires kind != other
    ensures TableOf(kind) != TableOf(other)
  {
  }
}
