/**
 * The video repository: how `updateVideo` builds its numbered-placeholder
 * UPDATE statement, what running that statement and the genre replacement
 * does to the tables, how `createVideo` fills in omitted fields, and how a
 * selected row becomes a video record.
 *
 * The database is abstracted as a map from video identifier to the row's
 * column values plus the set of (video, genre) pairs of `video_genres`.
 */
module VideoRepository {
  import opened Common

  /** A JavaScript optional property: `undefined`, or a value (which may itself be null). */
  datatype Optional<T> = Undefined | Given(value: T)

  /** A value bound to a query placeholder. */
  datatype SqlValue = SqlNull | SqlText(text: string) | SqlInt(n: int)

  /** What the API returns for a video. */
  datatype VideoRecord = VideoRecord(
    id: int,
    title: string,
    description: Option<string>,
    thumbnailUrl: Option<string>,
    videoPath: string,
    releaseYear: Option<int>,
    ageRating: Option<string>,
    genres: seq<string>)

  /** A row as the video SELECT returns it; the aggregated `genres` may be null. */
  datatype VideoRow = VideoRow(
    id: int,
    title: string,
    description: Option<string>,
    thumbnailUrl: Option<string>,
    videoPath: string,
    releaseYear: Option<int>,
    ageRating: Option<string>,
    genres: Option<seq<string>>)

  /** `mapVideoRowToVideoRecord`: fields are copied; null genres become the empty list. */
  function ToVideoRecord(row: VideoRow): (r: VideoRecord)
    ensures row.genres == None ==> r.genres == []
    ensures row.genres.Some? ==> r.genres == row.genres.value
    ensures r.id == row.id && r.title == row.title && r.videoPath == row.videoPath
    ensures r.description == row.description && r.thumbnailUrl == row.thumbnailUrl
    ensures r.releaseYear == row.releaseYear && r.ageRating == row.ageRating
  {
    VideoRecord(row.id, row.title, row.description, row.thumbnailUrl, row.videoPath,
                row.releaseYear, row.ageRating, if row.genres.Some? then row.genres.value else [])
  }

  // ---------------------------------------------------------------------------
  // The columns `updateVideo` may set, in the order it tests them

  datatype Column = Title | Description | ThumbnailUrl | VideoPath | ReleaseYear | AgeRating

  const Columns: seq<Column> := [Title, Description, ThumbnailUrl, VideoPath, ReleaseYear, AgeRating]

  function ColumnName(c: Column): (name: string)
    ensures name != [] && ' ' !in name
  {
    match c
    case Title => "title"
    case Description => "description"
    case ThumbnailUrl => "thumbnail_url"
    case VideoPath => "video_path"
    case ReleaseYear => "release_year"
    case AgeRating => "age_rating"
  }

  /** The column a SET clause names. */
  function ColumnNamed(name: string): (c: Option<Column>)
    ensures c.Some? ==> ColumnName(c.value) == name
  {
    if name == "title" then Some(Title)
    else if name == "description" then Some(Description)
    else if name == "thumbnail_url" then Some(ThumbnailUrl)
    else if name == "video_path" then Some(VideoPath)
    else if name == "release_year" then Some(ReleaseYear)
    else if name == "age_rating" then Some(AgeRating)
    else None
  }

  lemma ColumnNamedName(c: Column)
    ensures ColumnNamed(ColumnName(c)) == Some(c)
  {
  }

  /** The position of a column in the fixed order. */
  function Rank(c: Column): (r: nat)
    ensures r < |Columns| && Columns[r] == c
  {
    match c
    case Title => 0
    case Description => 1
    case ThumbnailUrl => 2
    case VideoPath => 3
    case ReleaseYear => 4
    case AgeRating => 5
  }

  /** A stored row: a value for each column. */
  type Row = map<Column, SqlValue>

  predicate Complete(row: Row)
  {
    forall c: Column :: c in row
  }

  /** The fields argument of `updateVideo`. */
  datatype VideoPatch = VideoPatch(
    title: Optional<string>,
    description: Optional<Option<string>>,
    thumbnailUrl: Optional<Option<string>>,
    videoPath: Optional<string>,
    releaseYear: Optional<Option<int>>,
    ageRating: Optional<Option<string>>,
    genreIdentifiers: Optional<seq<int>>)

  function TextValue(s: Option<string>): SqlValue
  {
    if s.Some? then SqlText(s.value) else SqlNull
  }

  function IntValue(n: Option<int>): SqlValue
  {
    if n.Some? then SqlInt(n.value) else SqlNull
  }

  /** The `!== undefined` test for a column's field; null passes it. */
  predicate Defined(p: VideoPatch, c: Column)
  {
    match c
    case Title => p.title.Given?
    case Description => p.description.Given?
    case ThumbnailUrl => p.thumbnailUrl.Given?
    case VideoPath => p.videoPath.Given?
    case ReleaseYear => p.releaseYear.Given?
    case AgeRating => p.ageRating.Given?
  }

  /** The value pushed for a defined column (null stays null). */
  function BoundValue(p: VideoPatch, c: Column): SqlValue
    requires Defined(p, c)
  {
    match c
    case Title => SqlText(p.title.value)
    case Description => TextValue(p.description.value)
    case ThumbnailUrl => TextValue(p.thumbnailUrl.value)
    case VideoPath => SqlText(p.videoPath.value)
    case ReleaseYear => IntValue(p.releaseYear.value)
    case AgeRating => TextValue(p.ageRating.value)
  }

  /** The columns among the first `k` of the fixed order that the patch sets, in that order. */
  function PatchedUpTo(p: VideoPatch, k: nat): (cols: seq<Column>)
    requires k <= |Columns|
    ensures |cols| <= k
  {
    if k == 0 then []
    else PatchedUpTo(p, k - 1) + (if Defined(p, Columns[k - 1]) then [Columns[k - 1]] else [])
  }

  /** The columns the patch sets, in the fixed order of the six tests. */
  function PatchedColumns(p: VideoPatch): seq<Column>
  {
    PatchedUpTo(p, |Columns|)
  }

  lemma {:induction false} PatchedUpToExactly(p: VideoPatch, k: nat, c: Column)
    requires k <= |Columns|
    ensures c in PatchedUpTo(p, k) <==> Rank(c) < k && Defined(p, c)
  {
    if k > 0 {
      PatchedUpToExactly(p, k - 1, c);
    }
  }

  /** A column is set exactly when its field is not `undefined`; null counts as set. */
  lemma PatchedExactly(p: VideoPatch, c: Column)
    ensures c in PatchedColumns(p) <==> Defined(p, c)
  {
    PatchedUpToExactly(p, |Columns|, c);
  }

  /** Columns listed once each, in the fixed order. */
  predicate InOrder(cols: seq<Column>)
  {
    forall i, j :: 0 <= i < j < |cols| ==> Rank(cols[i]) < Rank(cols[j])
  }

  /** Every column of `cols` comes before position `bound` of the fixed order. */
  predicate Before(cols: seq<Column>, bound: nat)
  {
    forall i :: 0 <= i < |cols| ==> Rank(cols[i]) < bound
  }

  lemma {:induction false} PatchedUpToInOrder(p: VideoPatch, k: nat)
    requires k <= |Columns|
    ensures InOrder(PatchedUpTo(p, k)) && Before(PatchedUpTo(p, k), k)
  {
    if k > 0 {
      PatchedUpToInOrder(p, k - 1);
      assert Rank(Columns[k - 1]) == k - 1;
    }
  }

  /** The set columns appear once each, in the fixed order. */
  lemma PatchedInOrder(p: VideoPatch)
    ensures InOrder(PatchedColumns(p))
  {
    PatchedUpToInOrder(p, |Columns|);
  }

  // ---------------------------------------------------------------------------
  // The UPDATE statement

  /** One SET clause, `<column> = $<k>`. */
  function ClauseText(c: Column, k: nat): string
  {
    ColumnName(c) + " = $" + NatToString(k)
  }

  /** How the database reads a SET clause: the column it names and its placeholder number. */
  function ParseClause(clause: string): Option<(Column, nat)>
  {
    var parts := Split(clause, ' ');
    if |parts| == 3 && parts[1] == "=" && |parts[2]| >= 2 && parts[2][0] == '$'
       && IsDigits(parts[2][1..]) && ColumnNamed(parts[0]).Some?
    then Some((ColumnNamed(parts[0]).value, DigitsValue(parts[2][1..])))
    else None
  }

  /** Each clause the builder writes names its column and its placeholder unambiguously. */
  lemma ClauseRoundTrip(c: Column, k: nat)
    ensures ParseClause(ClauseText(c, k)) == Some((c, k))
  {
    var name := ColumnName(c);
    var digits := NatToString(k);
    var placeholder := "$" + digits;
    assert ClauseText(c, k) == name + [' '] + ("=" + [' '] + placeholder);
    DigitsExclude(digits, ' ');
    assert ' ' !in placeholder;
    SplitWhole(placeholder, ' ');
    SplitAt("=", placeholder, ' ');
    SplitAt(name, "=" + [' '] + placeholder, ' ');
    assert placeholder[1..] == digits;
    NatToStringRoundTrip(k);
    ColumnNamedName(c);
  }

  /** The clauses for `cols`, numbered from `offset + 1` on. */
  function ClausesFor(cols: seq<Column>, offset: nat): (r: seq<string>)
    ensures |r| == |cols|
  {
    if cols == [] then [] else [ClauseText(cols[0], offset + 1)] + ClausesFor(cols[1..], offset + 1)
  }

  /** Clause `k` (from 0) names column `cols[k]` and placeholder `offset + k + 1`. */
  lemma {:induction false} ClausesForIndex(cols: seq<Column>, offset: nat)
    ensures forall k :: 0 <= k < |cols| ==> ClausesFor(cols, offset)[k] == ClauseText(cols[k], offset + k + 1)
  {
    if cols != [] {
      ClausesForIndex(cols[1..], offset + 1);
    }
  }

  /** Every column of `cols` is set by the patch. */
  predicate AllDefined(p: VideoPatch, cols: seq<Column>)
  {
    forall i :: 0 <= i < |cols| ==> Defined(p, cols[i])
  }

  lemma PatchedAllDefined(p: VideoPatch, k: nat)
    requires k <= |Columns|
    ensures AllDefined(p, PatchedUpTo(p, k))
  {
    var cols := PatchedUpTo(p, k);
    forall i | 0 <= i < |cols| ensures Defined(p, cols[i]) {
      PatchedUpToExactly(p, k, cols[i]);
    }
  }

  /** The values bound for `cols`, in order. */
  function ValuesFor(p: VideoPatch, cols: seq<Column>): (r: seq<SqlValue>)
    requires AllDefined(p, cols)
    ensures |r| == |cols|
  {
    if cols == [] then [] else [BoundValue(p, cols[0])] + ValuesFor(p, cols[1..])
  }

  /** Value `k` (from 0) is what the patch gives column `cols[k]`. */
  lemma {:induction false} ValuesForIndex(p: VideoPatch, cols: seq<Column>)
    requires AllDefined(p, cols)
    ensures forall k :: 0 <= k < |cols| ==> ValuesFor(p, cols)[k] == BoundValue(p, cols[k])
  {
    if cols != [] {
      ValuesForIndex(p, cols[1..]);
    }
  }

  /** `UPDATE videos SET <setClauses joined by ", "> WHERE id = $<whereIndex> RETURNING id` with its values. */
  datatype UpdateStatement = UpdateStatement(setClauses: seq<string>, whereIndex: nat, values: seq<SqlValue>)

  /** The statement `updateVideo` issues for a patch that sets at least one column. */
  function UpdateStatementFor(videoIdentifier: int, p: VideoPatch): UpdateStatement
  {
    var (clauses, values, parameterIndex) := BuilderAfter(p, |Columns|);
    UpdateStatement(clauses, parameterIndex, values + [SqlInt(videoIdentifier)])
  }

  /**
   * The shape of that statement: one clause `<column> = $k` per set column,
   * placeholders numbered 1..n in the fixed column order, `$k` bound to the
   * value of the k-th set column, and the identifier bound last, to `$(n + 1)`.
   */
  lemma PlaceholdersNumbered(videoIdentifier: int, p: VideoPatch)
    ensures var s, cols := UpdateStatementFor(videoIdentifier, p), PatchedColumns(p);
            && |s.setClauses| == |cols|
            && s.whereIndex == |cols| + 1
            && |s.values| == |cols| + 1
            && s.values[|cols|] == SqlInt(videoIdentifier)
            && AllDefined(p, cols)
            && (forall k :: 0 <= k < |cols| ==> s.setClauses[k] == ClauseText(cols[k], k + 1))
            && (forall k :: 0 <= k < |cols| ==> s.values[k] == BoundValue(p, cols[k]))
  {
    var cols := PatchedColumns(p);
    PatchedAllDefined(p, |Columns|);
    ClausesForIndex(cols, 0);
    ValuesForIndex(p, cols);
  }

  /**
   * What the builder holds after the first `k` of the six tests: the clauses
   * and values of the columns set so far, and the next placeholder number.
   */
  function BuilderAfter(p: VideoPatch, k: nat): (seq<string>, seq<SqlValue>, nat)
    requires k <= |Columns|
  {
    var cols := PatchedUpTo(p, k);
    PatchedAllDefined(p, k);
    (ClausesFor(cols, 0), ValuesFor(p, cols), |cols| + 1)
  }

  lemma {:induction false} ClausesSnoc(cols: seq<Column>, c: Column)
    ensures ClausesFor(cols + [c], 0) == ClausesFor(cols, 0) + [ClauseText(c, |cols| + 1)]
  {
    ClausesForIndex(cols + [c], 0);
    ClausesForIndex(cols, 0);
    var l := ClausesFor(cols + [c], 0);
    var r := ClausesFor(cols, 0) + [ClauseText(c, |cols| + 1)];
    forall k | 0 <= k < |l| ensures l[k] == r[k] {
      if k < |cols| {
        assert (cols + [c])[k] == cols[k];
      }
    }
  }

  lemma {:induction false} ValuesSnoc(p: VideoPatch, cols: seq<Column>, c: Column)
    requires AllDefined(p, cols) && Defined(p, c)
    ensures AllDefined(p, cols + [c])
    ensures ValuesFor(p, cols + [c]) == ValuesFor(p, cols) + [BoundValue(p, c)]
  {
    assert AllDefined(p, cols + [c]) by {
      forall i | 0 <= i < |cols| + 1 ensures Defined(p, (cols + [c])[i]) {
        if i < |cols| {
          assert (cols + [c])[i] == cols[i];
        }
      }
    }
    ValuesForIndex(p, cols + [c]);
    ValuesForIndex(p, cols);
    var l := ValuesFor(p, cols + [c]);
    var r := ValuesFor(p, cols) + [BoundValue(p, c)];
    forall k | 0 <= k < |l| ensures l[k] == r[k] {
      if k < |cols| {
        assert (cols + [c])[k] == cols[k];
      }
    }
  }

  /** A defined field pushes its clause and value and bumps the placeholder counter. */
  lemma BuilderPush(p: VideoPatch, k: nat, c: Column)
    requires Rank(c) == k && Defined(p, c)
    ensures var (clauses, values, parameterIndex) := BuilderAfter(p, k);
            BuilderAfter(p, k + 1) == (clauses + [ClauseText(c, parameterIndex)], values + [BoundValue(p, c)], parameterIndex + 1)
  {
    PatchedAllDefined(p, k);
    ClausesSnoc(PatchedUpTo(p, k), c);
    ValuesSnoc(p, PatchedUpTo(p, k), c);
  }

  /** An undefined field leaves the builder as it was. */
  lemma BuilderSkip(p: VideoPatch, k: nat, c: Column)
    requires Rank(c) == k && !Defined(p, c)
    ensures BuilderAfter(p, k + 1) == BuilderAfter(p, k)
  {
    assert PatchedUpTo(p, k + 1) == PatchedUpTo(p, k);
  }

  /**
   * One of the six tests of `updateVideo`: when the column's field is not
   * `undefined`, push `<column> = $<parameterIndex>` and its value and bump
   * the counter; otherwise change nothing.
   */
  method PushIfDefined(fields: VideoPatch, ghost tested: nat, column: Column,
                       updateColumns: seq<string>, values: seq<SqlValue>, parameterIndex: nat)
    returns (nextColumns: seq<string>, nextValues: seq<SqlValue>, nextIndex: nat)
    requires Rank(column) == tested && (updateColumns, values, parameterIndex) == BuilderAfter(fields, tested)
    ensures (nextColumns, nextValues, nextIndex) == BuilderAfter(fields, tested + 1)
  {
    nextColumns, nextValues, nextIndex := updateColumns, values, parameterIndex;
    if Defined(fields, column) {
      BuilderPush(fields, tested, column);
      nextColumns := updateColumns + [ClauseText(column, parameterIndex)];
      nextIndex := parameterIndex + 1;
      nextValues := values + [BoundValue(fields, column)];
    } else {
      BuilderSkip(fields, tested, column);
    }
  }

  /**
   * The clause builder of `updateVideo`: the six tests in the fixed order,
   * then the statement, issued only when some clause was pushed.
   */
  method BuildUpdate(videoIdentifier: int, fields: VideoPatch) returns (update: Option<UpdateStatement>)
    ensures update == if PatchedColumns(fields) == [] then None else Some(UpdateStatementFor(videoIdentifier, fields))
  {
    var updateColumns: seq<string> := [];
    var values: seq<SqlValue> := [];
    var parameterIndex: nat := 1;

    updateColumns, values, parameterIndex := PushIfDefined(fields, 0, Title, updateColumns, values, parameterIndex);
    updateColumns, values, parameterIndex := PushIfDefined(fields, 1, Description, updateColumns, values, parameterIndex);
    updateColumns, values, parameterIndex := PushIfDefined(fields, 2, ThumbnailUrl, updateColumns, values, parameterIndex);
    updateColumns, values, parameterIndex := PushIfDefined(fields, 3, VideoPath, updateColumns, values, parameterIndex);
    updateColumns, values, parameterIndex := PushIfDefined(fields, 4, ReleaseYear, updateColumns, values, parameterIndex);
    updateColumns, values, parameterIndex := PushIfDefined(fields, 5, AgeRating, updateColumns, values, parameterIndex);

    if |updateColumns| > 0 {
      values := values + [SqlInt(videoIdentifier)];
      update := Some(UpdateStatement(updateColumns, parameterIndex, values));
    } else {
      update := None;
    }
  }

  // ---------------------------------------------------------------------------
  // What running the statement does to a row

  /**
   * How the database applies SET clauses to a row: each clause it can read
   * stores the value bound to its placeholder (`$k` is `values[k - 1]`) in
   * its column; a clause it cannot read, or a placeholder with no value,
   * changes nothing.
   */
  function ApplyClauses(row: Row, clauses: seq<string>, values: seq<SqlValue>): Row
    decreases |clauses|
  {
    if clauses == [] then row
    else
      var next := match ParseClause(clauses[0])
                  case Some((c, k)) => if 1 <= k <= |values| then row[c := values[k - 1]] else row
                  case None => row;
      ApplyClauses(next, clauses[1..], values)
  }

  /** The row after a patch, read field by field: every field that is not `undefined` replaces its column. */
  function ApplyPatch(row: Row, p: VideoPatch): (r: Row)
    requires Complete(row)
    ensures Complete(r)
  {
    map c | c in row :: if Defined(p, c) then BoundValue(p, c) else row[c]
  }

  /** One clause the builder wrote, applied: its column takes the value bound to its placeholder. */
  lemma ApplyClauseStep(row: Row, c: Column, k: nat, rest: seq<string>, values: seq<SqlValue>)
    requires 1 <= k <= |values|
    ensures ApplyClauses(row, [ClauseText(c, k)] + rest, values) == ApplyClauses(row[c := values[k - 1]], rest, values)
  {
    ClauseRoundTrip(c, k);
    assert ([ClauseText(c, k)] + rest)[1..] == rest;
  }

  /** `cols` stored one after the other into a row, each taking the patch's value. */
  function Overwrite(row: Row, p: VideoPatch, cols: seq<Column>): Row
    requires AllDefined(p, cols)
    decreases |cols|
  {
    if cols == [] then row else Overwrite(row[cols[0] := BoundValue(p, cols[0])], p, cols[1..])
  }

  /** The clauses for `cols`, with their values at `offset` on, store exactly those values. */
  lemma {:induction false} ApplyClausesFor(row: Row, p: VideoPatch, cols: seq<Column>, offset: nat, values: seq<SqlValue>)
    requires AllDefined(p, cols)
    requires offset + |cols| <= |values|
    requires forall i :: 0 <= i < |cols| ==> values[offset + i] == BoundValue(p, cols[i])
    ensures ApplyClauses(row, ClausesFor(cols, offset), values) == Overwrite(row, p, cols)
    decreases |cols|
  {
    if cols != [] {
      ApplyClauseStep(row, cols[0], offset + 1, ClausesFor(cols[1..], offset + 1), values);
      forall i | 0 <= i < |cols[1..]| ensures values[offset + 1 + i] == BoundValue(p, cols[1..][i]) {
        assert values[offset + (i + 1)] == BoundValue(p, cols[i + 1]);
      }
      ApplyClausesFor(row[cols[0] := BoundValue(p, cols[0])], p, cols[1..], offset + 1, values);
    }
  }

  /** After the overwrite a column of `cols` holds the patch's value, and any other column its old value. */
  lemma {:induction false} OverwriteAt(row: Row, p: VideoPatch, cols: seq<Column>, c: Column)
    requires AllDefined(p, cols)
    ensures c in Overwrite(row, p, cols) <==> c in row || c in cols
    ensures c in cols ==> Overwrite(row, p, cols)[c] == BoundValue(p, c)
    ensures c !in cols && c in row ==> Overwrite(row, p, cols)[c] == row[c]
    decreases |cols|
  {
    if cols != [] {
      OverwriteAt(row[cols[0] := BoundValue(p, cols[0])], p, cols[1..], c);
      assert c in cols <==> c == cols[0] || c in cols[1..];
    }
  }

  /**
   * Running the statement `updateVideo` builds on a stored row gives the
   * row the patch describes field by field: the builder and the database
   * agree on which placeholder carries which value.
   */
  lemma UpdateApplied(videoIdentifier: int, p: VideoPatch, row: Row)
    requires Complete(row)
    ensures var s := UpdateStatementFor(videoIdentifier, p);
            ApplyClauses(row, s.setClauses, s.values) == ApplyPatch(row, p)
  {
    var s, cols := UpdateStatementFor(videoIdentifier, p), PatchedColumns(p);
    PlaceholdersNumbered(videoIdentifier, p);
    assert s.setClauses == ClausesFor(cols, 0);
    ApplyClausesFor(row, p, cols, 0, s.values);
    var after := Overwrite(row, p, cols);
    forall c: Column ensures c in after && after[c] == ApplyPatch(row, p)[c] {
      PatchedExactly(p, c);
      OverwriteAt(row, p, cols, c);
    }
    assert after == ApplyPatch(row, p);
  }

  /** A patch that sets nothing leaves a row as it is. */
  lemma ApplyEmptyPatch(row: Row, p: VideoPatch)
    requires Complete(row) && PatchedColumns(p) == []
    ensures ApplyPatch(row, p) == row
  {
    forall c: Column ensures !Defined(p, c) {
      PatchedExactly(p, c);
    }
  }

  // ---------------------------------------------------------------------------
  // The genre links of `video_genres`

  type GenreLink = (int, int)

  /** `DELETE FROM video_genres WHERE video_id = $1`. */
  function WithoutVideo(links: set<GenreLink>, videoIdentifier: int): set<GenreLink>
  {
    set l | l in links && l.0 != videoIdentifier
  }

  /** The rows `INSERT ... SELECT $1, genre_id FROM unnest($2) ON CONFLICT DO NOTHING` adds. */
  function LinksFor(videoIdentifier: int, genreIdentifiers: seq<int>): set<GenreLink>
  {
    set g | g in genreIdentifiers :: (videoIdentifier, g)
  }

  /** The genres a video is linked to. */
  function GenresOf(links: set<GenreLink>, videoIdentifier: int): set<int>
  {
    set l | l in links && l.0 == videoIdentifier :: l.1
  }

  /** The two genre statements of `updateVideo`: delete every mapping, then insert the listed ones. */
  function ReplaceGenres(links: set<GenreLink>, videoIdentifier: int, genreIdentifiers: seq<int>): set<GenreLink>
  {
    WithoutVideo(links, videoIdentifier) + LinksFor(videoIdentifier, genreIdentifiers)
  }

  /**
   * After the replacement the video is linked to exactly the listed genres,
   * each once whatever the duplicates in the list, and every other video
   * keeps its genres.
   */
  lemma ReplaceGenresExactly(links: set<GenreLink>, videoIdentifier: int, genreIdentifiers: seq<int>)
    ensures GenresOf(ReplaceGenres(links, videoIdentifier, genreIdentifiers), videoIdentifier)
            == set g | g in genreIdentifiers
    ensures forall v :: v != videoIdentifier ==>
              GenresOf(ReplaceGenres(links, videoIdentifier, genreIdentifiers), v) == GenresOf(links, v)
  {
    var after := ReplaceGenres(links, videoIdentifier, genreIdentifiers);
    forall g ensures g in GenresOf(after, videoIdentifier) <==> g in genreIdentifiers {
      if g in genreIdentifiers {
        assert (videoIdentifier, g) in after;
      }
    }
    forall v | v != videoIdentifier ensures GenresOf(after, v) == GenresOf(links, v) {
      forall g ensures g in GenresOf(after, v) <==> g in GenresOf(links, v) {
        if g in GenresOf(links, v) {
          assert (v, g) in links;
        }
      }
    }
  }

  /** Adding the links for a video gives it the listed genres on top of the ones it had. */
  lemma GenresOfAdded(links: set<GenreLink>, videoIdentifier: int, genreIdentifiers: seq<int>)
    ensures GenresOf(links + LinksFor(videoIdentifier, genreIdentifiers), videoIdentifier)
            == GenresOf(links, videoIdentifier) + set g | g in genreIdentifiers
  {
    var after := links + LinksFor(videoIdentifier, genreIdentifiers);
    forall g | g in genreIdentifiers ensures g in GenresOf(after, videoIdentifier) {
      assert (videoIdentifier, g) in after;
    }
    forall g | g in GenresOf(links, videoIdentifier) ensures g in GenresOf(after, videoIdentifier) {
      assert (videoIdentifier, g) in after;
    }
  }

  // ---------------------------------------------------------------------------
  // createVideo

  /** The params of `createVideo`; the optional ones may be omitted (`undefined`). */
  datatype NewVideo = NewVideo(
    title: string,
    description: Optional<Option<string>>,
    thumbnailUrl: Optional<Option<string>>,
    videoPath: string,
    releaseYear: Optional<Option<int>>,
    ageRating: Optional<Option<string>>,
    genreIdentifiers: Optional<seq<int>>)

  /** A destructuring default of `null`: applies to an omitted field only; a given null stays null. */
  function OrNull<T>(field: Optional<Option<T>>): Option<T>
  {
    if field.Given? then field.value else None
  }

  /** The destructuring default `genreIdentifiers = []`. */
  function GenresRequested(params: NewVideo): seq<int>
  {
    if params.genreIdentifiers.Given? then params.genreIdentifiers.value else []
  }

  /** The row `INSERT INTO videos (...) VALUES ($1, ..., $6)` stores, after the defaults. */
  function InsertedRow(params: NewVideo): (row: Row)
    ensures Complete(row)
  {
    map c: Column :: InsertedValue(params, c)
  }

  /** The value bound for one column of the INSERT. */
  function InsertedValue(params: NewVideo, c: Column): SqlValue
  {
    match c
    case Title => SqlText(params.title)
    case Description => TextValue(OrNull(params.description))
    case ThumbnailUrl => TextValue(OrNull(params.thumbnailUrl))
    case VideoPath => SqlText(params.videoPath)
    case ReleaseYear => IntValue(OrNull(params.releaseYear))
    case AgeRating => TextValue(OrNull(params.ageRating))
  }

  /** A row of nulls. */
  const NullRow: Row := map c: Column :: SqlNull

  /** The same fields as a patch: `createVideo` passes exactly what it was given. */
  function AsPatch(params: NewVideo): VideoPatch
  {
    VideoPatch(Given(params.title), params.description, params.thumbnailUrl, Given(params.videoPath),
               params.releaseYear, params.ageRating, params.genreIdentifiers)
  }

  /**
   * An inserted row is a row of nulls with the given fields written over it:
   * every optional field that was omitted is stored as null.
   */
  lemma InsertedIsPatchedNulls(params: NewVideo)
    ensures InsertedRow(params) == ApplyPatch(NullRow, AsPatch(params))
  {
    var lhs, rhs := InsertedRow(params), ApplyPatch(NullRow, AsPatch(params));
    forall c: Column ensures lhs[c] == rhs[c] {
      match c
      case Title =>
      case Description =>
      case ThumbnailUrl =>
      case VideoPath =>
      case ReleaseYear =>
      case AgeRating =>
    }
  }

  // ---------------------------------------------------------------------------
  // The tables

  /** What `getVideoById` reads for a video: its columns and its genre identifiers. */
  datatype StoredVideo = StoredVideo(id: int, columns: Row, genreIdentifiers: set<int>)

  /** The error the database raises for a genre link naming a video that does not exist. */
  datatype DbError = ForeignKeyViolation

  /**
   * The `videos` table (rows by their serial identifier) and the
   * `video_genres` table, whose links must name an existing video.
   */
  class VideoTable {
    var rows: map<int, Row>
    var genreLinks: set<GenreLink>
    var nextId: int

    ghost predicate Valid()
      reads this
    {
      && nextId >= 1
      && (forall id :: id in rows ==> 1 <= id < nextId && Complete(rows[id]))
      && (forall l :: l in genreLinks ==> l.0 in rows)
    }

    constructor ()
      ensures Valid()
      ensures rows == map[] && genreLinks == {} && nextId == 1
    {
      rows := map[];
      genreLinks := {};
      nextId := 1;
    }

    /** `getVideoById`: the video with its genres, or nothing when no row has that identifier. */
    function Stored(videoIdentifier: int): (s: Option<StoredVideo>)
      reads this
      ensures s.Some? <==> videoIdentifier in rows
      ensures s.Some? ==> s.value.id == videoIdentifier && s.value.columns == rows[videoIdentifier]
      ensures s.Some? ==> forall g :: g in s.value.genreIdentifiers <==> (videoIdentifier, g) in genreLinks
      ensures s.Some? && Valid() ==> Complete(s.value.columns)
    {
      if videoIdentifier in rows
      then Some(StoredVideo(videoIdentifier, rows[videoIdentifier], GenresOf(genreLinks, videoIdentifier)))
      else None
    }

    /** A video with no row has no genre links. */
    lemma NoLinksWithoutRow(videoIdentifier: int)
      requires Valid() && videoIdentifier !in rows
      ensures GenresOf(genreLinks, videoIdentifier) == {}
      ensures WithoutVideo(genreLinks, videoIdentifier) == genreLinks
    {
    }

    /** `UPDATE videos SET ... WHERE id = $<whereIndex> RETURNING id`: whether a row matched. */
    method RunUpdate(s: UpdateStatement) returns (matched: bool)
      requires Valid()
      modifies this
      ensures Valid()
      ensures genreLinks == old(genreLinks) && nextId == old(nextId)
      ensures var target := if 1 <= s.whereIndex <= |s.values| then s.values[s.whereIndex - 1] else SqlNull;
              && (matched <==> target.SqlInt? && target.n in old(rows))
              && rows == if matched then old(rows)[target.n := ApplyClauses(old(rows)[target.n], s.setClauses, s.values)]
                         else old(rows)
    {
      var target := if 1 <= s.whereIndex <= |s.values| then s.values[s.whereIndex - 1] else SqlNull;
      matched := target.SqlInt? && target.n in rows;
      if matched {
        var row := rows[target.n];
        ApplyClausesKeeps(row, s.setClauses, s.values);
        rows := rows[target.n := ApplyClauses(row, s.setClauses, s.values)];
      }
    }

    /** `DELETE FROM video_genres WHERE video_id = $1`. */
    method DeleteGenreLinks(videoIdentifier: int)
      requires Valid()
      modifies this
      ensures Valid()
      ensures rows == old(rows) && nextId == old(nextId)
      ensures genreLinks == WithoutVideo(old(genreLinks), videoIdentifier)
    {
      genreLinks := WithoutVideo(genreLinks, videoIdentifier);
    }

    /**
     * `INSERT INTO video_genres ... ON CONFLICT DO NOTHING` for a list of
     * genres: existing links are kept, and a link to a video with no row
     * is refused and the tables left as they were.
     */
    method InsertGenreLinks(videoIdentifier: int, genreIdentifiers: seq<int>) returns (error: Option<DbError>)
      requires Valid()
      modifies this
      ensures Valid()
      ensures rows == old(rows) && nextId == old(nextId)
      ensures error.Some? <==> |genreIdentifiers| > 0 && videoIdentifier !in rows
      ensures genreLinks == if error.Some? then old(genreLinks) else old(genreLinks) + LinksFor(videoIdentifier, genreIdentifiers)
    {
      if |genreIdentifiers| > 0 && videoIdentifier !in rows {
        error := Some(ForeignKeyViolation);
      } else {
        error := None;
        genreLinks := genreLinks + LinksFor(videoIdentifier, genreIdentifiers);
      }
    }

    /**
     * `createVideo`: inserts the row with the defaults under the next serial
     * identifier, links the requested genres when there are any, and returns
     * the stored video.
     */
    method CreateVideo(params: NewVideo) returns (video: StoredVideo)
      requires Valid()
      modifies this
      ensures Valid()
      ensures old(nextId) !in old(rows) && nextId == old(nextId) + 1
      ensures rows == old(rows)[old(nextId) := InsertedRow(params)]
      ensures genreLinks == old(genreLinks) + LinksFor(old(nextId), GenresRequested(params))
      ensures video == StoredVideo(old(nextId), InsertedRow(params), set g | g in GenresRequested(params))
    {
      var insertedId := nextId;
      rows := rows[insertedId := InsertedRow(params)];
      nextId := nextId + 1;
      var genreIdentifiers := GenresRequested(params);
      if |genreIdentifiers| > 0 {
        var error := InsertGenreLinks(insertedId, genreIdentifiers);
      }
      GenresOfAdded(old(genreLinks), insertedId, genreIdentifiers);
      var fullVideo := Stored(insertedId);
      video := fullVideo.value;
    }

    /**
     * `updateVideo`: issues the UPDATE when some column is set and returns
     * nothing when it matched no row; then, when a genre list is given (an
     * empty one too), replaces the video's genre links; then returns the
     * stored video.
     */
    method UpdateVideo(videoIdentifier: int, fieldsToUpdate: VideoPatch) returns (result: Result<Option<StoredVideo>, DbError>)
      requires Valid()
      modifies this
      ensures Valid() && nextId == old(nextId)
      ensures videoIdentifier in old(rows) ==>
                && rows == old(rows)[videoIdentifier := ApplyPatch(old(rows)[videoIdentifier], fieldsToUpdate)]
                && genreLinks == (if fieldsToUpdate.genreIdentifiers.Given?
                                  then ReplaceGenres(old(genreLinks), videoIdentifier, fieldsToUpdate.genreIdentifiers.value)
                                  else old(genreLinks))
                && result == Ok(Stored(videoIdentifier))
      ensures videoIdentifier in old(rows) && fieldsToUpdate.genreIdentifiers.Given? ==>
                result.Ok? && result.value.Some?
                && result.value.value.genreIdentifiers == set g | g in fieldsToUpdate.genreIdentifiers.value
      ensures videoIdentifier !in old(rows) ==>
                && rows == old(rows) && genreLinks == old(genreLinks)
                && result == if PatchedColumns(fieldsToUpdate) == [] && fieldsToUpdate.genreIdentifiers.Given?
                                && |fieldsToUpdate.genreIdentifiers.value| > 0
                             then Err(ForeignKeyViolation) else Ok(None)
    {
      var update := BuildUpdate(videoIdentifier, fieldsToUpdate);
      if update.Some? {
        PlaceholdersNumbered(videoIdentifier, fieldsToUpdate);
        if videoIdentifier in rows {
          UpdateApplied(videoIdentifier, fieldsToUpdate, rows[videoIdentifier]);
        }
        var matched := RunUpdate(update.value);
        if !matched {
          return Ok(None);
        }
      } else if videoIdentifier in rows {
        ApplyEmptyPatch(rows[videoIdentifier], fieldsToUpdate);
        assert rows == rows[videoIdentifier := rows[videoIdentifier]];
      }
      if fieldsToUpdate.genreIdentifiers.Given? {
        var genreIdentifiers := fieldsToUpdate.genreIdentifiers.value;
        ReplaceGenresExactly(genreLinks, videoIdentifier, genreIdentifiers);
        if videoIdentifier !in rows {
          NoLinksWithoutRow(videoIdentifier);
        }
        DeleteGenreLinks(videoIdentifier);
        if |genreIdentifiers| > 0 {
          var error := InsertGenreLinks(videoIdentifier, genreIdentifiers);
          if error.Some? {
            assert update.None?;
            return Err(ForeignKeyViolation);
          }
        }
      }
      result := Ok(Stored(videoIdentifier));
    }
  }

  /** Applying clauses never drops a column. */
  lemma {:induction false} ApplyClausesKeeps(row: Row, clauses: seq<string>, values: seq<SqlValue>)
    ensures Complete(row) ==> Complete(ApplyClauses(row, clauses, values))
    decreases |clauses|
  {
    if clauses != [] {
      var next := match ParseClause(clauses[0])
                  case Some((c, k)) => if 1 <= k <= |values| then row[c := values[k - 1]] else row
                  case None => row;
      ApplyClausesKeeps(next, clauses[1..], values);
    }
  }
}
