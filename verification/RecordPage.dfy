/** Pages of records: the statements of RecordQuery, sorted and read in order, are slices of the
    matching rows in sort order. */
module RecordPage {
  import opened Text
  import opened Sql
  import opened RecordFilter
  import opened RecordQuery
  import opened Keyset
  import Sorting

  /** An engine that compares texts as ORDER BY orders them. */
  ghost predicate OrdersText(engine: Engine) {
    forall a, b ::
      && (engine.holds(Eq, Str(a), Str(b)) <==> a == b)
      && (engine.holds(Lt, Str(a), Str(b)) <==> Before(a, b))
      && (engine.holds(Gt, Str(a), Str(b)) <==> Before(b, a))
  }

  /** ORDER BY writes any direction but ASC as DESC. */
  predicate Ascending(sort: Option<SortOption>) {
    sort.Some? && sort.value.direction == "ASC"
  }

  /** Sorts that promise a complete walk: columns, NULL only for record_created_at. */
  predicate ColumnSort(sort: Option<SortOption>) {
    SortField(sort) == CREATED_AT || DirectColumn(SortField(sort)).Some?
  }

  function KeyOf(row: Record, sort: Option<SortOption>): Key
    requires ColumnSort(sort)
  {
    if SortField(sort) == CREATED_AT then Key(row.createdAt, row.uri)
    else Key(Some(ColumnValue(row, DirectColumn(SortField(sort)).value).text), row.uri)
  }

  /** The key a cursor stands for. */
  function CursorKey(sort: Option<SortOption>, cursor: Cursor): Key {
    if SortField(sort) == CREATED_AT && cursor.value == "" then Key(None, cursor.uri) else Key(Some(cursor.value), cursor.uri)
  }

  /** The cursor made from a row; datetimes are never empty texts. */
  function CursorOf(k: Key): Cursor {
    Cursor(if k.value.Some? then k.value.value else "", k.uri)
  }

  lemma CursorRoundTrip(sort: Option<SortOption>, k: Key)
    requires if SortField(sort) == CREATED_AT then k.value != Some("") else k.value.Some?
    ensures CursorKey(sort, CursorOf(k)) == k
  {
  }

  // ----- The general cursor -----

  /** The OR-form comparison keeps the rows after the cursor in the order of its operator. */
  lemma PastCursorIsAfter(engine: Engine, op: Op, value: string, uri: string, cursor: Cursor)
    requires OrdersText(engine) && op in {Lt, Gt}
    ensures PastCursor(engine, op, Str(value), uri, cursor)
            <==> Order(op == Gt)(Key(Some(cursor.value), cursor.uri), Key(Some(value), uri))
  {
    BeforeIsTotal();
  }

  /** The cursor comparison and ORDER BY agree for every row and cursor exactly when the direction is
      ASC or DESC. Any other direction compares with `>` while rows are sorted descending, so a page
      continues with the rows before its cursor. */
  lemma CursorFollowsOrder(engine: Engine, sort: Option<SortOption>)
    requires OrdersText(engine)
    ensures (forall value, uri, cursor: Cursor ::
               PastCursor(engine, CursorOp(sort), Str(value), uri, cursor)
               <==> Order(Ascending(sort))(Key(Some(cursor.value), cursor.uri), Key(Some(value), uri)))
            <==> (sort.None? || sort.value.direction in {"ASC", "DESC"})
  {
    forall value, uri, cursor: Cursor
      ensures PastCursor(engine, CursorOp(sort), Str(value), uri, cursor)
              <==> Order(CursorOp(sort) == Gt)(Key(Some(cursor.value), cursor.uri), Key(Some(value), uri))
    {
      PastCursorIsAfter(engine, CursorOp(sort), value, uri, cursor);
    }
    if sort.Some? && sort.value.direction !in {"ASC", "DESC"} {
      var cursor := Cursor("", "");
      assert Before("", "a");
      assert PastCursor(engine, CursorOp(sort), Str("a"), "", cursor);
      assert !Ascend(Key(Some("a"), ""), Key(Some(""), "")) by { BeforeIsTotal(); }
      assert !Order(Ascending(sort))(Key(Some(cursor.value), cursor.uri), Key(Some("a"), ""));
    }
  }

  // ----- The record_created_at ranges -----

  lemma UndatedMeaning(env: Env, d: Dialect, op: Op, uri: string, index: nat)
    ensures Selects(env, d, Ok(Fragment([IsNull(ColumnOf(RecordCreatedAt)), Compare(ColumnOf(Uri), op, index)], [Str(uri)])),
                    index, true, env.row.createdAt.None? && env.engine.holds(op, Str(env.row.uri), Str(uri)))
  {
    NullnessMeaning(env, d, true, index);
    UriMeaning(env, d, op, uri, index);
    hide Selects;
    var isNull := Fragment([IsNull(ColumnOf(RecordCreatedAt))], []);
    var compare := Fragment([Compare(ColumnOf(Uri), op, index)], [Str(uri)]);
    AppendSelects(env, d, isNull, compare, index, env.row.createdAt.None?, env.engine.holds(op, Str(env.row.uri), Str(uri)));
    assert isNull.where + compare.where == [IsNull(ColumnOf(RecordCreatedAt)), Compare(ColumnOf(Uri), op, index)];
    assert isNull.params + compare.params == [Str(uri)];
  }

  lemma UriMeaning(env: Env, d: Dialect, op: Op, uri: string, index: nat)
    ensures Selects(env, d, Ok(Fragment([Compare(ColumnOf(Uri), op, index)], [Str(uri)])), index, true,
                    env.engine.holds(op, Str(env.row.uri), Str(uri)))
  {
    OneHole(env, d, Compare(ColumnOf(Uri), op, index), index, Str(uri));
    SingleKeeps(env, d, Compare(ColumnOf(Uri), op, index), index, [Str(uri)]);
  }

  lemma DatedMeaning(env: Env, d: Dialect, op: Op, value: string, uri: string, index: nat)
    ensures Selects(env, d, Ok(Fragment([CompareRow(ColumnOf(RecordCreatedAt), ColumnOf(Uri), op, index, index + 1)],
                                        [Str(value), Str(uri)])),
                    index, true, PastCursor(env.engine, op, Nullable(env.row.createdAt), env.row.uri, Cursor(value, uri)))
  {
    hide *;
    var c, params := CompareRow(ColumnOf(RecordCreatedAt), ColumnOf(Uri), op, index, index + 1), [Str(value), Str(uri)];
    RowHoles(d, op, index, params);
    SingleKeeps(env, d, c, index, params);
    RowReads(env, op, index, Cursor(value, uri));
    SelectsOne(env, d, c, index, params, PastCursor(env.engine, op, Nullable(env.row.createdAt), env.row.uri, Cursor(value, uri)));
  }

  lemma RowHoles(d: Dialect, op: Op, index: nat, params: seq<Value>)
    requires |params| == 2
    ensures var c := CompareRow(ColumnOf(RecordCreatedAt), ColumnOf(Uri), op, index, index + 1);
            Holes(c) == [index, index + 1] && Numbered(d, Holes(c), index, params) && Bound(d, Holes(c), index, params) == params
  {
  }

  lemma RowReads(env: Env, op: Op, index: nat, cursor: Cursor)
    ensures var c := CompareRow(ColumnOf(RecordCreatedAt), ColumnOf(Uri), op, index, index + 1);
            && |Holes(c)| == 2
            && (Eval(env, c, [Str(cursor.value), Str(cursor.uri)]) == True
                <==> PastCursor(env.engine, op, Nullable(env.row.createdAt), env.row.uri, cursor))
  {
  }

  lemma SelectsOne(env: Env, d: Dialect, c: Cond, index: nat, params: seq<Value>, kept: bool)
    requires HolesOf([c]) == Holes(c) && Numbered(d, Holes(c), index, params)
    requires Keeps(env, d, [c], index, params) <==> kept
    ensures Selects(env, d, Ok(Fragment([c], params)), index, true, kept)
  {
    hide HolesOf, Holes, Numbered, Keeps;
  }

  lemma NullnessMeaning(env: Env, d: Dialect, isNull: bool, index: nat)
    ensures Selects(env, d, Ok(Fragment([if isNull then IsNull(ColumnOf(RecordCreatedAt)) else IsNotNull(ColumnOf(RecordCreatedAt))], [])),
                    index, true, env.row.createdAt.None? <==> isNull)
  {
    SingleKeeps(env, d, if isNull then IsNull(ColumnOf(RecordCreatedAt)) else IsNotNull(ColumnOf(RecordCreatedAt)), index, []);
  }

  /** Each range of a continuation selects its segment of the rows. */
  lemma RangeIsSegment(env: Env, d: Dialect, direction: string, cursor: Cursor, index: nat, i: nat)
    requires OrdersText(env.engine)
    ensures var ascending := direction == "ASC";
            var key := if cursor.value == "" then Key(None, cursor.uri) else Key(Some(cursor.value), cursor.uri);
            var ranges := CreatedAtSegments(direction, cursor, index);
            && |ranges| == (if TwoSegments(ascending, key) then 2 else 1)
            && (i < |ranges| ==>
                  Selects(env, d, Ok(ranges[i]), index, true, InSegment(ascending, key, i, Key(env.row.createdAt, env.row.uri))))
  {
    hide Selects, Before;
    var ascending := direction == "ASC";
    var op := if ascending then Gt else Lt;
    UndatedMeaning(env, d, op, cursor.uri, index);
    DatedMeaning(env, d, op, cursor.value, cursor.uri, index);
    NullnessMeaning(env, d, ascending, index);
    NullnessMeaning(env, d, !ascending, index);
    if cursor.value != "" && env.row.createdAt.Some? {
      PastCursorIsAfter(env.engine, op, env.row.createdAt.value, env.row.uri, cursor);
    }
  }

  // ----- Pages -----

  /** URIs are the primary key of the record table, and a datetime is never the empty text. */
  ghost predicate ValidTable(env: Env) {
    forall uri :: uri in env.records ==> env.records[uri].uri == uri && env.records[uri].createdAt != Some("")
  }

  function At(env: Env, uri: string): Env
    requires uri in env.records
  {
    env.(row := env.records[uri])
  }

  /** The rows a statement selects. */
  ghost function RowsWhere(env: Env, d: Dialect, where: Fragment, sort: Option<SortOption>): set<Key>
    requires ColumnSort(sort) && Numbered(d, HolesOf(where.where), 1, where.params)
  {
    set uri | uri in env.records && Keeps(At(env, uri), d, where.where, 1, where.params) :: KeyOf(env.records[uri], sort)
  }

  /** The rows that the direct reading of the query keeps. */
  ghost function Matching(env: Env, d: Dialect, q: Query, sort: Option<SortOption>): set<Key>
    requires ColumnSort(sort)
  {
    set uri | uri in env.records && QueryReads(At(env, uri), d, q) :: KeyOf(env.records[uri], sort)
  }

  /** The sorts whose general cursor follows ORDER BY; any direction will do for record_created_at. */
  predicate WalkableSort(sort: Option<SortOption>) {
    && ColumnSort(sort)
    && (SortField(sort) == CREATED_AT || sort.None? || sort.value.direction in {"ASC", "DESC"})
  }

  ghost predicate AllNumbered(d: Dialect, segments: seq<Fragment>) {
    forall i :: 0 <= i < |segments| ==> Numbered(d, HolesOf(segments[i].where), 1, segments[i].params)
  }

  /** What each statement of a page returns without its limit. */
  ghost function PageRows(env: Env, d: Dialect, segments: seq<Fragment>, sort: Option<SortOption>): (rows: seq<seq<Key>>)
    requires ColumnSort(sort) && AllNumbered(d, segments)
    ensures |rows| == |segments|
  {
    seq(|segments|, i requires 0 <= i < |segments| => Sorted(RowsWhere(env, d, segments[i], sort), Ascending(sort)))
  }

  function KeyOfCursor(sort: Option<SortOption>, cursor: Option<Cursor>): Option<Key> {
    if cursor.None? then None else Some(CursorKey(sort, cursor.value))
  }

  lemma GeneralRows(env: Env, d: Dialect, q: Query, sort: Option<SortOption>, cursor: Option<Cursor>)
    requires TextIsText(env.engine) && OrdersText(env.engine) && ValidTable(env) && WalkableSort(sort)
    requires cursor.Some? ==> SortField(sort) != CREATED_AT
    requires Where(d, q, sort, cursor).Ok?
    ensures var where := Where(d, q, sort, cursor).value;
            && Numbered(d, HolesOf(where.where), 1, where.params)
            && RowsWhere(env, d, where, sort) == Rest(Matching(env, d, q, sort), Ascending(sort), KeyOfCursor(sort, cursor))
  {
    hide *;
    var where := Where(d, q, sort, cursor).value;
    GeneralNumbered(env, d, q, sort, cursor);
    forall uri | uri in env.records
      ensures Keeps(At(env, uri), d, where.where, 1, where.params)
              <==> QueryReads(At(env, uri), d, q)
                   && (cursor.Some? ==> Order(Ascending(sort))(CursorKey(sort, cursor.value), KeyOf(env.records[uri], sort)))
    {
      GeneralKeeps(env, d, q, sort, cursor, uri);
    }
    GeneralRest(env, d, q, sort, cursor, where);
  }

  lemma GeneralNumbered(env: Env, d: Dialect, q: Query, sort: Option<SortOption>, cursor: Option<Cursor>)
    requires TextIsText(env.engine) && WalkableSort(sort) && Where(d, q, sort, cursor).Ok?
    ensures ColumnSort(sort)
    ensures var where := Where(d, q, sort, cursor).value; Numbered(d, HolesOf(where.where), 1, where.params)
  {
    WhereIsReading(env, d, q, sort, cursor);
    hide Where, QueryReads, Keeps, Numbered, HolesOf;
  }

  lemma GeneralKeeps(env: Env, d: Dialect, q: Query, sort: Option<SortOption>, cursor: Option<Cursor>, uri: string)
    requires TextIsText(env.engine) && OrdersText(env.engine) && WalkableSort(sort) && ColumnSort(sort)
    requires cursor.Some? ==> SortField(sort) != CREATED_AT
    requires uri in env.records && Where(d, q, sort, cursor).Ok?
    requires var where := Where(d, q, sort, cursor).value; Numbered(d, HolesOf(where.where), 1, where.params)
    ensures var where := Where(d, q, sort, cursor).value;
            Keeps(At(env, uri), d, where.where, 1, where.params)
            <==> QueryReads(At(env, uri), d, q)
                 && (cursor.Some? ==> Order(Ascending(sort))(CursorKey(sort, cursor.value), KeyOf(env.records[uri], sort)))
  {
    WhereIsReading(At(env, uri), d, q, sort, cursor);
    if cursor.Some? {
      GeneralCursorReads(At(env, uri), sort, cursor.value);
    }
    hide Where, QueryReads, Keeps, Numbered, HolesOf, Order, KeyOf, CursorKey;
  }

  lemma GeneralRest(env: Env, d: Dialect, q: Query, sort: Option<SortOption>, cursor: Option<Cursor>, where: Fragment)
    requires ColumnSort(sort) && Numbered(d, HolesOf(where.where), 1, where.params)
    requires forall uri :: uri in env.records ==>
               (Keeps(At(env, uri), d, where.where, 1, where.params)
                <==> QueryReads(At(env, uri), d, q)
                     && (cursor.Some? ==> Order(Ascending(sort))(CursorKey(sort, cursor.value), KeyOf(env.records[uri], sort))))
    ensures RowsWhere(env, d, where, sort) == Rest(Matching(env, d, q, sort), Ascending(sort), KeyOfCursor(sort, cursor))
  {
    hide QueryReads, Keeps, Numbered, HolesOf, Order, KeyOf, CursorKey, ColumnSort, Ascending, At;
  }

  lemma GeneralCursorReads(env: Env, sort: Option<SortOption>, cursor: Cursor)
    requires OrdersText(env.engine) && WalkableSort(sort) && SortField(sort) != CREATED_AT
    ensures CursorReads(env, sort, Some(cursor))
            <==> Order(Ascending(sort))(CursorKey(sort, cursor), KeyOf(env.row, sort))
  {
    PastCursorIsAfter(env.engine, CursorOp(sort), KeyOf(env.row, sort).value.value, env.row.uri, cursor);
  }

  lemma SegmentRowsAre(env: Env, d: Dialect, q: Query, sort: Option<SortOption>, cursor: Cursor, i: nat)
    requires TextIsText(env.engine) && OrdersText(env.engine) && ValidTable(env)
    requires SortField(sort) == CREATED_AT && Where(d, q, sort, Some(cursor)).Ok?
    requires i < |CreatedAtSegments(sort.value.direction, cursor, 1 + |Where(d, q, sort, Some(cursor)).value.params|)|
    ensures var where := Where(d, q, sort, Some(cursor)).value;
            var range := CreatedAtSegments(sort.value.direction, cursor, 1 + |where.params|)[i];
            && Numbered(d, HolesOf(Append(where, range).where), 1, Append(where, range).params)
            && RowsWhere(env, d, Append(where, range), sort)
               == SegmentRows(Matching(env, d, q, sort), Ascending(sort), CursorKey(sort, cursor), i)
  {
    var where := Where(d, q, sort, Some(cursor)).value;
    var range := CreatedAtSegments(sort.value.direction, cursor, 1 + |where.params|)[i];
    var all := Append(where, range);
    assert ColumnSort(sort);
    hide *;
    SegmentKeepsRows(env, d, q, sort, cursor, i, all);
    RowsAreSegment(env, d, q, sort, CursorKey(sort, cursor), i, all);
  }

  lemma SegmentKeepsRows(env: Env, d: Dialect, q: Query, sort: Option<SortOption>, cursor: Cursor, i: nat, all: Fragment)
    requires TextIsText(env.engine) && OrdersText(env.engine)
    requires SortField(sort) == CREATED_AT && ColumnSort(sort) && Where(d, q, sort, Some(cursor)).Ok?
    requires i < |CreatedAtSegments(sort.value.direction, cursor, 1 + |Where(d, q, sort, Some(cursor)).value.params|)|
    requires var where := Where(d, q, sort, Some(cursor)).value;
             all == Append(where, CreatedAtSegments(sort.value.direction, cursor, 1 + |where.params|)[i])
    ensures Numbered(d, HolesOf(all.where), 1, all.params)
    ensures forall uri :: uri in env.records ==>
              (Keeps(At(env, uri), d, all.where, 1, all.params)
               <==> QueryReads(At(env, uri), d, q)
                    && InSegment(Ascending(sort), CursorKey(sort, cursor), i, KeyOf(env.records[uri], sort)))
  {
    hide Where, QueryReads, Keeps, HolesOf, InSegment, KeyOf, CreatedAtSegments, Append, CursorKey, Ascending, ColumnSort, Numbered,
         SortField, TextIsText, OrdersText;
    SegmentKeeps(env, d, q, sort, cursor, i);
    forall uri | uri in env.records
      ensures Keeps(At(env, uri), d, all.where, 1, all.params)
              <==> QueryReads(At(env, uri), d, q)
                   && InSegment(Ascending(sort), CursorKey(sort, cursor), i, KeyOf(env.records[uri], sort))
    {
      SegmentKeeps(At(env, uri), d, q, sort, cursor, i);
    }
  }

  lemma RowsAreSegment(env: Env, d: Dialect, q: Query, sort: Option<SortOption>, key: Key, i: nat, all: Fragment)
    requires ColumnSort(sort) && Numbered(d, HolesOf(all.where), 1, all.params)
    requires forall uri :: uri in env.records ==>
               (Keeps(At(env, uri), d, all.where, 1, all.params)
                <==> QueryReads(At(env, uri), d, q) && InSegment(Ascending(sort), key, i, KeyOf(env.records[uri], sort)))
    ensures RowsWhere(env, d, all, sort) == SegmentRows(Matching(env, d, q, sort), Ascending(sort), key, i)
  {
    hide QueryReads, Keeps, HolesOf, InSegment, KeyOf, Ascending, ColumnSort, Numbered, At;
  }

  lemma SegmentKeeps(env: Env, d: Dialect, q: Query, sort: Option<SortOption>, cursor: Cursor, i: nat)
    requires TextIsText(env.engine) && OrdersText(env.engine)
    requires SortField(sort) == CREATED_AT && Where(d, q, sort, Some(cursor)).Ok?
    requires i < |CreatedAtSegments(sort.value.direction, cursor, 1 + |Where(d, q, sort, Some(cursor)).value.params|)|
    ensures var where := Where(d, q, sort, Some(cursor)).value;
            var range := CreatedAtSegments(sort.value.direction, cursor, 1 + |where.params|)[i];
            Selects(env, d, Ok(Append(where, range)), 1, true,
                    QueryReads(env, d, q) && InSegment(Ascending(sort), CursorKey(sort, cursor), i, KeyOf(env.row, sort)))
  {
    var where := Where(d, q, sort, Some(cursor)).value;
    var range := CreatedAtSegments(sort.value.direction, cursor, 1 + |where.params|)[i];
    WhereIsReading(env, d, q, sort, Some(cursor));
    assert CursorReads(env, sort, Some(cursor));
    RangeIsSegment(env, d, sort.value.direction, cursor, 1 + |where.params|, i);
    var segment := InSegment(Ascending(sort), CursorKey(sort, cursor), i, KeyOf(env.row, sort));
    hide Where, QueryReads, Keeps, Numbered, HolesOf, InSegment, CreatedAtSegments, Append;
    AppendSelects(env, d, where, range, 1, QueryReads(env, d, q), segment);
  }

  /** For any table with unique URIs, any query, direction and cursor: the statements of a page, each
      sorted and read in order, give exactly the matching rows after the cursor in sort order. */
  lemma PageIsRest(env: Env, d: Dialect, q: Query, sort: Option<SortOption>, cursor: Option<Cursor>)
    requires TextIsText(env.engine) && OrdersText(env.engine) && ValidTable(env) && WalkableSort(sort)
    ensures var page := SortedRecordsPage(d, q, sort, cursor);
            && (page.Ok? <==> QueryValid(q))
            && (page.Ok? ==>
                  && AllNumbered(d, page.value)
                  && Flatten(PageRows(env, d, page.value, sort))
                     == Sorted(Rest(Matching(env, d, q, sort), Ascending(sort), KeyOfCursor(sort, cursor)), Ascending(sort)))
  {
    hide *;
    PageBuilds(env, d, q, sort, cursor);
    if QueryValid(q) {
      if cursor.Some? && SortField(sort) == CREATED_AT {
        CreatedAtPage(env, d, q, sort, cursor.value);
        CursorIsKey(sort, cursor.value);
      } else {
        GeneralPage(env, d, q, sort, cursor);
      }
    }
  }

  lemma CursorIsKey(sort: Option<SortOption>, cursor: Cursor)
    ensures KeyOfCursor(sort, Some(cursor)) == Some(CursorKey(sort, cursor))
  {
  }

  lemma PageBuilds(env: Env, d: Dialect, q: Query, sort: Option<SortOption>, cursor: Option<Cursor>)
    requires TextIsText(env.engine) && WalkableSort(sort)
    ensures ColumnSort(sort)
    ensures Where(d, q, sort, cursor).Ok? <==> QueryValid(q)
    ensures SortedRecordsPage(d, q, sort, cursor).Ok? <==> QueryValid(q)
  {
    WhereBuilds(env, d, q, sort, cursor);
    hide Where, QueryValid, CreatedAtSegments, Append;
  }

  /** Any other page is one statement. */
  lemma GeneralPage(env: Env, d: Dialect, q: Query, sort: Option<SortOption>, cursor: Option<Cursor>)
    requires TextIsText(env.engine) && OrdersText(env.engine) && ValidTable(env) && WalkableSort(sort) && ColumnSort(sort)
    requires cursor.Some? ==> SortField(sort) != CREATED_AT
    requires Where(d, q, sort, cursor).Ok?
    ensures var page := SortedRecordsPage(d, q, sort, cursor);
            && page.Ok? && AllNumbered(d, page.value)
            && Flatten(PageRows(env, d, page.value, sort))
               == Sorted(Rest(Matching(env, d, q, sort), Ascending(sort), KeyOfCursor(sort, cursor)), Ascending(sort))
  {
    GeneralShape(d, q, sort, cursor);
    var where := Where(d, q, sort, cursor).value;
    hide *;
    GeneralRows(env, d, q, sort, cursor);
    OneStatement(env, d, where, sort);
  }

  lemma GeneralShape(d: Dialect, q: Query, sort: Option<SortOption>, cursor: Option<Cursor>)
    requires WalkableSort(sort) && (cursor.Some? ==> SortField(sort) != CREATED_AT) && Where(d, q, sort, cursor).Ok?
    ensures SortedRecordsPage(d, q, sort, cursor) == Ok([Where(d, q, sort, cursor).value])
  {
    hide Where;
  }

  lemma OneStatement(env: Env, d: Dialect, where: Fragment, sort: Option<SortOption>)
    requires ColumnSort(sort) && Numbered(d, HolesOf(where.where), 1, where.params)
    ensures AllNumbered(d, [where])
    ensures Flatten(PageRows(env, d, [where], sort)) == Sorted(RowsWhere(env, d, where, sort), Ascending(sort))
  {
    hide Numbered, HolesOf, RowsWhere, Flatten, ColumnSort, Sorted;
    var rows := Sorted(RowsWhere(env, d, where, sort), Ascending(sort));
    assert PageRows(env, d, [where], sort) == [rows];
    FlattenOne(rows);
  }

  lemma WhereBuilds(env: Env, d: Dialect, q: Query, sort: Option<SortOption>, cursor: Option<Cursor>)
    requires TextIsText(env.engine)
    ensures Where(d, q, sort, cursor).Ok? <==> QueryValid(q)
  {
    WhereIsReading(env, d, q, sort, cursor);
    hide Where, QueryValid;
  }

  lemma CreatedAtPage(env: Env, d: Dialect, q: Query, sort: Option<SortOption>, cursor: Cursor)
    requires TextIsText(env.engine) && OrdersText(env.engine) && ValidTable(env)
    requires SortField(sort) == CREATED_AT && Where(d, q, sort, Some(cursor)).Ok?
    ensures var page := SortedRecordsPage(d, q, sort, Some(cursor));
            && page.Ok? && AllNumbered(d, page.value)
            && Flatten(PageRows(env, d, page.value, sort))
               == Sorted(Rest(Matching(env, d, q, sort), Ascending(sort), Some(CursorKey(sort, cursor))), Ascending(sort))
  {
    hide *;
    CreatedAtShape(d, q, sort, cursor);
    var where := Where(d, q, sort, Some(cursor)).value;
    var ranges := CreatedAtSegments(sort.value.direction, cursor, 1 + |where.params|);
    var two := TwoSegments(Ascending(sort), CursorKey(sort, cursor));
    SegmentRowsAre(env, d, q, sort, cursor, 0);
    if two {
      SegmentRowsAre(env, d, q, sort, cursor, 1);
      PageRowsAreSegments(env, d, q, sort, cursor, [Append(where, ranges[0]), Append(where, ranges[1])]);
    } else {
      PageRowsAreSegments(env, d, q, sort, cursor, [Append(where, ranges[0])]);
    }
    SegmentsAreRest(Matching(env, d, q, sort), Ascending(sort), CursorKey(sort, cursor));
  }

  lemma CreatedAtShape(d: Dialect, q: Query, sort: Option<SortOption>, cursor: Cursor)
    requires SortField(sort) == CREATED_AT && Where(d, q, sort, Some(cursor)).Ok?
    ensures sort.Some?
    ensures var where := Where(d, q, sort, Some(cursor)).value;
            var ranges := CreatedAtSegments(sort.value.direction, cursor, 1 + |where.params|);
            var page := SortedRecordsPage(d, q, sort, Some(cursor));
            && (|ranges| == 1 ==> page == Ok([Append(where, ranges[0])]))
            && (|ranges| == 2 ==> page == Ok([Append(where, ranges[0]), Append(where, ranges[1])]))
    ensures var where := Where(d, q, sort, Some(cursor)).value;
            |CreatedAtSegments(sort.value.direction, cursor, 1 + |where.params|)|
            == if TwoSegments(Ascending(sort), CursorKey(sort, cursor)) then 2 else 1
    ensures ColumnSort(sort)
  {
    hide Where, Append;
    var where := Where(d, q, sort, Some(cursor)).value;
    var ranges := CreatedAtSegments(sort.value.direction, cursor, 1 + |where.params|);
    assert |ranges| == if TwoSegments(Ascending(sort), CursorKey(sort, cursor)) then 2 else 1;
    hide CreatedAtSegments;
    var page := SortedRecordsPage(d, q, sort, Some(cursor)).value;
    if |ranges| == 1 {
      assert page == [Append(where, ranges[0])];
    } else {
      assert page == [Append(where, ranges[0]), Append(where, ranges[1])];
    }
  }

  lemma PageRowsAreSegments(env: Env, d: Dialect, q: Query, sort: Option<SortOption>, cursor: Cursor, page: seq<Fragment>)
    requires ColumnSort(sort) && |page| == if TwoSegments(Ascending(sort), CursorKey(sort, cursor)) then 2 else 1
    requires forall i: nat :: i < |page| ==>
               && Numbered(d, HolesOf(page[i].where), 1, page[i].params)
               && RowsWhere(env, d, page[i], sort)
                  == SegmentRows(Matching(env, d, q, sort), Ascending(sort), CursorKey(sort, cursor), i)
    ensures AllNumbered(d, page)
    ensures PageRows(env, d, page, sort) == Segments(Matching(env, d, q, sort), Ascending(sort), CursorKey(sort, cursor))
  {
    hide Numbered, HolesOf, RowsWhere, SegmentRows, Matching, Sorted, CursorKey, TwoSegments;
    assert AllNumbered(d, page);
  }

  type Database = (Fragment, nat) -> Result<seq<Key>>

  /** The database answers a statement, if it answers, with the first selected rows in ORDER BY order. */
  ghost predicate Answers(query: Database, env: Env, d: Dialect, sort: Option<SortOption>)
    requires ColumnSort(sort)
  {
    forall where: Fragment, n: nat {:trigger query(where, n)} ::
      Numbered(d, HolesOf(where.where), 1, where.params) && query(where, n).Ok? ==>
        query(where, n).value == Take(Sorted(RowsWhere(env, d, where, sort), Ascending(sort)), n)
  }

  /** A forward page: the first `limit` matching rows after the cursor. */
  method ReadSortedPage(query: Database, ghost env: Env, d: Dialect, q: Query, sort: Option<SortOption>,
                        cursor: Option<Cursor>, limit: nat) returns (r: Result<seq<Key>>)
    requires TextIsText(env.engine) && OrdersText(env.engine) && ValidTable(env) && WalkableSort(sort)
    requires Answers(query, env, d, sort)
    ensures r.Err? <==> !QueryValid(q) || PageRefused(query, env, d, q, sort, cursor, limit)
    ensures r.Ok? ==> r.value == PageOf(Matching(env, d, q, sort), Ascending(sort), KeyOfCursor(sort, cursor), limit)
  {
    assert ColumnSort(sort);
    hide *;
    var page := SortedRecordsPage(d, q, sort, cursor);
    PageIsRest(env, d, q, sort, cursor);
    if page.Err? {
      return Err(page.error);
    }
    var segments := page.value;
    var read := (i: nat, n: nat) => if i < |segments| then query(segments[i], n) else Ok([]);
    SegmentReads(query, read, env, d, sort, segments);
    SegmentRefuses(query, read, env, d, q, sort, cursor, limit);
    r := ReadSegments(limit, |segments|, read, PageRows(env, d, segments, sort));
    PageOfRest(env, d, q, sort, cursor, limit);
  }

  /** The database fails one of the requests that the page makes. */
  ghost predicate PageRefused(query: Database, env: Env, d: Dialect, q: Query, sort: Option<SortOption>,
                              cursor: Option<Cursor>, limit: nat)
    requires ColumnSort(sort)
  {
    var page := SortedRecordsPage(d, q, sort, cursor);
    && page.Ok? && AllNumbered(d, page.value)
    && exists i: nat, n: nat :: Asked(PageRows(env, d, page.value, sort), limit, i, n) && query(page.value[i], n).Err?
  }

  lemma SegmentRefuses(query: Database, read: Reader<Key>, env: Env, d: Dialect, q: Query, sort: Option<SortOption>,
                       cursor: Option<Cursor>, limit: nat)
    requires ColumnSort(sort) && SortedRecordsPage(d, q, sort, cursor).Ok?
    requires AllNumbered(d, SortedRecordsPage(d, q, sort, cursor).value)
    requires var segments := SortedRecordsPage(d, q, sort, cursor).value;
             forall i: nat, n: nat :: i < |segments| ==> read(i, n) == query(segments[i], n)
    ensures var rows := PageRows(env, d, SortedRecordsPage(d, q, sort, cursor).value, sort);
            (exists i: nat, n: nat :: Asked(rows, limit, i, n) && read(i, n).Err?)
            <==> PageRefused(query, env, d, q, sort, cursor, limit)
  {
    hide SortedRecordsPage, AllNumbered, Shortfall, ColumnSort, PageRows;
    var segments := SortedRecordsPage(d, q, sort, cursor).value;
    var rows := PageRows(env, d, segments, sort);
    if i: nat, n: nat :| Asked(rows, limit, i, n) && read(i, n).Err? {
      assert query(segments[i], n).Err?;
    }
    if PageRefused(query, env, d, q, sort, cursor, limit) {
      var i: nat, n: nat :| Asked(rows, limit, i, n) && query(segments[i], n).Err?;
      assert read(i, n).Err?;
    }
  }

  lemma PageOfRest(env: Env, d: Dialect, q: Query, sort: Option<SortOption>, cursor: Option<Cursor>, limit: nat)
    requires ColumnSort(sort)
    ensures PageOf(Matching(env, d, q, sort), Ascending(sort), KeyOfCursor(sort, cursor), limit)
            == Take(Sorted(Rest(Matching(env, d, q, sort), Ascending(sort), KeyOfCursor(sort, cursor)), Ascending(sort)), limit)
  {
  }

  lemma SegmentReads(query: Database, read: Reader<Key>, env: Env, d: Dialect, sort: Option<SortOption>, segments: seq<Fragment>)
    requires ColumnSort(sort) && AllNumbered(d, segments) && Answers(query, env, d, sort)
    requires forall i: nat, n: nat :: i < |segments| ==> read(i, n) == query(segments[i], n)
    ensures Reads(read, PageRows(env, d, segments, sort))
  {
    hide Numbered, HolesOf, RowsWhere, Sorted, Take;
  }

  /** Following cursors: the cursor made from a matching row stands for that row. */
  lemma RowCursor(env: Env, d: Dialect, q: Query, sort: Option<SortOption>, k: Key)
    requires ValidTable(env) && ColumnSort(sort) && k in Matching(env, d, q, sort)
    ensures KeyOfCursor(sort, Some(CursorOf(k))) == Some(k)
  {
    hide QueryReads;
    var uri :| uri in env.records && k == KeyOf(env.records[uri], sort);
    CursorRoundTrip(sort, k);
  }

  /** Reads everything: asks for one row more than a page shows, and follows the cursor of its last row
      while there is more. It ends, and the pages put together are all matching rows, once each, in order. */
  method ReadAll(query: Database, ghost env: Env, d: Dialect, q: Query, sort: Option<SortOption>, n: nat)
    returns (r: Result<seq<seq<Key>>>)
    requires TextIsText(env.engine) && OrdersText(env.engine) && ValidTable(env) && WalkableSort(sort)
    requires Answers(query, env, d, sort) && n > 0
    ensures r.Ok? ==> Flatten(r.value) == Sorted(Matching(env, d, q, sort), Ascending(sort))
    ensures r.Ok? ==> FullPages(r.value, n, false)
    ensures r.Err? ==> !QueryValid(q) || SomePageRefused(query, env, d, q, sort, n + 1)
  {
    assert ColumnSort(sort);
    hide *;
    ghost var rows, ascending := Matching(env, d, q, sort), Ascending(sort);
    var pages: seq<seq<Key>> := [];
    var cursor: Option<Cursor> := None;
    var more := true;
    NothingShown(rows, ascending, sort, n);
    while more
      invariant FullPages(pages, n, more)
      invariant if more then Shown(pages, rows, ascending, KeyOfCursor(sort, cursor)) else Flatten(pages) == Sorted(rows, ascending)
      decreases more, Rest(rows, ascending, KeyOfCursor(sort, cursor))
    {
      var page := ReadSortedPage(query, env, d, q, sort, cursor, n + 1);
      if page.Err? {
        SomeCursor(query, env, d, q, sort, cursor, n + 1);
        return Err(page.error);
      }
      if |page.value| <= n {
        LastPage(pages, rows, ascending, KeyOfCursor(sort, cursor), n);
        pages, more := pages + [page.value], false;
      } else {
        NextPage(pages, rows, ascending, KeyOfCursor(sort, cursor), n);
        RowCursor(env, d, q, sort, page.value[n - 1]);
        pages, cursor := pages + [page.value[..n]], Some(CursorOf(page.value[n - 1]));
      }
    }
    return Ok(pages);
  }

  /** All pages have `n` rows, the last one perhaps fewer. */
  predicate FullPages(pages: seq<seq<Key>>, n: nat, more: bool) {
    forall i :: 0 <= i < |pages| ==> |pages[i]| <= n && (more || i < |pages| - 1 ==> |pages[i]| == n)
  }

  /** The pages show the rows up to the cursor. */
  ghost predicate Shown(pages: seq<seq<Key>>, rows: set<Key>, ascending: bool, cursor: Option<Key>) {
    Flatten(pages) + Sorted(Rest(rows, ascending, cursor), ascending) == Sorted(rows, ascending)
  }

  ghost predicate SomePageRefused(query: Database, env: Env, d: Dialect, q: Query, sort: Option<SortOption>, limit: nat)
    requires ColumnSort(sort)
  {
    exists cursor :: PageRefused(query, env, d, q, sort, cursor, limit)
  }

  lemma SomeCursor(query: Database, env: Env, d: Dialect, q: Query, sort: Option<SortOption>, cursor: Option<Cursor>, limit: nat)
    requires ColumnSort(sort)
    ensures PageRefused(query, env, d, q, sort, cursor, limit) ==> SomePageRefused(query, env, d, q, sort, limit)
  {
    hide PageRefused;
  }

  lemma NothingShown(rows: set<Key>, ascending: bool, sort: Option<SortOption>, n: nat)
    ensures Shown([], rows, ascending, KeyOfCursor(sort, None)) && FullPages([], n, true)
  {
    hide Sorted;
  }

  lemma LastPage(pages: seq<seq<Key>>, rows: set<Key>, ascending: bool, cursor: Option<Key>, n: nat)
    requires Shown(pages, rows, ascending, cursor) && FullPages(pages, n, true) && |PageOf(rows, ascending, cursor, n + 1)| <= n
    ensures var all := pages + [PageOf(rows, ascending, cursor, n + 1)];
            Flatten(all) == Sorted(rows, ascending) && FullPages(all, n, false)
  {
    hide Sorted, Rest, Flatten;
    AppendPage(pages, PageOf(rows, ascending, cursor, n + 1));
  }

  lemma OneMoreFull(pages: seq<seq<Key>>, page: seq<Key>, n: nat)
    requires FullPages(pages, n, true) && |page| == n
    ensures FullPages(pages + [page], n, true)
  {
  }

  lemma NextPage(pages: seq<seq<Key>>, rows: set<Key>, ascending: bool, cursor: Option<Key>, n: nat)
    requires Shown(pages, rows, ascending, cursor) && FullPages(pages, n, true) && 0 < n < |PageOf(rows, ascending, cursor, n + 1)|
    ensures var page := PageOf(rows, ascending, cursor, n + 1);
            var next := Some(page[n - 1]);
            && page[n - 1] in rows
            && Shown(pages + [page[..n]], rows, ascending, next) && FullPages(pages + [page[..n]], n, true)
            && Rest(rows, ascending, next) < Rest(rows, ascending, cursor)
  {
    hide Sorted, Rest, Flatten, PageOf, FullPages;
    AppendPage(pages, PageOf(rows, ascending, cursor, n + 1)[..n]);
    OneMoreFull(pages, PageOf(rows, ascending, cursor, n + 1)[..n], n);
    RestShrinks(rows, ascending, cursor, n);
    PageRow(rows, ascending, cursor, n + 1, n - 1);
  }

  lemma AppendPage(pages: seq<seq<Key>>, page: seq<Key>)
    ensures Flatten(pages + [page]) == Flatten(pages) + page
  {
    FlattenConcat(pages, [page]);
    FlattenOne(page);
  }

  lemma PageRow(rows: set<Key>, ascending: bool, cursor: Option<Key>, limit: nat, i: nat)
    requires i < |PageOf(rows, ascending, cursor, limit)|
    ensures PageOf(rows, ascending, cursor, limit)[i] in rows
  {
    hide Order;
    var all := Sorted(Rest(rows, ascending, cursor), ascending);
    assert all[i] in Sorting.Elements(all);
  }

  /** URIs are unique, so distinct rows have distinct keys. */
  lemma KeysAreRows(env: Env, sort: Option<SortOption>, a: string, b: string)
    requires ValidTable(env) && ColumnSort(sort) && a in env.records && b in env.records
    ensures KeyOf(env.records[a], sort) == KeyOf(env.records[b], sort) ==> a == b
  {
    assert KeyOf(env.records[a], sort).uri == a && KeyOf(env.records[b], sort).uri == b;
  }

  function ReverseSort(sort: Option<SortOption>): Option<SortOption> {
    if sort.None? then Some(SortOption("indexed_at", "ASC"))
    else Some(SortOption(sort.value.field, if sort.value.direction == "ASC" then "DESC" else "ASC"))
  }

  lemma ReverseSortMatches(env: Env, d: Dialect, q: Query, sort: Option<SortOption>, cursor: Option<Cursor>)
    requires ColumnSort(sort)
    ensures WalkableSort(ReverseSort(sort)) && Ascending(ReverseSort(sort)) == !Ascending(sort)
    ensures Matching(env, d, q, ReverseSort(sort)) == Matching(env, d, q, sort)
    ensures KeyOfCursor(ReverseSort(sort), cursor) == KeyOfCursor(sort, cursor)
  {
    hide QueryReads;
    forall uri | uri in env.records ensures KeyOf(env.records[uri], ReverseSort(sort)) == KeyOf(env.records[uri], sort) {
    }
  }

  /** The last `limit` of a list. */
  function Last<T>(s: seq<T>, limit: nat): seq<T> {
    s[if limit <= |s| then |s| - limit else 0..]
  }

  ghost function RowsBefore(rows: set<Key>, ascending: bool, cursor: Option<Key>): set<Key> {
    if cursor.None? then rows else set k | k in rows && Order(ascending)(k, cursor.value)
  }

  /** A backward page: the last `limit` matching rows before the cursor, in the original order. */
  method ReadReversedPage(query: Database, ghost env: Env, d: Dialect, q: Query, sort: Option<SortOption>,
                          cursor: Option<Cursor>, limit: nat) returns (r: Result<seq<Key>>)
    requires TextIsText(env.engine) && OrdersText(env.engine) && ValidTable(env) && ColumnSort(sort)
    requires ColumnSort(ReverseSort(sort)) && Answers(query, env, d, ReverseSort(sort))
    ensures r.Err? <==> !QueryValid(q) || PageRefused(query, env, d, q, ReverseSort(sort), cursor, limit)
    ensures r.Ok? ==>
              r.value == Last(Sorted(RowsBefore(Matching(env, d, q, sort), Ascending(sort), KeyOfCursor(sort, cursor)), Ascending(sort)), limit)
  {
    hide *;
    ReverseSortMatches(env, d, q, sort, cursor);
    var page := ReadSortedPage(query, env, d, q, ReverseSort(sort), cursor, limit);
    if page.Err? {
      return page;
    }
    var records := new Key[|page.value|](i requires 0 <= i < |page.value| => page.value[i]);
    assert records[..] == page.value;
    ReverseInPlace(records);
    BackwardPageIsLast(Matching(env, d, q, sort), Ascending(sort), KeyOfCursor(sort, cursor), limit);
    return Ok(records[..]);
  }

  lemma BackwardPageIsLast(rows: set<Key>, ascending: bool, cursor: Option<Key>, limit: nat)
    ensures Sorting.Reversed(PageOf(rows, !ascending, cursor, limit)) == Last(Sorted(RowsBefore(rows, ascending, cursor), ascending), limit)
  {
    hide Order, Sorted, PageOf, Sorting.Reversed;
    BackwardPage(rows, ascending, cursor, limit);
  }
}
