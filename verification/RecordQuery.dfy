/** The WHERE clauses of a page of records: collection, cursor, field, DID and label filters in one
    numbering, and the direct reading they agree with. */
module RecordQuery {
  import opened Text
  import opened Sql
  import opened RecordFilter
  import ActiveLabels

  datatype DIDFilter = DIDFilter(eq: string, among: seq<string>)

  datatype LabelStringFilter = LabelStringFilter(operator: string, value: GoValue)

  datatype LabelPredicate = LabelPredicate(sources: seq<LabelStringFilter>, values: seq<LabelStringFilter>, activeOnly: bool)

  datatype SubjectFilter = SubjectFilter(has: Option<LabelPredicate>, none: Option<LabelPredicate>)

  datatype LabelFilterSet = LabelFilterSet(record: SubjectFilter, author: SubjectFilter)

  const NOTHING := Fragment([], [])

  // ----- DID filter -----

  function DidClause(f: DIDFilter, index: nat): Result<Fragment> {
    if f.eq != "" then Ok(Fragment([Compare(ColumnOf(Did), Eq, index)], [Str(f.eq)]))
    else if f.among == [] then Ok(NOTHING)
    else if |f.among| > ActiveLabels.MAX_IN_LIST_SIZE then Err("DID filter IN list exceeds maximum")
    else Ok(Fragment([InList(ColumnOf(Did), Range(index, |f.among|))], Texts(f.among)))
  }

  predicate DidValid(f: DIDFilter) {
    f.eq != "" || |f.among| <= ActiveLabels.MAX_IN_LIST_SIZE
  }

  /** The record's author is the one asked for, or one of those listed; EQ wins over IN. */
  predicate DidReads(env: Env, f: DIDFilter) {
    if f.eq != "" then Equals(env.engine, Str(env.row.did), Str(f.eq))
    else f.among != [] ==> AnyEquals(env.engine, Str(env.row.did), f.among)
  }

  lemma DidMeaning(env: Env, d: Dialect, f: DIDFilter, index: nat)
    ensures Selects(env, d, DidClause(f, index), index, DidValid(f), DidReads(env, f))
  {
    if f.eq != "" {
      var c := Compare(ColumnOf(Did), Eq, index);
      OneHole(env, d, c, index, Str(f.eq));
      SingleKeeps(env, d, c, index, [Str(f.eq)]);
    } else if f.among == [] {
      EmptyKeeps(env, d, index);
    } else if |f.among| <= ActiveLabels.MAX_IN_LIST_SIZE {
      ListOfTexts(env, d, ColumnOf(Did), index, f.among);
    }
  }

  lemma ListOfTexts(env: Env, d: Dialect, e: Expr, index: nat, texts: seq<string>)
    ensures Selects(env, d, Ok(Fragment([InList(e, Range(index, |texts|))], Texts(texts))), index, true,
                    AnyEquals(env.engine, ExprValue(env, e), texts))
  {
    var c := InList(e, Range(index, |texts|));
    BoundRange(d, index, Texts(texts));
    SingleKeeps(env, d, c, index, Texts(texts));
    AmongTexts(env.engine, ExprValue(env, e), texts);
    hide Bound, Numbered, Among, AnyEquals, Range, Texts;
  }

  // ----- Label filters -----

  function LabelTexts(v: GoValue): Result<seq<string>> {
    match v
    case GoStrings(texts, _) => Ok(texts)
    case GoList(items, _) =>
      if exists item :: item in items && !item.GoString? then Err("IN filter value must contain strings")
      else
        assert forall i :: 0 <= i < |items| ==> items[i] in items;
        Ok(seq(|items|, i requires 0 <= i < |items| => items[i].s))
    case _ => Err("IN filter value must be a string list")
  }

  function LabelStringCondition(column: Expr, f: LabelStringFilter, index: nat): Result<Fragment> {
    if f.operator in {"eq", "neq"} then
      if !f.value.GoString? then Err("label filter value must be a string")
      else Ok(Fragment([Compare(column, if f.operator == "eq" then Eq else Neq, index)], [Str(f.value.s)]))
    else if f.operator == "in" then
      match LabelTexts(f.value)
      case Err(e) => Err(e)
      case Ok(texts) =>
        if texts == [] then Ok(Fragment([Never], []))
        else if |texts| > ActiveLabels.MAX_IN_LIST_SIZE then Err("label filter IN list exceeds maximum")
        else Ok(Fragment([InList(column, Range(index, |texts|))], Texts(texts)))
    else if f.operator == "contains" then
      if !f.value.GoString? then Err("label filter value must be a string")
      else Ok(Fragment([LikeHole(column, index)], [Str("%" + Like.EscapeLIKE(f.value.s) + "%")]))
    else if f.operator == "startsWith" then
      if !f.value.GoString? then Err("label filter value must be a string")
      else Ok(Fragment([LikeHole(column, index)], [Str(Like.EscapeLIKE(f.value.s) + "%")]))
    else if f.operator == "isNull" then
      Ok(Fragment([if f.value == GoBool(true) then IsNull(column) else IsNotNull(column)], []))
    else Err("unsupported label filter operator")
  }

  predicate LabelStringValid(f: LabelStringFilter) {
    || (f.operator in {"eq", "neq", "contains", "startsWith"} && f.value.GoString?)
    || (f.operator == "in" && LabelTexts(f.value).Ok? && |LabelTexts(f.value).value| <= ActiveLabels.MAX_IN_LIST_SIZE)
    || f.operator == "isNull"
  }

  /** What a label filter says about a source or value. */
  predicate LabelStringReads(engine: Engine, f: LabelStringFilter, found: Value) {
    if f.operator == "in" then LabelTexts(f.value).Ok? && AnyEquals(engine, found, LabelTexts(f.value).value)
    else if f.operator == "isNull" then (found == Null) <==> f.value == GoBool(true)
    else
      && found != Null && f.value.GoString?
      && (f.operator == "eq" ==> engine.holds(Eq, found, Str(f.value.s)))
      && (f.operator == "neq" ==> engine.holds(Neq, found, Str(f.value.s)))
      && (f.operator == "contains" ==> Like.Contains(engine.text(found), f.value.s, engine.same))
      && (f.operator == "startsWith" ==> Like.StartsWith(engine.text(found), f.value.s, engine.same))
  }

  /** The same condition as a filter on a field. */
  function AsField(f: LabelStringFilter): FieldFilter {
    FieldFilter("", [], [], f.operator, f.value, "string", "json")
  }

  lemma LabelInMeaning(env: Env, d: Dialect, column: Expr, f: LabelStringFilter, index: nat)
    requires LabelStringValid(f) && f.operator == "in"
    ensures Selects(env, d, LabelStringCondition(column, f, index), index, true,
                    LabelStringReads(env.engine, f, ExprValue(env, column)))
  {
    var texts := LabelTexts(f.value).value;
    hide Bound, Numbered, Eval, EvalAll, Range, Texts, LabelTexts, Selects, ExprValue;
    if texts == [] {
      NeverSelects(env, d, index);
    } else {
      ListOfTexts(env, d, column, index, texts);
    }
  }

  lemma NeverSelects(env: Env, d: Dialect, index: nat)
    ensures Selects(env, d, Ok(Fragment([Never], [])), index, true, false)
  {
    SingleKeeps(env, d, Never, index, []);
  }

  lemma LabelNullMeaning(env: Env, d: Dialect, column: Expr, f: LabelStringFilter, index: nat)
    requires f.operator == "isNull"
    ensures Selects(env, d, LabelStringCondition(column, f, index), index, true,
                    LabelStringReads(env.engine, f, ExprValue(env, column)))
  {
    SingleKeeps(env, d, if f.value == GoBool(true) then IsNull(column) else IsNotNull(column), index, []);
  }

  lemma LabelStringIsScalar(engine: Engine, d: Dialect, column: Expr, f: LabelStringFilter, index: nat, found: Value)
    requires LabelStringValid(f) && f.operator in {"eq", "neq", "contains", "startsWith"}
    ensures ScalarValid(AsField(f))
    ensures LabelStringCondition(column, f, index) == ScalarCondition(d, column, AsField(f), index)
    ensures LabelStringReads(engine, f, found) == ScalarReads(engine, d, AsField(f), found)
  {
    hide Like.Contains, Like.StartsWith, Like.EscapeLIKE;
  }

  lemma LabelStringMeaning(env: Env, d: Dialect, column: Expr, f: LabelStringFilter, index: nat)
    requires TextIsText(env.engine)
    ensures Selects(env, d, LabelStringCondition(column, f, index), index, LabelStringValid(f),
                    LabelStringReads(env.engine, f, ExprValue(env, column)))
  {
    LabelStringBuilds(column, f, index);
    hide Selects, LabelStringCondition, LabelStringReads, ScalarCondition, ScalarReads, ScalarValid, ExprValue, LabelTexts;
    if !LabelStringValid(f) {
      RefusedSelects(env, d, index);
    } else if f.operator == "in" {
      LabelInMeaning(env, d, column, f, index);
    } else if f.operator == "isNull" {
      LabelNullMeaning(env, d, column, f, index);
    } else {
      ScalarMeaning(env, d, column, AsField(f), index);
      LabelStringIsScalar(env.engine, d, column, f, index, ExprValue(env, column));
    }
  }

  lemma LabelStringBuilds(column: Expr, f: LabelStringFilter, index: nat)
    ensures LabelStringCondition(column, f, index).Ok? <==> LabelStringValid(f)
  {
    hide LabelTexts, Range, Texts, Like.EscapeLIKE;
  }

  function LabelConditions(column: Expr, filters: seq<LabelStringFilter>, index: nat): Result<Fragment> {
    if filters == [] then Ok(NOTHING)
    else
      match LabelStringCondition(column, filters[0], index)
      case Err(e) => Err(e)
      case Ok(first) => AppendTo(first, LabelConditions(column, filters[1..], index + |first.params|))
  }

  predicate AllValid(filters: seq<LabelStringFilter>) {
    forall f :: f in filters ==> LabelStringValid(f)
  }

  predicate AllRead(engine: Engine, filters: seq<LabelStringFilter>, found: Value) {
    forall f :: f in filters ==> LabelStringReads(engine, f, found)
  }

  /** Clauses chain: what follows a valid clause is numbered after it. */
  lemma ChainSelects(env: Env, d: Dialect, first: Result<Fragment>, rest: Result<Fragment>, index: nat,
                     valid1: bool, kept1: bool, valid2: bool, kept2: bool)
    requires Selects(env, d, first, index, valid1, kept1)
    requires first.Ok? ==> Selects(env, d, rest, index + |first.value.params|, valid2, kept2)
    ensures first.Ok? ==> Selects(env, d, AppendTo(first.value, rest), index, valid1 && valid2, kept1 && kept2)
    ensures first.Err? ==> !valid1
  {
    hide Numbered, Keeps, HolesOf, Append;
    if first.Ok? && rest.Ok? {
      AppendSelects(env, d, first.value, rest.value, index, kept1, kept2);
    }
  }

  lemma RefusedSelects(env: Env, d: Dialect, index: nat)
    ensures forall e, kept :: Selects(env, d, Err(e), index, false, kept)
  {
  }

  lemma {:induction false} LabelConditionsMeaning(env: Env, d: Dialect, column: Expr, filters: seq<LabelStringFilter>, index: nat)
    requires TextIsText(env.engine)
    ensures Selects(env, d, LabelConditions(column, filters, index), index, AllValid(filters),
                    AllRead(env.engine, filters, ExprValue(env, column)))
  {
    hide Selects, LabelStringCondition, LabelStringValid, LabelStringReads, ExprValue, AppendTo;
    if filters == [] {
      EmptyKeeps(env, d, index);
    } else {
      var f, rest := filters[0], filters[1..];
      assert forall g :: g in filters <==> g == f || g in rest by {
        assert filters == [f] + rest;
      }
      var first, found := LabelStringCondition(column, f, index), ExprValue(env, column);
      LabelStringMeaning(env, d, column, f, index);
      RefusedSelects(env, d, index);
      if first.Ok? {
        LabelConditionsMeaning(env, d, column, rest, index + |first.value.params|);
        ChainSelects(env, d, first, LabelConditions(column, rest, index + |first.value.params|), index,
                     LabelStringValid(f), LabelStringReads(env.engine, f, found), AllValid(rest), AllRead(env.engine, rest, found));
      } else {
        ChainSelects(env, d, first, first, index, LabelStringValid(f), LabelStringReads(env.engine, f, found), true, true);
      }
    }
  }

  /** The number of the first placeholder after a clause. */
  function After(r: Result<Fragment>, index: nat): nat {
    if r.Ok? then index + |r.value.params| else index
  }

  /** One clause, then another. */
  function Then(first: Result<Fragment>, rest: Result<Fragment>): Result<Fragment> {
    if first.Err? then first else AppendTo(first.value, rest)
  }

  lemma ThenSelects(env: Env, d: Dialect, first: Result<Fragment>, index: nat, rest: Result<Fragment>,
                    valid1: bool, kept1: bool, valid2: bool, kept2: bool)
    requires Selects(env, d, first, index, valid1, kept1)
    requires Selects(env, d, rest, After(first, index), valid2, kept2)
    ensures Selects(env, d, Then(first, rest), index, valid1 && valid2, kept1 && kept2)
  {
    hide Selects, AppendTo;
    ChainSelects(env, d, first, rest, index, valid1, kept1, valid2, kept2);
    RefusedSelects(env, d, index);
  }

  function SubjectClause(author: bool): Result<Fragment> {
    Ok(Fragment([if author then LabelOnAuthor else LabelOnRecord], []))
  }

  function ActiveClause(activeOnly: bool): Result<Fragment> {
    Ok(Fragment(if activeOnly then [LabelActive] else [], []))
  }

  function LabelSubquery(author: bool, p: LabelPredicate, index: nat): Result<Fragment> {
    var sources := LabelConditions(LabelSource, p.sources, index);
    var values := LabelConditions(LabelValue, p.values, After(sources, index));
    Then(SubjectClause(author), Then(sources, Then(values, ActiveClause(p.activeOnly))))
  }

  predicate LabelValid(p: LabelPredicate) {
    AllValid(p.sources) && AllValid(p.values)
  }

  /** The label is on the record, or on its author, and meets the predicate. */
  predicate LabelMatches(env: Env, author: bool, p: LabelPredicate, l: ActiveLabels.Row) {
    && LabelFits(author, l.entry, env.row)
    && AllRead(env.engine, p.sources, Str(l.entry.src))
    && AllRead(env.engine, p.values, Str(l.entry.val))
    && (p.activeOnly ==> ActiveLabels.Active(env.labels, env.now, l))
  }

  lemma SubqueryMeaning(env: Env, d: Dialect, author: bool, p: LabelPredicate, index: nat, l: ActiveLabels.Row)
    requires TextIsText(env.engine)
    ensures Selects(env.(entryRow := Some(l)), d, LabelSubquery(author, p, index), index, LabelValid(p),
                    LabelMatches(env, author, p, l))
  {
    var e := env.(entryRow := Some(l));
    var sources := LabelConditions(LabelSource, p.sources, index);
    var i := After(sources, index);
    var values := LabelConditions(LabelValue, p.values, i);
    var j := After(values, i);
    SubjectSelects(e, d, author, index, l);
    ActiveSelects(e, d, p.activeOnly, j, l);
    LabelConditionsMeaning(e, d, LabelSource, p.sources, index);
    LabelConditionsMeaning(e, d, LabelValue, p.values, i);
    LabelColumns(e, l);
    SubqueryIs(author, p, index);
    MatchIs(env, author, p, l);
    hide *;
    var isActive := p.activeOnly ==> ActiveLabels.Active(env.labels, env.now, l);
    var valueRead, sourceRead := AllRead(env.engine, p.values, Str(l.entry.val)), AllRead(env.engine, p.sources, Str(l.entry.src));
    ThenSelects(e, d, values, i, ActiveClause(p.activeOnly), AllValid(p.values), valueRead, true, isActive);
    ThenSelects(e, d, sources, index, Then(values, ActiveClause(p.activeOnly)), AllValid(p.sources), sourceRead,
                AllValid(p.values) && true, valueRead && isActive);
    ThenSelects(e, d, SubjectClause(author), index, Then(sources, Then(values, ActiveClause(p.activeOnly))),
                true, LabelFits(author, l.entry, env.row),
                AllValid(p.sources) && (AllValid(p.values) && true), sourceRead && (valueRead && isActive));
  }

  lemma LabelColumns(e: Env, l: ActiveLabels.Row)
    requires e.entryRow == Some(l)
    ensures ExprValue(e, LabelSource) == Str(l.entry.src) && ExprValue(e, LabelValue) == Str(l.entry.val)
  {
  }

  lemma SubqueryIs(author: bool, p: LabelPredicate, index: nat)
    ensures var sources := LabelConditions(LabelSource, p.sources, index);
            var values := LabelConditions(LabelValue, p.values, After(sources, index));
            LabelSubquery(author, p, index)
            == Then(SubjectClause(author), Then(sources, Then(values, ActiveClause(p.activeOnly))))
    ensures LabelValid(p) <==> AllValid(p.sources) && AllValid(p.values)
  {
  }

  lemma MatchIs(env: Env, author: bool, p: LabelPredicate, l: ActiveLabels.Row)
    ensures LabelMatches(env, author, p, l)
            <==> LabelFits(author, l.entry, env.row)
                 && (AllRead(env.engine, p.sources, Str(l.entry.src))
                     && (AllRead(env.engine, p.values, Str(l.entry.val))
                         && (p.activeOnly ==> ActiveLabels.Active(env.labels, env.now, l))))
  {
    hide LabelFits, AllRead, ActiveLabels.Active;
  }

  lemma SubjectSelects(e: Env, d: Dialect, author: bool, index: nat, l: ActiveLabels.Row)
    requires e.entryRow == Some(l)
    ensures Selects(e, d, SubjectClause(author), index, true, LabelFits(author, l.entry, e.row))
    ensures After(SubjectClause(author), index) == index
  {
    SingleKeeps(e, d, if author then LabelOnAuthor else LabelOnRecord, index, []);
  }

  lemma ActiveSelects(e: Env, d: Dialect, activeOnly: bool, index: nat, l: ActiveLabels.Row)
    requires e.entryRow == Some(l)
    ensures Selects(e, d, ActiveClause(activeOnly), index, true,
                    activeOnly ==> ActiveLabels.Active(e.labels, e.now, l))
  {
    hide ActiveLabels.Active;
    if activeOnly {
      SingleKeeps(e, d, LabelActive, index, []);
    } else {
      EmptyKeeps(e, d, index);
    }
  }

  /** EXISTS or NOT EXISTS a label of the subject that meets the predicate. */
  function SubjectExists(author: bool, p: Option<LabelPredicate>, wanted: bool, index: nat): Result<Fragment> {
    if p.None? then Ok(NOTHING)
    else
      match LabelSubquery(author, p.value, index)
      case Err(e) => Err(e)
      case Ok(sub) => Ok(Fragment([if wanted then SomeLabel(sub.where) else NoLabel(sub.where)], sub.params))
  }

  predicate SubjectReads(env: Env, author: bool, p: Option<LabelPredicate>, wanted: bool) {
    p.Some? ==> ((exists l :: l in env.labels && LabelMatches(env, author, p.value, l)) <==> wanted)
  }

  predicate OptionValid(p: Option<LabelPredicate>) {
    p.Some? ==> LabelValid(p.value)
  }

  lemma SubjectMeaning(env: Env, d: Dialect, author: bool, p: Option<LabelPredicate>, wanted: bool, index: nat)
    requires TextIsText(env.engine)
    ensures Selects(env, d, SubjectExists(author, p, wanted, index), index, OptionValid(p), SubjectReads(env, author, p, wanted))
  {
    if p.None? {
      EmptyKeeps(env, d, index);
    } else {
      var sub := LabelSubquery(author, p.value, index);
      var anyLabel := ActiveLabels.Row(0, ActiveLabels.Label("", "", None, "", false, 0, None));
      SubqueryMeaning(env, d, author, p.value, index, anyLabel);
      if sub.Ok? {
        forall l | l in env.labels
          ensures Keeps(env.(entryRow := Some(l)), d, sub.value.where, index, sub.value.params)
                  <==> LabelMatches(env, author, p.value, l)
        {
          SubqueryMeaning(env, d, author, p.value, index, l);
        }
        hide LabelMatches, LabelSubquery;
        SubjectClauseKeeps(env, d, sub.value, wanted, index);
      }
    }
  }

  lemma SubjectClauseKeeps(env: Env, d: Dialect, sub: Fragment, wanted: bool, index: nat)
    requires Numbered(d, HolesOf(sub.where), index, sub.params)
    ensures var c := if wanted then SomeLabel(sub.where) else NoLabel(sub.where);
            && Numbered(d, HolesOf([c]), index, sub.params)
            && (Keeps(env, d, [c], index, sub.params)
                <==> ((exists l :: l in env.labels && Keeps(env.(entryRow := Some(l)), d, sub.where, index, sub.params)) <==> wanted))
  {
    var c := if wanted then SomeLabel(sub.where) else NoLabel(sub.where);
    assert Holes(c) == HolesOf(sub.where);
    SingleKeeps(env, d, c, index, sub.params);
    var values := Bound(d, HolesOf(sub.where), index, sub.params);
    hide Bound, Numbered, HolesOf, EvalAll;
  }

  function LabelSetClause(f: LabelFilterSet, index: nat): Result<Fragment> {
    var recordHas := SubjectExists(false, f.record.has, true, index);
    var i := After(recordHas, index);
    var recordNone := SubjectExists(false, f.record.none, false, i);
    var j := After(recordNone, i);
    var authorHas := SubjectExists(true, f.author.has, true, j);
    var k := After(authorHas, j);
    Then(recordHas, Then(recordNone, Then(authorHas, SubjectExists(true, f.author.none, false, k))))
  }

  predicate LabelSetValid(f: LabelFilterSet) {
    OptionValid(f.record.has) && OptionValid(f.record.none) && OptionValid(f.author.has) && OptionValid(f.author.none)
  }

  predicate LabelSetReads(env: Env, f: LabelFilterSet) {
    && SubjectReads(env, false, f.record.has, true) && SubjectReads(env, false, f.record.none, false)
    && SubjectReads(env, true, f.author.has, true) && SubjectReads(env, true, f.author.none, false)
  }

  /** The label clause keeps the records with the labels asked for and without those excluded. */
  lemma LabelSetMeaning(env: Env, d: Dialect, f: LabelFilterSet, index: nat)
    requires TextIsText(env.engine)
    ensures Selects(env, d, LabelSetClause(f, index), index, LabelSetValid(f), LabelSetReads(env, f))
  {
    hide Selects, Then, After, SubjectExists, SubjectReads, OptionValid;
    var recordHas := SubjectExists(false, f.record.has, true, index);
    var i := After(recordHas, index);
    var recordNone := SubjectExists(false, f.record.none, false, i);
    var j := After(recordNone, i);
    var authorHas := SubjectExists(true, f.author.has, true, j);
    var k := After(authorHas, j);
    var authorNone := SubjectExists(true, f.author.none, false, k);
    var reads1, reads2 := SubjectReads(env, false, f.record.has, true), SubjectReads(env, false, f.record.none, false);
    var reads3, reads4 := SubjectReads(env, true, f.author.has, true), SubjectReads(env, true, f.author.none, false);
    SubjectMeaning(env, d, false, f.record.has, true, index);
    SubjectMeaning(env, d, false, f.record.none, false, i);
    SubjectMeaning(env, d, true, f.author.has, true, j);
    SubjectMeaning(env, d, true, f.author.none, false, k);
    ThenSelects(env, d, authorHas, j, authorNone, OptionValid(f.author.has), reads3, OptionValid(f.author.none), reads4);
    ThenSelects(env, d, recordNone, i, Then(authorHas, authorNone), OptionValid(f.record.none), reads2,
                OptionValid(f.author.has) && OptionValid(f.author.none), reads3 && reads4);
    ThenSelects(env, d, recordHas, index, Then(recordNone, Then(authorHas, authorNone)), OptionValid(f.record.has), reads1,
                OptionValid(f.record.none) && (OptionValid(f.author.has) && OptionValid(f.author.none)),
                reads2 && (reads3 && reads4));
  }

  // ----- The page query -----

  datatype SortOption = SortOption(field: string, direction: string)

  /** A cursor: the sort value and URI of the last row seen; an undated row's value is empty. */
  datatype Cursor = Cursor(value: string, uri: string)

  datatype Query = Query(collection: string, filters: seq<FieldFilter>, did: DIDFilter, labels: LabelFilterSet, validOnly: bool)

  const CREATED_AT := "record_created_at"

  function DirectColumn(field: string): Option<Column> {
    if field == "indexed_at" then Some(IndexedAt) else if field == "uri" then Some(Uri)
    else if field == "did" then Some(Did) else if field == "collection" then Some(Collection)
    else if field == "cid" then Some(Cid) else if field == "rkey" then Some(Rkey) else None
  }

  function SortField(sort: Option<SortOption>): string {
    if sort.None? then "indexed_at" else sort.value.field
  }

  function SortExpr(field: string): Expr {
    if DirectColumn(field).Some? then ColumnOf(DirectColumn(field).value) else JsonAt([field])
  }

  /** Sorting by a JSON field writes its name into the statement. */
  predicate SortValid(sort: Option<SortOption>) {
    SortField(sort) == CREATED_AT || DirectColumn(SortField(sort)).Some? || ValidName(SortField(sort))
  }

  /** The comparison a general cursor uses. */
  function CursorOp(sort: Option<SortOption>): Op {
    if sort.None? || sort.value.direction == "DESC" then Lt else Gt
  }

  /** `(field op v OR (field = v AND uri op u))`, the value bound twice. */
  function CursorClause(sort: Option<SortOption>, cursor: Cursor, index: nat): Fragment {
    var e, op := SortExpr(SortField(sort)), CursorOp(sort);
    Fragment([CursorCond(e, op, index)],
             [Str(cursor.value), Str(cursor.value), Str(cursor.uri)])
  }

  /** The ranges that follow a record_created_at cursor, in reading order. */
  function CreatedAtSegments(direction: string, cursor: Cursor, index: nat): seq<Fragment> {
    var ascending := direction == "ASC";
    var op := if ascending then Gt else Lt;
    if cursor.value == "" then
      var undated := Fragment([IsNull(ColumnOf(RecordCreatedAt)), Compare(ColumnOf(Uri), op, index)], [Str(cursor.uri)]);
      if ascending then [undated, Fragment([IsNotNull(ColumnOf(RecordCreatedAt))], [])] else [undated]
    else
      var dated := Fragment([CompareRow(ColumnOf(RecordCreatedAt), ColumnOf(Uri), op, index, index + 1)],
                            [Str(cursor.value), Str(cursor.uri)]);
      if ascending then [dated] else [dated, Fragment([IsNull(ColumnOf(RecordCreatedAt))], [])]
  }

  function Base(q: Query): Result<Fragment> {
    Ok(Fragment([Compare(ColumnOf(Collection), Eq, 1)] + if q.validOnly then [ColumnIs(ValidationStatus, "valid")] else [],
                [Str(q.collection)]))
  }

  function GeneralCursor(sort: Option<SortOption>, cursor: Option<Cursor>): Result<Fragment> {
    if cursor.Some? && SortField(sort) != CREATED_AT then Ok(CursorClause(sort, cursor.value, 2)) else Ok(NOTHING)
  }

  /** Everything but the record_created_at ranges, numbered from 1. */
  function Where(d: Dialect, q: Query, sort: Option<SortOption>, cursor: Option<Cursor>): Result<Fragment> {
    var general := GeneralCursor(sort, cursor);
    var i := After(general, 2);
    var filters := Compile(d, q.filters, 0, i);
    var j := After(filters, i);
    var did := DidClause(q.did, j);
    var k := After(did, j);
    Then(Base(q), Then(general, Then(filters, Then(did, LabelSetClause(q.labels, k)))))
  }

  /** The statements of a page, each with its own parameters. */
  function SortedRecordsPage(d: Dialect, q: Query, sort: Option<SortOption>, cursor: Option<Cursor>): Result<seq<Fragment>> {
    if !SortValid(sort) then Err("invalid JSON field name")
    else
      match Where(d, q, sort, cursor)
      case Err(e) => Err(e)
      case Ok(where) =>
        if cursor.Some? && SortField(sort) == CREATED_AT then
          var ranges := CreatedAtSegments(sort.value.direction, cursor.value, 1 + |where.params|);
          Ok(seq(|ranges|, i requires 0 <= i < |ranges| => Append(where, ranges[i])))
        else Ok([where])
  }

  /** A query that can be built. */
  ghost predicate QueryValid(q: Query) {
    (forall f :: f in q.filters ==> ValidFilter(f)) && DidValid(q.did) && LabelSetValid(q.labels)
  }

  /** The direct reading of a query. */
  ghost predicate QueryReads(env: Env, d: Dialect, q: Query) {
    && Equals(env.engine, Str(env.row.collection), Str(q.collection)) && (q.validOnly ==> env.row.status == "valid")
    && FiltersRead(env, d, q.filters) && DidReads(env, q.did) && LabelSetReads(env, q.labels)
  }

  /** The row lies past the cursor in the direction of the comparison. */
  predicate PastCursor(engine: Engine, op: Op, found: Value, uri: string, cursor: Cursor) {
    found != Null
    && (engine.holds(op, found, Str(cursor.value))
        || (engine.holds(Eq, found, Str(cursor.value)) && engine.holds(op, Str(uri), Str(cursor.uri))))
  }

  ghost predicate CursorReads(env: Env, sort: Option<SortOption>, cursor: Option<Cursor>) {
    cursor.Some? && SortField(sort) != CREATED_AT ==>
      PastCursor(env.engine, CursorOp(sort), ExprValue(env, SortExpr(SortField(sort))), env.row.uri, cursor.value)
  }

  lemma CollectionSelects(env: Env, d: Dialect, q: Query)
    ensures Selects(env, d, Ok(Fragment([Compare(ColumnOf(Collection), Eq, 1)], [Str(q.collection)])), 1, true,
                    Equals(env.engine, Str(env.row.collection), Str(q.collection)))
  {
    var c := Compare(ColumnOf(Collection), Eq, 1);
    OneHole(env, d, c, 1, Str(q.collection));
    SingleKeeps(env, d, c, 1, [Str(q.collection)]);
  }

  lemma StatusSelects(env: Env, d: Dialect, validOnly: bool, index: nat)
    ensures Selects(env, d, Ok(Fragment(if validOnly then [ColumnIs(ValidationStatus, "valid")] else [], [])), index, true,
                    validOnly ==> env.row.status == "valid")
  {
    if validOnly {
      SingleKeeps(env, d, ColumnIs(ValidationStatus, "valid"), index, []);
    } else {
      EmptyKeeps(env, d, index);
    }
  }

  lemma BaseMeaning(env: Env, d: Dialect, q: Query)
    ensures Selects(env, d, Base(q), 1, true,
                    Equals(env.engine, Str(env.row.collection), Str(q.collection)) && (q.validOnly ==> env.row.status == "valid"))
    ensures After(Base(q), 1) == 2
  {
    hide Selects, Equals;
    var collection := Fragment([Compare(ColumnOf(Collection), Eq, 1)], [Str(q.collection)]);
    var status := Fragment(if q.validOnly then [ColumnIs(ValidationStatus, "valid")] else [], []);
    CollectionSelects(env, d, q);
    StatusSelects(env, d, q.validOnly, 2);
    AppendSelects(env, d, collection, status, 1, Equals(env.engine, Str(env.row.collection), Str(q.collection)),
                  q.validOnly ==> env.row.status == "valid");
    assert Base(q) == Ok(Append(collection, status)) by {
      assert collection.params + status.params == collection.params;
    }
  }

  lemma CursorMeaning(env: Env, d: Dialect, sort: Option<SortOption>, cursor: Option<Cursor>)
    ensures Selects(env, d, GeneralCursor(sort, cursor), 2, true, CursorReads(env, sort, cursor))
  {
    if cursor.Some? && SortField(sort) != CREATED_AT {
      CursorClauseKeeps(env, d, sort, cursor.value, 2);
    } else {
      EmptyKeeps(env, d, 2);
    }
  }

  lemma CursorClauseKeeps(env: Env, d: Dialect, sort: Option<SortOption>, cursor: Cursor, index: nat)
    ensures Selects(env, d, Ok(CursorClause(sort, cursor, index)), index, true,
                    PastCursor(env.engine, CursorOp(sort), ExprValue(env, SortExpr(SortField(sort))), env.row.uri, cursor))
  {
    var e, op := SortExpr(SortField(sort)), CursorOp(sort);
    hide SortExpr, CursorOp, SortField, Eval, Holes, PastCursor;
    var c := CursorClause(sort, cursor, index).where[0];
    var params := [Str(cursor.value), Str(cursor.value), Str(cursor.uri)];
    CursorHoles(e, op, index);
    SingleKeeps(env, d, c, index, params);
    assert Bound(d, Holes(c), index, params) == params;
    CursorEval(env, e, op, index, cursor);
  }

  function CursorCond(e: Expr, op: Op, index: nat): Cond {
    AnyOf([Compare(e, op, index), AllOf([Compare(e, Eq, index + 1), Compare(ColumnOf(Uri), op, index + 2)])])
  }

  lemma CursorHoles(e: Expr, op: Op, index: nat)
    ensures Holes(CursorCond(e, op, index)) == [index, index + 1, index + 2]
  {
    var a, b1, b2 := Compare(e, op, index), Compare(e, Eq, index + 1), Compare(ColumnOf(Uri), op, index + 2);
    var both := AllOf([b1, b2]);
    assert [b1, b2][1..] == [b2] && [a, both][1..] == [both] && [b2][1..] == [] && [both][1..] == [];
    assert HolesOf([b2]) == [index + 2];
    assert HolesOf([b1, b2]) == [index + 1, index + 2];
    assert Holes(both) == [index + 1, index + 2];
    assert HolesOf([both]) == [index + 1, index + 2];
    assert HolesOf([a, both]) == [index, index + 1, index + 2];
  }

  lemma CursorEval(env: Env, e: Expr, op: Op, index: nat, cursor: Cursor)
    ensures var c, params := CursorCond(e, op, index), [Str(cursor.value), Str(cursor.value), Str(cursor.uri)];
            && |Holes(c)| == |params|
            && (Eval(env, c, params) == True <==> PastCursor(env.engine, op, ExprValue(env, e), env.row.uri, cursor))
  {
    CursorHoles(e, op, index);
    var a, b1, b2 := Compare(e, op, index), Compare(e, Eq, index + 1), Compare(ColumnOf(Uri), op, index + 2);
    var v, u := Str(cursor.value), Str(cursor.uri);
    hide HolesOf, EvalAll, EvalAny;
    AllTwo(env, b1, b2, [v], [u]);
    assert [v] + [u] == [v, u] && [v] + [v, u] == [v, v, u];
    AnyTwo(env, a, AllOf([b1, b2]), [v], [v, u]);
  }

  lemma AllTwo(env: Env, a: Cond, b: Cond, va: seq<Value>, vb: seq<Value>)
    requires |va| == |Holes(a)| && |vb| == |Holes(b)|
    ensures |Holes(AllOf([a, b]))| == |va + vb|
    ensures Eval(env, AllOf([a, b]), va + vb) == True <==> Eval(env, a, va) == True && Eval(env, b, vb) == True
  {
    EvalSingle(env, a, va);
    EvalSingle(env, b, vb);
    EvalConcat(env, [a], [b], va, vb);
    assert [a] + [b] == [a, b];
    hide HolesOf, EvalAll;
  }

  lemma AnyTwo(env: Env, a: Cond, b: Cond, va: seq<Value>, vb: seq<Value>)
    requires |va| == |Holes(a)| && |vb| == |Holes(b)|
    ensures |Holes(AnyOf([a, b]))| == |va + vb|
    ensures Eval(env, AnyOf([a, b]), va + vb) == True <==> Eval(env, a, va) == True || Eval(env, b, vb) == True
  {
    var parts, values := [a, b], va + vb;
    assert parts[1..] == [b] && [b][1..] == [];
    assert values[..|va|] == va && values[|va|..] == vb && vb[..|vb|] == vb && vb[|vb|..] == [];
    AnyIs(env, parts, values);
    AnyIs(env, [b], vb);
    AnyIs(env, [], []);
    hide Eval, EvalAny, Holes;
    assert Eval(env, AnyOf(parts), values) == EvalAny(env, parts, values) by {
      AnyOfIs(env, parts, values);
    }
  }

  lemma AnyIs(env: Env, parts: seq<Cond>, values: seq<Value>)
    ensures parts == [] ==> HolesOf(parts) == [] && (values == [] ==> EvalAny(env, parts, values) == False)
    ensures parts != [] ==> HolesOf(parts) == Holes(parts[0]) + HolesOf(parts[1..])
    ensures parts != [] && |values| == |HolesOf(parts)| ==>
              var n := |Holes(parts[0])|;
              EvalAny(env, parts, values) == Or(Eval(env, parts[0], values[..n]), EvalAny(env, parts[1..], values[n..]))
  {
    hide Eval, Holes;
  }

  lemma AnyOfIs(env: Env, parts: seq<Cond>, values: seq<Value>)
    requires |values| == |HolesOf(parts)|
    ensures Holes(AnyOf(parts)) == HolesOf(parts) && Eval(env, AnyOf(parts), values) == EvalAny(env, parts, values)
  {
    hide EvalAny, HolesOf;
  }

  /** Whatever is asked for, the shared part of a page keeps exactly the rows of the direct reading that
      lie past the cursor, and is built exactly for valid queries. */
  lemma WhereIsReading(env: Env, d: Dialect, q: Query, sort: Option<SortOption>, cursor: Option<Cursor>)
    requires TextIsText(env.engine)
    ensures Selects(env, d, Where(d, q, sort, cursor), 1, QueryValid(q), CursorReads(env, sort, cursor) && QueryReads(env, d, q))
  {
    hide *;
    var general := GeneralCursor(sort, cursor);
    var i := After(general, 2);
    var filters := Compile(d, q.filters, 0, i);
    var j := After(filters, i);
    var did := DidClause(q.did, j);
    var k := After(did, j);
    var labels := LabelSetClause(q.labels, k);
    BaseMeaning(env, d, q);
    CursorMeaning(env, d, sort, cursor);
    ClauseIsReading(env, d, q.filters, i);
    DidMeaning(env, d, q.did, j);
    LabelSetMeaning(env, d, q.labels, k);
    var filtersValid, filtersRead := forall f :: f in q.filters ==> ValidFilter(f), FiltersRead(env, d, q.filters);
    var didRead, labelsRead, past := DidReads(env, q.did), LabelSetReads(env, q.labels), CursorReads(env, sort, cursor);
    ThenSelects(env, d, did, j, labels, DidValid(q.did), didRead, LabelSetValid(q.labels), labelsRead);
    ThenSelects(env, d, filters, i, Then(did, labels), filtersValid, filtersRead,
                DidValid(q.did) && LabelSetValid(q.labels), didRead && labelsRead);
    ThenSelects(env, d, general, 2, Then(filters, Then(did, labels)), true, past,
                filtersValid && (DidValid(q.did) && LabelSetValid(q.labels)), filtersRead && (didRead && labelsRead));
    var base := Equals(env.engine, Str(env.row.collection), Str(q.collection)) && (q.validOnly ==> env.row.status == "valid");
    ThenSelects(env, d, Base(q), 1, Then(general, Then(filters, Then(did, labels))), true, base,
                true && (filtersValid && (DidValid(q.did) && LabelSetValid(q.labels))),
                past && (filtersRead && (didRead && labelsRead)));
    WhereParts(env, d, q, sort, cursor);
  }

  lemma WhereParts(env: Env, d: Dialect, q: Query, sort: Option<SortOption>, cursor: Option<Cursor>)
    ensures var general := GeneralCursor(sort, cursor);
            var i := After(general, 2);
            var filters := Compile(d, q.filters, 0, i);
            var j := After(filters, i);
            var did := DidClause(q.did, j);
            Where(d, q, sort, cursor)
            == Then(Base(q), Then(general, Then(filters, Then(did, LabelSetClause(q.labels, After(did, j))))))
    ensures QueryValid(q) == ((forall f :: f in q.filters ==> ValidFilter(f)) && DidValid(q.did) && LabelSetValid(q.labels))
    ensures QueryReads(env, d, q)
            == (Equals(env.engine, Str(env.row.collection), Str(q.collection)) && (q.validOnly ==> env.row.status == "valid")
                && FiltersRead(env, d, q.filters) && DidReads(env, q.did) && LabelSetReads(env, q.labels))
  {
    hide GeneralCursor, Compile, DidClause, LabelSetClause, Base, Then, After, ValidFilter, DidValid, LabelSetValid, FiltersRead,
         DidReads, LabelSetReads, Equals;
  }
}
