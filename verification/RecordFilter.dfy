/** Compiling record filters into SQL clauses with positional parameters, and the direct reading
    of the same filters that the clauses must agree with. */
module RecordFilter {
  import opened Text
  import opened Sql
  import ActiveLabels
  import Like

  /** A filter value as the GraphQL layer hands it over; `shown` is its `%v` form. */
  datatype GoValue =
    | GoString(s: string)
    | GoNumber(n: real, shown: string)
    | GoBool(b: bool)
    | GoNil
    | GoList(items: seq<GoValue>, shown: string)
    | GoStrings(texts: seq<string>, shown: string)
    | GoOther(shown: string)

  datatype FieldFilter = FieldFilter(field: string, path: seq<string>, arrayPath: seq<string>, operator: string,
                                     value: GoValue, fieldType: string, target: string)

  datatype Fragment = Fragment(where: seq<Cond>, params: seq<Value>)

  function Sprint(v: GoValue): string {
    match v
    case GoString(s) => s
    case GoBool(b) => if b then "true" else "false"
    case GoNil => "<nil>"
    case _ => v.shown
  }

  /** The bound form of a value; SQLite has no booleans. */
  function Bind(d: Dialect, v: GoValue): Value {
    match v
    case GoString(s) => Str(s)
    case GoNumber(n, _) => Number(n)
    case GoBool(b) => if d.SQLite? then Number(if b then 1.0 else 0.0) else Flag(b)
    case GoNil => Null
    case _ => Str(v.shown)
  }

  function BindAll(d: Dialect, items: seq<GoValue>): seq<Value> {
    seq(|items|, i requires 0 <= i < |items| => Bind(d, items[i]))
  }

  function Texts(values: seq<string>): seq<Value> {
    seq(|values|, i requires 0 <= i < |values| => Str(values[i]))
  }

  function Range(start: nat, count: nat): seq<nat> {
    seq(count, i requires 0 <= i < count => start + i)
  }

  predicate NameChar(c: char, first: bool) {
    'a' <= c <= 'z' || 'A' <= c <= 'Z' || c == '_' || (!first && '0' <= c <= '9')
  }

  /** The only names that may be written into a JSON path; any other one panics. */
  predicate ValidName(s: string) {
    s != "" && forall i :: 0 <= i < |s| ==> NameChar(s[i], i == 0)
  }

  predicate ValidPath(path: seq<string>) {
    forall name :: name in path ==> ValidName(name)
  }

  predicate IsNumeric(f: FieldFilter) {
    f.fieldType == "integer" || f.fieldType == "number"
  }

  function Comparison(operator: string): Option<Op> {
    if operator == "eq" then Some(Eq) else if operator == "neq" then Some(Neq)
    else if operator == "gt" then Some(Gt) else if operator == "lt" then Some(Lt)
    else if operator == "gte" then Some(Gte) else if operator == "lte" then Some(Lte)
    else None
  }

  // ----- Scalar conditions -----

  function ScalarCondition(d: Dialect, extract: Expr, f: FieldFilter, index: nat): Result<Fragment> {
    var e := if IsNumeric(f) then AsNumber(extract) else extract;
    if Comparison(f.operator).Some? then
      Ok(Fragment([Compare(e, Comparison(f.operator).value, index)], [Bind(d, f.value)]))
    else if f.operator == "contains" then
      Ok(Fragment([LikeHole(e, index)], [Str("%" + Like.EscapeLIKE(Sprint(f.value)) + "%")]))
    else if f.operator == "startsWith" then
      Ok(Fragment([LikeHole(e, index)], [Str(Like.EscapeLIKE(Sprint(f.value)) + "%")]))
    else if f.operator == "isNull" then
      if !f.value.GoBool? then Err("isNull filter must be a boolean")
      else Ok(Fragment([if f.value.b then IsNull(e) else IsNotNull(e)], []))
    else if f.operator == "in" then
      if !f.value.GoList? then Err("IN filter must be a list")
      else if f.value.items == [] then Ok(Fragment([Never], []))
      else if |f.value.items| > ActiveLabels.MAX_IN_LIST_SIZE then Err("IN filter exceeds maximum")
      else Ok(Fragment([InList(e, Range(index, |f.value.items|))], BindAll(d, f.value.items)))
    else Err("unsupported filter operator")
  }

  /** The filters the builder accepts. */
  predicate ScalarValid(f: FieldFilter) {
    || Comparison(f.operator).Some?
    || f.operator in {"contains", "startsWith"}
    || (f.operator == "isNull" && f.value.GoBool?)
    || (f.operator == "in" && f.value.GoList? && |f.value.items| <= ActiveLabels.MAX_IN_LIST_SIZE)
  }

  predicate Equals(engine: Engine, v: Value, w: Value) {
    v != Null && w != Null && engine.holds(Eq, v, w)
  }

  function Cast(engine: Engine, f: FieldFilter, v: Value): Value {
    if IsNumeric(f) then engine.number(v) else v
  }

  /** What a filter says about the value found in its place. */
  predicate ScalarReads(engine: Engine, d: Dialect, f: FieldFilter, found: Value) {
    var v := Cast(engine, f, found);
    if Comparison(f.operator).Some? then
      v != Null && Bind(d, f.value) != Null && engine.holds(Comparison(f.operator).value, v, Bind(d, f.value))
    else if f.operator == "contains" then v != Null && Like.Contains(engine.text(v), Sprint(f.value), engine.same)
    else if f.operator == "startsWith" then v != Null && Like.StartsWith(engine.text(v), Sprint(f.value), engine.same)
    else if f.operator == "isNull" then f.value.GoBool? && ((v == Null) <==> f.value.b)
    else f.value.GoList? && exists item :: item in f.value.items && Equals(engine, v, Bind(d, item))
  }

  /** Text reads as itself in both databases. */
  ghost predicate TextIsText(engine: Engine) {
    forall s :: engine.text(Str(s)) == s
  }

  lemma BoundRange(d: Dialect, start: nat, params: seq<Value>)
    ensures Numbered(d, Range(start, |params|), start, params)
    ensures Bound(d, Range(start, |params|), start, params) == params
  {
  }

  lemma ListKeeps(env: Env, d: Dialect, e: Expr, index: nat, params: seq<Value>)
    ensures HolesOf([InList(e, Range(index, |params|))]) == Range(index, |params|)
    ensures Numbered(d, Range(index, |params|), index, params)
    ensures Keeps(env, d, [InList(e, Range(index, |params|))], index, params)
            <==> exists v :: v in params && Equals(env.engine, ExprValue(env, e), v)
  {
    BoundRange(d, index, params);
    SingleKeeps(env, d, InList(e, Range(index, |params|)), index, params);
    AmongTrue(env.engine, ExprValue(env, e), params);
  }

  lemma SingleIn(env: Env, d: Dialect, e: Expr, f: FieldFilter, index: nat)
    requires f.operator == "in" && f.value.GoList?
    ensures (exists v :: v in BindAll(d, f.value.items) && Equals(env.engine, ExprValue(env, e), v))
            <==> exists item :: item in f.value.items && Equals(env.engine, ExprValue(env, e), Bind(d, item))
  {
    var items, bound := f.value.items, BindAll(d, f.value.items);
    forall i | 0 <= i < |items| ensures bound[i] == Bind(d, items[i]) {
    }
    if v :| v in bound && Equals(env.engine, ExprValue(env, e), v) {
      var i :| 0 <= i < |bound| && bound[i] == v;
      assert items[i] in items;
    }
    if item :| item in items && Equals(env.engine, ExprValue(env, e), Bind(d, item)) {
      var i :| 0 <= i < |items| && items[i] == item;
      assert bound[i] in bound;
    }
  }

  /** The one condition of a scalar clause, evaluated with the parameters bound to it. */
  ghost predicate SingleReads(env: Env, d: Dialect, r: Result<Fragment>, index: nat, kept: bool) {
    && r.Ok? && |r.value.where| == 1
    && Numbered(d, Holes(r.value.where[0]), index, r.value.params)
    && (Eval(env, r.value.where[0], Bound(d, Holes(r.value.where[0]), index, r.value.params)) == True <==> kept)
  }

  lemma OneHole(env: Env, d: Dialect, c: Cond, index: nat, v: Value)
    requires Holes(c) == [index]
    ensures Numbered(d, Holes(c), index, [v]) && Bound(d, Holes(c), index, [v]) == [v]
  {
  }

  lemma ComparisonReads(env: Env, d: Dialect, extract: Expr, f: FieldFilter, index: nat)
    requires Comparison(f.operator).Some?
    ensures SingleReads(env, d, ScalarCondition(d, extract, f, index), index,
                        ScalarReads(env.engine, d, f, ExprValue(env, extract)))
  {
    var e, op := if IsNumeric(f) then AsNumber(extract) else extract, Comparison(f.operator).value;
    var c := Compare(e, op, index);
    assert Eval(env, c, [Bind(d, f.value)]) == CompareValues(env.engine, op, ExprValue(env, e), Bind(d, f.value));
    OneHole(env, d, c, index, Bind(d, f.value));
    hide Eval, Bound, Numbered, Comparison;
  }

  lemma LikeReads(env: Env, d: Dialect, extract: Expr, f: FieldFilter, index: nat)
    requires TextIsText(env.engine) && f.operator in {"contains", "startsWith"}
    ensures SingleReads(env, d, ScalarCondition(d, extract, f, index), index,
                        ScalarReads(env.engine, d, f, ExprValue(env, extract)))
  {
    var v, value := Cast(env.engine, f, ExprValue(env, extract)), Sprint(f.value);
    var e := if IsNumeric(f) then AsNumber(extract) else extract;
    var pattern := if f.operator == "contains" then "%" + Like.EscapeLIKE(value) + "%" else Like.EscapeLIKE(value) + "%";
    LikeShape(env, d, extract, f, index);
    hide *;
    Like.LikeIsContains(env.engine.text(v), value, env.engine.same);
    Like.LikeIsStartsWith(env.engine.text(v), value, env.engine.same);
    LikeEval(env, d, e, index, pattern);
    SingleOf(env, d, LikeHole(e, index), index, [Str(pattern)],
             v != Null && Like.Like(env.engine.text(v), pattern, env.engine.same));
  }

  lemma LikeShape(env: Env, d: Dialect, extract: Expr, f: FieldFilter, index: nat)
    requires f.operator in {"contains", "startsWith"}
    ensures var e := if IsNumeric(f) then AsNumber(extract) else extract;
            var v, value := Cast(env.engine, f, ExprValue(env, extract)), Sprint(f.value);
            var pattern := if f.operator == "contains" then "%" + Like.EscapeLIKE(value) + "%" else Like.EscapeLIKE(value) + "%";
            && ScalarCondition(d, extract, f, index) == Ok(Fragment([LikeHole(e, index)], [Str(pattern)]))
            && ExprValue(env, e) == v
            && (ScalarReads(env.engine, d, f, ExprValue(env, extract))
                <==> v != Null && if f.operator == "contains" then Like.Contains(env.engine.text(v), value, env.engine.same)
                                  else Like.StartsWith(env.engine.text(v), value, env.engine.same))
  {
    hide Like.Contains, Like.StartsWith, Like.EscapeLIKE, Sprint;
  }

  lemma LikeEval(env: Env, d: Dialect, e: Expr, index: nat, pattern: string)
    requires TextIsText(env.engine)
    ensures Holes(LikeHole(e, index)) == [index]
    ensures Numbered(d, Holes(LikeHole(e, index)), index, [Str(pattern)])
    ensures Bound(d, Holes(LikeHole(e, index)), index, [Str(pattern)]) == [Str(pattern)]
    ensures Eval(env, LikeHole(e, index), [Str(pattern)]) == True
            <==> ExprValue(env, e) != Null && Like.Like(env.engine.text(ExprValue(env, e)), pattern, env.engine.same)
  {
    hide Like.Like;
    OneHole(env, d, LikeHole(e, index), index, Str(pattern));
  }

  lemma SingleOf(env: Env, d: Dialect, c: Cond, index: nat, params: seq<Value>, kept: bool)
    requires Numbered(d, Holes(c), index, params)
    requires Eval(env, c, Bound(d, Holes(c), index, params)) == True <==> kept
    ensures SingleReads(env, d, Ok(Fragment([c], params)), index, kept)
  {
    hide Numbered, Holes, Eval, Bound;
  }

  lemma FixedReads(env: Env, d: Dialect, extract: Expr, f: FieldFilter, index: nat)
    requires (f.operator == "isNull" && f.value.GoBool?) || (f.operator == "in" && f.value.GoList? && f.value.items == [])
    ensures SingleReads(env, d, ScalarCondition(d, extract, f, index), index,
                        ScalarReads(env.engine, d, f, ExprValue(env, extract)))
  {
    hide *;
    if f.operator == "isNull" {
      IsNullReads(env, d, extract, f, index);
    } else {
      EmptyInReads(env, d, extract, f, index);
    }
  }

  lemma IsNullReads(env: Env, d: Dialect, extract: Expr, f: FieldFilter, index: nat)
    requires f.operator == "isNull" && f.value.GoBool?
    ensures SingleReads(env, d, ScalarCondition(d, extract, f, index), index,
                        ScalarReads(env.engine, d, f, ExprValue(env, extract)))
  {
    var r := ScalarCondition(d, extract, f, index);
    assert r.Ok? && r.value.params == [];
    hide ScalarCondition, ExprValue, Bound, Numbered;
    NoHoles(d, r.value.where[0], index);
  }

  lemma EmptyInReads(env: Env, d: Dialect, extract: Expr, f: FieldFilter, index: nat)
    requires f.operator == "in" && f.value.GoList? && f.value.items == []
    ensures SingleReads(env, d, ScalarCondition(d, extract, f, index), index,
                        ScalarReads(env.engine, d, f, ExprValue(env, extract)))
  {
    var r := ScalarCondition(d, extract, f, index);
    assert r.Ok? && r.value.params == [];
    hide ScalarCondition, ExprValue, Bound, Numbered;
    NoHoles(d, r.value.where[0], index);
  }

  lemma NoHoles(d: Dialect, c: Cond, index: nat)
    requires Holes(c) == []
    ensures Numbered(d, Holes(c), index, []) && Bound(d, Holes(c), index, []) == []
  {
  }

  lemma InShape(env: Env, d: Dialect, extract: Expr, f: FieldFilter, index: nat)
    requires ScalarValid(f) && f.operator == "in" && f.value.items != []
    ensures var e := if IsNumeric(f) then AsNumber(extract) else extract;
            var params := BindAll(d, f.value.items);
            && ScalarCondition(d, extract, f, index) == Ok(Fragment([InList(e, Range(index, |params|))], params))
            && ExprValue(env, e) == Cast(env.engine, f, ExprValue(env, extract))
    ensures ScalarReads(env.engine, d, f, ExprValue(env, extract))
            <==> (exists item :: item in f.value.items
                   && Equals(env.engine, Cast(env.engine, f, ExprValue(env, extract)), Bind(d, item)))
  {
  }

  lemma InReads(env: Env, d: Dialect, extract: Expr, f: FieldFilter, index: nat)
    requires ScalarValid(f) && f.operator == "in" && f.value.items != []
    ensures var r := ScalarCondition(d, extract, f, index).value;
            && Numbered(d, HolesOf(r.where), index, r.params)
            && (Keeps(env, d, r.where, index, r.params) <==> ScalarReads(env.engine, d, f, ExprValue(env, extract)))
  {
    InShape(env, d, extract, f, index);
    hide *;
    var e := if IsNumeric(f) then AsNumber(extract) else extract;
    ListKeeps(env, d, e, index, BindAll(d, f.value.items));
    SingleIn(env, d, e, f, index);
  }

  lemma ScalarBuilds(d: Dialect, extract: Expr, f: FieldFilter, index: nat)
    ensures ScalarCondition(d, extract, f, index).Ok? <==> ScalarValid(f)
  {
  }

  /** A clause is right: it is built exactly when its filter is valid, its placeholders are the
      parameters it returns, and it keeps a row exactly when the direct reading does. */
  ghost predicate Selects(env: Env, d: Dialect, r: Result<Fragment>, index: nat, valid: bool, kept: bool) {
    && (r.Ok? <==> valid)
    && (r.Ok? ==>
          && Numbered(d, HolesOf(r.value.where), index, r.value.params)
          && (Keeps(env, d, r.value.where, index, r.value.params) <==> kept))
  }

  lemma ScalarMeaning(env: Env, d: Dialect, extract: Expr, f: FieldFilter, index: nat)
    requires TextIsText(env.engine)
    ensures Selects(env, d, ScalarCondition(d, extract, f, index), index, ScalarValid(f),
                    ScalarReads(env.engine, d, f, ExprValue(env, extract)))
  {
    ScalarBuilds(d, extract, f, index);
    hide ScalarReads, ScalarCondition, Numbered, Bound, EvalAll, HolesOf, ExprValue, Eval, Keeps;
    if ScalarValid(f) {
      if f.operator == "in" && f.value.items != [] {
        InReads(env, d, extract, f, index);
      } else {
        if Comparison(f.operator).Some? {
          ComparisonReads(env, d, extract, f, index);
        } else if f.operator in {"contains", "startsWith"} {
          LikeReads(env, d, extract, f, index);
        } else {
          FixedReads(env, d, extract, f, index);
        }
        var r := ScalarCondition(d, extract, f, index).value;
        SingleKeeps(env, d, r.where[0], index, r.params);
        assert r.where == [r.where[0]];
      }
    }
  }

  /** Two clauses, the second numbered after the first. */
  function Append(a: Fragment, b: Fragment): Fragment {
    Fragment(a.where + b.where, a.params + b.params)
  }

  lemma AppendSelects(env: Env, d: Dialect, a: Fragment, b: Fragment, index: nat, keptA: bool, keptB: bool)
    requires Selects(env, d, Ok(a), index, true, keptA)
    requires Selects(env, d, Ok(b), index + |a.params|, true, keptB)
    ensures Selects(env, d, Ok(Append(a, b)), index, true, keptA && keptB)
  {
    hide Numbered, Keeps;
    KeepsConcat(env, d, a.where, b.where, index, a.params, b.params);
  }

  // ----- The record_created_at column -----

  function CreatedAtCondition(f: FieldFilter, index: nat): Result<Fragment> {
    var column := ColumnOf(RecordCreatedAt);
    if Comparison(f.operator).Some? then
      if !f.value.GoString? then Err("filter must be a normalized datetime string")
      else Ok(Fragment([Compare(column, Comparison(f.operator).value, index)], [Str(f.value.s)]))
    else if f.operator == "in" then
      if !f.value.GoList? then Err("filter must be a list")
      else if f.value.items == [] then Ok(Fragment([Never], []))
      else if |f.value.items| > ActiveLabels.MAX_IN_LIST_SIZE then Err("IN filter exceeds maximum")
      else if exists v :: v in f.value.items && !v.GoString? then Err("filter values must be datetime strings")
      else
        assert forall i :: 0 <= i < |f.value.items| ==> f.value.items[i] in f.value.items;
        Ok(Fragment([InList(column, Range(index, |f.value.items|))],
                    seq(|f.value.items|, i requires 0 <= i < |f.value.items| => Str(f.value.items[i].s))))
    else Err("unsupported record_created_at filter operator")
  }

  predicate CreatedAtValid(f: FieldFilter) {
    || (Comparison(f.operator).Some? && f.value.GoString?)
    || (f.operator == "in" && f.value.GoList? && |f.value.items| <= ActiveLabels.MAX_IN_LIST_SIZE
        && forall v :: v in f.value.items ==> v.GoString?)
  }

  lemma CreatedAtIsScalar(d: Dialect, f: FieldFilter, index: nat)
    ensures CreatedAtCondition(f, index).Ok? <==> CreatedAtValid(f)
    ensures CreatedAtValid(f) ==> ScalarValid(f.(fieldType := "string"))
    ensures CreatedAtValid(f) ==>
              CreatedAtCondition(f, index) == ScalarCondition(d, ColumnOf(RecordCreatedAt), f.(fieldType := "string"), index)
  {
    if CreatedAtValid(f) && f.operator == "in" {
      assert CreatedAtCondition(f, index).value.params == BindAll(d, f.value.items);
    }
  }

  lemma CreatedAtMeaning(env: Env, d: Dialect, f: FieldFilter, index: nat)
    requires TextIsText(env.engine)
    ensures Selects(env, d, CreatedAtCondition(f, index), index, CreatedAtValid(f),
                    ScalarReads(env.engine, d, f.(fieldType := "string"), Nullable(env.row.createdAt)))
  {
    CreatedAtIsScalar(d, f, index);
    ScalarMeaning(env, d, ColumnOf(RecordCreatedAt), f.(fieldType := "string"), index);
    hide CreatedAtCondition, CreatedAtValid, ScalarCondition, ScalarValid, ScalarReads, Numbered, Keeps, HolesOf;
  }

  // ----- Contributor DIDs -----

  function NonEmptyTexts(items: seq<GoValue>): Result<seq<string>> {
    if items == [] then Ok([])
    else if !items[0].GoString? then Err("filter values must be strings")
    else
      match NonEmptyTexts(items[1..])
      case Err(e) => Err(e)
      case Ok(rest) => Ok(if items[0].s == "" then rest else [items[0].s] + rest)
  }

  function ContributorValues(f: FieldFilter): Result<seq<string>> {
    if f.operator == "eq" then
      if !f.value.GoString? then Err("filter must be a string")
      else Ok(if f.value.s == "" then [] else [f.value.s])
    else if f.operator == "in" then
      if !f.value.GoList? then Err("filter must be a list") else NonEmptyTexts(f.value.items)
    else Err("unsupported contributor DID filter operator")
  }

  const IDENTITY := ["contributorIdentity", "identity"]
  const IDENTITY_DID := ["contributorIdentity", "did"]
  const IDENTITY_URI := ["contributorIdentity", "uri"]
  const CONTRIBUTOR_INFO := "org.hypercerts.claim.contributorInformation"

  /** The five places a contributor's DID is looked for, with the placeholders of each. */
  function ContributorPlaces(h0: seq<nat>, h1: seq<nat>, h2: seq<nat>, h3: seq<nat>, h4: seq<nat>): seq<Cond> {
    [InList(ElementAt([]), h0), InList(ElementAt(["identity"]), h1), InList(ElementAt(IDENTITY), h2),
     InList(ElementAt(IDENTITY_DID), h3), JoinedIn(ElementAt(IDENTITY_URI), CONTRIBUTOR_INFO, ["identifier"], h4)]
  }

  function ContributorCondition(d: Dialect, f: FieldFilter, index: nat): Result<Fragment> {
    match ContributorValues(f)
    case Err(e) => Err(e)
    case Ok(values) =>
      var n, v := |values|, Texts(values);
      if n == 0 then Ok(Fragment([Never], []))
      else if n > ActiveLabels.MAX_IN_LIST_SIZE then Err("contributor DID filter exceeds maximum")
      else
        match d
        case PostgreSQL =>
          var own, refs := Range(index, n), Range(index + n, n);
          Ok(Fragment([SomeElement(["contributors"], [AnyOf(ContributorPlaces(own, own, own, own, refs))])], v + v))
        case SQLite =>
          Ok(Fragment([SomeElement(["contributors"], [AnyOf(ContributorPlaces(Range(index, n), Range(index + n, n),
                         Range(index + 2 * n, n), Range(index + 3 * n, n), Range(index + 4 * n, n)))])],
                      v + v + v + v + v))
  }

  predicate Mentions(f: FieldFilter, did: string) {
    if f.operator == "eq" then f.value == GoString(did) else f.value.GoList? && GoString(did) in f.value.items
  }

  predicate ContributorValid(f: FieldFilter) {
    ContributorValues(f).Ok? && |ContributorValues(f).value| <= ActiveLabels.MAX_IN_LIST_SIZE
  }

  predicate ContributorIs(env: Env, contributor: Json, did: string) {
    || Equals(env.engine, ScalarAt(env.engine, contributor, []), Str(did))
    || Equals(env.engine, ScalarAt(env.engine, contributor, ["identity"]), Str(did))
    || Equals(env.engine, ScalarAt(env.engine, contributor, IDENTITY), Str(did))
    || Equals(env.engine, ScalarAt(env.engine, contributor, IDENTITY_DID), Str(did))
    || (var info := Joined(env, ScalarAt(env.engine, contributor, IDENTITY_URI), CONTRIBUTOR_INFO);
        info.Some? && Equals(env.engine, ScalarAt(env.engine, info.value.json, ["identifier"]), Str(did)))
  }

  /** Some contributor of the record is, in one of the five places, one of the non-empty DIDs asked for. */
  ghost predicate ContributorReads(env: Env, f: FieldFilter) {
    exists contributor, did :: contributor in Items(env.row.json, ["contributors"]) && did != "" && Mentions(f, did)
      && ContributorIs(env, contributor, did)
  }

  lemma {:induction false} NonEmptyTextsOf(items: seq<GoValue>)
    ensures NonEmptyTexts(items).Ok? <==> forall v :: v in items ==> v.GoString?
    ensures NonEmptyTexts(items).Ok? ==>
              forall s :: s in NonEmptyTexts(items).value <==> s != "" && GoString(s) in items
  {
    if items != [] {
      NonEmptyTextsOf(items[1..]);
      assert items == [items[0]] + items[1..];
    }
  }

  lemma ContributorValuesOf(f: FieldFilter)
    requires ContributorValues(f).Ok?
    ensures forall s :: s in ContributorValues(f).value <==> s != "" && Mentions(f, s)
  {
    if f.operator == "in" {
      NonEmptyTextsOf(f.value.items);
    }
  }

  function Repeat(v: seq<Value>, times: nat): seq<Value> {
    if times == 0 then [] else v + Repeat(v, times - 1)
  }

  /** A disjunction whose parts all receive the same values. */
  lemma {:induction false} AnyOfSame(env: Env, cs: seq<Cond>, v: seq<Value>)
    requires forall c :: c in cs ==> |Holes(c)| == |v|
    ensures |HolesOf(cs)| == |Repeat(v, |cs|)|
    ensures EvalAny(env, cs, Repeat(v, |cs|)) == True <==> exists i :: 0 <= i < |cs| && Eval(env, cs[i], v) == True
  {
    hide Holes, Eval;
    if cs != [] {
      var rest := cs[1..];
      assert cs[0] in cs && forall c :: c in rest ==> c in cs;
      AnyOfSame(env, rest, v);
      var values := Repeat(v, |cs|);
      assert values[..|v|] == v && values[|v|..] == Repeat(v, |rest|);
      if i :| 0 <= i < |cs| && Eval(env, cs[i], v) == True && i > 0 {
        assert cs[i] == rest[i - 1];
      }
      if i :| 0 <= i < |rest| && Eval(env, rest[i], v) == True {
        assert cs[i + 1] == rest[i];
      }
    }
  }

  /** A place matches one of the values. */
  predicate AnyEquals(engine: Engine, found: Value, values: seq<string>) {
    exists s :: s in values && Equals(engine, found, Str(s))
  }

  lemma AmongTexts(engine: Engine, found: Value, values: seq<string>)
    ensures Among(engine, found, Texts(values)) == True <==> AnyEquals(engine, found, values)
  {
    AmongTrue(engine, found, Texts(values));
    forall i | 0 <= i < |values| ensures Texts(values)[i] in Texts(values) {
    }
    if v :| v in Texts(values) && v != Null && engine.holds(Eq, found, v) {
      var i :| 0 <= i < |values| && Texts(values)[i] == v;
      assert values[i] in values;
    }
    if s :| s in values && Equals(engine, found, Str(s)) {
      var i :| 0 <= i < |values| && values[i] == s;
      assert Texts(values)[i] == Str(s);
    }
  }

  lemma PlaceTrue(env: Env, contributor: Json, values: seq<string>, path: seq<string>, holes: seq<nat>)
    requires |holes| == |values|
    ensures Eval(env.(element := Some(contributor)), InList(ElementAt(path), holes), Texts(values)) == True
            <==> AnyEquals(env.engine, ScalarAt(env.engine, contributor, path), values)
  {
    AmongTexts(env.engine, ScalarAt(env.engine, contributor, path), values);
    hide Among, AnyEquals;
  }

  /** The collection lookup of a contributor that is only referred to. */
  predicate InfoEquals(env: Env, contributor: Json, values: seq<string>) {
    var info := Joined(env, ScalarAt(env.engine, contributor, IDENTITY_URI), CONTRIBUTOR_INFO);
    info.Some? && AnyEquals(env.engine, ScalarAt(env.engine, info.value.json, ["identifier"]), values)
  }

  lemma InfoTrue(env: Env, contributor: Json, values: seq<string>, holes: seq<nat>)
    requires |holes| == |values|
    ensures Eval(env.(element := Some(contributor)),
                 JoinedIn(ElementAt(IDENTITY_URI), CONTRIBUTOR_INFO, ["identifier"], holes), Texts(values)) == True
            <==> InfoEquals(env, contributor, values)
  {
    var info := Joined(env, ScalarAt(env.engine, contributor, IDENTITY_URI), CONTRIBUTOR_INFO);
    if info.Some? {
      AmongTexts(env.engine, ScalarAt(env.engine, info.value.json, ["identifier"]), values);
    }
    hide Among, AnyEquals;
  }

  lemma ContributorIsAny(env: Env, contributor: Json, values: seq<string>)
    ensures (exists did :: did in values && ContributorIs(env, contributor, did))
            <==> (|| AnyEquals(env.engine, ScalarAt(env.engine, contributor, []), values)
                  || AnyEquals(env.engine, ScalarAt(env.engine, contributor, ["identity"]), values)
                  || AnyEquals(env.engine, ScalarAt(env.engine, contributor, IDENTITY), values)
                  || AnyEquals(env.engine, ScalarAt(env.engine, contributor, IDENTITY_DID), values)
                  || InfoEquals(env, contributor, values))
  {
    hide Equals, ScalarAt, Joined;
  }

  lemma PlacesTrue(env: Env, contributor: Json, values: seq<string>,
                   h0: seq<nat>, h1: seq<nat>, h2: seq<nat>, h3: seq<nat>, h4: seq<nat>)
    requires |h0| == |h1| == |h2| == |h3| == |h4| == |values|
    ensures var places, v := ContributorPlaces(h0, h1, h2, h3, h4), Repeat(Texts(values), 5);
            && |HolesOf(places)| == |v|
            && (EvalAny(env.(element := Some(contributor)), places, v) == True
                <==> exists did :: did in values && ContributorIs(env, contributor, did))
  {
    var e := env.(element := Some(contributor));
    var places := ContributorPlaces(h0, h1, h2, h3, h4);
    hide Eval, Among, Joined, ScalarAt, EvalAny, InfoEquals, AnyEquals, ContributorIs;
    AnyOfSame(e, places, Texts(values));
    PlaceTrue(env, contributor, values, [], h0);
    PlaceTrue(env, contributor, values, ["identity"], h1);
    PlaceTrue(env, contributor, values, IDENTITY, h2);
    PlaceTrue(env, contributor, values, IDENTITY_DID, h3);
    InfoTrue(env, contributor, values, h4);
    ContributorIsAny(env, contributor, values);
    var v := Texts(values);
    assert (exists i :: 0 <= i < |places| && Eval(e, places[i], v) == True)
           <==> (Eval(e, places[0], v) == True || Eval(e, places[1], v) == True || Eval(e, places[2], v) == True
                 || Eval(e, places[3], v) == True || Eval(e, places[4], v) == True);
  }

  lemma PlacesHoles(h0: seq<nat>, h1: seq<nat>, h2: seq<nat>, h3: seq<nat>, h4: seq<nat>)
    ensures HolesOf(ContributorPlaces(h0, h1, h2, h3, h4)) == h0 + h1 + h2 + h3 + h4
  {
    var c := ContributorPlaces(h0, h1, h2, h3, h4);
    assert c[1..][1..] == c[2..] && c[2..][1..] == c[3..] && c[3..][1..] == c[4..] && c[4..][1..] == [];
    assert HolesOf(c[4..]) == h4;
    assert HolesOf(c[3..]) == h3 + h4;
    assert HolesOf(c[2..]) == h2 + h3 + h4;
    assert HolesOf(c[1..]) == h1 + h2 + h3 + h4;
  }

  lemma BoundLookup(a: seq<nat>, b: seq<nat>, start: nat, params: seq<Value>)
    requires Numbered(PostgreSQL, a, start, params) && Numbered(PostgreSQL, b, start, params)
    ensures Numbered(PostgreSQL, a + b, start, params)
    ensures Bound(PostgreSQL, a + b, start, params) == Bound(PostgreSQL, a, start, params) + Bound(PostgreSQL, b, start, params)
  {
    forall i | 0 <= i < |a + b| ensures (a + b)[i] == if i < |a| then a[i] else b[i - |a|] {
    }
  }

  /** Reused `$n` and repeated `?` give all five places the same values. */
  lemma PlacesBound(index: nat, v: seq<Value>)
    ensures var own, refs := Range(index, |v|), Range(index + |v|, |v|);
            && Numbered(PostgreSQL, own + own + own + own + refs, index, v + v)
            && Bound(PostgreSQL, own + own + own + own + refs, index, v + v) == Repeat(v, 5)
  {
    hide *;
    var own, refs := Range(index, |v|), Range(index + |v|, |v|);
    BoundTwice(index, v);
    RepeatFive(v);
    BoundLookup(own, own, index, v + v);
    BoundLookup(own + own, own, index, v + v);
    BoundLookup(own + own + own, own, index, v + v);
    BoundLookup(own + own + own + own, refs, index, v + v);
  }

  lemma BoundTwice(index: nat, v: seq<Value>)
    ensures Numbered(PostgreSQL, Range(index, |v|), index, v + v)
    ensures Numbered(PostgreSQL, Range(index + |v|, |v|), index, v + v)
    ensures Bound(PostgreSQL, Range(index, |v|), index, v + v) == v
    ensures Bound(PostgreSQL, Range(index + |v|, |v|), index, v + v) == v
  {
  }

  lemma RepeatFive(v: seq<Value>)
    ensures Repeat(v, 5) == v + v + v + v + v
  {
    assert Repeat(v, 1) == v + [];
    assert Repeat(v, 2) == v + v;
    assert Repeat(v, 3) == v + v + v;
  }

  lemma ContributorMeaning(env: Env, d: Dialect, f: FieldFilter, index: nat)
    ensures Selects(env, d, ContributorCondition(d, f, index), index, ContributorValid(f), ContributorReads(env, f))
  {
    if ContributorValid(f) {
      ContributorValuesOf(f);
      var values := ContributorValues(f).value;
      if values == [] {
        SingleKeeps(env, d, Never, index, []);
      } else if d.PostgreSQL? {
        ContributorPostgreSQL(env, f, index, values);
      } else {
        ContributorSQLite(env, f, index, values);
      }
      hide Selects, ContributorPlaces, Texts, Range, ContributorValues, ContributorReads;
    }
  }

  lemma ContributorPostgreSQL(env: Env, f: FieldFilter, index: nat, values: seq<string>)
    requires forall s :: s in values <==> s != "" && Mentions(f, s)
    ensures var n, v := |values|, Texts(values);
            var own, refs := Range(index, n), Range(index + n, n);
            var where := [SomeElement(["contributors"], [AnyOf(ContributorPlaces(own, own, own, own, refs))])];
            Selects(env, PostgreSQL, Ok(Fragment(where, v + v)), index, true, ContributorReads(env, f))
  {
    var n, v := |values|, Texts(values);
    var own, refs := Range(index, n), Range(index + n, n);
    hide Selects, ContributorPlaces, Bound, Numbered, Repeat, ContributorReads, Mentions;
    PlacesBound(index, v);
    ContributorFragment(env, PostgreSQL, f, index, values, v + v, own, own, own, own, refs);
  }

  lemma ContributorSQLite(env: Env, f: FieldFilter, index: nat, values: seq<string>)
    requires forall s :: s in values <==> s != "" && Mentions(f, s)
    ensures var n, v := |values|, Texts(values);
            var where := [SomeElement(["contributors"], [AnyOf(ContributorPlaces(Range(index, n), Range(index + n, n),
                            Range(index + 2 * n, n), Range(index + 3 * n, n), Range(index + 4 * n, n)))])];
            Selects(env, SQLite, Ok(Fragment(where, v + v + v + v + v)), index, true, ContributorReads(env, f))
  {
    var n, v := |values|, Texts(values);
    hide Selects, ContributorPlaces, Repeat, ContributorReads, Mentions;
    RepeatFive(v);
    ContributorFragment(env, SQLite, f, index, values, v + v + v + v + v, Range(index, n), Range(index + n, n),
                        Range(index + 2 * n, n), Range(index + 3 * n, n), Range(index + 4 * n, n));
  }

  lemma ContributorFragment(env: Env, d: Dialect, f: FieldFilter, index: nat, values: seq<string>, params: seq<Value>,
                            h0: seq<nat>, h1: seq<nat>, h2: seq<nat>, h3: seq<nat>, h4: seq<nat>)
    requires |h0| == |h1| == |h2| == |h3| == |h4| == |values|
    requires Numbered(d, h0 + h1 + h2 + h3 + h4, index, params)
    requires Bound(d, h0 + h1 + h2 + h3 + h4, index, params) == Repeat(Texts(values), 5)
    requires forall s :: s in values <==> s != "" && Mentions(f, s)
    ensures var where := [SomeElement(["contributors"], [AnyOf(ContributorPlaces(h0, h1, h2, h3, h4))])];
            Selects(env, d, Ok(Fragment(where, params)), index, true, ContributorReads(env, f))
  {
    var places := ContributorPlaces(h0, h1, h2, h3, h4);
    var c := SomeElement(["contributors"], [AnyOf(places)]);
    PlacesHoles(h0, h1, h2, h3, h4);
    var v := Repeat(Texts(values), 5);
    assert [AnyOf(places)][1..] == [];
    assert HolesOf([AnyOf(places)]) == Holes(AnyOf(places)) + HolesOf([]);
    assert Holes(c) == HolesOf(places);
    SingleKeeps(env, d, c, index, params);
    forall contributor | contributor in Items(env.row.json, ["contributors"])
      ensures |HolesOf([AnyOf(places)])| == |v|
      ensures EvalAll(env.(element := Some(contributor)), [AnyOf(places)], v) == True
              <==> exists did :: did in values && ContributorIs(env, contributor, did)
    {
      PlacesTrue(env, contributor, values, h0, h1, h2, h3, h4);
      EvalSingle(env.(element := Some(contributor)), AnyOf(places), v);
    }
    hide ContributorIs, ContributorPlaces, EvalAll, Bound, Numbered, HolesOf;
  }

  // ----- Fields -----

  predicate IsArrayAny(f: FieldFilter) {
    f.target in {"", "json"} && f.arrayPath != []
  }

  function GroupKey(f: FieldFilter): string {
    if IsArrayAny(f) then Join(f.arrayPath, "\0") else ""
  }

  function FieldPath(f: FieldFilter): seq<string> {
    if f.path != [] then f.path else [f.field]
  }

  const BADGE_TYPE := JoinedAt(JsonAt(["badge", "uri"]), "app.certified.badge.definition", ["badgeType"])

  function FieldCondition(d: Dialect, f: FieldFilter, index: nat): Result<Fragment>
    requires !IsArrayAny(f)
  {
    if f.target == "contributor_did" then ContributorCondition(d, f, index)
    else if f.target == "badge_award_badge_type" then ScalarCondition(d, BADGE_TYPE, f, index)
    else if f.target == "column" && f.field == "record_created_at" then CreatedAtCondition(f, index)
    else if f.target in {"", "json"} then
      if !ValidPath(FieldPath(f)) then Err("invalid JSON field name")
      else ScalarCondition(d, JsonAt(FieldPath(f)), f, index)
    else if f.target == "column" then
      if f.field != "uri" then Err("unsupported metadata filter column")
      else ScalarCondition(d, ColumnOf(Uri), f, index)
    else Err("unsupported filter target")
  }

  /** The filters that can be compiled, each on its own. */
  predicate ValidFilter(f: FieldFilter) {
    if IsArrayAny(f) then ValidPath(f.arrayPath) && ValidPath(f.path) && ScalarValid(f)
    else if f.target == "contributor_did" then ContributorValid(f)
    else if f.target == "badge_award_badge_type" then ScalarValid(f)
    else if f.target in {"", "json"} then ValidPath(FieldPath(f)) && ScalarValid(f)
    else
      && f.target == "column"
      && ((f.field == "record_created_at" && CreatedAtValid(f)) || (f.field == "uri" && ScalarValid(f)))
  }

  /** The type of the badge that an award record points at. */
  function BadgeType(env: Env): Value {
    var badge := Joined(env, ScalarAt(env.engine, env.row.json, ["badge", "uri"]), "app.certified.badge.definition");
    if badge.Some? then ScalarAt(env.engine, badge.value.json, ["badgeType"]) else Null
  }

  /** What a filter outside arrays says about a record. */
  ghost predicate FieldReads(env: Env, d: Dialect, f: FieldFilter) {
    if f.target == "contributor_did" then ContributorReads(env, f)
    else if f.target == "badge_award_badge_type" then ScalarReads(env.engine, d, f, BadgeType(env))
    else if f.target == "column" then
      if f.field == "uri" then ScalarReads(env.engine, d, f, Str(env.row.uri))
      else ScalarReads(env.engine, d, f.(fieldType := "string"), Nullable(env.row.createdAt))
    else ScalarReads(env.engine, d, f, ScalarAt(env.engine, env.row.json, FieldPath(f)))
  }

  lemma FieldMeaning(env: Env, d: Dialect, f: FieldFilter, index: nat)
    requires TextIsText(env.engine) && !IsArrayAny(f)
    ensures Selects(env, d, FieldCondition(d, f, index), index, ValidFilter(f), FieldReads(env, d, f))
  {
    hide Selects, ScalarReads, ScalarCondition, ContributorCondition, CreatedAtCondition, ContributorReads,
         ScalarValid, ContributorValid, CreatedAtValid;
    if f.target == "contributor_did" {
      ContributorMeaning(env, d, f, index);
    } else if f.target == "badge_award_badge_type" {
      ScalarMeaning(env, d, BADGE_TYPE, f, index);
    } else if f.target == "column" && f.field == "record_created_at" {
      CreatedAtMeaning(env, d, f, index);
      CreatedAtIsNotUri();
    } else if f.target in {"", "json"} {
      ScalarMeaning(env, d, JsonAt(FieldPath(f)), f, index);
      SelectsUnless(env, d, f, index);
    } else {
      ScalarMeaning(env, d, ColumnOf(Uri), f, index);
      SelectsUnless(env, d, f, index);
    }
  }

  lemma CreatedAtIsNotUri()
    ensures "record_created_at" != "uri"
  {
    assert |"record_created_at"| != |"uri"|;
  }

  lemma SelectsUnless(env: Env, d: Dialect, f: FieldFilter, index: nat)
    ensures forall e, kept :: Selects(env, d, Err(e), index, false, kept)
  {
  }

  // ----- Filters on array elements -----

  function Group(filters: seq<FieldFilter>, key: string): seq<FieldFilter> {
    if filters == [] then []
    else (if GroupKey(filters[0]) == key then [filters[0]] else []) + Group(filters[1..], key)
  }

  function InnerConditions(d: Dialect, group: seq<FieldFilter>, path: seq<string>, index: nat): Result<Fragment> {
    if group == [] then Ok(Fragment([], []))
    else if !IsArrayAny(group[0]) || group[0].arrayPath != path then Err("array any filters must share one JSON array path")
    else if !ValidPath(group[0].path) then Err("invalid JSON path segment")
    else
      match ScalarCondition(d, ElementAt(group[0].path), group[0], index)
      case Err(e) => Err(e)
      case Ok(first) =>
        match InnerConditions(d, group[1..], path, index + |first.params|)
        case Err(e) => Err(e)
        case Ok(rest) => Ok(Append(first, rest))
  }

  function ArrayCondition(d: Dialect, group: seq<FieldFilter>, index: nat): Result<Fragment>
    requires group != []
  {
    var path := group[0].arrayPath;
    if !ValidPath(path) then Err("invalid JSON path segment")
    else
      match InnerConditions(d, group, path, index)
      case Err(e) => Err(e)
      case Ok(inner) =>
        var some := SomeElement(path, inner.where);
        Ok(Fragment(if d.SQLite? then [IsArray(path), some] else [some], inner.params))
  }

  predicate GroupValid(group: seq<FieldFilter>, path: seq<string>) {
    forall f :: f in group ==> MemberValid(f, path)
  }

  ghost predicate ElementReads(engine: Engine, d: Dialect, f: FieldFilter, element: Json) {
    ScalarReads(engine, d, f, ScalarAt(engine, element, f.path))
  }

  ghost predicate GroupReads(engine: Engine, d: Dialect, group: seq<FieldFilter>, element: Json) {
    forall f :: f in group ==> ElementReads(engine, d, f, element)
  }

  predicate MemberValid(f: FieldFilter, path: seq<string>) {
    IsArrayAny(f) && f.arrayPath == path && ValidPath(f.path) && ScalarValid(f)
  }

  lemma InnerStep(env: Env, d: Dialect, f: FieldFilter, rest: seq<FieldFilter>, path: seq<string>, index: nat,
                  keptFirst: bool, keptRest: bool)
    requires var first := ScalarCondition(d, ElementAt(f.path), f, index);
             && Selects(env, d, first, index, ScalarValid(f), keptFirst)
             && (first.Ok? ==> Selects(env, d, InnerConditions(d, rest, path, index + |first.value.params|),
                                       index + |first.value.params|, GroupValid(rest, path), keptRest))
    ensures Selects(env, d, InnerConditions(d, [f] + rest, path, index), index,
                    MemberValid(f, path) && GroupValid(rest, path), keptFirst && keptRest)
  {
    hide ScalarCondition, InnerConditions, ScalarValid, GroupValid, Numbered, Keeps, HolesOf, Append;
    var group := [f] + rest;
    assert group[0] == f && group[1..] == rest;
    InnerRefuses(d, group, path, index);
    var first := ScalarCondition(d, ElementAt(f.path), f, index);
    if IsArrayAny(f) && f.arrayPath == path && ValidPath(f.path) {
      InnerUnfold(d, group, path, index);
      if first.Ok? {
        var more := InnerConditions(d, rest, path, index + |first.value.params|);
        if more.Ok? {
          AppendSelects(env, d, first.value, more.value, index, keptFirst, keptRest);
        }
      }
    }
  }

  lemma {:induction false} InnerMeaning(env: Env, d: Dialect, group: seq<FieldFilter>, path: seq<string>, index: nat)
    requires TextIsText(env.engine) && env.element.Some?
    ensures Selects(env, d, InnerConditions(d, group, path, index), index, GroupValid(group, path),
                    GroupReads(env.engine, d, group, env.element.value))
  {
    hide *;
    if group == [] {
      InnerEmpty(env, d, path, index);
    } else {
      var f, rest := group[0], group[1..];
      ElementMeaning(env, d, f, index);
      assert group == [f] + rest;
      GroupSplit(env, d, f, rest, path);
      var first := ScalarCondition(d, ElementAt(f.path), f, index);
      if first.Ok? {
        InnerMeaning(env, d, rest, path, index + |first.value.params|);
      }
      InnerStep(env, d, f, rest, path, index, ElementReads(env.engine, d, f, env.element.value),
                GroupReads(env.engine, d, rest, env.element.value));
    }
  }

  lemma EmptyKeeps(env: Env, d: Dialect, index: nat)
    ensures Selects(env, d, Ok(Fragment([], [])), index, true, true)
  {
  }

  lemma InnerEmpty(env: Env, d: Dialect, path: seq<string>, index: nat)
    requires env.element.Some?
    ensures Selects(env, d, InnerConditions(d, [], path, index), index, GroupValid([], path),
                    GroupReads(env.engine, d, [], env.element.value))
  {
    EmptyKeeps(env, d, index);
  }

  lemma ElementMeaning(env: Env, d: Dialect, f: FieldFilter, index: nat)
    requires TextIsText(env.engine) && env.element.Some?
    ensures Selects(env, d, ScalarCondition(d, ElementAt(f.path), f, index), index, ScalarValid(f),
                    ElementReads(env.engine, d, f, env.element.value))
  {
    ScalarMeaning(env, d, ElementAt(f.path), f, index);
    hide ScalarReads, ScalarCondition, ScalarValid, Selects;
  }

  lemma GroupSplit(env: Env, d: Dialect, f: FieldFilter, rest: seq<FieldFilter>, path: seq<string>)
    requires env.element.Some?
    ensures GroupValid([f] + rest, path)
            <==> MemberValid(f, path) && GroupValid(rest, path)
    ensures GroupReads(env.engine, d, [f] + rest, env.element.value)
            <==> ElementReads(env.engine, d, f, env.element.value) && GroupReads(env.engine, d, rest, env.element.value)
  {
    hide ElementReads, MemberValid;
    assert forall g :: g in [f] + rest <==> g == f || g in rest;
  }

  ghost predicate SomeElementReads(env: Env, d: Dialect, group: seq<FieldFilter>, path: seq<string>) {
    exists x :: x in Items(env.row.json, path) && GroupReads(env.engine, d, group, x)
  }

  /** One array condition keeps the rows in which a single element meets every filter of the group. */
  lemma ArrayMeaning(env: Env, d: Dialect, group: seq<FieldFilter>, index: nat)
    requires TextIsText(env.engine) && group != []
    ensures var path := group[0].arrayPath;
            Selects(env, d, ArrayCondition(d, group, index), index, ValidPath(path) && GroupValid(group, path),
                    SomeElementReads(env, d, group, path))
  {
    var path := group[0].arrayPath;
    InnerMeaning(env.(element := Some(JsonNull)), d, group, path, index);
    if ValidPath(path) && GroupValid(group, path) {
      var inner := InnerConditions(d, group, path, index).value;
      var holes, some := HolesOf(inner.where), SomeElement(path, inner.where);
      forall x | x in Items(env.row.json, path)
        ensures Keeps(env.(element := Some(x)), d, inner.where, index, inner.params) <==> GroupReads(env.engine, d, group, x)
      {
        InnerMeaning(env.(element := Some(x)), d, group, path, index);
      }
      assert Holes(some) == holes;
      var values := Bound(d, holes, index, inner.params);
      assert Eval(env, some, values) == True <==> SomeElementReads(env, d, group, path) by {
        hide GroupReads, Bound, Numbered, InnerConditions, HolesOf;
      }
      ArrayClause(env, d, path, inner, index);
      hide Eval, EvalAll, InnerConditions, HolesOf, SomeElementReads, Bound, Numbered, GroupValid;
    }
  }

  lemma ArrayClause(env: Env, d: Dialect, path: seq<string>, inner: Fragment, index: nat)
    requires Numbered(d, HolesOf(inner.where), index, inner.params)
    ensures var some := SomeElement(path, inner.where);
            var where := if d.SQLite? then [IsArray(path), some] else [some];
            && Numbered(d, HolesOf(where), index, inner.params) && Holes(some) == HolesOf(inner.where)
            && (Keeps(env, d, where, index, inner.params)
                <==> Eval(env, some, Bound(d, HolesOf(inner.where), index, inner.params)) == True)
  {
    var some := SomeElement(path, inner.where);
    assert Holes(some) == HolesOf(inner.where);
    SingleKeeps(env, d, some, index, inner.params);
    if d.SQLite? {
      SingleKeeps(env, d, IsArray(path), index, []);
      assert [IsArray(path)] + [some] == [IsArray(path), some] && [] + inner.params == inner.params;
      KeepsConcat(env, d, [IsArray(path)], [some], index, [], inner.params);
      assert Eval(env, some, Bound(d, HolesOf(inner.where), index, inner.params)) == True
             ==> Eval(env, IsArray(path), []) == True;
    }
  }

  // ----- Filter lists -----

  function KeysBefore(filters: seq<FieldFilter>, i: nat): set<string>
    requires i <= |filters|
  {
    set j | 0 <= j < i && IsArrayAny(filters[j]) :: GroupKey(filters[j])
  }

  /** The clause of the filters from position `i` on, array groups built where their first filter stands. */
  function Compile(d: Dialect, filters: seq<FieldFilter>, i: nat, index: nat): Result<Fragment>
    requires i <= |filters|
    decreases |filters| - i
  {
    if i == |filters| then Ok(Fragment([], []))
    else if IsArrayAny(filters[i]) && GroupKey(filters[i]) in KeysBefore(filters, i) then Compile(d, filters, i + 1, index)
    else
      match Condition(d, filters, i, index)
      case Err(e) => Err(e)
      case Ok(first) =>
        match Compile(d, filters, i + 1, index + |first.params|)
        case Err(e) => Err(e)
        case Ok(rest) => Ok(Append(first, rest))
  }

  /** The condition that the filter at `i` contributes. */
  function Condition(d: Dialect, filters: seq<FieldFilter>, i: nat, index: nat): Result<Fragment>
    requires i < |filters|
  {
    if IsArrayAny(filters[i]) then
      assert Group(filters[i..], GroupKey(filters[i])) != [];
      ArrayCondition(d, Group(filters[i..], GroupKey(filters[i])), index)
    else FieldCondition(d, filters[i], index)
  }

  /** What a filter says in the company of the others: filters on one array speak of one element. */
  ghost predicate FilterReads(env: Env, d: Dialect, filters: seq<FieldFilter>, f: FieldFilter) {
    if IsArrayAny(f) then
      exists x :: x in Items(env.row.json, f.arrayPath)
        && forall g :: g in filters && IsArrayAny(g) && g.arrayPath == f.arrayPath ==> ElementReads(env.engine, d, g, x)
    else FieldReads(env, d, f)
  }

  /** The direct reading of a filter list. */
  ghost predicate FiltersRead(env: Env, d: Dialect, filters: seq<FieldFilter>) {
    forall f :: f in filters ==> FilterReads(env, d, filters, f)
  }

  /** Filters from `i` on that no earlier group covers. */
  predicate Pending(filters: seq<FieldFilter>, i: nat, j: nat) {
    i <= j < |filters| && !(IsArrayAny(filters[j]) && GroupKey(filters[j]) in KeysBefore(filters, i))
  }

  ghost predicate PendingValid(filters: seq<FieldFilter>, i: nat) {
    forall j: nat :: Pending(filters, i, j) ==> ValidFilter(filters[j])
  }

  ghost predicate PendingRead(env: Env, d: Dialect, filters: seq<FieldFilter>, i: nat) {
    forall j: nat :: Pending(filters, i, j) ==> FilterReads(env, d, filters, filters[j])
  }

  lemma NameHasNoSeparator(s: string)
    requires ValidName(s)
    ensures '\0' !in s
  {
    forall i | 0 <= i < |s| ensures s[i] != '\0' {
      assert NameChar(s[i], i == 0);
    }
  }

  /** Valid paths have distinct, non-empty keys. */
  lemma KeyIsPath(a: seq<string>, b: seq<string>)
    requires a != [] && b != [] && ValidPath(a) && ValidPath(b)
    ensures Join(a, "\0") != ""
    ensures Join(a, "\0") == Join(b, "\0") ==> a == b
  {
    forall s | s in a || s in b ensures '\0' !in s {
      NameHasNoSeparator(s);
    }
    UnjoinJoin(a, '\0');
    UnjoinJoin(b, '\0');
    assert ValidName(a[0]);
  }

  lemma {:induction false} GroupMembers(filters: seq<FieldFilter>, key: string)
    ensures forall f :: f in Group(filters, key) <==> f in filters && GroupKey(f) == key
    ensures filters != [] && GroupKey(filters[0]) == key ==> Group(filters, key) != [] && Group(filters, key)[0] == filters[0]
  {
    if filters != [] {
      GroupMembers(filters[1..], key);
      assert filters == [filters[0]] + filters[1..];
    }
  }

  lemma PendingNext(filters: seq<FieldFilter>, i: nat)
    requires i < |filters|
    ensures IsArrayAny(filters[i]) && Pending(filters, i, i) ==>
              forall j: nat :: Pending(filters, i, j)
                <==> Pending(filters, i + 1, j)
                     || (i <= j < |filters| && IsArrayAny(filters[j]) && GroupKey(filters[j]) == GroupKey(filters[i]))
    ensures !(IsArrayAny(filters[i]) && Pending(filters, i, i)) ==>
              forall j: nat :: Pending(filters, i, j) <==> Pending(filters, i + 1, j) || (j == i && !IsArrayAny(filters[i]))
  {
    hide IsArrayAny, GroupKey;
    assert KeysBefore(filters, i + 1)
           == KeysBefore(filters, i) + if IsArrayAny(filters[i]) then {GroupKey(filters[i])} else {};
    hide KeysBefore;
  }

  lemma GroupMember(filters: seq<FieldFilter>, i: nat, j: nat)
    requires i <= j < |filters| && GroupKey(filters[j]) == GroupKey(filters[i])
    ensures filters[j] in Group(filters[i..], GroupKey(filters[i]))
  {
    hide GroupKey, Group;
    GroupMembers(filters[i..], GroupKey(filters[i]));
    assert filters[j] == filters[i..][j - i];
  }

  /** The group of a first array filter is valid exactly when the pending filters it covers are. */
  lemma GroupIsValid(filters: seq<FieldFilter>, i: nat)
    requires i < |filters| && IsArrayAny(filters[i]) && Pending(filters, i, i)
    ensures var path, group := filters[i].arrayPath, Group(filters[i..], GroupKey(filters[i]));
            PendingValid(filters, i) <==> ValidPath(path) && GroupValid(group, path) && PendingValid(filters, i + 1)
  {
    var path, key := filters[i].arrayPath, GroupKey(filters[i]);
    var group := Group(filters[i..], key);
    PendingNext(filters, i);
    if PendingValid(filters, i) {
      assert ValidFilter(filters[i]);
      forall f | f in group ensures MemberValid(f, path) {
        GroupMembers(filters[i..], key);
        var k :| 0 <= k < |filters[i..]| && filters[i..][k] == f;
        KeyIsPath(path, path);
        assert f == filters[i + k] && IsArrayAny(f) && Pending(filters, i, i + k) && ValidFilter(f);
        KeyIsPath(path, f.arrayPath);
      }
    }
    if ValidPath(path) && GroupValid(group, path) && PendingValid(filters, i + 1) {
      forall j: nat | Pending(filters, i, j) ensures ValidFilter(filters[j]) {
        if !Pending(filters, i + 1, j) {
          GroupMember(filters, i, j);
          assert MemberValid(filters[j], path);
        }
      }
    }
  }

  lemma GroupIsPath(filters: seq<FieldFilter>, i: nat, f: FieldFilter)
    requires i < |filters| && IsArrayAny(filters[i]) && Pending(filters, i, i)
    requires GroupValid(Group(filters[i..], GroupKey(filters[i])), filters[i].arrayPath)
    ensures f in Group(filters[i..], GroupKey(filters[i]))
            <==> f in filters && IsArrayAny(f) && f.arrayPath == filters[i].arrayPath
  {
    var key := GroupKey(filters[i]);
    GroupMembers(filters[i..], key);
    if f in Group(filters[i..], key) {
      assert MemberValid(f, filters[i].arrayPath);
    }
    if f in filters && IsArrayAny(f) && f.arrayPath == filters[i].arrayPath {
      assert forall k :: 0 <= k < i && IsArrayAny(filters[k]) ==> GroupKey(filters[k]) in KeysBefore(filters, i);
      var j :| 0 <= j < |filters| && filters[j] == f;
      GroupMember(filters, i, j);
    }
  }

  lemma GroupIsRead(env: Env, d: Dialect, filters: seq<FieldFilter>, i: nat, f: FieldFilter)
    requires i < |filters| && IsArrayAny(filters[i]) && Pending(filters, i, i)
    requires GroupValid(Group(filters[i..], GroupKey(filters[i])), filters[i].arrayPath)
    requires f in filters && IsArrayAny(f) && f.arrayPath == filters[i].arrayPath
    ensures FilterReads(env, d, filters, f)
            <==> SomeElementReads(env, d, Group(filters[i..], GroupKey(filters[i])), filters[i].arrayPath)
  {
    hide ElementReads, Group, GroupKey, GroupValid, Pending, Items;
    var group := Group(filters[i..], GroupKey(filters[i]));
    forall x ensures GroupReads(env.engine, d, group, x)
      <==> forall g :: g in filters && IsArrayAny(g) && g.arrayPath == f.arrayPath ==> ElementReads(env.engine, d, g, x)
    {
      forall g ensures g in group <==> g in filters && IsArrayAny(g) && g.arrayPath == f.arrayPath {
        GroupIsPath(filters, i, g);
      }
    }
  }

  lemma PendingIsRead(env: Env, d: Dialect, filters: seq<FieldFilter>, i: nat)
    requires i < |filters| && IsArrayAny(filters[i]) && Pending(filters, i, i)
    requires GroupValid(Group(filters[i..], GroupKey(filters[i])), filters[i].arrayPath)
    ensures PendingRead(env, d, filters, i)
            <==> SomeElementReads(env, d, Group(filters[i..], GroupKey(filters[i])), filters[i].arrayPath)
                 && PendingRead(env, d, filters, i + 1)
  {
    PendingNext(filters, i);
    var path, group := filters[i].arrayPath, Group(filters[i..], GroupKey(filters[i]));
    forall j: nat | i <= j < |filters| && IsArrayAny(filters[j]) && GroupKey(filters[j]) == GroupKey(filters[i])
      ensures FilterReads(env, d, filters, filters[j]) <==> SomeElementReads(env, d, group, path)
    {
      GroupMember(filters, i, j);
      assert MemberValid(filters[j], path);
      assert filters[j] in filters;
      GroupIsRead(env, d, filters, i, filters[j]);
    }
    hide FilterReads, SomeElementReads, Pending, GroupKey, IsArrayAny, Group, GroupValid;
  }

  lemma ConditionMeaning(env: Env, d: Dialect, filters: seq<FieldFilter>, i: nat, index: nat)
    requires TextIsText(env.engine) && i < |filters| && Pending(filters, i, i)
    ensures exists valid, kept ::
      && Selects(env, d, Condition(d, filters, i, index), index, valid, kept)
      && (PendingValid(filters, i) <==> valid && PendingValid(filters, i + 1))
      && (valid ==> (PendingRead(env, d, filters, i) <==> kept && PendingRead(env, d, filters, i + 1)))
  {
    var f := filters[i];
    if IsArrayAny(f) {
      var path, group := f.arrayPath, Group(filters[i..], GroupKey(f));
      GroupMembers(filters[i..], GroupKey(f));
      ArrayMeaning(env, d, group, index);
      GroupIsValid(filters, i);
      var valid, kept := ValidPath(path) && GroupValid(group, path), SomeElementReads(env, d, group, path);
      if valid {
        PendingIsRead(env, d, filters, i);
      }
      assert Selects(env, d, Condition(d, filters, i, index), index, valid, kept);
    } else {
      FieldMeaning(env, d, f, index);
      PendingNext(filters, i);
      hide Selects, ValidFilter, FieldReads;
      assert Selects(env, d, Condition(d, filters, i, index), index, ValidFilter(f), FieldReads(env, d, f));
    }
  }

  lemma {:induction false} CompileMeaning(env: Env, d: Dialect, filters: seq<FieldFilter>, i: nat, index: nat)
    requires TextIsText(env.engine) && i <= |filters|
    ensures Selects(env, d, Compile(d, filters, i, index), index, PendingValid(filters, i), PendingRead(env, d, filters, i))
    decreases |filters| - i
  {
    hide Selects, Condition, FilterReads, ValidFilter, KeysBefore, IsArrayAny, GroupKey;
    if i == |filters| {
      EmptyKeeps(env, d, index);
      assert PendingValid(filters, i) && PendingRead(env, d, filters, i);
    } else if !Pending(filters, i, i) {
      PendingNext(filters, i);
      CompileMeaning(env, d, filters, i + 1, index);
      assert PendingValid(filters, i) <==> PendingValid(filters, i + 1);
      assert PendingRead(env, d, filters, i) <==> PendingRead(env, d, filters, i + 1);
    } else {
      ConditionMeaning(env, d, filters, i, index);
      var valid, kept :|
        && Selects(env, d, Condition(d, filters, i, index), index, valid, kept)
        && (PendingValid(filters, i) <==> valid && PendingValid(filters, i + 1))
        && (valid ==> (PendingRead(env, d, filters, i) <==> kept && PendingRead(env, d, filters, i + 1)));
      var first := Condition(d, filters, i, index);
      if first.Ok? {
        CompileMeaning(env, d, filters, i + 1, index + |first.value.params|);
      }
      CompileStep(env, d, filters, i, index, valid, kept);
    }
  }

  lemma CompileStep(env: Env, d: Dialect, filters: seq<FieldFilter>, i: nat, index: nat, valid: bool, kept: bool)
    requires i < |filters| && Pending(filters, i, i)
    requires Selects(env, d, Condition(d, filters, i, index), index, valid, kept)
    requires PendingValid(filters, i) <==> valid && PendingValid(filters, i + 1)
    requires valid ==> (PendingRead(env, d, filters, i) <==> kept && PendingRead(env, d, filters, i + 1))
    requires var first := Condition(d, filters, i, index);
             first.Ok? ==> var next := index + |first.value.params|;
                           Selects(env, d, Compile(d, filters, i + 1, next), next, PendingValid(filters, i + 1),
                                   PendingRead(env, d, filters, i + 1))
    ensures Selects(env, d, Compile(d, filters, i, index), index, PendingValid(filters, i), PendingRead(env, d, filters, i))
  {
    hide Condition, PendingRead, PendingValid, Numbered, Keeps, HolesOf, Append;
    var first := Condition(d, filters, i, index);
    if first.Ok? {
      var rest := Compile(d, filters, i + 1, index + |first.value.params|);
      if rest.Ok? {
        AppendSelects(env, d, first.value, rest.value, index, kept, PendingRead(env, d, filters, i + 1));
      }
    }
  }

  /** The clause of a filter list, bound by position or by number from any start, keeps exactly the
      records that the direct reading keeps; it is built exactly when every filter is valid on its own. */
  lemma ClauseIsReading(env: Env, d: Dialect, filters: seq<FieldFilter>, start: nat)
    requires TextIsText(env.engine)
    ensures Selects(env, d, Compile(d, filters, 0, start), start, forall f :: f in filters ==> ValidFilter(f),
                    FiltersRead(env, d, filters))
  {
    CompileMeaning(env, d, filters, 0, start);
    hide Selects, FilterReads, ValidFilter, Compile, IsArrayAny, GroupKey;
    assert forall j: nat :: Pending(filters, 0, j) <==> j < |filters|;
    assert forall j: nat :: j < |filters| ==> filters[j] in filters;
    assert PendingValid(filters, 0) <==> forall f :: f in filters ==> ValidFilter(f);
    assert PendingRead(env, d, filters, 0) <==> FiltersRead(env, d, filters);
  }

  lemma InnerUnfold(d: Dialect, group: seq<FieldFilter>, path: seq<string>, index: nat)
    requires group != [] && IsArrayAny(group[0]) && group[0].arrayPath == path && ValidPath(group[0].path)
    ensures var first := ScalarCondition(d, ElementAt(group[0].path), group[0], index);
            InnerConditions(d, group, path, index)
            == if first.Err? then Err(first.error)
               else AppendTo(first.value, InnerConditions(d, group[1..], path, index + |first.value.params|))
  {
    hide ScalarCondition;
  }

  lemma InnerRefuses(d: Dialect, group: seq<FieldFilter>, path: seq<string>, index: nat)
    ensures group == [] ==> InnerConditions(d, group, path, index) == Ok(Fragment([], []))
    ensures group != [] && (!IsArrayAny(group[0]) || group[0].arrayPath != path) ==>
              InnerConditions(d, group, path, index) == Err("array any filters must share one JSON array path")
    ensures group != [] && IsArrayAny(group[0]) && group[0].arrayPath == path && !ValidPath(group[0].path) ==>
              InnerConditions(d, group, path, index) == Err("invalid JSON path segment")
  {
  }

  /** The result so far, with the conditions of the filters from `n` on to come. */
  function InnerSoFar(d: Dialect, group: seq<FieldFilter>, path: seq<string>, index: nat, n: nat, inner: Fragment): Result<Fragment>
    requires n <= |group|
  {
    AppendTo(inner, InnerConditions(d, group[n..], path, index + |inner.params|))
  }

  lemma InnerNext(d: Dialect, group: seq<FieldFilter>, path: seq<string>, index: nat, n: nat, inner: Fragment)
    requires n < |group|
    ensures var f, result := group[n], InnerSoFar(d, group, path, index, n, inner);
            if !IsArrayAny(f) || f.arrayPath != path then result == Err("array any filters must share one JSON array path")
            else if !ValidPath(f.path) then result == Err("invalid JSON path segment")
            else
              var next := ScalarCondition(d, ElementAt(f.path), f, index + |inner.params|);
              if next.Err? then result == Err(next.error)
              else result == InnerSoFar(d, group, path, index, n + 1, Append(inner, next.value))
  {
    hide *;
    var f := group[n];
    SuffixParts(group, n);
    InnerSoFarIs(d, group, path, index, n, inner);
    InnerRefuses(d, group[n..], path, index + |inner.params|);
    AppendRefused(inner);
    if IsArrayAny(f) && f.arrayPath == path && ValidPath(f.path) {
      InnerUnfold(d, group[n..], path, index + |inner.params|);
      var next := ScalarCondition(d, ElementAt(f.path), f, index + |inner.params|);
      if next.Ok? {
        AppendParams(inner, next.value);
        InnerSoFarIs(d, group, path, index, n + 1, Append(inner, next.value));
        AppendAssociative(inner, next.value,
                          InnerConditions(d, group[n + 1..], path, index + |inner.params| + |next.value.params|));
      }
    }
  }

  lemma SuffixParts(group: seq<FieldFilter>, n: nat)
    requires n < |group|
    ensures group[n..] != [] && group[n..][0] == group[n] && group[n..][1..] == group[n + 1..]
  {
  }

  lemma InnerSoFarIs(d: Dialect, group: seq<FieldFilter>, path: seq<string>, index: nat, n: nat, inner: Fragment)
    requires n <= |group|
    ensures InnerSoFar(d, group, path, index, n, inner)
            == AppendTo(inner, InnerConditions(d, group[n..], path, index + |inner.params|))
  {
    hide InnerConditions, AppendTo;
  }

  lemma AppendRefused(a: Fragment)
    ensures forall e :: AppendTo(a, Err(e)) == Err(e)
  {
  }

  lemma InnerEnds(d: Dialect, group: seq<FieldFilter>, path: seq<string>, index: nat, inner: Fragment)
    ensures InnerSoFar(d, group, path, index, |group|, inner) == Ok(inner)
  {
    hide InnerConditions, AppendTo;
    InnerRefuses(d, group[|group|..], path, index + |inner.params|);
    AppendNothing(inner);
  }

  lemma InnerStarts(d: Dialect, group: seq<FieldFilter>, path: seq<string>, index: nat)
    ensures InnerSoFar(d, group, path, index, 0, Fragment([], [])) == InnerConditions(d, group, path, index)
  {
    hide InnerConditions, AppendTo;
    assert group[0..] == group;
    AppendEmpty(InnerConditions(d, group, path, index));
  }

  method BuildInnerConditions(d: Dialect, group: seq<FieldFilter>, path: seq<string>, index: nat) returns (r: Result<Fragment>)
    ensures r == InnerConditions(d, group, path, index)
  {
    hide *;
    var inner := Fragment([], []);
    InnerStarts(d, group, path, index);
    for n := 0 to |group|
      invariant InnerConditions(d, group, path, index) == InnerSoFar(d, group, path, index, n, inner)
    {
      var f := group[n];
      InnerNext(d, group, path, index, n, inner);
      if !IsArrayAny(f) || f.arrayPath != path {
        return Err("array any filters must share one JSON array path");
      }
      if !ValidPath(f.path) {
        return Err("invalid JSON path segment");
      }
      var next := ScalarCondition(d, ElementAt(f.path), f, index + |inner.params|);
      if next.Err? {
        return Err(next.error);
      }
      inner := Append(inner, next.value);
    }
    InnerEnds(d, group, path, index, inner);
    return Ok(inner);
  }

  method BuildArrayAnyFilterCondition(d: Dialect, group: seq<FieldFilter>, index: nat) returns (r: Result<Fragment>)
    requires group != []
    ensures r == ArrayCondition(d, group, index)
  {
    hide InnerConditions, ValidPath;
    var path := group[0].arrayPath;
    if !ValidPath(path) {
      return Err("invalid JSON path segment");
    }
    var inner := BuildInnerConditions(d, group, path, index);
    if inner.Err? {
      return Err(inner.error);
    }
    var some := SomeElement(path, inner.value.where);
    return Ok(Fragment(if d.SQLite? then [IsArray(path), some] else [some], inner.value.params));
  }

  function AppendTo(first: Fragment, rest: Result<Fragment>): Result<Fragment> {
    if rest.Err? then rest else Ok(Append(first, rest.value))
  }

  lemma AppendParams(a: Fragment, b: Fragment)
    ensures |Append(a, b).params| == |a.params| + |b.params|
  {
  }

  lemma AppendNothing(a: Fragment)
    ensures AppendTo(a, Ok(Fragment([], []))) == Ok(a)
  {
    assert a.where + [] == a.where && a.params + [] == a.params;
  }

  lemma AppendEmpty(r: Result<Fragment>)
    ensures AppendTo(Fragment([], []), r) == r
  {
    if r.Ok? {
      assert [] + r.value.where == r.value.where && [] + r.value.params == r.value.params;
    }
  }

  lemma AppendAssociative(a: Fragment, b: Fragment, rest: Result<Fragment>)
    ensures AppendTo(a, AppendTo(b, rest)) == AppendTo(Append(a, b), rest)
  {
    if rest.Ok? {
      var c := rest.value;
      assert a.where + (b.where + c.where) == (a.where + b.where) + c.where;
      assert a.params + (b.params + c.params) == (a.params + b.params) + c.params;
    }
  }

  /** The clause so far, with the filters from `i` on to come. */
  function ClauseSoFar(d: Dialect, filters: seq<FieldFilter>, start: nat, i: nat, clause: Fragment): Result<Fragment>
    requires i <= |filters|
  {
    AppendTo(clause, Compile(d, filters, i, start + |clause.params|))
  }

  lemma ClauseEnds(d: Dialect, filters: seq<FieldFilter>, start: nat, clause: Fragment)
    ensures ClauseSoFar(d, filters, start, 0, Fragment([], [])) == Compile(d, filters, 0, start)
    ensures ClauseSoFar(d, filters, start, |filters|, clause) == Ok(clause)
  {
    hide Append, Condition;
    AppendEmpty(Compile(d, filters, 0, start));
    AppendNothing(clause);
  }

  lemma ClauseNext(d: Dialect, filters: seq<FieldFilter>, start: nat, i: nat, clause: Fragment)
    requires i < |filters|
    ensures var f, result := filters[i], ClauseSoFar(d, filters, start, i, clause);
            if IsArrayAny(f) && GroupKey(f) in KeysBefore(filters, i) then
              result == ClauseSoFar(d, filters, start, i + 1, clause)
            else
              var next := Condition(d, filters, i, start + |clause.params|);
              if next.Err? then result == Err(next.error)
              else result == ClauseSoFar(d, filters, start, i + 1, Append(clause, next.value))
  {
    hide Condition, KeysBefore, GroupKey, IsArrayAny;
    var next := Condition(d, filters, i, start + |clause.params|);
    if next.Ok? {
      AppendParams(clause, next.value);
      AppendAssociative(clause, next.value, Compile(d, filters, i + 1, start + |clause.params| + |next.value.params|));
    }
  }

  method BuildCondition(d: Dialect, filters: seq<FieldFilter>, i: nat, index: nat) returns (r: Result<Fragment>)
    requires i < |filters|
    ensures r == Condition(d, filters, i, index)
  {
    hide *;
    ConditionIs(d, filters, i, index);
    if IsArrayAny(filters[i]) {
      var group := CollectGroup(filters, i);
      r := BuildArrayAnyFilterCondition(d, group, index);
    } else {
      r := FieldCondition(d, filters[i], index);
    }
  }

  /** Walks the filters, building each array group at its first filter. */
  method BuildFilterClause(d: Dialect, filters: seq<FieldFilter>, start: nat) returns (r: Result<Fragment>)
    ensures r == Compile(d, filters, 0, start)
  {
    hide *;
    var clause, index := Fragment([], []), start;
    var processed: set<string> := {};
    NoKeysBefore(filters);
    ClauseEnds(d, filters, start, clause);
    for i := 0 to |filters|
      invariant index == start + |clause.params|
      invariant processed == KeysBefore(filters, i)
      invariant Compile(d, filters, 0, start) == ClauseSoFar(d, filters, start, i, clause)
    {
      var f := filters[i];
      KeysNext(filters, i);
      ClauseNext(d, filters, start, i, clause);
      if IsArrayAny(f) {
        if GroupKey(f) in processed {
          continue;
        }
        processed := processed + {GroupKey(f)};
      }
      var next := BuildCondition(d, filters, i, index);
      if next.Err? {
        return Err(next.error);
      }
      AppendParams(clause, next.value);
      clause := Append(clause, next.value);
      index := index + |next.value.params|;
    }
    ClauseEnds(d, filters, start, clause);
    return Ok(clause);
  }

  method CollectGroup(filters: seq<FieldFilter>, i: nat) returns (group: seq<FieldFilter>)
    requires i < |filters|
    ensures group == Group(filters[i..], GroupKey(filters[i])) && group != []
  {
    hide *;
    var key := GroupKey(filters[i]);
    group := [];
    GroupNext(filters, |filters|, key);
    for j := i to |filters|
      invariant Group(filters[i..], key) == group + Group(filters[j..], key)
      invariant j > i ==> group != []
    {
      GroupNext(filters, j, key);
      if GroupKey(filters[j]) == key {
        group := group + [filters[j]];
      }
    }
  }

  lemma GroupNext(filters: seq<FieldFilter>, j: nat, key: string)
    requires j <= |filters|
    ensures j == |filters| ==> Group(filters[j..], key) == []
    ensures j < |filters| ==>
              Group(filters[j..], key)
              == (if GroupKey(filters[j]) == key then [filters[j]] else []) + Group(filters[j + 1..], key)
  {
    if j < |filters| {
      assert filters[j..][0] == filters[j] && filters[j..][1..] == filters[j + 1..];
    }
  }

  lemma NoKeysBefore(filters: seq<FieldFilter>)
    ensures KeysBefore(filters, 0) == {}
  {
  }

  lemma KeysNext(filters: seq<FieldFilter>, i: nat)
    requires i < |filters|
    ensures KeysBefore(filters, i + 1)
            == KeysBefore(filters, i) + if IsArrayAny(filters[i]) then {GroupKey(filters[i])} else {}
  {
    hide IsArrayAny, GroupKey;
  }

  lemma ConditionIs(d: Dialect, filters: seq<FieldFilter>, i: nat, index: nat)
    requires i < |filters|
    ensures IsArrayAny(filters[i]) ==>
              var group := Group(filters[i..], GroupKey(filters[i]));
              group != [] && Condition(d, filters, i, index) == ArrayCondition(d, group, index)
    ensures !IsArrayAny(filters[i]) ==> Condition(d, filters, i, index) == FieldCondition(d, filters[i], index)
  {
    hide FieldCondition, ArrayCondition;
  }
}
