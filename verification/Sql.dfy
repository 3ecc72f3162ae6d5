/** The SQL the record queries are made of: values, three-valued conditions whose placeholders are
    bound by position or by number, and what they mean on one row. */
module Sql {
  import opened Text
  import ActiveLabels
  import Like

  datatype Dialect = SQLite | PostgreSQL

  datatype Value = Null | Str(text: string) | Number(number: real) | Flag(flag: bool)

  datatype Truth = True | False | Unknown

  datatype Json =
    | JsonNull
    | JsonFlag(flag: bool)
    | JsonNumber(number: real)
    | JsonText(text: string)
    | JsonArray(items: seq<Json>)
    | JsonObject(fields: map<string, Json>)

  datatype Column = Uri | Cid | Did | Collection | Rkey | IndexedAt | RecordCreatedAt | ValidationStatus

  /** A row of the record table. Timestamps are in the normalized form whose text order is time order. */
  datatype Record = Record(uri: string, cid: string, did: string, collection: string, rkey: string, json: Json,
                           indexedAt: string, createdAt: Option<string>, status: string)

  datatype Op = Eq | Neq | Gt | Lt | Gte | Lte

  /** What a database engine decides for itself: comparisons of mixed types, numeric casts, how a
      JSON value reads as a column value, and which characters LIKE identifies. */
  datatype Engine = Engine(
    holds: (Op, Value, Value) -> bool,
    number: Value -> Value,
    scalar: Json -> Value,
    text: Value -> string,
    same: Like.Matching)

  /** The rows in reach of a condition: the tables, the record being filtered, and inside a
      subquery the array element or the label it ranges over. */
  datatype Env = Env(
    engine: Engine,
    records: map<string, Record>,
    labels: set<ActiveLabels.Row>,
    now: int,
    row: Record,
    element: Option<Json>,
    entryRow: Option<ActiveLabels.Row>)

  datatype Expr =
    | ColumnOf(column: Column)
    | JsonAt(path: seq<string>)
    | ElementAt(path: seq<string>)
    | AsNumber(of: Expr)
    | JoinedAt(uri: Expr, collection: string, path: seq<string>)
    | LabelSource
    | LabelValue

  datatype Cond =
    | Never
    | Compare(left: Expr, op: Op, hole: nat)
    | CompareRow(first: Expr, second: Expr, op: Op, hole1: nat, hole2: nat)
    | LikeHole(left: Expr, hole: nat)
    | InList(left: Expr, holes: seq<nat>)
    | IsNull(left: Expr)
    | IsNotNull(left: Expr)
    | ColumnIs(column: Column, literal: string)
    | IsArray(path: seq<string>)
    | SomeElement(path: seq<string>, such: seq<Cond>)
    | JoinedIn(uri: Expr, collection: string, path: seq<string>, holes: seq<nat>)
    | LabelOnRecord
    | LabelOnAuthor
    | LabelActive
    | SomeLabel(such: seq<Cond>)
    | NoLabel(such: seq<Cond>)
    | AllOf(parts: seq<Cond>)
    | AnyOf(parts: seq<Cond>)

  // ----- JSON and expressions -----

  function Lookup(json: Json, path: seq<string>): Option<Json>
    decreases |path|
  {
    if path == [] then Some(json)
    else if json.JsonObject? && path[0] in json.fields then Lookup(json.fields[path[0]], path[1..])
    else None
  }

  /** The items of the array at a path; nothing when there is no array there. */
  function Items(json: Json, path: seq<string>): seq<Json> {
    match Lookup(json, path)
    case Some(JsonArray(items)) => items
    case _ => []
  }

  function ScalarAt(engine: Engine, json: Json, path: seq<string>): Value {
    match Lookup(json, path)
    case Some(value) => engine.scalar(value)
    case None => Null
  }

  function Nullable(text: Option<string>): Value {
    if text.Some? then Str(text.value) else Null
  }

  function ColumnValue(row: Record, column: Column): Value {
    match column
    case Uri => Str(row.uri)
    case Cid => Str(row.cid)
    case Did => Str(row.did)
    case Collection => Str(row.collection)
    case Rkey => Str(row.rkey)
    case IndexedAt => Str(row.indexedAt)
    case RecordCreatedAt => Nullable(row.createdAt)
    case ValidationStatus => Str(row.status)
  }

  /** The record of a collection that a URI value refers to. */
  function Joined(env: Env, uri: Value, collection: string): Option<Record> {
    if uri.Str? && uri.text in env.records && env.records[uri.text].collection == collection
    then Some(env.records[uri.text]) else None
  }

  function ExprValue(env: Env, e: Expr): Value {
    match e
    case ColumnOf(column) => ColumnValue(env.row, column)
    case JsonAt(path) => ScalarAt(env.engine, env.row.json, path)
    case ElementAt(path) => if env.element.Some? then ScalarAt(env.engine, env.element.value, path) else Null
    case AsNumber(of) => env.engine.number(ExprValue(env, of))
    case JoinedAt(uri, collection, path) =>
      var joined := Joined(env, ExprValue(env, uri), collection);
      if joined.Some? then ScalarAt(env.engine, joined.value.json, path) else Null
    case LabelSource => if env.entryRow.Some? then Str(env.entryRow.value.entry.src) else Null
    case LabelValue => if env.entryRow.Some? then Str(env.entryRow.value.entry.val) else Null
  }

  // ----- Placeholders -----

  /** The placeholders of a condition in text order. */
  function Holes(c: Cond): seq<nat> {
    match c
    case Compare(_, _, hole) => [hole]
    case CompareRow(_, _, _, hole1, hole2) => [hole1, hole2]
    case LikeHole(_, hole) => [hole]
    case InList(_, holes) => holes
    case JoinedIn(_, _, _, holes) => holes
    case SomeElement(_, such) => HolesOf(such)
    case SomeLabel(such) => HolesOf(such)
    case NoLabel(such) => HolesOf(such)
    case AllOf(parts) => HolesOf(parts)
    case AnyOf(parts) => HolesOf(parts)
    case _ => []
  }

  function HolesOf(cs: seq<Cond>): seq<nat> {
    if cs == [] then [] else Holes(cs[0]) + HolesOf(cs[1..])
  }

  /** The placeholders belong to `params`, whose first value is number `start`: PostgreSQL looks
      each `$n` up, SQLite hands out the values in text order, so there must be exactly as many. */
  ghost predicate Numbered(d: Dialect, holes: seq<nat>, start: nat, params: seq<Value>) {
    match d
    case SQLite => |holes| == |params|
    case PostgreSQL => forall i :: 0 <= i < |holes| ==> start <= holes[i] < start + |params|
  }

  /** The values the placeholders receive, in text order. */
  ghost function Bound(d: Dialect, holes: seq<nat>, start: nat, params: seq<Value>): (values: seq<Value>)
    requires Numbered(d, holes, start, params)
    ensures |values| == |holes|
  {
    match d
    case SQLite => params
    case PostgreSQL => seq(|holes|, i requires 0 <= i < |holes| => params[holes[i] - start])
  }

  // ----- Evaluation -----

  function Decide(b: bool): Truth {
    if b then True else False
  }

  function And(a: Truth, b: Truth): Truth {
    if a == False || b == False then False else if a == True && b == True then True else Unknown
  }

  function Or(a: Truth, b: Truth): Truth {
    if a == True || b == True then True else if a == False && b == False then False else Unknown
  }

  function CompareValues(engine: Engine, op: Op, a: Value, b: Value): Truth {
    if a == Null || b == Null then Unknown else Decide(engine.holds(op, a, b))
  }

  /** `(a1, a2) < (b1, b2)` and its mirror, lexicographically. */
  function CompareRows(engine: Engine, op: Op, a1: Value, a2: Value, b1: Value, b2: Value): Truth {
    Or(CompareValues(engine, op, a1, b1),
       And(CompareValues(engine, Eq, a1, b1), CompareValues(engine, op, a2, b2)))
  }

  /** `a IN (…)`: a disjunction of equalities. */
  function Among(engine: Engine, a: Value, values: seq<Value>): Truth {
    if values == [] then False else Or(CompareValues(engine, Eq, a, values[0]), Among(engine, a, values[1..]))
  }

  predicate LabelFits(author: bool, entry: ActiveLabels.Label, row: Record) {
    if author then entry.uri == row.did && entry.cid == None
    else entry.uri == row.uri && (entry.cid == None || entry.cid == Some(row.cid))
  }

  /** The condition on one row, its placeholders holding `values` in text order. */
  ghost function Eval(env: Env, c: Cond, values: seq<Value>): Truth
    requires |values| == |Holes(c)|
    decreases c
  {
    match c
    case Never => False
    case Compare(left, op, _) => CompareValues(env.engine, op, ExprValue(env, left), values[0])
    case CompareRow(first, second, op, _, _) =>
      CompareRows(env.engine, op, ExprValue(env, first), ExprValue(env, second), values[0], values[1])
    case LikeHole(left, _) =>
      if ExprValue(env, left) == Null || values[0] == Null then Unknown
      else Decide(Like.Like(env.engine.text(ExprValue(env, left)), env.engine.text(values[0]), env.engine.same))
    case InList(left, _) => Among(env.engine, ExprValue(env, left), values)
    case IsNull(left) => Decide(ExprValue(env, left) == Null)
    case IsNotNull(left) => Decide(ExprValue(env, left) != Null)
    case ColumnIs(column, literal) => Decide(ColumnValue(env.row, column) == Str(literal))
    case IsArray(path) =>
      var at := Lookup(env.row.json, path);
      if at.None? then Unknown else Decide(at.value.JsonArray?)
    case SomeElement(path, such) =>
      Decide(exists x :: x in Items(env.row.json, path) && EvalAll(env.(element := Some(x)), such, values) == True)
    case JoinedIn(uri, collection, path, _) =>
      var joined := Joined(env, ExprValue(env, uri), collection);
      Decide(joined.Some? && Among(env.engine, ScalarAt(env.engine, joined.value.json, path), values) == True)
    case LabelOnRecord => Decide(env.entryRow.Some? && LabelFits(false, env.entryRow.value.entry, env.row))
    case LabelOnAuthor => Decide(env.entryRow.Some? && LabelFits(true, env.entryRow.value.entry, env.row))
    case LabelActive => Decide(env.entryRow.Some? && ActiveLabels.Active(env.labels, env.now, env.entryRow.value))
    case SomeLabel(such) =>
      Decide(exists l :: l in env.labels && EvalAll(env.(entryRow := Some(l)), such, values) == True)
    case NoLabel(such) =>
      Decide(!exists l :: l in env.labels && EvalAll(env.(entryRow := Some(l)), such, values) == True)
    case AllOf(parts) => EvalAll(env, parts, values)
    case AnyOf(parts) => EvalAny(env, parts, values)
  }

  ghost function EvalAll(env: Env, cs: seq<Cond>, values: seq<Value>): Truth
    requires |values| == |HolesOf(cs)|
    decreases cs
  {
    if cs == [] then True
    else
      var n := |Holes(cs[0])|;
      And(Eval(env, cs[0], values[..n]), EvalAll(env, cs[1..], values[n..]))
  }

  ghost function EvalAny(env: Env, cs: seq<Cond>, values: seq<Value>): Truth
    requires |values| == |HolesOf(cs)|
    decreases cs
  {
    if cs == [] then False
    else
      var n := |Holes(cs[0])|;
      Or(Eval(env, cs[0], values[..n]), EvalAny(env, cs[1..], values[n..]))
  }

  /** A WHERE clause keeps the rows on which it is TRUE. */
  ghost predicate Keeps(env: Env, d: Dialect, where: seq<Cond>, start: nat, params: seq<Value>)
    requires Numbered(d, HolesOf(where), start, params)
  {
    EvalAll(env, where, Bound(d, HolesOf(where), start, params)) == True
  }

  lemma {:induction false} AmongTrue(engine: Engine, a: Value, values: seq<Value>)
    ensures Among(engine, a, values) == True
            <==> a != Null && exists v :: v in values && v != Null && engine.holds(Eq, a, v)
  {
    if values != [] {
      AmongTrue(engine, a, values[1..]);
      assert forall v :: v in values <==> v == values[0] || v in values[1..];
    }
  }

  lemma {:induction false} HolesConcat(a: seq<Cond>, b: seq<Cond>)
    ensures HolesOf(a + b) == HolesOf(a) + HolesOf(b)
  {
    if a == [] {
      assert a + b == b;
    } else {
      assert (a + b)[1..] == a[1..] + b;
      HolesConcat(a[1..], b);
    }
  }

  lemma {:induction false} EvalConcat(env: Env, a: seq<Cond>, b: seq<Cond>, va: seq<Value>, vb: seq<Value>)
    requires |va| == |HolesOf(a)| && |vb| == |HolesOf(b)|
    ensures |va + vb| == |HolesOf(a + b)|
    ensures EvalAll(env, a + b, va + vb) == True <==> EvalAll(env, a, va) == True && EvalAll(env, b, vb) == True
  {
    HolesConcat(a, b);
    if a == [] {
      assert a + b == b && va + vb == vb;
    } else {
      var n := |Holes(a[0])|;
      assert (a + b)[1..] == a[1..] + b;
      assert (va + vb)[..n] == va[..n] && (va + vb)[n..] == va[n..] + vb;
      EvalConcat(env, a[1..], b, va[n..], vb);
    }
  }

  lemma BoundConcat(d: Dialect, a: seq<nat>, b: seq<nat>, start: nat, pa: seq<Value>, pb: seq<Value>)
    requires Numbered(d, a, start, pa) && Numbered(d, b, start + |pa|, pb)
    ensures Numbered(d, a + b, start, pa + pb)
    ensures Bound(d, a + b, start, pa + pb) == Bound(d, a, start, pa) + Bound(d, b, start + |pa|, pb)
  {
    if d.PostgreSQL? {
      forall i | 0 <= i < |a + b| ensures start <= (a + b)[i] < start + |pa + pb| {
        assert (a + b)[i] == if i < |a| then a[i] else b[i - |a|];
      }
    }
  }

  /** Clauses numbered one after the other join into one: it is numbered over both parameter lists
      and keeps what both keep. */
  lemma KeepsConcat(env: Env, d: Dialect, a: seq<Cond>, b: seq<Cond>, start: nat, pa: seq<Value>, pb: seq<Value>)
    requires Numbered(d, HolesOf(a), start, pa) && Numbered(d, HolesOf(b), start + |pa|, pb)
    ensures Numbered(d, HolesOf(a + b), start, pa + pb)
    ensures Keeps(env, d, a + b, start, pa + pb)
            <==> Keeps(env, d, a, start, pa) && Keeps(env, d, b, start + |pa|, pb)
  {
    hide Numbered, Bound, EvalAll, HolesOf;
    HolesConcat(a, b);
    BoundConcat(d, HolesOf(a), HolesOf(b), start, pa, pb);
    EvalConcat(env, a, b, Bound(d, HolesOf(a), start, pa), Bound(d, HolesOf(b), start + |pa|, pb));
  }

  /** A clause of one condition. */
  lemma SingleKeeps(env: Env, d: Dialect, c: Cond, index: nat, params: seq<Value>)
    requires Numbered(d, Holes(c), index, params)
    ensures HolesOf([c]) == Holes(c)
    ensures Keeps(env, d, [c], index, params) <==> Eval(env, c, Bound(d, Holes(c), index, params)) == True
  {
    assert [c][1..] == [];
    assert HolesOf([c]) == Holes(c);
    EvalSingle(env, c, Bound(d, Holes(c), index, params));
  }

  lemma EvalSingle(env: Env, c: Cond, values: seq<Value>)
    requires |values| == |Holes(c)|
    ensures |HolesOf([c])| == |values| && (EvalAll(env, [c], values) == True <==> Eval(env, c, values) == True)
  {
    hide Eval, Holes;
    assert [c][1..] == [];
    assert HolesOf([c]) == Holes(c);
    assert values[..|Holes(c)|] == values && values[|Holes(c)|..] == [];
    assert EvalAll(env, [], []) == True;
  }
}
