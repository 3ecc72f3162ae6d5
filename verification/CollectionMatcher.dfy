/** Which collections keep version history: the same choice made in Go and in SQL. */
module CollectionMatcher {
  import opened Text
  import opened Sql
  import RecordFilter
  import Like

  datatype Matcher = Matcher(exact: set<string>, prefixes: seq<string>)

  /** strings.HasSuffix(entry, ".*"). */
  predicate IsPattern(entry: string) {
    |entry| >= 2 && entry[|entry| - 2..] == ".*"
  }

  /** What one entry of the list says: an exact name, or everything below a prefix. */
  predicate EntryMatches(entry: string, collection: string) {
    if IsPattern(entry) then entry[..|entry| - 1] <= collection else entry == collection
  }

  predicate ListMatches(list: string, collection: string) {
    exists raw :: raw in Unjoin(list, ',') && TrimSpace(raw) != "" && EntryMatches(TrimSpace(raw), collection)
  }

  predicate Matches(m: Matcher, collection: string) {
    collection in m.exact || exists prefix :: prefix in m.prefixes && prefix <= collection
  }

  /** Parsing keeps the meaning of the list. */
  method NewCollectionMatcher(list: string) returns (m: Matcher)
    ensures forall collection :: Matches(m, collection) <==> ListMatches(list, collection)
    ensures m.exact == {} && m.prefixes == [] <==> forall raw :: raw in Unjoin(list, ',') ==> TrimSpace(raw) == ""
  {
    m := Matcher({}, []);
    var parts := Unjoin(list, ',');
    for i := 0 to |parts|
      invariant forall collection :: Matches(m, collection)
                  <==> exists raw :: raw in parts[..i] && TrimSpace(raw) != "" && EntryMatches(TrimSpace(raw), collection)
      invariant m.exact == {} && m.prefixes == [] <==> forall raw :: raw in parts[..i] ==> TrimSpace(raw) == ""
    {
      hide TrimSpace, Unjoin;
      var entry := TrimSpace(parts[i]);
      assert parts[..i + 1] == parts[..i] + [parts[i]];
      if entry == "" {
        continue;
      }
      var before := m;
      if IsPattern(entry) {
        m := m.(prefixes := m.prefixes + [entry[..|entry| - 1]]);
      } else {
        m := m.(exact := m.exact + {entry});
      }
      forall collection ensures Matches(m, collection) <==> Matches(before, collection) || EntryMatches(entry, collection) {
        AddEntry(before, m, entry, collection);
      }
    }
    assert parts[..|parts|] == parts;
  }

  lemma AddEntry(before: Matcher, m: Matcher, entry: string, collection: string)
    requires m == if IsPattern(entry) then before.(prefixes := before.prefixes + [entry[..|entry| - 1]])
                  else before.(exact := before.exact + {entry})
    ensures Matches(m, collection) <==> Matches(before, collection) || EntryMatches(entry, collection)
  {
    if IsPattern(entry) {
      var prefix := entry[..|entry| - 1];
      assert forall p :: p in m.prefixes <==> p in before.prefixes || p == prefix;
      if prefix <= collection {
        assert prefix in m.prefixes;
      }
    }
  }

  // ----- The SQL form -----

  /** Equalities, then LIKEs, one placeholder each. */
  function Part(m: Matcher, order: seq<string>, i: nat, base: nat): Cond
    requires i < |order| + |m.prefixes|
  {
    if i < |order| then Compare(ColumnOf(Collection), Eq, base + 1 + i) else LikeHole(ColumnOf(Collection), base + 1 + i)
  }

  function Param(m: Matcher, order: seq<string>, i: nat): Value
    requires i < |order| + |m.prefixes|
  {
    if i < |order| then Str(order[i]) else Str(Like.EscapeLike(m.prefixes[i - |order|]) + "%")
  }

  /** The WHERE predicate; `order` is the order in which the map of exact names is walked. */
  method SqlPredicate(m: Matcher, order: seq<string>, base: nat) returns (where: Cond, params: seq<Value>)
    requires forall name :: name in order <==> name in m.exact
    ensures |params| == |order| + |m.prefixes| && forall i: nat :: i < |params| ==> params[i] == Param(m, order, i)
    ensures if params == [] then where == Never
            else where.AnyOf? && |where.parts| == |params|
                 && forall i: nat :: i < |params| ==> where.parts[i] == Part(m, order, i, base)
  {
    var parts: seq<Cond> := [];
    params := [];
    for i := 0 to |order|
      invariant |parts| == |params| == i
      invariant forall j: nat :: j < i ==> parts[j] == Part(m, order, j, base) && params[j] == Param(m, order, j)
    {
      params := params + [Str(order[i])];
      parts := parts + [Compare(ColumnOf(Collection), Eq, base + |params|)];
    }
    for i := 0 to |m.prefixes|
      invariant |parts| == |params| == |order| + i
      invariant forall j: nat :: j < |parts| ==> parts[j] == Part(m, order, j, base) && params[j] == Param(m, order, j)
    {
      params := params + [Str(Like.EscapeLike(m.prefixes[i]) + "%")];
      parts := parts + [LikeHole(ColumnOf(Collection), base + |params|)];
    }
    where := if parts == [] then Never else AnyOf(parts);
  }

  lemma {:induction false} AnyOfSingles(env: Env, parts: seq<Cond>, values: seq<Value>)
    requires |parts| == |values| && forall c :: c in parts ==> |Holes(c)| == 1
    ensures |HolesOf(parts)| == |values|
    ensures EvalAny(env, parts, values) == True
            <==> exists i :: 0 <= i < |parts| && |Holes(parts[i])| == 1 && Eval(env, parts[i], [values[i]]) == True
  {
    hide Holes, Eval;
    if parts != [] {
      var rest := parts[1..];
      assert parts[0] in parts && forall c :: c in rest ==> c in parts;
      AnyOfSingles(env, rest, values[1..]);
      assert values[..1] == [values[0]];
      if i :| 0 < i < |parts| && Eval(env, parts[i], [values[i]]) == True {
        assert parts[i] == rest[i - 1] && values[i] == values[1..][i - 1];
      }
      if i :| 0 <= i < |rest| && Eval(env, rest[i], [values[1..][i]]) == True {
        assert parts[i + 1] == rest[i] && values[i + 1] == values[1..][i];
      }
    }
  }

  /** Text compares exactly and reads as itself. */
  ghost predicate ExactText(engine: Engine) {
    && RecordFilter.TextIsText(engine)
    && forall a, b :: engine.holds(Eq, Str(a), Str(b)) <==> a == b
  }

  /** What the predicate selects, under whatever characters LIKE identifies. */
  predicate Selected(m: Matcher, collection: string, same: Like.Matching) {
    collection in m.exact || exists prefix :: prefix in m.prefixes && Like.StartsWith(collection, prefix, same)
  }

  lemma PartMeaning(env: Env, m: Matcher, order: seq<string>, i: nat, base: nat)
    requires i < |order| + |m.prefixes| && ExactText(env.engine)
    ensures |Holes(Part(m, order, i, base))| == 1
    ensures Eval(env, Part(m, order, i, base), [Param(m, order, i)]) == True
            <==> if i < |order| then order[i] == env.row.collection
                 else Like.StartsWith(env.row.collection, m.prefixes[i - |order|], env.engine.same)
  {
    if i >= |order| {
      var prefix := m.prefixes[i - |order|];
      Like.EscapesAgree(prefix);
      Like.LikeIsStartsWith(env.row.collection, prefix, env.engine.same);
    }
    hide Like.Like, Like.StartsWith, Like.EscapeLike, Like.EscapeLIKE;
  }

  /** The clause SqlPredicate builds, with the values it binds. */
  lemma PredicateSelects(env: Env, m: Matcher, order: seq<string>, base: nat, where: Cond, params: seq<Value>)
    requires ExactText(env.engine) && forall name :: name in order <==> name in m.exact
    requires |params| == |order| + |m.prefixes| && forall i: nat :: i < |params| ==> params[i] == Param(m, order, i)
    requires if params == [] then where == Never
             else where.AnyOf? && |where.parts| == |params|
                  && forall i: nat :: i < |params| ==> where.parts[i] == Part(m, order, i, base)
    ensures |Holes(where)| == |params|
    ensures Eval(env, where, params) == True <==> Selected(m, env.row.collection, env.engine.same)
  {
    hide Like.StartsWith, Eval, Holes, Param;
    if params == [] {
      NeverFalse(env);
      assert order == [] && m.prefixes == [];
    } else {
      forall i: nat | i < |params|
        ensures |Holes(where.parts[i])| == 1
        ensures Eval(env, where.parts[i], [params[i]]) == True
                <==> if i < |order| then order[i] == env.row.collection
                     else Like.StartsWith(env.row.collection, m.prefixes[i - |order|], env.engine.same)
      {
        PartMeaning(env, m, order, i, base);
      }
      AnyOfSingles(env, where.parts, params);
      AnyOfIs(env, where.parts, params);
      PartsAreSelected(env, m, order, where.parts, params);
    }
  }

  lemma NeverFalse(env: Env)
    ensures Holes(Never) == [] && Eval(env, Never, []) == False
  {
  }

  lemma AnyOfIs(env: Env, parts: seq<Cond>, values: seq<Value>)
    requires |HolesOf(parts)| == |values|
    ensures |Holes(AnyOf(parts))| == |values| && Eval(env, AnyOf(parts), values) == EvalAny(env, parts, values)
  {
  }

  lemma PartsAreSelected(env: Env, m: Matcher, order: seq<string>, parts: seq<Cond>, params: seq<Value>)
    requires forall name :: name in order <==> name in m.exact
    requires |parts| == |params| == |order| + |m.prefixes|
    requires forall i: nat :: i < |params| ==> |Holes(parts[i])| == 1
    requires forall i: nat :: i < |params| ==>
               (Eval(env, parts[i], [params[i]]) == True
                <==> if i < |order| then order[i] == env.row.collection
                     else Like.StartsWith(env.row.collection, m.prefixes[i - |order|], env.engine.same))
    ensures (exists i :: 0 <= i < |parts| && |Holes(parts[i])| == 1 && Eval(env, parts[i], [params[i]]) == True)
            <==> Selected(m, env.row.collection, env.engine.same)
  {
    hide Holes, Eval, Like.StartsWith;
    var collection := env.row.collection;
    if collection in m.exact {
      var i: nat :| i < |order| && order[i] == collection;
      assert Eval(env, parts[i], [params[i]]) == True;
    }
    if prefix :| prefix in m.prefixes && Like.StartsWith(collection, prefix, env.engine.same) {
      var i: nat :| i < |m.prefixes| && m.prefixes[i] == prefix;
      assert Eval(env, parts[|order| + i], [params[|order| + i]]) == True;
    }
    if i: nat :| i < |parts| && Eval(env, parts[i], [params[i]]) == True {
      assert i < |order| ==> order[i] in order;
      assert i >= |order| ==> m.prefixes[i - |order|] in m.prefixes;
    }
  }

  /** With a case-sensitive LIKE, the SQL predicate selects exactly what Matches accepts. */
  lemma CaseSensitiveAgrees(m: Matcher, collection: string, same: Like.Matching)
    requires forall a, b :: same(a, b) <==> a == b
    ensures Selected(m, collection, same) <==> Matches(m, collection)
  {
    forall prefix ensures Like.StartsWith(collection, prefix, same) <==> prefix <= collection {
    }
  }

  /** Every spelling of a prefix that LIKE cannot tell apart is itself below some prefix. */
  ghost predicate SpellingsCovered(m: Matcher, same: Like.Matching) {
    forall prefix, spelling :: prefix in m.prefixes && |spelling| == |prefix| && Like.StartsWith(spelling, prefix, same) ==>
      exists other :: other in m.prefixes && other <= spelling
  }

  lemma LongerThanAll(names: set<string>) returns (n: nat)
    ensures forall name :: name in names ==> |name| < n
  {
    if names == {} {
      n := 0;
    } else {
      var name :| name in names;
      var rest := names - {name};
      var k := LongerThanAll(rest);
      n := if |name| < k then k else |name| + 1;
      assert forall other :: other in names ==> other == name || other in rest;
    }
  }

  /** LIKE on SQLite ignores ASCII case. There the SQL predicate agrees with Matches on all collections
      exactly when every spelling of each prefix is covered. `unused` is a character no prefix contains. */
  lemma FoldingAgrees(m: Matcher, same: Like.Matching, unused: char)
    requires forall a :: same(a, a)
    requires forall prefix :: prefix in m.prefixes ==> unused !in prefix
    ensures (forall collection :: Selected(m, collection, same) <==> Matches(m, collection)) <==> SpellingsCovered(m, same)
  {
    if forall collection :: Selected(m, collection, same) <==> Matches(m, collection) {
      var n := LongerThanAll(m.exact);
      forall prefix, spelling | prefix in m.prefixes && |spelling| == |prefix| && Like.StartsWith(spelling, prefix, same)
        ensures exists other :: other in m.prefixes && other <= spelling
      {
        var collection := spelling + seq(n, i => unused);
        assert Like.StartsWith(collection, prefix, same);
        assert Selected(m, collection, same) && Matches(m, collection) && collection !in m.exact;
        var other :| other in m.prefixes && other <= collection;
        assert |collection| > |spelling| ==> collection[|spelling|] == unused;
        assert forall i :: 0 <= i < |other| ==> other[i] in other && other[i] == collection[i];
      }
    }
    if SpellingsCovered(m, same) {
      forall collection ensures Selected(m, collection, same) <==> Matches(m, collection) {
        if prefix :| prefix in m.prefixes && Like.StartsWith(collection, prefix, same) {
          var spelling := collection[..|prefix|];
          assert Like.StartsWith(spelling, prefix, same);
          var other :| other in m.prefixes && other <= spelling;
          assert other <= collection;
        }
        if prefix :| prefix in m.prefixes && prefix <= collection {
          assert Like.StartsWith(collection, prefix, same);
        }
      }
    }
  }

  lemma FoldingDisagrees(same: Like.Matching) returns (m: Matcher, collection: string)
    requires same('A', 'a') && same('.', '.')
    ensures Selected(m, collection, same) && !Matches(m, collection)
  {
    m, collection := Matcher({}, ["a."]), "A.b";
    assert Like.StartsWith(collection, "a.", same);
    assert "a." in m.prefixes && "a."[0] != collection[0];
  }
}
