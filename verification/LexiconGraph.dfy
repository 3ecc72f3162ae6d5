/** The references between saved lexicons and the fingerprint made from everything a collection reaches. */
module LexiconGraph {
  import opened Text
  import opened Sorting
  import Sql

  type Json = Sql.Json

  datatype Document = Document(id: string, defs: map<string, Json>)

  /** Decoding and hashing of lexicon bytes, as the standard library does them. */
  datatype Tools = Tools(parse: string -> Option<Document>, hash: string -> string)

  type Saved = map<string, string>

  type Graph = map<string, seq<string>>

  // ----- References -----

  function NormalizeRef(reference: string, context: string): string {
    var full := if reference != "" && reference[0] == '#' then context + reference else reference;
    if |full| >= 5 && full[|full| - 5..] == "#main" then full[..|full| - 5] else full
  }

  function DefinitionRef(id: string, name: string): string {
    if name == "main" then id else id + "#" + name
  }

  /** The lexicon a definition belongs to. */
  function LexiconId(node: string): string {
    match IndexOf(node, "#")
    case None => node
    case Some(i) => node[..i]
  }

  /** The references an object states itself: its `ref`, and the texts in its `refs`. */
  function OwnRefs(fields: map<string, Json>, context: string): set<string> {
    (if "ref" in fields && fields["ref"].JsonText? && fields["ref"].text != "" then {NormalizeRef(fields["ref"].text, context)} else {})
    + (if "refs" in fields && fields["refs"].JsonArray? then
         set x | x in fields["refs"].items && x.JsonText? && x.text != "" :: NormalizeRef(x.text, context)
       else {})
  }

  /** All references at any depth of a definition. */
  function Refs(value: Json, context: string): set<string> {
    match value
    case JsonObject(fields) => OwnRefs(fields, context) + set k, r | k in fields && r in Refs(fields[k], context) :: r
    case JsonArray(items) => set x, r | x in items && r in Refs(x, context) :: r
    case _ => {}
  }

  // ----- The graph -----

  /** A definition of a saved lexicon. */
  predicate Defines(saved: Saved, parse: string -> Option<Document>, id: string, name: string) {
    id in saved && parse(saved[id]).Some? && name in parse(saved[id]).value.defs
  }

  ghost predicate Parses(saved: Saved, parse: string -> Option<Document>) {
    forall id :: id in saved ==> parse(saved[id]).Some? && parse(saved[id]).value.id == id
  }

  /** The graph has a node for every saved definition, with exactly its references. */
  ghost predicate IsGraph(graph: Graph, saved: Saved, parse: string -> Option<Document>) {
    Parses(saved, parse) && HasDefinitions(graph, saved, parse) && OnlyDefinitions(graph, saved, parse)
  }

  ghost predicate HasDefinitions(graph: Graph, saved: Saved, parse: string -> Option<Document>) {
    forall id, name :: Defines(saved, parse, id, name) ==>
      DefinitionRef(id, name) in graph
      && Elements(graph[DefinitionRef(id, name)]) == Refs(parse(saved[id]).value.defs[name], id)
  }

  ghost predicate OnlyDefinitions(graph: Graph, saved: Saved, parse: string -> Option<Document>) {
    forall node :: node in graph ==> exists id, name :: Defines(saved, parse, id, name) && node == DefinitionRef(id, name)
  }

  /** Lexicon ids are NSIDs. */
  predicate PlainId(id: string) {
    '#' !in id && '\n' !in id
  }

  ghost predicate PlainIds(saved: Saved) {
    forall id :: id in saved ==> PlainId(id)
  }

  lemma DefinitionOf(id: string, name: string)
    requires '#' !in id
    ensures LexiconId(DefinitionRef(id, name)) == id && LexiconId(id) == id
  {
    IndexOfSeparator(id, '#', name);
    assert (id + "#" + name)[..|id|] == id;
  }

  /** With plain ids different definitions are different nodes. */
  lemma DefinitionRefInjective(id1: string, name1: string, id2: string, name2: string)
    requires '#' !in id1 && '#' !in id2 && DefinitionRef(id1, name1) == DefinitionRef(id2, name2)
    ensures id1 == id2 && name1 == name2
  {
    DefinitionOf(id1, name1);
    DefinitionOf(id2, name2);
    if name1 != "main" && name2 != "main" {
      assert DefinitionRef(id1, name1)[|id1| + 1..] == name1 && DefinitionRef(id2, name2)[|id2| + 1..] == name2;
    }
    assert |id2 + "#" + name2| > |id2| && |id1 + "#" + name1| > |id1|;
  }

  /** Any documents under their own ids are taken; with plain ids no two definitions share a node. */
  method BuildReferenceGraph(saved: Saved, parse: string -> Option<Document>) returns (r: Result<Graph>)
    ensures r.Ok? <==> Parses(saved, parse)
    ensures r.Ok? && PlainIds(saved) ==> IsGraph(r.value, saved, parse)
  {
    hide *;
    var ids := SortTexts(saved.Keys);
    var graph: Graph := map[];
    ghost var done: Saved := map[];
    NoDocuments(saved, ids, parse);
    for i := 0 to |ids|
      invariant done == FirstOf(saved, ids, i) && Parses(done, parse)
      invariant PlainIds(saved) ==> IsGraph(graph, done, parse)
    {
      NextDocument(saved, ids, i, parse);
      var document := parse(saved[ids[i]]);
      if document.None? {
        return Err("failed to inspect references");
      }
      if document.value.id != ids[i] {
        return Err("lexicon ID mismatch");
      }
      graph := AddDocument(graph, done, saved[ids[i]], document.value, parse);
      done := done[ids[i] := saved[ids[i]]];
    }
    AllDocuments(saved, ids, graph, parse);
    return Ok(graph);
  }

  function FirstOf(saved: Saved, ids: seq<string>, i: nat): Saved
    requires i <= |ids|
  {
    map id | id in ids[..i] && id in saved :: saved[id]
  }

  lemma NoDocuments(saved: Saved, ids: seq<string>, parse: string -> Option<Document>)
    ensures FirstOf(saved, ids, 0) == map[] && IsGraph(map[], map[], parse) && Parses(map[], parse)
  {
    hide Refs;
  }

  lemma NextDocument(saved: Saved, ids: seq<string>, i: nat, parse: string -> Option<Document>)
    requires IsSorting(ids, saved.Keys, Before) && i < |ids|
    ensures ids[i] in saved && ids[i] !in FirstOf(saved, ids, i)
    ensures FirstOf(saved, ids, i + 1) == FirstOf(saved, ids, i)[ids[i] := saved[ids[i]]]
    ensures PlainIds(saved) ==> PlainIds(FirstOf(saved, ids, i)) && PlainId(ids[i])
    ensures Parses(FirstOf(saved, ids, i), parse) && parse(saved[ids[i]]).Some? && parse(saved[ids[i]]).value.id == ids[i]
            ==> Parses(FirstOf(saved, ids, i + 1), parse)
    ensures parse(saved[ids[i]]).None? || parse(saved[ids[i]]).value.id != ids[i] ==> !Parses(saved, parse)
  {
    hide Before, PlainId;
    assert ids[i] in Elements(ids);
    assert ids[..i + 1] == ids[..i] + [ids[i]];
    IdsNotRepeated(ids, i);
  }

  lemma AllDocuments(saved: Saved, ids: seq<string>, graph: Graph, parse: string -> Option<Document>)
    requires IsSorting(ids, saved.Keys, Before) && Parses(FirstOf(saved, ids, |ids|), parse)
    ensures IsGraph(graph, FirstOf(saved, ids, |ids|), parse) ==> IsGraph(graph, saved, parse)
    ensures Parses(saved, parse)
  {
    hide Before, Refs, Ascending;
    assert ids[..|ids|] == ids;
    assert forall id :: id in ids <==> id in Elements(ids);
    assert FirstOf(saved, ids, |ids|) == saved;
  }

  lemma IdsNotRepeated(ids: seq<string>, i: nat)
    requires Ascending(ids, Before) && i < |ids|
    ensures ids[i] !in ids[..i]
  {
    BeforeTotal(ids[i], ids[i]);
    forall j | 0 <= j < i ensures ids[j] != ids[i] {
      assert Before(ids[j], ids[i]);
    }
  }

  /** Adds a document's definitions to the graph of the documents before it. */
  method AddDocument(graph: Graph, ghost done: Saved, raw: string, document: Document, parse: string -> Option<Document>)
    returns (next: Graph)
    requires parse(raw) == Some(document) && document.id !in done
    ensures IsGraph(graph, done, parse) && PlainIds(done) && PlainId(document.id) ==> IsGraph(next, done[document.id := raw], parse)
  {
    hide *;
    next := graph;
    var names := SortTexts(document.defs.Keys);
    NoDefinitions(graph, document, names);
    for k := 0 to |names|
      invariant PlainId(document.id) ==> WithDefinitions(next, graph, document, names[..k])
    {
      NameDefined(document, names, k);
      var refs := SortTexts(Refs(document.defs[names[k]], document.id));
      SortedElements(refs, Refs(document.defs[names[k]], document.id));
      if PlainId(document.id) {
        WithOneMore(next, graph, document, names, k, refs);
      }
      next := next[DefinitionRef(document.id, names[k]) := refs];
    }
    assert names[..|names|] == names;
    AllNames(document, names);
    if IsGraph(graph, done, parse) && PlainIds(done) && PlainId(document.id) {
      DocumentAdded(next, graph, done, raw, document, names, parse);
    }
  }

  lemma SortedElements(refs: seq<string>, texts: set<string>)
    requires IsSorting(refs, texts, Before)
    ensures Elements(refs) == texts
  {
  }

  lemma NoDefinitions(graph: Graph, document: Document, names: seq<string>)
    ensures WithDefinitions(graph, graph, document, names[..0])
  {
    hide Refs, DefinitionRef;
  }

  lemma NameDefined(document: Document, names: seq<string>, k: nat)
    requires IsSorting(names, document.defs.Keys, Before) && k < |names|
    ensures names[k] in document.defs
  {
    assert names[k] in Elements(names);
  }

  lemma AllNames(document: Document, names: seq<string>)
    requires IsSorting(names, document.defs.Keys, Before)
    ensures forall name :: name in names <==> name in document.defs
  {
    assert forall name :: name in names <==> name in Elements(names);
  }

  ghost predicate WithDefinitions(next: Graph, graph: Graph, document: Document, names: seq<string>) {
    && (forall node :: node in next <==> node in graph || exists name :: name in names && node == DefinitionRef(document.id, name))
    && (forall name :: name in names ==>
          name in document.defs && DefinitionRef(document.id, name) in next
          && Elements(next[DefinitionRef(document.id, name)]) == Refs(document.defs[name], document.id))
    && (forall node :: node in graph && LexiconId(node) != document.id ==> node in next && next[node] == graph[node])
  }

  lemma WithOneMore(next: Graph, graph: Graph, document: Document, names: seq<string>, k: nat, refs: seq<string>)
    requires k < |names| && WithDefinitions(next, graph, document, names[..k]) && PlainId(document.id)
    requires names[k] in document.defs && Elements(refs) == Refs(document.defs[names[k]], document.id)
    ensures WithDefinitions(next[DefinitionRef(document.id, names[k]) := refs], graph, document, names[..k + 1])
  {
    hide Refs, DefinitionRef, LexiconId;
    var node := DefinitionRef(document.id, names[k]);
    assert names[..k + 1] == names[..k] + [names[k]];
    assert forall name :: name in names[..k + 1] <==> name in names[..k] || name == names[k];
    DefinitionOf(document.id, names[k]);
    forall name | name in names[..k] && DefinitionRef(document.id, name) == node ensures name == names[k] {
      DefinitionRefInjective(document.id, name, document.id, names[k]);
    }
  }

  lemma DocumentAdded(next: Graph, graph: Graph, done: Saved, raw: string, document: Document, names: seq<string>,
                      parse: string -> Option<Document>)
    requires IsGraph(graph, done, parse) && PlainIds(done) && PlainId(document.id)
    requires parse(raw) == Some(document) && document.id !in done
    requires WithDefinitions(next, graph, document, names) && forall name :: name in names <==> name in document.defs
    ensures IsGraph(next, done[document.id := raw], parse)
  {
    hide *;
    ParsesAdded(graph, done, raw, document, parse);
    DefinitionsAdded(next, graph, done, raw, document, names, parse);
    NodesAdded(next, graph, done, raw, document, names, parse);
    IsGraphOf(next, done[document.id := raw], parse);
  }

  lemma IsGraphOf(graph: Graph, saved: Saved, parse: string -> Option<Document>)
    requires Parses(saved, parse) && HasDefinitions(graph, saved, parse) && OnlyDefinitions(graph, saved, parse)
    ensures IsGraph(graph, saved, parse)
  {
  }

  lemma ParsesAdded(graph: Graph, done: Saved, raw: string, document: Document, parse: string -> Option<Document>)
    requires IsGraph(graph, done, parse) && parse(raw) == Some(document)
    ensures Parses(done[document.id := raw], parse)
  {
    hide HasDefinitions, OnlyDefinitions;
  }

  lemma DefinitionsAdded(next: Graph, graph: Graph, done: Saved, raw: string, document: Document, names: seq<string>,
                         parse: string -> Option<Document>)
    requires IsGraph(graph, done, parse) && PlainIds(done) && parse(raw) == Some(document)
    requires WithDefinitions(next, graph, document, names) && forall n :: n in names <==> n in document.defs
    ensures HasDefinitions(next, done[document.id := raw], parse)
  {
    hide IsGraph, WithDefinitions, PlainIds, Refs, DefinitionRef, Elements;
    forall id, name | Defines(done[document.id := raw], parse, id, name)
      ensures DefinitionRef(id, name) in next
              && Elements(next[DefinitionRef(id, name)])
                 == Refs(parse(done[document.id := raw][id]).value.defs[name], id)
    {
      DefinitionKept(next, graph, done, raw, document, names, parse, id, name);
    }
  }

  lemma NodesAdded(next: Graph, graph: Graph, done: Saved, raw: string, document: Document, names: seq<string>,
                   parse: string -> Option<Document>)
    requires IsGraph(graph, done, parse) && parse(raw) == Some(document) && document.id !in done
    requires WithDefinitions(next, graph, document, names) && forall n :: n in names <==> n in document.defs
    ensures OnlyDefinitions(next, done[document.id := raw], parse)
  {
    assert OnlyDefinitions(graph, done, parse);
    assert forall node :: node in next <==> node in graph || exists name :: name in names && node == DefinitionRef(document.id, name);
    hide IsGraph, WithDefinitions, Refs, DefinitionRef, Elements, Defines, HasDefinitions;
    forall node | node in next
      ensures exists id, name :: Defines(done[document.id := raw], parse, id, name) && node == DefinitionRef(id, name)
    {
      NodeDefined(graph, done, raw, document, names, parse, node);
    }
  }

  lemma DefinitionKept(next: Graph, graph: Graph, done: Saved, raw: string, document: Document, names: seq<string>,
                       parse: string -> Option<Document>, id: string, name: string)
    requires IsGraph(graph, done, parse) && PlainIds(done) && parse(raw) == Some(document)
    requires WithDefinitions(next, graph, document, names) && forall n :: n in names <==> n in document.defs
    requires Defines(done[document.id := raw], parse, id, name)
    ensures DefinitionRef(id, name) in next
            && Elements(next[DefinitionRef(id, name)])
               == Refs(parse(done[document.id := raw][id]).value.defs[name], id)
  {
    hide Refs, DefinitionRef, LexiconId;
    if id != document.id {
      assert Defines(done, parse, id, name) && PlainId(id);
      DefinitionOf(id, name);
    }
  }

  lemma NodeDefined(graph: Graph, done: Saved, raw: string, document: Document, names: seq<string>,
                    parse: string -> Option<Document>, node: string)
    requires parse(raw) == Some(document) && document.id !in done && forall n :: n in names ==> n in document.defs
    requires node in graph ==> exists id, name :: Defines(done, parse, id, name) && node == DefinitionRef(id, name)
    requires node in graph || exists name :: name in names && node == DefinitionRef(document.id, name)
    ensures exists id, name :: Defines(done[document.id := raw], parse, id, name) && node == DefinitionRef(id, name)
  {
    hide DefinitionRef;
    if node in graph {
      var id, name :| Defines(done, parse, id, name) && node == DefinitionRef(id, name);
      assert Defines(done[document.id := raw], parse, id, name);
    } else {
      var name :| name in names && node == DefinitionRef(document.id, name);
      assert Defines(done[document.id := raw], parse, document.id, name);
    }
  }

  /** Every reference leads to a saved definition. */
  ghost predicate Closed(graph: Graph) {
    forall node, target :: node in graph && target in graph[node] ==> target in graph
  }

  method ValidateReferenceClosure(graph: Graph) returns (closed: bool)
    ensures closed <==> Closed(graph)
  {
    hide *;
    var nodes := SortTexts(graph.Keys);
    NodesListed(graph, nodes);
    for i := 0 to |nodes|
      invariant forall k :: 0 <= k < i ==> RefsResolve(graph, nodes[k])
    {
      assert nodes[i] in nodes;
      NodeResolves(graph, nodes[i]);
      var refs := graph[nodes[i]];
      for j := 0 to |refs|
        invariant forall k :: 0 <= k < j ==> refs[k] in graph
      {
        if refs[j] !in graph {
          return false;
        }
      }
    }
    AllResolve(graph, nodes);
    return true;
  }

  ghost predicate RefsResolve(graph: Graph, node: string) {
    node in graph && forall target :: target in graph[node] ==> target in graph
  }

  lemma NodesListed(graph: Graph, nodes: seq<string>)
    requires IsSorting(nodes, graph.Keys, Before)
    ensures forall node :: node in nodes <==> node in graph
  {
    assert forall node :: node in nodes <==> node in Elements(nodes);
  }

  lemma NodeResolves(graph: Graph, node: string)
    requires node in graph
    ensures (forall k :: 0 <= k < |graph[node]| ==> graph[node][k] in graph) ==> RefsResolve(graph, node)
    ensures (exists k :: 0 <= k < |graph[node]| && graph[node][k] !in graph) ==> !Closed(graph)
  {
  }

  lemma AllResolve(graph: Graph, nodes: seq<string>)
    requires forall node :: node in nodes <==> node in graph
    requires forall k :: 0 <= k < |nodes| ==> RefsResolve(graph, nodes[k])
    ensures Closed(graph)
  {
    forall node, target | node in graph && target in graph[node] ensures target in graph {
      assert node in nodes;
      var k :| 0 <= k < |nodes| && nodes[k] == node;
    }
  }

  // ----- Reachability -----

  function Out(graph: Graph, node: string): seq<string> {
    if node in graph then graph[node] else []
  }

  /** A chain of references, nodes in order. */
  ghost predicate Path(graph: Graph, path: seq<string>) {
    path != [] && forall i :: 0 <= i < |path| - 1 ==> path[i + 1] in Out(graph, path[i])
  }

  ghost predicate Reaches(graph: Graph, from: string, to: string) {
    exists path :: Path(graph, path) && path[0] == from && path[|path| - 1] == to
  }

  lemma ReachesNext(graph: Graph, from: string, via: string, to: string)
    requires Reaches(graph, from, via) && to in Out(graph, via)
    ensures Reaches(graph, from, to)
  {
    hide Out;
    var path :| Path(graph, path) && path[0] == from && path[|path| - 1] == via;
    assert Path(graph, path + [to]);
  }

  lemma ReachesSelf(graph: Graph, node: string)
    ensures Reaches(graph, node, node)
  {
    assert Path(graph, [node]);
  }

  /** A set that holds the start and is closed under references holds everything reached. */
  lemma {:induction false} ClosedHoldsPath(graph: Graph, nodes: set<string>, path: seq<string>)
    requires Path(graph, path) && path[0] in nodes
    requires forall node, target :: node in nodes && target in Out(graph, node) ==> target in nodes
    ensures path[|path| - 1] in nodes
  {
    hide Out;
    if |path| > 1 {
      assert path[1] in Out(graph, path[0]);
      var rest := path[1..];
      forall i | 0 <= i < |rest| - 1 ensures rest[i + 1] in Out(graph, rest[i]) {
        assert rest[i] == path[i + 1] && rest[i + 1] == path[i + 2];
      }
      ClosedHoldsPath(graph, nodes, rest);
    }
  }

  lemma ClosedHoldsReached(graph: Graph, nodes: set<string>, from: string)
    requires from in nodes && forall node, target :: node in nodes && target in Out(graph, node) ==> target in nodes
    ensures forall node :: Reaches(graph, from, node) ==> node in nodes
  {
    hide Out;
    forall node | Reaches(graph, from, node) ensures node in nodes {
      var path :| Path(graph, path) && path[0] == from && path[|path| - 1] == node;
      ClosedHoldsPath(graph, nodes, path);
    }
  }

  /** `ids` are the lexicons of the nodes that a collection reaches, in order, each once. */
  ghost predicate AreReachedIds(graph: Graph, collection: string, ids: seq<string>) {
    && Ascending(ids, Before)
    && forall id :: id in ids <==> exists node :: Reaches(graph, collection, node) && LexiconId(node) == id
  }

  function Ids(nodes: set<string>): set<string> {
    set node | node in nodes :: LexiconId(node)
  }

  ghost predicate Searching(graph: Graph, root: string, visited: set<string>, stack: seq<string>) {
    && (root in visited || root in stack)
    && (forall node :: node in visited || node in stack ==> Reaches(graph, root, node))
    && (forall node, target :: node in visited && target in Out(graph, node) ==> target in visited || target in stack)
    && (forall node :: node in visited || node in stack ==> node in graph || node == root)
  }

  lemma SearchSkips(graph: Graph, root: string, visited: set<string>, stack: seq<string>)
    requires stack != [] && Searching(graph, root, visited, stack) && stack[|stack| - 1] in visited
    ensures Searching(graph, root, visited, stack[..|stack| - 1])
  {
    hide Out, Reaches;
    var rest, node := stack[..|stack| - 1], stack[|stack| - 1];
    assert forall x :: x in stack <==> x in rest || x == node by {
      assert stack == rest + [node];
    }
  }

  lemma SearchVisits(graph: Graph, root: string, visited: set<string>, stack: seq<string>)
    requires stack != [] && Searching(graph, root, visited, stack) && Closed(graph)
    ensures var node := stack[|stack| - 1];
            Searching(graph, root, visited + {node}, stack[..|stack| - 1] + Out(graph, node))
  {
    var rest, node := stack[..|stack| - 1], stack[|stack| - 1];
    assert forall x :: x in stack <==> x in rest || x == node by {
      assert stack == rest + [node];
    }
    forall target | target in Out(graph, node) ensures Reaches(graph, root, target) && target in graph {
      ReachesNext(graph, root, node, target);
    }
    hide Out, Reaches, Closed;
    assert forall x :: x in rest + Out(graph, node) <==> x in rest || x in Out(graph, node);
  }

  lemma SearchEnds(graph: Graph, root: string, visited: set<string>, ids: set<string>, sorted: seq<string>)
    requires Searching(graph, root, visited, []) && ids == Ids(visited) && IsSorting(sorted, ids, Before)
    ensures AreReachedIds(graph, root, sorted)
  {
    ClosedHoldsReached(graph, visited, root);
    hide Out, Reaches, LexiconId, Before;
    assert forall id :: id in sorted <==> id in Elements(sorted);
  }

  /** Walks the references with a stack. It ends: each round visits a new node or shortens the stack. */
  method ReferencedLexiconIDs(graph: Graph, collection: string) returns (ids: seq<string>)
    requires Closed(graph)
    ensures AreReachedIds(graph, collection, ids)
  {
    hide *;
    var lexiconIDs: set<string> := {};
    var visited: set<string> := {};
    var stack := [collection];
    ghost var universe := graph.Keys + {collection};
    SearchStarts(graph, collection);
    while stack != []
      invariant Searching(graph, collection, visited, stack)
      invariant lexiconIDs == Ids(visited) && visited <= universe
      decreases universe - visited, |stack|
    {
      var node := stack[|stack| - 1];
      if node in visited {
        SearchSkips(graph, collection, visited, stack);
        stack := stack[..|stack| - 1];
        continue;
      }
      SearchVisits(graph, collection, visited, stack);
      VisitedInUniverse(graph, collection, visited, stack);
      IdsNext(visited, node);
      visited := visited + {node};
      lexiconIDs := lexiconIDs + {LexiconId(node)};
      stack := stack[..|stack| - 1] + Out(graph, node);
    }
    ids := SortTexts(lexiconIDs);
    SearchEnds(graph, collection, visited, lexiconIDs, ids);
  }

  lemma SearchStarts(graph: Graph, collection: string)
    ensures Searching(graph, collection, {}, [collection]) && Ids({}) == {}
  {
    ReachesSelf(graph, collection);
  }

  lemma VisitedInUniverse(graph: Graph, root: string, visited: set<string>, stack: seq<string>)
    requires stack != [] && Searching(graph, root, visited, stack)
    ensures stack[|stack| - 1] in graph.Keys + {root}
  {
    hide Out, Reaches;
    assert stack[|stack| - 1] in stack;
  }

  lemma IdsNext(visited: set<string>, node: string)
    ensures Ids(visited + {node}) == Ids(visited) + {LexiconId(node)}
  {
  }

  // ----- The fingerprint -----

  /** A validator that was constructed: the graph of its saved set, with no reference left open. */
  ghost predicate Constructed(graph: Graph, saved: Saved, parse: string -> Option<Document>) {
    PlainIds(saved) && IsGraph(graph, saved, parse) && Closed(graph)
  }

  /** The types of main definitions that describe endpoints and permissions. */
  const NON_RECORD_MAIN_TYPES := {"query", "procedure", "subscription", "permission-set"}

  /** Lexicons of endpoints and permissions, which are not loaded. */
  predicate NonRecord(parse: string -> Option<Document>, raw: string) {
    parse(raw).Some? && "main" in parse(raw).value.defs
    && var main := parse(raw).value.defs["main"];
       main.JsonObject? && "type" in main.fields && main.fields["type"].JsonText?
       && main.fields["type"].text in NON_RECORD_MAIN_TYPES
  }

  function RecordLexicons(saved: Saved, parse: string -> Option<Document>): Saved {
    map id | id in saved && !NonRecord(parse, saved[id]) :: saved[id]
  }

  /** Lexicons left out must still be saved under their own id. */
  predicate SkipsOwnIds(saved: Saved, parse: string -> Option<Document>) {
    forall id :: id in saved && NonRecord(parse, saved[id]) ==> parse(saved[id]).value.id == id
  }

  method WithoutNonRecords(saved: Saved, parse: string -> Option<Document>) returns (r: Result<Saved>)
    ensures r.Ok? <==> SkipsOwnIds(saved, parse)
    ensures r.Ok? ==> r.value == RecordLexicons(saved, parse)
  {
    hide NonRecord;
    var todo, filtered: Saved := saved.Keys, map[];
    while todo != {}
      invariant todo <= saved.Keys
      invariant forall id :: id in saved && id !in todo && NonRecord(parse, saved[id]) ==> parse(saved[id]).Some? && parse(saved[id]).value.id == id
      invariant forall id :: id in filtered <==> id in saved && id !in todo && !NonRecord(parse, saved[id])
      invariant forall id :: id in filtered ==> filtered[id] == saved[id]
      decreases todo
    {
      var id :| id in todo;
      todo := todo - {id};
      NonRecordDecodes(parse, saved[id]);
      if NonRecord(parse, saved[id]) {
        if parse(saved[id]).value.id != id {
          return Err("lexicon ID mismatch");
        }
        continue;
      }
      filtered := filtered[id := saved[id]];
    }
    return Ok(filtered);
  }

  lemma NonRecordDecodes(parse: string -> Option<Document>, raw: string)
    ensures NonRecord(parse, raw) ==> parse(raw).Some?
  {
  }

  ghost predicate AllLoad(saved: Saved, loads: (string, string) -> bool) {
    forall id :: id in saved ==> loads(id, saved[id])
  }

  /** Construction succeeds exactly for sets in which all lexicons are saved under their own ids, those of
      records load into the registry and the catalog, and their references all resolve among them. */
  method NewValidator(saved: Saved, parse: string -> Option<Document>, loads: (string, string) -> bool)
    returns (r: Result<Graph>, ghost records: Saved)
    ensures records == RecordLexicons(saved, parse)
    ensures r.Ok? ==> SkipsOwnIds(saved, parse) && AllLoad(records, loads) && Parses(records, parse) && Closed(r.value)
    ensures PlainIds(saved) ==>
              (r.Ok? <==> SkipsOwnIds(saved, parse) && AllLoad(records, loads) && exists graph :: Constructed(graph, records, parse))
    ensures r.Ok? && PlainIds(saved) ==> Constructed(r.value, records, parse)
  {
    hide *;
    records := RecordLexicons(saved, parse);
    var filtered := WithoutNonRecords(saved, parse);
    if filtered.Err? {
      return Err(filtered.error), records;
    }
    PlainRecords(saved, parse);
    var ids := SortTexts(filtered.value.Keys);
    IdsListed(filtered.value, ids);
    for i := 0 to |ids|
      invariant forall k :: 0 <= k < i ==> ids[k] in filtered.value && loads(ids[k], filtered.value[ids[k]])
    {
      assert ids[i] in ids;
      if !loads(ids[i], filtered.value[ids[i]]) {
        OneDoesNotLoad(filtered.value, loads, ids[i]);
        return Err("lexicon does not load"), records;
      }
    }
    EachLoads(filtered.value, loads, ids);
    var graph := BuildReferenceGraph(filtered.value, parse);
    if graph.Err? {
      ConstructedParses(records, parse);
      return graph, records;
    }
    var closed := ValidateReferenceClosure(graph.value);
    if !closed {
      if PlainIds(saved) {
        forall other ensures !Constructed(other, records, parse) {
          GraphsClosedAlike(graph.value, other, records, parse);
        }
      }
      return Err("unresolved references"), records;
    }
    if PlainIds(saved) {
      IsConstructed(graph.value, records, parse);
    }
    return graph, records;
  }

  lemma PlainRecords(saved: Saved, parse: string -> Option<Document>)
    ensures PlainIds(saved) ==> PlainIds(RecordLexicons(saved, parse))
  {
  }

  lemma IdsListed(saved: Saved, ids: seq<string>)
    requires IsSorting(ids, saved.Keys, Before)
    ensures forall id :: id in ids <==> id in saved
  {
    assert forall id :: id in ids <==> id in Elements(ids);
  }

  lemma OneDoesNotLoad(saved: Saved, loads: (string, string) -> bool, id: string)
    requires id in saved && !loads(id, saved[id])
    ensures !AllLoad(saved, loads)
  {
  }

  lemma EachLoads(saved: Saved, loads: (string, string) -> bool, ids: seq<string>)
    requires forall id :: id in ids <==> id in saved
    requires forall k :: 0 <= k < |ids| ==> ids[k] in saved && loads(ids[k], saved[ids[k]])
    ensures AllLoad(saved, loads)
  {
    forall id | id in saved ensures loads(id, saved[id]) {
      assert id in ids;
      var k :| 0 <= k < |ids| && ids[k] == id;
    }
  }

  lemma ConstructedParses(saved: Saved, parse: string -> Option<Document>)
    ensures forall graph :: Constructed(graph, saved, parse) ==> Parses(saved, parse)
  {
    hide Refs, Closed, Parses;
  }

  lemma IsConstructed(graph: Graph, saved: Saved, parse: string -> Option<Document>)
    requires PlainIds(saved) && IsGraph(graph, saved, parse) && Closed(graph)
    ensures Constructed(graph, saved, parse)
  {
  }

  lemma GraphsClosedAlike(graph: Graph, other: Graph, saved: Saved, parse: string -> Option<Document>)
    requires PlainIds(saved) && IsGraph(graph, saved, parse)
    ensures Constructed(other, saved, parse) ==> Closed(graph)
  {
    if Constructed(other, saved, parse) {
      forall node, target | node in graph && target in graph[node] ensures target in graph {
        NodeInBoth(graph, other, saved, parse, node);
        SameElements(graph[node], other[node], target);
        assert target in other;
        NodeInBoth(other, graph, saved, parse, target);
      }
    }
  }

  lemma NodeInBoth(graph: Graph, other: Graph, saved: Saved, parse: string -> Option<Document>, node: string)
    requires IsGraph(graph, saved, parse) && IsGraph(other, saved, parse) && node in graph
    ensures node in other && Elements(graph[node]) == Elements(other[node])
  {
    hide Refs, DefinitionRef, Elements;
    var id, name :| Defines(saved, parse, id, name) && node == DefinitionRef(id, name);
  }

  lemma SameElements(a: seq<string>, b: seq<string>, x: string)
    requires Elements(a) == Elements(b)
    ensures x in a <==> x in b
  {
    assert x in a <==> x in Elements(a);
    assert x in b <==> x in Elements(b);
  }

  lemma NodeIsSaved(graph: Graph, saved: Saved, parse: string -> Option<Document>, node: string)
    requires PlainIds(saved) && IsGraph(graph, saved, parse) && node in graph
    ensures LexiconId(node) in saved
  {
    hide Refs, LexiconId;
    var id, name :| Defines(saved, parse, id, name) && node == DefinitionRef(id, name);
    DefinitionOf(id, name);
  }

  /** Everything a saved collection reaches is saved, and the collection itself is among it. */
  lemma ReachedAreSaved(graph: Graph, saved: Saved, parse: string -> Option<Document>, collection: string, ids: seq<string>)
    requires Constructed(graph, saved, parse) && collection in saved && AreReachedIds(graph, collection, ids)
    ensures forall id :: id in ids ==> id in saved
    ensures collection in ids
  {
    hide Refs, LexiconId, Ascending, IsGraph;
    ReachesSelf(graph, collection);
    DefinitionOf(collection, "main");
    ClosedHoldsReached(graph, graph.Keys + {collection}, collection);
    forall id | id in ids ensures id in saved {
      var node :| Reaches(graph, collection, node) && LexiconId(node) == id;
      if node in graph {
        NodeIsSaved(graph, saved, parse, node);
      } else {
        assert node == collection && PlainId(collection);
      }
    }
  }

  function Part(tools: Tools, saved: Saved, id: string): string
    requires id in saved
  {
    id + "=" + tools.hash(saved[id])
  }

  function Parts(tools: Tools, saved: Saved, ids: seq<string>): seq<string>
    requires forall id :: id in ids ==> id in saved
  {
    seq(|ids|, i requires 0 <= i < |ids| => assert ids[i] in ids; Part(tools, saved, ids[i]))
  }

  function Summary(tools: Tools, saved: Saved, ids: seq<string>): string
    requires forall id :: id in ids ==> id in saved
  {
    Join(Parts(tools, saved, ids), "\n")
  }

  /** The fingerprint of a collection: the hash of the ids and document hashes it reaches. */
  method LexiconHash(tools: Tools, saved: Saved, hashes: map<string, string>, graph: Graph, collection: string)
    returns (r: Option<string>, ghost ids: seq<string>)
    requires Constructed(graph, saved, tools.parse) && hashes == map id | id in saved :: tools.hash(saved[id])
    ensures r == None <==> collection !in saved
    ensures r.Some? ==> AreReachedIds(graph, collection, ids) && (forall id :: id in ids ==> id in saved)
                        && r.value == tools.hash(Summary(tools, saved, ids))
  {
    ids := [];
    assert hashes.Keys == saved.Keys && forall id :: id in saved ==> hashes[id] == tools.hash(saved[id]);
    hide *;
    if collection !in hashes {
      return None, ids;
    }
    var reached := Reached(tools, saved, graph, collection);
    ids := reached;
    var parts := CollectParts(tools, saved, hashes, reached);
    SummaryIs(tools, saved, reached);
    return Some(tools.hash(Join(parts, "\n"))), ids;
  }

  lemma SummaryIs(tools: Tools, saved: Saved, ids: seq<string>)
    requires forall id :: id in ids ==> id in saved
    ensures Summary(tools, saved, ids) == Join(Parts(tools, saved, ids), "\n")
  {
  }

  method CollectParts(tools: Tools, saved: Saved, hashes: map<string, string>, ids: seq<string>) returns (parts: seq<string>)
    requires hashes.Keys == saved.Keys && forall id :: id in saved ==> hashes[id] == tools.hash(saved[id])
    requires forall id :: id in ids ==> id in saved
    ensures parts == Parts(tools, saved, ids)
  {
    parts := [];
    for i := 0 to |ids|
      invariant |parts| == i
      invariant forall k :: 0 <= k < i ==> ids[k] in saved && parts[k] == Part(tools, saved, ids[k])
    {
      assert ids[i] in ids;
      if ids[i] in hashes {
        parts := parts + [ids[i] + "=" + hashes[ids[i]]];
      }
    }
  }

  method Reached(tools: Tools, saved: Saved, graph: Graph, collection: string) returns (ids: seq<string>)
    requires Constructed(graph, saved, tools.parse) && collection in saved
    ensures AreReachedIds(graph, collection, ids) && forall id :: id in ids ==> id in saved
  {
    assert Closed(graph);
    hide *;
    ids := ReferencedLexiconIDs(graph, collection);
    ReachedAreSaved(graph, saved, tools.parse, collection, ids);
  }

  // ----- Fingerprints compare documents -----

  /** Where two saved sets have the same document, its definitions refer to the same things. */
  lemma SameOut(graphA: Graph, graphB: Graph, savedA: Saved, savedB: Saved, parse: string -> Option<Document>, node: string)
    requires Constructed(graphA, savedA, parse) && Constructed(graphB, savedB, parse)
    requires LexiconId(node) in savedA && LexiconId(node) in savedB && savedA[LexiconId(node)] == savedB[LexiconId(node)]
    ensures Elements(Out(graphA, node)) == Elements(Out(graphB, node))
  {
    SameNode(graphA, graphB, savedA, savedB, parse, node);
    SameNode(graphB, graphA, savedB, savedA, parse, node);
  }

  lemma SameNode(graphA: Graph, graphB: Graph, savedA: Saved, savedB: Saved, parse: string -> Option<Document>, node: string)
    requires PlainIds(savedA) && IsGraph(graphA, savedA, parse) && IsGraph(graphB, savedB, parse)
    requires LexiconId(node) in savedA && LexiconId(node) in savedB && savedA[LexiconId(node)] == savedB[LexiconId(node)]
    ensures node in graphA ==> node in graphB && Elements(graphA[node]) == Elements(graphB[node])
  {
    hide Refs, LexiconId, DefinitionRef, Elements;
    if node in graphA {
      var id, name :| Defines(savedA, parse, id, name) && node == DefinitionRef(id, name);
      assert PlainId(id);
      DefinitionOf(id, name);
      assert Defines(savedB, parse, id, name);
    }
  }

  /** Reachability depends only on the documents that are reached. */
  lemma SameReached(graphA: Graph, graphB: Graph, savedA: Saved, savedB: Saved, parse: string -> Option<Document>,
                    collection: string, idsA: seq<string>, idsB: seq<string>)
    requires Constructed(graphA, savedA, parse) && Constructed(graphB, savedB, parse)
    requires collection in savedA && collection in savedB
    requires AreReachedIds(graphA, collection, idsA) && AreReachedIds(graphB, collection, idsB)
    requires forall id :: id in idsA ==> id in savedA && id in savedB && savedA[id] == savedB[id]
    ensures idsA == idsB
  {
    hide Refs, LexiconId, Constructed, Out;
    forall node ensures Reaches(graphA, collection, node) <==> Reaches(graphB, collection, node) {
      if Reaches(graphA, collection, node) {
        var path :| Path(graphA, path) && path[0] == collection && path[|path| - 1] == node;
        SamePath(graphA, graphB, savedA, savedB, parse, collection, idsA, path);
      }
      if Reaches(graphB, collection, node) {
        var path :| Path(graphB, path) && path[0] == collection && path[|path| - 1] == node;
        SamePathBack(graphA, graphB, savedA, savedB, parse, collection, idsA, path);
      }
    }
    BeforeIsTotal();
    hide Before, Reaches;
    assert forall id :: id in idsA <==> id in idsB;
    assert Elements(idsA) == Elements(idsB);
    SortingUnique(idsA, idsB, Before);
  }

  lemma {:induction false} SamePath(graphA: Graph, graphB: Graph, savedA: Saved, savedB: Saved, parse: string -> Option<Document>,
                                    collection: string, idsA: seq<string>, path: seq<string>)
    requires Constructed(graphA, savedA, parse) && Constructed(graphB, savedB, parse) && AreReachedIds(graphA, collection, idsA)
    requires forall id :: id in idsA ==> id in savedA && id in savedB && savedA[id] == savedB[id]
    requires Path(graphA, path) && path[0] == collection
    ensures Reaches(graphA, collection, path[|path| - 1]) && Reaches(graphB, collection, path[|path| - 1])
  {
    hide Constructed, Out, LexiconId;
    if |path| == 1 {
      ReachesSelf(graphA, collection);
      ReachesSelf(graphB, collection);
    } else {
      var before, via, last := path[..|path| - 1], path[|path| - 2], path[|path| - 1];
      PrefixPath(graphA, path);
      SamePath(graphA, graphB, savedA, savedB, parse, collection, idsA, before);
      StepAcross(graphA, graphB, savedA, savedB, parse, collection, idsA, via, last);
    }
  }

  lemma {:induction false} SamePathBack(graphA: Graph, graphB: Graph, savedA: Saved, savedB: Saved, parse: string -> Option<Document>,
                                        collection: string, idsA: seq<string>, path: seq<string>)
    requires Constructed(graphA, savedA, parse) && Constructed(graphB, savedB, parse) && AreReachedIds(graphA, collection, idsA)
    requires forall id :: id in idsA ==> id in savedA && id in savedB && savedA[id] == savedB[id]
    requires Path(graphB, path) && path[0] == collection
    ensures Reaches(graphA, collection, path[|path| - 1]) && Reaches(graphB, collection, path[|path| - 1])
  {
    hide Constructed, Out, LexiconId;
    if |path| == 1 {
      ReachesSelf(graphA, collection);
      ReachesSelf(graphB, collection);
    } else {
      var before, via, last := path[..|path| - 1], path[|path| - 2], path[|path| - 1];
      PrefixPath(graphB, path);
      SamePathBack(graphA, graphB, savedA, savedB, parse, collection, idsA, before);
      StepAcross(graphA, graphB, savedA, savedB, parse, collection, idsA, via, last);
    }
  }

  lemma PrefixPath(graph: Graph, path: seq<string>)
    requires Path(graph, path) && |path| > 1
    ensures Path(graph, path[..|path| - 1]) && path[|path| - 1] in Out(graph, path[|path| - 2])
  {
    hide Out;
    var before := path[..|path| - 1];
    forall i | 0 <= i < |before| - 1 ensures before[i + 1] in Out(graph, before[i]) {
      assert before[i] == path[i] && before[i + 1] == path[i + 1];
    }
    var k := |path| - 2;
    assert path[k + 1] in Out(graph, path[k]);
  }

  /** From a node that both reach, a reference in either is a reference in both. */
  lemma StepAcross(graphA: Graph, graphB: Graph, savedA: Saved, savedB: Saved, parse: string -> Option<Document>,
                   collection: string, idsA: seq<string>, via: string, to: string)
    requires Constructed(graphA, savedA, parse) && Constructed(graphB, savedB, parse) && AreReachedIds(graphA, collection, idsA)
    requires forall id :: id in idsA ==> id in savedA && id in savedB && savedA[id] == savedB[id]
    requires Reaches(graphA, collection, via) && Reaches(graphB, collection, via)
    requires to in Out(graphA, via) || to in Out(graphB, via)
    ensures Reaches(graphA, collection, to) && Reaches(graphB, collection, to)
  {
    hide Constructed, Out, LexiconId, Reaches;
    assert LexiconId(via) in idsA;
    SameOut(graphA, graphB, savedA, savedB, parse, via);
    assert forall x :: x in Out(graphA, via) <==> x in Elements(Out(graphA, via));
    assert forall x :: x in Out(graphB, via) <==> x in Elements(Out(graphB, via));
    ReachesNext(graphA, collection, via, to);
    ReachesNext(graphB, collection, via, to);
  }

  /** Saved sets that agree on the documents a collection reaches give it one fingerprint. */
  lemma AgreementGivesFingerprint(tools: Tools, graphA: Graph, graphB: Graph, savedA: Saved, savedB: Saved,
                                  collection: string, idsA: seq<string>, idsB: seq<string>)
    requires Constructed(graphA, savedA, tools.parse) && Constructed(graphB, savedB, tools.parse)
    requires collection in savedA && collection in savedB
    requires AreReachedIds(graphA, collection, idsA) && AreReachedIds(graphB, collection, idsB)
    requires forall id :: id in idsA ==> id in savedA && id in savedB && savedA[id] == savedB[id]
    ensures (forall id :: id in idsB ==> id in savedB)
            && tools.hash(Summary(tools, savedA, idsA)) == tools.hash(Summary(tools, savedB, idsB))
  {
    SameReached(graphA, graphB, savedA, savedB, tools.parse, collection, idsA, idsB);
    hide Constructed, AreReachedIds, Join;
    assert Parts(tools, savedA, idsA) == Parts(tools, savedB, idsB);
  }

  /** Hashes are hex digests of one length. */
  ghost predicate HexDigest(tools: Tools) {
    forall bytes :: |tools.hash(bytes)| == 64 && '\n' !in tools.hash(bytes)
  }

  predicate NoCollision(tools: Tools, a: string, b: string) {
    tools.hash(a) == tools.hash(b) ==> a == b
  }

  /** Equal fingerprints of a collection mean equal reached ids and equal bytes, if the hash does not
      collide on what is compared. */
  lemma FingerprintGivesAgreement(tools: Tools, savedA: Saved, savedB: Saved, idsA: seq<string>, idsB: seq<string>)
    requires HexDigest(tools) && idsA != [] && idsB != []
    requires forall id :: id in idsA ==> id in savedA && PlainId(id)
    requires forall id :: id in idsB ==> id in savedB && PlainId(id)
    requires tools.hash(Summary(tools, savedA, idsA)) == tools.hash(Summary(tools, savedB, idsB))
    requires NoCollision(tools, Summary(tools, savedA, idsA), Summary(tools, savedB, idsB))
    requires forall a, b :: a in idsA && b in idsB ==> NoCollision(tools, savedA[a], savedB[b])
    ensures idsA == idsB && forall id :: id in idsA ==> savedA[id] == savedB[id]
  {
    var partsA, partsB := Parts(tools, savedA, idsA), Parts(tools, savedB, idsB);
    PartsPlain(tools, savedA, idsA);
    PartsPlain(tools, savedB, idsB);
    UnjoinJoin(partsA, '\n');
    UnjoinJoin(partsB, '\n');
    assert partsA == partsB;
    hide Join, Unjoin, HexDigest, Summary;
    forall i | 0 <= i < |idsA| ensures idsA[i] == idsB[i] && savedA[idsA[i]] == savedB[idsB[i]] {
      assert idsA[i] in idsA && idsB[i] in idsB;
      assert partsA[i] == Part(tools, savedA, idsA[i]) && partsB[i] == Part(tools, savedB, idsB[i]);
      PartInjective(tools, savedA, savedB, idsA[i], idsB[i]);
    }
  }

  lemma PartsPlain(tools: Tools, saved: Saved, ids: seq<string>)
    requires HexDigest(tools) && forall id :: id in ids ==> id in saved && PlainId(id)
    ensures forall part :: part in Parts(tools, saved, ids) ==> '\n' !in part
  {
    var parts := Parts(tools, saved, ids);
    forall part | part in parts ensures '\n' !in part {
      var i :| 0 <= i < |parts| && parts[i] == part;
      assert ids[i] in ids;
    }
  }

  lemma PartInjective(tools: Tools, savedA: Saved, savedB: Saved, a: string, b: string)
    requires HexDigest(tools) && a in savedA && b in savedB && Part(tools, savedA, a) == Part(tools, savedB, b)
    ensures a == b && tools.hash(savedA[a]) == tools.hash(savedB[b])
  {
    var part := Part(tools, savedA, a);
    assert |a| == |b| == |part| - 65;
    assert part[..|a|] == a && part[..|b|] == b;
    assert part[|a| + 1..] == tools.hash(savedA[a]) && part[|b| + 1..] == tools.hash(savedB[b]);
  }
}
