/** The bounded breadth-first closure over a directed account graph. */
module GraphClosure {
  import opened Text
  import opened Sorting

  const MAX_DEGREE := 3
  const MAX_VIA := 64
  const MAX_INT := 0x7fff_ffff_ffff_ffff
  const MAX_SAFE_CLOSURE_ACCOUNTS := MAX_INT / MAX_VIA

  /** Go's int. */
  type Int = i: int | -MAX_INT - 1 <= i <= MAX_INT

  /** A limit every adjacency source accepts. */
  type EdgeLimit = i: int | 0 < i <= MAX_INT witness 1

  /** Edges grouped by issuer, and whether more matched than were returned. */
  datatype Edges = Edges(targets: map<string, seq<string>>, truncated: bool)

  type Adjacency = (seq<string>, EdgeLimit) -> Result<Edges>

  /** One request to the edge source. */
  datatype Call = Call(sources: seq<string>, limit: EdgeLimit)

  datatype Account = Account(did: string, degree: nat, via: seq<string>)

  datatype Closure = Closure(accounts: seq<Account>, truncated: bool)

  // ----- The graph and its distances -----

  type Graph = map<string, set<string>>

  function Targets(g: Graph, u: string): set<string> {
    if u in g then g[u] else {}
  }

  function Returned(e: Edges, issuer: string): seq<string> {
    if issuer in e.targets then e.targets[issuer] else []
  }

  /** What the interface asks of an implementation reading `g`: real edges only, and all of them
      unless it says otherwise. */
  ghost predicate Answers(e: Edges, g: Graph, sources: seq<string>) {
    && (forall u, v :: v in Returned(e, u) ==> v in Targets(g, u))
    && (!e.truncated ==> forall u, v :: u in sources && v in Targets(g, u) ==> v in Returned(e, u))
  }

  ghost predicate Implements(adjacency: Adjacency, g: Graph) {
    forall sources, limit {:trigger adjacency(sources, limit)} ::
      adjacency(sources, limit).Ok? ==> Answers(adjacency(sources, limit).value, g, sources)
  }

  /** A walk from `root` over accounts: the empty DID is not an account. */
  ghost predicate Walk(g: Graph, root: string, p: seq<string>) {
    && p != [] && p[0] == root
    && forall i :: 0 < i < |p| ==> p[i] in Targets(g, p[i - 1]) && p[i] != ""
  }

  ghost predicate Reaches(g: Graph, root: string, v: string, k: nat) {
    exists p :: Walk(g, root, p) && |p| == k + 1 && p[k] == v
  }

  /** The length of the shortest walk from `root` to `v`. */
  ghost predicate Distance(g: Graph, root: string, v: string, k: nat) {
    Reaches(g, root, v, k) && forall j: nat :: j < k ==> !Reaches(g, root, v, j)
  }

  /** The accounts within `k` hops. */
  ghost function Ball(g: Graph, root: string, k: nat): set<string> {
    if k == 0 then {root}
    else Ball(g, root, k - 1) + set u, v | u in Ball(g, root, k - 1) && v in Targets(g, u) && v != "" :: v
  }

  /** Membership in the ring at distance `k`. */
  ghost predicate OnRing(g: Graph, root: string, v: string, k: nat) {
    v in Ball(g, root, k) && (k > 0 ==> v !in Ball(g, root, k - 1))
  }

  lemma {:induction false} BallGrows(g: Graph, root: string, j: nat, k: nat)
    requires j <= k
    ensures Ball(g, root, j) <= Ball(g, root, k)
  {
    if j < k {
      BallGrows(g, root, j, k - 1);
    }
  }

  lemma {:induction false} WalkStaysInBall(g: Graph, root: string, p: seq<string>, i: nat)
    requires Walk(g, root, p) && i < |p|
    ensures p[i] in Ball(g, root, i)
  {
    if i > 0 {
      WalkStaysInBall(g, root, p, i - 1);
    }
  }

  lemma {:induction false} BallIsReached(g: Graph, root: string, v: string, k: nat) returns (j: nat)
    requires v in Ball(g, root, k)
    ensures j <= k && Reaches(g, root, v, j)
    decreases k
  {
    if k == 0 {
      assert Walk(g, root, [root]);
      return 0;
    }
    if v in Ball(g, root, k - 1) {
      j := BallIsReached(g, root, v, k - 1);
    } else {
      var u :| u in Ball(g, root, k - 1) && v in Targets(g, u) && v != "";
      var i := BallIsReached(g, root, u, k - 1);
      var p :| Walk(g, root, p) && |p| == i + 1 && p[i] == u;
      assert Walk(g, root, p + [v]);
      assert (p + [v])[i + 1] == v;
      return i + 1;
    }
  }

  /** Rings are the nodes at a given distance. */
  lemma RingIsDistance(g: Graph, root: string, v: string, k: nat)
    ensures OnRing(g, root, v, k) <==> Distance(g, root, v, k)
  {
    if OnRing(g, root, v, k) {
      var j := BallIsReached(g, root, v, k);
      if exists i: nat :: i < k && Reaches(g, root, v, i) {
        var i: nat :| i < k && Reaches(g, root, v, i);
        ReachedIsInBall(g, root, v, i, k - 1);
      }
      if j < k { assert false; }
    }
    if Distance(g, root, v, k) {
      ReachedIsInBall(g, root, v, k, k);
      if k > 0 && v in Ball(g, root, k - 1) {
        var j := BallIsReached(g, root, v, k - 1);
      }
    }
  }

  lemma ReachedIsInBall(g: Graph, root: string, v: string, i: nat, k: nat)
    requires Reaches(g, root, v, i) && i <= k
    ensures v in Ball(g, root, k)
  {
    var p :| Walk(g, root, p) && |p| == i + 1 && p[i] == v;
    WalkStaysInBall(g, root, p, i);
    BallGrows(g, root, i, k);
  }

  // ----- One ring of the traversal -----

  /** The variables one ring updates. */
  datatype Ring = Ring(seen: map<string, nat>, predecessors: map<string, set<string>>, next: seq<string>, truncated: bool)

  /** The loop body for one returned edge. */
  function Visit(r: Ring, root: string, degree: nat, accountCap: nat, issuer: string, subject: string): Ring {
    if subject == "" || subject == root then r
    else if subject in r.seen then
      if r.seen[subject] == degree && degree > 1 then
        var known := if subject in r.predecessors then r.predecessors[subject] else {};
        r.(predecessors := r.predecessors[subject := if |known| < MAX_VIA then known + {issuer} else known])
      else r
    else if |r.seen| - 1 >= accountCap then r.(truncated := true)
    else
      Ring(r.seen[subject := degree],
           if degree > 1 then r.predecessors[subject := {issuer}] else r.predecessors,
           r.next + [subject], r.truncated)
  }

  /** The issuers of the edges to each account visited so far. */
  type Visited = map<string, set<string>>

  ghost function Issuers(done: Visited, v: string): set<string> {
    if v in done then done[v] else {}
  }

  ghost function After(done: Visited, issuer: string, subject: string): Visited {
    done[subject := Issuers(done, subject) + {issuer}]
  }

  /** Recorded provenance: genuine issuers, all of them until the limit is reached. */
  ghost predicate Provenance(via: set<string>, issuers: set<string>) {
    via <= issuers && via != {} && |via| <= MAX_VIA && (|via| < MAX_VIA ==> via == issuers)
  }

  ghost predicate Started(r: Ring, root: string, degree: nat, accountCap: nat) {
    && root in r.seen && |r.seen| - 1 <= accountCap
    && (forall v :: v in r.seen ==> r.seen[v] < degree)
    && r.predecessors.Keys <= r.seen.Keys
    && r.next == [] && !r.truncated
  }

  /** The accounts seen once the edges `done` of a ring that began as `start` have been visited. */
  ghost predicate SeenSoFar(start: Ring, r: Ring, degree: nat, accountCap: nat, done: Visited) {
    && (forall v :: v in start.seen ==> v in r.seen && r.seen[v] == start.seen[v])
    && (forall v :: v in r.seen && v !in start.seen ==> r.seen[v] == degree && v != "" && v in done && done[v] != {})
    && |r.seen| - 1 <= accountCap
    && (r.truncated ==> |r.seen| - 1 >= accountCap)
    && (forall v :: v in done && v != "" && v !in r.seen ==> r.truncated)
  }

  /** The next frontier lists the new accounts, each once. */
  ghost predicate FrontierSoFar(start: Ring, r: Ring) {
    && (forall v :: v in r.next <==> v in r.seen && v !in start.seen)
    && (forall i, j :: 0 <= i < j < |r.next| ==> r.next[i] != r.next[j])
  }

  /** Provenance exists exactly for the new accounts of rings after the first; older entries stay. */
  ghost predicate ViaKeys(start: Ring, r: Ring, degree: nat) {
    && (forall v :: v in start.seen && v in r.predecessors ==>
          v in start.predecessors && r.predecessors[v] == start.predecessors[v])
    && start.predecessors.Keys <= r.predecessors.Keys <= r.seen.Keys
    && (forall v :: v in r.seen && v !in start.seen ==> (v in r.predecessors <==> degree > 1))
  }

  ghost predicate ViaSets(start: Ring, r: Ring, done: Visited) {
    forall v :: v in r.predecessors && v !in start.seen ==> Provenance(r.predecessors[v], Issuers(done, v))
  }

  lemma VisitKeepsSeen(start: Ring, r: Ring, root: string, degree: nat, accountCap: nat, done: Visited,
                       issuer: string, subject: string)
    requires root in start.seen && SeenSoFar(start, r, degree, accountCap, done)
    ensures SeenSoFar(start, Visit(r, root, degree, accountCap, issuer, subject), degree, accountCap, After(done, issuer, subject))
  {
  }

  lemma VisitKeepsFrontier(start: Ring, r: Ring, root: string, degree: nat, accountCap: nat, issuer: string, subject: string)
    requires root in start.seen && start.seen.Keys <= r.seen.Keys && FrontierSoFar(start, r)
    ensures FrontierSoFar(start, Visit(r, root, degree, accountCap, issuer, subject))
  {
    var t := Visit(r, root, degree, accountCap, issuer, subject);
    if t.next != r.next {
      assert forall v :: v in t.next <==> v in r.next || v == subject;
    } else {
      assert t.seen == r.seen;
    }
  }

  lemma VisitKeepsViaKeys(start: Ring, r: Ring, root: string, degree: nat, accountCap: nat, issuer: string, subject: string)
    requires Started(start, root, degree, accountCap)
    requires forall v :: v in start.seen ==> v in r.seen && r.seen[v] == start.seen[v]
    requires ViaKeys(start, r, degree)
    ensures ViaKeys(start, Visit(r, root, degree, accountCap, issuer, subject), degree)
  {
  }

  lemma VisitKeepsViaSets(start: Ring, r: Ring, root: string, degree: nat, accountCap: nat, done: Visited,
                          issuer: string, subject: string)
    requires Started(start, root, degree, accountCap)
    requires SeenSoFar(start, r, degree, accountCap, done) && ViaKeys(start, r, degree) && ViaSets(start, r, done)
    ensures ViaSets(start, Visit(r, root, degree, accountCap, issuer, subject), After(done, issuer, subject))
  {
    var t := Visit(r, root, degree, accountCap, issuer, subject);
    forall v | v in t.predecessors && v !in start.seen
      ensures Provenance(t.predecessors[v], Issuers(After(done, issuer, subject), v))
    {
      VisitKeepsProvenance(start, r, root, degree, accountCap, done, issuer, subject, v);
    }
  }

  lemma VisitKeepsProvenance(start: Ring, r: Ring, root: string, degree: nat, accountCap: nat, done: Visited,
                             issuer: string, subject: string, v: string)
    requires Started(start, root, degree, accountCap)
    requires SeenSoFar(start, r, degree, accountCap, done) && ViaKeys(start, r, degree)
    requires v in r.predecessors && v !in start.seen ==> Provenance(r.predecessors[v], Issuers(done, v))
    requires v in Visit(r, root, degree, accountCap, issuer, subject).predecessors && v !in start.seen
    ensures Provenance(Visit(r, root, degree, accountCap, issuer, subject).predecessors[v],
                       Issuers(After(done, issuer, subject), v))
  {
    if v == subject && v in r.seen {
      ProvenanceAfter(r.predecessors[v], Issuers(done, v), issuer);
    }
  }

  lemma ProvenanceAfter(via: set<string>, issuers: set<string>, issuer: string)
    requires Provenance(via, issuers)
    ensures Provenance(if |via| < MAX_VIA then via + {issuer} else via, issuers + {issuer})
  {
  }

  /** Where a ring that began as `start` stands once the edges `done` have been visited. */
  ghost predicate RingSoFar(start: Ring, r: Ring, degree: nat, accountCap: nat, done: Visited) {
    SeenSoFar(start, r, degree, accountCap, done) && FrontierSoFar(start, r) && ViaKeys(start, r, degree) && ViaSets(start, r, done)
  }

  lemma VisitKeepsRing(start: Ring, r: Ring, root: string, degree: nat, accountCap: nat, done: Visited,
                       issuer: string, subject: string)
    requires Started(start, root, degree, accountCap) && RingSoFar(start, r, degree, accountCap, done)
    ensures RingSoFar(start, Visit(r, root, degree, accountCap, issuer, subject), degree, accountCap, After(done, issuer, subject))
  {
    VisitKeepsSeen(start, r, root, degree, accountCap, done, issuer, subject);
    VisitKeepsFrontier(start, r, root, degree, accountCap, issuer, subject);
    VisitKeepsViaKeys(start, r, root, degree, accountCap, issuer, subject);
    VisitKeepsViaSets(start, r, root, degree, accountCap, done, issuer, subject);
  }

  /** The edges visited are the ones the frontier's issuers returned. */
  ghost predicate Covers(done: Visited, frontier: seq<string>, edges: Edges) {
    forall u, v :: u in Issuers(done, v) <==> u in frontier && v in Returned(edges, u)
  }

  method ExpandIssuer(start: Ring, before: Ring, root: string, degree: nat, accountCap: nat, issuer: string,
                      subjects: seq<string>, ghost doneBefore: Visited)
    returns (r: Ring, ghost done: Visited)
    requires Started(start, root, degree, accountCap) && RingSoFar(start, before, degree, accountCap, doneBefore)
    ensures RingSoFar(start, r, degree, accountCap, done)
    ensures forall u, v :: u in Issuers(done, v) <==> u in Issuers(doneBefore, v) || (u == issuer && v in subjects)
  {
    hide RingSoFar, Visit;
    r, done := before, doneBefore;
    for j := 0 to |subjects|
      invariant RingSoFar(start, r, degree, accountCap, done)
      invariant forall u, v :: u in Issuers(done, v) <==> u in Issuers(doneBefore, v) || (u == issuer && v in subjects[..j])
    {
      VisitKeepsRing(start, r, root, degree, accountCap, done, issuer, subjects[j]);
      r := Visit(r, root, degree, accountCap, issuer, subjects[j]);
      done := After(done, issuer, subjects[j]);
      assert subjects[..j + 1] == subjects[..j] + [subjects[j]];
    }
    assert subjects[..|subjects|] == subjects;
  }

  /** The two inner loops: every edge of the frontier, in order. */
  method ExpandRing(start: Ring, root: string, degree: nat, accountCap: nat, frontier: seq<string>, edges: Edges)
    returns (r: Ring, ghost done: Visited)
    requires Started(start, root, degree, accountCap)
    ensures RingSoFar(start, r, degree, accountCap, done)
    ensures Covers(done, frontier, edges)
  {
    r, done := start, map[];
    RingStarts(start, root, degree, accountCap);
    hide RingSoFar, Issuers;
    assert forall v :: Issuers(done, v) == {};
    for i := 0 to |frontier|
      invariant RingSoFar(start, r, degree, accountCap, done)
      invariant Covers(done, frontier[..i], edges)
    {
      r, done := ExpandIssuer(start, r, root, degree, accountCap, frontier[i], Returned(edges, frontier[i]), done);
      assert frontier[..i + 1] == frontier[..i] + [frontier[i]];
    }
    assert frontier[..|frontier|] == frontier;
  }

  lemma RingStarts(start: Ring, root: string, degree: nat, accountCap: nat)
    requires Started(start, root, degree, accountCap)
    ensures RingSoFar(start, start, degree, accountCap, map[])
    ensures forall v :: Issuers(map[], v) == {}
  {
  }

  // ----- Rings against distances -----

  /** The accounts one hop closer to the root with an edge to `v`, which is at distance `k`. */
  ghost function Predecessors(g: Graph, root: string, v: string, k: nat): set<string> {
    if k == 0 then {} else set u | u in Ball(g, root, k - 1) && OnRing(g, root, u, k - 1) && v in Targets(g, u)
  }

  /** Every account seen is recorded at its true distance, with genuine provenance from distance two on. */
  ghost predicate Sound(g: Graph, root: string, seen: map<string, nat>, predecessors: map<string, set<string>>) {
    && (forall v :: v in seen ==> OnRing(g, root, v, seen[v]))
    && (forall v :: v in predecessors ==> v in seen)
    && (forall v :: v in seen ==> (v in predecessors <==> seen[v] > 1))
    && (forall v :: v in predecessors ==>
          && predecessors[v] <= Predecessors(g, root, v, seen[v]) && predecessors[v] <= seen.Keys
          && predecessors[v] != {} && |predecessors[v]| <= MAX_VIA)
  }

  /** Nothing within `k` hops is missing, nor any provenance below the limit. */
  ghost predicate Complete(g: Graph, root: string, seen: map<string, nat>, predecessors: map<string, set<string>>, k: nat) {
    && seen.Keys == Ball(g, root, k)
    && (forall v :: v in seen ==> seen[v] <= k)
    && (forall v :: v in predecessors && |predecessors[v]| < MAX_VIA && v in seen ==>
          predecessors[v] == Predecessors(g, root, v, seen[v]))
  }

  /** The new accounts of a ring lie on it, and their visited issuers really precede them. */
  ghost predicate NewOnRing(g: Graph, root: string, start: Ring, r: Ring, degree: nat, done: Visited) {
    forall v :: v in r.seen && v !in start.seen ==>
      OnRing(g, root, v, degree) && Issuers(done, v) <= Predecessors(g, root, v, degree) && Issuers(done, v) <= start.seen.Keys
  }

  lemma NewAccounts(g: Graph, root: string, start: Ring, r: Ring, degree: nat, accountCap: nat, done: Visited,
                    frontier: seq<string>, edges: Edges)
    requires degree > 0 && SeenSoFar(start, r, degree, accountCap, done)
    requires start.seen.Keys == Ball(g, root, degree - 1)
    requires forall u :: u in frontier <==> OnRing(g, root, u, degree - 1)
    requires Covers(done, frontier, edges) && Answers(edges, g, frontier)
    ensures NewOnRing(g, root, start, r, degree, done)
  {
    forall v | v in r.seen && v !in start.seen
      ensures OnRing(g, root, v, degree)
      ensures Issuers(done, v) <= Predecessors(g, root, v, degree) && Issuers(done, v) <= start.seen.Keys
    {
      forall u | u in Issuers(done, v) ensures u in Predecessors(g, root, v, degree) && u in start.seen.Keys {
        assert u in frontier && v in Returned(edges, u);
      }
      var u :| u in Issuers(done, v);
    }
  }

  lemma RingIsSound(g: Graph, root: string, start: Ring, r: Ring, degree: nat, accountCap: nat, done: Visited)
    requires degree > 0 && Started(start, root, degree, accountCap) && SeenSoFar(start, r, degree, accountCap, done)
    requires ViaKeys(start, r, degree) && ViaSets(start, r, done)
    requires Sound(g, root, start.seen, start.predecessors)
    requires NewOnRing(g, root, start, r, degree, done)
    ensures Sound(g, root, r.seen, r.predecessors)
    ensures forall v :: v in r.seen ==> r.seen[v] <= degree
  {
    hide Ball, OnRing, Predecessors, Issuers;
  }

  lemma RingMissesNothing(g: Graph, root: string, start: Ring, r: Ring, degree: nat, accountCap: nat, done: Visited,
                          frontier: seq<string>, edges: Edges)
    requires degree > 0 && SeenSoFar(start, r, degree, accountCap, done)
    requires start.seen.Keys == Ball(g, root, degree - 1)
    requires NewOnRing(g, root, start, r, degree, done)
    requires forall u :: u in frontier <==> OnRing(g, root, u, degree - 1)
    requires Covers(done, frontier, edges) && Answers(edges, g, frontier) && !edges.truncated && !r.truncated
    ensures r.seen.Keys == Ball(g, root, degree)
  {
    forall v | v in Ball(g, root, degree) ensures v in r.seen {
      if v !in Ball(g, root, degree - 1) {
        var u :| u in Ball(g, root, degree - 1) && v in Targets(g, u) && v != "";
        PredecessorOnRing(g, root, u, v, degree);
        assert u in Issuers(done, v);
      }
    }
    forall v | v in r.seen ensures v in Ball(g, root, degree) {
      BallGrows(g, root, degree - 1, degree);
    }
  }

  lemma IssuersAreAll(g: Graph, root: string, degree: nat, done: Visited, frontier: seq<string>, edges: Edges, v: string)
    requires degree > 0
    requires forall u :: u in frontier <==> OnRing(g, root, u, degree - 1)
    requires Covers(done, frontier, edges) && Answers(edges, g, frontier) && !edges.truncated
    ensures Predecessors(g, root, v, degree) <= Issuers(done, v)
  {
    forall u | u in Predecessors(g, root, v, degree) ensures u in Issuers(done, v) {
      assert v in Returned(edges, u);
    }
  }

  lemma PredecessorOnRing(g: Graph, root: string, u: string, v: string, degree: nat)
    requires degree > 0 && u in Ball(g, root, degree - 1) && v in Targets(g, u) && v != ""
    requires v !in Ball(g, root, degree - 1)
    ensures OnRing(g, root, u, degree - 1)
  {
  }

  lemma NextIsRing(g: Graph, root: string, start: Ring, r: Ring, degree: nat)
    requires degree > 0 && FrontierSoFar(start, r)
    requires start.seen.Keys == Ball(g, root, degree - 1) && r.seen.Keys == Ball(g, root, degree)
    ensures forall v :: v in r.next <==> OnRing(g, root, v, degree)
  {
  }

  lemma RingIsComplete(g: Graph, root: string, start: Ring, r: Ring, degree: nat, accountCap: nat, done: Visited)
    requires degree > 0 && SeenSoFar(start, r, degree, accountCap, done) && ViaKeys(start, r, degree) && ViaSets(start, r, done)
    requires Complete(g, root, start.seen, start.predecessors, degree - 1)
    requires r.seen.Keys == Ball(g, root, degree)
    requires forall v :: v in r.seen && v !in start.seen ==> Issuers(done, v) == Predecessors(g, root, v, degree)
    ensures Complete(g, root, r.seen, r.predecessors, degree)
  {
    hide Ball, Predecessors, Issuers;
  }

  lemma RingParts(start: Ring, r: Ring, degree: nat, accountCap: nat, done: Visited)
    requires RingSoFar(start, r, degree, accountCap, done)
    ensures SeenSoFar(start, r, degree, accountCap, done) && FrontierSoFar(start, r) && ViaKeys(start, r, degree) && ViaSets(start, r, done)
  {
  }

  lemma CompleteIsBallAt(g: Graph, root: string, start: Ring, degree: nat)
    requires degree > 0 && Complete(g, root, start.seen, start.predecessors, degree - 1)
    ensures start.seen.Keys == Ball(g, root, degree - 1)
  {
    hide Ball, Predecessors;
  }

  lemma NewIssuers(g: Graph, root: string, start: Ring, r: Ring, degree: nat, done: Visited, v: string)
    requires NewOnRing(g, root, start, r, degree, done) && v in r.seen && v !in start.seen
    ensures Issuers(done, v) <= Predecessors(g, root, v, degree)
  {
    hide Issuers, Predecessors, OnRing;
  }

  /** One iteration of the degree loop, given the edges it loaded. */
  lemma RingStep(g: Graph, root: string, start: Ring, r: Ring, degree: nat, accountCap: nat, done: Visited,
                 frontier: seq<string>, edges: Edges)
    requires degree > 0 && Started(start, root, degree, accountCap) && RingSoFar(start, r, degree, accountCap, done)
    requires Sound(g, root, start.seen, start.predecessors)
    requires Complete(g, root, start.seen, start.predecessors, degree - 1)
    requires forall u :: u in frontier <==> OnRing(g, root, u, degree - 1)
    requires Covers(done, frontier, edges) && Answers(edges, g, frontier)
    ensures Sound(g, root, r.seen, r.predecessors)
    ensures forall v :: v in r.seen ==> r.seen[v] <= degree
    ensures !r.truncated && !edges.truncated ==>
              Complete(g, root, r.seen, r.predecessors, degree) && forall v :: v in r.next <==> OnRing(g, root, v, degree)
  {
    hide *;
    RingParts(start, r, degree, accountCap, done);
    CompleteIsBallAt(g, root, start, degree);
    NewAccounts(g, root, start, r, degree, accountCap, done, frontier, edges);
    RingIsSound(g, root, start, r, degree, accountCap, done);
    if !r.truncated && !edges.truncated {
      RingMissesNothing(g, root, start, r, degree, accountCap, done, frontier, edges);
      forall v | v in r.seen && v !in start.seen ensures Issuers(done, v) == Predecessors(g, root, v, degree) {
        IssuersAreAll(g, root, degree, done, frontier, edges, v);
        NewIssuers(g, root, start, r, degree, done, v);
      }
      RingIsComplete(g, root, start, r, degree, accountCap, done);
      NextIsRing(g, root, start, r, degree);
    }
  }

  /** An empty ring ends the graph. */
  lemma {:induction false} EmptyRing(g: Graph, root: string, degree: nat, k: nat)
    requires 0 < degree <= k && Ball(g, root, degree) == Ball(g, root, degree - 1)
    ensures Ball(g, root, k) == Ball(g, root, degree)
  {
    if degree < k {
      EmptyRing(g, root, degree, k - 1);
      if degree < k - 1 {
        EmptyRing(g, root, degree, k - 2);
      }
    }
  }

  /** The request for the ring at distance `k`: for each of its accounts, and for as many edges as the
      accounts that are still wanted can need. */
  ghost predicate IsCall(g: Graph, root: string, accountCap: nat, k: nat, call: Call) {
    && (forall u :: u in call.sources <==> OnRing(g, root, u, k))
    && call.limit == (accountCap - (|Ball(g, root, k)| - 1)) * MAX_VIA
  }

  /** The requests of a traversal: one for each ring in turn, all but the last answered without truncation. */
  ghost predicate AreCalls(adjacency: Adjacency, g: Graph, root: string, accountCap: nat, calls: seq<Call>) {
    && (forall k :: 0 <= k < |calls| ==> IsCall(g, root, accountCap, k, calls[k]))
    && forall k :: 0 <= k < |calls| - 1 ==>
         var answer := adjacency(calls[k].sources, calls[k].limit); answer.Ok? && !answer.value.truncated
  }

  ghost predicate LastFails(adjacency: Adjacency, calls: seq<Call>) {
    calls != [] && var last := calls[|calls| - 1]; adjacency(last.sources, last.limit).Err?
  }

  ghost predicate LastTruncated(adjacency: Adjacency, calls: seq<Call>) {
    calls != []
    && var last := calls[|calls| - 1];
       adjacency(last.sources, last.limit).Ok? && adjacency(last.sources, last.limit).value.truncated
  }

  /** Fails exactly if the last request does. The result is cut short only at the cap, or because the last
      request was; and then always. */
  method Traverse(adjacency: Adjacency, ghost g: Graph, root: string, maxDegree: nat, accountCap: nat)
    returns (r: Result<Ring>, ghost calls: seq<Call>)
    requires Implements(adjacency, g) && root != "" && 1 <= maxDegree && 0 < accountCap <= MAX_SAFE_CLOSURE_ACCOUNTS
    ensures AreCalls(adjacency, g, root, accountCap, calls) && |calls| <= maxDegree
    ensures r.Err? <==> LastFails(adjacency, calls)
    ensures r.Ok? ==>
      && root in r.value.seen && |r.value.seen| - 1 <= accountCap
      && Sound(g, root, r.value.seen, r.value.predecessors)
      && (forall v :: v in r.value.seen ==> r.value.seen[v] <= maxDegree)
      && (!r.value.truncated ==> Complete(g, root, r.value.seen, r.value.predecessors, maxDegree))
      && (r.value.truncated ==> |r.value.seen| - 1 == accountCap || LastTruncated(adjacency, calls))
      && (LastTruncated(adjacency, calls) ==> r.value.truncated)
  {
    hide Ball, OnRing, RingSoFar, Issuers, Answers, Predecessors, Sound, Complete, Started, Implements, Covers,
         AreCalls, IsCall, LastFails, LastTruncated;
    var seen: map<string, nat> := map[root := 0];
    var predecessors: map<string, set<string>> := map[];
    var frontier := [root];
    calls := [];
    TraverseStarts(g, root);
    NoCalls(adjacency, g, root, accountCap);
    var degree := 1;
    while degree <= maxDegree
      invariant 1 <= degree <= maxDegree + 1
      invariant root in seen && |seen| - 1 <= accountCap
      invariant Sound(g, root, seen, predecessors)
      invariant Complete(g, root, seen, predecessors, degree - 1)
      invariant forall u :: u in frontier <==> OnRing(g, root, u, degree - 1)
      invariant |calls| == degree - 1 && AreCalls(adjacency, g, root, accountCap, calls)
      invariant !LastFails(adjacency, calls) && !LastTruncated(adjacency, calls)
    {
      CompleteDegrees(g, root, seen, predecessors, degree - 1);
      var remainingAccounts := accountCap - (|seen| - 1);
      if remainingAccounts <= 0 {
        return Ok(Ring(seen, predecessors, [], true)), calls;
      }
      var edgeLimit: EdgeLimit := remainingAccounts * MAX_VIA;  // cannot overflow
      var start := Ring(seen, predecessors, [], false);
      CompleteIsBallAt(g, root, start, degree);
      var loaded := adjacency(frontier, edgeLimit);
      NextCall(adjacency, g, root, accountCap, calls, Call(frontier, edgeLimit));
      calls := calls + [Call(frontier, edgeLimit)];
      if loaded.Err? {
        return Err(loaded.error), calls;
      }
      StartIs(g, root, start, degree, accountCap);
      var ring, done := ExpandRing(start, root, degree, accountCap, frontier, loaded.value);
      ImplementsAt(adjacency, g, frontier, edgeLimit);
      RingStep(g, root, start, ring, degree, accountCap, done, frontier, loaded.value);
      RingBounds(start, ring, root, degree, accountCap, done);
      var truncated := ring.truncated || loaded.value.truncated;
      if truncated {
        return Ok(ring.(truncated := true)), calls;
      }
      if ring.next == [] {
        NothingFurther(g, root, start, ring, degree, accountCap, done, maxDegree);
        return Ok(ring), calls;
      }
      seen, predecessors, frontier := ring.seen, ring.predecessors, ring.next;
      degree := degree + 1;
    }
    CompleteDegrees(g, root, seen, predecessors, degree - 1);
    return Ok(Ring(seen, predecessors, [], false)), calls;
  }

  lemma NoCalls(adjacency: Adjacency, g: Graph, root: string, accountCap: nat)
    ensures AreCalls(adjacency, g, root, accountCap, []) && !LastFails(adjacency, []) && !LastTruncated(adjacency, [])
  {
  }

  lemma NextCall(adjacency: Adjacency, g: Graph, root: string, accountCap: nat, calls: seq<Call>, next: Call)
    requires AreCalls(adjacency, g, root, accountCap, calls)
    requires !LastFails(adjacency, calls) && !LastTruncated(adjacency, calls)
    requires forall u :: u in next.sources <==> OnRing(g, root, u, |calls|)
    requires next.limit == (accountCap - (|Ball(g, root, |calls|)| - 1)) * MAX_VIA
    ensures AreCalls(adjacency, g, root, accountCap, calls + [next])
    ensures LastFails(adjacency, calls + [next]) <==> adjacency(next.sources, next.limit).Err?
    ensures LastTruncated(adjacency, calls + [next])
            <==> adjacency(next.sources, next.limit).Ok? && adjacency(next.sources, next.limit).value.truncated
  {
    hide OnRing, Ball;
    assert IsCall(g, root, accountCap, |calls|, next);
  }

  lemma StartIs(g: Graph, root: string, start: Ring, degree: nat, accountCap: nat)
    requires root in start.seen && |start.seen| - 1 <= accountCap && start.next == [] && !start.truncated
    requires Sound(g, root, start.seen, start.predecessors) && forall v :: v in start.seen ==> start.seen[v] < degree
    ensures Started(start, root, degree, accountCap)
  {
    hide OnRing, Predecessors;
  }

  lemma CompleteDegrees(g: Graph, root: string, seen: map<string, nat>, predecessors: map<string, set<string>>, k: nat)
    requires Complete(g, root, seen, predecessors, k)
    ensures forall v :: v in seen ==> seen[v] <= k
  {
    hide Ball, Predecessors;
  }

  lemma ImplementsAt(adjacency: Adjacency, g: Graph, frontier: seq<string>, limit: EdgeLimit)
    requires Implements(adjacency, g)
    ensures adjacency(frontier, limit).Ok? ==> Answers(adjacency(frontier, limit).value, g, frontier)
  {
    hide Answers;
  }

  lemma TraverseStarts(g: Graph, root: string)
    ensures Sound(g, root, map[root := 0], map[]) && Complete(g, root, map[root := 0], map[], 0)
    ensures forall u :: u in [root] <==> OnRing(g, root, u, 0)
  {
  }

  lemma RingBounds(start: Ring, r: Ring, root: string, degree: nat, accountCap: nat, done: Visited)
    requires Started(start, root, degree, accountCap) && RingSoFar(start, r, degree, accountCap, done)
    ensures root in r.seen && |r.seen| - 1 <= accountCap && (r.truncated ==> |r.seen| - 1 == accountCap)
  {
  }

  lemma NothingFurther(g: Graph, root: string, start: Ring, r: Ring, degree: nat, accountCap: nat, done: Visited, maxDegree: nat)
    requires 0 < degree <= maxDegree && RingSoFar(start, r, degree, accountCap, done) && r.next == []
    requires start.seen.Keys == Ball(g, root, degree - 1)
    requires Complete(g, root, r.seen, r.predecessors, degree)
    ensures Complete(g, root, r.seen, r.predecessors, maxDegree)
  {
    hide *;
    NothingNew(start, r, degree, accountCap, done);
    CompleteIsBall(g, root, r, degree);
    EmptyRing(g, root, degree, maxDegree);
    CompleteFurther(g, root, r, degree, maxDegree);
  }

  lemma NothingNew(start: Ring, r: Ring, degree: nat, accountCap: nat, done: Visited)
    requires RingSoFar(start, r, degree, accountCap, done) && r.next == []
    ensures r.seen.Keys == start.seen.Keys
  {
    assert forall v :: v in r.seen ==> v in start.seen || v in r.next;
  }

  lemma CompleteIsBall(g: Graph, root: string, r: Ring, degree: nat)
    requires Complete(g, root, r.seen, r.predecessors, degree)
    ensures r.seen.Keys == Ball(g, root, degree)
  {
    hide Ball, Predecessors;
  }

  lemma CompleteFurther(g: Graph, root: string, r: Ring, degree: nat, further: nat)
    requires Complete(g, root, r.seen, r.predecessors, degree) && degree <= further
    requires Ball(g, root, further) == Ball(g, root, degree)
    ensures Complete(g, root, r.seen, r.predecessors, further)
  {
    hide Ball, Predecessors;
  }

  // ----- The result -----

  predicate AccountBefore(a: Account, b: Account) {
    a.degree < b.degree || (a.degree == b.degree && Before(a.did, b.did))
  }

  ghost predicate ListsSeen(accounts: seq<Account>, root: string, seen: map<string, nat>, predecessors: map<string, set<string>>) {
    && (forall a :: a in accounts ==>
          && a.did in seen && a.did != root && a.degree == seen[a.did]
          && IsSorting(a.via, if a.did in predecessors then predecessors[a.did] else {}, Before))
    && (forall did :: did in seen && did != root ==> exists a :: a in accounts && a.did == did)
    && Ascending(accounts, AccountBefore)
  }

  lemma AccountBeforeIsTransitive()
    ensures forall a, b, c :: AccountBefore(a, b) && AccountBefore(b, c) ==> AccountBefore(a, c)
  {
    BeforeIsTransitive();
  }

  method ListAccounts(root: string, seen: map<string, nat>, predecessors: map<string, set<string>>) returns (accounts: seq<Account>)
    requires root in seen
    ensures ListsSeen(accounts, root, seen, predecessors)
    ensures |accounts| == |seen| - 1
  {
    var todo := seen.Keys - {root};
    var items: seq<Account> := [];
    while todo != {}
      invariant todo <= seen.Keys - {root} && |items| + |todo| == |seen| - 1
      invariant forall a :: a in items ==>
                  && a.did in seen && a.did != root && a.did !in todo && a.degree == seen[a.did]
                  && IsSorting(a.via, if a.did in predecessors then predecessors[a.did] else {}, Before)
      invariant forall did :: did in seen && did != root && did !in todo ==> exists a :: a in items && a.did == did
      invariant forall i, j :: 0 <= i < j < |items| ==> items[i].did != items[j].did
      decreases |todo|
    {
      var did :| did in todo;
      var via := SortTexts(if did in predecessors then predecessors[did] else {});
      todo := todo - {did};
      ghost var before := items;
      items := items + [Account(did, seen[did], via)];
      assert forall a :: a in items <==> a in before || a == Account(did, seen[did], via);
    }
    AccountBeforeIsTransitive();
    BeforeIsTotal();
    accounts := SortItems(items, AccountBefore);
    assert forall a :: a in accounts <==> a in Elements(accounts);
    assert forall a :: a in items <==> a in Elements(items);
  }

  /** The accounts with an edge to `v` that are one hop closer than its distance `k`. */
  lemma PredecessorsByDistance(g: Graph, root: string, v: string, k: nat, u: string)
    requires k > 0
    ensures u in Predecessors(g, root, v, k) <==> Distance(g, root, u, k - 1) && v in Targets(g, u)
  {
    RingIsDistance(g, root, u, k - 1);
  }

  /** Who vouches for an account: nobody at degree one; otherwise listed accounts one hop closer with an
      edge to it, in order, each once, and every such account unless there are more than MAX_VIA. */
  ghost predicate GoodVia(g: Graph, root: string, c: Closure, a: Account) {
    && Ascending(a.via, Before) && |a.via| <= MAX_VIA
    && (a.degree == 1 <==> a.via == [])
    && (a.degree > 1 ==> forall u :: u in a.via ==>
          && Distance(g, root, u, a.degree - 1) && a.did in Targets(g, u)
          && exists b :: b in c.accounts && b.did == u && b.degree == a.degree - 1)
    && (a.degree > 1 && !c.truncated && |a.via| < MAX_VIA ==>
          forall u :: Distance(g, root, u, a.degree - 1) && a.did in Targets(g, u) ==> u in a.via)
  }

  /** What the closure promises about its accounts. */
  ghost predicate IsClosure(g: Graph, root: string, maxDegree: int, accountCap: int, c: Closure) {
    && |c.accounts| <= accountCap
    && Ascending(c.accounts, AccountBefore)
    && (forall a :: a in c.accounts ==>
          && a.did != "" && a.did != root && 1 <= a.degree <= maxDegree
          && Distance(g, root, a.did, a.degree)
          && GoodVia(g, root, c, a))
    && (!c.truncated ==> forall v, k: nat :: 1 <= k <= maxDegree && Distance(g, root, v, k) ==>
          exists a :: a in c.accounts && a.did == v && a.degree == k)
  }

  predicate ValidRequest(root: string, maxDegree: Int, accountCap: Int) {
    root != "" && 1 <= maxDegree <= MAX_DEGREE && 0 < accountCap <= MAX_SAFE_CLOSURE_ACCOUNTS
  }

  /** The bounded closure of `root`, at true shortest distances even when it is cut short. */
  method Compute(adjacency: Adjacency, ghost g: Graph, root: string, maxDegree: Int, accountCap: Int)
    returns (r: Result<Closure>, ghost calls: seq<Call>)
    requires Implements(adjacency, g)
    ensures if ValidRequest(root, maxDegree, accountCap) then AreCalls(adjacency, g, root, accountCap, calls) else calls == []
    ensures r.Err? <==> !ValidRequest(root, maxDegree, accountCap) || LastFails(adjacency, calls)
    ensures r.Ok? ==> IsClosure(g, root, maxDegree, accountCap, r.value)
    ensures r.Ok? && r.value.truncated ==> |r.value.accounts| == accountCap || LastTruncated(adjacency, calls)
    ensures r.Ok? && LastTruncated(adjacency, calls) ==> r.value.truncated
  {
    calls := [];
    if root == "" {
      return Err("root DID is required"), calls;
    }
    if maxDegree < 1 || maxDegree > MAX_DEGREE {
      return Err("degree out of range"), calls;
    }
    if accountCap <= 0 {
      return Err("graph closure cap must be positive"), calls;
    }
    if accountCap > MAX_SAFE_CLOSURE_ACCOUNTS {
      return Err("graph closure cap is too large"), calls;
    }
    var traversed;
    traversed, calls := Traverse(adjacency, g, root, maxDegree, accountCap);
    if traversed.Err? {
      return Err(traversed.error), calls;
    }
    var ring := traversed.value;
    var accounts := ListAccounts(root, ring.seen, ring.predecessors);
    var c := Closure(accounts, ring.truncated);
    AccountsAreExact(g, root, maxDegree, ring, c);
    return Ok(c), calls;
  }

  lemma AccountsAreExact(g: Graph, root: string, maxDegree: nat, ring: Ring, c: Closure)
    requires root != "" && root in ring.seen && Sound(g, root, ring.seen, ring.predecessors)
    requires forall v :: v in ring.seen ==> ring.seen[v] <= maxDegree
    requires !c.truncated ==> Complete(g, root, ring.seen, ring.predecessors, maxDegree)
    requires ListsSeen(c.accounts, root, ring.seen, ring.predecessors) && |c.accounts| == |ring.seen| - 1
    ensures IsClosure(g, root, maxDegree, |ring.seen| - 1, c)
  {
    forall a | a in c.accounts
      ensures a.did != "" && 1 <= a.degree && Distance(g, root, a.did, a.degree)
      ensures GoodVia(g, root, c, a)
    {
      AccountAtDistance(g, root, a.did, a.degree);
      ViaIsExact(g, root, maxDegree, ring, c, a);
    }
    if !c.truncated {
      forall v, k: nat | 1 <= k <= maxDegree && Distance(g, root, v, k)
        ensures exists a :: a in c.accounts && a.did == v && a.degree == k
      {
        RingIsDistance(g, root, v, k);
        BallGrows(g, root, k, maxDegree);
        assert v in ring.seen;
        RingUnique(g, root, v, k, ring.seen[v]);
        RootOnRing(g, root, k);
      }
    }
  }

  /** The root is at distance zero only. */
  lemma RootOnRing(g: Graph, root: string, k: nat)
    ensures OnRing(g, root, root, k) <==> k == 0
  {
    if k > 0 {
      BallGrows(g, root, 0, k - 1);
    }
  }

  lemma RingUnique(g: Graph, root: string, v: string, j: nat, k: nat)
    requires OnRing(g, root, v, j) && OnRing(g, root, v, k)
    ensures j == k
  {
    if j < k {
      BallGrows(g, root, j, k - 1);
    } else if k < j {
      BallGrows(g, root, k, j - 1);
    }
  }

  lemma {:induction false} BallHasNoEmpty(g: Graph, root: string, v: string, k: nat)
    requires root != "" && v in Ball(g, root, k)
    ensures v != "" && root in Ball(g, root, k)
    decreases k
  {
    if k > 0 {
      BallHasNoEmpty(g, root, root, 0);
      BallGrows(g, root, 0, k);
      if v in Ball(g, root, k - 1) {
        BallHasNoEmpty(g, root, v, k - 1);
      }
    }
  }

  lemma AccountAtDistance(g: Graph, root: string, v: string, k: nat)
    requires root != "" && v != root && OnRing(g, root, v, k)
    ensures v != "" && 1 <= k && Distance(g, root, v, k)
  {
    BallHasNoEmpty(g, root, v, k);
    RingIsDistance(g, root, v, k);
  }

  lemma ViaMember(g: Graph, root: string, ring: Ring, c: Closure, a: Account, u: string)
    requires root in ring.seen && Sound(g, root, ring.seen, ring.predecessors)
    requires ListsSeen(c.accounts, root, ring.seen, ring.predecessors)
    requires a in c.accounts && a.degree > 1 && a.did in ring.predecessors && u in ring.predecessors[a.did]
    ensures Distance(g, root, u, a.degree - 1) && a.did in Targets(g, u)
    ensures exists b :: b in c.accounts && b.did == u && b.degree == a.degree - 1
  {
    PredecessorsByDistance(g, root, a.did, a.degree, u);
    RingIsDistance(g, root, u, a.degree - 1);
    RootOnRing(g, root, a.degree - 1);
    RingUnique(g, root, u, a.degree - 1, ring.seen[u]);
    var b :| b in c.accounts && b.did == u;
  }

  lemma ViaShape(g: Graph, root: string, ring: Ring, c: Closure, a: Account)
    requires Sound(g, root, ring.seen, ring.predecessors)
    requires ListsSeen(c.accounts, root, ring.seen, ring.predecessors)
    requires a in c.accounts && 1 <= a.degree
    ensures Ascending(a.via, Before) && |a.via| <= MAX_VIA && (a.degree == 1 <==> a.via == [])
    ensures a.degree > 1 ==> a.did in ring.predecessors && |a.via| == |ring.predecessors[a.did]|
    ensures a.degree > 1 ==> forall u :: u in a.via <==> u in ring.predecessors[a.did]
  {
    var via := if a.did in ring.predecessors then ring.predecessors[a.did] else {};
    BeforeIsTotal();
    SortingSize(a.via, via, Before);
    assert forall u :: u in a.via <==> u in Elements(a.via);
  }

  lemma ViaMembers(g: Graph, root: string, ring: Ring, c: Closure, a: Account)
    requires root in ring.seen && Sound(g, root, ring.seen, ring.predecessors)
    requires ListsSeen(c.accounts, root, ring.seen, ring.predecessors)
    requires a in c.accounts && a.degree > 1 && a.did in ring.predecessors
    requires forall u :: u in a.via <==> u in ring.predecessors[a.did]
    ensures forall u :: u in a.via ==> Distance(g, root, u, a.degree - 1) && a.did in Targets(g, u)
    ensures forall u :: u in a.via ==> exists b :: b in c.accounts && b.did == u && b.degree == a.degree - 1
  {
    hide Distance, OnRing, Ball, Before, Targets, Predecessors, Elements, Sound, ListsSeen;
    forall u | u in a.via
      ensures Distance(g, root, u, a.degree - 1) && a.did in Targets(g, u)
      ensures exists b :: b in c.accounts && b.did == u && b.degree == a.degree - 1
    {
      ViaMember(g, root, ring, c, a, u);
    }
  }

  lemma ViaIsComplete(g: Graph, root: string, maxDegree: nat, ring: Ring, c: Closure, a: Account, u: string)
    requires Sound(g, root, ring.seen, ring.predecessors)
    requires Complete(g, root, ring.seen, ring.predecessors, maxDegree)
    requires ListsSeen(c.accounts, root, ring.seen, ring.predecessors)
    requires a in c.accounts && 1 < a.degree && a.did in ring.predecessors && |ring.predecessors[a.did]| < MAX_VIA
    requires Distance(g, root, u, a.degree - 1) && a.did in Targets(g, u)
    ensures u in ring.predecessors[a.did]
  {
    hide Distance, OnRing, Ball, Before, Targets, Elements;
    PredecessorsByDistance(g, root, a.did, a.degree, u);
  }

  lemma ViaIsExact(g: Graph, root: string, maxDegree: nat, ring: Ring, c: Closure, a: Account)
    requires root in ring.seen && Sound(g, root, ring.seen, ring.predecessors)
    requires !c.truncated ==> Complete(g, root, ring.seen, ring.predecessors, maxDegree)
    requires ListsSeen(c.accounts, root, ring.seen, ring.predecessors)
    requires a in c.accounts && 1 <= a.degree
    ensures GoodVia(g, root, c, a)
  {
    hide Distance, OnRing, Ball, Before, Targets, Predecessors, Elements, Sound, Complete, ListsSeen;
    ViaShape(g, root, ring, c, a);
    if a.degree > 1 {
      ViaMembers(g, root, ring, c, a);
      if !c.truncated && |a.via| < MAX_VIA {
        forall u | Distance(g, root, u, a.degree - 1) && a.did in Targets(g, u) ensures u in a.via {
          ViaIsComplete(g, root, maxDegree, ring, c, a, u);
        }
      }
    }
  }
}
