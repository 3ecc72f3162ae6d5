/** The endorsement edge source: one SQL join per batch of issuers under a shared edge limit. */
module Endorsement {
  import opened Text
  import opened Sorting
  import GraphClosure

  const SQL_PARAM_BATCH_SIZE := 900

  const AWARD := "app.certified.badge.award"
  const DEFINITION := "app.certified.badge.definition"
  const RESPONSE := "app.certified.badge.response"

  /** `allowedIssuers` of a badge definition: missing, an array of objects with an optional did, or neither. */
  datatype Issuers = AnyIssuer | Listed(dids: seq<Option<string>>) | NotAList

  /** What the query reads from a record: columns and extracted JSON text, absent when SQL NULL. */
  datatype Row = Row(
    uri: string, did: string, collection: string, valid: bool,
    subjectDid: Option<string>, badgeUri: Option<string>,
    badgeType: Option<string>, allowedIssuers: Issuers,
    awardUri: Option<string>, response: Option<string>)

  type Edge = (string, string)

  // ----- The edge relation -----

  /** didSQLPredicate. */
  predicate LooksLikeDid(s: string) {
    |s| > 8 && (s[..8] == "did:plc:" || s[..8] == "did:web:") && ' ' !in s
  }

  predicate Allows(issuers: Issuers, did: string) {
    match issuers
    case AnyIssuer => true
    case Listed(dids) => Some(did) in dids
    case NotAList => false
  }

  predicate Visible(row: Row, anyStatus: bool) {
    anyStatus || row.valid
  }

  /** `award` endorses `subject` through `definition`, and the subject has not rejected it. */
  predicate Endorses(table: set<Row>, anyStatus: bool, award: Row, definition: Row, subject: string) {
    && award.collection == AWARD && Visible(award, anyStatus)
    && award.subjectDid == Some(subject) && subject != "" && LooksLikeDid(subject) && award.did != subject
    && definition.collection == DEFINITION && Visible(definition, anyStatus)
    && award.badgeUri == Some(definition.uri) && definition.badgeType == Some("endorsement")
    && Allows(definition.allowedIssuers, award.did)
    && !exists r :: r in table && r.collection == RESPONSE && Visible(r, anyStatus)
                    && r.did == subject && r.awardUri == Some(award.uri) && r.response == Some("rejected")
  }

  /** The distinct rows the join returns for a set of issuers. */
  ghost function JoinRows(table: set<Row>, anyStatus: bool, issuers: set<string>): set<Edge> {
    set award, definition |
      award in table && definition in table && award.did in issuers && award.subjectDid.Some?
      && Endorses(table, anyStatus, award, definition, award.subjectDid.value)
      :: (award.did, award.subjectDid.value)
  }

  /** An active endorsement: the join finds it and its subject is a well-formed DID. */
  ghost predicate Active(table: set<Row>, anyStatus: bool, validDid: string -> bool, issuer: string, subject: string) {
    (issuer, subject) in JoinRows(table, anyStatus, {issuer}) && validDid(subject)
  }

  ghost function EndorsementGraph(table: set<Row>, anyStatus: bool, validDid: string -> bool): GraphClosure.Graph {
    var all := set row | row in table :: row.did;
    map issuer | issuer in all ::
      set e | e in JoinRows(table, anyStatus, {issuer}) && validDid(e.1) :: e.1
  }

  lemma JoinRowsByIssuer(table: set<Row>, anyStatus: bool, issuers: set<string>, e: Edge)
    ensures e in JoinRows(table, anyStatus, issuers) <==> e.0 in issuers && e in JoinRows(table, anyStatus, {e.0})
  {
  }

  lemma GraphIsActive(table: set<Row>, anyStatus: bool, validDid: string -> bool, u: string, v: string)
    ensures v in GraphClosure.Targets(EndorsementGraph(table, anyStatus, validDid), u)
            <==> Active(table, anyStatus, validDid, u, v)
  {
    if Active(table, anyStatus, validDid, u, v) {
      assert (u, v) in JoinRows(table, anyStatus, {u});
    }
  }

  // ----- One batch -----

  predicate EdgeBefore(a: Edge, b: Edge) {
    Before(a.0, b.0) || (a.0 == b.0 && Before(a.1, b.1))
  }

  lemma EdgeBeforeIsOrder()
    ensures StrictTotalOrder(EdgeBefore)
  {
    BeforeIsTransitive();
    BeforeIsTotal();
  }

  /** The query's rows: ordered, and at most one more than the limit when there is one. */
  ghost function QueryRows(table: set<Row>, anyStatus: bool, issuers: set<string>, limit: nat): (rows: seq<Edge>) {
    EdgeBeforeIsOrder();
    var all := SortSet(JoinRows(table, anyStatus, issuers), EdgeBefore);
    if limit > 0 && |all| > limit + 1 then all[..limit + 1] else all
  }

  type Adjacencies = map<string, seq<string>>

  function Subjects(out: Adjacencies, issuer: string): seq<string> {
    if issuer in out then out[issuer] else []
  }

  function Append(out: Adjacencies, issuer: string, subjects: seq<string>): Adjacencies {
    out[issuer := Subjects(out, issuer) + subjects]
  }

  ghost function CountOver(out: Adjacencies, issuers: set<string>): nat
    requires issuers <= out.Keys
  {
    if issuers == {} then 0 else var i :| i in issuers; |out[i]| + CountOver(out, issuers - {i})
  }

  /** The number of edges collected. */
  ghost function Count(out: Adjacencies): nat {
    CountOver(out, out.Keys)
  }

  lemma {:induction false} CountOverAny(out: Adjacencies, issuers: set<string>, i: string)
    requires issuers <= out.Keys && i in issuers
    ensures CountOver(out, issuers) == |out[i]| + CountOver(out, issuers - {i})
    decreases |issuers|
  {
    var j :| j in issuers && CountOver(out, issuers) == |out[j]| + CountOver(out, issuers - {j});
    if i != j {
      CountOverAny(out, issuers - {j}, i);
      CountOverAny(out, issuers - {i}, j);
      assert issuers - {j} - {i} == issuers - {i} - {j};
    }
  }

  lemma {:induction false} CountOverSame(a: Adjacencies, b: Adjacencies, issuers: set<string>)
    requires issuers <= a.Keys && issuers <= b.Keys
    requires forall i :: i in issuers ==> a[i] == b[i]
    ensures CountOver(a, issuers) == CountOver(b, issuers)
    decreases |issuers|
  {
    if issuers != {} {
      var i :| i in issuers;
      CountOverSame(a, b, issuers - {i});
      CountOverAny(a, issuers, i);
      CountOverAny(b, issuers, i);
    }
  }

  lemma CountAppend(out: Adjacencies, issuer: string, subjects: seq<string>)
    ensures Count(Append(out, issuer, subjects)) == Count(out) + |subjects|
  {
    var more := Append(out, issuer, subjects);
    var others := out.Keys - {issuer};
    CountOverAny(more, more.Keys, issuer);
    assert more.Keys - {issuer} == others;
    CountOverSame(out, more, others);
    if issuer in out {
      CountOverAny(out, out.Keys, issuer);
    } else {
      assert out.Keys == others;
    }
  }

  /** What a batch keeps of its rows: the well-formed ones, up to the limit. */
  ghost predicate Collects(rows: seq<Edge>, validDid: string -> bool, limit: nat, out: Adjacencies, truncated: bool) {
    && (forall i, s :: s in Subjects(out, i) ==> (i, s) in rows && validDid(s))
    && (truncated <==> limit > 0 && |rows| > limit)
    && (limit > 0 ==> Count(out) <= limit)
    && (!truncated ==> forall i, s :: (i, s) in rows && validDid(s) ==> s in Subjects(out, i))
    && (truncated && (forall e :: e in rows ==> validDid(e.1)) ==> Count(out) == limit)
  }

  /** What has been collected after the first `n` rows, `valid` of them well-formed. */
  ghost predicate CollectedSoFar(rows: seq<Edge>, validDid: string -> bool, limit: nat, out: Adjacencies, n: nat, valid: nat)
    requires n <= |rows|
  {
    && valid <= n && ((forall e :: e in rows ==> validDid(e.1)) ==> valid == n)
    && Count(out) == (if limit > 0 && valid > limit then limit else valid)
    && EdgesOf(rows[..n], validDid, out, limit == 0 || valid <= limit)
  }

  /** Only well-formed edges of the rows, and all of them if there was room. */
  ghost predicate EdgesOf(rows: seq<Edge>, validDid: string -> bool, out: Adjacencies, all: bool) {
    && (forall i, s :: s in Subjects(out, i) ==> (i, s) in rows && validDid(s))
    && (all ==> forall i, s :: (i, s) in rows && validDid(s) ==> s in Subjects(out, i))
  }

  /** The row loop: collects, and reports whether the query had more rows than the limit. */
  method CollectRows(rows: seq<Edge>, validDid: string -> bool, limit: nat) returns (out: Adjacencies, truncated: bool)
    ensures Collects(rows, validDid, limit, out, truncated)
    ensures limit > 0 ==> Count(out) <= limit
    ensures limit == 0 ==> !truncated
  {
    hide *;
    out, truncated := map[], false;
    var validRowCount, rawRowCount := 0, 0;
    NothingRead(rows, validDid, limit);
    for n := 0 to |rows|
      invariant rawRowCount == n
      invariant truncated <==> limit > 0 && rawRowCount > limit
      invariant CollectedSoFar(rows, validDid, limit, out, n, validRowCount)
    {
      var issuer, subject := rows[n].0, rows[n].1;
      RowRead(rows, validDid, limit, out, n, validRowCount);
      rawRowCount := rawRowCount + 1;
      if limit > 0 && rawRowCount > limit {
        truncated := true;
      }
      if !validDid(subject) {
        continue;
      }
      validRowCount := validRowCount + 1;
      if limit > 0 && validRowCount > limit {
        truncated := true;
        continue;
      }
      out := Append(out, issuer, [subject]);
    }
    AllRead(rows, validDid, limit, out, truncated, validRowCount);
  }

  lemma NothingRead(rows: seq<Edge>, validDid: string -> bool, limit: nat)
    ensures CollectedSoFar(rows, validDid, limit, map[], 0, 0)
  {
  }

  /** Reading one row, well-formed or not, within the limit or beyond it. */
  lemma RowRead(rows: seq<Edge>, validDid: string -> bool, limit: nat, out: Adjacencies, n: nat, valid: nat)
    requires n < |rows| && CollectedSoFar(rows, validDid, limit, out, n, valid)
    ensures valid <= n
    ensures !validDid(rows[n].1) ==> CollectedSoFar(rows, validDid, limit, out, n + 1, valid)
    ensures validDid(rows[n].1) && limit > 0 && valid + 1 > limit ==> CollectedSoFar(rows, validDid, limit, out, n + 1, valid + 1)
    ensures validDid(rows[n].1) && !(limit > 0 && valid + 1 > limit) ==>
              CollectedSoFar(rows, validDid, limit, Append(out, rows[n].0, [rows[n].1]), n + 1, valid + 1)
  {
    var row := rows[n];
    assert rows[..n + 1] == rows[..n] + [row] && row in rows;
    CountAppend(out, row.0, [row.1]);
    EdgesNext(rows[..n], row, validDid, out, limit == 0 || valid <= limit);
    hide Count, Append, EdgesOf;
  }

  lemma EdgesNext(rows: seq<Edge>, row: Edge, validDid: string -> bool, out: Adjacencies, all: bool)
    ensures EdgesOf(rows, validDid, out, all) ==> EdgesOf(rows + [row], validDid, out, all && !validDid(row.1))
    ensures EdgesOf(rows, validDid, out, all) && validDid(row.1) ==>
              EdgesOf(rows + [row], validDid, Append(out, row.0, [row.1]), all)
  {
    SubjectsAppend(out, row.0, row.1);
    hide Subjects, Append;
    assert forall e :: e in rows + [row] <==> e in rows || e == row;
  }

  lemma SubjectsAppend(out: Adjacencies, issuer: string, subject: string)
    ensures forall i, s :: s in Subjects(Append(out, issuer, [subject]), i) <==> s in Subjects(out, i) || (i == issuer && s == subject)
  {
  }

  lemma AllRead(rows: seq<Edge>, validDid: string -> bool, limit: nat, out: Adjacencies, truncated: bool, valid: nat)
    requires CollectedSoFar(rows, validDid, limit, out, |rows|, valid) && (truncated <==> limit > 0 && |rows| > limit)
    ensures Collects(rows, validDid, limit, out, truncated) && (limit > 0 ==> Count(out) <= limit)
  {
    assert rows[..|rows|] == rows;
    hide Count, Subjects;
  }

  // ----- All batches -----

  type Query = (seq<string>, nat) -> Result<seq<Edge>>

  /** The database runs the join over one snapshot of the table, or fails. */
  ghost predicate Runs(query: Query, table: set<Row>, anyStatus: bool) {
    forall issuers, limit {:trigger query(issuers, limit)} ::
      query(issuers, limit).Ok? ==> query(issuers, limit).value == QueryRows(table, anyStatus, Elements(issuers), limit)
  }

  /** How many issuers one query may name. */
  function BatchSize(sqlite: bool, issuers: nat, limit: nat, anyStatus: bool): (n: nat)
    ensures n > 0 || issuers == 0
    ensures sqlite ==> n <= SQL_PARAM_BATCH_SIZE
    ensures sqlite ==> n + (if anyStatus then 0 else 3) + (if limit > 0 then 1 else 0) <= SQL_PARAM_BATCH_SIZE
    ensures n <= issuers
  {
    var max := SQL_PARAM_BATCH_SIZE - (if anyStatus then 0 else 3) - (if limit > 0 then 1 else 0);
    if sqlite && issuers > max then max else issuers
  }

  /** The contract of the edge source: real edges only, no more than the limit, and all of them unless it
      reports truncation, which it does only at the limit or over malformed rows. */
  ghost predicate IsAdjacency(table: set<Row>, anyStatus: bool, validDid: string -> bool, issuers: seq<string>, limit: nat,
                              out: Adjacencies, truncated: bool) {
    && OnlyEdges(table, anyStatus, validDid, issuers, out)
    && (limit > 0 ==> Count(out) <= limit)
    && (limit == 0 ==> !truncated)
    && (!truncated ==> AllEdges(table, anyStatus, validDid, issuers, out))
    && (truncated ==> Count(out) == limit || Malformed(table, anyStatus, validDid, issuers))
  }

  /** A join row of the issuers whose subject is no DID. */
  ghost predicate Malformed(table: set<Row>, anyStatus: bool, validDid: string -> bool, issuers: seq<string>) {
    exists e :: e in JoinRows(table, anyStatus, Elements(issuers)) && !validDid(e.1)
  }

  lemma MalformedGrows(table: set<Row>, anyStatus: bool, validDid: string -> bool, some: seq<string>, issuers: seq<string>)
    requires Malformed(table, anyStatus, validDid, some) && forall i :: i in some ==> i in issuers
    ensures Malformed(table, anyStatus, validDid, issuers)
  {
    hide JoinRows;
    var e :| e in JoinRows(table, anyStatus, Elements(some)) && !validDid(e.1);
    JoinRowsByIssuer(table, anyStatus, Elements(some), e);
    JoinRowsByIssuer(table, anyStatus, Elements(issuers), e);
  }

  ghost predicate OnlyEdges(table: set<Row>, anyStatus: bool, validDid: string -> bool, issuers: seq<string>, out: Adjacencies) {
    forall i, s :: s in Subjects(out, i) ==> i in issuers && Active(table, anyStatus, validDid, i, s)
  }

  ghost predicate AllEdges(table: set<Row>, anyStatus: bool, validDid: string -> bool, issuers: seq<string>, out: Adjacencies) {
    forall i, s :: i in issuers && Active(table, anyStatus, validDid, i, s) ==> s in Subjects(out, i)
  }

  lemma BatchEdges(table: set<Row>, anyStatus: bool, validDid: string -> bool, issuers: seq<string>, limit: nat, rows: seq<Edge>,
                   i: string, s: string)
    requires rows == QueryRows(table, anyStatus, Elements(issuers), limit)
    ensures (i, s) in rows && validDid(s) ==> i in issuers && Active(table, anyStatus, validDid, i, s)
    ensures i in issuers && Active(table, anyStatus, validDid, i, s) && !(limit > 0 && |rows| > limit) ==> (i, s) in rows
    ensures Active(table, anyStatus, validDid, i, s) ==> validDid(s)
  {
    EdgeBeforeIsOrder();
    var all := SortSet(JoinRows(table, anyStatus, Elements(issuers)), EdgeBefore);
    assert forall e :: e in all <==> e in Elements(all);
    JoinRowsByIssuer(table, anyStatus, Elements(issuers), (i, s));
    assert (i, s) in rows ==> (i, s) in all;
  }

  ghost predicate IsMerge(out: Adjacencies, batch: Adjacencies, merged: Adjacencies) {
    forall i :: Subjects(merged, i) == Subjects(out, i) + Subjects(batch, i)
  }

  /** Folding one batch's map into the result, issuer by issuer. */
  method Merge(out: Adjacencies, batch: Adjacencies, limit: nat, remaining: nat) returns (merged: Adjacencies, left: nat)
    requires limit > 0 ==> Count(batch) <= remaining
    requires (limit > 0 && remaining == limit - Count(out)) || (limit == 0 && remaining == 0)
    ensures IsMerge(out, batch, merged)
    ensures Count(merged) == Count(out) + Count(batch)
    ensures left == if limit > 0 then remaining - Count(batch) else 0
  {
    merged, left := out, remaining;
    var todo := batch.Keys;
    NothingMerged(out, batch);
    hide Count, CountOver, Subjects, Append;
    while todo != {}
      invariant todo <= batch.Keys
      invariant MergedBut(out, batch, merged, todo)
      invariant Count(merged) + CountOver(batch, todo) == Count(out) + Count(batch)
      invariant limit > 0 ==> left == remaining - (Count(batch) - CountOver(batch, todo))
      invariant limit == 0 ==> left == 0
      decreases |todo|
    {
      var issuer :| issuer in todo;
      CountOverAny(batch, todo, issuer);
      CountAppend(merged, issuer, batch[issuer]);
      MergeNext(out, batch, merged, todo, issuer);
      merged := Append(merged, issuer, batch[issuer]);
      if left > 0 {
        left := left - |batch[issuer]|;
      }
      todo := todo - {issuer};
    }
    AllMerged(out, batch, merged);
  }

  /** The merge so far, with the issuers of `todo` still to come. */
  ghost predicate MergedBut(out: Adjacencies, batch: Adjacencies, merged: Adjacencies, todo: set<string>) {
    forall i :: Subjects(merged, i) == Subjects(out, i) + (if i in todo then [] else Subjects(batch, i))
  }

  lemma NothingMerged(out: Adjacencies, batch: Adjacencies)
    ensures MergedBut(out, batch, out, batch.Keys) && CountOver(batch, batch.Keys) == Count(batch)
  {
  }

  lemma MergeNext(out: Adjacencies, batch: Adjacencies, merged: Adjacencies, todo: set<string>, issuer: string)
    requires MergedBut(out, batch, merged, todo) && issuer in todo && issuer in batch
    ensures MergedBut(out, batch, Append(merged, issuer, batch[issuer]), todo - {issuer})
  {
  }

  lemma AllMerged(out: Adjacencies, batch: Adjacencies, merged: Adjacencies)
    requires MergedBut(out, batch, merged, {})
    ensures IsMerge(out, batch, merged) && CountOver(batch, {}) == 0
  {
  }

  /** A query asks for exactly the edges that are still wanted. */
  ghost predicate AsksForRest(batchLimit: nat, limit: nat, held: nat) {
    if limit > 0 then batchLimit > 0 && batchLimit == limit - held else batchLimit == 0
  }

  /** One batch: the query and its row loop. Every call has to ask for what remains of the limit. */
  method AdjacencyBatch(query: Query, ghost table: set<Row>, anyStatus: bool, validDid: string -> bool,
                        issuers: seq<string>, batchLimit: nat, ghost limit: nat, ghost held: nat)
    returns (r: Result<GraphClosure.Edges>)
    requires Runs(query, table, anyStatus)
    requires AsksForRest(batchLimit, limit, held)
    ensures r.Err? <==> query(issuers, batchLimit).Err?
    ensures r.Ok? ==>
      && Collects(QueryRows(table, anyStatus, Elements(issuers), batchLimit), validDid, batchLimit, r.value.targets, r.value.truncated)
      && (limit > 0 ==> Count(r.value.targets) <= limit - held)
      && (limit == 0 ==> !r.value.truncated)
  {
    var rows := query(issuers, batchLimit);
    if rows.Err? {
      return Err(rows.error);
    }
    var batch, truncated := CollectRows(rows.value, validDid, batchLimit);
    return Ok(GraphClosure.Edges(batch, truncated));
  }

  lemma BatchStep(table: set<Row>, anyStatus: bool, validDid: string -> bool, before: seq<string>, slice: seq<string>,
                  limit: nat, batchLimit: nat, rows: seq<Edge>, out: Adjacencies, batch: Adjacencies, batchTruncated: bool,
                  merged: Adjacencies)
    requires IsAdjacency(table, anyStatus, validDid, before, limit, out, false)
    requires rows == QueryRows(table, anyStatus, Elements(slice), batchLimit)
    requires Collects(rows, validDid, batchLimit, batch, batchTruncated)
    requires IsMerge(out, batch, merged)
    requires limit > 0 ==> Count(merged) <= limit
    requires limit == 0 ==> !batchTruncated
    requires Count(merged) == Count(out) + Count(batch) && AsksForRest(batchLimit, limit, Count(out))
    ensures IsAdjacency(table, anyStatus, validDid, before + slice, limit, merged, batchTruncated)
  {
    if batchTruncated {
      TruncatedBatch(table, anyStatus, validDid, slice, batchLimit, rows, batch);
      if Malformed(table, anyStatus, validDid, slice) {
        MalformedGrows(table, anyStatus, validDid, slice, before + slice);
      }
    }
    BatchIsExact(table, anyStatus, validDid, slice, limit, batchLimit, rows, batch, batchTruncated);
    hide QueryRows, Active, Count, Subjects, Collects, IsMerge, OnlyEdges, AllEdges, Malformed;
    EdgesJoin(table, anyStatus, validDid, before, slice, out, batch, merged);
  }

  lemma EdgesJoin(table: set<Row>, anyStatus: bool, validDid: string -> bool, before: seq<string>, slice: seq<string>,
                  out: Adjacencies, batch: Adjacencies, merged: Adjacencies)
    requires IsMerge(out, batch, merged)
    ensures OnlyEdges(table, anyStatus, validDid, before, out) && OnlyEdges(table, anyStatus, validDid, slice, batch) ==>
              OnlyEdges(table, anyStatus, validDid, before + slice, merged)
    ensures AllEdges(table, anyStatus, validDid, before, out) && AllEdges(table, anyStatus, validDid, slice, batch) ==>
              AllEdges(table, anyStatus, validDid, before + slice, merged)
  {
    forall i, s ensures s in Subjects(merged, i) <==> s in Subjects(out, i) || s in Subjects(batch, i) {
      MergedMember(out, batch, merged, i, s);
    }
    hide Active, Subjects, IsMerge;
    assert forall i :: i in before + slice <==> i in before || i in slice;
  }

  lemma MergedMember(out: Adjacencies, batch: Adjacencies, merged: Adjacencies, i: string, s: string)
    requires IsMerge(out, batch, merged)
    ensures s in Subjects(merged, i) <==> s in Subjects(out, i) || s in Subjects(batch, i)
  {
    hide Subjects;
    assert Subjects(merged, i) == Subjects(out, i) + Subjects(batch, i);
  }

  lemma TruncatedBatch(table: set<Row>, anyStatus: bool, validDid: string -> bool, slice: seq<string>, batchLimit: nat,
                       rows: seq<Edge>, batch: Adjacencies)
    requires rows == QueryRows(table, anyStatus, Elements(slice), batchLimit)
    requires Collects(rows, validDid, batchLimit, batch, true)
    ensures Count(batch) == batchLimit || Malformed(table, anyStatus, validDid, slice)
  {
    if e :| e in rows && !validDid(e.1) {
      EdgeBeforeIsOrder();
      var all := SortSet(JoinRows(table, anyStatus, Elements(slice)), EdgeBefore);
      assert e in all && e in Elements(all);
    }
  }

  lemma BatchIsExact(table: set<Row>, anyStatus: bool, validDid: string -> bool, slice: seq<string>, limit: nat, batchLimit: nat,
                     rows: seq<Edge>, batch: Adjacencies, batchTruncated: bool)
    requires rows == QueryRows(table, anyStatus, Elements(slice), batchLimit)
    requires Collects(rows, validDid, batchLimit, batch, batchTruncated)
    ensures OnlyEdges(table, anyStatus, validDid, slice, batch)
    ensures !batchTruncated ==> AllEdges(table, anyStatus, validDid, slice, batch)
  {
    hide QueryRows, Active, Count, Subjects;
    forall i, s
      ensures s in Subjects(batch, i) ==> i in slice && Active(table, anyStatus, validDid, i, s)
      ensures !batchTruncated && i in slice && Active(table, anyStatus, validDid, i, s) ==> s in Subjects(batch, i)
    {
      BatchEdges(table, anyStatus, validDid, slice, batchLimit, rows, i, s);
    }
  }

  lemma ShorterPrefix(table: set<Row>, anyStatus: bool, validDid: string -> bool, prefix: seq<string>, issuers: seq<string>,
                      limit: nat, out: Adjacencies, truncated: bool)
    requires IsAdjacency(table, anyStatus, validDid, prefix, limit, out, truncated) && prefix <= issuers && limit > 0
    requires truncated || Count(out) == limit
    ensures IsAdjacency(table, anyStatus, validDid, issuers, limit, out, true)
  {
    if Malformed(table, anyStatus, validDid, prefix) {
      MalformedGrows(table, anyStatus, validDid, prefix, issuers);
    }
    hide Malformed, Active, Subjects, Count;
  }

  lemma PrefixGrows(s: seq<string>, i: nat, j: nat)
    requires i <= j <= |s|
    ensures s[..i] + s[i..j] == s[..j]
  {
  }

  /** The batch loop. `asked` is what it asked the database for; it fails exactly if the last of these
      requests does. */
  method AdjacencyFor(query: Query, ghost table: set<Row>, anyStatus: bool, validDid: string -> bool, sqlite: bool,
                      issuers: seq<string>, limit: nat)
    returns (r: Result<GraphClosure.Edges>, ghost asked: seq<(seq<string>, nat)>)
    requires Runs(query, table, anyStatus)
    ensures r.Ok? ==> IsAdjacency(table, anyStatus, validDid, issuers, limit, r.value.targets, r.value.truncated)
    ensures AllButLastAnswered(query, asked)
    ensures r.Err? <==> asked != [] && query(asked[|asked| - 1].0, asked[|asked| - 1].1).Err?
    ensures forall a :: a in asked ==> Slice(a.0, issuers) && a.1 <= limit && (sqlite ==> |a.0| <= SQL_PARAM_BATCH_SIZE)
  {
    hide *;
    var out: Adjacencies := map[];
    asked := [];
    NothingCollected(table, anyStatus, validDid, issuers, limit);
    NothingAsked(query);
    if issuers == [] {
      return Ok(GraphClosure.Edges(out, false)), asked;
    }
    var batchSize := BatchSize(sqlite, |issuers|, limit, anyStatus);
    var remaining := limit;
    var start := 0;
    while start < |issuers|
      invariant 0 <= start <= |issuers|
      invariant remaining == if limit > 0 then limit - Count(out) else 0
      invariant limit > 0 && start < |issuers| ==> remaining > 0
      invariant IsAdjacency(table, anyStatus, validDid, issuers[..start], limit, out, false)
      invariant AllButLastAnswered(query, asked) && (asked != [] ==> query(asked[|asked| - 1].0, asked[|asked| - 1].1).Ok?)
      invariant forall a :: a in asked ==> Slice(a.0, issuers) && a.1 <= limit && (sqlite ==> |a.0| <= SQL_PARAM_BATCH_SIZE)
    {
      var end := if start + batchSize > |issuers| then |issuers| else start + batchSize;
      var batchLimit := if remaining > 0 then remaining else limit;
      assert AsksForRest(batchLimit, limit, Count(out)) by { Asks(batchLimit, limit, Count(out)); }
      IsSlice(issuers, start, end);
      OneMoreAsked(query, asked, (issuers[start..end], batchLimit));
      asked := asked + [(issuers[start..end], batchLimit)];
      var batch := AdjacencyBatch(query, table, anyStatus, validDid, issuers[start..end], batchLimit, limit, Count(out));
      if batch.Err? {
        return Err(batch.error), asked;
      }
      ghost var rows := QueryRows(table, anyStatus, Elements(issuers[start..end]), batchLimit);
      var merged, left := Merge(out, batch.value.targets, limit, remaining);
      BatchStep(table, anyStatus, validDid, issuers[..start], issuers[start..end], limit, batchLimit, rows, out,
                batch.value.targets, batch.value.truncated, merged);
      PrefixGrows(issuers, start, end);
      out, remaining := merged, left;
      if batch.value.truncated || (remaining == 0 && limit > 0 && end < |issuers|) {
        ShorterPrefix(table, anyStatus, validDid, issuers[..end], issuers, limit, out, batch.value.truncated);
        return Ok(GraphClosure.Edges(out, true)), asked;
      }
      start := end;
    }
    assert issuers[..start] == issuers;
    return Ok(GraphClosure.Edges(out, false)), asked;
  }

  ghost predicate AllButLastAnswered(query: Query, asked: seq<(seq<string>, nat)>) {
    forall i :: 0 <= i < |asked| - 1 ==> query(asked[i].0, asked[i].1).Ok?
  }

  ghost predicate Slice(part: seq<string>, issuers: seq<string>) {
    exists start, end :: 0 <= start < end <= |issuers| && part == issuers[start..end]
  }

  lemma IsSlice(issuers: seq<string>, start: nat, end: nat)
    requires start < end <= |issuers|
    ensures Slice(issuers[start..end], issuers)
  {
  }

  lemma NothingAsked(query: Query)
    ensures AllButLastAnswered(query, [])
  {
  }

  lemma OneMoreAsked(query: Query, asked: seq<(seq<string>, nat)>, next: (seq<string>, nat))
    requires AllButLastAnswered(query, asked) && (asked != [] ==> query(asked[|asked| - 1].0, asked[|asked| - 1].1).Ok?)
    ensures AllButLastAnswered(query, asked + [next])
  {
  }

  lemma NothingCollected(table: set<Row>, anyStatus: bool, validDid: string -> bool, issuers: seq<string>, limit: nat)
    ensures Count(map[]) == 0 && IsAdjacency(table, anyStatus, validDid, issuers[..0], limit, map[], false)
    ensures issuers == [] ==> IsAdjacency(table, anyStatus, validDid, issuers, limit, map[], false)
  {
    assert issuers[..0] == [];
    hide Active;
  }

  lemma Asks(batchLimit: nat, limit: nat, held: nat)
    requires if limit > 0 then batchLimit > 0 && batchLimit == limit - held else batchLimit == 0
    ensures AsksForRest(batchLimit, limit, held)
  {
  }

  // ----- Under the closure -----

  /** An edge source for the closure, each of whose answers is one the batch loop can give. */
  ghost predicate IsSource(adjacency: GraphClosure.Adjacency, table: set<Row>, anyStatus: bool, validDid: string -> bool) {
    forall sources, limit: GraphClosure.EdgeLimit {:trigger adjacency(sources, limit)} ::
      adjacency(sources, limit).Ok? ==>
        var e := adjacency(sources, limit).value;
        IsAdjacency(table, anyStatus, validDid, sources, limit, e.targets, e.truncated)
  }

  /** The batch loop's contract is the one the closure relies on. */
  lemma SourceImplementsGraph(adjacency: GraphClosure.Adjacency, table: set<Row>, anyStatus: bool, validDid: string -> bool)
    requires IsSource(adjacency, table, anyStatus, validDid)
    ensures GraphClosure.Implements(adjacency, EndorsementGraph(table, anyStatus, validDid))
  {
    var g := EndorsementGraph(table, anyStatus, validDid);
    forall sources, limit: GraphClosure.EdgeLimit | adjacency(sources, limit).Ok?
      ensures GraphClosure.Answers(adjacency(sources, limit).value, g, sources)
    {
      AdjacencyAnswers(table, anyStatus, validDid, sources, limit, adjacency(sources, limit).value);
    }
  }

  lemma AdjacencyAnswers(table: set<Row>, anyStatus: bool, validDid: string -> bool, sources: seq<string>,
                         limit: GraphClosure.EdgeLimit, e: GraphClosure.Edges)
    requires IsAdjacency(table, anyStatus, validDid, sources, limit, e.targets, e.truncated)
    ensures GraphClosure.Answers(e, EndorsementGraph(table, anyStatus, validDid), sources)
  {
    var g := EndorsementGraph(table, anyStatus, validDid);
    forall u, v ensures v in GraphClosure.Targets(g, u) <==> Active(table, anyStatus, validDid, u, v) {
      GraphIsActive(table, anyStatus, validDid, u, v);
    }
    assert forall u :: GraphClosure.Returned(e, u) == Subjects(e.targets, u);
    hide EndorsementGraph, Active;
  }

  /** The endorsement closure over a snapshot: an untruncated one is exact on the whole graph of
      active endorsements. */
  method EndorsementClosure(adjacency: GraphClosure.Adjacency, ghost table: set<Row>, anyStatus: bool, ghost validDid: string -> bool,
                            root: string, maxDegree: GraphClosure.Int, accountCap: GraphClosure.Int)
    returns (r: Result<GraphClosure.Closure>, ghost calls: seq<GraphClosure.Call>)
    requires IsSource(adjacency, table, anyStatus, validDid)
    ensures r.Err? <==> !GraphClosure.ValidRequest(root, maxDegree, accountCap) || GraphClosure.LastFails(adjacency, calls)
    ensures r.Ok? && r.value.truncated ==>
              |r.value.accounts| == accountCap || GraphClosure.LastTruncated(adjacency, calls)
    ensures r.Ok? ==>
      GraphClosure.IsClosure(EndorsementGraph(table, anyStatus, validDid), root, maxDegree, accountCap, r.value)
  {
    SourceImplementsGraph(adjacency, table, anyStatus, validDid);
    r, calls := GraphClosure.Compute(adjacency, EndorsementGraph(table, anyStatus, validDid), root, maxDegree, accountCap);
  }
}
