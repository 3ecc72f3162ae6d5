/** The record table under validation-aware writes: single upserts, same-CID repairs and the atomic
    backfill batch, which must leave what single upserts would. */
module RecordStore {
  import opened Text

  /** Empty texts stand for NULL in `error` and `hash`. */
  datatype Write = Write(uri: string, cid: string, did: string, collection: string, json: string,
                         status: string, error: string, hash: string)

  datatype Row = Row(cid: string, did: string, collection: string, json: string, indexedAt: int, createdAt: Option<string>,
                     status: string, error: string, validatedAt: Option<int>, hash: string)

  type Table = map<string, Row>

  /** The normalized createdAt of a record body, if it has one. */
  type Dating = string -> Option<string>

  datatype InsertResult = Inserted | Skipped

  predicate SupportedStatus(status: string) {
    status in {"valid", "invalid", "unknown_schema", "validation_error", "unvalidated"}
  }

  predicate ValidWrite(w: Write) {
    w.uri != "" && w.did != "" && w.collection != "" && w.json != "" && SupportedStatus(w.status)
  }

  function Coalesce(a: Option<string>, b: Option<string>): Option<string> {
    if a.Some? then a else b
  }

  // ----- Single writes -----

  /** INSERT … ON CONFLICT(uri) DO UPDATE: content and metadata move together, the first date stays. */
  function Replaced(stored: Option<Row>, w: Write, dated: Dating, now: int): Row {
    var same := stored.Some? && stored.value.cid == w.cid && stored.value.json == w.json;
    Row(w.cid, w.did, w.collection, w.json, if same then stored.value.indexedAt else now,
        Coalesce(if stored.Some? then stored.value.createdAt else None, dated(w.json)), w.status, w.error, Some(now), w.hash)
  }

  /** The repair of an unchanged record: only metadata, and a date where there was none. */
  function Repaired(row: Row, w: Write, dated: Dating, now: int): Row {
    row.(status := w.status, error := w.error, validatedAt := Some(now), hash := w.hash,
         createdAt := Coalesce(row.createdAt, dated(w.json)))
  }

  function Get(t: Table, uri: string): Option<Row> {
    if uri in t then Some(t[uri]) else None
  }

  predicate SameContent(stored: Option<Row>, w: Write) {
    w.cid != "" && stored.Some? && stored.value.cid == w.cid
  }

  /** Nothing a repair would change but the time of validation. */
  predicate Current(row: Row, w: Write, dated: Dating) {
    && row.status == w.status && row.error == w.error && row.validatedAt.Some? && row.hash == w.hash
    && (row.createdAt.Some? || dated(w.json).None?)
  }

  function Upserted(stored: Option<Row>, w: Write, dated: Dating, now: int): Row {
    if !SameContent(stored, w) then Replaced(stored, w, dated, now)
    else if Current(stored.value, w, dated) then stored.value
    else Repaired(stored.value, w, dated, now)
  }

  function Upsert(t: Table, w: Write, dated: Dating, now: int): Table {
    t[w.uri := Upserted(Get(t, w.uri), w, dated, now)]
  }

  function UpsertAll(t: Table, ws: seq<Write>, dated: Dating, now: int): Table {
    if ws == [] then t else Upsert(UpsertAll(t, ws[..|ws| - 1], dated, now), ws[|ws| - 1], dated, now)
  }

  /** A row apart from when it was validated; whether it was still shows. */
  function TimelessRow(row: Option<Row>): Option<Row> {
    if row.Some? then Some(row.value.(validatedAt := if row.value.validatedAt.Some? then Some(0) else None)) else None
  }

  function Timeless(t: Table): Table {
    map uri | uri in t :: TimelessRow(Some(t[uri])).value
  }

  // ----- Batches -----

  ghost predicate DistinctURIs(ws: seq<Write>) {
    forall i, j :: 0 <= i < j < |ws| ==> ws[i].uri != ws[j].uri
  }

  /** A multi-row upsert statement. */
  function ReplaceAll(t: Table, ws: seq<Write>, dated: Dating, now: int): Table {
    if ws == [] then t
    else
      var before, w := ReplaceAll(t, ws[..|ws| - 1], dated, now), ws[|ws| - 1];
      before[w.uri := Replaced(Get(before, w.uri), w, dated, now)]
  }

  /** The incoming row an UPDATE … FROM VALUES finds for a stored row. */
  function Incoming(ws: seq<Write>, uri: string, cid: string): Option<Write> {
    if ws == [] then None
    else if ws[0].uri == uri && ws[0].cid == cid then Some(ws[0])
    else Incoming(ws[1..], uri, cid)
  }

  function RepairAll(t: Table, ws: seq<Write>, dated: Dating, now: int): Table {
    map uri | uri in t ::
      var w := Incoming(ws, uri, t[uri].cid);
      if w.Some? then Repaired(t[uri], w.value, dated, now) else t[uri]
  }

  /** The rows such an UPDATE affects. */
  function Affected(t: Table, ws: seq<Write>): set<string> {
    set uri | uri in t && Incoming(ws, uri, t[uri].cid).Some?
  }

  lemma {:induction false} IncomingIs(ws: seq<Write>, uri: string, cid: string)
    ensures Incoming(ws, uri, cid).Some? ==>
              var w := Incoming(ws, uri, cid).value; w in ws && w.uri == uri && w.cid == cid
    ensures Incoming(ws, uri, cid).None? <==> forall w :: w in ws ==> w.uri != uri || w.cid != cid
  {
    if ws != [] {
      IncomingIs(ws[1..], uri, cid);
      assert ws == [ws[0]] + ws[1..];
    }
  }

  lemma IncomingOf(ws: seq<Write>, w: Write)
    requires DistinctURIs(ws) && w in ws
    ensures Incoming(ws, w.uri, w.cid) == Some(w)
  {
    IncomingIs(ws, w.uri, w.cid);
    var i :| 0 <= i < |ws| && ws[i] == w;
    assert forall j :: 0 <= j < |ws| && j != i ==> ws[j].uri != w.uri;
  }

  /** Repairs of unchanged rows with distinct URIs affect exactly one row each, so the row count
      the batch insists on cannot be missed. */
  lemma {:induction false} RepairsAffectAll(t: Table, ws: seq<Write>)
    requires DistinctURIs(ws) && forall w :: w in ws ==> w.uri in t && t[w.uri].cid == w.cid
    ensures |Affected(t, ws)| == |ws|
  {
    if ws == [] {
      assert Affected(t, ws) == {};
    } else {
      var last, rest := ws[|ws| - 1], ws[..|ws| - 1];
      assert ws == rest + [last];
      RepairsAffectAll(t, rest);
      forall uri | uri in t ensures uri in Affected(t, ws) <==> uri in Affected(t, rest) || uri == last.uri {
        IncomingIs(ws, uri, t[uri].cid);
        IncomingIs(rest, uri, t[uri].cid);
      }
      assert Affected(t, ws) == Affected(t, rest) + {last.uri};
      IncomingIs(rest, last.uri, last.cid);
      assert last.uri !in Affected(t, rest);
    }
  }

  lemma {:induction false} ReplaceConcat(t: Table, a: seq<Write>, b: seq<Write>, dated: Dating, now: int)
    ensures ReplaceAll(t, a + b, dated, now) == ReplaceAll(ReplaceAll(t, a, dated, now), b, dated, now)
  {
    if b == [] {
      assert a + b == a;
    } else {
      assert (a + b)[..|a + b| - 1] == a + b[..|b| - 1];
      ReplaceConcat(t, a, b[..|b| - 1], dated, now);
    }
  }

  lemma RepairConcat(t: Table, a: seq<Write>, b: seq<Write>, dated: Dating, now: int)
    requires DistinctURIs(a + b)
    ensures RepairAll(t, a + b, dated, now) == RepairAll(RepairAll(t, a, dated, now), b, dated, now)
  {
    forall uri | uri in t
      ensures RepairAll(t, a + b, dated, now)[uri] == RepairAll(RepairAll(t, a, dated, now), b, dated, now)[uri]
    {
      IncomingConcat(a, b, uri, t[uri].cid);
    }
  }

  lemma IncomingConcat(a: seq<Write>, b: seq<Write>, uri: string, cid: string)
    requires DistinctURIs(a + b)
    ensures Incoming(a, uri, cid).Some? ==> Incoming(a + b, uri, cid) == Incoming(a, uri, cid) && Incoming(b, uri, cid).None?
    ensures Incoming(a, uri, cid).None? ==> Incoming(a + b, uri, cid) == Incoming(b, uri, cid)
  {
    IncomingIs(a, uri, cid);
    IncomingIs(b, uri, cid);
    IncomingIs(a + b, uri, cid);
    if Incoming(a, uri, cid).Some? {
      var w := Incoming(a, uri, cid).value;
      var i :| 0 <= i < |a| && a[i] == w;
      assert (a + b)[i] == w && w in a + b;
      IncomingOf(a + b, w);
      forall v | v in b ensures v.uri != uri {
        var j :| 0 <= j < |b| && b[j] == v;
        assert (a + b)[|a| + j] == v;
      }
    } else if Incoming(b, uri, cid).Some? {
      var w := Incoming(b, uri, cid).value;
      assert w in a + b;
      IncomingOf(a + b, w);
    }
  }

  // ----- What each does to one row -----

  lemma {:induction false} UpsertAllAt(t: Table, ws: seq<Write>, dated: Dating, now: int, uri: string)
    requires DistinctURIs(ws)
    ensures (forall w :: w in ws ==> w.uri != uri) ==> Get(UpsertAll(t, ws, dated, now), uri) == Get(t, uri)
    ensures forall w :: w in ws && w.uri == uri ==>
              Get(UpsertAll(t, ws, dated, now), uri) == Some(Upserted(Get(t, uri), w, dated, now))
  {
    hide Upserted;
    if ws != [] {
      var last, rest := ws[|ws| - 1], ws[..|ws| - 1];
      assert ws == rest + [last];
      UpsertAllAt(t, rest, dated, now, uri);
      assert forall w :: w in ws <==> w in rest || w == last;
      if last.uri == uri {
        forall w | w in rest ensures w.uri != uri {
          var i :| 0 <= i < |rest| && rest[i] == w;
          assert ws[i].uri != ws[|ws| - 1].uri;
        }
      }
    }
  }

  lemma {:induction false} ReplaceAllAt(t: Table, ws: seq<Write>, dated: Dating, now: int, uri: string)
    requires DistinctURIs(ws)
    ensures (forall w :: w in ws ==> w.uri != uri) ==> Get(ReplaceAll(t, ws, dated, now), uri) == Get(t, uri)
    ensures forall w :: w in ws && w.uri == uri ==>
              Get(ReplaceAll(t, ws, dated, now), uri) == Some(Replaced(Get(t, uri), w, dated, now))
  {
    if ws != [] {
      var last, rest := ws[|ws| - 1], ws[..|ws| - 1];
      assert ws == rest + [last];
      ReplaceAllAt(t, rest, dated, now, uri);
      assert forall w :: w in ws <==> w in rest || w == last;
      if last.uri == uri {
        forall w | w in rest ensures w.uri != uri {
          var i :| 0 <= i < |rest| && rest[i] == w;
          assert ws[i].uri != ws[|ws| - 1].uri;
        }
      }
    }
  }

  lemma RepairAllAt(t: Table, ws: seq<Write>, dated: Dating, now: int, uri: string)
    requires DistinctURIs(ws)
    ensures (forall w :: w in ws ==> w.uri != uri) ==> Get(RepairAll(t, ws, dated, now), uri) == Get(t, uri)
    ensures forall w :: w in ws && w.uri == uri && uri in t && t[uri].cid == w.cid ==>
              Get(RepairAll(t, ws, dated, now), uri) == Some(Repaired(t[uri], w, dated, now))
  {
    if uri in t {
      IncomingIs(ws, uri, t[uri].cid);
      forall w | w in ws && w.uri == uri && t[uri].cid == w.cid ensures Incoming(ws, uri, t[uri].cid) == Some(w) {
        IncomingOf(ws, w);
      }
    }
  }

  // ----- Backfill batches -----

  datatype BatchResult = BatchResult(changedIndices: seq<nat>, skipped: nat)

  datatype Indexed = Indexed(write: Write, index: nat)

  /** Duplicates of a URI must say the same; the body counts only where no CID pins it down. */
  predicate Agree(a: Write, b: Write) {
    && a.did == b.did && a.collection == b.collection && a.cid == b.cid
    && a.status == b.status && a.error == b.error && a.hash == b.hash
    && (a.cid == "" ==> a.json == b.json)
  }

  ghost predicate BatchValid(did: string, records: seq<Write>) {
    && (records != [] ==> did != "")
    && (forall i :: 0 <= i < |records| ==> ValidWrite(records[i]) && records[i].did == did)
    && (forall i, j :: 0 <= i < j < |records| && records[i].uri == records[j].uri ==> Agree(records[i], records[j]))
  }

  predicate SeenBefore(records: seq<Write>, n: nat)
    requires n < |records|
  {
    exists j :: 0 <= j < n && records[j].uri == records[n].uri
  }

  /** Each URI's first write, with its place in the input. */
  function Firsts(records: seq<Write>, n: nat): seq<Indexed>
    requires n <= |records|
  {
    if n == 0 then []
    else Firsts(records, n - 1) + if SeenBefore(records, n - 1) then [] else [Indexed(records[n - 1], n - 1)]
  }

  function WritesOf(normalized: seq<Indexed>): seq<Write> {
    seq(|normalized|, i requires 0 <= i < |normalized| => normalized[i].write)
  }

  ghost predicate Increasing(indices: seq<nat>) {
    forall i, j :: 0 <= i < j < |indices| ==> indices[i] < indices[j]
  }

  ghost predicate Sound(records: seq<Write>, n: nat, firsts: seq<Indexed>)
    requires n <= |records|
  {
    forall k :: 0 <= k < |firsts| ==> firsts[k].index < n && firsts[k].write == records[firsts[k].index]
  }

  ghost predicate Ordered(firsts: seq<Indexed>) {
    forall i, j :: 0 <= i < j < |firsts| ==> firsts[i].index < firsts[j].index && firsts[i].write.uri != firsts[j].write.uri
  }

  predicate HasURI(firsts: seq<Indexed>, uri: string) {
    exists k :: 0 <= k < |firsts| && firsts[k].write.uri == uri
  }

  ghost predicate Covers(records: seq<Write>, n: nat, firsts: seq<Indexed>)
    requires n <= |records|
  {
    forall i :: 0 <= i < n ==> HasURI(firsts, records[i].uri)
  }

  lemma CoversNext(records: seq<Write>, n: nat, firsts: seq<Indexed>, next: seq<Indexed>)
    requires n < |records| && Sound(records, n, firsts) && Covers(records, n, firsts)
    requires next == firsts + if SeenBefore(records, n) then [] else [Indexed(records[n], n)]
    ensures Covers(records, n + 1, next)
    ensures SeenBefore(records, n) <==> HasURI(firsts, records[n].uri)
  {
    forall uri | HasURI(firsts, uri) ensures HasURI(next, uri) {
      var k :| 0 <= k < |firsts| && firsts[k].write.uri == uri;
      assert next[k] == firsts[k];
    }
    if SeenBefore(records, n) {
      var j :| 0 <= j < n && records[j].uri == records[n].uri;
      assert HasURI(firsts, records[j].uri);
    } else {
      assert next[|firsts|].write.uri == records[n].uri;
    }
  }

  lemma OrderedNext(records: seq<Write>, n: nat, firsts: seq<Indexed>, next: seq<Indexed>)
    requires n < |records| && Sound(records, n, firsts) && Ordered(firsts)
    requires next == firsts + if SeenBefore(records, n) then [] else [Indexed(records[n], n)]
    ensures Sound(records, n + 1, next) && Ordered(next)
  {
    assert forall k :: 0 <= k < |firsts| ==> next[k] == firsts[k];
    if !SeenBefore(records, n) {
      assert next[|firsts|] == Indexed(records[n], n);
      forall k | 0 <= k < |firsts| ensures firsts[k].write.uri != records[n].uri {
        assert records[firsts[k].index].uri == firsts[k].write.uri;
      }
    }
  }

  lemma FirstsUnfold(records: seq<Write>, n: nat)
    requires n <= |records|
    ensures n == 0 ==> Sound(records, n, Firsts(records, n)) && Ordered(Firsts(records, n)) && Covers(records, n, Firsts(records, n))
    ensures n > 0 ==> Firsts(records, n)
                      == Firsts(records, n - 1) + if SeenBefore(records, n - 1) then [] else [Indexed(records[n - 1], n - 1)]
  {
  }

  /** The first writes are in input order, one for each URI. */
  lemma {:induction false} FirstsAre(records: seq<Write>, n: nat)
    requires n <= |records|
    ensures Sound(records, n, Firsts(records, n)) && Ordered(Firsts(records, n)) && Covers(records, n, Firsts(records, n))
  {
    hide *;
    FirstsUnfold(records, n);
    if n > 0 {
      FirstsAre(records, n - 1);
      CoversNext(records, n - 1, Firsts(records, n - 1), Firsts(records, n));
      OrderedNext(records, n - 1, Firsts(records, n - 1), Firsts(records, n));
    }
  }

  /** One write per distinct URI. */
  lemma FirstsCount(records: seq<Write>)
    ensures |Firsts(records, |records|)| == |set w | w in records :: w.uri|
  {
    hide Firsts;
    var all := Firsts(records, |records|);
    FirstsAre(records, |records|);
    FirstURIsAre(records, all);
    URIsCount(all);
  }

  lemma FirstURIsAre(records: seq<Write>, all: seq<Indexed>)
    requires Sound(records, |records|, all) && Covers(records, |records|, all)
    ensures FirstURIs(all) == set w | w in records :: w.uri
  {
    var uris := set w | w in records :: w.uri;
    forall uri | uri in uris ensures uri in FirstURIs(all) {
      var w :| w in records && w.uri == uri;
      var i :| 0 <= i < |records| && records[i] == w;
      assert HasURI(all, records[i].uri);
    }
    forall uri | uri in FirstURIs(all) ensures uri in uris {
      var k :| 0 <= k < |all| && all[k].write.uri == uri;
      assert records[all[k].index] in records;
    }
  }

  function FirstURIs(all: seq<Indexed>): set<string> {
    set k | 0 <= k < |all| :: all[k].write.uri
  }

  lemma {:induction false} URIsCount(all: seq<Indexed>)
    requires forall i, j :: 0 <= i < j < |all| ==> all[i].write.uri != all[j].write.uri
    ensures |FirstURIs(all)| == |all|
  {
    if all != [] {
      var rest := all[..|all| - 1];
      URIsCount(rest);
      assert FirstURIs(all) == FirstURIs(rest) + {all[|all| - 1].write.uri};
    }
  }

  /** Validates a batch and keeps the first write of each URI. */
  method NormalizeBackfill(did: string, records: seq<Write>) returns (r: Result<seq<Indexed>>)
    ensures r.Ok? <==> BatchValid(did, records)
    ensures r.Ok? ==> r.value == Firsts(records, |records|)
  {
    hide *;
    NothingRefused(did, records);
    if records == [] {
      return Ok([]);
    }
    if did == "" {
      return Err("backfill batch requires a DID");
    }
    var normalized: seq<Indexed> := [];
    var byURI: map<string, nat> := map[];
    for n := 0 to |records|
      invariant normalized == Firsts(records, n)
      invariant Tracks(byURI, normalized)
      invariant BatchValid(did, records[..n])
    {
      var rec := records[n];
      NextRefused(did, records, n);
      if !ValidWrite(rec) {
        return Err("invalid record write");
      }
      if rec.did != did {
        return Err("record owned by another DID");
      }
      FirstsAre(records, n);
      FirstsUnfold(records, n + 1);
      CoversNext(records, n, normalized, Firsts(records, n + 1));
      TracksKnown(byURI, normalized, rec.uri, records, n);
      if rec.uri in byURI {
        var existing := normalized[byURI[rec.uri]];
        ConflictRefused(did, records, n, existing.index);
        if !Agree(existing.write, rec) {
          return Err("conflicting duplicate backfill URI");
        }
        AgreeWithFirst(did, records, n, existing.index);
      } else {
        NewToBatch(did, records, n, normalized);
        TracksNext(byURI, normalized, Indexed(rec, n));
        byURI := byURI[rec.uri := |normalized|];
        normalized := normalized + [Indexed(rec, n)];
      }
    }
    assert records[..|records|] == records;
    return Ok(normalized);
  }

  lemma NothingRefused(did: string, records: seq<Write>)
    ensures records == [] ==> BatchValid(did, records) && Firsts(records, |records|) == []
    ensures records != [] && did == "" ==> !BatchValid(did, records)
    ensures did != "" ==> BatchValid(did, records[..0])
    ensures Firsts(records, 0) == [] && Tracks(map[], [])
  {
    hide ValidWrite, Agree;
  }

  lemma NextRefused(did: string, records: seq<Write>, n: nat)
    requires n < |records|
    ensures BatchValid(did, records) ==> ValidWrite(records[n]) && records[n].did == did && did != ""
  {
    hide ValidWrite, Agree;
  }

  lemma ConflictRefused(did: string, records: seq<Write>, n: nat, first: nat)
    requires first < n < |records| && records[first].uri == records[n].uri
    ensures BatchValid(did, records) ==> Agree(records[first], records[n])
  {
    hide ValidWrite, Agree;
  }

  lemma TracksKnown(byURI: map<string, nat>, normalized: seq<Indexed>, uri: string, records: seq<Write>, n: nat)
    requires Tracks(byURI, normalized) && n <= |records| && Sound(records, n, normalized)
    ensures uri in byURI <==> HasURI(normalized, uri)
    ensures uri in byURI ==>
              byURI[uri] < |normalized|
              && (var f := normalized[byURI[uri]]; f.index < n && f.write == records[f.index] && f.write.uri == uri)
  {
    hide HasURI;
  }

  ghost predicate Tracks(byURI: map<string, nat>, normalized: seq<Indexed>) {
    && (forall uri :: uri in byURI <==> HasURI(normalized, uri))
    && (forall uri :: uri in byURI ==> byURI[uri] < |normalized| && normalized[byURI[uri]].write.uri == uri)
  }

  lemma TracksNext(byURI: map<string, nat>, normalized: seq<Indexed>, next: Indexed)
    requires Tracks(byURI, normalized)
    ensures Tracks(byURI[next.write.uri := |normalized|], normalized + [next])
  {
    var more := normalized + [next];
    forall uri ensures HasURI(more, uri) <==> HasURI(normalized, uri) || uri == next.write.uri {
      if HasURI(normalized, uri) {
        var k :| 0 <= k < |normalized| && normalized[k].write.uri == uri;
        assert more[k] == normalized[k];
      }
      assert more[|normalized|] == next;
    }
  }

  lemma NewToBatch(did: string, records: seq<Write>, n: nat, normalized: seq<Indexed>)
    requires n < |records| && BatchValid(did, records[..n]) && ValidWrite(records[n]) && records[n].did == did && did != ""
    requires Covers(records, n, normalized) && !HasURI(normalized, records[n].uri)
    ensures BatchValid(did, records[..n + 1])
  {
    hide ValidWrite, Agree, HasURI;
    var before, next := records[..n], records[..n + 1];
    forall i, j | 0 <= i < j < |next| && next[i].uri == next[j].uri ensures Agree(next[i], next[j]) {
      assert HasURI(normalized, records[i].uri);
      assert j < n;
      assert before[i] == next[i] && before[j] == next[j];
    }
    forall i | 0 <= i < |next| ensures ValidWrite(next[i]) && next[i].did == did {
      assert i < n ==> before[i] == next[i];
    }
  }

  lemma AgreeWithFirst(did: string, records: seq<Write>, n: nat, first: nat)
    requires n < |records| && first < n && BatchValid(did, records[..n])
    requires ValidWrite(records[n]) && records[n].did == did
    requires records[first].uri == records[n].uri && Agree(records[first], records[n])
    ensures BatchValid(did, records[..n + 1])
  {
    forall i | 0 <= i < n && records[i].uri == records[n].uri ensures Agree(records[i], records[n]) {
      var before := records[..n];
      assert before[i] == records[i] && before[first] == records[first];
      if i < first {
        assert Agree(before[i], before[first]);
      } else if first < i {
        assert Agree(before[first], before[i]);
      }
    }
  }

  // ----- The batch transaction -----

  /** What distinguishes the batch's two statements for a row. */
  predicate Unchanged(t: Table, w: Write) {
    SameContent(Get(t, w.uri), w)
  }

  /** The rows to upsert, those only to repair, and the input places of the former. */
  ghost predicate Classified(t: Table, firsts: seq<Indexed>, changed: seq<Indexed>, repairs: seq<Write>) {
    && (forall f :: f in changed <==> f in firsts && !Unchanged(t, f.write))
    && (forall w :: w in repairs <==> exists f :: f in firsts && f.write == w && Unchanged(t, w))
    && Ordered(changed) && DistinctURIs(repairs)
    && |changed| + |repairs| == |firsts|
  }

  method Classify(ghost t: Table, firsts: seq<Indexed>, cids: map<string, string>)
    returns (changed: seq<Indexed>, repairs: seq<Write>, skipped: nat)
    requires Ordered(firsts)
    requires forall f :: f in firsts ==> if f.write.uri in t then f.write.uri in cids && cids[f.write.uri] == t[f.write.uri].cid
                                        else f.write.uri !in cids
    ensures Classified(t, firsts, changed, repairs) && skipped == |repairs|
  {
    changed, repairs, skipped := [], [], 0;
    for n := 0 to |firsts|
      invariant Classified(t, firsts[..n], changed, repairs) && skipped == |repairs|
    {
      var rec := firsts[n];
      assert rec in firsts;
      var stored := if rec.write.uri in cids then cids[rec.write.uri] else "";
      ClassifiedNext(t, firsts, n, changed, repairs);
      if rec.write.cid != "" && stored == rec.write.cid {
        repairs := repairs + [rec.write];
        skipped := skipped + 1;
      } else {
        changed := changed + [rec];
      }
    }
    assert firsts[..|firsts|] == firsts;
  }

  lemma ClassifiedNext(t: Table, firsts: seq<Indexed>, n: nat, changed: seq<Indexed>, repairs: seq<Write>)
    requires n < |firsts| && Ordered(firsts) && Classified(t, firsts[..n], changed, repairs)
    ensures Unchanged(t, firsts[n].write) ==> Classified(t, firsts[..n + 1], changed, repairs + [firsts[n].write])
    ensures !Unchanged(t, firsts[n].write) ==> Classified(t, firsts[..n + 1], changed + [firsts[n]], repairs)
  {
    var next, before := firsts[n], firsts[..n];
    OrderedPrefix(firsts, n);
    hide Unchanged, Ordered, DistinctURIs;
    assert forall f :: f in firsts[..n + 1] <==> f in before || f == next by {
      assert firsts[..n + 1] == before + [next];
    }
    if Unchanged(t, next.write) {
      var more := repairs + [next.write];
      assert forall w :: w in more <==> w in repairs || w == next.write;
      MoreDistinct(repairs, next.write);
    } else {
      var more := changed + [next];
      assert forall f :: f in more <==> f in changed || f == next;
      MoreOrdered(changed, next);
    }
  }

  lemma OrderedPrefix(firsts: seq<Indexed>, n: nat)
    requires n < |firsts| && Ordered(firsts)
    ensures forall f :: f in firsts[..n] ==> f.index < firsts[n].index && f.write.uri != firsts[n].write.uri
  {
    forall f | f in firsts[..n] ensures f.index < firsts[n].index && f.write.uri != firsts[n].write.uri {
      var i :| 0 <= i < n && firsts[i] == f;
    }
  }

  lemma MoreDistinct(ws: seq<Write>, w: Write)
    requires DistinctURIs(ws) && forall v :: v in ws ==> v.uri != w.uri
    ensures DistinctURIs(ws + [w])
  {
    assert forall i :: 0 <= i < |ws| ==> ws[i] in ws;
  }

  lemma MoreOrdered(all: seq<Indexed>, next: Indexed)
    requires Ordered(all) && forall f :: f in all ==> f.index < next.index && f.write.uri != next.write.uri
    ensures Ordered(all + [next])
  {
    assert forall i :: 0 <= i < |all| ==> all[i] in all;
  }

  /** Upserting what changed and repairing the rest is upserting every first write in turn, up to the
      time of validation. */
  lemma BatchIsUpserts(t: Table, firsts: seq<Indexed>, changed: seq<Indexed>, repairs: seq<Write>, dated: Dating, now: int)
    requires Ordered(firsts) && Classified(t, firsts, changed, repairs)
    ensures Timeless(RepairAll(ReplaceAll(t, WritesOf(changed), dated, now), repairs, dated, now))
            == Timeless(UpsertAll(t, WritesOf(firsts), dated, now))
  {
    var replaced := ReplaceAll(t, WritesOf(changed), dated, now);
    var batch := RepairAll(replaced, repairs, dated, now);
    var single := UpsertAll(t, WritesOf(firsts), dated, now);
    forall uri ensures TimelessRow(Get(batch, uri)) == TimelessRow(Get(single, uri)) {
      BatchRow(t, firsts, changed, repairs, dated, now, uri);
    }
    hide RepairAll, ReplaceAll, UpsertAll;
    TimelessIs(batch, single);
  }

  lemma TimelessIs(a: Table, b: Table)
    requires forall uri :: TimelessRow(Get(a, uri)) == TimelessRow(Get(b, uri))
    ensures Timeless(a) == Timeless(b)
  {
    forall uri ensures uri in Timeless(a) <==> uri in Timeless(b) {
      assert TimelessRow(Get(a, uri)) == TimelessRow(Get(b, uri));
    }
    forall uri | uri in Timeless(a) ensures Timeless(a)[uri] == Timeless(b)[uri] {
      assert TimelessRow(Get(a, uri)) == TimelessRow(Get(b, uri));
    }
  }

  lemma BatchRow(t: Table, firsts: seq<Indexed>, changed: seq<Indexed>, repairs: seq<Write>, dated: Dating, now: int, uri: string)
    requires Ordered(firsts) && Classified(t, firsts, changed, repairs)
    ensures TimelessRow(Get(RepairAll(ReplaceAll(t, WritesOf(changed), dated, now), repairs, dated, now), uri))
            == TimelessRow(Get(UpsertAll(t, WritesOf(firsts), dated, now), uri))
  {
    hide *;
    var replaced := ReplaceAll(t, WritesOf(changed), dated, now);
    ClassifiedWrites(t, firsts, changed, repairs, uri);
    UpsertAllAt(t, WritesOf(firsts), dated, now, uri);
    ReplaceAllAt(t, WritesOf(changed), dated, now, uri);
    RepairAllAt(replaced, repairs, dated, now, uri);
    if w :| w in WritesOf(firsts) && w.uri == uri {
      RowAgrees(t, replaced, w, dated, now);
    }
  }

  /** The writes to a URI: none, or one that is in exactly one of the two lists. */
  lemma ClassifiedWrites(t: Table, firsts: seq<Indexed>, changed: seq<Indexed>, repairs: seq<Write>, uri: string)
    requires Ordered(firsts) && Classified(t, firsts, changed, repairs)
    ensures DistinctURIs(WritesOf(firsts)) && DistinctURIs(WritesOf(changed)) && DistinctURIs(repairs)
    ensures forall w :: w in WritesOf(firsts) && w.uri == uri ==>
              if Unchanged(t, w) then w in repairs && forall v :: v in WritesOf(changed) ==> v.uri != uri
              else w in WritesOf(changed) && forall v :: v in repairs ==> v.uri != uri
    ensures (forall w :: w in WritesOf(firsts) ==> w.uri != uri) ==>
              (forall w :: w in WritesOf(changed) ==> w.uri != uri) && (forall w :: w in repairs ==> w.uri != uri)
  {
    hide Unchanged, WritesOf;
    WritesOfAre(firsts);
    WritesOfAre(changed);
  }

  lemma RowAgrees(t: Table, replaced: Table, w: Write, dated: Dating, now: int)
    ensures Unchanged(t, w) && Get(replaced, w.uri) == Get(t, w.uri) ==>
              w.uri in replaced && replaced[w.uri].cid == w.cid
              && TimelessRow(Some(Repaired(replaced[w.uri], w, dated, now)))
                 == TimelessRow(Some(Upserted(Get(t, w.uri), w, dated, now)))
    ensures !Unchanged(t, w) ==> Upserted(Get(t, w.uri), w, dated, now) == Replaced(Get(t, w.uri), w, dated, now)
  {
  }

  lemma WritesOfAre(all: seq<Indexed>)
    requires Ordered(all)
    ensures DistinctURIs(WritesOf(all))
    ensures forall w :: w in WritesOf(all) <==> exists f :: f in all && f.write == w
    ensures forall f, g :: f in all && g in all && f.write.uri == g.write.uri ==> f == g
  {
    forall w ensures w in WritesOf(all) <==> exists f :: f in all && f.write == w {
      if w in WritesOf(all) {
        var i :| 0 <= i < |all| && WritesOf(all)[i] == w;
        assert all[i] in all;
      }
      if f :| f in all && f.write == w {
        var i :| 0 <= i < |all| && all[i] == f;
        assert WritesOf(all)[i] == w;
      }
    }
  }

  /** Which of the transaction's statements fail, counted from the first. */
  type Faults = nat -> bool

  function CIDs(t: Table, uris: seq<string>): map<string, string> {
    map uri | uri in uris && uri in t :: t[uri].cid
  }

  method ReadCIDs(t: Table, uris: seq<string>, size: nat, fails: Faults, step: nat)
    returns (r: Result<map<string, string>>, next: nat)
    requires size > 0
    ensures r.Ok? ==> r.value == CIDs(t, uris)
    ensures r.Err? ==> exists k: nat :: fails(k)
  {
    var result: map<string, string> := map[];
    next := step;
    var start := 0;
    while start < |uris|
      invariant 0 <= start <= |uris|
      invariant result == CIDs(t, uris[..start])
    {
      var end := if start + size > |uris| then |uris| else start + size;
      if fails(next) {
        return Err("classify existing records"), next;
      }
      next := next + 1;
      assert forall uri :: uri in uris[..end] <==> uri in uris[..start] || uri in uris[start..end] by {
        assert uris[..end] == uris[..start] + uris[start..end];
      }
      result := result + CIDs(t, uris[start..end]);
      start := end;
    }
    assert uris[..|uris|] == uris;
    return Ok(result), next;
  }

  method ReplaceInChunks(t: Table, ws: seq<Write>, size: nat, dated: Dating, now: int, fails: Faults, step: nat)
    returns (r: Result<Table>, next: nat)
    requires size > 0
    ensures r.Ok? ==> r.value == ReplaceAll(t, ws, dated, now)
    ensures r.Err? ==> exists k: nat :: fails(k)
  {
    hide ReplaceAll;
    var tx := t;
    next := step;
    var start := 0;
    assert ws[..0] == [];
    NothingReplaced(t, dated, now);
    while start < |ws|
      invariant 0 <= start <= |ws|
      invariant tx == ReplaceAll(t, ws[..start], dated, now)
    {
      var end := if start + size > |ws| then |ws| else start + size;
      if fails(next) {
        return Err("batch upsert"), next;
      }
      next := next + 1;
      assert ws[..end] == ws[..start] + ws[start..end];
      ReplaceConcat(t, ws[..start], ws[start..end], dated, now);
      tx := ReplaceAll(tx, ws[start..end], dated, now);
      start := end;
    }
    assert ws[..|ws|] == ws;
    return Ok(tx), next;
  }

  lemma NothingReplaced(t: Table, dated: Dating, now: int)
    ensures ReplaceAll(t, [], dated, now) == t
  {
  }

  /** Repairs in chunks, insisting that each statement affects as many rows as it was given. */
  method RepairInChunks(t: Table, ws: seq<Write>, size: nat, dated: Dating, now: int, fails: Faults, step: nat)
    returns (r: Result<Table>, next: nat)
    requires size > 0 && DistinctURIs(ws) && forall w :: w in ws ==> w.uri in t && t[w.uri].cid == w.cid
    ensures r.Ok? ==> r.value == RepairAll(t, ws, dated, now)
    ensures r.Err? ==> exists k: nat :: fails(k)
  {
    hide *;
    var tx := t;
    next := step;
    var start := 0;
    NothingRepaired(t, ws, dated, now);
    while start < |ws|
      invariant 0 <= start <= |ws|
      invariant tx == RepairAll(t, ws[..start], dated, now)
    {
      var end := if start + size > |ws| then |ws| else start + size;
      if fails(next) {
        return Err("repair same-CID records"), next;
      }
      next := next + 1;
      var chunk := ws[start..end];
      ChunkRepairs(t, ws, start, end, dated, now);
      var affected := |Affected(tx, chunk)|;
      tx := RepairAll(tx, chunk, dated, now);
      if affected != |chunk| {
        return Err("repair affected another number of rows"), next;
      }
      start := end;
    }
    assert ws[..|ws|] == ws;
    return Ok(tx), next;
  }

  lemma NothingRepaired(t: Table, ws: seq<Write>, dated: Dating, now: int)
    ensures RepairAll(t, ws[..0], dated, now) == t
  {
    hide Repaired;
  }

  /** The next chunk affects all its rows and continues the repair. */
  lemma ChunkRepairs(t: Table, ws: seq<Write>, start: nat, end: nat, dated: Dating, now: int)
    requires DistinctURIs(ws) && forall w :: w in ws ==> w.uri in t && t[w.uri].cid == w.cid
    requires start <= end <= |ws|
    ensures var tx := RepairAll(t, ws[..start], dated, now);
            && |Affected(tx, ws[start..end])| == end - start
            && RepairAll(tx, ws[start..end], dated, now) == RepairAll(t, ws[..end], dated, now)
  {
    hide Incoming, Repaired, RepairAll, Affected;
    var tx, chunk := RepairAll(t, ws[..start], dated, now), ws[start..end];
    CIDsKept(t, ws[..start], dated, now);
    assert forall w :: w in chunk ==> w in ws;
    RepairsAffectAll(tx, chunk);
    assert ws[..end] == ws[..start] + chunk;
    RepairConcat(t, ws[..start], chunk, dated, now);
  }

  lemma CIDsKept(t: Table, ws: seq<Write>, dated: Dating, now: int)
    ensures RepairAll(t, ws, dated, now).Keys == t.Keys
    ensures forall uri :: uri in t ==> RepairAll(t, ws, dated, now)[uri].cid == t[uri].cid
  {
  }

  /** The rows of the record table, shared by every writer. */
  class Records {
    var rows: Table
    const dated: Dating

    constructor (dated: Dating)
      ensures rows == map[] && this.dated == dated
    {
      this.dated := dated;
      rows := map[];
    }

    /** Writes one record: unchanged content only gets its stale metadata repaired. */
    method UpsertWithValidation(w: Write, now: int) returns (r: Result<InsertResult>)
      modifies this`rows
      ensures r.Ok? <==> ValidWrite(w)
      ensures r.Err? ==> rows == old(rows)
      ensures r.Ok? ==> rows == Upsert(old(rows), w, dated, now)
      ensures r.Ok? ==> r.value == if SameContent(Get(old(rows), w.uri), w) then Skipped else Inserted
    {
      if !ValidWrite(w) {
        return Err("invalid record write");
      }
      var existing := Get(rows, w.uri);
      if existing.Some? && w.cid != "" && existing.value.cid == w.cid {
        var needsDate := existing.value.createdAt.None? && dated(w.json).Some?;
        var metadataCurrent := existing.value.status == w.status && existing.value.error == w.error
                               && existing.value.validatedAt.Some? && existing.value.hash == w.hash;
        if metadataCurrent && !needsDate {
          assert rows == rows[w.uri := rows[w.uri]];
          return Ok(Skipped);
        }
        rows := rows[w.uri := Repaired(rows[w.uri], w, dated, now)];
        return Ok(Skipped);
      }
      rows := rows[w.uri := Replaced(existing, w, dated, now)];
      return Ok(Inserted);
    }

    /** Writes a batch of one DID's records in one transaction; it commits as a whole or not at all. */
    method BatchUpsertForBackfill(did: string, records: seq<Write>, size: nat, readSize: nat, now: int, fails: Faults)
      returns (r: Result<BatchResult>)
      requires size > 0 && readSize > 0
      modifies this`rows
      ensures r.Err? ==> rows == old(rows) && (!BatchValid(did, records) || exists k: nat :: fails(k))
      ensures r.Ok? ==> BatchValid(did, records)
      ensures r.Ok? ==> Timeless(rows) == Timeless(UpsertAll(old(rows), WritesOf(Firsts(records, |records|)), dated, now))
      ensures r.Ok? ==> Increasing(r.value.changedIndices)
      ensures r.Ok? ==> |r.value.changedIndices| + r.value.skipped == |set w | w in records :: w.uri|
      ensures r.Ok? ==> forall i: nat ::
                (i in r.value.changedIndices <==> i < |records| && !SeenBefore(records, i) && !Unchanged(old(rows), records[i]))
    {
      hide *;
      var normalized := NormalizeBackfill(did, records);
      if normalized.Err? {
        return Err(normalized.error);
      }
      var firsts := normalized.value;
      FirstsAre(records, |records|);
      FirstsCount(records);
      var step := 0;
      if firsts == [] {
        NothingToDo(rows, firsts, dated, now);
        IndicesAre(rows, records, [], []);
        return Ok(BatchResult([], 0));
      }
      if fails(step) {
        return Err("begin backfill transaction");
      }
      if fails(step + 1) {
        return Err("acquire backfill lock");
      }
      var tx := rows;
      var cids;
      cids, step := ReadCIDs(tx, seq(|firsts|, i requires 0 <= i < |firsts| => firsts[i].write.uri), readSize, fails, step + 2);
      if cids.Err? {
        return Err(cids.error);
      }
      CIDsRead(tx, firsts, cids.value);
      var changed, repairs, skipped := Classify(tx, firsts, cids.value);
      var written;
      written, step := ReplaceInChunks(tx, WritesOf(changed), size, dated, now, fails, step);
      if written.Err? {
        return Err(written.error);
      }
      RepairsStillMatch(tx, firsts, changed, repairs, dated, now);
      var repaired;
      repaired, step := RepairInChunks(written.value, repairs, size, dated, now, fails, step);
      if repaired.Err? {
        return Err(repaired.error);
      }
      if fails(step) {
        return Err("commit backfill transaction");
      }
      BatchIsUpserts(tx, firsts, changed, repairs, dated, now);
      IndicesAre(tx, records, changed, repairs);
      rows := repaired.value;
      return Ok(BatchResult(IndicesOf(changed), skipped));
    }
  }

  function IndicesOf(all: seq<Indexed>): seq<nat> {
    seq(|all|, i requires 0 <= i < |all| => all[i].index)
  }

  lemma NothingToDo(t: Table, firsts: seq<Indexed>, dated: Dating, now: int)
    requires firsts == []
    ensures UpsertAll(t, WritesOf(firsts), dated, now) == t && Classified(t, firsts, [], [])
    ensures IndicesOf([]) == []
  {
  }

  lemma CIDsRead(t: Table, firsts: seq<Indexed>, cids: map<string, string>)
    requires cids == CIDs(t, seq(|firsts|, i requires 0 <= i < |firsts| => firsts[i].write.uri))
    ensures forall f :: f in firsts ==>
              if f.write.uri in t then f.write.uri in cids && cids[f.write.uri] == t[f.write.uri].cid else f.write.uri !in cids
  {
    var uris := seq(|firsts|, i requires 0 <= i < |firsts| => firsts[i].write.uri);
    forall f | f in firsts ensures f.write.uri in uris {
      var i :| 0 <= i < |firsts| && firsts[i] == f;
      assert uris[i] == f.write.uri;
    }
  }

  /** Upserting the changed rows does not touch those to be repaired. */
  lemma RepairsStillMatch(t: Table, firsts: seq<Indexed>, changed: seq<Indexed>, repairs: seq<Write>, dated: Dating, now: int)
    requires Ordered(firsts) && Classified(t, firsts, changed, repairs)
    ensures DistinctURIs(repairs)
    ensures var replaced := ReplaceAll(t, WritesOf(changed), dated, now);
            forall w :: w in repairs ==> w.uri in replaced && replaced[w.uri].cid == w.cid
  {
    var replaced := ReplaceAll(t, WritesOf(changed), dated, now);
    WritesOfAre(firsts);
    WritesOfAre(changed);
    hide ReplaceAll, WritesOf;
    forall w | w in repairs ensures w.uri in replaced && replaced[w.uri].cid == w.cid {
      ReplaceAllAt(t, WritesOf(changed), dated, now, w.uri);
      assert Get(replaced, w.uri) == Get(t, w.uri);
    }
  }

  lemma {:induction false} FirstAt(records: seq<Write>, n: nat, i: nat)
    requires i < n <= |records|
    ensures Indexed(records[i], i) in Firsts(records, n) <==> !SeenBefore(records, i)
  {
    hide SeenBefore, Ordered, Covers;
    var all, before := Firsts(records, n), Firsts(records, n - 1);
    FirstsAre(records, n - 1);
    assert all == before + if SeenBefore(records, n - 1) then [] else [Indexed(records[n - 1], n - 1)];
    forall f | f in before ensures f.index < n - 1 {
      var k :| 0 <= k < |before| && before[k] == f;
    }
    hide Firsts, Sound;
    if i < n - 1 {
      FirstAt(records, n - 1, i);
    }
  }

  lemma IndicesAre(t: Table, records: seq<Write>, changed: seq<Indexed>, repairs: seq<Write>)
    requires Classified(t, Firsts(records, |records|), changed, repairs)
    ensures Increasing(IndicesOf(changed)) && |IndicesOf(changed)| == |changed|
    ensures forall i: nat ::
              (i in IndicesOf(changed) <==> i < |records| && !SeenBefore(records, i) && !Unchanged(t, records[i]))
  {
    var firsts := Firsts(records, |records|);
    assert Ordered(changed) && forall f :: f in changed <==> f in firsts && !Unchanged(t, f.write);
    hide *;
    FirstsAre(records, |records|);
    IndicesIncrease(changed);
    forall i: nat
      ensures i in IndicesOf(changed) <==> i < |records| && !SeenBefore(records, i) && !Unchanged(t, records[i])
    {
      IndexMember(records, firsts, changed, i);
      if i < |records| {
        FirstAt(records, |records|, i);
        assert Indexed(records[i], i) in firsts <==> !SeenBefore(records, i);
      }
    }
  }

  lemma IndicesIncrease(changed: seq<Indexed>)
    requires Ordered(changed)
    ensures Increasing(IndicesOf(changed)) && |IndicesOf(changed)| == |changed|
  {
  }

  lemma IndexMember(records: seq<Write>, firsts: seq<Indexed>, changed: seq<Indexed>, i: nat)
    requires Sound(records, |records|, firsts) && forall f :: f in changed ==> f in firsts
    ensures i in IndicesOf(changed) <==> i < |records| && Indexed(records[i], i) in changed
  {
    var indices := IndicesOf(changed);
    if i in indices {
      var k :| 0 <= k < |changed| && indices[k] == i;
      assert changed[k] in changed && changed[k] in firsts;
      var n :| 0 <= n < |firsts| && firsts[n] == changed[k];
    }
    if i < |records| && Indexed(records[i], i) in changed {
      var k :| 0 <= k < |changed| && changed[k] == Indexed(records[i], i);
      assert indices[k] == i;
    }
  }

  // ----- Properties of every write -----

  /** A date once set is never overwritten, however many writes follow. */
  lemma {:induction false} DateIsKept(t: Table, ws: seq<Write>, dated: Dating, now: int, uri: string)
    requires uri in t && t[uri].createdAt.Some?
    ensures uri in UpsertAll(t, ws, dated, now) && UpsertAll(t, ws, dated, now)[uri].createdAt == t[uri].createdAt
  {
    if ws != [] {
      DateIsKept(t, ws[..|ws| - 1], dated, now, uri);
    }
  }

  /** Whichever way a write is carried out, the row then shows its CID and its verdict, dated as first seen;
      content with a known CID stays, other content is replaced, and no other row changes. */
  lemma UpsertOutcome(t: Table, w: Write, dated: Dating, now: int)
    ensures var next := Upsert(t, w, dated, now);
            && next.Keys == t.Keys + {w.uri} && (forall uri :: uri in t && uri != w.uri ==> next[uri] == t[uri])
            && (var row := next[w.uri];
                && row.cid == w.cid && row.status == w.status && row.error == w.error && row.hash == w.hash
                && row.validatedAt.Some?
                && row.createdAt == Coalesce(if w.uri in t then t[w.uri].createdAt else None, dated(w.json))
                && (if Unchanged(t, w) then
                      row.json == t[w.uri].json && row.did == t[w.uri].did && row.collection == t[w.uri].collection
                    else row.json == w.json && row.did == w.did && row.collection == w.collection)
                && (w.uri in t && t[w.uri].cid == row.cid && t[w.uri].json == row.json ==> row.indexedAt == t[w.uri].indexedAt))
  {
  }

  /** Writing a record twice is writing it once. */
  lemma UpsertTwice(t: Table, w: Write, dated: Dating, now: int, later: int)
    ensures Timeless(Upsert(Upsert(t, w, dated, now), w, dated, later)) == Timeless(Upsert(t, w, dated, now))
  {
    var once := Upsert(t, w, dated, now);
    assert TimelessRow(Get(Upsert(once, w, dated, later), w.uri)) == TimelessRow(Get(once, w.uri));
    TimelessIs(Upsert(once, w, dated, later), once);
  }
}
