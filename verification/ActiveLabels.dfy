/** Which stored external labels are current, and how labels are looked up for a list of subjects. */
module ActiveLabels {
  import opened Text
  import opened Sorting

  /** A label as received; `cts` and `exp` are instants. */
  datatype Label = Label(src: string, uri: string, cid: Option<string>, val: string, neg: bool, cts: int, exp: Option<int>)

  /** A stored label; ids grow in arrival order. */
  datatype Row = Row(id: nat, entry: Label)

  ghost predicate UniqueIds(table: set<Row>) {
    forall a, b :: a in table && b in table && a.id == b.id ==> a == b
  }

  // ----- The active predicate -----

  /** Labels compete when they agree on source, subject, value and CID, a missing CID being one value. */
  predicate SameGroup(a: Label, b: Label) {
    a.src == b.src && a.uri == b.uri && a.val == b.val && a.cid == b.cid
  }

  predicate Newer(a: Row, b: Row) {
    a.entry.cts > b.entry.cts || (a.entry.cts == b.entry.cts && a.id > b.id)
  }

  predicate Unexpired(entry: Label, now: int) {
    entry.exp == None || entry.exp.value > now
  }

  /** The predicate the queries carry: un-negated, unexpired, and NOT EXISTS a newer label of its group. */
  predicate Active(table: set<Row>, now: int, row: Row) {
    && !row.entry.neg
    && Unexpired(row.entry, now)
    && !exists newer :: newer in table && SameGroup(newer.entry, row.entry) && Newer(newer, row)
  }

  function Group(table: set<Row>, entry: Label): set<Row> {
    set r | r in table && SameGroup(r.entry, entry)
  }

  /** The greatest row of a group by (cts, id). */
  ghost predicate IsLatest(table: set<Row>, entry: Label, row: Row) {
    row in Group(table, entry) && forall other :: other in Group(table, entry) && other != row ==> Newer(row, other)
  }

  lemma {:induction false} GreatestExists(rows: set<Row>) returns (greatest: Row)
    requires rows != {} && UniqueIds(rows)
    ensures greatest in rows && forall other :: other in rows && other != greatest ==> Newer(greatest, other)
    decreases |rows|
  {
    var row :| row in rows;
    var rest := rows - {row};
    if rest == {} {
      greatest := row;
      assert forall other :: other in rows && other != row ==> other in rest;
    } else {
      var m := GreatestExists(rest);
      greatest := if Newer(row, m) then row else m;
      forall other | other in rows && other != greatest ensures Newer(greatest, other) {
        assert other == row || other in rest;
      }
    }
  }

  /** Every non-empty group has exactly one latest row, and its active rows are that row if it is
      un-negated and unexpired, and nothing otherwise. */
  lemma ActiveIsLatest(table: set<Row>, now: int, entry: Label) returns (latest: Row)
    requires UniqueIds(table) && Group(table, entry) != {}
    ensures forall row :: IsLatest(table, entry, row) <==> row == latest
    ensures (set r | r in Group(table, entry) && Active(table, now, r))
            == if !latest.entry.neg && Unexpired(latest.entry, now) then {latest} else {}
  {
    latest := GreatestExists(Group(table, entry));
    forall row | row in Group(table, entry) && row != latest ensures !Active(table, now, row) {
      assert latest in table && SameGroup(latest.entry, row.entry) && Newer(latest, row);
    }
    forall newer | newer in table && SameGroup(newer.entry, latest.entry) ensures !Newer(newer, latest) {
      assert newer in Group(table, entry);
    }
  }

  // ----- Arrival order -----

  /** The table after the labels arrived in this order. */
  function Store(arrivals: seq<Label>): set<Row> {
    set i | 0 <= i < |arrivals| :: Row(i, arrivals[i])
  }

  /** The labels shown as active. */
  function ActiveSet(arrivals: seq<Label>, now: int): set<Label> {
    set row | row in Store(arrivals) && Active(Store(arrivals), now, row) :: row.entry
  }

  predicate Live(entry: Label, now: int) {
    !entry.neg && Unexpired(entry, now)
  }

  /** No label of the group was created later. */
  ghost predicate Greatest(labels: set<Label>, entry: Label) {
    entry in labels && forall other :: other in labels && SameGroup(other, entry) ==> other.cts <= entry.cts
  }

  /** Different labels that share the greatest creation time of their group are negated or expired. */
  ghost predicate TiesInert(labels: set<Label>, now: int) {
    forall a, b :: Greatest(labels, a) && b in labels && SameGroup(a, b) && a.cts == b.cts && a != b ==> !Live(a, now)
  }

  /** Active, read without arrival order. */
  ghost predicate ActiveAmong(labels: set<Label>, now: int, entry: Label) {
    Live(entry, now) && Greatest(labels, entry)
  }

  lemma {:induction false} LastCopy(arrivals: seq<Label>, entry: Label) returns (i: nat)
    requires entry in arrivals
    ensures i < |arrivals| && arrivals[i] == entry && forall j :: i < j < |arrivals| ==> arrivals[j] != entry
  {
    var last := |arrivals| - 1;
    if arrivals[last] == entry {
      i := last;
    } else {
      assert arrivals == arrivals[..last] + [arrivals[last]];
      i := LastCopy(arrivals[..last], entry);
    }
  }

  lemma ActiveSetIsOrderFree(arrivals: seq<Label>, now: int, entry: Label)
    requires TiesInert(Elements(arrivals), now)
    ensures entry in ActiveSet(arrivals, now) <==> ActiveAmong(Elements(arrivals), now, entry)
  {
    var table := Store(arrivals);
    if entry in ActiveSet(arrivals, now) {
      var row :| row in table && Active(table, now, row) && row.entry == entry;
      forall other | other in Elements(arrivals) && SameGroup(other, entry) ensures other.cts <= entry.cts {
        var j :| 0 <= j < |arrivals| && arrivals[j] == other;
        assert Row(j, other) in table;
      }
    }
    if ActiveAmong(Elements(arrivals), now, entry) {
      var i := LastCopy(arrivals, entry);
      var row := Row(i, entry);
      forall newer | newer in table && SameGroup(newer.entry, entry) ensures !Newer(newer, row) {
        assert newer.entry == arrivals[newer.id] && newer.entry in Elements(arrivals);
        assert SameGroup(entry, newer.entry);
      }
      assert row in table && Active(table, now, row);
    }
  }

  lemma OrderFree(a: seq<Label>, b: seq<Label>, now: int)
    requires Elements(a) == Elements(b) && TiesInert(Elements(a), now)
    ensures ActiveSet(a, now) == ActiveSet(b, now)
  {
    forall entry ensures entry in ActiveSet(a, now) <==> entry in ActiveSet(b, now) {
      ActiveSetIsOrderFree(a, now, entry);
      ActiveSetIsOrderFree(b, now, entry);
    }
  }

  /** The label that arrives last is active if it is live and no label of its group was created later. */
  lemma LastWins(arrivals: seq<Label>, entry: Label, now: int)
    requires Live(entry, now) && Greatest(Elements(arrivals + [entry]), entry)
    ensures entry in ActiveSet(arrivals + [entry], now)
  {
    var all := arrivals + [entry];
    var table, row := Store(all), Row(|arrivals|, entry);
    forall newer | newer in table && SameGroup(newer.entry, entry) ensures !Newer(newer, row) {
      assert newer.entry == all[newer.id] && newer.entry in Elements(all);
    }
    assert all[|arrivals|] == entry && row in table && Active(table, now, row);
  }

  /** It hides the other labels of its group that were not created later. */
  lemma LastHides(arrivals: seq<Label>, last: Label, entry: Label, now: int)
    requires SameGroup(last, entry) && last.cts >= entry.cts && last != entry
    ensures entry !in ActiveSet(arrivals + [last], now)
  {
    var all := arrivals + [last];
    var table, newer := Store(all), Row(|arrivals|, last);
    assert all[|arrivals|] == last && newer in table;
    forall row | row in table && row.entry == entry ensures !Active(table, now, row) {
      assert row.id < |all| && all[row.id] == entry;
      assert SameGroup(newer.entry, row.entry) && Newer(newer, row);
    }
  }

  /** The same labels with the one at `i` arriving last. */
  function MovedLast(arrivals: seq<Label>, i: nat): (moved: seq<Label>)
    requires i < |arrivals|
  {
    arrivals[..i] + arrivals[i + 1..]
  }

  lemma MovedLastIs(arrivals: seq<Label>, i: nat)
    requires i < |arrivals|
    ensures multiset(MovedLast(arrivals, i) + [arrivals[i]]) == multiset(arrivals)
    ensures Elements(MovedLast(arrivals, i) + [arrivals[i]]) == Elements(arrivals)
  {
    assert arrivals == arrivals[..i] + [arrivals[i]] + arrivals[i + 1..];
    SameElements(MovedLast(arrivals, i) + [arrivals[i]], arrivals);
  }

  lemma SameElements(a: seq<Label>, b: seq<Label>)
    requires multiset(a) == multiset(b)
    ensures Elements(a) == Elements(b)
  {
    assert forall x :: x in a <==> x in multiset(a);
    assert forall x :: x in b <==> x in multiset(b);
  }

  /** A live label that ties with another for the greatest creation time is active in one order and not in
      another. */
  lemma TieDependsOnOrder(arrivals: seq<Label>, x: Label, y: Label, now: int) returns (a: seq<Label>, b: seq<Label>)
    requires x in arrivals && y in arrivals && SameGroup(x, y) && x.cts == y.cts && x != y
    requires Live(x, now) && Greatest(Elements(arrivals), x)
    ensures multiset(a) == multiset(arrivals) == multiset(b)
    ensures x in ActiveSet(a, now) && x !in ActiveSet(b, now)
  {
    var i :| 0 <= i < |arrivals| && arrivals[i] == x;
    var j :| 0 <= j < |arrivals| && arrivals[j] == y;
    a, b := MovedLast(arrivals, i) + [x], MovedLast(arrivals, j) + [y];
    MovedLastIs(arrivals, i);
    MovedLastIs(arrivals, j);
    LastWins(MovedLast(arrivals, i), x, now);
    LastHides(MovedLast(arrivals, j), y, x, now);
  }

  /** The active set does not depend on the order of arrival exactly when all ties for the greatest creation
      time are inert; and then it does not depend on replays either. */
  lemma ArrivalOrderIrrelevant(a: seq<Label>, now: int)
    ensures (forall b :: multiset(b) == multiset(a) ==> ActiveSet(b, now) == ActiveSet(a, now))
            <==> TiesInert(Elements(a), now)
    ensures (forall b :: Elements(b) == Elements(a) ==> ActiveSet(b, now) == ActiveSet(a, now))
            <==> TiesInert(Elements(a), now)
  {
    if TiesInert(Elements(a), now) {
      forall b | Elements(b) == Elements(a) ensures ActiveSet(b, now) == ActiveSet(a, now) {
        OrderFree(a, b, now);
      }
      forall b | multiset(b) == multiset(a) ensures ActiveSet(b, now) == ActiveSet(a, now) {
        SameElements(b, a);
      }
    } else {
      hide ActiveSet;
      var x, y :| Greatest(Elements(a), x) && y in Elements(a) && SameGroup(x, y) && x.cts == y.cts && x != y && Live(x, now);
      assert x in a && y in a;
      var b, c := TieDependsOnOrder(a, x, y, now);
      SameElements(b, a);
      SameElements(c, a);
      assert ActiveSet(b, now) != ActiveSet(c, now);
    }
  }

  /** In particular it does not when only copies of one label share a creation time within a group. */
  lemma DistinctTimesSuffice(a: seq<Label>, b: seq<Label>, now: int)
    requires forall x, y :: x in a && y in a && SameGroup(x, y) && x.cts == y.cts ==> x == y
    requires Elements(a) == Elements(b)
    ensures ActiveSet(a, now) == ActiveSet(b, now)
  {
    assert forall x :: x in Elements(a) ==> x in a;
    ArrivalOrderIrrelevant(a, now);
  }

  // ----- Lookup by subject -----

  /** The most values one IN filter may have, here and in record queries. */
  const MAX_IN_LIST_SIZE := 100

  datatype Subject = Subject(uri: string, cid: string)

  function Key(s: Subject): string {
    if s.cid == "" then s.uri else s.uri + "\0" + s.cid
  }

  predicate ValidString(v: string) {
    TrimSpace(v) != "" && v == TrimSpace(v) && '\0' !in v
  }

  predicate ValidSubject(s: Subject) {
    ValidString(s.uri) && (s.cid != "" ==> ValidString(s.cid))
  }

  /** The subject a key was made from. */
  function ParseKey(key: string): Subject {
    match IndexOf(key, "\0")
    case None => Subject(key, "")
    case Some(i) => Subject(key[..i], key[i + 1..])
  }

  /** A validated subject can be read back from its key, so distinct subjects have distinct keys. */
  lemma KeyRoundTrip(s: Subject)
    requires ValidSubject(s)
    ensures ParseKey(Key(s)) == s
  {
    IndexOfSeparator(s.uri, '\0', s.cid);
    if s.cid != "" {
      assert Key(s)[..|s.uri|] == s.uri && Key(s)[|s.uri| + 1..] == s.cid;
    }
  }

  ghost predicate DistinctKeys(subjects: seq<Subject>) {
    forall i, j :: 0 <= i < j < |subjects| ==> Key(subjects[i]) != Key(subjects[j])
  }

  function Keys(subjects: seq<Subject>): set<string> {
    set s | s in subjects :: Key(s)
  }

  method NormalizeSubjects(subjects: seq<Subject>) returns (r: Result<seq<Subject>>)
    ensures r.Ok? <==> forall s :: s in subjects ==> ValidSubject(s)
    ensures r.Ok? ==> DistinctKeys(r.value) && forall s :: s in r.value <==> s in subjects
  {
    var seen: set<string> := {};
    var normalized := [];
    for i := 0 to |subjects|
      invariant forall s :: s in subjects[..i] ==> ValidSubject(s)
      invariant forall s :: s in normalized <==> s in subjects[..i]
      invariant DistinctKeys(normalized)
      invariant seen == Keys(normalized)
    {
      var subject := subjects[i];
      assert subject in subjects;
      if !ValidString(subject.uri) || (subject.cid != "" && !ValidString(subject.cid)) {
        return Err("invalid external label subject");
      }
      assert subjects[..i + 1] == subjects[..i] + [subject];
      if Key(subject) in seen {
        var s :| s in normalized && Key(s) == Key(subject);
        KeyRoundTrip(s);
        KeyRoundTrip(subject);
      } else {
        assert forall s :: s in normalized + [subject] <==> s in normalized || s == subject;
        seen := seen + {Key(subject)};
        normalized := normalized + [subject];
      }
    }
    assert subjects[..|subjects|] == subjects;
    return Ok(normalized);
  }

  datatype Filter = Filter(sources: seq<string>, values: seq<string>, activeOnly: bool)

  predicate ValidFilter(f: Filter) {
    && |f.sources| <= MAX_IN_LIST_SIZE && (forall v :: v in f.sources ==> ValidString(v))
    && |f.values| <= MAX_IN_LIST_SIZE && (forall v :: v in f.values ==> ValidString(v))
  }

  /** The rows that answer one subject. */
  ghost function Answers(table: set<Row>, now: int, f: Filter, s: Subject): set<Row> {
    set r | r in table
      && r.entry.uri == s.uri && (s.cid == "" || r.entry.cid == None || r.entry.cid == Some(s.cid))
      && (f.sources == [] || r.entry.src in f.sources) && (f.values == [] || r.entry.val in f.values)
      && (f.activeOnly ==> Active(table, now, r))
  }

  /** The rows a batch query returned for the subject at position `i`. */
  function Picked(rows: seq<(int, Row)>, i: nat): seq<Row> {
    if rows == [] then []
    else Picked(rows[..|rows| - 1], i) + if rows[|rows| - 1].0 == i then [rows[|rows| - 1].1] else []
  }

  type Query = seq<Subject> -> seq<(int, Row)>

  /** The database answers a batch with each subject's rows, newest first. */
  ghost predicate Runs(query: Query, table: set<Row>, now: int, f: Filter) {
    forall batch: seq<Subject> {:trigger query(batch)} ::
      && (forall n :: 0 <= n < |query(batch)| ==> 0 <= query(batch)[n].0 < |batch|)
      && (forall i :: 0 <= i < |batch| ==> IsSorting(Picked(query(batch), i), Answers(table, now, f, batch[i]), Newer))
  }

  /** The rows collected for each subject of a batch. */
  ghost predicate Groups(labels: map<string, seq<Row>>, batch: seq<Subject>, rows: seq<(int, Row)>) {
    && labels.Keys == Keys(batch)
    && forall i :: 0 <= i < |batch| ==> Key(batch[i]) in labels && labels[Key(batch[i])] == Picked(rows, i)
  }

  lemma GroupsEmpty(labels: map<string, seq<Row>>, batch: seq<Subject>)
    requires labels.Keys == Keys(batch) && forall k :: k in labels ==> labels[k] == []
    ensures Groups(labels, batch, [])
  {
    forall i | 0 <= i < |batch| ensures Key(batch[i]) in labels && labels[Key(batch[i])] == Picked([], i) {
      assert batch[i] in batch;
    }
  }

  lemma GroupsNext(labels: map<string, seq<Row>>, batch: seq<Subject>, rows: seq<(int, Row)>, row: (int, Row))
    requires DistinctKeys(batch) && Groups(labels, batch, rows) && 0 <= row.0 < |batch|
    ensures var key := Key(batch[row.0]);
            key in labels && Groups(labels[key := labels[key] + [row.1]], batch, rows + [row])
  {
    assert (rows + [row])[..|rows|] == rows;
  }

  lemma IndicesInRange(query: Query, table: set<Row>, now: int, f: Filter, batch: seq<Subject>)
    requires Runs(query, table, now, f)
    ensures forall row :: row in query(batch) ==> 0 <= row.0 < |batch|
  {
    var rows := query(batch);
    forall row | row in rows ensures 0 <= row.0 < |batch| {
      var n :| 0 <= n < |rows| && rows[n] == row;
    }
  }

  lemma GroupsAnswer(labels: map<string, seq<Row>>, query: Query, table: set<Row>, now: int, f: Filter, batch: seq<Subject>)
    requires Runs(query, table, now, f) && Groups(labels, batch, query(batch))
    ensures labels.Keys == Keys(batch)
    ensures forall s :: s in batch ==> IsSorting(labels[Key(s)], Answers(table, now, f, s), Newer)
  {
    hide Answers, IsSorting, Key, Newer;
    forall s | s in batch ensures IsSorting(labels[Key(s)], Answers(table, now, f, s), Newer) {
      var i :| 0 <= i < |batch| && batch[i] == s;
      var rows := query(batch);
      assert IsSorting(Picked(rows, i), Answers(table, now, f, batch[i]), Newer);
    }
  }

  method GetBySubjectsBatch(query: Query, ghost table: set<Row>, ghost now: int, ghost f: Filter, batch: seq<Subject>)
    returns (r: Result<map<string, seq<Row>>>)
    requires Runs(query, table, now, f) && DistinctKeys(batch)
    ensures r.Ok? && r.value.Keys == Keys(batch)
    ensures forall s :: s in batch ==> IsSorting(r.value[Key(s)], Answers(table, now, f, s), Newer)
  {
    hide *;
    var labels: map<string, seq<Row>> := map k | k in Keys(batch) :: [];
    var rows := query(batch);
    IndicesInRange(query, table, now, f, batch);
    GroupsEmpty(labels, batch);
    assert rows[..0] == [];
    for n := 0 to |rows|
      invariant Groups(labels, batch, rows[..n])
    {
      var index := rows[n].0;
      if index < 0 || index >= |batch| {
        return Err("invalid subject index");
      }
      assert rows[n] in rows;
      var key := Key(batch[index]);
      assert rows[..n + 1] == rows[..n] + [rows[n]];
      GroupsNext(labels, batch, rows[..n], rows[n]);
      labels := labels[key := labels[key] + [rows[n].1]];
    }
    assert rows[..|rows|] == rows;
    GroupsAnswer(labels, query, table, now, f, batch);
    return Ok(labels);
  }

  /** Subjects before `n` have their rows, the others none yet. */
  ghost predicate Fetched(labels: map<string, seq<Row>>, table: set<Row>, now: int, f: Filter, all: seq<Subject>, n: nat) {
    && labels.Keys == Keys(all)
    && forall i :: 0 <= i < |all| ==>
         if i < n then IsSorting(labels[Key(all[i])], Answers(table, now, f, all[i]), Newer)
         else labels[Key(all[i])] == []
  }

  function AppendAll(labels: map<string, seq<Row>>, found: map<string, seq<Row>>): map<string, seq<Row>> {
    map k | k in labels :: labels[k] + if k in found then found[k] else []
  }

  lemma KeysOfSlice(all: seq<Subject>, start: nat, end: nat)
    requires DistinctKeys(all) && start <= end <= |all|
    ensures forall i :: 0 <= i < |all| ==> (Key(all[i]) in Keys(all[start..end]) <==> start <= i < end)
    ensures forall i :: start <= i < end ==> all[i] in all[start..end]
  {
    var batch := all[start..end];
    forall i | 0 <= i < |all| ensures Key(all[i]) in Keys(batch) <==> start <= i < end {
      if start <= i < end {
        assert batch[i - start] == all[i];
      }
      forall s | s in batch ensures Key(s) == Key(all[i]) ==> start <= i < end {
        var j :| 0 <= j < |batch| && batch[j] == s;
        assert s == all[start + j];
      }
    }
  }

  lemma FetchedNext(labels: map<string, seq<Row>>, found: map<string, seq<Row>>, table: set<Row>, now: int, f: Filter,
                    all: seq<Subject>, start: nat, end: nat)
    requires DistinctKeys(all) && start <= end <= |all| && Fetched(labels, table, now, f, all, start)
    requires found.Keys == Keys(all[start..end])
    requires forall s :: s in all[start..end] ==> IsSorting(found[Key(s)], Answers(table, now, f, s), Newer)
    ensures Fetched(AppendAll(labels, found), table, now, f, all, end)
  {
    var batch, more := all[start..end], AppendAll(labels, found);
    KeysOfSlice(all, start, end);
    hide IsSorting, Answers, Newer, Key;
    forall i | 0 <= i < |all|
      ensures if i < end then IsSorting(more[Key(all[i])], Answers(table, now, f, all[i]), Newer)
              else more[Key(all[i])] == []
    {
      if start <= i < end {
        assert all[i] in batch;
        assert more[Key(all[i])] == found[Key(all[i])];
      } else {
        assert more[Key(all[i])] == labels[Key(all[i])];
      }
    }
  }

  /** Labels for every subject, fetched in batches. The batch size does not show in the result. */
  method GetBySubjects(query: Query, ghost table: set<Row>, ghost now: int, f: Filter, subjects: seq<Subject>, batchSize: nat)
    returns (r: Result<map<string, seq<Row>>>)
    requires Runs(query, table, now, f) && batchSize > 0
    ensures r.Ok? <==> ValidFilter(f) && forall s :: s in subjects ==> ValidSubject(s)
    ensures r.Ok? ==> r.value.Keys == Keys(subjects)
    ensures r.Ok? ==> forall s :: s in subjects ==> IsSorting(r.value[Key(s)], Answers(table, now, f, s), Newer)
  {
    hide Runs, Answers, ValidSubject, ValidFilter, IsSorting, Key;
    var normalized := NormalizeSubjects(subjects);
    if normalized.Err? {
      return Err(normalized.error);
    }
    var all := normalized.value;
    if !ValidFilter(f) {
      return Err("invalid external label filter");
    }
    var labels: map<string, seq<Row>> := map k | k in Keys(all) :: [];
    var start := 0;
    while start < |all|
      invariant 0 <= start <= |all|
      invariant Fetched(labels, table, now, f, all, start)
    {
      var end := if start + batchSize > |all| then |all| else start + batchSize;
      var found := GetBySubjectsBatch(query, table, now, f, all[start..end]);
      FetchedNext(labels, found.value, table, now, f, all, start, end);
      labels := AppendAll(labels, found.value);
      start := end;
    }
    return Ok(labels);
  }
}
