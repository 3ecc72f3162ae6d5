/** Keyset pagination: the sort order with NULL oldest, continuations read as segments, page walks
    and backward pages. A row stands for its sort key; URIs are unique, so keys are too. */
module Keyset {
  import opened Text
  import opened Sorting

  datatype Key = Key(value: Option<string>, uri: string)

  /** NULL is the oldest value and uri breaks ties. */
  predicate Ascend(a: Key, b: Key) {
    || (a.value == None && b.value.Some?)
    || (a.value.Some? && b.value.Some? && Before(a.value.value, b.value.value))
    || (a.value == b.value && Before(a.uri, b.uri))
  }

  predicate Descend(a: Key, b: Key) {
    Ascend(b, a)
  }

  function Order(ascending: bool): (Key, Key) -> bool {
    if ascending then Ascend else Descend
  }

  lemma OrderIsTotal(ascending: bool)
    ensures StrictTotalOrder(Order(ascending))
  {
    BeforeIsTransitive();
    BeforeIsTotal();
    forall x: Key, y: Key, z: Key | Ascend(x, y) && Ascend(y, z) ensures Ascend(x, z) {
    }
    assert forall x: Key :: !Ascend(x, x);
    assert forall x: Key, y: Key :: Ascend(x, y) || Ascend(y, x) || x == y;
  }

  /** The rows of a page query with no limit. */
  ghost function Sorted(rows: set<Key>, ascending: bool): (s: seq<Key>)
    ensures IsSorting(s, rows, Order(ascending)) && |s| == |rows|
  {
    OrderIsTotal(ascending);
    SortSet(rows, Order(ascending))
  }

  lemma SortedIs(s: seq<Key>, rows: set<Key>, ascending: bool)
    requires IsSorting(s, rows, Order(ascending))
    ensures s == Sorted(rows, ascending)
  {
    OrderIsTotal(ascending);
    SortingUnique(s, Sorted(rows, ascending), Order(ascending));
  }

  function Take<T>(s: seq<T>, n: nat): seq<T> {
    if n <= |s| then s[..n] else s
  }

  function Flatten<T>(parts: seq<seq<T>>): seq<T> {
    if parts == [] then [] else parts[0] + Flatten(parts[1..])
  }

  lemma FlattenOne<T>(part: seq<T>)
    ensures Flatten([part]) == part
  {
    var parts := [part];
    assert parts[1..] == [];
    assert Flatten(parts) == part + Flatten(parts[1..]);
  }

  /** The rows after a cursor; all of them without one. */
  ghost function Rest(rows: set<Key>, ascending: bool, cursor: Option<Key>): set<Key> {
    match cursor
    case None => rows
    case Some(c) => set k | k in rows && Order(ascending)(c, k)
  }

  // ----- Segments of a record_created_at continuation -----

  ghost predicate InSegment(ascending: bool, cursor: Key, segment: nat, k: Key) {
    if cursor.value == None then
      if segment == 0 then k.value == None && Order(ascending)(cursor, k) else k.value.Some?
    else
      if segment == 0 then k.value.Some? && Order(ascending)(cursor, k) else k.value == None
  }

  /** A second segment exists where the order goes on past the rows of the cursor's own kind. */
  predicate TwoSegments(ascending: bool, cursor: Key) {
    ascending == cursor.value.None?
  }

  ghost function SegmentRows(rows: set<Key>, ascending: bool, cursor: Key, segment: nat): set<Key> {
    set k | k in rows && InSegment(ascending, cursor, segment, k)
  }

  ghost function Segments(rows: set<Key>, ascending: bool, cursor: Key): seq<seq<Key>> {
    var first := Sorted(SegmentRows(rows, ascending, cursor, 0), ascending);
    if TwoSegments(ascending, cursor) then [first, Sorted(SegmentRows(rows, ascending, cursor, 1), ascending)] else [first]
  }

  /** Sorting each segment and reading them in order gives exactly the rows after the cursor, in order. */
  lemma SegmentsAreRest(rows: set<Key>, ascending: bool, cursor: Key)
    ensures Flatten(Segments(rows, ascending, cursor)) == Sorted(Rest(rows, ascending, Some(cursor)), ascending)
  {
    hide Before;
    var set0, set1 := SegmentRows(rows, ascending, cursor, 0), SegmentRows(rows, ascending, cursor, 1);
    var s0, s1 := Sorted(set0, ascending), Sorted(set1, ascending);
    SegmentsSplit(rows, ascending, cursor);
    hide SegmentRows, Rest, Ascend, TwoSegments, IsSorting;
    if TwoSegments(ascending, cursor) {
      FlattenTwo(s0, s1);
      ConcatSorting(s0, s1, set0, set1, Order(ascending));
      SortedIs(s0 + s1, set0 + set1, ascending);
    } else {
      FlattenOne(s0);
    }
  }

  lemma SegmentsSplit(rows: set<Key>, ascending: bool, cursor: Key)
    ensures var rest := Rest(rows, ascending, Some(cursor));
            var set0, set1 := SegmentRows(rows, ascending, cursor, 0), SegmentRows(rows, ascending, cursor, 1);
            if TwoSegments(ascending, cursor) then
              rest == set0 + set1 && forall x, y :: x in set0 && y in set1 ==> Order(ascending)(x, y)
            else rest == set0
  {
    hide Before;
    var set0, set1 := SegmentRows(rows, ascending, cursor, 0), SegmentRows(rows, ascending, cursor, 1);
    forall k ensures k in Rest(rows, ascending, Some(cursor)) <==> k in set0 || (TwoSegments(ascending, cursor) && k in set1) {
    }
  }

  lemma FlattenTwo<T>(a: seq<T>, b: seq<T>)
    ensures Flatten([a, b]) == a + b
  {
    var parts := [a, b];
    assert parts[1..] == [b];
    FlattenOne(b);
  }

  type Reader<T> = (nat, nat) -> Result<seq<T>>

  /** A reader that answers with the first rows of each segment, if it answers. */
  ghost predicate Reads<T>(read: Reader<T>, segments: seq<seq<T>>) {
    forall i: nat, n: nat :: i < |segments| && read(i, n).Ok? ==> read(i, n).value == Take(segments[i], n)
  }

  lemma {:induction false} FlattenConcat<T>(a: seq<seq<T>>, b: seq<seq<T>>)
    ensures Flatten(a + b) == Flatten(a) + Flatten(b)
  {
    if a == [] {
      assert a + b == b;
    } else {
      assert (a + b)[1..] == a[1..] + b;
      FlattenConcat(a[1..], b);
    }
  }

  lemma TakeNext<T>(before: seq<T>, segment: seq<T>, after: seq<T>, limit: nat)
    ensures |before| < limit ==> Take(before, limit) + Take(segment, limit - |before|) == Take(before + segment, limit)
    ensures |before| >= limit ==> Take(before + after, limit) == Take(before, limit)
  {
  }

  lemma FlattenTo<T>(segments: seq<seq<T>>, i: nat)
    requires i <= |segments|
    ensures Flatten(segments) == Flatten(segments[..i]) + Flatten(segments[i..])
    ensures i < |segments| ==> Flatten(segments[..i + 1]) == Flatten(segments[..i]) + segments[i]
  {
    assert segments == segments[..i] + segments[i..];
    FlattenConcat(segments[..i], segments[i..]);
    if i < |segments| {
      assert segments[..i + 1] == segments[..i] + [segments[i]];
      FlattenConcat(segments[..i], [segments[i]]);
      FlattenOne(segments[i]);
    }
  }

  /** How many rows a page lacks after its first segments. */
  function Shortfall<T>(segments: seq<seq<T>>, limit: nat, i: nat): nat
    requires i <= |segments|
  {
    TakeLength(Flatten(segments[..i]), limit);
    limit - |Take(Flatten(segments[..i]), limit)|
  }

  /** The requests a page makes: the first segment, and each later one for what is still lacking. */
  predicate Asked<T>(segments: seq<seq<T>>, limit: nat, i: nat, n: nat) {
    i < |segments| && n == Shortfall(segments, limit, i) && (i == 0 || n > 0)
  }

  lemma FullAsksNoMore<T>(segments: seq<seq<T>>, limit: nat, full: nat, i: nat, n: nat)
    requires 0 < full <= i && full <= |segments| && |Take(Flatten(segments[..full]), limit)| >= limit
    ensures !Asked(segments, limit, i, n)
  {
    if i < |segments| {
      FlattenTo(segments[..i], full);
      assert segments[..i][..full] == segments[..full];
    }
  }

  /** Fills a page from the segments in order, each asked only for the shortfall. It fails exactly if one of
      the requests it makes does. */
  method ReadSegments<T>(limit: nat, count: nat, read: Reader<T>, ghost segments: seq<seq<T>>) returns (r: Result<seq<T>>)
    requires count == |segments| && Reads(read, segments)
    ensures r.Ok? ==> r.value == Take(Flatten(segments), limit)
    ensures r.Err? <==> exists i: nat, n: nat :: Asked(segments, limit, i, n) && read(i, n).Err?
  {
    hide Flatten, Take, Asked;
    var records: seq<T> := [];
    assert records == Take(Flatten<T>([]), limit) by {
      EmptyPage<T>(limit);
    }
    assert segments[..0] == [];
    for segment := 0 to count
      invariant records == Take(Flatten(segments[..segment]), limit)
      invariant segment > 0 ==> |records| <= limit
      invariant |records| <= limit
      invariant forall i: nat, n: nat :: i < segment && Asked(segments, limit, i, n) ==> read(i, n).Ok?
    {
      FlattenTo(segments, segment);
      TakeLength(Flatten(segments[..segment]), limit);
      if segment > 0 && |records| >= limit {
        TakeNext(Flatten(segments[..segment]), [], Flatten(segments[segment..]), limit);
        forall i: nat, n: nat | segment <= i ensures !Asked(segments, limit, i, n) {
          FullAsksNoMore(segments, limit, segment, i, n);
        }
        return Ok(records);
      }
      AskedNow(segments, limit, segment);
      var page := read(segment, limit - |records|);
      if page.Err? {
        return Err(page.error);
      }
      TakeLength(segments[segment], limit - |records|);
      PageNext(Flatten(segments[..segment]), segments[segment], limit);
      records := records + page.value;
    }
    assert segments[..|segments|] == segments;
    NoneBeyond(segments, limit);
    return Ok(records);
  }

  lemma AskedNow<T>(segments: seq<seq<T>>, limit: nat, i: nat)
    requires i < |segments| && |Take(Flatten(segments[..i]), limit)| <= limit
    requires i == 0 || |Take(Flatten(segments[..i]), limit)| < limit
    ensures forall n: nat :: Asked(segments, limit, i, n) <==> n == limit - |Take(Flatten(segments[..i]), limit)|
  {
  }

  lemma NoneBeyond<T>(segments: seq<seq<T>>, limit: nat)
    ensures forall i: nat, n: nat :: i >= |segments| ==> !Asked(segments, limit, i, n)
  {
  }

  lemma EmptyPage<T>(limit: nat)
    ensures Take(Flatten<T>([]), limit) == []
  {
  }

  lemma TakeLength<T>(s: seq<T>, n: nat)
    ensures |Take(s, n)| == if n <= |s| then n else |s|
  {
  }

  lemma PageNext<T>(before: seq<T>, segment: seq<T>, limit: nat)
    ensures Take(before + segment, limit)
            == Take(before, limit) + Take(segment, limit - |Take(before, limit)|)
  {
  }

  // ----- Page walks -----

  /** One page: the first rows after the cursor. */
  ghost function PageOf(rows: set<Key>, ascending: bool, cursor: Option<Key>, limit: nat): seq<Key> {
    Take(Sorted(Rest(rows, ascending, cursor), ascending), limit)
  }

  lemma RestShrinks(rows: set<Key>, ascending: bool, cursor: Option<Key>, n: nat)
    requires 0 < n < |PageOf(rows, ascending, cursor, n + 1)|
    ensures var page := PageOf(rows, ascending, cursor, n + 1);
            var next := Some(page[n - 1]);
            && Rest(rows, ascending, next) < Rest(rows, ascending, cursor)
            && Sorted(Rest(rows, ascending, cursor), ascending)
               == page[..n] + Sorted(Rest(rows, ascending, next), ascending)
  {
    hide Ascend, Order, Rest, IsSorting;
    var rest := Rest(rows, ascending, cursor);
    var all := Sorted(rest, ascending);
    SortedTail(rest, ascending, n);
    RestAfterRow(rows, ascending, cursor, all[n - 1]);
    assert PageOf(rows, ascending, cursor, n + 1)[..n] == all[..n];
    assert all == all[..n] + all[n..];
  }

  lemma SortedTail(rest: set<Key>, ascending: bool, n: nat)
    requires 0 < n <= |Sorted(rest, ascending)|
    ensures var all := Sorted(rest, ascending);
            all[n - 1] in rest && all[n..] == Sorted((set k | k in rest && Order(ascending)(all[n - 1], k)), ascending)
  {
    hide Ascend, Order;
    var all := Sorted(rest, ascending);
    OrderIsTotal(ascending);
    assert all[n - 1] in Elements(all);
    TailSorting(all, rest, Order(ascending), n);
    SortedIs(all[n..], (set k | k in rest && Order(ascending)(all[n - 1], k)), ascending);
  }

  lemma RestAfterRow(rows: set<Key>, ascending: bool, cursor: Option<Key>, last: Key)
    requires last in Rest(rows, ascending, cursor)
    ensures Rest(rows, ascending, Some(last)) == set k | k in Rest(rows, ascending, cursor) && Order(ascending)(last, k)
    ensures Rest(rows, ascending, Some(last)) < Rest(rows, ascending, cursor)
  {
    OrderIsTotal(ascending);
    hide Ascend;
    assert last !in Rest(rows, ascending, Some(last));
  }

  /** The pages a client sees that asks for one row more than it shows and follows last-row cursors
      while there is more. */
  ghost function Walk(rows: set<Key>, ascending: bool, cursor: Option<Key>, n: nat): seq<seq<Key>>
    requires n > 0
    decreases Rest(rows, ascending, cursor)
  {
    var page := PageOf(rows, ascending, cursor, n + 1);
    if |page| <= n then [page]
    else
      RestShrinks(rows, ascending, cursor, n);
      [page[..n]] + Walk(rows, ascending, Some(page[n - 1]), n)
  }

  /** A walk ends, and shows every row after its start exactly once, in order. */
  lemma {:induction false} WalkIsSorted(rows: set<Key>, ascending: bool, cursor: Option<Key>, n: nat)
    requires n > 0
    ensures Flatten(Walk(rows, ascending, cursor, n)) == Sorted(Rest(rows, ascending, cursor), ascending)
    decreases Rest(rows, ascending, cursor)
  {
    var page := PageOf(rows, ascending, cursor, n + 1);
    if |page| <= n {
      FlattenOne(page);
    } else {
      RestShrinks(rows, ascending, cursor, n);
      WalkIsSorted(rows, ascending, Some(page[n - 1]), n);
      var rest := Walk(rows, ascending, Some(page[n - 1]), n);
      assert ([page[..n]] + rest)[1..] == rest;
    }
  }

  // ----- Backward pages -----

  /** Restores the original order of a page read backwards. */
  method ReverseInPlace(records: array<Key>)
    modifies records
    ensures records[..] == Reversed(old(records[..]))
  {
    var i, j := 0, records.Length - 1;
    while i < j
      invariant 0 <= i && j == records.Length - 1 - i && i <= j + 1
      invariant forall k :: 0 <= k < i ==> records[k] == old(records[records.Length - 1 - k])
      invariant forall k :: j < k < records.Length ==> records[k] == old(records[records.Length - 1 - k])
      invariant forall k :: i <= k <= j ==> records[k] == old(records[k])
    {
      records[i], records[j] := records[j], records[i];
      i, j := i + 1, j - 1;
    }
  }

  lemma SortedReversed(rows: set<Key>, ascending: bool)
    ensures Sorted(rows, !ascending) == Reversed(Sorted(rows, ascending))
  {
    ReversedSorting(Sorted(rows, ascending), rows, Order(ascending), Order(!ascending));
    hide Ascend;
    SortedIs(Reversed(Sorted(rows, ascending)), rows, !ascending);
  }

  /** Reading the reversed order from a cursor and turning the page around gives the last rows strictly
      before the cursor, in the original order. */
  lemma BackwardPage(rows: set<Key>, ascending: bool, cursor: Option<Key>, limit: nat)
    ensures var before := if cursor.None? then rows else set k | k in rows && Order(ascending)(k, cursor.value);
            var s := Sorted(before, ascending);
            Reversed(PageOf(rows, !ascending, cursor, limit)) == s[if limit <= |s| then |s| - limit else 0..]
  {
    var before := if cursor.None? then rows else set k | k in rows && Order(ascending)(k, cursor.value);
    hide Ascend, Order, IsSorting, Take, Reversed, Rest, Sorted;
    RestBackwards(rows, ascending, cursor);
    SortedReversed(before, ascending);
    LastOnes(Sorted(before, ascending), limit);
  }

  lemma RestBackwards(rows: set<Key>, ascending: bool, cursor: Option<Key>)
    ensures Rest(rows, !ascending, cursor)
            == if cursor.None? then rows else set k | k in rows && Order(ascending)(k, cursor.value)
  {
    hide Ascend;
  }

  lemma LastOnes<T>(s: seq<T>, n: nat)
    ensures Reversed(Take(Reversed(s), n)) == s[if n <= |s| then |s| - n else 0..]
  {
  }
}
