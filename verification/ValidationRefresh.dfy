/** Startup validation refresh, its statements interleaved with any ingestion writes, repairs,
    deletes and other refreshes on the same table. */
module ValidationRefresh {
  import opened Text
  import opened RecordStore

  datatype Verdict = Verdict(status: string, error: string, hash: string)

  /** What all writers share: one validator, record keys and collections read off URIs, and content
      pinned down by non-empty CIDs. */
  datatype World = World(
    lexiconHash: string -> Option<string>,
    verdict: (string, string) -> Verdict,
    collectionOf: string -> string,
    contentOf: string -> string,
    dated: Dating)

  /** Every verdict carries the fingerprint of its collection, if there is one. */
  ghost predicate ValidWorld(world: World) {
    && (forall uri, json ::
          world.verdict(uri, json).hash
          == if world.lexiconHash(world.collectionOf(uri)).Some? then world.lexiconHash(world.collectionOf(uri)).value else "")
    && (forall c :: world.lexiconHash(c) != Some(""))
  }

  /** A row with the current fingerprint carries the validator's verdict on its present content. */
  ghost predicate SoundRow(world: World, uri: string, row: Row) {
    && uri != "" && row.collection == world.collectionOf(uri)
    && (row.cid != "" ==> row.json == world.contentOf(row.cid))
    && (Some(row.hash) == world.lexiconHash(row.collection) ==>
          row.status == world.verdict(uri, row.json).status && row.error == world.verdict(uri, row.json).error)
  }

  ghost predicate SoundTable(world: World, t: Table) {
    forall uri :: uri in t ==> SoundRow(world, uri, t[uri])
  }

  // ----- Steps of the other writers -----

  datatype Step =
    | Replace(write: Write)
    | Repair(write: Write)
    | Delete(uri: string)
    | Purge(did: string)
    | MarkUnknown(collection: string, reason: string)
    | Refresh(uri: string, observed: Row)

  /** Ingestion writes carry the verdict on what they write. */
  ghost predicate ValidIngest(world: World, w: Write) {
    && ValidWrite(w) && w.collection == world.collectionOf(w.uri)
    && Verdict(w.status, w.error, w.hash) == world.verdict(w.uri, w.json)
    && (w.cid != "" ==> w.json == world.contentOf(w.cid))
  }

  ghost predicate ValidStep(world: World, step: Step) {
    match step
    case Replace(w) => ValidIngest(world, w)
    case Repair(w) => ValidIngest(world, w) && w.cid != ""
    case MarkUnknown(c, _) => world.lexiconHash(c).None?
    case _ => true
  }

  function MarkedUnknown(row: Row, reason: string, now: int): Row {
    if row.status == "unknown_schema" && row.error == reason && row.error != "" && row.validatedAt.Some? && row.hash == "" then row
    else row.(status := "unknown_schema", error := reason, validatedAt := Some(now), hash := "")
  }

  /** UPDATE … WHERE uri, cid and json are as observed. */
  function UpdateIfUnchanged(t: Table, uri: string, observed: Row, v: Verdict, now: int): Table {
    if uri in t && t[uri].cid == observed.cid && t[uri].json == observed.json
    then t[uri := t[uri].(status := v.status, error := v.error, validatedAt := Some(now), hash := v.hash)]
    else t
  }

  /** One atomic step on the table. */
  function Apply(world: World, t: Table, step: Step, now: int): Table {
    match step
    case Replace(w) => t[w.uri := Replaced(Get(t, w.uri), w, world.dated, now)]
    case Repair(w) => if w.uri in t && t[w.uri].cid == w.cid then t[w.uri := Repaired(t[w.uri], w, world.dated, now)] else t
    case Delete(uri) => t - {uri}
    case Purge(did) => map uri | uri in t && t[uri].did != did :: t[uri]
    case MarkUnknown(c, reason) => map uri | uri in t :: if t[uri].collection == c then MarkedUnknown(t[uri], reason, now) else t[uri]
    case Refresh(uri, observed) => UpdateIfUnchanged(t, uri, observed, world.verdict(uri, observed.json), now)
  }

  // ----- Staleness -----

  predicate StaleRow(row: Row, current: string) {
    row.hash == "" || row.hash != current || row.validatedAt.None?
  }

  function Stale(t: Table, collection: string, current: string): set<string> {
    set uri | uri in t && t[uri].collection == collection && StaleRow(t[uri], current)
  }

  /** From one table to the next no row of the collection became stale, and those still stale kept their content. */
  ghost predicate Calm(t: Table, next: Table, collection: string, current: string) {
    forall uri :: uri in Stale(next, collection, current) ==>
      uri in Stale(t, collection, current) && next[uri].cid == t[uri].cid && next[uri].json == t[uri].json
  }

  lemma CalmTransitive(a: Table, b: Table, c: Table, collection: string, current: string)
    requires Calm(a, b, collection, current) && Calm(b, c, collection, current)
    ensures Calm(a, c, collection, current)
  {
  }

  /** Every step of every writer keeps the table sound and makes no row of an active collection stale. */
  lemma StepIsSafe(world: World, t: Table, step: Step, now: int)
    requires ValidWorld(world) && SoundTable(world, t) && ValidStep(world, step)
    ensures SoundTable(world, Apply(world, t, step, now))
    ensures forall c :: world.lexiconHash(c).Some? ==> Calm(t, Apply(world, t, step, now), c, world.lexiconHash(c).value)
  {
    var next := Apply(world, t, step, now);
    forall uri | uri in next ensures SoundRow(world, uri, next[uri]) {
      StepKeepsRow(world, t, step, now, uri);
    }
    forall c | world.lexiconHash(c).Some? ensures Calm(t, next, c, world.lexiconHash(c).value) {
      forall uri | uri in Stale(next, c, world.lexiconHash(c).value)
        ensures uri in Stale(t, c, world.lexiconHash(c).value) && next[uri].cid == t[uri].cid && next[uri].json == t[uri].json
      {
        StepKeepsRow(world, t, step, now, uri);
      }
    }
  }

  lemma StepKeepsRow(world: World, t: Table, step: Step, now: int, uri: string)
    requires ValidWorld(world) && SoundTable(world, t) && ValidStep(world, step)
    requires uri in Apply(world, t, step, now)
    ensures var row := Apply(world, t, step, now)[uri];
            && SoundRow(world, uri, row)
            && (world.lexiconHash(row.collection).Some? && StaleRow(row, world.lexiconHash(row.collection).value) ==>
                  uri in t && t[uri].collection == row.collection && t[uri].cid == row.cid && t[uri].json == row.json
                  && StaleRow(t[uri], world.lexiconHash(row.collection).value))
  {
    if uri in t {
      assert SoundRow(world, uri, t[uri]);
    }
    match step
    case Replace(w) => assert world.verdict(w.uri, w.json).hash == w.hash;
    case Repair(w) => assert world.verdict(w.uri, w.json).hash == w.hash;
    case Refresh(u, observed) => assert world.verdict(u, observed.json).hash
                                        == if world.lexiconHash(world.collectionOf(u)).Some? then world.lexiconHash(world.collectionOf(u)).value else "";
    case _ =>
  }

  /** An undisturbed ingestion upsert is one of these steps, or changes nothing. */
  lemma UpsertIsStep(world: World, t: Table, w: Write, now: int)
    requires ValidIngest(world, w)
    ensures Upsert(t, w, world.dated, now) == t
            || exists step :: ValidStep(world, step) && step in {Repair(w), Replace(w)}
                              && Upsert(t, w, world.dated, now) == Apply(world, t, step, now)
  {
    var stored := Get(t, w.uri);
    if !SameContent(stored, w) {
      assert ValidStep(world, Replace(w)) && Upsert(t, w, world.dated, now) == Apply(world, t, Replace(w), now);
    } else if Current(stored.value, w, world.dated) {
      assert Upsert(t, w, world.dated, now) == t;
    } else {
      assert ValidStep(world, Repair(w)) && Upsert(t, w, world.dated, now) == Apply(world, t, Repair(w), now);
    }
  }

  function Run(world: World, t: Table, steps: seq<Step>, now: int): Table
    decreases |steps|
  {
    if steps == [] then t else Run(world, Apply(world, t, steps[0], now), steps[1..], now)
  }

  /** What other writers may do between two statements of a refresh. */
  ghost predicate ValidSchedule(world: World, schedule: nat -> seq<Step>) {
    forall k: nat, step :: step in schedule(k) ==> ValidStep(world, step)
  }

  /** Any run of valid steps, in any order, keeps the table sound and every active collection calm. */
  lemma {:induction false} RunIsSafe(world: World, t: Table, steps: seq<Step>, now: int)
    requires ValidWorld(world) && SoundTable(world, t) && forall step :: step in steps ==> ValidStep(world, step)
    ensures SoundTable(world, Run(world, t, steps, now))
    ensures forall c :: world.lexiconHash(c).Some? ==> Calm(t, Run(world, t, steps, now), c, world.lexiconHash(c).value)
    decreases |steps|
  {
    if steps != [] {
      hide Apply, SoundTable, ValidStep;
      assert steps[0] in steps;
      StepIsSafe(world, t, steps[0], now);
      var next := Apply(world, t, steps[0], now);
      RunIsSafe(world, next, steps[1..], now);
      forall c | world.lexiconHash(c).Some? ensures Calm(t, Run(world, t, steps, now), c, world.lexiconHash(c).value) {
        CalmTransitive(t, next, Run(world, t, steps, now), c, world.lexiconHash(c).value);
      }
    }
  }

  /** These steps, all of them valid, lead from one table to the other. */
  ghost predicate Ran(world: World, start: Table, end: Table, done: seq<Step>, now: int) {
    end == Run(world, start, done, now) && forall step :: step in done ==> ValidStep(world, step)
  }

  ghost predicate Scheduled(step: Step, schedule: nat -> seq<Step>) {
    exists k: nat :: step in schedule(k)
  }

  /** What a refresh did to the table: other writers' scheduled steps, and in between its own. */
  ghost predicate Traced(world: World, start: Table, end: Table, done: seq<Step>, schedule: nat -> seq<Step>, now: int) {
    && Ran(world, start, end, done, now)
    && forall step :: step in done ==> step.Refresh? || step.MarkUnknown? || Scheduled(step, schedule)
  }

  lemma {:induction false} RunConcat(world: World, t: Table, a: seq<Step>, b: seq<Step>, now: int)
    ensures Run(world, t, a + b, now) == Run(world, Run(world, t, a, now), b, now)
    decreases |a|
  {
    if a == [] {
      assert a + b == b;
    } else {
      assert (a + b)[1..] == a[1..] + b;
      RunConcat(world, Apply(world, t, a[0], now), a[1..], b, now);
    }
  }

  lemma TracedStart(world: World, t: Table, schedule: nat -> seq<Step>, now: int)
    ensures Traced(world, t, t, [], schedule, now)
  {
  }

  lemma RanOthers(world: World, start: Table, t: Table, done: seq<Step>, schedule: nat -> seq<Step>, k: nat, now: int)
    requires Ran(world, start, t, done, now) && ValidSchedule(world, schedule)
    ensures Ran(world, start, Run(world, t, schedule(k), now), done + schedule(k), now)
    ensures forall step :: step in schedule(k) ==> Scheduled(step, schedule)
  {
    hide Run, ValidStep;
    RunConcat(world, start, done, schedule(k), now);
  }

  lemma TracedOthers(world: World, start: Table, t: Table, done: seq<Step>, schedule: nat -> seq<Step>, k: nat, now: int)
    requires Traced(world, start, t, done, schedule, now) && ValidSchedule(world, schedule)
    ensures Traced(world, start, Run(world, t, schedule(k), now), done + schedule(k), schedule, now)
  {
    hide Run, ValidStep, Ran, Scheduled;
    RanOthers(world, start, t, done, schedule, k, now);
  }

  lemma RanOwn(world: World, start: Table, t: Table, done: seq<Step>, own: Step, now: int)
    requires Ran(world, start, t, done, now) && ValidStep(world, own)
    ensures Ran(world, start, Apply(world, t, own, now), done + [own], now)
  {
    hide Apply, ValidStep;
    RunConcat(world, start, done, [own], now);
    assert [own][1..] == [];
    assert Run(world, t, [own], now) == Run(world, Apply(world, t, own, now), [], now);
  }

  lemma TracedOwn(world: World, start: Table, t: Table, done: seq<Step>, schedule: nat -> seq<Step>, own: Step, now: int)
    requires Traced(world, start, t, done, schedule, now) && (own.Refresh? || own.MarkUnknown?) && ValidStep(world, own)
    ensures Traced(world, start, Apply(world, t, own, now), done + [own], schedule, now)
  {
    hide Ran, Apply, Scheduled, ValidStep;
    RanOwn(world, start, t, done, own, now);
  }

  lemma TracedTwice(world: World, a: Table, b: Table, c: Table, first: seq<Step>, second: seq<Step>, schedule: nat -> seq<Step>, now: int)
    requires Traced(world, a, b, first, schedule, now) && Traced(world, b, c, second, schedule, now)
    ensures Traced(world, a, c, first + second, schedule, now)
  {
    hide Run, ValidStep, Scheduled;
    RunConcat(world, a, first, second, now);
  }

  lemma NothingRan(world: World, t: Table, now: int)
    ensures Ran(world, t, t, [], now)
  {
  }

  // ----- Rows without a schema -----

  /** No row of the collection is shown as valid: all are known to have no schema. */
  predicate Hidden(t: Table, collection: string) {
    forall uri :: uri in t && t[uri].collection == collection ==>
      t[uri].status == "unknown_schema" && t[uri].hash == "" && t[uri].validatedAt.Some?
  }

  /** The validator says of a record without a saved lexicon that its schema is unknown. */
  ghost predicate KnowsSchemas(world: World) {
    forall uri, json ::
      world.lexiconHash(world.collectionOf(uri)).None? ==> world.verdict(uri, json).status == "unknown_schema"
  }

  /** No step of any writer brings a hidden collection back. */
  lemma StepKeepsHidden(world: World, t: Table, step: Step, collection: string, now: int)
    requires ValidWorld(world) && KnowsSchemas(world) && SoundTable(world, t) && ValidStep(world, step)
    requires world.lexiconHash(collection).None? && Hidden(t, collection)
    ensures Hidden(Apply(world, t, step, now), collection)
  {
    var next := Apply(world, t, step, now);
    forall uri | uri in next && next[uri].collection == collection
      ensures next[uri].status == "unknown_schema" && next[uri].hash == "" && next[uri].validatedAt.Some?
    {
      if uri in t {
        assert SoundRow(world, uri, t[uri]);
      }
      match step
      case Replace(w) => assert world.verdict(w.uri, w.json).hash == w.hash && world.verdict(w.uri, w.json).status == w.status;
      case Repair(w) => assert world.verdict(w.uri, w.json).hash == w.hash && world.verdict(w.uri, w.json).status == w.status;
      case Refresh(u, observed) => assert world.lexiconHash(world.collectionOf(u)).None? ==> world.verdict(u, observed.json).hash == "";
      case _ =>
    }
  }

  lemma {:induction false} RunKeepsHidden(world: World, t: Table, steps: seq<Step>, collection: string, now: int)
    requires ValidWorld(world) && KnowsSchemas(world) && SoundTable(world, t)
    requires forall step :: step in steps ==> ValidStep(world, step)
    requires world.lexiconHash(collection).None? && Hidden(t, collection)
    ensures Hidden(Run(world, t, steps, now), collection)
    decreases |steps|
  {
    if steps != [] {
      hide Apply, SoundTable, ValidStep, Hidden, ValidWorld, KnowsSchemas;
      assert steps[0] in steps;
      StepIsSafe(world, t, steps[0], now);
      StepKeepsHidden(world, t, steps[0], collection, now);
      RunKeepsHidden(world, Apply(world, t, steps[0], now), steps[1..], collection, now);
    }
  }

  /** Every hidden collection without a saved lexicon stays hidden. */
  ghost predicate HiddenStay(world: World, start: Table, end: Table) {
    KnowsSchemas(world) ==>
      forall c :: world.lexiconHash(c).None? && Hidden(start, c) ==> Hidden(end, c)
  }

  lemma RanKeepsHidden(world: World, start: Table, end: Table, done: seq<Step>, now: int)
    requires ValidWorld(world) && SoundTable(world, start) && Ran(world, start, end, done, now)
    ensures HiddenStay(world, start, end)
  {
    hide Run, ValidStep, Hidden, SoundTable, ValidWorld;
    if KnowsSchemas(world) {
      forall c | world.lexiconHash(c).None? && Hidden(start, c) ensures Hidden(end, c) {
        RunKeepsHidden(world, start, done, c, now);
      }
    }
  }

  lemma TracedKeepsHidden(world: World, start: Table, end: Table, done: seq<Step>, schedule: nat -> seq<Step>, now: int)
    requires ValidWorld(world) && SoundTable(world, start) && Traced(world, start, end, done, schedule, now)
    ensures HiddenStay(world, start, end)
  {
    hide Ran, Scheduled;
    RanKeepsHidden(world, start, end, done, now);
  }

  /** Marking a collection hides it. */
  lemma MarkHides(world: World, t: Table, collection: string, reason: string, now: int)
    ensures reason != "" ==> Hidden(Apply(world, t, MarkUnknown(collection, reason), now), collection)
  {
  }

  // ----- Ingestion -----

  /** The row shows a write: its content and its verdict. */
  ghost predicate Shows(t: Table, w: Write) {
    && w.uri in t && t[w.uri].cid == w.cid && t[w.uri].json == w.json
    && t[w.uri].status == w.status && t[w.uri].error == w.error && t[w.uri].hash == w.hash && t[w.uri].validatedAt.Some?
  }

  lemma WriteShows(world: World, t: Table, w: Write, now: int)
    requires SoundTable(world, t) && ValidIngest(world, w)
    ensures Shows(Apply(world, t, Replace(w), now), w)
    ensures w.cid != "" && w.uri in t && t[w.uri].cid == w.cid ==> Shows(Apply(world, t, Repair(w), now), w)
    ensures SameContent(Get(t, w.uri), w) && Current(t[w.uri], w, world.dated) ==> Shows(t, w)
  {
    if w.uri in t {
      assert SoundRow(world, w.uri, t[w.uri]);
    }
  }

  lemma IngestSteps(world: World, w: Write)
    requires ValidIngest(world, w)
    ensures ValidStep(world, Replace(w)) && (w.cid != "" ==> ValidStep(world, Repair(w)))
  {
    hide ValidIngest;
  }

  /** An ingestion's own steps, and the scheduled ones of others. */
  ghost predicate IngestTraced(world: World, start: Table, end: Table, w: Write, done: seq<Step>, schedule: nat -> seq<Step>, now: int) {
    && Ran(world, start, end, done, now)
    && forall step :: step in done ==> step in {Replace(w), Repair(w)} || Scheduled(step, schedule)
  }

  lemma IngestOthers(world: World, start: Table, t: Table, w: Write, done: seq<Step>, schedule: nat -> seq<Step>, k: nat, now: int)
    requires IngestTraced(world, start, t, w, done, schedule, now) && ValidSchedule(world, schedule)
    ensures IngestTraced(world, start, Run(world, t, schedule(k), now), w, done + schedule(k), schedule, now)
  {
    hide Run, ValidStep, Ran, Scheduled;
    RanOthers(world, start, t, done, schedule, k, now);
  }

  lemma IngestOwn(world: World, start: Table, t: Table, w: Write, done: seq<Step>, schedule: nat -> seq<Step>, own: Step, now: int)
    requires IngestTraced(world, start, t, w, done, schedule, now) && own in {Replace(w), Repair(w)} && ValidStep(world, own)
    ensures IngestTraced(world, start, Apply(world, t, own, now), w, done + [own], schedule, now)
  {
    hide Ran, Apply, Scheduled, ValidStep;
    RanOwn(world, start, t, done, own, now);
  }

  lemma IngestStart(world: World, t: Table, w: Write, schedule: nat -> seq<Step>, now: int)
    ensures IngestTraced(world, t, t, w, [], schedule, now)
  {
  }

  // ----- The refresh -----

  /** A listed row: the URI and the row as it was read. */
  datatype Listed = Listed(uri: string, row: Row)

  ghost predicate AfterURI(after: string, uri: string) {
    Before(after, uri)
  }

  ghost function StaleAfter(t: Table, collection: string, current: string, after: string): set<string> {
    set uri | uri in Stale(t, collection, current) && AfterURI(after, uri)
  }

  /** The answer to `… AND uri > after ORDER BY uri LIMIT limit` on the stale rows. */
  ghost predicate IsListing(t: Table, collection: string, current: string, after: string, limit: nat, listed: seq<Listed>) {
    && (forall i :: 0 <= i < |listed| ==>
          listed[i].uri in StaleAfter(t, collection, current, after) && listed[i].row == t[listed[i].uri])
    && (forall i, j :: 0 <= i < j < |listed| ==> Before(listed[i].uri, listed[j].uri))
    && |listed| <= limit
    && (forall uri :: uri in StaleAfter(t, collection, current, after) ==>
          InListing(listed, 0, uri) || (|listed| == limit && listed != [] && Before(listed[|listed| - 1].uri, uri)))
  }

  predicate InListing(listed: seq<Listed>, from: nat, uri: string) {
    exists i :: from <= i < |listed| && listed[i].uri == uri
  }

  /** While a batch is worked off: rows already passed are not stale; those still to come either are no
      longer stale or still have the content that was read. */
  ghost predicate Working(t: Table, collection: string, current: string, listed: seq<Listed>, from: nat)
    requires from <= |listed| && listed != []
  {
    && (forall uri :: uri in Stale(t, collection, current) ==>
          InListing(listed, from, uri) || Before(listed[|listed| - 1].uri, uri))
    && (forall i :: from <= i < |listed| && listed[i].uri in Stale(t, collection, current) ==>
          t[listed[i].uri].cid == listed[i].row.cid && t[listed[i].uri].json == listed[i].row.json)
  }

  lemma WorkingStays(t: Table, next: Table, collection: string, current: string, listed: seq<Listed>, from: nat)
    requires from <= |listed| && listed != []
    requires Working(t, collection, current, listed, from) && Calm(t, next, collection, current)
    ensures Working(next, collection, current, listed, from)
  {
    hide Stale, InListing, Before;
  }

  /** A conditional update deals with its row: applied, or skipped because ingestion already owns it. */
  lemma WorkingAdvances(world: World, t: Table, next: Table, collection: string, current: string, listed: seq<Listed>,
                        from: nat, now: int)
    requires ValidWorld(world) && SoundTable(world, t) && world.lexiconHash(collection) == Some(current)
    requires from < |listed| && Working(t, collection, current, listed, from)
    requires forall i, j :: 0 <= i < j < |listed| ==> Before(listed[i].uri, listed[j].uri)
    requires world.collectionOf(listed[from].uri) == collection
    requires next == UpdateIfUnchanged(t, listed[from].uri, listed[from].row, world.verdict(listed[from].uri, listed[from].row.json), now)
    ensures Working(next, collection, current, listed, from + 1)
    ensures Calm(t, next, collection, current)
  {
    var uri := listed[from].uri;
    UpdatedIsFresh(world, t, next, collection, current, listed[from], now);
    forall u | u in Stale(next, collection, current)
      ensures InListing(listed, from + 1, u) || Before(listed[|listed| - 1].uri, u)
    {
      if InListing(listed, from, u) {
        var i :| from <= i < |listed| && listed[i].uri == u;
        assert i != from;
      }
    }
    hide Stale, Before, UpdateIfUnchanged;
  }

  lemma UpdatedIsFresh(world: World, t: Table, next: Table, collection: string, current: string, rec: Listed, now: int)
    requires ValidWorld(world) && SoundTable(world, t) && world.lexiconHash(collection) == Some(current)
    requires world.collectionOf(rec.uri) == collection
    requires rec.uri in Stale(t, collection, current) ==> t[rec.uri].cid == rec.row.cid && t[rec.uri].json == rec.row.json
    requires next == UpdateIfUnchanged(t, rec.uri, rec.row, world.verdict(rec.uri, rec.row.json), now)
    ensures rec.uri !in Stale(next, collection, current)
    ensures Calm(t, next, collection, current)
    ensures forall u :: u in Stale(next, collection, current) ==>
              u in Stale(t, collection, current) && next[u].cid == t[u].cid && next[u].json == t[u].json
  {
    assert world.verdict(rec.uri, rec.row.json).hash == current;
    assert current != "";
  }

  lemma GetIs(t: Table, w: Write)
    ensures SameContent(Get(t, w.uri), w) ==> w.cid != "" && w.uri in t && Get(t, w.uri) == Some(t[w.uri])
  {
  }

  /** The record table as all writers see it. */
  class SharedRecords {
    var rows: Table
    const world: World

    constructor (world: World, rows: Table)
      ensures this.world == world && this.rows == rows
    {
      this.world := world;
      this.rows := rows;
    }

    /** Other writers get their turn. */
    method Others(steps: seq<Step>, now: int)
      requires ValidWorld(world) && SoundTable(world, rows) && forall step :: step in steps ==> ValidStep(world, step)
      modifies this`rows
      ensures rows == Run(world, old(rows), steps, now) && SoundTable(world, rows)
      ensures forall c :: world.lexiconHash(c).Some? ==> Calm(old(rows), rows, c, world.lexiconHash(c).value)
    {
      hide *;
      RunIsSafe(world, rows, steps, now);
      rows := Run(world, rows, steps, now);
    }

    /** An ingestion upsert with the steps of other writers before each of its statements. What it writes
        may rest on an outdated read: a repair that finds another CID falls through to the full upsert.
        When it succeeds the row shows its content and its verdict. */
    method Ingest(w: Write, schedule: nat -> seq<Step>, fails: nat -> bool, now: int, step: nat)
      returns (r: Result<InsertResult>, next: nat, ghost done: seq<Step>)
      requires ValidWorld(world) && SoundTable(world, rows) && ValidSchedule(world, schedule) && ValidIngest(world, w)
      modifies this`rows
      ensures SoundTable(world, rows) && IngestTraced(world, old(rows), rows, w, done, schedule, now)
      ensures r.Ok? ==> Shows(rows, w)
      ensures r.Err? ==> exists k: nat :: fails(k)
    {
      hide *;
      next, done := step + 1, schedule(step);
      IngestStart(world, rows, w, schedule, now);
      IngestSteps(world, w);
      ScheduleAt(world, schedule, step);
      IngestOthers(world, rows, rows, w, [], schedule, step, now);
      assert [] + done == done;
      Others(schedule(step), now);
      if fails(step) {
        return Err("read existing validation state"), next, done;
      }
      var existing := Get(rows, w.uri);
      GetIs(rows, w);
      WriteShows(world, rows, w, now);
      if SameContent(existing, w) {
        if Current(existing.value, w, world.dated) {
          return Ok(Skipped), next, done;
        }
        ScheduleAt(world, schedule, next);
        IngestOthers(world, old(rows), rows, w, done, schedule, next, now);
        Others(schedule(next), now);
        done, next := done + schedule(next), next + 1;
        if fails(next - 1) {
          return Err("repair validation metadata"), next, done;
        }
        WriteShows(world, rows, w, now);
        if w.uri in rows && rows[w.uri].cid == w.cid {
          IngestOwn(world, old(rows), rows, w, done, schedule, Repair(w), now);
          StepIsSafe(world, rows, Repair(w), now);
          done := done + [Repair(w)];
          rows := Apply(world, rows, Repair(w), now);
          return Ok(Skipped), next, done;
        }
      }
      ScheduleAt(world, schedule, next);
      IngestOthers(world, old(rows), rows, w, done, schedule, next, now);
      Others(schedule(next), now);
      done, next := done + schedule(next), next + 1;
      if fails(next - 1) {
        return Err("upsert record"), next, done;
      }
      WriteShows(world, rows, w, now);
      IngestOwn(world, old(rows), rows, w, done, schedule, Replace(w), now);
      StepIsSafe(world, rows, Replace(w), now);
      done := done + [Replace(w)];
      rows := Apply(world, rows, Replace(w), now);
      return Ok(Inserted), next, done;
    }

    /** Works off one listed batch; `after` ends up at the last row handled. */
    method RefreshBatch(collection: string, current: string, listed: seq<Listed>, schedule: nat -> seq<Step>, fails: nat -> bool,
                        now: int, step: nat)
      returns (failed: bool, next: nat, ghost done: seq<Step>)
      requires ValidWorld(world) && SoundTable(world, rows) && ValidSchedule(world, schedule)
      requires world.lexiconHash(collection) == Some(current) && listed != []
      requires Working(rows, collection, current, listed, 0)
      requires forall i, j :: 0 <= i < j < |listed| ==> Before(listed[i].uri, listed[j].uri)
      requires forall i :: 0 <= i < |listed| ==> world.collectionOf(listed[i].uri) == collection
      modifies this`rows
      ensures SoundTable(world, rows)
      ensures forall c :: world.lexiconHash(c).Some? ==> Calm(old(rows), rows, c, world.lexiconHash(c).value)
      ensures Traced(world, old(rows), rows, done, schedule, now)
      ensures failed ==> exists k: nat :: fails(k)
      ensures !failed ==> Working(rows, collection, current, listed, |listed|)
    {
      hide *;
      next, failed, done := step, false, [];
      AllCalm(rows, world);
      TracedStart(world, rows, schedule, now);
      for i := 0 to |listed|
        invariant Traced(world, old(rows), rows, done, schedule, now)
        invariant SoundTable(world, rows) && Working(rows, collection, current, listed, i)
        invariant forall c :: world.lexiconHash(c).Some? ==> Calm(old(rows), rows, c, world.lexiconHash(c).value)
      {
        ghost var before := rows;
        ScheduleAt(world, schedule, next);
        TracedOthers(world, old(rows), rows, done, schedule, next, now);
        Others(schedule(next), now);
        done := done + schedule(next);
        next := next + 1;
        WorkingStays(before, rows, collection, current, listed, i);
        AllCalmTransitive(old(rows), before, rows, world);
        var rec := listed[i];
        var result := world.verdict(rec.uri, rec.row.json);
        if fails(next) {
          return true, next, done;
        }
        before := rows;
        RefreshIsStep(world, rows, rec, now);
        TracedOwn(world, old(rows), rows, done, schedule, Refresh(rec.uri, rec.row), now);
        done := done + [Refresh(rec.uri, rec.row)];
        StepIsSafe(world, rows, Refresh(rec.uri, rec.row), now);
        WorkingAdvances(world, rows, UpdateIfUnchanged(rows, rec.uri, rec.row, result, now), collection, current, listed, i, now);
        rows := UpdateIfUnchanged(rows, rec.uri, rec.row, result, now);
        AllCalmTransitive(old(rows), before, rows, world);
      }
    }

    /** Refreshes one collection batch by batch while others write. It ends because each batch leaves
        fewer stale rows past the last URI handled, and without an error leaves none in the collection. */
    method RefreshCollection(collection: string, list: Lister, schedule: nat -> seq<Step>, fails: nat -> bool, now: int, step: nat)
      returns (failed: bool, next: nat, ghost done: seq<Step>)
      requires ValidWorld(world) && SoundTable(world, rows) && ValidSchedule(world, schedule) && Lists(list)
      modifies this`rows
      ensures SoundTable(world, rows)
      ensures forall c :: world.lexiconHash(c).Some? ==> Calm(old(rows), rows, c, world.lexiconHash(c).value)
      ensures Traced(world, old(rows), rows, done, schedule, now)
      ensures failed ==> exists k: nat :: fails(k)
      ensures !failed && world.lexiconHash(collection).Some? ==>
                Stale(rows, collection, world.lexiconHash(collection).value) == {}
      ensures !failed && world.lexiconHash(collection).None? ==> Hidden(rows, collection)
    {
      hide *;
      next, done := step, [];
      AllCalm(rows, world);
      TracedStart(world, rows, schedule, now);
      if world.lexiconHash(collection).None? {
        if fails(next) {
          return true, next, done;
        }
        var mark := MarkUnknown(collection, "no saved lexicon for collection " + collection);
        MarkIsValid(world, collection, mark.reason);
        StepIsSafe(world, rows, mark, now);
        TracedOwn(world, old(rows), rows, done, schedule, mark, now);
        MarkHides(world, rows, collection, mark.reason, now);
        rows := Apply(world, rows, mark, now);
        return false, next + 1, done + [mark];
      }
      var current := world.lexiconHash(collection).value;
      var after := "";
      NothingPassed(world, rows, collection, current);
      while true
        invariant Traced(world, old(rows), rows, done, schedule, now)
        invariant SoundTable(world, rows) && Passed(rows, collection, current, after)
        invariant forall c :: world.lexiconHash(c).Some? ==> Calm(old(rows), rows, c, world.lexiconHash(c).value)
        decreases StaleAfter(rows, collection, current, after)
      {
        ghost var before := rows;
        ScheduleAt(world, schedule, next);
        TracedOthers(world, old(rows), rows, done, schedule, next, now);
        Others(schedule(next), now);
        done := done + schedule(next);
        PassedStays(before, rows, collection, current, after);
        AllCalmTransitive(old(rows), before, rows, world);
        next := next + 1;
        if fails(next) {
          return true, next, done;
        }
        var listed := list(rows, collection, current, after);
        ListsAt(list, rows, collection, current, after);
        if listed == [] {
          NothingStale(rows, collection, current, after, listed);
          return false, next + 1, done;
        }
        ghost var read := rows;
        WorkingStarts(world, rows, collection, current, after, listed);
        ghost var batch;
        failed, next, batch := RefreshBatch(collection, current, listed, schedule, fails, now, next + 1);
        TracedTwice(world, old(rows), read, rows, done, batch, schedule, now);
        done := done + batch;
        AllCalmTransitive(old(rows), read, rows, world);
        if failed {
          return true, next, done;
        }
        CalmTransitive(before, read, rows, collection, current);
        BatchShrinks(before, read, rows, collection, current, after, listed);
        after := listed[|listed| - 1].uri;
      }
    }

    /** Marks what has no saved lexicon, then refreshes every active collection. `stored` lists the
        collections that the table held when it was asked for them. */
    method RefreshCollections(collections: seq<string>, stored: seq<string>, list: Lister, schedule: nat -> seq<Step>,
                              fails: nat -> bool, now: int)
      returns (failed: bool, ghost done: seq<Step>)
      requires ValidWorld(world) && SoundTable(world, rows) && ValidSchedule(world, schedule) && Lists(list)
      requires forall c :: world.lexiconHash(c).Some? ==> c in collections
      requires forall uri :: uri in rows ==> rows[uri].collection in stored
      modifies this`rows
      ensures SoundTable(world, rows)
      ensures Traced(world, old(rows), rows, done, schedule, now)
      ensures failed ==> exists k: nat :: fails(k)
      ensures !failed ==> forall c :: world.lexiconHash(c).Some? ==> Stale(rows, c, world.lexiconHash(c).value) == {}
      ensures !failed && KnowsSchemas(world) ==> forall c :: world.lexiconHash(c).None? ==> Hidden(rows, c)
    {
      if fails(0) {
        TracedStart(world, rows, schedule, now);
        return true, [];
      }
      NothingMarked(world, rows, stored);
      hide *;
      var step := 1;
      done := [];
      TracedStart(world, rows, schedule, now);
      assert stored[0..] == stored;
      for i := 0 to |stored|
        invariant SoundTable(world, rows) && Traced(world, old(rows), rows, done, schedule, now)
        invariant KnowsSchemas(world) ==> HiddenBut(world, rows, stored[i..], collections)
      {
        ghost var before := rows;
        ScheduleAt(world, schedule, step);
        TracedOthers(world, old(rows), rows, done, schedule, step, now);
        RunHidden(world, rows, schedule(step), now);
        Others(schedule(step), now);
        done := done + schedule(step);
        HiddenButStays(world, before, rows, stored[i..], collections);
        assert stored[i..] == [stored[i]] + stored[i + 1..];
        if stored[i] !in collections {
          if fails(step) {
            return true, done;
          }
          before := rows;
          var mark := MarkUnknown(stored[i], "no saved lexicon for collection " + stored[i] + " in the startup schema");
          MarkIsValid(world, stored[i], mark.reason);
          StepIsSafe(world, rows, mark, now);
          TracedOwn(world, old(rows), rows, done, schedule, mark, now);
          OneHidden(world, rows, mark, now);
          MarkHides(world, rows, stored[i], mark.reason, now);
          done := done + [mark];
          rows := Apply(world, rows, mark, now);
          HiddenButStays(world, before, rows, stored[i..], collections);
        }
        if KnowsSchemas(world) {
          HiddenButNext(world, rows, stored[i], stored[i + 1..], collections);
        }
        step := step + 1;
      }
      assert stored[|stored|..] == [] && collections[0..] == collections;
      for i := 0 to |collections|
        invariant SoundTable(world, rows) && Traced(world, old(rows), rows, done, schedule, now)
        invariant KnowsSchemas(world) ==> HiddenBut(world, rows, [], collections[i..])
        invariant forall c :: c in collections[..i] && world.lexiconHash(c).Some? ==> Stale(rows, c, world.lexiconHash(c).value) == {}
      {
        ghost var before := rows;
        var error;
        ghost var more;
        error, step, more := RefreshCollection(collections[i], list, schedule, fails, now, step);
        TracedTwice(world, old(rows), before, rows, done, more, schedule, now);
        TracedKeepsHidden(world, before, rows, more, schedule, now);
        done := done + more;
        if error {
          return true, done;
        }
        HiddenButStays(world, before, rows, [], collections[i..]);
        assert collections[i..] == [collections[i]] + collections[i + 1..];
        if KnowsSchemas(world) {
          HiddenButDone(world, rows, collections[i], collections[i + 1..]);
        }
        assert collections[..i + 1] == collections[..i] + [collections[i]];
        StillFresh(world, before, rows, collections[..i]);
      }
      assert collections[..|collections|] == collections && collections[|collections|..] == [];
      if KnowsSchemas(world) {
        AllHidden(world, rows);
      }
      return false, done;
    }
  }

  /** Every collection without a saved lexicon is hidden, but for those still to come. */
  ghost predicate HiddenBut(world: World, t: Table, stored: seq<string>, collections: seq<string>) {
    forall c :: world.lexiconHash(c).None? ==> Hidden(t, c) || c in stored || c in collections
  }

  lemma NothingMarked(world: World, t: Table, stored: seq<string>)
    requires forall uri :: uri in t ==> t[uri].collection in stored
    ensures forall collections :: HiddenBut(world, t, stored, collections)
  {
  }

  lemma HiddenButStays(world: World, t: Table, next: Table, stored: seq<string>, collections: seq<string>)
    requires KnowsSchemas(world) ==> HiddenBut(world, t, stored, collections)
    requires HiddenStay(world, t, next)
    ensures KnowsSchemas(world) ==> HiddenBut(world, next, stored, collections)
  {
    hide Hidden, KnowsSchemas;
  }

  lemma HiddenButNext(world: World, t: Table, first: string, stored: seq<string>, collections: seq<string>)
    requires HiddenBut(world, t, [first] + stored, collections) && (Hidden(t, first) || first in collections)
    ensures HiddenBut(world, t, stored, collections)
  {
    hide Hidden;
  }

  lemma HiddenButDone(world: World, t: Table, first: string, collections: seq<string>)
    requires HiddenBut(world, t, [], [first] + collections) && (world.lexiconHash(first).None? ==> Hidden(t, first))
    ensures HiddenBut(world, t, [], collections)
  {
    hide Hidden;
  }

  lemma AllHidden(world: World, t: Table)
    requires HiddenBut(world, t, [], [])
    ensures forall c :: world.lexiconHash(c).None? ==> Hidden(t, c)
  {
    hide Hidden;
  }

  lemma RunHidden(world: World, t: Table, steps: seq<Step>, now: int)
    requires ValidWorld(world) && SoundTable(world, t) && forall step :: step in steps ==> ValidStep(world, step)
    ensures HiddenStay(world, t, Run(world, t, steps, now))
  {
    hide Run, ValidStep, HiddenStay, SoundTable, ValidWorld;
    RanKeepsHidden(world, t, Run(world, t, steps, now), steps, now);
  }

  lemma OneHidden(world: World, t: Table, step: Step, now: int)
    requires ValidWorld(world) && SoundTable(world, t) && ValidStep(world, step)
    ensures HiddenStay(world, t, Apply(world, t, step, now))
  {
    hide Apply, ValidStep, Hidden, SoundTable, ValidWorld, KnowsSchemas;
    if KnowsSchemas(world) {
      forall c | world.lexiconHash(c).None? && Hidden(t, c) ensures Hidden(Apply(world, t, step, now), c) {
        StepKeepsHidden(world, t, step, c, now);
      }
    }
  }

  /** The database's listing of stale rows past a URI, at most a batch. */
  type Lister = (Table, string, string, string) -> seq<Listed>

  ghost predicate Lists(list: Lister) {
    forall t, collection, current, after {:trigger list(t, collection, current, after)} ::
      IsBatch(t, collection, current, after, list(t, collection, current, after))
  }

  ghost predicate IsBatch(t: Table, collection: string, current: string, after: string, listed: seq<Listed>) {
    exists limit: nat :: limit > 0 && IsListing(t, collection, current, after, limit, listed)
  }

  /** No stale row at or before `after`. */
  ghost predicate Passed(t: Table, collection: string, current: string, after: string) {
    forall uri :: uri in Stale(t, collection, current) ==> AfterURI(after, uri)
  }

  lemma MarkIsValid(world: World, collection: string, reason: string)
    requires world.lexiconHash(collection).None?
    ensures ValidStep(world, MarkUnknown(collection, reason))
  {
  }

  lemma NothingPassed(world: World, t: Table, collection: string, current: string)
    requires SoundTable(world, t)
    ensures Passed(t, collection, current, "")
  {
    forall uri | uri in Stale(t, collection, current) ensures AfterURI("", uri) {
      assert SoundRow(world, uri, t[uri]);
    }
  }

  lemma PassedStays(t: Table, next: Table, collection: string, current: string, after: string)
    requires Passed(t, collection, current, after) && Calm(t, next, collection, current)
    ensures Passed(next, collection, current, after)
  {
    hide Stale, AfterURI;
  }

  lemma ListsAt(list: Lister, t: Table, collection: string, current: string, after: string)
    requires Lists(list)
    ensures IsBatch(t, collection, current, after, list(t, collection, current, after))
  {
    hide IsBatch;
  }

  lemma NothingStale(t: Table, collection: string, current: string, after: string, listed: seq<Listed>)
    requires IsBatch(t, collection, current, after, listed)
    requires listed == [] && Passed(t, collection, current, after)
    ensures Stale(t, collection, current) == {}
  {
    hide AfterURI;
    forall uri ensures uri !in StaleAfter(t, collection, current, after) {
      assert !InListing(listed, 0, uri);
    }
    assert forall uri :: uri in Stale(t, collection, current) ==> uri in StaleAfter(t, collection, current, after);
  }

  lemma WorkingStarts(world: World, t: Table, collection: string, current: string, after: string, listed: seq<Listed>)
    requires SoundTable(world, t) && Passed(t, collection, current, after) && listed != []
    requires IsBatch(t, collection, current, after, listed)
    ensures Working(t, collection, current, listed, 0)
    ensures forall i, j :: 0 <= i < j < |listed| ==> Before(listed[i].uri, listed[j].uri)
    ensures forall i :: 0 <= i < |listed| ==> world.collectionOf(listed[i].uri) == collection
    ensures listed[|listed| - 1].uri in StaleAfter(t, collection, current, after)
  {
    hide Before, InListing;
    forall i | 0 <= i < |listed| ensures world.collectionOf(listed[i].uri) == collection {
      assert listed[i].uri in StaleAfter(t, collection, current, after);
      assert SoundRow(world, listed[i].uri, t[listed[i].uri]);
    }
  }

  /** A batch moves past its last row and leaves strictly fewer stale rows beyond it. */
  lemma BatchShrinks(start: Table, read: Table, end: Table, collection: string, current: string, after: string, listed: seq<Listed>)
    requires Calm(start, read, collection, current) && Calm(start, end, collection, current)
    requires listed != [] && listed[|listed| - 1].uri in StaleAfter(read, collection, current, after)
    requires Working(end, collection, current, listed, |listed|)
    ensures Passed(end, collection, current, listed[|listed| - 1].uri)
    ensures StaleAfter(end, collection, current, listed[|listed| - 1].uri) < StaleAfter(start, collection, current, after)
  {
    var last := listed[|listed| - 1].uri;
    assert forall uri :: !InListing(listed, |listed|, uri);
    BeforeTotal(last, last);
    forall uri | uri in StaleAfter(end, collection, current, last) ensures uri in StaleAfter(start, collection, current, after) {
      BeforeTransitive(after, last, uri);
    }
    assert last in StaleAfter(start, collection, current, after);
    assert last !in StaleAfter(end, collection, current, last);
  }

  lemma StillFresh(world: World, t: Table, next: Table, collections: seq<string>)
    requires forall c :: world.lexiconHash(c).Some? ==> Calm(t, next, c, world.lexiconHash(c).value)
    requires forall c :: c in collections && world.lexiconHash(c).Some? ==> Stale(t, c, world.lexiconHash(c).value) == {}
    ensures forall c :: c in collections && world.lexiconHash(c).Some? ==> Stale(next, c, world.lexiconHash(c).value) == {}
  {
    hide Stale;
    forall c | c in collections && world.lexiconHash(c).Some? ensures Stale(next, c, world.lexiconHash(c).value) == {} {
      assert forall uri :: uri in Stale(next, c, world.lexiconHash(c).value) ==> uri in Stale(t, c, world.lexiconHash(c).value);
    }
  }

  lemma AllCalm(t: Table, world: World)
    ensures forall c :: world.lexiconHash(c).Some? ==> Calm(t, t, c, world.lexiconHash(c).value)
  {
  }

  lemma AllCalmTransitive(a: Table, b: Table, c: Table, world: World)
    requires forall x :: world.lexiconHash(x).Some? ==> Calm(a, b, x, world.lexiconHash(x).value)
    requires forall x :: world.lexiconHash(x).Some? ==> Calm(b, c, x, world.lexiconHash(x).value)
    ensures forall x :: world.lexiconHash(x).Some? ==> Calm(a, c, x, world.lexiconHash(x).value)
  {
    forall x | world.lexiconHash(x).Some? ensures Calm(a, c, x, world.lexiconHash(x).value) {
      CalmTransitive(a, b, c, x, world.lexiconHash(x).value);
    }
  }

  lemma ScheduleAt(world: World, schedule: nat -> seq<Step>, k: nat)
    requires ValidSchedule(world, schedule)
    ensures forall step :: step in schedule(k) ==> ValidStep(world, step)
  {
  }

  lemma RefreshIsStep(world: World, t: Table, rec: Listed, now: int)
    ensures ValidStep(world, Refresh(rec.uri, rec.row))
    ensures Apply(world, t, Refresh(rec.uri, rec.row), now)
            == UpdateIfUnchanged(t, rec.uri, rec.row, world.verdict(rec.uri, rec.row.json), now)
  {
  }
}
