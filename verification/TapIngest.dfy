/** Handling Tap events: what is written, when an ack is sent, and why crashes and redelivery in
    per-repo order end in the state of one clean pass. */
module TapIngest {
  import opened Text
  import opened Redelivery
  import RecordStore

  /** The parts of an AT-URI; see UriText. */
  datatype Uri = Uri(did: string, collection: string, rkey: string)

  datatype Event =
    | RecordEvent(uri: Uri, action: string, cid: string, body: string)
    | IdentityEvent(did: string, handle: string, status: string)

  /** The stored tables: current records, version keys, and actors with their handles. */
  datatype Store = Store(rows: map<Uri, RecordStore.Row>, versions: set<(Uri, string)>, actors: map<string, Option<string>>)

  /** What the handler is configured with: which collections keep history, the validator, the body hash
      and the reading of createdAt. */
  datatype Config = Config(
    keepsHistory: string -> bool,
    verdict: (Uri, string) -> (string, string, string),
    sha256: string -> string,
    dated: RecordStore.Dating)

  /** The validator only gives statuses the table accepts. */
  ghost predicate ValidConfig(config: Config) {
    forall uri, body :: RecordStore.SupportedStatus(config.verdict(uri, body).0)
  }

  // ----- URIs -----

  function UriText(uri: Uri): string {
    "at://" + Join([uri.did, uri.collection, uri.rkey], "/")
  }

  predicate Plain(uri: Uri) {
    '/' !in uri.did && '/' !in uri.collection && '/' !in uri.rkey
  }

  /** URIs of parts without slashes are distinct texts, so a table keyed by URI is keyed by the parts. */
  lemma UriTextInjective(a: Uri, b: Uri)
    requires Plain(a) && Plain(b) && UriText(a) == UriText(b)
    ensures a == b
  {
    var pa, pb := [a.did, a.collection, a.rkey], [b.did, b.collection, b.rkey];
    UnjoinJoin(pa, '/');
    UnjoinJoin(pb, '/');
    assert UriText(a)[5..] == Join(pa, "/") && UriText(b)[5..] == Join(pb, "/");
    assert pa == pb && pa[0] == pb[0] && pa[1] == pb[1] && pa[2] == pb[2];
  }

  // ----- Steps -----

  /** The atomic statements and transactions that handlers run. */
  datatype Step =
    | Ensure(did: string)
    | Append(uri: Uri, key: string)
    | Upsert(uri: Uri, cid: string, body: string)
    | Delete(uri: Uri)
    | Purge(did: string)
    | SetIdentity(did: string, handle: string)

  /** What tells the versions of a record apart: the CID, or else a hash of the body. */
  function VersionKey(config: Config, cid: string, body: string): string {
    if cid != "" then cid else "sha256:" + config.sha256(body)
  }

  function WriteOf(config: Config, uri: Uri, cid: string, body: string): RecordStore.Write {
    var v := config.verdict(uri, body);
    RecordStore.Write(UriText(uri), cid, uri.did, uri.collection, body, v.0, v.1, v.2)
  }

  function GetRow(s: Store, uri: Uri): Option<RecordStore.Row> {
    if uri in s.rows then Some(s.rows[uri]) else None
  }

  function Apply(config: Config, s: Store, step: Step, now: int): Store {
    match step
    case Ensure(did) => if did in s.actors then s else s.(actors := s.actors[did := None])
    case Append(uri, key) => s.(versions := s.versions + {(uri, key)})
    case Upsert(uri, cid, body) =>
      s.(rows := s.rows[uri := RecordStore.Upserted(GetRow(s, uri), WriteOf(config, uri, cid, body), config.dated, now)])
    case Delete(uri) => s.(rows := s.rows - {uri}, versions := (set v | v in s.versions && v.0 != uri))
    case Purge(did) =>
      Store((map u | u in s.rows && s.rows[u].did != did :: s.rows[u]),
            (set v | v in s.versions && v.0.did != did), s.actors - {did})
    case SetIdentity(did, handle) => s.(actors := s.actors[did := Some(handle)])
  }

  function ApplyAll(config: Config, s: Store, steps: seq<Step>, now: int): Store
    decreases |steps|
  {
    if steps == [] then s else ApplyAll(config, Apply(config, s, steps[0], now), steps[1..], now)
  }

  /** A row's DID column is the DID of its URI. */
  predicate ValidStore(s: Store) {
    forall u :: u in s.rows ==> s.rows[u].did == u.did
  }

  lemma ApplyValid(config: Config, s: Store, step: Step, now: int)
    requires ValidStore(s)
    ensures ValidStore(Apply(config, s, step, now))
  {
  }

  // ----- What is observed -----

  /** The observations redelivery must not change. */
  datatype View = Content(uri: Uri) | CreatedAt(uri: Uri) | Version(uri: Uri, key: string) | Actor(did: string)

  datatype Seen =
    | Nothing
    | Body(cid: string, json: string)
    | Date(date: string)
    | Present
    | Handle(handle: Option<string>)

  function Look(s: Store, view: View): Seen {
    match view
    case Content(uri) => if uri in s.rows then Body(s.rows[uri].cid, s.rows[uri].json) else Nothing
    case CreatedAt(uri) => if uri in s.rows && s.rows[uri].createdAt.Some? then Date(s.rows[uri].createdAt.value) else Nothing
    case Version(uri, key) => if (uri, key) in s.versions then Present else Nothing
    case Actor(did) => if did in s.actors then Handle(s.actors[did]) else Nothing
  }

  /** Bodies with a CID are of the kind of their CID; all dates and all actors are of one kind. */
  function KindOf(seen: Seen): Option<string> {
    match seen
    case Body(cid, _) => if cid == "" then None else Some(cid)
    case Date(_) => Some("date")
    case Handle(_) => Some("actor")
    case _ => None
  }

  /** What a step does to one observation. */
  function ActOn(config: Config, step: Step, view: View): Act<Seen> {
    match step
    case Ensure(did) => if view == Actor(did) then Fill("actor", Handle(None)) else Id
    case SetIdentity(did, handle) => if view == Actor(did) then Const(Handle(Some(handle))) else Id
    case Append(uri, key) => if view == Version(uri, key) then Const(Present) else Id
    case Upsert(uri, cid, body) =>
      if view == Content(uri) then if cid == "" then Const(Body(cid, body)) else Fill(cid, Body(cid, body))
      else if view == CreatedAt(uri) && config.dated(body).Some? then Fill("date", Date(config.dated(body).value))
      else Id
    case Delete(uri) => if !view.Actor? && view.uri == uri then Const(Nothing) else Id
    case Purge(did) => if (if view.Actor? then view.did else view.uri.did) == did then Const(Nothing) else Id
  }

  /** Each step acts on each observation as one of the effects that replay tolerates. */
  lemma StepActs(config: Config, s: Store, step: Step, view: View, now: int)
    requires ValidStore(s)
    ensures ValidAct(KindOf, ActOn(config, step, view))
    ensures Look(Apply(config, s, step, now), view) == Do(KindOf, ActOn(config, step, view), Look(s, view))
  {
  }

  function ActsOn(config: Config, steps: seq<Step>, view: View): seq<Act<Seen>> {
    seq(|steps|, i requires 0 <= i < |steps| => ActOn(config, steps[i], view))
  }

  lemma {:induction false} StepsAct(config: Config, s: Store, steps: seq<Step>, view: View, now: int)
    requires ValidStore(s)
    ensures ValidWord(KindOf, ActsOn(config, steps, view))
    ensures Look(ApplyAll(config, s, steps, now), view) == DoAll(KindOf, ActsOn(config, steps, view), Look(s, view))
    ensures ValidStore(ApplyAll(config, s, steps, now))
    decreases |steps|
  {
    if steps != [] {
      var next := Apply(config, s, steps[0], now);
      StepActs(config, s, steps[0], view, now);
      ApplyValid(config, s, steps[0], now);
      StepsAct(config, next, steps[1..], view, now);
      assert ActsOn(config, steps, view)[1..] == ActsOn(config, steps[1..], view);
      assert ActsOn(config, steps, view) == [ActOn(config, steps[0], view)] + ActsOn(config, steps[1..], view);
    }
  }

  /** Redelivery and crash safety. `log` is every step of a DID's events in order. A run does stretches of
      it; a crash ends a stretch anywhere, also inside an event, and redelivery starts the next one at or
      before that point. However often that happens, once the rest has been redelivered every record's
      content and date, the version keys and the actor are as after one clean pass. */
  lemma RedeliveryConverges(config: Config, s: Store, log: seq<Step>, run: seq<Segment>, resume: nat, end: nat, now: int, view: View)
    requires ValidStore(s) && ValidRun(|log|, run) && resume <= EndOf(run) && HighWater(run) <= end <= |log| && resume <= end
    ensures Look(ApplyAll(config, s, Trace(log, run) + log[resume..end], now), view)
            == Look(ApplyAll(config, s, log[..end], now), view)
  {
    var acts := ActsOn(config, log, view);
    StepsAct(config, s, log, view, now);
    StepsAct(config, s, Trace(log, run) + log[resume..end], view, now);
    StepsAct(config, s, log[..end], view, now);
    ResumedActs(config, log, run, resume, end, view);
    hide *;
    RunsConverge(KindOf, acts, run, resume, end, Look(s, view));
  }

  lemma ResumedActs(config: Config, log: seq<Step>, run: seq<Segment>, resume: nat, end: nat, view: View)
    requires ValidRun(|log|, run) && resume <= end <= |log|
    ensures var acts := ActsOn(config, log, view);
            && |acts| == |log|
            && ActsOn(config, Trace(log, run) + log[resume..end], view) == Trace(acts, run) + acts[resume..end]
            && ActsOn(config, log[..end], view) == acts[..end]
  {
    hide ActOn, ValidRun;
    TraceActs(config, log, run, view);
    var acts, earlier, rest := ActsOn(config, log, view), Trace(log, run), log[resume..end];
    ActsConcat(config, earlier, rest, view);
    ActsSlice(config, log, resume, end, view);
    ActsSlice(config, log, 0, end, view);
    assert log[0..end] == log[..end] && acts[0..end] == acts[..end];
  }

  lemma ActsConcat(config: Config, a: seq<Step>, b: seq<Step>, view: View)
    ensures ActsOn(config, a + b, view) == ActsOn(config, a, view) + ActsOn(config, b, view)
  {
    hide ActOn;
  }

  lemma ActsSlice(config: Config, log: seq<Step>, from: nat, to: nat, view: View)
    requires from <= to <= |log|
    ensures |ActsOn(config, log, view)| == |log|
    ensures ActsOn(config, log[from..to], view) == ActsOn(config, log, view)[from..to]
  {
    hide ActOn;
  }

  lemma {:induction false} TraceActs(config: Config, log: seq<Step>, run: seq<Segment>, view: View)
    requires ValidRun(|log|, run)
    ensures ActsOn(config, Trace(log, run), view) == Trace(ActsOn(config, log, view), run)
  {
    if run != [] {
      var before, last := run[..|run| - 1], run[|run| - 1];
      TraceActs(config, log, before, view);
      var earlier, stretch := Trace(log, before), log[last.from..last.to];
      assert Trace(log, run) == earlier + stretch;
      ActsConcat(config, earlier, stretch, view);
      ActsSlice(config, log, last.from, last.to, view);
      hide ActsOn;
    }
  }

  /** Replaying any suffix of what has been handled changes nothing observed. */
  lemma SuffixReplayIsInvisible(config: Config, s: Store, log: seq<Step>, from: nat, now: int, view: View)
    requires ValidStore(s) && from <= |log|
    ensures Look(ApplyAll(config, s, log + log[from..], now), view) == Look(ApplyAll(config, s, log, now), view)
  {
    var run := [Segment(0, |log|)];
    assert run[..0] == [] && EndOf(run[..0]) == 0 && ValidRun(|log|, run[..0]);
    assert Trace(log, run[..0]) == [];
    assert Trace(log, run) == log;
    assert log[..|log|] == log;
    RedeliveryConverges(config, s, log, run, from, |log|, now, view);
  }

  function DidOf(step: Step): string {
    match step
    case Append(uri, _) => uri.did
    case Upsert(uri, _, _) => uri.did
    case Delete(uri) => uri.did
    case _ => step.did
  }

  /** Repositories do not interfere, so how their events interleave does not matter. */
  lemma OtherReposAreInvisible(config: Config, step: Step, view: View)
    ensures DidOf(step) != (if view.Actor? then view.did else view.uri.did) ==> ActOn(config, step, view) == Id
  {
  }

  // ----- Handling events -----

  /** strings.ToLower on ASCII. */
  function ToLower(s: string): string {
    seq(|s|, i requires 0 <= i < |s| => if 'A' <= s[i] <= 'Z' then s[i] - 'A' + 'a' else s[i])
  }

  predicate ShouldPurge(status: string) {
    ToLower(TrimSpace(status)) in {"deleted", "deactivated", "suspended", "takendown"}
  }

  predicate StoresBody(event: Event) {
    event.RecordEvent? && event.action in {"create", "update"} && event.body != ""
  }

  /** What handling an event is meant to write, in order. */
  function Steps(config: Config, event: Event): seq<Step> {
    match event
    case IdentityEvent(did, handle, status) => if ShouldPurge(status) then [Purge(did)] else [SetIdentity(did, handle)]
    case RecordEvent(uri, action, cid, body) =>
      if StoresBody(event) then
        [Ensure(uri.did)]
        + (if config.keepsHistory(uri.collection) then [Append(uri, VersionKey(config, cid, body))] else [])
        + [Upsert(uri, cid, body)]
      else if action == "delete" then [Delete(uri)]
      else []
  }

  /** Bodies without a DID or collection are refused by the repositories. */
  predicate Refused(event: Event) {
    StoresBody(event) && (event.uri.did == "" || event.uri.collection == "")
  }

  /** A handler gets through its steps in order, stopping at a failure; only a failed Ensure is passed over. */
  predicate Within(config: Config, event: Event, done: seq<Step>) {
    done <= Steps(config, event) || (StoresBody(event) && done <= Steps(config, event)[1..])
  }

  /** Everything but, possibly, the Ensure. */
  predicate Complete(config: Config, event: Event, done: seq<Step>) {
    done == Steps(config, event) || (StoresBody(event) && done == Steps(config, event)[1..])
  }

  /** Passing over an Ensure shows nowhere but on the actor. */
  lemma CompleteShows(config: Config, s: Store, event: Event, done: seq<Step>, now: int, view: View)
    requires ValidStore(s) && Complete(config, event, done) && !view.Actor?
    ensures Look(ApplyAll(config, s, done, now), view) == Look(ApplyAll(config, s, Steps(config, event), now), view)
  {
    if done != Steps(config, event) {
      var steps := Steps(config, event);
      assert steps[0] == Ensure(event.uri.did);
      StepsAct(config, s, done, view, now);
      StepActs(config, s, steps[0], view, now);
      ApplyValid(config, s, steps[0], now);
      StepsAct(config, Apply(config, s, steps[0], now), done, view, now);
    }
  }

  lemma {:induction false} ApplyConcat(config: Config, s: Store, a: seq<Step>, b: seq<Step>, now: int)
    ensures ApplyAll(config, s, a + b, now) == ApplyAll(config, ApplyAll(config, s, a, now), b, now)
    decreases |a|
  {
    if a == [] {
      assert a + b == b;
    } else {
      assert (a + b)[1..] == a[1..] + b;
      ApplyConcat(config, Apply(config, s, a[0], now), a[1..], b, now);
    }
  }

  lemma ApplyNothing(config: Config, s: Store, now: int)
    ensures ApplyAll(config, s, [], now) == s
  {
  }

  lemma ApplyNext(config: Config, s: Store, done: seq<Step>, step: Step, now: int)
    ensures ApplyAll(config, s, done + [step], now) == Apply(config, ApplyAll(config, s, done, now), step, now)
  {
    ApplyConcat(config, s, done, [step], now);
    assert [step][1..] == [];
    assert ApplyAll(config, Apply(config, ApplyAll(config, s, done, now), step, now), [], now)
           == Apply(config, ApplyAll(config, s, done, now), step, now);
  }

  // ----- Deliveries of a list of events -----

  /** One delivery of the event at an index: what its handler got to write, and when. */
  datatype Delivery = Delivery(index: nat, done: seq<Step>, at: int)

  /** The steps of all events, in order. */
  function Log(config: Config, events: seq<Event>): seq<Step> {
    if events == [] then [] else Log(config, events[..|events| - 1]) + Steps(config, events[|events| - 1])
  }

  /** The store after the deliveries. */
  function Delivered(config: Config, s: Store, run: seq<Delivery>): Store {
    if run == [] then s
    else ApplyAll(config, Delivered(config, s, run[..|run| - 1]), run[|run| - 1].done, run[|run| - 1].at)
  }

  /** The event due next: the one after the last delivery if that was handled completely, else the same. */
  function Due(config: Config, events: seq<Event>, run: seq<Delivery>): nat
    requires run != [] ==> run[|run| - 1].index < |events|
  {
    if run == [] then 0
    else
      var last := run[|run| - 1];
      if Complete(config, events[last.index], last.done) then last.index + 1 else last.index
  }

  /** Handlers get through their steps in order or fail, and every delivery is of the event due next or of an
      earlier one. */
  predicate ValidDeliveries(config: Config, events: seq<Event>, run: seq<Delivery>) {
    run == []
    || (var before, last := run[..|run| - 1], run[|run| - 1];
        && ValidDeliveries(config, events, before)
        && last.index < |events| && Within(config, events[last.index], last.done)
        && last.index <= Due(config, events, before))
  }

  predicate EnsuresAll(config: Config, events: seq<Event>, run: seq<Delivery>) {
    forall d :: d in run && d.index < |events| ==> d.done <= Steps(config, events[d.index])
  }

  /** What a handler wrote, with an Ensure that was passed over put back. */
  function Padded(config: Config, event: Event, done: seq<Step>): (padded: seq<Step>)
    requires Within(config, event, done)
    ensures padded <= Steps(config, event)
    ensures Complete(config, event, done) ==> padded == Steps(config, event)
  {
    assert StoresBody(event) ==> |Steps(config, event)| >= 2 && !Steps(config, event)[1].Ensure?;
    if done <= Steps(config, event) then done else [Ensure(event.uri.did)] + done
  }

  lemma PaddingIsInvisible(config: Config, event: Event, done: seq<Step>, view: View, seen: Seen)
    requires Within(config, event, done) && (!view.Actor? || done <= Steps(config, event))
    ensures DoAll(KindOf, ActsOn(config, Padded(config, event, done), view), seen)
            == DoAll(KindOf, ActsOn(config, done, view), seen)
  {
    if !(done <= Steps(config, event)) {
      var padded := Padded(config, event, done);
      assert ActsOn(config, padded, view)[0] == Id && ActsOn(config, padded, view)[1..] == ActsOn(config, done, view);
    }
  }

  function Offset(config: Config, events: seq<Event>, i: nat): nat
    requires i <= |events|
  {
    |Log(config, events[..i])|
  }

  lemma {:induction false} LogSlices(config: Config, events: seq<Event>, i: nat)
    requires i <= |events|
    ensures Log(config, events[..i]) <= Log(config, events)
    ensures i < |events| ==>
              var from, to := Offset(config, events, i), Offset(config, events, i + 1);
              to == from + |Steps(config, events[i])| && to <= |Log(config, events)|
              && Log(config, events)[from..to] == Steps(config, events[i])
    decreases |events|
  {
    hide Steps;
    if i == |events| {
      assert events[..i] == events;
    } else {
      var before := events[..|events| - 1];
      assert Log(config, events) == Log(config, before) + Steps(config, events[|events| - 1]);
      LogSlices(config, before, i);
      assert before[..i] == events[..i];
      if i == |before| {
        assert events[..i + 1] == events;
      } else {
        assert before[..i + 1] == events[..i + 1];
      }
    }
  }

  lemma OffsetIs(config: Config, events: seq<Event>, i: nat)
    requires i <= |events|
    ensures Offset(config, events, i) == |Log(config, events[..i])|
  {
  }

  lemma {:induction false} OffsetsGrow(config: Config, events: seq<Event>, i: nat, j: nat)
    requires i <= j <= |events|
    ensures Offset(config, events, i) <= Offset(config, events, j) <= |Log(config, events)|
  {
    LogSlices(config, events[..j], i);
    LogSlices(config, events, j);
    assert events[..j][..i] == events[..i];
  }

  /** The stretch of the log that a delivery gets through. */
  function SegmentOf(config: Config, events: seq<Event>, d: Delivery): Segment
    requires d.index < |events| && Within(config, events[d.index], d.done)
  {
    var from := Offset(config, events, d.index);
    Segment(from, from + |Padded(config, events[d.index], d.done)|)
  }

  function Segments(config: Config, events: seq<Event>, run: seq<Delivery>): seq<Segment>
    requires ValidDeliveries(config, events, run)
  {
    if run == [] then []
    else Segments(config, events, run[..|run| - 1]) + [SegmentOf(config, events, run[|run| - 1])]
  }

  lemma SegmentFits(config: Config, events: seq<Event>, d: Delivery)
    requires d.index < |events| && Within(config, events[d.index], d.done)
    ensures var segment, log := SegmentOf(config, events, d), Log(config, events);
            && Offset(config, events, d.index) == segment.from <= segment.to <= Offset(config, events, d.index + 1) <= |log|
            && log[segment.from..segment.to] == Padded(config, events[d.index], d.done)
            && (Complete(config, events[d.index], d.done) ==> segment.to == Offset(config, events, d.index + 1))
  {
    hide Steps, Within, Complete, Padded, Log, Offset;
    LogSlices(config, events, d.index);
    StartOfSlice(Log(config, events), Offset(config, events, d.index), Offset(config, events, d.index + 1),
                 Padded(config, events[d.index], d.done));
  }

  lemma StartOfSlice<T>(s: seq<T>, from: nat, to: nat, part: seq<T>)
    requires from <= to <= |s| && part <= s[from..to]
    ensures from + |part| <= to && s[from..from + |part|] == part
  {
    assert s[from..from + |part|] == s[from..to][..|part|];
  }

  lemma LastDelivery(config: Config, events: seq<Event>, before: seq<Delivery>, last: Delivery)
    requires ValidDeliveries(config, events, before + [last])
    ensures ValidDeliveries(config, events, before)
    ensures last.index < |events| && Within(config, events[last.index], last.done)
    ensures last.index <= Due(config, events, before)
    ensures Due(config, events, before + [last])
            == if Complete(config, events[last.index], last.done) then last.index + 1 else last.index
    ensures Segments(config, events, before + [last]) == Segments(config, events, before) + [SegmentOf(config, events, last)]
  {
    assert (before + [last])[..|before|] == before;
    hide Steps, Within, Complete, SegmentOf;
  }

  lemma NoDeliveries(config: Config, events: seq<Event>)
    ensures var segments := Segments(config, events, []);
            segments == [] && ValidRun(|Log(config, events)|, segments) && EndOf(segments) == HighWater(segments) == 0
    ensures Due(config, events, []) == 0 && Offset(config, events, 0) == 0
  {
    assert events[..0] == [];
  }

  /** Deliveries are a run over the log that never skips forward, once passed-over Ensures are put back. */
  lemma {:induction false} DeliveriesAreRun(config: Config, events: seq<Event>, run: seq<Delivery>, end: nat)
    requires ValidDeliveries(config, events, run) && end <= |events| && forall d :: d in run ==> d.index < end
    ensures var segments := Segments(config, events, run);
            && ValidRun(|Log(config, events)|, segments)
            && Due(config, events, run) <= end
            && Offset(config, events, Due(config, events, run)) <= EndOf(segments)
            && HighWater(segments) <= Offset(config, events, end)
  {
    hide *;
    NoDeliveries(config, events);
    if run != [] {
      var before, last := run[..|run| - 1], run[|run| - 1];
      assert run == before + [last] && last in run;
      LastDelivery(config, events, before, last);
      DeliveriesAreRun(config, events, before, end);
      SegmentFits(config, events, last);
      OffsetsGrow(config, events, last.index, Due(config, events, before));
      OffsetsGrow(config, events, last.index + 1, end);
      RunExtends(Log(config, events), Segments(config, events, before), SegmentOf(config, events, last));
    }
  }

  lemma {:induction false} DeliveredActs(config: Config, s: Store, events: seq<Event>, run: seq<Delivery>, view: View, now: int)
    requires ValidStore(s) && ValidDeliveries(config, events, run) && (!view.Actor? || EnsuresAll(config, events, run))
    ensures ValidStore(Delivered(config, s, run))
    ensures ValidRun(|Log(config, events)|, Segments(config, events, run))
    ensures Look(Delivered(config, s, run), view)
            == Look(ApplyAll(config, s, Trace(Log(config, events), Segments(config, events, run)), now), view)
  {
    hide *;
    NothingDelivered(config, s, events, view, now);
    if run != [] {
      var before, last := run[..|run| - 1], run[|run| - 1];
      assert run == before + [last];
      LastEnsures(config, events, before, last);
      IndicesFit(config, events, run);
      DeliveriesAreRun(config, events, run, |events|);
      LastDelivery(config, events, before, last);
      IndicesFit(config, events, before);
      DeliveriesAreRun(config, events, before, |events|);
      DeliveredActs(config, s, events, before, view, now);
      DeliveryActs(config, s, events, before, last, view, now);
    }
  }

  lemma NothingDelivered(config: Config, s: Store, events: seq<Event>, view: View, now: int)
    ensures Delivered(config, s, []) == s && Segments(config, events, []) == []
    ensures ValidRun(|Log(config, events)|, []) && Trace(Log(config, events), []) == []
    ensures ApplyAll(config, s, [], now) == s
  {
  }

  lemma LastEnsures(config: Config, events: seq<Event>, before: seq<Delivery>, last: Delivery)
    ensures EnsuresAll(config, events, before + [last])
            ==> EnsuresAll(config, events, before) && (last.index < |events| ==> last.done <= Steps(config, events[last.index]))
  {
    assert forall d :: d in before ==> d in before + [last];
    assert last in before + [last];
  }

  lemma DeliveryActs(config: Config, s: Store, events: seq<Event>, before: seq<Delivery>, last: Delivery, view: View, now: int)
    requires ValidStore(s) && ValidDeliveries(config, events, before) && ValidDeliveries(config, events, before + [last])
    requires !view.Actor? || last.done <= Steps(config, events[last.index])
    requires ValidRun(|Log(config, events)|, Segments(config, events, before))
    requires ValidRun(|Log(config, events)|, Segments(config, events, before + [last]))
    requires ValidStore(Delivered(config, s, before))
    requires var earlier := Trace(Log(config, events), Segments(config, events, before));
             Look(Delivered(config, s, before), view) == Look(ApplyAll(config, s, earlier, now), view)
    ensures ValidStore(Delivered(config, s, before + [last]))
    ensures var all := Trace(Log(config, events), Segments(config, events, before + [last]));
            Look(Delivered(config, s, before + [last]), view) == Look(ApplyAll(config, s, all, now), view)
  {
    var run := before + [last];
    assert run[..|run| - 1] == before;
    SegmentFits(config, events, last);
    var log, segments := Log(config, events), Segments(config, events, run);
    var padded, earlier := Padded(config, events[last.index], last.done), Trace(log, Segments(config, events, before));
    assert segments[..|segments| - 1] == Segments(config, events, before);
    assert Trace(log, segments) == earlier + padded;
    var mid, clean := Delivered(config, s, before), ApplyAll(config, s, earlier, now);
    assert Delivered(config, s, run) == ApplyAll(config, mid, last.done, last.at);
    hide *;
    ApplyConcat(config, s, earlier, padded, now);
    StepsAct(config, s, earlier, view, now);
    StepsAct(config, mid, last.done, view, last.at);
    StepsAct(config, clean, padded, view, now);
    PaddingIsInvisible(config, events[last.index], last.done, view, Look(mid, view));
  }

  lemma {:induction false} IndicesFit(config: Config, events: seq<Event>, run: seq<Delivery>)
    requires ValidDeliveries(config, events, run)
    ensures forall d :: d in run ==> d.index < |events|
  {
    hide Within, Due;
    if run != [] {
      var before, last := run[..|run| - 1], run[|run| - 1];
      IndicesFit(config, events, before);
      hide ValidDeliveries;
      forall d | d in run ensures d.index < |events| {
        assert d in before || d == last;
      }
    }
  }

  /** Redelivery and crash safety, for events. However often handlers fail or crash between any two
      statements, and however far deliveries go back each time, once all events up to `end` are handled
      every record's content and date and the version keys are as after one clean pass over those events;
      and so are the actors, unless an Ensure was passed over. */
  lemma EventsConverge(config: Config, s: Store, events: seq<Event>, run: seq<Delivery>, end: nat, view: View, now: int)
    requires ValidStore(s) && ValidDeliveries(config, events, run) && end <= |events|
    requires (forall d :: d in run ==> d.index < end) && Due(config, events, run) == end
    requires !view.Actor? || EnsuresAll(config, events, run)
    ensures Look(Delivered(config, s, run), view) == Look(ApplyAll(config, s, Log(config, events[..end]), now), view)
  {
    var log, segments, resume := Log(config, events), Segments(config, events, run), Offset(config, events, end);
    hide *;
    DeliveredActs(config, s, events, run, view, now);
    DeliveriesAreRun(config, events, run, end);
    LogSlices(config, events, end);
    OffsetIs(config, events, end);
    OffsetsGrow(config, events, end, |events|);
    RedeliveryConverges(config, s, log, segments, resume, resume, now, view);
    assert log[resume..resume] == [] && log[..resume] == Log(config, events[..end]);
    assert Trace(log, segments) + [] == Trace(log, segments);
  }

  /** The statements an event attempts: 0 ensures the actor and is not counted, 1 appends, 2 writes. */
  predicate Attempted(config: Config, event: Event, k: nat) {
    k == 2 || (k == 1 && StoresBody(event) && config.keepsHistory(event.uri.collection))
  }

  /** Whether handling an event reports no error: its write is not refused and no counted statement fails. */
  predicate Succeeds(config: Config, event: Event, fails: nat -> bool) {
    Steps(config, event) == []
    || (!Refused(event) && forall k: nat :: k < 3 && Attempted(config, event, k) ==> !fails(k))
  }

  predicate Acked(config: Config, event: Event, fails: nat -> bool, ackFails: bool) {
    Succeeds(config, event, fails) && !ackFails
  }

  /** The index that handlers write to. */
  class Index {
    var store: Store
    const config: Config

    constructor (config: Config, store: Store)
      ensures this.config == config && this.store == store
    {
      this.config := config;
      this.store := store;
    }

    /** Stores or deletes a record. Each statement may fail; only failing to ensure the actor is ignored. */
    method HandleRecord(event: Event, fails: nat -> bool, now: int) returns (ok: bool, ghost done: seq<Step>)
      requires event.RecordEvent?
      modifies this`store
      ensures store == ApplyAll(config, old(store), done, now)
      ensures Within(config, event, done)
      ensures ok <==> Succeeds(config, event, fails)
      ensures ok ==> Complete(config, event, done)
      ensures !fails(0) ==> done <= Steps(config, event)
      ensures ok && StoresBody(event) ==> (done == Steps(config, event) <==> !fails(0))
    {
      done := [];
      var uri := event.uri;
      ApplyNothing(config, store, now);
      hide Apply, ApplyAll, VersionKey;
      if event.action == "create" || event.action == "update" {
        if event.body == "" {
          return true, done;
        }
        if !fails(0) {
          ApplyNext(config, old(store), done, Ensure(uri.did), now);
          done := done + [Ensure(uri.did)];
          store := Apply(config, store, Ensure(uri.did), now);
        }
        if config.keepsHistory(uri.collection) {
          if uri.did == "" || uri.collection == "" || fails(1) {
            return false, done;
          }
          var append := Append(uri, VersionKey(config, event.cid, event.body));
          ApplyNext(config, old(store), done, append, now);
          done := done + [append];
          store := Apply(config, store, append, now);
        }
        if uri.did == "" || uri.collection == "" || fails(2) {
          return false, done;
        }
        var upsert := Upsert(uri, event.cid, event.body);
        ApplyNext(config, old(store), done, upsert, now);
        done := done + [upsert];
        store := Apply(config, store, upsert, now);
        return true, done;
      } else if event.action == "delete" {
        if fails(2) {
          return false, done;
        }
        ApplyNext(config, old(store), done, Delete(uri), now);
        done := done + [Delete(uri)];
        store := Apply(config, store, Delete(uri), now);
      }
      return true, done;
    }

    /** Updates the handle, or purges an account that is gone. */
    method HandleIdentity(event: Event, fails: nat -> bool, now: int) returns (ok: bool, ghost done: seq<Step>)
      requires event.IdentityEvent?
      modifies this`store
      ensures store == ApplyAll(config, old(store), done, now)
      ensures done <= Steps(config, event) && (ok ==> Complete(config, event, done)) && (ok <==> Succeeds(config, event, fails))
    {
      done := [];
      if fails(2) {
        return false, done;
      }
      var step := if ShouldPurge(event.status) then Purge(event.did) else SetIdentity(event.did, event.handle);
      ApplyNext(config, store, done, step, now);
      done := [step];
      store := Apply(config, store, step, now);
      return true, done;
    }

    /** Handles an event and acks it, exactly if nothing but ensuring the actor failed. An acked event's effect
        is stored: every record, date, version and identity shows what the event's steps make of it, but an
        actor that could not be ensured is missing. */
    method Dispatch(event: Event, fails: nat -> bool, ackFails: bool, now: int) returns (acked: bool, ghost done: seq<Step>)
      requires ValidStore(store)
      modifies this`store
      ensures ValidStore(store) && store == ApplyAll(config, old(store), done, now)
      ensures acked <==> Acked(config, event, fails, ackFails)
      ensures Within(config, event, done) && (!fails(0) ==> done <= Steps(config, event))
      ensures acked ==> Complete(config, event, done)
      ensures acked ==> forall view: View :: !view.Actor? || event.IdentityEvent? ==>
                Look(store, view) == Look(ApplyAll(config, old(store), Steps(config, event), now), view)
      ensures acked && StoresBody(event) ==>
                (event.uri.did in store.actors <==> event.uri.did in old(store).actors || !fails(0))
    {
      var ok;
      if event.RecordEvent? {
        ok, done := HandleRecord(event, fails, now);
      } else {
        ok, done := HandleIdentity(event, fails, now);
      }
      StepsAct(config, old(store), done, Actor(""), now);
      if !ok || ackFails {
        return false, done;
      }
      forall view: View | !view.Actor? || event.IdentityEvent?
        ensures Look(store, view) == Look(ApplyAll(config, old(store), Steps(config, event), now), view)
      {
        if !view.Actor? {
          CompleteShows(config, old(store), event, done, now, view);
        }
      }
      if StoresBody(event) {
        ActorEnsured(config, old(store), event, done, now);
      }
      return true, done;
    }
  }

  lemma ActorEnsured(config: Config, s: Store, event: Event, done: seq<Step>, now: int)
    requires StoresBody(event) && Complete(config, event, done)
    ensures event.uri.did in ApplyAll(config, s, done, now).actors
            <==> event.uri.did in s.actors || done == Steps(config, event)
  {
    var steps, did := Steps(config, event), event.uri.did;
    var start := if done == steps then Apply(config, s, steps[0], now) else s;
    ActorsKept(config, start, steps[1..], now);
    assert done == steps ==> ApplyAll(config, s, done, now) == ApplyAll(config, start, steps[1..], now);
    assert |steps| != |steps[1..]|;
  }

  lemma {:induction false} ActorsKept(config: Config, s: Store, steps: seq<Step>, now: int)
    requires forall step :: step in steps ==> step.Append? || step.Upsert?
    ensures ApplyAll(config, s, steps, now).actors == s.actors
    decreases |steps|
  {
    if steps != [] {
      assert steps[0] in steps;
      ActorsKept(config, Apply(config, s, steps[0], now), steps[1..], now);
    }
  }

  /** An event is refused exactly when the repositories would refuse its write. */
  lemma RefusedIsInvalid(config: Config, event: Event)
    requires ValidConfig(config) && StoresBody(event)
    ensures Refused(event) <==> !RecordStore.ValidWrite(WriteOf(config, event.uri, event.cid, event.body))
  {
    assert UriText(event.uri)[0] == 'a';
  }

  /** An ack does not mean that the actor is stored: with a failed Ensure it is not. */
  method AckWithoutActor(index: Index, now: int) returns (event: Event, acked: bool)
    requires ValidStore(index.store) && "did:plc:a" !in index.store.actors
    modifies index`store
    ensures acked && StoresBody(event) && event.uri.did !in index.store.actors
  {
    event := RecordEvent(Uri("did:plc:a", "app.example", "1"), "create", "cid", "{}");
    ghost var done;
    acked, done := index.Dispatch(event, k => k == 0, false, now);
  }

  // ----- Consuming a stream -----

  /** One delivery to the consumer: which statements fail, or are cut off by a crash, and whether the ack
      does. */
  datatype Attempt = Attempt(index: nat, fails: nat -> bool, ackFails: bool, at: int)

  /** The event that Tap sends next: an acked event is followed by the next one. */
  function Pending(config: Config, events: seq<Event>, attempts: seq<Attempt>): nat
    requires attempts != [] ==> attempts[|attempts| - 1].index < |events|
  {
    if attempts == [] then 0
    else
      var last := attempts[|attempts| - 1];
      if Acked(config, events[last.index], last.fails, last.ackFails) then last.index + 1 else last.index
  }

  /** Per-repo order: an event is sent only when all before it are acked; reconnecting may go back. */
  predicate InOrder(config: Config, events: seq<Event>, attempts: seq<Attempt>) {
    attempts == []
    || (var before, last := attempts[..|attempts| - 1], attempts[|attempts| - 1];
        InOrder(config, events, before) && last.index < |events| && last.index <= Pending(config, events, before))
  }

  /** Consumes deliveries. Once the events up to `end` are acked, whatever failed on the way, the index shows
      what one clean pass over them leaves; on actors too if none of the Ensures failed. */
  method Consume(index: Index, events: seq<Event>, attempts: seq<Attempt>, ghost end: nat, ghost now: int)
    requires ValidStore(index.store) && InOrder(index.config, events, attempts)
    requires end <= |events| && (forall a :: a in attempts ==> a.index < end)
    modifies index`store
    ensures ValidStore(index.store)
    ensures (attempts != [] ==> attempts[|attempts| - 1].index < |events|) && Pending(index.config, events, attempts) == end ==>
              forall view: View :: !view.Actor? || (forall a :: a in attempts ==> !a.fails(0)) ==>
                Look(index.store, view) == Look(ApplyAll(index.config, old(index.store), Log(index.config, events[..end]), now), view)
  {
    hide *;
    ghost var run: seq<Delivery> := [];
    ghost var s := index.store;
    NothingConsumed(index.config, events, s);
    assert attempts[..0] == [];
    assert attempts[..|attempts|] == attempts;
    for i := 0 to |attempts|
      invariant ValidStore(index.store) && index.store == Delivered(index.config, s, run)
      invariant Matches(index.config, events, attempts[..i], run)
    {
      assert attempts[i] in attempts;
      InOrderPrefix(index.config, events, attempts, i + 1);
      assert attempts[..i + 1] == attempts[..i] + [attempts[i]];
      AttemptFits(index.config, events, attempts[..i], attempts[i]);
      var acked;
      ghost var done;
      acked, done := index.Dispatch(events[attempts[i].index], attempts[i].fails, attempts[i].ackFails, attempts[i].at);
      ghost var d := Delivery(attempts[i].index, done, attempts[i].at);
      MatchNext(index.config, events, attempts[..i], attempts[i], run, d);
      DeliveredNext(index.config, s, run, d);
      run := run + [d];
    }
    forall view: View | (attempts != [] ==> attempts[|attempts| - 1].index < |events|) && Pending(index.config, events, attempts) == end
                        && (!view.Actor? || (forall a :: a in attempts ==> !a.fails(0)))
      ensures Look(index.store, view) == Look(ApplyAll(index.config, s, Log(index.config, events[..end]), now), view)
    {
      MatchedEnd(index.config, events, attempts, run, end);
      EventsConverge(index.config, s, events, run, end, view, now);
    }
  }

  /** A delivery of an attempt: the same event, and nothing left out unless its Ensure failed. */
  predicate DeliveryOf(config: Config, events: seq<Event>, attempt: Attempt, d: Delivery) {
    d.index == attempt.index < |events|
    && (!attempt.fails(0) ==> d.done <= Steps(config, events[d.index]))
  }

  /** The deliveries made by the attempts. */
  ghost predicate Matches(config: Config, events: seq<Event>, attempts: seq<Attempt>, run: seq<Delivery>) {
    && InOrder(config, events, attempts) && ValidDeliveries(config, events, run)
    && |run| == |attempts|
    && (forall i :: 0 <= i < |run| ==> DeliveryOf(config, events, attempts[i], run[i]))
    && (attempts != [] ==> attempts[|attempts| - 1].index < |events|)
    && Pending(config, events, attempts) <= Due(config, events, run)
  }

  lemma NothingConsumed(config: Config, events: seq<Event>, s: Store)
    ensures Matches(config, events, [], []) && Delivered(config, s, []) == s
  {
  }

  lemma {:induction false} InOrderPrefix(config: Config, events: seq<Event>, attempts: seq<Attempt>, i: nat)
    requires InOrder(config, events, attempts) && i <= |attempts|
    ensures InOrder(config, events, attempts[..i])
    decreases |attempts|
  {
    if i == |attempts| {
      assert attempts[..i] == attempts;
    } else {
      InOrderPrefix(config, events, attempts[..|attempts| - 1], i);
      assert attempts[..|attempts| - 1][..i] == attempts[..i];
    }
  }

  lemma AttemptFits(config: Config, events: seq<Event>, before: seq<Attempt>, next: Attempt)
    requires InOrder(config, events, before + [next])
    ensures next.index < |events| && (before != [] ==> before[|before| - 1].index < |events|)
    ensures next.index <= Pending(config, events, before)
  {
    assert (before + [next])[..|before|] == before;
    hide Acked;
  }

  lemma MatchNext(config: Config, events: seq<Event>, attempts: seq<Attempt>, next: Attempt, run: seq<Delivery>, d: Delivery)
    requires Matches(config, events, attempts, run) && InOrder(config, events, attempts + [next])
    requires d.index == next.index < |events| && Within(config, events[d.index], d.done)
    requires !next.fails(0) ==> d.done <= Steps(config, events[d.index])
    requires Acked(config, events[d.index], next.fails, next.ackFails) ==> Complete(config, events[d.index], d.done)
    ensures Matches(config, events, attempts + [next], run + [d])
  {
    AttemptFits(config, events, attempts, next);
    DeliveryFits(config, events, run, d);
    PendingNext(config, events, attempts, next);
    assert DeliveryOf(config, events, next, d);
    assert run != [] ==> DeliveryOf(config, events, attempts[|run| - 1], run[|run| - 1]);
    hide Acked, Within, Complete, Steps, ValidDeliveries, InOrder, Pending, Due, DeliveryOf;
    LastDelivery(config, events, run, d);
  }

  lemma DeliveryFits(config: Config, events: seq<Event>, run: seq<Delivery>, d: Delivery)
    requires ValidDeliveries(config, events, run) && (run != [] ==> run[|run| - 1].index < |events|)
    requires d.index < |events| && Within(config, events[d.index], d.done) && d.index <= Due(config, events, run)
    ensures ValidDeliveries(config, events, run + [d])
  {
    assert (run + [d])[..|run|] == run;
    hide Within, Due;
  }

  lemma PendingNext(config: Config, events: seq<Event>, before: seq<Attempt>, next: Attempt)
    requires next.index < |events|
    ensures Pending(config, events, before + [next])
            == if Acked(config, events[next.index], next.fails, next.ackFails) then next.index + 1 else next.index
  {
    hide Acked;
  }

  lemma DeliveredNext(config: Config, s: Store, run: seq<Delivery>, d: Delivery)
    ensures Delivered(config, s, run + [d]) == ApplyAll(config, Delivered(config, s, run), d.done, d.at)
  {
    assert (run + [d])[..|run|] == run;
    hide Apply;
  }

  lemma MatchedEnd(config: Config, events: seq<Event>, attempts: seq<Attempt>, run: seq<Delivery>, end: nat)
    requires Matches(config, events, attempts, run) && end <= |events| && forall a :: a in attempts ==> a.index < end
    requires Pending(config, events, attempts) == end
    ensures ValidDeliveries(config, events, run) && (forall d :: d in run ==> d.index < end)
    ensures Due(config, events, run) == end
    ensures (forall a :: a in attempts ==> !a.fails(0)) ==> EnsuresAll(config, events, run)
  {
    hide Acked, Within, Complete, Steps, ValidDeliveries, InOrder;
    forall d | d in run ensures d.index < end {
      var i :| 0 <= i < |run| && run[i] == d;
      assert attempts[i] in attempts;
    }
    if run != [] {
      assert run[|run| - 1] in run;
    }
    if forall a :: a in attempts ==> !a.fails(0) {
      forall d | d in run && d.index < |events| ensures d.done <= Steps(config, events[d.index]) {
        var i :| 0 <= i < |run| && run[i] == d;
        assert attempts[i] in attempts;
      }
    }
  }

  /** Order matters: an update whose predecessor failed and is redelivered only afterwards is lost. This is
      why redelivery has to go back, as Tap's per-repo ordering does, before it goes on. */
  lemma OutOfOrderDiverges(config: Config, now: int) returns (log: seq<Step>, view: View)
    ensures |log| == 2
    ensures var empty := Store(map[], {}, map[]);
            Look(ApplyAll(config, empty, [log[1], log[0]], now), view) != Look(ApplyAll(config, empty, log, now), view)
  {
    var uri, empty := Uri("did:plc:a", "app.example", "1"), Store(map[], {}, map[]);
    var first, second := Upsert(uri, "cid1", "1"), Upsert(uri, "cid2", "2");
    log, view := [first, second], Content(uri);
    ApplyNext(config, empty, [first], second, now);
    ApplyNext(config, empty, [second], first, now);
    assert [first] + [second] == log && [second] + [first] == [log[1], log[0]];
    StepActs(config, ApplyAll(config, empty, [first], now), second, view, now) by {
      StepsAct(config, empty, [first], view, now);
    }
    StepActs(config, ApplyAll(config, empty, [second], now), first, view, now) by {
      StepsAct(config, empty, [second], view, now);
    }
    StepsAct(config, empty, [first], view, now);
    StepsAct(config, empty, [second], view, now);
    OneAct(config, first, view, Look(empty, view));
    OneAct(config, second, view, Look(empty, view));
  }

  lemma OneAct(config: Config, step: Step, view: View, seen: Seen)
    ensures DoAll(KindOf, ActsOn(config, [step], view), seen) == Do(KindOf, ActOn(config, step, view), seen)
  {
    assert ActsOn(config, [step], view) == [ActOn(config, step, view)];
    assert [ActOn(config, step, view)][1..] == [];
  }
}
