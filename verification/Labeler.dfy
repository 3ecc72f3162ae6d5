/** A labeler subscription: the stored cursor, error and labels, the repository steps on them, and
    the reconnecting subscriber. */
module Labeler {
  import opened Text
  import opened FatalMarker
  import Like

  /** One message of the stream: its sequence number and its labels in order. */
  datatype Event = Event(number: nat, labels: seq<string>)

  /** The labels stored for a subscription, by sequence number and index. */
  type Labels = map<(nat, nat), string>

  /** The row of a subscription together with its labels. */
  datatype State = State(lastSeq: nat, lastError: Option<Cut>, labels: Labels)

  datatype Step =
    | Persist(event: Event)
    | Advance(number: nat)
    | Connected
    | Failed(text: string)
    | Fatal(code: string, text: string)

  /** INSERT … ON CONFLICT DO NOTHING of an event's labels. */
  function Inserted(labels: Labels, event: Event): Labels {
    (map i | 0 <= i < |event.labels| :: (event.number, i) := event.labels[i]) + labels
  }

  function Cursor(s: State, number: nat, same: Like.Matching): State {
    if Stuck(s.lastError, same) then s
    else s.(lastSeq := if s.lastSeq < number then number else s.lastSeq, lastError := None)
  }

  /** The effect of each repository operation. */
  function Apply(s: State, step: Step, same: Like.Matching): State {
    match step
    case Persist(event) => Cursor(s.(labels := Inserted(s.labels, event)), event.number, same)
    case Advance(number) => Cursor(s, number, same)
    case Connected => if Stuck(s.lastError, same) then s else s.(lastError := None)
    case Failed(text) => if Stuck(s.lastError, same) then s else s.(lastError := Some(NormalizeLastError(text)))
    case Fatal(code, text) => s.(lastError := Some(FormatFatal(code, text)))
  }

  function Run(s: State, steps: seq<Step>, same: Like.Matching): State {
    if steps == [] then s else Apply(Run(s, steps[..|steps| - 1], same), steps[|steps| - 1], same)
  }

  /** The repository. */
  class Repository {
    var state: State
    const same: Like.Matching

    constructor (same: Like.Matching)
      ensures this.same == same && state == State(0, None, map[])
    {
      this.same := same;
      state := State(0, None, map[]);
    }

    /** Stores an event's labels and advances the cursor in one transaction. */
    method PersistEvent(event: Event, fails: bool) returns (ok: bool)
      modifies this`state
      ensures ok <==> !fails
      ensures state == if ok then Apply(old(state), Persist(event), same) else old(state)
    {
      hide *;
      var labels := state.labels;
      NothingInserted(labels, event);
      for i := 0 to |event.labels|
        invariant state == old(state)
        invariant labels == Inserted(state.labels, Event(event.number, event.labels[..i]))
      {
        InsertNext(state.labels, labels, event, i);
        if (event.number, i) !in labels {
          labels := labels[(event.number, i) := event.labels[i]];
        }
      }
      assert event.labels[..|event.labels|] == event.labels;
      if fails {
        return false;
      }
      PersistIs(state, event, labels, same);
      state := Cursor(state.(labels := labels), event.number, same);
      return true;
    }

    /** Clears the error of a row that is open to updates. A guarded row keeps its error, and labels and
        cursor stay in any case. */
    method UpdateConnected(fails: bool) returns (ok: bool)
      modifies this`state
      ensures ok <==> !fails
      ensures state == if ok then Apply(old(state), Connected, same) else old(state)
      ensures state.lastSeq == old(state).lastSeq && state.labels == old(state).labels
      ensures Stuck(state.lastError, same) <==> Stuck(old(state).lastError, same)
      ensures ok ==> Stuck(state.lastError, same) || state.lastError == None
    {
      if !fails && !Stuck(state.lastError, same) {
        state := state.(lastError := None);
      }
      return !fails;
    }

    /** Replaces the error of a row that is open to updates. */
    method UpdateError(text: string, fails: bool) returns (ok: bool)
      modifies this`state
      ensures ok <==> !fails
      ensures state == if ok then Apply(old(state), Failed(text), same) else old(state)
      ensures state.lastSeq == old(state).lastSeq && state.labels == old(state).labels
      ensures Stuck(old(state).lastError, same) ==> state == old(state)
    {
      if !fails && !Stuck(state.lastError, same) {
        state := state.(lastError := Some(NormalizeLastError(text)));
      }
      return !fails;
    }

    /** Marks the cursor as fatal, whatever the row held. */
    method MarkFatalCursor(code: string, text: string, fails: bool) returns (ok: bool)
      requires TakesItself(same)
      modifies this`state
      ensures ok <==> !fails
      ensures state == if ok then Apply(old(state), Fatal(code, text), same) else old(state)
      ensures state.lastSeq == old(state).lastSeq && state.labels == old(state).labels
      ensures ok ==> IsFatal(state.lastError) && Stuck(state.lastError, same)
    {
      hide Stuck, IsFatal, FormatFatal;
      MarkerIsFatal(code, text, same);
      if !fails {
        state := state.(lastError := Some(FormatFatal(code, text)));
      }
      return !fails;
    }
  }

  lemma NothingInserted(labels: Labels, event: Event)
    ensures Inserted(labels, Event(event.number, event.labels[..0])) == labels
  {
  }

  lemma InsertNext(stored: Labels, labels: Labels, event: Event, i: nat)
    requires i < |event.labels| && labels == Inserted(stored, Event(event.number, event.labels[..i]))
    ensures Inserted(stored, Event(event.number, event.labels[..i + 1]))
            == if (event.number, i) in labels then labels else labels[(event.number, i) := event.labels[i]]
  {
    hide Inserted;
    var next := Inserted(stored, Event(event.number, event.labels[..i + 1]));
    var added := if (event.number, i) in labels then labels else labels[(event.number, i) := event.labels[i]];
    forall key
      ensures key in next <==> key in added
      ensures key in next ==> next[key] == added[key]
    {
      InsertNextAt(stored, labels, event, i, key);
    }
  }

  lemma InsertNextAt(stored: Labels, labels: Labels, event: Event, i: nat, key: (nat, nat))
    requires i < |event.labels| && labels == Inserted(stored, Event(event.number, event.labels[..i]))
    ensures var next := Inserted(stored, Event(event.number, event.labels[..i + 1]));
            && (key in next <==> key in labels || key == (event.number, i))
            && (key in labels ==> next[key] == labels[key])
            && (key !in labels && key == (event.number, i) ==> next[key] == event.labels[i])
  {
    hide Inserted;
    InsertedAt(stored, Event(event.number, event.labels[..i]), key);
    InsertedAt(stored, Event(event.number, event.labels[..i + 1]), key);
  }

  lemma PersistIs(s: State, event: Event, labels: Labels, same: Like.Matching)
    requires labels == Inserted(s.labels, Event(event.number, event.labels))
    ensures Apply(s, Persist(event), same) == Cursor(s.(labels := labels), event.number, same)
  {
  }

  // ----- The cursor over runs -----

  /** No operation ever moves the cursor back. */
  lemma {:induction false} CursorNeverDecreases(s: State, steps: seq<Step>, same: Like.Matching)
    ensures Run(s, steps, same).lastSeq >= s.lastSeq
  {
    if steps != [] {
      CursorNeverDecreases(s, steps[..|steps| - 1], same);
    }
  }

  predicate Moves(step: Step, number: nat) {
    (step.Persist? && step.event.number == number) || (step.Advance? && step.number == number)
  }

  /** The greatest number that the steps move the cursor to, or `start` if none is greater. */
  function Greatest(start: nat, steps: seq<Step>): nat {
    if steps == [] then start
    else
      var before, step := Greatest(start, steps[..|steps| - 1]), steps[|steps| - 1];
      var number := if step.Persist? then step.event.number else if step.Advance? then step.number else 0;
      if before < number then number else before
  }

  lemma {:induction false} GreatestIs(start: nat, steps: seq<Step>)
    ensures var g := Greatest(start, steps);
            && start <= g && (g == start || exists step :: step in steps && Moves(step, g))
            && (forall step, number: nat :: step in steps && Moves(step, number) ==> number <= g)
  {
    if steps != [] {
      var before, step := steps[..|steps| - 1], steps[|steps| - 1];
      GreatestIs(start, before);
      assert steps == before + [step];
      assert forall x :: x in steps <==> x in before || x == step;
      var g := Greatest(start, steps);
      if g != Greatest(start, before) {
        assert step in steps && Moves(step, g);
      }
    }
  }

  /** A step that leaves a text in the row which the guard of every update takes for a marker. */
  predicate Guards(step: Step, same: Like.Matching) {
    step.Fatal? || (step.Failed? && Stuck(Some(NormalizeLastError(step.text)), same))
  }

  ghost predicate SomeGuards(steps: seq<Step>, same: Like.Matching) {
    exists step :: step in steps && Guards(step, same)
  }

  /** The steps before the first that guards the row. */
  function Unguarded(steps: seq<Step>, same: Like.Matching): (open: seq<Step>)
    ensures |open| <= |steps|
  {
    if steps == [] || Guards(steps[0], same) then [] else [steps[0]] + Unguarded(steps[1..], same)
  }

  lemma {:induction false} UnguardedNext(steps: seq<Step>, step: Step, same: Like.Matching)
    ensures Unguarded(steps, same) <= steps
    ensures Unguarded(steps, same) == steps <==> !SomeGuards(steps, same)
    ensures Unguarded(steps + [step], same)
            == if SomeGuards(steps, same) then Unguarded(steps, same)
               else if Guards(step, same) then steps else steps + [step]
  {
    hide Guards;
    var all := steps + [step];
    if steps == [] {
      assert all[1..] == [] && all == [step];
      assert !SomeGuards(steps, same);
    } else {
      UnguardedNext(steps[1..], step, same);
      assert all[1..] == steps[1..] + [step] && all[0] == steps[0];
      assert steps == [steps[0]] + steps[1..];
      assert forall x :: x in steps <==> x == steps[0] || x in steps[1..];
      assert SomeGuards(steps, same) <==> Guards(steps[0], same) || SomeGuards(steps[1..], same);
    }
  }

  lemma GuardsAppend(steps: seq<Step>, step: Step, same: Like.Matching)
    ensures SomeGuards(steps + [step], same) <==> SomeGuards(steps, same) || Guards(step, same)
  {
    hide Guards;
    assert forall x :: x in steps + [step] <==> x in steps || x == step;
    if SomeGuards(steps, same) {
      var x :| x in steps && Guards(x, same);
      assert x in steps + [step];
    }
    if Guards(step, same) {
      assert step in steps + [step];
    }
  }

  /** One operation on a row that is open to updates. */
  lemma StepOnOpen(s: State, step: Step, same: Like.Matching)
    requires TakesItself(same) && !Stuck(s.lastError, same)
    ensures Stuck(Apply(s, step, same).lastError, same) <==> Guards(step, same)
    ensures Apply(s, step, same).lastSeq == Greatest(s.lastSeq, [step])
  {
    hide Stuck, FormatFatal, NormalizeLastError, Inserted;
    assert [step][..0] == [];
    assert !Stuck(None, same) by {
      NoErrorIsOpen(s.(lastError := None), same);
    }
    if step.Fatal? {
      MarkerIsFatal(step.code, step.text, same);
    }
  }

  lemma GreatestNext(start: nat, steps: seq<Step>, step: Step)
    ensures Greatest(start, steps + [step]) == Greatest(Greatest(start, steps), [step])
  {
    assert (steps + [step])[..|steps|] == steps && [step][..0] == [];
  }

  /** Over any run from a row open to updates: the row is guarded at the end exactly when some step guarded
      it, and the cursor is the greatest number persisted before that. */
  lemma {:induction false} GuardedExactly(s: State, steps: seq<Step>, same: Like.Matching)
    requires TakesItself(same) && !Stuck(s.lastError, same)
    ensures Stuck(Run(s, steps, same).lastError, same) <==> SomeGuards(steps, same)
    ensures Run(s, steps, same).lastSeq == Greatest(s.lastSeq, Unguarded(steps, same))
  {
    if steps != [] {
      var before, step := steps[..|steps| - 1], steps[|steps| - 1];
      assert steps == before + [step];
      GuardedExactly(s, before, same);
      var mid := Run(s, before, same);
      assert Run(s, steps, same) == Apply(mid, step, same);
      UnguardedNext(before, step, same);
      GuardsAppend(before, step, same);
      hide Stuck, Run, Apply, Guards, Unguarded, SomeGuards;
      if SomeGuards(before, same) {
        StepStaysStuck(mid, step, same);
      } else {
        StepOnOpen(mid, step, same);
        GreatestNext(s.lastSeq, before, step);
        GuardKeepsCursor(mid.lastSeq, step, same);
      }
    }
  }

  lemma GuardKeepsCursor(start: nat, step: Step, same: Like.Matching)
    ensures Guards(step, same) ==> Greatest(start, [step]) == start
  {
    hide Stuck;
    assert [step][..0] == [];
  }

  /** Persisting moves the cursor, after any run, exactly when nothing has guarded the row. */
  lemma CursorFollows(s: State, steps: seq<Step>, same: Like.Matching)
    requires TakesItself(same) && !Stuck(s.lastError, same)
    ensures (forall n: nat :: Run(s, steps + [Advance(n)], same).lastSeq >= n) <==> !SomeGuards(steps, same)
  {
    var end := Run(s, steps, same);
    GuardedExactly(s, steps, same);
    hide Stuck, SomeGuards, Unguarded;
    forall n: nat ensures Run(s, steps + [Advance(n)], same) == Cursor(end, n, same) {
      assert (steps + [Advance(n)])[..|steps|] == steps;
    }
    if SomeGuards(steps, same) {
      assert Run(s, steps + [Advance(end.lastSeq + 1)], same).lastSeq == end.lastSeq;
    }
  }

  /** The cursor is the greatest number persisted exactly when nothing persisted after the row was guarded
      goes beyond what was persisted before; so always when no step guards. */
  lemma CursorIsGreatest(s: State, steps: seq<Step>, same: Like.Matching)
    requires TakesItself(same) && !Stuck(s.lastError, same)
    ensures Run(s, steps, same).lastSeq == Greatest(s.lastSeq, steps)
            <==> forall step, number: nat :: step in steps[|Unguarded(steps, same)|..] && Moves(step, number) ==>
                   number <= Greatest(s.lastSeq, Unguarded(steps, same))
    ensures !SomeGuards(steps, same) ==> Run(s, steps, same).lastSeq == Greatest(s.lastSeq, steps)
  {
    GuardedExactly(s, steps, same);
    UnguardedNext(steps, Connected, same);
    hide Stuck, Run, Guards, Unguarded;
    var open := Unguarded(steps, same);
    var rest := steps[|open|..];
    assert steps == open + rest;
    GreatestIs(s.lastSeq, open);
    GreatestIs(s.lastSeq, steps);
    hide Greatest, SomeGuards;
    var g := Greatest(s.lastSeq, open);
    assert forall x :: x in steps <==> x in open || x in rest;
    if forall step, number: nat :: step in rest && Moves(step, number) ==> number <= g {
      var all := Greatest(s.lastSeq, steps);
      if all != s.lastSeq {
        var step :| step in steps && Moves(step, all);
        assert all <= g;
      }
      if g != s.lastSeq {
        var step :| step in open && Moves(step, g);
        assert step in steps;
      }
    }
  }

  /** A step that leaves a text which reads as fatal. */
  predicate Marks(step: Step) {
    step.Fatal? || (step.Failed? && IsFatal(Some(NormalizeLastError(step.text))))
  }

  /** A guarded row reads as fatal exactly if it was marked, or the text that first guarded it reads so. */
  lemma {:induction false} FatalAmongGuarded(s: State, steps: seq<Step>, same: Like.Matching)
    requires TakesItself(same) && !Stuck(s.lastError, same) && |Unguarded(steps, same)| < |steps|
    ensures IsFatal(Run(s, steps, same).lastError)
            <==> Marks(steps[|Unguarded(steps, same)|]) || exists step :: step in steps && step.Fatal?
  {
    var before, step := steps[..|steps| - 1], steps[|steps| - 1];
    assert steps == before + [step];
    assert forall x :: x in steps <==> x in before || x == step;
    UnguardedNext(before, step, same);
    GuardedExactly(s, before, same);
    var mid := Run(s, before, same);
    assert Run(s, steps, same) == Apply(mid, step, same);
    hide Run, Unguarded;
    if SomeGuards(before, same) {
      FatalAmongGuarded(s, before, same);
      hide SomeGuards, Marks, Guards;
      GuardedError(mid, step, same);
    } else {
      hide SomeGuards;
      GuardingError(s, before, mid, step, same);
    }
  }

  lemma GuardedError(s: State, step: Step, same: Like.Matching)
    requires TakesItself(same) && Stuck(s.lastError, same)
    ensures IsFatal(Apply(s, step, same).lastError) <==> IsFatal(s.lastError) || step.Fatal?
  {
    hide Stuck, IsFatal, FormatFatal, NormalizeLastError, Inserted;
    if step.Fatal? {
      MarkerIsFatal(step.code, step.text, same);
    }
  }

  lemma GuardingError(s: State, before: seq<Step>, mid: State, step: Step, same: Like.Matching)
    requires TakesItself(same) && !Stuck(mid.lastError, same) && Guards(step, same) && !SomeGuards(before, same)
    ensures IsFatal(Apply(mid, step, same).lastError) <==> Marks(step)
    ensures forall x :: x in before ==> !x.Fatal?
  {
    hide Stuck, IsFatal, FormatFatal, NormalizeLastError, Inserted;
    if step.Fatal? {
      MarkerIsFatal(step.code, step.text, same);
    }
    forall x | x in before ensures !x.Fatal? {
      assert !Guards(x, same);
    }
  }

  /** Persisting moves the cursor, after any run, as long as the row is not fatal: this holds exactly when
      nothing has guarded the row, or what guards it reads as fatal too. */
  lemma CursorFollowsWhileNotFatal(s: State, steps: seq<Step>, same: Like.Matching)
    requires TakesItself(same) && !Stuck(s.lastError, same)
    ensures (forall n: nat :: var end := Run(s, steps + [Advance(n)], same); IsFatal(end.lastError) || end.lastSeq >= n)
            <==> (|Unguarded(steps, same)| < |steps| ==>
                    Marks(steps[|Unguarded(steps, same)|]) || exists step :: step in steps && step.Fatal?)
  {
    var end := Run(s, steps, same);
    GuardedExactly(s, steps, same);
    UnguardedNext(steps, Connected, same);
    if |Unguarded(steps, same)| < |steps| {
      FatalAmongGuarded(s, steps, same);
    }
    hide Stuck, SomeGuards, Unguarded, Guards, Marks, IsFatal;
    forall n: nat ensures Run(s, steps + [Advance(n)], same) == Cursor(end, n, same) {
      assert (steps + [Advance(n)])[..|steps|] == steps;
    }
    if Stuck(end.lastError, same) {
      assert Run(s, steps + [Advance(end.lastSeq + 1)], same) == end;
    }
  }

  /** While no error text passes for a marker, the row is fatal exactly when it was marked, and as long as it
      is not, the cursor is the greatest number persisted. */
  lemma GreatestWhileNotFatal(s: State, steps: seq<Step>, same: Like.Matching)
    requires TakesItself(same) && !Stuck(s.lastError, same) && !IsFatal(s.lastError)
    requires forall step :: step in steps && step.Failed? ==> !Guards(step, same)
    ensures IsFatal(Run(s, steps, same).lastError) <==> exists step :: step in steps && step.Fatal?
    ensures !IsFatal(Run(s, steps, same).lastError) ==> Run(s, steps, same).lastSeq == Greatest(s.lastSeq, steps)
  {
    FatalFollowsGuard(s, steps, same);
    GuardedExactly(s, steps, same);
    CursorIsGreatest(s, steps, same);
    hide Stuck, Run, Greatest, Unguarded;
  }

  /** Reading as fatal in Go and being guarded in SQL agree over such runs. */
  lemma {:induction false} FatalFollowsGuard(s: State, steps: seq<Step>, same: Like.Matching)
    requires TakesItself(same) && !Stuck(s.lastError, same) && !IsFatal(s.lastError)
    requires forall step :: step in steps && step.Failed? ==> !Guards(step, same)
    ensures IsFatal(Run(s, steps, same).lastError) <==> Stuck(Run(s, steps, same).lastError, same)
  {
    if steps != [] {
      var before, step := steps[..|steps| - 1], steps[|steps| - 1];
      assert steps == before + [step] && step in steps;
      FatalFollowsGuard(s, before, same);
      var mid := Run(s, before, same);
      assert Run(s, steps, same) == Apply(mid, step, same);
      hide Run;
      StepFatal(mid, step, same);
    }
  }

  lemma StepFatal(s: State, step: Step, same: Like.Matching)
    requires TakesItself(same) && (step.Failed? ==> !Guards(step, same))
    requires IsFatal(s.lastError) <==> Stuck(s.lastError, same)
    ensures IsFatal(Apply(s, step, same).lastError) <==> Stuck(Apply(s, step, same).lastError, same)
  {
    hide Stuck, FormatFatal, NormalizeLastError, Inserted, IsFatal;
    NoErrorIsOpen(s.(lastError := None), same);
    if step.Fatal? {
      MarkerIsFatal(step.code, step.text, same);
    } else if step.Failed? && IsFatal(Some(NormalizeLastError(step.text))) {
      NormalizedStarts(step.text);
      FatalIsStuck(NormalizeLastError(step.text), same);
    }
  }

  /** Recording an error and connecting again clears it, exactly when the text does not guard the row. */
  lemma ConnectedClearsError(s: State, text: string, same: Like.Matching)
    requires TakesItself(same) && !Stuck(s.lastError, same)
    ensures var end := Run(s, [Failed(text), Connected], same);
            && (end.lastError == None <==> !Guards(Failed(text), same))
            && end.lastSeq == s.lastSeq && end.labels == s.labels
  {
    var steps := [Failed(text), Connected];
    assert steps[..1] == [Failed(text)] && [Failed(text)][..0] == [];
    assert Run(s, [Failed(text)], same) == Apply(s, Failed(text), same);
    assert Run(s, steps, same) == Apply(Apply(s, Failed(text), same), Connected, same);
    hide Stuck, Run, NormalizeLastError;
  }

  /** What UpdateError leaves in an open row: the trimmed text, or as many bytes of it as fit, never none. */
  lemma ErrorIsShown(s: State, text: string, same: Like.Matching)
    requires !Stuck(s.lastError, same)
    ensures var shown := Apply(s, Failed(text), same).lastError;
            && shown.Some? && shown.value.text != "" && Bytes(shown.value.text) + shown.value.stray <= MAX_LENGTH
            && (TrimSpace(text) != "" ==> shown.value.text <= TrimSpace(text))
            && (TrimSpace(text) != "" && Bytes(TrimSpace(text)) <= MAX_LENGTH ==> shown.value == Cut(TrimSpace(text), 0))
  {
    hide Stuck, Bytes, FirstBytes;
    NormalizedStarts(text);
    ClipIs(TrimSpace(text));
    BytesBound("unknown error");
  }

  /** What MarkFatalCursor leaves in any row: a fatal marker from which the code can be read back, unless it
      has a colon or does not fit; labels and cursor stay. */
  lemma MarkedCode(s: State, code: string, text: string, same: Like.Matching)
    requires TakesItself(same)
    ensures var marked := Apply(s, Fatal(code, text), same);
            && IsFatal(marked.lastError) && marked.lastSeq == s.lastSeq && marked.labels == s.labels
            && (FatalCode(marked.lastError) == Cut(NormalizeErrorCode(code), 0)
                <==> ':' !in NormalizeErrorCode(code) && Bytes(PREFIX + NormalizeErrorCode(code)) <= MAX_LENGTH)
  {
    hide FormatFatal, IsFatal, NormalizeErrorCode, FatalCode, Stuck;
    MarkerIsFatal(code, text, same);
    CodeRoundTrip(code, text);
  }

  /** A guarded row stays as it is, apart from labels being added and one marker replacing another. */
  lemma {:induction false} StuckStays(s: State, steps: seq<Step>, same: Like.Matching)
    requires TakesItself(same) && Stuck(s.lastError, same)
    ensures var end := Run(s, steps, same);
            Stuck(end.lastError, same) && end.lastSeq == s.lastSeq && (IsFatal(s.lastError) ==> IsFatal(end.lastError))
  {
    if steps != [] {
      StuckStays(s, steps[..|steps| - 1], same);
      StepStaysStuck(Run(s, steps[..|steps| - 1], same), steps[|steps| - 1], same);
      hide Stuck, Apply, IsFatal;
    }
  }

  lemma StepStaysStuck(s: State, step: Step, same: Like.Matching)
    requires TakesItself(same) && Stuck(s.lastError, same)
    ensures var next := Apply(s, step, same);
            Stuck(next.lastError, same) && next.lastSeq == s.lastSeq && (IsFatal(s.lastError) ==> IsFatal(next.lastError))
  {
    hide Stuck, FormatFatal, NormalizeLastError, Inserted, IsFatal;
    if step.Fatal? {
      MarkerIsFatal(step.code, step.text, same);
    }
  }

  /** Once a cursor is marked fatal no later operation clears the marker or moves the cursor. */
  lemma FatalIsSticky(s: State, code: string, text: string, steps: seq<Step>, same: Like.Matching)
    requires TakesItself(same)
    ensures var marked := Apply(s, Fatal(code, text), same);
            IsFatal(Run(marked, steps, same).lastError) && Run(marked, steps, same).lastSeq == s.lastSeq
  {
    hide Stuck, FormatFatal, NormalizeLastError, Inserted, IsFatal, Run;
    MarkerIsFatal(code, text, same);
    StuckStays(Apply(s, Fatal(code, text), same), steps, same);
  }

  /** Persisting an event again, in any later state of the labels, adds nothing. */
  lemma ReplayAddsNothing(s: State, event: Event, same: Like.Matching)
    requires forall i :: 0 <= i < |event.labels| ==> (event.number, i) in s.labels
    ensures Apply(s, Persist(event), same).labels == s.labels
  {
    hide Stuck;
  }

  /** A retryable error can freeze the cursor: its text passes for a marker in SQL but not in Go. Labels
      are then stored without the cursor moving. */
  lemma ErrorFreezesCursor(s: State, event: Event, same: Like.Matching) returns (text: string)
    requires TakesItself(same) && !Stuck(s.lastError, same) && event.number > s.lastSeq
    ensures var end := Run(s, [Failed(text), Persist(event)], same);
            end.lastSeq == s.lastSeq && !IsFatal(end.lastError) && end.labels == Inserted(s.labels, event)
  {
    text := StuckNotFatal(same);
    var failed := Apply(s, Failed(text), same);
    assert [Failed(text), Persist(event)][..1] == [Failed(text)];
    assert [Failed(text)][..0] == [];
    assert Run(s, [Failed(text)], same) == failed;
  }

  // ----- The subscriber -----

  /** How a connection ends, after some events have arrived. */
  datatype Ending =
    | Closed
    | Broken(reason: string)
    | ErrorFrame(name: string, message: string)
    | OutdatedInfo(message: string)

  /** One connection: whether it comes about, which event fails to be stored, how it ends, and which of the
      statements that only keep the books fail. */
  datatype Session = Session(
    ensureFails: bool, dialError: Option<string>, connectFails: bool,
    arriving: nat, storeFails: Option<nat>, ending: Ending, markFails: bool,
    noteFails: bool, retryNoteFails: bool)

  /** Whether the stream gets read. */
  predicate Connects(session: Session) {
    !session.ensureFails && session.dialError.None? && !session.connectFails
  }

  /** The whole stream, in the order the labeler numbers it. */
  ghost predicate Ascending(stream: seq<Event>) {
    (forall i, j :: 0 <= i < j < |stream| ==> stream[i].number < stream[j].number)
    && (forall i :: 0 <= i < |stream| ==> stream[i].number > 0)
  }

  /** The labels of the first events of the stream. */
  function FirstLabels(stream: seq<Event>, n: nat): Labels
    requires n <= |stream|
  {
    if n == 0 then map[] else Inserted(FirstLabels(stream, n - 1), stream[n - 1])
  }

  /** The table holds exactly the labels of the events up to the cursor. */
  ghost predicate UpToCursor(s: State, stream: seq<Event>, n: nat) {
    n <= |stream| && s.labels == FirstLabels(stream, n) && s.lastSeq == if n == 0 then 0 else stream[n - 1].number
  }

  ghost predicate Consistent(s: State, stream: seq<Event>) {
    exists n :: UpToCursor(s, stream, n)
  }

  lemma InsertedAt(labels: Labels, event: Event, key: (nat, nat))
    ensures key in Inserted(labels, event) <==> key in labels || (key.0 == event.number && key.1 < |event.labels|)
    ensures key in labels ==> Inserted(labels, event)[key] == labels[key]
    ensures key !in labels && key.0 == event.number && key.1 < |event.labels| ==> Inserted(labels, event)[key] == event.labels[key.1]
  {
  }

  /** The key is that of a label of the event at `i`. */
  predicate LabelAt(stream: seq<Event>, i: nat, key: (nat, nat)) {
    i < |stream| && stream[i].number == key.0 && key.1 < |stream[i].labels|
  }

  /** What FirstLabels means: an entry for every label of every event numbered up to the cursor, and no other. */
  lemma {:induction false} FirstLabelsAre(stream: seq<Event>, n: nat, key: (nat, nat))
    requires n <= |stream| && Ascending(stream)
    ensures key in FirstLabels(stream, n) <==> exists i: nat :: i < n && LabelAt(stream, i, key)
    ensures forall i: nat :: i < n && LabelAt(stream, i, key) ==>
              key in FirstLabels(stream, n) && key.1 < |stream[i].labels| && FirstLabels(stream, n)[key] == stream[i].labels[key.1]
  {
    if n > 0 {
      FirstLabelsNext(stream, n);
      FirstLabelsAre(stream, n - 1, key);
      InsertedAt(FirstLabels(stream, n - 1), stream[n - 1], key);
      NumbersDiffer(stream, n, key);
      hide Inserted, FirstLabels, Ascending, LabelAt;
    }
  }

  lemma FirstLabelsNext(stream: seq<Event>, n: nat)
    requires 0 < n <= |stream|
    ensures FirstLabels(stream, n) == Inserted(FirstLabels(stream, n - 1), stream[n - 1])
  {
  }

  lemma NumbersDiffer(stream: seq<Event>, n: nat, key: (nat, nat))
    requires 0 < n <= |stream| && Ascending(stream)
    ensures LabelAt(stream, n - 1, key) <==> key.0 == stream[n - 1].number && key.1 < |stream[n - 1].labels|
    ensures LabelAt(stream, n - 1, key) ==> forall i: nat :: i < n - 1 ==> !LabelAt(stream, i, key)
  {
    assert forall i :: 0 <= i < n - 1 ==> stream[i].number < stream[n - 1].number;
  }

  lemma CursorSplits(s: State, stream: seq<Event>, n: nat)
    requires Ascending(stream) && UpToCursor(s, stream, n)
    ensures n <= |stream|
    ensures forall i :: 0 <= i < |stream| ==> (stream[i].number <= s.lastSeq <==> i < n)
  {
  }

  /** Persisting the next event keeps the table at the cursor. */
  lemma NextEvent(s: State, stream: seq<Event>, n: nat, same: Like.Matching)
    requires Ascending(stream) && UpToCursor(s, stream, n) && n < |stream| && !Stuck(s.lastError, same)
    ensures UpToCursor(Apply(s, Persist(stream[n]), same), stream, n + 1)
    ensures Apply(s, Persist(stream[n]), same).lastError == None
  {
    hide Stuck, Inserted;
  }

  /** A text that does not begin like a marker, with or without case. */
  ghost predicate OpenText(text: string) {
    text != "" && !IsSpace(text[0]) && text[0] !in {'F', 'f'}
  }

  /** LIKE may ignore case, but tells other letters from F. */
  ghost predicate TellsF(same: Like.Matching) {
    forall a :: same(a, 'F') ==> a in {'F', 'f'}
  }

  lemma OpenTextIsOpen(text: string, same: Like.Matching)
    requires OpenText(text) && TellsF(same)
    ensures !Stuck(Some(NormalizeLastError(text)), same)
  {
    OpenTextKept(text);
    PrefixStarts();
    hide NormalizeLastError, Stuck;
    StuckIs(NormalizeLastError(text), same);
  }

  lemma OpenTextKept(text: string)
    requires OpenText(text)
    ensures NormalizeLastError(text).text != "" && NormalizeLastError(text).text[0] == text[0]
  {
    assert TrimLeft(text) == text;
    TrimRightKeeps(text, 0);
    hide NormalizeLastError;
    NormalizedStarts(text);
  }

  /** The row is guarded exactly if it is fatal, and its labels stop at the cursor. */
  ghost predicate Good(s: State, stream: seq<Event>, same: Like.Matching) {
    Consistent(s, stream) && (Stuck(s.lastError, same) <==> IsFatal(s.lastError))
  }

  lemma StepsKeepGood(s: State, stream: seq<Event>, same: Like.Matching, text: string, code: string)
    requires Good(s, stream, same) && TakesItself(same) && TellsF(same)
    ensures OpenText(text) ==> Good(Apply(s, Failed(text), same), stream, same)
    ensures Good(Apply(s, Fatal(code, text), same), stream, same) && IsFatal(Apply(s, Fatal(code, text), same).lastError)
    ensures Good(Apply(s, Connected, same), stream, same)
  {
    var n :| UpToCursor(s, stream, n);
    assert UpToCursor(Apply(s, Connected, same), stream, n);
    assert UpToCursor(Apply(s, Failed(text), same), stream, n);
    assert UpToCursor(Apply(s, Fatal(code, text), same), stream, n);
    if OpenText(text) {
      OpenTextIsOpen(text, same);
      OpenTextNotFatal(text);
    }
    MarkerIsFatal(code, text, same);
    NoErrorIsOpen(s.(lastError := None), same);
    hide Stuck, IsFatal, FormatFatal, NormalizeLastError;
  }

  datatype Outcome = Ended | Retry(text: string) | Stop

  function ResetMessage(code: string, message: string): string {
    var base, text := "Reset subscription cursor and replay labels.", TrimSpace(message);
    if text == "" then
      (if code == "FutureCursor" then "Cursor is in the future. " else "Cursor is outside retained history. ") + base
    else (if text[|text| - 1] in {'.', '!', '?'} then text else text + ".") + " " + base
  }

  /** How far into the stream a connection gets that starts after `n` events. */
  function Arrive(n: nat, session: Session, total: nat): nat {
    if !Connects(session) then n
    else
      var stored := if session.storeFails.Some? && session.storeFails.value < session.arriving then session.storeFails.value
                    else session.arriving;
      if n + stored <= total then n + stored else if n <= total then total else n
  }

  /** Whether everything that arrives is stored. */
  predicate StoresAll(n: nat, session: Session, total: nat) {
    session.storeFails.Some? && session.storeFails.value < session.arriving ==> n + session.storeFails.value >= total
  }

  /** Whether a connection ends in a fatal cursor. */
  predicate EndsFatal(n: nat, session: Session, total: nat) {
    && Connects(session) && StoresAll(n, session, total) && !session.markFails
    && (session.ending.OutdatedInfo? || (session.ending.ErrorFrame? && session.ending.name == "FutureCursor"))
  }

  /** How far a run of connections gets, stopping at a fatal one. */
  function Progress(n: nat, sessions: seq<Session>, total: nat): nat
    decreases |sessions|
  {
    if sessions == [] then n
    else if EndsFatal(n, sessions[0], total) then Arrive(n, sessions[0], total)
    else Progress(Arrive(n, sessions[0], total), sessions[1..], total)
  }

  predicate MeetsFatal(n: nat, sessions: seq<Session>, total: nat)
    decreases |sessions|
  {
    sessions != []
    && (EndsFatal(n, sessions[0], total) || MeetsFatal(Arrive(n, sessions[0], total), sessions[1..], total))
  }

  /** Marks the cursor as fatal and stops, or reports that it could not be marked. */
  method RecordFatal(repo: Repository, stream: seq<Event>, code: string, message: string, fails: bool, ghost n: nat)
    returns (outcome: Outcome)
    requires Good(repo.state, stream, repo.same) && TakesItself(repo.same) && TellsF(repo.same)
    requires UpToCursor(repo.state, stream, n)
    modifies repo`state
    ensures Good(repo.state, stream, repo.same) && UpToCursor(repo.state, stream, n)
    ensures if fails then repo.state == old(repo.state) else IsFatal(repo.state.lastError)
    ensures repo.state.lastSeq == old(repo.state).lastSeq
    ensures outcome == Stop <==> !fails
    ensures outcome.Retry? ==> OpenText(outcome.text)
  {
    hide *;
    StepsKeepGood(repo.state, stream, repo.same, ResetMessage(code, message), code);
    StepsKeepPosition(repo.state, stream, n, repo.same, ResetMessage(code, message), code);
    var marked := repo.MarkFatalCursor(code, ResetMessage(code, message), fails);
    if !marked {
      LiteralsAreOpen("record fatal labeler subscription error " + code);
      return Retry("handle labeler stream: " + ("record fatal labeler subscription error " + code));
    }
    return Stop;
  }

  /** How the stream's last message or error ends the connection. */
  method EndStream(repo: Repository, stream: seq<Event>, session: Session, ghost n: nat) returns (outcome: Outcome)
    requires Good(repo.state, stream, repo.same) && TakesItself(repo.same) && TellsF(repo.same)
    requires UpToCursor(repo.state, stream, n) && !IsFatal(repo.state.lastError)
    modifies repo`state
    ensures Good(repo.state, stream, repo.same) && UpToCursor(repo.state, stream, n)
    ensures repo.state.lastSeq == old(repo.state).lastSeq
    ensures outcome == Stop <==> IsFatal(repo.state.lastError)
    ensures outcome == Stop
            <==> !session.markFails
                 && (session.ending.OutdatedInfo? || (session.ending.ErrorFrame? && session.ending.name == "FutureCursor"))
    ensures outcome.Retry? ==> OpenText(outcome.text)
  {
    hide *;
    match session.ending
    case Closed => return Ended;
    case Broken(reason) =>
      LiteralsAreOpen(reason);
      return Retry("handle labeler stream: " + reason);
    case OutdatedInfo(message) =>
      outcome := RecordFatal(repo, stream, "OutdatedCursor", message, session.markFails, n);
    case ErrorFrame(name, message) =>
      if name == "FutureCursor" {
        outcome := RecordFatal(repo, stream, name, message, session.markFails, n);
        return;
      }
      var detail := name + (if message == "" then "" else ": " + message);
      var text := "labeler stream error: " + detail;
      LiteralsAreOpen(detail);
      StepsKeepGood(repo.state, stream, repo.same, text, "");
      StepsKeepPosition(repo.state, stream, n, repo.same, text, "");
      FailedIsOpen(repo.state, text, repo.same);
      var noted := repo.UpdateError(text, session.noteFails);
      LiteralsAreOpen(text);
      return Retry("handle labeler stream: " + text);
  }

  /** One connection. The events past the stored cursor arrive in order and are stored one by one, as many
      as arrive and can be stored, whichever statements fail; a fatal row is left alone. */
  method RunOnce(repo: Repository, stream: seq<Event>, session: Session, ghost n: nat) returns (outcome: Outcome)
    requires Ascending(stream) && Good(repo.state, stream, repo.same) && TakesItself(repo.same) && TellsF(repo.same)
    requires UpToCursor(repo.state, stream, n)
    modifies repo`state
    ensures Good(repo.state, stream, repo.same)
    ensures IsFatal(old(repo.state).lastError) || session.ensureFails ==> repo.state == old(repo.state)
    ensures !IsFatal(old(repo.state).lastError) ==>
              UpToCursor(repo.state, stream, Arrive(n, session, |stream|)) && (outcome == Stop <==> EndsFatal(n, session, |stream|))
    ensures outcome == Stop <==> IsFatal(repo.state.lastError) && !session.ensureFails
    ensures outcome.Retry? ==> OpenText(outcome.text)
    ensures repo.state.lastSeq >= old(repo.state).lastSeq
  {
    ArriveIs(n, session, |stream|);
    hide *;
    if session.ensureFails {
      LiteralsAreOpen("");
      return Retry("ensure labeler subscription state: ");
    }
    if IsFatal(repo.state.lastError) {
      return Stop;
    }
    if session.dialError.Some? {
      LiteralsAreOpen(session.dialError.value);
      return Retry("connect to labeler subscription: " + session.dialError.value);
    }
    StepsKeepGood(repo.state, stream, repo.same, "", "");
    StepsKeepPosition(repo.state, stream, n, repo.same, "", "");
    ConnectedIsOpen(repo.state, stream, repo.same);
    var connected := repo.UpdateConnected(session.connectFails);
    if !connected {
      LiteralsAreOpen("");
      return Retry("record labeler connection: ");
    }
    var stored := StoreEvents(repo, stream, session, n);
    if !stored {
      LiteralsAreOpen("persist labeler labels");
      return Retry("handle labeler stream: " + "persist labeler labels");
    }
    outcome := EndStream(repo, stream, session, Arrive(n, session, |stream|));
  }

  lemma ArriveIs(n: nat, session: Session, total: nat)
    ensures !Connects(session) ==> Arrive(n, session, total) == n
    ensures Connects(session) <==> !session.ensureFails && session.dialError.None? && !session.connectFails
    ensures EndsFatal(n, session, total)
            <==> Connects(session) && StoresAll(n, session, total) && !session.markFails
                 && (session.ending.OutdatedInfo? || (session.ending.ErrorFrame? && session.ending.name == "FutureCursor"))
  {
  }

  /** Errors, markers and connections leave labels and cursor where they are. */
  lemma StepsKeepPosition(s: State, stream: seq<Event>, n: nat, same: Like.Matching, text: string, code: string)
    requires UpToCursor(s, stream, n)
    ensures UpToCursor(Apply(s, Connected, same), stream, n) && Apply(s, Connected, same).lastSeq == s.lastSeq
    ensures UpToCursor(Apply(s, Failed(text), same), stream, n) && Apply(s, Failed(text), same).lastSeq == s.lastSeq
    ensures UpToCursor(Apply(s, Fatal(code, text), same), stream, n) && Apply(s, Fatal(code, text), same).lastSeq == s.lastSeq
  {
    hide Stuck, FormatFatal, NormalizeLastError, FirstLabels;
  }

  method StoreEvents(repo: Repository, stream: seq<Event>, session: Session, ghost n: nat) returns (stored: bool)
    requires Ascending(stream) && Good(repo.state, stream, repo.same) && TakesItself(repo.same) && TellsF(repo.same)
    requires UpToCursor(repo.state, stream, n) && Connects(session)
    requires !Stuck(repo.state.lastError, repo.same) && !IsFatal(repo.state.lastError)
    modifies repo`state
    ensures Good(repo.state, stream, repo.same) && !IsFatal(repo.state.lastError)
    ensures UpToCursor(repo.state, stream, Arrive(n, session, |stream|))
    ensures stored <==> StoresAll(n, session, |stream|)
    ensures repo.state.lastSeq >= old(repo.state).lastSeq
  {
    hide *;
    var next := 0;
    var cursor := repo.state.lastSeq;
    CursorSplits(repo.state, stream, n);
    while next < |stream| && stream[next].number <= cursor
      invariant 0 <= next <= n <= |stream|
    {
      next := next + 1;
    }
    assert next == n;
    for k := 0 to session.arriving
      invariant next <= |stream| && next == n + k && UpToCursor(repo.state, stream, next)
      invariant session.storeFails.Some? ==> k <= session.storeFails.value
      invariant !Stuck(repo.state.lastError, repo.same) && !IsFatal(repo.state.lastError)
      invariant repo.state.lastSeq >= old(repo.state).lastSeq
    {
      if next == |stream| {
        GoodFrom(repo.state, stream, next, repo.same);
        AllStored(n, session, |stream|, k);
        return true;
      }
      NextEvent(repo.state, stream, next, repo.same);
      PersistForward(repo.state, stream[next], repo.same);
      var ok := repo.PersistEvent(stream[next], session.storeFails == Some(k));
      if !ok {
        GoodFrom(repo.state, stream, next, repo.same);
        LiteralsAreOpen("");
        StepsKeepGood(repo.state, stream, repo.same, "persist labeler labels: ", "");
        StepsKeepPosition(repo.state, stream, next, repo.same, "persist labeler labels: ", "");
        FailedIsOpen(repo.state, "persist labeler labels: ", repo.same);
        var noted := repo.UpdateError("persist labeler labels: ", session.noteFails);
        StoringFailed(n, session, |stream|);
        return false;
      }
      next := next + 1;
      NoErrorIsOpen(repo.state, repo.same);
    }
    GoodFrom(repo.state, stream, next, repo.same);
    EverythingStored(n, session, |stream|);
    return true;
  }

  lemma AllStored(n: nat, session: Session, total: nat, k: nat)
    requires Connects(session) && n + k == total && k < session.arriving
    requires session.storeFails.Some? ==> k <= session.storeFails.value
    ensures Arrive(n, session, total) == total && StoresAll(n, session, total)
  {
  }

  lemma StoringFailed(n: nat, session: Session, total: nat)
    ensures Connects(session) && session.storeFails.Some? && session.storeFails.value < session.arriving
            && n + session.storeFails.value < total ==>
              Arrive(n, session, total) == n + session.storeFails.value && !StoresAll(n, session, total)
  {
  }

  lemma EverythingStored(n: nat, session: Session, total: nat)
    requires Connects(session) && n + session.arriving <= total
    requires session.storeFails.Some? ==> session.arriving <= session.storeFails.value
    ensures Arrive(n, session, total) == n + session.arriving && StoresAll(n, session, total)
  {
  }

  /** Reconnects until the cursor is fatal or the service stops. It gets exactly as far as the connections
      let it and stops exactly at the first fatal cursor, leaving a fatal row alone. */
  method RunSubscription(repo: Repository, stream: seq<Event>, sessions: seq<Session>, ghost n: nat) returns (stopped: bool)
    requires Ascending(stream) && Good(repo.state, stream, repo.same) && TakesItself(repo.same) && TellsF(repo.same)
    requires UpToCursor(repo.state, stream, n)
    modifies repo`state
    ensures Good(repo.state, stream, repo.same)
    ensures repo.state.lastSeq >= old(repo.state).lastSeq
    ensures IsFatal(old(repo.state).lastError) ==>
              repo.state == old(repo.state) && (stopped <==> exists session :: session in sessions && !session.ensureFails)
    ensures !IsFatal(old(repo.state).lastError) ==>
              UpToCursor(repo.state, stream, Progress(n, sessions, |stream|)) && (stopped <==> MeetsFatal(n, sessions, |stream|))
    ensures !IsFatal(old(repo.state).lastError) ==> (stopped <==> IsFatal(repo.state.lastError))
  {
    hide *;
    ghost var m := n;
    assert sessions[0..] == sessions;
    for i := 0 to |sessions|
      invariant Good(repo.state, stream, repo.same) && UpToCursor(repo.state, stream, m)
      invariant repo.state.lastSeq >= old(repo.state).lastSeq
      invariant IsFatal(old(repo.state).lastError) ==>
                  repo.state == old(repo.state) && forall session :: session in sessions[..i] ==> session.ensureFails
      invariant !IsFatal(old(repo.state).lastError) ==> !IsFatal(repo.state.lastError)
      invariant Progress(n, sessions, |stream|) == Progress(m, sessions[i..], |stream|)
      invariant MeetsFatal(n, sessions, |stream|) <==> MeetsFatal(m, sessions[i..], |stream|)
    {
      assert sessions[i..][0] == sessions[i] && sessions[i..][1..] == sessions[i + 1..];
      assert sessions[..i + 1] == sessions[..i] + [sessions[i]] && sessions[i] in sessions;
      ProgressNext(m, sessions[i..], |stream|);
      ArriveIs(m, sessions[i], |stream|);
      var outcome := RunOnce(repo, stream, sessions[i], m);
      if outcome == Stop {
        return true;
      }
      m := Arrive(m, sessions[i], |stream|);
      if outcome.Retry? {
        FailedKeepsFatal(repo.state, outcome.text, stream, repo.same);
        StepsKeepGood(repo.state, stream, repo.same, outcome.text, "");
        StepsKeepPosition(repo.state, stream, m, repo.same, outcome.text, "");
        FailedIsOpen(repo.state, outcome.text, repo.same);
        var noted := repo.UpdateError(outcome.text, sessions[i].retryNoteFails);
      }
    }
    assert sessions[|sessions|..] == [];
    ProgressNext(m, [], |stream|);
    return false;
  }

  lemma FailedKeepsFatal(s: State, text: string, stream: seq<Event>, same: Like.Matching)
    requires Good(s, stream, same)
    ensures IsFatal(s.lastError) ==> Apply(s, Failed(text), same) == s
  {
    hide Consistent;
  }

  lemma ProgressNext(n: nat, sessions: seq<Session>, total: nat)
    ensures sessions == [] ==> Progress(n, sessions, total) == n && !MeetsFatal(n, sessions, total)
    ensures sessions != [] ==>
              var m := Arrive(n, sessions[0], total);
              if EndsFatal(n, sessions[0], total) then Progress(n, sessions, total) == m && MeetsFatal(n, sessions, total)
              else Progress(n, sessions, total) == Progress(m, sessions[1..], total)
                   && (MeetsFatal(n, sessions, total) <==> MeetsFatal(m, sessions[1..], total))
  {
  }

  /** The subscriber's own error texts never look like a marker. */
  lemma LiteralsAreOpen(rest: string)
    ensures OpenText("connect to labeler subscription: " + rest) && OpenText("handle labeler stream: " + rest)
    ensures OpenText("labeler stream error: " + rest) && OpenText("persist labeler labels: ")
    ensures OpenText("ensure labeler subscription state: ") && OpenText("record labeler connection: ")
  {
  }

  lemma ConnectedIsOpen(s: State, stream: seq<Event>, same: Like.Matching)
    requires Good(s, stream, same) && !IsFatal(s.lastError)
    ensures var next := Apply(s, Connected, same);
            !Stuck(next.lastError, same) && !IsFatal(next.lastError) && next.lastSeq == s.lastSeq
  {
    hide Consistent;
  }

  lemma NoErrorIsOpen(s: State, same: Like.Matching)
    ensures s.lastError == None ==> !Stuck(s.lastError, same) && !IsFatal(s.lastError)
  {
  }

  lemma PersistForward(s: State, event: Event, same: Like.Matching)
    ensures Apply(s, Persist(event), same).lastSeq >= s.lastSeq
  {
  }

  lemma GoodFrom(s: State, stream: seq<Event>, n: nat, same: Like.Matching)
    requires UpToCursor(s, stream, n) && !Stuck(s.lastError, same) && !IsFatal(s.lastError)
    ensures Good(s, stream, same)
  {
    hide UpToCursor;
  }

  lemma OpenTextNotFatal(text: string)
    requires OpenText(text)
    ensures !IsFatal(Some(NormalizeLastError(text)))
  {
    OpenTextKept(text);
    PrefixStarts();
    var error := NormalizeLastError(text);
    hide NormalizeLastError, Trim;
    TrimKeeps(error, 0);
    assert Trim(error).text[0] == text[0];
  }

  lemma FailedIsOpen(s: State, text: string, same: Like.Matching)
    requires OpenText(text)
    ensures var next := Apply(s, Failed(text), same);
            next.lastSeq == s.lastSeq && (!IsFatal(s.lastError) ==> !IsFatal(next.lastError))
  {
    OpenTextNotFatal(text);
    hide IsFatal, NormalizeLastError;
  }
}
