/** Replaying a log of idempotent writes. Each write leaves one piece of state alone, overwrites it, or
    fills it in where it is not already of the same kind; such logs can be resumed from any earlier
    position, any number of times, and still end in the state of one clean pass. */
module Redelivery {
  import opened Text

  /** The effect of a word of writes on one piece of state; `Fill` keeps states of its own kind. */
  datatype Act<S> = Id | Const(value: S) | Fill(kind: string, value: S)

  /** A fill only fills in states that are not of its kind, with one that is. */
  predicate ValidAct<S>(kindOf: S -> Option<string>, a: Act<S>) {
    a.Fill? ==> kindOf(a.value) == Some(a.kind)
  }

  function Do<S>(kindOf: S -> Option<string>, a: Act<S>, s: S): S {
    match a
    case Id => s
    case Const(v) => v
    case Fill(k, v) => if kindOf(s) == Some(k) then s else v
  }

  /** One effect after another is again such an effect. */
  function Then<S>(kindOf: S -> Option<string>, a: Act<S>, b: Act<S>): Act<S> {
    match b
    case Id => a
    case Const(_) => b
    case Fill(k, w) =>
      match a
      case Id => b
      case Const(v) => Const(Do(kindOf, b, v))
      case Fill(k0, _) => if k0 == k then a else Const(w)
  }

  lemma ThenIsComposition<S>(kindOf: S -> Option<string>, a: Act<S>, b: Act<S>, s: S)
    requires ValidAct(kindOf, a) && ValidAct(kindOf, b)
    ensures ValidAct(kindOf, Then(kindOf, a, b))
    ensures Do(kindOf, Then(kindOf, a, b), s) == Do(kindOf, b, Do(kindOf, a, s))
  {
  }

  ghost predicate ValidWord<S>(kindOf: S -> Option<string>, w: seq<Act<S>>) {
    forall a :: a in w ==> ValidAct(kindOf, a)
  }

  function DoAll<S>(kindOf: S -> Option<string>, w: seq<Act<S>>, s: S): S {
    if w == [] then s else DoAll(kindOf, w[1..], Do(kindOf, w[0], s))
  }

  function Summary<S>(kindOf: S -> Option<string>, w: seq<Act<S>>): Act<S> {
    if w == [] then Id else Then(kindOf, Summary(kindOf, w[..|w| - 1]), w[|w| - 1])
  }

  lemma {:induction false} DoAllConcat<S>(kindOf: S -> Option<string>, a: seq<Act<S>>, b: seq<Act<S>>, s: S)
    ensures DoAll(kindOf, a + b, s) == DoAll(kindOf, b, DoAll(kindOf, a, s))
  {
    if a == [] {
      assert a + b == b;
    } else {
      assert (a + b)[1..] == a[1..] + b;
      DoAllConcat(kindOf, a[1..], b, Do(kindOf, a[0], s));
    }
  }

  lemma {:induction false} SummaryDoes<S>(kindOf: S -> Option<string>, w: seq<Act<S>>, s: S)
    requires ValidWord(kindOf, w)
    ensures ValidAct(kindOf, Summary(kindOf, w))
    ensures Do(kindOf, Summary(kindOf, w), s) == DoAll(kindOf, w, s)
  {
    if w != [] {
      var before, last := w[..|w| - 1], w[|w| - 1];
      assert w == before + [last];
      SummaryDoes(kindOf, before, s);
      ThenIsComposition(kindOf, Summary(kindOf, before), last, s);
      DoAllConcat(kindOf, before, [last], s);
    }
  }

  /** The absorption law: where replaying from the later position already gives what replaying from the
      earlier one gives, doing the later part first changes nothing. */
  lemma ActsAbsorb<S>(kindOf: S -> Option<string>, y1: Act<S>, z: Act<S>, y2: Act<S>, s: S)
    requires ValidAct(kindOf, y1) && ValidAct(kindOf, z) && ValidAct(kindOf, y2)
    requires Do(kindOf, y2, Do(kindOf, z, Do(kindOf, y1, s))) == Do(kindOf, y2, Do(kindOf, z, s))
    ensures var after := Do(kindOf, z, s);
            Do(kindOf, y2, Do(kindOf, z, Do(kindOf, y1, after))) == Do(kindOf, y2, Do(kindOf, z, Do(kindOf, y1, s)))
  {
  }

  lemma WordsAbsorb<S>(kindOf: S -> Option<string>, y1: seq<Act<S>>, z: seq<Act<S>>, y2: seq<Act<S>>, s: S)
    requires ValidWord(kindOf, y1) && ValidWord(kindOf, z) && ValidWord(kindOf, y2)
    requires DoAll(kindOf, y1 + z + y2, s) == DoAll(kindOf, z + y2, s)
    ensures DoAll(kindOf, z + (y1 + z + y2), s) == DoAll(kindOf, y1 + z + y2, s)
  {
    forall t ensures DoAll(kindOf, y1 + z + y2, t)
                     == Do(kindOf, Summary(kindOf, y2), Do(kindOf, Summary(kindOf, z), Do(kindOf, Summary(kindOf, y1), t)))
    {
      DoAllConcat(kindOf, y1 + z, y2, t);
      DoAllConcat(kindOf, y1, z, t);
      SummaryDoes(kindOf, y1, t);
      SummaryDoes(kindOf, z, DoAll(kindOf, y1, t));
      SummaryDoes(kindOf, y2, DoAll(kindOf, z, DoAll(kindOf, y1, t)));
    }
    hide DoAll, Do, Summary;
    DoAllConcat(kindOf, z, y2, s);
    SummaryDoes(kindOf, y1, s);
    SummaryDoes(kindOf, z, s);
    SummaryDoes(kindOf, y2, DoAll(kindOf, z, s));
    DoAllConcat(kindOf, z, y1 + z + y2, s);
    ActsAbsorb(kindOf, Summary(kindOf, y1), Summary(kindOf, z), Summary(kindOf, y2), s);
  }

  // ----- Runs with redelivery -----

  /** A stretch of the log, done in order. */
  datatype Segment = Segment(from: nat, to: nat)

  function EndOf(run: seq<Segment>): nat {
    if run == [] then 0 else run[|run| - 1].to
  }

  function HighWater(run: seq<Segment>): nat {
    if run == [] then 0
    else
      var before := HighWater(run[..|run| - 1]);
      if before < run[|run| - 1].to then run[|run| - 1].to else before
  }

  /** Every stretch starts where the last one stopped, or anywhere before: nothing is skipped. */
  predicate ValidRun(log: nat, run: seq<Segment>) {
    run == [] || (ValidRun(log, run[..|run| - 1]) && run[|run| - 1].from <= EndOf(run[..|run| - 1])
                  && run[|run| - 1].from <= run[|run| - 1].to <= log)
  }

  /** Everything a run does, in order. */
  function Trace<T>(log: seq<T>, run: seq<Segment>): seq<T>
    requires ValidRun(|log|, run)
  {
    if run == [] then []
    else Trace(log, run[..|run| - 1]) + log[run[|run| - 1].from..run[|run| - 1].to]
  }

  lemma RunExtends<T>(log: seq<T>, run: seq<Segment>, next: Segment)
    requires ValidRun(|log|, run) && next.from <= EndOf(run) && next.from <= next.to <= |log|
    ensures ValidRun(|log|, run + [next]) && EndOf(run + [next]) == next.to
    ensures HighWater(run + [next]) == if HighWater(run) < next.to then next.to else HighWater(run)
    ensures Trace(log, run + [next]) == Trace(log, run) + log[next.from..next.to]
  {
    assert (run + [next])[..|run|] == run;
  }

  /** A run that stops anywhere, after any rewinds and repeats, and is then continued to a point not yet
      undone, ends where one clean pass to that point ends. */
  lemma {:induction false} RunsConverge<S>(kindOf: S -> Option<string>, log: seq<Act<S>>, run: seq<Segment>, resume: nat, end: nat, s: S)
    requires ValidWord(kindOf, log) && ValidRun(|log|, run)
    requires resume <= EndOf(run) && HighWater(run) <= end <= |log| && resume <= end
    ensures DoAll(kindOf, Trace(log, run) + log[resume..end], s) == DoAll(kindOf, log[..end], s)
    decreases |run|
  {
    hide DoAll;
    if run == [] {
      assert resume == 0 && Trace(log, run) + log[resume..end] == log[..end];
    } else {
      var before, last := run[..|run| - 1], run[|run| - 1];
      var t := DoAll(kindOf, Trace(log, before), s);
      RunsConverge(kindOf, log, before, last.from, end, s);
      DoAllConcat(kindOf, Trace(log, before), log[last.from..end], s);
      var z := log[last.from..last.to];
      assert Trace(log, run) + log[resume..end] == Trace(log, before) + (z + log[resume..end]);
      DoAllConcat(kindOf, Trace(log, before), z + log[resume..end], s);
      if resume < last.from {
        RunsConverge(kindOf, log, before, resume, end, s);
        DoAllConcat(kindOf, Trace(log, before), log[resume..end], s);
        RewindBefore(kindOf, log, resume, last, end, t);
      } else {
        RewindWithin(kindOf, log, resume, last, end, t);
      }
    }
  }

  lemma RewindBefore<S>(kindOf: S -> Option<string>, log: seq<Act<S>>, resume: nat, last: Segment, end: nat, t: S)
    requires ValidWord(kindOf, log) && resume <= last.from <= last.to <= end <= |log|
    requires DoAll(kindOf, log[resume..end], t) == DoAll(kindOf, log[last.from..end], t)
    ensures DoAll(kindOf, log[last.from..last.to] + log[resume..end], t) == DoAll(kindOf, log[resume..end], t)
  {
    hide DoAll;
    var y1, z, y2 := log[resume..last.from], log[last.from..last.to], log[last.to..end];
    assert log[resume..end] == y1 + z + y2 && log[last.from..end] == z + y2;
    WordsAbsorb(kindOf, y1, z, y2, t);
  }

  lemma RewindWithin<S>(kindOf: S -> Option<string>, log: seq<Act<S>>, resume: nat, last: Segment, end: nat, t: S)
    requires ValidWord(kindOf, log) && last.from <= resume <= last.to <= end <= |log|
    ensures DoAll(kindOf, log[last.from..last.to] + log[resume..end], t) == DoAll(kindOf, log[last.from..end], t)
  {
    hide DoAll;
    var y, z, rest := log[last.from..resume], log[resume..last.to], log[last.to..end];
    var u := DoAll(kindOf, y, t);
    assert log[last.from..last.to] + log[resume..end] == y + (z + (z + rest));
    assert log[last.from..end] == y + (z + rest);
    DoAllConcat(kindOf, y, z + (z + rest), t);
    DoAllConcat(kindOf, y, z + rest, t);
    assert [] + z + rest == z + rest;
    WordsAbsorb(kindOf, [], z, rest, u);
  }
}
