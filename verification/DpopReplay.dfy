/** DPoP proofs (section 11.1 of RFC 9449) over whole runs: age check, check-and-insert on the jti table
    by concurrent requests of both acceptors, and the cleanup that forgets old entries. */
module DpopReplay {

  /** Entries older than this are cleaned up. */
  const RETENTION := 3600
  const FUTURE_SKEW := 60
  const DEFAULT_MAX_AGE := 300

  datatype Proof = Proof(jti: string, iat: int)

  /** A request between its steps: verified at a time, then found unused. */
  datatype Request = Verified(proof: Proof, at: int) | Unused(proof: Proof, at: int)

  /** The clock, the stored jtis with their iat, the requests under way and the proofs accepted so far. */
  datatype State = State(now: int, stored: map<string, int>, open: map<nat, Request>, accepted: multiset<Proof>)

  datatype Step =
    | Tick(seconds: nat)
    | Verify(request: nat, proof: Proof, maxAge: int)
    | Exists(request: nat)
    | Insert(request: nat)
    | Cleanup(cutoff: int)

  /** The age window of a proof. */
  predicate InWindow(now: int, iat: int, maxAge: int) {
    now - iat <= maxAge && iat <= now + FUTURE_SKEW
  }

  /** Acceptors use ages up to `maxAge`; the cleanup's cutoff was computed at some time past; a request that
      has not inserted within `patience` seconds of its verification is gone. */
  predicate Enabled(s: State, step: Step, maxAge: int, patience: nat) {
    match step
    case Verify(_, _, age) => age <= maxAge
    case Insert(r) => r in s.open ==> s.now - s.open[r].at <= patience
    case Cleanup(cutoff) => cutoff <= s.now - RETENTION
    case _ => true
  }

  function Apply(s: State, step: Step): State {
    match step
    case Tick(seconds) => s.(now := s.now + seconds)
    case Verify(r, proof, age) =>
      if InWindow(s.now, proof.iat, age) then s.(open := s.open[r := Verified(proof, s.now)]) else s.(open := s.open - {r})
    case Exists(r) =>
      if r in s.open && s.open[r].Verified? then
        if s.open[r].proof.jti in s.stored then s.(open := s.open - {r})
        else s.(open := s.open[r := Unused(s.open[r].proof, s.open[r].at)])
      else s
    case Insert(r) =>
      if r in s.open && s.open[r].Unused? then
        var proof := s.open[r].proof;
        if proof.jti in s.stored then s.(open := s.open - {r})
        else s.(stored := s.stored[proof.jti := proof.iat], open := s.open - {r}, accepted := s.accepted + multiset{proof})
      else s
    case Cleanup(cutoff) => s.(stored := map jti | jti in s.stored && s.stored[jti] >= cutoff :: s.stored[jti])
  }

  /** The states along a run from nothing stored. */
  function Run(start: int, steps: seq<Step>): State {
    if steps == [] then State(start, map[], map[], multiset{})
    else Apply(Run(start, steps[..|steps| - 1]), steps[|steps| - 1])
  }

  ghost predicate ValidRun(start: int, steps: seq<Step>, maxAge: int, patience: nat) {
    forall i :: 0 <= i < |steps| ==> Enabled(Run(start, steps[..i]), steps[i], maxAge, patience)
  }

  ghost predicate AtMostOnce(s: State) {
    forall proof :: s.accepted[proof] <= 1
  }

  /** An accepted proof is still stored, or it is older than the retention; open requests were in the window
      when they were verified. */
  ghost predicate Remembered(s: State, maxAge: int) {
    && AtMostOnce(s)
    && (forall proof :: proof in s.accepted ==>
          (proof.jti in s.stored && s.stored[proof.jti] == proof.iat) || proof.iat < s.now - RETENTION)
    && (forall r :: r in s.open ==> s.open[r].at - s.open[r].proof.iat <= maxAge)
  }

  lemma StepRemembers(s: State, step: Step, maxAge: int, patience: nat)
    requires Remembered(s, maxAge) && Enabled(s, step, maxAge, patience) && maxAge + patience <= RETENTION
    ensures Remembered(Apply(s, step), maxAge)
  {
    if step.Insert? {
      InsertRemembers(s, step.request, maxAge, patience);
    } else {
      assert Apply(s, step).accepted == s.accepted;
    }
  }

  lemma InsertRemembers(s: State, r: nat, maxAge: int, patience: nat)
    requires Remembered(s, maxAge) && Enabled(s, Insert(r), maxAge, patience) && maxAge + patience <= RETENTION
    ensures Remembered(Apply(s, Insert(r)), maxAge)
  {
    if r in s.open && s.open[r].Unused? && s.open[r].proof.jti !in s.stored {
      var proof := s.open[r].proof;
      assert proof !in s.accepted;
      assert forall p :: p in Apply(s, Insert(r)).accepted <==> p in s.accepted || p == proof;
    }
  }

  lemma {:induction false} RunRemembers(start: int, steps: seq<Step>, maxAge: int, patience: nat)
    requires ValidRun(start, steps, maxAge, patience) && maxAge + patience <= RETENTION
    ensures Remembered(Run(start, steps), maxAge)
  {
    if steps != [] {
      var before := steps[..|steps| - 1];
      forall i | 0 <= i < |before| ensures Enabled(Run(start, before[..i]), before[i], maxAge, patience) {
        assert before[..i] == steps[..i];
      }
      RunRemembers(start, before, maxAge, patience);
      assert Enabled(Run(start, steps[..|steps| - 1]), steps[|steps| - 1], maxAge, patience);
      StepRemembers(Run(start, before), steps[|steps| - 1], maxAge, patience);
    }
  }

  /** A request that verifies in time, stalls, and inserts after the entry of its proof was cleaned up. */
  function Stalled(proof: Proof, maxAge: nat, patience: nat): seq<Step> {
    [Verify(0, proof, maxAge), Exists(0), Insert(0), Tick(maxAge), Verify(1, proof, maxAge), Tick(patience),
     Cleanup(maxAge + patience - RETENTION), Exists(1), Insert(1)]
  }

  /** The states along that run. */
  function StalledState(proof: Proof, maxAge: nat, patience: nat, k: nat): State {
    var first, second, once := Verified(proof, 0), Verified(proof, maxAge), multiset{proof};
    var kept, later := map[proof.jti := 0], maxAge + patience;
    if k == 0 then State(0, map[], map[], multiset{})
    else if k == 1 then State(0, map[], map[0 := first], multiset{})
    else if k == 2 then State(0, map[], map[0 := Unused(proof, 0)], multiset{})
    else if k == 3 then State(0, kept, map[], once)
    else if k == 4 then State(maxAge, kept, map[], once)
    else if k == 5 then State(maxAge, kept, map[1 := second], once)
    else if k == 6 then State(later, kept, map[1 := second], once)
    else if k == 7 then State(later, map[], map[1 := second], once)
    else if k == 8 then State(later, map[], map[1 := Unused(proof, maxAge)], once)
    else State(later, kept, map[], multiset{proof, proof})
  }

  lemma StalledStep(proof: Proof, maxAge: nat, patience: nat, k: nat)
    requires maxAge + patience > RETENTION && proof.iat == 0 && k < 9
    ensures |Stalled(proof, maxAge, patience)| == 9
    ensures var s, step := StalledState(proof, maxAge, patience, k), Stalled(proof, maxAge, patience)[k];
            Enabled(s, step, maxAge, patience) && Apply(s, step) == StalledState(proof, maxAge, patience, k + 1)
  {
    var s := StalledState(proof, maxAge, patience, k);
    var steps := Stalled(proof, maxAge, patience);
    if k < 4 {
      FirstSteps(proof, maxAge, patience, k);
    } else {
      LaterSteps(proof, maxAge, patience, k);
    }
    hide Apply, StalledState, Enabled;
  }

  lemma FirstSteps(proof: Proof, maxAge: nat, patience: nat, k: nat)
    requires proof.iat == 0 && k < 4
    ensures var s, step := StalledState(proof, maxAge, patience, k), Stalled(proof, maxAge, patience)[k];
            Enabled(s, step, maxAge, patience) && Apply(s, step) == StalledState(proof, maxAge, patience, k + 1)
  {
    var s := StalledState(proof, maxAge, patience, k);
    if k == 0 {
      assert Apply(s, Verify(0, proof, maxAge)).open == map[0 := Verified(proof, 0)];
    } else if k == 1 {
      assert Apply(s, Exists(0)).open == map[0 := Unused(proof, 0)];
    } else if k == 2 {
      assert Apply(s, Insert(0)).open == map[] && Apply(s, Insert(0)).stored == map[proof.jti := 0];
    }
  }

  lemma LaterSteps(proof: Proof, maxAge: nat, patience: nat, k: nat)
    requires maxAge + patience > RETENTION && proof.iat == 0 && 4 <= k < 9
    ensures var s, step := StalledState(proof, maxAge, patience, k), Stalled(proof, maxAge, patience)[k];
            Enabled(s, step, maxAge, patience) && Apply(s, step) == StalledState(proof, maxAge, patience, k + 1)
  {
    var s := StalledState(proof, maxAge, patience, k);
    if k == 4 {
      assert Apply(s, Verify(1, proof, maxAge)).open == map[1 := Verified(proof, maxAge)];
    } else if k == 6 {
      assert Apply(s, Cleanup(maxAge + patience - RETENTION)).stored == map[];
    } else if k == 7 {
      assert Apply(s, Exists(1)).open == map[1 := Unused(proof, maxAge)];
    } else if k == 8 {
      assert Apply(s, Insert(1)).open == map[] && Apply(s, Insert(1)).stored == map[proof.jti := 0];
      assert multiset{proof} + multiset{proof} == multiset{proof, proof};
    }
  }

  lemma {:induction false} StalledRun(proof: Proof, maxAge: nat, patience: nat, k: nat)
    requires maxAge + patience > RETENTION && proof.iat == 0 && k <= 9
    ensures Run(0, Stalled(proof, maxAge, patience)[..k]) == StalledState(proof, maxAge, patience, k)
  {
    if k > 0 {
      hide Apply, StalledState, Stalled;
      StalledStep(proof, maxAge, patience, k - 1);
      StalledRun(proof, maxAge, patience, k - 1);
      RunNext(0, Stalled(proof, maxAge, patience), k - 1);
    }
  }

  lemma StalledIsAcceptedTwice(maxAge: nat, patience: nat)
    requires maxAge + patience > RETENTION
    ensures var proof := Proof("jti", 0);
            ValidRun(0, Stalled(proof, maxAge, patience), maxAge, patience)
            && Run(0, Stalled(proof, maxAge, patience)).accepted[proof] == 2
  {
    var proof := Proof("jti", 0);
    var steps := Stalled(proof, maxAge, patience);
    assert StalledState(proof, maxAge, patience, 9).accepted[proof] == 2;
    hide Run, Apply, StalledState, Enabled;
    forall i | 0 <= i < |steps| ensures Enabled(Run(0, steps[..i]), steps[i], maxAge, patience) {
      StalledRun(proof, maxAge, patience, i);
      StalledStep(proof, maxAge, patience, i);
    }
    StalledRun(proof, maxAge, patience, 9);
    assert steps[..9] == steps;
  }

  lemma RunNext(start: int, steps: seq<Step>, i: nat)
    requires i < |steps|
    ensures Run(start, steps[..i + 1]) == Apply(Run(start, steps[..i]), steps[i])
    ensures Run(start, []) == State(start, map[], map[], multiset{})
  {
    assert steps[..i + 1][..i] == steps[..i];
  }

  /** Every proof passes the check-and-insert at most once in every run, with any number of concurrent
      requests, clock steps and cleanups, exactly when the age limit and the time a request may take after
      its verification together stay within the retention of the table. */
  lemma AcceptedAtMostOnce(maxAge: nat, patience: nat)
    ensures (forall start, steps :: ValidRun(start, steps, maxAge, patience) ==> AtMostOnce(Run(start, steps)))
            <==> maxAge + patience <= RETENTION
  {
    if maxAge + patience <= RETENTION {
      forall start, steps | ValidRun(start, steps, maxAge, patience) ensures AtMostOnce(Run(start, steps)) {
        RunRemembers(start, steps, maxAge, patience);
      }
    } else {
      StalledIsAcceptedTwice(maxAge, patience);
      var proof := Proof("jti", 0);
      assert !AtMostOnce(Run(0, Stalled(proof, maxAge, patience)));
    }
  }

  /** With the default age of both acceptors, requests have exactly 55 minutes. */
  lemma DefaultIsSafe(patience: nat)
    ensures (forall start, steps :: ValidRun(start, steps, DEFAULT_MAX_AGE, patience) ==> AtMostOnce(Run(start, steps)))
            <==> patience <= 3300
  {
    AcceptedAtMostOnce(DEFAULT_MAX_AGE, patience);
  }

  /** Whatever a cleanup deletes is too old to pass the age check, then and ever after, exactly when proofs may
      not be older than the retention. */
  lemma DeletedIsTooOld(maxAge: int)
    ensures (forall s: State, cutoff, jti, later ::
               cutoff <= s.now - RETENTION && jti in s.stored && jti !in Apply(s, Cleanup(cutoff)).stored && s.now <= later
               ==> !InWindow(later, s.stored[jti], maxAge))
            <==> maxAge <= RETENTION
  {
    if maxAge > RETENTION {
      var s := State(maxAge, map["jti" := 0], map[], multiset{});
      var cutoff := maxAge - RETENTION;
      assert "jti" in s.stored && "jti" !in Apply(s, Cleanup(cutoff)).stored;
      assert InWindow(maxAge, s.stored["jti"], maxAge);
    }
  }

  /** The jti table, with jti as its primary key. */
  class JtiTable {
    var stored: map<string, int>

    constructor ()
      ensures stored == map[]
    {
      stored := map[];
    }

    predicate Used(jti: string)
      reads this`stored
    {
      jti in stored
    }

    /** Fails on a jti that is already there. */
    method Insert(proof: Proof) returns (ok: bool)
      modifies this`stored
      ensures ok <==> proof.jti !in old(stored)
      ensures stored == if ok then old(stored)[proof.jti := proof.iat] else old(stored)
    {
      if proof.jti in stored {
        return false;
      }
      stored := stored[proof.jti := proof.iat];
      return true;
    }

    method DeleteOlderThan(before: int)
      modifies this`stored
      ensures forall jti :: jti in stored <==> jti in old(stored) && old(stored)[jti] >= before
      ensures forall jti :: jti in stored ==> stored[jti] == old(stored)[jti]
      ensures forall open, accepted, now ::
                stored == Apply(State(now, old(stored), open, accepted), Cleanup(before)).stored
    {
      stored := map jti | jti in stored && stored[jti] >= before :: stored[jti];
    }

    /** One acceptor, undisturbed: it does what the three steps of a request do in a run. */
    method Accept(proof: Proof, now: int, maxAge: int) returns (accepted: bool)
      modifies this`stored
      ensures var s := State(now, old(stored), map[], multiset{});
              var end := Apply(Apply(Apply(s, Step.Verify(0, proof, maxAge)), Step.Exists(0)), Step.Insert(0));
              stored == end.stored && (accepted <==> proof in end.accepted)
    {
      if now - proof.iat > maxAge || proof.iat > now + FUTURE_SKEW {
        return false;
      }
      if Used(proof.jti) {
        return false;
      }
      accepted := Insert(proof);
    }
  }
}
