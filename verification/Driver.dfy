/** Calls that can fail: into the CUDA runtime, and for host memory. Which of them
    fail is fixed from outside, so that a contract can say exactly when an
    operation fails and with which status. */
module Driving {
  import opened Types

  /** `outcome(c)` says whether call number `c` succeeds; `made` counts the calls
      so far. `devices` is the number of CUDA devices that are visible. */
  class Driver {
    const outcome: nat -> bool
    const devices: int
    var made: nat

    constructor (outcome: nat -> bool, devices: int)
      ensures this.outcome == outcome && this.devices == devices && made == 0
    {
      this.outcome, this.devices, made := outcome, devices, 0;
    }

    method Call() returns (ok: bool)
      modifies this
      ensures ok == outcome(old(made)) && made == old(made) + 1
    {
      ok := outcome(made);
      made := made + 1;
    }
  }

  /** One step of an operation: a call, with the status of its failure, or a test
      that has already turned out badly. */
  datatype Act = Call(error: Status) | Refuse(error: Status)

  /** Steps are taken in order up to the first that fails: the resulting status and
      the number of calls made by then. */
  function Attempt(steps: seq<Act>, outcome: nat -> bool, made: nat): (Status, nat) {
    if steps == [] then (Ok, made)
    else match steps[0]
      case Refuse(error) => (error, made)
      case Call(error) =>
        if outcome(made) then Attempt(steps[1..], outcome, made + 1) else (error, made + 1)
  }

  /** A number of calls into the CUDA runtime. */
  function Calls(n: nat): (steps: seq<Act>)
    ensures |steps| == n
  {
    seq(n, _ => Call(ErrBackend))
  }

  lemma CallsConcat(m: nat, n: nat)
    ensures Calls(m) + Calls(n) == Calls(m + n)
  {
  }

  /** Failures are failures. */
  predicate Errors(steps: seq<Act>) { forall i | 0 <= i < |steps| :: steps[i].error != Ok }

  /** Doing one thing after another. */
  lemma {:induction false} AttemptConcat(a: seq<Act>, b: seq<Act>, outcome: nat -> bool, made: nat)
    requires Errors(a)
    ensures var first := Attempt(a, outcome, made);
            Attempt(a + b, outcome, made) == if first.0 == Ok then Attempt(b, outcome, first.1) else first
  {
    if a == [] {
      assert a + b == b;
    } else {
      assert (a + b)[1..] == a[1..] + b;
      if a[0].Call? && outcome(made) {
        AttemptConcat(a[1..], b, outcome, made + 1);
      }
    }
  }

  /** Step `i` is a call, and it succeeds. */
  predicate Passes(steps: seq<Act>, outcome: nat -> bool, made: nat, i: nat)
    requires i < |steps|
  {
    steps[i].Call? && outcome(made + i)
  }

  predicate AllPass(steps: seq<Act>, outcome: nat -> bool, made: nat) {
    forall i | 0 <= i < |steps| :: Passes(steps, outcome, made, i)
  }

  /** An operation succeeds exactly when every step is a call that succeeds, and it
      has then made all its calls. */
  lemma {:induction false} AttemptSucceeds(steps: seq<Act>, outcome: nat -> bool, made: nat)
    requires Errors(steps)
    ensures Attempt(steps, outcome, made).0 == Ok <==> AllPass(steps, outcome, made)
    ensures Attempt(steps, outcome, made).0 == Ok ==> Attempt(steps, outcome, made).1 == made + |steps|
    ensures made <= Attempt(steps, outcome, made).1 <= made + |steps|
  {
    if steps != [] {
      assert Passes(steps, outcome, made, 0) <==> steps[0].Call? && outcome(made);
      if Passes(steps, outcome, made, 0) {
        AttemptSucceeds(steps[1..], outcome, made + 1);
        AllPassRest(steps, steps[1..], outcome, made, made + 1);
      }
    }
  }

  lemma AllPassRest(steps: seq<Act>, rest: seq<Act>, outcome: nat -> bool, made: nat, next: nat)
    requires steps != [] && rest == steps[1..] && next == made + 1 && Passes(steps, outcome, made, 0)
    ensures AllPass(steps, outcome, made) <==> AllPass(rest, outcome, next)
  {
    forall i: nat | i < |rest|
      ensures Passes(rest, outcome, next, i) == Passes(steps, outcome, made, i + 1)
    {
    }
    assert forall i | 1 <= i < |steps| :: Passes(rest, outcome, next, i - 1) == Passes(steps, outcome, made, i);
  }

  /** One call less to make. */
  lemma NextCall(n: nat, outcome: nat -> bool, made: nat)
    requires n > 0
    ensures Attempt(Calls(n), outcome, made) ==
            if outcome(made) then Attempt(Calls(n - 1), outcome, made + 1) else (ErrBackend, made + 1)
  {
    assert Calls(n)[1..] == Calls(n - 1);
  }

  lemma CallsSplit(m: nat, n: nat, outcome: nat -> bool, made: nat)
    ensures var first := Attempt(Calls(m), outcome, made);
            Attempt(Calls(m + n), outcome, made) ==
            if first.0 == Ok then Attempt(Calls(n), outcome, first.1) else first
  {
    CallsConcat(m, n);
    AttemptConcat(Calls(m), Calls(n), outcome, made);
  }

  /** Calls whose effect is not modelled, made in order up to the first failure. */
  method Take(driver: Driver, steps: seq<Act>) returns (status: Status)
    requires Errors(steps)
    modifies driver
    ensures (status, driver.made) == Attempt(steps, driver.outcome, old(driver.made))
  {
    for i := 0 to |steps|
      invariant Attempt(steps[i..], driver.outcome, driver.made) == Attempt(steps, driver.outcome, old(driver.made))
    {
      assert steps[i..][1..] == steps[i + 1..];
      if steps[i].Refuse? {
        return steps[i].error;
      }
      var ok := driver.Call();
      if !ok {
        return steps[i].error;
      }
    }
    status := Ok;
  }

  /** Of `all` calls begun at `start`, the last `left` are still to be made. */
  predicate StillToMake(outcome: nat -> bool, all: nat, start: nat, left: int, made: nat) {
    0 <= left && Attempt(Calls(all), outcome, start) == Attempt(Calls(left), outcome, made)
  }

  lemma TrackStarts(outcome: nat -> bool, all: nat, start: nat)
    ensures StillToMake(outcome, all, start, all, start)
  {
  }

  /** The next `n` of them, and what they decide. */
  lemma TrackGoesOn(outcome: nat -> bool, all: nat, start: nat, left: int, made: nat, n: nat)
    requires StillToMake(outcome, all, start, left, made) && n <= left
    ensures var part := Attempt(Calls(n), outcome, made);
            if part.0 == Ok then StillToMake(outcome, all, start, left - n, part.1)
            else Attempt(Calls(all), outcome, start) == part
  {
    CallsSplit(n, left - n, outcome, made);
  }

  lemma TrackEnds(outcome: nat -> bool, all: nat, start: nat, made: nat)
    requires StillToMake(outcome, all, start, 0, made)
    ensures Attempt(Calls(all), outcome, start) == (Ok, made)
  {
  }

  lemma FewCalls(outcome: nat -> bool, made: nat)
    ensures Attempt(Calls(0), outcome, made) == (Ok, made)
    ensures Attempt(Calls(1), outcome, made) == (if outcome(made) then Ok else ErrBackend, made + 1)
  {
    NextCall(1, outcome, made);
  }
}
