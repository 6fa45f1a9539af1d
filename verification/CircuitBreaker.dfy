/** The circuit breaker as a state machine, and the history of calls it stands for. */
module BreakerSpec {
  import opened PyText

  datatype Mode = Closed | Open | HalfOpen

  datatype Config = Config(threshold: int, cooldown: real)

  datatype State = State(mode: Mode, failures: nat, lastFailure: Option<real>)

  // What happens to a breaker. Only queries and failures read the clock.
  datatype Op = Query(now: real) | Failure(now: real) | Success | Reset

  const INITIAL := State(Closed, 0, None)

  // ---- the lazy machine ------------------------------------------------------------------------

  function Refreshed(config: Config, s: State, now: real): State {
    if s.mode.Open? && s.lastFailure.Some? && now - s.lastFailure.value >= config.cooldown then s.(mode := HalfOpen)
    else s
  }

  function Failed(config: Config, s: State, now: real): State {
    var tripped := s.mode.HalfOpen? || (s.mode.Closed? && s.failures + 1 >= config.threshold);
    State(if tripped then Open else s.mode, s.failures + 1, Some(now))
  }

  function Apply(config: Config, s: State, op: Op): State {
    match op
    case Query(now) => Refreshed(config, s, now)
    case Failure(now) => Failed(config, s, now)
    case Success | Reset => INITIAL
  }

  function Run(config: Config, ops: seq<Op>): State {
    if ops == [] then INITIAL else Apply(config, Run(config, ops[..|ops| - 1]), ops[|ops| - 1])
  }

  // ---- the stateless meaning of a history ------------------------------------------------------

  // Failures since the last success or reset.
  function Failures(ops: seq<Op>): nat {
    if ops == [] then 0
    else
      var earlier := ops[..|ops| - 1];
      match ops[|ops| - 1]
      case Query(_) => Failures(earlier)
      case Failure(_) => Failures(earlier) + 1
      case Success | Reset => 0
  }

  // The time of the last of those failures.
  function LastFailure(ops: seq<Op>): Option<real> {
    if ops == [] then None
    else
      match ops[|ops| - 1]
      case Query(_) => LastFailure(ops[..|ops| - 1])
      case Failure(now) => Some(now)
      case Success | Reset => None
  }

  // A threshold below one trips on the first failure, like a threshold of one.
  function Limit(config: Config): int {
    if config.threshold < 1 then 1 else config.threshold
  }

  predicate Allowed(config: Config, ops: seq<Op>, now: real) {
    || Failures(ops) < Limit(config)
    || (LastFailure(ops).Some? && now - LastFailure(ops).value >= config.cooldown)
  }

  // The last clock reading of a history.
  function LastReading(ops: seq<Op>): Option<real> {
    if ops == [] then None
    else
      match ops[|ops| - 1]
      case Query(now) => Some(now)
      case Failure(now) => Some(now)
      case Success | Reset => LastReading(ops[..|ops| - 1])
  }

  predicate NotBefore(ops: seq<Op>, now: real) {
    LastReading(ops).Some? ==> LastReading(ops).value <= now
  }

  // The clock never runs backwards.
  predicate Clocked(ops: seq<Op>) {
    ops == [] ||
      (var earlier, op := ops[..|ops| - 1], ops[|ops| - 1];
       Clocked(earlier) && ((op.Query? || op.Failure?) ==> NotBefore(earlier, op.now)))
  }

  // ---- refinement ------------------------------------------------------------------------------

  // How a state stands for a history.
  predicate StandsFor(config: Config, s: State, ops: seq<Op>) {
    && s.failures == Failures(ops)
    && s.lastFailure == LastFailure(ops)
    && (s.lastFailure.Some? <==> s.failures > 0)
    && (s.mode.Closed? <==> s.failures < Limit(config))
    && (s.mode.HalfOpen? ==>
          && s.lastFailure.Some? && LastReading(ops).Some?
          && LastReading(ops).value - s.lastFailure.value >= config.cooldown)
  }

  lemma {:induction false} StepStandsFor(config: Config, s: State, ops: seq<Op>, op: Op)
    requires StandsFor(config, s, ops) && Clocked(ops + [op])
    ensures StandsFor(config, Apply(config, s, op), ops + [op])
  {
    assert (ops + [op])[..|ops|] == ops;
  }

  lemma ClockedStep(ops: seq<Op>, op: Op)
    requires Clocked(ops) && ((op.Query? || op.Failure?) ==> NotBefore(ops, op.now))
    ensures Clocked(ops + [op])
  {
    assert (ops + [op])[..|ops|] == ops;
  }

  // The lazy transitions of the machine answer every request as the stateless rule does, over every
  // history whose clock does not run backwards.
  lemma {:induction false} RunRefines(config: Config, ops: seq<Op>)
    requires Clocked(ops)
    ensures StandsFor(config, Run(config, ops), ops)
    ensures forall now :: NotBefore(ops, now) ==>
      (!Refreshed(config, Run(config, ops), now).mode.Open? <==> Allowed(config, ops, now))
  {
    if ops == [] {
    } else {
      var earlier, op := ops[..|ops| - 1], ops[|ops| - 1];
      RunRefines(config, earlier);
      assert ops == earlier + [op];
      StepStandsFor(config, Run(config, earlier), earlier, op);
    }
  }

  // ---- what asking does to later answers -----------------------------------------------------------------

  // The answer the machine gives after a history.
  predicate Passes(config: Config, ops: seq<Op>, now: real) {
    !Refreshed(config, Run(config, ops), now).mode.Open?
  }

  // Requests at the given times, without any outcome in between.
  function Queries(times: seq<real>): (ops: seq<Op>)
    ensures |ops| == |times|
  {
    seq(|times|, i requires 0 <= i < |times| => Query(times[i]))
  }

  predicate Nondecreasing(times: seq<real>) {
    forall i, j :: 0 <= i < j < |times| ==> times[i] <= times[j]
  }

  lemma OneMoreQuery(config: Config, ops: seq<Op>, asked: real, now: real)
    requires Clocked(ops) && NotBefore(ops, asked) && asked <= now
    ensures Clocked(ops + [Query(asked)]) && NotBefore(ops + [Query(asked)], now) && NotBefore(ops, now)
    ensures Allowed(config, ops + [Query(asked)], now) <==> Allowed(config, ops, now)
  {
    ClockedStep(ops, Query(asked));
    assert (ops + [Query(asked)])[..|ops|] == ops;
  }

  // Requests alone never change a later answer of the machine, although each of them may move it.
  lemma {:induction false} QueriesChangeNothing(config: Config, ops: seq<Op>, times: seq<real>, now: real)
    requires Clocked(ops) && Nondecreasing(times)
    requires times == [] ==> NotBefore(ops, now)
    requires times != [] ==> NotBefore(ops, times[0]) && times[|times| - 1] <= now
    ensures Clocked(ops + Queries(times)) && NotBefore(ops + Queries(times), now)
    ensures Passes(config, ops + Queries(times), now) <==> Passes(config, ops, now)
    decreases |times|
  {
    hide Clocked, NotBefore, Run, Refreshed, Allowed;
    if times == [] {
      assert ops + Queries(times) == ops;
    } else {
      var asked, rest := times[0], times[1..];
      var next := if rest == [] then now else rest[0];
      OneMoreQuery(config, ops, asked, now);
      OneMoreQuery(config, ops, asked, next);
      assert ops + Queries(times) == ops + [Query(asked)] + Queries(rest);
      QueriesChangeNothing(config, ops + [Query(asked)], rest, now);
      RunRefines(config, ops);
      RunRefines(config, ops + [Query(asked)]);
      assert Passes(config, ops, now) <==> Allowed(config, ops, now);
      assert Passes(config, ops + [Query(asked)], now) <==> Allowed(config, ops + [Query(asked)], now);
    }
  }

  // Once a request has passed, every later one passes too, as many as there are, until an outcome is recorded.
  lemma {:induction false} PassingGoesOn(config: Config, ops: seq<Op>, times: seq<real>, k: nat)
    requires Clocked(ops) && Nondecreasing(times) && k < |times| && NotBefore(ops, times[0])
    requires Passes(config, ops, times[0])
    ensures Passes(config, ops + Queries(times[..k]), times[k])
  {
    hide Clocked, NotBefore, Run, Refreshed, Allowed;
    var earlier := times[..k];
    LaterThanAll(ops, times[0], times[k]);
    QueriesChangeNothing(config, ops, earlier, times[k]);
    PassesLater(config, ops, times[0], times[k]);
  }

  lemma LaterThanAll(ops: seq<Op>, now: real, later: real)
    requires NotBefore(ops, now) && now <= later
    ensures NotBefore(ops, later)
  {
  }

  lemma PassesLater(config: Config, ops: seq<Op>, now: real, later: real)
    requires Clocked(ops) && NotBefore(ops, now) && now <= later
    ensures Passes(config, ops, now) ==> Passes(config, ops, later)
  {
    RunRefines(config, ops);
    assert NotBefore(ops, later);
  }

  // After a request that passed, a later one is refused exactly when a failure has been recorded in between that
  // is less than a cooldown ago and makes the threshold.
  lemma {:induction false} RefusedExactly(config: Config, ops: seq<Op>, asked: real, failed: real, now: real)
    requires Clocked(ops) && NotBefore(ops, asked) && asked <= failed <= now
    ensures var after := ops + [Query(asked)] + [Failure(failed)];
      && Clocked(after) && NotBefore(after, now)
      && (!Passes(config, after, now) <==> Failures(ops) + 1 >= Limit(config) && now - failed < config.cooldown)
  {
    var queried := ops + [Query(asked)];
    var after := queried + [Failure(failed)];
    OneMoreQuery(config, ops, asked, failed);
    ClockedStep(queried, Failure(failed));
    assert after[..|queried|] == queried && queried[..|ops|] == ops;
    RunRefines(config, after);
  }

  // A threshold of one, one failure, and two requests after the cooldown: both pass.
  lemma TwoRequestsPass()
    ensures var config, failed := Config(1, 60.0), [Failure(0.0)];
      && Run(config, failed).mode.Open? && !Passes(config, failed, 59.0)
      && Passes(config, failed, 60.0) && Run(config, failed + [Query(60.0)]).mode.HalfOpen?
      && Passes(config, failed + [Query(60.0)], 61.0)
  {
    var config, failed := Config(1, 60.0), [Failure(0.0)];
    assert failed[..0] == [];
    assert Run(config, []) == INITIAL;
    assert Run(config, failed) == Failed(config, INITIAL, 0.0);
    assert (failed + [Query(60.0)])[..1] == failed;
  }
}

/** The breaker object. The clock reading of each call is a parameter. */
module CircuitBreaker {
  import opened PyText
  import opened BreakerSpec

  class Breaker {
    const config: Config
    var mode: Mode
    var failureCount: nat
    var lastFailureTime: Option<real>
    ghost var history: seq<Op>

    ghost function AsState(): State
      reads this
    {
      State(mode, failureCount, lastFailureTime)
    }

    ghost predicate Valid()
      reads this
    {
      Clocked(history) && StandsFor(config, AsState(), history)
    }

    constructor (config: Config)
      ensures Valid() && this.config == config && history == [] && AsState() == INITIAL
    {
      this.config := config;
      mode, failureCount, lastFailureTime := Closed, 0, None;
      history := [];
    }

    method CheckHalfOpenTransition(now: real)
      requires Valid() && NotBefore(history, now)
      modifies this
      ensures Valid() && history == old(history) + [Query(now)]
      ensures AsState() == Refreshed(config, old(AsState()), now)
    {
      ClockedStep(history, Query(now));
      StepStandsFor(config, AsState(), history, Query(now));
      if mode == Open && lastFailureTime.Some? {
        var elapsed := now - lastFailureTime.value;
        if elapsed >= config.cooldown {
          mode := HalfOpen;
        }
      }
      history := history + [Query(now)];
    }

    method CurrentMode(now: real) returns (current: Mode)
      requires Valid() && NotBefore(history, now)
      modifies this
      ensures Valid() && history == old(history) + [Query(now)]
      ensures current == mode && AsState() == Refreshed(config, old(AsState()), now)
    {
      CheckHalfOpenTransition(now);
      current := mode;
    }

    method AllowRequest(now: real) returns (allowed: bool)
      requires Valid() && NotBefore(history, now)
      modifies this
      ensures Valid() && history == old(history) + [Query(now)]
      ensures allowed <==> Allowed(config, old(history), now)
    {
      var current := CurrentMode(now);
      allowed := current != Open;
    }

    method RecordSuccess()
      requires Valid()
      modifies this
      ensures Valid() && history == old(history) + [Success]
      ensures AsState() == INITIAL
    {
      ClockedStep(history, Success);
      StepStandsFor(config, AsState(), history, Success);
      mode, failureCount, lastFailureTime := Closed, 0, None;
      history := history + [Success];
    }

    method RecordFailure(now: real)
      requires Valid() && NotBefore(history, now)
      modifies this
      ensures Valid() && history == old(history) + [Failure(now)]
      ensures AsState() == Failed(config, old(AsState()), now)
    {
      ClockedStep(history, Failure(now));
      StepStandsFor(config, AsState(), history, Failure(now));
      failureCount := failureCount + 1;
      lastFailureTime := Some(now);
      if mode == HalfOpen {
        mode := Open;
      } else if mode == Closed && failureCount >= config.threshold {
        mode := Open;
      }
      assert AsState() == Failed(config, old(AsState()), now);
      history := history + [Failure(now)];
    }

    method ManualReset()
      requires Valid()
      modifies this
      ensures Valid() && history == old(history) + [Reset]
      ensures AsState() == INITIAL
    {
      ClockedStep(history, Reset);
      StepStandsFor(config, AsState(), history, Reset);
      mode, failureCount, lastFailureTime := Closed, 0, None;
      history := history + [Reset];
    }
  }
}
