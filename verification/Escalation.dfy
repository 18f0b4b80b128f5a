/**
  Bounded escalation: one routing snapshot, at most three attempts, one deadline.

  The environment is an arbitrary sequence with one turn for every attempt there can be: what the
  provider and the validator do in it and how long every step takes. An awaited step is cut off at
  the timeout it is given; every other step may take any time, which `local` adds up.
*/
module Escalation {
  import opened Common
  import opened Ordering
  import opened Routing

  type Duration = r: real | r >= 0.0

  function Smaller(a: real, b: real): real {
    if a <= b then a else b
  }

  /** One fixed end point on a monotonic clock. */
  datatype Deadline = Deadline(expiresAt: real)
  {
    function Remaining(now: real): Duration {
      if expiresAt - now > 0.0 then expiresAt - now else 0.0
    }

    predicate Expired(now: real) {
      Remaining(now) <= 0.0
    }

    function ConstrainTimeout(now: real, maxTimeout: Duration): Option<Duration> {
      if Remaining(now) <= 0.0 then None else Some(Smaller(Remaining(now), maxTimeout))
    }
  }

  datatype Response = Response(modelId: ModelId, latency: Duration, cost: Money)

  /** What a provider call comes to if it is given the time: a rejected completion still carries its response. */
  datatype Generated =
    | Completed(response: Response)
    | Rejected(response: Response)
    | Failed
    | Unroutable

  datatype Status = Passed | FailedChecks | NotRun | ValidatorError

  datatype CheckFailure = CheckFailure(code: string, recoverable: bool)

  datatype Validation = Validation(status: Status, failures: seq<CheckFailure>, duration: Duration)

  /** Everything the environment decides about one attempt. */
  datatype Turn = Turn(
    setup: Duration, generated: Generated, providerTime: Duration, telemetryTime: Duration,
    handling: Duration, validation: Validation, validatorTime: Duration,
    settling: Duration, recordTime: Duration, recordFails: bool)

  /** Time that the gateway itself spends on an attempt, outside what it awaits. */
  function OwnTime(turn: Turn): Duration {
    turn.setup + turn.handling + turn.validatorTime + turn.settling
  }

  function TotalOwnTime(turns: seq<Turn>): Duration {
    if turns == [] then 0.0 else TotalOwnTime(turns[..|turns| - 1]) + OwnTime(turns[|turns| - 1])
  }

  /** Whether a failed response may be retried on the next model. */
  predicate Recoverable(v: Validation) {
    v.status == FailedChecks && v.failures != [] && forall f :: f in v.failures ==> f.recoverable
  }

  function Codes(failures: seq<CheckFailure>): seq<string> {
    seq(|failures|, i requires 0 <= i < |failures| => failures[i].code)
  }

  datatype Attempt = Attempt(
    number: nat, modelId: ModelId, status: Status, codes: seq<string>, duration: Duration,
    latency: Option<Duration>, cost: Option<Money>)

  function AttemptOf(number: nat, modelId: ModelId, turn: Turn): Attempt
    requires turn.generated.Completed? || turn.generated.Rejected?
  {
    var v, r := turn.validation, turn.generated.response;
    Attempt(number, modelId, v.status, Codes(v.failures), v.duration, Some(r.latency), Some(r.cost))
  }

  // ---------- Accounting ----------

  /** The sum of costs that are all known. */
  function CostSum(attempts: seq<Attempt>): Money
    requires forall i :: 0 <= i < |attempts| ==> attempts[i].cost.Some?
  {
    if attempts == [] then 0.0
    else CostSum(attempts[..|attempts| - 1]) + attempts[|attempts| - 1].cost.value
  }

  /** The sum of all costs, or None if one is unknown. */
  function TotalCost(attempts: seq<Attempt>): Option<Money> {
    if exists i :: 0 <= i < |attempts| && attempts[i].cost.None? then None else Some(CostSum(attempts))
  }

  /** The sum of those costs that are known. */
  function KnownCost(attempts: seq<Attempt>): Money {
    if attempts == [] then 0.0
    else
      var last := attempts[|attempts| - 1];
      KnownCost(attempts[..|attempts| - 1]) + if last.cost.Some? then last.cost.value else 0.0
  }

  function TotalLatency(attempts: seq<Attempt>): Duration {
    if attempts == [] then 0.0
    else
      var last := attempts[|attempts| - 1];
      TotalLatency(attempts[..|attempts| - 1]) + if last.latency.Some? then last.latency.value else 0.0
  }

  function ValidationTime(attempts: seq<Attempt>): Duration {
    if attempts == [] then 0.0
    else ValidationTime(attempts[..|attempts| - 1]) + attempts[|attempts| - 1].duration
  }

  function LastStatus(attempts: seq<Attempt>): Status {
    if attempts == [] then NotRun else attempts[|attempts| - 1].status
  }

  datatype Execution = Execution(
    attempts: seq<Attempt>, escalated: bool, status: Status, totalCost: Option<Money>, totalLatency: Duration)

  function ExecutionOf(attempts: seq<Attempt>, status: Status): Execution {
    Execution(attempts, |attempts| > 1, status, TotalCost(attempts), TotalLatency(attempts))
  }

  datatype Terminal = Returned | ValidationFailed | ProviderFailure | DeadlineExceeded

  const VALIDATOR_VERSION := "deterministic-v1"

  /** The durable summary of one validated request. */
  datatype Record = Record(
    initial: ModelId, returned: Option<ModelId>, attemptCount: nat, escalated: bool, status: Status,
    terminal: Terminal, knownCost: Money, costComplete: bool, latency: Duration,
    validator: Option<string>, validationTime: Duration, codes: seq<string>)

  /** The metric emitted with it. */
  datatype Signal = Signal(terminal: Terminal, escalated: bool, recovered: bool, attempts: nat, status: Status)

  datatype Call = Call(modelId: ModelId, startedAt: real)

  /** An attempt before its verdict is acted on; TimedOut is a deadline found expired between steps. */
  datatype Answer = Judged(response: Response) | Threw(outOfTime: bool) | TimedOut

  datatype Outcome =
    | Success(response: Response, execution: Execution)
    | Failure(terminal: Terminal)

  function TerminalOf(outcome: Outcome): Terminal {
    if outcome.Success? then Returned else outcome.terminal
  }

  /** The one description of all exits: an outcome reached at attempt `tried` after the judged `attempts`. */
  function RecordOf(plan: seq<ModelId>, attempts: seq<Attempt>, tried: nat, outcome: Outcome): Record
    requires plan != []
  {
    Record(
      plan[0],
      if outcome.Success? then Some(outcome.response.modelId) else None,
      tried, tried > 1, LastStatus(attempts), TerminalOf(outcome), KnownCost(attempts),
      |attempts| == tried && TotalCost(attempts).Some?,
      TotalLatency(attempts), if attempts == [] then None else Some(VALIDATOR_VERSION), ValidationTime(attempts),
      if TerminalOf(outcome) == ValidationFailed && attempts != [] then attempts[|attempts| - 1].codes else [])
  }

  function SignalOf(attempts: seq<Attempt>, tried: nat, outcome: Outcome): Signal {
    Signal(TerminalOf(outcome), tried > 1, outcome.Success? && tried > 1, tried, LastStatus(attempts))
  }

  lemma {:induction false} SumsAgree(attempts: seq<Attempt>)
    requires forall i :: 0 <= i < |attempts| ==> attempts[i].cost.Some?
    ensures CostSum(attempts) == KnownCost(attempts)
  {
    if attempts != [] {
      SumsAgree(attempts[..|attempts| - 1]);
    }
  }

  /** The attempts whose cost is known. */
  function WithCost(attempts: seq<Attempt>): (known: seq<Attempt>)
    ensures forall i :: 0 <= i < |known| ==> known[i].cost.Some?
  {
    if attempts == [] then []
    else
      WithCost(attempts[..|attempts| - 1])
      + if attempts[|attempts| - 1].cost.Some? then [attempts[|attempts| - 1]] else []
  }

  /** The known cost is the sum over those attempts whose cost is known. */
  lemma {:induction false} KnownCostFilters(attempts: seq<Attempt>)
    ensures KnownCost(attempts) == CostSum(WithCost(attempts))
  {
    if attempts != [] {
      var before, last := WithCost(attempts[..|attempts| - 1]), attempts[|attempts| - 1];
      KnownCostFilters(attempts[..|attempts| - 1]);
      if last.cost.Some? {
        assert WithCost(attempts) == before + [last];
        assert (before + [last])[..|before + [last]| - 1] == before;
      } else {
        assert WithCost(attempts) == before + [] == before;
      }
    }
  }

  /** Complete costs are the known costs; a missing one is exactly what makes the total unknown. */
  lemma {:induction false} CostsAgree(attempts: seq<Attempt>)
    ensures TotalCost(attempts).Some? <==> forall i :: 0 <= i < |attempts| ==> attempts[i].cost.Some?
    ensures TotalCost(attempts).Some? ==> TotalCost(attempts).value == KnownCost(attempts)
  {
    if TotalCost(attempts).Some? {
      SumsAgree(attempts);
    }
  }

  /** The provider has no response to give, or one of another model. */
  predicate Unanswered(generated: Generated, modelId: ModelId) {
    generated.Failed? || generated.Unroutable? || (generated.Completed? && generated.response.modelId != modelId)
  }

  /** The first n attempts were all answered, judged and found recoverable. */
  ghost predicate Retrying(plan: seq<ModelId>, world: seq<Turn>, attempts: seq<Attempt>, n: nat)
    requires n <= |plan| <= |world|
  {
    && |attempts| == n
    && forall k :: 0 <= k < n ==>
         && (world[k].generated.Completed? || world[k].generated.Rejected?)
         && attempts[k] == AttemptOf(k + 1, plan[k], world[k])
         && world[k].validation.status == FailedChecks && world[k].validation.failures != []
         && forall f :: f in world[k].validation.failures ==> f.recoverable
  }

  /**
    What every exit of the loop satisfies: all attempts but the last were recoverable failures, and
    the last one passed, failed for good, was not answered, or ran out of time.
  */
  ghost predicate Bounded(plan: seq<ModelId>, world: seq<Turn>, outcome: Outcome, attempts: seq<Attempt>, tried: nat)
    requires |plan| <= |world|
  {
    && 1 <= tried <= |plan|
    && tried - 1 <= |attempts| <= tried
    && Retrying(plan, world, attempts[..tried - 1], tried - 1)
    && var turn := world[tried - 1];
    && (|attempts| == tried ==>
          && (turn.generated.Completed? || turn.generated.Rejected?)
          && attempts[tried - 1] == AttemptOf(tried, plan[tried - 1], turn))
    && match outcome
       case Success(response, execution) =>
         && |attempts| == tried && turn.validation.status == Passed
         && response == turn.generated.response
         && (turn.generated.Completed? ==> response.modelId == plan[tried - 1])
         && execution == ExecutionOf(attempts, Passed)
       case Failure(ValidationFailed) =>
         && |attempts| == tried && turn.validation.status != Passed
         && (|| tried == |plan| || turn.validation.status != FailedChecks || turn.validation.failures == []
             || exists f :: f in turn.validation.failures && !f.recoverable)
       case Failure(ProviderFailure) => |attempts| == tried - 1 && Unanswered(turn.generated, plan[tried - 1])
       case Failure(DeadlineExceeded) => |attempts| == tried - 1
       case Failure(Returned) => false
  }

  /** What the responses of the first n turns cost. */
  function Spent(world: seq<Turn>, n: nat): Money
    requires n <= |world|
  {
    if n == 0 then 0.0
    else
      var generated := world[n - 1].generated;
      Spent(world, n - 1) + if generated.Completed? || generated.Rejected? then generated.response.cost else 0.0
  }

  /** Attempts that were answered cost what their responses cost. */
  lemma {:induction false} KnownCostIsSpent(plan: seq<ModelId>, world: seq<Turn>, attempts: seq<Attempt>)
    requires |attempts| <= |plan| <= |world|
    requires forall k :: 0 <= k < |attempts| ==>
               && (world[k].generated.Completed? || world[k].generated.Rejected?)
               && attempts[k] == AttemptOf(k + 1, plan[k], world[k])
    ensures KnownCost(attempts) == Spent(world, |attempts|)
  {
    if attempts != [] {
      KnownCostIsSpent(plan, world, attempts[..|attempts| - 1]);
    }
  }

  lemma JudgedAttempts(plan: seq<ModelId>, world: seq<Turn>, outcome: Outcome, attempts: seq<Attempt>, tried: nat)
    requires |plan| <= |world| && Bounded(plan, world, outcome, attempts, tried)
    ensures forall k :: 0 <= k < |attempts| ==>
              && (world[k].generated.Completed? || world[k].generated.Rejected?)
              && attempts[k] == AttemptOf(k + 1, plan[k], world[k])
  {
    forall k | 0 <= k < |attempts|
      ensures (world[k].generated.Completed? || world[k].generated.Rejected?)
              && attempts[k] == AttemptOf(k + 1, plan[k], world[k])
    {
      if k < tried - 1 {
        assert attempts[..tried - 1][k] == attempts[k];
      }
    }
  }

  /** An attempt says which model was tried when, what the verdict was, and how long and how dear its response was. */
  lemma AttemptTells(plan: seq<ModelId>, world: seq<Turn>, outcome: Outcome, attempts: seq<Attempt>, tried: nat, k: nat)
    requires |plan| <= |world| && Bounded(plan, world, outcome, attempts, tried) && k < |attempts|
    ensures k < |world| && (world[k].generated.Completed? || world[k].generated.Rejected?)
    ensures var attempt, verdict, response := attempts[k], world[k].validation, world[k].generated.response;
            && attempt.number == k + 1 && attempt.modelId == plan[k]
            && attempt.status == verdict.status && attempt.duration == verdict.duration
            && attempt.latency == Some(response.latency) && attempt.cost == Some(response.cost)
            && |attempt.codes| == |verdict.failures|
            && forall i :: 0 <= i < |attempt.codes| ==> attempt.codes[i] == verdict.failures[i].code
    ensures outcome.Success? ==>
              && outcome.execution.attempts == attempts && outcome.execution.status == Passed
              && (outcome.execution.escalated <==> tried > 1)
              && outcome.response == world[tried - 1].generated.response
  {
    JudgedAttempts(plan, world, outcome, attempts, tried);
  }

  /** The metric of any exit: how and after how many attempts; recovered exactly if escalated and returned. */
  lemma SignalTells(plan: seq<ModelId>, world: seq<Turn>, outcome: Outcome, attempts: seq<Attempt>, tried: nat)
    requires 0 < |plan| <= |world| && Bounded(plan, world, outcome, attempts, tried)
    ensures var signal := SignalOf(attempts, tried, outcome);
            && signal.attempts == tried && (signal.escalated <==> tried > 1)
            && (signal.recovered <==> signal.escalated && outcome.Success?)
            && (signal.terminal == Returned <==> outcome.Success?)
            && (outcome.Failure? ==> signal.terminal == outcome.terminal)
            && signal.status == (if attempts == [] then NotRun else world[|attempts| - 1].validation.status)
  {
    JudgedAttempts(plan, world, outcome, attempts, tried);
  }

  /**
    What the record of any exit says: one to three attempts, escalated exactly if more than one, a
    returned model exactly if the request returned, and then with a passing verdict.
  */
  lemma RecordTells(plan: seq<ModelId>, world: seq<Turn>, outcome: Outcome, attempts: seq<Attempt>, tried: nat)
    requires 0 < |plan| <= |world| && |plan| <= 3 && Bounded(plan, world, outcome, attempts, tried)
    ensures var record := RecordOf(plan, attempts, tried, outcome);
            && 1 <= record.attemptCount <= 3
            && (record.escalated <==> record.attemptCount > 1)
            && (record.returned.Some? <==> record.terminal == Returned)
            && (record.terminal == Returned <==> outcome.Success?)
            && (record.terminal == Returned ==> record.status == Passed)
            && (record.terminal == ValidationFailed ==> record.status != Passed)
            && (record.validator.None? <==> attempts == [])
  {
    JudgedAttempts(plan, world, outcome, attempts, tried);
  }

  /**
    The known cost of a record is what the responses cost, and is the total whenever the record
    calls the cost complete, which is exactly when the last attempt was judged.
  */
  lemma {:induction false} RecordCosts(
      plan: seq<ModelId>, world: seq<Turn>, outcome: Outcome, attempts: seq<Attempt>, tried: nat)
    requires 0 < |plan| <= |world| && Bounded(plan, world, outcome, attempts, tried)
    ensures var record := RecordOf(plan, attempts, tried, outcome);
            && record.knownCost == Spent(world, |attempts|)
            && (record.costComplete <==> |attempts| == tried)
            && (record.costComplete ==> TotalCost(attempts) == Some(record.knownCost))
            && (outcome.Success? ==> record.costComplete && outcome.execution.totalCost == Some(record.knownCost))
  {
    JudgedAttempts(plan, world, outcome, attempts, tried);
    KnownCostIsSpent(plan, world, attempts);
    CostsAgree(attempts);
  }

  /** How long the responses of the first n turns took, and how long their validation. */
  function Waited(world: seq<Turn>, n: nat): Duration
    requires n <= |world|
  {
    if n == 0 then 0.0
    else
      var generated := world[n - 1].generated;
      Waited(world, n - 1) + if generated.Completed? || generated.Rejected? then generated.response.latency else 0.0
  }

  function Checked(world: seq<Turn>, n: nat): Duration
    requires n <= |world|
  {
    if n == 0 then 0.0 else Checked(world, n - 1) + world[n - 1].validation.duration
  }

  lemma {:induction false} TimesOfTurns(plan: seq<ModelId>, world: seq<Turn>, attempts: seq<Attempt>)
    requires |attempts| <= |plan| <= |world|
    requires forall k :: 0 <= k < |attempts| ==>
               && (world[k].generated.Completed? || world[k].generated.Rejected?)
               && attempts[k] == AttemptOf(k + 1, plan[k], world[k])
    ensures TotalLatency(attempts) == Waited(world, |attempts|)
    ensures ValidationTime(attempts) == Checked(world, |attempts|)
  {
    if attempts != [] {
      TimesOfTurns(plan, world, attempts[..|attempts| - 1]);
    }
  }

  /**
    The times of a record are those of the judged responses, its status is the last verdict, and its
    codes are those of the failures it gave up on, in order.
  */
  lemma RecordTimes(plan: seq<ModelId>, world: seq<Turn>, outcome: Outcome, attempts: seq<Attempt>, tried: nat)
    requires 0 < |plan| <= |world| && Bounded(plan, world, outcome, attempts, tried)
    ensures var record := RecordOf(plan, attempts, tried, outcome);
            && record.initial == plan[0]
            && record.latency == Waited(world, |attempts|) && record.validationTime == Checked(world, |attempts|)
            && (outcome.Success? ==> outcome.execution.totalLatency == record.latency)
            && record.status == (if attempts == [] then NotRun else world[|attempts| - 1].validation.status)
            && (record.terminal != ValidationFailed ==> record.codes == [])
    ensures RecordOf(plan, attempts, tried, outcome).terminal == ValidationFailed ==>
              var codes := RecordOf(plan, attempts, tried, outcome).codes;
              var failures := world[tried - 1].validation.failures;
              |codes| == |failures| && forall i :: 0 <= i < |codes| ==> codes[i] == failures[i].code
  {
    JudgedAttempts(plan, world, outcome, attempts, tried);
    TimesOfTurns(plan, world, attempts);
  }

  class Gateway {
    const start: real
    const deadline: Deadline
    const telemetryTimeout: Duration
    const telemetryConfigured: bool
    var now: real
    ghost var local: real
    ghost var calls: seq<Call>
    var records: seq<Record>
    var signals: seq<Signal>
    // when the durable record was asked for; None for a request that ended before
    ghost var asked: Option<real>

    /** Awaits alone never pass the deadline. */
    ghost predicate OnTime()
      reads this
    {
      local >= 0.0 && start <= now <= deadline.expiresAt + local
    }

    /** Nothing has been done for the request yet. */
    ghost predicate Untouched()
      reads this
    {
      calls == [] && records == [] && signals == [] && asked == None
    }

    constructor (start: real, budget: Duration, telemetryTimeout: Duration, telemetryConfigured: bool)
      ensures OnTime() && Untouched()
      ensures now == start == this.start && local == 0.0 && deadline.expiresAt == start + budget
      ensures this.telemetryTimeout == telemetryTimeout && this.telemetryConfigured == telemetryConfigured
    {
      this.start, deadline := start, Deadline(start + budget);
      this.telemetryTimeout, this.telemetryConfigured := telemetryTimeout, telemetryConfigured;
      now, local, calls, records, signals, asked := start, 0.0, [], [], [], None;
    }

    /** A step of the gateway's own. */
    method Compute(time: Duration)
      requires OnTime()
      modifies this`now, this`local
      ensures OnTime() && now == old(now) + time && local == old(local) + time
    {
      now, local := now + time, local + time;
    }

    /** An awaited step that would take `time`, cut off at `timeout`. */
    method Await(time: Duration, timeout: Duration) returns (finished: bool)
      requires OnTime() && timeout <= deadline.Remaining(now)
      modifies this`now
      ensures OnTime() && now == old(now) + Smaller(time, timeout)
      ensures finished == (time <= timeout)
    {
      now, finished := now + Smaller(time, timeout), time <= timeout;
    }

    /** The per-call telemetry write. */
    method RecordInference(time: Duration)
      requires OnTime()
      modifies this`now
      ensures OnTime() && now >= old(now)
    {
      if telemetryConfigured {
        var timeout := deadline.ConstrainTimeout(now, telemetryTimeout);
        if timeout.Some? {
          var _ := Await(time, timeout.value);
        }
      }
    }

    /** The calls after one that may have been made. */
    ghost predicate OneMoreCall(before: seq<Call>, modelId: ModelId)
      reads this
    {
      && |calls| == |before| + 1 && calls[..|before|] == before
      && calls[|before|].modelId == modelId && start <= calls[|before|].startedAt < deadline.expiresAt
    }

    /** Whether the last call would take longer than the deadline leaves. */
    ghost predicate CallOverruns(turn: Turn)
      reads this
    {
      calls != [] && calls[|calls| - 1].startedAt + turn.providerTime > deadline.expiresAt
    }

    /** One model call through the inference service; None stands for a raised exception. */
    method Generate(modelId: ModelId, turn: Turn) returns (response: Option<Response>, outOfTime: bool)
      requires OnTime()
      modifies this`now, this`local, this`calls
      ensures OnTime() && now >= old(now) && local == old(local) + turn.setup
      ensures calls == old(calls) || OneMoreCall(old(calls), modelId)
      ensures response.Some? ==>
                && (turn.generated.Completed? || turn.generated.Rejected?)
                && response.value == turn.generated.response
                && (turn.generated.Completed? ==> response.value.modelId == modelId)
                && |calls| == |old(calls)| + 1
      ensures outOfTime ==> response.None? && deadline.Expired(now)
      ensures response.None? && !outOfTime ==> Unanswered(turn.generated, modelId)
      ensures |calls| > |old(calls)| ==> (outOfTime <==> CallOverruns(turn))
    {
      response, outOfTime := None, false;
      Compute(turn.setup);
      if deadline.Expired(now) {
        outOfTime := true;
        return;
      }
      if turn.generated.Unroutable? {
        RecordInference(turn.telemetryTime);
        return;
      }
      calls := calls + [Call(modelId, now)];
      var finished := Await(turn.providerTime, deadline.Remaining(now));
      if !finished {
        outOfTime := deadline.Expired(now);
      } else if turn.generated.Rejected? || (turn.generated.Completed? && turn.generated.response.modelId == modelId) {
        response := Some(turn.generated.response);
      }
      RecordInference(turn.telemetryTime);
    }

    /** Whether a record asked for at `at` is written: exactly if the write is configured and finishes in time. */
    predicate Written(at: real, turn: Turn) {
      && telemetryConfigured && !turn.recordFails && at < deadline.expiresAt
      && turn.recordTime <= Smaller(deadline.Remaining(at), telemetryTimeout)
    }

    /** How long the write takes, cut off at its timeout. */
    function WritingTime(at: real, turn: Turn): Duration {
      if telemetryConfigured && at < deadline.expiresAt
      then Smaller(turn.recordTime, Smaller(deadline.Remaining(at), telemetryTimeout)) else 0.0
    }

    /** The durable record: written if and only if it is configured, time is left and the write succeeds within it. */
    method RecordExecution(record: Record, turn: Turn)
      requires OnTime()
      modifies this`now, this`records, this`asked
      ensures OnTime() && asked == Some(old(now)) && now == old(now) + WritingTime(old(now), turn)
      ensures records == if Written(old(now), turn) then old(records) + [record] else old(records)
      ensures records == old(records) + [record] <==>
                && telemetryConfigured && !turn.recordFails && old(now) < deadline.expiresAt
                && turn.recordTime <= Smaller(deadline.Remaining(old(now)), telemetryTimeout)
    {
      asked := Some(now);
      if telemetryConfigured {
        var timeout := deadline.ConstrainTimeout(now, telemetryTimeout);
        if timeout.Some? {
          var finished := Await(turn.recordTime, timeout.value);
          if finished && !turn.recordFails {
            records := records + [record];
          }
        }
      }
    }

    /** One attempt up to its verdict, with the deadline read before the call, after it and after validation. */
    method Try(modelId: ModelId, turn: Turn) returns (answer: Answer)
      requires OnTime()
      modifies this`now, this`local, this`calls
      ensures OnTime() && now >= old(now) && local <= old(local) + OwnTime(turn) - turn.settling
      ensures calls == old(calls) || OneMoreCall(old(calls), modelId)
      ensures answer.TimedOut? || (answer.Threw? && answer.outOfTime) ==> deadline.Expired(now)
      ensures answer.Threw? && !answer.outOfTime ==> Unanswered(turn.generated, modelId)
      ensures answer.Judged? ==>
                && (turn.generated.Completed? || turn.generated.Rejected?)
                && answer.response == turn.generated.response
                && (turn.generated.Completed? ==> answer.response.modelId == modelId)
                && |calls| == |old(calls)| + 1 && !CallOverruns(turn)
      ensures |calls| > |old(calls)| ==> (answer == Threw(true) <==> CallOverruns(turn))
    {
      if deadline.Expired(now) {
        return TimedOut;
      }
      var response, outOfTime := Generate(modelId, turn);
      if response.None? {
        return Threw(outOfTime);
      }
      Compute(turn.handling);
      if deadline.Expired(now) {
        return TimedOut;
      }
      Compute(turn.validatorTime);
      answer := if deadline.Expired(now) then TimedOut else Judged(response.value);
    }

    /** Models run in plan order, none after the deadline; the last attempt may end before its call. */
    ghost predicate CallsInOrder(plan: seq<ModelId>, tried: nat)
      reads this
    {
      && 1 <= tried <= |plan| && tried - 1 <= |calls| <= tried
      && forall k :: 0 <= k < |calls| ==>
           calls[k].modelId == plan[k] && start <= calls[k].startedAt < deadline.expiresAt
    }

    /** The request was settled: one metric, and a record exactly if its write went through. */
    ghost predicate Settled(turn: Turn, record: Record, signal: Signal)
      reads this
    {
      && asked.Some? && now == asked.value + WritingTime(asked.value, turn)
      && records == (if Written(asked.value, turn) then [record] else [])
      && signals == [signal]
    }

    /** The request ended between two steps, with neither record nor metric. */
    ghost predicate Abandoned()
      reads this
    {
      asked.None? && records == [] && signals == [] && deadline.Expired(now)
    }

    /** How a request that ended at attempt `tried` left its calls, records and metrics. */
    ghost predicate Accounted(plan: seq<ModelId>, turn: Turn, outcome: Outcome, attempts: seq<Attempt>, tried: nat)
      reads this
    {
      && CallsInOrder(plan, tried) && |attempts| <= |calls|
      && (Abandoned() || Settled(turn, RecordOf(plan, attempts, tried, outcome), SignalOf(attempts, tried, outcome)))
      && (outcome != Failure(DeadlineExceeded) ==> asked.Some?)
      && (outcome == Failure(DeadlineExceeded) && asked.Some? ==> deadline.Expired(asked.value))
      // a judged response came in time; a call that did not is settled, not abandoned
      && (|attempts| == tried ==> !CallOverruns(turn))
      && (outcome == Failure(DeadlineExceeded) && |calls| == tried ==> (asked.Some? <==> CallOverruns(turn)))
    }

    /**
      When a request has a row: exactly if it did not end at its deadline and the write is
      configured, does not fail, and finishes within its own timeout and by the deadline.
    */
    lemma RowExactly(plan: seq<ModelId>, turn: Turn, outcome: Outcome, attempts: seq<Attempt>, tried: nat)
      requires Accounted(plan, turn, outcome, attempts, tried)
      ensures records == [] || records == [RecordOf(plan, attempts, tried, outcome)]
      ensures records != [] <==>
                && outcome != Failure(DeadlineExceeded)
                && telemetryConfigured && !turn.recordFails && turn.recordTime <= telemetryTimeout
                && asked.value < deadline.expiresAt && asked.value + turn.recordTime <= deadline.expiresAt
      ensures outcome == Failure(DeadlineExceeded) ==> records == [] && deadline.Expired(now)
      ensures signals == [] <==> asked.None?
    {
    }

    /** Leaves the loop with a record and a metric. */
    method Settle(record: Record, signal: Signal, turn: Turn)
      requires OnTime() && records == [] && signals == []
      modifies this`now, this`local, this`records, this`signals, this`asked
      ensures OnTime() && now >= old(now) && local == old(local) + turn.settling
      ensures Settled(turn, record, signal) && asked == Some(old(now) + turn.settling)
    {
      Compute(turn.settling);
      RecordExecution(record, turn);
      signals := [signal];
    }

    /** The exit of a call that raised. */
    method Raise(plan: seq<ModelId>, judged: seq<Attempt>, tried: nat, outOfTime: bool, turn: Turn)
      returns (outcome: Outcome)
      requires OnTime() && records == [] && signals == [] && |judged| + 1 == tried && plan != []
      modifies this`now, this`local, this`records, this`signals, this`asked
      ensures OnTime() && now >= old(now) && local == old(local) + turn.settling
      ensures outcome == Failure(if outOfTime then DeadlineExceeded else ProviderFailure)
      ensures Settled(turn, RecordOf(plan, judged, tried, outcome), SignalOf(judged, tried, outcome))
      ensures asked.value >= old(now)
    {
      var terminal := if outOfTime then DeadlineExceeded else ProviderFailure;
      outcome := Failure(terminal);
      var status := if |judged| > 0 then judged[|judged| - 1].status else NotRun;
      var record := Record(
        plan[0], None, tried, tried > 1, status, terminal, KnownCost(judged), false, TotalLatency(judged),
        if |judged| > 0 then Some(VALIDATOR_VERSION) else None, ValidationTime(judged), []);
      var signal := Signal(terminal, tried > 1, false, tried, status);
      assert record == RecordOf(plan, judged, tried, outcome) && signal == SignalOf(judged, tried, outcome);
      Settle(record, signal, turn);
    }

    /** The exit of a response that passed. */
    method Return(plan: seq<ModelId>, attempts: seq<Attempt>, turn: Turn, response: Response) returns (outcome: Outcome)
      requires OnTime() && records == [] && signals == [] && plan != []
      requires attempts != [] && attempts[|attempts| - 1].status == turn.validation.status == Passed
      requires forall k :: 0 <= k < |attempts| - 1 ==> attempts[k].status == FailedChecks
      modifies this`now, this`local, this`records, this`signals, this`asked
      ensures OnTime() && now >= old(now) && local == old(local) + turn.settling
      ensures outcome == Success(response, ExecutionOf(attempts, Passed))
      ensures Settled(turn, RecordOf(plan, attempts, |attempts|, outcome), SignalOf(attempts, |attempts|, outcome))
    {
      var execution := ExecutionOf(attempts, turn.validation.status);
      outcome := Success(response, execution);
      var record := Record(
        plan[0], Some(response.modelId), |attempts|, |attempts| > 1, turn.validation.status, Returned,
        KnownCost(attempts), execution.totalCost.Some?, execution.totalLatency,
        Some(VALIDATOR_VERSION), ValidationTime(attempts), []);
      var recovered := |attempts| > 1 && exists k :: 0 <= k < |attempts| - 1 && attempts[k].status == FailedChecks;
      var signal := Signal(Returned, |attempts| > 1, recovered, |attempts|, turn.validation.status);
      assert |attempts| > 1 ==> attempts[0].status == FailedChecks;
      assert record == RecordOf(plan, attempts, |attempts|, outcome);
      Settle(record, signal, turn);
    }

    /** The exit of a response that failed for good. */
    method GiveUp(plan: seq<ModelId>, attempts: seq<Attempt>, turn: Turn) returns (outcome: Outcome)
      requires OnTime() && records == [] && signals == [] && plan != [] && attempts != []
      requires attempts[|attempts| - 1].status == turn.validation.status
      requires attempts[|attempts| - 1].codes == Codes(turn.validation.failures)
      modifies this`now, this`local, this`records, this`signals, this`asked
      ensures OnTime() && now >= old(now) && local == old(local) + turn.settling
      ensures outcome == Failure(ValidationFailed)
      ensures Settled(turn, RecordOf(plan, attempts, |attempts|, outcome), SignalOf(attempts, |attempts|, outcome))
    {
      var execution := ExecutionOf(attempts, turn.validation.status);
      outcome := Failure(ValidationFailed);
      var record := Record(
        plan[0], None, |attempts|, |attempts| > 1, turn.validation.status, ValidationFailed,
        KnownCost(attempts), execution.totalCost.Some?, execution.totalLatency,
        Some(VALIDATOR_VERSION), ValidationTime(attempts), Codes(turn.validation.failures));
      var signal := Signal(ValidationFailed, |attempts| > 1, false, |attempts|, turn.validation.status);
      assert record == RecordOf(plan, attempts, |attempts|, outcome);
      Settle(record, signal, turn);
    }

    /** Acts on the verdict of attempt i + 1: return, give up, or go on with the next model. */
    method Conclude(plan: seq<ModelId>, world: seq<Turn>, judged: seq<Attempt>, i: nat, response: Response)
      returns (outcome: Option<Outcome>, attempts: seq<Attempt>)
      requires i < |plan| <= |world| && Retrying(plan, world, judged, i)
      requires world[i].generated.Completed? || world[i].generated.Rejected?
      requires response == world[i].generated.response
      requires world[i].generated.Completed? ==> response.modelId == plan[i]
      requires OnTime() && records == [] && signals == [] && asked.None?
      requires CallsInOrder(plan, i + 1) && |calls| == i + 1 && !CallOverruns(world[i])
      modifies this`now, this`local, this`records, this`signals, this`asked
      ensures OnTime() && now >= old(now) && local <= old(local) + world[i].settling
      ensures outcome.None? ==>
                && records == [] && signals == [] && asked.None?
                && i + 1 < |plan| && Retrying(plan, world, attempts, i + 1)
      ensures outcome.Some? ==>
                && Bounded(plan, world, outcome.value, attempts, i + 1)
                && Accounted(plan, world[i], outcome.value, attempts, i + 1)
      // on to the next model exactly if one is left and the response failed in recoverable ways only
      ensures var verdict := world[i].validation;
              outcome.None? <==>
                && i + 1 < |plan| && verdict.status == FailedChecks && verdict.failures != []
                && forall f :: f in verdict.failures ==> f.recoverable
    {
      var turn := world[i];
      attempts := judged + [AttemptOf(i + 1, plan[i], turn)];
      assert attempts[..i] == judged;
      outcome := None;
      if turn.validation.status == Passed {
        var returned := Return(plan, attempts, turn, response);
        outcome := Some(returned);
      } else if !Recoverable(turn.validation) || i + 1 == |plan| {
        var failed := GiveUp(plan, attempts, turn);
        outcome := Some(failed);
      }
    }

    /** One round of the loop: try the next model and act on what came back. */
    method Round(plan: seq<ModelId>, world: seq<Turn>, judged: seq<Attempt>, i: nat)
      returns (outcome: Option<Outcome>, attempts: seq<Attempt>)
      requires i < |plan| <= |world| && Retrying(plan, world, judged, i)
      requires OnTime() && records == [] && signals == [] && asked.None?
      requires |calls| == i && CallsInOrder(plan, i + 1)
      modifies this`now, this`local, this`calls, this`records, this`signals, this`asked
      ensures OnTime() && now >= old(now) && local <= old(local) + OwnTime(world[i])
      ensures outcome.None? ==>
                && records == [] && signals == [] && asked.None? && i + 1 < |plan|
                && |calls| == i + 1 && CallsInOrder(plan, i + 2) && Retrying(plan, world, attempts, i + 1)
      ensures outcome.Some? ==>
                && Bounded(plan, world, outcome.value, attempts, i + 1)
                && Accounted(plan, world[i], outcome.value, attempts, i + 1)
      ensures var verdict := world[i].validation;
              outcome.None? ==>
                && verdict.status == FailedChecks && verdict.failures != []
                && forall f :: f in verdict.failures ==> f.recoverable
    {
      attempts := judged;
      assert judged[..i] == judged;
      var answer := Try(plan[i], world[i]);
      if answer.TimedOut? {
        outcome := Some(Failure(DeadlineExceeded));
      } else if answer.Threw? {
        var raised := Raise(plan, judged, i + 1, answer.outOfTime, world[i]);
        outcome := Some(raised);
      } else {
        outcome, attempts := Conclude(plan, world, judged, i, answer.response);
      }
    }

    /** Tries the models of a plan in order; the loop is always left from inside. */
    method RunPlan(plan: seq<ModelId>, world: seq<Turn>)
      returns (outcome: Outcome, attempts: seq<Attempt>, tried: nat)
      requires 0 < |plan| <= |world|
      requires OnTime() && Untouched()
      modifies this`now, this`local, this`calls, this`records, this`signals, this`asked
      ensures OnTime() && now >= old(now)
      ensures 1 <= tried <= |plan| && local <= old(local) + TotalOwnTime(world[..tried])
      ensures Bounded(plan, world, outcome, attempts, tried)
      ensures Accounted(plan, world[tried - 1], outcome, attempts, tried)
      // each earlier attempt failed in recoverable ways only; giving up early takes one that did not
      ensures forall k :: 0 <= k < tried - 1 ==>
                && world[k].validation.status == FailedChecks && world[k].validation.failures != []
                && forall f :: f in world[k].validation.failures ==> f.recoverable
      ensures outcome == Failure(ValidationFailed) && tried < |plan| ==>
                var verdict := world[tried - 1].validation;
                || verdict.status != FailedChecks || verdict.failures == []
                || exists f :: f in verdict.failures && !f.recoverable
    {
      attempts := [];
      for i := 0 to |plan|
        invariant i < |plan|
        invariant OnTime() && now >= old(now) && records == [] && signals == [] && asked.None?
        invariant local <= old(local) + TotalOwnTime(world[..i])
        invariant |calls| == i && CallsInOrder(plan, i + 1) && Retrying(plan, world, attempts, i)
      {
        tried := i + 1;
        assert world[..tried][..i] == world[..i];
        var conclusion;
        conclusion, attempts := Round(plan, world, attempts, i);
        if conclusion.Some? {
          outcome := conclusion.value;
          return;
        }
      }
      assert false;
    }

    /**
      The validated path of the adaptive service. `tried` is the number of the attempt at which it
      ended and `attempts` the ones whose response was judged.
    */
    method GenerateValidated(decision: Decision, candidates: seq<Candidate>, maxAttempts: nat, world: seq<Turn>)
      returns (outcome: Outcome, attempts: seq<Attempt>, tried: nat)
      requires 1 <= maxAttempts <= 3 && |world| == maxAttempts
      requires OnTime() && Untouched()
      modifies this`now, this`local, this`calls, this`records, this`signals, this`asked
      ensures 1 <= tried <= maxAttempts
      // the request ends by its deadline, give or take the time spent outside awaited steps
      ensures now <= deadline.expiresAt + old(local) + TotalOwnTime(world[..tried])
      ensures Bounded(Plan(decision, candidates, maxAttempts), world, outcome, attempts, tried)
      ensures Accounted(Plan(decision, candidates, maxAttempts), world[tried - 1], outcome, attempts, tried)
      ensures forall k :: 0 <= k < tried - 1 ==>
                && world[k].validation.status == FailedChecks && world[k].validation.failures != []
                && forall f :: f in world[k].validation.failures ==> f.recoverable
      ensures outcome == Failure(ValidationFailed) && tried < |Plan(decision, candidates, maxAttempts)| ==>
                var verdict := world[tried - 1].validation;
                || verdict.status != FailedChecks || verdict.failures == []
                || exists f :: f in verdict.failures && !f.recoverable
      // a row exactly if the request did not end at its deadline and the write went through in time
      ensures var turn := world[tried - 1];
              records != [] <==>
                && outcome != Failure(DeadlineExceeded)
                && telemetryConfigured && !turn.recordFails && turn.recordTime <= telemetryTimeout
                && asked.value < deadline.expiresAt && asked.value + turn.recordTime <= deadline.expiresAt
    {
      var plan := Plan(decision, candidates, maxAttempts);
      outcome, attempts, tried := RunPlan(plan, world);
      RowExactly(plan, world[tried - 1], outcome, attempts, tried);
    }

    /** Routing and validated execution together: the models called are the cheapest qualifying ones, in order. */
    method GenerateRouted(candidates: seq<Candidate>, threshold: real, maxAttempts: nat, world: seq<Turn>)
      returns (outcome: Result<Outcome, RoutingError>, attempts: seq<Attempt>, tried: nat)
      requires 1 <= maxAttempts <= 3 && |world| == maxAttempts
      requires OnTime() && Untouched()
      modifies this`now, this`local, this`calls, this`records, this`signals, this`asked
      ensures outcome.Err? <==> Route(candidates, threshold).Err?
      ensures outcome.Err? ==> Untouched()
      ensures outcome.Ok? ==>
                var decision := Route(candidates, threshold).value;
                var cheapest := Sort(CheaperOrEqual, Qualifying(candidates, threshold));
                && 1 <= tried <= maxAttempts
                && Bounded(Plan(decision, candidates, maxAttempts), world, outcome.value, attempts, tried)
                && Accounted(Plan(decision, candidates, maxAttempts), world[tried - 1], outcome.value, attempts, tried)
                && (!decision.fallback ==>
                      |calls| <= |cheapest| && forall k :: 0 <= k < |calls| ==> calls[k].modelId == cheapest[k].id)
                && (decision.fallback ==>
                      |calls| <= 1 && forall k :: 0 <= k < |calls| ==> calls[k].modelId == decision.selected.id)
    {
      var routed := Route(candidates, threshold);
      if routed.Err? {
        return Err(routed.error), [], 0;
      }
      var result;
      result, attempts, tried := GenerateValidated(routed.value, candidates, maxAttempts, world);
      outcome := Ok(result);
      PlannedIds(candidates, threshold, maxAttempts);
    }
  }

  /** The ids of a plan one by one. */
  lemma {:induction false} PlannedIds(candidates: seq<Candidate>, threshold: real, maxAttempts: nat)
    requires Route(candidates, threshold).Ok? && maxAttempts > 0
    ensures var decision := Route(candidates, threshold).value;
            var plan := Plan(decision, candidates, maxAttempts);
            var cheapest := Sort(CheaperOrEqual, Qualifying(candidates, threshold));
            && (!decision.fallback ==>
                  |plan| <= |cheapest| && forall k :: 0 <= k < |plan| ==> plan[k] == cheapest[k].id)
            && (decision.fallback ==> plan == [decision.selected.id])
  {
    PlanIsCheapestFirst(candidates, threshold, maxAttempts);
  }

  /** A call that takes a second longer than the deadline allows, with nothing wrong about telemetry. */
  const SLOW_CALL := Turn(
    0.0, Completed(Response("model", 61.0, 0.0)), 61.0, 0.0, 0.0, Validation(Passed, [], 0.0), 0.0, 0.0, 0.0, false)

  /** A request that ends at its deadline and has no row, although the store is there and would answer at once. */
  method DeadlineLeavesNoRow() returns (gateway: Gateway, outcome: Outcome)
    ensures gateway.telemetryConfigured && !SLOW_CALL.recordFails && SLOW_CALL.recordTime <= gateway.telemetryTimeout
    ensures outcome == Failure(DeadlineExceeded) && gateway.records == []
  {
    gateway := new Gateway(0.0, 60.0, 2.0, true);
    var candidate := Candidate("model", 1.0, 0.0);
    var attempts, tried;
    var decision := Decision(candidate, 0.5, false, 1, 1);
    outcome, attempts, tried := gateway.GenerateValidated(decision, [candidate], 1, [SLOW_CALL]);
  }
}
