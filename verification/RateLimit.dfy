/**
  Admission control over two expiring Redis counters, one per client and one global.

  Redis keeps a key alive through the exact millisecond of its expiry, so PTTL can be zero
  for a key that still counts. Time is in whole milliseconds and stands still while the
  admission script runs.
*/
module RateLimit {
  import opened Common
  import opened FixedWindow

  type Digest = string

  datatype Kind = Explicit | Adaptive

  datatype Key = ClientKey(digest: Digest) | GlobalKey

  datatype Settings = Settings(
    clientCapacity: nat, clientWindowSeconds: nat,
    globalCapacity: nat, globalWindowSeconds: nat,
    explicitWeight: nat, adaptiveWeight: nat)
  {
    /** The field bounds and the rule that both weights fit both capacities. */
    predicate Valid() {
      && 0 < clientCapacity <= 1_000_000 && 0 < clientWindowSeconds <= 86_400
      && 0 < globalCapacity <= 10_000_000 && 0 < globalWindowSeconds <= 86_400
      && 0 < explicitWeight <= 1_000_000 && 0 < adaptiveWeight <= 1_000_000
      && explicitWeight <= clientCapacity && explicitWeight <= globalCapacity
      && adaptiveWeight <= clientCapacity && adaptiveWeight <= globalCapacity
    }

    function Weight(kind: Kind): nat {
      if kind.Explicit? then explicitWeight else adaptiveWeight
    }

    function Capacity(key: Key): nat {
      if key.GlobalKey? then globalCapacity else clientCapacity
    }

    function WindowMs(key: Key): nat {
      if key.GlobalKey? then globalWindowSeconds * 1000 else clientWindowSeconds * 1000
    }
  }

  // ---------- The reference: decisions read off the log of admissions ----------

  datatype Admission = Admission(at: int, client: Digest, weight: nat)

  /** The admissions that a key counts. */
  function HitsOf(log: seq<Admission>, key: Key): seq<Hit> {
    if log == [] then []
    else
      var last := log[|log| - 1];
      HitsOf(log[..|log| - 1], key)
      + if key == GlobalKey || key == ClientKey(last.client) then [Hit(last.at, last.weight)] else []
  }

  /** What the counter of `key` has used at time `now`. */
  function UsedBy(settings: Settings, log: seq<Admission>, key: Key, now: int): nat {
    Used(HitsOf(log, key), settings.WindowMs(key), now)
  }

  predicate Blocked(settings: Settings, log: seq<Admission>, key: Key, weight: nat, now: int) {
    UsedBy(settings, log, key, now) + weight > settings.Capacity(key)
  }

  predicate Admits(settings: Settings, log: seq<Admission>, client: Digest, weight: nat, now: int) {
    !Blocked(settings, log, ClientKey(client), weight, now) && !Blocked(settings, log, GlobalKey, weight, now)
  }

  /** Milliseconds until the end of the open window, zero in its last millisecond; negative if none is open. */
  function Remaining(settings: Settings, log: seq<Admission>, key: Key, now: int): int {
    var hits, window := HitsOf(log, key), settings.WindowMs(key);
    if Open(hits, window, now) then Opening(hits, window).value + window - now else -2
  }

  /** What one blocked key contributes to the retry delay. */
  function KeyRetryMs(settings: Settings, log: seq<Admission>, key: Key, weight: nat, now: int): nat {
    if !Blocked(settings, log, key, weight, now) then 0
    else if Remaining(settings, log, key, now) < 1 then settings.WindowMs(key)
    else Remaining(settings, log, key, now)
  }

  function Max(a: int, b: int): int {
    if a < b then b else a
  }

  function RetryMs(settings: Settings, log: seq<Admission>, client: Digest, weight: nat, now: int): nat {
    Max(KeyRetryMs(settings, log, ClientKey(client), weight, now), KeyRetryMs(settings, log, GlobalKey, weight, now))
  }

  /** Which counters blocked the call: 1 the client's, 2 the global one, 3 both. */
  function Scope(settings: Settings, log: seq<Admission>, client: Digest, weight: nat, now: int): int {
    (if Blocked(settings, log, ClientKey(client), weight, now) then 1 else 0)
    + (if Blocked(settings, log, GlobalKey, weight, now) then 2 else 0)
  }

  datatype History = History(now: int, log: seq<Admission>)

  datatype Step = Elapse(ms: nat) | Call(client: Digest, kind: Kind)

  function Next(settings: Settings, before: History, step: Step): History {
    match step
    case Elapse(ms) => before.(now := before.now + ms)
    case Call(client, kind) =>
      if Admits(settings, before.log, client, settings.Weight(kind), before.now)
      then before.(log := before.log + [Admission(before.now, client, settings.Weight(kind))])
      else before
  }

  /** What has been admitted after a run of calls and pauses that starts with no counters. */
  function Run(settings: Settings, start: int, steps: seq<Step>): History {
    if steps == [] then History(start, [])
    else Next(settings, Run(settings, start, steps[..|steps| - 1]), steps[|steps| - 1])
  }

  ghost predicate Ordered(log: seq<Admission>, now: int) {
    && (forall i :: 0 <= i < |log| ==> log[i].at <= now && log[i].weight > 0)
    && (forall i, j :: 0 <= i < j < |log| ==> log[i].at <= log[j].at)
  }

  ghost predicate KeyCapped(settings: Settings, log: seq<Admission>, key: Key) {
    Capped(HitsOf(log, key), settings.WindowMs(key), settings.Capacity(key))
  }

  /** What every reachable history satisfies. */
  ghost predicate Lawful(settings: Settings, history: History) {
    Ordered(history.log, history.now) && forall key :: KeyCapped(settings, history.log, key)
  }

  lemma {:induction false} HitsOrdered(log: seq<Admission>, key: Key, now: int)
    requires Ordered(log, now)
    ensures Chronological(HitsOf(log, key))
    ensures forall i :: 0 <= i < |HitsOf(log, key)| ==> HitsOf(log, key)[i].at <= now && HitsOf(log, key)[i].weight > 0
  {
    if log != [] {
      var n := |log| - 1;
      assert forall i :: 0 <= i < n ==> log[..n][i] == log[i];
      HitsOrdered(log[..n], key, log[n].at);
    }
  }

  lemma {:induction false} HitsAppend(log: seq<Admission>, admission: Admission, key: Key)
    ensures HitsOf(log + [admission], key) ==
            HitsOf(log, key) + if key == GlobalKey || key == ClientKey(admission.client)
                               then [Hit(admission.at, admission.weight)] else []
  {
    assert (log + [admission])[..|log|] == log;
  }

  lemma NextLawful(settings: Settings, before: History, step: Step)
    requires settings.Valid() && Lawful(settings, before)
    ensures Lawful(settings, Next(settings, before, step))
  {
    var after := Next(settings, before, step);
    if after.log != before.log {
      var weight := settings.Weight(step.kind);
      forall key
        ensures KeyCapped(settings, after.log, key)
      {
        assert KeyCapped(settings, before.log, key);
        HitsAppend(before.log, Admission(before.now, step.client, weight), key);
        if key == GlobalKey || key == ClientKey(step.client) {
          CappedAppend(HitsOf(before.log, key), Hit(before.now, weight),
                       settings.WindowMs(key), settings.Capacity(key));
        } else {
          assert HitsOf(after.log, key) == HitsOf(before.log, key);
        }
      }
    }
  }

  lemma {:induction false} RunLawful(settings: Settings, start: int, steps: seq<Step>)
    requires settings.Valid()
    ensures Lawful(settings, Run(settings, start, steps))
  {
    if steps != [] {
      RunLawful(settings, start, steps[..|steps| - 1]);
      NextLawful(settings, Run(settings, start, steps[..|steps| - 1]), steps[|steps| - 1]);
    }
  }

  // ---------- Whole runs ----------

  /**
    In every run, whatever the clients do and however time passes, the weight that one counter
    admits in k * (window + 1) + 1 consecutive milliseconds is at most k + 1 capacities, and in
    any interval of k windows it is strictly less.
  */
  lemma RunsRespectCapacity(settings: Settings, start: int, steps: seq<Step>, key: Key, window: nat, capacity: nat,
                            k: nat, from: int)
    requires settings.Valid() && window == settings.WindowMs(key) && capacity == settings.Capacity(key)
    ensures var hits := HitsOf(Run(settings, start, steps).log, key);
            && Weight(hits, from, from + k * (window + 1) + 1) <= (k + 1) * capacity
            && Weight(hits, from, from + k * window) < (k + 1) * capacity
  {
    RunFacts(settings, start, steps, key, window, capacity);
    HitsWithinCapacity(HitsOf(Run(settings, start, steps).log, key), window, capacity, k, from);
  }

  lemma {:induction false} RunFacts(
      settings: Settings, start: int, steps: seq<Step>, key: Key, window: nat, capacity: nat)
    requires settings.Valid() && window == settings.WindowMs(key) && capacity == settings.Capacity(key)
    ensures var hits := HitsOf(Run(settings, start, steps).log, key);
            && Chronological(hits) && Capped(hits, window, capacity) && capacity > 0
            && forall i :: 0 <= i < |hits| ==> hits[i].weight > 0
  {
    RunLawful(settings, start, steps);
    var history := Run(settings, start, steps);
    HitsOrdered(history.log, key, history.now);
    assert KeyCapped(settings, history.log, key);
  }

  lemma HitsWithinCapacity(hits: seq<Hit>, window: nat, capacity: nat, k: nat, from: int)
    requires Chronological(hits) && Capped(hits, window, capacity)
    requires capacity > 0 && forall i :: 0 <= i < |hits| ==> hits[i].weight > 0
    ensures Weight(hits, from, from + k * (window + 1) + 1) <= (k + 1) * capacity
    ensures Weight(hits, from, from + k * window) < (k + 1) * capacity
  {
    IntervalBound(hits, window, capacity, k, from);
    assert k * (window + 1) == k * window + k;
    IntervalBoundStrict(hits, window, capacity, k, from, from + k * window);
  }

  /** A call in [from, until) that counts for `key` and made the log longer. */
  predicate Charged(before: History, after: History, step: Step, key: Key, from: int, until: int) {
    && step.Call? && (key == GlobalKey || key == ClientKey(step.client))
    && |after.log| > |before.log| && from <= before.now < until
  }

  /** Which steps of a run are charged to `key` in [from, until). */
  function ChargedSteps(settings: Settings, start: int, steps: seq<Step>, key: Key, from: int, until: int)
    : (charged: seq<bool>)
    ensures |charged| == |steps|
  {
    if steps == [] then []
    else
      var n := |steps| - 1;
      ChargedSteps(settings, start, steps[..n], key, from, until)
      + [Charged(Run(settings, start, steps[..n]), Run(settings, start, steps), steps[n], key, from, until)]
  }

  /** The calls of one kind among the charged steps. */
  function CallsOf(steps: seq<Step>, charged: seq<bool>, kind: Kind): nat
    requires |charged| == |steps|
  {
    if steps == [] then 0
    else
      var n := |steps| - 1;
      CallsOf(steps[..n], charged[..n], kind)
      + if charged[n] && steps[n].Call? && steps[n].kind == kind then 1 else 0
  }

  /** Calls of one kind that were admitted in [from, until) and count for `key`. */
  function AdmittedCalls(settings: Settings, start: int, steps: seq<Step>, key: Key, kind: Kind, from: int, until: int)
    : nat
  {
    CallsOf(steps, ChargedSteps(settings, start, steps, key, from, until), kind)
  }

  lemma {:induction false} NextCharge(settings: Settings, before: History, step: Step, key: Key, from: int, until: int)
    ensures var after := Next(settings, before, step);
            var charge := if !Charged(before, after, step, key, from, until) then 0
                          else if step.kind == Explicit then settings.explicitWeight else settings.adaptiveWeight;
            Weight(HitsOf(after.log, key), from, until) == Weight(HitsOf(before.log, key), from, until) + charge
  {
    var after := Next(settings, before, step);
    if |after.log| > |before.log| {
      var admission := Admission(before.now, step.client, settings.Weight(step.kind));
      HitsAppend(before.log, admission, key);
      if key == GlobalKey || key == ClientKey(step.client) {
        WeightAppend(HitsOf(before.log, key), Hit(before.now, admission.weight), from, until);
      } else {
        assert HitsOf(before.log, key) + [] == HitsOf(before.log, key);
      }
    }
  }

  /** The explicit weight for every explicit call charged, and the adaptive one for every adaptive call. */
  ghost function Charges(steps: seq<Step>, charged: seq<bool>, explicitWeight: nat, adaptiveWeight: nat): nat
    requires |charged| == |steps|
  {
    Times(CallsOf(steps, charged, Explicit), explicitWeight) + Times(CallsOf(steps, charged, Adaptive), adaptiveWeight)
  }

  lemma NextCharges(
    steps: seq<Step>, charged: seq<bool>, step: Step, isCharged: bool, explicitWeight: nat, adaptiveWeight: nat)
    requires |charged| == |steps| && (isCharged ==> step.Call?)
    ensures Charges(steps + [step], charged + [isCharged], explicitWeight, adaptiveWeight) ==
            Charges(steps, charged, explicitWeight, adaptiveWeight)
            + if !isCharged then 0 else if step.kind == Explicit then explicitWeight else adaptiveWeight
  {
    assert (steps + [step])[..|steps|] == steps && (charged + [isCharged])[..|steps|] == charged;
  }

  /** What a key is charged in any interval of any run is what its admitted calls weigh. */
  lemma {:induction false} ChargedByKind(
    settings: Settings, start: int, steps: seq<Step>, key: Key, from: int, until: int)
    ensures Weight(HitsOf(Run(settings, start, steps).log, key), from, until) ==
            Charges(steps, ChargedSteps(settings, start, steps, key, from, until),
                    settings.explicitWeight, settings.adaptiveWeight)
  {
    if steps != [] {
      var n := |steps| - 1;
      var before, after := Run(settings, start, steps[..n]), Run(settings, start, steps);
      assert steps == steps[..n] + [steps[n]];
      ChargedByKind(settings, start, steps[..n], key, from, until);
      NextCharges(steps[..n], ChargedSteps(settings, start, steps[..n], key, from, until), steps[n],
                  Charged(before, after, steps[n], key, from, until),
                  settings.explicitWeight, settings.adaptiveWeight);
      NextCharge(settings, before, steps[n], key, from, until);
    }
  }

  lemma ChargesBounded(settings: Settings, start: int, steps: seq<Step>, key: Key, window: nat, capacity: nat,
                       k: nat, from: int, until: int)
    requires settings.Valid() && window == settings.WindowMs(key) && capacity == settings.Capacity(key)
    requires until == from + k * window
    ensures AdmittedCalls(settings, start, steps, key, Explicit, from, until) * settings.explicitWeight
            + AdmittedCalls(settings, start, steps, key, Adaptive, from, until) * settings.adaptiveWeight
            < (k + 1) * capacity
  {
    RunsRespectCapacity(settings, start, steps, key, window, capacity, k, from);
    ChargedByKind(settings, start, steps, key, from, until);
    TimesIsProduct(AdmittedCalls(settings, start, steps, key, Explicit, from, until), settings.explicitWeight);
    TimesIsProduct(AdmittedCalls(settings, start, steps, key, Adaptive, from, until), settings.adaptiveWeight);
  }

  /**
    The quota of one client: in any k of its windows its admitted explicit calls times the explicit
    weight and its admitted adaptive calls times the adaptive weight stay below k + 1 capacities.
  */
  lemma ClientQuota(settings: Settings, start: int, steps: seq<Step>, client: Digest, window: nat, capacity: nat,
                    k: nat, from: int, until: int)
    requires settings.Valid() && window == settings.clientWindowSeconds * 1000 && capacity == settings.clientCapacity
    requires until == from + k * window
    ensures AdmittedCalls(settings, start, steps, ClientKey(client), Explicit, from, until) * settings.explicitWeight
            + AdmittedCalls(settings, start, steps, ClientKey(client), Adaptive, from, until) * settings.adaptiveWeight
            < (k + 1) * capacity
  {
    ChargesBounded(settings, start, steps, ClientKey(client), window, capacity, k, from, until);
  }

  /** The quota of all clients together. */
  lemma GlobalQuota(settings: Settings, start: int, steps: seq<Step>, window: nat, capacity: nat,
                    k: nat, from: int, until: int)
    requires settings.Valid() && window == settings.globalWindowSeconds * 1000 && capacity == settings.globalCapacity
    requires until == from + k * window
    ensures AdmittedCalls(settings, start, steps, GlobalKey, Explicit, from, until) * settings.explicitWeight
            + AdmittedCalls(settings, start, steps, GlobalKey, Adaptive, from, until) * settings.adaptiveWeight
            < (k + 1) * capacity
  {
    ChargesBounded(settings, start, steps, GlobalKey, window, capacity, k, from, until);
  }

  /** One call per window, each as heavy as the whole capacity. */
  function Bursts(client: Digest, window: nat, k: nat): seq<Step> {
    if k == 0 then [Call(client, Explicit)]
    else Bursts(client, window, k - 1) + [Elapse(window + 1), Call(client, Explicit)]
  }

  /** After k + 1 bursts a window has just opened for a key that has admitted k + 1 capacities. */
  ghost predicate SaturatedKey(history: History, key: Key, window: nat, capacity: nat, k: nat) {
    && Opening(HitsOf(history.log, key), window) == Some(history.now)
    && Weight(HitsOf(history.log, key), 0, history.now + 1) == Times(k + 1, capacity)
  }

  ghost predicate Saturated(history: History, client: Digest, window: nat, capacity: nat, k: nat) {
    && history.now == Times(k, window + 1)
    && SaturatedKey(history, GlobalKey, window, capacity, k)
    && SaturatedKey(history, ClientKey(client), window, capacity, k)
  }

  /** Before burst k no window is open for a key that has admitted k capacities. */
  ghost predicate RestedKey(history: History, key: Key, window: nat, capacity: nat, k: nat) {
    && !Open(HitsOf(history.log, key), window, history.now)
    && Weight(HitsOf(history.log, key), 0, history.now + 1) == Times(k, capacity)
  }

  ghost predicate Rested(history: History, client: Digest, window: nat, capacity: nat, k: nat) {
    && history.now == Times(k, window + 1)
    && RestedKey(history, GlobalKey, window, capacity, k)
    && RestedKey(history, ClientKey(client), window, capacity, k)
  }

  /** One client may spend either capacity with a single call, and both windows are equally long. */
  ghost predicate Symmetric(settings: Settings, window: nat, capacity: nat) {
    && settings.Valid()
    && window == settings.WindowMs(GlobalKey) && settings.clientWindowSeconds == settings.globalWindowSeconds
    && settings.clientCapacity == settings.globalCapacity == settings.explicitWeight == capacity
  }

  lemma BurstKey(history: History, client: Digest, key: Key, window: nat, capacity: nat, k: nat)
    requires key == GlobalKey || key == ClientKey(client)
    requires history.now >= 0 && RestedKey(history, key, window, capacity, k)
    ensures SaturatedKey(history.(log := history.log + [Admission(history.now, client, capacity)]),
                         key, window, capacity, k)
  {
    HitsAppend(history.log, Admission(history.now, client, capacity), key);
    BurstHits(HitsOf(history.log, key), history.now, window, capacity, k);
  }

  lemma BurstHits(hits: seq<Hit>, now: nat, window: nat, capacity: nat, k: nat)
    requires !Open(hits, window, now) && Weight(hits, 0, now + 1) == Times(k, capacity)
    ensures Opening(hits + [Hit(now, capacity)], window) == Some(now)
    ensures Weight(hits + [Hit(now, capacity)], 0, now + 1) == Times(k + 1, capacity)
  {
    OpeningAppend(hits, Hit(now, capacity), window);
    WeightAppend(hits, Hit(now, capacity), 0, now + 1);
  }

  /** A call as heavy as the capacity is admitted when no window is open. */
  lemma Burst(settings: Settings, history: History, client: Digest, window: nat, capacity: nat, k: nat)
    requires Symmetric(settings, window, capacity) && Rested(history, client, window, capacity, k)
    ensures Saturated(Next(settings, history, Call(client, Explicit)), client, window, capacity, k)
  {
    BurstKey(history, client, GlobalKey, window, capacity, k);
    BurstKey(history, client, ClientKey(client), window, capacity, k);
  }

  /** One millisecond past its window, a saturated history has room for the next burst. */
  lemma Pause(settings: Settings, history: History, client: Digest, window: nat, capacity: nat, k: nat)
    requires Lawful(settings, history) && Saturated(history, client, window, capacity, k)
    ensures Rested(Next(settings, history, Elapse(window + 1)), client, window, capacity, k + 1)
  {
    PauseKey(settings, history, GlobalKey, window, capacity, k);
    PauseKey(settings, history, ClientKey(client), window, capacity, k);
  }

  lemma PauseKey(settings: Settings, history: History, key: Key, window: nat, capacity: nat, k: nat)
    requires Lawful(settings, history) && SaturatedKey(history, key, window, capacity, k)
    ensures RestedKey(history.(now := history.now + window + 1), key, window, capacity, k + 1)
  {
    HitsOrdered(history.log, key, history.now);
    WeightAfterEnd(HitsOf(history.log, key), 0, history.now + 1, history.now + window + 2);
  }

  lemma {:induction false} RunAppend(settings: Settings, start: int, steps: seq<Step>, step: Step)
    ensures Run(settings, start, steps + [step]) == Next(settings, Run(settings, start, steps), step)
  {
    assert (steps + [step])[..|steps|] == steps;
  }

  lemma {:induction false} NextBurst(
      settings: Settings, before: seq<Step>, client: Digest, window: nat, capacity: nat, k: nat)
    requires Symmetric(settings, window, capacity)
    requires Saturated(Run(settings, 0, before), client, window, capacity, k)
    ensures Saturated(Run(settings, 0, before + [Elapse(window + 1)] + [Call(client, Explicit)]),
                      client, window, capacity, k + 1)
  {
    var history := Run(settings, 0, before);
    RunLawful(settings, 0, before);
    Pause(settings, history, client, window, capacity, k);
    RunAppend(settings, 0, before, Elapse(window + 1));
    Burst(settings, Next(settings, history, Elapse(window + 1)), client, window, capacity, k + 1);
    RunAppend(settings, 0, before + [Elapse(window + 1)], Call(client, Explicit));
  }

  lemma {:induction false} FirstBurst(settings: Settings, client: Digest, window: nat, capacity: nat)
    requires Symmetric(settings, window, capacity)
    ensures Saturated(Run(settings, 0, [Call(client, Explicit)]), client, window, capacity, 0)
  {
    assert [] + [Call(client, Explicit)] == [Call(client, Explicit)];
    RunAppend(settings, 0, [], Call(client, Explicit));
    Burst(settings, History(0, []), client, window, capacity, 0);
  }

  lemma {:induction false} BurstHistory(settings: Settings, client: Digest, window: nat, capacity: nat, k: nat)
    requires Symmetric(settings, window, capacity)
    ensures Saturated(Run(settings, 0, Bursts(client, window, k)), client, window, capacity, k)
  {
    if k == 0 {
      FirstBurst(settings, client, window, capacity);
    } else {
      var before := Bursts(client, window, k - 1);
      BurstHistory(settings, client, window, capacity, k - 1);
      NextBurst(settings, before, client, window, capacity, k - 1);
      assert Bursts(client, window, k) == before + [Elapse(window + 1)] + [Call(client, Explicit)];
    }
  }

  /**
    RunsRespectCapacity cannot be improved: for every k the bound over k * (window + 1) + 1 milliseconds is
    reached.
  */
  lemma {:induction false} BurstsAttainTheBound(settings: Settings, client: Digest, window: nat, capacity: nat, k: nat)
    requires Symmetric(settings, window, capacity)
    ensures var log := Run(settings, 0, Bursts(client, window, k)).log;
            && Weight(HitsOf(log, ClientKey(client)), 0, k * (window + 1) + 1) == (k + 1) * capacity
            && Weight(HitsOf(log, GlobalKey), 0, k * (window + 1) + 1) == (k + 1) * capacity
  {
    BurstHistory(settings, client, window, capacity, k);
    TimesIsProduct(k, window + 1);
    TimesIsProduct(k + 1, capacity);
    var history := Run(settings, 0, Bursts(client, window, k));
    assert Opening(HitsOf(history.log, ClientKey(client)), window) == Some(history.now);
    assert Opening(HitsOf(history.log, GlobalKey), window) == Some(history.now);
  }

  // ---------- Retry-After ----------

  /** Retry-After in whole seconds. */
  function RetryAfter(retryMs: nat): nat {
    Max(1, (retryMs + 999) / 1000)
  }

  /** Milliseconds until the last blocking window ends. */
  function BlockedFor(settings: Settings, log: seq<Admission>, client: Digest, weight: nat, now: int): int {
    var own, all := ClientKey(client), GlobalKey;
    Max(if Blocked(settings, log, own, weight, now) then Remaining(settings, log, own, now) else 0,
        if Blocked(settings, log, all, weight, now) then Remaining(settings, log, all, now) else 0)
  }

  lemma BlockedLater(settings: Settings, history: History, key: Key, weight: nat, later: int)
    requires Lawful(settings, history) && history.now <= later
    requires weight <= settings.Capacity(key)
    ensures Blocked(settings, history.log, key, weight, later)
            <==> Blocked(settings, history.log, key, weight, history.now)
                 && later <= history.now + Remaining(settings, history.log, key, history.now)
    ensures Blocked(settings, history.log, key, weight, history.now) ==>
              0 <= Remaining(settings, history.log, key, history.now) <= settings.WindowMs(key)
  {
    var hits := HitsOf(history.log, key);
    HitsOrdered(history.log, key, history.now);
    if hits != [] {
      LastHitInWindow(hits, settings.WindowMs(key));
    }
    UsedLater(hits, settings.WindowMs(key), history.now, later);
  }

  /**
    A rejected call is admitted again exactly after the last blocking window has ended, if nothing else is
    admitted.
  */
  lemma AdmittedAgain(settings: Settings, history: History, client: Digest, kind: Kind, later: int)
    requires settings.Valid() && Lawful(settings, history) && history.now <= later
    requires !Admits(settings, history.log, client, settings.Weight(kind), history.now)
    ensures Admits(settings, history.log, client, settings.Weight(kind), later)
            <==> later > history.now + BlockedFor(settings, history.log, client, settings.Weight(kind), history.now)
    ensures BlockedFor(settings, history.log, client, settings.Weight(kind), history.now) >= 0
  {
    BlockedLater(settings, history, ClientKey(client), settings.Weight(kind), later);
    BlockedLater(settings, history, GlobalKey, settings.Weight(kind), later);
  }

  /**
    Retry-After is honest for every time strictly later than the header promises. At the promised
    millisecond itself the call is admitted exactly when the delay does not fall on the last
    millisecond of a blocking window. The header overshoots by less than a second unless a
    blocking window is in its last millisecond, when the script substitutes a whole window.
  */
  lemma RetryAfterHonest(settings: Settings, history: History, client: Digest, kind: Kind, later: int)
    requires settings.Valid() && Lawful(settings, history)
    requires !Admits(settings, history.log, client, settings.Weight(kind), history.now)
    ensures var weight := settings.Weight(kind);
            var blockedFor := BlockedFor(settings, history.log, client, weight, history.now);
            var delay := 1000 * RetryAfter(RetryMs(settings, history.log, client, weight, history.now));
            && (later > history.now + delay ==> Admits(settings, history.log, client, weight, later))
            && (Admits(settings, history.log, client, weight, history.now + delay) <==> delay != blockedFor)
            && ((forall key :: key == ClientKey(client) || key == GlobalKey ==>
                   Remaining(settings, history.log, key, history.now) != 0)
                ==> delay < blockedFor + 1000)
  {
    var weight := settings.Weight(kind);
    var delay := 1000 * RetryAfter(RetryMs(settings, history.log, client, weight, history.now));
    BlockedLater(settings, history, ClientKey(client), weight, history.now);
    BlockedLater(settings, history, GlobalKey, weight, history.now);
    AdmittedAgain(settings, history, client, kind, history.now + delay);
    AdmittedAgain(settings, history, client, kind, Max(history.now, later));
  }

  /** A client may spend one call a second. */
  const ONE_A_SECOND := Settings(1, 1, 10, 1, 1, 1)

  /**
    The exception happens: a call rejected with a Retry-After of one second is rejected again exactly a
    second later.
  */
  lemma RejectedAtRetryAfter(client: Digest)
    ensures var settings := ONE_A_SECOND;
            var history := Run(settings, 0, [Call(client, Explicit)]);
            && settings.Valid() && history.now == 0 && |history.log| == 1
            && !Admits(settings, history.log, client, settings.Weight(Explicit), 0)
            && RetryAfter(RetryMs(settings, history.log, client, settings.Weight(Explicit), 0)) == 1
            && !Admits(settings, history.log, client, settings.Weight(Explicit), 1000)
            && Admits(settings, history.log, client, settings.Weight(Explicit), 1001)
  {
    var settings, admission, hit := ONE_A_SECOND, Admission(0, client, 1), Hit(0, 1);
    var history := Run(settings, 0, [Call(client, Explicit)]);
    assert [] + [Call(client, Explicit)] == [Call(client, Explicit)];
    RunAppend(settings, 0, [], Call(client, Explicit));
    assert history.log == [] + [admission];
    HitsAppend([], admission, ClientKey(client));
    HitsAppend([], admission, GlobalKey);
    SingleHit(hit, 1000, 0);
    UsedLater([hit], 1000, 0, 1000);
    UsedLater([hit], 1000, 0, 1001);
  }
}
