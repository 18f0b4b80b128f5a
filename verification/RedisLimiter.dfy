/**
  The Redis side of admission: two counters with expiries, updated in place by the admission
  script, and the client that sends the script and decodes its reply.

  `log` is ghost. `Valid` ties every counter to the log, so each method is proved against the
  reference of module RateLimit, and what is proved there about runs holds of this store.
*/
module RedisLimiter {
  import opened Common
  import opened FixedWindow
  import opened RateLimit

  /** A Redis string holding an integer, with its optional expiry time. */
  datatype Entry = Entry(count: int, expiresAt: Option<int>)

  /** Redis expires a key only once the clock has passed its expiry time. */
  predicate Alive(entries: map<Key, Entry>, key: Key, now: int) {
    key in entries && (entries[key].expiresAt.Some? ==> now <= entries[key].expiresAt.value)
  }

  /** The counter of `key` is what the window of some hits says. */
  ghost predicate Mirrors(hits: seq<Hit>, window: nat, now: int, entries: map<Key, Entry>, key: Key) {
    if Open(hits, window, now)
    then key in entries && entries[key] == Entry(Used(hits, window, now), Some(Opening(hits, window).value + window))
    else !Alive(entries, key, now)
  }

  /** The counter of `key` is what its window in the log says. */
  ghost predicate Represents(settings: Settings, history: History, entries: map<Key, Entry>, key: Key) {
    Mirrors(HitsOf(history.log, key), settings.WindowMs(key), history.now, entries, key)
  }

  /** A counter after `INCRBY` and, if it had no expiry, `PEXPIRE`. */
  function Bumped(window: nat, entries: map<Key, Entry>, key: Key, weight: nat, now: int): Entry {
    var expiresAt := if Alive(entries, key, now) then entries[key].expiresAt else None;
    Entry((if Alive(entries, key, now) then entries[key].count else 0) + weight,
          if expiresAt.None? then Some(now + window) else expiresAt)
  }

  lemma RepresentsLater(settings: Settings, history: History, entries: map<Key, Entry>, key: Key, ms: nat)
    requires Lawful(settings, history) && Represents(settings, history, entries, key)
    ensures Represents(settings, Next(settings, history, Elapse(ms)), entries, key)
  {
    HitsOrdered(history.log, key, history.now);
    UsedLater(HitsOf(history.log, key), settings.WindowMs(key), history.now, history.now + ms);
  }

  /** A bumped counter is what the window says once the hit is added to it. */
  lemma BumpedMirrors(hits: seq<Hit>, window: nat, now: int, weight: nat, entries: map<Key, Entry>, key: Key)
    requires Chronological(hits + [Hit(now, weight)]) && Mirrors(hits, window, now, entries, key)
    ensures Mirrors(hits + [Hit(now, weight)], window, now,
                    entries[key := Bumped(window, entries, key, weight, now)], key)
  {
    UsedAfterHit(hits, Hit(now, weight), window);
  }

  lemma MirrorsOneEntry(hits: seq<Hit>, window: nat, now: int, entries: map<Key, Entry>, others: map<Key, Entry>,
                        key: Key)
    requires key in entries <==> key in others
    requires key in entries ==> entries[key] == others[key]
    ensures Mirrors(hits, window, now, entries, key) == Mirrors(hits, window, now, others, key)
  {
  }

  /** A bumped counter agrees with the longer log. */
  lemma RepresentsTouched(settings: Settings, history: History, entries: map<Key, Entry>, bumped: map<Key, Entry>,
                          admission: Admission, key: Key)
    requires Lawful(settings, history) && Represents(settings, history, entries, key)
    requires admission.at == history.now && (key == GlobalKey || key == ClientKey(admission.client))
    requires key in bumped
             && bumped[key] == Bumped(settings.WindowMs(key), entries, key, admission.weight, history.now)
    ensures Represents(settings, history.(log := history.log + [admission]), bumped, key)
  {
    var window, now, hits := settings.WindowMs(key), history.now, HitsOf(history.log, key);
    HitsAppend(history.log, admission, key);
    HitsOrdered(history.log, key, now);
    BumpedMirrors(hits, window, now, admission.weight, entries, key);
    MirrorsOneEntry(hits + [Hit(now, admission.weight)], window, now,
                    entries[key := Bumped(window, entries, key, admission.weight, now)], bumped, key);
  }

  /** A counter that was not bumped still agrees with the log. */
  lemma RepresentsUntouched(settings: Settings, history: History, entries: map<Key, Entry>, bumped: map<Key, Entry>,
                            admission: Admission, key: Key)
    requires Represents(settings, history, entries, key)
    requires key != GlobalKey && key != ClientKey(admission.client)
    requires (key in entries <==> key in bumped) && (key in entries ==> entries[key] == bumped[key])
    ensures Represents(settings, history.(log := history.log + [admission]), bumped, key)
  {
    HitsAppend(history.log, admission, key);
    assert HitsOf(history.log + [admission], key) == HitsOf(history.log, key);
    MirrorsOneEntry(HitsOf(history.log, key), settings.WindowMs(key), history.now, entries, bumped, key);
  }

  lemma RepresentsAfterAdmission(settings: Settings, history: History, entries: map<Key, Entry>, client: Digest,
                                 kind: Kind, key: Key)
    requires Lawful(settings, history) && Represents(settings, history, entries, key)
    requires Admits(settings, history.log, client, settings.Weight(kind), history.now)
    ensures var weight := settings.Weight(kind);
            var own, all := ClientKey(client), GlobalKey;
            var bumped := entries[own := Bumped(settings.WindowMs(own), entries, own, weight, history.now)]
                                 [all := Bumped(settings.WindowMs(all), entries, all, weight, history.now)];
            Represents(settings, Next(settings, history, Call(client, kind)), bumped, key)
  {
    var weight, own, all := settings.Weight(kind), ClientKey(client), GlobalKey;
    var admission := Admission(history.now, client, weight);
    var bumped := entries[own := Bumped(settings.WindowMs(own), entries, own, weight, history.now)]
                         [all := Bumped(settings.WindowMs(all), entries, all, weight, history.now)];
    if key == all || key == own {
      RepresentsTouched(settings, history, entries, bumped, admission, key);
    } else {
      RepresentsUntouched(settings, history, entries, bumped, admission, key);
    }
  }

  class Redis {
    const settings: Settings
    var now: int
    var entries: map<Key, Entry>
    ghost var log: seq<Admission>

    ghost function History(): History
      reads this
    {
      RateLimit.History(now, log)
    }

    predicate Live(key: Key)
      reads this
    {
      Alive(entries, key, now)
    }

    /** `GET key`, with a missing key read as 0. */
    function Get(key: Key): int
      reads this
    {
      if Live(key) then entries[key].count else 0
    }

    /** `PTTL key`: -2 without a key, -1 without an expiry. */
    function Pttl(key: Key): int
      reads this
    {
      if !Live(key) then -2
      else if entries[key].expiresAt.None? then -1
      else entries[key].expiresAt.value - now
    }

    ghost predicate Valid()
      reads this
    {
      settings.Valid() && Lawful(settings, History()) && forall key :: Represents(settings, History(), entries, key)
    }

    constructor (settings: Settings, start: int)
      requires settings.Valid()
      ensures Valid() && this.settings == settings && History() == RateLimit.History(start, [])
    {
      this.settings := settings;
      now, entries, log := start, map[], [];
    }

    /** Time passes. */
    method Tick(ms: nat)
      requires Valid()
      modifies this`now
      ensures Valid() && History() == Next(settings, old(History()), Elapse(ms))
    {
      NextLawful(settings, History(), Elapse(ms));
      forall key
        ensures Represents(settings, Next(settings, History(), Elapse(ms)), entries, key)
      {
        RepresentsLater(settings, History(), entries, key, ms);
      }
      now := now + ms;
    }

    /** `INCRBY key amount` keeps the expiry of a live key and creates a missing one without expiry. */
    method IncrBy(key: Key, amount: int) returns (count: int)
      modifies this`entries
      ensures count == old(Get(key)) + amount
      ensures entries == old(entries)[key := Entry(count, if old(Live(key)) then old(entries)[key].expiresAt else None)]
    {
      count := Get(key) + amount;
      entries := entries[key := Entry(count, if Live(key) then entries[key].expiresAt else None)];
    }

    /** `PEXPIRE key ms` for a live key. */
    method PExpire(key: Key, ms: nat)
      requires Live(key)
      modifies this`entries
      ensures entries == old(entries)[key := old(entries)[key].(expiresAt := Some(now + ms))]
    {
      entries := entries[key := entries[key].(expiresAt := Some(now + ms))];
    }

    /** Every live counter is the weight admitted in its window, within capacity, and ends within one window. */
    lemma {:induction false} LiveCounters(key: Key)
      requires Valid() && Live(key)
      ensures var hits, window := HitsOf(log, key), settings.WindowMs(key);
              && Opening(hits, window).Some?
              && Get(key) == Weight(hits, Opening(hits, window).value, now + 1) <= settings.Capacity(key)
              && entries[key].expiresAt == Some(Opening(hits, window).value + window)
              && 0 <= Pttl(key) <= window
      ensures key.ClientKey? ==>
                Get(key) <= settings.clientCapacity && Pttl(key) <= settings.clientWindowSeconds * 1000
      ensures key.GlobalKey? ==>
                Get(key) <= settings.globalCapacity && Pttl(key) <= settings.globalWindowSeconds * 1000
    {
      assert Represents(settings, History(), entries, key) && KeyCapped(settings, log, key);
      HitsOrdered(log, key, now);
      LastHitInWindow(HitsOf(log, key), settings.WindowMs(key));
      UsedWithinCapacity(HitsOf(log, key), settings.WindowMs(key), settings.Capacity(key), now);
    }

    /** Counters answer what the log answers. */
    lemma CountersAgree(key: Key)
      requires Valid()
      ensures Get(key) == UsedBy(settings, log, key, now)
      ensures Pttl(key) == Remaining(settings, log, key, now)
    {
      assert Represents(settings, History(), entries, key);
    }

    /** The script's rejecting branch. */
    method Refuse(client: Digest, weight: nat, clientBlocked: bool, globalBlocked: bool) returns (reply: seq<int>)
      requires Valid() && (clientBlocked || globalBlocked)
      requires clientBlocked == Blocked(settings, log, ClientKey(client), weight, now)
      requires globalBlocked == Blocked(settings, log, GlobalKey, weight, now)
      ensures reply == [0, RetryMs(settings, log, client, weight, now), Scope(settings, log, client, weight, now)]
    {
      var own, all := ClientKey(client), GlobalKey;
      CountersAgree(own);
      CountersAgree(all);
      var retryMs, scope := 0, 0;
      if clientBlocked {
        var ttl := Pttl(own);
        if ttl < 1 {
          ttl := settings.WindowMs(own);
        }
        retryMs, scope := ttl, 1;
      }
      if globalBlocked {
        var ttl := Pttl(all);
        if ttl < 1 {
          ttl := settings.WindowMs(all);
        }
        if ttl > retryMs {
          retryMs := ttl;
        }
        scope := if scope == 1 then 3 else 2;
      }
      reply := [0, retryMs, scope];
    }

    /** The script's admitting branch. */
    method Spend(client: Digest, weight: nat) returns (newClient: int, newGlobal: int)
      modifies this`entries
      ensures var own, all := ClientKey(client), GlobalKey;
              entries == old(entries)[own := old(Bumped(settings.WindowMs(own), entries, own, weight, now))]
                                     [all := old(Bumped(settings.WindowMs(all), entries, all, weight, now))]
      ensures newClient == entries[ClientKey(client)].count == old(Get(ClientKey(client))) + weight
      ensures newGlobal == entries[GlobalKey].count == old(Get(GlobalKey)) + weight
    {
      var own, all := ClientKey(client), GlobalKey;
      newClient := IncrBy(own, weight);
      if Pttl(own) < 0 {
        PExpire(own, settings.WindowMs(own));
      }
      newGlobal := IncrBy(all, weight);
      if Pttl(all) < 0 {
        PExpire(all, settings.WindowMs(all));
      }
    }

    /** Both counters and the log grew by one admission; a counter that was not alive lasts one window from now. */
    ghost predicate Admitted(before: map<Key, Entry>, logBefore: seq<Admission>, client: Digest, weight: nat)
      reads this
    {
      var own, all := ClientKey(client), GlobalKey;
      && log == logBefore + [Admission(now, client, weight)]
      && entries.Keys == before.Keys + {own, all}
      && (forall key :: key in before && key != own && key != all ==> entries[key] == before[key])
      && entries[own] == (if Alive(before, own, now) then before[own].(count := before[own].count + weight)
                          else Entry(weight, Some(now + settings.clientWindowSeconds * 1000)))
      && entries[all] == (if Alive(before, all, now) then before[all].(count := before[all].count + weight)
                          else Entry(weight, Some(now + settings.globalWindowSeconds * 1000)))
    }

    /** The admission script, whose two arguments about each key come from the settings. */
    method Eval(client: Digest, kind: Kind) returns (reply: seq<int>)
      requires Valid()
      modifies this`entries, this`log
      ensures Valid() && History() == Next(settings, old(History()), Call(client, kind))
      // the decision, from the two counters and the weight of the kind
      ensures var weight := if kind.Explicit? then settings.explicitWeight else settings.adaptiveWeight;
              (|reply| == 4 && reply[0] == 1) <==>
                && old(Get(ClientKey(client))) + weight <= settings.clientCapacity
                && old(Get(GlobalKey)) + weight <= settings.globalCapacity
      ensures |reply| == 4 ==>
                var weight := if kind.Explicit? then settings.explicitWeight else settings.adaptiveWeight;
                && Admitted(old(entries), old(log), client, weight)
                && reply == [1, 0, settings.clientCapacity - entries[ClientKey(client)].count,
                             settings.globalCapacity - entries[GlobalKey].count]
      ensures |reply| != 4 ==>
                var weight := if kind.Explicit? then settings.explicitWeight else settings.adaptiveWeight;
                && entries == old(entries) && log == old(log)
                && reply == [0, RetryMs(settings, log, client, weight, now), Scope(settings, log, client, weight, now)]
    {
      var own, all, weight := ClientKey(client), GlobalKey, settings.Weight(kind);
      CountersAgree(own);
      CountersAgree(all);
      var clientUsed, globalUsed := Get(own), Get(all);
      var clientBlocked := clientUsed + weight > settings.clientCapacity;
      var globalBlocked := globalUsed + weight > settings.globalCapacity;
      if clientBlocked || globalBlocked {
        reply := Refuse(client, weight, clientBlocked, globalBlocked);
      } else {
        ghost var after := Next(settings, History(), Call(client, kind));
        ghost var bumped := entries[own := Bumped(settings.WindowMs(own), entries, own, weight, now)]
                                   [all := Bumped(settings.WindowMs(all), entries, all, weight, now)];
        NextLawful(settings, History(), Call(client, kind));
        forall key
          ensures Represents(settings, after, bumped, key)
        {
          RepresentsAfterAdmission(settings, History(), entries, client, kind, key);
        }
        var newClient, newGlobal := Spend(client, weight);
        log := log + [Admission(now, client, weight)];
        reply := [1, 0, settings.clientCapacity - newClient, settings.globalCapacity - newGlobal];
      }
    }
  }

  /** Any sequence of calls and pauses drives the store through exactly the reference run. */
  method Drive(settings: Settings, start: int, steps: seq<Step>) returns (redis: Redis)
    requires settings.Valid()
    ensures fresh(redis) && redis.Valid() && redis.settings == settings
    ensures redis.History() == Run(settings, start, steps)
  {
    redis := new Redis(settings, start);
    for i := 0 to |steps|
      invariant fresh(redis) && redis.Valid() && redis.settings == settings
      invariant redis.History() == Run(settings, start, steps[..i])
    {
      RunAppend(settings, start, steps[..i], steps[i]);
      assert steps[..i] + [steps[i]] == steps[..i + 1];
      match steps[i]
      case Elapse(ms) => redis.Tick(ms);
      case Call(client, kind) => var reply := redis.Eval(client, kind);
    }
    assert steps[..|steps|] == steps;
  }

  // ---------- The client of the store ----------

  datatype ScopeName = Client | Global | Both

  datatype Outcome =
    | Proceed
    | RateLimited(retryAfterSeconds: int, scope: ScopeName)
    | Unavailable
    | DeadlineExceeded

  /** A reply as the driver returns it; an item is None when it does not convert to an integer. */
  datatype Reply = NotAList | Items(items: seq<Option<int>>)

  function Decode(reply: Reply): Outcome {
    if reply.NotAList? || |reply.items| < 2 || reply.items[0].None? || reply.items[1].None? then Unavailable
    else if reply.items[0].value == 1 then Proceed
    else if reply.items[0].value != 0 then Unavailable
    else if |reply.items| < 3 || reply.items[2].None? then Unavailable
    else
      var retryAfter := Max(1, (reply.items[1].value + 999) / 1000);
      match reply.items[2].value
      case 1 => RateLimited(retryAfter, Client)
      case 2 => RateLimited(retryAfter, Global)
      case 3 => RateLimited(retryAfter, Both)
      case _ => Unavailable
  }

  /** Only a reply that starts with a one and another number admits; the rest of it is not looked at. */
  lemma DecodeProceeds(reply: Reply)
    ensures Decode(reply) == Proceed <==>
              reply.Items? && |reply.items| >= 2 && reply.items[0] == Some(1) && reply.items[1].Some?
  {
  }

  /** Only a zero, a number and a known scope reject with a Retry-After; it is at least a second and never early. */
  lemma DecodeRejects(reply: Reply)
    ensures Decode(reply).RateLimited? <==>
              && reply.Items? && |reply.items| >= 3
              && reply.items[0] == Some(0) && reply.items[1].Some?
              && reply.items[2] in {Some(1), Some(2), Some(3)}
    ensures Decode(reply).RateLimited? ==>
              var seconds, ms := Decode(reply).retryAfterSeconds, reply.items[1].value;
              seconds >= 1 && ms <= 1000 * seconds && (seconds > 1 ==> 1000 * (seconds - 1) < ms)
    ensures Decode(reply) != DeadlineExceeded
  {
  }

  /** What the network does with one call; `expired` is the deadline's state when a timeout is caught. */
  datatype Network =
    | Delivered
    | Altered(reply: Reply)
    | NotSent(timedOut: bool, expired: bool)
    | ReplyLost(timedOut: bool, expired: bool)

  /** Whether something comes back from the call. */
  predicate Answered(network: Network) {
    network.Delivered? || network.Altered?
  }

  function Failure(network: Network): Outcome
    requires !Answered(network)
  {
    if network.timedOut && network.expired then DeadlineExceeded else Unavailable
  }

  /** The history after a call: time on the way, a step of the script if it arrives, time on the way back. */
  function Called(settings: Settings, history: History, client: Digest, kind: Kind, network: Network, there: nat,
                  back: nat): History {
    var arrived := Next(settings, history, Elapse(there));
    Next(settings, if network.NotSent? then arrived else Next(settings, arrived, Call(client, kind)), Elapse(back))
  }

  /** What the script decides when the call arrives. */
  ghost predicate AdmitsOnArrival(redis: Redis, client: Digest, kind: Kind, there: nat)
    reads redis
  {
    var settings, at := redis.settings, redis.now + there;
    var weight := if kind.Explicit? then settings.explicitWeight else settings.adaptiveWeight;
    && UsedBy(settings, redis.log, ClientKey(client), at) + weight <= settings.clientCapacity
    && UsedBy(settings, redis.log, GlobalKey, at) + weight <= settings.globalCapacity
  }

  /** The script's reply when it refuses a call, as the driver returns it. */
  ghost predicate Refusal(reply: Reply, settings: Settings, log: seq<Admission>, client: Digest, weight: nat, at: int) {
    var retryMs, scope := RetryMs(settings, log, client, weight, at), Scope(settings, log, client, weight, at);
    reply == Items([Some(0), Some(retryMs), Some(scope)])
  }

  /** An outcome names the retry delay and exactly the keys that blocked. */
  ghost predicate Explains(outcome: Outcome, settings: Settings, log: seq<Admission>, client: Digest, weight: nat,
                           at: int) {
    && outcome.RateLimited?
    && outcome.retryAfterSeconds == RetryAfter(RetryMs(settings, log, client, weight, at))
    && (outcome.scope != Global <==> Blocked(settings, log, ClientKey(client), weight, at))
    && (outcome.scope != Client <==> Blocked(settings, log, GlobalKey, weight, at))
  }

  lemma RefusalDecoded(reply: Reply, settings: Settings, log: seq<Admission>, client: Digest, weight: nat, at: int)
    requires Refusal(reply, settings, log, client, weight, at) && !Admits(settings, log, client, weight, at)
    ensures Explains(Decode(reply), settings, log, client, weight, at)
  {
  }

  /** Runs the script and returns its reply as the driver does. */
  method Evaluate(redis: Redis, client: Digest, kind: Kind) returns (reply: Reply)
    requires redis.Valid()
    modifies redis
    ensures redis.Valid() && redis.History() == Next(redis.settings, old(redis.History()), Call(client, kind))
    ensures old(AdmitsOnArrival(redis, client, kind, 0)) ==> Decode(reply) == Proceed
    ensures !old(AdmitsOnArrival(redis, client, kind, 0)) ==>
              Refusal(reply, redis.settings, old(redis.log), client, redis.settings.Weight(kind), old(redis.now))
  {
    var items := redis.Eval(client, kind);
    reply := Items(seq(|items|, i requires 0 <= i < |items| => Some(items[i])));
  }

  /** Sends the script over the network; None when no reply comes back. */
  method Send(redis: Redis, client: Digest, kind: Kind, network: Network, there: nat, back: nat)
    returns (reply: Option<Reply>)
    requires redis.Valid()
    modifies redis
    ensures redis.Valid()
    ensures redis.History() == Called(redis.settings, old(redis.History()), client, kind, network, there, back)
    ensures reply.Some? <==> Answered(network)
    ensures network.Altered? ==> reply == Some(network.reply)
    ensures network.Delivered? && old(AdmitsOnArrival(redis, client, kind, there)) ==> Decode(reply.value) == Proceed
    ensures network.Delivered? && !old(AdmitsOnArrival(redis, client, kind, there)) ==>
              Refusal(reply.value, redis.settings, old(redis.log), client, redis.settings.Weight(kind),
                      old(redis.now) + there)
  {
    reply := None;
    redis.Tick(there);
    if !network.NotSent? {
      var own := Evaluate(redis, client, kind);
      reply := if network.Delivered? then Some(own) else if network.Altered? then Some(network.reply) else None;
    }
    redis.Tick(back);
  }

  /**
    Admission fails closed: a call proceeds only on a reply that says so, which is the script's own
    unless something altered it. A lost or altered reply can spend capacity on a call that does not
    proceed. The call takes time in both directions, and the script decides by the time of arrival.
  */
  method Admit(redis: Redis, client: Digest, kind: Kind, expired: bool, network: Network, there: nat, back: nat)
    returns (outcome: Outcome)
    requires redis.Valid()
    modifies redis
    ensures redis.Valid()
    ensures redis.History() ==
            if expired then old(redis.History())
            else Called(redis.settings, old(redis.History()), client, kind, network, there, back)
    // what is charged: nothing, or the weight of the kind at the time of arrival
    ensures var weight := if kind.Explicit? then redis.settings.explicitWeight else redis.settings.adaptiveWeight;
            redis.log == if !expired && !network.NotSent? && old(AdmitsOnArrival(redis, client, kind, there))
                         then old(redis.log) + [Admission(old(redis.now) + there, client, weight)] else old(redis.log)
    ensures outcome == DeadlineExceeded <==> expired || (!Answered(network) && network.timedOut && network.expired)
    ensures !expired && network.Altered? ==> outcome == Decode(network.reply)
    ensures !expired && network.Delivered? ==>
              if old(AdmitsOnArrival(redis, client, kind, there)) then outcome == Proceed
              else Explains(outcome, redis.settings, old(redis.log), client, redis.settings.Weight(kind),
                            old(redis.now) + there)
    ensures outcome == Proceed ==>
              !expired && ((network.Delivered? && old(AdmitsOnArrival(redis, client, kind, there))) || network.Altered?)
  {
    if expired {
      return DeadlineExceeded;
    }
    var reply := Send(redis, client, kind, network, there, back);
    if reply.None? {
      return Failure(network);
    }
    outcome := Decode(reply.value);
    ghost var weight, at := redis.settings.Weight(kind), old(redis.now) + there;
    if network.Delivered? && !old(AdmitsOnArrival(redis, client, kind, there)) {
      RefusalDecoded(reply.value, redis.settings, old(redis.log), client, weight, at);
    }
    DecodeRejects(reply.value);
  }
}
