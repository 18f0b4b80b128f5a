/**
  Fixed windows read off a log of admissions, with no counter and no expiry.

  A window opens with the first hit that no earlier window covers and stays open for
  `window` more milliseconds, the last one included. This is the reference that the Redis
  counters of module RateLimit are proved to refine, and the place where the bound over
  arbitrary time intervals is proved.
*/
module FixedWindow {
  import opened Common

  /** One admitted request as one counter sees it. */
  datatype Hit = Hit(at: int, weight: nat)

  ghost predicate Chronological(hits: seq<Hit>) {
    forall i, j :: 0 <= i < j < |hits| ==> hits[i].at <= hits[j].at
  }

  /** Total weight of the hits in the half-open interval [from, until). */
  function Weight(hits: seq<Hit>, from: int, until: int): nat {
    if hits == [] then 0
    else
      var last := hits[|hits| - 1];
      Weight(hits[..|hits| - 1], from, until) + if from <= last.at < until then last.weight else 0
  }

  /** When the most recent window opened. */
  function Opening(hits: seq<Hit>, window: nat): Option<int> {
    if hits == [] then None
    else
      var last := hits[|hits| - 1];
      var before := Opening(hits[..|hits| - 1], window);
      if before.Some? && last.at <= before.value + window then before else Some(last.at)
  }

  /** Whether a window is open at time `now`. */
  predicate Open(hits: seq<Hit>, window: nat, now: int) {
    Opening(hits, window).Some? && now <= Opening(hits, window).value + window
  }

  /** Weight already spent in the window that is open at time `now`. */
  function Used(hits: seq<Hit>, window: nat, now: int): nat {
    if Open(hits, window, now) then Weight(hits, Opening(hits, window).value, now + 1) else 0
  }

  /** Every hit fitted under the capacity when it was admitted. */
  ghost predicate Capped(hits: seq<Hit>, window: nat, capacity: nat) {
    hits == [] ||
    var before, last := hits[..|hits| - 1], hits[|hits| - 1];
    && Capped(before, window, capacity)
    && Used(before, window, last.at) + last.weight <= capacity
  }

  // ---------- Structure of the log ----------

  lemma {:induction false} WeightAfterEnd(hits: seq<Hit>, from: int, until: int, until': int)
    requires forall i :: 0 <= i < |hits| ==> hits[i].at < until && hits[i].at < until'
    ensures Weight(hits, from, until) == Weight(hits, from, until')
  {
    if hits != [] {
      WeightAfterEnd(hits[..|hits| - 1], from, until, until');
    }
  }

  lemma {:induction false} WeightBeforeStart(hits: seq<Hit>, from: int, until: int)
    requires forall i :: 0 <= i < |hits| ==> hits[i].at < from
    ensures Weight(hits, from, until) == 0
  {
    if hits != [] {
      WeightBeforeStart(hits[..|hits| - 1], from, until);
    }
  }

  lemma {:induction false} WeightMonotone(hits: seq<Hit>, from: int, until: int, from': int, until': int)
    requires from' <= from && until <= until'
    ensures Weight(hits, from, until) <= Weight(hits, from', until')
  {
    if hits != [] {
      WeightMonotone(hits[..|hits| - 1], from, until, from', until');
    }
  }

  /** The last window covers the last hit, and no hit opens a window after its own time. */
  lemma {:induction false} LastHitInWindow(hits: seq<Hit>, window: nat)
    requires hits != [] && Chronological(hits)
    ensures Opening(hits, window).Some?
    ensures Opening(hits, window).value <= hits[|hits| - 1].at <= Opening(hits, window).value + window
  {
    if |hits| > 1 {
      LastHitInWindow(hits[..|hits| - 1], window);
    }
  }

  lemma {:induction false} WeightAppend(hits: seq<Hit>, hit: Hit, from: int, until: int)
    ensures Weight(hits + [hit], from, until) ==
            Weight(hits, from, until) + if from <= hit.at < until then hit.weight else 0
  {
    assert (hits + [hit])[..|hits|] == hits;
  }

  lemma {:induction false} OpeningAppend(hits: seq<Hit>, hit: Hit, window: nat)
    ensures Opening(hits + [hit], window) ==
            if Open(hits, window, hit.at) then Opening(hits, window) else Some(hit.at)
  {
    assert (hits + [hit])[..|hits|] == hits;
  }

  /** A hit in the open window adds its weight. */
  lemma UsedJoining(hits: seq<Hit>, hit: Hit, window: nat)
    requires Chronological(hits + [hit]) && Open(hits, window, hit.at)
    ensures Used(hits + [hit], window, hit.at) == Used(hits, window, hit.at) + hit.weight
  {
    LastBefore(hits, hit);
    LastHitInWindow(hits, window);
    OpeningAppend(hits, hit, window);
    WeightAppend(hits, hit, Opening(hits, window).value, hit.at + 1);
  }

  /** A hit outside any window opens one that holds nothing else. */
  lemma UsedOpening(hits: seq<Hit>, hit: Hit, window: nat)
    requires Chronological(hits + [hit]) && !Open(hits, window, hit.at)
    ensures Used(hits + [hit], window, hit.at) == hit.weight
  {
    OpeningAppend(hits, hit, window);
    WeightAppend(hits, hit, hit.at, hit.at + 1);
    if hits != [] {
      LastBefore(hits, hit);
      LastHitInWindow(hits, window);
      WeightBeforeStart(hits, hit.at, hit.at + 1);
    }
  }

  /** Appending a hit extends the open window or opens a fresh one, and adds its weight. */
  lemma {:induction false} UsedAfterHit(hits: seq<Hit>, hit: Hit, window: nat)
    requires Chronological(hits + [hit])
    ensures Used(hits + [hit], window, hit.at) == Used(hits, window, hit.at) + hit.weight
    ensures Opening(hits + [hit], window) ==
            if Open(hits, window, hit.at) then Opening(hits, window) else Some(hit.at)
  {
    OpeningAppend(hits, hit, window);
    if Open(hits, window, hit.at) {
      UsedJoining(hits, hit, window);
    } else {
      UsedOpening(hits, hit, window);
    }
  }

  lemma LastBefore(hits: seq<Hit>, hit: Hit)
    requires Chronological(hits + [hit])
    ensures Chronological(hits)
    ensures forall i :: 0 <= i < |hits| ==> hits[i].at <= hits[|hits| - 1].at <= hit.at
  {
    var longer := hits + [hit];
    assert longer[|hits|] == hit;
    assert forall i :: 0 <= i < |hits| ==> hits[i] == longer[i];
  }

  /** Without further hits the weight in use stays the same until the window ends, then drops to zero. */
  lemma UsedLater(hits: seq<Hit>, window: nat, now: int, later: int)
    requires now <= later
    requires forall i :: 0 <= i < |hits| ==> hits[i].at <= now
    ensures Used(hits, window, later) ==
            if Open(hits, window, later) then Used(hits, window, now) else 0
  {
    if Open(hits, window, later) {
      WeightAfterEnd(hits, Opening(hits, window).value, now + 1, later + 1);
    }
  }

  lemma ChronologicalPrefix(hits: seq<Hit>, n: nat)
    requires n <= |hits| && Chronological(hits)
    ensures Chronological(hits[..n])
  {
    assert forall i :: 0 <= i < n ==> hits[..n][i] == hits[i];
  }

  lemma {:induction false} CappedPrefix(hits: seq<Hit>, n: nat, window: nat, capacity: nat)
    requires n <= |hits| && Capped(hits, window, capacity)
    ensures Capped(hits[..n], window, capacity)
  {
    if n < |hits| {
      CappedPrefix(hits[..|hits| - 1], n, window, capacity);
      assert hits[..|hits| - 1][..n] == hits[..n];
    } else {
      assert hits[..n] == hits;
    }
  }

  lemma {:induction false} CappedAppend(hits: seq<Hit>, hit: Hit, window: nat, capacity: nat)
    requires Capped(hits, window, capacity)
    requires Used(hits, window, hit.at) + hit.weight <= capacity
    ensures Capped(hits + [hit], window, capacity)
  {
    assert (hits + [hit])[..|hits|] == hits;
  }

  /** At the time of its last hit a capped log has spent at most the capacity. */
  lemma {:induction false} UsedWithinCapacity(hits: seq<Hit>, window: nat, capacity: nat, now: int)
    requires Chronological(hits) && Capped(hits, window, capacity)
    requires hits != [] ==> hits[|hits| - 1].at <= now
    ensures Used(hits, window, now) <= capacity
  {
    if hits != [] {
      UsedAtLast(hits, window, capacity);
      UsedLater(hits, window, hits[|hits| - 1].at, now);
    }
  }

  lemma {:induction false} UsedAtLast(hits: seq<Hit>, window: nat, capacity: nat)
    requires hits != [] && Chronological(hits) && Capped(hits, window, capacity)
    ensures Used(hits, window, hits[|hits| - 1].at) <= capacity
  {
    var before, last := hits[..|hits| - 1], hits[|hits| - 1];
    assert before + [last] == hits;
    UsedAfterHit(before, last, window);
  }

  // ---------- How much can be admitted in an interval ----------

  /** k * x by repeated addition, which keeps the inductions below linear. */
  ghost function Times(k: nat, x: nat): nat {
    if k == 0 then 0 else Times(k - 1, x) + x
  }

  lemma {:induction false} TimesIsProduct(k: nat, x: nat)
    ensures Times(k, x) == k * x
  {
    if k > 0 {
      TimesIsProduct(k - 1, x);
      assert (k - 1) * x + x == k * x;
    }
  }

  /** What the last of two or more hits did: join the window that was open, or open the next one. */
  lemma LastStep(hits: seq<Hit>, window: nat, capacity: nat, from: int)
    requires |hits| > 1 && Chronological(hits) && Capped(hits, window, capacity)
    ensures var n := |hits| - 1;
            var before, previous, last := hits[..n], hits[n - 1], hits[n];
            && Chronological(before) && Capped(before, window, capacity)
            && Opening(hits, window).Some? && Opening(before, window).Some?
            && previous.at <= Opening(before, window).value + window
            && Weight(hits, from, last.at + 1) ==
               Weight(before, from, previous.at + 1) + (if from <= last.at then last.weight else 0)
            && (if last.at <= Opening(before, window).value + window
                then Opening(hits, window) == Opening(before, window)
                     && Used(hits, window, last.at) == Used(before, window, previous.at) + last.weight
                else Opening(hits, window) == Some(last.at)
                     && Used(hits, window, last.at) == last.weight
                     && Used(before, window, previous.at) <= capacity)
  {
    var n := |hits| - 1;
    var before, previous, last := hits[..n], hits[n - 1], hits[n];
    assert hits == before + [last] && before[n - 1] == previous;
    ChronologicalPrefix(hits, n);
    CappedPrefix(hits, n, window, capacity);
    LastHitInWindow(before, window);
    UsedAfterHit(before, last, window);
    UsedLater(before, window, previous.at, last.at);
    UsedWithinCapacity(before, window, capacity, previous.at);
    WeightAppend(before, last, from, last.at + 1);
    WeightAfterEnd(before, from, previous.at + 1, last.at + 1);
  }

  lemma SingleHit(hit: Hit, window: nat, from: int)
    ensures Opening([hit], window) == Some(hit.at)
    ensures Used([hit], window, hit.at) == hit.weight
    ensures Weight([hit], from, hit.at + 1) == if from <= hit.at then hit.weight else 0
  {
    assert [] + [hit] == [hit];
    UsedAfterHit([], hit, window);
    WeightAppend([], hit, from, hit.at + 1);
  }

  /**
    If the last window opened early enough that at most `spare` earlier windows reach `from`,
    then everything admitted since `from` fits in `spare` capacities and the last window.
  */
  lemma {:induction false} WindowsReachingBack(hits: seq<Hit>, window: nat, capacity: nat, from: int, spare: nat)
    requires hits != [] && Chronological(hits) && Capped(hits, window, capacity)
    requires Opening(hits, window).Some?
    requires Opening(hits, window).value + window < from + Times(spare + 1, window + 1)
    ensures var last := hits[|hits| - 1];
            Weight(hits, from, last.at + 1) <= Times(spare, capacity) + Used(hits, window, last.at)
  {
    var n := |hits| - 1;
    if n == 0 {
      assert hits == [hits[0]];
      SingleHit(hits[0], window, from);
    } else {
      var before, previous, last := hits[..n], hits[n - 1], hits[n];
      LastStep(hits, window, capacity, from);
      if last.at <= Opening(before, window).value + window {
        WindowsReachingBack(before, window, capacity, from, spare);
      } else if spare > 0 {
        WindowsReachingBack(before, window, capacity, from, spare - 1);
      } else {
        assert forall i :: 0 <= i < n ==> before[i].at <= previous.at < from;
        WeightBeforeStart(before, from, previous.at + 1);
      }
    }
  }

  /** As WindowsReachingBack, one millisecond shorter: the earliest window's first hit is then outside. */
  lemma {:induction false} WindowsReachingBackStrictly(hits: seq<Hit>, window: nat, capacity: nat, from: int,
                                                       spare: nat)
    requires hits != [] && Chronological(hits) && Capped(hits, window, capacity)
    requires capacity > 0 && forall i :: 0 <= i < |hits| ==> hits[i].weight > 0
    requires Opening(hits, window).Some?
    requires Opening(hits, window).value + window + 1 < from + Times(spare + 1, window + 1)
    ensures var last := hits[|hits| - 1];
            Weight(hits, from, last.at + 1) < Times(spare, capacity) + Used(hits, window, last.at)
  {
    var n := |hits| - 1;
    assert hits[n].weight > 0;
    if n == 0 {
      assert hits == [hits[0]];
      SingleHit(hits[0], window, from);
    } else {
      var before, previous, last := hits[..n], hits[n - 1], hits[n];
      LastStep(hits, window, capacity, from);
      if last.at <= Opening(before, window).value + window {
        WindowsReachingBackStrictly(before, window, capacity, from, spare);
      } else if spare > 0 {
        WindowsReachingBackStrictly(before, window, capacity, from, spare - 1);
      } else {
        assert forall i :: 0 <= i < n ==> before[i].at <= previous.at < from;
        WeightBeforeStart(before, from, previous.at + 1);
      }
    }
  }

  /** The hits strictly before `until`, which are a prefix of a chronological log. */
  lemma {:induction false} PrefixBefore(hits: seq<Hit>, until: int) returns (n: nat)
    requires Chronological(hits)
    ensures n <= |hits|
    ensures forall i :: 0 <= i < n ==> hits[i].at < until
    ensures forall from :: Weight(hits[..n], from, until) == Weight(hits, from, until)
  {
    n := |hits|;
    assert hits[..n] == hits;
    while n > 0 && hits[n - 1].at >= until
      invariant 0 <= n <= |hits|
      invariant forall from :: Weight(hits[..n], from, until) == Weight(hits, from, until)
    {
      assert hits[..n][..n - 1] == hits[..n - 1];
      n := n - 1;
    }
    assert n > 0 ==> forall i :: 0 <= i < n ==> hits[i].at <= hits[n - 1].at;
  }

  /** The log up to `until` and what it needs for the two lemmas above. */
  lemma PrefixFacts(hits: seq<Hit>, window: nat, capacity: nat, from: int, until: int) returns (seen: seq<Hit>)
    requires Chronological(hits) && Capped(hits, window, capacity)
    ensures seen <= hits && Chronological(seen) && Capped(seen, window, capacity)
    ensures seen == [] ==> Weight(hits, from, until) == 0
    ensures seen != [] ==>
              var last := seen[|seen| - 1];
              && Opening(seen, window).Some? && Opening(seen, window).value < until
              && Weight(hits, from, until) == Weight(seen, from, last.at + 1)
              && Used(seen, window, last.at) <= capacity
  {
    var n := PrefixBefore(hits, until);
    seen := hits[..n];
    ChronologicalPrefix(hits, n);
    CappedPrefix(hits, n, window, capacity);
    assert Weight(seen, from, until) == Weight(hits, from, until);
    if n > 0 {
      var last := seen[n - 1];
      LastHitInWindow(seen, window);
      UsedWithinCapacity(seen, window, capacity, last.at);
      WeightAfterEnd(seen, from, last.at + 1, until);
    }
  }

  /**
    No k * (window + 1) + 1 consecutive milliseconds see more than k + 1 capacities.
    The bound is attained (RateLimit.BurstsAttainTheBound).
  */
  lemma IntervalBound(hits: seq<Hit>, window: nat, capacity: nat, k: nat, from: int)
    requires Chronological(hits) && Capped(hits, window, capacity)
    ensures Weight(hits, from, from + k * (window + 1) + 1) <= (k + 1) * capacity
  {
    TimesIsProduct(k, window + 1);
    TimesIsProduct(k + 1, capacity);
    var seen := PrefixFacts(hits, window, capacity, from, from + Times(k, window + 1) + 1);
    if seen != [] {
      WindowsReachingBack(seen, window, capacity, from, k);
    }
  }

  /** One millisecond less, and k + 1 whole capacities no longer fit; k window lengths are shorter still. */
  lemma {:induction false} IntervalBoundStrict(
      hits: seq<Hit>, window: nat, capacity: nat, k: nat, from: int, until: int)
    requires Chronological(hits) && Capped(hits, window, capacity)
    requires capacity > 0 && forall i :: 0 <= i < |hits| ==> hits[i].weight > 0
    requires until <= from + k * (window + 1)
    ensures Weight(hits, from, until) < (k + 1) * capacity
  {
    TimesIsProduct(k, window + 1);
    TimesIsProduct(k + 1, capacity);
    var seen := PrefixFacts(hits, window, capacity, from, until);
    if seen != [] {
      WindowsReachingBackStrictly(seen, window, capacity, from, k);
    }
  }
}
