/** Cost-aware selection, the escalation plan made from one routing snapshot, and what a threshold does to both. */
module Routing {
  import opened Common
  import opened Ordering

  type Money = r: real | r >= 0.0
  type ModelId = string

  datatype RoutingError = NoEligibleCandidates | InvalidThreshold | DuplicateCandidates

  datatype Candidate = Candidate(id: ModelId, probability: real, cost: Money)

  datatype Decision = Decision(selected: Candidate, threshold: real, fallback: bool, eligible: nat, qualifying: nat)

  predicate CheaperOrEqual(a: Candidate, b: Candidate) {
    a.cost < b.cost || (a.cost == b.cost && TextLe(a.id, b.id))
  }

  predicate LikelierOrEqual(a: Candidate, b: Candidate) {
    a.probability > b.probability || (a.probability == b.probability && CheaperOrEqual(a, b))
  }

  /** The first minimum. */
  function Least(le: (Candidate, Candidate) -> bool, s: seq<Candidate>): Candidate
    requires s != []
  {
    if |s| == 1 then s[0]
    else
      var rest := Least(le, s[1..]);
      if le(s[0], rest) then s[0] else rest
  }

  function Qualifying(candidates: seq<Candidate>, threshold: real): seq<Candidate> {
    if candidates == [] then []
    else (if candidates[0].probability >= threshold then [candidates[0]] else [])
         + Qualifying(candidates[1..], threshold)
  }

  /** The candidate chosen at a threshold, and whether it is a fallback. */
  function Select(candidates: seq<Candidate>, threshold: real): (Candidate, bool)
    requires candidates != []
  {
    var qualifying := Qualifying(candidates, threshold);
    if qualifying != [] then (Least(CheaperOrEqual, qualifying), false)
    else (Least(LikelierOrEqual, candidates), true)
  }

  ghost predicate UniqueIds(candidates: seq<Candidate>) {
    forall i, j :: 0 <= i < j < |candidates| ==> candidates[i].id != candidates[j].id
  }

  predicate RepeatsId(candidates: seq<Candidate>) {
    exists i, j :: 0 <= i < j < |candidates| && candidates[i].id == candidates[j].id
  }

  function Route(candidates: seq<Candidate>, threshold: real): Result<Decision, RoutingError> {
    if candidates == [] then Err(NoEligibleCandidates)
    else if !(0.0 <= threshold <= 1.0) then Err(InvalidThreshold)
    else if RepeatsId(candidates) then Err(DuplicateCandidates)
    else
      var (selected, fallback) := Select(candidates, threshold);
      Ok(Decision(selected, threshold, fallback, |candidates|, |Qualifying(candidates, threshold)|))
  }

  function Others(candidates: seq<Candidate>, id: ModelId): seq<Candidate> {
    if candidates == [] then []
    else (if candidates[0].id != id then [candidates[0]] else []) + Others(candidates[1..], id)
  }

  function Ids(candidates: seq<Candidate>): seq<ModelId> {
    seq(|candidates|, i requires 0 <= i < |candidates| => candidates[i].id)
  }

  function Take<T>(s: seq<T>, n: nat): seq<T> {
    if n < |s| then s[..n] else s
  }

  /** The models that a validated request may execute, in order. */
  function Plan(decision: Decision, candidates: seq<Candidate>, maxAttempts: nat): seq<ModelId> {
    var eligible := Sort(CheaperOrEqual, Others(Qualifying(candidates, decision.threshold), decision.selected.id));
    Take([decision.selected.id] + (if decision.fallback then [] else Ids(eligible)), maxAttempts)
  }

  // ---------- Orders and selections ----------

  lemma CheaperPreorder()
    ensures Preorder(CheaperOrEqual)
  {
    forall x: Candidate, y: Candidate
      ensures CheaperOrEqual(x, y) || CheaperOrEqual(y, x)
    {
      TextLeTotal(x.id, y.id);
    }
    forall x: Candidate, y: Candidate, z: Candidate | CheaperOrEqual(x, y) && CheaperOrEqual(y, z)
      ensures CheaperOrEqual(x, z)
    {
      if x.cost == y.cost == z.cost {
        TextLeTransitive(x.id, y.id, z.id);
      }
    }
  }

  lemma LikelierPreorder()
    ensures Preorder(LikelierOrEqual)
  {
    CheaperPreorder();
    forall x: Candidate, y: Candidate
      ensures LikelierOrEqual(x, y) || LikelierOrEqual(y, x)
    {
      assert CheaperOrEqual(x, y) || CheaperOrEqual(y, x);
    }
    forall x: Candidate, y: Candidate, z: Candidate | LikelierOrEqual(x, y) && LikelierOrEqual(y, z)
      ensures LikelierOrEqual(x, z)
    {
      assert CheaperOrEqual(x, y) && CheaperOrEqual(y, z) ==> CheaperOrEqual(x, z);
    }
  }

  lemma {:induction false} LeastSpec(le: (Candidate, Candidate) -> bool, s: seq<Candidate>)
    requires s != [] && Preorder(le)
    ensures Least(le, s) in s
    ensures forall x :: x in s ==> le(Least(le, s), x)
  {
    assert le(s[0], s[0]);
    if |s| > 1 {
      assert s == [s[0]] + s[1..];
      LeastSpec(le, s[1..]);
    }
  }

  lemma {:induction false} QualifyingSpec(candidates: seq<Candidate>, threshold: real)
    ensures forall x :: x in Qualifying(candidates, threshold) <==> x in candidates && x.probability >= threshold
    ensures UniqueIds(candidates) ==> UniqueIds(Qualifying(candidates, threshold))
  {
    if candidates != [] {
      assert candidates == [candidates[0]] + candidates[1..];
      QualifyingSpec(candidates[1..], threshold);
      var rest := Qualifying(candidates[1..], threshold);
      if UniqueIds(candidates) {
        forall i | 0 <= i < |rest|
          ensures rest[i].id != candidates[0].id
        {
          assert rest[i] in candidates[1..];
        }
      }
    }
  }

  lemma {:induction false} OthersSpec(candidates: seq<Candidate>, c: Candidate)
    requires c in candidates && UniqueIds(candidates)
    ensures multiset(candidates) == multiset{c} + multiset(Others(candidates, c.id))
  {
    assert candidates == [candidates[0]] + candidates[1..];
    if candidates[0] == c {
      OthersAll(candidates[1..], c.id);
    } else {
      OthersSpec(candidates[1..], c);
    }
  }

  lemma {:induction false} OthersAll(candidates: seq<Candidate>, id: ModelId)
    requires forall x :: x in candidates ==> x.id != id
    ensures Others(candidates, id) == candidates
  {
    if candidates != [] {
      OthersAll(candidates[1..], id);
    }
  }

  lemma UniqueNoTies(candidates: seq<Candidate>)
    requires UniqueIds(candidates)
    ensures NoTies(CheaperOrEqual, candidates)
  {
    forall x, y | x in candidates && y in candidates && CheaperOrEqual(x, y) && CheaperOrEqual(y, x)
      ensures x == y
    {
      TextLeTotal(x.id, y.id);
    }
  }

  /** Putting the cheapest first and sorting the rest is sorting them all. */
  lemma {:induction false} CheapestFirst(qualifying: seq<Candidate>)
    requires qualifying != [] && UniqueIds(qualifying)
    ensures var least := Least(CheaperOrEqual, qualifying);
            Sort(CheaperOrEqual, qualifying) == [least] + Sort(CheaperOrEqual, Others(qualifying, least.id))
  {
    CheaperPreorder();
    var least := Least(CheaperOrEqual, qualifying);
    LeastSpec(CheaperOrEqual, qualifying);
    OthersSpec(qualifying, least);
    var others := Sort(CheaperOrEqual, Others(qualifying, least.id));
    SortSpec(CheaperOrEqual, Others(qualifying, least.id));
    SortSpec(CheaperOrEqual, qualifying);
    LeastThenRest(qualifying, least, others);
    UniqueNoTies(qualifying);
    SameElements(Sort(CheaperOrEqual, qualifying), [least] + others);
    assert NoTies(CheaperOrEqual, Sort(CheaperOrEqual, qualifying));
    SortedUnique(CheaperOrEqual, Sort(CheaperOrEqual, qualifying), [least] + others);
  }

  lemma LeastThenRest(all: seq<Candidate>, least: Candidate, others: seq<Candidate>)
    requires Sorted(CheaperOrEqual, others) && multiset(all) == multiset{least} + multiset(others)
    requires forall x :: x in all ==> CheaperOrEqual(least, x)
    ensures Sorted(CheaperOrEqual, [least] + others) && multiset([least] + others) == multiset(all)
  {
    SameElements([least] + others, all);
    forall i | 0 <= i < |others|
      ensures CheaperOrEqual(least, others[i])
    {
      assert ([least] + others)[i + 1] in all;
    }
  }

  predicate SameId(a: Candidate, b: Candidate) {
    a.id == b.id
  }

  // ---------- The plan ----------

  /** The ids of a sorted prefix: distinct, and no candidate outside is cheaper than one inside. */
  lemma PrefixIsCheapest(all: seq<Candidate>, n: nat)
    requires Sorted(CheaperOrEqual, all) && UniqueIds(all)
    ensures var ids := Ids(Take(all, n));
            && Distinct(ids)
            && forall chosen, skipped ::
                 chosen in all && chosen.id in ids && skipped in all && skipped.id !in ids
                 ==> CheaperOrEqual(chosen, skipped)
  {
    var ids := Ids(Take(all, n));
    assert forall i :: 0 <= i < |ids| ==> ids[i] == all[i].id;
    forall i | 0 <= i < |ids|
      ensures all[i].id in ids
    {
      assert all[i].id == ids[i];
    }
    forall chosen, skipped | chosen in all && chosen.id in ids && skipped in all && skipped.id !in ids
      ensures CheaperOrEqual(chosen, skipped)
    {
      var h :| 0 <= h < |all| && all[h] == chosen;
      var i :| 0 <= i < |ids| && ids[i] == chosen.id;
      assert all[i].id == all[h].id;
      var j :| 0 <= j < |all| && all[j] == skipped;
      assert h < j;
    }
  }

  lemma {:induction false} PlanIsSortedPrefix(candidates: seq<Candidate>, threshold: real, maxAttempts: nat)
    requires Route(candidates, threshold).Ok? && !Route(candidates, threshold).value.fallback && maxAttempts > 0
    ensures var qualifying := Qualifying(candidates, threshold);
            && UniqueIds(qualifying) && UniqueIds(Sort(CheaperOrEqual, qualifying))
            && Plan(Route(candidates, threshold).value, candidates, maxAttempts)
               == Ids(Take(Sort(CheaperOrEqual, qualifying), maxAttempts))
  {
    var decision := Route(candidates, threshold).value;
    var qualifying := Qualifying(candidates, threshold);
    QualifyingSpec(candidates, threshold);
    CheapestFirst(qualifying);
    CheaperPreorder();
    SortSpec(CheaperOrEqual, qualifying);
    SortSeparate(CheaperOrEqual, SameId, qualifying);
    IdsPrefix(decision.selected, Sort(CheaperOrEqual, Others(qualifying, decision.selected.id)), maxAttempts);
  }

  lemma IdsPrefix(first: Candidate, rest: seq<Candidate>, n: nat)
    ensures Take([first.id] + Ids(rest), n) == Ids(Take([first] + rest, n))
  {
    assert Ids([first] + rest) == [first.id] + Ids(rest);
    assert Take(Ids([first] + rest), n) == Ids(Take([first] + rest, n));
  }

  /**
    Without fallback the plan is the first `maxAttempts` of all qualifying candidates by cost and
    id, each at most once, and whatever qualifies but is left out costs no less than anything in
    it. Under fallback nothing qualifies and the plan is the likeliest candidate alone.
  */
  lemma {:induction false} PlanIsCheapestFirst(candidates: seq<Candidate>, threshold: real, maxAttempts: nat)
    requires Route(candidates, threshold).Ok? && maxAttempts > 0
    ensures var decision := Route(candidates, threshold).value;
            var qualifying := Qualifying(candidates, threshold);
            var plan := Plan(decision, candidates, maxAttempts);
            && (decision.fallback <==> forall c :: c in candidates ==> c.probability < threshold)
            && (!decision.fallback ==>
                  && plan == Ids(Take(Sort(CheaperOrEqual, qualifying), maxAttempts))
                  && |plan| == (if |qualifying| < maxAttempts then |qualifying| else maxAttempts)
                  && Distinct(plan)
                  && forall chosen, skipped ::
                       && chosen in qualifying && chosen.id in plan
                       && skipped in qualifying && skipped.id !in plan
                       ==> CheaperOrEqual(chosen, skipped))
            && (decision.fallback ==>
                  && plan == [decision.selected.id]
                  && forall c :: c in candidates ==> LikelierOrEqual(decision.selected, c))
  {
    var decision := Route(candidates, threshold).value;
    var qualifying := Qualifying(candidates, threshold);
    QualifyingSpec(candidates, threshold);
    if decision.fallback {
      LikelierPreorder();
      LeastSpec(LikelierOrEqual, candidates);
    } else {
      assert qualifying[0] in qualifying;
      PlanIsSortedPrefix(candidates, threshold, maxAttempts);
      CheaperPreorder();
      SortSpec(CheaperOrEqual, qualifying);
      PrefixIsCheapest(Sort(CheaperOrEqual, qualifying), maxAttempts);
    }
  }

  /** When routing fails, and what a decision carries along. */
  lemma RouteOutcome(candidates: seq<Candidate>, threshold: real)
    ensures Route(candidates, threshold) == Err(NoEligibleCandidates) <==> candidates == []
    ensures Route(candidates, threshold) == Err(InvalidThreshold) <==>
              candidates != [] && (threshold < 0.0 || threshold > 1.0)
    ensures Route(candidates, threshold) == Err(DuplicateCandidates) <==>
              && candidates != [] && 0.0 <= threshold <= 1.0
              && exists i, j :: 0 <= i < j < |candidates| && candidates[i].id == candidates[j].id
    ensures Route(candidates, threshold).Ok? ==>
              var decision := Route(candidates, threshold).value;
              && decision.threshold == threshold && decision.eligible == |candidates|
              && decision.qualifying == |QualifyingIndexes(candidates, threshold)|
  {
    QualifyingCounted(candidates, threshold);
  }

  ghost function QualifyingIndexes(candidates: seq<Candidate>, threshold: real): set<int> {
    set i | 0 <= i < |candidates| && candidates[i].probability >= threshold
  }

  lemma {:induction false} QualifyingAppend(candidates: seq<Candidate>, last: Candidate, threshold: real)
    ensures Qualifying(candidates + [last], threshold) ==
            Qualifying(candidates, threshold) + if last.probability >= threshold then [last] else []
    decreases |candidates|
  {
    if candidates == [] {
      assert [] + [last] == [last];
    } else {
      QualifyingAppend(candidates[1..], last, threshold);
      assert (candidates + [last])[1..] == candidates[1..] + [last];
    }
  }

  lemma {:induction false} QualifyingCounted(candidates: seq<Candidate>, threshold: real)
    ensures |Qualifying(candidates, threshold)| == |QualifyingIndexes(candidates, threshold)|
    decreases |candidates|
  {
    if candidates == [] {
      assert QualifyingIndexes(candidates, threshold) == {};
    } else {
      var n := |candidates| - 1;
      QualifyingCounted(candidates[..n], threshold);
      QualifyingAppend(candidates[..n], candidates[n], threshold);
      assert candidates == candidates[..n] + [candidates[n]];
      if candidates[n].probability >= threshold {
        assert QualifyingIndexes(candidates, threshold) == QualifyingIndexes(candidates[..n], threshold) + {n};
      } else {
        assert QualifyingIndexes(candidates, threshold) == QualifyingIndexes(candidates[..n], threshold);
      }
    }
  }

  /** What qualifies, in numbers: the likely enough candidates by cost and id, of which the first is selected. */
  lemma {:induction false} CheapestInNumbers(candidates: seq<Candidate>, threshold: real, cheapest: seq<Candidate>)
    requires Route(candidates, threshold).Ok? && cheapest == Sort(CheaperOrEqual, Qualifying(candidates, threshold))
    ensures forall c :: c in cheapest <==> c in candidates && c.probability >= threshold
    ensures forall i, j :: 0 <= i < j < |cheapest| ==>
              || cheapest[i].cost < cheapest[j].cost
              || (cheapest[i].cost == cheapest[j].cost && TextLe(cheapest[i].id, cheapest[j].id))
    ensures Route(candidates, threshold).value.fallback <==> cheapest == []
    ensures cheapest != [] ==> Route(candidates, threshold).value.selected == cheapest[0]
  {
    var qualifying := Qualifying(candidates, threshold);
    QualifyingSpec(candidates, threshold);
    CheaperPreorder();
    SortSpec(CheaperOrEqual, qualifying);
    SortedByCost(cheapest);
    if qualifying != [] {
      CheapestFirst(qualifying);
    }
  }

  /** A fallback, in numbers: the likeliest candidate, of these the cheapest, of these the first by id. */
  lemma FallbackInNumbers(candidates: seq<Candidate>, threshold: real, selected: Candidate)
    requires Route(candidates, threshold).Ok? && Route(candidates, threshold).value.fallback
    requires selected == Route(candidates, threshold).value.selected
    ensures selected in candidates
    ensures forall c :: c in candidates ==>
              || c.probability < selected.probability
              || (c.probability == selected.probability && selected.cost < c.cost)
              || (c.probability == selected.probability && selected.cost == c.cost && TextLe(selected.id, c.id))
  {
    LikelierPreorder();
    LeastSpec(LikelierOrEqual, candidates);
  }

  lemma SortedByCost(s: seq<Candidate>)
    requires Sorted(CheaperOrEqual, s)
    ensures forall i, j :: 0 <= i < j < |s| ==>
              s[i].cost < s[j].cost || (s[i].cost == s[j].cost && TextLe(s[i].id, s[j].id))
  {
    forall i, j | 0 <= i < j < |s|
      ensures s[i].cost < s[j].cost || (s[i].cost == s[j].cost && TextLe(s[i].id, s[j].id))
    {
      assert CheaperOrEqual(s[i], s[j]);
    }
  }

  // ---------- Thresholds ----------

  /**
    A higher threshold keeps an existing fallback and its candidate, and never lowers the price of a
    qualifying choice.
  */
  lemma HigherThreshold(candidates: seq<Candidate>, low: real, high: real)
    requires candidates != [] && low <= high
    ensures var (atLow, fellBackAtLow) := Select(candidates, low);
            var (atHigh, fellBackAtHigh) := Select(candidates, high);
            && (fellBackAtLow ==> fellBackAtHigh && atHigh == atLow)
            && (!fellBackAtHigh ==> !fellBackAtLow && CheaperOrEqual(atLow, atHigh) && atLow.cost <= atHigh.cost)
  {
    QualifyingSpec(candidates, low);
    QualifyingSpec(candidates, high);
    CheaperPreorder();
    var some, all := Qualifying(candidates, high), Qualifying(candidates, low);
    if some != [] {
      assert some[0] in some;
      LeastSpec(CheaperOrEqual, some);
      LeastSpec(CheaperOrEqual, all);
    }
  }

  function Fallbacks(requests: seq<seq<Candidate>>, threshold: real): nat
    requires forall i :: 0 <= i < |requests| ==> requests[i] != []
  {
    if requests == [] then 0
    else
      var n := |requests| - 1;
      Fallbacks(requests[..n], threshold) + if Select(requests[n], threshold).1 then 1 else 0
  }

  lemma {:induction false} FallbacksGrow(requests: seq<seq<Candidate>>, low: real, high: real)
    requires low <= high && forall i :: 0 <= i < |requests| ==> requests[i] != []
    ensures Fallbacks(requests, low) <= Fallbacks(requests, high) <= |requests|
  {
    if requests != [] {
      FallbacksGrow(requests[..|requests| - 1], low, high);
      HigherThreshold(requests[|requests| - 1], low, high);
    }
  }

  /** Fallback counts over a grid of thresholds. */
  method SweepThresholds(requests: seq<seq<Candidate>>, thresholds: seq<real>) returns (counts: seq<nat>)
    requires forall i :: 0 <= i < |requests| ==> requests[i] != []
    ensures |counts| == |thresholds|
    ensures forall i :: 0 <= i < |thresholds| ==> counts[i] == Fallbacks(requests, thresholds[i])
    ensures forall i, j :: 0 <= i < |thresholds| && 0 <= j < |thresholds| && thresholds[i] <= thresholds[j]
                           ==> counts[i] <= counts[j]
  {
    counts := [];
    for t := 0 to |thresholds|
      invariant |counts| == t
      invariant forall i :: 0 <= i < t ==> counts[i] == Fallbacks(requests, thresholds[i])
    {
      var fallbacks := 0;
      for r := 0 to |requests|
        invariant fallbacks == Fallbacks(requests[..r], thresholds[t])
      {
        assert requests[..r + 1][..r] == requests[..r];
        var selection := Select(requests[r], thresholds[t]);
        if selection.1 {
          fallbacks := fallbacks + 1;
        }
      }
      assert requests[..|requests|] == requests;
      counts := counts + [fallbacks];
    }
    forall i, j | 0 <= i < |thresholds| && 0 <= j < |thresholds| && thresholds[i] <= thresholds[j]
      ensures counts[i] <= counts[j]
    {
      FallbacksGrow(requests, thresholds[i], thresholds[j]);
    }
  }
}
