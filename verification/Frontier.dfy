/** The thresholds that no other threshold dominates, among summaries with equal label coverage. */
module Frontier {
  import opened Common

  /** Comparing a missing rate with a missing rate is a type error. */
  datatype FrontierError = MissingRate

  /** A threshold's average projected cost, acceptable rate among valid labels, and number of valid labels. */
  datatype Summary = Summary(cost: real, rate: Option<real>, valid: nat)

  /** A rate is missing exactly when there is no valid label. */
  ghost predicate Consistent(summaries: seq<Summary>) {
    forall i :: 0 <= i < |summaries| ==> (summaries[i].rate.None? <==> summaries[i].valid == 0)
  }

  /** `a` is at least as good as `b` in both respects and better in one, on the same coverage. */
  ghost predicate Dominates(a: Summary, b: Summary) {
    && a.valid == b.valid && a.rate.Some? && b.rate.Some?
    && a.cost <= b.cost && a.rate.value >= b.rate.value
    && (a.cost < b.cost || a.rate.value > b.rate.value)
  }

  ghost predicate Undominated(summaries: seq<Summary>, i: nat)
    requires i < |summaries|
  {
    forall j :: 0 <= j < |summaries| ==> !Dominates(summaries[j], summaries[i])
  }

  ghost predicate NoTwoUnlabelled(summaries: seq<Summary>) {
    forall i, j :: 0 <= i < j < |summaries| ==> summaries[i].valid > 0 || summaries[j].valid > 0
  }

  /** Whether some other summary dominates the one at i; an error if two missing rates are compared on the way. */
  method IsDominated(summaries: seq<Summary>, i: nat) returns (dominated: Result<bool, FrontierError>)
    requires i < |summaries| && Consistent(summaries)
    ensures dominated.Ok? ==> (dominated.value <==> !Undominated(summaries, i))
    ensures dominated.Err? <==>
              summaries[i].valid == 0
              && exists j :: 0 <= j < |summaries| && j != i && summaries[j].valid == 0
                  && summaries[j].cost <= summaries[i].cost
  {
    var own := summaries[i];
    for j := 0 to |summaries|
      invariant forall k :: 0 <= k < j ==> !Dominates(summaries[k], own)
      invariant forall k :: 0 <= k < j && k != i && own.valid == 0 && summaries[k].valid == 0 ==>
                summaries[k].cost > own.cost
    {
      var other := summaries[j];
      if j != i && other.valid == own.valid && other.cost <= own.cost {
        if other.rate.None? || own.rate.None? {
          return Err(MissingRate);
        }
        if other.rate.value >= own.rate.value && (other.cost < own.cost || other.rate.value > own.rate.value) {
          assert Dominates(summaries[j], own);
          return Ok(true);
        }
      }
    }
    dominated := Ok(false);
  }

  /**
    The positions of the undominated summaries, in order. It fails exactly when two thresholds
    selected no valid label.
  */
  method NonDominated(summaries: seq<Summary>) returns (frontier: Result<seq<nat>, FrontierError>)
    requires Consistent(summaries)
    ensures frontier.Ok? <==> NoTwoUnlabelled(summaries)
    ensures frontier.Ok? ==>
              && (forall k :: 0 <= k < |frontier.value| ==> frontier.value[k] < |summaries|)
              && (forall i :: 0 <= i < |summaries| ==> (i in frontier.value <==> Undominated(summaries, i)))
              && (forall j, k :: 0 <= j < k < |frontier.value| ==> frontier.value[j] < frontier.value[k])
  {
    var found: seq<nat> := [];
    for i := 0 to |summaries|
      invariant forall k :: 0 <= k < |found| ==> found[k] < i
      invariant forall k :: 0 <= k < i ==> (k in found <==> Undominated(summaries, k))
      invariant forall j, k :: 0 <= j < k < |found| ==> found[j] < found[k]
      invariant forall j, k ::
                  && 0 <= j < i && 0 <= k < |summaries| && j != k
                  && summaries[j].valid == summaries[k].valid == 0
                  ==> summaries[k].cost > summaries[j].cost
    {
      var dominated := IsDominated(summaries, i);
      if dominated.Err? {
        return Err(MissingRate);
      }
      if !dominated.value {
        found := found + [i];
      }
    }
    frontier := Ok(found);
  }

  /** Dominance is a strict partial order. */
  lemma StrictOrder(a: Summary, b: Summary, c: Summary)
    ensures !Dominates(a, a)
    ensures Dominates(a, b) && Dominates(b, c) ==> Dominates(a, c)
    ensures Dominates(a, b) ==> !Dominates(b, a)
  {
  }

  /** How many of the first n summaries dominate a given one. */
  ghost function Dominators(summaries: seq<Summary>, n: nat, s: Summary): nat
    requires n <= |summaries|
  {
    if n == 0 then 0 else Dominators(summaries, n - 1, s) + if Dominates(summaries[n - 1], s) then 1 else 0
  }

  lemma {:induction false} FewerDominators(summaries: seq<Summary>, n: nat, s: Summary, t: Summary)
    requires n <= |summaries| && Dominates(t, s)
    ensures Dominators(summaries, n, t) <= Dominators(summaries, n, s)
    ensures (exists j :: 0 <= j < n && summaries[j] == t) ==> Dominators(summaries, n, t) < Dominators(summaries, n, s)
  {
    if n > 0 {
      FewerDominators(summaries, n - 1, s, t);
      StrictOrder(summaries[n - 1], t, s);
      StrictOrder(t, t, t);
    }
  }

  /** Every excluded summary is dominated by one on the frontier, with the same coverage. */
  lemma {:induction false} CoveredByFrontier(summaries: seq<Summary>, i: nat) returns (best: nat)
    requires i < |summaries|
    ensures best < |summaries| && Undominated(summaries, best)
    ensures best == i || Dominates(summaries[best], summaries[i])
    decreases Dominators(summaries, |summaries|, summaries[i])
  {
    best := i;
    if !Undominated(summaries, i) {
      var j :| 0 <= j < |summaries| && Dominates(summaries[j], summaries[i]);
      FewerDominators(summaries, |summaries|, summaries[i], summaries[j]);
      best := CoveredByFrontier(summaries, j);
      StrictOrder(summaries[best], summaries[j], summaries[i]);
    }
  }

  /**
    The frontier of a nonempty input is not empty, undominated within itself, and dominates everything it
    leaves out.
  */
  lemma FrontierCovers(summaries: seq<Summary>, frontier: seq<nat>)
    requires forall i :: 0 <= i < |summaries| ==> (i in frontier <==> Undominated(summaries, i))
    requires forall k :: 0 <= k < |frontier| ==> frontier[k] < |summaries|
    ensures summaries != [] ==> frontier != []
    ensures forall j, k :: 0 <= j < |frontier| && 0 <= k < |frontier| ==>
              !Dominates(summaries[frontier[j]], summaries[frontier[k]])
    ensures forall i :: 0 <= i < |summaries| && i !in frontier ==>
              exists k :: 0 <= k < |frontier| && Dominates(summaries[frontier[k]], summaries[i])
                          && summaries[frontier[k]].valid == summaries[i].valid
  {
    if summaries != [] {
      var best := CoveredByFrontier(summaries, 0);
    }
    forall j, k | 0 <= j < |frontier| && 0 <= k < |frontier|
      ensures !Dominates(summaries[frontier[j]], summaries[frontier[k]])
    {
      assert frontier[k] in frontier;
    }
    forall i | 0 <= i < |summaries| && i !in frontier
      ensures exists k :: 0 <= k < |frontier| && Dominates(summaries[frontier[k]], summaries[i])
                          && summaries[frontier[k]].valid == summaries[i].valid
    {
      var best := CoveredByFrontier(summaries, i);
      assert best in frontier;
      var k :| 0 <= k < |frontier| && frontier[k] == best;
    }
  }
}
