/** Reliability tables: two ways of binning predictions, and the calibration errors computed from the bins. */
module Calibration {
  import opened Common
  import opened Ordering

  /** Splitting nothing into no bins is an error. */
  datatype TableError = NothingToSplit

  type Probability = p: real | 0.0 <= p <= 1.0

  /** A record with a valid label. */
  datatype Record = Record(probability: Probability, positive: bool)

  datatype Strategy = EqualWidth | EqualFrequency

  function Target(r: Record): real {
    if r.positive then 1.0 else 0.0
  }

  /** The sum of prediction minus target. */
  function Excess(records: seq<Record>): real {
    if records == [] then 0.0
    else Excess(records[..|records| - 1]) + records[|records| - 1].probability - Target(records[|records| - 1])
  }

  function Predicted(records: seq<Record>): real {
    if records == [] then 0.0 else Predicted(records[..|records| - 1]) + records[|records| - 1].probability
  }

  function Observed(records: seq<Record>): real {
    if records == [] then 0.0 else Observed(records[..|records| - 1]) + Target(records[|records| - 1])
  }

  function Abs(x: real): real {
    if x < 0.0 then -x else x
  }

  function Max(x: real, y: real): real {
    if x < y then y else x
  }

  // ---------- Bins ----------

  function Edge(i: int, bins: nat): real
    requires bins > 0
  {
    i as real / bins as real
  }

  /** How many of the first n bin edges are at most p. */
  function EdgesAtMost(p: real, bins: nat, n: nat): nat
    requires bins > 0
  {
    if n == 0 then 0 else EdgesAtMost(p, bins, n - 1) + if Edge(n - 1, bins) <= p then 1 else 0
  }

  function Least(a: int, b: int): int {
    if a <= b then a else b
  }

  /** The equal-width bin of a probability; one itself belongs to the last bin. */
  function BinOf(p: real, bins: nat): int
    requires bins > 0
  {
    Least(EdgesAtMost(p, bins, bins + 1) - 1, bins - 1)
  }

  /** The elements whose index is `bin`. */
  function Members<T>(s: seq<T>, indexes: seq<int>, bin: int): seq<T>
    requires |s| == |indexes|
  {
    if s == [] then [] else (if indexes[0] == bin then [s[0]] else []) + Members(s[1..], indexes[1..], bin)
  }

  /** The members of bins zero to n - 1. */
  function Membership<T>(s: seq<T>, indexes: seq<int>, n: nat): seq<seq<T>>
    requires |s| == |indexes|
  {
    if n == 0 then [] else Membership(s, indexes, n - 1) + [Members(s, indexes, n - 1)]
  }

  function Indexes(records: seq<Record>, bins: nat): (r: seq<int>)
    requires bins > 0
    ensures |r| == |records|
  {
    if records == [] then [] else [BinOf(records[0].probability, bins)] + Indexes(records[1..], bins)
  }

  predicate NoMoreProbable(a: Record, b: Record) {
    a.probability <= b.probability
  }

  lemma {:induction false} CompareProducts(a: nat, b: nat, n: nat)
    requires n > 0
    ensures a < b ==> a * n + n <= b * n
    decreases b
  {
    if a < b {
      NextMultiple(b, n);
      CompareProducts(a, b - 1, n);
    }
  }

  lemma NextMultiple(b: int, n: int)
    ensures b * n == (b - 1) * n + n
  {
  }

  lemma QuotientBracket(m: nat, n: nat)
    requires n > 0
    ensures m / n * n <= m < m / n * n + n
  {
  }

  lemma CeilingAtMost(n: nat, parts: nat)
    requires parts > 0
    ensures 0 <= (n + parts - 1) / parts <= n
  {
    var q := (n + parts - 1) / parts;
    QuotientBracket(n + parts - 1, parts);
    CompareProducts(n, q, parts);
    NotBelow(n, parts);
  }

  lemma NotBelow(n: nat, parts: nat)
    requires parts > 0
    ensures n <= n * parts
  {
    assert n * parts == n + n * (parts - 1);
    assert n * (parts - 1) >= 0;
  }

  /** Consecutive chunks; each takes its share, rounded up, of what is left. */
  function Chunks(records: seq<Record>, parts: nat): seq<seq<Record>>
    requires parts > 0
    decreases parts
  {
    if parts == 1 then [records]
    else
      CeilingAtMost(|records|, parts);
      var size := (|records| + parts - 1) / parts;
      [records[..size]] + Chunks(records[size..], parts - 1)
  }

  function Bins(records: seq<Record>, bins: nat, strategy: Strategy): Result<seq<seq<Record>>, TableError>
  {
    if strategy.EqualWidth? then Ok(if bins == 0 then [] else Membership(records, Indexes(records, bins), bins))
    else if bins == 0 || records == [] then Err(NothingToSplit)
    else Ok(Chunks(Sort(NoMoreProbable, records), Least(bins, |records|)))
  }

  function Concat<T>(bins: seq<seq<T>>): seq<T> {
    if bins == [] then [] else bins[0] + Concat(bins[1..])
  }

  /** The edges at most p are an initial run of them. */
  lemma {:induction false} EdgesInitial(p: real, bins: nat, n: nat)
    requires bins > 0
    ensures EdgesAtMost(p, bins, n) <= n
    ensures forall i: nat :: i < n ==> (Edge(i, bins) <= p <==> i < EdgesAtMost(p, bins, n))
  {
    if n > 0 {
      EdgesInitial(p, bins, n - 1);
      forall i: nat | i < n
        ensures Edge(i, bins) <= Edge(n - 1, bins)
      {
        QuotientMonotone(i, n - 1, bins);
      }
    }
  }

  lemma QuotientMonotone(i: nat, j: nat, bins: nat)
    requires bins > 0 && i <= j
    ensures Edge(i, bins) <= Edge(j, bins)
    ensures Edge(0, bins) == 0.0 && Edge(bins, bins) == 1.0
  {
  }

  /** Every probability has one equal-width bin, whose edges enclose it. */
  lemma BinEncloses(p: Probability, bins: nat)
    requires bins > 0
    ensures var bin := BinOf(p, bins);
            && 0 <= bin < bins
            && Edge(bin, bins) <= p
            && (p < Edge(bin + 1, bins) || (bin == bins - 1 && p == 1.0))
            && Edge(bin, bins) == bin as real / bins as real && Edge(bin + 1, bins) == (bin + 1) as real / bins as real
  {
    EdgesInitial(p, bins, bins + 1);
    QuotientMonotone(0, bins, bins);
    var k := EdgesAtMost(p, bins, bins + 1);
    assert Edge(0, bins) <= p;
    if k == bins + 1 {
      assert Edge(bins, bins) <= p;
      QuotientMonotone(bins - 1, bins, bins);
    } else {
      assert Edge(k - 1, bins) <= p < Edge(k, bins);
    }
  }

  /** The elements with an index below n. */
  function Below<T>(s: seq<T>, indexes: seq<int>, n: nat): seq<T>
    requires |s| == |indexes|
  {
    if s == [] then [] else (if indexes[0] < n then [s[0]] else []) + Below(s[1..], indexes[1..], n)
  }

  ghost predicate Within(indexes: seq<int>, n: nat) {
    forall i :: 0 <= i < |indexes| ==> 0 <= indexes[i] < n
  }

  ghost predicate NonNegative(indexes: seq<int>) {
    forall i :: 0 <= i < |indexes| ==> 0 <= indexes[i]
  }

  lemma {:induction false} BelowNext<T>(s: seq<T>, indexes: seq<int>, n: nat)
    requires |s| == |indexes|
    ensures multiset(Below(s, indexes, n + 1)) == multiset(Below(s, indexes, n)) + multiset(Members(s, indexes, n))
  {
    if s != [] {
      BelowNext(s[1..], indexes[1..], n);
    }
  }

  lemma {:induction false} BelowEnds<T>(s: seq<T>, indexes: seq<int>, n: nat)
    requires |s| == |indexes|
    ensures NonNegative(indexes) ==> Below(s, indexes, 0) == []
    ensures Within(indexes, n) ==> Below(s, indexes, n) == s
  {
    if s != [] {
      BelowEnds(s[1..], indexes[1..], n);
      assert s == [s[0]] + s[1..];
    }
  }

  ghost predicate SameMembers<T>(s: seq<T>, indexes: seq<int>, n: nat)
    requires |s| == |indexes|
  {
    multiset(Concat(Membership(s, indexes, n))) == multiset(Below(s, indexes, n))
  }

  lemma {:induction false} MembershipBelow<T>(s: seq<T>, indexes: seq<int>, n: nat)
    requires |s| == |indexes| && NonNegative(indexes)
    ensures SameMembers(s, indexes, n)
  {
    if n == 0 {
      MembershipNone(s, indexes);
    } else {
      MembershipBelow(s, indexes, n - 1);
      SameMembersNext(s, indexes, n - 1, n);
    }
  }

  lemma MembershipNone<T>(s: seq<T>, indexes: seq<int>)
    requires |s| == |indexes| && NonNegative(indexes)
    ensures SameMembers(s, indexes, 0)
  {
    BelowEnds(s, indexes, 0);
  }

  lemma SameMembersNext<T>(s: seq<T>, indexes: seq<int>, n: nat, next: nat)
    requires |s| == |indexes| && next == n + 1 && SameMembers(s, indexes, n)
    ensures SameMembers(s, indexes, next)
  {
    MembershipNext(s, indexes, n);
    BelowNext(s, indexes, n);
  }

  lemma MembershipNext<T>(s: seq<T>, indexes: seq<int>, n: nat)
    requires |s| == |indexes|
    ensures multiset(Concat(Membership(s, indexes, n + 1))) ==
            multiset(Concat(Membership(s, indexes, n))) + multiset(Members(s, indexes, n))
  {
    ConcatAppend(Membership(s, indexes, n), Members(s, indexes, n));
  }

  lemma {:induction false} IndexesWithin(records: seq<Record>, bins: nat)
    requires bins > 0
    ensures Within(Indexes(records, bins), bins)
  {
    if records != [] {
      IndexesWithin(records[1..], bins);
      BinEncloses(records[0].probability, bins);
    }
  }

  lemma {:induction false} ConcatAppend<T>(bins: seq<seq<T>>, bin: seq<T>)
    ensures Concat(bins + [bin]) == Concat(bins) + bin
  {
    if bins == [] {
      assert [] + [bin] == [bin];
      assert Concat([bin]) == bin + Concat([]);
    } else {
      ConcatAppend(bins[1..], bin);
      assert (bins + [bin])[1..] == bins[1..] + [bin];
    }
  }

  lemma {:induction false} ChunksConcat(records: seq<Record>, parts: nat)
    requires parts > 0
    ensures Concat(Chunks(records, parts)) == records
    ensures |Chunks(records, parts)| == parts
    decreases parts
  {
    var chunks := Chunks(records, parts);
    if parts == 1 {
      assert chunks[1..] == [];
    } else {
      CeilingAtMost(|records|, parts);
      var size := (|records| + parts - 1) / parts;
      ChunksConcat(records[size..], parts - 1);
      assert chunks[1..] == Chunks(records[size..], parts - 1);
    }
  }

  lemma ShareOf(q: nat, r: nat, parts: nat)
    requires parts > 0 && r < parts
    ensures (q * parts + r + parts - 1) / parts == if r > 0 then q + 1 else q
    ensures parts > 1 ==> q * parts + r - (if r > 0 then q + 1 else q) == q * (parts - 1) + (if r > 0 then r - 1 else 0)
  {
    var n, c := q * parts + r + parts - 1, if r > 0 then q + 1 else q;
    assert c * parts == q * parts + if r > 0 then parts else 0;
    assert q * (parts - 1) == q * parts - q;
    Quotient(n, c, parts);
  }

  lemma Quotient(n: nat, c: nat, parts: nat)
    requires parts > 0 && c * parts <= n < c * parts + parts
    ensures n / parts == c
  {
    QuotientBracket(n, parts);
    CompareProducts(c, n / parts, parts);
    CompareProducts(n / parts, c, parts);
  }

  /** Of q * parts + r records the first r chunks hold q + 1 and the others q. */
  lemma {:induction false} ChunkSizes(records: seq<Record>, parts: nat, q: nat, r: nat, k: nat)
    requires parts > 0 && r < parts && |records| == q * parts + r && k < parts
    ensures |Chunks(records, parts)| == parts
    ensures |Chunks(records, parts)[k]| == if k < r then q + 1 else q
    decreases parts
  {
    ChunksConcat(records, parts);
    if parts > 1 {
      ShareOf(q, r, parts);
      CeilingAtMost(|records|, parts);
      var size := (|records| + parts - 1) / parts;
      if k > 0 {
        ChunkSizes(records[size..], parts - 1, q, if r > 0 then r - 1 else 0, k - 1);
      }
    }
  }

  /** Both strategies put every record into exactly one bin. */
  lemma BinsPartition(records: seq<Record>, bins: nat, strategy: Strategy)
    requires bins > 0 && Bins(records, bins, strategy).Ok?
    ensures multiset(Concat(Bins(records, bins, strategy).value)) == multiset(records)
  {
    if strategy.EqualWidth? {
      var indexes := Indexes(records, bins);
      IndexesWithin(records, bins);
      MembershipBelow(records, indexes, bins);
      BelowEnds(records, indexes, bins);
    } else {
      assert Preorder(NoMoreProbable);
      SortSpec(NoMoreProbable, records);
      ChunksConcat(Sort(NoMoreProbable, records), Least(bins, |records|));
    }
  }

  // ---------- Calibration errors ----------

  function MeanPredicted(records: seq<Record>): real
    requires records != []
  {
    Predicted(records) / |records| as real
  }

  function MeanObserved(records: seq<Record>): real
    requires records != []
  {
    Observed(records) / |records| as real
  }

  /** The absolute difference between mean prediction and observed rate of a bin that is not empty. */
  function Gap(bin: seq<Record>): real
    requires bin != []
  {
    Distance(Predicted(bin), Observed(bin), |bin| as real)
  }

  function Distance(p: real, o: real, n: real): real
    requires n > 0.0
  {
    Abs(p / n - o / n)
  }

  /** The sum of the bins' absolute excesses. */
  function TotalExcess(bins: seq<seq<Record>>): real {
    if bins == [] then 0.0 else TotalExcess(bins[..|bins| - 1]) + Abs(Excess(bins[|bins| - 1]))
  }

  lemma {:induction false} ExcessParts(records: seq<Record>)
    ensures Excess(records) == Predicted(records) - Observed(records)
    ensures Abs(Excess(records)) <= |records| as real
  {
    if records != [] {
      ExcessParts(records[..|records| - 1]);
    }
  }

  lemma Compare(x: real, y: real, n: real)
    requires n > 0.0
    ensures x < y ==> x * n < y * n
    ensures y < x ==> y * n < x * n
  {
    assert y * n - x * n == (y - x) * n;
  }

  lemma QuotientUnique(a: real, q: real, n: real)
    requires n > 0.0 && q * n == a
    ensures a / n == q
  {
    assert (a / n) * n == a;
    Compare(a / n, q, n);
  }

  lemma Divided(a: real, b: real, n: real)
    requires n > 0.0
    ensures a / n - b / n == (a - b) / n
    ensures Abs(a / n) == Abs(a) / n
    ensures a <= b ==> a / n <= b / n
    ensures a / n * n == a && n / n == 1.0
  {
    var x, y := a / n, b / n;
    assert x * n == a && y * n == b;
    assert (x - y) * n == a - b && (-x) * n == -a;
    QuotientUnique(a - b, x - y, n);
    QuotientUnique(-a, -x, n);
    Compare(x, 0.0, n);
    Compare(x, y, n);
    QuotientUnique(n, 1.0, n);
  }

  /** A bin's gap weighted by its size is its absolute excess, and no gap exceeds one. */
  lemma {:induction false} GapOfBin(bin: seq<Record>)
    requires bin != []
    ensures Gap(bin) * |bin| as real == Abs(Excess(bin))
    ensures 0.0 <= Gap(bin) <= 1.0
  {
    ExcessParts(bin);
    GapShare(Predicted(bin), Observed(bin), Excess(bin), |bin| as real);
  }

  lemma GapShare(p: real, o: real, excess: real, n: real)
    requires n > 0.0 && excess == p - o && Abs(excess) <= n
    ensures Distance(p, o, n) * n == Abs(excess) && 0.0 <= Distance(p, o, n) <= 1.0
  {
    Divided(p, o, n);
    Divided(excess, 0.0, n);
    Divided(Abs(excess), n, n);
    Divided(0.0, Abs(excess), n);
  }

  lemma {:induction false} ExcessSum(a: seq<Record>, b: seq<Record>)
    ensures Excess(a + b) == Excess(a) + Excess(b)
  {
    if b == [] {
      assert a + b == a;
    } else {
      assert (a + b)[..|a + b| - 1] == a + b[..|b| - 1];
      ExcessSum(a, b[..|b| - 1]);
    }
  }

  /** The excess of everything is at most what the bins add up to. */
  lemma {:induction false} TriangleOverBins(bins: seq<seq<Record>>)
    ensures Abs(Excess(Concat(bins))) <= TotalExcess(bins)
  {
    if bins != [] {
      var n := |bins| - 1;
      TriangleOverBins(bins[..n]);
      ConcatAppend(bins[..n], bins[n]);
      assert bins == bins[..n] + [bins[n]];
      ExcessSum(Concat(bins[..n]), bins[n]);
    }
  }

  lemma {:induction false} ExcessOfThree(x: seq<Record>, y: seq<Record>, z: seq<Record>)
    ensures Excess(x + (y + z)) == Excess(x + z) + Excess(y)
  {
    ExcessSum(x, y + z);
    ExcessSum(y, z);
    ExcessSum(x, z);
  }

  lemma {:induction false} ExcessWithoutOne(b: seq<Record>, k: nat)
    requires k < |b|
    ensures Excess(b) == Excess(b[..k] + b[k + 1..]) + Excess([b[k]])
  {
    ExcessOfThree(b[..k], [b[k]], b[k + 1..]);
    Reassemble(b, k);
  }

  lemma Reassemble<T>(b: seq<T>, k: nat)
    requires k < |b|
    ensures b[..k] + ([b[k]] + b[k + 1..]) == b
  {
  }

  lemma WithoutOne<T>(b: seq<T>, k: nat)
    requires k < |b|
    ensures multiset(b[..k] + b[k + 1..]) == multiset(b) - multiset{b[k]}
  {
    Reassemble(b, k);
  }

  lemma {:induction false} ExcessRearranged(a: seq<Record>, b: seq<Record>)
    requires multiset(a) == multiset(b)
    ensures Excess(a) == Excess(b)
    decreases |a|
  {
    SameElements(a, b);
    if a != [] {
      var k := IndexOf(b, a[0]);
      WithoutOne(a, 0);
      ExcessWithoutOne(a, 0);
      WithoutOne(b, k);
      ExcessWithoutOne(b, k);
      ExcessRearranged(a[..0] + a[1..], b[..k] + b[k + 1..]);
    }
  }

  lemma IndexOf<T>(s: seq<T>, x: T) returns (k: nat)
    requires x in s
    ensures k < |s| && s[k] == x
  {
    k :| 0 <= k < |s| && s[k] == x;
  }

  lemma WeightedGap(ece: real, count: real, total: real, gap: real)
    requires total > 0.0
    ensures (ece + count / total * gap) * total == ece * total + count * gap
  {
    var share := count / total;
    assert share * total == count;
    assert (ece + share * gap) * total == ece * total + (share * total) * gap;
  }

  lemma MaximumBound(sum: real, mce: real, counted: real, gap: real, count: real)
    requires sum <= mce * counted && counted >= 0.0 && count >= 0.0
    ensures sum + count * gap <= Max(mce, gap) * (counted + count)
  {
    var m := Max(mce, gap);
    assert (m - mce) * counted >= 0.0;
    assert (m - gap) * count >= 0.0;
    assert m * (counted + count) == m * counted + m * count;
  }

  // ---------- The table ----------

  /** A row of the table; a bin without records has no means. */
  datatype Row = Empty | Row(count: nat, predicted: real, observed: real)

  function RowOf(bin: seq<Record>): Row {
    if bin == [] then Empty else Row(|bin|, MeanPredicted(bin), MeanObserved(bin))
  }

  function GapIn(row: Row): real
    requires row.Row?
  {
    Abs(row.predicted - row.observed)
  }

  ghost function PositiveIndexes(bin: seq<Record>): set<int> {
    set i | 0 <= i < |bin| && bin[i].positive
  }

  /** The observed total is the number of positive records. */
  lemma {:induction false} ObservedCounts(bin: seq<Record>)
    ensures Observed(bin) == |PositiveIndexes(bin)| as real
  {
    if bin == [] {
      assert PositiveIndexes(bin) == {};
    } else {
      var n := |bin| - 1;
      ObservedCounts(bin[..n]);
      if bin[n].positive {
        assert PositiveIndexes(bin) == PositiveIndexes(bin[..n]) + {n};
      } else {
        assert PositiveIndexes(bin) == PositiveIndexes(bin[..n]);
      }
    }
  }

  lemma Remultiplied(a: real, n: real)
    requires n > 0.0
    ensures a / n * n == a
  {
  }

  /** A row in counts: observed mean times count is the number of positives, predicted mean times count the sum. */
  lemma {:induction false} RowInCounts(bin: seq<Record>)
    ensures RowOf(bin).Empty? <==> bin == []
    ensures bin != [] ==>
              && RowOf(bin).count == |bin|
              && RowOf(bin).observed * |bin| as real == |PositiveIndexes(bin)| as real
              && RowOf(bin).predicted * |bin| as real == Predicted(bin)
  {
    if bin != [] {
      ObservedCounts(bin);
      Remultiplied(Observed(bin), |bin| as real);
      Remultiplied(Predicted(bin), |bin| as real);
    }
  }

  function Rows(bins: seq<seq<Record>>): seq<Row> {
    if bins == [] then [] else Rows(bins[..|bins| - 1]) + [RowOf(bins[|bins| - 1])]
  }

  /** The gap of a row times its number of records. */
  function Weighted(row: Row): real {
    if row.Empty? then 0.0 else row.count as real * GapIn(row)
  }

  function TotalWeighted(rows: seq<Row>): real {
    if rows == [] then 0.0 else TotalWeighted(rows[..|rows| - 1]) + Weighted(rows[|rows| - 1])
  }

  function TotalCount(rows: seq<Row>): nat {
    if rows == [] then 0
    else TotalCount(rows[..|rows| - 1]) + if rows[|rows| - 1].Empty? then 0 else rows[|rows| - 1].count
  }

  /** The largest gap of the rows with records, or zero when there are none. */
  ghost predicate LargestGap(rows: seq<Row>, mce: real) {
    && (forall k :: 0 <= k < |rows| && rows[k].Row? ==> GapIn(rows[k]) <= mce)
    && (mce == 0.0 || exists k :: 0 <= k < |rows| && rows[k].Row? && mce == GapIn(rows[k]))
    && 0.0 <= mce <= 1.0
  }

  lemma LargestGapStep(rows: seq<Row>, row: Row, mce: real)
    requires LargestGap(rows, mce) && (row.Row? ==> GapIn(row) <= 1.0)
    ensures LargestGap(rows + [row], if row.Empty? then mce else Max(mce, GapIn(row)))
  {
    var longer := rows + [row];
    assert longer[|rows|] == row;
    assert forall k :: 0 <= k < |rows| ==> longer[k] == rows[k];
  }

  /** The expected error times all records, and a bound on it by the maximum. */
  ghost predicate Accumulated(weighted: real, counted: real, total: real, ece: real, mce: real) {
    ece * total == weighted <= mce * counted
  }

  lemma AccumulatedStep(weighted: real, counted: real, total: real, ece: real, mce: real, count: real, gap: real)
    requires total > 0.0 && counted >= 0.0 && count >= 0.0 && Accumulated(weighted, counted, total, ece, mce)
    ensures Accumulated(weighted + count * gap, counted + count, total, ece + count / total * gap, Max(mce, gap))
  {
    WeightedGap(ece, count, total, gap);
    MaximumBound(weighted, mce, counted, gap, count);
  }

  lemma {:induction false} RowInRange(bin: seq<Record>)
    requires bin != []
    ensures GapIn(RowOf(bin)) == Gap(bin) <= 1.0
    ensures Weighted(RowOf(bin)) == Abs(Excess(bin))
  {
    GapOfBin(bin);
  }

  lemma {:induction false} RowsWeighted(bins: seq<seq<Record>>)
    ensures |Rows(bins)| == |bins|
    ensures TotalWeighted(Rows(bins)) == TotalExcess(bins)
    ensures TotalCount(Rows(bins)) == |Concat(bins)|
  {
    if bins != [] {
      var n := |bins| - 1;
      var before, row := Rows(bins[..n]), RowOf(bins[n]);
      RowsWeighted(bins[..n]);
      ConcatAppend(bins[..n], bins[n]);
      assert bins == bins[..n] + [bins[n]];
      assert (before + [row])[..n] == before;
      RowTotals(bins[n]);
    }
  }

  lemma {:induction false} RowTotals(bin: seq<Record>)
    ensures Weighted(RowOf(bin)) == Abs(Excess(bin))
    ensures (if RowOf(bin).Empty? then 0 else RowOf(bin).count) == |bin|
  {
    if bin != [] {
      RowInRange(bin);
    }
  }

  /** Rows with means have records, and no gap above one. */
  ghost predicate Proper(rows: seq<Row>) {
    forall k :: 0 <= k < |rows| && rows[k].Row? ==> rows[k].count > 0 && GapIn(rows[k]) <= 1.0
  }

  lemma {:induction false} CountAtMost(rows: seq<Row>, k: nat)
    requires k < |rows| && rows[k].Row?
    ensures rows[k].count <= TotalCount(rows)
  {
    if k < |rows| - 1 {
      CountAtMost(rows[..|rows| - 1], k);
    }
  }

  lemma {:induction false} RowsProper(bins: seq<seq<Record>>)
    ensures Proper(Rows(bins))
  {
    if bins != [] {
      var n := |bins| - 1;
      RowsProper(bins[..n]);
      if bins[n] != [] {
        RowInRange(bins[n]);
      }
    }
  }

  lemma TotalsStep(rows: seq<Row>, k: nat)
    requires k < |rows|
    ensures TotalWeighted(rows[..k + 1]) == TotalWeighted(rows[..k]) + Weighted(rows[k])
    ensures TotalCount(rows[..k + 1]) == TotalCount(rows[..k]) + if rows[k].Empty? then 0 else rows[k].count
    ensures rows[..k + 1] == rows[..k] + [rows[k]]
  {
    assert rows[..k + 1][..k] == rows[..k];
  }

  /** Adds a row with records to the errors of the rows before it. */
  method AddRow(row: Row, n: real, ece: real, mce: real, ghost weighted: real, ghost counted: real)
    returns (newEce: real, newMce: real)
    requires row.Row? && n > 0.0 && counted >= 0.0 && Accumulated(weighted, counted, n, ece, mce)
    ensures Accumulated(weighted + Weighted(row), counted + row.count as real, n, newEce, newMce)
    ensures newMce == Max(mce, GapIn(row))
  {
    var count, gap := row.count as real, GapIn(row);
    AccumulatedStep(weighted, counted, n, ece, mce, count, gap);
    newEce, newMce := ece + count / n * gap, Max(mce, gap);
  }

  /** The expected and the maximum calibration error of a table over `total` records. */
  method Errors(table: seq<Row>, total: nat) returns (ece: real, mce: real)
    requires TotalCount(table) == total && Proper(table)
    ensures LargestGap(table, mce)
    ensures total > 0 ==> Accumulated(TotalWeighted(table), total as real, total as real, ece, mce)
    ensures total == 0 ==> ece == mce == 0.0
  {
    ece, mce := 0.0, 0.0;
    var n := total as real;
    ghost var weighted, counted := 0.0, 0.0;
    for k := 0 to |table|
      invariant LargestGap(table[..k], mce)
      invariant weighted == TotalWeighted(table[..k]) && counted == TotalCount(table[..k]) as real
      invariant total > 0 ==> Accumulated(weighted, counted, n, ece, mce)
      invariant total == 0 ==> ece == mce == 0.0
    {
      var row := table[k];
      TotalsStep(table, k);
      LargestGapStep(table[..k], row, mce);
      if row.Row? {
        CountAtMost(table, k);
        ece, mce := AddRow(row, n, ece, mce, weighted, counted);
        weighted, counted := weighted + Weighted(row), counted + row.count as real;
      }
    }
    assert table[..|table|] == table;
  }

  lemma AtMost(x: real, y: real, n: real, a: real, b: real)
    requires n > 0.0 && x * n == a && a <= b && b <= y * n
    ensures x <= y
  {
    Compare(y, x, n);
  }

  /** The excess of all records is at most what any partition of them adds up to. */
  lemma {:induction false} ExcessOfPartition(records: seq<Record>, bins: seq<seq<Record>>)
    requires multiset(Concat(bins)) == multiset(records)
    ensures Abs(Excess(records)) <= TotalExcess(bins)
  {
    TriangleOverBins(bins);
    ExcessRearranged(Concat(bins), records);
  }

  datatype Entry = Labelled(record: Record) | Unlabelled

  function ValidRecords(entries: seq<Entry>): seq<Record> {
    if entries == [] then []
    else (if entries[0].Labelled? then [entries[0].record] else []) + ValidRecords(entries[1..])
  }

  datatype Report = Report(table: seq<Row>, ece: real, mce: real)

  /** What a report says about its records: both errors follow from the rows and bound the overall gap. */
  ghost predicate Faithful(records: seq<Record>, bins: seq<seq<Record>>, report: Report) {
    && report.table == Rows(bins)
    && LargestGap(report.table, report.mce)
    && (records != [] ==> Bounded(records, TotalExcess(bins), |records| as real, report.ece, report.mce))
    && (records == [] ==> report.ece == report.mce == 0.0)
  }

  ghost predicate Bounded(records: seq<Record>, weighted: real, n: real, ece: real, mce: real)
    requires records != []
  {
    ece * n == weighted && Gap(records) <= ece <= mce <= 1.0
  }

  lemma {:induction false} OverallGap(
      records: seq<Record>, gap: real, excess: real, weighted: real, n: real, ece: real, mce: real)
    requires records != [] && gap == Gap(records) && excess == Abs(Excess(records)) <= weighted
    requires n == |records| as real && Accumulated(weighted, n, n, ece, mce) && mce <= 1.0
    ensures Bounded(records, weighted, n, ece, mce)
  {
    GapOfBin(records);
    AtMost(gap, ece, n, excess, weighted);
    AtMost(ece, mce, n, weighted, weighted);
  }

  method ReportOf(records: seq<Record>, bins: seq<seq<Record>>) returns (report: Report)
    requires multiset(Concat(bins)) == multiset(records)
    ensures Faithful(records, bins, report)
  {
    SameElements(Concat(bins), records);
    var table := Rows(bins);
    RowsWeighted(bins);
    RowsProper(bins);
    var ece, mce := Errors(table, |records|);
    if records != [] {
      ExcessOfPartition(records, bins);
      OverallGap(records, Gap(records), Abs(Excess(records)), TotalExcess(bins), |records| as real, ece, mce);
    }
    report := Report(table, ece, mce);
  }

  /**
    The reliability table of the labelled records. Their overall calibration gap is at most the
    expected error, which is at most the maximum error, which is at most one.
  */
  method ReliabilityTable(entries: seq<Entry>, bins: nat, strategy: Strategy)
    returns (report: Result<Report, TableError>)
    ensures report.Err? <==> strategy.EqualFrequency? && (bins == 0 || ValidRecords(entries) == [])
    ensures report.Ok? && bins > 0 ==>
              Faithful(ValidRecords(entries), Bins(ValidRecords(entries), bins, strategy).value, report.value)
    ensures report.Ok? && bins == 0 ==> report.value == Report([], 0.0, 0.0)
  {
    var records := ValidRecords(entries);
    var table := Bins(records, bins, strategy);
    if table.Err? {
      return Err(table.error);
    }
    if bins == 0 {
      return Ok(Report([], 0.0, 0.0));
    }
    BinsPartition(records, bins, strategy);
    var rows := ReportOf(records, table.value);
    report := Ok(rows);
  }
}
