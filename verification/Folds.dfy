/** Grouped outer folds: a greedy allocation of task pairs that balances missing labels. */
module Folds {
  import opened Common
  import opened Ordering

  datatype FoldError = MalformedGroup | NotEightTasks | WrongFoldSize

  /** One candidate's row for a task; a missing label is None. */
  datatype Row = Row(task: string, category: string, acceptable: Option<bool>)

  datatype Profile = Profile(task: string, category: string, positive: nat, negative: nat, missing: nat)

  const FOLDS := 4

  // ---------- Profiles ----------

  function TaskIds(rows: seq<Row>): seq<string> {
    if rows == [] then []
    else
      var before, last := TaskIds(rows[..|rows| - 1]), rows[|rows| - 1].task;
      if last in before then before else before + [last]
  }

  function Group(rows: seq<Row>, task: string): seq<Row> {
    if rows == [] then []
    else Group(rows[..|rows| - 1], task) + if rows[|rows| - 1].task == task then [rows[|rows| - 1]] else []
  }

  function Labels(rows: seq<Row>, value: Option<bool>): nat {
    if rows == [] then 0
    else Labels(rows[..|rows| - 1], value) + if rows[|rows| - 1].acceptable == value then 1 else 0
  }

  predicate WellFormed(group: seq<Row>) {
    |group| == 4 && forall i :: 0 <= i < |group| ==> group[i].category == group[0].category
  }

  function ProfileOf(task: string, group: seq<Row>): Profile
    requires WellFormed(group)
  {
    Profile(task, group[0].category, Labels(group, Some(true)), Labels(group, Some(false)), Labels(group, None))
  }

  predicate AllWellFormed(rows: seq<Row>) {
    forall t :: t in TaskIds(rows) ==> WellFormed(Group(rows, t))
  }

  function Profiles(rows: seq<Row>): seq<Profile>
    requires AllWellFormed(rows)
  {
    var ids := TaskIds(rows);
    seq(|ids|, i requires 0 <= i < |ids| => assert ids[i] in ids; ProfileOf(ids[i], Group(rows, ids[i])))
  }

  lemma {:induction false} LabelsPartition(rows: seq<Row>)
    ensures Labels(rows, Some(true)) + Labels(rows, Some(false)) + Labels(rows, None) == |rows|
  {
    if rows != [] {
      LabelsPartition(rows[..|rows| - 1]);
      match rows[|rows| - 1].acceptable
      case None =>
      case Some(acceptable) => assert acceptable == true || acceptable == false;
    }
  }

  /** One profile per task, each with four labels. */
  lemma {:induction false} ProfilesSpec(rows: seq<Row>)
    requires AllWellFormed(rows)
    ensures forall p :: p in Profiles(rows) ==> p.positive + p.negative + p.missing == 4
    ensures forall i, j :: 0 <= i < j < |Profiles(rows)| ==> Profiles(rows)[i].task != Profiles(rows)[j].task
  {
    var ids := TaskIds(rows);
    TaskIdsDistinct(rows);
    forall i | 0 <= i < |ids|
      ensures var p := Profiles(rows)[i]; p.positive + p.negative + p.missing == 4
    {
      assert ids[i] in ids;
      LabelsPartition(Group(rows, ids[i]));
    }
  }

  lemma {:induction false} TaskIdsDistinct(rows: seq<Row>)
    ensures Distinct(TaskIds(rows))
  {
    if rows != [] {
      TaskIdsDistinct(rows[..|rows| - 1]);
    }
  }

  // ---------- Sorting keys ----------

  predicate TaskLe(a: Profile, b: Profile) {
    a.positive < b.positive
    || (a.positive == b.positive && (a.missing < b.missing || (a.missing == b.missing && TextLe(a.task, b.task))))
  }

  type Pair = (Profile, Profile)

  function PairMissing(p: Pair): nat {
    p.0.missing + p.1.missing
  }

  function PairPositive(p: Pair): nat {
    p.0.positive + p.1.positive
  }

  predicate IdsLe(a: Pair, b: Pair) {
    (a.0.task != b.0.task && TextLe(a.0.task, b.0.task)) || (a.0.task == b.0.task && TextLe(a.1.task, b.1.task))
  }

  /** Most missing labels first, then most positive ones, then by ids. */
  predicate PairLe(a: Pair, b: Pair) {
    PairMissing(a) > PairMissing(b)
    || (PairMissing(a) == PairMissing(b)
        && (PairPositive(a) > PairPositive(b) || (PairPositive(a) == PairPositive(b) && IdsLe(a, b))))
  }

  lemma TaskPreorder()
    ensures Preorder(TaskLe)
  {
    forall x: Profile, y: Profile
      ensures TaskLe(x, y) || TaskLe(y, x)
    {
      TextLeTotal(x.task, y.task);
    }
    forall x: Profile, y: Profile, z: Profile | TaskLe(x, y) && TaskLe(y, z)
      ensures TaskLe(x, z)
    {
      if TextLe(x.task, y.task) && TextLe(y.task, z.task) {
        TextLeTransitive(x.task, y.task, z.task);
      }
    }
  }

  lemma IdsTransitive(x: Pair, y: Pair, z: Pair)
    requires IdsLe(x, y) && IdsLe(y, z)
    ensures IdsLe(x, z)
  {
    TextLeTotal(x.0.task, y.0.task);
    TextLeTotal(y.0.task, z.0.task);
    if TextLe(x.0.task, y.0.task) && TextLe(y.0.task, z.0.task) {
      TextLeTransitive(x.0.task, y.0.task, z.0.task);
    }
    if TextLe(x.1.task, y.1.task) && TextLe(y.1.task, z.1.task) {
      TextLeTransitive(x.1.task, y.1.task, z.1.task);
    }
  }

  lemma PairPreorder()
    ensures Preorder(PairLe)
  {
    forall x: Pair, y: Pair
      ensures PairLe(x, y) || PairLe(y, x)
    {
      TextLeTotal(x.0.task, y.0.task);
      TextLeTotal(x.1.task, y.1.task);
    }
    forall x: Pair, y: Pair, z: Pair | PairLe(x, y) && PairLe(y, z)
      ensures PairLe(x, z)
    {
      if IdsLe(x, y) && IdsLe(y, z) {
        IdsTransitive(x, y, z);
      }
    }
  }

  // ---------- Totals of a fold ----------

  function Positives(tasks: seq<Profile>): nat {
    if tasks == [] then 0 else Positives(tasks[..|tasks| - 1]) + tasks[|tasks| - 1].positive
  }

  function Negatives(tasks: seq<Profile>): nat {
    if tasks == [] then 0 else Negatives(tasks[..|tasks| - 1]) + tasks[|tasks| - 1].negative
  }

  function Missing(tasks: seq<Profile>): nat {
    if tasks == [] then 0 else Missing(tasks[..|tasks| - 1]) + tasks[|tasks| - 1].missing
  }

  function InCategory(tasks: seq<Profile>, category: string): nat {
    if tasks == [] then 0
    else InCategory(tasks[..|tasks| - 1], category) + if tasks[|tasks| - 1].category == category then 1 else 0
  }

  lemma {:induction false} PairAppended(tasks: seq<Profile>, pair: Pair)
    ensures var longer := tasks + [pair.0, pair.1];
            && Positives(longer) == Positives(tasks) + PairPositive(pair)
            && Missing(longer) == Missing(tasks) + PairMissing(pair)
            && forall c :: InCategory(longer, c) == InCategory(tasks, c)
                             + (if pair.0.category == c then 1 else 0) + (if pair.1.category == c then 1 else 0)
  {
    var one := tasks + [pair.0];
    var longer := tasks + [pair.0, pair.1];
    assert one[..|tasks|] == tasks && longer[..|one|] == one;
  }

  // ---------- Allocation of one category ----------

  /** The tasks of every fold and its running counters. */
  datatype Load = Load(tasks: seq<seq<Profile>>, positive: seq<nat>, missing: seq<nat>)
  {
    predicate Shaped() {
      |tasks| == |positive| == |missing| == FOLDS
    }

    function Give(pair: Pair, fold: int): Load
      requires Shaped() && 0 <= fold < FOLDS
    {
      Load(tasks[fold := tasks[fold] + [pair.0, pair.1]],
           positive[fold := positive[fold] + PairPositive(pair)],
           missing[fold := missing[fold] + PairMissing(pair)])
    }
  }

  /** The order in which folds are served: fewest missing labels, fewest positive ones, lowest number. */
  predicate Lighter(missing: seq<nat>, positive: seq<nat>, f: int, g: int)
    requires |missing| == |positive| == FOLDS && 0 <= f < FOLDS && 0 <= g < FOLDS
  {
    missing[f] < missing[g]
    || (missing[f] == missing[g] && (positive[f] < positive[g] || (positive[f] == positive[g] && f < g)))
  }

  /** The lightest available fold below n, or -1. */
  function LightestBelow(missing: seq<nat>, positive: seq<nat>, available: set<int>, n: nat): (fold: int)
    requires |missing| == |positive| == FOLDS && n <= FOLDS
    ensures -1 <= fold < n
  {
    if n == 0 then -1
    else
      var best := LightestBelow(missing, positive, available, n - 1);
      if n - 1 in available && (best == -1 || Lighter(missing, positive, n - 1, best)) then n - 1 else best
  }

  function Lightest(load: Load, available: set<int>): (fold: int)
    requires load.Shaped()
    ensures -1 <= fold < FOLDS
  {
    LightestBelow(load.missing, load.positive, available, FOLDS)
  }

  ghost predicate FoldNumbers(available: set<int>) {
    forall f :: f in available ==> 0 <= f < FOLDS
  }

  /** The chosen fold is available if any is, and no available one misses fewer labels. */
  lemma {:induction false} LightestSpec(missing: seq<nat>, positive: seq<nat>, available: set<int>, n: nat)
    requires |missing| == |positive| == FOLDS && n <= FOLDS && FoldNumbers(available)
    ensures var best := LightestBelow(missing, positive, available, n);
            && (best == -1 ==> forall f :: f in available ==> f >= n)
            && (best != -1 ==> best in available)
            && (best != -1 ==> forall f :: f in available && f < n && f != best ==> Lighter(missing, positive, best, f))
  {
    if n > 0 {
      LightestSpec(missing, positive, available, n - 1);
    }
  }

  /** The chosen fold in counts: fewest missing labels, then fewest positive ones, then the lowest number. */
  lemma ChosenFold(load: Load, available: set<int>)
    requires load.Shaped() && FoldNumbers(available)
    ensures var best := Lightest(load, available);
            && (best == -1 <==> available == {})
            && (best != -1 ==> best in available && forall f :: f in available && f != best ==>
                  || load.missing[best] < load.missing[f]
                  || (load.missing[best] == load.missing[f] && load.positive[best] < load.positive[f])
                  || (load.missing[best] == load.missing[f] && load.positive[best] == load.positive[f] && best < f))
  {
    LightestSpec(load.missing, load.positive, available, FOLDS);
    if Lightest(load, available) == -1 {
      forall f ensures f !in available {
      }
      assert available == {};
    }
  }

  /** Every pair in turn goes to the lightest fold that has none yet. */
  function Deal(load: Load, pairs: seq<Pair>, available: set<int>): (dealt: Load)
    requires load.Shaped()
    ensures dealt.Shaped()
    decreases |pairs|
  {
    if pairs == [] then load
    else
      var fold := Lightest(load, available);
      if fold == -1 then load else Deal(load.Give(pairs[0], fold), pairs[1..], available - {fold})
  }

  const ALL_FOLDS: set<int> := {0, 1, 2, 3}

  /** All tasks assigned so far. */
  ghost function Assigned(folds: seq<seq<Profile>>): multiset<Profile>
    requires |folds| == FOLDS
  {
    multiset(folds[0]) + multiset(folds[1]) + multiset(folds[2]) + multiset(folds[3])
  }

  function Members(pairs: seq<Pair>): seq<Profile> {
    if pairs == [] then [] else [pairs[0].0, pairs[0].1] + Members(pairs[1..])
  }

  /** The running counters are the totals of the assigned tasks. */
  ghost predicate Counted(load: Load) {
    && load.Shaped()
    && forall f :: 0 <= f < FOLDS ==>
         load.positive[f] == Positives(load.tasks[f]) && load.missing[f] == Missing(load.tasks[f])
  }

  lemma GiveCounted(load: Load, pair: Pair, fold: int)
    requires Counted(load) && 0 <= fold < FOLDS
    ensures Counted(load.Give(pair, fold))
  {
    PairAppended(load.tasks[fold], pair);
  }

  lemma {:induction false} DealCounted(load: Load, pairs: seq<Pair>, available: set<int>)
    requires Counted(load)
    ensures Counted(Deal(load, pairs, available))
    decreases |pairs|
  {
    if pairs != [] {
      var fold := Lightest(load, available);
      if fold != -1 {
        GiveCounted(load, pairs[0], fold);
        DealCounted(load.Give(pairs[0], fold), pairs[1..], available - {fold});
      }
    }
  }

  lemma Pick<T>(s: set<T>) returns (x: T)
    requires |s| > 0
    ensures x in s
  {
    x :| x in s;
  }

  lemma LightestAvailable(load: Load, available: set<int>)
    requires load.Shaped() && FoldNumbers(available) && |available| > 0
    ensures Lightest(load, available) in available
    ensures forall f :: f in available ==> load.missing[Lightest(load, available)] <= load.missing[f]
  {
    LightestSpec(load.missing, load.positive, available, FOLDS);
    var f := Pick(available);
  }

  lemma GiveAssigned(load: Load, pair: Pair, fold: int)
    requires load.Shaped() && 0 <= fold < FOLDS
    ensures Assigned(load.Give(pair, fold).tasks) == Assigned(load.tasks) + multiset{pair.0, pair.1}
  {
    assert multiset(load.tasks[fold] + [pair.0, pair.1]) == multiset(load.tasks[fold]) + multiset{pair.0, pair.1};
  }

  /** Nothing is lost and nothing is assigned twice. */
  lemma {:induction false} DealAssigned(load: Load, pairs: seq<Pair>, available: set<int>)
    requires load.Shaped() && FoldNumbers(available) && |available| == |pairs|
    ensures Assigned(Deal(load, pairs, available).tasks) == Assigned(load.tasks) + multiset(Members(pairs))
    decreases |pairs|
  {
    if pairs != [] {
      LightestAvailable(load, available);
      var fold := Lightest(load, available);
      GiveAssigned(load, pairs[0], fold);
      DealAssigned(load.Give(pairs[0], fold), pairs[1..], available - {fold});
    }
  }

  /** Every available fold receives one pair, the others nothing. */
  lemma {:induction false} DealReceived(load: Load, pairs: seq<Pair>, available: set<int>, f: int) returns (k: int)
    requires load.Shaped() && FoldNumbers(available) && |available| == |pairs| && 0 <= f < FOLDS
    ensures f !in available ==>
              && Deal(load, pairs, available).tasks[f] == load.tasks[f]
              && Deal(load, pairs, available).missing[f] == load.missing[f]
    ensures f in available ==>
              && 0 <= k < |pairs|
              && Deal(load, pairs, available).tasks[f] == load.tasks[f] + [pairs[k].0, pairs[k].1]
              && Deal(load, pairs, available).missing[f] == load.missing[f] + PairMissing(pairs[k])
    decreases |pairs|
  {
    k := 0;
    if pairs != [] {
      LightestAvailable(load, available);
      var fold := Lightest(load, available);
      k := DealReceived(load.Give(pairs[0], fold), pairs[1..], available - {fold}, f);
      k := if f == fold then 0 else k + 1;
    }
  }

  /** The pairs come heaviest first and differ by at most `spread`. */
  ghost predicate Graded(pairs: seq<Pair>, spread: nat) {
    forall i, j :: 0 <= i <= j < |pairs| ==>
      PairMissing(pairs[j]) <= PairMissing(pairs[i]) <= PairMissing(pairs[j]) + spread
  }

  ghost predicate Within(load: Load, available: set<int>, bound: nat)
    requires load.Shaped() && FoldNumbers(available)
  {
    forall f, g :: f in available && g in available ==> load.missing[f] <= load.missing[g] + bound
  }

  /** Heaviest to lightest: the imbalance afterwards is no more than the old one or the spread of the pairs. */
  lemma {:induction false} DealBalanced(load: Load, pairs: seq<Pair>, available: set<int>, bound: nat, spread: nat)
    requires load.Shaped() && FoldNumbers(available) && |available| == |pairs|
    requires Within(load, available, bound) && Graded(pairs, spread) && spread <= bound
    ensures Within(Deal(load, pairs, available), available, bound)
    decreases |pairs|
  {
    if pairs != [] {
      LightestAvailable(load, available);
      var fold := Lightest(load, available);
      var given, rest, others := load.Give(pairs[0], fold), pairs[1..], available - {fold};
      assert Within(given, others, bound);
      GradedTail(pairs, spread);
      DealBalanced(given, rest, others, bound, spread);
      var dealt := Deal(load, pairs, available);
      var _ := DealReceived(given, rest, others, fold);
      forall g | g in others
        ensures dealt.missing[fold] <= dealt.missing[g] + bound && dealt.missing[g] <= dealt.missing[fold] + bound
      {
        var k := DealReceived(given, rest, others, g);
        assert rest[k] == pairs[k + 1];
        assert load.missing[g] <= load.missing[fold] + bound;
        assert PairMissing(pairs[k + 1]) <= PairMissing(pairs[0]) <= PairMissing(pairs[k + 1]) + spread;
      }
    }
  }

  lemma GradedTail(pairs: seq<Pair>, spread: nat)
    requires pairs != [] && Graded(pairs, spread)
    ensures Graded(pairs[1..], spread)
  {
    var tail := pairs[1..];
    forall i, j | 0 <= i <= j < |tail|
      ensures PairMissing(tail[j]) <= PairMissing(tail[i]) <= PairMissing(tail[j]) + spread
    {
      assert tail[i] == pairs[i + 1] && tail[j] == pairs[j + 1];
    }
  }

  // ---------- All categories ----------

  function TasksIn(profiles: seq<Profile>, category: string): seq<Profile> {
    if profiles == [] then []
    else (if profiles[0].category == category then [profiles[0]] else []) + TasksIn(profiles[1..], category)
  }

  /** The first with the last, the second with the last but one, and so on. */
  function PairUp(tasks: seq<Profile>): (pairs: seq<Pair>)
    ensures |pairs| == |tasks| / 2
  {
    if |tasks| < 2 then []
    else [(tasks[0], tasks[|tasks| - 1])] + PairUp(tasks[1..|tasks| - 1])
  }

  function CategoryPairs(profiles: seq<Profile>, category: string): seq<Pair>
    requires |TasksIn(profiles, category)| == 8
  {
    TaskPreorder();
    SortSpec(TaskLe, TasksIn(profiles, category));
    Sort(PairLe, PairUp(Sort(TaskLe, TasksIn(profiles, category))))
  }

  function CategoryNames(profiles: seq<Profile>): seq<string> {
    if profiles == [] then []
    else
      var before, last := CategoryNames(profiles[..|profiles| - 1]), profiles[|profiles| - 1].category;
      if last in before then before else before + [last]
  }

  const EMPTY_LOAD := Load([[], [], [], []], [0, 0, 0, 0], [0, 0, 0, 0])

  /** Deals the given categories one after the other. */
  function Allocate(profiles: seq<Profile>, categories: seq<string>): (r: Result<Load, FoldError>)
    ensures r.Ok? ==> r.value.Shaped()
  {
    if categories == [] then Ok(EMPTY_LOAD)
    else
      var before, category := Allocate(profiles, categories[..|categories| - 1]), categories[|categories| - 1];
      if before.Err? then before
      else if |TasksIn(profiles, category)| != 8 then Err(NotEightTasks)
      else Ok(Deal(before.value, CategoryPairs(profiles, category), ALL_FOLDS))
  }

  datatype Assignment = Assignment(fold: nat, tasks: seq<Profile>, positive: nat, negative: nat, missing: nat)

  predicate IdLe(a: Profile, b: Profile) {
    TextLe(a.task, b.task)
  }

  function AssignmentOf(load: Load, fold: nat): Assignment
    requires load.Shaped() && fold < FOLDS
  {
    var tasks := load.tasks[fold];
    Assignment(fold, Sort(IdLe, tasks), Positives(tasks), Negatives(tasks), Missing(tasks))
  }

  lemma {:induction false} TasksInSpec(profiles: seq<Profile>, category: string)
    ensures forall p :: p in TasksIn(profiles, category) ==> p in profiles && p.category == category
    ensures forall p ::
              multiset(TasksIn(profiles, category))[p] == if p.category == category then multiset(profiles)[p] else 0
  {
    if profiles != [] {
      assert profiles == [profiles[0]] + profiles[1..];
      TasksInSpec(profiles[1..], category);
    }
  }

  lemma {:induction false} MembersOfInsert(x: Pair, s: seq<Pair>)
    ensures multiset(Members(Insert(PairLe, x, s))) == multiset{x.0, x.1} + multiset(Members(s))
  {
    var inserted := Insert(PairLe, x, s);
    if s == [] || PairLe(x, s[0]) {
      assert inserted[1..] == s;
    } else {
      MembersOfInsert(x, s[1..]);
      assert inserted[1..] == Insert(PairLe, x, s[1..]);
    }
  }

  lemma {:induction false} MembersOfSort(s: seq<Pair>)
    ensures multiset(Members(Sort(PairLe, s))) == multiset(Members(s))
  {
    if s != [] {
      MembersOfSort(s[1..]);
      MembersOfInsert(s[0], Sort(PairLe, s[1..]));
    }
  }

  lemma {:induction false} OuterPair(first: Profile, last: Profile, middle: seq<Profile>, pairs: seq<Pair>)
    requires multiset(Members(pairs)) == multiset(middle)
    ensures multiset(Members([(first, last)] + pairs)) == multiset([first] + middle + [last])
  {
    var pair: Pair := (first, last);
    assert ([pair] + pairs)[1..] == pairs;
    assert Members([pair] + pairs) == [first, last] + Members(pairs);
    assert [first, last] == [first] + [last];
  }

  lemma BothEnds(tasks: seq<Profile>)
    requires |tasks| >= 2
    ensures tasks == [tasks[0]] + tasks[1..|tasks| - 1] + [tasks[|tasks| - 1]]
  {
  }

  /** Of an even number of tasks each is in exactly one pair. */
  lemma {:induction false} PairUpMembers(tasks: seq<Profile>)
    requires |tasks| % 2 == 0
    ensures multiset(Members(PairUp(tasks))) == multiset(tasks)
  {
    if |tasks| >= 2 {
      PairUpMembers(tasks[1..|tasks| - 1]);
      OuterPair(tasks[0], tasks[|tasks| - 1], tasks[1..|tasks| - 1], PairUp(tasks[1..|tasks| - 1]));
      BothEnds(tasks);
    }
  }

  /** Task k is paired with task k from the end. */
  lemma {:induction false} PairUpAt(tasks: seq<Profile>, k: nat)
    requires k < |tasks| / 2
    ensures PairUp(tasks)[k] == (tasks[k], tasks[|tasks| - 1 - k])
  {
    if k > 0 {
      PairUpAt(tasks[1..|tasks| - 1], k - 1);
    }
  }

  lemma {:induction false} PairUpCategory(tasks: seq<Profile>, category: string)
    requires forall p :: p in tasks ==> p.category == category
    ensures forall pair :: pair in PairUp(tasks) ==> pair.0.category == pair.1.category == category
  {
    forall k | 0 <= k < |tasks| / 2
      ensures PairUp(tasks)[k].0 in tasks && PairUp(tasks)[k].1 in tasks
    {
      PairUpAt(tasks, k);
    }
  }

  /** Sorted pairs come heaviest first. */
  lemma SortedPairsGraded(pairs: seq<Pair>)
    requires Sorted(PairLe, pairs) && |pairs| == FOLDS
    ensures PairMissing(pairs[3]) <= PairMissing(pairs[0])
    ensures Graded(pairs, PairMissing(pairs[0]) - PairMissing(pairs[3]))
  {
    assert forall i, j :: 0 <= i < j < FOLDS ==>
        PairLe(pairs[i], pairs[j]) && PairMissing(pairs[j]) <= PairMissing(pairs[i]);
  }

  /** Four pairs that hold the category's tasks, heaviest first. */
  lemma {:induction false} CategoryPairsSpec(profiles: seq<Profile>, category: string)
    requires |TasksIn(profiles, category)| == 8
    ensures var pairs := CategoryPairs(profiles, category);
            && |pairs| == FOLDS
            && multiset(Members(pairs)) == multiset(TasksIn(profiles, category))
            && (forall pair :: pair in pairs ==> pair.0.category == pair.1.category == category)
            && PairMissing(pairs[3]) <= PairMissing(pairs[0])
            && Graded(pairs, PairMissing(pairs[0]) - PairMissing(pairs[3]))
  {
    SortedCategory(profiles, category);
    SortedTasksPairs(Sort(TaskLe, TasksIn(profiles, category)), category);
  }

  lemma {:induction false} SortedTasksPairs(tasks: seq<Profile>, category: string)
    requires |tasks| == 8 && forall p :: p in tasks ==> p.category == category
    ensures var pairs := Sort(PairLe, PairUp(tasks));
            && |pairs| == FOLDS
            && multiset(Members(pairs)) == multiset(tasks)
            && (forall pair :: pair in pairs ==> pair.0.category == pair.1.category == category)
            && PairMissing(pairs[3]) <= PairMissing(pairs[0])
            && Graded(pairs, PairMissing(pairs[0]) - PairMissing(pairs[3]))
  {
    PairUpCategory(tasks, category);
    PairUpMembers(tasks);
    SortedPairsSpec(PairUp(tasks));
  }

  lemma {:induction false} SortedCategory(profiles: seq<Profile>, category: string)
    ensures var sorted := Sort(TaskLe, TasksIn(profiles, category));
            && |sorted| == |TasksIn(profiles, category)| && multiset(sorted) == multiset(TasksIn(profiles, category))
            && forall p :: p in sorted ==> p.category == category
  {
    TaskPreorder();
    SortSpec(TaskLe, TasksIn(profiles, category));
    TasksInSpec(profiles, category);
  }

  lemma {:induction false} SortedPairsSpec(pairs: seq<Pair>)
    requires |pairs| == FOLDS
    ensures var sorted := Sort(PairLe, pairs);
            && |sorted| == FOLDS && multiset(Members(sorted)) == multiset(Members(pairs))
            && (forall pair :: pair in sorted ==> pair in pairs)
            && PairMissing(sorted[3]) <= PairMissing(sorted[0])
            && Graded(sorted, PairMissing(sorted[0]) - PairMissing(sorted[3]))
  {
    MembersOfSort(pairs);
    PairPreorder();
    SortSpec(PairLe, pairs);
    SortedPairsGraded(Sort(PairLe, pairs));
  }

  /**
    How a category's tasks are paired: ordered by positive labels, then missing ones, then id, the
    k-th task from the front goes with the k-th from the back.
  */
  lemma {:induction false} PairsFromBothEnds(profiles: seq<Profile>, category: string, sorted: seq<Profile>)
    requires |TasksIn(profiles, category)| == 8 && sorted == Sort(TaskLe, TasksIn(profiles, category))
    ensures |sorted| == 8 && multiset(sorted) == multiset(TasksIn(profiles, category))
    ensures forall i, j :: 0 <= i < j < 8 ==>
              || sorted[i].positive < sorted[j].positive
              || (sorted[i].positive == sorted[j].positive && sorted[i].missing < sorted[j].missing)
              || (sorted[i].positive == sorted[j].positive && sorted[i].missing == sorted[j].missing
                  && TextLe(sorted[i].task, sorted[j].task))
    ensures multiset(CategoryPairs(profiles, category)) ==
            multiset{(sorted[0], sorted[7]), (sorted[1], sorted[6]), (sorted[2], sorted[5]), (sorted[3], sorted[4])}
  {
    SortedCategory(profiles, category);
    TaskPreorder();
    SortSpec(TaskLe, TasksIn(profiles, category));
    forall i, j | 0 <= i < j < 8
      ensures TaskLe(sorted[i], sorted[j])
    {
    }
    FourPairs(sorted);
    PairPreorder();
    SortSpec(PairLe, PairUp(sorted));
  }

  lemma {:induction false} FourPairs(tasks: seq<Profile>)
    requires |tasks| == 8
    ensures PairUp(tasks) == [(tasks[0], tasks[7]), (tasks[1], tasks[6]), (tasks[2], tasks[5]), (tasks[3], tasks[4])]
  {
    PairUpAt(tasks, 0);
    PairUpAt(tasks, 1);
    PairUpAt(tasks, 2);
    PairUpAt(tasks, 3);
  }

  /** The order in which pairs are dealt: more missing labels first, then more positive ones, then by ids. */
  lemma {:induction false} PairsInOrder(profiles: seq<Profile>, category: string, i: nat, j: nat)
    requires |TasksIn(profiles, category)| == 8 && i < j < |CategoryPairs(profiles, category)|
    ensures var a, b := CategoryPairs(profiles, category)[i], CategoryPairs(profiles, category)[j];
            var (missingA, missingB) := (a.0.missing + a.1.missing, b.0.missing + b.1.missing);
            var (positiveA, positiveB) := (a.0.positive + a.1.positive, b.0.positive + b.1.positive);
            || missingA > missingB
            || (missingA == missingB && positiveA > positiveB)
            || (missingA == missingB && positiveA == positiveB && a.0.task != b.0.task && TextLe(a.0.task, b.0.task))
            || (missingA == missingB && positiveA == positiveB && a.0.task == b.0.task && TextLe(a.1.task, b.1.task))
  {
    var sorted := Sort(TaskLe, TasksIn(profiles, category));
    PairPreorder();
    SortSpec(PairLe, PairUp(sorted));
    assert PairLe(CategoryPairs(profiles, category)[i], CategoryPairs(profiles, category)[j]);
  }

  /** The difference in missing labels between the heaviest and the lightest pair of a category. */
  function Spread(profiles: seq<Profile>, category: string): nat {
    if |TasksIn(profiles, category)| != 8 then 0
    else
      CategoryPairsSpec(profiles, category);
      var pairs := CategoryPairs(profiles, category);
      PairMissing(pairs[0]) - PairMissing(pairs[3])
  }

  function MaxSpread(profiles: seq<Profile>, categories: seq<string>): nat {
    if categories == [] then 0
    else
      var before := MaxSpread(profiles, categories[..|categories| - 1]);
      var last := Spread(profiles, categories[|categories| - 1]);
      if before < last then last else before
  }

  // ---------- What an allocation satisfies ----------

  lemma AllFolds()
    ensures FoldNumbers(ALL_FOLDS) && |ALL_FOLDS| == FOLDS
    ensures forall f :: 0 <= f < FOLDS ==> f in ALL_FOLDS
  {
  }

  /** Dealing one category assigns its tasks and nothing else. */
  lemma {:induction false} DealCategoryAssigned(load: Load, profiles: seq<Profile>, category: string)
    requires load.Shaped() && |TasksIn(profiles, category)| == 8
    ensures var dealt := Deal(load, CategoryPairs(profiles, category), ALL_FOLDS);
            forall p :: Assigned(dealt.tasks)[p] ==
                        Assigned(load.tasks)[p] + (if p.category == category then multiset(profiles)[p] else 0)
  {
    CategoryPairsSpec(profiles, category);
    AllFolds();
    DealAssigned(load, CategoryPairs(profiles, category), ALL_FOLDS);
    TasksInSpec(profiles, category);
  }

  /** Each fold receives two tasks of the category. */
  lemma {:induction false} DealCategoryTwoEach(load: Load, profiles: seq<Profile>, category: string, f: int)
    requires load.Shaped() && |TasksIn(profiles, category)| == 8 && 0 <= f < FOLDS
    ensures var dealt := Deal(load, CategoryPairs(profiles, category), ALL_FOLDS);
            && |dealt.tasks[f]| == |load.tasks[f]| + 2
            && forall c ::
                 InCategory(dealt.tasks[f], c) == InCategory(load.tasks[f], c) + if c == category then 2 else 0
  {
    CategoryPairsSpec(profiles, category);
    AllFolds();
    var pairs := CategoryPairs(profiles, category);
    var k := DealReceived(load, pairs, ALL_FOLDS, f);
    assert pairs[k] in pairs;
    PairAppended(load.tasks[f], pairs[k]);
  }

  lemma {:induction false} DealCategoryBalanced(load: Load, profiles: seq<Profile>, category: string, bound: nat)
    requires load.Shaped() && |TasksIn(profiles, category)| == 8
    requires FoldNumbers(ALL_FOLDS) && Within(load, ALL_FOLDS, bound) && Spread(profiles, category) <= bound
    ensures Within(Deal(load, CategoryPairs(profiles, category), ALL_FOLDS), ALL_FOLDS, bound)
  {
    CategoryPairsSpec(profiles, category);
    AllFolds();
    DealBalanced(load, CategoryPairs(profiles, category), ALL_FOLDS, bound, Spread(profiles, category));
  }

  ghost predicate AssignsExactly(load: Load, profiles: seq<Profile>, categories: seq<string>)
    requires load.Shaped()
  {
    forall p :: Assigned(load.tasks)[p] == if p.category in categories then multiset(profiles)[p] else 0
  }

  predicate EightEach(profiles: seq<Profile>, categories: seq<string>) {
    forall i :: 0 <= i < |categories| ==> |TasksIn(profiles, categories[i])| == 8
  }

  lemma {:induction false} EightEachLast(profiles: seq<Profile>, categories: seq<string>)
    requires categories != []
    ensures var n := |categories| - 1;
            EightEach(profiles, categories) <==>
            EightEach(profiles, categories[..n]) && |TasksIn(profiles, categories[n])| == 8
  {
    var n := |categories| - 1;
    assert forall i :: 0 <= i < n ==> categories[..n][i] == categories[i];
  }

  lemma {:induction false} AllocateLast(profiles: seq<Profile>, categories: seq<string>, category: string)
    ensures Allocate(profiles, categories + [category]) ==
            if Allocate(profiles, categories).Err? then Allocate(profiles, categories)
            else if |TasksIn(profiles, category)| != 8 then Err(NotEightTasks)
            else Ok(Deal(Allocate(profiles, categories).value, CategoryPairs(profiles, category), ALL_FOLDS))
  {
    assert (categories + [category])[..|categories|] == categories;
  }

  lemma {:induction false} AllocateOk(profiles: seq<Profile>, categories: seq<string>)
    ensures Allocate(profiles, categories).Ok? <==> EightEach(profiles, categories)
    ensures Allocate(profiles, categories).Err? ==> Allocate(profiles, categories) == Err(NotEightTasks)
  {
    if categories != [] {
      var n := |categories| - 1;
      var earlier, category := categories[..n], categories[n];
      AllocateOk(profiles, earlier);
      EightEachLast(profiles, categories);
      AllocateLast(profiles, earlier, category);
      assert categories == earlier + [category];
    }
  }

  lemma {:induction false} AllocateCounted(profiles: seq<Profile>, categories: seq<string>)
    requires Allocate(profiles, categories).Ok?
    ensures Counted(Allocate(profiles, categories).value)
  {
    if categories != [] {
      var n := |categories| - 1;
      AllocateCounted(profiles, categories[..n]);
      DealCounted(Allocate(profiles, categories[..n]).value, CategoryPairs(profiles, categories[n]), ALL_FOLDS);
    }
  }

  lemma {:induction false} AllocateTwoEach(profiles: seq<Profile>, categories: seq<string>, f: int)
    requires Distinct(categories) && Allocate(profiles, categories).Ok? && 0 <= f < FOLDS
    ensures var tasks := Allocate(profiles, categories).value.tasks[f];
            && |tasks| == 2 * |categories|
            && forall c :: InCategory(tasks, c) == if c in categories then 2 else 0
  {
    if categories != [] {
      var n := |categories| - 1;
      AllocateTwoEach(profiles, categories[..n], f);
      DealCategoryTwoEach(Allocate(profiles, categories[..n]).value, profiles, categories[n], f);
      LastApart(categories);
    }
  }

  lemma LastApart(categories: seq<string>)
    requires Distinct(categories) && categories != []
    ensures var n := |categories| - 1;
            categories[n] !in categories[..n] && forall c :: c in categories <==>
                c in categories[..n] || c == categories[n]
  {
    var n := |categories| - 1;
    assert categories == categories[..n] + [categories[n]];
  }

  lemma {:induction false} AllocateAssigns(profiles: seq<Profile>, categories: seq<string>)
    requires Distinct(categories) && Allocate(profiles, categories).Ok?
    ensures AssignsExactly(Allocate(profiles, categories).value, profiles, categories)
  {
    if categories != [] {
      var n := |categories| - 1;
      AllocateAssigns(profiles, categories[..n]);
      DealCategoryAssigned(Allocate(profiles, categories[..n]).value, profiles, categories[n]);
      LastApart(categories);
    }
  }

  lemma {:induction false} AllocateBalanced(profiles: seq<Profile>, categories: seq<string>)
    requires Allocate(profiles, categories).Ok?
    ensures FoldNumbers(ALL_FOLDS)
              && Within(Allocate(profiles, categories).value, ALL_FOLDS, MaxSpread(profiles, categories))
  {
    AllFolds();
    if categories != [] {
      var n := |categories| - 1;
      AllocateBalanced(profiles, categories[..n]);
      DealCategoryBalanced(Allocate(profiles, categories[..n]).value, profiles, categories[n],
                           MaxSpread(profiles, categories));
    }
  }

  /** No spread exceeds eight labels, since a task has four. */
  lemma {:induction false} SpreadAtMostEight(profiles: seq<Profile>, categories: seq<string>)
    requires forall p :: p in profiles ==> p.missing <= 4
    ensures MaxSpread(profiles, categories) <= 8
  {
    if categories != [] {
      SpreadAtMostEight(profiles, categories[..|categories| - 1]);
      var category := categories[|categories| - 1];
      if |TasksIn(profiles, category)| == 8 {
        CategoryPairsSpec(profiles, category);
        TasksInSpec(profiles, category);
        var pairs := CategoryPairs(profiles, category);
        FirstPairMembers(pairs);
        SameElements(Members(pairs), TasksIn(profiles, category));
      }
    }
  }

  lemma {:induction false} FirstPairMembers(pairs: seq<Pair>)
    requires pairs != []
    ensures pairs[0].0 in Members(pairs) && pairs[0].1 in Members(pairs)
  {
    assert Members(pairs)[0] == pairs[0].0 && Members(pairs)[1] == pairs[0].1;
  }

  // ---------- The folds of a dataset ----------

  lemma {:induction false} CategoryNamesSpec(profiles: seq<Profile>)
    ensures Distinct(CategoryNames(profiles))
    ensures forall p :: p in profiles ==> p.category in CategoryNames(profiles)
    ensures forall c :: c in CategoryNames(profiles) ==> exists p :: p in profiles && p.category == c
  {
    if profiles != [] {
      var n := |profiles| - 1;
      CategoryNamesSpec(profiles[..n]);
      assert profiles == profiles[..n] + [profiles[n]];
      LastName(CategoryNames(profiles[..n]), profiles[n].category);
    }
  }

  lemma LastName(names: seq<string>, name: string)
    ensures name in names + [name]
  {
    assert (names + [name])[|names|] == name;
  }

  predicate SameText(a: string, b: string) {
    a == b
  }

  /** The categories in order, each once. */
  function Categories(profiles: seq<Profile>): seq<string> {
    Sort(TextLe, CategoryNames(profiles))
  }

  lemma CategoriesSpec(profiles: seq<Profile>)
    ensures Distinct(Categories(profiles))
    ensures forall p :: p in profiles ==> p.category in Categories(profiles)
    ensures forall c :: c in Categories(profiles) ==> exists p :: p in profiles && p.category == c
    ensures Sorted(TextLe, Categories(profiles))
  {
    CategoryNamesSpec(profiles);
    TextPreorder();
    SortSpec(TextLe, CategoryNames(profiles));
    assert Separate(SameText, CategoryNames(profiles));
    SortSeparate(TextLe, SameText, CategoryNames(profiles));
    assert forall i, j :: 0 <= i < j < |Categories(profiles)| ==>
        !SameText(Categories(profiles)[i], Categories(profiles)[j]);
  }

  lemma {:induction false} InCategorySum(a: seq<Profile>, b: seq<Profile>, category: string)
    ensures InCategory(a + b, category) == InCategory(a, category) + InCategory(b, category)
  {
    if b == [] {
      assert a + b == a;
    } else {
      assert (a + b)[..|a + b| - 1] == a + b[..|b| - 1];
      InCategorySum(a, b[..|b| - 1], category);
    }
  }

  lemma {:induction false} InCategoryInsert(x: Profile, s: seq<Profile>, category: string)
    ensures InCategory(Insert(IdLe, x, s), category) == InCategory([x], category) + InCategory(s, category)
  {
    if s == [] || IdLe(x, s[0]) {
      InCategorySum([x], s, category);
    } else {
      InCategoryInsert(x, s[1..], category);
      InCategorySum([s[0]], Insert(IdLe, x, s[1..]), category);
      InCategorySum([s[0]], s[1..], category);
      assert s == [s[0]] + s[1..];
    }
  }

  lemma {:induction false} InCategorySorted(tasks: seq<Profile>, category: string)
    ensures InCategory(Sort(IdLe, tasks), category) == InCategory(tasks, category)
  {
    if tasks != [] {
      InCategorySorted(tasks[1..], category);
      InCategoryInsert(tasks[0], Sort(IdLe, tasks[1..]), category);
      InCategorySum([tasks[0]], tasks[1..], category);
      assert tasks == [tasks[0]] + tasks[1..];
    }
  }

  lemma {:induction false} SortedFold(tasks: seq<Profile>)
    ensures multiset(Sort(IdLe, tasks)) == multiset(tasks) && |Sort(IdLe, tasks)| == |tasks|
    ensures Sorted(IdLe, Sort(IdLe, tasks))
  {
    forall x: Profile, y: Profile
      ensures IdLe(x, y) || IdLe(y, x)
    {
      TextLeTotal(x.task, y.task);
    }
    TextPreorder();
    assert Preorder(IdLe);
    SortSpec(IdLe, tasks);
  }

  /** The folds hold every task of the dataset once, fourteen to a fold and two of each category. */
  ghost predicate Partition(folds: seq<Assignment>, profiles: seq<Profile>) {
    && |folds| == FOLDS
    && multiset(folds[0].tasks) + multiset(folds[1].tasks) + multiset(folds[2].tasks) + multiset(folds[3].tasks)
       == multiset(profiles)
    && forall f :: 0 <= f < FOLDS ==>
         && |folds[f].tasks| == 14
         && forall c :: c in Categories(profiles) ==> InCategory(folds[f].tasks, c) == 2
  }

  ghost predicate Balanced(folds: seq<Assignment>, bound: nat) {
    forall f, g :: 0 <= f < |folds| && 0 <= g < |folds| ==> folds[f].missing <= folds[g].missing + bound
  }

  lemma AssignedAll(load: Load, profiles: seq<Profile>)
    requires load.Shaped() && AssignsExactly(load, profiles, Categories(profiles))
    ensures Assigned(load.tasks) == multiset(profiles)
  {
    CategoriesSpec(profiles);
    forall p
      ensures Assigned(load.tasks)[p] == multiset(profiles)[p]
    {
      assert p in profiles <==> multiset(profiles)[p] > 0;
    }
  }

  function Assignments(load: Load): seq<Assignment>
    requires load.Shaped()
  {
    [AssignmentOf(load, 0), AssignmentOf(load, 1), AssignmentOf(load, 2), AssignmentOf(load, 3)]
  }

  /** What building the folds returns, category after category. */
  function BuildFoldsSpec(rows: seq<Row>): Result<seq<Assignment>, FoldError> {
    if !AllWellFormed(rows) then Err(MalformedGroup)
    else
      var profiles := Profiles(rows);
      match Allocate(profiles, Categories(profiles))
      case Err(e) => Err(e)
      case Ok(load) =>
        if exists f :: 0 <= f < FOLDS && |load.tasks[f]| != 14 then Err(WrongFoldSize) else Ok(Assignments(load))
  }

  lemma {:induction false} AssignmentSpec(profiles: seq<Profile>, f: nat)
    requires Allocate(profiles, Categories(profiles)).Ok? && f < FOLDS
    ensures var tasks := Allocate(profiles, Categories(profiles)).value.tasks[f];
            var sorted := AssignmentOf(Allocate(profiles, Categories(profiles)).value, f).tasks;
            && multiset(sorted) == multiset(tasks) && |sorted| == 2 * |Categories(profiles)|
            && forall c :: c in Categories(profiles) ==> InCategory(sorted, c) == 2
  {
    var tasks := Allocate(profiles, Categories(profiles)).value.tasks[f];
    CategoriesSpec(profiles);
    SortedFold(tasks);
    AllocateTwoEach(profiles, Categories(profiles), f);
    forall c | c in Categories(profiles)
      ensures InCategory(Sort(IdLe, tasks), c) == 2
    {
      InCategorySorted(tasks, c);
    }
  }

  lemma {:induction false} AssignmentsPartition(profiles: seq<Profile>)
    requires Allocate(profiles, Categories(profiles)).Ok? && |Categories(profiles)| == 7
    ensures Partition(Assignments(Allocate(profiles, Categories(profiles)).value), profiles)
  {
    var load := Allocate(profiles, Categories(profiles)).value;
    assert Assigned(load.tasks) == multiset(profiles) by {
      CategoriesSpec(profiles);
      AllocateAssigns(profiles, Categories(profiles));
      AssignedAll(load, profiles);
    }
    var folds := Assignments(load);
    forall f | 0 <= f < FOLDS
      ensures multiset(folds[f].tasks) == multiset(load.tasks[f]) && |folds[f].tasks| == 14
      ensures forall c :: c in Categories(profiles) ==> InCategory(folds[f].tasks, c) == 2
    {
      AssignmentSpec(profiles, f);
      assert folds[f] == AssignmentOf(load, f);
    }
    SameTotals(folds, load);
  }

  lemma SameTotals(folds: seq<Assignment>, load: Load)
    requires |folds| == FOLDS && load.Shaped()
    requires forall f :: 0 <= f < FOLDS ==> multiset(folds[f].tasks) == multiset(load.tasks[f])
    ensures multiset(folds[0].tasks) + multiset(folds[1].tasks) + multiset(folds[2].tasks) + multiset(folds[3].tasks)
            == Assigned(load.tasks)
  {
  }

  lemma {:induction false} AssignmentsBalanced(profiles: seq<Profile>)
    requires Allocate(profiles, Categories(profiles)).Ok?
    ensures Balanced(Assignments(Allocate(profiles, Categories(profiles)).value),
                     MaxSpread(profiles, Categories(profiles)))
  {
    AllocateCounted(profiles, Categories(profiles));
    AllocateBalanced(profiles, Categories(profiles));
    AllFolds();
  }

  lemma {:induction false} FoldSizes(profiles: seq<Profile>)
    requires Allocate(profiles, Categories(profiles)).Ok?
    ensures forall f :: 0 <= f < FOLDS ==>
              |Allocate(profiles, Categories(profiles)).value.tasks[f]| == 2 * |Categories(profiles)|
  {
    CategoriesSpec(profiles);
    forall f | 0 <= f < FOLDS
      ensures |Allocate(profiles, Categories(profiles)).value.tasks[f]| == 2 * |Categories(profiles)|
    {
      AllocateTwoEach(profiles, Categories(profiles), f);
    }
  }

  /**
    Building succeeds exactly when every group is well formed, every category has eight tasks and
    there are seven categories. The folds then partition the tasks, two of every category in each,
    and no two folds differ by more missing labels than the pairs of a single category do, which
    is at most eight.
  */
  lemma FoldsOfProfiles(rows: seq<Row>)
    ensures BuildFoldsSpec(rows).Ok? <==>
              && AllWellFormed(rows)
              && EightEach(Profiles(rows), Categories(Profiles(rows)))
              && |Categories(Profiles(rows))| == 7
    ensures BuildFoldsSpec(rows).Ok? ==>
              var folds, profiles := BuildFoldsSpec(rows).value, Profiles(rows);
              && Partition(folds, profiles)
              && Balanced(folds, MaxSpread(profiles, Categories(profiles)))
              && MaxSpread(profiles, Categories(profiles)) <= 8
  {
    if AllWellFormed(rows) {
      var profiles := Profiles(rows);
      AllocateOk(profiles, Categories(profiles));
      if Allocate(profiles, Categories(profiles)).Ok? {
        FoldSizes(profiles);
        var load := Allocate(profiles, Categories(profiles)).value;
        assert |load.tasks[0]| == 2 * |Categories(profiles)|;
        if |Categories(profiles)| == 7 {
          AssignmentsPartition(profiles);
          AssignmentsBalanced(profiles);
          ProfilesSpec(rows);
          SpreadAtMostEight(profiles, Categories(profiles));
        }
      }
    }
  }

  // ---------- The folds in terms of rows ----------

  /** The rows whose task is among `ids` and that carry a label. */
  ghost function RowsWith(rows: seq<Row>, ids: set<string>, value: Option<bool>): set<int> {
    set i | 0 <= i < |rows| && rows[i].task in ids && rows[i].acceptable == value
  }

  ghost function FoldIds(fold: Assignment): set<string> {
    set p | p in fold.tasks :: p.task
  }

  /** The tasks among `ids` with a row of a category. */
  ghost function IdsIn(rows: seq<Row>, ids: set<string>, category: string): set<string> {
    set i | 0 <= i < |rows| && rows[i].task in ids && rows[i].category == category :: rows[i].task
  }

  /** Fourteen tasks of the dataset in order, two of each category, and the labels of exactly their rows. */
  ghost predicate RowFold(rows: seq<Row>, fold: Assignment) {
    var ids := FoldIds(fold);
    && |ids| == |fold.tasks| == 14
    && (forall i, j :: 0 <= i < j < |fold.tasks| ==> TextLe(fold.tasks[i].task, fold.tasks[j].task))
    && (forall id :: id in ids ==> exists i :: 0 <= i < |rows| && rows[i].task == id)
    && (forall i :: 0 <= i < |rows| ==> |IdsIn(rows, ids, rows[i].category)| == 2)
    && fold.positive == |RowsWith(rows, ids, Some(true))|
    && fold.negative == |RowsWith(rows, ids, Some(false))|
    && fold.missing == |RowsWith(rows, ids, None)|
  }

  /** Every task is in exactly one fold. */
  ghost predicate OneFoldEach(rows: seq<Row>, folds: seq<Assignment>) {
    && (forall i :: 0 <= i < |rows| ==> exists f :: 0 <= f < |folds| && rows[i].task in FoldIds(folds[f]))
    && (forall f, g :: 0 <= f < g < |folds| ==> FoldIds(folds[f]) !! FoldIds(folds[g]))
  }

  /** No two folds differ by more than `bound` rows without a label. */
  ghost predicate RowBalance(rows: seq<Row>, folds: seq<Assignment>, bound: nat) {
    forall f, g :: 0 <= f < |folds| && 0 <= g < |folds| ==>
      |RowsWith(rows, FoldIds(folds[f]), None)| <= |RowsWith(rows, FoldIds(folds[g]), None)| + bound
  }

  /** Four numbered folds. */
  ghost predicate RowFolds(rows: seq<Row>, folds: seq<Assignment>) {
    && |folds| == 4
    && folds[0].fold == 0 && folds[1].fold == 1 && folds[2].fold == 2 && folds[3].fold == 3
    && RowFold(rows, folds[0]) && RowFold(rows, folds[1]) && RowFold(rows, folds[2]) && RowFold(rows, folds[3])
    && OneFoldEach(rows, folds)
  }

  ghost function RowsOfTask(rows: seq<Row>, task: string): set<int> {
    set i | 0 <= i < |rows| && rows[i].task == task
  }

  ghost function TasksOfCategory(rows: seq<Row>, category: string): set<string> {
    set i | 0 <= i < |rows| && rows[i].category == category :: rows[i].task
  }

  ghost function RowCategories(rows: seq<Row>): set<string> {
    set i | 0 <= i < |rows| :: rows[i].category
  }

  /** Four rows of one category for every task, eight tasks for every category, seven categories. */
  ghost predicate ProperRows(rows: seq<Row>) {
    && GroupedRows(rows)
    && (forall i :: 0 <= i < |rows| ==> |TasksOfCategory(rows, rows[i].category)| == 8)
    && |RowCategories(rows)| == 7
  }

  ghost predicate GroupedRows(rows: seq<Row>) {
    && (forall i :: 0 <= i < |rows| ==> |RowsOfTask(rows, rows[i].task)| == 4)
    && (forall i, j :: 0 <= i < |rows| && 0 <= j < |rows| && rows[i].task == rows[j].task ==>
          rows[i].category == rows[j].category)
  }

  ghost function CountRows(rows: seq<Row>, ids: set<string>, value: Option<bool>): nat {
    if rows == [] then 0
    else
      var n := |rows| - 1;
      CountRows(rows[..n], ids, value) + if rows[n].task in ids && rows[n].acceptable == value then 1 else 0
  }

  lemma {:induction false} RowsCounted(rows: seq<Row>, ids: set<string>, value: Option<bool>)
    ensures |RowsWith(rows, ids, value)| == CountRows(rows, ids, value)
  {
    if rows != [] {
      var n := |rows| - 1;
      RowsCounted(rows[..n], ids, value);
      if rows[n].task in ids && rows[n].acceptable == value {
        assert RowsWith(rows, ids, value) == RowsWith(rows[..n], ids, value) + {n};
      } else {
        assert RowsWith(rows, ids, value) == RowsWith(rows[..n], ids, value);
      }
    }
  }

  lemma {:induction false} LabelsAppend(rows: seq<Row>, row: Row, value: Option<bool>)
    ensures Labels(rows + [row], value) == Labels(rows, value) + if row.acceptable == value then 1 else 0
  {
    assert (rows + [row])[..|rows|] == rows;
  }

  lemma {:induction false} CountOneMore(rows: seq<Row>, ids: set<string>, task: string, value: Option<bool>)
    requires task !in ids
    ensures CountRows(rows, ids + {task}, value) == CountRows(rows, ids, value) + Labels(Group(rows, task), value)
  {
    if rows != [] {
      var n := |rows| - 1;
      CountOneMore(rows[..n], ids, task, value);
      if rows[n].task == task {
        LabelsAppend(Group(rows[..n], task), rows[n], value);
      } else {
        assert Group(rows, task) == Group(rows[..n], task);
      }
    }
  }

  lemma {:induction false} CountNone(rows: seq<Row>, value: Option<bool>)
    ensures CountRows(rows, {}, value) == 0
  {
    if rows != [] {
      CountNone(rows[..|rows| - 1], value);
    }
  }

  // ---------- Groups and profiles in terms of rows ----------

  lemma RowsOfTaskNext(rows: seq<Row>, task: string)
    requires rows != []
    ensures var n := |rows| - 1;
            |RowsOfTask(rows, task)| == |RowsOfTask(rows[..n], task)| + if rows[n].task == task then 1 else 0
  {
    var n := |rows| - 1;
    if rows[n].task == task {
      assert RowsOfTask(rows, task) == RowsOfTask(rows[..n], task) + {n};
    } else {
      assert RowsOfTask(rows, task) == RowsOfTask(rows[..n], task);
    }
  }

  lemma {:induction false} GroupRows(rows: seq<Row>, task: string)
    ensures forall r :: r in Group(rows, task) <==> r in rows && r.task == task
    ensures |Group(rows, task)| == |RowsOfTask(rows, task)|
  {
    if rows != [] {
      var n := |rows| - 1;
      GroupRows(rows[..n], task);
      RowsOfTaskNext(rows, task);
      assert rows == rows[..n] + [rows[n]];
    }
  }

  lemma {:induction false} TaskIdsSpec(rows: seq<Row>)
    ensures forall t :: t in TaskIds(rows) <==> exists i :: 0 <= i < |rows| && rows[i].task == t
  {
    if rows != [] {
      var n := |rows| - 1;
      TaskIdsSpec(rows[..n]);
      assert forall i :: 0 <= i < n ==> rows[..n][i] == rows[i];
      LastName(TaskIds(rows[..n]), rows[n].task);
    }
  }

  /** Well-formed groups are four rows of one category for every task. */
  lemma WellFormedRows(rows: seq<Row>)
    ensures AllWellFormed(rows) <==> GroupedRows(rows)
  {
    TaskIdsSpec(rows);
    if AllWellFormed(rows) {
      forall i | 0 <= i < |rows|
        ensures |RowsOfTask(rows, rows[i].task)| == 4
        ensures rows[i].category == Group(rows, rows[i].task)[0].category
      {
        GroupCategory(rows, i);
      }
    }
    if GroupedRows(rows) {
      forall t | t in TaskIds(rows)
        ensures WellFormed(Group(rows, t))
      {
        GroupOfGrouped(rows, t);
      }
    }
  }

  lemma {:induction false} GroupCategory(rows: seq<Row>, i: nat)
    requires i < |rows| && WellFormed(Group(rows, rows[i].task))
    ensures |RowsOfTask(rows, rows[i].task)| == 4
    ensures rows[i].category == Group(rows, rows[i].task)[0].category
  {
    var group := Group(rows, rows[i].task);
    GroupRows(rows, rows[i].task);
    assert rows[i] in group;
  }

  lemma {:induction false} GroupOfGrouped(rows: seq<Row>, task: string)
    requires GroupedRows(rows) && exists i :: 0 <= i < |rows| && rows[i].task == task
    ensures WellFormed(Group(rows, task))
  {
    var group := Group(rows, task);
    GroupRows(rows, task);
    forall k | 0 <= k < |group|
      ensures exists i :: 0 <= i < |rows| && rows[i] == group[k] && rows[i].task == task
    {
      assert group[k] in group;
    }
  }

  ghost predicate DistinctTasks(profiles: seq<Profile>) {
    forall i, j :: 0 <= i < j < |profiles| ==> profiles[i].task != profiles[j].task
  }

  /** A profile counts the labels of its task's rows and has their category. */
  lemma {:induction false} ProfileRows(rows: seq<Row>, p: Profile)
    requires AllWellFormed(rows) && p in Profiles(rows)
    ensures p.task in TaskIds(rows)
    ensures p.positive == Labels(Group(rows, p.task), Some(true))
    ensures p.negative == Labels(Group(rows, p.task), Some(false))
    ensures p.missing == Labels(Group(rows, p.task), None)
    ensures forall i :: 0 <= i < |rows| && rows[i].task == p.task ==> rows[i].category == p.category
  {
    var k :| 0 <= k < |Profiles(rows)| && Profiles(rows)[k] == p;
    assert TaskIds(rows)[k] in TaskIds(rows);
    forall i | 0 <= i < |rows| && rows[i].task == p.task
      ensures rows[i].category == p.category
    {
      GroupCategory(rows, i);
    }
  }

  lemma ProfileOfRow(rows: seq<Row>, i: nat) returns (p: Profile)
    requires AllWellFormed(rows) && i < |rows|
    ensures p in Profiles(rows) && p.task == rows[i].task && p.category == rows[i].category
  {
    TaskIdsSpec(rows);
    assert rows[i].task in TaskIds(rows);
    var k :| 0 <= k < |TaskIds(rows)| && TaskIds(rows)[k] == rows[i].task;
    p := Profiles(rows)[k];
    assert p in Profiles(rows);
    ProfileRows(rows, p);
  }

  ghost function IdsOf(profiles: seq<Profile>): set<string> {
    set p | p in profiles :: p.task
  }

  /** The totals of some tasks are the labels of their rows. */
  lemma {:induction false} TotalsOfRows(rows: seq<Row>, tasks: seq<Profile>)
    requires AllWellFormed(rows) && DistinctTasks(tasks) && forall p :: p in tasks ==> p in Profiles(rows)
    ensures |IdsOf(tasks)| == |tasks|
    ensures Positives(tasks) == CountRows(rows, IdsOf(tasks), Some(true))
    ensures Negatives(tasks) == CountRows(rows, IdsOf(tasks), Some(false))
    ensures Missing(tasks) == CountRows(rows, IdsOf(tasks), None)
    decreases |tasks|
  {
    if tasks == [] {
      assert IdsOf(tasks) == {};
      CountNone(rows, Some(true));
      CountNone(rows, Some(false));
      CountNone(rows, None);
    } else {
      var n := |tasks| - 1;
      var before, last := IdsOf(tasks[..n]), tasks[n];
      TotalsOfRows(rows, tasks[..n]);
      LastTask(tasks);
      ProfileRows(rows, last);
      CountOneMore(rows, before, last.task, Some(true));
      CountOneMore(rows, before, last.task, Some(false));
      CountOneMore(rows, before, last.task, None);
    }
  }

  lemma LastTask(tasks: seq<Profile>)
    requires tasks != [] && DistinctTasks(tasks)
    ensures var n := |tasks| - 1;
            && tasks[n].task !in IdsOf(tasks[..n]) && IdsOf(tasks) == IdsOf(tasks[..n]) + {tasks[n].task}
            && DistinctTasks(tasks[..n]) && tasks[n] in tasks && forall p :: p in tasks[..n] ==> p in tasks
  {
    var n := |tasks| - 1;
    assert tasks == tasks[..n] + [tasks[n]];
  }

  ghost function CategoryIds(profiles: seq<Profile>, category: string): set<string> {
    set p | p in profiles && p.category == category :: p.task
  }

  lemma {:induction false} CategoryCounted(tasks: seq<Profile>, category: string)
    requires DistinctTasks(tasks)
    ensures InCategory(tasks, category) == |CategoryIds(tasks, category)|
  {
    if tasks == [] {
      assert CategoryIds(tasks, category) == {};
    } else {
      LastTask(tasks);
      CategoryCounted(tasks[..|tasks| - 1], category);
      CategoryLast(tasks, category);
    }
  }

  lemma CategoryLast(tasks: seq<Profile>, category: string)
    requires tasks != [] && tasks[|tasks| - 1].task !in IdsOf(tasks[..|tasks| - 1])
    ensures var n := |tasks| - 1;
            var before := CategoryIds(tasks[..n], category);
            && tasks[n].task !in before
            && CategoryIds(tasks, category) == before + if tasks[n].category == category then {tasks[n].task} else {}
  {
    var n := |tasks| - 1;
    assert forall p :: p in tasks <==> p in tasks[..n] || p == tasks[n] by {
      assert tasks == tasks[..n] + [tasks[n]];
    }
  }

  lemma {:induction false} TasksInCounted(profiles: seq<Profile>, category: string)
    ensures |TasksIn(profiles, category)| == InCategory(profiles, category)
  {
    if profiles != [] {
      TasksInCounted(profiles[1..], category);
      assert [profiles[0]] + profiles[1..] == profiles;
      InCategorySum([profiles[0]], profiles[1..], category);
    }
  }

  /** The categories of all profiles are those of the rows, and so are their tasks. */
  lemma {:induction false} CategoriesOfRows(rows: seq<Row>, category: string)
    requires AllWellFormed(rows)
    ensures |TasksIn(Profiles(rows), category)| == |TasksOfCategory(rows, category)|
    ensures category in Categories(Profiles(rows)) <==> category in RowCategories(rows)
  {
    var profiles := Profiles(rows);
    ProfilesSpec(rows);
    CategoriesSpec(profiles);
    TasksInCounted(profiles, category);
    CategoryCounted(profiles, category);
    TaskIdsSpec(rows);
    forall p | p in profiles
      ensures exists i :: 0 <= i < |rows| && rows[i].task == p.task && rows[i].category == p.category
    {
      var i := RowOfProfile(rows, p);
    }
    forall i | 0 <= i < |rows|
      ensures exists p :: p in profiles && p.task == rows[i].task && p.category == rows[i].category
    {
      var p := ProfileOfRow(rows, i);
    }
    assert CategoryIds(profiles, category) == TasksOfCategory(rows, category);
  }

  lemma RowOfProfile(rows: seq<Row>, p: Profile) returns (i: nat)
    requires AllWellFormed(rows) && p in Profiles(rows)
    ensures i < |rows| && rows[i].task == p.task && rows[i].category == p.category
  {
    TaskIdsSpec(rows);
    ProfileRows(rows, p);
    i :| 0 <= i < |rows| && rows[i].task == p.task;
  }

  lemma {:induction false} DistinctSize<T>(s: seq<T>)
    requires Distinct(s)
    ensures |set x | x in s| == |s|
  {
    if s == [] {
      assert (set x | x in s) == {};
    } else {
      var n := |s| - 1;
      DistinctSize(s[..n]);
      assert s == s[..n] + [s[n]];
      assert (set x | x in s) == (set x | x in s[..n]) + {s[n]};
    }
  }

  /** The condition on profiles under which building succeeds is the one on rows. */
  lemma ProperIffRows(rows: seq<Row>)
    ensures ProperRows(rows) <==>
              && AllWellFormed(rows)
              && EightEach(Profiles(rows), Categories(Profiles(rows)))
              && |Categories(Profiles(rows))| == 7
  {
    WellFormedRows(rows);
    if AllWellFormed(rows) {
      var categories := Categories(Profiles(rows));
      CategoriesSpec(Profiles(rows));
      forall c
        ensures |TasksIn(Profiles(rows), c)| == |TasksOfCategory(rows, c)|
        ensures c in categories <==> c in RowCategories(rows)
      {
        CategoriesOfRows(rows, c);
      }
      DistinctSize(categories);
      assert (set c | c in categories) == RowCategories(rows);
      EightInRows(rows, categories);
    }
  }

  lemma EightInRows(rows: seq<Row>, categories: seq<string>)
    requires AllWellFormed(rows) && forall c :: c in categories <==> c in RowCategories(rows)
    requires forall c :: |TasksIn(Profiles(rows), c)| == |TasksOfCategory(rows, c)|
    ensures EightEach(Profiles(rows), categories) <==>
              forall i :: 0 <= i < |rows| ==> |TasksOfCategory(rows, rows[i].category)| == 8
  {
    forall k | 0 <= k < |categories|
      ensures exists i :: 0 <= i < |rows| && rows[i].category == categories[k]
    {
      assert categories[k] in categories;
    }
    forall i | 0 <= i < |rows|
      ensures exists k :: 0 <= k < |categories| && categories[k] == rows[i].category
    {
      assert rows[i].category in RowCategories(rows);
    }
  }

  // ---------- Folds of rows ----------

  lemma {:induction false} AtMostOnce(all: seq<Profile>, p: Profile)
    requires DistinctTasks(all)
    ensures multiset(all)[p] <= 1
  {
    if all != [] {
      var n := |all| - 1;
      AtMostOnce(all[..n], p);
      assert all == all[..n] + [all[n]];
      if p == all[n] {
        assert p !in all[..n];
      }
    }
  }

  lemma Twice<T>(s: seq<T>, i: nat, j: nat)
    requires i < j < |s| && s[i] == s[j]
    ensures multiset(s)[s[i]] >= 2
  {
    assert s == s[..j] + [s[j]] + s[j + 1..];
    assert s[..j][i] in multiset(s[..j]);
  }

  /** Tasks taken from distinct ones are distinct. */
  lemma TakenDistinct(s: seq<Profile>, all: seq<Profile>)
    requires multiset(s) <= multiset(all) && DistinctTasks(all)
    ensures DistinctTasks(s) && forall p :: p in s ==> p in all
  {
    forall p | p in s
      ensures p in all
    {
      assert p in multiset(s);
    }
    forall i, j | 0 <= i < j < |s|
      ensures s[i].task != s[j].task
    {
      assert s[i] in all && s[j] in all;
      if s[i].task == s[j].task {
        Twice(s, i, j);
        AtMostOnce(all, s[i]);
      }
    }
  }

  lemma TakenApart(s: seq<Profile>, t: seq<Profile>, all: seq<Profile>)
    requires multiset(s) + multiset(t) <= multiset(all) && DistinctTasks(all)
    ensures IdsOf(s) !! IdsOf(t)
  {
    TakenDistinct(s + t, all);
    forall i, j | 0 <= i < |s| && 0 <= j < |t|
      ensures s[i].task != t[j].task
    {
      assert (s + t)[i] == s[i] && (s + t)[|s| + j] == t[j];
    }
  }

  /** The folds' tasks are taken from the profiles, and those of two folds together, too. */
  lemma FoldsTaken(folds: seq<Assignment>, profiles: seq<Profile>, f: nat, g: nat)
    requires Partition(folds, profiles) && f < g < 4
    ensures multiset(folds[f].tasks) + multiset(folds[g].tasks) <= multiset(profiles)
  {
    var m := multiset(folds[0].tasks) + multiset(folds[1].tasks) + multiset(folds[2].tasks) + multiset(folds[3].tasks);
    assert m == multiset(profiles);
    assert f == 0 || f == 1 || f == 2;
    assert g == 1 || g == 2 || g == 3;
  }

  lemma {:induction false} FoldLabels(rows: seq<Row>, fold: Assignment, tasks: seq<Profile>)
    requires AllWellFormed(rows) && multiset(fold.tasks) == multiset(tasks) <= multiset(Profiles(rows))
    requires fold.positive == Positives(tasks) && fold.negative == Negatives(tasks) && fold.missing == Missing(tasks)
    ensures |FoldIds(fold)| == |fold.tasks| == |tasks|
    ensures fold.positive == |RowsWith(rows, FoldIds(fold), Some(true))|
    ensures fold.negative == |RowsWith(rows, FoldIds(fold), Some(false))|
    ensures fold.missing == |RowsWith(rows, FoldIds(fold), None)|
  {
    ProfilesSpec(rows);
    TakenDistinct(tasks, Profiles(rows));
    SameElements(fold.tasks, tasks);
    assert FoldIds(fold) == IdsOf(tasks);
    TotalsOfRows(rows, tasks);
    RowsCounted(rows, IdsOf(tasks), Some(true));
    RowsCounted(rows, IdsOf(tasks), Some(false));
    RowsCounted(rows, IdsOf(tasks), None);
  }

  lemma FoldCategories(rows: seq<Row>, fold: Assignment)
    requires AllWellFormed(rows) && multiset(fold.tasks) <= multiset(Profiles(rows))
    requires forall c :: c in Categories(Profiles(rows)) ==> InCategory(fold.tasks, c) == 2
    ensures forall id :: id in FoldIds(fold) ==> exists i :: 0 <= i < |rows| && rows[i].task == id
    ensures forall i :: 0 <= i < |rows| ==> |IdsIn(rows, FoldIds(fold), rows[i].category)| == 2
  {
    ProfilesSpec(rows);
    TakenDistinct(fold.tasks, Profiles(rows));
    forall id | id in FoldIds(fold)
      ensures exists i :: 0 <= i < |rows| && rows[i].task == id
    {
      var p :| p in fold.tasks && p.task == id;
      var i := RowOfProfile(rows, p);
    }
    forall i | 0 <= i < |rows|
      ensures |IdsIn(rows, FoldIds(fold), rows[i].category)| == 2
    {
      FoldCategory(rows, fold, rows[i].category);
      var p := ProfileOfRow(rows, i);
      CategoriesSpec(Profiles(rows));
    }
  }

  lemma {:induction false} RowFoldSpec(rows: seq<Row>, fold: Assignment, tasks: seq<Profile>)
    requires AllWellFormed(rows) && multiset(fold.tasks) == multiset(tasks) <= multiset(Profiles(rows))
    requires |tasks| == 14 && Sorted(IdLe, fold.tasks)
    requires fold.positive == Positives(tasks) && fold.negative == Negatives(tasks) && fold.missing == Missing(tasks)
    requires forall c :: c in Categories(Profiles(rows)) ==> InCategory(fold.tasks, c) == 2
    ensures RowFold(rows, fold)
  {
    FoldLabels(rows, fold, tasks);
    FoldCategories(rows, fold);
    forall i, j | 0 <= i < j < |fold.tasks|
      ensures TextLe(fold.tasks[i].task, fold.tasks[j].task)
    {
      assert IdLe(fold.tasks[i], fold.tasks[j]);
    }
  }

  lemma {:induction false} FoldCategory(rows: seq<Row>, fold: Assignment, category: string)
    requires AllWellFormed(rows) && DistinctTasks(fold.tasks) && forall p :: p in fold.tasks ==> p in Profiles(rows)
    ensures |IdsIn(rows, FoldIds(fold), category)| == InCategory(fold.tasks, category)
  {
    CategoryCounted(fold.tasks, category);
    forall p | p in fold.tasks
      ensures exists i :: 0 <= i < |rows| && rows[i].task == p.task && rows[i].category == p.category
      ensures forall i :: 0 <= i < |rows| && rows[i].task == p.task ==> rows[i].category == p.category
    {
      var i := RowOfProfile(rows, p);
      ProfileRows(rows, p);
    }
    assert IdsIn(rows, FoldIds(fold), category) == CategoryIds(fold.tasks, category);
  }

  lemma RowsInOneFold(rows: seq<Row>, folds: seq<Assignment>)
    requires AllWellFormed(rows) && Partition(folds, Profiles(rows))
    ensures OneFoldEach(rows, folds)
  {
    ProfilesSpec(rows);
    forall f, g | 0 <= f < g < 4
      ensures FoldIds(folds[f]) !! FoldIds(folds[g])
    {
      FoldsTaken(folds, Profiles(rows), f, g);
      TakenApart(folds[f].tasks, folds[g].tasks, Profiles(rows));
    }
    forall i | 0 <= i < |rows|
      ensures exists f :: 0 <= f < 4 && rows[i].task in FoldIds(folds[f])
    {
      var p := ProfileOfRow(rows, i);
      assert p in multiset(Profiles(rows));
      assert p in folds[0].tasks || p in folds[1].tasks || p in folds[2].tasks || p in folds[3].tasks;
      var f :| 0 <= f < 4 && p in folds[f].tasks;
    }
  }

  lemma {:induction false} FoldTaken(profiles: seq<Profile>, load: Load, fold: Assignment, f: nat)
    requires Allocate(profiles, Categories(profiles)) == Ok(load) && |Categories(profiles)| == 7 && f < 4
    requires fold == AssignmentOf(load, f)
    ensures multiset(fold.tasks) == multiset(load.tasks[f]) && |load.tasks[f]| == 14
    ensures Sorted(IdLe, fold.tasks)
    ensures forall c :: c in Categories(profiles) ==> InCategory(fold.tasks, c) == 2
  {
    AssignmentSpec(profiles, f);
    FoldSizes(profiles);
    SortedFold(load.tasks[f]);
  }

  lemma {:induction false} AssignmentRows(rows: seq<Row>, profiles: seq<Profile>, load: Load, fold: Assignment, f: nat)
    requires AllWellFormed(rows) && profiles == Profiles(rows) && |Categories(profiles)| == 7 && f < 4
    requires Allocate(profiles, Categories(profiles)) == Ok(load) && fold == AssignmentOf(load, f)
    requires multiset(fold.tasks) <= multiset(profiles)
    ensures fold.fold == f && RowFold(rows, fold)
  {
    FoldTaken(profiles, load, fold, f);
    RowFoldSpec(rows, fold, load.tasks[f]);
  }

  lemma {:induction false} RowFoldsSpec(rows: seq<Row>, profiles: seq<Profile>, load: Load, folds: seq<Assignment>)
    requires AllWellFormed(rows) && profiles == Profiles(rows) && |Categories(profiles)| == 7
    requires Allocate(profiles, Categories(profiles)) == Ok(load) && folds == Assignments(load)
    requires Partition(folds, profiles)
    ensures RowFolds(rows, folds)
  {
    forall f | 0 <= f < 4
      ensures folds[f].fold == f && RowFold(rows, folds[f])
    {
      AssignmentTaken(folds, profiles, f);
      AssignmentRows(rows, profiles, load, folds[f], f);
    }
    RowsInOneFold(rows, folds);
  }

  lemma RowBalanceSpec(rows: seq<Row>, folds: seq<Assignment>, bound: nat)
    requires RowFolds(rows, folds) && Balanced(folds, bound)
    ensures RowBalance(rows, folds, bound)
  {
    forall f | 0 <= f < |folds|
      ensures folds[f].missing == |RowsWith(rows, FoldIds(folds[f]), None)|
    {
      assert f == 0 || f == 1 || f == 2 || f == 3;
    }
  }

  lemma AssignmentTaken(folds: seq<Assignment>, profiles: seq<Profile>, f: nat)
    requires Partition(folds, profiles) && f < 4
    ensures multiset(folds[f].tasks) <= multiset(profiles)
  {
    if f < 3 {
      FoldsTaken(folds, profiles, f, f + 1);
    } else {
      FoldsTaken(folds, profiles, 0, f);
    }
  }

  /**
    Building succeeds exactly when every task has four rows of one category, every category eight
    tasks, and there are seven categories. Every task is then in exactly one of the four folds, a
    fold holds two tasks of every category and counts exactly the labels of its tasks' rows, and no
    two folds differ by more missing labels than the task pairs of a single category do, which is
    at most eight.
  */
  lemma FoldsSpec(rows: seq<Row>)
    ensures BuildFoldsSpec(rows).Ok? <==> ProperRows(rows)
    ensures BuildFoldsSpec(rows).Ok? ==>
              var folds, profiles := BuildFoldsSpec(rows).value, Profiles(rows);
              && RowFolds(rows, folds)
              && RowBalance(rows, folds, MaxSpread(profiles, Categories(profiles)))
              && MaxSpread(profiles, Categories(profiles)) <= 8
              && Partition(folds, profiles)
  {
    FoldsOfProfiles(rows);
    ProperIffRows(rows);
    if BuildFoldsSpec(rows).Ok? {
      var folds, profiles := BuildFoldsSpec(rows).value, Profiles(rows);
      RowFoldsSpec(rows, profiles, Allocate(profiles, Categories(profiles)).value, folds);
      RowBalanceSpec(rows, folds, MaxSpread(profiles, Categories(profiles)));
    }
  }

  /** Deals the pairs of one category, updating the running counters in place. */
  method DealPairs(pairs: seq<Pair>, tasks: array<seq<Profile>>, positive: array<nat>, missing: array<nat>)
    requires tasks.Length == positive.Length == missing.Length == FOLDS && positive != missing
    requires |pairs| == FOLDS
    modifies tasks, positive, missing
    ensures Load(tasks[..], positive[..], missing[..])
            == old(Deal(Load(tasks[..], positive[..], missing[..]), pairs, ALL_FOLDS))
  {
    ghost var load := Load(tasks[..], positive[..], missing[..]);
    var available := ALL_FOLDS;
    AllFolds();
    for k := 0 to FOLDS
      invariant FoldNumbers(available) && |available| == FOLDS - k
      invariant Deal(Load(tasks[..], positive[..], missing[..]), pairs[k..], available) == Deal(load, pairs, ALL_FOLDS)
    {
      var pair := pairs[k];
      ghost var before := Load(tasks[..], positive[..], missing[..]);
      LightestAvailable(before, available);
      var fold := LeastLoaded(available, positive, missing);
      assert pairs[k..][0] == pair && pairs[k..][1..] == pairs[k + 1..];
      available := available - {fold};
      tasks[fold] := tasks[fold] + [pair.0, pair.1];
      positive[fold] := positive[fold] + PairPositive(pair);
      missing[fold] := missing[fold] + PairMissing(pair);
      assert Load(tasks[..], positive[..], missing[..]) == before.Give(pair, fold);
    }
  }

  /** The available fold that is served next. */
  method LeastLoaded(available: set<int>, positive: array<nat>, missing: array<nat>) returns (fold: int)
    requires positive.Length == missing.Length == FOLDS
    ensures fold == LightestBelow(missing[..], positive[..], available, FOLDS)
  {
    fold := -1;
    for f := 0 to FOLDS
      invariant -1 <= fold < f
      invariant fold == LightestBelow(missing[..], positive[..], available, f)
    {
      if f in available && (fold == -1 || missing[f] < missing[fold]
                            || (missing[f] == missing[fold] && positive[f] < positive[fold])) {
        fold := f;
      }
    }
  }

  /** Deals all categories in turn, starting from empty folds. */
  method AllocateAll(profiles: seq<Profile>, categories: seq<string>, tasks: array<seq<Profile>>,
                     positive: array<nat>, missing: array<nat>)
    returns (ok: bool)
    requires tasks.Length == positive.Length == missing.Length == FOLDS && positive != missing
    requires Load(tasks[..], positive[..], missing[..]) == EMPTY_LOAD
    modifies tasks, positive, missing
    ensures Allocate(profiles, categories) ==
            if ok then Ok(Load(tasks[..], positive[..], missing[..])) else Err(NotEightTasks)
  {
    for k := 0 to |categories|
      invariant Allocate(profiles, categories[..k]) == Ok(Load(tasks[..], positive[..], missing[..]))
    {
      AllocateLast(profiles, categories[..k], categories[k]);
      assert categories[..k + 1] == categories[..k] + [categories[k]];
      if |TasksIn(profiles, categories[k])| != 8 {
        AllocateOk(profiles, categories);
        return false;
      }
      var pairs := CategoryPairs(profiles, categories[k]);
      assert |pairs| == FOLDS by {
        CategoryPairsSpec(profiles, categories[k]);
      }
      DealPairs(pairs, tasks, positive, missing);
    }
    assert categories[..|categories|] == categories;
    ok := true;
  }

  lemma BuiltFolds(rows: seq<Row>)
    ensures BuildFoldsSpec(rows).Ok? <==> ProperRows(rows)
    ensures BuildFoldsSpec(rows).Ok? ==>
              RowFolds(rows, BuildFoldsSpec(rows).value) && RowBalance(rows, BuildFoldsSpec(rows).value, 8)
  {
    FoldsSpec(rows);
  }

  /** The outer folds of a dataset. */
  method BuildFolds(rows: seq<Row>) returns (result: Result<seq<Assignment>, FoldError>)
    ensures result == BuildFoldsSpec(rows)
    ensures result.Ok? <==> ProperRows(rows)
    ensures result.Ok? ==> RowFolds(rows, result.value) && RowBalance(rows, result.value, 8)
  {
    result := Build(rows);
    BuiltFolds(rows);
  }

  method Build(rows: seq<Row>) returns (result: Result<seq<Assignment>, FoldError>)
    ensures result == BuildFoldsSpec(rows)
  {
    if !AllWellFormed(rows) {
      return Err(MalformedGroup);
    }
    var profiles := Profiles(rows);
    var tasks := new seq<Profile>[FOLDS](_ => []);
    var positive, missing := new nat[FOLDS](_ => 0), new nat[FOLDS](_ => 0);
    assert Load(tasks[..], positive[..], missing[..]) == EMPTY_LOAD;
    var ok := AllocateAll(profiles, Categories(profiles), tasks, positive, missing);
    if !ok {
      return Err(NotEightTasks);
    }
    if exists f :: 0 <= f < FOLDS && |tasks[f]| != 14 {
      return Err(WrongFoldSize);
    }
    var folds := Collect(tasks, Load(tasks[..], positive[..], missing[..]));
    result := Ok(folds);
  }

  method Collect(tasks: array<seq<Profile>>, ghost load: Load) returns (folds: seq<Assignment>)
    requires load.Shaped() && tasks[..] == load.tasks
    ensures folds == Assignments(load)
  {
    folds := [];
    for f := 0 to FOLDS
      invariant |folds| == f && forall g :: 0 <= g < f ==> folds[g] == AssignmentOf(load, g)
    {
      assert tasks[f] == load.tasks[f];
      var sorted := Sort(IdLe, tasks[f]);
      folds := folds + [Assignment(f, sorted, Positives(tasks[f]), Negatives(tasks[f]), Missing(tasks[f]))];
    }
  }
}
