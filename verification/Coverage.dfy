/** Weighted coverage of a summary's propositions, and the rubric check its verdicts come from. */
module Coverage {
  import opened Common
  import opened Ordering

  datatype Verdict = Entailed | NotEntailed | Ambiguous

  /** An exact positive fraction. */
  datatype Weight = Weight(numerator: int, denominator: int) {
    predicate Positive() {
      numerator > 0 && denominator > 0
    }

    function Fraction(): real
      requires Positive()
    {
      numerator as real / denominator as real
    }
  }

  datatype Policy = Allowed | NotAllowed | Conditional

  datatype Derivation = Derivation(id: string, policy: Policy, dependencies: seq<string>)

  /** The rules by which a candidate may express a proposition indirectly. */
  datatype Rules = Rules(equivalences: seq<string>, derivations: seq<Derivation>)

  datatype Proposition = Proposition(id: string, requirement: nat, weight: Weight, rules: Rules)

  datatype Judgment = Judgment(id: string, verdict: Verdict, used: Option<string>)

  function Ids(propositions: seq<Proposition>): (ids: seq<string>)
    ensures |ids| == |propositions|
    ensures forall i :: 0 <= i < |ids| ==> ids[i] == propositions[i].id
  {
    seq(|propositions|, i requires 0 <= i < |propositions| => propositions[i].id)
  }

  function JudgedIds(judgments: seq<Judgment>): (ids: seq<string>)
    ensures |ids| == |judgments|
    ensures forall i :: 0 <= i < |ids| ==> ids[i] == judgments[i].id
  {
    seq(|judgments|, i requires 0 <= i < |judgments| => judgments[i].id)
  }

  predicate Positive(propositions: seq<Proposition>) {
    forall i :: 0 <= i < |propositions| ==> propositions[i].weight.Positive()
  }

  function TotalWeight(propositions: seq<Proposition>): real
    requires Positive(propositions)
  {
    if propositions == [] then 0.0
    else TotalWeight(propositions[..|propositions| - 1]) + propositions[|propositions| - 1].weight.Fraction()
  }

  /** What a task specification promises: unique ids, and the weight of its legacy requirements. */
  ghost predicate ValidTask(propositions: seq<Proposition>, requirements: nat) {
    && propositions != [] && requirements > 0
    && Positive(propositions)
    && Distinct(Ids(propositions))
    && TotalWeight(propositions) == requirements as real
  }

  // ---------- Building a task ----------

  function Digits(n: nat): string {
    if n < 10 then ['0' + n as char] else Digits(n / 10) + ['0' + (n % 10) as char]
  }

  /** At least two digits. */
  function Padded(n: nat): string {
    if n < 10 then "0" + Digits(n) else Digits(n)
  }

  function Letter(offset: nat): char
    requires offset < 26
  {
    'a' + offset as char
  }

  function Slug(prefix: string, index: nat, suffix: string): string {
    prefix + "-r" + Padded(index) + suffix
  }

  function Number(digits: string): int {
    if digits == [] then 0
    else 10 * Number(digits[..|digits| - 1]) + (digits[|digits| - 1] as int - '0' as int)
  }

  predicate IsDigit(c: char) {
    '0' <= c <= '9'
  }

  lemma {:induction false} DigitsNumber(n: nat)
    ensures Number(Digits(n)) == n
    ensures Digits(n) != [] && IsDigit(Digits(n)[|Digits(n)| - 1])
  {
    if n >= 10 {
      DigitsNumber(n / 10);
      var front, last := Digits(n / 10), '0' + (n % 10) as char;
      assert (front + [last])[..|front|] == front;
    } else {
      assert Digits(n)[..0] == [];
    }
  }

  lemma PaddedNumber(n: nat)
    ensures Number(Padded(n)) == n
    ensures Padded(n) != [] && IsDigit(Padded(n)[|Padded(n)| - 1])
    ensures |Padded(n)| >= 2 && (n < 100 ==> Padded(n) == ['0' + (n / 10) as char, '0' + (n % 10) as char])
  {
    DigitsNumber(n);
    if n < 10 {
      assert Padded(n)[..1] == "0";
      assert "0"[..0] == [];
      assert Number("0") == 0;
    }
  }

  /** No two requirements and suffixes share an id. */
  lemma SlugInjective(prefix: string, i: nat, j: nat, s: string, t: string)
    requires |s| <= 1 && |t| <= 1 && (s != [] ==> !IsDigit(s[0])) && (t != [] ==> !IsDigit(t[0]))
    requires Slug(prefix, i, s) == Slug(prefix, j, t)
    ensures i == j && s == t
  {
    var front, a, b := prefix + "-r", Padded(i), Padded(j);
    PaddedNumber(i);
    PaddedNumber(j);
    assert Slug(prefix, i, s) == front + (a + s) && Slug(prefix, j, t) == front + (b + t);
    assert a + s == (front + (a + s))[|front|..];
    assert b + t == (front + (b + t))[|front|..];
    LastOf(a, s);
    LastOf(b, t);
    assert a == (a + s)[..|a + s| - |s|] && b == (b + t)[..|b + t| - |t|];
  }

  lemma LastOf(a: string, s: string)
    requires a != [] && IsDigit(a[|a| - 1]) && |s| <= 1 && (s != [] ==> !IsDigit(s[0]))
    ensures IsDigit((a + s)[|a + s| - 1]) <==> s == []
    ensures s != [] ==> s == [(a + s)[|a + s| - 1]]
  {
  }

  /** The suffix of a child; a requirement that is not split has none. */
  function Suffix(children: nat, offset: nat): string
    requires children <= 26 && (offset < children || children == 0)
  {
    if children == 0 then "" else [Letter(offset)]
  }

  function Parts(children: nat): nat {
    if children == 0 then 1 else children
  }

  function Part(prefix: string, index: nat, children: nat, offset: nat, rules: (nat, nat) -> Rules): Proposition
    requires children <= 26 && offset < Parts(children)
  {
    Proposition(Slug(prefix, index, Suffix(children, offset)), index, Weight(1, Parts(children)), rules(index, offset))
  }

  /** The first n parts of one requirement. */
  function PartsOf(prefix: string, index: nat, children: nat, n: nat, rules: (nat, nat) -> Rules): seq<Proposition>
    requires children <= 26 && n <= Parts(children)
  {
    if n == 0 then []
    else PartsOf(prefix, index, children, n - 1, rules) + [Part(prefix, index, children, n - 1, rules)]
  }

  predicate Spellable(splits: seq<nat>) {
    forall i :: 0 <= i < |splits| ==> splits[i] <= 26
  }

  /** The propositions of the first n requirements; requirements are numbered from one. */
  function Built(prefix: string, splits: seq<nat>, n: nat, rules: (nat, nat) -> Rules): seq<Proposition>
    requires n <= |splits| && Spellable(splits)
  {
    if n == 0 then []
    else
      Built(prefix, splits, n - 1, rules) + PartsOf(prefix, n, splits[n - 1], Parts(splits[n - 1]), rules)
  }

  /** Why no specification can be made: nothing is required, or a child's id runs past the letter z. */
  datatype TaskError = NoRequirements | BadId

  /** Splits each requirement into its children, each of an equal share of the weight. */
  method TaskSpec(prefix: string, splits: seq<nat>, rules: (nat, nat) -> Rules)
    returns (task: Result<seq<Proposition>, TaskError>)
    ensures task.Ok? <==> splits != [] && Spellable(splits)
    ensures task.Ok? ==> task.value == Built(prefix, splits, |splits|, rules) && ValidTask(task.value, |splits|)
    ensures task == Err(NoRequirements) <==> splits == []
  {
    if splits == [] {
      return Err(NoRequirements);
    }
    var propositions := [];
    for i := 0 to |splits|
      invariant forall k :: 0 <= k < i ==> splits[k] <= 26
      invariant propositions == Built(prefix, splits[..i], i, rules)
    {
      var children := splits[i];
      if children > 26 {
        return Err(BadId);
      }
      var parts := [];
      for offset := 0 to Parts(children)
        invariant parts == PartsOf(prefix, i + 1, children, offset, rules)
      {
        parts := parts + [Part(prefix, i + 1, children, offset, rules)];
      }
      BuiltPrefix(prefix, splits[..i + 1], splits[..i], i, rules);
      propositions := propositions + parts;
    }
    assert splits[..|splits|] == splits;
    BuiltValid(prefix, splits, rules);
    task := Ok(propositions);
  }

  lemma {:induction false} BuiltPrefix(prefix: string, s: seq<nat>, t: seq<nat>, n: nat, rules: (nat, nat) -> Rules)
    requires n <= |s| && n <= |t| && Spellable(s) && Spellable(t) && s[..n] == t[..n]
    ensures Built(prefix, s, n, rules) == Built(prefix, t, n, rules)
  {
    if n > 0 {
      assert s[n - 1] == s[..n][n - 1] && t[n - 1] == t[..n][n - 1];
      assert s[..n - 1] == s[..n][..n - 1] && t[..n - 1] == t[..n][..n - 1];
      BuiltPrefix(prefix, s, t, n - 1, rules);
    }
  }

  lemma {:induction false} PartsOfAt(prefix: string, index: nat, children: nat, n: nat, rules: (nat, nat) -> Rules)
    requires children <= 26 && n <= Parts(children)
    ensures var parts := PartsOf(prefix, index, children, n, rules);
            && |parts| == n
            && forall k :: 0 <= k < n ==> parts[k] == Part(prefix, index, children, k, rules)
  {
    if n > 0 {
      PartsOfAt(prefix, index, children, n - 1, rules);
    }
  }

  function ChildrenOf(splits: seq<nat>, index: nat): nat
    requires 1 <= index <= |splits|
  {
    splits[index - 1]
  }

  /** A proposition is the part of one of the first n requirements. */
  ghost predicate IsPart(prefix: string, splits: seq<nat>, n: nat, rules: (nat, nat) -> Rules, p: Proposition)
    requires n <= |splits| && Spellable(splits)
  {
    && 1 <= p.requirement <= n
    && exists k: nat :: IsPartAt(prefix, p.requirement, ChildrenOf(splits, p.requirement), k, rules, p)
  }

  ghost predicate IsPartAt(prefix: string, index: nat, children: nat, k: nat,
                           rules: (nat, nat) -> Rules, p: Proposition) {
    children <= 26 && k < Parts(children) && p == Part(prefix, index, children, k, rules)
  }

  /** Every child of every requirement has its proposition: id, requirement, share of the weight and rules. */
  lemma {:induction false} EveryPart(
    prefix: string, splits: seq<nat>, n: nat, rules: (nat, nat) -> Rules, i: nat, k: nat)
    requires 1 <= i <= n <= |splits| && Spellable(splits) && k < Parts(splits[i - 1])
    ensures k < (if splits[i - 1] == 0 then 1 else splits[i - 1]) <= 26
    ensures var suffix := if splits[i - 1] == 0 then "" else ['a' + k as char];
            var share := Weight(1, if splits[i - 1] == 0 then 1 else splits[i - 1]);
            Proposition(prefix + "-r" + Padded(i) + suffix, i, share, rules(i, k)) in Built(prefix, splits, n, rules)
  {
    if i == n {
      var parts := PartsOf(prefix, n, splits[n - 1], Parts(splits[n - 1]), rules);
      PartsOfAt(prefix, n, splits[n - 1], Parts(splits[n - 1]), rules);
      assert parts[k] in parts;
    } else {
      EveryPart(prefix, splits, n - 1, rules, i, k);
    }
  }

  lemma {:induction false} BuiltParts(prefix: string, splits: seq<nat>, n: nat, rules: (nat, nat) -> Rules, i: nat)
    requires n <= |splits| && Spellable(splits) && i < |Built(prefix, splits, n, rules)|
    ensures IsPart(prefix, splits, n, rules, Built(prefix, splits, n, rules)[i])
  {
    if n > 0 {
      var before := Built(prefix, splits, n - 1, rules);
      var children := ChildrenOf(splits, n);
      if i < |before| {
        BuiltParts(prefix, splits, n - 1, rules, i);
      } else {
        PartsOfAt(prefix, n, children, Parts(children), rules);
        var k := i - |before|;
        assert IsPartAt(prefix, n, children, k, rules, Built(prefix, splits, n, rules)[i]);
      }
    }
  }

  lemma SamePart(prefix: string, index: nat, other: nat, children: nat, others: nat, k: nat, l: nat,
                 rules: (nat, nat) -> Rules)
    requires children <= 26 && others <= 26 && k < Parts(children) && l < Parts(others)
    requires Part(prefix, index, children, k, rules).id == Part(prefix, other, others, l, rules).id
    ensures index == other && (children == others ==> k == l)
  {
    SlugInjective(prefix, index, other, Suffix(children, k), Suffix(others, l));
  }

  lemma {:induction false} PartsDistinct(prefix: string, index: nat, children: nat, rules: (nat, nat) -> Rules)
    requires children <= 26
    ensures Distinct(Ids(PartsOf(prefix, index, children, Parts(children), rules)))
  {
    var parts := PartsOf(prefix, index, children, Parts(children), rules);
    PartsOfAt(prefix, index, children, Parts(children), rules);
    forall i, j | 0 <= i < j < |parts|
      ensures parts[i].id != parts[j].id
    {
      if parts[i].id == parts[j].id {
        SamePart(prefix, index, index, children, children, i, j, rules);
      }
    }
  }

  lemma {:induction false} BuiltDistinct(prefix: string, splits: seq<nat>, n: nat, rules: (nat, nat) -> Rules)
    requires n <= |splits| && Spellable(splits)
    ensures Distinct(Ids(Built(prefix, splits, n, rules)))
  {
    if n > 0 {
      var before := Built(prefix, splits, n - 1, rules);
      var children := ChildrenOf(splits, n);
      var parts := PartsOf(prefix, n, children, Parts(children), rules);
      BuiltDistinct(prefix, splits, n - 1, rules);
      PartsDistinct(prefix, n, children, rules);
      PartsApart(prefix, splits, n, rules);
      DistinctConcat(Ids(before), Ids(parts));
      IdsConcat(before, parts);
    }
  }

  lemma IdsConcat(a: seq<Proposition>, b: seq<Proposition>)
    ensures Ids(a + b) == Ids(a) + Ids(b)
  {
  }

  lemma {:induction false} PartsApart(prefix: string, splits: seq<nat>, n: nat, rules: (nat, nat) -> Rules)
    requires 1 <= n <= |splits| && Spellable(splits)
    ensures var before := Ids(Built(prefix, splits, n - 1, rules));
            var parts := Ids(PartsOf(prefix, n, ChildrenOf(splits, n), Parts(ChildrenOf(splits, n)), rules));
            Apart(before, parts)
  {
    var before := Built(prefix, splits, n - 1, rules);
    var children := ChildrenOf(splits, n);
    PartsOfAt(prefix, n, children, Parts(children), rules);
    forall i, j | 0 <= i < |before| && 0 <= j < Parts(children)
      ensures before[i].id != Part(prefix, n, children, j, rules).id
    {
      OtherRequirement(prefix, splits, n, rules, i, j);
    }
  }

  /** A part of requirement n has an id of its own among those of the requirements before. */
  lemma {:induction false} OtherRequirement(
      prefix: string, splits: seq<nat>, n: nat, rules: (nat, nat) -> Rules, i: nat, j: nat)
    requires 1 <= n <= |splits| && Spellable(splits)
    requires i < |Built(prefix, splits, n - 1, rules)| && j < Parts(ChildrenOf(splits, n))
    ensures Built(prefix, splits, n - 1, rules)[i].id != Part(prefix, n, ChildrenOf(splits, n), j, rules).id
  {
    var p := Built(prefix, splits, n - 1, rules)[i];
    BuiltParts(prefix, splits, n - 1, rules, i);
    var r := p.requirement;
    var k: nat :| IsPartAt(prefix, r, ChildrenOf(splits, r), k, rules, p);
    if p.id == Part(prefix, n, ChildrenOf(splits, n), j, rules).id {
      SamePart(prefix, r, n, ChildrenOf(splits, r), ChildrenOf(splits, n), k, j, rules);
    }
  }

  ghost predicate Apart<T>(s: seq<T>, t: seq<T>) {
    forall i, j :: 0 <= i < |s| && 0 <= j < |t| ==> s[i] != t[j]
  }

  lemma DistinctConcat<T>(s: seq<T>, t: seq<T>)
    requires Distinct(s) && Distinct(t) && Apart(s, t)
    ensures Distinct(s + t)
  {
  }

  // ---------- Sums over propositions ----------

  /** The weight of the propositions whose id is in `entailed`. */
  function WeightOf(propositions: seq<Proposition>, entailed: set<string>): real
    requires Positive(propositions)
  {
    if propositions == [] then 0.0
    else
      WeightOf(propositions[..|propositions| - 1], entailed)
      + if propositions[|propositions| - 1].id in entailed
          then propositions[|propositions| - 1].weight.Fraction() else 0.0
  }

  lemma FractionPositive(w: Weight)
    requires w.Positive()
    ensures w.Fraction() > 0.0
  {
  }

  lemma {:induction false} WeightBounds(propositions: seq<Proposition>, entailed: set<string>)
    requires Positive(propositions)
    ensures 0.0 <= WeightOf(propositions, entailed) <= TotalWeight(propositions)
    ensures WeightOf(propositions, entailed) == TotalWeight(propositions) <==>
              forall p :: p in propositions ==> p.id in entailed
    ensures WeightOf(propositions, entailed) == 0.0 <==> forall p :: p in propositions ==> p.id !in entailed
  {
    if propositions != [] {
      var n := |propositions| - 1;
      WeightBounds(propositions[..n], entailed);
      FractionPositive(propositions[n].weight);
      assert propositions == propositions[..n] + [propositions[n]];
    }
  }

  lemma {:induction false} WeightGrows(propositions: seq<Proposition>, fewer: set<string>, more: set<string>)
    requires Positive(propositions) && fewer <= more
    ensures WeightOf(propositions, fewer) <= WeightOf(propositions, more)
    ensures (exists p :: p in propositions && p.id in more - fewer) ==>
              WeightOf(propositions, fewer) < WeightOf(propositions, more)
  {
    if propositions != [] {
      var n := |propositions| - 1;
      WeightGrows(propositions[..n], fewer, more);
      FractionPositive(propositions[n].weight);
      assert propositions == propositions[..n] + [propositions[n]];
    }
  }

  lemma {:induction false} WeightConcat(a: seq<Proposition>, b: seq<Proposition>, entailed: set<string>)
    requires Positive(a) && Positive(b)
    ensures Positive(a + b) && WeightOf(a + b, entailed) == WeightOf(a, entailed) + WeightOf(b, entailed)
    ensures TotalWeight(a + b) == TotalWeight(a) + TotalWeight(b)
  {
    if b == [] {
      assert a + b == a;
    } else {
      assert (a + b)[..|a + b| - 1] == a + b[..|b| - 1];
      WeightConcat(a, b[..|b| - 1], entailed);
    }
  }

  /** Siblings share a verdict: a part is entailed exactly when its requirement is met. */
  ghost predicate Shared(propositions: seq<Proposition>, met: seq<bool>, entailed: set<string>) {
    forall i :: 0 <= i < |propositions| ==>
                  && 1 <= propositions[i].requirement <= |met|
                  && (propositions[i].id in entailed <==> met[propositions[i].requirement - 1])
  }

  function MetCount(met: seq<bool>, n: nat): nat
    requires n <= |met|
  {
    if n == 0 then 0 else MetCount(met, n - 1) + if met[n - 1] then 1 else 0
  }

  function Times(n: nat, x: real): real {
    if n == 0 then 0.0 else Times(n - 1, x) + x
  }

  lemma {:induction false} TimesProduct(n: nat, x: real)
    ensures Times(n, x) == n as real * x
  {
    if n > 0 {
      TimesProduct(n - 1, x);
      OneMore((n - 1) as real, x);
    }
  }

  lemma OneMore(n: real, x: real)
    ensures (n + 1.0) * x == n * x + x
  {
  }

  /** Equal shares of one add up to one. */
  lemma SharesAddUp(n: nat)
    requires n > 0
    ensures Times(n, 1.0 / n as real) == 1.0
  {
    TimesProduct(n, 1.0 / n as real);
  }

  lemma {:induction false} PartsWeight(prefix: string, index: nat, children: nat, n: nat, rules: (nat, nat) -> Rules)
    requires children <= 26 && n <= Parts(children)
    ensures Positive(PartsOf(prefix, index, children, n, rules))
    ensures TotalWeight(PartsOf(prefix, index, children, n, rules)) == Times(n, 1.0 / Parts(children) as real)
  {
    PartsOfAt(prefix, index, children, n, rules);
    if n > 0 {
      var before := PartsOf(prefix, index, children, n - 1, rules);
      var last := Part(prefix, index, children, n - 1, rules);
      PartsWeight(prefix, index, children, n - 1, rules);
      assert (before + [last])[..n - 1] == before;
      assert last.weight.Fraction() == 1.0 / Parts(children) as real;
    }
  }

  lemma {:induction false} SharedWeight(parts: seq<Proposition>, index: nat, met: seq<bool>, entailed: set<string>)
    requires Positive(parts) && Shared(parts, met, entailed) && 1 <= index <= |met|
    requires forall i :: 0 <= i < |parts| ==> parts[i].requirement == index
    ensures WeightOf(parts, entailed) == if met[index - 1] then TotalWeight(parts) else 0.0
  {
    WeightBounds(parts, entailed);
  }

  lemma {:induction false} PartsShared(
      prefix: string, index: nat, children: nat, rules: (nat, nat) -> Rules, met: seq<bool>, entailed: set<string>)
    requires children <= 26 && 1 <= index <= |met|
    requires Shared(PartsOf(prefix, index, children, Parts(children), rules), met, entailed)
    ensures Positive(PartsOf(prefix, index, children, Parts(children), rules))
    ensures WeightOf(PartsOf(prefix, index, children, Parts(children), rules), entailed) ==
              if met[index - 1] then 1.0 else 0.0
    ensures TotalWeight(PartsOf(prefix, index, children, Parts(children), rules)) == 1.0
  {
    PartsOfAt(prefix, index, children, Parts(children), rules);
    PartsWhole(prefix, index, children, rules);
    SharedWeight(PartsOf(prefix, index, children, Parts(children), rules), index, met, entailed);
  }

  lemma {:induction false} PartsWhole(prefix: string, index: nat, children: nat, rules: (nat, nat) -> Rules)
    requires children <= 26
    ensures Positive(PartsOf(prefix, index, children, Parts(children), rules))
    ensures TotalWeight(PartsOf(prefix, index, children, Parts(children), rules)) == 1.0
  {
    PartsWeight(prefix, index, children, Parts(children), rules);
    SharesAddUp(Parts(children));
  }

  /** With shared verdicts the entailed weight is the number of legacy requirements met. */
  lemma {:induction false} BuiltWeight(
      prefix: string, splits: seq<nat>, n: nat, rules: (nat, nat) -> Rules, met: seq<bool>, entailed: set<string>)
    requires n <= |splits| == |met| && Spellable(splits)
    requires Shared(Built(prefix, splits, n, rules), met, entailed)
    ensures Positive(Built(prefix, splits, n, rules))
    ensures TotalWeight(Built(prefix, splits, n, rules)) == n as real
    ensures WeightOf(Built(prefix, splits, n, rules), entailed) == MetCount(met, n) as real
  {
    if n > 0 {
      var before := Built(prefix, splits, n - 1, rules);
      var parts := PartsOf(prefix, n, splits[n - 1], Parts(splits[n - 1]), rules);
      SharedSplit(before, parts, met, entailed);
      BuiltWeight(prefix, splits, n - 1, rules, met, entailed);
      PartsShared(prefix, n, splits[n - 1], rules, met, entailed);
      OneMoreWeight(before, parts, n, met, entailed);
    }
  }

  lemma OneMoreWeight(before: seq<Proposition>, parts: seq<Proposition>, n: nat, met: seq<bool>, entailed: set<string>)
    requires 0 < n <= |met| && Positive(before) && Positive(parts)
    requires TotalWeight(before) == n as real - 1.0 && TotalWeight(parts) == 1.0
    requires WeightOf(before, entailed) == MetCount(met, n - 1) as real
    requires WeightOf(parts, entailed) == if met[n - 1] then 1.0 else 0.0
    ensures Positive(before + parts) && TotalWeight(before + parts) == n as real
    ensures WeightOf(before + parts, entailed) == MetCount(met, n) as real
  {
    WeightConcat(before, parts, entailed);
  }

  lemma SharedSplit(a: seq<Proposition>, b: seq<Proposition>, met: seq<bool>, entailed: set<string>)
    requires Shared(a + b, met, entailed)
    ensures Shared(a, met, entailed) && Shared(b, met, entailed)
  {
    var all := a + b;
    assert forall i :: 0 <= i < |a| ==> all[i] == a[i];
    assert forall i :: 0 <= i < |b| ==> all[|a| + i] == b[i];
  }

  function AllFalse(n: nat): (met: seq<bool>)
    ensures |met| == n && forall i :: 0 <= i < n ==> !met[i]
  {
    seq(n, _ => false)
  }

  /** However the requirements are split, the ids are unique and the weight is the number of requirements. */
  lemma {:induction false} BuiltValid(prefix: string, splits: seq<nat>, rules: (nat, nat) -> Rules)
    requires splits != [] && Spellable(splits)
    ensures ValidTask(Built(prefix, splits, |splits|, rules), |splits|)
  {
    var all := Built(prefix, splits, |splits|, rules);
    forall i | 0 <= i < |all|
      ensures IsPart(prefix, splits, |splits|, rules, all[i])
    {
      BuiltParts(prefix, splits, |splits|, rules, i);
    }
    BuiltWeight(prefix, splits, |splits|, rules, AllFalse(|splits|), {});
    BuiltDistinct(prefix, splits, |splits|, rules);
    assert all != [];
  }

  // ---------- Coverage ----------

  function WeightOfId(propositions: seq<Proposition>, id: string): real
    requires Positive(propositions)
  {
    if propositions == [] then 0.0
    else if propositions[|propositions| - 1].id == id then propositions[|propositions| - 1].weight.Fraction()
    else WeightOfId(propositions[..|propositions| - 1], id)
  }

  /** The weights of the entailed judgments, added up in the order of the judgments. */
  function Earned(propositions: seq<Proposition>, judgments: seq<Judgment>): real
    requires Positive(propositions)
  {
    if judgments == [] then 0.0
    else
      Earned(propositions, judgments[..|judgments| - 1])
      + if judgments[|judgments| - 1].verdict.Entailed?
          then WeightOfId(propositions, judgments[|judgments| - 1].id) else 0.0
  }

  function EntailedIds(judgments: seq<Judgment>): set<string> {
    set j | j in judgments && j.verdict.Entailed? :: j.id
  }

  function AmbiguousIds(judgments: seq<Judgment>): seq<string> {
    if judgments == [] then []
    else AmbiguousIds(judgments[..|judgments| - 1])
         + if judgments[|judgments| - 1].verdict.Ambiguous? then [judgments[|judgments| - 1].id] else []
  }

  datatype Coverage = Complete(value: real) | Incomplete(ambiguous: seq<string>)

  datatype CoverageError = Mismatch

  ghost predicate Covers(propositions: seq<Proposition>, judgments: seq<Judgment>) {
    forall id :: id in JudgedIds(judgments) <==> id in Ids(propositions)
  }

  function IdSet(ids: seq<string>): set<string> {
    set id | id in ids
  }

  /** The share of the weight that is entailed; no value as long as a verdict is ambiguous. */
  function WeightedCoverage(propositions: seq<Proposition>, judgments: seq<Judgment>): Result<Coverage, CoverageError>
    requires Positive(propositions) && propositions != []
  {
    if IdSet(JudgedIds(judgments)) != IdSet(Ids(propositions)) then Err(Mismatch)
    else
      var ambiguous := Sort(TextLe, AmbiguousIds(judgments));
      if ambiguous != [] then Ok(Incomplete(ambiguous))
      else
        TotalPositive(propositions);
        Ok(Complete(Earned(propositions, judgments) / TotalWeight(propositions)))
  }

  lemma {:induction false} TotalPositive(propositions: seq<Proposition>)
    requires Positive(propositions) && propositions != []
    ensures TotalWeight(propositions) > 0.0
  {
    WeightBounds(propositions, {});
    assert propositions[0] in propositions;
  }

  /** The value an id contributes. */
  function Credit(propositions: seq<Proposition>, entailed: set<string>, id: string): real
    requires Positive(propositions)
  {
    if id in entailed then WeightOfId(propositions, id) else 0.0
  }

  function Credits(propositions: seq<Proposition>, entailed: set<string>, ids: seq<string>): real
    requires Positive(propositions)
  {
    if ids == [] then 0.0
    else Credits(propositions, entailed, ids[..|ids| - 1]) + Credit(propositions, entailed, ids[|ids| - 1])
  }

  lemma {:induction false} CreditsConcat(propositions: seq<Proposition>, entailed: set<string>, a: seq<string>,
                                         b: seq<string>)
    requires Positive(propositions)
    ensures Credits(propositions, entailed, a + b) ==
              Credits(propositions, entailed, a) + Credits(propositions, entailed, b)
  {
    if b == [] {
      assert a + b == a;
    } else {
      assert (a + b)[..|a + b| - 1] == a + b[..|b| - 1];
      CreditsConcat(propositions, entailed, a, b[..|b| - 1]);
    }
  }

  lemma {:induction false} CreditsWithout(
      propositions: seq<Proposition>, entailed: set<string>, x: seq<string>, id: string, z: seq<string>)
    requires Positive(propositions)
    ensures Credits(propositions, entailed, x + ([id] + z)) ==
              Credits(propositions, entailed, x + z) + Credit(propositions, entailed, id)
  {
    CreditsConcat(propositions, entailed, x, [id] + z);
    CreditsConcat(propositions, entailed, [id], z);
    CreditsConcat(propositions, entailed, x, z);
    assert [id][..0] == [];
    assert Credits(propositions, entailed, [id]) == Credit(propositions, entailed, id);
  }

  lemma SplitAt<T>(s: seq<T>, x: T) returns (before: seq<T>, after: seq<T>)
    requires x in s
    ensures s == before + ([x] + after)
    ensures multiset(before + after) == multiset(s) - multiset{x}
    ensures |before + after| == |s| - 1
  {
    var k :| 0 <= k < |s| && s[k] == x;
    before, after := s[..k], s[k + 1..];
    assert s == before + ([x] + after);
  }

  lemma {:induction false} CreditsRearranged(propositions: seq<Proposition>, entailed: set<string>, a: seq<string>,
                                             b: seq<string>)
    requires Positive(propositions) && multiset(a) == multiset(b)
    ensures Credits(propositions, entailed, a) == Credits(propositions, entailed, b)
    decreases |a|
  {
    SameElements(a, b);
    if a != [] {
      var x := a[0];
      var before, after := SplitAt(a, x);
      var before', after' := SplitAt(b, x);
      CreditsWithout(propositions, entailed, before, x, after);
      CreditsWithout(propositions, entailed, before', x, after');
      CreditsRearranged(propositions, entailed, before + after, before' + after');
    }
  }

  lemma {:induction false} DistinctCounts<T>(s: seq<T>, x: T)
    requires Distinct(s)
    ensures multiset(s)[x] == if x in s then 1 else 0
  {
    if s != [] {
      var n := |s| - 1;
      DistinctCounts(s[..n], x);
      assert s == s[..n] + [s[n]];
      if x == s[n] {
        assert x !in s[..n];
      }
    }
  }

  lemma DistinctSame<T>(s: seq<T>, t: seq<T>)
    requires Distinct(s) && Distinct(t) && forall x :: x in s <==> x in t
    ensures multiset(s) == multiset(t)
  {
    forall x
      ensures multiset(s)[x] == multiset(t)[x]
    {
      DistinctCounts(s, x);
      DistinctCounts(t, x);
    }
  }

  lemma {:induction false} WeightOfIdAt(propositions: seq<Proposition>, k: nat)
    requires Positive(propositions) && Distinct(Ids(propositions)) && k < |propositions|
    ensures WeightOfId(propositions, propositions[k].id) == propositions[k].weight.Fraction()
  {
    var n := |propositions| - 1;
    assert Ids(propositions)[k] == propositions[k].id && Ids(propositions)[n] == propositions[n].id;
    if k < n {
      assert Ids(propositions[..n]) == Ids(propositions)[..n];
      WeightOfIdAt(propositions[..n], k);
    }
  }

  lemma {:induction false} CreditsAreWeight(propositions: seq<Proposition>, entailed: set<string>, k: nat)
    requires Positive(propositions) && Distinct(Ids(propositions)) && k <= |propositions|
    ensures Credits(propositions, entailed, Ids(propositions)[..k]) == WeightOf(propositions[..k], entailed)
  {
    if k > 0 {
      var ids := Ids(propositions)[..k];
      CreditsAreWeight(propositions, entailed, k - 1);
      WeightOfIdAt(propositions, k - 1);
      assert ids[..k - 1] == Ids(propositions)[..k - 1] && propositions[..k][..k - 1] == propositions[..k - 1];
    }
  }

  lemma {:induction false} EarnedIsCredits(propositions: seq<Proposition>, judgments: seq<Judgment>,
                                           entailed: set<string>)
    requires Positive(propositions)
    requires forall i :: 0 <= i < |judgments| ==> (judgments[i].id in entailed <==> judgments[i].verdict.Entailed?)
    ensures Earned(propositions, judgments) == Credits(propositions, entailed, JudgedIds(judgments))
  {
    if judgments != [] {
      var n := |judgments| - 1;
      EarnedIsCredits(propositions, judgments[..n], entailed);
      assert JudgedIds(judgments)[..n] == JudgedIds(judgments[..n]);
    }
  }

  lemma EntailedExactly(judgments: seq<Judgment>)
    requires Distinct(JudgedIds(judgments))
    ensures forall i :: 0 <= i < |judgments| ==>
              (judgments[i].id in EntailedIds(judgments) <==> judgments[i].verdict.Entailed?)
  {
    forall i | 0 <= i < |judgments|
      ensures judgments[i].id in EntailedIds(judgments) <==> judgments[i].verdict.Entailed?
    {
      if judgments[i].id in EntailedIds(judgments) {
        var k :| 0 <= k < |judgments| && judgments[k].verdict.Entailed? && judgments[k].id == judgments[i].id;
        assert JudgedIds(judgments)[k] == JudgedIds(judgments)[i];
      }
    }
  }

  /** The order of the judgments does not matter: what they earn is the weight of the entailed propositions. */
  lemma {:induction false} EarnedIsWeight(propositions: seq<Proposition>, judgments: seq<Judgment>)
    requires Positive(propositions) && Distinct(Ids(propositions))
    requires Distinct(JudgedIds(judgments)) && Covers(propositions, judgments)
    ensures Earned(propositions, judgments) == WeightOf(propositions, EntailedIds(judgments))
  {
    var entailed := EntailedIds(judgments);
    EntailedExactly(judgments);
    EarnedIsCredits(propositions, judgments, entailed);
    DistinctSame(JudgedIds(judgments), Ids(propositions));
    CreditsRearranged(propositions, entailed, JudgedIds(judgments), Ids(propositions));
    CreditsAreWeight(propositions, entailed, |propositions|);
    assert Ids(propositions)[..|propositions|] == Ids(propositions) && propositions[..|propositions|] == propositions;
  }

  ghost predicate Undecided(judgments: seq<Judgment>) {
    exists j :: j in judgments && j.verdict.Ambiguous?
  }

  lemma {:induction false} AmbiguousIdsAre(judgments: seq<Judgment>)
    ensures forall id :: id in AmbiguousIds(judgments) <==>
              exists j :: j in judgments && j.verdict.Ambiguous? && j.id == id
  {
    if judgments != [] {
      var n := |judgments| - 1;
      AmbiguousIdsAre(judgments[..n]);
      assert judgments == judgments[..n] + [judgments[n]];
    }
  }

  lemma CoversIffSameSets(propositions: seq<Proposition>, judgments: seq<Judgment>)
    ensures Covers(propositions, judgments) <==> IdSet(JudgedIds(judgments)) == IdSet(Ids(propositions))
  {
    var a, b := IdSet(JudgedIds(judgments)), IdSet(Ids(propositions));
    assert forall id :: id in a <==> id in JudgedIds(judgments);
    assert forall id :: id in b <==> id in Ids(propositions);
  }

  lemma NonEmptyHas<T>(s: seq<T>)
    ensures s != [] <==> exists x :: x in s
  {
    if s != [] {
      assert s[0] in s;
    }
  }

  lemma {:induction false} AmbiguousSorted(judgments: seq<Judgment>)
    ensures var ids := Sort(TextLe, AmbiguousIds(judgments));
            && (ids != [] <==> Undecided(judgments))
            && Sorted(TextLe, ids)
            && forall id :: id in ids <==> exists j :: j in judgments && j.verdict.Ambiguous? && j.id == id
  {
    var ids := AmbiguousIds(judgments);
    TextPreorder();
    SortSpec(TextLe, ids);
    AmbiguousIdsAre(judgments);
    NonEmptyHas(ids);
    NonEmptyHas(Sort(TextLe, ids));
    if Undecided(judgments) {
      var j :| j in judgments && j.verdict.Ambiguous?;
      assert j.id in ids;
    }
  }

  /**
    A mismatch exactly when the verdicts are not those of the specification; no value exactly when one is
    ambiguous.
  */
  lemma CoverageOutcome(propositions: seq<Proposition>, judgments: seq<Judgment>)
    requires Positive(propositions) && propositions != []
    ensures WeightedCoverage(propositions, judgments).Err? <==> !Covers(propositions, judgments)
    ensures Covers(propositions, judgments) ==>
              (WeightedCoverage(propositions, judgments).value.Incomplete? <==> Undecided(judgments))
    ensures Covers(propositions, judgments) && Undecided(judgments) ==>
              var ids := WeightedCoverage(propositions, judgments).value.ambiguous;
              && Sorted(TextLe, ids)
              && forall id :: id in ids <==> exists j :: j in judgments && j.verdict.Ambiguous? && j.id == id
  {
    CoversIffSameSets(propositions, judgments);
    AmbiguousSorted(judgments);
  }

  /** A complete coverage times the number of legacy requirements is the weight that is entailed. */
  lemma {:induction false} CoverageValue(propositions: seq<Proposition>, requirements: nat, judgments: seq<Judgment>)
    requires ValidTask(propositions, requirements) && Distinct(JudgedIds(judgments))
    requires Covers(propositions, judgments) && !Undecided(judgments)
    ensures WeightedCoverage(propositions, judgments) ==
            Ok(Complete(WeightOf(propositions, EntailedIds(judgments)) / requirements as real))
  {
    CoverageOutcome(propositions, judgments);
    EarnedIsWeight(propositions, judgments);
    TotalPositive(propositions);
  }

  lemma Ratio(a: real, n: real)
    requires n > 0.0 && 0.0 <= a <= n
    ensures 0.0 <= a / n <= 1.0
    ensures a / n == 1.0 <==> a == n
    ensures a / n == 0.0 <==> a == 0.0
  {
  }

  lemma RatioGrows(a: real, b: real, n: real)
    requires n > 0.0 && a < b
    ensures a / n < b / n
  {
  }

  /** Complete coverage lies in [0, 1]; it is one exactly when everything is entailed, and zero when nothing is. */
  lemma CoverageBounds(propositions: seq<Proposition>, requirements: nat, judgments: seq<Judgment>)
    requires ValidTask(propositions, requirements) && Distinct(JudgedIds(judgments))
    requires Covers(propositions, judgments) && !Undecided(judgments)
    ensures var coverage := WeightedCoverage(propositions, judgments);
            && coverage.Ok? && coverage.value.Complete?
            && 0.0 <= coverage.value.value <= 1.0
            && (coverage.value.value == 1.0 <==> forall i :: 0 <= i < |judgments| ==> judgments[i].verdict.Entailed?)
            && (coverage.value.value == 0.0 <==> forall i :: 0 <= i < |judgments| ==> !judgments[i].verdict.Entailed?)
  {
    var entailed := EntailedIds(judgments);
    CoverageValue(propositions, requirements, judgments);
    WeightBounds(propositions, entailed);
    Ratio(WeightOf(propositions, entailed), requirements as real);
    AllEntailed(propositions, judgments);
  }

  lemma JudgmentOf(propositions: seq<Proposition>, judgments: seq<Judgment>, p: Proposition) returns (i: nat)
    requires Covers(propositions, judgments) && p in propositions
    ensures i < |judgments| && judgments[i].id == p.id
  {
    var k :| 0 <= k < |propositions| && propositions[k] == p;
    assert Ids(propositions)[k] in JudgedIds(judgments);
    i :| 0 <= i < |judgments| && JudgedIds(judgments)[i] == p.id;
    assert judgments[i].id == p.id;
  }

  lemma PropositionOf(propositions: seq<Proposition>, judgments: seq<Judgment>, i: nat) returns (p: Proposition)
    requires Covers(propositions, judgments) && i < |judgments|
    ensures p in propositions && p.id == judgments[i].id
  {
    assert JudgedIds(judgments)[i] in Ids(propositions);
    var k :| 0 <= k < |propositions| && Ids(propositions)[k] == judgments[i].id;
    p := propositions[k];
  }

  lemma AllEntailed(propositions: seq<Proposition>, judgments: seq<Judgment>)
    requires Distinct(JudgedIds(judgments)) && Covers(propositions, judgments)
    ensures (forall p :: p in propositions ==> p.id in EntailedIds(judgments)) <==>
            forall i :: 0 <= i < |judgments| ==> judgments[i].verdict.Entailed?
    ensures (forall p :: p in propositions ==> p.id !in EntailedIds(judgments)) <==>
            forall i :: 0 <= i < |judgments| ==> !judgments[i].verdict.Entailed?
  {
    EntailedExactly(judgments);
    forall i | 0 <= i < |judgments|
      ensures exists p :: p in propositions && p.id == judgments[i].id
    {
      var p := PropositionOf(propositions, judgments, i);
    }
    forall p | p in propositions
      ensures exists i :: 0 <= i < |judgments| && judgments[i].id == p.id
    {
      var i := JudgmentOf(propositions, judgments, p);
    }
  }

  /** Entailing one more proposition strictly raises a complete coverage. */
  lemma CoverageGrows(propositions: seq<Proposition>, requirements: nat, fewer: seq<Judgment>, more: seq<Judgment>)
    requires ValidTask(propositions, requirements) && Distinct(JudgedIds(fewer)) && Distinct(JudgedIds(more))
    requires Covers(propositions, fewer) && Covers(propositions, more) && !Undecided(fewer) && !Undecided(more)
    requires EntailedIds(fewer) < EntailedIds(more)
    ensures WeightedCoverage(propositions, fewer).Ok? && WeightedCoverage(propositions, more).Ok?
    ensures WeightedCoverage(propositions, fewer).value.Complete?
              && WeightedCoverage(propositions, more).value.Complete?
    ensures WeightedCoverage(propositions, fewer).value.value < WeightedCoverage(propositions, more).value.value
  {
    CoverageValue(propositions, requirements, fewer);
    CoverageValue(propositions, requirements, more);
    var a, b := EntailedIds(fewer), EntailedIds(more);
    var j :| j in more && j.verdict.Entailed? && j.id in b - a;
    assert exists i :: 0 <= i < |more| && JudgedIds(more)[i] == j.id;
    assert j.id in Ids(propositions);
    var k :| 0 <= k < |propositions| && Ids(propositions)[k] == j.id;
    assert propositions[k] in propositions && propositions[k].id in b - a;
    WeightGrows(propositions, a, b);
    RatioGrows(WeightOf(propositions, a), WeightOf(propositions, b), requirements as real);
  }

  /**
    Splitting preserves meaning: when siblings share a verdict, coverage is the fraction of legacy
    requirements met.
  */
  lemma {:induction false} CoverageIsLegacyFraction(
      prefix: string, splits: seq<nat>, rules: (nat, nat) -> Rules, judgments: seq<Judgment>, met: seq<bool>)
    requires splits != [] && Spellable(splits) && |met| == |splits| && Distinct(JudgedIds(judgments))
    requires var task := Built(prefix, splits, |splits|, rules);
             && Covers(task, judgments) && !Undecided(judgments)
             && Shared(task, met, EntailedIds(judgments))
    ensures Positive(Built(prefix, splits, |splits|, rules)) && Built(prefix, splits, |splits|, rules) != []
    ensures WeightedCoverage(Built(prefix, splits, |splits|, rules), judgments) ==
            Ok(Complete(MetCount(met, |met|) as real / |splits| as real))
  {
    var task := Built(prefix, splits, |splits|, rules);
    BuiltValid(prefix, splits, rules);
    CoverageValue(task, |splits|, judgments);
    BuiltWeight(prefix, splits, |splits|, rules, met, EntailedIds(judgments));
  }

  // ---------- The rubric ----------

  datatype RubricError = PropositionIdMismatch | InvalidRuleUse

  /** A rubric judges something, and nothing twice. */
  ghost predicate ValidRubric(judgments: seq<Judgment>) {
    judgments != [] && Distinct(JudgedIds(judgments))
  }

  /** The last entry with an id, as a dictionary keeps it. */
  function Lookup<T>(entries: seq<T>, key: T -> string, id: string): Option<T> {
    if entries == [] then None
    else if key(entries[|entries| - 1]) == id then Some(entries[|entries| - 1])
    else Lookup(entries[..|entries| - 1], key, id)
  }

  /** The entry at i is the last one with an id. */
  ghost predicate LastAt<T>(entries: seq<T>, key: T -> string, i: int, id: string) {
    0 <= i < |entries| && key(entries[i]) == id && forall k :: i < k < |entries| ==> key(entries[k]) != id
  }

  lemma {:induction false} LookupLast<T>(entries: seq<T>, key: T -> string, id: string)
    ensures Lookup(entries, key, id).None? ==> forall i :: !LastAt(entries, key, i, id)
    ensures Lookup(entries, key, id).Some? ==>
              exists i :: LastAt(entries, key, i, id) && entries[i] == Lookup(entries, key, id).value
    ensures forall i, k :: LastAt(entries, key, i, id) && LastAt(entries, key, k, id) ==> i == k
    ensures (exists i :: 0 <= i < |entries| && key(entries[i]) == id) ==> Lookup(entries, key, id).Some?
  {
    if entries != [] {
      var n := |entries| - 1;
      LookupLast(entries[..n], key, id);
      if key(entries[n]) == id {
        assert LastAt(entries, key, n, id);
      } else {
        forall i | LastAt(entries, key, i, id)
          ensures LastAt(entries[..n], key, i, id)
        {
        }
        forall i | LastAt(entries[..n], key, i, id)
          ensures LastAt(entries, key, i, id)
        {
        }
      }
    }
  }

  function IdOf(p: Proposition): string {
    p.id
  }

  function RuleIdOf(d: Derivation): string {
    d.id
  }

  ghost predicate IsEntailed(judgments: seq<Judgment>, id: string) {
    exists j :: j in judgments && j.id == id && j.verdict.Entailed?
  }

  /** A derivation may be used: unconditionally, or because all its dependencies are entailed. */
  ghost predicate Permits(d: Derivation, judgments: seq<Judgment>) {
    || d.policy.Allowed?
    || (d.policy.Conditional? && forall id :: id in d.dependencies ==> IsEntailed(judgments, id))
  }

  const EQUIVALENCE := "equivalence:"

  /** A listed equivalence, or a permitted derivation that is the last one of its name. */
  ghost predicate Offers(rules: Rules, judgments: seq<Judgment>, used: string) {
    || (exists e :: e in rules.equivalences && "equivalence:" + e == used)
    || (exists i :: LastAt(rules.derivations, RuleIdOf, i, used) && Permits(rules.derivations[i], judgments))
  }

  /** A judgment that names a rule is entailed, and its proposition offers the rule. */
  ghost predicate Licensed(required: seq<Proposition>, judgments: seq<Judgment>, j: Judgment) {
    j.used.Some? ==>
      && j.verdict.Entailed?
      && exists i :: LastAt(required, IdOf, i, j.id) && Offers(required[i].rules, judgments, j.used.value)
  }

  ghost predicate AcceptedRubric(required: seq<Proposition>, judgments: seq<Judgment>) {
    Covers(required, judgments) && forall i :: 0 <= i < |judgments| ==> Licensed(required, judgments, judgments[i])
  }

  method HasEntailed(judgments: seq<Judgment>, id: string) returns (entailed: bool)
    requires Distinct(JudgedIds(judgments))
    ensures entailed <==> IsEntailed(judgments, id)
  {
    entailed := id in EntailedIds(judgments);
  }

  method IsPermitted(d: Derivation, judgments: seq<Judgment>) returns (permitted: bool)
    requires Distinct(JudgedIds(judgments))
    ensures permitted <==> Permits(d, judgments)
  {
    if d.policy.NotAllowed? {
      return false;
    }
    if d.policy.Conditional? {
      for k := 0 to |d.dependencies|
        invariant forall i :: 0 <= i < k ==> IsEntailed(judgments, d.dependencies[i])
      {
        var entailed := HasEntailed(judgments, d.dependencies[k]);
        if !entailed {
          return false;
        }
      }
    }
    permitted := true;
  }

  method IsOffered(rules: Rules, judgments: seq<Judgment>, used: string) returns (offered: bool)
    requires Distinct(JudgedIds(judgments))
    ensures offered <==> Offers(rules, judgments, used)
  {
    if used in (set e | e in rules.equivalences :: EQUIVALENCE + e) {
      return true;
    }
    LookupLast(rules.derivations, RuleIdOf, used);
    var rule := Lookup(rules.derivations, RuleIdOf, used);
    if rule.None? {
      return false;
    }
    offered := IsPermitted(rule.value, judgments);
  }

  method IsLicensed(required: seq<Proposition>, judgments: seq<Judgment>, j: Judgment) returns (licensed: bool)
    requires Distinct(JudgedIds(judgments)) && Covers(required, judgments) && j in judgments
    ensures licensed <==> Licensed(required, judgments, j)
  {
    if j.used.None? {
      return true;
    }
    if !j.verdict.Entailed? {
      return false;
    }
    LookupLast(required, IdOf, j.id);
    JudgedIsRequired(required, judgments, j);
    var proposition := Lookup(required, IdOf, j.id).value;
    licensed := IsOffered(proposition.rules, judgments, j.used.value);
  }

  lemma JudgedIsRequired(required: seq<Proposition>, judgments: seq<Judgment>, j: Judgment)
    requires Covers(required, judgments) && j in judgments
    ensures exists i :: 0 <= i < |required| && IdOf(required[i]) == j.id
  {
    var k :| 0 <= k < |judgments| && judgments[k] == j;
    assert JudgedIds(judgments)[k] in Ids(required);
    var i :| 0 <= i < |required| && Ids(required)[i] == j.id;
    assert IdOf(required[i]) == j.id;
  }

  lemma DistinctSize<T>(s: seq<T>)
    requires Distinct(s)
    ensures |set x | x in s| == |s|
    decreases |s|
  {
    if s != [] {
      var n := |s| - 1;
      DistinctSize(s[..n]);
      assert s[n] !in s[..n];
      assert (set x | x in s) == (set x | x in s[..n]) + {s[n]};
    }
  }

  /**
    Accepts exactly the rubrics that judge every required proposition and use rules only where
    they are offered, on entailed propositions, with all dependencies of a conditional rule entailed.
  */
  method ValidateRubric(required: seq<Proposition>, judgments: seq<Judgment>) returns (error: Option<RubricError>)
    requires ValidRubric(judgments)
    ensures error == Some(PropositionIdMismatch) <==> !Covers(required, judgments)
    ensures error == None <==> AcceptedRubric(required, judgments)
  {
    CoversIffSameSets(required, judgments);
    DistinctSize(JudgedIds(judgments));
    var expected, actual := IdSet(Ids(required)), IdSet(JudgedIds(judgments));
    if actual != expected || |judgments| != |expected| {
      return Some(PropositionIdMismatch);
    }
    for i := 0 to |judgments|
      invariant forall k :: 0 <= k < i ==> Licensed(required, judgments, judgments[k])
    {
      var licensed := IsLicensed(required, judgments, judgments[i]);
      if !licensed {
        return Some(InvalidRuleUse);
      }
    }
    error := None;
  }

  /** The verdicts of an accepted rubric meet what coverage demands, and score the entailed weight. */
  lemma {:induction false} AcceptedRubricScores(task: seq<Proposition>, requirements: nat, judgments: seq<Judgment>)
    requires ValidTask(task, requirements) && ValidRubric(judgments) && AcceptedRubric(task, judgments)
    ensures WeightedCoverage(task, judgments).Ok?
    ensures !Undecided(judgments) ==> WeightedCoverage(task, judgments).value.Complete?
    ensures !Undecided(judgments) ==>
              WeightedCoverage(task, judgments).value.value * requirements as real ==
                  WeightOf(task, EntailedIds(judgments))
  {
    CoverageOutcome(task, judgments);
    if !Undecided(judgments) {
      CoverageValue(task, requirements, judgments);
      Undivided(WeightOf(task, EntailedIds(judgments)), requirements as real);
    }
  }

  lemma Undivided(a: real, n: real)
    requires n > 0.0
    ensures a / n * n == a
  {
  }
}
