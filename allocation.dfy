/** The specification of filling one workplace: the candidate placements the planner
    considers, the choice of the best one, the effect of applying it, and the refill loop
    that keeps placing operators while slots and useful candidates remain. The planner's
    methods in module `Planner` are proved to compute exactly these functions. */
module Allocation {
  import opened Results
  import opened Text
  import opened Catalog
  import opened StableSort
  import opened Rules

  /** The name of the group of rules that belong to no system. */
  const GENERIC: string := "通用"

  /** What one call of the workplace optimizer reads but never changes: the catalog, the
      boost targets of the day, the workplace's type and its current product. */
  datatype Context = Context(catalog: OperatorTable, targets: seq<string>, wtype: string)

  /** `operator_usage.get(n, 0)`. */
  function UsageOf(usage: map<string, int>, n: string): int {
    if n in usage then usage[n] else 0
  }

  /** An operator may work two shifts a day, a boost target three when placed in a
      trading station. */
  function MaxUsage(ctx: Context, n: string): (m: int)
    ensures m == 2 || m == 3
    ensures m == 3 <==> n in ctx.targets && ctx.wtype == TRADING
  {
    if n in ctx.targets && ctx.wtype == TRADING then 3 else 2
  }

  /** The rules the workplace may use: its type, and a product list that is empty or holds
      the workplace's current product. */
  function Pool(rules: seq<Rule>, wtype: string, product: string): (pool: seq<Rule>)
    ensures forall r :: r in pool <==> r in rules && r.workplaceType == wtype && (r.products == [] || product in r.products)
    ensures |pool| <= |rules|
  {
    if rules == [] then []
    else
      var rest := Pool(rules[1..], wtype, product);
      var r := rules[0];
      if r.workplaceType == wtype && (r.products == [] || product in r.products) then [r] + rest else rest
  }

  lemma WellFormedPool(rules: seq<Rule>, wtype: string, product: string)
    requires WellFormed(rules)
    ensures WellFormed(Pool(rules, wtype, product))
  {
    var pool := Pool(rules, wtype, product);
    forall i | 0 <= i < |pool| ensures |pool[i].operators| > 0 && Distinct(pool[i].operators) {
      assert pool[i] in rules;
    }
  }

  lemma NonEmptyPool(rules: seq<Rule>, wtype: string, product: string)
    requires NonEmptyRules(rules)
    ensures NonEmptyRules(Pool(rules, wtype, product))
  {
    var pool := Pool(rules, wtype, product);
    forall i | 0 <= i < |pool| ensures |pool[i].operators| > 0 {
      assert pool[i] in rules;
    }
  }

  /** The state of one workplace fill: the shared usage counts and shift set, the names placed
      here so far (the source keeps them both as a set and as a list), the free slots and
      what the applied rules contributed. */
  datatype Fill = Fill(
    usage: map<string, int>,
    shiftUsed: set<string>,
    usedNames: set<string>,
    placed: seq<string>,
    remaining: int,
    synergy: real,
    combinations: seq<string>,
    controlCenter: seq<Requirement>,
    dormitory: seq<Requirement>,
    powerStation: seq<Requirement>)

  /** An operator can still be placed: owned, not yet placed here or elsewhere this shift,
      and below its daily maximum. */
  predicate Usable(ctx: Context, f: Fill, n: string) {
    && Owned(ctx.catalog, n)
    && n !in f.usedNames
    && n !in f.shiftUsed
    && UsageOf(f.usage, n) < MaxUsage(ctx, n)
  }

  predicate AllUsable(ctx: Context, f: Fill, ops: seq<string>) {
    forall i :: 0 <= i < |ops| ==> Usable(ctx, f, ops[i])
  }

  /** `[op_by_name[n] for n in ops]`. */
  function Objects(catalog: OperatorTable, ops: seq<string>): (objs: seq<Operator>)
    requires forall i :: 0 <= i < |ops| ==> ops[i] in catalog
    ensures |objs| == |ops| && forall i :: 0 <= i < |ops| ==> objs[i] == catalog[ops[i]]
  {
    seq(|ops|, i requires 0 <= i < |ops| => catalog[ops[i]])
  }

  /** The checks of the system pass: every operator usable, enough slots, the elite
      overrides, and the control-centre, dormitory and power-station requirements. */
  predicate SystemEligible(ctx: Context, f: Fill, r: Rule) {
    && AllUsable(ctx, f, r.operators)
    && |r.operators| <= f.remaining
    && EliteSatisfied(Objects(ctx.catalog, r.operators), r.eliteRequirements)
    && RequirementsMet(r.controlCenter, ctx.catalog)
    && RequirementsMet(r.dormitory, ctx.catalog)
    && RequirementsMet(r.powerStation, ctx.catalog)
  }

  /** The checks of the generic pass and of the refill for a whole rule: the same, without
      the dormitory and power-station requirements. */
  predicate GenericEligible(ctx: Context, f: Fill, r: Rule) {
    && AllUsable(ctx, f, r.operators)
    && |r.operators| <= f.remaining
    && EliteSatisfied(Objects(ctx.catalog, r.operators), r.eliteRequirements)
    && RequirementsMet(r.controlCenter, ctx.catalog)
  }

  /** `rule.elite_requirements.get(n, 0)`. */
  function OverrideOf(r: Rule, n: string): int {
    if n in r.eliteRequirements then r.eliteRequirements[n] else 0
  }

  /** The checks for one operator of an apply-each rule. */
  predicate EachEligible(ctx: Context, f: Fill, r: Rule, n: string) {
    && f.remaining > 0
    && Usable(ctx, f, n)
    && EliteSatisfied([ctx.catalog[n]], map[n := OverrideOf(r, n)])
    && RequirementsMet(r.controlCenter, ctx.catalog)
  }

  /** A placement under consideration: a rule and the operators it would place; `each`
      marks one operator of an apply-each rule taken alone. */
  datatype Candidate = Candidate(rule: Rule, required: seq<string>, each: bool)

  predicate Scorable(cands: seq<Candidate>) {
    forall i :: 0 <= i < |cands| ==> |cands[i].required| > 0
  }

  /** The comparison value: the full synergy for one operator of an apply-each rule, the
      synergy per operator otherwise. */
  function Score(c: Candidate): real
    requires |c.required| > 0
  {
    if c.each then c.rule.synergy else c.rule.synergy / (|c.required| as real)
  }

  predicate Distinct(s: seq<string>) {
    forall i, j :: 0 <= i < j < |s| ==> s[i] != s[j]
  }

  /** No rule names an operator twice, and every rule names one. */
  predicate WellFormed(rules: seq<Rule>) {
    forall i :: 0 <= i < |rules| ==> |rules[i].operators| > 0 && Distinct(rules[i].operators)
  }

  predicate NonEmptyRules(rules: seq<Rule>) {
    forall i :: 0 <= i < |rules| ==> |rules[i].operators| > 0
  }

  /** What every evaluated candidate satisfies: it fits the free slots, every operator it
      places is usable, and its control-centre requirements hold. */
  predicate Ready(ctx: Context, f: Fill, c: Candidate) {
    && 0 < |c.required| <= f.remaining
    && AllUsable(ctx, f, c.required)
    && RequirementsMet(c.rule.controlCenter, ctx.catalog)
  }

  /** A candidate that applying keeps the fill consistent. */
  ghost predicate Admissible(ctx: Context, f: Fill, c: Candidate) {
    Ready(ctx, f, c) && Distinct(c.required)
  }

  /** The candidates of one apply-each rule: each eligible operator on its own. */
  function EachCandidates(ctx: Context, f: Fill, r: Rule, ops: seq<string>): (cands: seq<Candidate>)
    ensures Scorable(cands)
    ensures forall i :: 0 <= i < |cands| ==> cands[i].each && cands[i].rule == r && |cands[i].required| == 1
    ensures forall i :: 0 <= i < |cands| ==> cands[i].required[0] in ops && EachEligible(ctx, f, r, cands[i].required[0])
    ensures forall n :: n in ops && EachEligible(ctx, f, r, n) ==> Candidate(r, [n], true) in cands
    ensures forall c :: c in cands ==> Ready(ctx, f, c)
  {
    if ops == [] then []
    else
      var rest := EachCandidates(ctx, f, r, ops[1..]);
      if EachEligible(ctx, f, r, ops[0]) then [Candidate(r, [ops[0]], true)] + rest else rest
  }

  /** The candidates of the generic pass and of each refill round, in rule order. */
  function GenericCandidates(ctx: Context, f: Fill, rules: seq<Rule>): (cands: seq<Candidate>)
    requires NonEmptyRules(rules)
    ensures Scorable(cands)
    ensures forall c :: c in cands ==> Ready(ctx, f, c) && c.rule in rules
    ensures WellFormed(rules) ==> forall c :: c in cands ==> Distinct(c.required)
  {
    if rules == [] then []
    else
      var r := rules[0];
      var rest := GenericCandidates(ctx, f, rules[1..]);
      assert WellFormed(rules) ==> WellFormed(rules[1..]) by {
        if WellFormed(rules) {
          forall i | 0 <= i < |rules[1..]| ensures |rules[1..][i].operators| > 0 && Distinct(rules[1..][i].operators) {
            assert rules[1..][i] == rules[i + 1];
          }
        }
      }
      var own :=
        if r.applyEach then EachCandidates(ctx, f, r, r.operators)
        else if GenericEligible(ctx, f, r) then [Candidate(r, r.operators, false)]
        else [];
      own + rest
  }

  /** The candidates of the system pass within one group: whole rules only. */
  function SystemCandidates(ctx: Context, f: Fill, rules: seq<Rule>): (cands: seq<Candidate>)
    requires NonEmptyRules(rules)
    ensures Scorable(cands)
    ensures forall c :: c in cands ==> Ready(ctx, f, c) && !c.each && c.rule in rules && SystemEligible(ctx, f, c.rule)
    ensures WellFormed(rules) ==> forall c :: c in cands ==> Distinct(c.required)
  {
    if rules == [] then []
    else
      var r := rules[0];
      var rest := SystemCandidates(ctx, f, rules[1..]);
      assert WellFormed(rules) ==> WellFormed(rules[1..]) by {
        if WellFormed(rules) {
          forall i | 0 <= i < |rules[1..]| ensures |rules[1..][i].operators| > 0 && Distinct(rules[1..][i].operators) {
            assert rules[1..][i] == rules[i + 1];
          }
        }
      }
      if SystemEligible(ctx, f, r) then [Candidate(r, r.operators, false)] + rest else rest
  }

  /** The system a rule is grouped under: the first system name of its workplace type that
      occurs in its description, or the generic group. */
  function SystemOf(keys: seq<string>, description: string): (g: string)
    ensures (exists k :: k in keys && Contains(description, k)) ==> g in keys && Contains(description, g)
    ensures (forall k :: k in keys ==> !Contains(description, k)) ==> g == GENERIC
  {
    if keys == [] then GENERIC
    else if Contains(description, keys[0]) then keys[0]
    else SystemOf(keys[1..], description)
  }

  /** The system is the first key, in key order, that the description contains. */
  lemma {:induction false} SystemOfFirst(keys: seq<string>, description: string, i: nat)
    requires i < |keys| && Contains(description, keys[i])
    requires forall j :: 0 <= j < i ==> !Contains(description, keys[j])
    ensures SystemOf(keys, description) == keys[i]
  {
    if i > 0 {
      assert !Contains(description, keys[0]);
      assert keys[1..][i - 1] == keys[i];
      SystemOfFirst(keys[1..], description, i - 1);
    }
  }

  /** The group names in order of first appearance (the source's dict insertion order). */
  function GroupNames(pool: seq<Rule>, keys: seq<string>): (names: seq<string>)
    ensures Distinct(names)
    ensures forall g :: g in names <==> exists i :: 0 <= i < |pool| && SystemOf(keys, pool[i].description) == g
  {
    if pool == [] then []
    else
      var front := GroupNames(pool[..|pool| - 1], keys);
      var g := SystemOf(keys, pool[|pool| - 1].description);
      assert forall i :: 0 <= i < |pool| - 1 ==> pool[..|pool| - 1][i] == pool[i];
      if g in front then front else front + [g]
  }

  /** The rules of one group, in pool order. */
  function Group(pool: seq<Rule>, keys: seq<string>, name: string): (group: seq<Rule>)
    ensures forall r :: r in group ==> r in pool && SystemOf(keys, r.description) == name
    ensures NonEmptyRules(pool) ==> NonEmptyRules(group)
    ensures WellFormed(pool) ==> WellFormed(group)
  {
    if pool == [] then []
    else
      var rest := Group(pool[1..], keys, name);
      assert forall i :: 0 <= i < |pool| - 1 ==> pool[1..][i] == pool[i + 1];
      if SystemOf(keys, pool[0].description) == name then [pool[0]] + rest else rest
  }

  /** A group holds exactly the pool's rules of that system. */
  lemma {:induction false} GroupExact(pool: seq<Rule>, keys: seq<string>, name: string)
    ensures forall r :: r in Group(pool, keys, name) <==> r in pool && SystemOf(keys, r.description) == name
    ensures forall r :: r in SortedGroup(pool, keys, name) <==> r in pool && SystemOf(keys, r.description) == name
  {
    if pool != [] {
      GroupExact(pool[1..], keys, name);
      assert pool == [pool[0]] + pool[1..];
    }
    var group := Group(pool, keys, name);
    var sorted := SortedGroup(pool, keys, name);
    forall r ensures r in sorted <==> r in group {
      assert r in sorted <==> r in multiset(sorted);
      assert r in group <==> r in multiset(group);
    }
  }

  /** Each group re-sorted by (priority, synergy), as the source does before evaluating. */
  function SortedGroup(pool: seq<Rule>, keys: seq<string>, name: string): (group: seq<Rule>)
    ensures multiset(group) == multiset(Group(pool, keys, name))
  {
    KeyGreaterStrictTotal();
    SortDescCorrect(Group(pool, keys, name), RuleKey, KeyGreater);
    SortDesc(Group(pool, keys, name), RuleKey, KeyGreater)
  }

  lemma WellFormedPermutation(a: seq<Rule>, b: seq<Rule>)
    requires multiset(a) == multiset(b)
    ensures NonEmptyRules(a) ==> NonEmptyRules(b)
    ensures WellFormed(a) ==> WellFormed(b)
  {
    forall i | 0 <= i < |b| ensures b[i] in a {
      assert b[i] in multiset(b);
    }
  }

  /** The system pass: the groups other than the generic one, in order. */
  function SystemPass(ctx: Context, f: Fill, pool: seq<Rule>, keys: seq<string>, names: seq<string>): (cands: seq<Candidate>)
    requires NonEmptyRules(pool)
    ensures Scorable(cands)
    ensures forall c :: c in cands ==> Ready(ctx, f, c) && !c.each && SystemEligible(ctx, f, c.rule)
    ensures WellFormed(pool) ==> forall c :: c in cands ==> Distinct(c.required)
  {
    if names == [] then []
    else
      var rest := SystemPass(ctx, f, pool, keys, names[1..]);
      if names[0] == GENERIC then rest
      else
        var group := SortedGroup(pool, keys, names[0]);
        WellFormedPermutation(Group(pool, keys, names[0]), group);
        SystemCandidates(ctx, f, group) + rest
  }

  /** Everything the first pass of `optimize_workplace` evaluates, in evaluation order:
      nothing when no slot is free. */
  function FirstPassCandidates(ctx: Context, f: Fill, pool: seq<Rule>, keys: seq<string>): (cands: seq<Candidate>)
    requires NonEmptyRules(pool)
    ensures Scorable(cands)
    ensures forall c :: c in cands ==> Ready(ctx, f, c)
    ensures WellFormed(pool) ==> forall c :: c in cands ==> Distinct(c.required)
    ensures f.remaining <= 0 ==> cands == []
  {
    if f.remaining <= 0 then []
    else
      var generic := SortedGroup(pool, keys, GENERIC);
      WellFormedPermutation(Group(pool, keys, GENERIC), generic);
      SystemPass(ctx, f, pool, keys, GroupNames(pool, keys)) + GenericCandidates(ctx, f, generic)
  }

  /** What the generic pass and a refill round admit from `rules`: a whole rule that is not
      apply-each and passes the generic checks, or one operator of an apply-each rule that
      passes the checks for one operator. */
  predicate GenericCandidate(ctx: Context, f: Fill, rules: seq<Rule>, c: Candidate) {
    && c.rule in rules
    && |c.required| > 0
    && (if c.each then
          && c.rule.applyEach && |c.required| == 1 && c.required[0] in c.rule.operators
          && EachEligible(ctx, f, c.rule, c.required[0])
        else
          !c.rule.applyEach && c.required == c.rule.operators && GenericEligible(ctx, f, c.rule))
  }

  /** What the system pass admits from `rules`: whole rules passing the system checks. */
  predicate SystemCandidate(ctx: Context, f: Fill, rules: seq<Rule>, c: Candidate) {
    && c.rule in rules
    && |c.required| > 0
    && !c.each
    && c.required == c.rule.operators
    && SystemEligible(ctx, f, c.rule)
  }

  /** What the first pass admits from the pool: a rule of a named system as the system pass
      admits it, a rule of the generic group as the generic pass admits it. */
  predicate FirstPassCandidate(ctx: Context, f: Fill, pool: seq<Rule>, keys: seq<string>, c: Candidate) {
    if SystemOf(keys, c.rule.description) == GENERIC then GenericCandidate(ctx, f, pool, c)
    else SystemCandidate(ctx, f, pool, c)
  }

  lemma NonEmptyTail(rules: seq<Rule>)
    requires NonEmptyRules(rules) && rules != []
    ensures NonEmptyRules(rules[1..])
  {
    forall i | 0 <= i < |rules| - 1 ensures |rules[1..][i].operators| > 0 {
      assert rules[1..][i] == rules[i + 1];
    }
  }

  /** The generic candidates are exactly what the generic checks admit: none is missed and
      none is added. */
  lemma {:induction false} GenericCandidatesExact(ctx: Context, f: Fill, rules: seq<Rule>)
    requires NonEmptyRules(rules)
    ensures forall c :: c in GenericCandidates(ctx, f, rules) <==> GenericCandidate(ctx, f, rules, c)
  {
    if rules != [] {
      var r := rules[0];
      var tail := rules[1..];
      NonEmptyTail(rules);
      GenericCandidatesExact(ctx, f, tail);
      var own :=
        if r.applyEach then EachCandidates(ctx, f, r, r.operators)
        else if GenericEligible(ctx, f, r) then [Candidate(r, r.operators, false)]
        else [];
      assert GenericCandidates(ctx, f, rules) == own + GenericCandidates(ctx, f, tail);
      forall c ensures c in own <==> c.rule == r && GenericCandidate(ctx, f, rules, c) {
        if c.rule == r && GenericCandidate(ctx, f, rules, c) && c.each {
          assert c == Candidate(r, [c.required[0]], true);
        }
        if c in own && r.applyEach {
          var i :| 0 <= i < |own| && own[i] == c;
        }
      }
      assert forall x :: x in rules <==> x == r || x in tail by {
        assert rules == [r] + tail;
      }
    }
  }

  /** The system candidates of a group are exactly what the system checks admit. */
  lemma {:induction false} SystemCandidatesExact(ctx: Context, f: Fill, rules: seq<Rule>)
    requires NonEmptyRules(rules)
    ensures forall c :: c in SystemCandidates(ctx, f, rules) <==> SystemCandidate(ctx, f, rules, c)
  {
    if rules != [] {
      var r := rules[0];
      var tail := rules[1..];
      NonEmptyTail(rules);
      SystemCandidatesExact(ctx, f, tail);
      assert forall x :: x in rules <==> x == r || x in tail by {
        assert rules == [r] + tail;
      }
    }
  }

  /** The system pass over `names` yields exactly the admitted rules of the named systems
      other than the generic group. */
  lemma {:induction false} SystemPassExact(ctx: Context, f: Fill, pool: seq<Rule>, keys: seq<string>, names: seq<string>)
    requires NonEmptyRules(pool)
    ensures forall c :: c in SystemPass(ctx, f, pool, keys, names) <==>
      SystemOf(keys, c.rule.description) in names && SystemOf(keys, c.rule.description) != GENERIC &&
      SystemCandidate(ctx, f, pool, c)
  {
    if names != [] {
      SystemPassExact(ctx, f, pool, keys, names[1..]);
      assert forall g :: g in names <==> g == names[0] || g in names[1..] by {
        assert names == [names[0]] + names[1..];
      }
      if names[0] != GENERIC {
        var group := SortedGroup(pool, keys, names[0]);
        WellFormedPermutation(Group(pool, keys, names[0]), group);
        SystemCandidatesExact(ctx, f, group);
        GroupExact(pool, keys, names[0]);
        assert SystemPass(ctx, f, pool, keys, names) == SystemCandidates(ctx, f, group) + SystemPass(ctx, f, pool, keys, names[1..]);
      }
    }
  }

  /** The first pass evaluates exactly the candidates it admits: none is missed and none is
      added. */
  lemma FirstPassExact(ctx: Context, f: Fill, pool: seq<Rule>, keys: seq<string>)
    requires NonEmptyRules(pool)
    ensures forall c :: c in FirstPassCandidates(ctx, f, pool, keys) <==> FirstPassCandidate(ctx, f, pool, keys, c)
  {
    if f.remaining > 0 {
      var names := GroupNames(pool, keys);
      var generic := SortedGroup(pool, keys, GENERIC);
      WellFormedPermutation(Group(pool, keys, GENERIC), generic);
      SystemPassExact(ctx, f, pool, keys, names);
      GenericCandidatesExact(ctx, f, generic);
      GroupExact(pool, keys, GENERIC);
      forall c: Candidate | c.rule in pool ensures SystemOf(keys, c.rule.description) in names {
        var i :| 0 <= i < |pool| && pool[i] == c.rule;
      }
    }
  }

  /** The first pass applies the admitted candidate of highest score when that score is
      positive, and nothing exactly when no admitted candidate scores above zero. */
  lemma FirstPassChoice(ctx: Context, f: Fill, pool: seq<Rule>, keys: seq<string>)
    requires NonEmptyRules(pool)
    ensures var choice := Chosen(FirstPassCandidates(ctx, f, pool, keys));
      && (choice.None? <==> forall c :: FirstPassCandidate(ctx, f, pool, keys, c) ==> Score(c) <= 0.0)
      && (choice.Some? ==>
            && FirstPassCandidate(ctx, f, pool, keys, choice.value)
            && Score(choice.value) > 0.0
            && forall c :: FirstPassCandidate(ctx, f, pool, keys, c) ==> Score(c) <= Score(choice.value))
  {
    var cands := FirstPassCandidates(ctx, f, pool, keys);
    FirstPassExact(ctx, f, pool, keys);
    ChosenIsFirstBest(cands);
    forall c | FirstPassCandidate(ctx, f, pool, keys, c) ensures exists j :: 0 <= j < |cands| && cands[j] == c {
      assert c in cands;
    }
  }

  /** A refill round applies the admitted candidate of highest score when that score is
      positive, and nothing exactly when no admitted candidate scores above zero. */
  lemma RefillRoundChoice(ctx: Context, f: Fill, pool: seq<Rule>)
    requires NonEmptyRules(pool)
    ensures var choice := Chosen(GenericCandidates(ctx, f, pool));
      && (choice.None? <==> forall c :: GenericCandidate(ctx, f, pool, c) ==> Score(c) <= 0.0)
      && (choice.Some? ==>
            && GenericCandidate(ctx, f, pool, choice.value)
            && Score(choice.value) > 0.0
            && forall c :: GenericCandidate(ctx, f, pool, c) ==> Score(c) <= Score(choice.value))
  {
    var cands := GenericCandidates(ctx, f, pool);
    GenericCandidatesExact(ctx, f, pool);
    ChosenIsFirstBest(cands);
    forall c | GenericCandidate(ctx, f, pool, c) ensures exists j :: 0 <= j < |cands| && cands[j] == c {
      assert c in cands;
    }
  }

  /** The evaluation loop: the best candidate so far and its score, starting from no
      candidate and score -1, replaced only by a strictly higher score. */
  function Scan(cands: seq<Candidate>): (Option<Candidate>, real)
    requires Scorable(cands)
  {
    if cands == [] then (None, -1.0)
    else
      var (best, score) := Scan(cands[..|cands| - 1]);
      var c := cands[|cands| - 1];
      if Score(c) > score then (Some(c), Score(c)) else (best, score)
  }

  /** The scan finds the first candidate of maximal score, and its score is the maximum
      of -1 and all scores. */
  lemma {:induction false} ScanFirstMaximum(cands: seq<Candidate>)
    requires Scorable(cands)
    ensures var (best, score) := Scan(cands);
      && score >= -1.0
      && (forall j :: 0 <= j < |cands| ==> Score(cands[j]) <= score)
      && (best.None? <==> score == -1.0 && forall j :: 0 <= j < |cands| ==> Score(cands[j]) <= -1.0)
      && (best.Some? ==>
            exists i :: (0 <= i < |cands| && cands[i] == best.value && Score(cands[i]) == score &&
              (forall j :: 0 <= j < i ==> Score(cands[j]) < score)))
  {
    if cands != [] {
      var front := cands[..|cands| - 1];
      ScanFirstMaximum(front);
      var (b, s) := Scan(front);
      var c := cands[|cands| - 1];
      assert forall j :: 0 <= j < |front| ==> cands[j] == front[j];
      if Score(c) > s {
        assert cands[|cands| - 1] == c;
      } else if b.Some? {
        var i :| 0 <= i < |front| && front[i] == b.value && Score(front[i]) == s &&
          forall j :: 0 <= j < i ==> Score(front[j]) < s;
        assert cands[i] == b.value;
      }
    }
  }

  /** The candidate that gets applied: the scan's best, if its score is positive. */
  function Chosen(cands: seq<Candidate>): (c: Option<Candidate>)
    requires Scorable(cands)
    ensures c.Some? ==> c.value in cands && Score(c.value) > 0.0
  {
    ScanFirstMaximum(cands);
    var (best, score) := Scan(cands);
    if best.Some? && score > 0.0 then best else None
  }

  /** The applied candidate is the first one of maximal score, and its score is positive;
      when none is applied, no candidate has a positive score. */
  lemma ChosenIsFirstBest(cands: seq<Candidate>)
    requires Scorable(cands)
    ensures Chosen(cands).None? <==> forall j :: 0 <= j < |cands| ==> Score(cands[j]) <= 0.0
    ensures Chosen(cands).Some? ==>
      exists i :: (0 <= i < |cands| && cands[i] == Chosen(cands).value &&
        Score(cands[i]) > 0.0 &&
        (forall j :: 0 <= j < |cands| ==> Score(cands[j]) <= Score(cands[i])) &&
        (forall j :: 0 <= j < i ==> Score(cands[j]) < Score(cands[i])))
  {
    ScanFirstMaximum(cands);
    var (best, score) := Scan(cands);
    if best.Some? && score <= 0.0 {
      var i :| 0 <= i < |cands| && cands[i] == best.value && Score(cands[i]) == score;
      assert Score(cands[i]) <= 0.0;
    }
  }

  /** `operator_usage[n] += 1` for each placed name in turn. */
  function Bump(usage: map<string, int>, ops: seq<string>): map<string, int> {
    if ops == [] then usage
    else
      var u := Bump(usage, ops[..|ops| - 1]);
      var n := ops[|ops| - 1];
      u[n := UsageOf(u, n) + 1]
  }

  lemma {:induction false} BumpAppend(usage: map<string, int>, a: seq<string>, b: seq<string>)
    ensures Bump(usage, a + b) == Bump(Bump(usage, a), b)
  {
    if b != [] {
      assert (a + b)[..|a + b| - 1] == a + b[..|b| - 1];
      BumpAppend(usage, a, b[..|b| - 1]);
    } else {
      assert a + b == a;
    }
  }

  lemma {:induction false} BumpDomain(usage: map<string, int>, ops: seq<string>)
    ensures forall n :: n in Bump(usage, ops) <==> n in usage || n in ops
  {
    if ops != [] {
      BumpDomain(usage, ops[..|ops| - 1]);
      assert ops == ops[..|ops| - 1] + [ops[|ops| - 1]];
    }
  }

  /** Bumping counts one more for each placed name, leaves the others alone, and adds no key
      other than the placed names. */
  lemma {:induction false} BumpCounts(usage: map<string, int>, ops: seq<string>)
    requires Distinct(ops)
    ensures forall n :: n in ops ==> UsageOf(Bump(usage, ops), n) == UsageOf(usage, n) + 1
    ensures forall n :: n !in ops ==> UsageOf(Bump(usage, ops), n) == UsageOf(usage, n)
  {
    if ops != [] {
      var front := ops[..|ops| - 1];
      assert Distinct(front);
      BumpCounts(usage, front);
      assert ops == front + [ops[|ops| - 1]];
    }
  }

  function SetOf(s: seq<string>): set<string> {
    set n | n in s
  }

  /** How a placement is described among the applied combinations. */
  function Describe(c: Candidate): string {
    if c.each then c.rule.description + "(" + Join(c.required, ", ") + ")" else c.rule.description
  }

  /** Applying a candidate: place its operators, count a shift for each, spend its slots, add
      its synergy and its description, and collect its support requirements. */
  function Apply(f: Fill, c: Candidate): Fill {
    var added := SetOf(c.required);
    f.(usage := Bump(f.usage, c.required),
       shiftUsed := f.shiftUsed + added,
       usedNames := f.usedNames + added,
       placed := f.placed + c.required,
       remaining := f.remaining - |c.required|,
       synergy := f.synergy + c.rule.synergy,
       combinations := f.combinations + [Describe(c)],
       controlCenter := f.controlCenter + c.rule.controlCenter,
       dormitory := f.dormitory + c.rule.dormitory,
       powerStation := f.powerStation + c.rule.powerStation)
  }

  /** `optimize_workplace_recursive`: while slots are free, apply the best generic candidate
      over the whole pool; stop when none has a positive score. */
  function Refill(ctx: Context, pool: seq<Rule>, f: Fill): Fill
    requires NonEmptyRules(pool)
    decreases if f.remaining > 0 then f.remaining else 0
  {
    if f.remaining <= 0 then f
    else
      var cands := GenericCandidates(ctx, f, pool);
      var choice := Chosen(cands);
      if choice.None? then f
      else
        Refill(ctx, pool, Apply(f, choice.value))
  }

  /** One round of the refill: with a slot free and a best candidate of positive score,
      the refill continues from the fill with that candidate applied. */
  lemma RefillStep(ctx: Context, pool: seq<Rule>, f: Fill, c: Candidate)
    requires NonEmptyRules(pool) && f.remaining > 0
    requires Scan(GenericCandidates(ctx, f, pool)).0 == Some(c) && Scan(GenericCandidates(ctx, f, pool)).1 > 0.0
    ensures |c.required| > 0
    ensures Refill(ctx, pool, f) == Refill(ctx, pool, Apply(f, c))
  {
    var cands := GenericCandidates(ctx, f, pool);
    assert Chosen(cands) == Some(c);
  }

  /** The refill leaves a fill alone when no slot is free or no candidate scores above zero. */
  lemma RefillStop(ctx: Context, pool: seq<Rule>, f: Fill)
    requires NonEmptyRules(pool)
    requires f.remaining <= 0 || Scan(GenericCandidates(ctx, f, pool)).0.None? || Scan(GenericCandidates(ctx, f, pool)).1 <= 0.0
    ensures Refill(ctx, pool, f) == f
  {
    if f.remaining > 0 {
      var cands := GenericCandidates(ctx, f, pool);
      assert Chosen(cands).None?;
    }
  }

  /** The accumulators of a fill emptied, as a fresh call of the refill starts them. */
  function Restart(f: Fill): Fill {
    f.(synergy := 0.0, combinations := [], controlCenter := [], dormitory := [], powerStation := [])
  }

  /** The refill's contributions appended to those of the first pass. */
  function Merge(first: Fill, refill: Fill): Fill {
    refill.(synergy := first.synergy + refill.synergy,
            combinations := first.combinations + refill.combinations,
            controlCenter := first.controlCenter + refill.controlCenter,
            dormitory := first.dormitory + refill.dormitory,
            powerStation := first.powerStation + refill.powerStation)
  }

  /** After the first pass has applied its choice, if any. */
  function AfterFirstPass(ctx: Context, pool: seq<Rule>, keys: seq<string>, start: Fill): Fill
    requires NonEmptyRules(pool)
  {
    var choice := Chosen(FirstPassCandidates(ctx, start, pool, keys));
    if choice.Some? then Apply(start, choice.value) else start
  }

  /** `optimize_workplace` as a whole: the first pass, then the refill of the slots left. */
  function FillWorkplace(ctx: Context, pool: seq<Rule>, keys: seq<string>, start: Fill): Fill
    requires NonEmptyRules(pool)
  {
    var first := AfterFirstPass(ctx, pool, keys, start);
    if first.remaining > 0 then Merge(first, Refill(ctx, pool, Restart(first))) else first
  }

  /** A fresh fill of a workplace with `slots` slots. */
  function Start(usage: map<string, int>, shiftUsed: set<string>, slots: int): Fill {
    Fill(usage, shiftUsed, {}, [], slots, 0.0, [], [], [], [])
  }

  /** A start of a workplace fill: nothing placed, nothing collected. */
  predicate Fresh(s: Fill) {
    s.usedNames == {} && s.placed == [] && s.controlCenter == []
  }

  /** What every reachable fill satisfies relative to its fresh start. */
  ghost predicate Consistent(ctx: Context, s: Fill, f: Fill) {
    && f.usedNames == SetOf(f.placed)
    && f.shiftUsed == s.shiftUsed + SetOf(f.placed)
    && Distinct(f.placed)
    && (forall n :: n in f.placed ==>
          n !in s.shiftUsed && Owned(ctx.catalog, n) && UsageOf(s.usage, n) < MaxUsage(ctx, n))
    && f.usage == Bump(s.usage, f.placed)
    && f.remaining + |f.placed| == s.remaining
    && (f.placed != [] ==> f.remaining >= 0)
    && RequirementsMet(f.controlCenter, ctx.catalog)
  }

  lemma ConsistentStart(ctx: Context, s: Fill)
    requires Fresh(s)
    ensures Consistent(ctx, s, s)
  {
  }

  lemma DistinctAppend(a: seq<string>, b: seq<string>)
    requires Distinct(a) && Distinct(b) && forall n :: n in b ==> n !in a
    ensures Distinct(a + b)
  {
    forall i, j | 0 <= i < j < |a + b| ensures (a + b)[i] != (a + b)[j] {
      if i >= |a| {
        assert (a + b)[i] == b[i - |a|] && (a + b)[j] == b[j - |a|];
      } else if j >= |a| {
        assert (a + b)[j] == b[j - |a|] && (a + b)[j] in b;
      }
    }
  }

  /** Applying an admissible candidate keeps a fill consistent with its start. */
  lemma ApplyConsistent(ctx: Context, s: Fill, f: Fill, c: Candidate)
    requires Consistent(ctx, s, f) && Admissible(ctx, f, c)
    ensures Consistent(ctx, s, Apply(f, c))
  {
    var g := Apply(f, c);
    BumpAppend(s.usage, f.placed, c.required);
    BumpCounts(s.usage, f.placed);
    forall n | n in c.required
      ensures n !in f.placed && n !in s.shiftUsed && Owned(ctx.catalog, n) && UsageOf(s.usage, n) < MaxUsage(ctx, n)
    {
      var i :| 0 <= i < |c.required| && c.required[i] == n;
      assert Usable(ctx, f, c.required[i]);
    }
    DistinctAppend(f.placed, c.required);
    assert SetOf(g.placed) == SetOf(f.placed) + SetOf(c.required);
    RequirementsMetAppend(f.controlCenter, c.rule.controlCenter, ctx.catalog);
  }

  /** The refill keeps a fill consistent with its start. */
  lemma {:induction false} RefillConsistent(ctx: Context, pool: seq<Rule>, s: Fill, f: Fill)
    requires WellFormed(pool) && Consistent(ctx, s, f)
    ensures Consistent(ctx, s, Refill(ctx, pool, f))
    decreases if f.remaining > 0 then f.remaining else 0
  {
    if f.remaining > 0 {
      var cands := GenericCandidates(ctx, f, pool);
      var choice := Chosen(cands);
      if choice.Some? {
        ApplyConsistent(ctx, s, f, choice.value);
        RefillConsistent(ctx, pool, s, Apply(f, choice.value));
      }
    }
  }

  /** The refill stops only when no slot is free or no generic candidate of the whole pool
      has a positive score. */
  lemma {:induction false} RefillExhausts(ctx: Context, pool: seq<Rule>, f: Fill)
    requires NonEmptyRules(pool)
    ensures var g := Refill(ctx, pool, f);
      g.remaining <= 0 ||
      forall c :: c in GenericCandidates(ctx, g, pool) ==> Score(c) <= 0.0
    ensures var g := Refill(ctx, pool, f);
      g.remaining <= 0 ||
      forall c :: GenericCandidate(ctx, g, pool, c) ==> Score(c) <= 0.0
    decreases if f.remaining > 0 then f.remaining else 0
  {
    if f.remaining > 0 {
      var cands := GenericCandidates(ctx, f, pool);
      var choice := Chosen(cands);
      ChosenIsFirstBest(cands);
      if choice.Some? {
        RefillExhausts(ctx, pool, Apply(f, choice.value));
      } else {
        forall c | c in cands ensures Score(c) <= 0.0 {
          var j :| 0 <= j < |cands| && cands[j] == c;
        }
      }
    }
    GenericCandidatesExact(ctx, Refill(ctx, pool, f), pool);
  }

  lemma ConsistentRestart(ctx: Context, s: Fill, f: Fill)
    requires Consistent(ctx, s, f)
    ensures Consistent(ctx, s, Restart(f))
  {
  }

  /** The fill after the first pass, and the whole fill, are consistent with their start. */
  lemma FillWorkplaceConsistent(ctx: Context, pool: seq<Rule>, keys: seq<string>, s: Fill)
    requires WellFormed(pool) && Fresh(s)
    ensures Consistent(ctx, s, AfterFirstPass(ctx, pool, keys, s))
    ensures Consistent(ctx, s, FillWorkplace(ctx, pool, keys, s))
  {
    ConsistentStart(ctx, s);
    var cands := FirstPassCandidates(ctx, s, pool, keys);
    var first := AfterFirstPass(ctx, pool, keys, s);
    if Chosen(cands).Some? {
      ApplyConsistent(ctx, s, s, Chosen(cands).value);
    }
    if first.remaining > 0 {
      ConsistentRestart(ctx, s, first);
      RefillConsistent(ctx, pool, s, Restart(first));
      var g := Refill(ctx, pool, Restart(first));
      RequirementsMetAppend(first.controlCenter, g.controlCenter, ctx.catalog);
    }
  }

  /** The safety of a finished workplace fill `f` started with `slots` slots from `usage`
      and `shiftUsed`: the placed operators are distinct, owned, not already used this shift
      and below their daily maximum; there are no more of them than slots; the shift set and
      usage counts grow by exactly the placed names; and every collected control-centre
      requirement holds. */
  ghost predicate SafeFill(ctx: Context, usage: map<string, int>, shiftUsed: set<string>, slots: int, f: Fill) {
    && Distinct(f.placed)
    && |f.placed| <= (if slots > 0 then slots else 0)
    && f.remaining == slots - |f.placed|
    && (forall n :: n in f.placed ==>
          n !in shiftUsed && Owned(ctx.catalog, n) && UsageOf(usage, n) < MaxUsage(ctx, n))
    && f.shiftUsed == shiftUsed + SetOf(f.placed)
    && (forall n :: n in f.placed ==> UsageOf(f.usage, n) == UsageOf(usage, n) + 1)
    && (forall n :: n !in f.placed ==> UsageOf(f.usage, n) == UsageOf(usage, n))
    && (forall n :: n in f.usage <==> n in usage || n in f.placed)
    && RequirementsMet(f.controlCenter, ctx.catalog)
  }

  /** Every workplace fill is safe when no rule names an operator twice. */
  lemma FillWorkplaceSafe(ctx: Context, pool: seq<Rule>, keys: seq<string>, usage: map<string, int>, shiftUsed: set<string>, slots: int)
    requires WellFormed(pool)
    ensures SafeFill(ctx, usage, shiftUsed, slots, FillWorkplace(ctx, pool, keys, Start(usage, shiftUsed, slots)))
    ensures slots <= 0 ==> FillWorkplace(ctx, pool, keys, Start(usage, shiftUsed, slots)) == Start(usage, shiftUsed, slots)
  {
    var s := Start(usage, shiftUsed, slots);
    if slots <= 0 {
      assert FirstPassCandidates(ctx, s, pool, keys) == [];
    }
    FillWorkplaceConsistent(ctx, pool, keys, s);
    var f := FillWorkplace(ctx, pool, keys, s);
    BumpCounts(usage, f.placed);
    BumpDomain(usage, f.placed);
  }
}
