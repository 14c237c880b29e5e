/** `select_fiammetta_targets`: the boost operator (Fiammetta) restores up to three operators
    a day so that they can work a third shift. Targets are the qualifying operators of a fixed
    preference list, topped up with the best trading-station operators by summed per-slot
    synergy. */
module Boost {
  import opened Catalog
  import opened StableSort
  import opened Rules
  import opened Allocation

  /** The preference list, tried in this order. */
  const PREFERRED: seq<string> := ["巫恋", "龙舌兰", "但书"]

  /** The most targets chosen. */
  const MAX_TARGETS: int := 3

  /** A target must be in the catalog, owned and at elite 2 or more. */
  predicate Qualifies(catalog: OperatorTable, n: string) {
    n in catalog && catalog[n].own && catalog[n].elite >= 2
  }

  /** The qualifying names of `cands`, in their order. */
  function Preferred(catalog: OperatorTable, cands: seq<string>): (r: seq<string>)
    ensures |r| <= |cands|
    ensures forall n :: n in r <==> n in cands && Qualifies(catalog, n)
    ensures Distinct(cands) ==> Distinct(r)
  {
    if cands == [] then []
    else
      var init := cands[..|cands| - 1];
      var last := cands[|cands| - 1];
      assert Distinct(cands) ==> Distinct(init) && last !in init by {
        if Distinct(cands) {
          forall k | 0 <= k < |init| ensures init[k] != last {
            assert init[k] == cands[k];
          }
        }
      }
      assert forall n :: n in cands <==> n in init || n == last by {
        assert cands == init + [last];
      }
      Preferred(catalog, init) + (if Qualifies(catalog, last) then [last] else [])
  }

  /** The preferred targets keep the order of the preference list. */
  lemma {:induction false} PreferredKeepsOrder(catalog: OperatorTable, cands: seq<string>)
    ensures Distinct(cands) ==> InOrder(Preferred(catalog, cands), cands)
  {
    if cands != [] && Distinct(cands) {
      var init := cands[..|cands| - 1];
      var last := cands[|cands| - 1];
      var front := Preferred(catalog, init);
      assert cands == init + [last];
      assert Distinct(init) && last !in init by {
        forall i, j | 0 <= i < j < |cands| ensures cands[i] != cands[j] {
        }
      }
      PreferredKeepsOrder(catalog, init);
      assert forall k :: 0 <= k < |front| ==> front[k] in init by {
        forall k | 0 <= k < |front| ensures front[k] in init {
          assert front[k] in front;
        }
      }
      InOrderExtend(front, init, last, Qualifies(catalog, last));
    }
  }

  /** The share one operator earns from a rule: the rule's synergy over its group size. */
  function Share(r: Rule): real
    requires |r.operators| > 0
  {
    r.synergy / (|r.operators| as real)
  }

  /** The shares earned from rule `r` by the leading operators `ops` of its group, for the
      qualifying operators not already selected. */
  function RuleShares(catalog: OperatorTable, selected: seq<string>, r: Rule, ops: seq<string>): seq<(string, real)>
    requires ops <= r.operators
  {
    if ops == [] then []
    else
      var last := ops[|ops| - 1];
      RuleShares(catalog, selected, r, ops[..|ops| - 1]) +
        (if Qualifies(catalog, last) && last !in selected then [(last, Share(r))] else [])
  }

  /** The shares of one more name of the rule's group, after those already counted. */
  lemma RuleSharesNext(catalog: OperatorTable, selected: seq<string>, r: Rule, before: seq<(string, real)>, j: nat)
    requires j < |r.operators|
    ensures before + RuleShares(catalog, selected, r, r.operators[..j + 1]) ==
      before + RuleShares(catalog, selected, r, r.operators[..j]) +
      (if Qualifies(catalog, r.operators[j]) && r.operators[j] !in selected then [(r.operators[j], Share(r))] else [])
  {
    assert r.operators[..j + 1][..j] == r.operators[..j];
  }

  lemma {:induction false} RuleSharesFacts(catalog: OperatorTable, selected: seq<string>, r: Rule, ops: seq<string>)
    requires ops <= r.operators
    ensures forall k :: 0 <= k < |RuleShares(catalog, selected, r, ops)| ==>
      var n := RuleShares(catalog, selected, r, ops)[k].0;
      n in ops && Qualifies(catalog, n) && n !in selected
  {
    if ops != [] {
      var init := ops[..|ops| - 1];
      RuleSharesFacts(catalog, selected, r, init);
      var s := RuleShares(catalog, selected, r, ops);
      var head := RuleShares(catalog, selected, r, init);
      var last := ops[|ops| - 1];
      var tail := if Qualifies(catalog, last) && last !in selected then [(last, Share(r))] else [];
      assert s == head + tail;
      forall k | 0 <= k < |s| ensures s[k].0 in ops && Qualifies(catalog, s[k].0) && s[k].0 !in selected {
        if k < |head| {
          assert s[k] == head[k];
          assert head[k].0 in init && Qualifies(catalog, head[k].0) && head[k].0 !in selected;
          var m :| 0 <= m < |init| && init[m] == s[k].0;
          assert ops[m] == s[k].0;
        } else {
          assert s[k] == tail[k - |head|];
        }
      }
    }
  }

  /** The operators named by the trading-station rules among `rules`, in table order. */
  function TradingOperators(rules: seq<Rule>): seq<string> {
    if rules == [] then []
    else
      var last := rules[|rules| - 1];
      TradingOperators(rules[..|rules| - 1]) + (if last.workplaceType == TRADING then last.operators else [])
  }

  /** A name among the trading-station operators is in the group of some trading-station rule. */
  lemma {:induction false} TradingOperatorsFrom(rules: seq<Rule>, n: string)
    requires n in TradingOperators(rules)
    ensures exists i :: 0 <= i < |rules| && rules[i].workplaceType == TRADING && n in rules[i].operators
  {
    var init := rules[..|rules| - 1];
    var last := rules[|rules| - 1];
    if n in TradingOperators(init) {
      TradingOperatorsFrom(init, n);
      var i :| 0 <= i < |init| && init[i].workplaceType == TRADING && n in init[i].operators;
      assert rules[i] == init[i];
    } else {
      assert rules[|rules| - 1] == last;
    }
  }

  /** The shares earned from the trading-station rules among `rules`, in table order. */
  function Shares(catalog: OperatorTable, selected: seq<string>, rules: seq<Rule>): seq<(string, real)> {
    if rules == [] then []
    else
      var last := rules[|rules| - 1];
      Shares(catalog, selected, rules[..|rules| - 1]) +
        (if last.workplaceType == TRADING then RuleShares(catalog, selected, last, last.operators) else [])
  }

  /** Every share goes to a qualifying, unselected operator of a trading-station rule. */
  lemma {:induction false} SharesFacts(catalog: OperatorTable, selected: seq<string>, rules: seq<Rule>)
    ensures forall k :: 0 <= k < |Shares(catalog, selected, rules)| ==>
      var n := Shares(catalog, selected, rules)[k].0;
      Qualifies(catalog, n) && n !in selected && n in TradingOperators(rules)
  {
    if rules != [] {
      var init := rules[..|rules| - 1];
      var last := rules[|rules| - 1];
      SharesFacts(catalog, selected, init);
      var s := Shares(catalog, selected, rules);
      var head := Shares(catalog, selected, init);
      if last.workplaceType == TRADING {
        RuleSharesFacts(catalog, selected, last, last.operators);
      }
      var tail := if last.workplaceType == TRADING then RuleShares(catalog, selected, last, last.operators) else [];
      assert s == head + tail;
      assert TradingOperators(rules) == TradingOperators(init) + (if last.workplaceType == TRADING then last.operators else []);
      forall k | 0 <= k < |s|
        ensures Qualifies(catalog, s[k].0) && s[k].0 !in selected && s[k].0 in TradingOperators(rules)
      {
        if k < |head| {
          assert s[k] == head[k];
          assert Qualifies(catalog, head[k].0) && head[k].0 !in selected && head[k].0 in TradingOperators(init);
        } else {
          assert s[k] == tail[k - |head|];
          assert Qualifies(catalog, tail[k - |head|].0) && tail[k - |head|].0 !in selected && tail[k - |head|].0 in last.operators;
        }
      }
    }
  }

  /** The score dictionary: names in first-insertion order and their summed shares. */
  datatype Scores = Scores(order: seq<string>, total: map<string, real>)

  /** The names of a share list, in order. */
  function Names(shares: seq<(string, real)>): (r: seq<string>)
    ensures |r| == |shares| && forall k :: 0 <= k < |shares| ==> r[k] == shares[k].0
  {
    if shares == [] then [] else Names(shares[..|shares| - 1]) + [shares[|shares| - 1].0]
  }

  /** Summing shares into the dictionary, one at a time; a name enters the order the first
      time it earns a share. */
  function Accumulate(shares: seq<(string, real)>): Scores {
    if shares == [] then Scores([], map[])
    else
      var prev := Accumulate(shares[..|shares| - 1]);
      var last := shares[|shares| - 1];
      if last.0 in prev.total then Scores(prev.order, prev.total[last.0 := prev.total[last.0] + last.1])
      else Scores(prev.order + [last.0], prev.total[last.0 := last.1])
  }

  /** The order holds each name once and exactly the dictionary's keys, which are exactly
      the names that earned a share. */
  lemma {:induction false} AccumulateFacts(shares: seq<(string, real)>)
    ensures var acc := Accumulate(shares);
      && Distinct(acc.order)
      && (forall n :: n in acc.total <==> n in acc.order)
      && (forall n :: n in acc.order <==> n in Names(shares))
  {
    if shares != [] {
      var init := shares[..|shares| - 1];
      var last := shares[|shares| - 1];
      var prev := Accumulate(init);
      AccumulateFacts(init);
      assert Names(shares) == Names(init) + [last.0];
      if last.0 !in prev.total {
        var order := prev.order + [last.0];
        forall i, j | 0 <= i < j < |order| ensures order[i] != order[j] {
          assert order[i] == prev.order[i];
          if j < |prev.order| {
            assert order[j] == prev.order[j];
          }
        }
      }
    }
  }

  /** Where a name first occurs in a list. */
  function FirstIndex(s: seq<string>, n: string): (k: nat)
    requires n in s
    ensures k < |s| && s[k] == n && forall j :: 0 <= j < k ==> s[j] != n
  {
    if s[0] == n then 0 else 1 + FirstIndex(s[1..], n)
  }

  lemma FirstIndexAppend(s: seq<string>, t: seq<string>, n: string)
    requires n in s
    ensures n in s + t && FirstIndex(s + t, n) == FirstIndex(s, n)
  {
    var k := FirstIndex(s, n);
    assert (s + t)[k] == n;
  }

  /** Every name of `r` occurs in `s`, and `r` lists them in the order they first occur there. */
  predicate InOrder(r: seq<string>, s: seq<string>) {
    forall i, j :: 0 <= i < j < |r| ==>
      r[i] in s && r[j] in s && FirstIndex(s, r[i]) < FirstIndex(s, r[j])
  }

  /** Extending `s` by a name, and `r` by that name when it is new to `s`, keeps `r` in order. */
  lemma InOrderExtend(r: seq<string>, s: seq<string>, x: string, keep: bool)
    requires InOrder(r, s) && (keep ==> x !in s)
    requires forall k :: 0 <= k < |r| ==> r[k] in s
    ensures InOrder(r + (if keep then [x] else []), s + [x])
  {
    var r' := r + (if keep then [x] else []);
    forall n | n in s ensures n in s + [x] && FirstIndex(s + [x], n) == FirstIndex(s, n) {
      FirstIndexAppend(s, [x], n);
    }
    if keep {
      assert (s + [x])[|s|] == x;
      assert FirstIndex(s + [x], x) == |s|;
    }
    forall i, j | 0 <= i < j < |r'|
      ensures r'[i] in s + [x] && r'[j] in s + [x] && FirstIndex(s + [x], r'[i]) < FirstIndex(s + [x], r'[j])
    {
      assert r'[i] == r[i];
      if j < |r| {
        assert r'[j] == r[j];
      }
    }
  }

  /** The sum of the shares a name earned, in list order. */
  function SumFor(shares: seq<(string, real)>, n: string): real {
    if shares == [] then 0.0
    else
      var last := shares[|shares| - 1];
      SumFor(shares[..|shares| - 1], n) + (if last.0 == n then last.1 else 0.0)
  }

  /** A name's entry in the dictionary is the sum of all the shares it earned; a name
      without an entry earned nothing. */
  lemma {:induction false} AccumulateSums(shares: seq<(string, real)>)
    ensures var acc := Accumulate(shares);
      forall n :: (n in acc.total ==> acc.total[n] == SumFor(shares, n)) &&
                  (n !in acc.total ==> SumFor(shares, n) == 0.0)
  {
    if shares != [] {
      AccumulateSums(shares[..|shares| - 1]);
    }
  }

  /** The dictionary's order lists the names by where they first earned a share. */
  lemma {:induction false} AccumulateOrder(shares: seq<(string, real)>)
    ensures InOrder(Accumulate(shares).order, Names(shares))
  {
    if shares != [] {
      var init := shares[..|shares| - 1];
      var last := shares[|shares| - 1];
      var prev := Accumulate(init);
      var keep := last.0 !in prev.total;
      AccumulateOrder(init);
      AccumulateFacts(init);
      assert shares == init + [last];
      AccumulateStep(init, last);
      assert Accumulate(shares).order == prev.order + (if keep then [last.0] else []);
      assert Names(shares) == Names(init) + [last.0];
      assert forall k :: 0 <= k < |prev.order| ==> prev.order[k] in Names(init) by {
        forall k | 0 <= k < |prev.order| ensures prev.order[k] in Names(init) {
          assert prev.order[k] in prev.order;
        }
      }
      InOrderExtend(prev.order, Names(init), last.0, keep);
    }
  }

  /** The score of a name, as `op_scores.get` reads it for the keys it is given. */
  function ScoreOf(acc: Scores): string -> real {
    n => if n in acc.total then acc.total[n] else 0.0
  }

  function RealGreater(a: real, b: real): bool {
    a > b
  }

  lemma RealGreaterStrictTotal()
    ensures StrictTotal(RealGreater)
  {
  }

  /** The score dictionary built from the trading-station rules. */
  function Summed(catalog: OperatorTable, rules: seq<Rule>, selected: seq<string>): Scores {
    Accumulate(Shares(catalog, selected, rules))
  }

  /** The fallback candidates, best summed score first, ties in first-insertion order. */
  function Ranked(catalog: OperatorTable, rules: seq<Rule>, selected: seq<string>): seq<string> {
    var acc := Summed(catalog, rules, selected);
    SortDesc(acc.order, ScoreOf(acc), RealGreater)
  }

  /** The chosen targets: the qualifying preferred names, then the best ranked ones up to
      three in all. */
  function BoostTargets(catalog: OperatorTable, rules: seq<Rule>): seq<string> {
    Targets(catalog, rules, PREFERRED)
  }

  /** The targets for a preference list `preferred`. */
  function Targets(catalog: OperatorTable, rules: seq<Rule>, preferred: seq<string>): seq<string> {
    var selected := Preferred(catalog, preferred);
    var ranked := Ranked(catalog, rules, selected);
    selected + ranked[..Quota(|selected|, |ranked|)]
  }

  /** How many ranked names are taken after `picked` preferred ones. */
  function Quota(picked: nat, ranked: nat): (take: nat)
    ensures take <= ranked
    ensures picked + take <= MAX_TARGETS || take == 0
    ensures picked + take < MAX_TARGETS ==> take == ranked
  {
    var free := if picked < MAX_TARGETS then MAX_TARGETS - picked else 0;
    if ranked < free then ranked else free
  }

  /** One more share summed into the dictionary. */
  lemma AccumulateStep(shares: seq<(string, real)>, x: (string, real))
    ensures Accumulate(shares + [x]) ==
      if x.0 in Accumulate(shares).total
      then Scores(Accumulate(shares).order, Accumulate(shares).total[x.0 := Accumulate(shares).total[x.0] + x.1])
      else Scores(Accumulate(shares).order + [x.0], Accumulate(shares).total[x.0 := x.1])
  {
    assert (shares + [x])[..|shares|] == shares;
  }

  lemma PreferredDistinct()
    ensures Distinct(PREFERRED)
  {
  }

  /** A permutation of a sequence without repeats has none either. */
  lemma DistinctPermutation(a: seq<string>, b: seq<string>)
    requires Distinct(a) && multiset(a) == multiset(b)
    ensures Distinct(b)
  {
    DistinctCounts(a);
    forall i, j | 0 <= i < j < |b| ensures b[i] != b[j] {
      TwoCopies(b, i, j);
    }
  }

  lemma TwoCopies(b: seq<string>, i: int, j: int)
    requires 0 <= i < j < |b|
    ensures b[i] == b[j] ==> multiset(b)[b[i]] >= 2
  {
    assert b == b[..i] + [b[i]] + b[i + 1..j] + [b[j]] + b[j + 1..];
  }

  lemma {:induction false} DistinctCounts(a: seq<string>)
    requires Distinct(a)
    ensures forall x :: multiset(a)[x] <= 1
  {
    if a != [] {
      var init := a[..|a| - 1];
      assert Distinct(init) by {
        forall i, j | 0 <= i < j < |init| ensures init[i] != init[j] {
          assert init[i] == a[i] && init[j] == a[j];
        }
      }
      DistinctCounts(init);
      assert a == init + [a[|a| - 1]];
      assert a[|a| - 1] !in init by {
        forall k | 0 <= k < |init| ensures init[k] != a[|a| - 1] {
          assert init[k] == a[k];
        }
      }
    }
  }

  /** The ranked names are the names that earned a share, each once, in descending score
      order; each qualifies, is not preferred-selected, and comes from a trading-station rule. */
  lemma RankedFacts(catalog: OperatorTable, rules: seq<Rule>, selected: seq<string>)
    ensures SortedDesc(Ranked(catalog, rules, selected), ScoreOf(Summed(catalog, rules, selected)), RealGreater)
    ensures Distinct(Ranked(catalog, rules, selected))
    ensures forall n :: n in Ranked(catalog, rules, selected) <==> n in Summed(catalog, rules, selected).order
    ensures forall n :: n in Ranked(catalog, rules, selected) ==>
      Qualifies(catalog, n) && n !in selected && n in TradingOperators(rules)
  {
    var shares := Shares(catalog, selected, rules);
    var acc := Summed(catalog, rules, selected);
    var ranked := Ranked(catalog, rules, selected);
    AccumulateFacts(shares);
    SharesFacts(catalog, selected, rules);
    RealGreaterStrictTotal();
    SortDescPermutes(acc.order, ScoreOf(acc), RealGreater);
    DistinctPermutation(acc.order, ranked);
    forall n ensures n in ranked <==> n in acc.order {
      assert n in ranked <==> n in multiset(ranked);
      assert n in acc.order <==> n in multiset(acc.order);
    }
    forall n | n in ranked
      ensures Qualifies(catalog, n) && n !in selected && n in TradingOperators(rules)
    {
      var k :| 0 <= k < |shares| && Names(shares)[k] == n;
    }
  }

  /** Appending the first `take` elements of a descending sequence to a disjoint prefix:
      the result has no repeats, the appended part is in descending order, no element left
      out is greater than one taken, and taking all leaves none out. */
  lemma TakeRanked(selected: seq<string>, ranked: seq<string>, key: string -> real, take: nat)
    requires take <= |ranked|
    requires Distinct(selected) && Distinct(ranked) && forall n :: n in ranked ==> n !in selected
    requires SortedDesc(ranked, key, RealGreater)
    ensures var r := selected + ranked[..take];
      && Distinct(r)
      && r[..|selected|] == selected
      && r[|selected|..] == ranked[..take]
      && (forall n :: n in r ==> n in selected || n in ranked)
      && (forall i, j :: |selected| <= i < j < |r| ==> key(r[j]) <= key(r[i]))
      && (forall n, m :: n in ranked && n !in r && m in r[|selected|..] ==> key(n) <= key(m))
      && (take == |ranked| ==> forall n :: n in ranked ==> n in r)
  {
    var r := selected + ranked[..take];
    assert r[|selected|..] == ranked[..take];
    forall i, j | 0 <= i < j < |r| ensures r[i] != r[j] {
      if j < |selected| {
        assert r[i] == selected[i] && r[j] == selected[j];
      } else if i < |selected| {
        assert r[i] == selected[i] && r[j] == ranked[j - |selected|];
        assert ranked[j - |selected|] in ranked;
      } else {
        assert r[i] == ranked[i - |selected|] && r[j] == ranked[j - |selected|];
      }
    }
    forall i, j | |selected| <= i < j < |r| ensures key(r[j]) <= key(r[i]) {
      assert r[i] == ranked[i - |selected|] && r[j] == ranked[j - |selected|];
      assert !RealGreater(key(ranked[j - |selected|]), key(ranked[i - |selected|]));
    }
    forall p | 0 <= p < take ensures ranked[p] in r {
      assert r[|selected| + p] == ranked[p];
    }
    forall n, m | n in ranked && n !in r && m in r[|selected|..] ensures key(n) <= key(m) {
      var p :| 0 <= p < |ranked| && ranked[p] == n;
      var q :| 0 <= q < take && ranked[..take][q] == m;
      assert !RealGreater(key(ranked[p]), key(ranked[q]));
    }
  }

  /** The targets are at most three distinct qualifying names; the qualifying preferred names
      come first, in preference order; every qualifying preferred name is a target; the rest
      each come from some trading-station rule, in descending order of summed share; a name
      that earned a share but was left out scores no more than any of them; and fewer than
      three targets means every name that earned a share is a target. */
  lemma TargetsCorrect(catalog: OperatorTable, rules: seq<Rule>, preferred: seq<string>, r: seq<string>)
    requires Distinct(preferred) && |preferred| <= MAX_TARGETS
    requires r == Targets(catalog, rules, preferred)
    ensures |r| <= MAX_TARGETS
    ensures Distinct(r)
    ensures forall n :: n in r ==> Qualifies(catalog, n)
    ensures r[..|Preferred(catalog, preferred)|] == Preferred(catalog, preferred)
    ensures forall n :: n in preferred && Qualifies(catalog, n) ==> n in r
    ensures forall n :: n in r[|Preferred(catalog, preferred)|..] ==> n in TradingOperators(rules)
    ensures forall i, j :: |Preferred(catalog, preferred)| <= i < j < |r| ==>
      ScoreOf(Summed(catalog, rules, Preferred(catalog, preferred)))(r[j]) <=
      ScoreOf(Summed(catalog, rules, Preferred(catalog, preferred)))(r[i])
    ensures forall n, m ::
      (n in Summed(catalog, rules, Preferred(catalog, preferred)).order && n !in r &&
       m in r[|Preferred(catalog, preferred)|..]) ==>
      ScoreOf(Summed(catalog, rules, Preferred(catalog, preferred)))(n) <=
      ScoreOf(Summed(catalog, rules, Preferred(catalog, preferred)))(m)
    ensures |r| < MAX_TARGETS ==> forall n :: n in Summed(catalog, rules, Preferred(catalog, preferred)).order ==> n in r
  {
    var selected := Preferred(catalog, preferred);
    var acc := Summed(catalog, rules, selected);
    var ranked := Ranked(catalog, rules, selected);
    var take := Quota(|selected|, |ranked|);
    RankedFacts(catalog, rules, selected);
    TakeRanked(selected, ranked, ScoreOf(acc), take);
  }
}
