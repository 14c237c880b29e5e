# auto-infrast shift planner in Dafny

This project models the core of `infrast.py` from auto-infrast. That file is a
deterministic, greedy planner for a game base. It staffs trading stations,
manufacturing stations, the meeting room and the power stations for three shifts a
day. Its inputs are an operator catalog, a book of operator-combination rules and a
product configuration.

The model has four parts.

- **Rule compiler** (`rules.dfy`, with `text.dfy` and `stable_sort.dfy`).
  - `load_efficiency_rules` and `parse_operator_string` turn the nested rule book into a flat rule table.
  - The book is a sequence of categories. Each category holds systems, and a system is either a plain rule list or a base-combo system.
  - Compilation is a function that returns `Result`. A malformed tier, a missing `combo` or a missing `efficiency` is an error.
  - `LoadEfficiencyRules` is the appending loop. It is proved equal to the compiled table sorted stably by `(priority, synergy)` in descending order.
- **Eligibility and the greedy fill of one workplace** (`catalog.dfy`, `allocation.dfy`, `planner.dfy`).
  - The `check_*` predicates and `get_workplace_type` are functions.
  - `optimize_workplace` and `optimize_workplace_recursive` are methods of the `Optimizer` class. They update a `Ledger` in place: `operator_usage` and `shift_used_names`.
  - They also update a `Placement`: `assigned_ops` and `used_names`. It is shared with the refill, just as the source shares the lists.
  - Each method is proved against a specification function, `FillWorkplace` or `Refill`, whose safety is proved separately.
- **Boost-target selection** (`boost.dfy`, `planner.dfy`).
  - `select_fiammetta_targets` takes the qualifying preferred operators first.
  - It then takes operators ranked by summed per-slot synergy over the trading-station rules, up to three in all.
- **Shift scheduler** (`schedule.dfy`, `planner.dfy`).
  - `get_optimal_assignments` spreads product tags over the stations once.
  - It then plans three shifts. Each shift visits trading, then manufacturing, then the meeting room, then power.
  - Control-centre and dormitory operators are admitted into per-shift sets.
  - `GetOptimalAssignments` is proved equal to the function `DayPlans`. `DayPlansSafe` then proves the following about `DayPlans`:
    - there are three plans;
    - no operator is used twice in a shift;
    - rooms fit their stations;
    - only owned operators are used;
    - no operator works more shifts than its cap (three for a boost target, two otherwise).

Efficiencies are `real` and priorities `int`. Operators are referred to by name throughout.

## Model

| member | source | states |
|---|---|---|
| Text.TrimStart | infrast.py:131 | `lstrip` removes exactly the leading white space: the result is a suffix, every dropped character is white space, and the result does not start with white space |
| Text.TrimEnd | infrast.py:131 | `rstrip` removes exactly the trailing white space, symmetrically |
| Text.StripFixed | infrast.py:131-133 | a string with no white space at either end is its own strip, and strip is idempotent |
| Text.ContainsOccurs | infrast.py:470-475 | Python's `sub in s` holds iff `sub` occurs at some offset of `s` |
| Text.IndexOf | infrast.py:129-130 | the split point of `split('/', 1)`: `None` iff `/` is absent; otherwise the first `/` |
| Text.FirstField | infrast.py:374 | `split('_')[0]` is the prefix before the first `_`, and all of the id when there is none |
| Text.IntRoundTrip | infrast.py:131 | `int(str(k)) == k` for every integer `k` |
| Text.IntToStringPlain | infrast.py:131 | printed integers contain no `/` and no surrounding white space, so they survive the split and the strip |
| Catalog.RequirementsMet | infrast.py:327-355 | the control-centre, dormitory and power-station checks hold iff every requirement names a catalog operator that is owned at the required elite (so an empty list holds) |
| Catalog.RequirementsMetAppend | infrast.py:640-642 | requirement lists collected from several rules hold together iff each one holds |
| Catalog.ByNameLookup | infrast.py:440 | `op_by_name` has exactly the names of the listed operators, and with distinct names maps each to its record |
| Catalog.EliteSatisfiedPerOperator | infrast.py:317-325 | `check_elite_requirements` holds iff every listed operator with an override has at least that elite; names not listed are unconstrained |
| Catalog.WorkplaceTypeKnown | infrast.py:364-374 | an id is classified as one of the four station types iff it contains one of the four keywords |
| StableSort.SortDescCorrect | infrast.py:253 | `sort(key, reverse=True)` gives a descending, permuted sequence that keeps the relative order of elements with equal keys |
| StableSort.SortDescOfSorted | infrast.py:482-483 | re-sorting an already sorted group changes nothing |
| Rules.ParseOperatorStringRoundTrip | infrast.py:128-133 | `"name/k"` parses to `(name, k)` for a stripped name without `/` |
| Rules.ParseNameAndTier | infrast.py:128-133 | for any name part without `/`, `name/text` parses to the stripped name and the integer `int(text.strip())` denotes, and fails with `BadTier` when `text` is no integer |
| Rules.ParseWithoutSlash | infrast.py:128-133 | a token without `/` parses to its stripped self at tier 0 |
| Rules.ParseTokensFacts | infrast.py:142-146 | a token list parses iff every token parses, and then the `i`-th result is the `i`-th token's parse |
| Rules.LastPositiveTier | infrast.py:145-146 | a name has a positive tier iff some token gives it one |
| Rules.OverridesLookup | infrast.py:142-146 | a name gets an elite override iff some token gives it a tier > 0; the last such token wins |
| Rules.ComboOverrideShadowsBase | infrast.py:196-210 | in a base-combo rule, the rule's own positive tier for a name replaces the base combo's |
| Rules.ProductsOf | infrast.py:167-169 | an absent product is `[]`, and a string product becomes a one-element list |
| Rules.CompileListEntry | infrast.py:139-185 | a plain-list rule compiles iff its combo, all three support lists, its product and its `efficiency` are present and well formed. The compiled rule keeps the type, synergy, apply-each flag and priority; operator `i` is token `i`'s name; every override names an operator with tier > 0 |
| Rules.CompileListEntryFields | infrast.py:139-185 | a compiled plain-list rule's overrides are those of its combo, each support list is the parse of its own field, the products are its product field's, and the description is the single-operator text for an apply-each rule, else the system name and operators |
| Rules.CompileBaseEntry | infrast.py:202-251 | a base-combo rule compiles under the same conditions. Its operators are the base names followed by its own; its overrides are the base's shadowed by its own; without its own product it inherits the system's |
| Rules.CompileBaseEntryFields | infrast.py:202-251 | a compiled base-combo rule keeps the apply-each flag, priority and each parsed support list. Its own product string or list wins; with an unusable one it inherits the system's. The description is the system name and operators |
| Rules.AppendSystem | infrast.py:136-251 | the loop over one system's rules appends exactly that system's compiled rules, or fails with the first error |
| Rules.AppendCategory | infrast.py:135-251 | the loop over one category's systems appends exactly that category's compiled rules, or fails with the first error |
| Rules.LoadEfficiencyRules | infrast.py:125-258 | loading fails iff compilation fails, with the same error. Otherwise the table is the compiled book sorted descending by `(priority, synergy)`: a permutation that keeps equal keys in book order |
| Allocation.MaxUsage | infrast.py:505 | the cap is 3 exactly for a boost target in a trading station, else 2 |
| Allocation.Pool | infrast.py:443-465 | the rules considered are exactly those of the workplace's type whose product list is empty or holds the current product |
| Allocation.SystemOf | infrast.py:470-475 | a rule is grouped under a system key its description contains when there is one, else under the generic group |
| Allocation.SystemOfFirst | infrast.py:470-475 | that key is the first contained one in key order |
| Allocation.GroupNames | infrast.py:468-479 | the groups are distinct and are exactly the groups some pool rule falls into |
| Allocation.Group | infrast.py:477-479 | a group holds only pool rules that fall into it |
| Allocation.GroupExact | infrast.py:468-483 | a group, and its sorted copy, holds exactly the pool rules that fall into it |
| Allocation.SortedGroup | infrast.py:482-483 | each group is re-sorted as a permutation of itself |
| Allocation.SystemCandidates | infrast.py:494-557 | system-pass candidates are whole rules that fit the free slots. All their operators are owned, unused here and this shift, and below the cap; elite, control-centre, dormitory and power-station checks pass |
| Allocation.EachCandidates | infrast.py:565-591 | apply-each candidates are exactly the single eligible operators of the rule |
| Allocation.GenericCandidates | infrast.py:559-619 | generic and refill candidates fit the free slots and come from the pool (the dormitory and power checks are skipped, as in the source) |
| Allocation.GenericCandidatesExact | infrast.py:559-619 | the generic candidates are exactly the whole non-apply-each rules that pass the generic checks and, for each apply-each rule, exactly its operators that pass the one-operator checks |
| Allocation.SystemCandidatesExact | infrast.py:494-557 | the system candidates of a group are exactly its whole rules that pass the system checks |
| Allocation.SystemPass | infrast.py:489-557 | every system-pass candidate passes the system checks |
| Allocation.SystemPassExact | infrast.py:489-557 | the system pass yields exactly the rules of the named non-generic groups that pass the system checks |
| Allocation.FirstPassCandidates | infrast.py:486-619 | every first-pass candidate is ready to apply, and none are evaluated when no slot is free |
| Allocation.FirstPassExact | infrast.py:486-619 | the first pass evaluates exactly the system-group rules passing the system checks and the generic-group candidates passing the generic checks: none missed, none added |
| Allocation.FirstPassChoice | infrast.py:486-642 | the first pass applies an admitted candidate, elite check included, whose positive score no admitted candidate beats; it applies nothing iff no admitted candidate scores above zero |
| Allocation.RefillRoundChoice | infrast.py:698-789 | each refill round applies an admitted generic candidate, elite check included, whose positive score no admitted candidate beats; it applies nothing iff none scores above zero |
| Allocation.ScanFirstMaximum | infrast.py:548-557 | the evaluation loop keeps the first candidate of maximal score; its score bounds all others |
| Allocation.Chosen | infrast.py:622 | the applied candidate is one of those evaluated and scores above zero |
| Allocation.ChosenIsFirstBest | infrast.py:621-622 | nothing is applied iff no candidate scores above zero; otherwise the first candidate of maximal score is |
| Allocation.BumpCounts | infrast.py:626-630 | each placed name's usage rises by exactly 1, and the others are unchanged |
| Allocation.ApplyConsistent | infrast.py:621-642 | applying an eligible candidate keeps the placed names distinct, owned, new to the shift and under their cap; usage and shift set grow by exactly the placed names; slots plus placed stay constant |
| Allocation.RefillStep | infrast.py:698-786 | a refill round with a positive best candidate applies it and continues |
| Allocation.RefillStop | infrast.py:787-789 | the refill stops when no slot is free or no candidate scores above zero |
| Allocation.RefillExhausts | infrast.py:698-789 | when the refill ends, either no slot is free or no generic candidate, and no candidate the generic checks admit, scores above zero |
| Allocation.RefillConsistent | infrast.py:698-789 | the refill keeps the fill consistent with its start |
| Allocation.FillWorkplaceConsistent | infrast.py:433-676 | the first pass and the whole workplace fill stay consistent with their start |
| Allocation.FillWorkplaceSafe | infrast.py:433-676 | a workplace fill places distinct, owned operators, new to the shift, each below its cap and no more than the slots. It counts each once more in usage and adds each to the shift set; collected control-centre requirements hold. With no slot the fill is left as it started: nothing placed, synergy 0 |
| Boost.Preferred | infrast.py:940-946 | the preference pass keeps exactly the qualifying preferred names, without repeats when the list has none |
| Boost.PreferredKeepsOrder | infrast.py:940-946 | the kept names are in preference-list order |
| Boost.RuleSharesFacts | infrast.py:951-955 | every share from one rule goes to a qualifying, unselected operator of that rule |
| Boost.SharesFacts | infrast.py:949-955 | every share goes to a qualifying, unselected operator of a trading-station rule |
| Boost.AccumulateFacts | infrast.py:950-955 | the score dictionary's order has each name once and exactly its keys, which are the names that earned a share |
| Boost.AccumulateSums | infrast.py:950-955 | each name's score is the sum of all the shares it earned; a name without an entry earned none |
| Boost.AccumulateOrder | infrast.py:950-956 | the dictionary's order lists the names by where they first earned a share |
| Boost.Quota | infrast.py:957-960 | the ranked names taken never bring the total above three, and all are taken while below three |
| Boost.RankedFacts | infrast.py:956 | ranking gives the scored names, each once, by descending score |
| Boost.TargetsCorrect | infrast.py:938-961 | the targets are at most three distinct qualifying names. The qualifying preferred names come first in preference order, followed by trading-rule operators by descending score. No operator left out scores above one taken, and all are taken when fewer than three |
| Schedule.Repeat | infrast.py:818 | `[product] * count` has `max(count, 0)` copies of the product |
| Schedule.ExpandFacts | infrast.py:816-818 | the expansion lists as many products as the counts demand, each with a positive count |
| Schedule.WithProducts | infrast.py:819-820 | station `i` gets the `i`-th expanded product, or `""` past the end; all else unchanged |
| Schedule.RoomOf | infrast.py:868-872 | a room lists the placed operators and is autofilled exactly when none were placed |
| Schedule.TargetOf | infrast.py:839-840 | the shift's target is `""` without targets, else one of them |
| Schedule.AdmitFacts | infrast.py:875-885 | admitting support adds exactly the operators new to the shift, each listed with usage < 2 and counted once more. A failure names an operator missing from the usage map (the source's `KeyError`) |
| Schedule.AdmitControlStep | infrast.py:875-879 | control-centre admission keeps the shift invariant |
| Schedule.AdmitDormitoryStep | infrast.py:881-885 | dormitory admission keeps the shift invariant |
| Schedule.VisitSafe | infrast.py:866-885 | visiting a station keeps the shift invariant, and its room fits the station |
| Schedule.ProductionSafe | infrast.py:865-907 | visiting the trading or manufacturing stations keeps the shift invariant, and their rooms fit their stations |
| Schedule.PowerPassSafe | infrast.py:926-932 | filling the power stations keeps the shift invariant, and their rooms fit |
| Schedule.ShiftTail | infrast.py:919-933 | after the meeting room and power, the shift plan is safe and its usage counted |
| Schedule.PlanShiftSafe | infrast.py:838-933 | a shift plan uses nobody twice, fits its stations, and is named and boosted for its shift. Each member was owned and below its cap and is counted once more; a failure names an unowned operator |
| Schedule.DaySafe | infrast.py:838-934 | a run of safe shifts yields one safe plan per shift, and each count grows by the plans using the operator |
| Schedule.ShiftsSafe | infrast.py:838-934 | the base's shifts are safe shift by shift |
| Schedule.DayPlanSafe | infrast.py:836-934 | from every owned operator unused, three safe plans, each operator within its cap |
| Schedule.DayTargetsCorrect | infrast.py:808-813 | the day's targets are at most three distinct qualifying names, chosen only when boosting is enabled and the boost operator available |
| Schedule.DayPlansSafe | infrast.py:800-936 | the day's plan has three shifts. Each uses nobody twice and fits the stocked stations; only owned operators are used, none on more shifts than its cap; a failure names an unowned operator |
| Planner.Ledger.constructor | infrast.py:836 | the usage map starts as given, with an empty shift set |
| Planner.Placement.constructor | infrast.py:454-455 | a fill starts with nobody placed |
| Planner.PickBest | infrast.py:548-557 | the evaluation loop computes `Scan`: its best is among the candidates and scores the maximum, which bounds every candidate |
| Planner.Place | infrast.py:626-630 | the placing loop appends the operators, adds them to both name sets and bumps their usage |
| Planner.ApplyCandidate | infrast.py:621-642 | applying a candidate moves the fill state to `Apply` of it |
| Planner.Optimizer.constructor | infrast.py:76-94 | the planner holds the catalog, the rule table loaded and sorted from the book, the workplaces, no targets and the configuration |
| Planner.Optimizer.OptimizeWorkplaceRecursive | infrast.py:678-798 | the loop leaves the ledger and placement as `Refill` says, and returns an empty operator list with the refill's totals |
| Planner.Optimizer.FirstPass | infrast.py:453-642 | the first pass leaves the fill as `AfterFirstPass` says |
| Planner.Optimizer.OptimizeWorkplace | infrast.py:433-676 | the ledger ends as `FillWorkplace` says. The result reports that fill's operators (those the refill appended included), synergy and collected requirements, with total efficiency equal to base plus synergy |
| Planner.Optimizer.SelectFiammettaTargets | infrast.py:938-961 | the loops compute `BoostTargets`: at most three distinct qualifying names |
| Planner.Optimizer.VisitStation | infrast.py:866-885 | one station's fill and support admission compute `Visit` and leave the ledger at its bookkeeping |
| Planner.Optimizer.ProduceAll | infrast.py:865-907 | the station loop computes `Production` |
| Planner.Optimizer.PowerAll | infrast.py:926-932 | the power loop computes `PowerPass` |
| Planner.Optimizer.PlanOneShift | infrast.py:838-933 | one shift computes `PlanShift` from the usage before it |
| Planner.Optimizer.PlanShifts | infrast.py:838-934 | the shift loop computes the plans of `Shifts` for the three shifts, stopping at the first failure |
| Planner.Optimizer.GetOptimalAssignments | infrast.py:800-936 | sets the day's targets and the stocked stations, and returns `DayPlans`. With well-formed rules: three plans, each operator within its cap, and failure only on an unowned operator |
| Planner.QualifyingPreferred | infrast.py:940-946 | the preference loop computes `Preferred` |
| Planner.SumShares | infrast.py:949-955 | the scoring loops compute the summed score dictionary |
| Planner.AddRuleShares | infrast.py:952-955 | the inner scoring loop adds one rule's shares to the dictionary |
| Planner.AdmitSupport | infrast.py:875-885 | the admission loop computes `Admit`, and the ledger ends at its bookkeeping |
| Planner.ExpandProducts | infrast.py:816-818 | the expansion loop computes `Expand` |
| Planner.AssignProducts | infrast.py:819-820 | the assignment loop computes `WithProducts` |

## Left out

- JSON loading and the entry point (`load_json`, the constructor's file reads, the `__main__` block). The catalog, rule book, workplaces and configuration are parameters.
- `load_operators` and `load_workplaces` are not modelled; their results are parameters. `get_available_operators` is the `Owned` predicate over the catalog.
- The plan dictionary's layout is left out: titles, descriptions, the `hire` and `processing` stubs, the autofilled dormitory rooms and `order: "pre"`. A shift plan holds its name, the boost setting and target, the rooms' operators, autofill flags and products, and the control-centre and dormitory sets.
- Control-centre and dormitory operators are kept as sets. The source turns them into lists with `list(set)`, whose order depends on hashing.
- `serialize_assignment_result`, `display_optimal_assignments`, the `print_*` methods and every debug branch: output only.
- Floating point: efficiencies and scores are exact `real`s, so rounding in `synergy / len` is not modelled.
- `calculate_combination_efficiency` is not part of this model: nothing in the file calls it.
- `int()` accepts an optional sign and ASCII digits with single underscores between digits; non-ASCII Unicode digits are not modelled.
- A `product` value that is neither a string nor a list fails compilation with `UnsupportedProduct`. The exception is a base-combo rule, which falls back to its system's product; the source keeps such a value as it is.
- A missing `trading_stations` or `manufacturing_stations` key in `product_requirements` is not modelled: requirements always carry both lists.
- The rule-book categories and systems are sequences of pairs, in the JSON's key order; duplicate keys are not modelled.
- Planner.Optimizer.constructor: requires the rule book to compile; the source's constructor raises in that case instead.
- Planner.Optimizer.OptimizeWorkplace: requires every rule to name an operator (`NonEmptyRules`), because the source divides by the group size. Its safety is stated by `Allocation.FillWorkplaceSafe` about the function it computes.
- Planner.Optimizer.GetOptimalAssignments: requires `NonEmptyRules`; its safety clauses assume in addition that no rule names an operator twice (`WellFormed`).
- Schedule.DayPlansSafe: assumes `WellFormed` rules; a rule naming an operator twice would have it placed twice in one room.
- The `KeyError` a support requirement can raise is modelled as an `Err` carrying the operator's name. The source's `operator_usage[name] += 1` fails for an operator missing from the usage map (lines 879 and 885).
- Boost enabling is a plain boolean taken from the configuration; the configuration's other keys are not modelled.
- Text.ParseInt: its contract only says a parse needs a non-empty string. What it accepts is stated through `Text.IntRoundTrip` and `Rules.ParseNameAndTier`.
- Allocation.FillWorkplaceSafe: states no elite clause about the placed operators, because a fill records their names and not the rules that placed them. The elite check of every applied candidate is stated by `Allocation.FirstPassChoice` and `Allocation.RefillRoundChoice`, and `Allocation.RefillStep` ties each refill round to its chosen candidate.
