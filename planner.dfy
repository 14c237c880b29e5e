/** The planner object (the source's `WorkplaceOptimizer`): it owns the catalog, the
    compiled rule table, the workplaces and the boost targets, and fills workplaces by
    mutating the shared usage bookkeeping. */
module Planner {
  import opened Results
  import opened Text
  import opened Catalog
  import opened StableSort
  import opened Rules
  import opened Allocation
  import opened Boost
  import opened Schedule

  /** What `optimize_workplace` reports for one workplace. Operators are reported by name. */
  datatype Assignment = Assignment(
    workplace: Workplace,
    operators: seq<string>,
    totalEfficiency: real,
    operatorEfficiency: real,
    combinations: seq<string>,
    controlCenter: seq<Requirement>,
    dormitory: seq<Requirement>,
    powerStation: seq<Requirement>)

  /** What `optimize_workplace_recursive` returns; its operators reach the caller through
      the shared placement instead, so `operators` is always empty. */
  datatype RefillResult = RefillResult(
    operators: seq<string>,
    totalSynergy: real,
    combinations: seq<string>,
    controlCenter: seq<Requirement>,
    dormitory: seq<Requirement>,
    powerStation: seq<Requirement>)

  /** `operator_usage` and `shift_used_names`: shared by every workplace fill of a planning
      run (usage) or of a shift (shift set), and updated in place. */
  class Ledger {
    var usage: map<string, int>
    var shiftUsed: set<string>

    constructor (usage: map<string, int>)
      ensures this.usage == usage && shiftUsed == {}
    {
      this.usage := usage;
      shiftUsed := {};
    }
  }

  /** `assigned_ops` and `used_names` of one workplace fill, shared with the refill. */
  class Placement {
    var placed: seq<string>
    var usedNames: set<string>

    constructor ()
      ensures placed == [] && usedNames == {}
    {
      placed := [];
      usedNames := {};
    }
  }

  /** The evaluation loop over the candidates: keeps the first candidate of strictly
      highest score, starting from none at -1. */
  method PickBest(cands: seq<Candidate>) returns (best: Option<Candidate>, bestScore: real)
    requires Scorable(cands)
    ensures (best, bestScore) == Scan(cands)
    ensures bestScore >= -1.0 && forall c :: c in cands ==> Score(c) <= bestScore
    ensures best.Some? ==> best.value in cands && Score(best.value) == bestScore
  {
    best, bestScore := None, -1.0;
    for i := 0 to |cands|
      invariant (best, bestScore) == Scan(cands[..i])
    {
      assert cands[..i + 1][..i] == cands[..i];
      if Score(cands[i]) > bestScore {
        best, bestScore := Some(cands[i]), Score(cands[i]);
      }
    }
    assert cands[..|cands|] == cands;
    ScanFirstMaximum(cands);
  }

  /** The placing loop of an applied candidate: each operator is appended to the placement,
      marked used in the shift, and counted one more shift. */
  method Place(required: seq<string>, ledger: Ledger, placement: Placement)
    requires forall n :: n in required ==> n in ledger.usage
    modifies ledger, placement
    ensures ledger.usage == Bump(old(ledger.usage), required)
    ensures ledger.shiftUsed == old(ledger.shiftUsed) + SetOf(required)
    ensures placement.placed == old(placement.placed) + required
    ensures placement.usedNames == old(placement.usedNames) + SetOf(required)
  {
    for i := 0 to |required|
      invariant ledger.usage == Bump(old(ledger.usage), required[..i])
      invariant ledger.shiftUsed == old(ledger.shiftUsed) + SetOf(required[..i])
      invariant placement.placed == old(placement.placed) + required[..i]
      invariant placement.usedNames == old(placement.usedNames) + SetOf(required[..i])
      invariant forall n :: n in required ==> n in ledger.usage
    {
      var n := required[i];
      assert required[..i + 1] == required[..i] + [n];
      assert required[..i + 1][..i] == required[..i];
      placement.placed := placement.placed + [n];
      placement.usedNames := placement.usedNames + {n};
      ledger.shiftUsed := ledger.shiftUsed + {n};
      ledger.usage := ledger.usage[n := ledger.usage[n] + 1];
    }
    assert required[..|required|] == required;
  }

  /** A fill state as the shared objects and a running fill's locals describe it. */
  function Current(ledger: Ledger, placement: Placement, remaining: int, synergy: real, combinations: seq<string>,
                   cc: seq<Requirement>, dorm: seq<Requirement>, powerReqs: seq<Requirement>): Fill
    reads ledger, placement
  {
    Fill(ledger.usage, ledger.shiftUsed, placement.usedNames, placement.placed, remaining, synergy, combinations, cc, dorm, powerReqs)
  }

  /** Applying the chosen candidate (the same block ends both passes of the source): place
      its operators, spend its slots, and extend the running totals. */
  method ApplyCandidate(c: Candidate, ledger: Ledger, placement: Placement, remaining: int, synergy: real,
                        combinations: seq<string>, cc: seq<Requirement>, dorm: seq<Requirement>, powerReqs: seq<Requirement>)
    returns (remaining': int, synergy': real, combinations': seq<string>,
             cc': seq<Requirement>, dorm': seq<Requirement>, powerReqs': seq<Requirement>)
    requires forall n :: n in c.required ==> n in ledger.usage
    modifies ledger, placement
    ensures Current(ledger, placement, remaining', synergy', combinations', cc', dorm', powerReqs') ==
      Apply(old(Current(ledger, placement, remaining, synergy, combinations, cc, dorm, powerReqs)), c)
    ensures forall n :: n in old(ledger.usage) ==> n in ledger.usage
  {
    Place(c.required, ledger, placement);
    BumpDomain(old(ledger.usage), c.required);
    remaining' := remaining - |c.required|;
    synergy' := synergy + c.rule.synergy;
    combinations' := combinations + [Describe(c)];
    cc' := cc + c.rule.controlCenter;
    dorm' := dorm + c.rule.dormitory;
    powerReqs' := powerReqs + c.rule.powerStation;
  }

  class Optimizer {
    const catalog: OperatorTable
    const book: RuleBook
    const rules: seq<Rule>
    var trading: seq<Workplace>
    var manufacturing: seq<Workplace>
    const meeting: Workplace
    const power: seq<Workplace>
    var targets: seq<string>
    /** The configuration's `product_requirements`, if it has any. */
    const configured: Option<ProductRequirements>
    /** The configuration's boost switch (`Fiammetta.enable`, off when absent). */
    const fiammettaEnable: bool

    /** The planner over a loaded catalog, workplace set and configuration; the rule table is
        compiled from the rule book, which must load without error. */
    constructor (catalog: OperatorTable, book: RuleBook, trading: seq<Workplace>, manufacturing: seq<Workplace>,
                 meeting: Workplace, power: seq<Workplace>, configured: Option<ProductRequirements>, fiammettaEnable: bool)
      requires CompileBook(book).Ok?
      ensures this.catalog == catalog && this.book == book
      ensures rules == SortDesc(CompileBook(book).value, RuleKey, KeyGreater)
      ensures this.trading == trading && this.manufacturing == manufacturing
      ensures this.meeting == meeting && this.power == power && targets == []
      ensures this.configured == configured && this.fiammettaEnable == fiammettaEnable
    {
      this.catalog := catalog;
      this.book := book;
      this.configured := configured;
      this.fiammettaEnable := fiammettaEnable;
      var loaded := LoadEfficiencyRules(book);
      rules := loaded.value;
      this.trading := trading;
      this.manufacturing := manufacturing;
      this.meeting := meeting;
      this.power := power;
      targets := [];
    }

    /** The fixed inputs of filling workplace `wp`. */
    function Ctx(wp: Workplace): Context
      reads this
    {
      Context(catalog, targets, WorkplaceType(wp.id))
    }

    /** What every workplace fill of a planning run reads besides the bookkeeping. */
    function SetupOf(): Setup
      reads this
    {
      Setup(catalog, book, rules, targets)
    }

    /** The stations as they stand. */
    function StationsOf(): Stations
      reads this
    {
      Stations(trading, manufacturing, meeting, power)
    }

    function PoolOf(wp: Workplace): seq<Rule> {
      Pool(rules, WorkplaceType(wp.id), wp.currentProduct)
    }

    function KeysOf(wp: Workplace): seq<string> {
      SystemKeys(book, WorkplaceType(wp.id))
    }

    /** `optimize_workplace_recursive`: repeatedly applies the best generic candidate over
        the workplace's whole pool while slots are free and a candidate scores above zero. */
    method OptimizeWorkplaceRecursive(wp: Workplace, ledger: Ledger, placement: Placement, remaining: int)
      returns (result: RefillResult)
      requires NonEmptyRules(rules)
      requires forall n :: Owned(catalog, n) ==> n in ledger.usage
      modifies ledger, placement
      ensures var g := Refill(Ctx(wp), PoolOf(wp),
          Fill(old(ledger.usage), old(ledger.shiftUsed), old(placement.usedNames), old(placement.placed), remaining, 0.0, [], [], [], []));
        && ledger.usage == g.usage && ledger.shiftUsed == g.shiftUsed
        && placement.usedNames == g.usedNames && placement.placed == g.placed
        && result == RefillResult([], g.synergy, g.combinations, g.controlCenter, g.dormitory, g.powerStation)
      ensures forall n :: Owned(catalog, n) ==> n in ledger.usage
    {
      var ctx := Ctx(wp);
      var left := remaining;
      var synergy := 0.0;
      var combinations: seq<string> := [];
      var cc: seq<Requirement> := [];
      var dorm: seq<Requirement> := [];
      var powerReqs: seq<Requirement> := [];
      var pool := PoolOf(wp);
      ghost var target := Refill(ctx, pool, Current(ledger, placement, left, synergy, combinations, cc, dorm, powerReqs));
      while left > 0
        invariant Refill(ctx, pool, Current(ledger, placement, left, synergy, combinations, cc, dorm, powerReqs)) == target
        invariant forall n :: Owned(catalog, n) ==> n in ledger.usage
        decreases left
      {
        var f := Current(ledger, placement, left, synergy, combinations, cc, dorm, powerReqs);
        var cands := GenericCandidates(ctx, f, pool);
        var best, bestScore := PickBest(cands);
        if best.Some? && bestScore > 0.0 {
          var c := best.value;
          RefillStep(ctx, pool, f, c);
          left, synergy, combinations, cc, dorm, powerReqs :=
            ApplyCandidate(c, ledger, placement, left, synergy, combinations, cc, dorm, powerReqs);
        } else {
          RefillStop(ctx, pool, f);
          break;
        }
      }
      RefillStop(ctx, pool, Current(ledger, placement, left, synergy, combinations, cc, dorm, powerReqs));
      result := RefillResult([], synergy, combinations, cc, dorm, powerReqs);
    }

    /** `optimize_workplace`: the first pass applies the best system or generic candidate,
        then the refill fills the slots left. The ledger ends as the specification's fill
        says (whose safety `FillWorkplaceSafe` states), and the assignment reports that
        fill's operators, efficiency and collected requirements. */
    method OptimizeWorkplace(wp: Workplace, ledger: Ledger) returns (res: Assignment)
      requires NonEmptyRules(rules)
      requires forall n :: Owned(catalog, n) ==> n in ledger.usage
      modifies ledger
      ensures var f := FillWorkplace(Ctx(wp), PoolOf(wp), KeysOf(wp), Start(old(ledger.usage), old(ledger.shiftUsed), wp.maxOperators));
        && ledger.usage == f.usage && ledger.shiftUsed == f.shiftUsed
        && res == Assignment(wp, f.placed, wp.baseEfficiency as real + f.synergy, f.synergy,
                             f.combinations, f.controlCenter, f.dormitory, f.powerStation)
      ensures forall n :: Owned(catalog, n) ==> n in ledger.usage
    {
      var placement := new Placement();
      var remaining, synergy, combinations, cc, dorm, powerReqs := FirstPass(wp, ledger, placement);
      ghost var first := Current(ledger, placement, remaining, synergy, combinations, cc, dorm, powerReqs);
      ghost var f := FillWorkplace(Ctx(wp), PoolOf(wp), KeysOf(wp), Start(old(ledger.usage), old(ledger.shiftUsed), wp.maxOperators));
      if remaining > 0 {
        assert Restart(first) == Fill(ledger.usage, ledger.shiftUsed, placement.usedNames, placement.placed, remaining, 0.0, [], [], [], []);
        var refill := OptimizeWorkplaceRecursive(wp, ledger, placement, remaining);
        ghost var g := Refill(Ctx(wp), PoolOf(wp), Restart(first));
        assert f == Merge(first, g);
        synergy := synergy + refill.totalSynergy;
        combinations := combinations + refill.combinations;
        cc := cc + refill.controlCenter;
        dorm := dorm + refill.dormitory;
        powerReqs := powerReqs + refill.powerStation;
        placement.placed := placement.placed + refill.operators;
        assert placement.placed == g.placed;
      } else {
        assert f == first;
      }
      res := Assignment(wp, placement.placed, wp.baseEfficiency as real + synergy, synergy, combinations, cc, dorm, powerReqs);
    }

    /** The first pass of `optimize_workplace` on a fresh placement: the best candidate among
        the system groups and the generic rules, applied when it scores above zero. */
    method FirstPass(wp: Workplace, ledger: Ledger, placement: Placement)
      returns (remaining: int, synergy: real, combinations: seq<string>,
               cc: seq<Requirement>, dorm: seq<Requirement>, powerReqs: seq<Requirement>)
      requires NonEmptyRules(rules)
      requires placement.placed == [] && placement.usedNames == {}
      requires forall n :: Owned(catalog, n) ==> n in ledger.usage
      modifies ledger, placement
      ensures Current(ledger, placement, remaining, synergy, combinations, cc, dorm, powerReqs) ==
        AfterFirstPass(Ctx(wp), PoolOf(wp), KeysOf(wp), Start(old(ledger.usage), old(ledger.shiftUsed), wp.maxOperators))
      ensures forall n :: Owned(catalog, n) ==> n in ledger.usage
    {
      var ctx := Ctx(wp);
      var pool := PoolOf(wp);
      var keys := KeysOf(wp);
      remaining, synergy, combinations, cc, dorm, powerReqs := wp.maxOperators, 0.0, [], [], [], [];
      var start := Current(ledger, placement, remaining, synergy, combinations, cc, dorm, powerReqs);
      var cands := FirstPassCandidates(ctx, start, pool, keys);
      var best, bestScore := PickBest(cands);
      if best.Some? && bestScore > 0.0 {
        remaining, synergy, combinations, cc, dorm, powerReqs :=
          ApplyCandidate(best.value, ledger, placement, remaining, synergy, combinations, cc, dorm, powerReqs);
      }
    }

    /** `select_fiammetta_targets`: the qualifying preferred operators, returned at once
        when all three qualify, then the best trading-station operators by summed share
        until there are three. */
    method SelectFiammettaTargets() returns (selected: seq<string>)
      ensures selected == BoostTargets(catalog, rules)
      ensures |selected| <= MAX_TARGETS && Distinct(selected)
      ensures forall n :: n in selected ==> Qualifies(catalog, n)
    {
      PreferredDistinct();
      selected := QualifyingPreferred(catalog);
      if |selected| >= MAX_TARGETS {
        TargetsCorrect(catalog, rules, PREFERRED, BoostTargets(catalog, rules));
        return;
      }
      ghost var preferred := selected;
      var order, total := SumShares(catalog, rules, selected);
      var ranked := SortDesc(order, ScoreOf(Scores(order, total)), RealGreater);
      assert ranked == Ranked(catalog, rules, preferred);
      var k := 0;
      while k < |ranked| && |selected| < MAX_TARGETS
        invariant 0 <= k <= |ranked| && |selected| <= MAX_TARGETS
        invariant selected == preferred + ranked[..k]
      {
        selected := selected + [ranked[k]];
        k := k + 1;
        assert ranked[..k] == ranked[..k - 1] + [ranked[k - 1]];
      }
      assert k == Quota(|preferred|, |ranked|);
      TargetsCorrect(catalog, rules, PREFERRED, selected);
    }

    /** One trading or manufacturing station of a shift: fill it, then admit the
        control-centre and the dormitory operators its applied rules ask for. */
    method VisitStation(wp: Workplace, ledger: Ledger, control: set<string>, dormitory: set<string>)
      returns (r: Result<Visited, string>)
      requires NonEmptyRules(rules) && Covers(catalog, ledger.usage)
      modifies ledger
      ensures r == Visit(SetupOf(), Tally(old(ledger.usage), old(ledger.shiftUsed), control, dormitory), wp)
      ensures r.Ok? ==> ledger.usage == r.value.tally.usage && ledger.shiftUsed == r.value.tally.shiftUsed
      ensures r.Ok? ==> Covers(catalog, ledger.usage)
    {
      var res := OptimizeWorkplace(wp, ledger);
      var room := Room(res.operators, res.operators == [], Some(wp.currentProduct));
      ghost var afterFill := Admitted(ledger.usage, ledger.shiftUsed, control);
      var c := AdmitSupport(res.controlCenter, ledger, control);
      AdmitFacts(afterFill, res.controlCenter);
      if c.Err? {
        return Err(c.error);
      }
      ghost var afterControl := Admitted(ledger.usage, ledger.shiftUsed, dormitory);
      var d := AdmitSupport(res.dormitory, ledger, dormitory);
      AdmitFacts(afterControl, res.dormitory);
      if d.Err? {
        return Err(d.error);
      }
      r := Ok(Visited(Tally(ledger.usage, ledger.shiftUsed, c.value.members, d.value.members), room));
    }

    /** The trading or the manufacturing stations of a shift, visited in order. */
    method ProduceAll(wps: seq<Workplace>, ledger: Ledger, control: set<string>, dormitory: set<string>)
      returns (r: Result<Produced, string>)
      requires NonEmptyRules(rules) && Covers(catalog, ledger.usage)
      modifies ledger
      ensures r == Production(SetupOf(), Tally(old(ledger.usage), old(ledger.shiftUsed), control, dormitory), wps)
      ensures r.Ok? ==> ledger.usage == r.value.tally.usage && ledger.shiftUsed == r.value.tally.shiftUsed
      ensures r.Ok? ==> Covers(catalog, ledger.usage)
    {
      var rooms: seq<Room> := [];
      var ctl, dorm := control, dormitory;
      ghost var setup := SetupOf();
      ghost var target := Production(setup, Tally(ledger.usage, ledger.shiftUsed, control, dormitory), wps);
      assert wps[0..] == wps;
      if target.Ok? {
        assert [] + target.value.rooms == target.value.rooms;
      }
      for i := 0 to |wps|
        invariant setup == SetupOf()
        invariant Covers(catalog, ledger.usage)
        invariant target == PrependRooms(rooms, Production(setup, Tally(ledger.usage, ledger.shiftUsed, ctl, dorm), wps[i..]))
      {
        ProductionUnfold(setup, Tally(ledger.usage, ledger.shiftUsed, ctl, dorm), wps[i..]);
        assert wps[i..][0] == wps[i] && wps[i..][1..] == wps[i + 1..];
        var v := VisitStation(wps[i], ledger, ctl, dorm);
        if v.Err? {
          return Err(v.error);
        }
        PrependRoomsTwice(rooms, [v.value.room], Production(setup, v.value.tally, wps[i + 1..]));
        rooms := rooms + [v.value.room];
        ctl, dorm := v.value.tally.control, v.value.tally.dormitory;
      }
      assert rooms + [] == rooms;
      r := Ok(Produced(Tally(ledger.usage, ledger.shiftUsed, ctl, dorm), rooms));
    }

    /** The power stations of a shift, filled in order. */
    method PowerAll(ledger: Ledger) returns (rooms: seq<Room>)
      requires NonEmptyRules(rules) && Covers(catalog, ledger.usage)
      modifies ledger
      ensures PowerPass(SetupOf(), old(ledger.usage), old(ledger.shiftUsed), power) == Powered(ledger.usage, ledger.shiftUsed, rooms)
      ensures Covers(catalog, ledger.usage)
    {
      rooms := [];
      ghost var setup := SetupOf();
      ghost var target := PowerPass(setup, ledger.usage, ledger.shiftUsed, power);
      assert power[0..] == power;
      assert PrependPowered([], target) == target;
      for i := 0 to |power|
        invariant setup == SetupOf()
        invariant Covers(catalog, ledger.usage)
        invariant target == PrependPowered(rooms, PowerPass(setup, ledger.usage, ledger.shiftUsed, power[i..]))
      {
        PowerPassUnfold(setup, ledger.usage, ledger.shiftUsed, power[i..]);
        assert power[i..][0] == power[i] && power[i..][1..] == power[i + 1..];
        var res := OptimizeWorkplace(power[i], ledger);
        var room := Room(res.operators, res.operators == [], None);
        PrependPoweredTwice(rooms, [room], PowerPass(setup, ledger.usage, ledger.shiftUsed, power[i + 1..]));
        rooms := rooms + [room];
      }
      assert rooms + [] == rooms;
    }

    /** One shift of `get_optimal_assignments`: a fresh shift set; the trading stations, then
        the manufacturing stations, the meeting room and the power stations. */
    method PlanOneShift(s: nat, enable: bool, ledger: Ledger) returns (r: Result<ShiftOutcome, string>)
      requires NonEmptyRules(rules) && Covers(catalog, ledger.usage)
      modifies ledger
      ensures r == PlanShift(SetupOf(), StationsOf(), enable, old(ledger.usage), s)
      ensures r.Ok? ==> ledger.usage == r.value.usage && Covers(catalog, ledger.usage)
    {
      ledger.shiftUsed := {};
      var tr := ProduceAll(trading, ledger, {}, {});
      if tr.Err? {
        return Err(tr.error);
      }
      var mf := ProduceAll(manufacturing, ledger, tr.value.tally.control, tr.value.tally.dormitory);
      if mf.Err? {
        return Err(mf.error);
      }
      var m := OptimizeWorkplace(meeting, ledger);
      var meetingRoom := Room(m.operators, m.operators == [], None);
      var powerRooms := PowerAll(ledger);
      r := Ok(ShiftOutcome(ledger.usage,
        ShiftPlan(ShiftName(s), enable, TargetOf(targets, s), tr.value.rooms, mf.value.rooms,
                  mf.value.tally.control, mf.value.tally.dormitory, meetingRoom, powerRooms)));
    }

    /** The shift loop of `get_optimal_assignments`: the shifts planned in order, each from
        the usage counts the previous one left, stopping at the first failure. */
    method PlanShifts(enable: bool, ledger: Ledger) returns (result: Result<seq<ShiftPlan>, string>)
      requires NonEmptyRules(rules) && Covers(catalog, ledger.usage)
      modifies ledger
      ensures result == PlansOf(Shifts(SetupOf(), StationsOf(), enable, old(ledger.usage), 0, SHIFTS))
    {
      var plans: seq<ShiftPlan> := [];
      ghost var setup, stations := SetupOf(), StationsOf();
      ghost var step := ShiftStep(setup, stations, enable);
      ghost var u0 := ledger.usage;
      var s: nat := 0;
      while s < SHIFTS
        invariant s <= SHIFTS
        invariant setup == SetupOf() && stations == StationsOf()
        invariant Covers(catalog, ledger.usage)
        invariant Day(step, u0, 0, s) == Ok(Planned(ledger.usage, plans))
      {
        ghost var usage := ledger.usage;
        var r := PlanOneShift(s, enable, ledger);
        var next := s + 1;
        ShiftsUnfold(setup, stations, enable, usage, s, r);
        DaySnoc(step, u0, 0, s, usage, plans, s, next, r);
        if r.Err? {
          DayErrStays(step, u0, 0, next, SHIFTS, r.error);
          return Err(r.error);
        }
        plans := plans + [r.value.plan];
        s := next;
      }
      result := Ok(plans);
    }

    /** `get_optimal_assignments`: choose the day's boost targets, spread the required
        products over the stations, then plan three shifts from every owned operator unused.
        The targets, the stations and the plans are those the specification gives; when no
        rule names an operator twice the day is safe: three plans, only owned operators, none
        on more shifts than its cap, and a failure only on an operator the player does not
        own. */
    method GetOptimalAssignments(given: Option<ProductRequirements>) returns (result: Result<seq<ShiftPlan>, string>)
      requires NonEmptyRules(rules)
      modifies this
      ensures targets == DayTargets(catalog, rules, fiammettaEnable)
      ensures StationsOf() == Stocked(Stations(old(trading), old(manufacturing), meeting, power), RequirementsOf(given, configured))
      ensures result == DayPlans(catalog, book, rules, Stations(old(trading), old(manufacturing), meeting, power),
                                 given, configured, fiammettaEnable)
      ensures WellFormed(rules) && result.Ok? ==>
        |result.value| == SHIFTS && forall n :: Count(result.value, n) <= Cap(targets, n)
      ensures WellFormed(rules) && result.Err? ==> !Owned(catalog, result.error)
    {
      ghost var before := Stations(trading, manufacturing, meeting, power);
      var reqs := if given.Some? then given.value else configured.GetOr(DEFAULT_REQUIREMENTS);
      var enable := fiammettaEnable;
      var available := if enable then FiammettaAvailable(catalog) else false;
      if available {
        targets := SelectFiammettaTargets();
      } else {
        targets := [];
      }
      if enable && targets == [] {
        enable := false;
      }
      var tradingProducts := ExpandProducts(reqs.trading);
      trading := AssignProducts(trading, tradingProducts);
      var manufacturingProducts := ExpandProducts(reqs.manufacturing);
      manufacturing := AssignProducts(manufacturing, manufacturingProducts);
      assert StationsOf() == Stocked(before, reqs);
      assert SetupOf() == DaySetup(catalog, book, rules, fiammettaEnable);
      assert enable == DayEnable(fiammettaEnable, targets);

      var ledger := new Ledger(InitialUsage(catalog));
      result := PlanShifts(enable, ledger);
      if WellFormed(rules) {
        DayPlansSafe(catalog, book, rules, before, given, configured, fiammettaEnable);
      }
    }
  }

  /** The preference loop of `select_fiammetta_targets`: the preferred names that qualify,
      in preference order. */
  method QualifyingPreferred(catalog: OperatorTable) returns (selected: seq<string>)
    ensures selected == Preferred(catalog, PREFERRED)
  {
    selected := [];
    for i := 0 to |PREFERRED|
      invariant selected == Preferred(catalog, PREFERRED[..i])
    {
      var cand := PREFERRED[i];
      assert PREFERRED[..i + 1][..i] == PREFERRED[..i];
      if cand in catalog && catalog[cand].own && catalog[cand].elite >= 2 {
        selected := selected + [cand];
      }
    }
    assert PREFERRED[..|PREFERRED|] == PREFERRED;
  }

  /** The scoring loops of `select_fiammetta_targets`: every qualifying operator not already
      selected earns, from each trading-station rule naming it, the rule's synergy over its
      group size. */
  method SumShares(catalog: OperatorTable, rules: seq<Rule>, selected: seq<string>)
    returns (order: seq<string>, total: map<string, real>)
    ensures Scores(order, total) == Summed(catalog, rules, selected)
  {
    order, total := [], map[];
    for i := 0 to |rules|
      invariant Scores(order, total) == Accumulate(Shares(catalog, selected, rules[..i]))
    {
      var r := rules[i];
      assert rules[..i + 1][..i] == rules[..i];
      if r.workplaceType == TRADING {
        order, total := AddRuleShares(catalog, r, selected, order, total, Shares(catalog, selected, rules[..i]));
        assert Shares(catalog, selected, rules[..i + 1]) ==
          Shares(catalog, selected, rules[..i]) + RuleShares(catalog, selected, r, r.operators);
      } else {
        assert Shares(catalog, selected, rules[..i + 1]) == Shares(catalog, selected, rules[..i]) + [];
        assert Shares(catalog, selected, rules[..i]) + [] == Shares(catalog, selected, rules[..i]);
      }
    }
    assert rules[..|rules|] == rules;
  }

  /** The inner scoring loop over one trading-station rule's group. */
  method AddRuleShares(catalog: OperatorTable, r: Rule, selected: seq<string>, order: seq<string>, total: map<string, real>,
                       ghost before: seq<(string, real)>)
    returns (order': seq<string>, total': map<string, real>)
    requires Scores(order, total) == Accumulate(before)
    ensures Scores(order', total') == Accumulate(before + RuleShares(catalog, selected, r, r.operators))
  {
    order', total' := order, total;
    ghost var shares := before;
    assert before + RuleShares(catalog, selected, r, r.operators[..0]) == before;
    for j := 0 to |r.operators|
      invariant shares == before + RuleShares(catalog, selected, r, r.operators[..j])
      invariant Scores(order', total') == Accumulate(shares)
    {
      var op := r.operators[j];
      RuleSharesNext(catalog, selected, r, before, j);
      if op in catalog && catalog[op].own && catalog[op].elite >= 2 && op !in selected {
        var score := r.synergy / (|r.operators| as real);
        AccumulateStep(shares, (op, score));
        if op in total' {
          total' := total'[op := total'[op] + score];
        } else {
          order' := order' + [op];
          total' := total'[op := score];
        }
        shares := shares + [(op, score)];
      } else {
        assert shares + [] == shares;
      }
    }
    assert r.operators[..|r.operators|] == r.operators;
  }

  /** The support loop of `get_optimal_assignments` for one requirement list: an operator not
      yet used this shift and on fewer than two shifts joins `members` and the shift set and
      is counted; counting an operator the usage table does not list fails. */
  method AdmitSupport(reqs: seq<Requirement>, ledger: Ledger, members: set<string>) returns (r: Result<Admitted, string>)
    modifies ledger
    ensures r == Admit(Admitted(old(ledger.usage), old(ledger.shiftUsed), members), reqs)
    ensures r.Ok? ==> ledger.usage == r.value.usage && ledger.shiftUsed == r.value.shiftUsed
  {
    ghost var target := Admit(Admitted(ledger.usage, ledger.shiftUsed, members), reqs);
    var joined := members;
    for i := 0 to |reqs|
      invariant target == Admit(Admitted(ledger.usage, ledger.shiftUsed, joined), reqs[i..])
    {
      assert reqs[i..][1..] == reqs[i + 1..];
      var n := reqs[i].operator;
      if n !in ledger.shiftUsed && UsageOf(ledger.usage, n) < 2 {
        if n !in ledger.usage {
          return Err(n);
        }
        joined := joined + {n};
        ledger.shiftUsed := ledger.shiftUsed + {n};
        ledger.usage := ledger.usage[n := ledger.usage[n] + 1];
      }
    }
    r := Ok(Admitted(ledger.usage, ledger.shiftUsed, joined));
  }

  /** The product list of one kind of station: each product repeated its count of times, in
      the requirements' order. */
  method ExpandProducts(counts: seq<(string, int)>) returns (products: seq<string>)
    ensures products == Expand(counts)
  {
    products := [];
    for i := 0 to |counts|
      invariant products == Expand(counts[..i])
    {
      assert counts[..i + 1][..i] == counts[..i];
      products := products + Repeat(counts[i].0, counts[i].1);
    }
    assert counts[..|counts|] == counts;
  }

  /** Station `i` is set to make the `i`-th product, or nothing past the end of the list. */
  method AssignProducts(stations: seq<Workplace>, products: seq<string>) returns (updated: seq<Workplace>)
    ensures updated == WithProducts(stations, products)
  {
    updated := stations;
    for i := 0 to |stations|
      invariant |updated| == |stations|
      invariant forall j :: 0 <= j < i ==> updated[j] == WithProducts(stations, products)[j]
      invariant forall j :: i <= j < |stations| ==> updated[j] == stations[j]
    {
      updated := updated[i := updated[i].(currentProduct := if i < |products| then products[i] else "")];
    }
  }
}
