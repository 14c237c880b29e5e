/** `get_optimal_assignments`: product tags are spread over the trading and manufacturing
    stations once, then three shifts are planned. Each shift fills the trading stations,
    then the manufacturing stations (admitting the control-centre and dormitory operators
    their rules ask for after each one), then the meeting room, then the power stations,
    sharing the day's usage counts and a fresh per-shift set of used names. This module
    states that computation as functions over values; the planner's methods are proved to
    compute it. */
module Schedule {
  import opened Results
  import opened Text
  import opened Catalog
  import opened Rules
  import opened Allocation
  import opened Boost

  /** `product_requirements`: for each kind of station, products and how many stations
      should make each, in the configuration's order. */
  datatype ProductRequirements = ProductRequirements(trading: seq<(string, int)>, manufacturing: seq<(string, int)>)

  /** The requirements used when neither the caller nor the configuration gives any. */
  const DEFAULT_REQUIREMENTS: ProductRequirements :=
    ProductRequirements([("LMD", 3), ("Orundum", 0)], [("Pure Gold", 3), ("Originium Shard", 0), ("Battle Record", 0)])

  /** `[product] * count`: a negative count repeats nothing. */
  function Repeat(product: string, count: int): (r: seq<string>)
    ensures |r| == (if count > 0 then count else 0)
    ensures forall k :: 0 <= k < |r| ==> r[k] == product
  {
    if count <= 0 then [] else Repeat(product, count - 1) + [product]
  }

  /** The products of `counts` expanded in order, each repeated its count of times. */
  function Expand(counts: seq<(string, int)>): seq<string> {
    if counts == [] then [] else Expand(counts[..|counts| - 1]) + Repeat(counts[|counts| - 1].0, counts[|counts| - 1].1)
  }

  /** How many stations the requirements ask for in all. */
  function Demand(counts: seq<(string, int)>): nat {
    if counts == [] then 0
    else Demand(counts[..|counts| - 1]) + (if counts[|counts| - 1].1 > 0 then counts[|counts| - 1].1 else 0)
  }

  /** The expansion lists as many products as are demanded, and each listed product comes
      from an entry with a positive count. */
  lemma {:induction false} ExpandFacts(counts: seq<(string, int)>)
    ensures |Expand(counts)| == Demand(counts)
    ensures forall k :: 0 <= k < |Expand(counts)| ==>
      exists i :: 0 <= i < |counts| && counts[i].0 == Expand(counts)[k] && counts[i].1 > 0
  {
    if counts != [] {
      var init := counts[..|counts| - 1];
      var last := counts[|counts| - 1];
      ExpandFacts(init);
      var head := Expand(init);
      var tail := Repeat(last.0, last.1);
      assert Expand(counts) == head + tail;
      forall k | 0 <= k < |Expand(counts)|
        ensures exists i :: 0 <= i < |counts| && counts[i].0 == Expand(counts)[k] && counts[i].1 > 0
      {
        if k < |head| {
          assert Expand(counts)[k] == head[k];
          var i :| 0 <= i < |init| && init[i].0 == head[k] && init[i].1 > 0;
          assert counts[i] == init[i];
        } else {
          assert Expand(counts)[k] == tail[k - |head|] == last.0;
          assert counts[|counts| - 1] == last;
        }
      }
    }
  }

  /** Station `i` makes the `i`-th expanded product, or nothing past the end of the list. */
  function WithProducts(stations: seq<Workplace>, products: seq<string>): (r: seq<Workplace>)
    ensures |r| == |stations|
    ensures forall i :: 0 <= i < |r| ==>
      r[i] == stations[i].(currentProduct := if i < |products| then products[i] else "")
  {
    seq(|stations|, i requires 0 <= i < |stations| =>
      stations[i].(currentProduct := if i < |products| then products[i] else ""))
  }

  /** Everything a workplace fill reads besides the bookkeeping. */
  datatype Setup = Setup(catalog: OperatorTable, book: RuleBook, rules: seq<Rule>, targets: seq<string>)

  function CtxOf(setup: Setup, wp: Workplace): Context {
    Context(setup.catalog, setup.targets, WorkplaceType(wp.id))
  }

  /** `optimize_workplace` of `wp` against the given usage counts and shift set. */
  function FillOf(setup: Setup, wp: Workplace, usage: map<string, int>, shiftUsed: set<string>): Fill
    requires NonEmptyRules(setup.rules)
  {
    FillWorkplace(CtxOf(setup, wp), Pool(setup.rules, WorkplaceType(wp.id), wp.currentProduct),
                  SystemKeys(setup.book, WorkplaceType(wp.id)), Start(usage, shiftUsed, wp.maxOperators))
  }

  /** One room of a plan: its operators, whether the game should fill it itself (exactly when
      the planner placed nobody), and, for the stations that make something, the product. */
  datatype Room = Room(operators: seq<string>, autofill: bool, product: Option<string>)

  function RoomOf(f: Fill, product: Option<string>): (r: Room)
    ensures r.operators == f.placed && (r.autofill <==> f.placed == [])
  {
    Room(f.placed, f.placed == [], product)
  }

  /** The bookkeeping of a support admission: usage counts, the shift set and the names
      admitted to the control centre or to the dormitory so far. */
  datatype Admitted = Admitted(usage: map<string, int>, shiftUsed: set<string>, members: set<string>)

  /** One support requirement: an operator not yet used this shift and used on fewer than two
      shifts joins the room and is counted; the count is updated by key, so an operator the
      usage table does not list fails there (the planner's `KeyError`). */
  function AdmitOne(a: Admitted, req: Requirement): Result<Admitted, string> {
    var n := req.operator;
    if n !in a.shiftUsed && UsageOf(a.usage, n) < 2 then
      if n in a.usage then Ok(Admitted(a.usage[n := a.usage[n] + 1], a.shiftUsed + {n}, a.members + {n}))
      else Err(n)
    else Ok(a)
  }

  /** The support requirements of one workplace, admitted in order. */
  function Admit(a: Admitted, reqs: seq<Requirement>): Result<Admitted, string>
    decreases |reqs|
  {
    if reqs == [] then Ok(a)
    else
      match AdmitOne(a, reqs[0])
      case Err(e) => Err(e)
      case Ok(b) => Admit(b, reqs[1..])
  }

  /** The bookkeeping of a shift: usage counts, the shift set, and the control-centre and
      dormitory sets. */
  datatype Tally = Tally(usage: map<string, int>, shiftUsed: set<string>, control: set<string>, dormitory: set<string>)

  datatype Visited = Visited(tally: Tally, room: Room)

  /** A trading or manufacturing station: fill it, then admit the control-centre and then
      the dormitory operators its applied rules require. */
  function Visit(setup: Setup, t: Tally, wp: Workplace): Result<Visited, string>
    requires NonEmptyRules(setup.rules)
  {
    var f := FillOf(setup, wp, t.usage, t.shiftUsed);
    match Admit(Admitted(f.usage, f.shiftUsed, t.control), f.controlCenter)
    case Err(e) => Err(e)
    case Ok(c) =>
      match Admit(Admitted(c.usage, c.shiftUsed, t.dormitory), f.dormitory)
      case Err(e) => Err(e)
      case Ok(d) => Ok(Visited(Tally(d.usage, d.shiftUsed, c.members, d.members), RoomOf(f, Some(wp.currentProduct))))
  }

  datatype Produced = Produced(tally: Tally, rooms: seq<Room>)

  /** Rooms already planned, put before those of the rest of the stations. */
  function PrependRooms(rooms: seq<Room>, r: Result<Produced, string>): Result<Produced, string> {
    match r
    case Err(e) => Err(e)
    case Ok(p) => Ok(Produced(p.tally, rooms + p.rooms))
  }

  /** The trading or the manufacturing stations, visited in order. */
  function Production(setup: Setup, t: Tally, wps: seq<Workplace>): Result<Produced, string>
    requires NonEmptyRules(setup.rules)
    decreases |wps|
  {
    if wps == [] then Ok(Produced(t, []))
    else
      match Visit(setup, t, wps[0])
      case Err(e) => Err(e)
      case Ok(v) => PrependRooms([v.room], Production(setup, v.tally, wps[1..]))
  }

  /** One station of `Production` taken off the front. */
  lemma ProductionUnfold(setup: Setup, t: Tally, wps: seq<Workplace>)
    requires NonEmptyRules(setup.rules) && wps != []
    ensures Visit(setup, t, wps[0]).Err? ==> Production(setup, t, wps) == Err(Visit(setup, t, wps[0]).error)
    ensures Visit(setup, t, wps[0]).Ok? ==>
      Production(setup, t, wps) == PrependRooms([Visit(setup, t, wps[0]).value.room],
                                                Production(setup, Visit(setup, t, wps[0]).value.tally, wps[1..]))
  {
  }

  datatype Powered = Powered(usage: map<string, int>, shiftUsed: set<string>, rooms: seq<Room>)

  /** The power stations, filled in order. */
  function PowerPass(setup: Setup, usage: map<string, int>, shiftUsed: set<string>, wps: seq<Workplace>): Powered
    requires NonEmptyRules(setup.rules)
    decreases |wps|
  {
    if wps == [] then Powered(usage, shiftUsed, [])
    else
      var f := FillOf(setup, wps[0], usage, shiftUsed);
      var rest := PowerPass(setup, f.usage, f.shiftUsed, wps[1..]);
      Powered(rest.usage, rest.shiftUsed, [RoomOf(f, None)] + rest.rooms)
  }

  /** Power rooms already planned, put before those of the rest of the power stations. */
  function PrependPowered(rooms: seq<Room>, p: Powered): Powered {
    Powered(p.usage, p.shiftUsed, rooms + p.rooms)
  }

  /** One power station taken off the front. */
  lemma PowerPassUnfold(setup: Setup, usage: map<string, int>, shiftUsed: set<string>, wps: seq<Workplace>)
    requires NonEmptyRules(setup.rules) && wps != []
    ensures PowerPass(setup, usage, shiftUsed, wps)
         == PrependPowered([RoomOf(FillOf(setup, wps[0], usage, shiftUsed), None)],
                           PowerPass(setup, FillOf(setup, wps[0], usage, shiftUsed).usage,
                                     FillOf(setup, wps[0], usage, shiftUsed).shiftUsed, wps[1..]))
  {
  }

  lemma PrependPoweredTwice(a: seq<Room>, b: seq<Room>, p: Powered)
    ensures PrependPowered(a, PrependPowered(b, p)) == PrependPowered(a + b, p)
  {
    assert a + (b + p.rooms) == (a + b) + p.rooms;
  }

  /** One shift of the plan: its name, the boost setting and the day's target for this shift,
      the rooms, and the control-centre and dormitory sets. */
  datatype ShiftPlan = ShiftPlan(
    name: string,
    fiammettaEnable: bool,
    fiammettaTarget: string,
    trading: seq<Room>,
    manufacture: seq<Room>,
    control: set<string>,
    dormitory: set<string>,
    meeting: Room,
    power: seq<Room>)

  /** "Shift n" for the zero-based shift index `s`. */
  function ShiftName(s: nat): string {
    "第" + NatToString(s + 1) + "班"
  }

  /** The boost target of shift `s`: the targets taken in turn, or none. */
  function TargetOf(targets: seq<string>, s: nat): (r: string)
    ensures targets == [] ==> r == ""
    ensures targets != [] ==> r in targets
  {
    if targets == [] then "" else targets[s % |targets|]
  }

  /** The stations of the base. */
  datatype Stations = Stations(trading: seq<Workplace>, manufacturing: seq<Workplace>, meeting: Workplace, power: seq<Workplace>)

  datatype ShiftOutcome = ShiftOutcome(usage: map<string, int>, plan: ShiftPlan)

  /** Shift `s`: trading, manufacturing, meeting room, power, with a fresh shift set. */
  function PlanShift(setup: Setup, stations: Stations, enable: bool, usage: map<string, int>, s: nat): Result<ShiftOutcome, string>
    requires NonEmptyRules(setup.rules)
  {
    match Production(setup, Tally(usage, {}, {}, {}), stations.trading)
    case Err(e) => Err(e)
    case Ok(tr) =>
      match Production(setup, tr.tally, stations.manufacturing)
      case Err(e) => Err(e)
      case Ok(mf) =>
        var m := FillOf(setup, stations.meeting, mf.tally.usage, mf.tally.shiftUsed);
        var pw := PowerPass(setup, m.usage, m.shiftUsed, stations.power);
        Ok(ShiftOutcome(pw.usage, ShiftPlan(ShiftName(s), enable, TargetOf(setup.targets, s),
                                            tr.rooms, mf.rooms, mf.tally.control, mf.tally.dormitory,
                                            RoomOf(m, None), pw.rooms)))
  }

  datatype Planned = Planned(usage: map<string, int>, plans: seq<ShiftPlan>)

  function PrependPlans(plans: seq<ShiftPlan>, r: Result<Planned, string>): Result<Planned, string> {
    match r
    case Err(e) => Err(e)
    case Ok(p) => Ok(Planned(p.usage, plans + p.plans))
  }

  /** Shifts `s` to `s + count - 1`, each planned by `plan` from the usage counts the
      previous one left. */
  function Day(plan: (map<string, int>, nat) -> Result<ShiftOutcome, string>, usage: map<string, int>, s: nat, count: nat): Result<Planned, string>
    decreases count
  {
    if count == 0 then Ok(Planned(usage, []))
    else
      match plan(usage, s)
      case Err(e) => Err(e)
      case Ok(o) => PrependPlans([o.plan], Day(plan, o.usage, s + 1, count - 1))
  }

  /** One shift of the base, as a function of the usage counts and the shift index. */
  function ShiftStep(setup: Setup, stations: Stations, enable: bool): (map<string, int>, nat) -> Result<ShiftOutcome, string>
    requires NonEmptyRules(setup.rules)
  {
    (u: map<string, int>, k: nat) => PlanShift(setup, stations, enable, u, k)
  }

  /** Shifts `s` to `s + count - 1` of the base. */
  function Shifts(setup: Setup, stations: Stations, enable: bool, usage: map<string, int>, s: nat, count: nat): Result<Planned, string>
    requires NonEmptyRules(setup.rules)
  {
    Day(ShiftStep(setup, stations, enable), usage, s, count)
  }

  /** The number of shifts in a day. */
  const SHIFTS: nat := 3

  /** Every owned operator starts the day unused. */
  function InitialUsage(catalog: OperatorTable): map<string, int> {
    map n | n in catalog && catalog[n].own :: 0
  }

  /** The boost targets of the day: chosen only when boosting is enabled and the boost
      operator is available. */
  function DayTargets(catalog: OperatorTable, rules: seq<Rule>, enable: bool): seq<string> {
    if enable && FiammettaAvailable(catalog) then BoostTargets(catalog, rules) else []
  }

  /** Boosting stays on only when it was enabled and some target was chosen. */
  function DayEnable(enable: bool, targets: seq<string>): bool {
    enable && targets != []
  }

  /** The product requirements in force: the caller's, else the configuration's, else the
      defaults. */
  function RequirementsOf(given: Option<ProductRequirements>, configured: Option<ProductRequirements>): ProductRequirements {
    if given.Some? then given.value else configured.GetOr(DEFAULT_REQUIREMENTS)
  }

  /** The stations with the products of `reqs` spread over the trading and the manufacturing
      stations. */
  function Stocked(stations: Stations, reqs: ProductRequirements): Stations {
    Stations(WithProducts(stations.trading, Expand(reqs.trading)),
             WithProducts(stations.manufacturing, Expand(reqs.manufacturing)),
             stations.meeting, stations.power)
  }

  /** The day's setup: the boost targets chosen for the day. */
  function DaySetup(catalog: OperatorTable, book: RuleBook, rules: seq<Rule>, enable: bool): Setup {
    Setup(catalog, book, rules, DayTargets(catalog, rules, enable))
  }

  /** The plans of a run of shifts, without the final usage counts. */
  function PlansOf(r: Result<Planned, string>): Result<seq<ShiftPlan>, string> {
    match r
    case Err(e) => Err(e)
    case Ok(p) => Ok(p.plans)
  }

  /** `get_optimal_assignments`: the plans of the day's three shifts, or the name of the
      operator whose usage count was missing. */
  function DayPlans(catalog: OperatorTable, book: RuleBook, rules: seq<Rule>, stations: Stations,
                    given: Option<ProductRequirements>, configured: Option<ProductRequirements>, enable: bool): Result<seq<ShiftPlan>, string>
    requires NonEmptyRules(rules)
  {
    var setup := DaySetup(catalog, book, rules, enable);
    PlansOf(Shifts(setup, Stocked(stations, RequirementsOf(given, configured)),
                   DayEnable(enable, setup.targets), InitialUsage(catalog), 0, SHIFTS))
  }

  /** Rooms planned so far, put before those of the rest of the stations, in two steps or
      in one. */
  lemma PrependRoomsTwice(a: seq<Room>, b: seq<Room>, r: Result<Produced, string>)
    ensures PrependRooms(a, PrependRooms(b, r)) == PrependRooms(a + b, r)
  {
    if r.Ok? {
      assert a + (b + r.value.rooms) == (a + b) + r.value.rooms;
    }
  }

  /** The first of a run of shifts, and the rest. */
  lemma ShiftsUnfold(setup: Setup, stations: Stations, enable: bool, usage: map<string, int>, s: nat,
                     r: Result<ShiftOutcome, string>)
    requires NonEmptyRules(setup.rules)
    requires r == PlanShift(setup, stations, enable, usage, s)
    ensures ShiftStep(setup, stations, enable)(usage, s) == r
  {
  }

  /** A run of `n` shifts that succeeded, extended by the shift after it: the plans grow by
      that shift's plan, or the run fails with its error. The next shift index `k` and the
      longer count `n1` are passed in so that callers can name them. */
  lemma DaySnoc(plan: (map<string, int>, nat) -> Result<ShiftOutcome, string>, u0: map<string, int>, s0: nat, n: nat,
                usage: map<string, int>, plans: seq<ShiftPlan>, k: nat, n1: nat, r: Result<ShiftOutcome, string>)
    requires Day(plan, u0, s0, n) == Ok(Planned(usage, plans))
    requires k == s0 + n && n1 == n + 1 && r == plan(usage, k)
    ensures r.Ok? ==> Day(plan, u0, s0, n1) == Ok(Planned(r.value.usage, plans + [r.value.plan]))
    ensures r.Err? ==> Day(plan, u0, s0, n1) == Err(r.error)
    decreases n
  {
    if n > 0 {
      var o := plan(u0, s0).value;
      var rest := Day(plan, o.usage, s0 + 1, n - 1);
      assert rest == Ok(Planned(usage, plans[1..]));
      DaySnoc(plan, o.usage, s0 + 1, n - 1, usage, plans[1..], k, n, r);
      if r.Ok? {
        assert [o.plan] + (plans[1..] + [r.value.plan]) == plans + [r.value.plan];
      }
    } else if r.Ok? {
      assert Day(plan, r.value.usage, s0 + 1, 0) == Ok(Planned(r.value.usage, []));
      assert [r.value.plan] + [] == plans + [r.value.plan];
    }
  }

  /** A run of shifts that failed fails the same way however many shifts are asked for. */
  lemma DayErrStays(plan: (map<string, int>, nat) -> Result<ShiftOutcome, string>, u0: map<string, int>, s0: nat,
                    n: nat, m: nat, e: string)
    requires Day(plan, u0, s0, n) == Err(e) && n <= m
    ensures Day(plan, u0, s0, m) == Err(e)
    decreases n
  {
    if plan(u0, s0).Ok? {
      DayErrStays(plan, plan(u0, s0).value.usage, s0 + 1, n - 1, m - 1, e);
    }
  }

  /** An operator works at most two shifts a day, a boost target three. */
  function Cap(targets: seq<string>, n: string): int {
    if n in targets then 3 else 2
  }

  /** Every owned operator has a usage count. */
  ghost predicate Covers(catalog: OperatorTable, usage: map<string, int>) {
    forall n :: Owned(catalog, n) ==> n in usage
  }

  /** The operators of a sequence of rooms, in room order. */
  function Ops(rooms: seq<Room>): seq<string> {
    if rooms == [] then [] else rooms[0].operators + Ops(rooms[1..])
  }

  /** What holds of a shift's bookkeeping `t` after the operators `placed` were put into
      rooms, starting from the usage counts `u0` and an empty shift set: the shift set is
      exactly the placed, control-centre and dormitory operators, which are pairwise
      distinct; each was listed with a count below its daily cap when the shift began and
      has been counted once; and no other count changed. */
  ghost predicate ShiftInv(setup: Setup, u0: map<string, int>, t: Tally, placed: seq<string>) {
    && t.shiftUsed == SetOf(placed) + t.control + t.dormitory
    && Distinct(placed)
    && (forall n :: n in placed ==> n !in t.control && n !in t.dormitory)
    && t.control !! t.dormitory
    && (forall n :: n in t.usage <==> n in u0)
    && (forall n :: n in t.shiftUsed ==> n in u0 && UsageOf(u0, n) < Cap(setup.targets, n))
    && (forall n :: UsageOf(t.usage, n) == UsageOf(u0, n) + (if n in t.shiftUsed then 1 else 0))
  }

  /** How an admission changes its bookkeeping: the newly admitted operators are exactly
      those new to the shift; each was listed with fewer than two shifts and is counted once
      more; nothing else changes. */
  ghost predicate AdmitGrows(a: Admitted, b: Admitted) {
    && a.shiftUsed <= b.shiftUsed
    && b.members == a.members + (b.shiftUsed - a.shiftUsed)
    && (forall n :: n in b.usage <==> n in a.usage)
    && (forall n :: n in b.shiftUsed - a.shiftUsed ==> n in a.usage && UsageOf(a.usage, n) < 2)
    && (forall n :: UsageOf(b.usage, n) == UsageOf(a.usage, n) + (if n in b.shiftUsed - a.shiftUsed then 1 else 0))
  }

  /** An admission grows its bookkeeping as `AdmitGrows` says, and fails only on an operator
      the usage table does not list. */
  lemma {:induction false} AdmitFacts(a: Admitted, reqs: seq<Requirement>)
    ensures Admit(a, reqs).Ok? ==> AdmitGrows(a, Admit(a, reqs).value)
    ensures Admit(a, reqs).Err? ==> Admit(a, reqs).error !in a.usage
    decreases |reqs|
  {
    if reqs != [] {
      var one := AdmitOne(a, reqs[0]);
      if one.Ok? {
        var b := one.value;
        AdmitFacts(b, reqs[1..]);
        if Admit(b, reqs[1..]).Ok? {
          var c := Admit(b, reqs[1..]).value;
          assert c.shiftUsed - a.shiftUsed == (b.shiftUsed - a.shiftUsed) + (c.shiftUsed - b.shiftUsed);
        }
      }
    }
  }

  /** The free slots a workplace offers. */
  function Slots(wp: Workplace): nat {
    if wp.maxOperators > 0 then wp.maxOperators else 0
  }

  /** A safe fill keeps the shift invariant, with its placed operators appended. */
  lemma SafeFillStep(setup: Setup, u0: map<string, int>, t: Tally, placed: seq<string>,
                     ctx: Context, slots: int, f: Fill)
    requires ctx.catalog == setup.catalog && ctx.targets == setup.targets
    requires Covers(setup.catalog, u0) && ShiftInv(setup, u0, t, placed)
    requires SafeFill(ctx, t.usage, t.shiftUsed, slots, f)
    ensures ShiftInv(setup, u0, Tally(f.usage, f.shiftUsed, t.control, t.dormitory), placed + f.placed)
  {
    DistinctAppend(placed, f.placed);
    assert SetOf(placed + f.placed) == SetOf(placed) + SetOf(f.placed);
    forall n | n in f.placed ensures n in u0 && UsageOf(u0, n) < Cap(setup.targets, n) {
      assert Owned(setup.catalog, n);
      assert UsageOf(t.usage, n) == UsageOf(u0, n);
    }
  }

  /** Filling a workplace keeps the shift invariant, with its placed operators appended, and
      places no more operators than the workplace has slots. */
  lemma FillStep(setup: Setup, u0: map<string, int>, t: Tally, placed: seq<string>, wp: Workplace, f: Fill)
    requires NonEmptyRules(setup.rules) && WellFormed(setup.rules)
    requires Covers(setup.catalog, u0) && ShiftInv(setup, u0, t, placed)
    requires f == FillOf(setup, wp, t.usage, t.shiftUsed)
    ensures ShiftInv(setup, u0, Tally(f.usage, f.shiftUsed, t.control, t.dormitory), placed + f.placed)
    ensures |f.placed| <= Slots(wp)
  {
    WellFormedPool(setup.rules, WorkplaceType(wp.id), wp.currentProduct);
    FillWorkplaceSafe(CtxOf(setup, wp), Pool(setup.rules, WorkplaceType(wp.id), wp.currentProduct),
                      SystemKeys(setup.book, WorkplaceType(wp.id)), t.usage, t.shiftUsed, wp.maxOperators);
    SafeFillStep(setup, u0, t, placed, CtxOf(setup, wp), wp.maxOperators, f);
  }

  /** Admitting control-centre operators keeps the shift invariant; a failure names an
      operator the day's usage table does not list. */
  lemma AdmitControlStep(setup: Setup, u0: map<string, int>, t: Tally, placed: seq<string>, reqs: seq<Requirement>)
    requires ShiftInv(setup, u0, t, placed)
    ensures Admit(Admitted(t.usage, t.shiftUsed, t.control), reqs).Ok? ==>
      ShiftInv(setup, u0, Tally(Admit(Admitted(t.usage, t.shiftUsed, t.control), reqs).value.usage,
                                Admit(Admitted(t.usage, t.shiftUsed, t.control), reqs).value.shiftUsed,
                                Admit(Admitted(t.usage, t.shiftUsed, t.control), reqs).value.members,
                                t.dormitory), placed)
    ensures Admit(Admitted(t.usage, t.shiftUsed, t.control), reqs).Err? ==>
      Admit(Admitted(t.usage, t.shiftUsed, t.control), reqs).error !in u0
  {
    var a := Admitted(t.usage, t.shiftUsed, t.control);
    AdmitFacts(a, reqs);
    if Admit(a, reqs).Ok? {
      var c := Admit(a, reqs).value;
      forall n | n in c.shiftUsed - t.shiftUsed ensures n in u0 && UsageOf(u0, n) < Cap(setup.targets, n) {
        assert UsageOf(t.usage, n) == UsageOf(u0, n);
      }
    }
  }

  /** Admitting dormitory operators keeps the shift invariant; a failure names an operator
      the day's usage table does not list. */
  lemma AdmitDormitoryStep(setup: Setup, u0: map<string, int>, t: Tally, placed: seq<string>, reqs: seq<Requirement>)
    requires ShiftInv(setup, u0, t, placed)
    ensures Admit(Admitted(t.usage, t.shiftUsed, t.dormitory), reqs).Ok? ==>
      ShiftInv(setup, u0, Tally(Admit(Admitted(t.usage, t.shiftUsed, t.dormitory), reqs).value.usage,
                                Admit(Admitted(t.usage, t.shiftUsed, t.dormitory), reqs).value.shiftUsed,
                                t.control,
                                Admit(Admitted(t.usage, t.shiftUsed, t.dormitory), reqs).value.members), placed)
    ensures Admit(Admitted(t.usage, t.shiftUsed, t.dormitory), reqs).Err? ==>
      Admit(Admitted(t.usage, t.shiftUsed, t.dormitory), reqs).error !in u0
  {
    var a := Admitted(t.usage, t.shiftUsed, t.dormitory);
    AdmitFacts(a, reqs);
    if Admit(a, reqs).Ok? {
      var d := Admit(a, reqs).value;
      forall n | n in d.shiftUsed - t.shiftUsed ensures n in u0 && UsageOf(u0, n) < Cap(setup.targets, n) {
        assert UsageOf(t.usage, n) == UsageOf(u0, n);
      }
    }
  }

  /** Visiting a station keeps the shift invariant, with the station's operators appended;
      its room holds no more operators than the station has slots and carries the station's
      product. A failure names an operator the day's usage table does not list. */
  lemma VisitSafe(setup: Setup, u0: map<string, int>, t: Tally, placed: seq<string>, wp: Workplace)
    requires NonEmptyRules(setup.rules) && WellFormed(setup.rules)
    requires Covers(setup.catalog, u0) && ShiftInv(setup, u0, t, placed)
    ensures Visit(setup, t, wp).Ok? ==>
      && ShiftInv(setup, u0, Visit(setup, t, wp).value.tally, placed + Visit(setup, t, wp).value.room.operators)
      && |Visit(setup, t, wp).value.room.operators| <= Slots(wp)
      && Visit(setup, t, wp).value.room.product == Some(wp.currentProduct)
    ensures Visit(setup, t, wp).Err? ==> Visit(setup, t, wp).error !in u0
  {
    var f := FillOf(setup, wp, t.usage, t.shiftUsed);
    FillStep(setup, u0, t, placed, wp, f);
    var t1 := Tally(f.usage, f.shiftUsed, t.control, t.dormitory);
    var p1 := placed + f.placed;
    AdmitControlStep(setup, u0, t1, p1, f.controlCenter);
    var rc := Admit(Admitted(t1.usage, t1.shiftUsed, t1.control), f.controlCenter);
    if rc.Ok? {
      var c := rc.value;
      var t2 := Tally(c.usage, c.shiftUsed, c.members, t.dormitory);
      AdmitDormitoryStep(setup, u0, t2, p1, f.dormitory);
    }
  }

  /** The rooms match their stations one for one, none holds more operators than its station
      has slots, and each carries its station's product when `withProduct` holds, none
      otherwise. */
  ghost predicate RoomsFit(rooms: seq<Room>, wps: seq<Workplace>, withProduct: bool) {
    && |rooms| == |wps|
    && forall i :: 0 <= i < |rooms| ==>
         && |rooms[i].operators| <= Slots(wps[i])
         && rooms[i].product == (if withProduct then Some(wps[i].currentProduct) else None)
  }

  lemma RoomsFitCons(room: Room, rooms: seq<Room>, wps: seq<Workplace>, withProduct: bool)
    requires wps != [] && RoomsFit(rooms, wps[1..], withProduct)
    requires |room.operators| <= Slots(wps[0])
    requires room.product == (if withProduct then Some(wps[0].currentProduct) else None)
    ensures RoomsFit([room] + rooms, wps, withProduct)
  {
  }

  lemma OpsCons(room: Room, rooms: seq<Room>)
    ensures Ops([room] + rooms) == room.operators + Ops(rooms)
  {
    assert ([room] + rooms)[1..] == rooms;
  }

  /** Visiting a run of stations keeps the shift invariant, with all their operators
      appended; the rooms fit their stations. A failure names an operator the day's usage
      table does not list. */
  lemma {:induction false} ProductionSafe(setup: Setup, u0: map<string, int>, t: Tally, placed: seq<string>,
                                          wps: seq<Workplace>, r: Result<Produced, string>)
    requires NonEmptyRules(setup.rules) && WellFormed(setup.rules)
    requires Covers(setup.catalog, u0) && ShiftInv(setup, u0, t, placed)
    requires r == Production(setup, t, wps)
    ensures r.Ok? ==> ShiftInv(setup, u0, r.value.tally, placed + Ops(r.value.rooms)) && RoomsFit(r.value.rooms, wps, true)
    ensures r.Err? ==> r.error !in u0
    decreases |wps|
  {
    if wps == [] {
      ShiftInvAppendEmpty(setup, u0, t, placed, r.value.rooms);
    } else {
      VisitSafe(setup, u0, t, placed, wps[0]);
      if Visit(setup, t, wps[0]).Ok? {
        var v := Visit(setup, t, wps[0]).value;
        var rest := Production(setup, v.tally, wps[1..]);
        ProductionSafe(setup, u0, v.tally, placed + v.room.operators, wps[1..], rest);
        if rest.Ok? {
          assert r.value == Produced(rest.value.tally, [v.room] + rest.value.rooms);
          ShiftInvCons(setup, u0, rest.value.tally, placed, v.room, rest.value.rooms);
          RoomsFitCons(v.room, rest.value.rooms, wps, true);
        }
      }
    }
  }

  /** The shift invariant holds of equal placement sequences alike. */
  lemma ShiftInvAppendEmpty(setup: Setup, u0: map<string, int>, t: Tally, placed: seq<string>, rooms: seq<Room>)
    requires ShiftInv(setup, u0, t, placed) && rooms == []
    ensures ShiftInv(setup, u0, t, placed + Ops(rooms))
  {
    assert placed + Ops(rooms) == placed;
  }

  /** The shift invariant after a room and the rooms after it. */
  lemma ShiftInvCons(setup: Setup, u0: map<string, int>, t: Tally, placed: seq<string>, room: Room, rooms: seq<Room>)
    requires ShiftInv(setup, u0, t, (placed + room.operators) + Ops(rooms))
    ensures ShiftInv(setup, u0, t, placed + Ops([room] + rooms))
  {
    OpsCons(room, rooms);
    assert placed + Ops([room] + rooms) == (placed + room.operators) + Ops(rooms);
  }

  /** Filling the power stations keeps the shift invariant, with their operators appended;
      the rooms fit their stations. */
  lemma {:induction false} PowerPassSafe(setup: Setup, u0: map<string, int>, t: Tally, placed: seq<string>, wps: seq<Workplace>, pw: Powered)
    requires NonEmptyRules(setup.rules) && WellFormed(setup.rules)
    requires Covers(setup.catalog, u0) && ShiftInv(setup, u0, t, placed)
    requires pw == PowerPass(setup, t.usage, t.shiftUsed, wps)
    ensures ShiftInv(setup, u0, Tally(pw.usage, pw.shiftUsed, t.control, t.dormitory), placed + Ops(pw.rooms))
    ensures RoomsFit(pw.rooms, wps, false)
    decreases |wps|
  {
    if wps == [] {
      ShiftInvAppendEmpty(setup, u0, t, placed, pw.rooms);
    } else {
      var f := FillOf(setup, wps[0], t.usage, t.shiftUsed);
      FillStep(setup, u0, t, placed, wps[0], f);
      var rest := PowerPass(setup, f.usage, f.shiftUsed, wps[1..]);
      PowerPassSafe(setup, u0, Tally(f.usage, f.shiftUsed, t.control, t.dormitory), placed + f.placed, wps[1..], rest);
      var room := RoomOf(f, None);
      assert pw == Powered(rest.usage, rest.shiftUsed, [room] + rest.rooms);
      ShiftInvCons(setup, u0, Tally(rest.usage, rest.shiftUsed, t.control, t.dormitory), placed, room, rest.rooms);
      RoomsFitCons(room, rest.rooms, wps, false);
    }
  }

  /** Every operator a shift plan places in a room, in plan order. */
  function AllPlaced(plan: ShiftPlan): seq<string> {
    Ops(plan.trading) + Ops(plan.manufacture) + plan.meeting.operators + Ops(plan.power)
  }

  /** Every operator a shift plan uses, the control centre and the dormitory included. */
  function Members(plan: ShiftPlan): set<string> {
    SetOf(AllPlaced(plan)) + plan.control + plan.dormitory
  }

  /** A shift plan uses nobody twice, and its rooms fit their stations. */
  ghost predicate PlanSafe(stations: Stations, plan: ShiftPlan) {
    && Distinct(AllPlaced(plan))
    && (forall n :: n in AllPlaced(plan) ==> n !in plan.control && n !in plan.dormitory)
    && plan.control !! plan.dormitory
    && RoomsFit(plan.trading, stations.trading, true)
    && RoomsFit(plan.manufacture, stations.manufacturing, true)
    && |plan.meeting.operators| <= Slots(stations.meeting) && plan.meeting.product == None
    && RoomsFit(plan.power, stations.power, false)
  }

  /** The usage counts `after` a shift whose plan uses `members`, from the counts `usage`
      before it: each member was listed below its cap and is counted once more; no other
      count changes. */
  ghost predicate ShiftCounted(targets: seq<string>, usage: map<string, int>, after: map<string, int>, members: set<string>) {
    && (forall n :: n in after <==> n in usage)
    && (forall n :: n in members ==> n in usage && UsageOf(usage, n) < Cap(targets, n))
    && (forall n :: UsageOf(after, n) == UsageOf(usage, n) + (if n in members then 1 else 0))
  }

  /** A shift starts with nobody placed. */
  lemma ShiftInvStart(setup: Setup, usage: map<string, int>)
    ensures ShiftInv(setup, usage, Tally(usage, {}, {}, {}), [])
  {
    assert SetOf([]) == {};
  }

  /** The rest of a shift, after trading and manufacturing: the meeting room, the power
      stations and the plan they make up. */
  lemma ShiftTail(setup: Setup, stations: Stations, enable: bool, usage: map<string, int>, s: nat,
                  tr: Produced, mf: Produced, o: ShiftOutcome)
    requires NonEmptyRules(setup.rules) && WellFormed(setup.rules) && Covers(setup.catalog, usage)
    requires ShiftInv(setup, usage, mf.tally, Ops(tr.rooms) + Ops(mf.rooms))
    requires RoomsFit(tr.rooms, stations.trading, true) && RoomsFit(mf.rooms, stations.manufacturing, true)
    requires o == ShiftOutcome(
      PowerPass(setup, FillOf(setup, stations.meeting, mf.tally.usage, mf.tally.shiftUsed).usage,
                FillOf(setup, stations.meeting, mf.tally.usage, mf.tally.shiftUsed).shiftUsed, stations.power).usage,
      ShiftPlan(ShiftName(s), enable, TargetOf(setup.targets, s), tr.rooms, mf.rooms, mf.tally.control, mf.tally.dormitory,
                RoomOf(FillOf(setup, stations.meeting, mf.tally.usage, mf.tally.shiftUsed), None),
                PowerPass(setup, FillOf(setup, stations.meeting, mf.tally.usage, mf.tally.shiftUsed).usage,
                          FillOf(setup, stations.meeting, mf.tally.usage, mf.tally.shiftUsed).shiftUsed, stations.power).rooms))
    ensures PlanSafe(stations, o.plan)
    ensures ShiftCounted(setup.targets, usage, o.usage, Members(o.plan))
  {
    var m := FillOf(setup, stations.meeting, mf.tally.usage, mf.tally.shiftUsed);
    var placed := Ops(tr.rooms) + Ops(mf.rooms);
    FillStep(setup, usage, mf.tally, placed, stations.meeting, m);
    var t := Tally(m.usage, m.shiftUsed, mf.tally.control, mf.tally.dormitory);
    var pw := PowerPass(setup, m.usage, m.shiftUsed, stations.power);
    PowerPassSafe(setup, usage, t, placed + m.placed, stations.power, pw);
    assert AllPlaced(o.plan) == placed + m.placed + Ops(pw.rooms);
  }

  /** One shift: its plan uses nobody twice, its rooms fit their stations, and each operator
      it uses was owned and below the daily cap and is counted once more; the plan carries the
      shift's name and boost target. A failure names an operator the usage table does not
      list. */
  lemma PlanShiftSafe(setup: Setup, stations: Stations, enable: bool, usage: map<string, int>, s: nat,
                      r: Result<ShiftOutcome, string>)
    requires NonEmptyRules(setup.rules) && WellFormed(setup.rules) && Covers(setup.catalog, usage)
    requires r == PlanShift(setup, stations, enable, usage, s)
    ensures r.Ok? ==> PlanSafe(stations, r.value.plan) && ShiftCounted(setup.targets, usage, r.value.usage, Members(r.value.plan))
    ensures r.Ok? ==> r.value.plan.name == ShiftName(s) && r.value.plan.fiammettaEnable == enable
    ensures r.Ok? ==> r.value.plan.fiammettaTarget == TargetOf(setup.targets, s)
    ensures r.Err? ==> r.error !in usage
  {
    ShiftInvStart(setup, usage);
    var rtr := Production(setup, Tally(usage, {}, {}, {}), stations.trading);
    ProductionSafe(setup, usage, Tally(usage, {}, {}, {}), [], stations.trading, rtr);
    if rtr.Ok? {
      var tr := rtr.value;
      assert [] + Ops(tr.rooms) == Ops(tr.rooms);
      var rmf := Production(setup, tr.tally, stations.manufacturing);
      ProductionSafe(setup, usage, tr.tally, Ops(tr.rooms), stations.manufacturing, rmf);
      if rmf.Ok? {
        ShiftTail(setup, stations, enable, usage, s, tr, rmf.value, r.value);
      }
    }
  }

  /** The number of plans that use operator `n`. */
  function Count(plans: seq<ShiftPlan>, n: string): nat {
    if plans == [] then 0 else (if n in Members(plans[0]) then 1 else 0) + Count(plans[1..], n)
  }

  /** Plans for shifts `s`, `s + 1`, ...: each is safe, is named after its shift, carries the
      boost setting and its shift's boost target, and uses only operators in `listed`. */
  ghost predicate PlansSafe(setup: Setup, stations: Stations, enable: bool, listed: set<string>, s: nat, plans: seq<ShiftPlan>) {
    forall i :: 0 <= i < |plans| ==>
      && PlanSafe(stations, plans[i])
      && plans[i].name == ShiftName(s + i)
      && plans[i].fiammettaEnable == enable
      && plans[i].fiammettaTarget == TargetOf(setup.targets, s + i)
      && Members(plans[i]) <= listed
  }

  lemma PlansSafeCons(setup: Setup, stations: Stations, enable: bool, listed: set<string>, s: nat,
                      plan: ShiftPlan, plans: seq<ShiftPlan>)
    requires PlanSafe(stations, plan) && plan.name == ShiftName(s) && plan.fiammettaEnable == enable
    requires plan.fiammettaTarget == TargetOf(setup.targets, s) && Members(plan) <= listed
    requires PlansSafe(setup, stations, enable, listed, s + 1, plans)
    ensures PlansSafe(setup, stations, enable, listed, s, [plan] + plans)
  {
    var all := [plan] + plans;
    forall i | 0 <= i < |all|
      ensures PlanSafe(stations, all[i]) && all[i].name == ShiftName(s + i) && all[i].fiammettaEnable == enable
      ensures all[i].fiammettaTarget == TargetOf(setup.targets, s + i) && Members(all[i]) <= listed
    {
      if i > 0 {
        assert all[i] == plans[i - 1] && s + i == (s + 1) + (i - 1);
      }
    }
  }

  lemma CountCons(plan: ShiftPlan, plans: seq<ShiftPlan>, n: string)
    ensures Count([plan] + plans, n) == (if n in Members(plan) then 1 else 0) + Count(plans, n)
  {
    assert ([plan] + plans)[1..] == plans;
  }

  /** The usage counts after a run of shifts: each count grew by the number of plans that
      use the operator, the listed operators stay the same, and no count exceeds its cap if
      none did before. */
  ghost predicate DayCounted(targets: seq<string>, usage: map<string, int>, after: map<string, int>, plans: seq<ShiftPlan>) {
    && (forall n :: n in after <==> n in usage)
    && (forall n :: UsageOf(after, n) == UsageOf(usage, n) + Count(plans, n))
    && ((forall n :: UsageOf(usage, n) <= Cap(targets, n)) ==> forall n :: UsageOf(after, n) <= Cap(targets, n))
  }

  lemma DayCountedCons(targets: seq<string>, usage: map<string, int>, mid: map<string, int>, after: map<string, int>,
                       plan: ShiftPlan, plans: seq<ShiftPlan>)
    requires ShiftCounted(targets, usage, mid, Members(plan))
    requires DayCounted(targets, mid, after, plans)
    ensures DayCounted(targets, usage, after, [plan] + plans)
  {
    forall n ensures UsageOf(after, n) == UsageOf(usage, n) + Count([plan] + plans, n) {
      CountCons(plan, plans, n);
    }
    if forall n :: UsageOf(usage, n) <= Cap(targets, n) {
      assert forall n :: UsageOf(mid, n) <= Cap(targets, n);
    }
  }

  lemma ShiftsNone(setup: Setup, stations: Stations, enable: bool, usage: map<string, int>, s: nat)
    ensures PlansSafe(setup, stations, enable, usage.Keys, s, [])
    ensures DayCounted(setup.targets, usage, usage, [])
  {
  }

  /** What a safe shift planner promises of the shift `s` it plans from the usage counts
      `usage`: a plan that uses nobody twice, fits its stations and carries the shift's name
      and boost target, with each operator it uses counted once more; or a failure naming an
      operator the usage table does not list. */
  ghost predicate ShiftOk(setup: Setup, stations: Stations, enable: bool, usage: map<string, int>, s: nat,
                          r: Result<ShiftOutcome, string>) {
    && (r.Ok? ==> PlanSafe(stations, r.value.plan) && ShiftCounted(setup.targets, usage, r.value.usage, Members(r.value.plan)))
    && (r.Ok? ==> r.value.plan.name == ShiftName(s) && r.value.plan.fiammettaEnable == enable)
    && (r.Ok? ==> r.value.plan.fiammettaTarget == TargetOf(setup.targets, s))
    && (r.Err? ==> r.error !in usage)
  }

  /** Every owned operator still has a usage count after a safe shift. */
  lemma CoversAfter(setup: Setup, stations: Stations, enable: bool, usage: map<string, int>, s: nat, o: ShiftOutcome)
    requires Covers(setup.catalog, usage) && ShiftOk(setup, stations, enable, usage, s, Ok(o))
    ensures Covers(setup.catalog, o.usage)
  {
  }

  /** One shift's plan put before the plans of the shifts after it. */
  lemma ShiftsJoin(setup: Setup, stations: Stations, enable: bool, usage: map<string, int>, s: nat, count: nat,
                   o: ShiftOutcome, rest: Result<Planned, string>, r: Result<Planned, string>)
    requires count > 0 && r == PrependPlans([o.plan], rest)
    requires ShiftOk(setup, stations, enable, usage, s, Ok(o))
    requires rest.Ok? ==> |rest.value.plans| == count - 1
    requires rest.Ok? ==> PlansSafe(setup, stations, enable, o.usage.Keys, s + 1, rest.value.plans)
    requires rest.Ok? ==> DayCounted(setup.targets, o.usage, rest.value.usage, rest.value.plans)
    requires rest.Err? ==> rest.error !in o.usage
    ensures r.Ok? ==> |r.value.plans| == count
    ensures r.Ok? ==> PlansSafe(setup, stations, enable, usage.Keys, s, r.value.plans)
    ensures r.Ok? ==> DayCounted(setup.targets, usage, r.value.usage, r.value.plans)
    ensures r.Err? ==> r.error !in usage
  {
    assert o.usage.Keys == usage.Keys;
    if rest.Ok? {
      PlansSafeCons(setup, stations, enable, usage.Keys, s, o.plan, rest.value.plans);
      DayCountedCons(setup.targets, usage, o.usage, rest.value.usage, o.plan, rest.value.plans);
    }
  }

  /** Shifts planned by a safe shift planner: as many plans as shifts, each safe and for its
      own shift, the usage counts grown by the plans that use each operator and never past the
      daily cap. A failure names an operator the usage table does not list. */
  lemma {:induction false} DaySafe(setup: Setup, stations: Stations, enable: bool,
                                   plan: (map<string, int>, nat) -> Result<ShiftOutcome, string>,
                                   usage: map<string, int>, s: nat, count: nat)
    requires Covers(setup.catalog, usage)
    requires forall u, k :: Covers(setup.catalog, u) ==> ShiftOk(setup, stations, enable, u, k, plan(u, k))
    ensures Day(plan, usage, s, count).Ok? ==>
      && |Day(plan, usage, s, count).value.plans| == count
      && PlansSafe(setup, stations, enable, usage.Keys, s, Day(plan, usage, s, count).value.plans)
      && DayCounted(setup.targets, usage, Day(plan, usage, s, count).value.usage, Day(plan, usage, s, count).value.plans)
    ensures Day(plan, usage, s, count).Err? ==> Day(plan, usage, s, count).error !in usage
    decreases count
  {
    if count == 0 {
      ShiftsNone(setup, stations, enable, usage, s);
    } else {
      var r := plan(usage, s);
      assert ShiftOk(setup, stations, enable, usage, s, r);
      if r.Ok? {
        var o := r.value;
        CoversAfter(setup, stations, enable, usage, s, o);
        DaySafe(setup, stations, enable, plan, o.usage, s + 1, count - 1);
        ShiftsJoin(setup, stations, enable, usage, s, count, o, Day(plan, o.usage, s + 1, count - 1), Day(plan, usage, s, count));
      }
    }
  }

  /** The base's shifts: as many plans as shifts, each safe and for its own shift, the usage
      counts grown by the plans that use each operator and never past the daily cap. A failure
      names an operator the usage table does not list. */
  lemma ShiftsSafe(setup: Setup, stations: Stations, enable: bool, usage: map<string, int>, s: nat, count: nat)
    requires NonEmptyRules(setup.rules) && WellFormed(setup.rules) && Covers(setup.catalog, usage)
    ensures Shifts(setup, stations, enable, usage, s, count).Ok? ==>
      && |Shifts(setup, stations, enable, usage, s, count).value.plans| == count
      && PlansSafe(setup, stations, enable, usage.Keys, s, Shifts(setup, stations, enable, usage, s, count).value.plans)
      && DayCounted(setup.targets, usage, Shifts(setup, stations, enable, usage, s, count).value.usage,
                    Shifts(setup, stations, enable, usage, s, count).value.plans)
    ensures Shifts(setup, stations, enable, usage, s, count).Err? ==> Shifts(setup, stations, enable, usage, s, count).error !in usage
  {
    var plan := ShiftStep(setup, stations, enable);
    forall u, k | Covers(setup.catalog, u) ensures ShiftOk(setup, stations, enable, u, k, plan(u, k)) {
      PlanShiftSafe(setup, stations, enable, u, k, PlanShift(setup, stations, enable, u, k));
    }
    DaySafe(setup, stations, enable, plan, usage, s, count);
  }

  /** The day's three shifts, from every owned operator unused: three plans, each safe and
      for its own shift, using only owned operators, no operator on more shifts than its daily
      cap (two, three for a boost target), and the final counts are the number of shifts each
      operator works. A failure names an operator the player does not own. */
  lemma DayPlanSafe(setup: Setup, stations: Stations, enable: bool)
    requires NonEmptyRules(setup.rules) && WellFormed(setup.rules)
    ensures Shifts(setup, stations, enable, InitialUsage(setup.catalog), 0, SHIFTS).Ok? ==>
      && |Shifts(setup, stations, enable, InitialUsage(setup.catalog), 0, SHIFTS).value.plans| == SHIFTS
      && PlansSafe(setup, stations, enable, InitialUsage(setup.catalog).Keys, 0,
                   Shifts(setup, stations, enable, InitialUsage(setup.catalog), 0, SHIFTS).value.plans)
      && (forall n :: n in InitialUsage(setup.catalog).Keys <==> Owned(setup.catalog, n))
      && (forall n :: Count(Shifts(setup, stations, enable, InitialUsage(setup.catalog), 0, SHIFTS).value.plans, n) <= Cap(setup.targets, n))
      && (forall n :: UsageOf(Shifts(setup, stations, enable, InitialUsage(setup.catalog), 0, SHIFTS).value.usage, n)
                      == Count(Shifts(setup, stations, enable, InitialUsage(setup.catalog), 0, SHIFTS).value.plans, n))
    ensures Shifts(setup, stations, enable, InitialUsage(setup.catalog), 0, SHIFTS).Err? ==>
      !Owned(setup.catalog, Shifts(setup, stations, enable, InitialUsage(setup.catalog), 0, SHIFTS).error)
  {
    var u0 := InitialUsage(setup.catalog);
    assert forall n :: UsageOf(u0, n) == 0;
    ShiftsSafe(setup, stations, enable, u0, 0, SHIFTS);
  }

  /** The day's boost targets: at most three distinct operators, each owned and promoted at
      least twice, and none unless boosting is enabled and the boost operator is available. */
  lemma DayTargetsCorrect(catalog: OperatorTable, rules: seq<Rule>, enable: bool)
    ensures |DayTargets(catalog, rules, enable)| <= MAX_TARGETS && Distinct(DayTargets(catalog, rules, enable))
    ensures forall n :: n in DayTargets(catalog, rules, enable) ==> Qualifies(catalog, n)
    ensures DayTargets(catalog, rules, enable) != [] ==> enable && FiammettaAvailable(catalog)
  {
    if enable && FiammettaAvailable(catalog) {
      PreferredDistinct();
      TargetsCorrect(catalog, rules, PREFERRED, BoostTargets(catalog, rules));
    }
  }

  /** The plan of the day: three shifts, each using nobody twice, with rooms that fit the
      stocked stations, the shift's name, boosting on exactly when enabled with a target, and
      the targets taken in turn; only owned operators are used, each on no more shifts than
      its cap (three for a boost target, two otherwise). A failure names an operator the
      player does not own. */
  lemma DayPlansSafe(catalog: OperatorTable, book: RuleBook, rules: seq<Rule>, stations: Stations,
                     given: Option<ProductRequirements>, configured: Option<ProductRequirements>, enable: bool)
    requires NonEmptyRules(rules) && WellFormed(rules)
    ensures DayPlans(catalog, book, rules, stations, given, configured, enable).Ok? ==>
      && |DayPlans(catalog, book, rules, stations, given, configured, enable).value| == SHIFTS
      && PlansSafe(DaySetup(catalog, book, rules, enable), Stocked(stations, RequirementsOf(given, configured)),
                   DayEnable(enable, DayTargets(catalog, rules, enable)), InitialUsage(catalog).Keys, 0,
                   DayPlans(catalog, book, rules, stations, given, configured, enable).value)
      && (forall n :: n in InitialUsage(catalog).Keys <==> Owned(catalog, n))
      && (forall n :: Count(DayPlans(catalog, book, rules, stations, given, configured, enable).value, n)
                      <= Cap(DayTargets(catalog, rules, enable), n))
    ensures DayPlans(catalog, book, rules, stations, given, configured, enable).Err? ==>
      !Owned(catalog, DayPlans(catalog, book, rules, stations, given, configured, enable).error)
  {
    DayPlanSafe(DaySetup(catalog, book, rules, enable), Stocked(stations, RequirementsOf(given, configured)),
                DayEnable(enable, DayTargets(catalog, rules, enable)));
  }
}
