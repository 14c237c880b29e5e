/** The operator catalog, the workplaces, and the eligibility predicates that test a rule's
    elite overrides and its control-centre, dormitory and power-station requirements
    against the catalog. */
module Catalog {
  import opened Results
  import opened Text

  /** One catalog record (the source's `Operator` dataclass). */
  datatype Operator = Operator(
    id: string,
    name: string,
    elite: int,
    level: int,
    own: bool,
    potential: int,
    rarity: int)

  /** An (operator name, minimum elite) pair. Control-centre, dormitory and power-station
      requirements have this one shape; which list a pair sits in gives its meaning. */
  datatype Requirement = Requirement(operator: string, eliteRequired: int)

  /** The catalog: operator records by name. */
  type OperatorTable = map<string, Operator>

  /** A workplace instance. Only `currentProduct` is ever changed, once per planning run. */
  datatype Workplace = Workplace(
    id: string,
    name: string,
    maxOperators: int,
    baseEfficiency: int,
    products: seq<string>,
    currentProduct: string)

  /** The operator is in the catalog and owned: a key of the source's `op_by_name`. */
  predicate Owned(catalog: OperatorTable, n: string) {
    n in catalog && catalog[n].own
  }

  /** One support requirement holds: the operator exists, is owned and has the elite level. */
  predicate RequirementMet(req: Requirement, catalog: OperatorTable) {
    Owned(catalog, req.operator) && catalog[req.operator].elite >= req.eliteRequired
  }

  /** `check_control_center_requirements`, `check_dormitory_requirements` and
      `check_power_station_requirements` (three identical early-exit loops). */
  function RequirementsMet(reqs: seq<Requirement>, catalog: OperatorTable): (ok: bool)
    ensures ok <==> forall i :: 0 <= i < |reqs| ==> RequirementMet(reqs[i], catalog)
  {
    if reqs == [] then true
    else if !RequirementMet(reqs[0], catalog) then false
    else RequirementsMet(reqs[1..], catalog)
  }

  /** Requirement lists collected from several rules hold together iff each list holds. */
  lemma RequirementsMetAppend(a: seq<Requirement>, b: seq<Requirement>, catalog: OperatorTable)
    ensures RequirementsMet(a + b, catalog) <==> RequirementsMet(a, catalog) && RequirementsMet(b, catalog)
  {
    if RequirementsMet(a, catalog) && RequirementsMet(b, catalog) {
      forall i | 0 <= i < |a + b| ensures RequirementMet((a + b)[i], catalog) {
        if i >= |a| { assert (a + b)[i] == b[i - |a|]; }
      }
    }
    if RequirementsMet(a + b, catalog) {
      forall i | 0 <= i < |a| ensures RequirementMet(a[i], catalog) {
        assert (a + b)[i] == a[i];
      }
      forall i | 0 <= i < |b| ensures RequirementMet(b[i], catalog) {
        assert (a + b)[|a| + i] == b[i];
      }
    }
  }

  /** `{op.name: op for op in ops}`: a later record with the same name replaces an earlier one. */
  function ByName(ops: seq<Operator>): map<string, Operator> {
    if ops == [] then map[]
    else ByName(ops[..|ops| - 1])[ops[|ops| - 1].name := ops[|ops| - 1]]
  }

  predicate DistinctNames(ops: seq<Operator>) {
    forall i, j :: 0 <= i < j < |ops| ==> ops[i].name != ops[j].name
  }

  lemma {:induction false} ByNameLookup(ops: seq<Operator>)
    requires DistinctNames(ops)
    ensures forall n :: n in ByName(ops) <==> exists i :: 0 <= i < |ops| && ops[i].name == n
    ensures forall i :: 0 <= i < |ops| ==> ops[i].name in ByName(ops) && ByName(ops)[ops[i].name] == ops[i]
  {
    if ops != [] {
      var front := ops[..|ops| - 1];
      ByNameLookup(front);
      forall n | n in ByName(ops) ensures exists i :: 0 <= i < |ops| && ops[i].name == n {
        if n != ops[|ops| - 1].name {
          assert n in ByName(front);
          var i :| 0 <= i < |front| && front[i].name == n;
          assert ops[i] == front[i];
        }
      }
      forall i | 0 <= i < |ops| ensures ops[i].name in ByName(ops) && ByName(ops)[ops[i].name] == ops[i] {
        if i < |ops| - 1 { assert ops[i] == front[i]; }
      }
    }
  }

  /** `check_elite_requirements`: every overridden name that is present among `ops` has at
      least the required elite; overridden names not among `ops` are not constrained. */
  predicate EliteSatisfied(ops: seq<Operator>, overrides: map<string, int>) {
    var byName := ByName(ops);
    forall n :: n in overrides && n in byName ==> byName[n].elite >= overrides[n]
  }

  /** With distinct names the check reads per operator: each listed operator that has an
      override meets it. */
  lemma EliteSatisfiedPerOperator(ops: seq<Operator>, overrides: map<string, int>)
    requires DistinctNames(ops)
    ensures EliteSatisfied(ops, overrides) <==>
      forall i :: 0 <= i < |ops| && ops[i].name in overrides ==> ops[i].elite >= overrides[ops[i].name]
  {
    ByNameLookup(ops);
  }

  /** The boost operator of the planner. */
  const FIAMMETTA: string := "菲亚梅塔"

  /** `check_fiammetta_available`: the boost operator is owned at elite 2 or more. */
  predicate FiammettaAvailable(catalog: OperatorTable) {
    FIAMMETTA in catalog && catalog[FIAMMETTA].own && catalog[FIAMMETTA].elite >= 2
  }

  const TRADING: string := "trading_station"
  const MANUFACTURING: string := "manufacturing_station"
  const MEETING: string := "meeting_room"
  const POWER: string := "power_station"

  /** `get_workplace_type`: classifies a workplace id by the first keyword it contains; an id
      with none of them gets its text before the first `_`, then `'_station'[0]`, then
      `'_station'`. */
  function WorkplaceType(id: string): string {
    if Contains(id, "trading") then TRADING
    else if Contains(id, "manufacturing") then MANUFACTURING
    else if Contains(id, "meeting") then MEETING
    else if Contains(id, "power") then POWER
    else FirstField(id, '_') + ["_station"[0]] + "_station"
  }

  /** An id carries one of the four known types iff it contains one of the keywords; an
      unknown id gets a type ending in a double underscore before `station`, which no rule
      category of the four shares. */
  lemma WorkplaceTypeKnown(id: string)
    ensures WorkplaceType(id) in {TRADING, MANUFACTURING, MEETING, POWER} <==>
      Contains(id, "trading") || Contains(id, "manufacturing") || Contains(id, "meeting") || Contains(id, "power")
  {
    var r := WorkplaceType(id);
    if !(Contains(id, "trading") || Contains(id, "manufacturing") || Contains(id, "meeting") || Contains(id, "power")) {
      var f := FirstField(id, '_');
      assert r == f + "__station";
      assert r[|r| - 9] == '_';
      assert TRADING[|TRADING| - 9] != '_';
      assert MANUFACTURING[|MANUFACTURING| - 9] != '_';
      assert MEETING[|MEETING| - 9] != '_';
      assert POWER[|POWER| - 9] != '_';
    }
  }
}
