/** The rule compiler: turns the nested `combination_rules` specification (workplace type ->
    system name -> rule list or base-combo system) into the flat table of combination rules,
    sorted by (priority, synergy) descending with ties kept in specification order. */
module Rules {
  import opened Results
  import opened Text
  import opened Catalog
  import opened StableSort

  /** The value of a `product` key: one string, a list of strings, or any other JSON value. */
  datatype ProductField = OneProduct(product: string) | ProductList(products: seq<string>) | OtherValue

  /** One raw rule entry. An absent `combo`, `efficiency`, `apply_each`, `priority` or
      `product` key is `None`; an absent support list is the empty list, which the source
      treats alike. */
  datatype RuleEntry = RuleEntry(
    combo: Option<seq<string>>,
    efficiency: Option<real>,
    controlCenter: seq<string>,
    dormitory: seq<string>,
    powerStation: seq<string>,
    applyEach: Option<bool>,
    priority: Option<int>,
    product: Option<ProductField>)

  /** The value under a system name: a plain list of rules, a dict with an optional
      `base_combo`, `product` and `rules`, or some other JSON value (ignored by the source). */
  datatype SystemEntry =
    | RuleList(entries: seq<RuleEntry>)
    | BaseComboSystem(baseCombo: seq<string>, product: Option<ProductField>, entries: seq<RuleEntry>)
    | OtherEntry

  /** The systems of one workplace type, in the order of the specification's dict. */
  datatype Category = Category(workplaceType: string, systems: seq<(string, SystemEntry)>)

  /** The `combination_rules` dict, in order. */
  type RuleBook = seq<Category>

  /** What makes the source's rule loading raise: a list-system rule without `combo`
      (KeyError), a tier that `int()` rejects (ValueError), a rule without `efficiency`
      (KeyError); `UnsupportedProduct` is the model's own refusal of a raw product value. */
  datatype CompileError = MissingCombo | BadTier(token: string) | MissingEfficiency | UnsupportedProduct

  /** A compiled combination rule (the source's `OperatorEfficiency`). */
  datatype Rule = Rule(
    operators: seq<string>,
    workplaceType: string,
    synergy: real,
    description: string,
    eliteRequirements: map<string, int>,
    controlCenter: seq<Requirement>,
    dormitory: seq<Requirement>,
    powerStation: seq<Requirement>,
    applyEach: bool,
    priority: int,
    products: seq<string>)

  /** Description given to every apply-each rule of a plain rule list. */
  const SINGLE_DESCRIPTION: string := "通用单人"

  /** `parse_operator_string`: `"name/tier"` gives the stripped name and `int()` of the
      stripped tier text (split at the first `/`); a token without `/` gives tier 0. */
  function ParseOperatorString(token: string): Result<(string, int), CompileError> {
    match IndexOf(token, '/')
    case None => Ok((Strip(token), 0))
    case Some(k) =>
      match ParseInt(Strip(token[k + 1..]))
      case None => Err(BadTier(token))
      case Some(tier) => Ok((Strip(token[..k]), tier))
  }

  /** A stripped name without `/` followed by `/` and a printed integer parses back to the
      name and that integer. */
  lemma ParseOperatorStringRoundTrip(name: string, tier: int)
    requires '/' !in name && Strip(name) == name
    ensures ParseOperatorString(name + "/" + IntToString(tier)) == Ok((name, tier))
  {
    var t := IntToString(tier);
    IntToStringPlain(tier);
    IntRoundTrip(tier);
    StripFixed(t);
    ParseNameAndTier(name, t);
  }

  /** A token `name/text` whose name part has no `/` parses to the stripped name and the
      integer the stripped `text` denotes, and fails with `BadTier` when that text is no
      integer. */
  lemma ParseNameAndTier(name: string, text: string)
    requires '/' !in name
    ensures ParseInt(Strip(text)).Some? ==>
      ParseOperatorString(name + "/" + text) == Ok((Strip(name), ParseInt(Strip(text)).value))
    ensures ParseInt(Strip(text)).None? ==>
      ParseOperatorString(name + "/" + text) == Err(BadTier(name + "/" + text))
  {
    SplitAtSlash(name, text);
  }

  /** A token without `/` is a stripped name at tier 0. */
  lemma ParseWithoutSlash(token: string)
    requires '/' !in token
    ensures ParseOperatorString(token) == Ok((Strip(token), 0))
  {
    assert IndexOf(token, '/').None?;
  }

  /** Splitting `name/text` at its first `/` gives back `name` and `text`. */
  lemma SplitAtSlash(name: string, text: string)
    requires '/' !in name
    ensures var token := name + "/" + text;
      IndexOf(token, '/') == Some(|name|) && token[..|name|] == name && token[|name| + 1..] == text
  {
    IndexOfAfter(name, '/', text);
    assert name + "/" + text == name + ['/'] + text;
  }

  /** The first `c` of `a + [c] + b` is right after `a` when `a` has none. */
  lemma IndexOfAfter(a: string, c: char, b: string)
    requires c !in a
    ensures IndexOf(a + [c] + b, c) == Some(|a|)
  {
    var s := a + [c] + b;
    assert s[|a|] == c;
    assert s[..|a|] == a;
  }

  /** Parses every token of a list in order with `parse`; the first failure fails the list. */
  function ParseEach(parse: string -> Result<(string, int), CompileError>, tokens: seq<string>): (r: Result<seq<(string, int)>, CompileError>)
    ensures r.Ok? ==> |r.value| == |tokens|
  {
    if tokens == [] then Ok([])
    else
      match parse(tokens[0])
      case Err(e) => Err(e)
      case Ok(first) =>
        match ParseEach(parse, tokens[1..])
        case Err(e) => Err(e)
        case Ok(rest) => Ok([first] + rest)
  }

  /** The list parses exactly when every token does, and then the `i`-th result is the
      `i`-th token's. */
  lemma {:induction false} ParseEachFacts(parse: string -> Result<(string, int), CompileError>, tokens: seq<string>)
    ensures ParseEach(parse, tokens).Ok? <==> forall i :: 0 <= i < |tokens| ==> parse(tokens[i]).Ok?
    ensures ParseEach(parse, tokens).Ok? ==>
      forall i :: 0 <= i < |tokens| ==> parse(tokens[i]) == Ok(ParseEach(parse, tokens).value[i])
    decreases |tokens|
  {
    if tokens != [] {
      ParseEachFacts(parse, tokens[1..]);
      assert forall i :: 0 <= i < |tokens| - 1 ==> tokens[1..][i] == tokens[i + 1];
      if parse(tokens[0]).Ok? && ParseEach(parse, tokens[1..]).Ok? {
        var rest := ParseEach(parse, tokens[1..]).value;
        assert ParseEach(parse, tokens).value == [parse(tokens[0]).value] + rest;
      }
    }
  }

  /** Parses every token of a list in order; the first malformed tier fails the list. */
  function ParseTokens(tokens: seq<string>): (r: Result<seq<(string, int)>, CompileError>)
    ensures r.Ok? ==> |r.value| == |tokens|
  {
    if tokens == [] then Ok([])
    else
      match ParseOperatorString(tokens[0])
      case Err(e) => Err(e)
      case Ok(first) =>
        match ParseTokens(tokens[1..])
        case Err(e) => Err(e)
        case Ok(rest) => Ok([first] + rest)
  }

  lemma {:induction false} ParseTokensEach(tokens: seq<string>)
    ensures ParseTokens(tokens) == ParseEach(ParseOperatorString, tokens)
    decreases |tokens|
  {
    if tokens != [] {
      ParseTokensEach(tokens[1..]);
    }
  }

  /** The list parses exactly when every token does, and then the `i`-th result is the
      `i`-th token's. */
  lemma ParseTokensFacts(tokens: seq<string>)
    ensures ParseTokens(tokens).Ok? <==> forall i :: 0 <= i < |tokens| ==> ParseOperatorString(tokens[i]).Ok?
    ensures ParseTokens(tokens).Ok? ==>
      forall i :: 0 <= i < |tokens| ==> ParseOperatorString(tokens[i]) == Ok(ParseTokens(tokens).value[i])
  {
    ParseTokensEach(tokens);
    ParseEachFacts(ParseOperatorString, tokens);
  }

  function Names(parsed: seq<(string, int)>): (r: seq<string>)
    ensures |r| == |parsed| && forall i :: 0 <= i < |parsed| ==> r[i] == parsed[i].0
  {
    seq(|parsed|, i requires 0 <= i < |parsed| => parsed[i].0)
  }

  function Requirements(parsed: seq<(string, int)>): (r: seq<Requirement>)
    ensures |r| == |parsed| && forall i :: 0 <= i < |parsed| ==> r[i] == Requirement(parsed[i].0, parsed[i].1)
  {
    seq(|parsed|, i requires 0 <= i < |parsed| => Requirement(parsed[i].0, parsed[i].1))
  }

  /** Records each parsed token's tier as an override of its name when the tier is
      positive, later tokens replacing earlier ones, on top of `base`. */
  function Overrides(base: map<string, int>, parsed: seq<(string, int)>): map<string, int> {
    if parsed == [] then base
    else
      var m := Overrides(base, parsed[..|parsed| - 1]);
      var last := parsed[|parsed| - 1];
      if last.1 > 0 then m[last.0 := last.1] else m
  }

  /** The tier of the last token naming `n` with a positive tier, if any. */
  function LastPositiveTier(parsed: seq<(string, int)>, n: string): (r: Option<int>)
    ensures r.Some? ==> r.value > 0
    ensures r.Some? <==> exists i :: 0 <= i < |parsed| && parsed[i].0 == n && parsed[i].1 > 0
  {
    if parsed == [] then None
    else if parsed[|parsed| - 1].0 == n && parsed[|parsed| - 1].1 > 0 then Some(parsed[|parsed| - 1].1)
    else LastPositiveTier(parsed[..|parsed| - 1], n)
  }

  /** An override exists for `n` iff some token names it with a positive tier (or the base
      already had one), and then it is the tier of the last such token. */
  lemma {:induction false} OverridesLookup(base: map<string, int>, parsed: seq<(string, int)>, n: string)
    ensures n in Overrides(base, parsed) <==> LastPositiveTier(parsed, n).Some? || n in base
    ensures n in Overrides(base, parsed) ==>
      Overrides(base, parsed)[n] == (if LastPositiveTier(parsed, n).Some? then LastPositiveTier(parsed, n).value else base[n])
  {
    if parsed != [] {
      OverridesLookup(base, parsed[..|parsed| - 1], n);
    }
  }

  /** In a base-combo system a rule's own token for a name shadows the base combo's. */
  lemma ComboOverrideShadowsBase(baseTokens: seq<(string, int)>, comboTokens: seq<(string, int)>, n: string)
    ensures var m := Overrides(Overrides(map[], baseTokens), comboTokens);
      && (n in m <==> LastPositiveTier(comboTokens, n).Some? || LastPositiveTier(baseTokens, n).Some?)
      && (LastPositiveTier(comboTokens, n).Some? ==> m[n] == LastPositiveTier(comboTokens, n).value)
      && (LastPositiveTier(comboTokens, n).None? && LastPositiveTier(baseTokens, n).Some? ==>
            m[n] == LastPositiveTier(baseTokens, n).value)
  {
    OverridesLookup(map[], baseTokens, n);
    OverridesLookup(Overrides(map[], baseTokens), comboTokens, n);
  }

  /** A `product` value as a list: absent is `[]`, a string is a one-element list. */
  function ProductsOf(field: Option<ProductField>): (r: Result<seq<string>, CompileError>)
    ensures field.None? ==> r == Ok([])
    ensures field.Some? && field.value.OneProduct? ==> r == Ok([field.value.product])
  {
    match field
    case None => Ok([])
    case Some(OneProduct(p)) => Ok([p])
    case Some(ProductList(ps)) => Ok(ps)
    case Some(OtherValue) => Err(UnsupportedProduct)
  }

  /** A base-combo rule's products: its own string or list, otherwise the system's. */
  function SubRuleProducts(own: Option<ProductField>, system: Option<ProductField>): Result<seq<string>, CompileError> {
    match own
    case Some(OneProduct(p)) => Ok([p])
    case Some(ProductList(ps)) => Ok(ps)
    case _ => ProductsOf(system)
  }

  /** The parsed base combo and the raw product value of a base-combo system. */
  datatype BaseCombo = BaseCombo(tokens: seq<(string, int)>, product: Option<ProductField>)

  /** A rule of a plain rule list (infrast.py lines 139-185). */
  function CompileListEntry(wtype: string, systemName: string, e: RuleEntry): (r: Result<Rule, CompileError>)
    ensures r.Ok? <==>
      && e.combo.Some? && ParseTokens(e.combo.value).Ok?
      && ParseTokens(e.controlCenter).Ok? && ParseTokens(e.dormitory).Ok? && ParseTokens(e.powerStation).Ok?
      && ProductsOf(e.product).Ok? && e.efficiency.Some?
    ensures r.Ok? ==>
      && r.value.workplaceType == wtype && Some(r.value.synergy) == e.efficiency
      && r.value.applyEach == e.applyEach.GetOr(false) && r.value.priority == e.priority.GetOr(0)
      && |r.value.operators| == |e.combo.value|
      && (forall i :: 0 <= i < |e.combo.value| ==>
            ParseOperatorString(e.combo.value[i]).Ok? &&
            r.value.operators[i] == ParseOperatorString(e.combo.value[i]).value.0)
      && (forall n :: n in r.value.eliteRequirements ==> n in r.value.operators && r.value.eliteRequirements[n] > 0)
  {
    if e.combo.None? then Err(MissingCombo)
    else
      ParseTokensFacts(e.combo.value);
      var combo :- ParseTokens(e.combo.value);
      var cc :- ParseTokens(e.controlCenter);
      var dorm :- ParseTokens(e.dormitory);
      var power :- ParseTokens(e.powerStation);
      var operators := Names(combo);
      var applyEach := e.applyEach.GetOr(false);
      var description := if applyEach then SINGLE_DESCRIPTION else systemName + " - " + Join(operators, ", ");
      var products :- ProductsOf(e.product);
      if e.efficiency.None? then Err(MissingEfficiency)
      else
        var overrides := Overrides(map[], combo);
        assert forall n :: n in overrides ==> n in operators && overrides[n] > 0 by {
          forall n | n in overrides ensures n in operators && overrides[n] > 0 {
            OverridesLookup(map[], combo, n);
            var i :| 0 <= i < |combo| && combo[i].0 == n && combo[i].1 > 0;
            assert operators[i] == n;
          }
        }
        Ok(Rule(operators, wtype, e.efficiency.value, description, overrides,
                Requirements(cc), Requirements(dorm), Requirements(power),
                applyEach, e.priority.GetOr(0), products))
  }

  /** A rule of a base-combo system (infrast.py lines 202-251): its operators are the base
      combo followed by its own combo, its overrides the base's shadowed by its own. */
  function CompileBaseEntry(wtype: string, systemName: string, base: BaseCombo, e: RuleEntry): (r: Result<Rule, CompileError>)
    ensures r.Ok? <==>
      && ParseTokens(e.combo.GetOr([])).Ok?
      && ParseTokens(e.controlCenter).Ok? && ParseTokens(e.dormitory).Ok? && ParseTokens(e.powerStation).Ok?
      && SubRuleProducts(e.product, base.product).Ok? && e.efficiency.Some?
    ensures r.Ok? ==>
      && r.value.workplaceType == wtype && Some(r.value.synergy) == e.efficiency
      && r.value.operators == Names(base.tokens) + Names(ParseTokens(e.combo.GetOr([])).value)
      && r.value.eliteRequirements == Overrides(Overrides(map[], base.tokens), ParseTokens(e.combo.GetOr([])).value)
      && (e.product.None? ==> Ok(r.value.products) == ProductsOf(base.product))
  {
    var combo :- ParseTokens(e.combo.GetOr([]));
    var cc :- ParseTokens(e.controlCenter);
    var dorm :- ParseTokens(e.dormitory);
    var power :- ParseTokens(e.powerStation);
    var products :- SubRuleProducts(e.product, base.product);
    var operators := Names(base.tokens) + Names(combo);
    var description := systemName + " - " + Join(operators, ", ");
    if e.efficiency.None? then Err(MissingEfficiency)
    else
      Ok(Rule(operators, wtype, e.efficiency.value, description,
              Overrides(Overrides(map[], base.tokens), combo),
              Requirements(cc), Requirements(dorm), Requirements(power),
              e.applyEach.GetOr(false), e.priority.GetOr(0), products))
  }

  /** The remaining fields of a compiled plain-list rule: the overrides come from its combo,
      each support list is the parse of its own field, the products are its product field's,
      and the description names the system and operators unless the rule is apply-each. */
  lemma CompileListEntryFields(wtype: string, systemName: string, e: RuleEntry)
    ensures var r := CompileListEntry(wtype, systemName, e);
      r.Ok? ==>
      && e.combo.Some? && ParseTokens(e.combo.value).Ok?
      && r.value.eliteRequirements == Overrides(map[], ParseTokens(e.combo.value).value)
      && ParseTokens(e.controlCenter).Ok? && r.value.controlCenter == Requirements(ParseTokens(e.controlCenter).value)
      && ParseTokens(e.dormitory).Ok? && r.value.dormitory == Requirements(ParseTokens(e.dormitory).value)
      && ParseTokens(e.powerStation).Ok? && r.value.powerStation == Requirements(ParseTokens(e.powerStation).value)
      && ProductsOf(e.product).Ok? && r.value.products == ProductsOf(e.product).value
      && r.value.description ==
           if r.value.applyEach then SINGLE_DESCRIPTION else systemName + " - " + Join(r.value.operators, ", ")
  {
  }

  /** The remaining fields of a compiled base-combo rule: the apply-each flag, the priority,
      each parsed support list, its own product string or list when it has one (the system's
      otherwise), and a description naming the system and operators. */
  lemma CompileBaseEntryFields(wtype: string, systemName: string, base: BaseCombo, e: RuleEntry)
    ensures var r := CompileBaseEntry(wtype, systemName, base, e);
      r.Ok? ==>
      && r.value.applyEach == e.applyEach.GetOr(false) && r.value.priority == e.priority.GetOr(0)
      && ParseTokens(e.controlCenter).Ok? && r.value.controlCenter == Requirements(ParseTokens(e.controlCenter).value)
      && ParseTokens(e.dormitory).Ok? && r.value.dormitory == Requirements(ParseTokens(e.dormitory).value)
      && ParseTokens(e.powerStation).Ok? && r.value.powerStation == Requirements(ParseTokens(e.powerStation).value)
      && (e.product.Some? && e.product.value.OneProduct? ==> r.value.products == [e.product.value.product])
      && (e.product.Some? && e.product.value.ProductList? ==> r.value.products == e.product.value.products)
      && (e.product == Some(OtherValue) ==> Ok(r.value.products) == ProductsOf(base.product))
      && r.value.description == systemName + " - " + Join(r.value.operators, ", ")
  {
  }

  function CompileEntry(wtype: string, systemName: string, base: Option<BaseCombo>, e: RuleEntry): Result<Rule, CompileError> {
    if base.None? then CompileListEntry(wtype, systemName, e) else CompileBaseEntry(wtype, systemName, base.value, e)
  }

  /** The rules of one system, in order; the first failing entry fails the whole. */
  function CompileEntries(wtype: string, systemName: string, base: Option<BaseCombo>, entries: seq<RuleEntry>): Result<seq<Rule>, CompileError> {
    if entries == [] then Ok([])
    else
      var front :- CompileEntries(wtype, systemName, base, entries[..|entries| - 1]);
      var rule :- CompileEntry(wtype, systemName, base, entries[|entries| - 1]);
      Ok(front + [rule])
  }

  function CompileSystem(wtype: string, systemName: string, system: SystemEntry): Result<seq<Rule>, CompileError> {
    match system
    case RuleList(entries) => CompileEntries(wtype, systemName, None, entries)
    case BaseComboSystem(baseCombo, product, entries) =>
      var tokens :- ParseTokens(baseCombo);
      CompileEntries(wtype, systemName, Some(BaseCombo(tokens, product)), entries)
    case OtherEntry => Ok([])
  }

  function CompileSystems(wtype: string, systems: seq<(string, SystemEntry)>): Result<seq<Rule>, CompileError> {
    if systems == [] then Ok([])
    else
      var front :- CompileSystems(wtype, systems[..|systems| - 1]);
      var last := systems[|systems| - 1];
      var rules :- CompileSystem(wtype, last.0, last.1);
      Ok(front + rules)
  }

  /** The unsorted table: every category's systems' rules, in specification order. */
  function CompileBook(book: RuleBook): Result<seq<Rule>, CompileError> {
    if book == [] then Ok([])
    else
      var front :- CompileBook(book[..|book| - 1]);
      var last := book[|book| - 1];
      var rules :- CompileSystems(last.workplaceType, last.systems);
      Ok(front + rules)
  }

  /** One more entry of a system compiled after those before it. */
  lemma EntriesNext(wtype: string, systemName: string, base: Option<BaseCombo>, entries: seq<RuleEntry>, k: nat,
                    rule: Result<Rule, CompileError>)
    requires k < |entries| && CompileEntries(wtype, systemName, base, entries[..k]).Ok?
    requires rule == CompileEntry(wtype, systemName, base, entries[k])
    ensures rule.Err? ==> CompileEntries(wtype, systemName, base, entries[..k + 1]) == Err(rule.error)
    ensures rule.Ok? ==>
      CompileEntries(wtype, systemName, base, entries[..k + 1]) ==
        Ok(CompileEntries(wtype, systemName, base, entries[..k]).value + [rule.value])
  {
    var longer := entries[..k + 1];
    assert longer[..|longer| - 1] == entries[..k];
    assert longer[|longer| - 1] == entries[k];
  }

  lemma {:induction false} EntriesErrorStops(wtype: string, systemName: string, base: Option<BaseCombo>, entries: seq<RuleEntry>, k: nat)
    requires k <= |entries| && CompileEntries(wtype, systemName, base, entries[..k]).Err?
    ensures CompileEntries(wtype, systemName, base, entries) == CompileEntries(wtype, systemName, base, entries[..k])
    decreases |entries| - k
  {
    if k < |entries| {
      assert entries[..k + 1][..k] == entries[..k];
      EntriesErrorStops(wtype, systemName, base, entries, k + 1);
    } else {
      assert entries[..k] == entries;
    }
  }

  lemma {:induction false} SystemsErrorStops(wtype: string, systems: seq<(string, SystemEntry)>, k: nat)
    requires k <= |systems| && CompileSystems(wtype, systems[..k]).Err?
    ensures CompileSystems(wtype, systems) == CompileSystems(wtype, systems[..k])
    decreases |systems| - k
  {
    if k < |systems| {
      assert systems[..k + 1][..k] == systems[..k];
      SystemsErrorStops(wtype, systems, k + 1);
    } else {
      assert systems[..k] == systems;
    }
  }

  lemma {:induction false} BookErrorStops(book: RuleBook, k: nat)
    requires k <= |book| && CompileBook(book[..k]).Err?
    ensures CompileBook(book) == CompileBook(book[..k])
    decreases |book| - k
  {
    if k < |book| {
      assert book[..k + 1][..k] == book[..k];
      BookErrorStops(book, k + 1);
    } else {
      assert book[..k] == book;
    }
  }

  /** The system names under a workplace type, in order: the keys of
      `combination_rules.get(workplace_type, {})`. */
  function SystemKeys(book: RuleBook, wtype: string): (keys: seq<string>)
    ensures |keys| > 0 ==> exists c :: c in book && c.workplaceType == wtype
  {
    if book == [] then []
    else if book[0].workplaceType == wtype then seq(|book[0].systems|, i requires 0 <= i < |book[0].systems| => book[0].systems[i].0)
    else SystemKeys(book[1..], wtype)
  }

  /** The sort key `(priority, synergy_efficiency)`. */
  function RuleKey(r: Rule): (int, real) {
    (r.priority, r.synergy)
  }

  /** Python's tuple comparison `a > b` on (priority, synergy) pairs. */
  predicate KeyGreater(a: (int, real), b: (int, real)) {
    a.0 > b.0 || (a.0 == b.0 && a.1 > b.1)
  }

  lemma KeyGreaterStrictTotal()
    ensures StrictTotal(KeyGreater)
  {
  }

  /** `prefix` followed by a compiled part, or the part's error. */
  function Extend(prefix: seq<Rule>, part: Result<seq<Rule>, CompileError>): Result<seq<Rule>, CompileError> {
    if part.Ok? then Ok(prefix + part.value) else Err(part.error)
  }

  /** The innermost loop of `load_efficiency_rules`: appends one system's compiled rules. */
  method AppendSystem(wtype: string, systemName: string, system: SystemEntry, expanded: seq<Rule>)
    returns (r: Result<seq<Rule>, CompileError>)
    ensures r == Extend(expanded, CompileSystem(wtype, systemName, system))
  {
    var base: Option<BaseCombo> := None;
    var entries: seq<RuleEntry> := [];
    match system {
      case RuleList(es) =>
        entries := es;
      case BaseComboSystem(baseCombo, product, es) =>
        var tokens := ParseTokens(baseCombo);
        if tokens.Err? {
          return Err(tokens.error);
        }
        base := Some(BaseCombo(tokens.value, product));
        entries := es;
      case OtherEntry =>
    }
    assert CompileSystem(wtype, systemName, system) == CompileEntries(wtype, systemName, base, entries);
    var acc := expanded;
    for k := 0 to |entries|
      invariant CompileEntries(wtype, systemName, base, entries[..k]).Ok?
      invariant acc == expanded + CompileEntries(wtype, systemName, base, entries[..k]).value
    {
      var rule := CompileEntry(wtype, systemName, base, entries[k]);
      EntriesNext(wtype, systemName, base, entries, k, rule);
      if rule.Err? {
        EntriesErrorStops(wtype, systemName, base, entries, k + 1);
        return Err(rule.error);
      }
      acc := acc + [rule.value];
    }
    assert entries[..|entries|] == entries;
    r := Ok(acc);
  }

  /** One more system compiled without error extends the accumulated table. */
  lemma SystemsOkStep(wtype: string, systems: seq<(string, SystemEntry)>, s: nat, expanded: seq<Rule>, next: Result<seq<Rule>, CompileError>)
    requires s < |systems| && CompileSystems(wtype, systems[..s]).Ok?
    requires next == Extend(expanded + CompileSystems(wtype, systems[..s]).value, CompileSystem(wtype, systems[s].0, systems[s].1))
    requires next.Ok?
    ensures CompileSystems(wtype, systems[..s + 1]).Ok?
    ensures next.value == expanded + CompileSystems(wtype, systems[..s + 1]).value
  {
    var longer := systems[..s + 1];
    assert longer[..|longer| - 1] == systems[..s];
    assert longer[|longer| - 1] == systems[s];
    var front := CompileSystems(wtype, systems[..s]).value;
    var part := CompileSystem(wtype, systems[s].0, systems[s].1).value;
    assert CompileSystems(wtype, longer) == Ok(front + part);
    assert next.value == expanded + front + part;
  }

  /** A system that fails to compile fails the whole category with its error. */
  lemma SystemsErrStep(wtype: string, systems: seq<(string, SystemEntry)>, s: nat, expanded: seq<Rule>, next: Result<seq<Rule>, CompileError>)
    requires s < |systems| && CompileSystems(wtype, systems[..s]).Ok?
    requires next == Extend(expanded + CompileSystems(wtype, systems[..s]).value, CompileSystem(wtype, systems[s].0, systems[s].1))
    requires next.Err?
    ensures next == Extend(expanded, CompileSystems(wtype, systems))
  {
    assert systems[..s + 1][..s] == systems[..s];
    SystemsErrorStops(wtype, systems, s + 1);
  }

  /** The middle loop: appends every system of one category. */
  method AppendCategory(wtype: string, systems: seq<(string, SystemEntry)>, expanded: seq<Rule>)
    returns (r: Result<seq<Rule>, CompileError>)
    ensures r == Extend(expanded, CompileSystems(wtype, systems))
  {
    var acc := expanded;
    for s := 0 to |systems|
      invariant CompileSystems(wtype, systems[..s]).Ok?
      invariant acc == expanded + CompileSystems(wtype, systems[..s]).value
    {
      var next := AppendSystem(wtype, systems[s].0, systems[s].1, acc);
      if next.Err? {
        SystemsErrStep(wtype, systems, s, expanded, next);
        return next;
      }
      SystemsOkStep(wtype, systems, s, expanded, next);
      acc := next.value;
    }
    assert systems[..|systems|] == systems;
    r := Ok(acc);
  }

  lemma BookOkStep(book: RuleBook, c: nat, next: Result<seq<Rule>, CompileError>)
    requires c < |book| && CompileBook(book[..c]).Ok?
    requires next == Extend(CompileBook(book[..c]).value, CompileSystems(book[c].workplaceType, book[c].systems))
    requires next.Ok?
    ensures CompileBook(book[..c + 1]) == next
  {
    assert book[..c + 1][..c] == book[..c];
  }

  lemma BookErrStep(book: RuleBook, c: nat, next: Result<seq<Rule>, CompileError>)
    requires c < |book| && CompileBook(book[..c]).Ok?
    requires next == Extend(CompileBook(book[..c]).value, CompileSystems(book[c].workplaceType, book[c].systems))
    requires next.Err?
    ensures CompileBook(book) == next
  {
    assert book[..c + 1][..c] == book[..c];
    BookErrorStops(book, c + 1);
  }

  /** `load_efficiency_rules`: appends every compiled rule to `expanded`, then sorts it
      by (priority, synergy) descending, stably. A failing entry aborts the load. */
  method LoadEfficiencyRules(book: RuleBook) returns (r: Result<seq<Rule>, CompileError>)
    ensures r.Err? <==> CompileBook(book).Err?
    ensures r.Err? ==> r.error == CompileBook(book).error
    ensures r.Ok? ==> r.value == SortDesc(CompileBook(book).value, RuleKey, KeyGreater)
    ensures r.Ok? ==> SortedDesc(r.value, RuleKey, KeyGreater)
    ensures r.Ok? ==> multiset(r.value) == multiset(CompileBook(book).value)
    ensures r.Ok? ==> forall k :: WithKey(r.value, RuleKey, k) == WithKey(CompileBook(book).value, RuleKey, k)
  {
    var expanded: seq<Rule> := [];
    for c := 0 to |book|
      invariant CompileBook(book[..c]) == Ok(expanded)
    {
      var next := AppendCategory(book[c].workplaceType, book[c].systems, expanded);
      if next.Err? {
        BookErrStep(book, c, next);
        return next;
      }
      BookOkStep(book, c, next);
      expanded := next.value;
    }
    assert book[..|book|] == book;
    KeyGreaterStrictTotal();
    SortDescCorrect(expanded, RuleKey, KeyGreater);
    r := Ok(SortDesc(expanded, RuleKey, KeyGreater));
  }
}
