/**
 * The configuration loader: turns the untyped value read from the
 * repository's configuration file into groups of rules, rejecting the
 * malformed shapes it checks for and merging each rule's `labelOnError`
 * with its group's.
 */
module Config {
  import opened Wrappers
  import opened OrderedSets
  import opened Json
  import opened Events
  import opened Rules

  datatype Config = Config(groups: seq<Group>)

  /** The errors `parseConfig` throws, one constructor per throw site. */
  datatype ConfigError =
    | NotAnObject                         // the top-level value is not of type "object"
    | NullDereference                     // a property of `null` or `undefined` was read (a TypeError)
    | GroupsNotArray                      // `groups` is not an array
    | GroupNotAnObject(group: Json)       // a group is not of type "object"; carries the group
    | ContextNotString                    // a group's `context` is not a string
    | RulesNotArray                       // a group's `rules` is not an array
    | UnexpectedLabelOnError(value: Json) // a `labelOnError` that is no array, string or nullish value

  /**
   * The fixed text of each error (the value an error carries is printed after
   * it). The text of the TypeError is the JavaScript runtime's, not the
   * loader's; the wording here is this model's own.
   */
  function ErrorMessage(e: ConfigError): string {
    match e
    case NotAnObject => "Top-level configuration must be an object"
    case NullDereference => "Cannot read property of null or undefined"
    case GroupsNotArray => "Top-level 'groups' config must be an array"
    case GroupNotAnObject(_) => "Expected group configuration to be an object, got: "
    case ContextNotString => "'context' must be present and a string"
    case RulesNotArray => "'rules' must be present and an array"
    case UnexpectedLabelOnError(_) => "Unexpected value for 'labelOnError': "
  }

  // ---------------------------------------------------------------- labelOnError

  /** The labels of an array are taken to be strings, as the declared type says. */
  predicate LabelCastHolds(j: Json) {
    j.JArr? ==> forall k :: 0 <= k < |j.elems| ==> j.elems[k].JStr?
  }

  /** The values `mergeLabelOnError` accepts: an array, a string, `null` or `undefined`. */
  predicate IsLabelValue(j: Json) {
    j.JArr? || j.JStr? || IsNullish(j)
  }

  /** The labels one accepted value contributes, in order. */
  function LabelsOf(j: Json): (r: seq<string>)
    requires IsLabelValue(j) && LabelCastHolds(j)
    ensures j.JStr? ==> r == [j.str]
    ensures IsNullish(j) ==> r == []
    ensures j.JArr? ==> |r| == |j.elems| && forall k :: 0 <= k < |r| ==> j.elems[k] == JStr(r[k])
  {
    if j.JArr? then seq(|j.elems|, k requires 0 <= k < |j.elems| => j.elems[k].str)
    else if j.JStr? then [j.str]
    else []
  }

  /** The labels of all inputs in order, or the error of the first value that is not accepted. */
  function Contributions(inputs: seq<Json>): (r: Result<seq<string>, ConfigError>)
    requires forall k :: 0 <= k < |inputs| ==> LabelCastHolds(inputs[k])
    ensures r.Ok? <==> forall k :: 0 <= k < |inputs| ==> IsLabelValue(inputs[k])
    decreases |inputs|
  {
    if inputs == [] then Ok([])
    else
      var last := inputs[|inputs| - 1];
      match Contributions(inputs[..|inputs| - 1])
      case Err(e) => Err(e)
      case Ok(flat) =>
        if IsLabelValue(last) then Ok(flat + LabelsOf(last))
        else Err(UnexpectedLabelOnError(last))
  }

  /** `mergeLabelOnError`: the distinct labels of all inputs in first-insertion order. */
  function MergedLabels(inputs: seq<Json>): Result<seq<string>, ConfigError>
    requires forall k :: 0 <= k < |inputs| ==> LabelCastHolds(inputs[k])
  {
    match Contributions(inputs)
    case Err(e) => Err(e)
    case Ok(flat) => Ok(Dedup(flat))
  }

  /** The `forEach` of `mergeLabelOnError` over its inputs, adding to a `Set` and throwing on a bad value. */
  method MergeLabelOnError(inputs: seq<Json>) returns (r: Result<seq<string>, ConfigError>)
    requires forall k :: 0 <= k < |inputs| ==> LabelCastHolds(inputs[k])
    ensures r == MergedLabels(inputs)
  {
    var labels: seq<string> := [];
    for i := 0 to |inputs|
      invariant Contributions(inputs[..i]).Ok?
      invariant labels == Dedup(Contributions(inputs[..i]).value)
    {
      assert inputs[..i + 1][..i] == inputs[..i];
      var input := inputs[i];
      if !IsLabelValue(input) {
        assert inputs[..i + 1][i] == input;
        ContributionsPrefixErr(inputs, i + 1);
        return Err(UnexpectedLabelOnError(input));
      }
      labels := AddAll(labels, LabelsOf(input), Contributions(inputs[..i]).value);
    }
    assert inputs[..|inputs|] == inputs;
    return Ok(labels);
  }

  /** Once a prefix of the inputs fails, the whole list fails with the same error. */
  lemma {:induction false} ContributionsPrefixErr(inputs: seq<Json>, n: nat)
    requires n <= |inputs|
    requires forall k :: 0 <= k < |inputs| ==> LabelCastHolds(inputs[k])
    ensures Contributions(inputs[..n]).Err? ==> Contributions(inputs) == Contributions(inputs[..n])
    decreases |inputs| - n
  {
    if n < |inputs| {
      ContributionsPrefixErr(inputs, n + 1);
      assert inputs[..n + 1][..n] == inputs[..n];
    } else {
      assert inputs[..n] == inputs;
    }
  }

  /** A merge that fails names the first input that is neither an array, a string nor nullish. */
  lemma {:induction false} MergedLabelsErr(inputs: seq<Json>)
    requires forall k :: 0 <= k < |inputs| ==> LabelCastHolds(inputs[k])
    requires MergedLabels(inputs).Err?
    ensures exists k :: (0 <= k < |inputs| && !IsLabelValue(inputs[k])
      && MergedLabels(inputs).error == UnexpectedLabelOnError(inputs[k])
      && forall m :: 0 <= m < k ==> IsLabelValue(inputs[m]))
    decreases |inputs|
  {
    var init := inputs[..|inputs| - 1];
    var n := |inputs| - 1;
    assert forall k :: 0 <= k < |init| ==> init[k] == inputs[k];
    if Contributions(init).Err? {
      MergedLabelsErr(init);
    } else {
      assert !IsLabelValue(inputs[n]);
    }
  }

  /**
   * How a rule's labels come out of its group's and its own `labelOnError`:
   * the group's labels first, then the rule's own that are new, no label twice;
   * a bad value fails, the group's value before the rule's.
   */
  lemma MergeGroupAndRule(group: Json, rule: Json)
    requires LabelCastHolds(group) && LabelCastHolds(rule)
    ensures !IsLabelValue(group) ==> MergedLabels([group, rule]) == Err(UnexpectedLabelOnError(group))
    ensures IsLabelValue(group) && !IsLabelValue(rule) ==>
      MergedLabels([group, rule]) == Err(UnexpectedLabelOnError(rule))
    ensures IsLabelValue(group) && IsLabelValue(rule) ==>
      MergedLabels([group, rule])
        == Ok(Dedup(LabelsOf(group)) + Without(Dedup(LabelsOf(rule)), LabelsOf(group)))
  {
    var inputs := [group, rule];
    assert inputs[..1] == [group];
    assert inputs[..1][..0] == [];
    if IsLabelValue(group) && IsLabelValue(rule) {
      assert Contributions([group]) == Ok([] + LabelsOf(group));
      assert [] + LabelsOf(group) == LabelsOf(group);
      assert Contributions(inputs) == Ok(LabelsOf(group) + LabelsOf(rule));
      DedupAppend(LabelsOf(group), LabelsOf(rule));
    } else if !IsLabelValue(group) {
      assert Contributions([group]) == Err(UnexpectedLabelOnError(group));
    }
  }

  /** The labels of all inputs, before duplicates are dropped, are those of some input. */
  lemma {:induction false} ContributionsMembers(inputs: seq<Json>, l: string)
    requires forall k :: 0 <= k < |inputs| ==> LabelCastHolds(inputs[k])
    requires Contributions(inputs).Ok?
    ensures l in Contributions(inputs).value <==>
      exists k :: 0 <= k < |inputs| && IsLabelValue(inputs[k]) && l in LabelsOf(inputs[k])
    decreases |inputs|
  {
    if inputs != [] {
      var init := inputs[..|inputs| - 1];
      var last := inputs[|inputs| - 1];
      assert forall k :: 0 <= k < |init| ==> init[k] == inputs[k];
      ContributionsMembers(init, l);
      assert Contributions(inputs).value == Contributions(init).value + LabelsOf(last);
      if l in LabelsOf(last) {
        assert inputs[|inputs| - 1] == last;
      }
    }
  }

  /** The merged labels hold no duplicate and exactly the labels of the inputs. */
  lemma MergedLabelsMembers(inputs: seq<Json>, l: string)
    requires forall k :: 0 <= k < |inputs| ==> LabelCastHolds(inputs[k])
    requires MergedLabels(inputs).Ok?
    ensures NoDups(MergedLabels(inputs).value)
    ensures l in MergedLabels(inputs).value <==>
      exists k :: 0 <= k < |inputs| && IsLabelValue(inputs[k]) && l in LabelsOf(inputs[k])
  {
    ContributionsMembers(inputs, l);
  }

  // ---------------------------------------------------------------- rules

  /** The level of a rule is, by its declared type, falsy or one of the three level names. */
  predicate LevelCastHolds(j: Json) {
    IsFalsy(j) || j == JStr("info") || j == JStr("warn") || j == JStr("error")
  }

  /** `ruleInput.level || "error"`. */
  function ParseLevel(j: Json): (r: Level)
    requires LevelCastHolds(j)
    ensures IsFalsy(j) ==> r == Error
    ensures !IsFalsy(j) ==> j == JStr(LevelName(r))
  {
    if IsFalsy(j) then Error
    else if j == JStr("info") then Info
    else if j == JStr("warn") then Warn
    else Error
  }

  function LevelName(level: Level): string {
    match level
    case Info => "info"
    case Warn => "warn"
    case Error => "error"
  }

  /** The casts the loader trusts for one rule: a string message, a level, string labels. */
  predicate RuleCastsHold(r: Json) {
    !IsNullish(r) ==>
      Get(r, "message").JStr? && LevelCastHolds(Get(r, "level")) && LabelCastHolds(Get(r, "labelOnError"))
  }

  /** The callback of `rules.map`: one rule of a group with context `context`. */
  function ParseRule(context: string, groupLabels: Json, r: Json): Result<Rule, ConfigError>
    requires LabelCastHolds(groupLabels) && RuleCastsHold(r)
  {
    if IsNullish(r) then Err(NullDereference)
    else
      match MergedLabels([groupLabels, Get(r, "labelOnError")])
      case Err(e) => Err(e)
      case Ok(labels) =>
        Ok(Rule(context, labels, Get(r, "test"), Get(r, "message").str, ParseLevel(Get(r, "level"))))
  }

  /** The results of a `map` whose callback may throw: all values, or the first error. */
  function Collect(results: seq<Result<Rule, ConfigError>>): Result<seq<Rule>, ConfigError>
    decreases |results|
  {
    if results == [] then Ok([])
    else
      match Collect(results[..|results| - 1])
      case Err(e) => Err(e)
      case Ok(rules) =>
        match results[|results| - 1]
        case Err(e) => Err(e)
        case Ok(rule) => Ok(rules + [rule])
  }

  /** A collected list holds one value per result, in order. */
  lemma {:induction false} CollectOk(results: seq<Result<Rule, ConfigError>>)
    requires Collect(results).Ok?
    ensures |Collect(results).value| == |results|
    ensures forall k :: 0 <= k < |results| ==> results[k] == Ok(Collect(results).value[k])
    decreases |results|
  {
    if results != [] {
      var init := results[..|results| - 1];
      assert forall k :: 0 <= k < |init| ==> init[k] == results[k];
      CollectOk(init);
    }
  }

  /** When no result is an error, collecting succeeds. */
  lemma {:induction false} CollectAllOk(results: seq<Result<Rule, ConfigError>>)
    requires forall k :: 0 <= k < |results| ==> results[k].Ok?
    ensures Collect(results).Ok?
    decreases |results|
  {
    if results != [] {
      var init := results[..|results| - 1];
      assert forall k :: 0 <= k < |init| ==> init[k] == results[k];
      CollectAllOk(init);
    }
  }

  /** When collecting fails, its error is the first error among the results. */
  lemma {:induction false} CollectErr(results: seq<Result<Rule, ConfigError>>)
    requires Collect(results).Err?
    ensures exists k :: (0 <= k < |results| && results[k] == Err(Collect(results).error)
      && forall m :: 0 <= m < k ==> results[m].Ok?)
    decreases |results|
  {
    var init := results[..|results| - 1];
    assert forall k :: 0 <= k < |init| ==> init[k] == results[k];
    if Collect(init).Err? {
      CollectErr(init);
    } else {
      CollectOk(init);
      assert forall m :: 0 <= m < |init| ==> results[m].Ok?;
    }
  }

  /** `rules.map(...)`: every rule parsed, in order, or the error of the first that fails. */
  function ParseRules(context: string, groupLabels: Json, inputs: seq<Json>): Result<seq<Rule>, ConfigError>
    requires LabelCastHolds(groupLabels)
    requires forall k :: 0 <= k < |inputs| ==> RuleCastsHold(inputs[k])
  {
    Collect(RuleResults(context, groupLabels, inputs))
  }

  /** The parse of each rule, in order. */
  function RuleResults(context: string, groupLabels: Json, inputs: seq<Json>): (r: seq<Result<Rule, ConfigError>>)
    requires LabelCastHolds(groupLabels)
    requires forall k :: 0 <= k < |inputs| ==> RuleCastsHold(inputs[k])
    ensures |r| == |inputs|
    ensures forall k :: 0 <= k < |inputs| ==> r[k] == ParseRule(context, groupLabels, inputs[k])
  {
    seq(|inputs|, k requires 0 <= k < |inputs| => ParseRule(context, groupLabels, inputs[k]))
  }

  /** Parsed rules: one per input, in order, each the parse of its input. */
  lemma ParseRulesOk(context: string, groupLabels: Json, inputs: seq<Json>)
    requires LabelCastHolds(groupLabels)
    requires forall k :: 0 <= k < |inputs| ==> RuleCastsHold(inputs[k])
    requires ParseRules(context, groupLabels, inputs).Ok?
    ensures |ParseRules(context, groupLabels, inputs).value| == |inputs|
    ensures forall k :: 0 <= k < |inputs| ==>
      ParseRule(context, groupLabels, inputs[k]) == Ok(ParseRules(context, groupLabels, inputs).value[k])
  {
    var results := RuleResults(context, groupLabels, inputs);
    assert ParseRules(context, groupLabels, inputs) == Collect(results);
    CollectOk(results);
  }

  /** The rules parse when every rule does. */
  lemma ParseRulesAllOk(context: string, groupLabels: Json, inputs: seq<Json>)
    requires LabelCastHolds(groupLabels)
    requires forall k :: 0 <= k < |inputs| ==> RuleCastsHold(inputs[k])
    requires forall k :: 0 <= k < |inputs| ==> ParseRule(context, groupLabels, inputs[k]).Ok?
    ensures ParseRules(context, groupLabels, inputs).Ok?
  {
    var results := RuleResults(context, groupLabels, inputs);
    assert ParseRules(context, groupLabels, inputs) == Collect(results);
    CollectAllOk(results);
  }

  /** When the rules fail, the error is that of the first rule that fails. */
  lemma ParseRulesErr(context: string, groupLabels: Json, inputs: seq<Json>)
    requires LabelCastHolds(groupLabels)
    requires forall k :: 0 <= k < |inputs| ==> RuleCastsHold(inputs[k])
    requires ParseRules(context, groupLabels, inputs).Err?
    ensures exists k :: (0 <= k < |inputs|
      && ParseRule(context, groupLabels, inputs[k]) == Err(ParseRules(context, groupLabels, inputs).error)
      && forall m :: 0 <= m < k ==> ParseRule(context, groupLabels, inputs[m]).Ok?)
  {
    var results := RuleResults(context, groupLabels, inputs);
    assert ParseRules(context, groupLabels, inputs) == Collect(results);
    CollectErr(results);
  }

  // ---------------------------------------------------------------- groups

  /** The casts the loader trusts for one group, needed only once its `rules` is an array. */
  predicate GroupCastsHold(g: Json) {
    g.JObj? && Get(g, "rules").JArr? ==>
      LabelCastHolds(Get(g, "labelOnError"))
      && forall k :: 0 <= k < |Get(g, "rules").elems| ==> RuleCastsHold(Get(g, "rules").elems[k])
  }

  /** `filter === undefined` means the group always applies. */
  function FilterOf(j: Json): Option<Expr> {
    if j.JUndefined? then None else Some(j)
  }

  /** The body of the loop over `groups`: one group's checks and its parsed rules. */
  function ParseGroup(g: Json): Result<Group, ConfigError>
    requires GroupCastsHold(g)
  {
    if g.JNull? then Err(NullDereference)
    else if !IsObjectLike(g) then Err(GroupNotAnObject(g))
    else if !Get(g, "context").JStr? then Err(ContextNotString)
    else if !Get(g, "rules").JArr? then Err(RulesNotArray)
    else
      match ParseRules(Get(g, "context").str, Get(g, "labelOnError"), Get(g, "rules").elems)
      case Err(e) => Err(e)
      case Ok(rules) => Ok(Group(FilterOf(Get(g, "filter")), rules))
  }

  /**
   * What a parsed rule holds: the group's context, the rule's test and message,
   * its level (`error` when unset) and its group's and its own labels merged.
   */
  lemma ParsedRule(context: string, groupLabels: Json, input: Json)
    requires LabelCastHolds(groupLabels) && RuleCastsHold(input)
    requires ParseRule(context, groupLabels, input).Ok?
    ensures !IsNullish(input)
    ensures
      var rule := ParseRule(context, groupLabels, input).value;
      rule.context == context
      && rule.test == Get(input, "test")
      && JStr(rule.message) == Get(input, "message")
      && (IsFalsy(Get(input, "level")) ==> rule.level == Error)
      && (!IsFalsy(Get(input, "level")) ==> Get(input, "level") == JStr(LevelName(rule.level)))
      && Ok(rule.labelOnError) == MergedLabels([groupLabels, Get(input, "labelOnError")])
  {
  }

  /** What a parsed group holds: its filter, and one rule per rule input, in order. */
  lemma ParsedGroup(g: Json)
    requires GroupCastsHold(g) && ParseGroup(g).Ok?
    ensures g.JObj? && Get(g, "context").JStr? && Get(g, "rules").JArr?
    ensures ParseGroup(g).value.filter == FilterOf(Get(g, "filter"))
    ensures |ParseGroup(g).value.rules| == |Get(g, "rules").elems|
    ensures forall k :: 0 <= k < |Get(g, "rules").elems| ==>
      ParseRule(Get(g, "context").str, Get(g, "labelOnError"), Get(g, "rules").elems[k])
        == Ok(ParseGroup(g).value.rules[k])
  {
    ParseRulesOk(Get(g, "context").str, Get(g, "labelOnError"), Get(g, "rules").elems);
  }

  /**
   * A group object with a string context and an array of rules fails exactly
   * when one of its rules does, with the error of the first that fails.
   */
  lemma GroupRejected(g: Json)
    requires GroupCastsHold(g)
    requires g.JObj? && Get(g, "context").JStr? && Get(g, "rules").JArr?
    ensures ParseGroup(g).Err? <==> exists k :: (0 <= k < |Get(g, "rules").elems|
      && ParseRule(Get(g, "context").str, Get(g, "labelOnError"), Get(g, "rules").elems[k]).Err?)
    ensures ParseGroup(g).Err? ==> exists k :: (0 <= k < |Get(g, "rules").elems|
      && ParseRule(Get(g, "context").str, Get(g, "labelOnError"), Get(g, "rules").elems[k])
           == Err(ParseGroup(g).error)
      && forall m :: 0 <= m < k ==>
           ParseRule(Get(g, "context").str, Get(g, "labelOnError"), Get(g, "rules").elems[m]).Ok?)
  {
    var context, labels, inputs := Get(g, "context").str, Get(g, "labelOnError"), Get(g, "rules").elems;
    if ParseRules(context, labels, inputs).Err? {
      ParseRulesErr(context, labels, inputs);
    } else {
      ParseRulesOk(context, labels, inputs);
    }
  }

  /**
   * The shape errors of a group, in the order they are checked; an array
   * passes the type test and then has no string `context`.
   */
  lemma GroupShapeErrors(g: Json)
    requires GroupCastsHold(g)
    ensures g.JNull? ==> ParseGroup(g) == Err(NullDereference)
    ensures !IsObjectLike(g) ==> ParseGroup(g) == Err(GroupNotAnObject(g))
    ensures g.JArr? ==> ParseGroup(g) == Err(ContextNotString)
    ensures g.JObj? && !Get(g, "context").JStr? ==> ParseGroup(g) == Err(ContextNotString)
    ensures g.JObj? && Get(g, "context").JStr? && !Get(g, "rules").JArr? ==> ParseGroup(g) == Err(RulesNotArray)
  {
  }

  /** A group whose `rules` is empty parses whatever its `labelOnError` holds. */
  lemma EmptyRulesIgnoreLabels(g: Json)
    requires g.JObj? && Get(g, "context").JStr? && Get(g, "rules") == JArr([])
    requires LabelCastHolds(Get(g, "labelOnError"))
    ensures ParseGroup(g) == Ok(Group(FilterOf(Get(g, "filter")), []))
  {
  }

  // ---------------------------------------------------------------- configuration

  /** The casts the loader trusts for the whole configuration. */
  predicate CastsHold(input: Json) {
    input.JObj? && Get(input, "groups").JArr? ==>
      forall k :: 0 <= k < |Get(input, "groups").elems| ==> GroupCastsHold(Get(input, "groups").elems[k])
  }

  /** `parseConfig`: the top-level checks, then the groups in order, stopping at the first that throws. */
  method ParseConfig(input: Json) returns (r: Result<Config, ConfigError>)
    requires CastsHold(input)
    ensures !IsObjectLike(input) ==> r == Err(NotAnObject)
    ensures input.JNull? ==> r == Err(NullDereference)
    ensures input.JArr? || (input.JObj? && !Get(input, "groups").JArr?) ==> r == Err(GroupsNotArray)
    ensures input.JObj? && Get(input, "groups").JArr? ==>
      var gs := Get(input, "groups").elems;
      (r.Ok? <==> forall k :: 0 <= k < |gs| ==> ParseGroup(gs[k]).Ok?)
      && (r.Ok? ==> (|r.value.groups| == |gs|
           && forall k :: 0 <= k < |gs| ==> ParseGroup(gs[k]) == Ok(r.value.groups[k])))
      && (r.Err? ==> exists k :: (0 <= k < |gs| && ParseGroup(gs[k]) == Err(r.error)
           && forall m :: 0 <= m < k ==> ParseGroup(gs[m]).Ok?))
  {
    if !IsObjectLike(input) {
      return Err(NotAnObject);
    }
    if input.JNull? {
      return Err(NullDereference);
    }
    var groups := Get(input, "groups");
    if !groups.JArr? {
      return Err(GroupsNotArray);
    }
    var parsed: seq<Group> := [];
    for i := 0 to |groups.elems|
      invariant |parsed| == i
      invariant forall k :: 0 <= k < i ==> ParseGroup(groups.elems[k]) == Ok(parsed[k])
    {
      var group := ParseGroup(groups.elems[i]);
      if group.Err? {
        return Err(group.error);
      }
      parsed := parsed + [group.value];
    }
    return Ok(Config(parsed));
  }

  /** The three malformed configurations of the loader's tests, and the errors they raise. */
  method ParseConfigExamples() {
    var r1 := ParseConfig(JStr("foo"));
    assert r1 == Err(NotAnObject);
    var r2 := ParseConfig(JObj(map[]));
    assert r2 == Err(GroupsNotArray);
    var gs := [JStr("foo"), JStr("bar")];
    var r3 := ParseConfig(JObj(map["groups" := JArr(gs)]));
    assert ParseGroup(gs[0]).Err?;
    assert r3 == Err(GroupNotAnObject(JStr("foo")));
  }
}
