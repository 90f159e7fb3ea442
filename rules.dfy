/**
 * The rule engine: select the rules of the groups in scope, evaluate each
 * rule's predicate against the payload, and fold the outcomes into the
 * errors, the label changes and one status per rule context.
 */
module Rules {
  import opened Wrappers
  import opened OrderedSets
  import opened Text
  import opened Events
  import opened Statuses

  datatype Level = Info | Warn | Error

  /** A rule's `test` is a failure condition: when it holds, the rule reports `message`. */
  datatype Rule = Rule(context: string, labelOnError: seq<string>, test: Expr, message: string, level: Level)

  /** A group without a filter is always in scope. */
  datatype Group = Group(filter: Option<Expr>, rules: seq<Rule>)

  datatype ValidationError = ValidationError(level: Level, context: string, message: string)

  /** The outcome of one rule: `error` is present exactly when its test held. */
  datatype RuleResult = RuleResult(rule: Rule, error: Option<ValidationError>)

  datatype ValidationResult = ValidationResult(
    labelsToAdd: seq<string>,
    labelsToRemove: seq<string>,
    statuses: seq<Status>,
    errors: seq<ValidationError>)

  // ---------------------------------------------------------------- group filter

  predicate InScope(eval: Evaluator, payload: Payload, g: Group) {
    g.filter.None? || eval(g.filter.value, payload)
  }

  /** The rules of the groups in scope, group after group, each group's rules in order. */
  function SelectedRules(eval: Evaluator, payload: Payload, groups: seq<Group>): seq<Rule>
    decreases |groups|
  {
    if groups == [] then []
    else
      var last := groups[|groups| - 1];
      SelectedRules(eval, payload, groups[..|groups| - 1])
        + (if InScope(eval, payload, last) then last.rules else [])
  }

  /** The `forEach` of `applyGroups` that pushes the rules of every matching group. */
  method SelectRules(eval: Evaluator, payload: Payload, groups: seq<Group>) returns (rules: seq<Rule>)
    ensures rules == SelectedRules(eval, payload, groups)
  {
    rules := [];
    for i := 0 to |groups|
      invariant rules == SelectedRules(eval, payload, groups[..i])
    {
      assert groups[..i + 1][..i] == groups[..i];
      var group := groups[i];
      if group.filter.None? || eval(group.filter.value, payload) {
        rules := rules + group.rules;
      }
    }
    assert groups[..|groups|] == groups;
  }

  lemma {:induction false} SelectedRulesAppend(eval: Evaluator, payload: Payload, a: seq<Group>, b: seq<Group>)
    ensures SelectedRules(eval, payload, a + b) == SelectedRules(eval, payload, a) + SelectedRules(eval, payload, b)
    decreases |b|
  {
    if b == [] {
      assert a + b == a;
    } else {
      var b' := b[..|b| - 1];
      assert (a + b)[..|a + b| - 1] == a + b';
      assert (a + b)[|a + b| - 1] == b[|b| - 1];
      SelectedRulesAppend(eval, payload, a, b');
    }
  }

  /**
   * Each group contributes its own rules, or nothing, in its own place:
   * a group whose filter fails drops exactly its rules, those of the groups
   * around it stay.
   */
  lemma GroupContribution(eval: Evaluator, payload: Payload, before: seq<Group>, g: Group, after: seq<Group>)
    ensures SelectedRules(eval, payload, before + [g] + after) ==
      SelectedRules(eval, payload, before)
        + (if InScope(eval, payload, g) then g.rules else [])
        + SelectedRules(eval, payload, after)
  {
    SelectedRulesAppend(eval, payload, before + [g], after);
    SelectedRulesAppend(eval, payload, before, [g]);
    assert [g][..0] == [];
  }

  /** A rule is selected exactly when some group in scope holds it. */
  lemma {:induction false} SelectedRulesMembers(eval: Evaluator, payload: Payload, groups: seq<Group>, r: Rule)
    ensures r in SelectedRules(eval, payload, groups) <==>
      exists i :: 0 <= i < |groups| && InScope(eval, payload, groups[i]) && r in groups[i].rules
    decreases |groups|
  {
    if groups != [] {
      var p := groups[..|groups| - 1];
      SelectedRulesMembers(eval, payload, p, r);
      assert forall i :: 0 <= i < |p| ==> p[i] == groups[i];
    }
  }

  // ---------------------------------------------------------------- rule evaluation

  /** `applyRule`: a rule errs exactly when its test holds; the error copies the rule's fields. */
  function ApplyRule(eval: Evaluator, payload: Payload, rule: Rule): (r: RuleResult)
    ensures r.rule == rule
    ensures r.error.Some? <==> eval(rule.test, payload)
    ensures r.error.Some? ==> r.error.value == ValidationError(rule.level, rule.context, rule.message)
  {
    if eval(rule.test, payload) then
      RuleResult(rule, Some(ValidationError(rule.level, rule.context, rule.message)))
    else
      RuleResult(rule, None)
  }

  /** `rules.map(applyRule)`. */
  function Outcomes(eval: Evaluator, payload: Payload, rules: seq<Rule>): seq<RuleResult> {
    seq(|rules|, i requires 0 <= i < |rules| => ApplyRule(eval, payload, rules[i]))
  }

  /** The errors of the outcomes that have one, in outcome order. */
  function Errors(os: seq<RuleResult>): (r: seq<ValidationError>)
    ensures |r| <= |os|
    ensures forall e :: e in r <==> exists i :: 0 <= i < |os| && os[i].error == Some(e)
    decreases |os|
  {
    if os == [] then []
    else
      var p := os[..|os| - 1];
      var o := os[|os| - 1];
      assert forall i :: 0 <= i < |p| ==> p[i] == os[i];
      Errors(p) + (if o.error.Some? then [o.error.value] else [])
  }

  lemma {:induction false} ErrorsAppend(a: seq<RuleResult>, b: seq<RuleResult>)
    ensures Errors(a + b) == Errors(a) + Errors(b)
    decreases |b|
  {
    if b == [] {
      assert a + b == a;
    } else {
      var b' := b[..|b| - 1];
      assert (a + b)[..|a + b| - 1] == a + b';
      assert (a + b)[|a + b| - 1] == b[|b| - 1];
      ErrorsAppend(a, b');
    }
  }

  // ---------------------------------------------------------------- label changes

  /** Every rule's `labelOnError`, concatenated in outcome order. */
  function AllLabels(os: seq<RuleResult>): (r: seq<string>)
    ensures forall l :: l in r <==> exists i :: 0 <= i < |os| && l in os[i].rule.labelOnError
    decreases |os|
  {
    if os == [] then []
    else
      var p := os[..|os| - 1];
      assert forall i :: 0 <= i < |p| ==> p[i] == os[i];
      AllLabels(p) + os[|os| - 1].rule.labelOnError
  }

  /** The `labelOnError` of the rules that erred, concatenated in outcome order. */
  function ErrorLabels(os: seq<RuleResult>): (r: seq<string>)
    ensures forall l :: l in r <==> exists i :: 0 <= i < |os| && os[i].error.Some? && l in os[i].rule.labelOnError
    decreases |os|
  {
    if os == [] then []
    else
      var p := os[..|os| - 1];
      var o := os[|os| - 1];
      assert forall i :: 0 <= i < |p| ==> p[i] == os[i];
      ErrorLabels(p) + (if o.error.Some? then o.rule.labelOnError else [])
  }

  /** The controlled labels: every label some rule names, in first-insertion order. */
  function Controlled(os: seq<RuleResult>): seq<string> {
    Dedup(AllLabels(os))
  }

  function LabelsToAdd(os: seq<RuleResult>): seq<string> {
    Dedup(ErrorLabels(os))
  }

  function LabelsToRemove(os: seq<RuleResult>): seq<string> {
    Without(Controlled(os), LabelsToAdd(os))
  }

  lemma LabelsSnoc(os: seq<RuleResult>, o: RuleResult)
    ensures AllLabels(os + [o]) == AllLabels(os) + o.rule.labelOnError
    ensures ErrorLabels(os + [o]) == ErrorLabels(os) + (if o.error.Some? then o.rule.labelOnError else [])
  {
    assert (os + [o])[..|os|] == os;
  }

  /**
   * `getLabelChanges`: fills the set of controlled labels and the set of
   * labels of erring rules, then removes the second from the first.
   */
  method GetLabelChanges(os: seq<RuleResult>) returns (labelsToAdd: seq<string>, labelsToRemove: seq<string>)
    ensures labelsToAdd == LabelsToAdd(os)
    ensures labelsToRemove == LabelsToRemove(os)
  {
    var controlled: seq<string> := [];
    var withError: seq<string> := [];
    for i := 0 to |os|
      invariant controlled == Dedup(AllLabels(os[..i]))
      invariant withError == Dedup(ErrorLabels(os[..i]))
    {
      var result := os[i];
      assert os[..i + 1] == os[..i] + [result];
      LabelsSnoc(os[..i], result);
      controlled := AddAll(controlled, result.rule.labelOnError, AllLabels(os[..i]));
      if result.error.Some? {
        withError := AddAll(withError, result.rule.labelOnError, ErrorLabels(os[..i]));
      } else {
        assert ErrorLabels(os[..i]) + [] == ErrorLabels(os[..i]);
      }
    }
    assert os[..|os|] == os;
    labelsToAdd := withError;
    labelsToRemove := Without(controlled, withError);
  }

  // ---------------------------------------------------------------- statuses

  /** Every rule's context, in outcome order. */
  function Contexts(os: seq<RuleResult>): (r: seq<string>)
    ensures |r| == |os| && forall i :: 0 <= i < |os| ==> r[i] == os[i].rule.context
    decreases |os|
  {
    if os == [] then [] else Contexts(os[..|os| - 1]) + [os[|os| - 1].rule.context]
  }

  /** The distinct contexts, in first-seen order: the keys of the status map. */
  function ContextKeys(os: seq<RuleResult>): seq<string> {
    Dedup(Contexts(os))
  }

  /** The messages of the errors of rules with context `c`, in outcome order. */
  function MessagesFor(c: string, os: seq<RuleResult>): (r: seq<string>)
    ensures r == [] <==> forall i :: 0 <= i < |os| ==> !(os[i].error.Some? && os[i].rule.context == c)
    decreases |os|
  {
    if os == [] then []
    else
      var p := os[..|os| - 1];
      var o := os[|os| - 1];
      assert forall i :: 0 <= i < |p| ==> p[i] == os[i];
      MessagesFor(c, p) + (if o.error.Some? && o.rule.context == c then [o.error.value.message] else [])
  }

  /**
   * The status of context `c`: a failure whose description is its error
   * messages joined by ", " and whose target is `targetUrl`, or, when no
   * rule of that context erred, the untouched success entry.
   */
  function StatusFor(c: string, os: seq<RuleResult>, targetUrl: string): Status {
    var msgs := MessagesFor(c, os);
    if msgs == [] then Status(c, Success, "Success", "")
    else Status(c, Failure, Join(msgs, ", "), targetUrl)
  }

  /** No statuses without a pull request; otherwise one per context key. */
  function StatusesFor(payload: Payload, os: seq<RuleResult>): seq<Status> {
    if payload.pullRequest.None? then []
    else
      var keys := ContextKeys(os);
      var targetUrl := payload.pullRequest.value.htmlUrl + "#";
      seq(|keys|, k requires 0 <= k < |keys| => StatusFor(keys[k], os, targetUrl))
  }

  lemma MessagesSnoc(c: string, os: seq<RuleResult>, o: RuleResult)
    ensures MessagesFor(c, os + [o]) ==
      MessagesFor(c, os) + (if o.error.Some? && o.rule.context == c then [o.error.value.message] else [])
  {
    assert (os + [o])[..|os|] == os;
  }

  /** `entries` holds, position by position, the status of each of `keys` after the outcomes `os`. */
  ghost predicate Represents(entries: seq<Status>, keys: seq<string>, os: seq<RuleResult>, targetUrl: string) {
    |entries| == |keys| &&
    forall k :: 0 <= k < |keys| ==> entries[k] == StatusFor(keys[k], os, targetUrl)
  }

  /** A context not yet in the map has seen no error, so its fresh success entry is its status. */
  lemma NewContext(entries: seq<Status>, os: seq<RuleResult>, c: string, targetUrl: string)
    requires Represents(entries, ContextKeys(os), os, targetUrl)
    requires IndexOfContext(entries, c).None?
    ensures Represents(entries + [Status(c, Success, "Success", "")], ContextKeys(os) + [c], os, targetUrl)
    ensures c !in ContextKeys(os)
  {
    var keys := ContextKeys(os);
    assert c !in keys by {
      assert forall k :: 0 <= k < |keys| ==> entries[k].context == keys[k];
    }
    UnseenContext(os, c);
    RepresentsSnoc(entries, keys, os, targetUrl, c);
  }

  /** A context no rule has has no error messages. */
  lemma UnseenContext(os: seq<RuleResult>, c: string)
    requires c !in ContextKeys(os)
    ensures MessagesFor(c, os) == []
  {
    assert c !in Contexts(os);
    assert forall i :: 0 <= i < |os| ==> Contexts(os)[i] == os[i].rule.context;
  }

  lemma RepresentsSnoc(entries: seq<Status>, keys: seq<string>, os: seq<RuleResult>, targetUrl: string, c: string)
    requires Represents(entries, keys, os, targetUrl)
    requires MessagesFor(c, os) == []
    ensures Represents(entries + [Status(c, Success, "Success", "")], keys + [c], os, targetUrl)
  {
    var entries' := entries + [Status(c, Success, "Success", "")];
    var keys' := keys + [c];
    assert entries'[|keys|] == StatusFor(keys'[|keys|], os, targetUrl);
    assert forall k :: 0 <= k < |keys| ==> entries'[k] == entries[k] && keys'[k] == keys[k];
  }

  /** One outcome processed: the entry of its context is updated and the others keep their status. */
  lemma Step(entries: seq<Status>, entries': seq<Status>, keys: seq<string>, os: seq<RuleResult>,
             o: RuleResult, targetUrl: string)
    requires Represents(entries, keys, os, targetUrl)
    requires NoDups(keys) && o.rule.context in keys
    requires o.error.None? ==> entries' == entries
    requires o.error.Some? ==>
      var k := FirstIndex(keys, o.rule.context);
      var description :=
        if entries[k].state == Failure then entries[k].description + ", " + o.error.value.message
        else o.error.value.message;
      entries' == entries[k := Status(o.rule.context, Failure, description, targetUrl)]
    ensures Represents(entries', keys, os + [o], targetUrl)
  {
    var c := o.rule.context;
    var k0 := FirstIndex(keys, c);
    forall k | 0 <= k < |keys| ensures entries'[k] == StatusFor(keys[k], os + [o], targetUrl) {
      MessagesSnoc(keys[k], os, o);
      if o.error.None? {
        assert MessagesFor(keys[k], os + [o]) == MessagesFor(keys[k], os);
      } else if k == k0 {
        var m := o.error.value.message;
        var msgs := MessagesFor(c, os);
        JoinSnoc(msgs, m, ", ");
        assert keys[k] == c;
        assert MessagesFor(c, os + [o]) == msgs + [m];
        if msgs == [] {
          assert entries[k].state == Success;
          assert entries'[k] == Status(c, Failure, m, targetUrl);
        } else {
          assert entries[k].state == Failure && entries[k].description == Join(msgs, ", ");
          assert entries'[k] == Status(c, Failure, Join(msgs, ", ") + ", " + m, targetUrl);
        }
      } else {
        assert keys[k] != c;
        assert entries'[k] == entries[k];
        assert MessagesFor(keys[k], os + [o]) == MessagesFor(keys[k], os);
      }
    }
  }

  lemma KeysSnoc(os: seq<RuleResult>, i: nat)
    requires i < |os|
    ensures os[..i + 1] == os[..i] + [os[i]]
    ensures ContextKeys(os[..i + 1]) == Insert(ContextKeys(os[..i]), os[i].rule.context)
  {
    assert os[..i + 1] == os[..i] + [os[i]];
    assert Contexts(os[..i] + [os[i]]) == Contexts(os[..i]) + [os[i].rule.context];
    DedupSnoc(Contexts(os[..i]), os[i].rule.context);
  }

  /** Looking a context up in the map finds the entry at that context's key position. */
  lemma Lookup(entries: seq<Status>, keys: seq<string>, os: seq<RuleResult>, c: string, targetUrl: string)
    requires Represents(entries, keys, os, targetUrl) && NoDups(keys)
    ensures IndexOfContext(entries, c).Some? <==> c in keys
    ensures c in keys ==> IndexOfContext(entries, c) == Some(FirstIndex(keys, c))
  {
    assert forall k :: 0 <= k < |keys| ==> entries[k].context == keys[k];
    if c in keys {
      var k := FirstIndex(keys, c);
      assert entries[k].context == c;
    }
  }

  lemma RepresentsAll(entries: seq<Status>, payload: Payload, os: seq<RuleResult>)
    requires payload.pullRequest.Some?
    requires Represents(entries, ContextKeys(os), os, payload.pullRequest.value.htmlUrl + "#")
    ensures entries == StatusesFor(payload, os)
  {
  }

  /**
   * `getStatuses`: the status map starts each newly seen context as a
   * success; an error flips its context's entry to failure, appending its
   * message to the description when the entry already failed.
   */
  method GetStatuses(payload: Payload, os: seq<RuleResult>) returns (statuses: seq<Status>)
    ensures statuses == StatusesFor(payload, os)
  {
    if payload.pullRequest.None? {
      return [];
    }
    var targetUrl := payload.pullRequest.value.htmlUrl + "#";
    var entries: seq<Status> := [];
    for i := 0 to |os|
      invariant Represents(entries, ContextKeys(os[..i]), os[..i], targetUrl)
    {
      entries := RecordOutcome(entries, os, i, targetUrl);
    }
    assert os[..|os|] == os;
    RepresentsAll(entries, payload, os);
    statuses := entries;
  }

  /** The callback of the `forEach` in `getStatuses`: records the outcome `os[i]` in the status map. */
  method RecordOutcome(entries: seq<Status>, os: seq<RuleResult>, i: nat, targetUrl: string)
    returns (entries': seq<Status>)
    requires i < |os|
    requires Represents(entries, ContextKeys(os[..i]), os[..i], targetUrl)
    ensures Represents(entries', ContextKeys(os[..i + 1]), os[..i + 1], targetUrl)
  {
    var result := os[i];
    var context := result.rule.context;
    KeysSnoc(os, i);
    ghost var keys := ContextKeys(os[..i]);
    Lookup(entries, keys, os[..i], context, targetUrl);
    entries' := entries;
    if IndexOfContext(entries', context).None? {
      NewContext(entries', os[..i], context, targetUrl);
      entries' := entries' + [Status(context, Success, "Success", "")];
    }
    ghost var keys' := ContextKeys(os[..i + 1]);
    ghost var inserted := entries';
    if result.error.Some? {
      Lookup(entries', keys', os[..i], context, targetUrl);
      var k := IndexOfContext(entries', context).value;
      var currentStatus := entries'[k];
      var description := result.error.value.message;
      if currentStatus.state == Failure {
        description := currentStatus.description + ", " + description;
      }
      entries' := entries'[k := Status(context, Failure, description, targetUrl)];
    }
    Step(inserted, entries', keys', os[..i], result, targetUrl);
  }

  // ---------------------------------------------------------------- aggregation

  /** `applyRules`, as a value: the errors, label changes and statuses of the rules' outcomes. */
  function Validate(eval: Evaluator, payload: Payload, rules: seq<Rule>): ValidationResult {
    var os := Outcomes(eval, payload, rules);
    ValidationResult(LabelsToAdd(os), LabelsToRemove(os), StatusesFor(payload, os), Errors(os))
  }

  method ApplyRules(eval: Evaluator, payload: Payload, rules: seq<Rule>) returns (result: ValidationResult)
    ensures result == Validate(eval, payload, rules)
  {
    var results := Outcomes(eval, payload, rules);
    var errors := Errors(results);
    var labelsToAdd, labelsToRemove := GetLabelChanges(results);
    var statuses := GetStatuses(payload, results);
    result := ValidationResult(labelsToAdd, labelsToRemove, statuses, errors);
  }

  /** `applyGroups`: evaluates exactly the rules of the groups in scope. */
  method ApplyGroups(eval: Evaluator, payload: Payload, groups: seq<Group>) returns (result: ValidationResult)
    ensures result == Validate(eval, payload, SelectedRules(eval, payload, groups))
  {
    var rules := SelectRules(eval, payload, groups);
    result := ApplyRules(eval, payload, rules);
  }

  // ---------------------------------------------------------------- properties of the result

  lemma OutcomesAppend(eval: Evaluator, payload: Payload, a: seq<Rule>, b: seq<Rule>)
    ensures Outcomes(eval, payload, a + b) == Outcomes(eval, payload, a) + Outcomes(eval, payload, b)
  {
  }

  /** One error per rule whose test holds, copied from that rule, and never more errors than rules. */
  lemma ValidateErrors(eval: Evaluator, payload: Payload, rules: seq<Rule>)
    ensures var v := Validate(eval, payload, rules);
      |v.errors| <= |rules| &&
      forall e :: e in v.errors <==>
        exists i :: 0 <= i < |rules| && eval(rules[i].test, payload)
          && e == ValidationError(rules[i].level, rules[i].context, rules[i].message)
  {
    var os := Outcomes(eval, payload, rules);
    assert forall i :: 0 <= i < |rules| ==> os[i] == ApplyRule(eval, payload, rules[i]);
  }

  /** The errors keep rule order: those of a concatenation are those of each part, in turn. */
  lemma ValidateErrorsInOrder(eval: Evaluator, payload: Payload, a: seq<Rule>, b: seq<Rule>)
    ensures Validate(eval, payload, a + b).errors ==
      Validate(eval, payload, a).errors + Validate(eval, payload, b).errors
  {
    OutcomesAppend(eval, payload, a, b);
    ErrorsAppend(Outcomes(eval, payload, a), Outcomes(eval, payload, b));
  }

  /**
   * The label changes: both lists duplicate-free and disjoint; a label is
   * added exactly when some erring rule names it, and removed exactly when
   * some rule names it and it is not added; so the two together are all
   * controlled labels.
   */
  lemma ValidateLabels(eval: Evaluator, payload: Payload, rules: seq<Rule>)
    ensures var v := Validate(eval, payload, rules);
      NoDups(v.labelsToAdd) && NoDups(v.labelsToRemove)
      && (forall l :: l in v.labelsToAdd <==>
            exists i :: 0 <= i < |rules| && eval(rules[i].test, payload) && l in rules[i].labelOnError)
      && (forall l :: l in v.labelsToRemove <==>
            (exists i :: 0 <= i < |rules| && l in rules[i].labelOnError) && l !in v.labelsToAdd)
      && (forall l :: l in v.labelsToAdd ==> l !in v.labelsToRemove)
      && (forall l :: l in v.labelsToAdd || l in v.labelsToRemove <==>
            exists i :: 0 <= i < |rules| && l in rules[i].labelOnError)
  {
    var os := Outcomes(eval, payload, rules);
    assert forall i :: 0 <= i < |rules| ==> os[i] == ApplyRule(eval, payload, rules[i]);
    forall l | l in LabelsToAdd(os)
      ensures exists i :: 0 <= i < |rules| && l in rules[i].labelOnError
    {
      var i :| 0 <= i < |os| && os[i].error.Some? && l in os[i].rule.labelOnError;
      assert l in rules[i].labelOnError;
    }
  }

  /**
   * Both lists follow first-insertion order: labels to add in the order
   * erring rules first name them, labels to remove in the order rules first
   * name them.
   */
  lemma LabelOrder(os: seq<RuleResult>)
    ensures forall i, j :: 0 <= i < j < |LabelsToAdd(os)| ==>
      FirstIndex(ErrorLabels(os), LabelsToAdd(os)[i]) < FirstIndex(ErrorLabels(os), LabelsToAdd(os)[j])
    ensures forall i, j :: 0 <= i < j < |LabelsToRemove(os)| ==>
      FirstIndex(AllLabels(os), LabelsToRemove(os)[i]) < FirstIndex(AllLabels(os), LabelsToRemove(os)[j])
  {
    DedupFirstOccurrenceOrder(ErrorLabels(os));
    var c, r := Controlled(os), LabelsToRemove(os);
    WithoutOrder(c, LabelsToAdd(os));
    forall i, j | 0 <= i < j < |r|
      ensures FirstIndex(AllLabels(os), r[i]) < FirstIndex(AllLabels(os), r[j])
    {
      assert r[i] in r && r[j] in r;
      DedupIndexOrder(AllLabels(os), r[i], r[j]);
    }
  }

  lemma {:induction false} NoErrors(os: seq<RuleResult>)
    requires forall i :: 0 <= i < |os| ==> os[i].error.None?
    ensures Errors(os) == [] && ErrorLabels(os) == []
    decreases |os|
  {
    if os != [] {
      NoErrors(os[..|os| - 1]);
    }
  }

  /**
   * When no test holds: no errors, nothing to add, every controlled label
   * to remove, and every status an untouched success.
   */
  lemma NothingMatches(eval: Evaluator, payload: Payload, rules: seq<Rule>)
    requires forall i :: 0 <= i < |rules| ==> !eval(rules[i].test, payload)
    ensures var v := Validate(eval, payload, rules);
      v.errors == [] && v.labelsToAdd == []
      && v.labelsToRemove == Controlled(Outcomes(eval, payload, rules))
      && forall s :: s in v.statuses ==> s.state == Success && s.description == "Success" && s.targetUrl == ""
  {
    var os := Outcomes(eval, payload, rules);
    assert forall i :: 0 <= i < |os| ==> os[i].error.None?;
    NoErrors(os);
    WithoutNothing(Controlled(os), LabelsToAdd(os));
    AllSuccess(payload, os);
  }

  lemma AllSuccess(payload: Payload, os: seq<RuleResult>)
    requires forall i :: 0 <= i < |os| ==> os[i].error.None?
    ensures forall s :: s in StatusesFor(payload, os) ==>
      s.state == Success && s.description == "Success" && s.targetUrl == ""
  {
    var ss := StatusesFor(payload, os);
    forall k | 0 <= k < |ss| ensures ss[k].state == Success && ss[k].description == "Success" && ss[k].targetUrl == "" {
      assert MessagesFor(ss[k].context, os) == [];
    }
  }

  /** Without a pull request there are no statuses, whatever the rules did. */
  lemma NoPullRequestNoStatuses(eval: Evaluator, payload: Payload, rules: seq<Rule>)
    requires payload.pullRequest.None?
    ensures Validate(eval, payload, rules).statuses == []
  {
  }

  lemma StatusKeys(payload: Payload, os: seq<RuleResult>)
    requires payload.pullRequest.Some?
    ensures var ss := StatusesFor(payload, os);
      |ss| == |ContextKeys(os)| && forall k :: 0 <= k < |ss| ==> ss[k].context == ContextKeys(os)[k]
  {
  }

  lemma StatusesCover(payload: Payload, os: seq<RuleResult>)
    requires payload.pullRequest.Some?
    ensures var ss := StatusesFor(payload, os);
      DistinctContexts(ss)
      && (forall i :: 0 <= i < |os| ==> exists k :: 0 <= k < |ss| && ss[k].context == os[i].rule.context)
      && (forall k :: 0 <= k < |ss| ==> exists i :: 0 <= i < |os| && ss[k].context == os[i].rule.context)
  {
    StatusesDistinct(payload, os);
    StatusesForward(payload, os);
    StatusesBackward(payload, os);
  }

  lemma StatusesDistinct(payload: Payload, os: seq<RuleResult>)
    requires payload.pullRequest.Some?
    ensures DistinctContexts(StatusesFor(payload, os))
  {
    StatusKeys(payload, os);
  }

  lemma StatusesForward(payload: Payload, os: seq<RuleResult>)
    requires payload.pullRequest.Some?
    ensures var ss := StatusesFor(payload, os);
      forall i :: 0 <= i < |os| ==> exists k :: 0 <= k < |ss| && ss[k].context == os[i].rule.context
  {
    var cs := Contexts(os);
    var keys := ContextKeys(os);
    var ss := StatusesFor(payload, os);
    StatusKeys(payload, os);
    forall i | 0 <= i < |os| ensures exists k :: 0 <= k < |ss| && ss[k].context == os[i].rule.context {
      assert cs[i] in keys;
      var k := FirstIndex(keys, cs[i]);
      assert ss[k].context == cs[i];
    }
  }

  lemma StatusesBackward(payload: Payload, os: seq<RuleResult>)
    requires payload.pullRequest.Some?
    ensures var ss := StatusesFor(payload, os);
      forall k :: 0 <= k < |ss| ==> exists i :: 0 <= i < |os| && ss[k].context == os[i].rule.context
  {
    var cs := Contexts(os);
    var keys := ContextKeys(os);
    var ss := StatusesFor(payload, os);
    StatusKeys(payload, os);
    forall k | 0 <= k < |ss| ensures exists i :: 0 <= i < |os| && ss[k].context == os[i].rule.context {
      assert keys[k] in cs;
      var i := FirstIndex(cs, keys[k]);
      assert cs[i] == os[i].rule.context;
    }
  }

  /**
   * With a pull request: one status per distinct rule context, contexts
   * that never err included.
   */
  lemma StatusesPerContext(eval: Evaluator, payload: Payload, rules: seq<Rule>)
    requires payload.pullRequest.Some?
    ensures var ss := Validate(eval, payload, rules).statuses;
      DistinctContexts(ss)
      && (forall i :: 0 <= i < |rules| ==> exists k :: 0 <= k < |ss| && ss[k].context == rules[i].context)
      && (forall k :: 0 <= k < |ss| ==> exists i :: 0 <= i < |rules| && ss[k].context == rules[i].context)
  {
    var os := Outcomes(eval, payload, rules);
    assert forall i :: 0 <= i < |rules| ==> os[i].rule == rules[i];
    StatusesCover(payload, os);
  }

  /** The statuses come in the order in which their contexts are first seen among the rules. */
  lemma StatusesFirstSeenOrder(payload: Payload, os: seq<RuleResult>)
    requires payload.pullRequest.Some?
    ensures var ss := StatusesFor(payload, os);
      forall k, k' :: 0 <= k < k' < |ss| ==>
        ss[k].context in Contexts(os) && ss[k'].context in Contexts(os) &&
        FirstIndex(Contexts(os), ss[k].context) < FirstIndex(Contexts(os), ss[k'].context)
  {
    StatusKeys(payload, os);
    DedupFirstOccurrenceOrder(Contexts(os));
  }

  /**
   * A context's status fails exactly when some rule of that context erred;
   * a failure carries the ", "-joined messages in rule order and the pull
   * request's URL followed by "#"; otherwise it is the success entry.
   */
  lemma StatusContents(eval: Evaluator, payload: Payload, rules: seq<Rule>)
    requires payload.pullRequest.Some?
    ensures var os := Outcomes(eval, payload, rules);
      var ss := Validate(eval, payload, rules).statuses;
      forall k :: 0 <= k < |ss| ==>
        (ss[k].state == Failure <==>
           exists i :: 0 <= i < |rules| && rules[i].context == ss[k].context && eval(rules[i].test, payload))
        && (ss[k].state == Failure ==>
              ss[k].description == Join(MessagesFor(ss[k].context, os), ", ")
              && ss[k].targetUrl == payload.pullRequest.value.htmlUrl + "#")
        && (ss[k].state != Failure ==>
              ss[k] == Status(ss[k].context, Success, "Success", ""))
  {
    var os := Outcomes(eval, payload, rules);
    var ss := StatusesFor(payload, os);
    forall k | 0 <= k < |ss|
      ensures ss[k].state == Failure <==>
        exists i :: 0 <= i < |rules| && rules[i].context == ss[k].context && eval(rules[i].test, payload)
      ensures ss[k].state == Failure ==>
        ss[k].description == Join(MessagesFor(ss[k].context, os), ", ")
        && ss[k].targetUrl == payload.pullRequest.value.htmlUrl + "#"
      ensures ss[k].state != Failure ==> ss[k] == Status(ss[k].context, Success, "Success", "")
    {
      StatusAt(payload, os, k);
      ErredIffTestHolds(eval, payload, rules, ss[k].context);
    }
  }

  /** The status at position `k` is the failure or success its context's messages call for. */
  lemma StatusAt(payload: Payload, os: seq<RuleResult>, k: nat)
    requires payload.pullRequest.Some?
    requires k < |StatusesFor(payload, os)|
    ensures var s := StatusesFor(payload, os)[k];
      var msgs := MessagesFor(s.context, os);
      (s.state == Failure <==> msgs != [])
      && (msgs != [] ==> s.description == Join(msgs, ", ") && s.targetUrl == payload.pullRequest.value.htmlUrl + "#")
      && (msgs == [] ==> s == Status(s.context, Success, "Success", ""))
  {
  }

  /** A context has error messages exactly when the test of one of its rules holds. */
  lemma ErredIffTestHolds(eval: Evaluator, payload: Payload, rules: seq<Rule>, c: string)
    ensures MessagesFor(c, Outcomes(eval, payload, rules)) != [] <==>
      exists i :: 0 <= i < |rules| && rules[i].context == c && eval(rules[i].test, payload)
  {
    var os := Outcomes(eval, payload, rules);
    assert forall i :: 0 <= i < |rules| ==> os[i] == ApplyRule(eval, payload, rules[i]);
  }
}
