/**
 * Scenarios of the rule engine's test suite, stated over an evaluator that
 * is only constrained on the test expressions they use (each expression is
 * the string the test's rule carries).
 */
module RuleExamples {
  import opened Wrappers
  import opened OrderedSets
  import opened Text
  import opened Json
  import opened Events
  import opened Statuses
  import opened Rules

  function R(context: string, labels: seq<string>, test: string, message: string): Rule {
    Rule(context, labels, JStr(test), message, Error)
  }

  function Erred(r: Rule): RuleResult {
    RuleResult(r, Some(ValidationError(r.level, r.context, r.message)))
  }

  lemma OneContextKey(a: RuleResult, b: RuleResult, c: string)
    requires a.rule.context == c && b.rule.context == c
    ensures ContextKeys([a, b]) == [c]
  {
    assert [a, b][..1] == [a] && [a][..0] == [];
    assert Contexts([a]) == [c];
    assert Contexts([a, b]) == [c] + [c];
    DedupSnoc([], c);
    DedupSnoc([c], c);
  }

  lemma TwoMessages(a: RuleResult, b: RuleResult, c: string, m: string, m': string)
    requires a.rule.context == c && b.rule.context == c
    requires a.error == Some(ValidationError(Error, c, m)) && b.error == Some(ValidationError(Error, c, m'))
    ensures MessagesFor(c, [a, b]) == [m, m']
  {
    assert [] + [a] == [a] && [a] + [b] == [a, b];
    MessagesSnoc(c, [], a);
    MessagesSnoc(c, [a], b);
  }

  lemma OneKey(payload: Payload, os: seq<RuleResult>, c: string, m: string, m': string)
    requires payload.pullRequest.Some?
    requires ContextKeys(os) == [c] && MessagesFor(c, os) == [m, m']
    ensures StatusesFor(payload, os) == [Status(c, Failure, m + ", " + m', payload.pullRequest.value.htmlUrl + "#")]
  {
    JoinSnoc([m], m', ", ");
    assert [m] + [m'] == [m, m'];
    var t := payload.pullRequest.value.htmlUrl + "#";
    var st := Status(c, Failure, m + ", " + m', t);
    assert StatusFor(c, os, t) == st;
    var ss := StatusesFor(payload, os);
    assert |ss| == 1 && ss[0] == st;
  }

  /** Two erring rules of one context accumulate "a, b" in that context's failure status. */
  lemma SharedContextAccumulates(eval: Evaluator, payload: Payload)
    requires payload.pullRequest.Some?
    requires eval(JStr("x"), payload)
    ensures Validate(eval, payload, [R("foo", [], "x", "a"), R("foo", [], "x", "b")]).statuses ==
      [Status("foo", Failure, "a, b", payload.pullRequest.value.htmlUrl + "#")]
  {
    var a, b := R("foo", [], "x", "a"), R("foo", [], "x", "b");
    var os := Outcomes(eval, payload, [a, b]);
    assert os == [Erred(a), Erred(b)];
    assert "a" + ", " + "b" == "a, b";
    OneContextKey(Erred(a), Erred(b), "foo");
    TwoMessages(Erred(a), Erred(b), "foo", "a", "b");
    OneKey(payload, os, "foo", "a", "b");
  }
}
