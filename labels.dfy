/**
 * The label reconciler: reads the labels of the issue or pull request and
 * issues the calls that add the missing ones and remove the present ones.
 */
module Labels {
  import opened Wrappers
  import opened OrderedSets
  import opened Events

  /** The remote calls of the label reconciler, on the current issue or pull request. */
  datatype LabelCall =
    | AddLabels(names: seq<string>)   // one call adding several labels
    | RemoveLabel(name: string)       // one call per removed label

  /** `getLabels`: the label names of the issue, or else of the pull request. */
  function GetLabels(p: Payload): (r: Result<seq<string>, PayloadError>)
    ensures r.Err? <==> p.issue.None? && p.pullRequest.None?
    ensures r.Err? ==> r.error == NoIssueOrPullRequest
    ensures p.issue.Some? ==> r == Ok(p.issue.value.labels)
    ensures p.issue.None? && p.pullRequest.Some? ==> r == Ok(p.pullRequest.value.labels)
  {
    if p.issue.Some? then Ok(p.issue.value.labels)
    else if p.pullRequest.Some? then Ok(p.pullRequest.value.labels)
    else Err(NoIssueOrPullRequest)
  }

  /** `hasLabel`: whether the current labels include `name`. */
  function HasLabel(p: Payload, name: string): (r: Result<bool, PayloadError>)
    ensures r.Ok? <==> GetLabels(p).Ok?
    ensures r.Ok? ==> (r.value <==> name in GetLabels(p).value)
  {
    var current :- GetLabels(p);
    Ok(name in current)
  }

  /**
   * `addLabelsIfNotPresent`: one call adding, in their given order, the labels
   * not yet present; no call when none is missing. The labels are read once
   * per requested label, so an empty request never reads them.
   */
  function AddLabelsIfNotPresent(p: Payload, labels: seq<string>): (r: Result<seq<LabelCall>, PayloadError>)
    ensures labels == [] ==> r == Ok([])
    ensures labels != [] ==> (r.Err? <==> GetLabels(p).Err?)
    ensures r.Err? ==> r.error == NoIssueOrPullRequest
    ensures r.Ok? ==> |r.value| <= 1
    ensures r.Ok? && r.value != [] ==> (r.value[0].AddLabels? && r.value[0].names != []
      && forall l :: l in r.value[0].names <==> l in labels && l !in GetLabels(p).value)
    ensures r.Ok? && r.value == [] && labels != [] ==> forall l :: l in labels ==> l in GetLabels(p).value
    ensures r.Ok? && r.value != [] ==> r.value[0].names == Without(labels, GetLabels(p).value)
  {
    if labels == [] then Ok([])
    else
      var current :- GetLabels(p);
      var missing := Without(labels, current);
      if missing == [] then Ok([]) else Ok([AddLabels(missing)])
  }

  /** The labels `removeLabelsIfPresent` removes: those requested that are present, in the given order. */
  function PresentLabels(p: Payload, labels: seq<string>): (r: Result<seq<string>, PayloadError>)
    ensures labels == [] ==> r == Ok([])
    ensures labels != [] ==> (r.Err? <==> GetLabels(p).Err?)
    ensures r.Err? ==> r.error == NoIssueOrPullRequest
    ensures r.Ok? && labels != [] ==> forall l :: l in r.value <==> l in labels && l in GetLabels(p).value
    ensures r.Ok? && labels != [] ==> r.value == Within(labels, GetLabels(p).value)
  {
    if labels == [] then Ok([])
    else
      var current :- GetLabels(p);
      Ok(Within(labels, current))
  }

  function RemoveCalls(names: seq<string>): (r: seq<LabelCall>)
    ensures |r| == |names|
    ensures forall k :: 0 <= k < |names| ==> r[k] == RemoveLabel(names[k])
  {
    seq(|names|, k requires 0 <= k < |names| => RemoveLabel(names[k]))
  }

  /** `removeLabelsIfPresent`: one removal call per present label, awaited in order. */
  method RemoveLabelsIfPresent(p: Payload, labels: seq<string>) returns (r: Result<seq<LabelCall>, PayloadError>)
    ensures r.Err? <==> PresentLabels(p, labels).Err?
    ensures r.Err? ==> r == Err(NoIssueOrPullRequest)
    ensures r.Ok? ==> r.value == RemoveCalls(PresentLabels(p, labels).value)
  {
    var present: seq<string> := [];
    for i := 0 to |labels|
      invariant i > 0 ==> GetLabels(p).Ok?
      invariant GetLabels(p).Ok? ==> present == Within(labels[..i], GetLabels(p).value)
      invariant GetLabels(p).Err? ==> present == []
    {
      var has := HasLabel(p, labels[i]);
      if has.Err? {
        return Err(has.error);
      }
      WithinSnoc(labels[..i], labels[i], GetLabels(p).value);
      assert labels[..i + 1] == labels[..i] + [labels[i]];
      if has.value {
        present := present + [labels[i]];
      }
    }
    assert labels[..|labels|] == labels;
    var calls := RemoveEach(present);
    return Ok(calls);
  }

  /** The `for` loop awaiting one removal call per label. */
  method RemoveEach(names: seq<string>) returns (calls: seq<LabelCall>)
    ensures calls == RemoveCalls(names)
  {
    calls := [];
    for i := 0 to |names|
      invariant calls == RemoveCalls(names[..i])
    {
      calls := calls + [RemoveLabel(names[i])];
    }
    assert names[..|names|] == names;
  }

  /**
   * The labels added for a request `a + b` are those added for `a`, then
   * those added for `b`: the batch keeps the request's order and repeats.
   */
  lemma AddOrder(p: Payload, a: seq<string>, b: seq<string>)
    requires GetLabels(p).Ok?
    ensures Without(a + b, GetLabels(p).value) == Without(a, GetLabels(p).value) + Without(b, GetLabels(p).value)
    ensures AddLabelsIfNotPresent(p, a + b).Ok?
    ensures AddLabelsIfNotPresent(p, a + b).value == [] <==>
      Without(a, GetLabels(p).value) + Without(b, GetLabels(p).value) == []
    ensures AddLabelsIfNotPresent(p, a + b).value != [] ==>
      AddLabelsIfNotPresent(p, a + b).value[0].names == Without(a, GetLabels(p).value) + Without(b, GetLabels(p).value)
  {
    WithoutAppend(a, b, GetLabels(p).value);
    if a + b == [] {
      assert a == [] && b == [];
    }
  }

  /**
   * The labels removed for a request `a + b` are those removed for `a`, then
   * those removed for `b`; so the removal calls follow the request's order.
   */
  lemma RemoveOrder(p: Payload, a: seq<string>, b: seq<string>)
    requires GetLabels(p).Ok?
    ensures PresentLabels(p, a + b).Ok? && PresentLabels(p, a).Ok? && PresentLabels(p, b).Ok?
    ensures PresentLabels(p, a + b).value == PresentLabels(p, a).value + PresentLabels(p, b).value
    ensures RemoveCalls(PresentLabels(p, a + b).value) ==
      RemoveCalls(PresentLabels(p, a).value) + RemoveCalls(PresentLabels(p, b).value)
  {
    WithinAppend(a, b, GetLabels(p).value);
  }

  /**
   * Once the labels asked to be added are present, asking again adds nothing:
   * `after` holds the labels before the call and those the call added.
   */
  lemma AddIdempotent(p: Payload, after: Payload, labels: seq<string>)
    requires AddLabelsIfNotPresent(p, labels).Ok?
    requires GetLabels(after).Ok?
    requires labels != [] ==> forall l :: l in GetLabels(p).value ==> l in GetLabels(after).value
    requires forall c, l :: c in AddLabelsIfNotPresent(p, labels).value && l in c.names ==> l in GetLabels(after).value
    ensures AddLabelsIfNotPresent(after, labels) == Ok([])
  {
    if labels != [] {
      var current := GetLabels(p).value;
      var missing := Without(labels, current);
      forall l | l in labels
        ensures l in GetLabels(after).value
      {
        if l !in current {
          assert l in missing;
          assert AddLabelsIfNotPresent(p, labels).value == [AddLabels(missing)];
        }
      }
      WithoutAll(labels, GetLabels(after).value);
    }
  }

  /**
   * Once the present labels are removed, asking again removes nothing:
   * `after` holds the labels before the call less those removed.
   */
  lemma RemoveIdempotent(p: Payload, after: Payload, labels: seq<string>)
    requires PresentLabels(p, labels).Ok?
    requires GetLabels(after).Ok?
    requires labels != [] ==> forall l :: l in GetLabels(after).value ==>
      l in GetLabels(p).value && l !in PresentLabels(p, labels).value
    ensures PresentLabels(after, labels) == Ok([])
  {
    if labels != [] {
      WithinNone(labels, GetLabels(after).value);
    }
  }
}
