/**
 * Commit statuses and the status reconciler (`updateStatuses`): given the
 * desired statuses and the statuses the remote currently reports for the
 * pull request's head commit, issue a write only for a status that is new
 * or changed.
 */
module Statuses {
  import opened Wrappers
  import opened Events

  datatype State = Success | Failure | Pending

  datatype Status = Status(context: string, state: State, description: string, targetUrl: string)

  /** A call to the remote status API, recorded instead of performed. */
  datatype StatusCall =
    | GetStatuses(sha: string)                     // fetch the current statuses of a commit
    | CreateStatus(sha: string, status: Status)    // write one status on a commit

  predicate DistinctContexts(ss: seq<Status>) {
    forall i, j :: 0 <= i < j < |ss| ==> ss[i].context != ss[j].context
  }

  /** The index of the first status with context `c` (`find(s => s.context == c)`). */
  function IndexOfContext(ss: seq<Status>, c: string): (r: Option<nat>)
    ensures r.Some? ==> r.value < |ss| && ss[r.value].context == c
    ensures r.Some? ==> forall j :: 0 <= j < r.value ==> ss[j].context != c
    ensures r.None? ==> forall j :: 0 <= j < |ss| ==> ss[j].context != c
  {
    if ss == [] then None
    else if ss[0].context == c then Some(0)
    else match IndexOfContext(ss[1..], c)
      case None => None
      case Some(k) => Some(k + 1)
  }

  /**
   * The desired status `s` must be written: no current status has its
   * context, or the first one that has it differs in state, description or
   * target URL.
   */
  predicate NeedsWrite(current: seq<Status>, s: Status) {
    match IndexOfContext(current, s.context)
    case None => true
    case Some(k) =>
      !(current[k].state == s.state && current[k].description == s.description
        && current[k].targetUrl == s.targetUrl)
  }

  /** The desired statuses that get written, in desired order. */
  function Writes(statuses: seq<Status>, current: seq<Status>): (r: seq<Status>)
    ensures forall s :: s in r <==> s in statuses && NeedsWrite(current, s)
    ensures |r| <= |statuses|
    decreases |statuses|
  {
    if statuses == [] then []
    else
      var rest := Writes(statuses[..|statuses| - 1], current);
      var s := statuses[|statuses| - 1];
      if NeedsWrite(current, s) then rest + [s] else rest
  }

  function CreateCalls(sha: string, ss: seq<Status>): seq<StatusCall> {
    seq(|ss|, i requires 0 <= i < |ss| => CreateStatus(sha, ss[i]))
  }

  /**
   * `updateStatuses`, with the remote's answer to the status fetch passed
   * in as `current`. An empty desired list returns at once, with or without
   * a pull request; otherwise a missing pull request is an error; otherwise
   * the statuses are fetched once and each desired status that needs it is
   * written, in order.
   */
  method UpdateStatuses(payload: Payload, statuses: seq<Status>, current: seq<Status>)
    returns (r: Result<seq<StatusCall>, PayloadError>)
    ensures statuses == [] ==> r == Ok([])
    ensures statuses != [] && payload.pullRequest.None? ==> r == Err(NoPullRequest)
    ensures statuses != [] && payload.pullRequest.Some? ==>
      var sha := payload.pullRequest.value.headSha;
      r == Ok([GetStatuses(sha)] + CreateCalls(sha, Writes(statuses, current)))
  {
    if |statuses| == 0 {
      return Ok([]);
    }
    if payload.pullRequest.None? {
      return Err(NoPullRequest);
    }
    var sha := payload.pullRequest.value.headSha;
    // the fetch is the first call; the writes follow it
    var writes: seq<StatusCall> := [];
    for i := 0 to |statuses|
      invariant writes == CreateCalls(sha, Writes(statuses[..i], current))
    {
      var status := statuses[i];
      CreateCallsStep(sha, statuses, i, current);
      if NeedsWrite(current, status) {
        writes := writes + [CreateStatus(sha, status)];
      }
    }
    assert statuses[..|statuses|] == statuses;
    r := Ok([GetStatuses(sha)] + writes);
  }

  /** One more desired status adds its write call when it needs one, and nothing otherwise. */
  lemma CreateCallsStep(sha: string, statuses: seq<Status>, i: nat, current: seq<Status>)
    requires i < |statuses|
    ensures CreateCalls(sha, Writes(statuses[..i + 1], current)) ==
      CreateCalls(sha, Writes(statuses[..i], current))
      + (if NeedsWrite(current, statuses[i]) then [CreateStatus(sha, statuses[i])] else [])
  {
    assert statuses[..i + 1][..i] == statuses[..i];
    var w := Writes(statuses[..i], current);
    if NeedsWrite(current, statuses[i]) {
      assert Writes(statuses[..i + 1], current) == w + [statuses[i]];
      assert CreateCalls(sha, w + [statuses[i]]) == CreateCalls(sha, w) + [CreateStatus(sha, statuses[i])];
    } else {
      assert Writes(statuses[..i + 1], current) == w;
    }
  }

  /** The writes of a concatenation are the writes of each part, in order. */
  lemma {:induction false} WritesAppend(a: seq<Status>, b: seq<Status>, current: seq<Status>)
    ensures Writes(a + b, current) == Writes(a, current) + Writes(b, current)
    decreases |b|
  {
    if b == [] {
      assert a + b == a;
    } else {
      var b', x := b[..|b| - 1], b[|b| - 1];
      assert b == b' + [x];
      assert (a + b)[..|a + b| - 1] == a + b';
      WritesAppend(a, b', current);
    }
  }

  /** When every desired status matches the first current status of its context, nothing is written. */
  lemma UnchangedMeansNoWrites(statuses: seq<Status>, current: seq<Status>)
    requires forall i :: 0 <= i < |statuses| ==>
      match IndexOfContext(current, statuses[i].context)
      case None => false
      case Some(k) =>
        current[k].state == statuses[i].state && current[k].description == statuses[i].description
        && current[k].targetUrl == statuses[i].targetUrl
    ensures Writes(statuses, current) == []
  {
  }

  lemma NoneNeededNoWrites(statuses: seq<Status>, current: seq<Status>)
    requires forall s :: s in statuses ==> !NeedsWrite(current, s)
    ensures Writes(statuses, current) == []
  {
  }

  /** Statuses that no status of `front` shares a context with are looked up in `current` as before. */
  lemma LookupPastFront(front: seq<Status>, current: seq<Status>, s: Status)
    requires forall p :: p in front ==> p.context != s.context
    ensures NeedsWrite(front + current, s) == NeedsWrite(current, s)
  {
    var all := front + current;
    var c := s.context;
    assert forall j :: 0 <= j < |front| ==> all[j] in front;
    assert forall j :: |front| <= j < |all| ==> all[j] == current[j - |front|];
    match IndexOfContext(current, c)
    case None =>
    case Some(k) =>
      assert all[|front| + k] == current[k];
  }

  /**
   * Reconciling twice makes no write the second time: once the written
   * statuses are listed ahead of the old ones (the remote lists the newest
   * first; their order among themselves does not matter), no desired status
   * needs writing, provided the desired statuses have distinct contexts.
   */
  lemma {:induction false} ReconcileIdempotent(statuses: seq<Status>, current: seq<Status>, written: seq<Status>)
    requires DistinctContexts(statuses)
    requires forall s :: s in written <==> s in Writes(statuses, current)
    ensures Writes(statuses, written + current) == []
  {
    var all := written + current;
    forall s | s in statuses ensures !NeedsWrite(all, s) {
      var i :| 0 <= i < |statuses| && statuses[i] == s;
      if s in written {
        var m := IndexOfContext(all, s.context);
        var p :| 0 <= p < |written| && written[p] == s;
        assert all[p] == s;
        assert m.Some? && m.value <= p;
        assert all[m.value] in written;
        var j :| 0 <= j < |statuses| && statuses[j] == all[m.value];
        assert j == i;
      } else {
        forall p | p in written ensures p.context != s.context {
          var j :| 0 <= j < |statuses| && statuses[j] == p;
          assert j != i;
        }
        LookupPastFront(written, current, s);
      }
    }
    NoneNeededNoWrites(statuses, all);
  }
}
