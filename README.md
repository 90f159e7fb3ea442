# probot-validation, modelled in Dafny

A model of the core of probot-validation, a GitHub bot that checks issues and
pull requests against a set of configured rules. A **rule** carries a
predicate over the webhook payload. When the predicate holds, the rule
reports an error of its level (`info`, `warn` or `error`), under its status
context, with its message. Rules come in **groups**, and a group can carry a
filter predicate of its own.

The model covers the whole core:

- **Rule engine** (module `Rules`). It keeps the rules of the groups in scope
  and evaluates each rule. It then folds the outcomes into three things: the
  errors; the label changes; and one commit status per rule context.
  - Label changes: labels named by an erring rule are added. Every other
    label the rules control is removed.
  - Statuses: a context fails when one of its rules errs. A failed status
    carries the `", "`-joined messages of that context's errors.
- **Configuration loader** (module `Config`). It checks the shape of the
  parsed configuration file and throws a specific error for each malformed
  shape. It copies each group's context into its rules, defaults a rule's
  level to `error`, and merges a group's `labelOnError` with each rule's.
  The merge keeps first-insertion order and drops duplicates.
- **Reconcilers.** Each decides which remote writes are needed and returns
  them as a list of calls, without performing them:
  - labels (module `Labels`): add the missing labels in one call, and remove
    the present ones with one call each;
  - commit statuses (module `Statuses`): write a status only if it is new or
    changed;
  - the message block in the issue or pull request body (module `Message`):
    remove the old block between its two sentinel comments, append a freshly
    rendered one, and edit the body only when it changes.

Supporting modules:

- `Wrappers`: `Option` and `Result`.
- `OrderedSets`: a JavaScript `Set` as a duplicate-free sequence in insertion
  order.
- `Text`: string join and substring search.
- `Json`: the untyped values the loader reads.
- `Events`: the payload and the expression evaluator.

Modelling choices:

- The expression language is a parameter: `eval: (Expr, Payload) -> bool`.
  Every property holds for every evaluator.
- Imperative code is modelled as methods with loops, proved equal to
  specification functions. This covers:
  - the `forEach` over groups, the `Set`s of the label aggregation and the
    `Map` of the status aggregation;
  - the loop over groups in `parseConfig` and the loops of
    `mergeLabelOnError`;
  - the status and label-removal loops.
- The properties are lemmas about those functions.

### Idempotence of the message body

`Message.NewBodyIdempotent` proves that re-running on the edited body
changes nothing more, with one proviso: once the old block is removed, the
remaining text must hold no start token.
`Message.StrayStartTokenEditsAgain` shows the proviso is needed. Take a body
that holds a start token whose end token was deleted. The first run appends
a block after it. The second run then removes everything from the stray
token to the new end token, so it edits the body once more.

## Model

| member | source | states |
|---|---|---|
| `Rules.SelectRules` | src/lib/rules.ts:46-55 | collects, in group order, the rules of exactly the groups whose filter is absent or holds |
| `Rules.SelectedRulesAppend` | src/lib/rules.ts:48-55 | the rules selected from a concatenation of groups are those of each part, in turn |
| `Rules.GroupContribution` | src/lib/rules.ts:48-55 | each group contributes its own rules or nothing, in its own place; an excluded group drops only its own rules |
| `Rules.SelectedRulesMembers` | src/lib/rules.ts:48-55 | a rule is selected iff some group in scope holds it |
| `Rules.ApplyRule` | src/lib/rules.ts:59-74 | a rule errs iff its test holds for the payload; the error copies the rule's level, context and message, and the result keeps the rule |
| `Rules.Errors` | src/lib/rules.ts:82-84 | the errors are exactly those carried by outcomes, never more than the outcomes |
| `Rules.ErrorsAppend` | src/lib/rules.ts:82-84 | the errors of concatenated outcomes are each part's errors, in order |
| `Rules.ValidateErrors` | src/lib/rules.ts:80-84 | one error per rule whose test holds, copied from that rule, and at most as many errors as rules |
| `Rules.ValidateErrorsInOrder` | src/lib/rules.ts:80-84 | errors follow rule order: those of `a + b` are those of `a` followed by those of `b` |
| `Rules.AllLabels` | src/lib/rules.ts:98-100 | the controlled labels are exactly the labels named by some rule |
| `Rules.ErrorLabels` | src/lib/rules.ts:101-103 | the labels with error are exactly those named by some erring rule |
| `Rules.GetLabelChanges` | src/lib/rules.ts:93-109 | the loop filling the two `Set`s yields the deduplicated labels with error, and the controlled labels without them, in controlled order |
| `Rules.ValidateLabels` | src/lib/rules.ts:93-109 | both lists are duplicate-free and disjoint; a label is added iff an erring rule names it, and removed iff some rule names it and it is not added; together they are all controlled labels |
| `Rules.LabelOrder` | src/lib/rules.ts:96-108 | labels to add follow the order in which erring rules first name them; labels to remove follow the order in which any rule first names them |
| `Rules.NothingMatches` | src/lib/rules.ts:96-142 | when no test holds: no errors, nothing to add, every controlled label removed, every status the untouched success entry |
| `Rules.NoPullRequestNoStatuses` | src/lib/rules.ts:111-115 | without a pull request there are no statuses, whatever the rules did |
| `Rules.Contexts` | src/lib/rules.ts:118-119 | the context of every outcome, in outcome order |
| `Rules.MessagesFor` | src/lib/rules.ts:129-134 | a context has messages iff some outcome of that context erred |
| `Rules.MessagesSnoc` | src/lib/rules.ts:129-141 | one more erring outcome of a context appends its message to that context's messages |
| `Rules.GetStatuses` | src/lib/rules.ts:111-144 | the loop over a `Map` from context to status yields one status per distinct context, in first-seen order, failing ones with the joined messages |
| `Rules.RecordOutcome` | src/lib/rules.ts:118-142 | recording one more outcome keeps the map equal, key by key, to the statuses of the outcomes seen so far |
| `Rules.StatusAt` | src/lib/rules.ts:117-143 | each status fails iff its context has error messages, then with their join and the target URL; otherwise it is the success entry |
| `Rules.ErredIffTestHolds` | src/lib/rules.ts:59-74 | a context has error messages iff the test of one of its rules holds |
| `Rules.StatusKeys` | src/lib/rules.ts:117-127 | with a pull request, the statuses are keyed by the distinct contexts, in first-seen order |
| `Rules.StatusesCover` | src/lib/rules.ts:117-143 | the statuses have distinct contexts; every outcome's context has a status, and every status belongs to some outcome's context |
| `Rules.StatusesDistinct` | src/lib/rules.ts:117-127 | no two statuses share a context |
| `Rules.StatusesForward` | src/lib/rules.ts:117-127 | every outcome's context has a status |
| `Rules.StatusesBackward` | src/lib/rules.ts:117-127 | every status has the context of some outcome |
| `Rules.StatusesPerContext` | src/lib/rules.ts:117-127 | with a pull request: exactly one status per distinct rule context, contexts that never err included |
| `Rules.StatusesFirstSeenOrder` | src/lib/rules.ts:117-143 | statuses come in the order in which their contexts first appear among the rules |
| `Rules.StatusContents` | src/lib/rules.ts:129-141 | a status fails iff some rule of its context erred; a failure carries the `", "`-join of that context's messages in rule order and the pull request URL followed by `#`; otherwise it is `Success`, `"Success"`, `""` |
| `Rules.ApplyRules` | src/lib/rules.ts:76-91 | the result holds the errors, the label changes and the statuses of the rules' outcomes |
| `Rules.ApplyGroups` | src/lib/rules.ts:42-57 | validating groups is validating exactly the rules of the groups in scope |
| `RuleExamples.OneContextKey` | src/lib/rules.test.ts:130-160 | two outcomes of one context give that context as the single key |
| `RuleExamples.TwoMessages` | src/lib/rules.test.ts:130-160 | two erring outcomes of one context give their two messages, in order |
| `RuleExamples.OneKey` | src/lib/rules.test.ts:162-175 | a single key with two messages gives one failure status described by the messages joined with `", "` |
| `RuleExamples.SharedContextAccumulates` | src/lib/rules.test.ts:123-183 | two erring rules of one context yield one failure status described `"a, b"` with the pull request URL and `#` |
| `Statuses.IndexOfContext` | src/lib/statuses.ts:30-32 | finds the first current status with the given context, or reports there is none |
| `Statuses.Writes` | src/lib/statuses.ts:29-48 | a desired status is written iff no current status has its context or the first one differs in state, description or target URL; never more writes than desired statuses |
| `Statuses.UpdateStatuses` | src/lib/statuses.ts:10-49 | an empty list returns with no call even without a pull request; otherwise a missing pull request is an error; otherwise one fetch, then one write per status needing it, in desired order |
| `Statuses.WritesAppend` | src/lib/statuses.ts:29-48 | writes of concatenated desired lists are each part's writes, in order |
| `Statuses.UnchangedMeansNoWrites` | src/lib/statuses.ts:34-41 | when every desired status matches the first current status of its context, nothing is written |
| `Statuses.ReconcileIdempotent` | src/lib/statuses.ts:29-48 | with distinct desired contexts, once the written statuses are reported ahead of the old ones, a second run writes nothing |
| `Config.LabelsOf` | src/lib/config.ts:10-16 | an array contributes its labels in order, a string itself, a nullish value nothing |
| `Config.Contributions` | src/lib/config.ts:9-17 | the inputs' labels are gathered iff every input is an array, a string or nullish |
| `Config.MergedLabelsErr` | src/lib/config.ts:9-16 | when the merge fails, its error names the first input that is none of an array, a string or nullish |
| `Config.MergeLabelOnError` | src/lib/config.ts:7-19 | the loops adding into a `Set` and throwing on a bad value compute the deduplicated labels of all inputs, or the first error |
| `Config.MergeGroupAndRule` | src/lib/config.ts:57-60 | a rule's labels are the group's labels then the rule's new ones, no label twice; a bad group value fails before a bad rule value |
| `Config.MergedLabelsMembers` | src/lib/config.ts:7-19 | the merged labels are duplicate-free and exactly the labels of the inputs |
| `Config.ParseLevel` | src/lib/config.ts:63 | a falsy level gives `error`; any other is kept |
| `Config.ParseRulesOk` | src/lib/config.ts:50-66 | parsed rules are one per input rule, in order, each the parse of its input |
| `Config.ParseRulesAllOk` | src/lib/config.ts:50-66 | the rules parse when every rule does |
| `Config.ParseRulesErr` | src/lib/config.ts:50-66 | when the rules fail, the error is that of the first rule that fails |
| `Config.ParsedRule` | src/lib/config.ts:51-65 | a parsed rule has the group's context, the rule's test and message, its level or `error` when falsy, and the merged labels; a `null` rule fails |
| `Config.ParsedGroup` | src/lib/config.ts:40-71 | a parsed group keeps its filter and has one rule per input rule, in order |
| `Config.GroupRejected` | src/lib/config.ts:50-66 | a well-shaped group fails iff one of its rules does, with the first failing rule's error |
| `Config.GroupShapeErrors` | src/lib/config.ts:32-48 | `null` throws a TypeError; a non-object fails with the group; an array or a non-string context fails on the context; a non-array `rules` fails on the rules |
| `Config.EmptyRulesIgnoreLabels` | src/lib/config.ts:50-60 | a group with no rules parses whatever its `labelOnError` holds |
| `Config.ParseConfig` | src/lib/config.ts:21-75 | a non-object fails; `null` throws a TypeError; a missing or non-array `groups` fails; otherwise success iff every group parses, one group per input in order, else the first failing group's error |
| `Labels.GetLabels` | src/lib/labels.ts:3-12 | fails iff there is neither issue nor pull request; otherwise the issue's label names, or else the pull request's |
| `Labels.HasLabel` | src/lib/labels.ts:14-15 | holds iff the name is among the current labels; fails when the labels cannot be read |
| `Labels.AddLabelsIfNotPresent` | src/lib/labels.ts:17-29 | at most one call; its labels are the requested ones not present, filtered in request order with repeats kept; no call is made when none is missing; an empty request reads nothing |
| `Labels.AddOrder` | src/lib/labels.ts:21-28 | the batch added for a request `a + b` is the batch for `a` followed by the batch for `b` |
| `Labels.PresentLabels` | src/lib/labels.ts:35 | the labels to remove are the requested ones that are present, filtered in request order with repeats kept |
| `Labels.RemoveOrder` | src/lib/labels.ts:35-44 | the labels and removal calls for a request `a + b` are those for `a` followed by those for `b` |
| `Labels.RemoveCalls` | src/lib/labels.ts:39-44 | one removal call per label, in order |
| `Labels.RemoveLabelsIfPresent` | src/lib/labels.ts:31-45 | one removal call per requested label that is present, in request order; none when none is present; errors as the label lookup does |
| `Labels.RemoveEach` | src/lib/labels.ts:39-44 | the loop issues one removal call per label, in order |
| `Labels.AddIdempotent` | src/lib/labels.ts:21-23 | once the current labels include the ones added, asking again makes no call |
| `Labels.RemoveIdempotent` | src/lib/labels.ts:35-38 | once the removed labels are gone, asking again makes no call |
| `Message.LevelEmojiInjective` | src/lib/message.ts:7-16 | the three levels have three distinct emoji |
| `Message.ErrorLines` | src/lib/message.ts:20-21 | one line per error, in order, the level's emoji, a space and the message |
| `Message.RenderSnoc` | src/lib/message.ts:18-26 | a single error renders as its line; one more error appends a newline and its line, so there is no trailing newline |
| `Message.MatchBounds` | src/lib/message.ts:39-42 | no match iff no start token has an end token after it; otherwise the leftmost such start token and the last end token after it |
| `Message.Strip` | src/lib/message.ts:39-42 | the body without the region from the match's start token through its end token; unchanged when nothing matches |
| `Message.UpdateMessage` | src/lib/message.ts:28-56 | fails without an issue or pull request, or when the body is not a string; otherwise asks for an edit iff the new body differs, and the edit writes the new body |
| `Message.StripBlock` | src/lib/message.ts:39-47 | removing the block from text that ends in a rendered block gives back the text before it, if that text holds no start token |
| `Message.RenderedBodyIsStable` | src/lib/message.ts:39-55 | a body that is text without a start token followed by the block of the same errors gets no edit |
| `Message.NoErrorsNoBlockNoEdit` | src/lib/message.ts:44-55 | without errors, a body holding no block gets no edit |
| `Message.NewBodyIdempotent` | src/lib/message.ts:39-48 | the new body of the new body is the new body, provided the stripped body holds no stray start token |
| `Message.UpdateIdempotent` | src/lib/message.ts:28-56 | after one edit, the next run on the edited body asks for no edit, under the same proviso |
| `Message.StrayStartTokenEditsAgain` | src/lib/message.ts:39-48 | a body holding only a start token gets a block after it, and the next run edits again |
| `OrderedSets.AddAll` | src/lib/rules.ts:100-102 | adding labels to a `Set` one by one yields the ordered set of all labels seen, the earlier members first |
| `OrderedSets.Insert` | src/lib/rules.ts:100 | adding to a `Set` keeps the old members, adds the new one, keeps no duplicates and changes nothing if it is present |
| `OrderedSets.Dedup` | src/lib/rules.ts:106 | spreading a `Set` filled from a list gives each of its elements once |
| `OrderedSets.DedupAppend` | src/lib/config.ts:8-18 | deduplicating `a + b` gives `a` deduplicated, then the new elements of `b` |
| `OrderedSets.DedupFirstOccurrenceOrder` | src/lib/rules.ts:106 | a `Set` lists its elements in the order of their first insertion |
| `OrderedSets.DedupIndexOrder` | src/lib/rules.ts:106 | an element before another in the `Set` was inserted first |
| `OrderedSets.Without` | src/lib/rules.ts:107 | filtering out the members of another set keeps exactly the others, and keeps a list duplicate-free |
| `OrderedSets.WithoutAppend` | src/lib/labels.ts:21 | dropping the members of a set distributes over concatenation, so order and repeats are kept |
| `OrderedSets.WithinAppend` | src/lib/labels.ts:35 | keeping the members of a set distributes over concatenation, so order and repeats are kept |
| `OrderedSets.WithoutOrder` | src/lib/rules.ts:107 | filtering keeps the order of the filtered list |
| `OrderedSets.Within` | src/lib/labels.ts:35 | filtering for the members of another set keeps exactly those |
| `OrderedSets.WithoutAll` | src/lib/labels.ts:21-23 | nothing is left when every element is in the other set |
| `OrderedSets.WithinNone` | src/lib/labels.ts:35-38 | nothing is kept when no element is in the other set |
| `OrderedSets.WithoutNothing` | src/lib/rules.ts:107 | filtering by a set disjoint from the list keeps it whole |
| `OrderedSets.FirstIndex` | src/lib/rules.ts:96-106 | the index of the first occurrence of an element |
| `Text.JoinSnoc` | src/lib/rules.ts:131-134 | joining one more element appends the separator and that element |
| `Text.FirstOccurrence` | src/lib/message.ts:39-42 | the leftmost occurrence of a pattern at or after a position, or none |
| `Text.LastOccurrence` | src/lib/message.ts:39-42 | the rightmost occurrence of a pattern at or after a position, or none |

## Left out

- The expression language (JSONata) is an arbitrary evaluator function.
  Compiling and evaluating expressions is not modelled, and neither are
  their exceptions or JavaScript truthiness.
- Remote calls are returned as lists of calls (`StatusCall`, `LabelCall`,
  the new body as an `Option`) and are not performed. Remote failures are
  not modelled.
- The current statuses the remote reports are a parameter, since the model
  cannot fetch them.
- Asynchrony is not modelled: the un-awaited `addLabels` call, ordering
  between awaited calls, concurrent events, and side effects left half done
  after a throw.
- `src/index.ts` and `src/lib/run.ts` are not part of this model: loading
  the configuration file, event wiring, logging, and the sequencing of the
  four steps.
- `apply` (src/lib/rules.ts:39-40) only forwards to `applyGroups` and is not
  modelled separately.
- The `console.debug` call is left out, as it only writes to the log.
- Error texts that interpolate a value (`JSON.stringify` of the group,
  `${input}`, the payload) are not modelled. Instead each error kind carries
  the offending value. `Config.ErrorMessage` gives only the fixed part of
  each text; the text it gives the TypeError is the model's own wording,
  since that text comes from the JavaScript runtime.
- Numbers in the configuration are integers, and floating point is not
  modelled.
- The payload is a typed view: the issue and pull request as records with
  their label names, body, URL and head commit. How that view is read from
  the raw payload is not modelled. Label objects are reduced to their names.
- Fields of a remote status other than its context, state, description and
  target URL are not modelled.
- The regular expression engine is replaced by an explicit search for the
  first start token and the last end token after it.
- A missing issue and pull request in the message renderer makes JavaScript
  throw a TypeError when it reads `.body` of `undefined`. The model returns
  the `NoIssueOrPullRequest` error instead.
- Config.ParseConfig: requires the casts the loader trusts without checking
  them: a string `message`; a level that is falsy or one of the three level
  names; string elements in a `labelOnError` array. The source copies other
  values through unchecked where the typed `Rule` cannot hold them.
- Config.MergeLabelOnError: requires string elements in a `labelOnError`
  array; the same holds for `Config.ParseGroup`, `Config.ParseRule`,
  `Config.ParseRules` and `Config.LabelsOf`, each for the part of the input
  it reads.
- Config.ParseLevel: requires a falsy level or one of the three level names;
  a truthy level of any other value, which the source keeps unchanged, is
  not modelled, since the typed `Level` cannot hold it.
- The empty `if` at src/lib/config.ts:52-53 does nothing and is not modelled.
