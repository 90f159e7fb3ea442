/**
 * The message renderer: keeps one delimited block in the issue or pull
 * request body that lists the validation errors, replacing the block of an
 * earlier run and asking for an edit only when the body changes.
 */
module Message {
  import opened Wrappers
  import opened Text
  import opened Json
  import opened Events
  import opened Rules

  const StartToken: string := "<!-- probot-validation:start -->"
  const EndToken: string := "<!-- probot-validation:end -->"

  /** The text between the start token and the rendered errors. */
  const Separator: string := "\n\n----\n"

  /** `levelEmoji`. */
  function LevelEmoji(level: Level): string {
    match level
    case Info => ":information_source:"
    case Warn => ":warning:"
    case Error => ":x:"
  }

  /** Each level has its own emoji. */
  lemma LevelEmojiInjective(a: Level, b: Level)
    ensures LevelEmoji(a) == LevelEmoji(b) <==> a == b
  {
    if a != b {
      assert LevelEmoji(a)[1] != LevelEmoji(b)[1] || |LevelEmoji(a)| != |LevelEmoji(b)|;
    }
  }

  /** One error's line: its level's emoji, a space, its message. */
  function ErrorLine(e: ValidationError): string {
    LevelEmoji(e.level) + " " + e.message
  }

  function ErrorLines(errors: seq<ValidationError>): (r: seq<string>)
    ensures |r| == |errors|
    ensures forall k :: 0 <= k < |errors| ==> r[k] == ErrorLine(errors[k])
  {
    seq(|errors|, k requires 0 <= k < |errors| => ErrorLine(errors[k]))
  }

  /** `renderMessage`: one line per error joined by newlines, or the all-clear line when there is none. */
  function RenderMessage(errors: seq<ValidationError>): string {
    if |errors| > 0 then Join(ErrorLines(errors), "\n") else ":robot: Happybot"
  }

  /** Rendering a single error gives its line; one more error adds a newline and its line. */
  lemma RenderSnoc(errors: seq<ValidationError>, e: ValidationError)
    ensures RenderMessage([e]) == ErrorLine(e)
    ensures errors != [] ==> RenderMessage(errors + [e]) == RenderMessage(errors) + "\n" + ErrorLine(e)
  {
    assert ErrorLines(errors + [e]) == ErrorLines(errors) + [ErrorLine(e)];
    JoinSnoc(ErrorLines(errors), ErrorLine(e), "\n");
  }

  /** The block appended to the body when there are errors. */
  function Block(errors: seq<ValidationError>): string {
    StartToken + Separator + RenderMessage(errors) + EndToken
  }

  // ---------------------------------------------------------------- removing the old block

  /**
   * A match of the pattern `start.*end` (dot matching newlines): a start token
   * at `i` and an end token at `j` that begins after the start token ends.
   */
  predicate Delimits(body: string, i: nat, j: nat) {
    OccursAt(body, StartToken, i) && OccursAt(body, EndToken, j) && i + |StartToken| <= j
  }

  /**
   * Where the regular expression match lies: the first match position is the
   * leftmost start token that has an end token after it, and the greedy `.*`
   * extends it to the last end token.
   */
  function MatchBounds(body: string): (r: Option<(nat, nat)>)
    ensures r.None? <==> forall i: nat, j: nat :: !Delimits(body, i, j)
    ensures r.Some? ==> Delimits(body, r.value.0, r.value.1)
    ensures r.Some? ==> forall i: nat, j: nat :: Delimits(body, i, j) ==> r.value.0 <= i
    ensures r.Some? ==> forall j: nat :: Delimits(body, r.value.0, j) ==> j <= r.value.1
  {
    match FirstOccurrence(body, StartToken, 0)
    case None => None
    case Some(i) =>
      match LastOccurrence(body, EndToken, i + |StartToken|)
      case None => None
      case Some(j) => assert Delimits(body, i, j); Some((i, j))
  }

  /** `currentBody.replace(RegExp(start.*end, "s"), "")`: the body with its first match removed. */
  function Strip(body: string): (r: string)
    ensures MatchBounds(body).None? ==> r == body
    ensures MatchBounds(body).Some? ==>
      var (i, j) := MatchBounds(body).value;
      r == body[..i] + body[j + |EndToken|..]
  {
    match MatchBounds(body)
    case None => body
    case Some((i, j)) => body[..i] + body[j + |EndToken|..]
  }

  /** The body the renderer wants: the body without the old block, and a new block when there are errors. */
  function NewBody(body: string, errors: seq<ValidationError>): string {
    if |errors| > 0 then Strip(body) + Block(errors) else Strip(body)
  }

  /** The body of the issue, or else of the pull request; its type is not yet checked. */
  function CurrentBody(p: Payload): Result<Json, PayloadError> {
    if p.issue.Some? then Ok(p.issue.value.body)
    else if p.pullRequest.Some? then Ok(p.pullRequest.value.body)
    else Err(NoIssueOrPullRequest)
  }

  /** `updateMessage`: the new body to write with one edit call, or `None` when it equals the current body. */
  function UpdateMessage(p: Payload, result: ValidationResult): (r: Result<Option<string>, PayloadError>)
    ensures p.issue.None? && p.pullRequest.None? ==> r == Err(NoIssueOrPullRequest)
    ensures CurrentBody(p).Ok? && !CurrentBody(p).value.JStr? ==> r == Err(BodyNotString)
    ensures r.Ok? <==> CurrentBody(p).Ok? && CurrentBody(p).value.JStr?
    ensures r.Ok? ==>
      var body := CurrentBody(p).value.str;
      (r.value.None? <==> NewBody(body, result.errors) == body)
      && (r.value.Some? ==> r.value.value == NewBody(body, result.errors))
  {
    var current :- CurrentBody(p);
    if !current.JStr? then Err(BodyNotString)
    else
      var newBody := NewBody(current.str, result.errors);
      if newBody != current.str then Ok(Some(newBody)) else Ok(None)
  }

  // ---------------------------------------------------------------- idempotence

  /** The start token holds `<` only at its first character. */
  lemma StartTokenShape()
    ensures |StartToken| == 32 && StartToken[0] == '<'
    ensures forall d :: 0 < d < |StartToken| ==> StartToken[d] != '<'
  {
  }

  /** A start token cannot begin inside `prefix` and end in a text that itself starts with `<`. */
  lemma NoStraddle(prefix: string, rest: string, k: nat)
    requires forall m :: !OccursAt(prefix, StartToken, m)
    requires |rest| > 0 && rest[0] == '<'
    requires k < |prefix|
    ensures !OccursAt(prefix + rest, StartToken, k)
  {
    var body := prefix + rest;
    if k + |StartToken| <= |prefix| {
      assert !OccursAt(prefix, StartToken, k);
      assert body[k..k + |StartToken|] == prefix[k..k + |StartToken|];
    } else if k + |StartToken| <= |body| {
      StartTokenShape();
      var d := |prefix| - k;
      assert body[k..k + |StartToken|][d] == rest[0];
    }
  }

  /** No end token can begin fewer than its own length from the end of the text. */
  lemma NoLaterEnd(body: string, k: nat)
    requires |body| >= |EndToken|
    requires |body| - |EndToken| < k
    ensures !OccursAt(body, EndToken, k)
  {
  }

  /**
   * Removing the block from text that ends in a rendered block gives back the
   * text before it, provided that text holds no start token of its own.
   */
  lemma StripBlock(prefix: string, errors: seq<ValidationError>)
    requires forall m :: !OccursAt(prefix, StartToken, m)
    ensures Strip(prefix + Block(errors)) == prefix
  {
    var block := Block(errors);
    var body := prefix + block;
    var i := |prefix|;
    var j := |body| - |EndToken|;
    BlockShape(errors);
    assert body[i..i + |StartToken|] == block[..|StartToken|];
    assert OccursAt(body, StartToken, i);
    assert body[j..j + |EndToken|] == block[|block| - |EndToken|..];
    assert OccursAt(body, EndToken, j);
    assert Delimits(body, i, j);
    forall k: nat | k < i
      ensures !OccursAt(body, StartToken, k)
    {
      NoStraddle(prefix, block, k);
    }
    forall k: nat | j < k
      ensures !OccursAt(body, EndToken, k)
    {
      NoLaterEnd(body, k);
    }
    var (i', j') := MatchBounds(body).value;
    assert i' == i;
    assert j' == j;
    assert body[..i] == prefix;
  }

  /**
   * A body that ends in the block its own errors render, after text without a
   * start token, is left as it is: the renderer asks for no edit.
   */
  lemma RenderedBodyIsStable(p: Payload, result: ValidationResult, prefix: string)
    requires result.errors != []
    requires CurrentBody(p) == Ok(JStr(prefix + Block(result.errors)))
    requires forall m :: !OccursAt(prefix, StartToken, m)
    ensures UpdateMessage(p, result) == Ok(None)
  {
    StripBlock(prefix, result.errors);
  }

  /** Without errors, a body holding no block is left as it is. */
  lemma NoErrorsNoBlockNoEdit(p: Payload, result: ValidationResult)
    requires result.errors == []
    requires CurrentBody(p).Ok? && CurrentBody(p).value.JStr?
    requires forall i: nat, j: nat :: !Delimits(CurrentBody(p).value.str, i, j)
    ensures UpdateMessage(p, result) == Ok(None)
  {
  }

  /**
   * Applying the renderer to its own output changes nothing, as long as the
   * body without its old block holds no stray start token.
   */
  lemma NewBodyIdempotent(body: string, errors: seq<ValidationError>)
    requires forall m :: !OccursAt(Strip(body), StartToken, m)
    ensures NewBody(NewBody(body, errors), errors) == NewBody(body, errors)
  {
    if |errors| > 0 {
      StripBlock(Strip(body), errors);
    } else {
      forall i: nat, j: nat
        ensures !Delimits(Strip(body), i, j)
      {
      }
    }
  }

  /**
   * After one edit, the next run on the edited body asks for no edit, as long
   * as the body without its old block holds no stray start token.
   */
  lemma UpdateIdempotent(p: Payload, edited: Payload, result: ValidationResult)
    requires UpdateMessage(p, result).Ok? && UpdateMessage(p, result).value.Some?
    requires CurrentBody(edited) == Ok(JStr(UpdateMessage(p, result).value.value))
    requires forall m :: !OccursAt(Strip(CurrentBody(p).value.str), StartToken, m)
    ensures UpdateMessage(edited, result) == Ok(None)
  {
    NewBodyIdempotent(CurrentBody(p).value.str, result.errors);
  }

  /**
   * The precondition above is needed: a body holding only a start token (its
   * end token deleted) gets a block after it, and the next run then removes
   * from that stray token to the new end token and edits once more.
   */
  lemma StrayStartTokenEditsAgain(errors: seq<ValidationError>)
    requires errors != []
    ensures NewBody(StartToken, errors) == StartToken + Block(errors)
    ensures NewBody(NewBody(StartToken, errors), errors) == Block(errors)
    ensures Block(errors) != StartToken + Block(errors)
  {
    ShortTextHasNoMatch(StartToken);
    var block := Block(errors);
    BlockShape(errors);
    var body := StartToken + block;
    assert body[..|StartToken|] == StartToken;
    assert body[|body| - |EndToken|..] == block[|block| - |EndToken|..];
    WholeMatch(body);
  }

  /** A block begins with the start token and ends with the end token. */
  lemma BlockShape(errors: seq<ValidationError>)
    ensures var block := Block(errors);
      |block| >= |StartToken| + |EndToken|
      && block[..|StartToken|] == StartToken
      && block[|block| - |EndToken|..] == EndToken
  {
  }

  /** Text shorter than both tokens together holds no match. */
  lemma ShortTextHasNoMatch(body: string)
    requires |body| < |StartToken| + |EndToken|
    ensures Strip(body) == body
  {
    forall i: nat, j: nat
      ensures !Delimits(body, i, j)
    {
    }
  }

  /** Text that starts with the start token and ends with the end token is removed whole. */
  lemma WholeMatch(body: string)
    requires |body| >= |StartToken| + |EndToken|
    requires body[..|StartToken|] == StartToken
    requires body[|body| - |EndToken|..] == EndToken
    ensures Strip(body) == ""
  {
    var j := |body| - |EndToken|;
    assert Delimits(body, 0, j);
    forall k: nat | j < k
      ensures !OccursAt(body, EndToken, k)
    {
      NoLaterEnd(body, k);
    }
    assert MatchBounds(body) == Some((0, j));
  }
}
