/**
  Properties of the retry loop of `generate_transcript`, proved about the
  run function `RunFrom` that `TranscriptGenerator.GenerateTranscript` is
  proved to follow: how many calls it makes, at which temperatures, how
  the conversation grows between them, and what each way of ending means.
 */
module RetryProperties {
  import opened Wrappers
  import opened Transcripts

  /** The attempt at `request` got a completion whose both parses failed. */
  predicate Failed(attempt: Request -> Outcome, request: Request)
  {
    attempt(request).Answered? && attempt(request).reading == FormatError
  }

  /** The assistant turn recording the cleaned completion of `request`. */
  function Answer(attempt: Request -> Outcome, request: Request): Turn
    requires attempt(request).Answered?
  {
    Turn(Assistant, attempt(request).output)
  }

  /** The conversation of the attempt after a failed one. */
  function Retried(messages: seq<Turn>, output: string): seq<Turn>
  {
    messages + [Turn(Assistant, output)] + [Turn(User, CorrectionContent)]
  }

  /** A failed attempt: the run goes on from the next attempt with the answer and the correction appended. */
  lemma RunFromRetry(iteration: nat, messages: seq<Turn>, attempt: Request -> Outcome)
    requires iteration < MaxIterations
    requires Failed(attempt, Request(messages, Temperature(iteration)))
    ensures var request := Request(messages, Temperature(iteration));
      var rest := RunFrom(iteration + 1, Retried(messages, attempt(request).output), attempt);
      RunFrom(iteration, messages, attempt) == Run(rest.exit, [request] + rest.requests, rest.conversation)
  {
    RunFromStep(iteration, messages, attempt);
  }

  /** An attempt that does not fail both parses is the last call of the run. */
  lemma RunFromStops(iteration: nat, messages: seq<Turn>, attempt: Request -> Outcome)
    requires iteration < MaxIterations
    requires !Failed(attempt, Request(messages, Temperature(iteration)))
    ensures RunFrom(iteration, messages, attempt).requests == [Request(messages, Temperature(iteration))]
  {
    RunFromStep(iteration, messages, attempt);
  }

  /** From attempt `iteration` on, at least one and at most `MaxIterations - iteration` calls are made. */
  lemma {:induction false} RunFromCallCount(iteration: nat, messages: seq<Turn>, attempt: Request -> Outcome)
    ensures var r := RunFrom(iteration, messages, attempt);
      iteration < MaxIterations ==> 1 <= |r.requests| <= MaxIterations - iteration
    ensures var r := RunFrom(iteration, messages, attempt);
      iteration >= MaxIterations ==> r.requests == [] && r.exit == Exhausted
    decreases MaxIterations - iteration
  {
    if iteration < MaxIterations {
      var request := Request(messages, Temperature(iteration));
      RunFromStep(iteration, messages, attempt);
      if Failed(attempt, request) {
        var next := Retried(messages, attempt(request).output);
        RunFromCallCount(iteration + 1, next, attempt);
        RunFromRetry(iteration, messages, attempt);
      }
    }
  }

  /** Call `k` of `requests` is sent at temperature `2 * (iteration + k)` tenths. */
  predicate RisingFrom(iteration: nat, requests: seq<Request>)
  {
    forall k | 0 <= k < |requests| :: requests[k].temperature == 2 * (iteration + k)
  }

  /** The calls of every run from attempt `iteration` are sent at the temperatures `RisingFrom` says. */
  lemma {:induction false} RunFromTemperatures(iteration: nat, messages: seq<Turn>, attempt: Request -> Outcome)
    ensures RisingFrom(iteration, RunFrom(iteration, messages, attempt).requests)
    decreases MaxIterations - iteration
  {
    if iteration < MaxIterations {
      var request := Request(messages, Temperature(iteration));
      if Failed(attempt, request) {
        var next := Retried(messages, attempt(request).output);
        RunFromTemperatures(iteration + 1, next, attempt);
        RunFromRetry(iteration, messages, attempt);
        RisingAfter(iteration, request, RunFrom(iteration + 1, next, attempt).requests);
      } else {
        RunFromStops(iteration, messages, attempt);
      }
    }
  }

  /** A call at attempt `iteration` in front of calls rising from the next attempt. */
  lemma RisingAfter(iteration: nat, request: Request, rest: seq<Request>)
    requires request.temperature == 2 * iteration && RisingFrom(iteration + 1, rest)
    ensures RisingFrom(iteration, [request] + rest)
  {
    var r := [request] + rest;
    forall k | 0 <= k < |r|
      ensures r[k].temperature == 2 * (iteration + k)
    {
      if k > 0 {
        assert r[k] == rest[k - 1];
      }
    }
  }

  /**
    The conversation grows only by appending: call `k` of `requests` sends
    `messages` followed by `2 * k` more turns, and after each failed call
    the next one sends exactly its answer and the correction in addition.
    Every call but the last one failed both parses.
   */
  predicate GrowsFrom(messages: seq<Turn>, requests: seq<Request>, attempt: Request -> Outcome)
  {
    (forall k | 0 <= k < |requests| ::
      |requests[k].messages| == |messages| + 2 * k && requests[k].messages[..|messages|] == messages) &&
    (forall k | 0 <= k < |requests| - 1 ::
      Failed(attempt, requests[k]) &&
      requests[k + 1].messages == requests[k].messages + [Answer(attempt, requests[k]), Turn(User, CorrectionContent)])
  }

  /** The calls of every run from attempt `iteration` grow the conversation as `GrowsFrom` says. */
  lemma {:induction false} RunFromConversation(iteration: nat, messages: seq<Turn>, attempt: Request -> Outcome)
    ensures GrowsFrom(messages, RunFrom(iteration, messages, attempt).requests, attempt)
    decreases MaxIterations - iteration
  {
    if iteration < MaxIterations {
      var request := Request(messages, Temperature(iteration));
      if Failed(attempt, request) {
        var next := Retried(messages, attempt(request).output);
        RunFromConversation(iteration + 1, next, attempt);
        RunFromRetry(iteration, messages, attempt);
        var rest := RunFrom(iteration + 1, next, attempt).requests;
        GrowsAfterRetry(messages, request, rest, attempt);
      } else {
        RunFromStops(iteration, messages, attempt);
        assert [request][0].messages[..|messages|] == messages;
      }
    }
  }

  /** A failed call sent `messages`, followed by calls that grow from its retried conversation. */
  lemma GrowsAfterRetry(messages: seq<Turn>, request: Request, rest: seq<Request>, attempt: Request -> Outcome)
    requires request.messages == messages && Failed(attempt, request)
    requires GrowsFrom(Retried(messages, attempt(request).output), rest, attempt)
    ensures GrowsFrom(messages, [request] + rest, attempt)
  {
    var next := Retried(messages, attempt(request).output);
    var r := [request] + rest;
    assert next == messages + [Answer(attempt, request), Turn(User, CorrectionContent)];
    forall k | 0 <= k < |r|
      ensures |r[k].messages| == |messages| + 2 * k && r[k].messages[..|messages|] == messages
    {
      if k > 0 {
        assert r[k] == rest[k - 1];
        PrefixOfPrefix(r[k].messages, next, messages);
      }
    }
    forall k | 0 <= k < |r| - 1
      ensures Failed(attempt, r[k]) &&
        r[k + 1].messages == r[k].messages + [Answer(attempt, r[k]), Turn(User, CorrectionContent)]
    {
      assert r[k + 1] == rest[k];
      if k == 0 {
        assert rest[0].messages == next by {
          assert rest[0].messages[..|next|] == next;
        }
      } else {
        assert r[k] == rest[k - 1];
      }
    }
  }

  /** The request behind the last call of a run that made one. */
  function LastRequest(r: Run): Request
    requires |r.requests| >= 1
  {
    r.requests[|r.requests| - 1]
  }

  /**
    How a run `r` with `remaining` attempts ends is decided by the reply to
    its last call alone: a raised call aborts with the conversation it was
    sent; a strict or salvage parse ends it with that list and the answer
    appended; a call whose both parses fail is last only when it used the
    last attempt, and then the run is exhausted with the answer and the
    correction appended.
   */
  predicate EndsAsLastReply(r: Run, attempt: Request -> Outcome, remaining: nat)
  {
    |r.requests| >= 1 &&
    var last := LastRequest(r);
    match attempt(last)
    case Thrown => r.exit == Aborted && r.conversation == last.messages
    case Answered(output, reading) =>
      match reading
      case Strict(items) =>
        r.exit == StrictParsed(items) && r.conversation == last.messages + [Turn(Assistant, output)]
      case Salvage(items) =>
        r.exit == Salvaged(items) && r.conversation == last.messages + [Turn(Assistant, output)]
      case FormatError =>
        r.exit == Exhausted && |r.requests| == remaining &&
        r.conversation == Retried(last.messages, output)
  }

  /** Every run from an attempt before the last ends as `EndsAsLastReply` says. */
  lemma {:induction false} RunFromExit(iteration: nat, messages: seq<Turn>, attempt: Request -> Outcome)
    requires iteration < MaxIterations
    ensures EndsAsLastReply(RunFrom(iteration, messages, attempt), attempt, MaxIterations - iteration)
    decreases MaxIterations - iteration
  {
    var request := Request(messages, Temperature(iteration));
    if Failed(attempt, request) {
      var next := Retried(messages, attempt(request).output);
      RunFromRetry(iteration, messages, attempt);
      var rest := RunFrom(iteration + 1, next, attempt);
      if iteration + 1 < MaxIterations {
        RunFromExit(iteration + 1, next, attempt);
        EndsAfterRetry(request, rest, attempt, MaxIterations - iteration - 1);
      } else {
        assert rest == Run(Exhausted, [], next);
      }
    } else {
      RunFromStep(iteration, messages, attempt);
    }
  }

  /** A failed call in front of a run that ends as its last reply says changes nothing about the ending. */
  lemma EndsAfterRetry(request: Request, rest: Run, attempt: Request -> Outcome, remaining: nat)
    requires EndsAsLastReply(rest, attempt, remaining)
    ensures EndsAsLastReply(Run(rest.exit, [request] + rest.requests, rest.conversation), attempt, remaining + 1)
  {
    var r := Run(rest.exit, [request] + rest.requests, rest.conversation);
    assert LastRequest(r) == LastRequest(rest);
  }

  /**
    A run from attempt `iteration` is exhausted exactly when it used every
    remaining attempt and the last call failed both parses too; it then
    ends with two turns per call after the starting conversation.
   */
  lemma RunFromExhaustion(iteration: nat, messages: seq<Turn>, attempt: Request -> Outcome)
    requires iteration < MaxIterations
    ensures var r := RunFrom(iteration, messages, attempt);
      |r.requests| >= 1 &&
      (r.exit == Exhausted <==> |r.requests| == MaxIterations - iteration && Failed(attempt, LastRequest(r)))
    ensures var r := RunFrom(iteration, messages, attempt);
      r.exit == Exhausted ==> |r.conversation| == |messages| + 2 * (MaxIterations - iteration)
  {
    RunFromExit(iteration, messages, attempt);
    RunFromConversation(iteration, messages, attempt);
  }

  /**
    A run from attempt `iteration` that ends with a list ends with the
    answer to its last call, and that attempt read the list from it.
   */
  lemma RunFromParsed(iteration: nat, messages: seq<Turn>, attempt: Request -> Outcome)
    requires iteration < MaxIterations
    ensures var r := RunFrom(iteration, messages, attempt);
      |r.requests| >= 1 &&
      ((r.exit.StrictParsed? || r.exit.Salvaged?) ==>
        |r.conversation| >= 1 && r.conversation[|r.conversation| - 1].role == Assistant &&
        attempt(LastRequest(r)) ==
          Answered(r.conversation[|r.conversation| - 1].content,
                   if r.exit.StrictParsed? then Strict(r.exit.items) else Salvage(r.exit.items)))
  {
    RunFromExit(iteration, messages, attempt);
  }

  /** A sequence starting with `b`, where `b` starts with `a`, starts with `a`. */
  lemma PrefixOfPrefix<T>(s: seq<T>, b: seq<T>, a: seq<T>)
    requires |b| <= |s| && s[..|b|] == b
    requires |a| <= |b| && b[..|a|] == a
    ensures s[..|a|] == a
  {
    assert s[..|a|] == s[..|b|][..|a|];
  }
}
