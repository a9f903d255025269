/**
  The transcript generator: it asks a language model for a video script
  as an array of scene strings, interprets the reply with a strict parse
  and then a bracket-salvage parse, and retries with a corrective turn and
  a higher temperature up to `MaxIterations` times.

  The completion service is an oracle `llm` from the request sent to the
  reply received; `json.loads` followed by `list(...)` is an abstract
  partial parser `parse`. The model name sent with each call is not part
  of a `Request`, and of the system prompt only the sentence that carries
  the emotion is written out.
 */
module Transcripts {
  import opened Wrappers
  import opened PyStr

  /** The attempt budget. */
  const MaxIterations: nat := 5

  // ---------------------------------------------------------------------
  // Conversation, requests and replies
  // ---------------------------------------------------------------------

  datatype Role = System | User | Assistant

  /** One `{"role": ..., "content": ...}` entry of the conversation. */
  datatype Turn = Turn(role: Role, content: string)

  /** What one call of the completion service is sent: the conversation and a temperature in tenths. */
  datatype Request = Request(messages: seq<Turn>, temperature: nat)

  /**
    What one call gives back: the text content of the first choice, or an
    exception (network, authentication, quota, or content that is not a
    string) that propagates out of the generator uncaught.
   */
  datatype Reply = Completion(content: string) | Raised

  /** The completion service seen from the generator. */
  type Oracle = Request -> Reply

  /** `list(json.loads(s))` when it returns a list of strings, `None` when it raises. */
  type Parser = string -> Option<seq<string>>

  /** The corrective user turn appended after an attempt whose both parses fail. */
  const CorrectionContent: string :=
    "Error: Did not follow correct format. Please create an array of strings for scenes."

  // ---------------------------------------------------------------------
  // System prompt
  // ---------------------------------------------------------------------

  /** The words of the instruction sentence before the place where the emotion is inserted. */
  const PromptBefore: string := "Right now, the student is feeling "

  /** The words of that sentence after the emotion. */
  const PromptAfter: string := " so make sure to consider that in your explanation."

  /** The system prompt, with the emotion label inserted verbatim at a fixed offset. */
  function EmotionSystemPrompt(emotions: string): (prompt: string)
    ensures |prompt| == |PromptBefore| + |emotions| + |PromptAfter|
    ensures prompt[|PromptBefore|..|PromptBefore| + |emotions|] == emotions
    ensures IsSubstring(emotions, prompt)
  {
    var prompt := PromptBefore + emotions + PromptAfter;
    assert prompt[|PromptBefore|..|PromptBefore| + |emotions|] == emotions;
    prompt
  }

  /** Distinct emotions give distinct system prompts: the label can be read back. */
  lemma EmotionSystemPromptInjective(e1: string, e2: string)
    requires EmotionSystemPrompt(e1) == EmotionSystemPrompt(e2)
    ensures e1 == e2
  {
    var p := EmotionSystemPrompt(e1);
    assert e1 == p[|PromptBefore|..|PromptBefore| + |e1|];
    assert e2 == p[|PromptBefore|..|PromptBefore| + |e2|];
  }

  /** The conversation before the first call: the system turn, then the topic as a user turn. */
  function InitialConversation(userTopic: string, emotions: string): seq<Turn>
  {
    [Turn(System, EmotionSystemPrompt(emotions)), Turn(User, userTopic)]
  }

  // ---------------------------------------------------------------------
  // Temperature schedule
  // ---------------------------------------------------------------------

  /**
    Python's `round(num / den, 1)` on the exact quotient, in tenths: the
    integer nearest to `10 * num / den`, ties to the even neighbour.
   */
  function RoundTenths(num: nat, den: nat): (t: nat)
    requires den > 0
    ensures (10 * num) % den == 0 ==> t * den == 10 * num
    ensures 2 * (den * t) <= 20 * num + den && 20 * num <= 2 * (den * t) + den
  {
    var q := (10 * num) / den;
    var rem := (10 * num) % den;
    assert 10 * num == den * q + rem;
    assert den * (q + 1) == den * q + den;
    if 2 * rem < den then q
    else if 2 * rem > den then q + 1
    else if q % 2 == 0 then q
    else q + 1
  }

  /** The temperature of attempt `iteration`, `round(iteration / MaxIterations, 1)`, in tenths. */
  function Temperature(iteration: nat): (tenths: nat)
    ensures tenths == 2 * iteration
    ensures iteration < MaxIterations ==> tenths < 10
  {
    assert 10 * iteration == MaxIterations * (2 * iteration);
    RoundTenths(iteration, MaxIterations)
  }

  // ---------------------------------------------------------------------
  // Output cleaning and the two parse tiers
  // ---------------------------------------------------------------------

  const PythonChars: set<char> := CharsOf("python")
  const Backticks: set<char> := CharsOf("```")

  /** `content.strip().strip('python').strip("```")`: neither end of the result is a backtick. */
  function CleanOutput(content: string): (output: string)
    ensures output == [] || (output[0] != '`' && output[|output| - 1] != '`')
  {
    Strip(Strip(Strip(content, Whitespace), PythonChars), Backticks)
  }

  /**
    The cleaned output is a contiguous piece of the raw completion that
    neither begins nor ends with a backtick.
   */
  lemma CleanOutputContents(content: string)
    ensures IsSubstring(CleanOutput(content), content)
    ensures var output := CleanOutput(content);
      output == [] || (output[0] != '`' && output[|output| - 1] != '`')
  {
    var trimmed := Strip(content, Whitespace);
    var untagged := Strip(trimmed, PythonChars);
    StripIsSubstring(content, Whitespace);
    StripIsSubstring(trimmed, PythonChars);
    StripIsSubstring(untagged, Backticks);
    SubstringTrans(untagged, trimmed, content);
    SubstringTrans(CleanOutput(content), untagged, content);
  }

  /** `'[' + '['.join(transcriptions.split('[')[1:])`: a fresh `'['` before what follows the first `'['`. */
  function SplitLeft(transcriptions: string): string
  {
    "[" + Join('[', Split(transcriptions, '[')[1..])
  }

  /** `']'.join(left.split(']')[:-1]) + ']'`: what precedes the last `']'`, then a fresh `']'`. */
  function SplitRight(left: string): string
  {
    Join(']', Init(Split(left, ']'))) + "]"
  }

  /** The text `populate_transcriptions_array` hands to the parser. */
  function SalvageCandidate(transcriptions: string): string
  {
    SplitRight(SplitLeft(transcriptions))
  }

  /** How one completion is interpreted. */
  datatype Interpretation = Strict(items: seq<string>) | Salvage(items: seq<string>) | FormatError

  /** The two-tier parse: the cleaned output as it is, then its salvage candidate. */
  function Interpret(output: string, parse: Parser): Interpretation
  {
    match parse(output)
    case Some(items) => Strict(items)
    case None =>
      match parse(SalvageCandidate(output))
      case Some(items) => Salvage(items)
      case None => FormatError
  }

  // ---------------------------------------------------------------------
  // The retry loop as a function of the oracle
  // ---------------------------------------------------------------------

  /** How a run of the retry loop ends. */
  datatype Exit =
    | StrictParsed(items: seq<string>)  // returns the list from line 73
    | Salvaged(items: seq<string>)      // returns None from line 77, the field holds the list
    | Exhausted                         // falls off the loop and returns None
    | Aborted                           // the service call raised

  /** A run: how it ended, every request sent in order, and the final conversation. */
  datatype Run = Run(exit: Exit, requests: seq<Request>, conversation: seq<Turn>)

  /** What one pass of the loop body makes of a request, before the conversation is updated. */
  datatype Outcome =
    | Thrown                                          // the service call raised
    | Answered(output: string, reading: Interpretation)  // the cleaned output and how it parsed

  /**
    One attempt: call the service, clean the completion with `CleanOutput`
    and interpret the cleaned text with the two-tier parse.
   */
  function Attempt(llm: Oracle, parse: Parser, request: Request): (outcome: Outcome)
    ensures outcome.Thrown? <==> llm(request).Raised?
  {
    match llm(request)
    case Completion(content) =>
      var output := CleanOutput(content);
      Answered(output, Interpret(output, parse))
    case Raised => Thrown
  }

  /** The attempts of a generator using the service `llm` and the parser `parse`. */
  function Attempts(llm: Oracle, parse: Parser): Request -> Outcome
  {
    request => Attempt(llm, parse, request)
  }

  /**
    The run from attempt `iteration` on, with the conversation `messages`
    so far; `attempt` tells what each request comes to.
   */
  function RunFrom(iteration: nat, messages: seq<Turn>, attempt: Request -> Outcome): Run
    decreases MaxIterations - iteration
  {
    if iteration >= MaxIterations then Run(Exhausted, [], messages)
    else
      var request := Request(messages, Temperature(iteration));
      match attempt(request)
      case Thrown => Run(Aborted, [request], messages)
      case Answered(output, reading) =>
        var answered := messages + [Turn(Assistant, output)];
        match reading
        case Strict(items) => Run(StrictParsed(items), [request], answered)
        case Salvage(items) => Run(Salvaged(items), [request], answered)
        case FormatError =>
          var rest := RunFrom(iteration + 1, answered + [Turn(User, CorrectionContent)], attempt);
          Run(rest.exit, [request] + rest.requests, rest.conversation)
  }

  /** One unfolding of `RunFrom`, by what the attempt comes to. */
  lemma RunFromStep(iteration: nat, messages: seq<Turn>, attempt: Request -> Outcome)
    requires iteration < MaxIterations
    ensures var request := Request(messages, Temperature(iteration));
      attempt(request).Thrown? ==> RunFrom(iteration, messages, attempt) == Run(Aborted, [request], messages)
    ensures var request := Request(messages, Temperature(iteration));
      attempt(request).Answered? ==>
        var answered := messages + [Turn(Assistant, attempt(request).output)];
        var rest := RunFrom(iteration + 1, answered + [Turn(User, CorrectionContent)], attempt);
        RunFrom(iteration, messages, attempt) ==
          match attempt(request).reading
          case Strict(items) => Run(StrictParsed(items), [request], answered)
          case Salvage(items) => Run(Salvaged(items), [request], answered)
          case FormatError => Run(rest.exit, [request] + rest.requests, rest.conversation)
  {
  }

  /** One unfolding of the run of the generator, by the reply and how its cleaned output parses. */
  lemma RunFromReply(iteration: nat, messages: seq<Turn>, llm: Oracle, parse: Parser)
    requires iteration < MaxIterations
    ensures var request := Request(messages, Temperature(iteration));
      llm(request).Raised? ==> RunFrom(iteration, messages, Attempts(llm, parse)) == Run(Aborted, [request], messages)
    ensures var request := Request(messages, Temperature(iteration));
      llm(request).Completion? ==>
        var output := CleanOutput(llm(request).content);
        var answered := messages + [Turn(Assistant, output)];
        var rest := RunFrom(iteration + 1, answered + [Turn(User, CorrectionContent)], Attempts(llm, parse));
        RunFrom(iteration, messages, Attempts(llm, parse)) ==
          match parse(output)
          case Some(items) => Run(StrictParsed(items), [request], answered)
          case None =>
            match parse(SalvageCandidate(output))
            case Some(items) => Run(Salvaged(items), [request], answered)
            case None => Run(rest.exit, [request] + rest.requests, rest.conversation)
  {
    var request := Request(messages, Temperature(iteration));
    assert Attempts(llm, parse)(request) == Attempt(llm, parse, request);
    RunFromStep(iteration, messages, Attempts(llm, parse));
  }

  /** The run `r` behind the requests `done` already sent. */
  function After(done: seq<Request>, r: Run): Run
  {
    Run(r.exit, done + r.requests, r.conversation)
  }

  lemma AfterSend(done: seq<Request>, request: Request, r: Run)
    ensures After(done + [request], r) == After(done, Run(r.exit, [request] + r.requests, r.conversation))
  {
    assert (done + [request]) + r.requests == done + ([request] + r.requests);
  }

  /** The run of `generate_transcript(user_topic, emotions)`. */
  function Generate(userTopic: string, emotions: string, llm: Oracle, parse: Parser): Run
  {
    RunFrom(0, InitialConversation(userTopic, emotions), Attempts(llm, parse))
  }

  // ---------------------------------------------------------------------
  // The generator object
  // ---------------------------------------------------------------------

  class TranscriptGenerator {
    var sceneTranscriptions: seq<string>

    constructor ()
      ensures sceneTranscriptions == []
    {
      sceneTranscriptions := [];
    }

    /**
      Parses the salvage candidate of `transcriptions`; the field is
      assigned only when the parse succeeds, and `parsed` is false where
      the source raises.
     */
    method PopulateTranscriptionsArray(transcriptions: string, parse: Parser) returns (parsed: bool)
      modifies this
      ensures parsed == parse(SalvageCandidate(transcriptions)).Some?
      ensures parsed ==> sceneTranscriptions == parse(SalvageCandidate(transcriptions)).value
      ensures !parsed ==> sceneTranscriptions == old(sceneTranscriptions)
    {
      match parse(SalvageCandidate(transcriptions))
      case Some(items) =>
        sceneTranscriptions := items;
        parsed := true;
      case None =>
        parsed := false;
    }

    /**
      The retry loop. `returned` is the Python return value, or `None` of
      it; `raised` tells that a service call raised, which Python
      propagates as an exception; `requests` and `conversation` record the
      calls made and the conversation when the method ends.
     */
    method GenerateTranscript(userTopic: string, emotions: string, llm: Oracle, parse: Parser)
      returns (returned: Option<seq<string>>, raised: bool, ghost requests: seq<Request>, ghost conversation: seq<Turn>)
      modifies this
      ensures var run := Generate(userTopic, emotions, llm, parse);
        requests == run.requests && conversation == run.conversation
      ensures raised <==> Generate(userTopic, emotions, llm, parse).exit == Aborted
      ensures var run := Generate(userTopic, emotions, llm, parse);
        match run.exit
        case StrictParsed(items) => returned == Some(items) && sceneTranscriptions == items
        case Salvaged(items) => returned == None && sceneTranscriptions == items
        case Exhausted => returned == None && sceneTranscriptions == old(sceneTranscriptions)
        case Aborted => sceneTranscriptions == old(sceneTranscriptions)
    {
      ghost var run := Generate(userTopic, emotions, llm, parse);
      var iteration := 0;
      var messages := InitialConversation(userTopic, emotions);
      requests := [];
      raised := false;
      assert run == After([], run) by { assert [] + run.requests == run.requests; }
      while iteration < MaxIterations
        invariant iteration <= MaxIterations
        invariant sceneTranscriptions == old(sceneTranscriptions)
        invariant run == After(requests, RunFrom(iteration, messages, Attempts(llm, parse)))
        decreases MaxIterations - iteration
      {
        var request := Request(messages, Temperature(iteration));
        ghost var sent := requests;
        requests := requests + [request];
        var reply := llm(request);
        RunFromReply(iteration, messages, llm, parse);
        if reply.Raised? {
          returned := None;
          raised := true;
          conversation := messages;
          return;
        }
        var output := CleanOutput(reply.content);
        var answered := messages + [Turn(Assistant, output)];
        var strict := parse(output);
        if strict.Some? {
          messages := answered;
          sceneTranscriptions := strict.value;
          returned := Some(sceneTranscriptions);
          conversation := messages;
          return;
        }
        var parsed := PopulateTranscriptionsArray(output, parse);
        if parsed {
          messages := answered;
          returned := None;
          conversation := messages;
          return;
        }
        ghost var rest := RunFrom(iteration + 1, answered + [Turn(User, CorrectionContent)], Attempts(llm, parse));
        assert RunFrom(iteration, messages, Attempts(llm, parse)) == Run(rest.exit, [request] + rest.requests, rest.conversation);
        AfterSend(sent, request, rest);
        messages := answered + [Turn(User, CorrectionContent)];
        iteration := iteration + 1;
      }
      returned := None;
      conversation := messages;
    }
  }
}
