/**
  The retry-loop properties instantiated at the start of
  `generate_transcript`: attempt 0, the two-turn initial conversation and
  the cleaned completion service; and the generator used from a fresh
  instance.
 */
module GenerateProperties {
  import opened Wrappers
  import opened Transcripts
  import opened RetryProperties
  import opened TextProperties

  /**
    At least one and at most `MaxIterations` calls are made, call `k` at
    `2 * k` tenths, so the temperatures rise strictly from 0.0 and stay
    below 1.0.
   */
  lemma GenerateCalls(userTopic: string, emotions: string, llm: Oracle, parse: Parser)
    ensures var run := Generate(userTopic, emotions, llm, parse);
      1 <= |run.requests| <= MaxIterations
    ensures var run := Generate(userTopic, emotions, llm, parse);
      forall k | 0 <= k < |run.requests| ::
        run.requests[k].temperature == 2 * k && run.requests[k].temperature < 10
    ensures var run := Generate(userTopic, emotions, llm, parse);
      forall j, k | 0 <= j < k < |run.requests| ::
        run.requests[j].temperature < run.requests[k].temperature
  {
    var messages := InitialConversation(userTopic, emotions);
    RunFromCallCount(0, messages, Attempts(llm, parse));
    RunFromTemperatures(0, messages, Attempts(llm, parse));
  }

  /**
    The first call is sent exactly the system turn carrying the emotion
    and the user turn carrying the topic; call `k` is sent `2 + 2 * k`
    turns starting with those two; every call but the last failed both
    parses, and the call after it adds exactly its cleaned answer and the
    corrective user turn.
   */
  lemma GenerateConversation(userTopic: string, emotions: string, llm: Oracle, parse: Parser)
    ensures var run := Generate(userTopic, emotions, llm, parse);
      |run.requests| >= 1 &&
      run.requests[0].messages == [Turn(System, EmotionSystemPrompt(emotions)), Turn(User, userTopic)]
    ensures var run := Generate(userTopic, emotions, llm, parse);
      forall k | 0 <= k < |run.requests| ::
        |run.requests[k].messages| == 2 + 2 * k &&
        run.requests[k].messages[..2] == InitialConversation(userTopic, emotions)
    ensures var run := Generate(userTopic, emotions, llm, parse);
      forall k | 0 <= k < |run.requests| - 1 ::
        Failed(Attempts(llm, parse), run.requests[k]) &&
        run.requests[k + 1].messages ==
          run.requests[k].messages + [Answer(Attempts(llm, parse), run.requests[k]), Turn(User, CorrectionContent)]
  {
    var messages := InitialConversation(userTopic, emotions);
    RunFromCallCount(0, messages, Attempts(llm, parse));
    RunFromConversation(0, messages, Attempts(llm, parse));
    var run := Generate(userTopic, emotions, llm, parse);
    assert run.requests[0].messages == messages by {
      assert run.requests[0].messages[..|messages|] == messages;
    }
  }

  /**
    The run is exhausted exactly when all `MaxIterations` calls were made
    and the last one failed both parses too; it then ends with the twelve
    turns of five answers and five corrections after the initial two.
   */
  lemma GenerateExhaustion(userTopic: string, emotions: string, llm: Oracle, parse: Parser)
    ensures var run := Generate(userTopic, emotions, llm, parse);
      |run.requests| >= 1 &&
      (run.exit == Exhausted <==>
        |run.requests| == MaxIterations && Failed(Attempts(llm, parse), LastRequest(run)))
    ensures var run := Generate(userTopic, emotions, llm, parse);
      run.exit == Exhausted ==> |run.conversation| == 2 + 2 * MaxIterations
  {
    RunFromExhaustion(0, InitialConversation(userTopic, emotions), Attempts(llm, parse));
  }

  /**
    When the first completion's cleaned text parses strictly, exactly one
    call is made, at temperature 0.0, and the conversation ends with that
    cleaned text.
   */
  lemma GenerateFirstAttemptStrict(userTopic: string, emotions: string, llm: Oracle, parse: Parser,
                                   content: string, items: seq<string>)
    requires llm(Request(InitialConversation(userTopic, emotions), 0)) == Completion(content)
    requires parse(CleanOutput(content)) == Some(items)
    ensures var first := Request(InitialConversation(userTopic, emotions), 0);
      Generate(userTopic, emotions, llm, parse) ==
        Run(StrictParsed(items), [first], first.messages + [Turn(Assistant, CleanOutput(content))])
  {
    RunFromReply(0, InitialConversation(userTopic, emotions), llm, parse);
  }

  /**
    A first completion that is already a bracketed array the parser
    accepts is returned as is: one call at temperature 0.0, and the
    assistant turn holds the completion unchanged.
   */
  lemma GenerateWellFormedFirstReply(userTopic: string, emotions: string, llm: Oracle, parse: Parser,
                                     content: string, items: seq<string>)
    requires llm(Request(InitialConversation(userTopic, emotions), 0)) == Completion(content)
    requires |content| >= 2 && content[0] == '[' && content[|content| - 1] == ']'
    requires parse(content) == Some(items)
    ensures var first := Request(InitialConversation(userTopic, emotions), 0);
      Generate(userTopic, emotions, llm, parse) ==
        Run(StrictParsed(items), [first], first.messages + [Turn(Assistant, content)])
  {
    CleanOutputKeepsArray(content);
    GenerateFirstAttemptStrict(userTopic, emotions, llm, parse, content, items);
  }

  /** A bracketed array completion that the parser accepts is a strict parse of the completion as sent. */
  lemma AttemptOnArrayReply(llm: Oracle, parse: Parser, request: Request, content: string, items: seq<string>)
    requires llm(request) == Completion(content)
    requires |content| >= 2 && content[0] == '[' && content[|content| - 1] == ']'
    requires parse(content) == Some(items)
    ensures Attempts(llm, parse)(request) == Answered(content, Strict(items))
  {
    CleanOutputKeepsArray(content);
    AttemptAnswered(llm, parse, request);
    InterpretTiers(content, parse);
  }

  /** The two-tier parse: a strict reading is the parse of the text, a salvage reading that of its candidate after the strict parse failed. */
  lemma InterpretTiers(output: string, parse: Parser)
    ensures Interpret(output, parse).Strict? <==> parse(output).Some?
    ensures parse(output).Some? ==> Interpret(output, parse).items == parse(output).value
    ensures Interpret(output, parse).Salvage? <==> parse(output).None? && parse(SalvageCandidate(output)).Some?
    ensures Interpret(output, parse).Salvage? ==> Interpret(output, parse).items == parse(SalvageCandidate(output)).value
    ensures Interpret(output, parse) == FormatError <==> parse(output).None? && parse(SalvageCandidate(output)).None?
  {
  }

  /** An answered attempt of the generator is the cleaned completion and its two-tier reading. */
  lemma AttemptAnswered(llm: Oracle, parse: Parser, request: Request)
    ensures Attempts(llm, parse)(request).Answered? ==>
      llm(request).Completion? &&
      Attempts(llm, parse)(request) == Answered(CleanOutput(llm(request).content), Interpret(CleanOutput(llm(request).content), parse))
  {
    assert Attempts(llm, parse)(request) == Attempt(llm, parse, request);
  }

  /**
    A returned or stored list is read from the last completion: the
    conversation ends with its cleaned text as the assistant turn, and the
    list is the strict parse of that text, or, when the strict parse
    failed, the parse of its salvage candidate.
   */
  lemma GenerateResultFromLastReply(userTopic: string, emotions: string, llm: Oracle, parse: Parser)
    ensures var run := Generate(userTopic, emotions, llm, parse);
      |run.requests| >= 1 &&
      ((run.exit.StrictParsed? || run.exit.Salvaged?) ==>
        |run.conversation| >= 1 &&
        var answer := run.conversation[|run.conversation| - 1];
        answer.role == Assistant &&
        llm(LastRequest(run)).Completion? && answer.content == CleanOutput(llm(LastRequest(run)).content) &&
        (run.exit.StrictParsed? ==> parse(answer.content) == Some(run.exit.items)) &&
        (run.exit.Salvaged? ==>
          parse(answer.content) == None && parse(SalvageCandidate(answer.content)) == Some(run.exit.items)))
  {
    var run := Generate(userTopic, emotions, llm, parse);
    RunFromParsed(0, InitialConversation(userTopic, emotions), Attempts(llm, parse));
    AttemptAnswered(llm, parse, LastRequest(run));
    if run.exit.StrictParsed? || run.exit.Salvaged? {
      InterpretTiers(run.conversation[|run.conversation| - 1].content, parse);
    }
  }

  /**
    A new generator asked for a transcript: what it returns, whether a
    call raised, and what its field then holds, by how the run ended. A
    run that does not reach a parse leaves the field at the empty list of
    the constructor.
   */
  method GenerateOnNewGenerator(userTopic: string, emotions: string, llm: Oracle, parse: Parser)
    returns (returned: Option<seq<string>>, raised: bool, scenes: seq<string>)
    ensures raised <==> Generate(userTopic, emotions, llm, parse).exit == Aborted
    ensures match Generate(userTopic, emotions, llm, parse).exit
      case StrictParsed(items) => returned == Some(items) && scenes == items
      case Salvaged(items) => returned == None && scenes == items
      case Exhausted => returned == None && scenes == []
      case Aborted => scenes == []
  {
    var generator := new TranscriptGenerator();
    ghost var requests, conversation;
    returned, raised, requests, conversation := generator.GenerateTranscript(userTopic, emotions, llm, parse);
    scenes := generator.sceneTranscriptions;
  }
}
