# Transcript generator, modelled in Dafny

This project models `TranscriptGenerator` of the video-lesson backend
(`backend/transcript_generator.py`). The generator writes a video script as an
array of scene strings. It builds a two-turn conversation: a system prompt that
carries the student's emotion, then the user's topic. It then asks a language
model for the script, at most `MAX_ITERATIONS = 5` times. Each completion is
cleaned with `.strip().strip('python').strip("```")` and then read in two
tiers:

- a strict `json.loads`;
- failing that, a salvage parse of the text between the first `'['` and the
  last `']'` (`populate_transcriptions_array`).

When both tiers fail, the cleaned answer and a corrective user turn are
appended to the conversation. The next call is sent at a higher temperature,
`round(iteration / 5, 1)`.

Modules:

- `PyStr` (`pystr.dfy`): the Python string operations the generator uses, as
  recursive functions. These are `str.split(c)`, `c.join(parts)`,
  `str.strip(chars)` and argument-less `str.strip()`. The module also proves
  their round trips and the positional facts the generator depends on.
- `Transcripts` (`transcripts.dfy`):
  - the conversation and request data;
  - the system prompt, the temperature schedule, output cleaning and the two
    parse tiers;
  - the retry loop as a run function `RunFrom`;
  - the class `TranscriptGenerator`, whose field `sceneTranscriptions` is
    updated in place. Its method `GenerateTranscript` is the source's `while`
    loop and is proved to follow `RunFrom`.
- `TextProperties` (`text_properties.dfy`): what the salvage candidate and
  the cleaning compute, stated by positions in the text.
- `RetryProperties` (`retry_properties.dfy`): properties of the retry loop for
  any attempt function. These cover the call count, temperatures, how the
  conversation grows and how a run ends.
- `GenerateProperties` (`generate_properties.dfy`): those properties for the
  generator's own start (attempt 0, the initial conversation) and its own
  attempt function. It also shows the generator used from a fresh instance.
- `Wrappers` (`wrappers.dfy`): `Option`.

How the boundaries are modelled:

- The completion service is a function parameter `llm: Request -> Reply`.
  `Reply` is either the text of `response.choices[0].message.content` or
  `Raised`. `Raised` stands for any exception of the call or of `.strip()`
  on a non-string content. Such an exception is not caught, so it ends the
  generator.
- `list(json.loads(s))` is a function parameter
  `parse: string -> Option<seq<string>>`, where `None` means it raised.
- Temperatures are natural numbers in tenths. `RoundTenths` models Python's
  `round(x, 1)`, with ties to even, on the exact quotient.

Three behaviours of the code that the model reproduces as written:

- **A successful salvage returns `None`.** On a salvage success, the method
  returns `None` (line 77) and the list stays in `scene_transcriptions`. The
  exit `Salvaged(items)` and `GenerateTranscript`'s contract state exactly
  that, and `GenerateOnNewGenerator` states it for a fresh object.
- **A ```` ```python ```` fence is only partly removed.** The code strips
  `'python'` characters before backticks, so the language tag survives.
  `FencedReplyCleaning` proves that a completion
  ```` ```python\n[...]\n``` ```` cleans to `python\n[...]\n`. The strict
  parse therefore sees the tag, and the salvage candidate gives back the
  array.
- **The salvage candidate is not always a bracket span.** Without a `'['`, or
  without a `']'` after the first `'['`, the code's candidate is the
  one-character text `"]"`. The candidate is the span from the first `'['` to
  the last `']'` only when such a span exists (`SalvageCandidateSpan`).

## Model

| member | source | states |
|---|---|---|
| Transcripts.EmotionSystemPrompt | backend/transcript_generator.py:29-46 | the emotion label appears verbatim, at a fixed offset, inside the system prompt; the prompt length is that of the fixed text plus the label |
| Transcripts.EmotionSystemPromptInjective | backend/transcript_generator.py:29-46 | different emotion labels give different system prompts, so the label can be read back from the prompt |
| Transcripts.RoundTenths | backend/transcript_generator.py:64 | `round(num / den, 1)` in tenths is within half a tenth of the exact quotient, and equals it when the quotient has at most one decimal |
| Transcripts.Temperature | backend/transcript_generator.py:60-64 | attempt `i` is sent at `2 * i` tenths, which is below 1.0 for every attempt the loop makes |
| Transcripts.CleanOutput | backend/transcript_generator.py:66 | the cleaned completion neither begins nor ends with a backtick |
| Transcripts.CleanOutputContents | backend/transcript_generator.py:66 | the cleaned completion is a contiguous piece of the raw completion without a backtick at either end |
| PyStr.Strip | backend/transcript_generator.py:66 | `str.strip(chars)` leaves neither end in `chars` |
| PyStr.StripIsSubstring | backend/transcript_generator.py:66 | `str.strip(chars)` returns a contiguous piece of its argument |
| PyStr.StripKeeps | backend/transcript_generator.py:66 | a text whose two ends are outside `chars` is left unchanged by `strip(chars)` |
| PyStr.Split | backend/transcript_generator.py:24-25 | `str.split(c)` always yields at least one piece |
| PyStr.SplitSingle | backend/transcript_generator.py:24-25 | `split(c)` gives one piece exactly when `c` does not occur, and then that piece is the text |
| PyStr.SplitPiecesFree | backend/transcript_generator.py:24-25 | no piece of `split(c)` contains `c` |
| PyStr.Join | backend/transcript_generator.py:24-25 | `c.join(parts)` as used with `'['` and `']'`; `PyStr.JoinSplit` and `PyStr.SplitJoin` prove it the inverse of `split(c)` in both directions |
| PyStr.JoinSplit | backend/transcript_generator.py:24-25 | `c.join(s.split(c)) == s` |
| PyStr.SplitJoin | backend/transcript_generator.py:24-25 | `c.join(parts).split(c) == parts` for non-empty lists of pieces free of `c` |
| PyStr.SplitAppend | backend/transcript_generator.py:24-25 | splitting `p + c + t` with `c` not in `p` yields `p` followed by the pieces of `t` |
| PyStr.JoinSplitTail | backend/transcript_generator.py:24 | rejoining all pieces but the first gives the text after the first `c`, or the empty text when there is none |
| PyStr.JoinSplitInit | backend/transcript_generator.py:25 | rejoining all pieces but the last gives the text before the last `c`, or the empty text when there is none |
| PyStr.FirstLastIndex | backend/transcript_generator.py:24-25 | the first and last positions of `c` exist exactly when `c` occurs, and the first is not after the last |
| TextProperties.SplitLeftFromFirst | backend/transcript_generator.py:24 | `transcriptions_split_left` is the text from the first `'['` on, or `"["` without one |
| TextProperties.SplitRightToLast | backend/transcript_generator.py:25 | `transcriptions_split_right` is the text up to and including the last `']'`, or `"]"` without one |
| Transcripts.SalvageCandidate | backend/transcript_generator.py:24-25 | the text `populate_transcriptions_array` parses, built from `SplitLeft` (line 24) and `SplitRight` (line 25); `TextProperties.SalvageCandidateSpan` gives its meaning: the first-`'['`-to-last-`']'` span, or `"]"` |
| TextProperties.SalvageCandidateSpan | backend/transcript_generator.py:24-25 | the salvage candidate is the span from the first `'['` to the last `']'` when there is a `']'` after the first `'['`, and `"]"` otherwise (both directions) |
| TextProperties.SalvageCandidateIdempotent | backend/transcript_generator.py:24-25 | salvaging a salvage candidate gives it back |
| TextProperties.SalvageCandidateOfWrapped | backend/transcript_generator.py:24-25 | prose without `'['` before an array and without `']'` after it is dropped, and the candidate is the array text |
| Transcripts.Interpret | backend/transcript_generator.py:71-79 | the two-tier reading of a cleaned output; `TextProperties.InterpretBySpan` states it by text positions |
| TextProperties.InterpretBySpan | backend/transcript_generator.py:71-79 | the reading of a cleaned output is its strict parse when that succeeds; otherwise the parse of the span from the first `'['` to the last `']'` (or of `"]"` without such a span) when that succeeds; otherwise a format error (the correction that then follows is stated by `RetryProperties.RunFromConversation` and `RetryProperties.RunFromExit`) |
| TextProperties.CleanOutputKeepsArray | backend/transcript_generator.py:66 | a completion that starts with `'['` and ends with `']'` is not changed by cleaning |
| TextProperties.FencedReplyCleaning | backend/transcript_generator.py:66 | an array fenced as ```` ```python ```` cleans to `python\n` + array + `\n`, whose salvage candidate is the array |
| TextProperties.CleanFenced | backend/transcript_generator.py:66 | a text fenced by three backticks on each side, with no backtick at its own ends, cleans back to itself |
| Transcripts.Attempt | backend/transcript_generator.py:61-66 | an attempt is thrown exactly when the service call raises |
| Transcripts.TranscriptGenerator.constructor | backend/transcript_generator.py:17-18 | a new generator holds the empty list of scenes |
| Transcripts.TranscriptGenerator.PopulateTranscriptionsArray | backend/transcript_generator.py:20-27 | the field receives the parse of the salvage candidate exactly when that parse succeeds, and is unchanged when it raises |
| Transcripts.TranscriptGenerator.GenerateTranscript | backend/transcript_generator.py:48-80 | the loop sends exactly the requests of `Generate` and ends with its conversation; `raised` is set exactly when a call raised; it returns the list only on a strict parse, `None` after a salvage (the field then holds the list) or after exhaustion, and the field is unchanged unless a tier parsed |
| Transcripts.RunFrom | backend/transcript_generator.py:60-80 | the retry loop from attempt `i` as a run; `RetryProperties.RunFromCallCount`, `RunFromTemperatures`, `RunFromConversation` and `RunFromExit` state its call count, temperatures, conversation and ending |
| Transcripts.Generate | backend/transcript_generator.py:53-80 | the run of `generate_transcript`, from attempt 0 and the initial conversation; the `GenerateProperties` lemmas (`GenerateCalls`, `GenerateConversation`, `GenerateExhaustion`, `GenerateResultFromLastReply`) state what it does |
| Transcripts.InitialConversation | backend/transcript_generator.py:53-58 | the system turn with the emotion prompt, then the topic as a user turn; `GenerateProperties.GenerateConversation` proves it is exactly what the first call sends and the prefix of every later call |
| RetryProperties.RunFromStops | backend/transcript_generator.py:70-77 | an attempt that does not fail both tiers is the last call |
| RetryProperties.RunFromCallCount | backend/transcript_generator.py:60-80 | from attempt `i`, between 1 and `5 - i` calls are made; none once the budget is used |
| RetryProperties.RunFromTemperatures | backend/transcript_generator.py:60-64 | call `k` from attempt `i` is sent at `2 * (i + k)` tenths |
| RetryProperties.RunFromConversation | backend/transcript_generator.py:53-80 | call `k` sends the starting conversation plus `2 * k` turns; every call but the last failed both tiers, and the next call adds exactly its answer and the correction |
| RetryProperties.RunFromExit | backend/transcript_generator.py:60-80 | the run's ending is that of its last reply: abort with the conversation sent, a list with the answer appended, or exhaustion after all remaining attempts with the answer and correction appended |
| RetryProperties.RunFromExhaustion | backend/transcript_generator.py:60-80 | a run is exhausted exactly when it used every remaining attempt and the last one failed too; it then holds two turns per call beyond the start |
| RetryProperties.RunFromParsed | backend/transcript_generator.py:70-77 | a run that ends with a list ends with the answer to its last call, which that call read strictly or by salvage |
| GenerateProperties.GenerateCalls | backend/transcript_generator.py:53-80 | the generator makes 1 to 5 calls, call `k` at temperature `0.2 * k`, strictly increasing and below 1.0 |
| GenerateProperties.GenerateConversation | backend/transcript_generator.py:53-80 | the first call is sent exactly the system turn with the emotion and the user turn with the topic; call `k` sends `2 + 2k` turns starting with them; every earlier call failed both tiers and the next one adds its answer and the correction |
| GenerateProperties.GenerateExhaustion | backend/transcript_generator.py:60-80 | the generator falls off the loop exactly when five calls were made and the fifth failed both tiers, and then the conversation has twelve turns |
| GenerateProperties.GenerateResultFromLastReply | backend/transcript_generator.py:66-77 | a returned or stored list comes from the last completion: the conversation ends with its cleaned text, and the list is its strict parse, or the parse of its salvage candidate after the strict parse failed |
| GenerateProperties.GenerateFirstAttemptStrict | backend/transcript_generator.py:61-73 | a first completion whose cleaned text parses strictly gives exactly one call, at temperature 0.0, returns that list and ends the conversation with the cleaned text |
| GenerateProperties.GenerateWellFormedFirstReply | backend/transcript_generator.py:61-73 | a first completion that is already a bracketed array accepted by `json.loads` is returned as is, after one call at 0.0 |
| GenerateProperties.AttemptOnArrayReply | backend/transcript_generator.py:66-73 | a bracketed array completion accepted by the parser is read strictly, unchanged by cleaning |
| GenerateProperties.GenerateOnNewGenerator | backend/transcript_generator.py:17-80 | a new generator asked for a transcript returns and stores the list on a strict parse, returns `None` and stores the list after a salvage, keeps the empty list when no tier parsed, and reports `raised` exactly when a call raised |

## Left out

- The network call: the completion service, the model name from
  `os.getenv("LLM_MODEL")` (line 62) and `await` are the oracle parameter
  `llm`.
- JSON decoding: `json.loads` and `list(...)` are the parser parameter
  `parse`. Its results are lists of strings, which also covers a JSON
  string (`list` gives its one-character strings) and a JSON object
  (`list` gives its keys). A JSON array holding non-string values
  (numbers, `null`, nested arrays or objects) is outside the parser's
  result type.
- Logging (line 68) and `dotenv.load_dotenv()` (lines 1-2) have no effect on
  the result and are not modelled.
- The `__main__` block (lines 83-88) is not modelled. It reads the topic from
  standard input and calls `generate_transcript` without the `emotions`
  argument.
- Transcripts.EmotionSystemPrompt: only the instruction sentence that holds
  the emotion (line 31) is written out. The rest of the fixed prompt text
  (lines 30-46) is omitted because Dafny expands string literals character
  by character, which makes every proof about the conversation expensive.
  The proved facts are that the label is inserted verbatim at a fixed
  offset and can be read back. They hold for any fixed surrounding text.
- Non-string content: `choices[0].message.content` being `None` (so that
  `.strip()` raises) is folded into `Raised` together with the service's own
  exceptions. Both propagate out of the generator.
- Transcripts.TranscriptGenerator.GenerateTranscript: the requests sent and
  the final conversation are ghost out-parameters. On a raised call the
  method returns normally, with `raised` set, where the Python method
  propagates the exception. Its contract leaves `returned` open in that
  case. The abort is the `Aborted` exit of `Generate`, and the field is
  unchanged.
- Floating point: temperatures are exact tenths. `round(i / 5, 1)` for
  `i < 5` gives exactly the floats `0.0`, `0.2`, `0.4`, `0.6` and `0.8`.
