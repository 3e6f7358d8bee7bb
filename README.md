# Qwen completion adapter: placeholder filling, JSON extraction and result shaping

This project models the logic of the Qwen text-completion adapter of a GraphRAG
pipeline (`graphrag/llm/openai/qwen_completion_llm.py`): how a prompt template is
filled (`replace_placeholders`), how JSON objects are pulled out of a free-form
reply (`extract_json_strings`), and how `QwenCompletionLLM` derives its settings,
builds the request, reads the reply and shapes the result of `_invoke_json`.
The remote API call, `json.loads` and `json.dumps` are parameters of the model.

Files:

- `wrappers.dfy`: `Option` and `Result`, standing for Python's `None` and raised exceptions.
- `placeholders.dfy` (module `Placeholders`): Python's `str.replace` as `ReplaceAll`; the
  passes over the variables as the specification function `Substitute`; and the loop of
  `replace_placeholders` as the method `ReplacePlaceholders`, proved equal to it.
- `json_extraction.dfy` (module `JsonExtraction`): the regular expression
  `(\{(?:[^{}]|(?R))*\})` with `findall`, modelled as a brace-depth scan (`MatchEnd`,
  `ScanFrom`), and as a position/depth loop (`FindCandidates`) proved equal to it. The
  scan is characterised independently by `IsGroup`: a text the pattern matches opens
  with '{', its depth stays positive after every proper prefix and is zero at the end.
  Then come the parse-and-keep loop (`ExtractJsonStrings`) and the filter it computes (`Parsed`).
- `qwen_completion.dfy` (module `QwenCompletion`): construction (`Construct`), the
  request (`BuildRequest`), reading the reply (`ReadResponse`), `_execute_llm`
  (`ExecuteLlm`) and `_invoke_json` (`InvokeJson`).

Behaviour worth knowing, all proved below:

- A pass replaces the leftmost non-overlapping occurrences and does not look at what it
  inserted. Later keys work on earlier results, so the order of the variables matters.
- A placeholder can still be present after its own pass. The value may contain it, or
  removing one occurrence may join the text around it into a new one (`PlaceholderMayRemain`).
- The scanner counts braces inside JSON string literals as well. A '}' inside a string
  value therefore cuts the candidate short (`BraceInStringExample`). An object written
  verbatim in a reply is the single candidate when the text before it has no '{' and the
  text after it holds no match (`EmbeddedGroup`). Inside an enclosing pair of braces it is
  not a candidate of its own: the enclosing text is (`EnclosingGroupAbsorbs`).
- A reply with no JSON object gives `output == "null"` (the result of `json.dumps(None)`),
  not `None`. So `(None, None)` comes back exactly when `_execute_llm` failed.

## Model

| member | source | states |
|---|---|---|
| `Placeholders.ReplacePlaceholders` | graphrag/llm/openai/qwen_completion_llm.py:121-125 | the loop returns the text after one `str.replace` pass per (key, value) of `variables`, in iteration order, each pass on the previous result |
| `Placeholders.Placeholder` | graphrag/llm/openai/qwen_completion_llm.py:123 | the placeholder for a key is the key between '{' and '}' |
| `Placeholders.CopyFirst` | graphrag/llm/openai/qwen_completion_llm.py:124 | where the pattern does not start the text, `str.replace` copies the first character and goes on with the rest |
| `Placeholders.CopyStretch` | graphrag/llm/openai/qwen_completion_llm.py:124 | a stretch of text where no occurrence starts is copied unchanged |
| `Placeholders.CopyUnmatchedPrefix` | graphrag/llm/openai/qwen_completion_llm.py:124 | a prefix where no occurrence starts is copied unchanged, before the replacement of the rest |
| `Placeholders.NoOccurrenceUnchanged` | graphrag/llm/openai/qwen_completion_llm.py:124 | text without an occurrence of the pattern comes back unchanged |
| `Placeholders.LeftmostOccurrenceReplaced` | graphrag/llm/openai/qwen_completion_llm.py:124 | the leftmost occurrence becomes the value, the text before it is copied, and replacing resumes just after it, so occurrences overlapping it are skipped |
| `Placeholders.NoBraceReplaceUnchanged` | graphrag/llm/openai/qwen_completion_llm.py:123-124 | a pass changes nothing in text without '{' |
| `Placeholders.SubstituteUnchanged` | graphrag/llm/openai/qwen_completion_llm.py:121-125 | with empty `variables`, or with input without '{', the input comes back unchanged |
| `Placeholders.ValueNotRescanned` | graphrag/llm/openai/qwen_completion_llm.py:124 | an inserted value is not scanned again, even when it holds its own placeholder |
| `Placeholders.OrderMatters` | graphrag/llm/openai/qwen_completion_llm.py:122-124 | a value holding another key's placeholder is expanded when that key comes later and left alone when it comes earlier |
| `Placeholders.PlaceholderMayRemain` | graphrag/llm/openai/qwen_completion_llm.py:123-124 | after the pass for key `a`, `{{a}a}` becomes `{a}`, so the placeholder can still be present |
| `JsonExtraction.MatchEnd` | graphrag/llm/openai/qwen_completion_llm.py:135 | a match found from a position ends after that position, within the text, on a '}' |
| `JsonExtraction.ScanFrom` | graphrag/llm/openai/qwen_completion_llm.py:135-138 | the reported spans lie in the text, each starts with '{', and they are disjoint and in left-to-right order |
| `JsonExtraction.FindCandidates` | graphrag/llm/openai/qwen_completion_llm.py:135-138 | the position/depth loop finds exactly the spans `findall` reports |
| `JsonExtraction.ExtractJsonStrings` | graphrag/llm/openai/qwen_completion_llm.py:133-151 | the loop returns the parsed values of the matches that parse, in match order |
| `JsonExtraction.GroupEndUnique` | graphrag/llm/openai/qwen_completion_llm.py:135 | at most one match starts at a given '{': the one ending at its matching '}' |
| `JsonExtraction.MatchEndCorrect` | graphrag/llm/openai/qwen_completion_llm.py:135 | the depth scan finds the match starting at a '{' when there is one, and finds nothing when there is none |
| `JsonExtraction.ScanStep` | graphrag/llm/openai/qwen_completion_llm.py:138 | at a '{' that starts a match the search reports it and resumes after it; at an unmatched '{' it moves on one character |
| `JsonExtraction.ScanFromSound` | graphrag/llm/openai/qwen_completion_llm.py:135-138 | every reported span is a match of the pattern |
| `JsonExtraction.ScanFromComplete` | graphrag/llm/openai/qwen_completion_llm.py:135-138 | every position where a match starts lies inside a reported span |
| `JsonExtraction.CandidatesCorrect` | graphrag/llm/openai/qwen_completion_llm.py:135-138 | the candidates are matches (balanced, depth never below zero), disjoint, left to right, and every '{' that starts a match lies in one of them, so later spans after an unmatched '{' are still found |
| `JsonExtraction.NoBraceNothingExtracted` | graphrag/llm/openai/qwen_completion_llm.py:133-151 | text without '{' gives no candidate and no object |
| `JsonExtraction.ParsedSelects` | graphrag/llm/openai/qwen_completion_llm.py:140-151 | the returned list is exactly the values of the matches that parse, in match order; a failed parse is skipped |
| `JsonExtraction.NothingParsed` | graphrag/llm/openai/qwen_completion_llm.py:140-151 | the list is empty exactly when no match parses |
| `JsonExtraction.FirstParsed` | graphrag/llm/openai/qwen_completion_llm.py:140-151 | the first value returned is that of the first match that parses |
| `JsonExtraction.SkipWithoutBrace` | graphrag/llm/openai/qwen_completion_llm.py:138 | the search passes over text without '{' and reports nothing there |
| `JsonExtraction.NoCloseNoCandidate` | graphrag/llm/openai/qwen_completion_llm.py:135-138 | with no '}' left in the text, no further candidate is found |
| `JsonExtraction.FlatGroup` | graphrag/llm/openai/qwen_completion_llm.py:135 | '{' and '}' around brace-free text form a match |
| `JsonExtraction.EmbeddedGroup` | graphrag/llm/openai/qwen_completion_llm.py:135-138 | a match placed after text without '{', and followed by text without '{' or without '}', is the only candidate |
| `JsonExtraction.EnclosingGroupAbsorbs` | graphrag/llm/openai/qwen_completion_llm.py:135-138 | a match preceded by '{' and brace-free text and followed by a closing '}' is not a candidate of its own; the single candidate is the whole enclosing text |
| `JsonExtraction.EnclosedObjectExample` | graphrag/llm/openai/qwen_completion_llm.py:135-138 | in `{x {"a": 1}}` the single candidate is the whole text, not the object `{"a": 1}` |
| `JsonExtraction.MalformedTailExample` | graphrag/llm/openai/qwen_completion_llm.py:135-138 | `prefix {"a": 1} suffix {malformed` has the single candidate `{"a": 1}` |
| `JsonExtraction.BraceInStringExample` | graphrag/llm/openai/qwen_completion_llm.py:135-138 | in `{"a": "}"}` the '}' inside the string closes the candidate, which is `{"a": "}` |
| `QwenCompletion.Construct` | graphrag/llm/openai/qwen_completion_llm.py:34-41 | construction fails exactly for a `None` configuration; otherwise it stores the configuration, takes `api_key`, `model` and `type` from it when present and "", `qwen-turbo` and `StaticResponse` when absent, and `chat_mode` holds iff `type` is `QwenChat` |
| `QwenCompletion.ConstructWithDefaultFails` | graphrag/llm/openai/qwen_completion_llm.py:34-41 | as written, construction with the default `llm_config=None` fails |
| `QwenCompletion.NormalisedConstructionAgrees` | graphrag/llm/openai/qwen_completion_llm.py:36-41 | reading `type` from the normalised configuration agrees with the code on every configuration and gives the defaults for `None` |
| `QwenCompletion.BuildRequest` | graphrag/llm/openai/qwen_completion_llm.py:56-64 | the call uses the adapter's model and key; in chat mode it sends the history followed by exactly one user message holding the formatted input, otherwise the formatted input as the prompt |
| `QwenCompletion.ReadResponse` | graphrag/llm/openai/qwen_completion_llm.py:66-72 | a non-OK status fails with the reply's code and message; on OK the result is the first choice's content in chat mode and the text otherwise, and missing output fails |
| `QwenCompletion.ExecuteLlm` | graphrag/llm/openai/qwen_completion_llm.py:51-72 | the result is the reply, read as above, to the one request carrying the filled-in input |
| `QwenCompletion.Dumps` | graphrag/llm/openai/qwen_completion_llm.py:109-113 | `json.dumps(None)` is "null" |
| `QwenCompletion.InvokeJson` | graphrag/llm/openai/qwen_completion_llm.py:94-118 | the result is `(None, None)` exactly when `_execute_llm` fails |
| `QwenCompletion.InvokeJsonPicksFirstObject` | graphrag/llm/openai/qwen_completion_llm.py:101-118 | on success the JSON value is the parse of the first candidate that parses (None exactly when none does), and the output is its serialisation, "null" when nothing was extracted |
| `QwenCompletion.PromptReplyExample` | graphrag/llm/openai/qwen_completion_llm.py:66-70 | an OK reply with text "hello" gives "hello" outside chat mode |
| `QwenCompletion.FailedReplyExample` | graphrag/llm/openai/qwen_completion_llm.py:71-72 | a reply with status 400, code "X" and message "bad" fails carrying "X" and "bad" |
| `QwenCompletion.MalformedTailInvokeExample` | graphrag/llm/openai/qwen_completion_llm.py:94-118 | for the reply `prefix {"a": 1} suffix {malformed` the JSON value is the parse of `{"a": 1}` and the output its serialisation |

## Findings

| source | as written | input that shows it | evidently intended | confidence | as-written member | corrected member |
|---|---|---|---|---|---|---|
| graphrag/llm/openai/qwen_completion_llm.py:40-41 | `type` is read with `llm_config.get(...)` rather than `self.llm_config.get(...)` | `QwenCompletionLLM()`, or `llm_config=None` (the parameter's default): `None.get` raises | read `type` from the normalised `self.llm_config`, as lines 37-38 do, so a missing configuration means the defaults and prompt mode | high (not executed) | `QwenCompletion.ConstructWithDefaultFails` | `QwenCompletion.NormalisedConstructionAgrees` |

`Construct` keeps the code's behaviour. `ConstructFromNormalised` is the corrected
construction, and the rest of the model works on an already-constructed adapter, so it
holds for both.

## Left out

- `dashscope.Generation.call` (`call_with_prompt`, `call_with_messages`): the remote call is the parameter `remote` of `ExecuteLlm`, from a `Request` (model, key, prompt or messages) to a `Response`. Network errors raised by the SDK itself are not modelled.
- graphrag/llm/openai/qwen_embeddings_llm.py: a thin wrapper around `dashscope.TextEmbedding.call` with one list comprehension over its reply. It is not part of this model.
- `async`/`await`, `log.*` and `print`: scheduling and logging have no effect on the results.
- `json.loads` and `json.dumps`: their internals are not modelled. They are the parameters `parse` (None for `JSONDecodeError`) and `dumps` (None for `TypeError`/`ValueError`). Only `json.dumps(None) == "null"` is fixed. Other exceptions `json.loads` may raise, such as `RecursionError` on deep nesting, are not modelled.
- The round trip "serialise an extracted object and parse it again" is a property of the `json` module. It cannot be stated about uninterpreted parameters.
- The regular-expression engine: `findall` with the recursive pattern is replaced by the equivalent brace-depth scan.
- `preprocess_input` (lines 128-130) is never called, and each of its two replacements puts back the same character, so it is the identity.
- Configuration values of the wrong type, and keys present with the value `None`: the configuration is a record whose keys are absent or hold a value of the expected type.
- Keyword arguments passed explicitly as `None`: `variables` and `history` are sequences, and absent arguments are empty sequences.
- `LLMType.OtherType`: stands for a `type` value equal to neither `StaticResponse` nor `QwenChat`. The enum of those values is not part of this model. A `type` given as the plain string of a known member, which the string enum would compare equal to it, is to be modelled as that member.
- Reply content that is not a string: a choice's content and the reply text are strings. A choice missing its `message` or `content` key is not modelled.
- Distinct dictionary keys: `variables` is a sequence of pairs, so it also allows repeated keys. Nothing proved depends on keys being distinct.
- `Placeholders.ReplaceAll` with an empty pattern is modelled as Python does it, but it never happens: a placeholder always contains two braces.
