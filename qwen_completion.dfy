/**
 * `QwenCompletionLLM` of graphrag/llm/openai/qwen_completion_llm.py: the adapter's
 * settings derived from its configuration, the request `_execute_llm` sends and how
 * it reads the reply, and how `_invoke_json` shapes that reply into an output string
 * and a JSON value. The remote call (`dashscope.Generation.call`), `json.loads` and
 * `json.dumps` are parameters.
 */
module QwenCompletion {
  import opened Wrappers
  import Placeholders
  import opened JsonExtraction

  /**
   * The values of the configuration's `type` key that the adapter tells apart.
   * `OtherType` stands for any value equal to neither `StaticResponse` nor `QwenChat`;
   * its `name` is not the string value of either.
   */
  datatype LLMType = StaticResponse | QwenChat | OtherType(name: string)

  /** The configuration dictionary; a key that is absent is None. */
  datatype LLMConfig = LLMConfig(apiKey: Option<string>, model: Option<string>, llmType: Option<LLMType>)

  /** The SDK's `Generation.Models.qwen_turbo`, the model used when none is configured. */
  const QwenTurbo: string := "qwen-turbo"

  /** `HTTPStatus.OK`. */
  const HttpOk: int := 200

  /** The adapter's fields, fixed at construction. */
  datatype QwenCompletionLLM = QwenCompletionLLM(
    llmConfig: LLMConfig, apiKey: string, model: string, llmType: LLMType, chatMode: bool)

  /** Why construction fails: `.get` is called on a `None` configuration. */
  datatype ConstructionError = ConfigIsNone

  /**
   * `__init__(llm_config)`, with the Python `None` as None. The first three fields come
   * from `llm_config or {}`, but `type` is read from `llm_config` itself, so a `None`
   * configuration, the parameter's default, fails.
   */
  function Construct(llmConfig: Option<LLMConfig>): (r: Result<QwenCompletionLLM, ConstructionError>)
    ensures r.Failure? <==> llmConfig.None?
    ensures r.Success? ==> r.value.llmConfig == llmConfig.value
    ensures r.Success? ==> (r.value.chatMode <==> llmConfig.value.llmType == Some(QwenChat))
    ensures r.Success? ==> (llmConfig.value.apiKey.None? ==> r.value.apiKey == "")
    ensures r.Success? ==> (llmConfig.value.apiKey.Some? ==> r.value.apiKey == llmConfig.value.apiKey.value)
    ensures r.Success? ==> (llmConfig.value.model.None? ==> r.value.model == QwenTurbo)
    ensures r.Success? ==> (llmConfig.value.model.Some? ==> r.value.model == llmConfig.value.model.value)
    ensures r.Success? ==> (llmConfig.value.llmType.None? ==> r.value.llmType == StaticResponse)
    ensures r.Success? ==> (llmConfig.value.llmType.Some? ==> r.value.llmType == llmConfig.value.llmType.value)
  {
    match llmConfig
    case None => Failure(ConfigIsNone)
    case Some(config) =>
      var llmType := config.llmType.GetOr(StaticResponse);
      Success(QwenCompletionLLM(config, config.apiKey.GetOr(""), config.model.GetOr(QwenTurbo),
                                llmType, llmType == QwenChat))
  }

  /** Construction reading every key from `llm_config or {}`, as line 36 prepares for. */
  function ConstructFromNormalised(llmConfig: Option<LLMConfig>): (r: QwenCompletionLLM)
  {
    var config := llmConfig.GetOr(LLMConfig(None, None, None));
    var llmType := config.llmType.GetOr(StaticResponse);
    QwenCompletionLLM(config, config.apiKey.GetOr(""), config.model.GetOr(QwenTurbo),
                      llmType, llmType == QwenChat)
  }

  /** As written, constructing with the default `llm_config=None` fails. */
  lemma ConstructWithDefaultFails()
    ensures Construct(None) == Failure(ConfigIsNone)
  {
  }

  /**
   * Reading every key from the normalised configuration never fails, agrees with
   * `Construct` whenever that succeeds, and gives the defaults for `None`.
   */
  lemma NormalisedConstructionAgrees(llmConfig: Option<LLMConfig>)
    ensures llmConfig.Some? ==> Construct(llmConfig) == Success(ConstructFromNormalised(llmConfig))
    ensures llmConfig.None? ==>
      var llm := ConstructFromNormalised(llmConfig);
      llm.apiKey == "" && llm.model == QwenTurbo && llm.llmType == StaticResponse && !llm.chatMode
  {
  }

  /** One `{"role": ..., "content": ...}` entry of a chat. */
  datatype Message = Message(role: string, content: string)

  /** What is sent: a plain prompt, or a chat (asked with `result_format='message'`). */
  datatype Payload = Prompt(prompt: string) | Messages(messages: seq<Message>)

  /** One call to the remote API. */
  datatype Request = Request(model: string, apiKey: string, payload: Payload)

  /**
   * The remote API's reply: its status code, error code and message, and the
   * `output` keys read here (None when the key is absent); a choice is given by its message.
   */
  datatype Response = Response(
    statusCode: int, code: string, message: string,
    text: Option<string>, choices: Option<seq<Message>>)

  /** The exceptions `_execute_llm` can raise. */
  datatype CallError =
    | StatusError(code: string, message: string)  // `Exception(f"Error {code}: {message}")`
    | MissingOutput(key: string)                   // KeyError or IndexError reading `output`

  /** The request `_execute_llm` sends for the already formatted input. */
  function BuildRequest(llm: QwenCompletionLLM, formatted: string, history: seq<Message>): (r: Request)
    ensures r.model == llm.model && r.apiKey == llm.apiKey
    ensures r.payload.Messages? <==> llm.chatMode
    ensures r.payload.Prompt? ==> r.payload.prompt == formatted
    ensures r.payload.Messages? ==>
      var ms := r.payload.messages;
      |ms| == |history| + 1 && ms[..|history|] == history && ms[|history|] == Message("user", formatted)
  {
    var payload := if llm.chatMode then Messages(history + [Message("user", formatted)]) else Prompt(formatted);
    Request(llm.model, llm.apiKey, payload)
  }

  /** How `_execute_llm` reads the reply. */
  function ReadResponse(chatMode: bool, response: Response): (r: Result<string, CallError>)
    ensures response.statusCode != HttpOk <==> r == Failure(StatusError(response.code, response.message))
    ensures r.Success? && chatMode ==>
      response.choices.Some? && |response.choices.value| > 0 && r.value == response.choices.value[0].content
    ensures r.Success? && !chatMode ==> response.text == Some(r.value)
    ensures response.statusCode == HttpOk && chatMode && response.choices.Some? && response.choices.value != [] ==> r.Success?
    ensures response.statusCode == HttpOk && !chatMode && response.text.Some? ==> r.Success?
  {
    if response.statusCode != HttpOk then Failure(StatusError(response.code, response.message))
    else if chatMode then
      match response.choices
      case Some(choices) => if choices == [] then Failure(MissingOutput("choices")) else Success(choices[0].content)
      case None => Failure(MissingOutput("choices"))
    else
      match response.text
      case Some(text) => Success(text)
      case None => Failure(MissingOutput("text"))
  }

  /**
   * `_execute_llm(input, variables=..., history=...)`: the placeholders are filled,
   * the request is sent through `remote`, and the reply is read. Absent keyword
   * arguments are the empty sequences.
   */
  function ExecuteLlm(llm: QwenCompletionLLM, input: string, variables: seq<(string, string)>,
                      history: seq<Message>, remote: Request -> Response): (r: Result<string, CallError>)
    ensures var formatted := Placeholders.Substitute(input, variables);
      !llm.chatMode ==> r == ReadResponse(false, remote(Request(llm.model, llm.apiKey, Prompt(formatted))))
    ensures var formatted := Placeholders.Substitute(input, variables);
      llm.chatMode ==>
        r == ReadResponse(true, remote(Request(llm.model, llm.apiKey, Messages(history + [Message("user", formatted)]))))
  {
    var formatted := Placeholders.Substitute(input, variables);
    ReadResponse(llm.chatMode, remote(BuildRequest(llm, formatted, history)))
  }

  /** `LLMOutput(output=..., json=...)`, Python's `None` being None. */
  datatype LLMOutput = LLMOutput(output: Option<string>, json: Option<Json>)

  /** `json.dumps(value)`: `None` is written "null"; `dumps` may fail on a value. */
  function Dumps(value: Option<Json>, dumps: Json -> Option<string>): (r: Option<string>)
    ensures value.None? ==> r == Some("null")
  {
    match value
    case None => Some("null")
    case Some(v) => dumps(v)
  }

  /**
   * `_invoke_json`: any failure of `_execute_llm` gives `(None, None)`; otherwise the
   * JSON value is the first object extracted from the reply (None when there is
   * none) and the output is its serialisation.
   */
  function InvokeJson(llm: QwenCompletionLLM, input: string, variables: seq<(string, string)>,
                      history: seq<Message>, remote: Request -> Response,
                      parse: string -> Option<Json>, dumps: Json -> Option<string>): (r: LLMOutput)
    ensures r == LLMOutput(None, None) <==> ExecuteLlm(llm, input, variables, history, remote).Failure?
  {
    match ExecuteLlm(llm, input, variables, history, remote)
    case Failure(_) => LLMOutput(None, None)
    case Success(text) =>
      var objects := Extracted(text, parse);
      var jsonData := if |objects| > 0 then Some(objects[0]) else None;
      LLMOutput(Dumps(jsonData, dumps), jsonData)
  }

  /**
   * On a successful call the JSON value is the parse of the first candidate of the
   * reply that parses (None exactly when none parses), and the output is its
   * serialisation: "null", not None, when nothing was extracted.
   */
  lemma InvokeJsonPicksFirstObject(llm: QwenCompletionLLM, input: string, variables: seq<(string, string)>,
                                   history: seq<Message>, remote: Request -> Response,
                                   parse: string -> Option<Json>, dumps: Json -> Option<string>)
    requires ExecuteLlm(llm, input, variables, history, remote).Success?
    ensures
      var ms := Matches(ExecuteLlm(llm, input, variables, history, remote).value);
      var r := InvokeJson(llm, input, variables, history, remote, parse, dumps);
      (r.json.None? <==> forall k :: 0 <= k < |ms| ==> parse(ms[k]).None?) &&
      (r.json.None? ==> r.output == Some("null")) &&
      (r.json.Some? ==> r.output == dumps(r.json.value)) &&
      (r.json.Some? ==>
         exists f :: 0 <= f < |ms| && parse(ms[f]) == r.json && (forall k :: 0 <= k < f ==> parse(ms[k]).None?))
  {
    var ms := Matches(ExecuteLlm(llm, input, variables, history, remote).value);
    NothingParsed(ms, parse);
    if Parsed(ms, parse) != [] {
      FirstParsed(ms, parse);
    }
  }

  /** A plain-prompt reply `{"text": "hello"}` with status OK gives "hello". */
  lemma PromptReplyExample(llm: QwenCompletionLLM, input: string, variables: seq<(string, string)>,
                           history: seq<Message>)
    requires !llm.chatMode
    ensures ExecuteLlm(llm, input, variables, history, _ => Response(HttpOk, "", "", Some("hello"), None)) == Success("hello")
  {
  }

  /** A failing reply with code "X" and message "bad" raises an error carrying both. */
  lemma FailedReplyExample(llm: QwenCompletionLLM, input: string, variables: seq<(string, string)>,
                           history: seq<Message>)
    ensures ExecuteLlm(llm, input, variables, history, _ => Response(400, "X", "bad", None, None))
            == Failure(StatusError("X", "bad"))
  {
  }

  /**
   * A reply `prefix {"a": 1} suffix {malformed` gives the parse of `{"a": 1}` as the
   * JSON value, and its serialisation as output; the unclosed tail is dropped.
   */
  lemma MalformedTailInvokeExample(llm: QwenCompletionLLM, input: string, variables: seq<(string, string)>,
                                   history: seq<Message>, parse: string -> Option<Json>,
                                   dumps: Json -> Option<string>, obj: Json)
    requires !llm.chatMode
    requires parse("{\"a\": 1}") == Some(obj)
    ensures
      var reply := Response(HttpOk, "", "", Some("prefix " + "{\"a\": 1}" + " suffix {malformed"), None);
      InvokeJson(llm, input, variables, history, _ => reply, parse, dumps) == LLMOutput(dumps(obj), Some(obj))
  {
    MalformedTailExample();
    var ms := ["{\"a\": 1}"];
    assert ParsedPrefix(ms, 0, parse) == [];
    assert Parsed(ms, parse) == [obj];
  }
}
