/**
 * The local proxy in front of Ollama: its configuration, loaded from `config.json` and
 * updated by `POST /config`, and the `/health` and `/completion` endpoints.
 */
module Proxy {
  import opened Js

  /** The server's configuration; the temperature is kept as an exact value. */
  datatype Config = Config(model: string, contextSize: int, temperature: real)

  const DefaultConfig := Config("llama3.2", 2048, 0.7)

  /**
   * What reading `config.json` yields: no file, a file that does not parse, or the keys it
   * sets (a parsed value that is not an object, or `null`, sets none).
   */
  datatype ConfigFile =
    | Missing
    | Unparsable
    | Parsed(model: Option<string>, contextSize: Option<int>, temperature: Option<real>)

  /** The defaults, overridden key by key by the file's contents. */
  function LoadConfig(file: ConfigFile): (c: Config)
    ensures !file.Parsed? ==> c == DefaultConfig
    ensures file.Parsed? ==>
      && c.model == (if file.model.Some? then file.model.value else DefaultConfig.model)
      && c.contextSize == (if file.contextSize.Some? then file.contextSize.value else DefaultConfig.contextSize)
      && c.temperature == (if file.temperature.Some? then file.temperature.value else DefaultConfig.temperature)
  {
    match file
    case Parsed(m, n, t) =>
      var c := DefaultConfig;
      var c := if m.Some? then c.(model := m.value) else c;
      var c := if n.Some? then c.(contextSize := n.value) else c;
      if t.Some? then c.(temperature := t.value) else c
    case _ => DefaultConfig
  }

  /** What `JSON.stringify(config)` writes, as it reads back. */
  function FileOf(c: Config): ConfigFile
  {
    Parsed(Some(c.model), Some(c.contextSize), Some(c.temperature))
  }

  /** A restart after a save loads exactly the saved configuration. */
  lemma SavedConfigReloads(c: Config)
    ensures LoadConfig(FileOf(c)) == c
  {
  }

  /** `Number.parseInt` of a JSON number: its integer part, truncated toward zero. */
  function ParseIntOfNumber(x: real): (n: int)
    ensures x >= 0.0 ==> 0 <= n && n as real <= x < n as real + 1.0
    ensures x < 0.0 ==> n <= 0 && n as real - 1.0 < x <= n as real
  {
    if x >= 0.0 then x.Floor else -((-x).Floor)
  }

  /** Whole numbers parse to themselves. */
  lemma ParseIntOfWholeNumber(n: int)
    ensures ParseIntOfNumber(n as real) == n
  {
  }

  /**
   * A numeric field supplied in a request body, as the handler's tests see it: whether it
   * is truthy, and its value as `parseInt` or `parseFloat` reads it, None when `isNaN` holds.
   */
  datatype Supplied<T> = Supplied(truthy: bool, parsed: Option<T>)

  /** The fields of a `POST /config` body, each possibly absent. */
  datatype ConfigUpdate = ConfigUpdate(model: Option<string>, contextSize: Option<Supplied<int>>, temperature: Option<Supplied<real>>)

  /** A JSON number given as `contextSize`: truthy unless 0; JSON cannot carry `NaN`. */
  function ContextSizeNumber(x: real): Supplied<int>
  {
    Supplied(x != 0.0, Some(ParseIntOfNumber(x)))
  }

  /** A JSON number given as `temperature`. */
  function TemperatureNumber(x: real): Supplied<real>
  {
    Supplied(x != 0.0, Some(x))
  }

  /** A field passes `value && !isNaN(value)`. */
  predicate Accepted<T>(f: Option<Supplied<T>>)
  {
    f.Some? && f.value.truthy && f.value.parsed.Some?
  }

  /** The configuration after an update: each field changes only when it is supplied, truthy and numeric. */
  function ApplyUpdate(c: Config, u: ConfigUpdate): Config
  {
    Config(if Truthy(u.model) then u.model.value else c.model,
           if Accepted(u.contextSize) then u.contextSize.value.parsed.value else c.contextSize,
           if Accepted(u.temperature) then u.temperature.value.parsed.value else c.temperature)
  }

  /**
   * Absent, empty, zero or non-numeric fields leave the old values in place; accepted
   * fields take their parsed value; an update with no fields changes nothing.
   */
  lemma ApplyUpdateFields(c: Config, u: ConfigUpdate)
    ensures ApplyUpdate(c, u).model == if Truthy(u.model) then u.model.value else c.model
    ensures !Accepted(u.contextSize) ==> ApplyUpdate(c, u).contextSize == c.contextSize
    ensures Accepted(u.contextSize) ==> ApplyUpdate(c, u).contextSize == u.contextSize.value.parsed.value
    ensures !Accepted(u.temperature) ==> ApplyUpdate(c, u).temperature == c.temperature
    ensures Accepted(u.temperature) ==> ApplyUpdate(c, u).temperature == u.temperature.value.parsed.value
    ensures ApplyUpdate(c, ConfigUpdate(None, None, None)) == c
  {
  }

  /**
   * For JSON numbers: 0 is ignored for both fields, a whole number becomes the context size
   * as it is, and any other number becomes the temperature as it is.
   */
  lemma ApplyNumbers(c: Config, model: Option<string>, size: real, temperature: real)
    ensures var after := ApplyUpdate(c, ConfigUpdate(model, Some(ContextSizeNumber(size)), Some(TemperatureNumber(temperature))));
      && (size == 0.0 ==> after.contextSize == c.contextSize)
      && (size != 0.0 && size.Floor as real == size ==> after.contextSize == size.Floor)
      && (temperature == 0.0 ==> after.temperature == c.temperature)
      && (temperature != 0.0 ==> after.temperature == temperature)
  {
    if size != 0.0 && size.Floor as real == size {
      ParseIntOfWholeNumber(size.Floor);
    }
  }

  /** Sending the same update twice is sending it once. */
  lemma ApplyUpdateIdempotent(c: Config, u: ConfigUpdate)
    ensures ApplyUpdate(ApplyUpdate(c, u), u) == ApplyUpdate(c, u)
  {
  }

  /** The body of an HTTP response; the `status` strings of the source are fixed per variant. */
  datatype Body =
    | HealthOk(model: string, availableModels: seq<string>)
    | HealthError(message: string, error: string)
    | ConfigSaved(config: Config)
    | Completion(completion: Option<string>)
    | Failure(error: string, details: Option<string>)

  datatype HttpResponse = HttpResponse(status: int, body: Body)

  const OllamaUnavailable := "Ollama server not available. Please make sure Ollama is running."
  const OllamaNotResponding := "Ollama server not responding"
  const PromptRequired := "Prompt is required"
  const CompletionFailed := "Failed to get completion from Ollama"
  const OllamaApiErrorPrefix := "Ollama API error: "
  const DefaultMaxTokens := 512

  /**
   * What `fetch` of `/api/tags` gave. `TagsThrew` stands for every exception on the way:
   * the request failing, the payload not parsing, or `models` missing.
   */
  datatype TagsOutcome = TagsOk(models: seq<ModelEntry>) | TagsNotOk | TagsThrew(message: string)

  /** One entry of the `models` list of `/api/tags`; only its `name` is used. */
  datatype ModelEntry = ModelEntry(name: string)

  /** `models.map(m => m.name)` */
  function ModelNames(models: seq<ModelEntry>): (names: seq<string>)
    ensures |names| == |models|
    ensures forall i :: 0 <= i < |models| ==> names[i] == models[i].name
  {
    seq(|models|, i requires 0 <= i < |models| => models[i].name)
  }

  /** A `POST /completion` body: the prompt and the two optional overrides. */
  datatype CompletionRequest = CompletionRequest(prompt: Option<string>, maxTokens: Option<int>, temperature: Option<real>)

  /** The `/api/generate` request the proxy sends upstream. */
  datatype GenerateRequest = GenerateRequest(
    model: string, prompt: string, stream: bool, temperature: real, numPredict: int, contextSize: int)

  /** What `fetch` of `/api/generate` gave: a success with the payload's `response`, a non-ok status, or an exception. */
  datatype GenerateOutcome = GenerateOk(response: Option<string>) | GenerateNotOk(statusText: string) | GenerateThrew(message: string)

  /**
   * `GET /health` under configuration `config`: 200 with the configured model and the
   * upstream model names, in order, when the tags request succeeded; otherwise 503 with the
   * fixed message and the error.
   */
  function HealthReply(config: Config, outcome: TagsOutcome): (resp: HttpResponse)
    ensures resp.status == 200 <==> outcome.TagsOk?
    ensures resp.status == 200 || resp.status == 503
    ensures outcome.TagsOk? ==> resp.body == HealthOk(config.model, ModelNames(outcome.models))
    ensures outcome.TagsNotOk? ==> resp.body == HealthError(OllamaUnavailable, OllamaNotResponding)
    ensures outcome.TagsThrew? ==> resp.body == HealthError(OllamaUnavailable, outcome.message)
  {
    match outcome
    case TagsOk(models) => HttpResponse(200, HealthOk(config.model, ModelNames(models)))
    case TagsNotOk => HttpResponse(503, HealthError(OllamaUnavailable, OllamaNotResponding))
    case TagsThrew(message) => HttpResponse(503, HealthError(OllamaUnavailable, message))
  }

  /** The answer to `POST /completion` and the upstream request it made, if any. */
  datatype CompletionExchange = CompletionExchange(resp: HttpResponse, call: Option<GenerateRequest>)

  /**
   * `POST /completion` under configuration `config`, the upstream giving `upstream` if asked.
   * A missing or empty prompt is answered 400 and nothing is sent upstream. Otherwise the
   * upstream request uses the configured model and context size, `stream` false, and 512
   * tokens and the configured temperature unless the body gave its own; the answer is 200
   * with the upstream `response`, or 500 with the fixed error and the details.
   */
  function CompletionReply(config: Config, req: CompletionRequest, upstream: GenerateOutcome): (x: CompletionExchange)
    ensures x.call.None? <==> !Truthy(req.prompt)
    ensures x.call.None? ==> x.resp == HttpResponse(400, Failure(PromptRequired, None))
    ensures x.call.Some? ==>
      x.call.value == GenerateRequest(config.model, req.prompt.value, false,
                                      if req.temperature.Some? then req.temperature.value else config.temperature,
                                      if req.maxTokens.Some? then req.maxTokens.value else DefaultMaxTokens,
                                      config.contextSize)
    ensures x.call.Some? ==> (x.resp.status == 200 <==> upstream.GenerateOk?)
    ensures x.call.Some? && upstream.GenerateOk? ==> x.resp.body == Completion(upstream.response)
    ensures x.call.Some? && upstream.GenerateNotOk? ==>
      x.resp == HttpResponse(500, Failure(CompletionFailed, Some(OllamaApiErrorPrefix + upstream.statusText)))
    ensures x.call.Some? && upstream.GenerateThrew? ==>
      x.resp == HttpResponse(500, Failure(CompletionFailed, Some(upstream.message)))
  {
    var maxTokens := if req.maxTokens.Some? then req.maxTokens.value else DefaultMaxTokens;
    var temperature := if req.temperature.Some? then req.temperature.value else config.temperature;
    if !Truthy(req.prompt) then
      CompletionExchange(HttpResponse(400, Failure(PromptRequired, None)), None)
    else
      var call := Some(GenerateRequest(config.model, req.prompt.value, false, temperature, maxTokens, config.contextSize));
      match upstream
      case GenerateOk(response) =>
        CompletionExchange(HttpResponse(200, Completion(response)), call)
      case GenerateNotOk(statusText) =>
        CompletionExchange(HttpResponse(500, Failure(CompletionFailed, Some(OllamaApiErrorPrefix + statusText))), call)
      case GenerateThrew(message) =>
        CompletionExchange(HttpResponse(500, Failure(CompletionFailed, Some(message))), call)
  }

  class ProxyServer {
    /** The module-level `config`. */
    var config: Config
    /** What `config.json` holds. */
    var configFile: ConfigFile

    /** Start-up: the defaults merged with `config.json`; the file itself is left as it was. */
    constructor (file: ConfigFile)
      ensures config == LoadConfig(file) && configFile == file
    {
      config := LoadConfig(file);
      configFile := file;
    }

    /**
     * `POST /config`: the truthy fields are applied one by one, the whole configuration is
     * written to the file, and the response echoes it.
     */
    method PostConfig(u: ConfigUpdate) returns (resp: HttpResponse)
      modifies this
      ensures config == ApplyUpdate(old(config), u)
      ensures configFile == FileOf(config) && LoadConfig(configFile) == config
      ensures resp == HttpResponse(200, ConfigSaved(config))
    {
      if Truthy(u.model) {
        config := config.(model := u.model.value);
      }
      if u.contextSize.Some? && u.contextSize.value.truthy && u.contextSize.value.parsed.Some? {
        config := config.(contextSize := u.contextSize.value.parsed.value);
      }
      if u.temperature.Some? && u.temperature.value.truthy && u.temperature.value.parsed.Some? {
        config := config.(temperature := u.temperature.value.parsed.value);
      }
      configFile := FileOf(config);
      SavedConfigReloads(config);
      resp := HttpResponse(200, ConfigSaved(config));
    }
  }
}
