/**
 * How the parts fit together: the messages the content script and the background worker
 * send are the ones the panel accepts, and the panel's requests meet the proxy's rules.
 */
module Flow {
  import opened Js
  import opened Messages
  import Content
  import Background
  import Panel
  import Proxy

  /** Every message the content script's listeners send is one the panel takes as the selection, already trimmed. */
  lemma ContentMessagesReachPanel(ls: seq<Content.Listener>, target: Content.Target, ev: Content.Event, selection: string)
    ensures forall m :: m in Content.Delivered(ls, Content.Path(target), ev, selection) ==>
      Panel.AcceptsSelection(m) && m.text == Some(Trim(selection)) && Trim(m.text.value) == m.text.value
  {
    Content.DeliveredRules(ls, Content.Path(target), ev, selection);
    TrimIdempotent(selection);
  }

  /** The background worker's delayed message after a context-menu click is one the panel takes, with the selection unchanged. */
  lemma MenuMessageReachesPanel(info: Background.MenuClick, tabId: int)
    requires Background.OnMenuClicked(info, tabId) != []
    ensures Panel.AcceptsSelection(Background.OnMenuClicked(info, tabId)[1].message)
    ensures Background.OnMenuClicked(info, tabId)[1].message.text == info.selectionText
  {
    Background.MenuClickDelivers(info, tabId);
  }

  /**
   * The panel's `getSelectedText` request, relayed by the worker to the active tab's
   * content script: the panel receives the selection as it is, untrimmed, exactly when there
   * is an active tab and the selection is not empty. A whitespace-only selection gets through.
   */
  lemma SelectionRoundTrip(tabs: seq<int>, selection: string)
    ensures var reply := Background.Relay(Message(GetSelectedTextAction, None), tabs,
                                          Some(Background.TabReply(Content.SelectionReply(Message(GetSelectedTextAction, None), selection))));
      && (reply.Some? <==> tabs != [] && selection != "")
      && (reply.Some? ==> reply.value == selection)
  {
    Background.RelayReplies(Message(GetSelectedTextAction, None), tabs,
                            Some(Background.TabReply(Content.SelectionReply(Message(GetSelectedTextAction, None), selection))));
  }

  /** What the panel sends to `/completion`: all three fields, so none of the proxy's defaults applies. */
  function ProxyRequestOf(r: Panel.CompletionRequest): Proxy.CompletionRequest
  {
    Proxy.CompletionRequest(Some(r.prompt), Some(r.maxTokens), Some(r.temperature))
  }

  /** How `response.ok` reads an HTTP status. */
  predicate Ok(status: int)
  {
    200 <= status <= 299
  }

  /** How the panel's health check sees the proxy's answer. */
  function PanelHealthOf(resp: Proxy.HttpResponse): Panel.HealthResponse
  {
    if Ok(resp.status) then Panel.HealthOk else Panel.HealthNotOk
  }

  /** How the panel's `askLlama` sees the proxy's answer: the `completion` field of an ok response. */
  function PanelCompletionOf(resp: Proxy.HttpResponse): Panel.CompletionResponse
  {
    if !Ok(resp.status) then Panel.CompletionNotOk
    else if resp.body.Completion? then Panel.CompletionOk(resp.body.completion)
    else Panel.CompletionOk(None)
  }

  /** The panel counts as connected exactly when Ollama's tag list came back ok, whatever the payload. */
  lemma ConnectedIffOllamaUp(config: Proxy.Config, outcome: Proxy.TagsOutcome)
    ensures PanelHealthOf(Proxy.HealthReply(config, outcome)).HealthOk? <==> outcome.TagsOk?
  {
  }

  /**
   * A question the panel asks is never refused for a missing prompt. The proxy forwards the
   * panel's prompt and temperature, and the panel's context length as the token limit, with the
   * proxy's own model and context size.
   */
  lemma PanelQuestionForwarded(config: Proxy.Config, settings: Settings, context: string, query: string,
                               upstream: Proxy.GenerateOutcome)
    ensures var r := Panel.CompletionRequest(Panel.BuildPrompt(context, query), settings.contextLength, settings.temperature);
      Proxy.CompletionReply(config, ProxyRequestOf(r), upstream).call
      == Some(Proxy.GenerateRequest(config.model, r.prompt, false, settings.temperature, settings.contextLength,
                                    config.contextSize))
  {
  }

  /**
   * The panel reports "Response received" exactly when Ollama answered ok, and then shows
   * Ollama's `response`, or the fixed fallback when that is empty or missing.
   */
  lemma PanelShowsOllamaAnswer(config: Proxy.Config, r: Panel.CompletionRequest, upstream: Proxy.GenerateOutcome)
    requires r.prompt != ""
    ensures var d := Panel.CompletionDisplay(PanelCompletionOf(Proxy.CompletionReply(config, ProxyRequestOf(r), upstream).resp));
      && (d.status == Panel.ReceivedStatus <==> upstream.GenerateOk?)
      && (upstream.GenerateOk? && Truthy(upstream.response) ==> d.text == upstream.response.value)
      && (upstream.GenerateOk? && !Truthy(upstream.response) ==> d.text == Panel.NoResponseText)
      && (!upstream.GenerateOk? ==> d.text == Panel.CompletionErrorText && d.status == "Error: " + Panel.NotOkMessage)
  {
  }
}
