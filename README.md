# DeepRead2.0 in Dafny

DeepRead2.0 is a browser extension that lets a reader ask a local Llama model about text
selected on a web page or in a PDF. It has four parts:

- A **content script** classifies the page as PDF or not, captures selections and sends them as `textSelected` messages.
- A **background worker** installs a context-menu item and default settings, opens the side panel and relays `getSelectedText` requests.
- A **side panel** holds the selection, gates the submit button, builds the prompt and shows the answer with HTML escaping.
- A small **proxy server** keeps a model configuration and forwards completions to Ollama.

This project models each part in its own module and proves the rules each applies. It then
proves, in `Flow`, how the parts fit together.

| file | module | models |
|---|---|---|
| `js.dfy` | `Js` | JavaScript truthiness of optional strings, `String.prototype.trim`, `startsWith`/`endsWith`/`includes` |
| `messages.dfy` | `Messages` | the runtime message record and the stored settings record |
| `escape_html.dfy` | `HtmlEscape` | `escapeHTML` in `sidepanel.js`, its per-character form and its decoding |
| `sidepanel.dfy` | `Panel` | the prompt template, the outcome mappings, and the panel's state as class `SidePanel` |
| `content.dfy` | `Content` | `isPDF`, the selection rule, the listener registry, and the script's state as class `ContentScript` |
| `background.dfy` | `Background` | the handlers as functions from an event to the browser calls they make, and the install-time storage write in class `Extension` |
| `server.dfy` | `Proxy` | config load and merge, the `/config` update in class `ProxyServer`, and the `/health` and `/completion` replies as functions of the current config |
| `flow.dfy` | `Flow` | content script → panel, worker → panel, panel ↔ proxy |

Conventions:

- Asynchronous handlers are split at each `await` or callback. For example, `checkLlamaConnection` becomes `StartConnectionCheck` and `FinishConnectionCheck`.
- What the awaited call returned becomes a parameter: a health outcome, a completion outcome, the tags or generate outcome, or the tab's reply.
- `addEventListener` is modelled with the browser's rule that registering the same function for the same target and event twice is a no-op.
- An arrow function is a new function each time its registration runs, so each one carries a fresh number.
- An event visits the nodes of its propagation path in order, and at each node the listeners registered there run. An event on the viewer root, an element of the page, bubbles up to the document. An iframe's document is a tree of its own.

Two behaviours of the code are worth knowing:

- **Listeners pile up.** Each run of `checkForPDF` adds a new Ctrl/Meta `keyup` arrow function, and so does each `childList` mutation that finds the viewer root. The shared `handleTextSelection` is registered only once per node. After two PDF set-ups and with no viewer root attached, one Ctrl-key release on the document sends the selection twice while a mouse release sends it once (`Content.RecheckDoublesKeyupMessages`). On a page that is not a PDF, each change of address runs `checkForPDF` again and adds one more `mouseup` arrow function (`Content.ContentScript.OnDocumentMutation`, `Content.SetupListeners`).
- **Viewer events reach two nodes.** Once the viewer root has the shared `mouseup` listener, a mouse release inside the viewer runs it at the root and again when the event bubbles to the document, so the selection is sent at least twice (`Content.ViewerMouseupSendsTwice`).
- **The two selection routes differ.** A selection that arrives through `textSelected` is trimmed and must be non-empty. A selection fetched with `getSelectedText` reaches the panel untrimmed, so a whitespace-only selection is accepted there (`Flow.SelectionRoundTrip`).

## Model

| member | source | states |
|---|---|---|
| Js.TrimEmptyIff | content.js:15-18 | `s.trim()` is empty exactly when every character of `s` is ECMAScript whitespace or a line terminator |
| Js.TrimIsInnerPiece | sidepanel.js:64 | the trimmed string is a contiguous piece of the original and has no whitespace at either end |
| Js.TrimStartShape | content.js:15 | dropping leading whitespace keeps a suffix that does not start with whitespace and drops only whitespace |
| Js.TrimEndShape | content.js:15 | dropping trailing whitespace keeps a prefix that does not end with whitespace and drops only whitespace |
| Js.TrimIdempotent | content.js:15 | trimming an already trimmed string changes nothing, so the selection the content script sends is its own trim |
| HtmlEscape.EscapeHtmlIsPerCharacter | sidepanel.js:208-216 | the six chained global replaces equal the per-character map & → `&amp;`, < → `&lt;`, > → `&gt;`, " → `&quot;`, ' → `&#039;`, newline → `<br>`, with every other character unchanged |
| HtmlEscape.EscapeHtmlChar | sidepanel.js:208-216 | on a one-character string the chain gives exactly that character's entity, or the character itself |
| HtmlEscape.EscapeHtmlConcat | sidepanel.js:208-216 | escaping distributes over concatenation |
| HtmlEscape.UnescapeEscapeHtml | sidepanel.js:208-216 | decoding the five entities and `<br>` in the output recovers the input exactly |
| HtmlEscape.EscapeHtmlOutputShape | sidepanel.js:208-216 | the output holds no raw `"`, `'` or newline; every `&` in it begins one of the five entities; for input without a newline it holds no raw `<` or `>` |
| Panel.BuildPrompt | sidepanel.js:151-156 | the prompt starts with the context label and ends with the fixed instruction; the context, the question label and the query sit verbatim at fixed offsets; its length is the sum of the parts; it is never empty |
| Panel.PromptDeterminesInputs | sidepanel.js:151-156 | once the context length is fixed, the prompt determines context and query |
| Panel.PromptIsAmbiguous | sidepanel.js:151-156 | without that length the prompt is ambiguous: a context ending in the question label and more text gives the same prompt as the shorter context with that text moved into the question |
| Panel.ShownMarkup | sidepanel.js:184-187 | the markup written for a shown text is `<p>` + an inner part + `</p>`; the inner part decodes back to the text and holds no raw quote or newline |
| Panel.CompletionDisplay | sidepanel.js:171-181 | success shows the completion, or "No response from Llama" when it is empty or missing, with "Response received"; failure shows the fixed error text with "Error: " + the message; the status says "Response received" exactly on success |
| Panel.SidePanel.constructor | sidepanel.js:17-24 | empty selection, not connected, default settings, empty query, placeholders shown, submit disabled |
| Panel.SidePanel.OnQueryInput | sidepanel.js:59-61 | the submit button is disabled exactly when the trimmed query is empty, the selection is empty or there is no connection |
| Panel.SidePanel.SetSelectedText | sidepanel.js:75-80 | the selection becomes the text and is shown; the button is disabled unless the trimmed query is non-empty and the panel is connected; nothing else changes |
| Panel.SidePanel.OnRuntimeMessage | sidepanel.js:32-38 | a `setSelectedText` or `textSelected` message with a non-empty text sets and shows the selection, with query, connection, settings, status, response view, label and dot unchanged; any other message changes nothing |
| Panel.SidePanel.OnSelectedTextReply | sidepanel.js:41-45 | a reply with a non-empty `selectedText` sets and shows the selection, with query, connection, settings, status, response view, label and dot unchanged; anything else changes nothing |
| Panel.SidePanel.StartConnectionCheck | sidepanel.js:113-114 | the connection label reads "Checking connection..." and the dot is off; the rest is unchanged |
| Panel.SidePanel.FinishConnectionCheck | sidepanel.js:125-137 | an ok health response connects, with "Connected to Llama"; any other outcome disconnects, with "Disconnected", the fixed "Cannot connect…" status and a disabled button |
| Panel.SidePanel.AskLlama | sidepanel.js:140-169 | without a connection, status "Not connected to Llama" and no request; with one, status "Asking Llama...", the loading view, and a request of the prompt, `max_tokens` = the settings' context length and the settings' temperature |
| Panel.SidePanel.OnSubmitClick | sidepanel.js:63-68 | a request is made exactly when the button was enabled, that is exactly when query, selection and connection allow it; it carries the prompt of the selection and the trimmed query, shows the loading state and leaves selection, query, settings, button, selected view, label and dot unchanged; otherwise nothing changes |
| Panel.SidePanel.FinishAsk | sidepanel.js:171-181 | the response view and the status become those of `CompletionDisplay` for the outcome; every other field is unchanged |
| Panel.SidePanel.SaveSettings | sidepanel.js:98-111 | the settings become the trimmed path, the context length and the temperature; they are stored and "Settings saved" shown only when storage is available; every other field is unchanged |
| Panel.SidePanel.OnSaveClick | sidepanel.js:53-57 | save, with "Settings saved" when storage is available, then a new connection check starts; selection, query, connection, button and both views are unchanged |
| Panel.SidePanel.OnSettingsLoaded | sidepanel.js:82-96 | stored settings replace the panel's; when there are none the panel's are kept; every other field is unchanged |
| Panel.SidePanel.OnContentLoaded | sidepanel.js:27-46 | a connection check starts and a `getSelectedText` message is sent; selection, query, connection, settings, status, button and both views are unchanged |
| Content.IsPdf | content.js:49-52 | a page is a PDF exactly when its content type is `application/pdf`, its address contains `pdfjs` or ends with `.pdf`; the `file://` test adds nothing |
| Content.SelectionRule | content.js:13-25 | at most one message; one exactly when the selection is not all whitespace; it is `textSelected` with the trimmed text |
| Content.SelectionReply | content.js:2-10 | only `getSelectedText` is answered, with the selection untrimmed |
| Content.FindViewerRoot | content.js:93-97 | the root is `#viewer` if present, else `.pdfViewer`, else `#viewerContainer`; there is one exactly when some selector matched |
| Content.RegisterMembers | content.js:116 | registering adds the listener, keeps every earlier one, adds nothing else and never duplicates a registration |
| Content.RegisterAllMembers | content.js:116-141 | the same for a run of registrations |
| Content.IframeListenersExact | content.js:125-135 | an iframe document gets listeners exactly when its iframe is accessible; iframe listeners all run `handleTextSelection` |
| Content.ViewerListenersHold | content.js:89-110 | after k childList records the viewer root has the shared `mouseup` listener and k distinct `keyup` arrow functions |
| Content.PdfSetupCoverage | content.js:113-141 | after the PDF set-up the document has the shared `mouseup` and `selectionchange` listeners, earlier listeners remain, and exactly the accessible iframes are covered |
| Content.FiredCarriesTrimmedSelection | content.js:13-25 | every message any set of listeners sends for an event is `textSelected` with the trimmed, non-empty selection |
| Content.BlankSelectionSendsNothing | content.js:30-39 | an empty or whitespace-only selection sends nothing, whatever listeners are registered |
| Content.KeyupNeedsModifier | content.js:117-121 | a key release without Ctrl or Meta sends nothing, on the document and on the viewer root |
| Content.DeliveredRules | content.js:13-25 | along any propagation path every message carries the trimmed, non-empty selection, a blank selection sends nothing, and a key release without Ctrl or Meta sends nothing |
| Content.ViewerMouseupSendsTwice | content.js:101-116 | with the shared function on the viewer root and on the document, a mouse release inside the viewer sends a non-blank selection at least twice |
| Content.RecheckListeners | content.js:115-141 | a second PDF set-up re-registers the shared function as a no-op and adds two new arrow functions |
| Content.RecheckDoublesKeyupMessages | content.js:115-122 | after two PDF set-ups, and with no viewer root attached, a Ctrl-key release on the document sends the selection twice while a mouse release sends it once |
| Content.ContentScript.constructor | content.js:155 | `lastUrl` is the page address; nothing is registered or sent |
| Content.ContentScript.AddEventListener | content.js:116 | the listener is registered by the no-op-on-repeat rule; nothing else changes |
| Content.ContentScript.HandleTextSelection | content.js:13-25 | the outbox grows by the selection rule's messages and nothing else changes |
| Content.ContentScript.AddDocumentListeners | content.js:116-122 | the document gets the shared `mouseup`, a new Ctrl/Meta `keyup` arrow function and the shared `selectionchange`, one closure created |
| Content.ContentScript.AttachToIframes | content.js:125-135 | every iframe is tried in order; an inaccessible one is skipped and the loop goes on |
| Content.ContentScript.AddContextMenuListener | content.js:138-141 | the document gets one new `contextmenu` arrow function, whose run sets a timer |
| Content.ContentScript.AttachToViewer | content.js:101-106 | the viewer root gets the shared `mouseup` listener (a no-op when already there) and one new Ctrl/Meta `keyup` arrow function; nothing else changes |
| Content.ContentScript.OnMutationRecord | content.js:90-108 | a childList record advances the batch state by one record, attaching to the viewer root when the lookup finds one; any other record changes nothing |
| Content.ContentScript.OnViewerMutations | content.js:89-110 | after a batch, the listeners are the earlier ones plus, for each childList record, the shared `mouseup` and a new `keyup` arrow function on the viewer root (`AfterViewerRecords`); with no viewer root nothing is attached |
| Content.ContentScript.SetupWebsiteTextSelection | content.js:28-40 | one new `mouseup` arrow function on the document |
| Content.ContentScript.CheckForPdf | content.js:43-146 | a PDF gets a viewer observer, the document listeners, the iframe loop and the context-menu listener; another page gets the regular `mouseup` listener; nothing earlier is removed |
| Content.ContentScript.OnDocumentMutation | content.js:156-163 | `checkForPDF` runs again exactly when the address differs from the last seen, adding its listeners, closures and observer, and the address is remembered; a repeat changes nothing |
| Content.ContentScript.DispatchAt | content.js:101-141 | at one node of the path, the listeners registered there for the event run in registration order; context-menu listeners set a timer |
| Content.ContentScript.RunListener | content.js:116-141 | a shared or `mouseup` function sends by the selection rule, a `keyup` function only with Ctrl or Meta held, a `contextmenu` function sets one timer and sends nothing |
| Content.ContentScript.Dispatch | content.js:116-141 | the event visits its propagation path (the viewer root, then the document); at each node the listeners registered there run in order against the live selection; context-menu listeners set a timer |
| Content.ContentScript.FireSelectionTimer | content.js:138-141 | a pending context-menu timer runs `handleTextSelection` on the selection at that moment; the listeners, closures and observers are unchanged |
| Background.OnMenuClicked | background.js:25-38 | it acts exactly for the `askLlama` item with a non-empty selection: it opens the panel for the tab, then after 500 ms sends `setSelectedText` with the selection unchanged |
| Background.MenuClickDelivers | background.js:31-36 | the delayed message carries exactly the selection and neither replies nor messages a tab |
| Background.OnActionClicked | background.js:41-43 | a toolbar click opens the panel for the clicked tab and sends nothing |
| Background.OnMessage | background.js:46-59 | only `getSelectedText` starts a tab query and keeps the channel open |
| Background.OnActiveTabs | background.js:49-51 | the first active tab, if there is one, is asked for its selection |
| Background.OnTabReply | background.js:51-55 | the reply is passed back only when it holds a non-empty `selectedText` |
| Background.RelayReplies | background.js:46-59 | the relay answers exactly for `getSelectedText` with an active tab and a non-empty `selectedText`, and the answer is that text |
| Background.Extension.OnInstalled | background.js:2-22 | the `askLlama` item is created; the defaults are stored only when no settings exist |
| Background.InstalledSettingsRule | background.js:11-21 | after install there are always settings: the existing ones untouched, or `{"" , 2048, 0.7}`; a second install changes nothing more |
| Proxy.LoadConfig | server/llama-server.js:20-36 | the defaults `llama3.2`, 2048, 0.7, each overridden by the file's key when it has one; a missing or unparsable file leaves the defaults |
| Proxy.SavedConfigReloads | server/llama-server.js:77 | loading what `/config` wrote gives back exactly the saved configuration |
| Proxy.ParseIntOfNumber | server/llama-server.js:69 | `parseInt` of a number is its integer part, truncated toward zero |
| Proxy.ApplyUpdateFields | server/llama-server.js:61-74 | `model` changes only when truthy; `contextSize` and `temperature` only when supplied, truthy and numeric; an empty update changes nothing |
| Proxy.ApplyNumbers | server/llama-server.js:68-74 | a zero `contextSize` or `temperature` is ignored; a whole-number `contextSize` and a non-zero `temperature` are taken as they are |
| Proxy.ApplyUpdateIdempotent | server/llama-server.js:61-74 | sending the same update twice is sending it once |
| Proxy.ModelNames | server/llama-server.js:49 | the model names have the same length and order as the upstream models |
| Proxy.HealthReply | server/llama-server.js:39-58 | 200 with the configured model and the names exactly when the tags request succeeded; otherwise 503 with the fixed message and "Ollama server not responding" or the exception's message |
| Proxy.CompletionReply | server/llama-server.js:83-120 | a missing or empty prompt gives 400 "Prompt is required" and no upstream call; otherwise the upstream body has the configured model and context size, `stream` false, 512 tokens and the configured temperature unless given; 200 with the upstream `response` exactly on success, else 500 with the fixed error and the details |
| Proxy.ProxyServer.constructor | server/llama-server.js:21-36 | the configuration is the merge of defaults and file |
| Proxy.ProxyServer.PostConfig | server/llama-server.js:61-80 | the configuration becomes the update's result; the file then holds it, so a restart reloads it; the answer is 200 echoing it; the update never fails |
| Flow.ContentMessagesReachPanel | content.js:18-24 | every message the content script sends for an event, along its whole propagation path, is one the panel accepts, carrying the trimmed selection, which trimming again leaves the same |
| Flow.MenuMessageReachesPanel | background.js:31-36 | the worker's delayed message is one the panel accepts, carrying the selection unchanged |
| Flow.SelectionRoundTrip | background.js:46-59 | the panel's `getSelectedText` receives the untrimmed selection exactly when there is an active tab and the selection is not empty |
| Flow.ConnectedIffOllamaUp | sidepanel.js:125-136 | the panel counts as connected exactly when Ollama's tag list came back ok, whatever the payload |
| Flow.PanelQuestionForwarded | sidepanel.js:163-169 | the panel's question is never refused for its prompt; upstream gets the panel's prompt, temperature and context length (as the token limit) with the proxy's model and context size |
| Flow.PanelShowsOllamaAnswer | sidepanel.js:171-181 | the panel says "Response received" exactly when Ollama answered ok and then shows Ollama's `response`, or the fallback when that is empty |

## Left out

- Chrome APIs (`runtime`, `tabs`, `sidePanel`, `contextMenus`, `storage`) are foreign calls. They appear only as parameters, outbox messages and `Background.Effect` values. A missing content script surfaces as an absent tab reply.
- DOM rendering is not modelled. This covers `innerHTML`, `classList`, the PDF banner (content.js:57-86), the loading spinner, the settings toggle (sidepanel.js:49-51) and the temperature echo (sidepanel.js:70-72). Views hold the text they show; the markup is a separate lemma.
- `sidepanel.html` is not part of this model. The submit button is taken to start disabled.
- Network and HTTP are not modelled: `fetch`, Express routing, CORS, `app.listen` and the SIGINT handler (server/llama-server.js:12-18, 122-132). Upstream results are abstract outcomes.
- Console logging is left out.
- Every listener reads `window.getSelection()` of the script's own window, so `Dispatch` takes that one selection for every node. For an event from an iframe document the model therefore sends the script window's selection, as the code does, and the iframe's own selection is not modelled.
- Only bubbling is modelled. Capture listeners, `stopPropagation` and the page's own listeners are not; none are used.
- File I/O and JSON parsing are abstract. The file is a `ConfigFile`, and a parsed file field of another JSON type than the one expected is not modelled. This includes a non-integer `contextSize` in the file.
- Proxy.ConfigUpdate: a truthy non-string `model` is not modelled. The source would store it as well.
- Proxy.Supplied: `isNaN` and `parseInt`/`parseFloat` are given as the field's parse result. A value that passes `isNaN` but parses to `NaN`, such as a string of spaces, would store `NaN`. That case is not modelled.
- Proxy.ParseIntOfNumber: it truncates. Numbers that JavaScript prints in exponent form parse differently and are not modelled: magnitudes below 1e-6 or at least 1e21.
- Proxy.CompletionExchange: a body field given as JSON `null` is treated as absent. The source's defaults apply only to `undefined`, so `null` would pass through. A non-string prompt is not modelled.
- Panel.SidePanel.SaveSettings: it takes the already-parsed context length and temperature. `NaN` from unparsable inputs is not modelled.
- Temperature is an exact `real`; floating point is not modelled.
- Timing is not modelled, only ordering:
  - the 100 ms, 500 ms and 5 s delays;
  - `MutationObserver` delivery;
  - overlapping completions;
  - the unlocked rewrite of `config.json`.
- Delays appear only as pending timers (`FireSelectionTimer`) or a `Delayed` effect.
- The `window.load` listener (content.js:149-152) only calls `checkForPDF`, which is `Content.ContentScript.CheckForPdf`. The viewer observer is counted, and its deliveries are passed to `OnViewerMutations`.
- Background.Extension.OnInstalled: the error Chrome raises for a duplicate menu id on a later install is not modelled. The asynchronous storage read is taken as atomic with the write.
- Panel.SidePanel.SetSelectedText: it keeps the gating invariant only for non-empty text, because line 79 of sidepanel.js omits the selection test. Every caller passes non-empty text.
