/**
 * The side panel: the prompt template, how request outcomes map to what the panel shows,
 * and the panel's mutable state with the submit-button gating invariant.
 */
module Panel {
  import opened Js
  import opened Messages
  import HtmlEscape

  const ContextLabel := "\nContext: "
  const QuestionLabel := "\n\nQuestion: "
  const Instruction := "\n\nPlease provide a helpful answer based on the context above:"

  /**
   * The prompt `askLlama` sends. The context follows its label, the question follows its
   * label, and the instruction line closes the prompt; the prompt is never empty.
   */
  function BuildPrompt(context: string, query: string): (p: string)
    ensures |p| == |ContextLabel| + |context| + |QuestionLabel| + |query| + |Instruction|
    ensures StartsWith(p, ContextLabel) && EndsWith(p, Instruction)
    ensures OccursAt(p, context, |ContextLabel|)
    ensures OccursAt(p, QuestionLabel, |ContextLabel| + |context|)
    ensures OccursAt(p, query, |ContextLabel| + |context| + |QuestionLabel|)
    ensures p != ""
  {
    ContextLabel + context + QuestionLabel + query + Instruction
  }

  /** Knowing the length of the context, the prompt gives back both the context and the question. */
  lemma PromptDeterminesInputs(c1: string, q1: string, c2: string, q2: string)
    requires BuildPrompt(c1, q1) == BuildPrompt(c2, q2) && |c1| == |c2|
    ensures c1 == c2 && q1 == q2
  {
    var p := BuildPrompt(c1, q1);
    var k := |ContextLabel|;
    assert c1 == p[k..k + |c1|] == c2;
    var j := k + |c1| + |QuestionLabel|;
    assert |q1| == |q2|;
    assert q1 == p[j..j + |q1|] == q2;
  }

  /**
   * Without that length the prompt is ambiguous: a context ending in the question label and
   * some text reads the same as the shorter context with that text moved into the question.
   */
  lemma PromptIsAmbiguous(c: string, q1: string, q2: string)
    ensures c + QuestionLabel + q1 != c
    ensures BuildPrompt(c + QuestionLabel + q1, q2) == BuildPrompt(c, q1 + QuestionLabel + q2)
  {
    assert |c + QuestionLabel + q1| > |c|;
    var x := c + QuestionLabel + q1;
    var y := q1 + QuestionLabel + q2;
    calc {
      BuildPrompt(x, q2);
      ContextLabel + x + QuestionLabel + q2 + Instruction;
      ContextLabel + (c + (QuestionLabel + y)) + Instruction;
      ContextLabel + c + QuestionLabel + y + Instruction;
      BuildPrompt(c, y);
    }
  }

  /** The submit rule: a non-blank query, a captured selection and a live connection. */
  predicate SubmitAllowed(query: string, selectedText: string, connected: bool)
  {
    Trim(query) != "" && selectedText != "" && connected
  }

  /** A runtime message the panel takes as a new selection. */
  predicate AcceptsSelection(message: Message)
  {
    (message.action == SetSelectedTextAction || message.action == TextSelectedAction) && Truthy(message.text)
  }

  const CheckingLabel := "Checking connection..."
  const ConnectedLabel := "Connected to Llama"
  const DisconnectedLabel := "Disconnected"
  const CannotConnectStatus := "Cannot connect to Llama. Make sure the local server is running."
  const NotConnectedStatus := "Not connected to Llama"
  const AskingStatus := "Asking Llama..."
  const ReceivedStatus := "Response received"
  const NoResponseText := "No response from Llama"
  const NotOkMessage := "Failed to get response from Llama"
  const CompletionErrorText := "Error: Could not get a response from Llama. Please check your connection and settings."
  const SettingsSavedStatus := "Settings saved"

  /** How the panel's `GET /health` settles: a response with `ok`, one without, or a thrown error. */
  datatype HealthResponse = HealthOk | HealthNotOk | HealthFailed

  /**
   * How the panel's `POST /completion` settles: an `ok` response whose JSON has an optional
   * `completion` field, a response without `ok`, or an error thrown with a message.
   */
  datatype CompletionResponse =
    | CompletionOk(completion: Option<string>)
    | CompletionNotOk
    | CompletionFailed(message: string)

  /** The JSON body the panel posts to `/completion`. */
  datatype CompletionRequest = CompletionRequest(prompt: string, maxTokens: int, temperature: real)

  /** What a panel area shows: its placeholder, the loading animation, or a text. */
  datatype View = Placeholder | Loading | Shown(text: string)

  /** What the response area and the status line show once a completion settles. */
  datatype Display = Display(text: string, status: string)

  /** The markup `displayResponse` and `setSelectedText` write for a text. */
  function Paragraph(text: string): string
  {
    "<p>" + HtmlEscape.EscapeHtml(text) + "</p>"
  }

  /**
   * The markup the panel writes for a shown text. Its inner part is `escapeHTML` of the text,
   * which `Unescape` decodes back to exactly that text and which holds no raw quote or newline.
   */
  lemma ShownMarkup(text: string)
    ensures exists inner :: (Paragraph(text) == "<p>" + inner + "</p>" && HtmlEscape.Unescape(inner) == text
                             && '"' !in inner && '\'' !in inner && '\n' !in inner)
  {
    var inner := HtmlEscape.EscapeHtml(text);
    HtmlEscape.UnescapeEscapeHtml(text);
    HtmlEscape.EscapeHtmlOutputShape(text);
    assert Paragraph(text) == "<p>" + inner + "</p>";
  }

  /** The message of the error caught by `askLlama`. */
  function ErrorMessage(r: CompletionResponse): string
    requires !r.CompletionOk?
  {
    if r.CompletionNotOk? then NotOkMessage else r.message
  }

  /**
   * A success shows the completion, or the fixed fallback when it is empty or missing, and
   * says "Response received"; a failure shows the fixed error text and "Error: " with the
   * message. The status line tells the two apart.
   */
  function CompletionDisplay(r: CompletionResponse): (d: Display)
    ensures r.CompletionOk? && Truthy(r.completion) ==> d.text == r.completion.value
    ensures r.CompletionOk? && !Truthy(r.completion) ==> d.text == NoResponseText
    ensures !r.CompletionOk? ==> d.text == CompletionErrorText && d.status == "Error: " + ErrorMessage(r)
    ensures d.status == ReceivedStatus <==> r.CompletionOk?
  {
    if r.CompletionOk? then
      Display(if Truthy(r.completion) then r.completion.value else NoResponseText, ReceivedStatus)
    else
      var d := Display(CompletionErrorText, "Error: " + ErrorMessage(r));
      assert d.status[0] != ReceivedStatus[0];
      d
  }

  class SidePanel {
    var selectedText: string
    var isConnected: bool
    var settings: Settings
    /** The current value of the query input. */
    var query: string
    var submitDisabled: bool
    var status: string
    var connectionLabel: string
    var dotConnected: bool
    var selectedView: View
    var responseView: View

    /** The submit button is enabled exactly when the submit rule holds. */
    predicate Valid()
      reads this
    {
      submitDisabled == !SubmitAllowed(query, selectedText, isConnected)
    }

    /** A freshly loaded panel; the button starts disabled, as nothing is selected yet. */
    constructor ()
      ensures Valid()
      ensures selectedText == "" && !isConnected && settings == DefaultSettings && query == ""
      ensures submitDisabled && selectedView == Placeholder && responseView == Placeholder
    {
      selectedText := "";
      isConnected := false;
      settings := DefaultSettings;
      query := "";
      submitDisabled := true;
      status := "";
      connectionLabel := "";
      dotConnected := false;
      selectedView := Placeholder;
      responseView := Placeholder;
    }

    /** The query input's `input` handler. */
    method OnQueryInput(value: string)
      modifies this
      ensures Valid()
      ensures query == value && submitDisabled == !SubmitAllowed(value, selectedText, isConnected)
      ensures selectedText == old(selectedText) && isConnected == old(isConnected)
      ensures settings == old(settings) && status == old(status)
      ensures selectedView == old(selectedView) && responseView == old(responseView)
      ensures connectionLabel == old(connectionLabel) && dotConnected == old(dotConnected)
    {
      query := value;
      submitDisabled := Trim(query) == "" || selectedText == "" || !isConnected;
    }

    /**
     * `setSelectedText`: the last call wins. The button is recomputed without looking at the
     * text, so the gating invariant is kept exactly when the text is non-empty.
     */
    method SetSelectedText(text: string)
      modifies this
      ensures selectedText == text && selectedView == Shown(text)
      ensures submitDisabled == !(Trim(query) != "" && isConnected)
      ensures text != "" ==> Valid()
      ensures query == old(query) && isConnected == old(isConnected)
      ensures settings == old(settings) && status == old(status) && responseView == old(responseView)
      ensures connectionLabel == old(connectionLabel) && dotConnected == old(dotConnected)
    {
      selectedText := text;
      selectedView := Shown(text);
      submitDisabled := Trim(query) == "" || !isConnected;
    }

    /** The panel's runtime message listener: `setSelectedText` and `textSelected` with a non-empty text. */
    method OnRuntimeMessage(message: Message)
      requires Valid()
      modifies this
      ensures Valid()
      ensures AcceptsSelection(message) ==>
        selectedText == message.text.value && selectedView == Shown(message.text.value)
      ensures !AcceptsSelection(message) ==> unchanged(this)
      ensures query == old(query) && isConnected == old(isConnected)
      ensures settings == old(settings) && status == old(status) && responseView == old(responseView)
      ensures connectionLabel == old(connectionLabel) && dotConnected == old(dotConnected)
    {
      if AcceptsSelection(message) {
        SetSelectedText(message.text.value);
      }
    }

    /** The reply to the panel's own `getSelectedText` request: its `selectedText` field, when there is one. */
    method OnSelectedTextReply(replyText: Option<string>)
      requires Valid()
      modifies this
      ensures Valid()
      ensures Truthy(replyText) ==> selectedText == replyText.value && selectedView == Shown(replyText.value)
      ensures !Truthy(replyText) ==> unchanged(this)
      ensures query == old(query) && isConnected == old(isConnected) && settings == old(settings)
      ensures status == old(status) && responseView == old(responseView)
      ensures connectionLabel == old(connectionLabel) && dotConnected == old(dotConnected)
    {
      if Truthy(replyText) {
        SetSelectedText(replyText.value);
      }
    }

    /** The part of `checkLlamaConnection` before the request: the indicator says it is checking. */
    method StartConnectionCheck()
      requires Valid()
      modifies this
      ensures Valid()
      ensures connectionLabel == CheckingLabel && !dotConnected
      ensures isConnected == old(isConnected) && submitDisabled == old(submitDisabled)
      ensures selectedText == old(selectedText) && query == old(query) && settings == old(settings)
      ensures status == old(status) && selectedView == old(selectedView) && responseView == old(responseView)
    {
      connectionLabel, dotConnected := CheckingLabel, false;
    }

    /**
     * The part of `checkLlamaConnection` after the request settles. Only `ok` counts as a
     * connection; any other outcome disconnects, disables the button and sets the advisory status.
     */
    method FinishConnectionCheck(response: HealthResponse)
      modifies this
      ensures Valid()
      ensures isConnected == response.HealthOk? && dotConnected == isConnected
      ensures connectionLabel == if response.HealthOk? then ConnectedLabel else DisconnectedLabel
      ensures status == if response.HealthOk? then old(status) else CannotConnectStatus
      ensures !response.HealthOk? ==> submitDisabled
      ensures selectedText == old(selectedText) && query == old(query) && settings == old(settings)
      ensures selectedView == old(selectedView) && responseView == old(responseView)
    {
      if response.HealthOk? {
        connectionLabel, dotConnected := ConnectedLabel, true;
        isConnected := true;
        submitDisabled := Trim(query) == "" || selectedText == "";
      } else {
        connectionLabel, dotConnected := DisconnectedLabel, false;
        isConnected := false;
        submitDisabled := true;
        status := CannotConnectStatus;
      }
    }

    /**
     * `askLlama` up to the request: refuses when disconnected, otherwise shows the loading
     * state and returns the body it posts.
     */
    method AskLlama(userQuery: string, context: string) returns (request: Option<CompletionRequest>)
      requires Valid()
      modifies this
      ensures Valid()
      ensures request.Some? <==> isConnected
      ensures !isConnected ==> status == NotConnectedStatus && responseView == old(responseView)
      ensures isConnected ==> status == AskingStatus && responseView == Loading
      ensures isConnected ==>
        request == Some(CompletionRequest(BuildPrompt(context, userQuery), settings.contextLength, settings.temperature))
      ensures selectedText == old(selectedText) && query == old(query) && settings == old(settings)
      ensures isConnected == old(isConnected) && submitDisabled == old(submitDisabled)
      ensures selectedView == old(selectedView) && connectionLabel == old(connectionLabel) && dotConnected == old(dotConnected)
    {
      if !isConnected {
        status := NotConnectedStatus;
        return None;
      }
      status := AskingStatus;
      responseView := Loading;
      var prompt := BuildPrompt(context, userQuery);
      request := Some(CompletionRequest(prompt, settings.contextLength, settings.temperature));
    }

    /**
     * The submit button's `click` handler. It asks only under the submit rule, which under
     * the gating invariant is exactly when the button is enabled; then it asks with the trimmed query.
     */
    method OnSubmitClick() returns (request: Option<CompletionRequest>)
      requires Valid()
      modifies this
      ensures Valid()
      ensures request.Some? <==> !old(submitDisabled)
      ensures request.Some? <==> old(SubmitAllowed(query, selectedText, isConnected))
      ensures request.Some? ==>
        request.value == CompletionRequest(BuildPrompt(selectedText, Trim(query)), settings.contextLength, settings.temperature)
        && status == AskingStatus && responseView == Loading
      ensures request.None? ==> unchanged(this)
      ensures selectedText == old(selectedText) && query == old(query) && settings == old(settings)
      ensures isConnected == old(isConnected) && submitDisabled == old(submitDisabled)
      ensures selectedView == old(selectedView) && connectionLabel == old(connectionLabel) && dotConnected == old(dotConnected)
    {
      var trimmed := Trim(query);
      if trimmed == "" || selectedText == "" || !isConnected {
        return None;
      }
      request := AskLlama(trimmed, selectedText);
    }

    /** The part of `askLlama` after the request settles. */
    method FinishAsk(response: CompletionResponse)
      requires Valid()
      modifies this
      ensures Valid()
      ensures responseView == Shown(CompletionDisplay(response).text)
      ensures status == CompletionDisplay(response).status
      ensures selectedText == old(selectedText) && query == old(query) && settings == old(settings)
      ensures isConnected == old(isConnected) && submitDisabled == old(submitDisabled)
      ensures selectedView == old(selectedView) && connectionLabel == old(connectionLabel) && dotConnected == old(dotConnected)
    {
      var d := CompletionDisplay(response);
      responseView := Shown(d.text);
      status := d.status;
    }

    /**
     * `saveSettings`: the record is built from the inputs (the path trimmed; the numbers as
     * parsed by the caller) and is written to storage when the storage API is there.
     */
    method SaveSettings(pathInput: string, contextLength: int, temperature: real, storageAvailable: bool)
      returns (stored: Option<Settings>)
      requires Valid()
      modifies this
      ensures Valid()
      ensures settings == Settings(Trim(pathInput), contextLength, temperature)
      ensures stored == if storageAvailable then Some(settings) else None
      ensures status == if storageAvailable then SettingsSavedStatus else old(status)
      ensures selectedText == old(selectedText) && query == old(query) && isConnected == old(isConnected)
      ensures submitDisabled == old(submitDisabled) && responseView == old(responseView)
      ensures selectedView == old(selectedView) && connectionLabel == old(connectionLabel) && dotConnected == old(dotConnected)
    {
      settings := Settings(Trim(pathInput), contextLength, temperature);
      if storageAvailable {
        stored := Some(settings);
        status := SettingsSavedStatus;
      } else {
        stored := None;
      }
    }

    /** The save button: save the settings, then check the connection again. */
    method OnSaveClick(pathInput: string, contextLength: int, temperature: real, storageAvailable: bool)
      returns (stored: Option<Settings>)
      requires Valid()
      modifies this
      ensures Valid()
      ensures settings == Settings(Trim(pathInput), contextLength, temperature)
      ensures stored == if storageAvailable then Some(settings) else None
      ensures status == if storageAvailable then SettingsSavedStatus else old(status)
      ensures connectionLabel == CheckingLabel && !dotConnected
      ensures isConnected == old(isConnected) && submitDisabled == old(submitDisabled)
      ensures selectedText == old(selectedText) && query == old(query)
      ensures selectedView == old(selectedView) && responseView == old(responseView)
    {
      stored := SaveSettings(pathInput, contextLength, temperature, storageAvailable);
      StartConnectionCheck();
    }

    /** The `chrome.storage` callback of `loadSettings`: a stored record replaces the settings. */
    method OnSettingsLoaded(stored: Option<Settings>)
      requires Valid()
      modifies this
      ensures Valid()
      ensures settings == if stored.Some? then stored.value else old(settings)
      ensures selectedText == old(selectedText) && query == old(query) && isConnected == old(isConnected)
      ensures submitDisabled == old(submitDisabled) && status == old(status)
      ensures selectedView == old(selectedView) && responseView == old(responseView)
      ensures connectionLabel == old(connectionLabel) && dotConnected == old(dotConnected)
    {
      if stored.Some? {
        settings := stored.value;
      }
    }

    /**
     * `DOMContentLoaded`: the connection check starts, and the panel asks the background for
     * the page's selection (the message returned).
     */
    method OnContentLoaded() returns (request: Message)
      requires Valid()
      modifies this
      ensures Valid()
      ensures request == Message(GetSelectedTextAction, None)
      ensures connectionLabel == CheckingLabel && !dotConnected
      ensures selectedText == old(selectedText) && isConnected == old(isConnected)
      ensures query == old(query) && settings == old(settings) && status == old(status)
      ensures submitDisabled == old(submitDisabled)
      ensures selectedView == old(selectedView) && responseView == old(responseView)
    {
      StartConnectionCheck();
      request := Message(GetSelectedTextAction, None);
    }
  }
}
