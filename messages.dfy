/** The records the extension's scripts exchange and store. */
module Messages {
  import opened Js

  /** A `chrome.runtime` message: an action name and an optional `text` field. */
  datatype Message = Message(action: string, text: Option<string>)

  const TextSelectedAction := "textSelected"
  const SetSelectedTextAction := "setSelectedText"
  const GetSelectedTextAction := "getSelectedText"

  /** The message a content script sends for a captured selection. */
  function TextSelected(text: string): Message
  {
    Message(TextSelectedAction, Some(text))
  }

  /**
   * The `llamaSettings` record kept in `chrome.storage.local`. The temperature is kept
   * as an exact value: no floating-point behaviour of it is modelled.
   */
  datatype Settings = Settings(llamaPath: string, contextLength: int, temperature: real)

  /** The defaults written on install and held by a freshly opened panel. */
  const DefaultSettings := Settings("", 2048, 0.7)
}
