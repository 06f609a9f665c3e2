/**
 * The background service worker: it installs the context-menu item and default settings,
 * opens the side panel, and relays `getSelectedText` from the panel to the active tab.
 * Each handler is modelled by the browser calls it makes, in order.
 */
module Background {
  import opened Js
  import opened Messages

  const AskLlamaMenuId := "askLlama"
  const AskLlamaMenuTitle := "Ask Llama about this text"
  /** The delay before `setSelectedText` is sent, meant to let the panel load. */
  const SelectionDelayMs := 500

  /** A context-menu item shown for the given contexts. */
  datatype MenuItem = MenuItem(id: string, title: string, contexts: seq<string>)

  const AskLlamaMenu := MenuItem(AskLlamaMenuId, AskLlamaMenuTitle, ["selection"])

  /** A browser call a handler makes. */
  datatype Effect =
    | OpenSidePanel(tabId: int)
    | Delayed(delayMs: nat, message: Message)
    | QueryActiveTab
    | SendTabMessage(tabId: int, tabMessage: Message)
    | SendResponse(selectedText: string)

  /** The `info` a context-menu click carries. */
  datatype MenuClick = MenuClick(menuItemId: string, selectionText: Option<string>)

  /** The reply of the tab's content script, when there is one: an object with an optional `selectedText`. */
  datatype TabReply = TabReply(selectedText: Option<string>)

  /**
   * The context-menu click: for the `askLlama` item with a non-empty selection the panel is
   * opened for the tab, and 500 ms later `setSelectedText` carries the selection unchanged.
   */
  function OnMenuClicked(info: MenuClick, tabId: int): (effects: seq<Effect>)
    ensures effects != [] <==> info.menuItemId == AskLlamaMenuId && Truthy(info.selectionText)
    ensures effects != [] ==>
      effects == [OpenSidePanel(tabId),
                  Delayed(SelectionDelayMs, Message(SetSelectedTextAction, info.selectionText))]
  {
    if info.menuItemId == AskLlamaMenuId && Truthy(info.selectionText) then
      [OpenSidePanel(tabId), Delayed(SelectionDelayMs, Message(SetSelectedTextAction, info.selectionText))]
    else
      []
  }

  /** The message the delayed send delivers is one the panel accepts, holding exactly the selection. */
  lemma MenuClickDelivers(info: MenuClick, tabId: int)
    requires OnMenuClicked(info, tabId) != []
    ensures var m := OnMenuClicked(info, tabId)[1].message;
      m.action == SetSelectedTextAction && m.text == info.selectionText && Truthy(m.text)
    ensures forall e :: e in OnMenuClicked(info, tabId) ==> !e.SendResponse? && !e.SendTabMessage?
  {
  }

  /** The toolbar click opens the panel for the clicked tab and sends nothing. */
  function OnActionClicked(tabId: int): (effects: seq<Effect>)
    ensures |effects| == 1 && effects[0] == OpenSidePanel(tabId)
  {
    [OpenSidePanel(tabId)]
  }

  /**
   * A runtime message: `getSelectedText` starts a query for the active tab and keeps the
   * channel open (`keepOpen`); any other action does nothing.
   */
  function OnMessage(message: Message): (r: (seq<Effect>, bool))
    ensures r.1 <==> message.action == GetSelectedTextAction
    ensures r.0 == (if r.1 then [QueryActiveTab] else [])
  {
    if message.action == GetSelectedTextAction then ([QueryActiveTab], true) else ([], false)
  }

  /** The tab query's callback: the first active tab, if any, is asked for its selection. */
  function OnActiveTabs(tabs: seq<int>): (effects: seq<Effect>)
    ensures effects == [] <==> tabs == []
    ensures tabs != [] ==> effects == [SendTabMessage(tabs[0], Message(GetSelectedTextAction, None))]
  {
    if |tabs| > 0 then [SendTabMessage(tabs[0], Message(GetSelectedTextAction, None))] else []
  }

  /** The tab's reply: passed back to the panel only when it holds a non-empty `selectedText`. */
  function OnTabReply(response: Option<TabReply>): (effects: seq<Effect>)
    ensures effects != [] <==> response.Some? && Truthy(response.value.selectedText)
    ensures effects != [] ==> effects == [SendResponse(response.value.selectedText.value)]
  {
    if response.Some? && Truthy(response.value.selectedText) then
      [SendResponse(response.value.selectedText.value)]
    else
      []
  }

  /** The whole relay for one message: what the sender receives, given the active tabs and the tab's reply. */
  function Relay(message: Message, tabs: seq<int>, response: Option<TabReply>): Option<string>
  {
    if !OnMessage(message).1 then None
    else if OnActiveTabs(tabs) == [] then None
    else
      var e := OnTabReply(response);
      if e == [] then None else Some(e[0].selectedText)
  }

  /**
   * The relay replies exactly when the action is `getSelectedText`, there is an active tab and
   * its content script returned a non-empty `selectedText`; the reply is that text unchanged.
   */
  lemma RelayReplies(message: Message, tabs: seq<int>, response: Option<TabReply>)
    ensures Relay(message, tabs, response).Some?
            <==> message.action == GetSelectedTextAction && tabs != []
                 && response.Some? && Truthy(response.value.selectedText)
    ensures Relay(message, tabs, response).Some? ==>
      Relay(message, tabs, response).value == response.value.selectedText.value
  {
  }

  /** The part of `chrome.storage.local` and of the context menus the worker touches. */
  class Extension {
    /** The `llamaSettings` entry, when present. */
    var storedSettings: Option<Settings>
    /** The context-menu items created, in order. */
    var menuItems: seq<MenuItem>

    constructor (stored: Option<Settings>)
      ensures storedSettings == stored && menuItems == []
    {
      storedSettings := stored;
      menuItems := [];
    }

    /**
     * `onInstalled`: the `askLlama` item is created; the defaults are stored only when no
     * `llamaSettings` entry exists, so existing settings are left untouched.
     */
    method OnInstalled()
      modifies this
      ensures menuItems == old(menuItems) + [AskLlamaMenu]
      ensures storedSettings == InstalledSettings(old(storedSettings))
    {
      menuItems := menuItems + [AskLlamaMenu];
      if storedSettings.None? {
        storedSettings := Some(DefaultSettings);
      }
    }
  }

  /** The `llamaSettings` entry after the install handler's conditional write. */
  function InstalledSettings(stored: Option<Settings>): Option<Settings>
  {
    if stored.None? then Some(DefaultSettings) else stored
  }

  /** After install there are always settings: the stored ones if any, else the defaults; a second install changes nothing more. */
  lemma InstalledSettingsRule(stored: Option<Settings>)
    ensures InstalledSettings(stored).Some?
    ensures stored.Some? ==> InstalledSettings(stored) == stored
    ensures stored.None? ==> InstalledSettings(stored) == Some(Settings("", 2048, 0.7))
    ensures InstalledSettings(InstalledSettings(stored)) == InstalledSettings(stored)
  {
  }
}
