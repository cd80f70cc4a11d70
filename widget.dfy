/** The floating widget (src/components/ChatbotWidget.jsx): whether the
    chat window is open, whether the close-confirmation dialog is shown,
    and the handlers that move between these states. The window's open
    flag is persisted whenever it changes, through the chat controller's
    storage. */
module Widget {
  import opened Session
  import opened Chat

  /** After confirmClose, a reload finds the window closed, only the
      welcome message, and the same session id. */
  lemma ReloadAfterClose(items: map<string, string>, now: nat, wasOpen: bool, fallback: seq<Message>)
    ensures var written := (items - {MessagesKey, IsOpenKey})[MessagesKey := Encode([Welcome(now)])];
      var stored := if wasOpen then written[IsOpenKey := BoolText(false)] else written;
      StoredMessages(stored, true, fallback) == [Welcome(now)] && !StoredIsOpen(stored, true)
      && StoredSessionId(stored) == StoredSessionId(items)
  {
    KeysDistinct();
    var written := (items - {MessagesKey, IsOpenKey})[MessagesKey := Encode([Welcome(now)])];
    SaveLoadMessages(items - {MessagesKey, IsOpenKey}, [Welcome(now)], fallback);
    SaveLoadIsOpen(written, false);
    DecodeEncode([Welcome(now)]);
  }

  class ChatWidget {
    const chat: Chatbot
    var isOpen: bool
    var showCloseConfirm: bool

    /** The dialog is only ever shown over an open window. */
    predicate Valid()
      reads this
    {
      showCloseConfirm ==> isOpen
    }

    /** isOpen starts from the stored flag, and the persisting effect
        writes it back once on mount. */
    constructor (c: Chatbot)
      modifies c.storage
      ensures chat == c && Valid()
      ensures isOpen == StoredIsOpen(old(c.storage.items), old(c.storage.available)) && !showCloseConfirm
      ensures c.storage.available == old(c.storage.available)
      ensures c.storage.items == if c.storage.available then old(c.storage.items)[IsOpenKey := BoolText(isOpen)] else old(c.storage.items)
    {
      var open := c.storage.LoadIsOpen();
      chat := c;
      isOpen := open;
      showCloseConfirm := false;
      new;
      c.storage.SaveIsOpen(open);
    }

    /** A change of isOpen, and the effect that persists it. */
    method SetOpen(b: bool)
      modifies this, chat.storage
      ensures isOpen == b && showCloseConfirm == old(showCloseConfirm)
      ensures chat.storage.available == old(chat.storage.available)
      ensures chat.storage.items ==
        if old(isOpen) != b && chat.storage.available then old(chat.storage.items)[IsOpenKey := BoolText(b)]
        else old(chat.storage.items)
    {
      if isOpen != b {
        isOpen := b;
        chat.storage.SaveIsOpen(b);
      }
    }

    /** handleCloseClick: an open window asks for confirmation and stays
        open; a closed one opens without the dialog. */
    method HandleCloseClick()
      requires Valid()
      modifies this, chat.storage
      ensures Valid()
      ensures old(isOpen) ==> isOpen && showCloseConfirm && chat.storage.items == old(chat.storage.items)
      ensures !old(isOpen) ==>
        (isOpen && showCloseConfirm == old(showCloseConfirm)
         && chat.storage.items == if chat.storage.available then old(chat.storage.items)[IsOpenKey := BoolText(true)] else old(chat.storage.items))
      ensures chat.storage.available == old(chat.storage.available)
    {
      if isOpen {
        showCloseConfirm := true;
      } else {
        SetOpen(true);
      }
    }

    /** toggleChatbot, the icon's handler, behaves as handleCloseClick. */
    method ToggleChatbot()
      requires Valid()
      modifies this, chat.storage
      ensures Valid()
      ensures old(isOpen) ==> isOpen && showCloseConfirm && chat.storage.items == old(chat.storage.items)
      ensures !old(isOpen) ==>
        (isOpen && showCloseConfirm == old(showCloseConfirm)
         && chat.storage.items == if chat.storage.available then old(chat.storage.items)[IsOpenKey := BoolText(true)] else old(chat.storage.items))
      ensures chat.storage.available == old(chat.storage.available)
    {
      HandleCloseClick();
    }

    /** confirmClose: hide the dialog, close the window, clear the session
        and reset the conversation. Afterwards the effects write the
        closed flag and the one welcome message back. */
    method ConfirmClose(now: nat)
      requires Valid()
      modifies this, chat, chat.storage
      ensures Valid()
      ensures !isOpen && !showCloseConfirm
      ensures chat.messages == [Welcome(now)]
      ensures chat.inputMessage == old(chat.inputMessage) && chat.isTyping == old(chat.isTyping)
      ensures chat.dynamicKnowledge == old(chat.dynamicKnowledge)
      ensures chat.storage.available == old(chat.storage.available)
      ensures var cleared := old(chat.storage.items) - {MessagesKey, IsOpenKey};
        var written := cleared[MessagesKey := Encode([Welcome(now)])];
        chat.storage.items ==
          if !chat.storage.available then old(chat.storage.items)
          else if old(isOpen) then written[IsOpenKey := BoolText(false)]
          else written
    {
      showCloseConfirm := false;
      chat.storage.ClearSession();
      chat.ResetConversation(now);
      SetOpen(false);
    }

    /** cancelClose: only the dialog is hidden. */
    method CancelClose()
      requires Valid()
      modifies this
      ensures Valid()
      ensures !showCloseConfirm && isOpen == old(isOpen)
    {
      showCloseConfirm := false;
    }

    /** The keydown listener, registered only while the dialog is shown:
        Escape hides the dialog, other keys do nothing. */
    method KeyDown(key: string)
      requires Valid()
      modifies this
      ensures Valid()
      ensures isOpen == old(isOpen)
      ensures showCloseConfirm == (old(showCloseConfirm) && key != "Escape")
    {
      if showCloseConfirm && key == "Escape" {
        showCloseConfirm := false;
      }
    }
  }
}
