/**
  * The conversation view (Sources/parallax/Views/MessageThreadView.swift):
  * the header's name, the text of a message bubble and the rule that
  * disables the send button.
  */
module MessageThreadView {
  import opened Wrappers
  import opened Strings
  import opened Contacts
  import opened ChatsView

  /**
    * `ChatHeaderView.displayName`: the same fallback chain as the chat list,
    * so a conversation's header always shows the name its row shows.
    */
  function HeaderDisplayName(chat: Chat, resolved: Option<Contact>): (r: string)
    ensures r == RowDisplayName(chat, resolved)
  {
    if chat.name.Some? && chat.name.value != [] && chat.name.value != chat.identifier then
      chat.name.value
    else if resolved.Some? then
      Join(NonEmptyParts([resolved.value.givenName, resolved.value.familyName]), " ")
    else
      chat.identifier
  }

  const AttachmentLabel: string := "Attachment"

  /** `MessageBubbleView`: a message without text is shown as "Attachment". */
  function BubbleText(text: Option<string>): (r: string)
    ensures text.None? ==> r == AttachmentLabel
    ensures text.Some? ==> r == text.value
  {
    match text
    case Some(t) => t
    case None => AttachmentLabel
  }

  /**
    * `ComposeMessageView`: the send button is disabled when the text,
    * trimmed of whitespace and newlines, is empty, that is, when every
    * character of it is whitespace or a newline.
    */
  function SendDisabled(text: string): (disabled: bool)
    ensures disabled <==> AllWhitespace(text)
  {
    TrimmedEmptyIffAllWhitespace(text);
    Trimmed(text) == []
  }
}
