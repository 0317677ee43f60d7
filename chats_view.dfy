/**
  * The chat list (Sources/parallax/Views/ChatsView.swift): the name shown
  * for a conversation row and the choice between a contact's photo and the
  * placeholder avatar.
  *
  * Both views ask the contact store to resolve a handle; here the answer of
  * `ContactStore.ContactFor` is passed in as `resolved`.
  */
module ChatsView {
  import opened Wrappers
  import opened Strings
  import opened Contacts

  /** The fields of a conversation that the views read. */
  datatype Chat = Chat(identifier: string, name: Option<string>)

  /**
    * A contact's display name: the non-empty ones of given and family name,
    * joined by a single space.
    */
  function ContactName(c: Contact): (r: string)
    ensures c.givenName == [] ==> r == c.familyName
    ensures c.familyName == [] ==> r == c.givenName
    ensures c.givenName != [] && c.familyName != [] ==> r == c.givenName + " " + c.familyName
  {
    JoinTwoNonEmpty(c.givenName, c.familyName, " ");
    Join(NonEmptyParts([c.givenName, c.familyName]), " ")
  }

  /** A contact name is empty exactly when both name parts are. */
  lemma ContactNameEmpty(c: Contact)
    ensures ContactName(c) == [] <==> c.givenName == [] && c.familyName == []
  {
  }

  /** The saved chat name is used only when present, non-empty and not just the identifier again. */
  predicate HasSavedName(chat: Chat): (saved: bool)
    ensures chat.name.None? ==> !saved
    ensures chat.name == Some([]) ==> !saved
    ensures chat.name == Some(chat.identifier) ==> !saved
  {
    chat.name.Some? && chat.name.value != [] && chat.name.value != chat.identifier
  }

  /**
    * `ChatRowView.displayName`: the saved chat name, else the resolved
    * contact's name, else the raw identifier.
    */
  function RowDisplayName(chat: Chat, resolved: Option<Contact>): (r: string)
    ensures HasSavedName(chat) ==> r == chat.name.value
    ensures !HasSavedName(chat) && resolved.Some? ==> r == ContactName(resolved.value)
    ensures !HasSavedName(chat) && resolved.None? ==> r == chat.identifier
  {
    if chat.name.Some? && chat.name.value != [] && chat.name.value != chat.identifier then
      chat.name.value
    else if resolved.Some? then
      ContactName(resolved.value)
    else
      chat.identifier
  }

  /**
    * A row is blank exactly when no saved name applies and either the
    * resolved contact has no name at all or, unresolved, the identifier is
    * empty: a nameless contact is not replaced by the identifier.
    */
  lemma RowDisplayNameBlank(chat: Chat, resolved: Option<Contact>)
    ensures RowDisplayName(chat, resolved) == [] <==>
      !HasSavedName(chat) &&
      (if resolved.Some? then resolved.value.givenName == [] && resolved.value.familyName == []
       else chat.identifier == [])
  {
    if resolved.Some? {
      ContactNameEmpty(resolved.value);
    }
  }

  /** A row whose identifier the store cannot resolve and which has no usable saved name shows the identifier. */
  lemma UnresolvedRowShowsIdentifier(m: map<string, Contact>, chat: Chat, r: Option<Contact>)
    requires Resolves(m, chat.identifier, r)
    requires !HasSavedName(chat)
    requires !('@' in chat.identifier && Lower(chat.identifier) in m)
    requires Digits(chat.identifier) == []
    ensures RowDisplayName(chat, r) == chat.identifier
  {
    NoDigitsNoEmailIsUnresolved(m, chat.identifier, r);
  }

  /** What the avatar view draws. */
  datatype Avatar = Photo(imageData: Bytes) | Placeholder

  /**
    * `ContactAvatarView`: the resolved contact's thumbnail when there is one
    * and it decodes as an image (`decodes` stands for `NSImage(data:)`),
    * otherwise the placeholder.
    */
  function AvatarFor(resolved: Option<Contact>, decodes: Bytes -> bool): (a: Avatar)
    ensures a.Photo? <==>
      resolved.Some? && resolved.value.thumbnailImageData.Some? && decodes(resolved.value.thumbnailImageData.value)
    ensures a.Photo? ==> a.imageData == resolved.value.thumbnailImageData.value
  {
    if resolved.Some? && resolved.value.thumbnailImageData.Some? && decodes(resolved.value.thumbnailImageData.value) then
      Photo(resolved.value.thumbnailImageData.value)
    else
      Placeholder
  }
}
